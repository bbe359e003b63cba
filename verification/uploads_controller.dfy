/**
 * The web `UploadsController#create`: gather the submitted files, refuse an empty
 * or oversized selection, run the batch service, and redirect with a flash.
 */
module WebUploads {
  import opened Wrappers
  import opened Text
  import opened Quota
  import opened Uploads
  import opened BatchUploads

  /** One `files[]` entry or the `file` parameter: blank (absent, "" ...) or an uploaded file. */
  datatype Param = Blank | Given(file: UploadedFile)

  /** The non-blank entries, in order. */
  function Givens(ps: seq<Param>): (r: seq<UploadedFile>)
    ensures |r| <= |ps|
    ensures forall i :: 0 <= i < |r| ==> Given(r[i]) in ps
  {
    if ps == [] then [] else (if ps[0].Given? then [ps[0].file] else []) + Givens(ps[1..])
  }

  lemma {:induction false} GivensAppend(a: seq<Param>, b: seq<Param>)
    ensures Givens(a + b) == Givens(a) + Givens(b)
  {
    if a != [] {
      assert (a + b)[1..] == a[1..] + b;
      GivensAppend(a[1..], b);
    } else {
      assert a + b == b;
    }
  }

  /**
   * `extract_uploaded_files`: the `files[]` entries first, then the single `file`
   * parameter, with the blank ones dropped.
   */
  function ExtractUploadedFiles(files: seq<Param>, file: Param): (r: seq<UploadedFile>)
    ensures r == Givens(files) + (if file.Given? then [file.file] else [])
    ensures |r| <= |files| + 1
  {
    GivensAppend(files, [file]);
    assert Givens([file]) == (if file.Given? then [file.file] else []) by {
      assert [file][1..] == [];
    }
    Givens(files + [file])
  }

  function UploadedPart(n: nat): string {
    NatToString(n) + " file(s) uploaded successfully"
  }

  function FailedPart(n: nat): string {
    NatToString(n) + " file(s) failed to upload"
  }

  /** No count makes the two kinds of message part coincide. */
  lemma PartsDiffer(a: nat, b: nat)
    ensures UploadedPart(a) != FailedPart(b)
  {
    var x, y := NatToString(a), NatToString(b);
    var u, f := UploadedPart(a), FailedPart(b);
    if |x| == |y| {
      assert u[|x| + 9] == 'u' && f[|y| + 9] == 'f';
    } else if |x| < |y| {
      assert u[|x|] == ' ' && f[|x|] == y[|x|] && IsDigit(y[|x|]);
    } else {
      assert f[|y|] == ' ' && u[|y|] == x[|y|] && IsDigit(x[|y|]);
    }
  }

  /**
   * The parts `build_flash_message` joins: the uploaded count when anything was
   * stored, then the failed count when anything failed.
   */
  function FlashParts(uploaded: nat, failed: nat): (parts: seq<string>)
    ensures UploadedPart(uploaded) in parts <==> uploaded > 0
    ensures FailedPart(failed) in parts <==> failed > 0
    ensures parts == [] <==> uploaded == 0 && failed == 0
    ensures |parts| == (if uploaded > 0 then 1 else 0) + (if failed > 0 then 1 else 0)
    ensures uploaded > 0 ==> parts[0] == UploadedPart(uploaded)
    ensures failed > 0 ==> parts[|parts| - 1] == FailedPart(failed)
    ensures forall i :: 0 <= i < |parts| ==> parts[i] != []
  {
    PartsDiffer(uploaded, failed);
    (if uploaded > 0 then [UploadedPart(uploaded)] else []) + (if failed > 0 then [FailedPart(failed)] else [])
  }

  /**
   * `build_flash_message`: "N file(s) uploaded successfully" and "M file(s) failed
   * to upload", each only when its list is non-empty, joined by ", " with the
   * uploaded part first; "" when both lists are empty.
   */
  function BuildFlashMessage(r: BatchResult): (m: string)
    ensures |r.uploads| > 0 && |r.failed| > 0 ==> m == UploadedPart(|r.uploads|) + ", " + FailedPart(|r.failed|)
    ensures |r.uploads| > 0 && |r.failed| == 0 ==> m == UploadedPart(|r.uploads|)
    ensures |r.uploads| == 0 && |r.failed| > 0 ==> m == FailedPart(|r.failed|)
    ensures m == [] <==> |r.uploads| == 0 && |r.failed| == 0
    ensures |r.uploads| > 0 ==> UploadedPart(|r.uploads|) <= m
  {
    var parts := FlashParts(|r.uploads|, |r.failed|);
    Join(parts, ", ")
  }

  datatype FlashKind = Notice | Alert

  /** A redirect to the uploads page with a flash of the given kind. */
  datatype Redirect = Redirect(kind: FlashKind, message: string)

  /** The redirect, and the service's result when the service was run at all. */
  datatype WebOutcome = WebOutcome(redirect: Redirect, result: Option<BatchResult>)

  const NoFilesAlert: string := "Please select at least one file to upload."

  function TooManyFilesAlert(): string {
    "Too many files selected. Max " + NatToString(MaxFilesPerBatch) + " files allowed per upload."
  }

  /**
   * `create`: with no files, or more than 40, it redirects with an alert and never
   * runs the service; otherwise it runs the service with web provenance on the
   * extracted files and redirects with the built message, as a notice when
   * something was stored and as an alert otherwise.
   */
  function Create(files: seq<Param>, file: Param, policy: Policy, currentStorage: nat, c: Collaborators,
                  ids: nat -> string, persists: nat -> Persist): (o: WebOutcome)
    ensures var fs := ExtractUploadedFiles(files, file);
      && (fs == [] ==> o == WebOutcome(Redirect(Alert, NoFilesAlert), None))
      && (|fs| > MaxFilesPerBatch ==> o == WebOutcome(Redirect(Alert, TooManyFilesAlert()), None))
      && (0 < |fs| <= MaxFilesPerBatch ==>
            && o.result == Some(ProcessFiles(policy, currentStorage, fs, Creator(Web, c, ids, persists)))
            && o.redirect.message == BuildFlashMessage(o.result.value)
            && (o.redirect.kind == Notice <==> |o.result.value.uploads| > 0))
  {
    var fs := ExtractUploadedFiles(files, file);
    if fs == [] then WebOutcome(Redirect(Alert, NoFilesAlert), None)
    else if |fs| > MaxFilesPerBatch then WebOutcome(Redirect(Alert, TooManyFilesAlert()), None)
    else
      var result := ProcessFiles(policy, currentStorage, fs, Creator(Web, c, ids, persists));
      var message := BuildFlashMessage(result);
      WebOutcome(Redirect(if |result.uploads| > 0 then Notice else Alert, message), Some(result))
  }

  /**
   * The redirect carries a notice exactly when some submitted file, judged against
   * the baseline storage alone, passes both limits and is stored.
   */
  lemma NoticeIff(files: seq<Param>, file: Param, policy: Policy, currentStorage: nat, c: Collaborators,
                  ids: nat -> string, persists: nat -> Persist)
    ensures var fs := ExtractUploadedFiles(files, file);
      Create(files, file, policy, currentStorage, c, ids, persists).redirect.kind == Notice <==>
        && |fs| <= MaxFilesPerBatch
        && exists k :: 0 <= k < |fs| && Judge(policy, currentStorage, 0, fs[k], Creator(Web, c, ids, persists)(k, fs[k])).Accept?
  {
    var fs := ExtractUploadedFiles(files, file);
    NothingStoredIff(policy, currentStorage, fs, Creator(Web, c, ids, persists));
  }
}
