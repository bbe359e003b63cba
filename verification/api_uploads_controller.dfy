/**
 * `API::V4::UploadsController`: the request gates in front of the upload paths and
 * the status each action answers with. Authentication, routing and JSON encoding
 * are not part of this model.
 */
module ApiUploads {
  import opened Wrappers
  import opened Text
  import opened Quota
  import opened Uploads
  import opened BatchUploads

  const StatusOk: nat := 200
  const StatusCreated: nat := 201
  const StatusBadRequest: nat := 400
  const StatusPaymentRequired: nat := 402
  const StatusNotFound: nat := 404
  const StatusUnprocessable: nat := 422

  /**
   * `upload_json` without the CDN url and the creation time. The filename is the
   * stored name as `ActiveStorage::Filename#to_s` renders it, that is sanitized.
   */
  datatype UploadJson = UploadJson(id: string, filename: string, size: nat, contentType: string)

  datatype FailedJson = FailedJson(filename: string, reason: string)

  /** The `quota` object of a quota error. */
  datatype QuotaJson = QuotaJson(storageUsed: nat, storageLimit: nat, quotaTier: string, percentageUsed: real)

  datatype Body =
    | UploadBody(upload: UploadJson)
    | ErrorBody(error: string)
    | TooManyBody(error: string, detail: string)
    | QuotaErrorBody(error: string, quota: QuotaJson)
    | BatchBody(uploads: seq<UploadJson>, failed: seq<FailedJson>)

  datatype Reply = Reply(status: nat, body: Body)

  /** The reply and the state of the user's stored uploads afterwards. */
  datatype Outcome = Outcome(reply: Reply, store: Store)

  function UploadToJson(u: UploadRecord, sanitize: string -> string): UploadJson {
    UploadJson(u.id, sanitize(u.filename), u.byteSize, u.contentType)
  }

  /**
   * The JSON of a stored upload names the blob it points at: its id and filename are
   * the two halves of the storage key, and its size is the uploaded file's.
   */
  lemma UploadJsonNamesBlob(file: UploadedFile, uploadId: string, provenance: Provenance, c: Collaborators, persist: Persist)
    requires '/' !in uploadId && persist.Persisted?
    ensures var u := CreateFromFile(file, uploadId, provenance, c, persist).value;
      var json := UploadToJson(u, c.sanitize);
      && KeyId(u.key) == json.id
      && KeyName(u.key) == json.filename
      && json.size == file.Size()
  {
    StorageKeyRoundTrip(uploadId, c.sanitize(file.originalFilename));
  }

  function UploadsToJson(us: seq<UploadRecord>, sanitize: string -> string): (js: seq<UploadJson>)
    ensures |js| == |us|
    ensures forall i :: 0 <= i < |us| ==> js[i] == UploadToJson(us[i], sanitize)
  {
    seq(|us|, i requires 0 <= i < |us| => UploadToJson(us[i], sanitize))
  }

  /** Each failure as `{filename, reason}`, in the order the service reported them. */
  function FailuresToJson(fs: seq<FailedUpload>, humanSize: int -> string): (js: seq<FailedJson>)
    ensures |js| == |fs|
    ensures forall i :: 0 <= i < |fs| ==> js[i] == FailedJson(fs[i].filename, ReasonText(fs[i].reason, humanSize))
  {
    seq(|fs|, i requires 0 <= i < |fs| => FailedJson(fs[i].filename, ReasonText(fs[i].reason, humanSize)))
  }

  const DefaultQuotaMessage: string := "Storage quota exceeded"

  /** `quota_error_json`: the custom message when one is given, else the default, plus the usage report. */
  function QuotaErrorJson(usage: Usage, customMessage: Option<string>): (b: Body)
    ensures b.QuotaErrorBody?
    ensures customMessage.Some? ==> b.error == customMessage.value
    ensures customMessage.None? ==> b.error == DefaultQuotaMessage
    ensures b.quota == QuotaJson(usage.storageUsed, usage.storageLimit, usage.tier, usage.percentageUsed)
  {
    QuotaErrorBody(customMessage.GetOr(DefaultQuotaMessage), QuotaJson(usage.storageUsed, usage.storageLimit, usage.tier, usage.percentageUsed))
  }

  function PerFileLimitMessage(limit: nat, humanSize: int -> string): string {
    "File size exceeds your limit of " + humanSize(limit) + " per file"
  }

  /**
   * The `check_quota` filter (`None` lets the action run). It does nothing without
   * a file parameter; an oversize file is refused with the per-file message whatever
   * `can_upload?` says; otherwise the file is refused with the default message
   * exactly when `can_upload?` rejects its size. Every refusal is a 402.
   */
  function CheckQuota(file: Option<UploadedFile>, q: QuotaView, humanSize: int -> string): (halt: Option<Reply>)
    ensures file.None? ==> halt.None?
    ensures file.Some? && file.value.Size() > q.policy.maxFileSize ==>
      halt == Some(Reply(StatusPaymentRequired, QuotaErrorJson(q.usage, Some(PerFileLimitMessage(q.policy.maxFileSize, humanSize)))))
    ensures file.Some? && file.value.Size() <= q.policy.maxFileSize ==>
      && (halt.None? <==> q.canUpload(file.value.Size()))
      && (halt.Some? ==> halt.value == Reply(StatusPaymentRequired, QuotaErrorJson(q.usage, None)))
  {
    match file
    case None => None
    case Some(f) =>
      if f.Size() > q.policy.maxFileSize then
        Some(Reply(StatusPaymentRequired, QuotaErrorJson(q.usage, Some(PerFileLimitMessage(q.policy.maxFileSize, humanSize)))))
      else if !q.canUpload(f.Size()) then
        Some(Reply(StatusPaymentRequired, QuotaErrorJson(q.usage, None)))
      else None
  }

  /**
   * `POST /api/v4/upload`, behind `check_quota`. Without a file it answers 400 and
   * stores nothing; it answers 201 exactly when the filter passed and the blob and
   * record were stored, with the record under the pre-generated id. Besides a 201,
   * only a record creation that raised after the blob upload changes the store: the
   * blob stays behind under its key.
   */
  function Create(file: Option<UploadedFile>, q: QuotaView, c: Collaborators, uploadId: string, persist: Persist,
                  s: Store): (o: Outcome)
    ensures CheckQuota(file, q, c.humanSize).Some? ==> o == Outcome(CheckQuota(file, q, c.humanSize).value, s)
    ensures file.None? ==> o == Outcome(Reply(StatusBadRequest, ErrorBody("Missing file parameter")), s)
    ensures o.reply.status == StatusCreated <==> file.Some? && CheckQuota(file, q, c.humanSize).None? && persist.Persisted?
    ensures o.reply.status == StatusCreated ==>
      var u := CreateFromFile(file.value, uploadId, Api, c, persist).value;
      o == Outcome(Reply(StatusCreated, UploadBody(UploadToJson(u, c.sanitize))), Save(s, u))
    ensures o.reply.status != StatusCreated && !persist.RecordRaised? ==> o.store == s
    ensures file.Some? && CheckQuota(file, q, c.humanSize).None? && !persist.Persisted? ==>
      && o.reply == Reply(StatusUnprocessable, ErrorBody("Upload failed: " + persist.message))
      && o.store.records == s.records
      && (persist.BlobRaised? ==> o.store.blobs == s.blobs)
      && (persist.RecordRaised? ==> o.store.blobs == s.blobs + {StorageKey(uploadId, c.sanitize(file.value.originalFilename))})
  {
    match CheckQuota(file, q, c.humanSize)
    case Some(halt) => Outcome(halt, s)
    case None =>
      match file
      case None => Outcome(Reply(StatusBadRequest, ErrorBody("Missing file parameter")), s)
      case Some(f) =>
        match CreateFromFile(f, uploadId, Api, c, persist)
        case Success(u) => Outcome(Reply(StatusCreated, UploadBody(UploadToJson(u, c.sanitize))), Save(s, u))
        case Failure(m) =>
          var key := StorageKey(uploadId, c.sanitize(f.originalFilename));
          Outcome(Reply(StatusUnprocessable, ErrorBody("Upload failed: " + m)), AfterFailedSave(s, key, persist))
  }

  /**
   * A record creation that raises after the blob upload answers 422 and leaves the
   * blob stored under the upload's key, with no record pointing at it.
   */
  lemma RecordRaiseLeavesBlob(f: UploadedFile, q: QuotaView, c: Collaborators, uploadId: string, m: string, s: Store)
    requires CheckQuota(Some(f), q, c.humanSize).None?
    ensures var o := Create(Some(f), q, c, uploadId, RecordRaised(m), s);
      && o.reply.status == StatusUnprocessable
      && StorageKey(uploadId, c.sanitize(f.originalFilename)) in o.store.blobs
      && o.store.records == s.records
  {
  }

  /**
   * When `can_upload?` is the plain "fits under the total" test, a single upload is
   * created exactly when a batch of that one file would be: both apply the per-file
   * limit, then the total against the stored bytes, then need the store to succeed.
   */
  lemma CreateAgreesWithBatchOfOne(f: UploadedFile, q: QuotaView, c: Collaborators, currentStorage: nat,
                                   ids: nat -> string, persists: nat -> Persist, s: Store)
    requires q.canUpload(f.Size()) <==> currentStorage + f.Size() <= q.policy.maxTotalStorage
    ensures Create(Some(f), q, c, ids(0), persists(0), s).reply.status == StatusCreated <==>
      CreateBatch(FilesArray([f]), q.policy, currentStorage, c, ids, persists).status == StatusCreated
  {
    BatchCreatedIff([f], q.policy, currentStorage, c, ids, persists);
    var v := Judge(q.policy, currentStorage, 0, f, Creator(Api, c, ids, persists)(0, f));
    assert (exists k :: 0 <= k < 1 && Judge(q.policy, currentStorage, 0, [f][k], Creator(Api, c, ids, persists)(k, [f][k])).Accept?)
      <==> v.Accept?;
  }

  /** The `files` parameter: absent, not an array, or an array of uploaded files. */
  datatype FilesParam = FilesAbsent | FilesNotArray | FilesArray(items: seq<UploadedFile>)

  function TooManyDetail(count: nat): string {
    "Maximum " + NatToString(MaxFilesPerBatch) + " files per batch, got " + NatToString(count)
  }

  /**
   * `POST /api/v4/uploads`. A missing, non-array or empty `files` is a 400, more
   * than 40 files is a 400 "Too many files"; otherwise the service runs with API
   * provenance, every file is reported once as an upload or a `{filename, reason}`
   * failure, and the status is 201 exactly when something was stored, else 422.
   */
  function CreateBatch(files: FilesParam, policy: Policy, currentStorage: nat, c: Collaborators,
                       ids: nat -> string, persists: nat -> Persist): (r: Reply)
    ensures !(files.FilesArray? && files.items != []) ==> r == Reply(StatusBadRequest, ErrorBody("Missing files[] parameter"))
    ensures files.FilesArray? && |files.items| > MaxFilesPerBatch ==>
      r == Reply(StatusBadRequest, TooManyBody("Too many files", TooManyDetail(|files.items|)))
    ensures files.FilesArray? && 0 < |files.items| <= MaxFilesPerBatch ==>
      var res := ProcessFiles(policy, currentStorage, files.items, Creator(Api, c, ids, persists));
      && r.body == BatchBody(UploadsToJson(res.uploads, c.sanitize), FailuresToJson(res.failed, c.humanSize))
      && |r.body.uploads| + |r.body.failed| == |files.items|
      && (r.status == StatusCreated <==> |res.uploads| > 0)
      && (r.status == StatusUnprocessable <==> |res.uploads| == 0)
  {
    if !(files.FilesArray? && files.items != []) then
      Reply(StatusBadRequest, ErrorBody("Missing files[] parameter"))
    else if |files.items| > MaxFilesPerBatch then
      Reply(StatusBadRequest, TooManyBody("Too many files", TooManyDetail(|files.items|)))
    else
      var res := ProcessFiles(policy, currentStorage, files.items, Creator(Api, c, ids, persists));
      var body := BatchBody(UploadsToJson(res.uploads, c.sanitize), FailuresToJson(res.failed, c.humanSize));
      Reply(if |res.uploads| > 0 then StatusCreated else StatusUnprocessable, body)
  }

  /**
   * A batch of 1 to 40 files answers 201 exactly when some file, judged against the
   * baseline storage alone, passes both limits and is stored.
   */
  lemma BatchCreatedIff(items: seq<UploadedFile>, policy: Policy, currentStorage: nat, c: Collaborators,
                        ids: nat -> string, persists: nat -> Persist)
    requires 0 < |items| <= MaxFilesPerBatch
    ensures CreateBatch(FilesArray(items), policy, currentStorage, c, ids, persists).status == StatusCreated <==>
      exists k :: 0 <= k < |items| && Judge(policy, currentStorage, 0, items[k], Creator(Api, c, ids, persists)(k, items[k])).Accept?
  {
    NothingStoredIff(policy, currentStorage, items, Creator(Api, c, ids, persists));
  }

  /** The post-download test: `can_upload?(0)` refuses and the stored total is over the quota. */
  predicate OverQuota(q: QuotaView) {
    !q.canUpload(0) && q.totalStorageBytes > q.policy.maxTotalStorage
  }

  /**
   * `POST /api/v4/upload_from_url`, behind `check_quota`. `before` is the quota
   * service before the download and `after` the one built once the upload exists,
   * whose over-quota test is made before any destroy. `finalUsage` is the usage
   * report read after the destroy, which the 402 body carries. A downloaded upload
   * is destroyed, and the answer is 402, only when `after` is over quota; if that
   * destroy fails the answer is 422 and the upload stays. A download that fails at
   * the record creation leaves its blob behind.
   */
  function CreateFromUrl(file: Option<UploadedFile>, url: Option<string>, downloadAuth: Option<string>,
                         before: QuotaView, after: QuotaView, c: Collaborators, env: FetchEnv,
                         s: Store, purgeFault: Option<string>, finalUsage: Usage): (o: Outcome)
    ensures CheckQuota(file, before, c.humanSize).Some? ==> o == Outcome(CheckQuota(file, before, c.humanSize).value, s)
    ensures CheckQuota(file, before, c.humanSize).None? && !(url.Some? && IsPresent(url.value)) ==>
      o == Outcome(Reply(StatusBadRequest, ErrorBody("Missing url parameter")), s)
    ensures o.reply.status == StatusCreated ==>
      && CheckQuota(file, before, c.humanSize).None? && url.Some?
      && var made := Uploads.CreateFromUrl(url.value, Api, url, downloadAuth, None, before, c, env);
      && made.Success? && !OverQuota(after)
      && o == Outcome(Reply(StatusCreated, UploadBody(UploadToJson(made.value, c.sanitize))), Save(s, made.value))
    ensures CheckQuota(file, before, c.humanSize).None? && url.Some? && IsPresent(url.value) ==>
      var made := Uploads.CreateFromUrl(url.value, Api, url, downloadAuth, None, before, c, env);
      && var blob := UrlBlobKey(url.value, downloadAuth, None, before, c, env);
      && (made.Failure? ==>
            && o.reply == Reply(StatusUnprocessable, ErrorBody("Upload failed: " + FetchErrorMessage(made.error, c.humanSize)))
            && o.store.records == s.records
            && (blob.Some? && env.persist.RecordRaised? ==> o.store.blobs == s.blobs + {blob.value})
            && (!(blob.Some? && env.persist.RecordRaised?) ==> o.store == s))
      && (made.Success? && !OverQuota(after) ==> o.reply.status == StatusCreated)
      && (made.Success? && OverQuota(after) && purgeFault.None? ==>
            && o.reply == Reply(StatusPaymentRequired, QuotaErrorJson(finalUsage, None))
            && o.store == Store(s.records - {made.value.id}, s.blobs - {made.value.key}))
      && (made.Success? && OverQuota(after) && purgeFault.Some? ==>
            o == Outcome(Reply(StatusUnprocessable, ErrorBody("Upload failed: " + purgeFault.value)), Save(s, made.value)))
  {
    match CheckQuota(file, before, c.humanSize)
    case Some(halt) => Outcome(halt, s)
    case None =>
      if !(url.Some? && IsPresent(url.value)) then
        Outcome(Reply(StatusBadRequest, ErrorBody("Missing url parameter")), s)
      else
        match Uploads.CreateFromUrl(url.value, Api, url, downloadAuth, None, before, c, env)
        case Failure(e) =>
          var blob := UrlBlobKey(url.value, downloadAuth, None, before, c, env);
          var left := if blob.Some? then AfterFailedSave(s, blob.value, env.persist) else s;
          Outcome(Reply(StatusUnprocessable, ErrorBody("Upload failed: " + FetchErrorMessage(e, c.humanSize))), left)
        case Success(u) => Settle(s, u, OverQuota(after), purgeFault, finalUsage, c.sanitize)
  }

  /**
   * A 402 after the download takes the store back to where it was, when the new
   * upload's id and key were not there before.
   */
  lemma OverQuotaLeavesStore(file: Option<UploadedFile>, url: Option<string>, downloadAuth: Option<string>,
                             before: QuotaView, after: QuotaView, c: Collaborators, env: FetchEnv,
                             s: Store, finalUsage: Usage)
    requires CheckQuota(file, before, c.humanSize).None? && url.Some? && IsPresent(url.value)
    requires var made := Uploads.CreateFromUrl(url.value, Api, url, downloadAuth, None, before, c, env);
      made.Success? && made.value.id !in s.records && made.value.key !in s.blobs
    requires OverQuota(after)
    ensures CreateFromUrl(file, url, downloadAuth, before, after, c, env, s, None, finalUsage).store == s
    ensures CreateFromUrl(file, url, downloadAuth, before, after, c, env, s, None, finalUsage).reply.status == StatusPaymentRequired
  {
    var u := Uploads.CreateFromUrl(url.value, Api, url, downloadAuth, None, before, c, env).value;
    DestroyUndoesSave(s, u);
  }

  /**
   * `check_quota` on an uploaded file and the HEAD pre-check of a URL upload apply
   * the same per-file-then-quota rule: a HEAD that announces the file's size (under
   * any spelling of the length field) is refused exactly when the file would be, and
   * for the same reason when it is too large.
   */
  lemma HeadAgreesWithCheckQuota(f: UploadedFile, q: QuotaView, humanSize: int -> string, lengthField: string)
    requires f.Size() > 0 && Lower(lengthField) == "content-length"
    ensures var head := HeadReplied(200, Received([(lengthField, NatToString(f.Size()))]));
      && (CheckQuota(Some(f), q, humanSize).None? <==> PreCheckViaHead(head, q).None?)
      && (f.Size() > q.policy.maxFileSize ==> PreCheckViaHead(head, q) == Some(FileTooLarge(f.Size(), q.policy.maxFileSize)))
      && (f.Size() <= q.policy.maxFileSize && PreCheckViaHead(head, q).Some? ==> PreCheckViaHead(head, q) == Some(ExceedsQuota))
  {
    var head := HeadReplied(200, Received([(lengthField, NatToString(f.Size()))]));
    LengthAnnounced(lengthField, f.Size());
    var pre := PreCheckViaHead(head, q);
    var halt := CheckQuota(Some(f), q, humanSize);
    if f.Size() > q.policy.maxFileSize {
      assert pre.Some? && halt.Some?;
    } else {
      assert pre.None? <==> q.canUpload(f.Size());
      assert halt.None? <==> q.canUpload(f.Size());
    }
  }

  /**
   * What `create_from_url` does with a downloaded upload: keep it and answer 201,
   * or, when over quota, destroy it and answer 402 with the usage read afterwards;
   * a destroy that fails answers 422 and keeps the upload.
   */
  function Settle(s: Store, u: UploadRecord, overQuota: bool, purgeFault: Option<string>, finalUsage: Usage,
                  sanitize: string -> string): (o: Outcome)
    ensures !overQuota ==> o == Outcome(Reply(StatusCreated, UploadBody(UploadToJson(u, sanitize))), Save(s, u))
    ensures overQuota && purgeFault.None? ==>
      o == Outcome(Reply(StatusPaymentRequired, QuotaErrorJson(finalUsage, None)), Store(s.records - {u.id}, s.blobs - {u.key}))
    ensures overQuota && purgeFault.Some? ==>
      o == Outcome(Reply(StatusUnprocessable, ErrorBody("Upload failed: " + purgeFault.value)), Save(s, u))
  {
    var saved := Save(s, u);
    if !overQuota then Outcome(Reply(StatusCreated, UploadBody(UploadToJson(u, sanitize))), saved)
    else
      match Destroy(saved, u, purgeFault)
      case Success(s') =>
        assert saved.records - {u.id} == s.records - {u.id};
        assert saved.blobs - {u.key} == s.blobs - {u.key};
        Outcome(Reply(StatusPaymentRequired, QuotaErrorJson(finalUsage, None)), s')
      case Failure(m) => Outcome(Reply(StatusUnprocessable, ErrorBody("Upload failed: " + m)), saved)
  }

  /**
   * What `rename!` and the rendering of the renamed upload can raise: a record that
   * is not found (`ActiveRecord::RecordNotFound`), or any other error.
   */
  datatype RenameError = RecordNotFound | RenameRaised(message: string)

  /**
   * `PATCH /api/v4/uploads/:id/rename`. An unknown upload is a 404 before anything
   * else; the filename parameter (absent reads as "") is stripped, and a blank result
   * is a 400 whatever the renamer would do; otherwise the renamer gets the stripped
   * name and its result decides: 200 on success, and on failure the same 404 as an
   * unknown upload when the record was not found, else 422.
   */
  function Rename(found: Option<UploadRecord>, filename: Option<string>,
                  renamer: (UploadRecord, string) -> Result<UploadRecord, RenameError>, sanitize: string -> string): (r: Reply)
    ensures found.None? ==> r == Reply(StatusNotFound, ErrorBody("Upload not found"))
    ensures found.Some? && IsBlank(Strip(filename.GetOr(""))) ==> r == Reply(StatusBadRequest, ErrorBody("Missing filename parameter"))
    ensures r.status == StatusOk ==>
      && found.Some? && IsPresent(Strip(filename.GetOr("")))
      && renamer(found.value, Strip(filename.GetOr(""))).Success?
      && r.body == UploadBody(UploadToJson(renamer(found.value, Strip(filename.GetOr(""))).value, sanitize))
    ensures found.Some? && IsPresent(Strip(filename.GetOr(""))) ==>
      (r.status == StatusOk <==> renamer(found.value, Strip(filename.GetOr(""))).Success?)
    ensures found.Some? && IsPresent(Strip(filename.GetOr(""))) && renamer(found.value, Strip(filename.GetOr(""))) == Failure(RecordNotFound) ==>
      r == Reply(StatusNotFound, ErrorBody("Upload not found"))
    ensures found.Some? && IsPresent(Strip(filename.GetOr(""))) && renamer(found.value, Strip(filename.GetOr(""))).Failure?
            && renamer(found.value, Strip(filename.GetOr(""))).error.RenameRaised? ==>
      r == Reply(StatusUnprocessable, ErrorBody("Rename failed: " + renamer(found.value, Strip(filename.GetOr(""))).error.message))
  {
    match found
    case None => Reply(StatusNotFound, ErrorBody("Upload not found"))
    case Some(upload) =>
      var newFilename := Strip(filename.GetOr(""));
      if IsBlank(newFilename) then Reply(StatusBadRequest, ErrorBody("Missing filename parameter"))
      else
        match renamer(upload, newFilename)
        case Success(renamed) => Reply(StatusOk, UploadBody(UploadToJson(renamed, sanitize)))
        case Failure(RecordNotFound) => Reply(StatusNotFound, ErrorBody("Upload not found"))
        case Failure(RenameRaised(m)) => Reply(StatusUnprocessable, ErrorBody("Rename failed: " + m))
  }

  /** Rename sees the filename parameter only through its stripped form. */
  lemma RenameSeesStripped(found: Option<UploadRecord>, p: string, q: string,
                           renamer: (UploadRecord, string) -> Result<UploadRecord, RenameError>, sanitize: string -> string)
    requires Strip(p) == Strip(q)
    ensures Rename(found, Some(p), renamer, sanitize) == Rename(found, Some(q), renamer, sanitize)
  {
  }

  /**
   * Padding a name with strip characters on either side does not change the answer:
   * the renamer gets the name itself.
   */
  lemma RenameIgnoresPadding(found: Option<UploadRecord>, before: string, name: string, after: string,
                             renamer: (UploadRecord, string) -> Result<UploadRecord, RenameError>, sanitize: string -> string)
    requires forall k :: 0 <= k < |before| ==> before[k] in StripChars
    requires forall k :: 0 <= k < |after| ==> after[k] in StripChars
    requires name != [] && name[0] !in StripChars && name[|name| - 1] !in StripChars
    ensures Rename(found, Some(before + name + after), renamer, sanitize) == Rename(found, Some(name), renamer, sanitize)
  {
    StrippedAlike(before, name, after);
    RenameSeesStripped(found, before + name + after, name, renamer, sanitize);
  }
}
