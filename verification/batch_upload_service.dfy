/**
 * `BatchUploadService`: one pass over the submitted files, in order, that rejects a
 * file over the per-file limit, rejects a file that would push the stored total past
 * the quota, and otherwise hands it to `create_upload`, whose failure is recorded
 * and does not stop the batch.
 */
module BatchUploads {
  import opened Wrappers
  import opened Quota
  import opened Uploads

  /** The largest batch the controllers hand to the service. */
  const MaxFilesPerBatch: nat := 40

  /** Why a file of the batch was not stored; sizes stay numbers, not formatted text. */
  datatype Reason =
    | ExceedsFileLimit(size: nat, limit: nat)
    | WouldExceedQuota(remaining: int)
    | UploadError(message: string)

  datatype FailedUpload = FailedUpload(filename: string, reason: Reason)

  /** The service's `Result`: the stored uploads and the failures, each in input order. */
  datatype BatchResult = BatchResult(uploads: seq<UploadRecord>, failed: seq<FailedUpload>)

  /** What `create_upload` does for one file: the created record, or the message it raised. */
  type Attempt = Result<UploadRecord, string>

  /** The fate of one file. */
  datatype Verdict = Accept(upload: UploadRecord) | Reject(failure: FailedUpload)

  /**
   * One iteration of the loop, given the storage read before the loop and the bytes
   * the batch has stored so far.
   */
  function Judge(policy: Policy, currentStorage: nat, used: nat, file: UploadedFile, attempt: Attempt): (v: Verdict)
    ensures v.Accept? <==>
      file.Size() <= policy.maxFileSize && currentStorage + used + file.Size() <= policy.maxTotalStorage && attempt.Success?
    ensures v.Accept? ==> v.upload == attempt.value
    ensures v.Reject? ==> v.failure.filename == file.originalFilename
    ensures file.Size() > policy.maxFileSize ==> v.failure.reason == ExceedsFileLimit(file.Size(), policy.maxFileSize)
    ensures file.Size() <= policy.maxFileSize && currentStorage + used + file.Size() > policy.maxTotalStorage ==>
      v.failure.reason == WouldExceedQuota(policy.maxTotalStorage - currentStorage - used)
    ensures file.Size() <= policy.maxFileSize && currentStorage + used + file.Size() <= policy.maxTotalStorage && attempt.Failure? ==>
      v.failure.reason == UploadError(attempt.error)
  {
    if file.Size() > policy.maxFileSize then
      Reject(FailedUpload(file.originalFilename, ExceedsFileLimit(file.Size(), policy.maxFileSize)))
    else if currentStorage + used + file.Size() > policy.maxTotalStorage then
      Reject(FailedUpload(file.originalFilename, WouldExceedQuota(policy.maxTotalStorage - currentStorage - used)))
    else
      match attempt
      case Success(u) => Accept(u)
      case Failure(m) => Reject(FailedUpload(file.originalFilename, UploadError(m)))
  }

  /**
   * The loop state: the service's `uploads`, `failed` and `batch_bytes_used`, plus
   * the input positions of the accepted and of the rejected files. The positions are
   * bookkeeping of this model, kept so that order and accounting can be stated.
   */
  datatype Tally = Tally(
    uploads: seq<UploadRecord>,
    failed: seq<FailedUpload>,
    batchBytesUsed: nat,
    accepted: seq<nat>,
    rejected: seq<nat>)

  function Step(policy: Policy, currentStorage: nat, t: Tally, k: nat, file: UploadedFile, attempt: Attempt): Tally {
    match Judge(policy, currentStorage, t.batchBytesUsed, file, attempt)
    case Accept(u) => Tally(t.uploads + [u], t.failed, t.batchBytesUsed + file.Size(), t.accepted + [k], t.rejected)
    case Reject(f) => Tally(t.uploads, t.failed + [f], t.batchBytesUsed, t.accepted, t.rejected + [k])
  }

  predicate Below(positions: seq<nat>, n: nat) {
    forall i :: 0 <= i < |positions| ==> positions[i] < n
  }

  predicate Increasing(positions: seq<nat>) {
    forall i, j :: 0 <= i < j < |positions| ==> positions[i] < positions[j]
  }

  /**
   * `accepted` and `rejected` list the positions `0 .. n-1` in increasing order,
   * every position in exactly one of them.
   */
  predicate OrderedPartition(n: nat, accepted: seq<nat>, rejected: seq<nat>) {
    && Increasing(accepted) && Increasing(rejected)
    && Below(accepted, n) && Below(rejected, n)
    && |accepted| + |rejected| == n
    && (forall k :: 0 <= k < n ==> (k in accepted <==> k !in rejected))
  }

  /** The summed sizes of the files at those of `positions` that lie before position `k`. */
  function UsedBefore(files: seq<UploadedFile>, positions: seq<nat>, k: nat): nat {
    if positions == [] then 0
    else
      var p := positions[|positions| - 1];
      UsedBefore(files, positions[..|positions| - 1], k) + (if p < k && p < |files| then files[p].Size() else 0)
  }

  lemma {:induction false} UsedBeforePrefix(files: seq<UploadedFile>, n: nat, positions: seq<nat>, k: nat)
    requires n <= |files| && Below(positions, n)
    ensures UsedBefore(files[..n], positions, k) == UsedBefore(files, positions, k)
    decreases |positions|
  {
    if positions != [] {
      UsedBeforePrefix(files, n, positions[..|positions| - 1], k);
    }
  }

  lemma {:induction false} UsedBeforeSaturates(files: seq<UploadedFile>, positions: seq<nat>, k: nat, k': nat)
    requires Below(positions, |files|) && Below(positions, k) && k <= k'
    ensures UsedBefore(files, positions, k) == UsedBefore(files, positions, k')
    decreases |positions|
  {
    if positions != [] {
      UsedBeforeSaturates(files, positions[..|positions| - 1], k, k');
    }
  }

  /** Appending a position at or after `k` does not change the sum before `k`. */
  lemma UsedBeforeAppendLater(files: seq<UploadedFile>, positions: seq<nat>, p: nat, k: nat)
    requires Below(positions, |files|) && p < |files| && k <= p
    ensures UsedBefore(files, positions + [p], k) == UsedBefore(files, positions, k)
  {
    assert (positions + [p])[..|positions|] == positions;
  }

  /** The loop state is a consistent record of the files processed so far. */
  predicate Consistent(files: seq<UploadedFile>, t: Tally) {
    && OrderedPartition(|files|, t.accepted, t.rejected)
    && |t.uploads| == |t.accepted| && |t.failed| == |t.rejected|
  }

  /** Every recorded position lies in the batch and has its record alongside. */
  predicate Aligned(files: seq<UploadedFile>, t: Tally) {
    && Below(t.accepted, |files|) && Below(t.rejected, |files|)
    && |t.uploads| == |t.accepted| && |t.failed| == |t.rejected|
  }

  /** The one-iteration rule as a value: the counter so far, the position and the file in, the verdict out. */
  function JudgeRule(policy: Policy, currentStorage: nat, create: (nat, UploadedFile) -> Attempt): (nat, nat, UploadedFile) -> Verdict {
    (used: nat, k: nat, file: UploadedFile) => Judge(policy, currentStorage, used, file, create(k, file))
  }

  /** Each accepted file was accepted by `rule` against the files accepted before it. */
  predicate AcceptedBy(rule: (nat, nat, UploadedFile) -> Verdict, files: seq<UploadedFile>, t: Tally)
    requires Aligned(files, t)
  {
    forall j :: 0 <= j < |t.accepted| ==>
      rule(UsedBefore(files, t.accepted, t.accepted[j]), t.accepted[j], files[t.accepted[j]]) == Accept(t.uploads[j])
  }

  /** Each rejected file was rejected by `rule`, with the failure recorded. */
  predicate RejectedBy(rule: (nat, nat, UploadedFile) -> Verdict, files: seq<UploadedFile>, t: Tally)
    requires Aligned(files, t)
  {
    forall j :: 0 <= j < |t.rejected| ==>
      rule(UsedBefore(files, t.accepted, t.rejected[j]), t.rejected[j], files[t.rejected[j]]) == Reject(t.failed[j])
  }

  /**
   * Each accepted and each rejected file got the fate the one-iteration rule gives
   * it against the baseline plus the sizes of the files accepted before it.
   */
  predicate Decided(policy: Policy, currentStorage: nat, files: seq<UploadedFile>, create: (nat, UploadedFile) -> Attempt, t: Tally)
    requires Consistent(files, t)
  {
    var rule := JudgeRule(policy, currentStorage, create);
    AcceptedBy(rule, files, t) && RejectedBy(rule, files, t)
  }

  /** The loop over `files`, one `Step` per file, in input order. */
  function Run(policy: Policy, currentStorage: nat, files: seq<UploadedFile>, create: (nat, UploadedFile) -> Attempt): Tally
    decreases |files|
  {
    if files == [] then Tally([], [], 0, [], [])
    else
      var n := |files| - 1;
      Step(policy, currentStorage, Run(policy, currentStorage, files[..n], create), n, files[n], create(n, files[n]))
  }

  /**
   * What the loop establishes. Every file lands in exactly one of `uploads` and
   * `failed`, both in input order; each file's fate is the one-iteration rule applied
   * to the baseline storage and the sizes of the files accepted before it; the
   * counter is the sum of the accepted files' sizes; no accepted file is over the
   * per-file limit; and once anything is accepted the baseline plus the counter stays
   * within the total quota (before that the counter is 0).
   */
  lemma {:induction false} RunInvariant(policy: Policy, currentStorage: nat, files: seq<UploadedFile>, create: (nat, UploadedFile) -> Attempt)
    ensures var t := Run(policy, currentStorage, files, create);
      && Consistent(files, t)
      && Decided(policy, currentStorage, files, create, t)
      && t.batchBytesUsed == UsedBefore(files, t.accepted, |files|)
      && (forall j :: 0 <= j < |t.accepted| ==> files[t.accepted[j]].Size() <= policy.maxFileSize)
      && (t.accepted == [] ==> t.batchBytesUsed == 0)
      && (t.accepted != [] ==> currentStorage + t.batchBytesUsed <= policy.maxTotalStorage)
    decreases |files|
  {
    if files != [] {
      var n := |files| - 1;
      RunInvariant(policy, currentStorage, files[..n], create);
      var t := Run(policy, currentStorage, files[..n], create);
      var v := Judge(policy, currentStorage, t.batchBytesUsed, files[n], create(n, files[n]));
      var t' := Step(policy, currentStorage, t, n, files[n], create(n, files[n]));
      assert t' == Run(policy, currentStorage, files, create);
      StepShape(policy, currentStorage, t, n, files[n], create(n, files[n]));
      StepConsistent(files, t, t', v.Accept?);
      UsedBeforeStep(files, t, t', v.Accept?);
      StepDecided(policy, currentStorage, files, create, t, t');
      StepBounds(policy, currentStorage, files, create, t, t');
    }
  }

  /** One step keeps the per-file bound on accepted files and the admission bound. */
  lemma StepBounds(policy: Policy, currentStorage: nat, files: seq<UploadedFile>, create: (nat, UploadedFile) -> Attempt, t: Tally, t': Tally)
    requires files != []
    requires var n := |files| - 1;
      && Below(t.accepted, n)
      && t' == Step(policy, currentStorage, t, n, files[n], create(n, files[n]))
      && (forall j :: 0 <= j < |t.accepted| ==> files[..n][t.accepted[j]].Size() <= policy.maxFileSize)
      && (t.accepted == [] ==> t.batchBytesUsed == 0)
      && (t.accepted != [] ==> currentStorage + t.batchBytesUsed <= policy.maxTotalStorage)
    ensures Below(t'.accepted, |files|)
    ensures forall j :: 0 <= j < |t'.accepted| ==> files[t'.accepted[j]].Size() <= policy.maxFileSize
    ensures t'.accepted == [] ==> t'.batchBytesUsed == 0
    ensures t'.accepted != [] ==> currentStorage + t'.batchBytesUsed <= policy.maxTotalStorage
  {
    var n := |files| - 1;
    assert forall j :: 0 <= j < |t.accepted| ==> files[..n][t.accepted[j]] == files[t.accepted[j]];
    var v := Judge(policy, currentStorage, t.batchBytesUsed, files[n], create(n, files[n]));
    if v.Accept? {
      assert t'.accepted == t.accepted + [n];
      assert forall j :: 0 <= j < |t.accepted| ==> t'.accepted[j] == t.accepted[j];
    } else {
      assert t' == Tally(t.uploads, t.failed + [v.failure], t.batchBytesUsed, t.accepted, t.rejected + [n]);
    }
  }

  /** One step appends position `n` to exactly one of the two position lists. */
  lemma StepConsistent(files: seq<UploadedFile>, t: Tally, t': Tally, accept: bool)
    requires files != [] && Consistent(files[..|files| - 1], t)
    requires accept ==> t' == Tally(t'.uploads, t'.failed, t'.batchBytesUsed, t.accepted + [|files| - 1], t.rejected)
    requires !accept ==> t' == Tally(t'.uploads, t'.failed, t'.batchBytesUsed, t.accepted, t.rejected + [|files| - 1])
    requires |t'.uploads| + |t'.failed| == |t.uploads| + |t.failed| + 1
    requires accept ==> |t'.uploads| == |t.uploads| + 1
    requires !accept ==> |t'.failed| == |t.failed| + 1
    ensures Consistent(files, t')
  {
    var n := |files| - 1;
    if accept {
      assert forall k :: 0 <= k < |files| ==> (k in t'.accepted <==> k in t.accepted || k == n);
    } else {
      assert forall k :: 0 <= k < |files| ==> (k in t'.rejected <==> k in t.rejected || k == n);
    }
  }

  /** How the sums before each position relate across one step. */
  lemma UsedBeforeStep(files: seq<UploadedFile>, t: Tally, t': Tally, accept: bool)
    requires files != [] && Consistent(files[..|files| - 1], t)
    requires accept ==> t'.accepted == t.accepted + [|files| - 1]
    requires !accept ==> t'.accepted == t.accepted
    ensures forall k :: 0 <= k <= |files| - 1 ==> UsedBefore(files, t'.accepted, k) == UsedBefore(files[..|files| - 1], t.accepted, k)
    ensures UsedBefore(files, t'.accepted, |files|)
      == UsedBefore(files[..|files| - 1], t.accepted, |files| - 1) + (if accept then files[|files| - 1].Size() else 0)
  {
    var n := |files| - 1;
    forall k: nat
      ensures UsedBefore(files[..n], t.accepted, k) == UsedBefore(files, t.accepted, k)
    {
      UsedBeforePrefix(files, n, t.accepted, k);
    }
    UsedBeforeSaturates(files, t.accepted, n, |files|);
    forall k | 0 <= k <= n
      ensures UsedBefore(files, t'.accepted, k) == UsedBefore(files, t.accepted, k)
    {
      if accept {
        UsedBeforeAppendLater(files, t.accepted, n, k);
      }
    }
    if accept {
      assert (t.accepted + [n])[..|t.accepted|] == t.accepted;
    }
  }

  /** One step keeps every earlier decision and records the new one. */
  lemma StepDecided(policy: Policy, currentStorage: nat, files: seq<UploadedFile>, create: (nat, UploadedFile) -> Attempt, t: Tally, t': Tally)
    requires files != []
    requires var n := |files| - 1;
      && Consistent(files[..n], t)
      && Decided(policy, currentStorage, files[..n], create, t)
      && t.batchBytesUsed == UsedBefore(files[..n], t.accepted, n)
      && t' == Step(policy, currentStorage, t, n, files[n], create(n, files[n]))
      && Consistent(files, t')
      && (forall k :: 0 <= k <= n ==> UsedBefore(files, t'.accepted, k) == UsedBefore(files[..n], t.accepted, k))
    ensures Decided(policy, currentStorage, files, create, t')
  {
    var n := |files| - 1;
    var rule := JudgeRule(policy, currentStorage, create);
    var v := Judge(policy, currentStorage, t.batchBytesUsed, files[n], create(n, files[n]));
    StepShape(policy, currentStorage, t, n, files[n], create(n, files[n]));
    assert UsedBefore(files, t'.accepted, n) == t.batchBytesUsed;
    assert v == rule(UsedBefore(files, t'.accepted, n), n, files[n]);
    StepAcceptedBy(rule, files, t, t', v);
    StepRejectedBy(rule, files, t, t', v);
  }

  /** A step appends the verdict's record or failure and the position to the matching lists. */
  lemma StepShape(policy: Policy, currentStorage: nat, t: Tally, n: nat, file: UploadedFile, attempt: Attempt)
    ensures var v := Judge(policy, currentStorage, t.batchBytesUsed, file, attempt);
      && (v.Accept? ==> Step(policy, currentStorage, t, n, file, attempt)
                        == Tally(t.uploads + [v.upload], t.failed, t.batchBytesUsed + file.Size(), t.accepted + [n], t.rejected))
      && (v.Reject? ==> Step(policy, currentStorage, t, n, file, attempt)
                        == Tally(t.uploads, t.failed + [v.failure], t.batchBytesUsed, t.accepted, t.rejected + [n]))
  {
  }

  /**
   * Acceptances decided over a prefix of the batch read the same over the whole
   * batch once the running sums before each position agree, whatever is appended.
   */
  lemma CarryAccepted(rule: (nat, nat, UploadedFile) -> Verdict, files: seq<UploadedFile>, pre: seq<UploadedFile>,
                      accepted: seq<nat>, uploads: seq<UploadRecord>, more: seq<nat>, moreUploads: seq<UploadRecord>)
    requires |pre| <= |files| && pre == files[..|pre|]
    requires Below(accepted, |pre|) && |accepted| == |uploads|
    requires forall j :: 0 <= j < |accepted| ==>
      rule(UsedBefore(pre, accepted, accepted[j]), accepted[j], pre[accepted[j]]) == Accept(uploads[j])
    requires forall k :: 0 <= k <= |pre| ==> UsedBefore(files, accepted + more, k) == UsedBefore(pre, accepted, k)
    ensures forall j :: 0 <= j < |accepted| ==>
      var p := (accepted + more)[j];
      && p < |files|
      && rule(UsedBefore(files, accepted + more, p), p, files[p]) == Accept((uploads + moreUploads)[j])
  {
    forall j | 0 <= j < |accepted|
      ensures (accepted + more)[j] < |files|
      ensures rule(UsedBefore(files, accepted + more, (accepted + more)[j]), (accepted + more)[j], files[(accepted + more)[j]])
        == Accept((uploads + moreUploads)[j])
    {
      var p := accepted[j];
      assert (accepted + more)[j] == p && (uploads + moreUploads)[j] == uploads[j];
      assert pre[p] == files[p];
      assert UsedBefore(files, accepted + more, p) == UsedBefore(pre, accepted, p);
    }
  }

  /** The same carry-over for rejections. */
  lemma CarryRejected(rule: (nat, nat, UploadedFile) -> Verdict, files: seq<UploadedFile>, pre: seq<UploadedFile>, accepted: seq<nat>, accepted': seq<nat>,
                      rejected: seq<nat>, failed: seq<FailedUpload>, more: seq<nat>, moreFailed: seq<FailedUpload>)
    requires |pre| <= |files| && pre == files[..|pre|]
    requires Below(rejected, |pre|) && |rejected| == |failed|
    requires forall j :: 0 <= j < |rejected| ==>
      rule(UsedBefore(pre, accepted, rejected[j]), rejected[j], pre[rejected[j]]) == Reject(failed[j])
    requires forall k :: 0 <= k <= |pre| ==> UsedBefore(files, accepted', k) == UsedBefore(pre, accepted, k)
    ensures forall j :: 0 <= j < |rejected| ==>
      var p := (rejected + more)[j];
      && p < |files|
      && rule(UsedBefore(files, accepted', p), p, files[p]) == Reject((failed + moreFailed)[j])
  {
    forall j | 0 <= j < |rejected|
      ensures (rejected + more)[j] < |files|
      ensures rule(UsedBefore(files, accepted', (rejected + more)[j]), (rejected + more)[j], files[(rejected + more)[j]])
        == Reject((failed + moreFailed)[j])
    {
      var p := rejected[j];
      assert (rejected + more)[j] == p && (failed + moreFailed)[j] == failed[j];
      assert pre[p] == files[p];
      assert UsedBefore(files, accepted', p) == UsedBefore(pre, accepted, p);
    }
  }

  /** A step keeps the accepted half of the record decided by `rule`, for any `rule`. */
  lemma StepAcceptedBy(rule: (nat, nat, UploadedFile) -> Verdict, files: seq<UploadedFile>, t: Tally, t': Tally, v: Verdict)
    requires files != []
    requires var n := |files| - 1;
      && Aligned(files[..n], t) && AcceptedBy(rule, files[..n], t) && Aligned(files, t')
      && v == rule(UsedBefore(files, t'.accepted, n), n, files[n])
      && (if v.Accept? then t'.accepted == t.accepted + [n] && t'.uploads == t.uploads + [v.upload]
          else t'.accepted == t.accepted && t'.uploads == t.uploads)
      && (forall k :: 0 <= k <= n ==> UsedBefore(files, t'.accepted, k) == UsedBefore(files[..n], t.accepted, k))
    ensures AcceptedBy(rule, files, t')
  {
    var n := |files| - 1;
    if v.Accept? {
      CarryAccepted(rule, files, files[..n], t.accepted, t.uploads, [n], [v.upload]);
      forall j | 0 <= j < |t'.accepted|
        ensures rule(UsedBefore(files, t'.accepted, t'.accepted[j]), t'.accepted[j], files[t'.accepted[j]]) == Accept(t'.uploads[j])
      {
        if j == |t.accepted| {
          assert t'.accepted[j] == n && t'.uploads[j] == v.upload;
        }
      }
    } else {
      assert t.accepted + [] == t.accepted && t.uploads + [] == t.uploads;
      CarryAccepted(rule, files, files[..n], t.accepted, t.uploads, [], []);
    }
  }

  /** A step keeps the rejected half of the record decided by `rule`, for any `rule`. */
  lemma StepRejectedBy(rule: (nat, nat, UploadedFile) -> Verdict, files: seq<UploadedFile>, t: Tally, t': Tally, v: Verdict)
    requires files != []
    requires var n := |files| - 1;
      && Aligned(files[..n], t) && RejectedBy(rule, files[..n], t) && Aligned(files, t')
      && v == rule(UsedBefore(files, t'.accepted, n), n, files[n])
      && (if v.Accept? then t'.rejected == t.rejected && t'.failed == t.failed
          else t'.rejected == t.rejected + [n] && t'.failed == t.failed + [v.failure])
      && (forall k :: 0 <= k <= n ==> UsedBefore(files, t'.accepted, k) == UsedBefore(files[..n], t.accepted, k))
    ensures RejectedBy(rule, files, t')
  {
    var n := |files| - 1;
    if v.Accept? {
      assert t.rejected + [] == t.rejected && t.failed + [] == t.failed;
      CarryRejected(rule, files, files[..n], t.accepted, t'.accepted, t.rejected, t.failed, [], []);
    } else {
      CarryRejected(rule, files, files[..n], t.accepted, t'.accepted, t.rejected, t.failed, [n], [v.failure]);
      forall j | 0 <= j < |t'.rejected|
        ensures rule(UsedBefore(files, t'.accepted, t'.rejected[j]), t'.rejected[j], files[t'.rejected[j]]) == Reject(t'.failed[j])
      {
        if j == |t.rejected| {
          assert t'.rejected[j] == n && t'.failed[j] == v.failure;
        }
      }
    }
  }

  /**
   * `process_files`: the storage total is read once, before the loop, and every file
   * is judged against it. Every input file ends in exactly one of the two lists.
   */
  function ProcessFiles(policy: Policy, currentStorage: nat, files: seq<UploadedFile>, create: (nat, UploadedFile) -> Attempt): (r: BatchResult)
    ensures |r.uploads| + |r.failed| == |files|
    ensures |r.uploads| <= |files| && |r.failed| <= |files|
  {
    RunInvariant(policy, currentStorage, files, create);
    var t := Run(policy, currentStorage, files, create);
    BatchResult(t.uploads, t.failed)
  }
  /**
   * The converse view of `RunInvariant`: whatever the one-iteration rule decides for
   * the file at position `k`, that record or that failure is in the result at `k`'s
   * place. In particular no file is skipped after an upload error.
   */
  lemma EveryFileDecided(policy: Policy, currentStorage: nat, files: seq<UploadedFile>, create: (nat, UploadedFile) -> Attempt, k: nat)
    requires k < |files|
    ensures var t := Run(policy, currentStorage, files, create);
      var v := Judge(policy, currentStorage, UsedBefore(files, t.accepted, k), files[k], create(k, files[k]));
      && |t.uploads| == |t.accepted| && |t.failed| == |t.rejected|
      && (v.Accept? ==> exists j :: 0 <= j < |t.accepted| && t.accepted[j] == k && t.uploads[j] == v.upload)
      && (v.Reject? ==> exists j :: 0 <= j < |t.rejected| && t.rejected[j] == k && t.failed[j] == v.failure)
  {
    RunInvariant(policy, currentStorage, files, create);
    var t := Run(policy, currentStorage, files, create);
    if k in t.accepted {
      var j :| 0 <= j < |t.accepted| && t.accepted[j] == k;
      assert Judge(policy, currentStorage, UsedBefore(files, t.accepted, k), files[k], create(k, files[k])) == Accept(t.uploads[j]);
    } else {
      assert k in t.rejected;
      var j :| 0 <= j < |t.rejected| && t.rejected[j] == k;
      assert Judge(policy, currentStorage, UsedBefore(files, t.accepted, k), files[k], create(k, files[k])) == Reject(t.failed[j]);
    }
  }

  /** Earlier decisions are never revised: the run over a prefix is a prefix of the full run. */
  lemma {:induction false} RunPrefix(policy: Policy, currentStorage: nat, files: seq<UploadedFile>, create: (nat, UploadedFile) -> Attempt, m: nat)
    requires m <= |files|
    ensures var a := Run(policy, currentStorage, files[..m], create);
      var b := Run(policy, currentStorage, files, create);
      && a.uploads <= b.uploads && a.failed <= b.failed
      && a.accepted <= b.accepted && a.rejected <= b.rejected
      && a.batchBytesUsed <= b.batchBytesUsed
    decreases |files|
  {
    if m == |files| {
      assert files[..m] == files;
    } else {
      var n := |files| - 1;
      assert files[..n][..m] == files[..m];
      RunPrefix(policy, currentStorage, files[..n], create, m);
    }
  }

  /** No position before `k` contributes to the sum before `k`. */
  lemma {:induction false} UsedBeforeNoneEarlier(files: seq<UploadedFile>, positions: seq<nat>, k: nat)
    requires forall i :: 0 <= i < |positions| ==> positions[i] >= k
    ensures UsedBefore(files, positions, k) == 0
    decreases |positions|
  {
    if positions != [] {
      UsedBeforeNoneEarlier(files, positions[..|positions| - 1], k);
    }
  }

  /**
   * The batch stores nothing exactly when every file, judged against the baseline
   * alone, is refused: while nothing is accepted the counter stays at 0, and the
   * first accepted file was judged with the counter at 0.
   */
  lemma NothingStoredIff(policy: Policy, currentStorage: nat, files: seq<UploadedFile>, create: (nat, UploadedFile) -> Attempt)
    ensures ProcessFiles(policy, currentStorage, files, create).uploads == [] <==>
      forall k :: 0 <= k < |files| ==> Judge(policy, currentStorage, 0, files[k], create(k, files[k])).Reject?
  {
    RunInvariant(policy, currentStorage, files, create);
    var t := Run(policy, currentStorage, files, create);
    assert ProcessFiles(policy, currentStorage, files, create).uploads == t.uploads;
    var rule := JudgeRule(policy, currentStorage, create);
    if t.uploads == [] {
      forall k | 0 <= k < |files|
        ensures Judge(policy, currentStorage, 0, files[k], create(k, files[k])).Reject?
      {
        EveryFileDecided(policy, currentStorage, files, create, k);
        UsedBeforeNoneEarlier(files, t.accepted, k);
      }
    } else {
      var p := t.accepted[0];
      assert forall i :: 0 <= i < |t.accepted| ==> t.accepted[i] >= p by {
        forall i | 0 < i < |t.accepted| ensures t.accepted[i] >= p {
          assert Increasing(t.accepted);
        }
      }
      UsedBeforeNoneEarlier(files, t.accepted, p);
      assert rule(UsedBefore(files, t.accepted, p), p, files[p]) == Accept(t.uploads[0]);
      assert Judge(policy, currentStorage, 0, files[p], create(p, files[p])).Accept?;
    }
  }

  /** `create_upload` for the file at each position, with that position's id and storage outcome. */
  function Creator(provenance: Provenance, c: Collaborators, ids: nat -> string, persists: nat -> Persist): (nat, UploadedFile) -> Attempt {
    (k: nat, f: UploadedFile) => CreateFromFile(f, ids(k), provenance, c, persists(k))
  }

  /**
   * Every upload the service stores carries the service's provenance, the id
   * generated for its file, and the key `id/sanitized filename` of that file.
   */
  lemma ServiceUploadsKeyed(policy: Policy, currentStorage: nat, files: seq<UploadedFile>,
                            provenance: Provenance, c: Collaborators, ids: nat -> string, persists: nat -> Persist)
    ensures var t := Run(policy, currentStorage, files, Creator(provenance, c, ids, persists));
      && |t.uploads| == |t.accepted| && Below(t.accepted, |files|)
      && forall j :: 0 <= j < |t.uploads| ==>
        var k := t.accepted[j];
        && t.uploads[j].provenance == provenance
        && t.uploads[j].id == ids(k)
        && t.uploads[j].key == StorageKey(ids(k), c.sanitize(files[k].originalFilename))
        && t.uploads[j].byteSize == files[k].Size()
  {
    var create := Creator(provenance, c, ids, persists);
    RunInvariant(policy, currentStorage, files, create);
    var t := Run(policy, currentStorage, files, create);
    forall j | 0 <= j < |t.uploads|
      ensures var k := t.accepted[j];
        && t.uploads[j].provenance == provenance
        && t.uploads[j].id == ids(k)
        && t.uploads[j].key == StorageKey(ids(k), c.sanitize(files[k].originalFilename))
        && t.uploads[j].byteSize == files[k].Size()
    {
      var k := t.accepted[j];
      var attempt := create(k, files[k]);
      assert Judge(policy, currentStorage, UsedBefore(files, t.accepted, k), files[k], attempt) == Accept(t.uploads[j]);
      assert attempt == Success(t.uploads[j]);
    }
  }

  /** The text of a failure reason; `humanSize` is `number_to_human_size`. */
  function ReasonText(reason: Reason, humanSize: int -> string): (text: string)
    ensures reason.ExceedsFileLimit? ==>
      text == "File size (" + humanSize(reason.size) + ") exceeds limit of " + humanSize(reason.limit)
    ensures reason.WouldExceedQuota? ==> text == "Would exceed storage quota (" + humanSize(reason.remaining) + " remaining)"
    ensures reason.UploadError? ==> text == "Upload error: " + reason.message
  {
    match reason
    case ExceedsFileLimit(size, limit) => "File size (" + humanSize(size) + ") exceeds limit of " + humanSize(limit)
    case WouldExceedQuota(remaining) => "Would exceed storage quota (" + humanSize(remaining) + " remaining)"
    case UploadError(m) => "Upload error: " + m
  }

  /** The three kinds of failure never share a text, whatever the sizes and messages. */
  lemma ReasonTextsDiffer(a: Reason, b: Reason, humanSize: int -> string)
    requires ReasonText(a, humanSize) == ReasonText(b, humanSize)
    ensures a.ExceedsFileLimit? <==> b.ExceedsFileLimit?
    ensures a.WouldExceedQuota? <==> b.WouldExceedQuota?
    ensures a.UploadError? <==> b.UploadError?
    ensures a.UploadError? ==> a == b
  {
    var ta, tb := ReasonText(a, humanSize), ReasonText(b, humanSize);
    assert ta[0] == tb[0];
    if a.UploadError? && b.UploadError? {
      var prefix := "Upload error: ";
      assert a.message == ta[|prefix|..];
      assert b.message == tb[|prefix|..];
    }
  }

  function FileOfSize(name: string, size: nat): UploadedFile {
    UploadedFile(name, None, seq(size, _ => 0))
  }

  function RecordFor(f: UploadedFile): UploadRecord {
    UploadRecord(f.originalFilename, f.originalFilename, f.originalFilename, DefaultContentType, f.Size(), Web, None)
  }

  /**
   * With a 1000-byte per-file limit and room to spare, files of 500, 1500 and 200
   * bytes store the first and the third and reject the second for its size.
   */
  lemma ExamplePerFileLimit()
    ensures var a, b, c := FileOfSize("a", 500), FileOfSize("b", 1500), FileOfSize("c", 200);
      var r := ProcessFiles(Policy(1000, 1000000), 0, [a, b, c], (k: nat, f: UploadedFile) => Success(RecordFor(f)));
      && r.uploads == [RecordFor(a), RecordFor(c)]
      && r.failed == [FailedUpload("b", ExceedsFileLimit(1500, 1000))]
  {
    var a, b, c := FileOfSize("a", 500), FileOfSize("b", 1500), FileOfSize("c", 200);
    var files := [a, b, c];
    var create := (k: nat, f: UploadedFile) => Success(RecordFor(f));
    var policy := Policy(1000, 1000000);
    assert files[..2][..1] == [a] && files[..2] == [a, b] && [a][..0] == [];
    assert a.Size() == 500 && b.Size() == 1500 && c.Size() == 200;
    var t0 := Run(policy, 0, [], create);
    assert t0 == Tally([], [], 0, [], []);
    assert Judge(policy, 0, 0, a, create(0, a)) == Accept(RecordFor(a));
    var t1 := Run(policy, 0, [a], create);
    assert t1 == Step(policy, 0, t0, 0, a, create(0, a));
    assert t1.uploads == [RecordFor(a)] && t1.batchBytesUsed == 500;
    var t2 := Run(policy, 0, [a, b], create);
    assert t2.uploads == [RecordFor(a)] && t2.failed == [FailedUpload("b", ExceedsFileLimit(1500, 1000))] && t2.batchBytesUsed == 500;
  }

  /**
   * With 900 of 1000 bytes in use, a 50-byte file is stored and a following 200-byte
   * file is rejected with 50 bytes reported as remaining.
   */
  lemma ExampleTotalQuota()
    ensures var a, b := FileOfSize("a", 50), FileOfSize("b", 200);
      var r := ProcessFiles(Policy(1000, 1000), 900, [a, b], (k: nat, f: UploadedFile) => Success(RecordFor(f)));
      && r.uploads == [RecordFor(a)]
      && r.failed == [FailedUpload("b", WouldExceedQuota(50))]
  {
    var a, b := FileOfSize("a", 50), FileOfSize("b", 200);
    var create := (k: nat, f: UploadedFile) => Success(RecordFor(f));
    assert [a, b][..1] == [a] && [a][..0] == [];
    var policy := Policy(1000, 1000);
    assert a.Size() == 50 && b.Size() == 200;
    var t0 := Run(policy, 900, [], create);
    assert t0 == Tally([], [], 0, [], []);
    assert Judge(policy, 900, 0, a, create(0, a)) == Accept(RecordFor(a));
    var t1 := Run(policy, 900, [a], create);
    assert t1 == Step(policy, 900, t0, 0, a, create(0, a));
    assert t1.uploads == [RecordFor(a)] && t1.batchBytesUsed == 50;
  }

  /** The remaining budget is reported as computed, negative when usage is already over the quota. */
  lemma ExampleRemainingNotClamped()
    ensures var a := FileOfSize("a", 10);
      ProcessFiles(Policy(1000, 1000), 1200, [a], (k: nat, f: UploadedFile) => Success(RecordFor(f))).failed
        == [FailedUpload("a", WouldExceedQuota(-200))]
  {
    var a := FileOfSize("a", 10);
    assert [a][..0] == [];
  }
}
