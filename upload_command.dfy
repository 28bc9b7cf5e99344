/** `etherna upload`: check the files, choose a postage batch for their total
    size, then upload each file with up to ten attempts, offering its download
    when asked to. */
module EthernaUploadCommand {
  import opened Wrappers
  import opened Failures
  import opened GatewayService
  import opened PurchasePrompt
  import opened PostageBatchService
  import EthernaUploadOptions

  const UploadMaxRetry: nat := 10
  const UploadRetryTimeSpan: nat := 5_000     // 5 seconds

  const UploadArgumentsMissing := ArgumentError("Upload requires 1 or more arguments")

  function FileMissing(path: string): Error {
    InvalidOperation("File " + path + " doesn't exist")
  }

  /** What the file system says about the paths given. */
  datatype FileSystem = FileSystem(fileExists: string -> bool, length: string -> nat)

  // ---------------------------------------------------------------------------
  // The content size

  /** The sum of the lengths of the files. */
  function TotalLength(paths: seq<string>, fs: FileSystem): nat
    decreases |paths|
  {
    if |paths| == 0 then 0 else fs.length(paths[0]) + TotalLength(paths[1..], fs)
  }

  lemma {:induction false} TotalLengthAppend(first: seq<string>, second: seq<string>, fs: FileSystem)
    ensures TotalLength(first + second, fs) == TotalLength(first, fs) + TotalLength(second, fs)
    decreases |first|
  {
    if |first| == 0 {
      assert first + second == second;
    } else {
      assert (first + second)[1..] == first[1..] + second;
      TotalLengthAppend(first[1..], second, fs);
    }
  }

  /** The foreach over the paths: the first missing file throws. */
  function ContentSize(paths: seq<string>, fs: FileSystem): (r: Result<int, Error>)
    decreases |paths|
  {
    if |paths| == 0 then Success(0)
    else if !fs.fileExists(paths[0]) then Failure(FileMissing(paths[0]))
    else
      var rest := ContentSize(paths[1..], fs);
      if rest.Failure? then rest else Success(fs.length(paths[0]) + rest.value)
  }

  /** The size is known exactly when every file exists, and is then the sum of
      their lengths; otherwise the error names the first missing file. */
  lemma {:induction false} ContentSizeMeaning(paths: seq<string>, fs: FileSystem)
    ensures ContentSize(paths, fs).Success? <==> forall i :: 0 <= i < |paths| ==> fs.fileExists(paths[i])
    ensures ContentSize(paths, fs).Success? ==> ContentSize(paths, fs).value == TotalLength(paths, fs)
    ensures ContentSize(paths, fs).Failure? ==>
      exists m :: 0 <= m < |paths| && !fs.fileExists(paths[m]) &&
        (forall i :: 0 <= i < m ==> fs.fileExists(paths[i])) &&
        ContentSize(paths, fs).error == FileMissing(paths[m])
    decreases |paths|
  {
    if |paths| > 0 {
      ContentSizeMeaning(paths[1..], fs);
      assert forall i :: 1 <= i < |paths| ==> paths[i] == paths[1..][i - 1];
      if fs.fileExists(paths[0]) && ContentSize(paths[1..], fs).Failure? {
        var m :| 0 <= m < |paths[1..]| && !fs.fileExists(paths[1..][m]) &&
          (forall i :: 0 <= i < m ==> fs.fileExists(paths[1..][i])) &&
          ContentSize(paths[1..], fs).error == FileMissing(paths[1..][m]);
        assert !fs.fileExists(paths[m + 1]) && forall i :: 0 <= i < m + 1 ==> fs.fileExists(paths[i]);
      }
    }
  }

  function AddTo(size: int, r: Result<int, Error>): Result<int, Error> {
    if r.Failure? then r else Success(size + r.value)
  }

  /** The size loop of ExecuteAsync. */
  method ContentByteSize(paths: seq<string>, fs: FileSystem) returns (contentByteSize: Result<int, Error>)
    ensures contentByteSize == ContentSize(paths, fs)
  {
    var size := 0;
    var i := 0;
    while i < |paths|
      invariant 0 <= i <= |paths|
      invariant ContentSize(paths, fs) == AddTo(size, ContentSize(paths[i..], fs))
    {
      assert paths[i..][0] == paths[i] && paths[i..][1..] == paths[i + 1..];
      if !fs.fileExists(paths[i]) {
        return Failure(FileMissing(paths[i]));
      }
      size := size + fs.length(paths[i]);
      i := i + 1;
    }
    assert paths[i..] == [];
    return Success(size);
  }

  // ---------------------------------------------------------------------------
  // The postage batch

  /** GetUsablePostageBatchIdAsync on values; the context is that of the
      postage batch service. */
  function UsableBatchId(
    ctx: BatchContext, contentByteSize: int, ttlDays: int, autoPurchase: bool,
    usePostageBatchId: Option<string>, newPostageLabel: Option<string>): (c: Choice)
    requires ClockAdvances(ctx.gateway.now)
    requires usePostageBatchId.None? && !autoPurchase ==> Answered(ctx.keys)
  {
    if usePostageBatchId.None? then
      var batchDepth := CoveringDepth(RequiredPostageBatchSpace(contentByteSize));
      if ctx.chainPrice.Failure? then Choice(Failure(ctx.chainPrice.error), 0, [])
      else
        var amount := ctx.amountFor(ctx.chainPrice.value, ttlDays);
        var keysRead := if autoPurchase then 0 else FirstAnswer(ctx.keys) + 1;
        var answer := if autoPurchase then Success(()) else PromptAnswer(ctx.keys);
        if answer.Failure? then Choice(Failure(answer.error), keysRead, [])
        else
          var created := CreatePostageBatchRun(ctx.gateway, amount, batchDepth, newPostageLabel);
          Choice(created.outcome, keysRead, created.log)
    else if ctx.existingBatch.Failure? then Choice(Failure(ctx.existingBatch.error), 0, [])
    else
      var batch := ctx.existingBatch.value;
      if !batch.usable then Choice(Failure(DefaultInvalidOperation), 0, [])
      else if PostageBatchByteSize(batch.depth) - RequiredPostageBatchSpace(contentByteSize) < 0 then
        Choice(Failure(DefaultInvalidOperation), 0, [])
      else Choice(Success(batch.id), 0, [])
  }

  /** GetUsablePostageBatchIdAsync: buy a batch deep enough for the content
      (once confirmed), or reuse the given one if it is usable and has room. */
  method GetUsablePostageBatchId(
    ctx: BatchContext, contentByteSize: int, ttlDays: int, autoPurchase: bool,
    usePostageBatchId: Option<string>, newPostageLabel: Option<string>)
    returns (batchId: Result<string, Error>, keysRead: nat, log: seq<Interaction>)
    requires ClockAdvances(ctx.gateway.now)
    requires usePostageBatchId.None? && !autoPurchase ==> Answered(ctx.keys)
    ensures Choice(batchId, keysRead, log) ==
      UsableBatchId(ctx, contentByteSize, ttlDays, autoPurchase, usePostageBatchId, newPostageLabel)
  {
    keysRead, log := 0, [];
    if usePostageBatchId.None? {
      // Create a new postage batch.
      var batchDepth := CalculateDepth(contentByteSize);
      if ctx.chainPrice.Failure? {
        return Failure(ctx.chainPrice.error), 0, [];
      }
      var amount := ctx.amountFor(ctx.chainPrice.value, ttlDays);
      if !autoPurchase {
        var answer;
        keysRead, answer := ConfirmPurchase(ctx.keys);
        if answer.Failure? {
          return Failure(answer.error), keysRead, [];
        }
      }
      var nextReading;
      batchId, nextReading, log := CreatePostageBatch(ctx.gateway, amount, batchDepth, newPostageLabel);
    } else {
      // Get info about the existing postage batch; a 404 is rethrown.
      if ctx.existingBatch.Failure? {
        return Failure(ctx.existingBatch.error), 0, [];
      }
      var postageBatch := ctx.existingBatch.value;
      if !postageBatch.usable {
        return Failure(DefaultInvalidOperation), 0, [];
      }
      if PostageBatchByteSize(postageBatch.depth) - RequiredPostageBatchSpace(contentByteSize) < 0 {
        return Failure(DefaultInvalidOperation), 0, [];
      }
      batchId := Success(postageBatch.id);
    }
  }

  /** A batch to reuse is accepted exactly when the gateway reports it, it is
      usable and its capacity holds the content with its tolerance; nothing is
      bought and no key is read. */
  lemma ReusedBatchHasRoom(
    ctx: BatchContext, contentByteSize: int, ttlDays: int, autoPurchase: bool, id: string, newPostageLabel: Option<string>)
    requires ClockAdvances(ctx.gateway.now)
    ensures var c := UsableBatchId(ctx, contentByteSize, ttlDays, autoPurchase, Some(id), newPostageLabel);
      && c.keysRead == 0 && c.log == []
      && (c.batchId.Success? <==>
            && ctx.existingBatch.Success?
            && ctx.existingBatch.value.usable
            && RequiredPostageBatchSpace(contentByteSize) <= PostageBatchByteSize(ctx.existingBatch.value.depth))
      && (c.batchId.Success? ==> c.batchId.value == ctx.existingBatch.value.id)
      && (ctx.existingBatch.Failure? ==> c.batchId == Failure(ctx.existingBatch.error))
  {
  }

  /** A new batch is bought at the least depth of at least 17 that holds the
      content with its tolerance, so the depth check of the purchase never
      fails; it is bought only once confirmed, and a denial reaches no
      gateway. */
  lemma NewBatchCoversContent(
    ctx: BatchContext, contentByteSize: int, ttlDays: int, autoPurchase: bool, newPostageLabel: Option<string>)
    requires ClockAdvances(ctx.gateway.now)
    requires !autoPurchase ==> Answered(ctx.keys)
    ensures var c := UsableBatchId(ctx, contentByteSize, ttlDays, autoPurchase, None, newPostageLabel);
      && (autoPurchase ==> c.keysRead == 0)
      && (c.log != [] ==>
            && ctx.chainPrice.Success?
            && (autoPurchase || ctx.keys[FirstAnswer(ctx.keys)] in {KeyY, KeyEnter})
            && c.log[0].BatchesPost?
            && IsLeastCoveringDepth(RequiredPostageBatchSpace(contentByteSize), c.log[0].depth)
            && c.log[0].amount == ctx.amountFor(ctx.chainPrice.value, ttlDays))
      && (c.batchId.Failure? && c.log == [] && ctx.chainPrice.Success? &&
          (autoPurchase || ctx.keys[FirstAnswer(ctx.keys)] != KeyN) ==>
            c.batchId == Failure(ArgumentError(AmountNotPositive)))
  {
  }

  // ---------------------------------------------------------------------------
  // Uploading the files

  /** What the gateway answers: the reply to each attempt at each file (by the
      file's position and the attempt's number), and to each offer. Any
      exception thrown while opening or sending the file is a failed reply. */
  datatype Uploads = Uploads(uploadReply: (nat, nat) -> Result<string, Error>, offerReply: string -> Result<(), Error>)

  datatype UploadEvent =
    | UploadAttempt(path: string, batchId: string, pinResource: bool, reply: Result<string, Error>)
    | RetryWait(milliseconds: nat)
    | GaveUp(path: string)          // the "Can't upload ... after 10 retries" line
    | OfferResource(refHash: string, offerReply: Result<(), Error>)

  /** The attempts at one file: the reference hash if one succeeded. */
  datatype Attempts = Attempts(refHash: Option<string>, log: seq<UploadEvent>)

  /** The retry loop from attempt `i` on. */
  function AttemptsFrom(u: Uploads, f: nat, path: string, batchId: string, pinResource: bool, i: nat): (a: Attempts)
    requires i < UploadMaxRetry
    decreases UploadMaxRetry - i
  {
    var reply := u.uploadReply(f, i);
    var attempt := UploadAttempt(path, batchId, pinResource, reply);
    if reply.Success? then Attempts(Some(reply.value), [attempt])
    else if i + 1 < UploadMaxRetry then
      var rest := AttemptsFrom(u, f, path, batchId, pinResource, i + 1);
      Attempts(rest.refHash, [attempt, RetryWait(UploadRetryTimeSpan)] + rest.log)
    else Attempts(None, [attempt])
  }

  /** How many attempts the retry loop makes from attempt `i` on. */
  function AttemptCount(u: Uploads, f: nat, i: nat): nat
    requires i < UploadMaxRetry
    decreases UploadMaxRetry - i
  {
    if u.uploadReply(f, i).Success? || i + 1 >= UploadMaxRetry then 1 else 1 + AttemptCount(u, f, i + 1)
  }

  /** The retry loop makes between one and ten attempts; it stops at the first
      success, whose hash it returns, and gives up only after ten failures. */
  lemma {:induction false} AttemptsCount(u: Uploads, f: nat, path: string, batchId: string, pinResource: bool, i: nat)
    requires i < UploadMaxRetry
    ensures 1 <= AttemptCount(u, f, i) <= UploadMaxRetry - i
    ensures |AttemptsFrom(u, f, path, batchId, pinResource, i).log| == 2 * AttemptCount(u, f, i) - 1
    ensures AttemptsFrom(u, f, path, batchId, pinResource, i).refHash ==
      (var last := u.uploadReply(f, i + AttemptCount(u, f, i) - 1);
       if last.Success? then Some(last.value) else None)
    ensures AttemptsFrom(u, f, path, batchId, pinResource, i).refHash.None? ==>
      AttemptCount(u, f, i) == UploadMaxRetry - i
    decreases UploadMaxRetry - i
  {
    if u.uploadReply(f, i).Failure? && i + 1 < UploadMaxRetry {
      AttemptsCount(u, f, path, batchId, pinResource, i + 1);
    }
  }

  /** Each attempt sends the file with the chosen batch and pinning flag, the
      m-th attempt getting the m-th reply. */
  lemma {:induction false} AttemptsSend(u: Uploads, f: nat, path: string, batchId: string, pinResource: bool, i: nat)
    requires i < UploadMaxRetry
    ensures forall m :: 0 <= m && 2 * m < |AttemptsFrom(u, f, path, batchId, pinResource, i).log| ==>
      AttemptsFrom(u, f, path, batchId, pinResource, i).log[2 * m] == UploadAttempt(path, batchId, pinResource, u.uploadReply(f, i + m))
    decreases UploadMaxRetry - i
  {
    if u.uploadReply(f, i).Failure? && i + 1 < UploadMaxRetry {
      AttemptsSend(u, f, path, batchId, pinResource, i + 1);
      var a := AttemptsFrom(u, f, path, batchId, pinResource, i);
      var rest := AttemptsFrom(u, f, path, batchId, pinResource, i + 1);
      assert a.log == [UploadAttempt(path, batchId, pinResource, u.uploadReply(f, i)), RetryWait(UploadRetryTimeSpan)] + rest.log;
      forall m | 1 <= m && 2 * m < |a.log|
        ensures a.log[2 * m] == UploadAttempt(path, batchId, pinResource, u.uploadReply(f, i + m))
      {
        assert a.log[2 * m] == rest.log[2 * (m - 1)];
      }
    }
  }

  /** A wait separates an attempt that failed from the next, and no wait
      follows the last attempt. */
  lemma {:induction false} AttemptsWait(u: Uploads, f: nat, path: string, batchId: string, pinResource: bool, i: nat)
    requires i < UploadMaxRetry
    ensures forall m :: 0 <= m && 2 * m + 1 < |AttemptsFrom(u, f, path, batchId, pinResource, i).log| ==>
      && AttemptsFrom(u, f, path, batchId, pinResource, i).log[2 * m + 1] == RetryWait(UploadRetryTimeSpan)
      && u.uploadReply(f, i + m).Failure?
    decreases UploadMaxRetry - i
  {
    if u.uploadReply(f, i).Failure? && i + 1 < UploadMaxRetry {
      AttemptsWait(u, f, path, batchId, pinResource, i + 1);
      var a := AttemptsFrom(u, f, path, batchId, pinResource, i);
      var rest := AttemptsFrom(u, f, path, batchId, pinResource, i + 1);
      assert a.log == [UploadAttempt(path, batchId, pinResource, u.uploadReply(f, i)), RetryWait(UploadRetryTimeSpan)] + rest.log;
      forall m | 1 <= m && 2 * m + 1 < |a.log|
        ensures a.log[2 * m + 1] == RetryWait(UploadRetryTimeSpan) && u.uploadReply(f, i + m).Failure?
      {
        assert a.log[2 * m + 1] == rest.log[2 * (m - 1) + 1];
      }
    }
  }

  /** Every upload in a log sends with the given batch and pinning flag. */
  predicate UploadsWith(log: seq<UploadEvent>, batchId: string, pinResource: bool) {
    forall k :: 0 <= k < |log| && log[k].UploadAttempt? ==>
      log[k].batchId == batchId && log[k].pinResource == pinResource
  }

  /** The retry loop uploads with one batch and pinning flag throughout. */
  lemma {:induction false} AttemptsUseBatch(u: Uploads, f: nat, path: string, batchId: string, pinResource: bool, i: nat)
    requires i < UploadMaxRetry
    ensures UploadsWith(AttemptsFrom(u, f, path, batchId, pinResource, i).log, batchId, pinResource)
    decreases UploadMaxRetry - i
  {
    if u.uploadReply(f, i).Failure? && i + 1 < UploadMaxRetry {
      AttemptsUseBatch(u, f, path, batchId, pinResource, i + 1);
      var rest := AttemptsFrom(u, f, path, batchId, pinResource, i + 1);
      var head := [UploadAttempt(path, batchId, pinResource, u.uploadReply(f, i)), RetryWait(UploadRetryTimeSpan)];
      UploadsWithAppend(head, rest.log, batchId, pinResource);
    }
  }

  lemma UploadsWithAppend(a: seq<UploadEvent>, b: seq<UploadEvent>, batchId: string, pinResource: bool)
    requires UploadsWith(a, batchId, pinResource) && UploadsWith(b, batchId, pinResource)
    ensures UploadsWith(a + b, batchId, pinResource)
  {
    forall k | 0 <= k < |a + b| && (a + b)[k].UploadAttempt?
      ensures (a + b)[k].batchId == batchId && (a + b)[k].pinResource == pinResource
    {
      if k >= |a| {
        assert (a + b)[k] == b[k - |a|];
      }
    }
  }

  /** The retry loop of ExecuteAsync for the file at position `f`. */
  method UploadFile(u: Uploads, f: nat, path: string, batchId: string, pinResource: bool)
    returns (refHash: Option<string>, log: seq<UploadEvent>)
    ensures Attempts(refHash, log) == AttemptsFrom(u, f, path, batchId, pinResource, 0)
  {
    ghost var whole := AttemptsFrom(u, f, path, batchId, pinResource, 0);
    var uploadSucceeded := false;
    var hash := "";
    log := [];
    var i := 0;
    while i < UploadMaxRetry && !uploadSucceeded
      invariant 0 <= i <= UploadMaxRetry
      invariant uploadSucceeded ==> whole == Attempts(Some(hash), log)
      invariant !uploadSucceeded && i < UploadMaxRetry ==>
        whole == Attempts(AttemptsFrom(u, f, path, batchId, pinResource, i).refHash,
                          log + AttemptsFrom(u, f, path, batchId, pinResource, i).log)
      invariant !uploadSucceeded && i == UploadMaxRetry ==> whole == Attempts(None, log)
      decreases UploadMaxRetry - i
    {
      ghost var here := AttemptsFrom(u, f, path, batchId, pinResource, i);
      var reply := u.uploadReply(f, i);
      var attempt := UploadAttempt(path, batchId, pinResource, reply);
      if reply.Success? {
        hash := reply.value;
        log := log + [attempt];
        uploadSucceeded := true;
      } else if i + 1 < UploadMaxRetry {
        ghost var rest := AttemptsFrom(u, f, path, batchId, pinResource, i + 1);
        assert here.log == [attempt, RetryWait(UploadRetryTimeSpan)] + rest.log;
        assert log + here.log == (log + [attempt, RetryWait(UploadRetryTimeSpan)]) + rest.log;
        log := log + [attempt, RetryWait(UploadRetryTimeSpan)];
      } else {
        log := log + [attempt];
      }
      i := i + 1;
    }
    refHash := if uploadSucceeded then Some(hash) else None;
  }

  /** How the upload of the files ended. */
  datatype Run = Run(outcome: Result<(), Error>, log: seq<UploadEvent>)

  function PrependRun(prefix: seq<UploadEvent>, r: Run): Run {
    Run(r.outcome, prefix + r.log)
  }

  lemma PrependRunTwice(log: seq<UploadEvent>, events: seq<UploadEvent>, r: Run)
    ensures PrependRun(log, PrependRun(events, r)) == PrependRun(log + events, r)
  {
    assert log + (events + r.log) == (log + events) + r.log;
  }

  /** The foreach over the files from position `f` on. */
  function UploadFrom(u: Uploads, paths: seq<string>, f: nat, batchId: string, pinResource: bool, offerDownload: bool): (r: Run)
    requires f <= |paths|
    decreases |paths| - f
  {
    if f == |paths| then Run(Success(()), [])
    else
      var a := AttemptsFrom(u, f, paths[f], batchId, pinResource, 0);
      if a.refHash.None? then
        PrependRun(a.log + [GaveUp(paths[f])], UploadFrom(u, paths, f + 1, batchId, pinResource, offerDownload))
      else if !offerDownload then
        PrependRun(a.log, UploadFrom(u, paths, f + 1, batchId, pinResource, offerDownload))
      else
        var offer := OfferResource(a.refHash.value, u.offerReply(a.refHash.value));
        if offer.offerReply.Failure? then Run(Failure(offer.offerReply.error), a.log + [offer])
        else PrependRun(a.log + [offer], UploadFrom(u, paths, f + 1, batchId, pinResource, offerDownload))
  }

  /** The foreach over the files uploads every file with the one batch and
      pinning flag. */
  lemma {:induction false} UploadFromUsesBatch(
    u: Uploads, paths: seq<string>, f: nat, batchId: string, pinResource: bool, offerDownload: bool)
    requires f <= |paths|
    ensures UploadsWith(UploadFrom(u, paths, f, batchId, pinResource, offerDownload).log, batchId, pinResource)
    decreases |paths| - f
  {
    if f < |paths| {
      var a := AttemptsFrom(u, f, paths[f], batchId, pinResource, 0);
      AttemptsUseBatch(u, f, paths[f], batchId, pinResource, 0);
      UploadFromUsesBatch(u, paths, f + 1, batchId, pinResource, offerDownload);
      var rest := UploadFrom(u, paths, f + 1, batchId, pinResource, offerDownload).log;
      if a.refHash.None? {
        UploadsWithAppend(a.log, [GaveUp(paths[f])], batchId, pinResource);
        UploadsWithAppend(a.log + [GaveUp(paths[f])], rest, batchId, pinResource);
      } else if !offerDownload {
        UploadsWithAppend(a.log, rest, batchId, pinResource);
      } else {
        var offer := OfferResource(a.refHash.value, u.offerReply(a.refHash.value));
        UploadsWithAppend(a.log, [offer], batchId, pinResource);
        if offer.offerReply.Success? {
          UploadsWithAppend(a.log + [offer], rest, batchId, pinResource);
        }
      }
    }
  }

  /** What may come right before an event: an offer follows the successful
      upload of its hash, and giving up follows a failed attempt at that file. */
  predicate Follows(before: UploadEvent, e: UploadEvent) {
    && (e.OfferResource? ==> before.UploadAttempt? && before.reply == Success(e.refHash))
    && (e.GaveUp? ==> before.UploadAttempt? && before.path == e.path && before.reply.Failure?)
  }

  predicate WellOrdered(log: seq<UploadEvent>) {
    && (|log| > 0 ==> !log[0].OfferResource? && !log[0].GaveUp?)
    && forall k :: 0 < k < |log| ==> Follows(log[k - 1], log[k])
  }

  lemma WellOrderedAppend(a: seq<UploadEvent>, b: seq<UploadEvent>)
    requires WellOrdered(a) && WellOrdered(b)
    requires |b| > 0 ==> b[0].UploadAttempt?
    ensures WellOrdered(a + b)
  {
    forall k | 0 < k < |a + b|
      ensures Follows((a + b)[k - 1], (a + b)[k])
    {
      if k < |a| {
        assert (a + b)[k - 1] == a[k - 1] && (a + b)[k] == a[k];
      } else if k == |a| {
        assert (a + b)[k] == b[0];
      } else {
        assert (a + b)[k - 1] == b[k - 1 - |a|] && (a + b)[k] == b[k - |a|];
      }
    }
  }

  /** A log with neither offers nor give-ups is well ordered, and stays so
      with an event that may follow its last one. */
  lemma ThenFollows(log: seq<UploadEvent>, e: UploadEvent)
    requires |log| > 0 && Follows(log[|log| - 1], e)
    requires forall k :: 0 <= k < |log| ==> !log[k].OfferResource? && !log[k].GaveUp?
    ensures WellOrdered(log) && WellOrdered(log + [e])
  {
    assert (log + [e])[|log| - 1] == log[|log| - 1];
    assert forall k :: 0 <= k < |log| ==> (log + [e])[k] == log[k];
  }

  /** The attempts at a file hold neither offers nor give-ups and end with an
      attempt, successful exactly when the loop returns a hash. */
  lemma {:induction false} AttemptsEndWithAttempt(u: Uploads, f: nat, path: string, batchId: string, pinResource: bool, i: nat)
    requires i < UploadMaxRetry
    ensures forall k :: 0 <= k < |AttemptsFrom(u, f, path, batchId, pinResource, i).log| ==>
      && !AttemptsFrom(u, f, path, batchId, pinResource, i).log[k].OfferResource?
      && !AttemptsFrom(u, f, path, batchId, pinResource, i).log[k].GaveUp?
    ensures |AttemptsFrom(u, f, path, batchId, pinResource, i).log| > 0
    ensures AttemptsFrom(u, f, path, batchId, pinResource, i).log[0].UploadAttempt?
    ensures AttemptsFrom(u, f, path, batchId, pinResource, i).log[
        |AttemptsFrom(u, f, path, batchId, pinResource, i).log| - 1] ==
      UploadAttempt(path, batchId, pinResource,
        (var r := AttemptsFrom(u, f, path, batchId, pinResource, i).refHash;
         if r.Some? then Success(r.value) else u.uploadReply(f, UploadMaxRetry - 1)))
    ensures AttemptsFrom(u, f, path, batchId, pinResource, i).refHash.None? ==>
      u.uploadReply(f, UploadMaxRetry - 1).Failure?
    decreases UploadMaxRetry - i
  {
    var reply := u.uploadReply(f, i);
    if reply.Failure? && i + 1 < UploadMaxRetry {
      AttemptsEndWithAttempt(u, f, path, batchId, pinResource, i + 1);
      var a := AttemptsFrom(u, f, path, batchId, pinResource, i);
      var rest := AttemptsFrom(u, f, path, batchId, pinResource, i + 1);
      assert a.log == [UploadAttempt(path, batchId, pinResource, reply), RetryWait(UploadRetryTimeSpan)] + rest.log;
      assert a.log[|a.log| - 1] == rest.log[|rest.log| - 1];
    }
  }

  /** The events of one file: its attempts, then the give-up report or the
      offer, if any. */
  function FileEvents(u: Uploads, paths: seq<string>, f: nat, batchId: string, pinResource: bool, offerDownload: bool): seq<UploadEvent>
    requires f < |paths|
  {
    var a := AttemptsFrom(u, f, paths[f], batchId, pinResource, 0);
    if a.refHash.None? then a.log + [GaveUp(paths[f])]
    else if !offerDownload then a.log
    else a.log + [OfferResource(a.refHash.value, u.offerReply(a.refHash.value))]
  }

  lemma FileEventsWellOrdered(u: Uploads, paths: seq<string>, f: nat, batchId: string, pinResource: bool, offerDownload: bool)
    requires f < |paths|
    ensures var events := FileEvents(u, paths, f, batchId, pinResource, offerDownload);
      && WellOrdered(events) && |events| > 0 && events[0].UploadAttempt?
      && (!offerDownload ==> forall k :: 0 <= k < |events| ==> !events[k].OfferResource?)
  {
    var a := AttemptsFrom(u, f, paths[f], batchId, pinResource, 0);
    AttemptsEndWithAttempt(u, f, paths[f], batchId, pinResource, 0);
    if a.refHash.None? {
      ThenFollows(a.log, GaveUp(paths[f]));
    } else if offerDownload {
      ThenFollows(a.log, OfferResource(a.refHash.value, u.offerReply(a.refHash.value)));
    } else {
      ThenFollows(a.log, RetryWait(UploadRetryTimeSpan));
    }
  }

  /** The upload of the files: an offer is made only for a hash that was just
      uploaded, and only when asked for; a file given up on is reported right
      after its last failed attempt, and the loop goes on to the next file. */
  lemma {:induction false} UploadFromOrdered(
    u: Uploads, paths: seq<string>, f: nat, batchId: string, pinResource: bool, offerDownload: bool)
    requires f <= |paths|
    ensures WellOrdered(UploadFrom(u, paths, f, batchId, pinResource, offerDownload).log)
    ensures f < |paths| ==>
      && |UploadFrom(u, paths, f, batchId, pinResource, offerDownload).log| > 0
      && UploadFrom(u, paths, f, batchId, pinResource, offerDownload).log[0].UploadAttempt?
    ensures !offerDownload ==>
      && UploadFrom(u, paths, f, batchId, pinResource, offerDownload).outcome.Success?
      && forall k :: 0 <= k < |UploadFrom(u, paths, f, batchId, pinResource, offerDownload).log| ==>
           !UploadFrom(u, paths, f, batchId, pinResource, offerDownload).log[k].OfferResource?
    decreases |paths| - f
  {
    if f < |paths| {
      var r := UploadFrom(u, paths, f, batchId, pinResource, offerDownload);
      var a := AttemptsFrom(u, f, paths[f], batchId, pinResource, 0);
      var events := FileEvents(u, paths, f, batchId, pinResource, offerDownload);
      FileEventsWellOrdered(u, paths, f, batchId, pinResource, offerDownload);
      if a.refHash.Some? && offerDownload && u.offerReply(a.refHash.value).Failure? {
        assert r.log == events;
      } else {
        UploadFromOrdered(u, paths, f + 1, batchId, pinResource, offerDownload);
        var rest := UploadFrom(u, paths, f + 1, batchId, pinResource, offerDownload);
        assert r == PrependRun(events, rest);
        WellOrderedAppend(events, rest.log);
        assert r.log[0] == events[0];
        if !offerDownload {
          forall k | 0 <= k < |r.log|
            ensures !r.log[k].OfferResource?
          {
            if k >= |events| {
              assert r.log[k] == rest.log[k - |events|];
            }
          }
        }
      }
    }
  }

  /** A run that threw ended on an offer that failed with that exception. */
  predicate RaisedByOffer(r: Run) {
    r.outcome.Failure? ==>
      && |r.log| > 0
      && r.log[|r.log| - 1].OfferResource?
      && r.log[|r.log| - 1].offerReply == Failure(r.outcome.error)
  }

  /** The loop throws only when an offer fails, and that offer is its last
      event. */
  lemma {:induction false} UploadFromFailsOnOffer(
    u: Uploads, paths: seq<string>, f: nat, batchId: string, pinResource: bool, offerDownload: bool)
    requires f <= |paths|
    ensures RaisedByOffer(UploadFrom(u, paths, f, batchId, pinResource, offerDownload))
    ensures UploadFrom(u, paths, f, batchId, pinResource, offerDownload).outcome.Failure? ==> offerDownload
    decreases |paths| - f
  {
    if f < |paths| {
      var r := UploadFrom(u, paths, f, batchId, pinResource, offerDownload);
      var a := AttemptsFrom(u, f, paths[f], batchId, pinResource, 0);
      if !(a.refHash.Some? && offerDownload && u.offerReply(a.refHash.value).Failure?) {
        UploadFromFailsOnOffer(u, paths, f + 1, batchId, pinResource, offerDownload);
        var rest := UploadFrom(u, paths, f + 1, batchId, pinResource, offerDownload);
        assert r == PrependRun(FileEvents(u, paths, f, batchId, pinResource, offerDownload), rest);
        if r.outcome.Failure? {
          assert r.log[|r.log| - 1] == rest.log[|rest.log| - 1];
        }
      }
    }
  }

  /** One pass of the foreach: upload the file with retries, then report a
      give-up or offer the resource; `raised` is the exception the offer threw. */
  method UploadNextFile(u: Uploads, paths: seq<string>, f: nat, batchId: string, pinResource: bool, offerDownload: bool)
    returns (events: seq<UploadEvent>, raised: Option<Error>)
    requires f < |paths|
    ensures raised.None? ==>
      UploadFrom(u, paths, f, batchId, pinResource, offerDownload) ==
      PrependRun(events, UploadFrom(u, paths, f + 1, batchId, pinResource, offerDownload))
    ensures raised.Some? ==>
      UploadFrom(u, paths, f, batchId, pinResource, offerDownload) == Run(Failure(raised.value), events)
  {
    var refHash, attempts := UploadFile(u, f, paths[f], batchId, pinResource);
    raised := None;
    if refHash.None? {
      events := attempts + [GaveUp(paths[f])];
    } else if offerDownload {
      var reply := u.offerReply(refHash.value);
      events := attempts + [OfferResource(refHash.value, reply)];
      if reply.Failure? {
        raised := Some(reply.error);
      }
    } else {
      events := attempts;
    }
  }

  /** The foreach over the files of ExecuteAsync. */
  method UploadFiles(u: Uploads, paths: seq<string>, batchId: string, pinResource: bool, offerDownload: bool)
    returns (outcome: Result<(), Error>, log: seq<UploadEvent>)
    ensures Run(outcome, log) == UploadFrom(u, paths, 0, batchId, pinResource, offerDownload)
  {
    log := [];
    var f := 0;
    while f < |paths|
      invariant 0 <= f <= |paths|
      invariant UploadFrom(u, paths, 0, batchId, pinResource, offerDownload) ==
        PrependRun(log, UploadFrom(u, paths, f, batchId, pinResource, offerDownload))
    {
      var events, raised := UploadNextFile(u, paths, f, batchId, pinResource, offerDownload);
      if raised.Some? {
        return Failure(raised.value), log + events;
      }
      PrependRunTwice(log, events, UploadFrom(u, paths, f + 1, batchId, pinResource, offerDownload));
      log := log + events;
      f := f + 1;
    }
    assert log + [] == log;
    return Success(()), log;
  }

  // ---------------------------------------------------------------------------
  // The command

  /** How the command ended: its exception if any, the keys read at the
      purchase prompt, the gateway calls made while choosing the batch, and
      the upload events. */
  datatype Execution = Execution(
    outcome: Result<(), Error>, keysRead: nat, batchLog: seq<Interaction>, uploadLog: seq<UploadEvent>)

  /** ExecuteAsync on values. */
  function ExecuteRun(
    args: seq<string>, fs: FileSystem, ctx: BatchContext, options: EthernaUploadOptions.Settings, u: Uploads): (x: Execution)
    requires ClockAdvances(ctx.gateway.now)
    requires options.usePostageBatchId.None? && !options.newPostageAutoPurchase ==> Answered(ctx.keys)
  {
    if |args| < 1 then Execution(Failure(UploadArgumentsMissing), 0, [], [])
    else
      var size := ContentSize(args, fs);
      if size.Failure? then Execution(Failure(size.error), 0, [], [])
      else
        var c := UsableBatchId(ctx, size.value, options.newPostageTtlDays, options.newPostageAutoPurchase,
                               options.usePostageBatchId, options.newPostageLabel);
        if c.batchId.Failure? then Execution(Failure(c.batchId.error), c.keysRead, c.log, [])
        else
          var run := UploadFrom(u, args, 0, c.batchId.value, options.pinResource, options.offerDownload);
          Execution(run.outcome, c.keysRead, c.log, run.log)
  }

  /** ExecuteAsync: the arguments are the files to upload. */
  method Execute(args: seq<string>, fs: FileSystem, ctx: BatchContext, options: EthernaUploadOptions.Settings, u: Uploads)
    returns (outcome: Result<(), Error>, keysRead: nat, batchLog: seq<Interaction>, uploadLog: seq<UploadEvent>)
    requires ClockAdvances(ctx.gateway.now)
    requires options.usePostageBatchId.None? && !options.newPostageAutoPurchase ==> Answered(ctx.keys)
    ensures Execution(outcome, keysRead, batchLog, uploadLog) == ExecuteRun(args, fs, ctx, options, u)
  {
    keysRead, batchLog, uploadLog := 0, [], [];
    if |args| < 1 {
      return Failure(UploadArgumentsMissing), 0, [], [];
    }
    var filePaths := args;
    var contentByteSize := ContentByteSize(filePaths, fs);
    if contentByteSize.Failure? {
      return Failure(contentByteSize.error), 0, [], [];
    }
    var postageBatchId;
    postageBatchId, keysRead, batchLog := GetUsablePostageBatchId(
      ctx, contentByteSize.value, options.newPostageTtlDays, options.newPostageAutoPurchase,
      options.usePostageBatchId, options.newPostageLabel);
    if postageBatchId.Failure? {
      return Failure(postageBatchId.error), keysRead, batchLog, [];
    }
    outcome, uploadLog := UploadFiles(u, filePaths, postageBatchId.value, options.pinResource, options.offerDownload);
  }

  /** Nothing reaches the gateway or the prompt before every file is known to
      exist: no arguments, or a missing file, end the command at once. */
  lemma ChecksComeFirst(
    args: seq<string>, fs: FileSystem, ctx: BatchContext, options: EthernaUploadOptions.Settings, u: Uploads)
    requires ClockAdvances(ctx.gateway.now)
    requires options.usePostageBatchId.None? && !options.newPostageAutoPurchase ==> Answered(ctx.keys)
    ensures var x := ExecuteRun(args, fs, ctx, options, u);
      && (|args| == 0 ==> x == Execution(Failure(UploadArgumentsMissing), 0, [], []))
      && (forall i :: 0 <= i < |args| && !fs.fileExists(args[i]) ==>
            && x.outcome.Failure? && x.outcome.error.InvalidOperationError?
            && x.keysRead == 0 && x.batchLog == [] && x.uploadLog == [])
  {
    ContentSizeMeaning(args, fs);
  }

  /** The first upload is of the first file, and every upload uses the batch
      chosen for the content and the pinning option; with a given batch, it is
      that batch. */
  lemma UploadsUseChosenBatch(
    args: seq<string>, fs: FileSystem, ctx: BatchContext, options: EthernaUploadOptions.Settings, u: Uploads)
    requires ClockAdvances(ctx.gateway.now)
    requires options.usePostageBatchId.None? && !options.newPostageAutoPurchase ==> Answered(ctx.keys)
    ensures var x := ExecuteRun(args, fs, ctx, options, u);
      x.uploadLog != [] ==>
        && ContentSize(args, fs).Success?
        && ContentSize(args, fs).value == TotalLength(args, fs)
        && x.uploadLog[0] == UploadAttempt(args[0], x.uploadLog[0].batchId, options.pinResource, u.uploadReply(0, 0))
        && (options.usePostageBatchId.Some? ==> x.uploadLog[0].batchId == ctx.existingBatch.value.id)
        && UploadsWith(x.uploadLog, x.uploadLog[0].batchId, options.pinResource)
  {
    ContentSizeMeaning(args, fs);
    var x := ExecuteRun(args, fs, ctx, options, u);
    if x.uploadLog != [] {
      var c := UsableBatchId(ctx, ContentSize(args, fs).value, options.newPostageTtlDays, options.newPostageAutoPurchase,
                             options.usePostageBatchId, options.newPostageLabel);
      AttemptsSend(u, 0, args[0], c.batchId.value, options.pinResource, 0);
      AttemptsEndWithAttempt(u, 0, args[0], c.batchId.value, options.pinResource, 0);
      var a := AttemptsFrom(u, 0, args[0], c.batchId.value, options.pinResource, 0);
      assert x.uploadLog[0] == a.log[0];
      UploadFromUsesBatch(u, args, 0, c.batchId.value, options.pinResource, options.offerDownload);
    }
  }
}
