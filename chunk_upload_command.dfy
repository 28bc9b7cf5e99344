/** `etherna chunk upload`: count the postage buckets of the chunk files of a
    directory, choose a batch deep enough for them, then send the chunks in
    slices of 500, resuming from the last slice sent after a failure and
    giving up after ten consecutive failures. */
module ChunkUploadCommand {
  import opened Wrappers
  import opened Failures
  import opened GatewayService
  import opened PurchasePrompt
  import opened PostageBatchService
  import ChunkUploadOptions

  const ChunkBatchMaxSize: nat := 500
  const UploadMaxRetry: nat := 10
  const UploadRetryTimeSpan: nat := 5_000     // 5 seconds

  const UploadArgumentsWrong := ArgumentError("Upload requires exactly 1 argument")

  // ---------------------------------------------------------------------------
  // File names

  /** The last position of `c` in `s`, or -1. */
  function LastIndexOf(s: string, c: char): (r: int)
    ensures -1 <= r < |s|
    ensures r >= 0 ==> s[r] == c
    ensures forall k :: r < k < |s| ==> s[k] != c
    decreases |s|
  {
    if |s| == 0 then -1
    else if s[|s| - 1] == c then |s| - 1
    else LastIndexOf(s[..|s| - 1], c)
  }

  /** Path.GetFileNameWithoutExtension on '/'-separated paths: what follows the
      last separator, up to its last period. */
  function FileNameWithoutExtension(path: string): (r: string)
  {
    var name := path[LastIndexOf(path, '/') + 1..];
    var dot := LastIndexOf(name, '.');
    if dot < 0 then name else name[..dot]
  }

  /** The name of a chunk file `<dir>/<hash>.chunk` gives back its hash. */
  lemma ChunkFileNameGivesHash(dir: string, hash: string)
    requires '/' !in hash
    ensures FileNameWithoutExtension(dir + "/" + hash + ".chunk") == hash
  {
    var path := dir + "/" + hash + ".chunk";
    var slash := |dir|;
    assert path[slash] == '/';
    forall k | slash < k < |path|
      ensures path[k] != '/'
    {
      if k <= |dir| + |hash| {
        assert path[k] == hash[k - |dir| - 1];
      } else {
        assert path[k] == ".chunk"[k - |dir| - |hash| - 1];
      }
    }
    var name := path[slash + 1..];
    assert name == hash + ".chunk";
    assert name[|hash|] == '.';
    forall k | |hash| < k < |name|
      ensures name[k] != '.'
    {
      assert name[k] == "chunk"[k - |hash| - 1];
    }
    assert name[..|hash|] == hash;
  }

  // ---------------------------------------------------------------------------
  // Postage buckets

  /** The collision counters of a postage batch's buckets (BeeNet's
      PostageBuckets): how many chunks fall in each bucket. */
  class PostageBuckets {
    var collisions: multiset<nat>

    constructor()
      ensures collisions == multiset{}
    {
      collisions := multiset{};
    }

    method IncrementCollisions(bucketId: nat)
      modifies this
      ensures collisions == old(collisions) + multiset{bucketId}
    {
      collisions := collisions + multiset{bucketId};
    }
  }

  /** The bucket of each chunk file, from the hash its name carries, in file
      order; the first name that is not a hash stops the count. */
  function BucketIds(chunkFiles: seq<string>, bucketOf: string -> Result<nat, Error>): (r: Result<seq<nat>, Error>)
    ensures r.Success? ==> |r.value| == |chunkFiles|
    decreases |chunkFiles|
  {
    if |chunkFiles| == 0 then Success([])
    else
      var before := BucketIds(chunkFiles[..|chunkFiles| - 1], bucketOf);
      var bucket := bucketOf(FileNameWithoutExtension(chunkFiles[|chunkFiles| - 1]));
      if before.Failure? then before
      else if bucket.Failure? then Failure(bucket.error)
      else Success(before.value + [bucket.value])
  }

  /** A successful count holds, for each file in order, the bucket of its hash. */
  lemma {:induction false} BucketIdsMatchFiles(chunkFiles: seq<string>, bucketOf: string -> Result<nat, Error>)
    requires BucketIds(chunkFiles, bucketOf).Success?
    ensures forall i :: 0 <= i < |chunkFiles| ==>
      bucketOf(FileNameWithoutExtension(chunkFiles[i])) == Success(BucketIds(chunkFiles, bucketOf).value[i])
    decreases |chunkFiles|
  {
    if |chunkFiles| > 0 {
      var init := chunkFiles[..|chunkFiles| - 1];
      BucketIdsMatchFiles(init, bucketOf);
      assert forall i :: 0 <= i < |init| ==> init[i] == chunkFiles[i];
    }
  }

  /** The count fails exactly when some name is not a hash, with the error of
      the first such name. */
  lemma {:induction false} BucketIdsFailure(chunkFiles: seq<string>, bucketOf: string -> Result<nat, Error>)
    ensures BucketIds(chunkFiles, bucketOf).Failure? <==>
      exists i :: 0 <= i < |chunkFiles| && bucketOf(FileNameWithoutExtension(chunkFiles[i])).Failure?
    ensures BucketIds(chunkFiles, bucketOf).Failure? ==>
      exists i ::
        && 0 <= i < |chunkFiles|
        && bucketOf(FileNameWithoutExtension(chunkFiles[i])) == Failure(BucketIds(chunkFiles, bucketOf).error)
        && forall m :: 0 <= m < i ==> bucketOf(FileNameWithoutExtension(chunkFiles[m])).Success?
    decreases |chunkFiles|
  {
    if |chunkFiles| > 0 {
      var init := chunkFiles[..|chunkFiles| - 1];
      BucketIdsFailure(init, bucketOf);
      assert forall i :: 0 <= i < |init| ==> init[i] == chunkFiles[i];
      var before := BucketIds(init, bucketOf);
      if before.Success? {
        BucketIdsMatchFiles(init, bucketOf);
        var last := |chunkFiles| - 1;
        assert forall m :: 0 <= m < last ==> bucketOf(FileNameWithoutExtension(chunkFiles[m])) == Success(before.value[m]);
      }
    }
  }

  /** The foreach over the chunk files: one increment per file, on the bucket
      of its hash; the counters it leaves are the multiset of those buckets. */
  method CountCollisions(chunkFiles: seq<string>, bucketOf: string -> Result<nat, Error>)
    returns (collisions: Result<multiset<nat>, Error>)
    ensures var ids := BucketIds(chunkFiles, bucketOf);
      collisions == if ids.Failure? then Failure(ids.error) else Success(multiset(ids.value))
    ensures collisions.Success? ==> |collisions.value| == |chunkFiles|
  {
    var postageBuckets := new PostageBuckets();
    var i := 0;
    ghost var ids: seq<nat> := [];
    while i < |chunkFiles|
      invariant 0 <= i <= |chunkFiles|
      invariant BucketIds(chunkFiles[..i], bucketOf) == Success(ids)
      invariant postageBuckets.collisions == multiset(ids)
    {
      var strHash := FileNameWithoutExtension(chunkFiles[i]);
      var bucketId := bucketOf(strHash);
      if bucketId.Failure? {
        BucketIdsExtendFailure(chunkFiles, bucketOf, i);
        return Failure(bucketId.error);
      }
      BucketIdsStep(chunkFiles, bucketOf, i, ids);
      postageBuckets.IncrementCollisions(bucketId.value);
      ids := ids + [bucketId.value];
      i := i + 1;
    }
    assert chunkFiles[..i] == chunkFiles;
    collisions := Success(postageBuckets.collisions);
  }

  /** One more file whose name is a hash adds its bucket to the count. */
  lemma BucketIdsStep(chunkFiles: seq<string>, bucketOf: string -> Result<nat, Error>, i: nat, ids: seq<nat>)
    requires i < |chunkFiles|
    requires BucketIds(chunkFiles[..i], bucketOf) == Success(ids)
    requires bucketOf(FileNameWithoutExtension(chunkFiles[i])).Success?
    ensures BucketIds(chunkFiles[..i + 1], bucketOf) == Success(ids + [bucketOf(FileNameWithoutExtension(chunkFiles[i])).value])
  {
    assert chunkFiles[..i + 1][..i] == chunkFiles[..i];
  }

  /** A name that is not a hash after names that are stops the count with its
      error, whatever follows. */
  lemma {:induction false} BucketIdsExtendFailure(chunkFiles: seq<string>, bucketOf: string -> Result<nat, Error>, i: nat)
    requires i < |chunkFiles|
    requires BucketIds(chunkFiles[..i], bucketOf).Success?
    requires bucketOf(FileNameWithoutExtension(chunkFiles[i])).Failure?
    ensures BucketIds(chunkFiles, bucketOf) == Failure(bucketOf(FileNameWithoutExtension(chunkFiles[i])).error)
    decreases |chunkFiles|
  {
    if i + 1 == |chunkFiles| {
      assert chunkFiles[..|chunkFiles| - 1] == chunkFiles[..i];
    } else {
      var init := chunkFiles[..|chunkFiles| - 1];
      assert init[..i] == chunkFiles[..i] && init[i] == chunkFiles[i];
      BucketIdsExtendFailure(init, bucketOf, i);
    }
  }

  // ---------------------------------------------------------------------------
  // Sending the chunks

  /** A bulk upload of a slice of chunk files, or the wait before a retry. Any
      exception raised while reading, building or sending the slice is the
      reply's failure. */
  datatype ChunkEvent =
    | SendSlice(chunks: seq<string>, batchId: string, reply: Result<(), Error>)
    | RetryWait(milliseconds: nat)

  function Min(a: int, b: int): int {
    if a <= b then a else b
  }

  /** `chunkFiles.Skip(cursor).Take(500)`. */
  function Slice(chunkFiles: seq<string>, cursor: nat): (s: seq<string>)
    requires cursor <= |chunkFiles|
    ensures |s| == Min(ChunkBatchMaxSize, |chunkFiles| - cursor)
  {
    chunkFiles[cursor..Min(cursor + ChunkBatchMaxSize, |chunkFiles|)]
  }

  /** Failed sends since the last successful one (the `retry` counter). */
  function FailuresSinceSuccess(log: seq<ChunkEvent>): nat
    decreases |log|
  {
    if |log| == 0 then 0
    else
      var e := log[|log| - 1];
      var before := FailuresSinceSuccess(log[..|log| - 1]);
      if e.RetryWait? then before else if e.reply.Success? then 0 else before + 1
  }

  /** Replays a log against the chunk files: the cursor its successful sends
      lead to, provided every send came while chunk files were left, carried
      the slice at the cursor, for the given batch, and got the gateway's
      reply to that attempt (named by the cursor and the failures since the
      last success). */
  function Replay(chunkFiles: seq<string>, batchId: string, sendReply: (nat, nat) -> Result<(), Error>, log: seq<ChunkEvent>): (r: Option<nat>)
    ensures r.Some? ==> r.value <= |chunkFiles|
    decreases |log|
  {
    if |log| == 0 then Some(0)
    else
      var init := log[..|log| - 1];
      var e := log[|log| - 1];
      var before := Replay(chunkFiles, batchId, sendReply, init);
      if before.None? || e.RetryWait? then before
      else if before.value == |chunkFiles| then None
      else if e != SendSlice(Slice(chunkFiles, before.value), batchId, sendReply(before.value, FailuresSinceSuccess(init))) then None
      else if e.reply.Success? then Some(before.value + |e.chunks|)
      else before
  }

  /** The chunk files the successful sends delivered, in order. */
  function Delivered(log: seq<ChunkEvent>): seq<string>
    decreases |log|
  {
    if |log| == 0 then []
    else
      var e := log[|log| - 1];
      Delivered(log[..|log| - 1]) + (if e.SendSlice? && e.reply.Success? then e.chunks else [])
  }

  /** Never re-send, never skip: a log that replays to cursor `c` delivered
      exactly the first `c` chunk files, each once and in order. */
  lemma {:induction false} ReplayDeliversPrefix(
    chunkFiles: seq<string>, batchId: string, sendReply: (nat, nat) -> Result<(), Error>, log: seq<ChunkEvent>)
    requires Replay(chunkFiles, batchId, sendReply, log).Some?
    ensures Delivered(log) == chunkFiles[..Replay(chunkFiles, batchId, sendReply, log).value]
    decreases |log|
  {
    if |log| > 0 {
      var init := log[..|log| - 1];
      ReplayDeliversPrefix(chunkFiles, batchId, sendReply, init);
      var b := Replay(chunkFiles, batchId, sendReply, init).value;
      var e := log[|log| - 1];
      if e.SendSlice? && e.reply.Success? {
        var c := b + |Slice(chunkFiles, b)|;
        assert e.chunks == Slice(chunkFiles, b) == chunkFiles[b..c];
        assert Replay(chunkFiles, batchId, sendReply, log) == Some(c);
        assert Delivered(log) == chunkFiles[..b] + chunkFiles[b..c];
        assert chunkFiles[..c] == chunkFiles[..b] + chunkFiles[b..c];
      }
    }
  }

  /** The cursor never decreases: every prefix of a log that replays replays
      too, to a cursor no further on. */
  lemma {:induction false} CursorNeverDecreases(
    chunkFiles: seq<string>, batchId: string, sendReply: (nat, nat) -> Result<(), Error>, log: seq<ChunkEvent>, k: nat)
    requires Replay(chunkFiles, batchId, sendReply, log).Some?
    requires k <= |log|
    ensures Replay(chunkFiles, batchId, sendReply, log[..k]).Some?
    ensures Replay(chunkFiles, batchId, sendReply, log[..k]).value <= Replay(chunkFiles, batchId, sendReply, log).value
    decreases |log|
  {
    if k < |log| {
      var init := log[..|log| - 1];
      assert init[..k] == log[..k];
      CursorNeverDecreases(chunkFiles, batchId, sendReply, init, k);
    } else {
      assert log[..k] == log;
    }
  }

  /** No send once every chunk file is delivered: each send in a log that
      replays comes at a cursor short of the end. */
  lemma {:induction false} SendsWhileFilesLeft(
    chunkFiles: seq<string>, batchId: string, sendReply: (nat, nat) -> Result<(), Error>, log: seq<ChunkEvent>)
    requires Replay(chunkFiles, batchId, sendReply, log).Some?
    ensures forall k :: 0 <= k < |log| && log[k].SendSlice? ==>
              Replay(chunkFiles, batchId, sendReply, log[..k]).Some? && Replay(chunkFiles, batchId, sendReply, log[..k]).value < |chunkFiles|
    decreases |log|
  {
    if |log| > 0 {
      var init := log[..|log| - 1];
      SendsWhileFilesLeft(chunkFiles, batchId, sendReply, init);
      forall k | 0 <= k < |init|
        ensures init[k] == log[k] && init[..k] == log[..k]
      {
      }
      assert log[..|init|] == init;
    }
  }

  /** Fewer than ten consecutive failures came before each event. */
  predicate RetriesLeft(log: seq<ChunkEvent>)
    decreases |log|
  {
    |log| > 0 ==>
      && RetriesLeft(log[..|log| - 1])
      && FailuresSinceSuccess(log[..|log| - 1]) < UploadMaxRetry
  }

  /** Each wait lasts five seconds and comes right after a failed send that
      leaves another attempt, and right before the next send. */
  predicate WaitsBetweenAttempts(log: seq<ChunkEvent>)
    decreases |log|
  {
    |log| > 0 ==>
      var init := log[..|log| - 1];
      var e := log[|log| - 1];
      && WaitsBetweenAttempts(init)
      && (e.RetryWait? ==>
            && e == RetryWait(UploadRetryTimeSpan)
            && |init| > 0 && init[|init| - 1].SendSlice? && init[|init| - 1].reply.Failure?
            && FailuresSinceSuccess(init) < UploadMaxRetry)
      && (|init| > 0 && init[|init| - 1].RetryWait? ==> e.SendSlice?)
  }

  /** RetriesLeft, event by event. */
  lemma {:induction false} RetriesLeftEach(log: seq<ChunkEvent>)
    ensures RetriesLeft(log) <==> forall k :: 0 <= k < |log| ==> FailuresSinceSuccess(log[..k]) < UploadMaxRetry
    decreases |log|
  {
    if |log| > 0 {
      var init := log[..|log| - 1];
      RetriesLeftEach(init);
      assert forall k :: 0 <= k < |init| ==> init[..k] == log[..k];
    }
  }

  /** A wait as WaitsBetweenAttempts allows it at position k. */
  predicate WaitAt(log: seq<ChunkEvent>, k: nat)
    requires k < |log|
  {
    log[k].RetryWait? ==>
      && log[k] == RetryWait(UploadRetryTimeSpan)
      && 0 < k && log[k - 1].SendSlice? && log[k - 1].reply.Failure?
      && FailuresSinceSuccess(log[..k]) < UploadMaxRetry
      && (k + 1 < |log| ==> log[k + 1].SendSlice?)
  }

  /** WaitsBetweenAttempts, wait by wait. */
  lemma {:induction false} WaitsEach(log: seq<ChunkEvent>)
    ensures WaitsBetweenAttempts(log) <==> forall k :: 0 <= k < |log| ==> WaitAt(log, k)
    decreases |log|
  {
    if |log| > 0 {
      var init := log[..|log| - 1];
      WaitsEach(init);
      forall k | 0 <= k < |init|
        ensures init[k] == log[k] && init[..k] == log[..k]
      {
      }
      if WaitsBetweenAttempts(log) {
        forall k | 0 <= k < |log| ensures WaitAt(log, k) {
          if k < |init| {
            assert WaitAt(init, k);
          } else {
            assert init == log[..k];
          }
        }
      }
      if forall k :: 0 <= k < |log| ==> WaitAt(log, k) {
        forall k | 0 <= k < |init| ensures WaitAt(init, k) {
          assert WaitAt(log, k);
        }
        assert WaitAt(log, |log| - 1);
        if |init| > 0 {
          assert WaitAt(log, |init| - 1);
        }
      }
    }
  }

  /** What holds of every log the upload loop writes. */
  predicate Consistent(chunkFiles: seq<string>, batchId: string, sendReply: (nat, nat) -> Result<(), Error>, log: seq<ChunkEvent>) {
    && Replay(chunkFiles, batchId, sendReply, log).Some?
    && RetriesLeft(log)
    && WaitsBetweenAttempts(log)
  }

  /** Every failed send that is not the last event was one of the retried
      exceptions, and while another attempt was left the 5-second wait came
      right after it. */
  predicate FailuresRetried(log: seq<ChunkEvent>)
    decreases |log|
  {
    |log| > 0 ==>
      var init := log[..|log| - 1];
      && FailuresRetried(init)
      && (EndsInFailure(init) ==>
            && IsTransientUploadError(init[|init| - 1].reply.error)
            && (FailuresSinceSuccess(init) < UploadMaxRetry ==> log[|log| - 1] == RetryWait(UploadRetryTimeSpan)))
  }

  /** FailuresRetried as it applies to the event at position k. */
  predicate RetriedAt(log: seq<ChunkEvent>, k: nat)
    requires k + 1 < |log|
  {
    log[k].SendSlice? && log[k].reply.Failure? ==>
      && IsTransientUploadError(log[k].reply.error)
      && (FailuresSinceSuccess(log[..k + 1]) < UploadMaxRetry ==> log[k + 1] == RetryWait(UploadRetryTimeSpan))
  }

  /** FailuresRetried, failure by failure. */
  lemma {:induction false} FailuresRetriedEach(log: seq<ChunkEvent>)
    ensures FailuresRetried(log) <==> forall k :: 0 <= k < |log| - 1 ==> RetriedAt(log, k)
    decreases |log|
  {
    if |log| > 0 {
      var init := log[..|log| - 1];
      FailuresRetriedEach(init);
      forall k | 0 <= k < |init|
        ensures init[k] == log[k] && init[..k + 1] == log[..k + 1]
      {
      }
      if FailuresRetried(log) {
        forall k | 0 <= k < |log| - 1 ensures RetriedAt(log, k) {
          if k < |init| - 1 {
            assert RetriedAt(init, k);
          } else {
            assert log[..k + 1] == init;
          }
        }
      }
      if forall k :: 0 <= k < |log| - 1 ==> RetriedAt(log, k) {
        forall k | 0 <= k < |init| - 1 ensures RetriedAt(init, k) {
          assert RetriedAt(log, k);
        }
        if |init| > 0 {
          assert RetriedAt(log, |init| - 1);
          assert log[..|init|] == init;
        }
      }
    }
  }

  /** The last event is a failed send. */
  predicate EndsInFailure(log: seq<ChunkEvent>) {
    |log| > 0 && log[|log| - 1].SendSlice? && log[|log| - 1].reply.Failure?
  }

  /** The upload loop as it ends: its log is consistent and does not end on a
      wait; every failure before the last send was retried, with the wait when
      an attempt was left; it reports the cursor reached, which is all the
      chunk files or follows ten consecutive failures; and it throws exactly
      when the last send failed with an exception it does not retry, that
      exception. */
  predicate IsChunkUploadRun(
    chunkFiles: seq<string>, batchId: string, sendReply: (nat, nat) -> Result<(), Error>,
    outcome: Result<nat, Error>, log: seq<ChunkEvent>)
  {
    && Consistent(chunkFiles, batchId, sendReply, log)
    && (|log| > 0 ==> log[|log| - 1].SendSlice?)
    && FailuresRetried(log)
    && (EndsInFailure(log) && !IsTransientUploadError(log[|log| - 1].reply.error) ==>
          outcome == Failure(log[|log| - 1].reply.error))
    && (outcome.Success? ==>
          && Replay(chunkFiles, batchId, sendReply, log) == Some(outcome.value)
          && (outcome.value == |chunkFiles| || FailuresSinceSuccess(log) == UploadMaxRetry))
    && (outcome.Failure? ==>
          && !IsTransientUploadError(outcome.error)
          && |log| > 0
          && log[|log| - 1].reply == Failure(outcome.error))
  }

  lemma RetriesLeftSnoc(log: seq<ChunkEvent>, e: ChunkEvent)
    requires RetriesLeft(log) && FailuresSinceSuccess(log) < UploadMaxRetry
    ensures RetriesLeft(log + [e])
  {
    assert (log + [e])[..|log|] == log;
  }

  lemma WaitsSnocSend(log: seq<ChunkEvent>, e: ChunkEvent)
    requires WaitsBetweenAttempts(log) && e.SendSlice?
    ensures WaitsBetweenAttempts(log + [e])
  {
    assert (log + [e])[..|log|] == log;
  }

  lemma WaitsSnocWait(log: seq<ChunkEvent>)
    requires WaitsBetweenAttempts(log)
    requires |log| > 0 && log[|log| - 1].SendSlice? && log[|log| - 1].reply.Failure?
    requires FailuresSinceSuccess(log) < UploadMaxRetry
    ensures WaitsBetweenAttempts(log + [RetryWait(UploadRetryTimeSpan)])
  {
    assert (log + [RetryWait(UploadRetryTimeSpan)])[..|log|] == log;
  }

  /** Sending the slice at the cursor as the attempt the failure count names
      is what a replay accepts: success moves the cursor over the slice and
      resets the failure count, failure adds one to it. */
  lemma ReplaySend(
    chunkFiles: seq<string>, batchId: string, sendReply: (nat, nat) -> Result<(), Error>,
    log: seq<ChunkEvent>, cursor: nat, e: ChunkEvent)
    requires cursor < |chunkFiles|
    requires Replay(chunkFiles, batchId, sendReply, log) == Some(cursor)
    requires e == SendSlice(Slice(chunkFiles, cursor), batchId, sendReply(cursor, FailuresSinceSuccess(log)))
    ensures Replay(chunkFiles, batchId, sendReply, log + [e]) == Some(if e.reply.Success? then cursor + |e.chunks| else cursor)
    ensures FailuresSinceSuccess(log + [e]) == if e.reply.Success? then 0 else FailuresSinceSuccess(log) + 1
  {
    assert (log + [e])[..|log|] == log;
  }

  /** Such a send, with fewer than ten failures behind it, keeps the log
      consistent. */
  lemma ExtendSend(
    chunkFiles: seq<string>, batchId: string, sendReply: (nat, nat) -> Result<(), Error>,
    log: seq<ChunkEvent>, cursor: nat, e: ChunkEvent)
    requires Consistent(chunkFiles, batchId, sendReply, log)
    requires cursor < |chunkFiles|
    requires Replay(chunkFiles, batchId, sendReply, log) == Some(cursor)
    requires FailuresSinceSuccess(log) < UploadMaxRetry
    requires e == SendSlice(Slice(chunkFiles, cursor), batchId, sendReply(cursor, FailuresSinceSuccess(log)))
    ensures Consistent(chunkFiles, batchId, sendReply, log + [e])
    ensures Replay(chunkFiles, batchId, sendReply, log + [e]) == Some(if e.reply.Success? then cursor + |e.chunks| else cursor)
    ensures FailuresSinceSuccess(log + [e]) == if e.reply.Success? then 0 else FailuresSinceSuccess(log) + 1
  {
    ReplaySend(chunkFiles, batchId, sendReply, log, cursor, e);
    RetriesLeftSnoc(log, e);
    WaitsSnocSend(log, e);
  }

  /** A wait after a failed send that leaves another attempt keeps the log
      consistent, the cursor and the failure count. */
  lemma ExtendWait(
    chunkFiles: seq<string>, batchId: string, sendReply: (nat, nat) -> Result<(), Error>, log: seq<ChunkEvent>)
    requires Consistent(chunkFiles, batchId, sendReply, log)
    requires |log| > 0 && log[|log| - 1].SendSlice? && log[|log| - 1].reply.Failure?
    requires FailuresSinceSuccess(log) < UploadMaxRetry
    ensures Consistent(chunkFiles, batchId, sendReply, log + [RetryWait(UploadRetryTimeSpan)])
    ensures Replay(chunkFiles, batchId, sendReply, log + [RetryWait(UploadRetryTimeSpan)]) == Replay(chunkFiles, batchId, sendReply, log)
    ensures FailuresSinceSuccess(log + [RetryWait(UploadRetryTimeSpan)]) == FailuresSinceSuccess(log)
  {
    assert (log + [RetryWait(UploadRetryTimeSpan)])[..|log|] == log;
    RetriesLeftSnoc(log, RetryWait(UploadRetryTimeSpan));
    WaitsSnocWait(log);
  }

  /** A send after an event that is no failed send keeps every failure retried. */
  lemma FailuresRetriedSnocSend(log: seq<ChunkEvent>, e: ChunkEvent)
    requires FailuresRetried(log) && !EndsInFailure(log)
    ensures FailuresRetried(log + [e])
    ensures (log + [e])[|log|] == e
    ensures EndsInFailure(log + [e]) <==> e.SendSlice? && e.reply.Failure?
  {
    assert (log + [e])[..|log|] == log;
  }

  /** The wait after a retried failure keeps every failure retried. */
  lemma FailuresRetriedSnocWait(log: seq<ChunkEvent>)
    requires FailuresRetried(log) && EndsInFailure(log)
    requires IsTransientUploadError(log[|log| - 1].reply.error)
    ensures FailuresRetried(log + [RetryWait(UploadRetryTimeSpan)])
  {
    assert (log + [RetryWait(UploadRetryTimeSpan)])[..|log|] == log;
  }

  /** One iteration of the `try` block: the slice at the cursor is sent, and
      the reply is logged. */
  method SendNext(
    chunkFiles: seq<string>, batchId: string, sendReply: (nat, nat) -> Result<(), Error>,
    log: seq<ChunkEvent>, cursor: nat, retry: nat)
    returns (log': seq<ChunkEvent>, sent: ChunkEvent)
    requires cursor < |chunkFiles| && retry < UploadMaxRetry
    requires Consistent(chunkFiles, batchId, sendReply, log)
    requires Replay(chunkFiles, batchId, sendReply, log) == Some(cursor)
    requires FailuresSinceSuccess(log) == retry
    requires FailuresRetried(log) && !EndsInFailure(log)
    ensures sent == SendSlice(Slice(chunkFiles, cursor), batchId, sendReply(cursor, retry))
    ensures log' == log + [sent]
    ensures Consistent(chunkFiles, batchId, sendReply, log')
    ensures Replay(chunkFiles, batchId, sendReply, log') == Some(if sent.reply.Success? then cursor + |sent.chunks| else cursor)
    ensures FailuresSinceSuccess(log') == if sent.reply.Success? then 0 else retry + 1
    ensures FailuresRetried(log')
    ensures |log'| > 0 && log'[|log'| - 1] == sent
    ensures EndsInFailure(log') <==> sent.reply.Failure?
  {
    var chunkBatchFiles := Slice(chunkFiles, cursor);
    var reply := sendReply(cursor, retry);
    sent := SendSlice(chunkBatchFiles, batchId, reply);
    ExtendSend(chunkFiles, batchId, sendReply, log, cursor, sent);
    FailuresRetriedSnocSend(log, sent);
    log' := log + [sent];
  }

  /** The `try` block of the upload loop: send slices from the cursor until
      all are sent or one fails; a successful slice moves the cursor on and
      resets the retry counter. */
  method SendSlices(
    chunkFiles: seq<string>, batchId: string, sendReply: (nat, nat) -> Result<(), Error>,
    log0: seq<ChunkEvent>, cursor0: nat, retry0: nat)
    returns (log: seq<ChunkEvent>, totalUploaded: nat, retry: nat, failure: Option<Error>)
    requires cursor0 < |chunkFiles| && retry0 < UploadMaxRetry
    requires Consistent(chunkFiles, batchId, sendReply, log0)
    requires Replay(chunkFiles, batchId, sendReply, log0) == Some(cursor0)
    requires FailuresSinceSuccess(log0) == retry0
    requires FailuresRetried(log0) && !EndsInFailure(log0)
    ensures cursor0 <= totalUploaded <= |chunkFiles|
    ensures totalUploaded == cursor0 ==> retry == retry0
    ensures retry < UploadMaxRetry
    ensures Consistent(chunkFiles, batchId, sendReply, log)
    ensures Replay(chunkFiles, batchId, sendReply, log) == Some(totalUploaded)
    ensures |log| > 0 && log[|log| - 1].SendSlice?
    ensures FailuresRetried(log)
    ensures failure.None? ==> totalUploaded == |chunkFiles| && !EndsInFailure(log)
    ensures failure.Some? ==>
      && totalUploaded < |chunkFiles|
      && FailuresSinceSuccess(log) == retry + 1
      && log[|log| - 1].reply == Failure(failure.value)
  {
    log, totalUploaded, retry := log0, cursor0, retry0;
    while totalUploaded < |chunkFiles|
      invariant cursor0 <= totalUploaded <= |chunkFiles|
      invariant totalUploaded == cursor0 ==> retry == retry0
      invariant retry < UploadMaxRetry
      invariant Consistent(chunkFiles, batchId, sendReply, log)
      invariant Replay(chunkFiles, batchId, sendReply, log) == Some(totalUploaded)
      invariant FailuresSinceSuccess(log) == retry
      invariant totalUploaded > cursor0 ==> |log| > 0 && log[|log| - 1].SendSlice?
      invariant FailuresRetried(log) && !EndsInFailure(log)
      decreases |chunkFiles| - totalUploaded
    {
      var sent;
      log, sent := SendNext(chunkFiles, batchId, sendReply, log, totalUploaded, retry);
      if sent.reply.Failure? {
        return log, totalUploaded, retry, Some(sent.reply.error);
      }
      retry := 0;
      totalUploaded := totalUploaded + |sent.chunks|;
    }
    failure := None;
  }

  /** The upload loop of ExecuteAsync: a `for` over the retry counter around
      the `try` block; only the listed transient exceptions are retried, with
      a wait when another attempt follows. */
  method UploadChunks(chunkFiles: seq<string>, batchId: string, sendReply: (nat, nat) -> Result<(), Error>)
    returns (outcome: Result<nat, Error>, log: seq<ChunkEvent>)
    ensures IsChunkUploadRun(chunkFiles, batchId, sendReply, outcome, log)
  {
    log := [];
    var totalUploaded := 0;
    var retry := 0;
    while retry < UploadMaxRetry && totalUploaded < |chunkFiles|
      invariant 0 <= totalUploaded <= |chunkFiles|
      invariant Consistent(chunkFiles, batchId, sendReply, log)
      invariant Replay(chunkFiles, batchId, sendReply, log) == Some(totalUploaded)
      invariant totalUploaded < |chunkFiles| ==> FailuresSinceSuccess(log) == retry
      invariant |log| > 0 && log[|log| - 1].RetryWait? ==> retry < UploadMaxRetry && totalUploaded < |chunkFiles|
      invariant FailuresRetried(log)
      invariant EndsInFailure(log) ==> retry >= UploadMaxRetry && IsTransientUploadError(log[|log| - 1].reply.error)
      decreases |chunkFiles| - totalUploaded, UploadMaxRetry - retry
    {
      var failure;
      log, totalUploaded, retry, failure := SendSlices(chunkFiles, batchId, sendReply, log, totalUploaded, retry);
      if failure.Some? {
        if !IsTransientUploadError(failure.value) {
          return Failure(failure.value), log;
        }
        if retry + 1 < UploadMaxRetry {
          ExtendWait(chunkFiles, batchId, sendReply, log);
          FailuresRetriedSnocWait(log);
          log := log + [RetryWait(UploadRetryTimeSpan)];
        }
      }
      retry := retry + 1;
    }
    return Success(totalUploaded), log;
  }

  /** Every chunk file is sent once: a run that reports `t` chunks delivered
      exactly the first `t` files; a run that reports fewer than all gave up
      after ten consecutive failed attempts. */
  lemma RunDeliversReported(
    chunkFiles: seq<string>, batchId: string, sendReply: (nat, nat) -> Result<(), Error>,
    outcome: Result<nat, Error>, log: seq<ChunkEvent>)
    requires IsChunkUploadRun(chunkFiles, batchId, sendReply, outcome, log)
    requires outcome.Success?
    ensures outcome.value <= |chunkFiles|
    ensures Delivered(log) == chunkFiles[..outcome.value]
    ensures outcome.value < |chunkFiles| ==> FailuresSinceSuccess(log) == UploadMaxRetry
  {
    ReplayDeliversPrefix(chunkFiles, batchId, sendReply, log);
  }

  /** An exception the loop does not retry ends it: nothing is sent after it
      and the command throws it. */
  lemma NonRetriedFailureEndsRun(
    chunkFiles: seq<string>, batchId: string, sendReply: (nat, nat) -> Result<(), Error>,
    outcome: Result<nat, Error>, log: seq<ChunkEvent>, k: nat)
    requires IsChunkUploadRun(chunkFiles, batchId, sendReply, outcome, log)
    requires k < |log| && log[k].SendSlice? && log[k].reply.Failure?
    requires !IsTransientUploadError(log[k].reply.error)
    ensures k == |log| - 1
    ensures outcome == Failure(log[k].reply.error)
  {
    FailuresRetriedEach(log);
    assert k + 1 < |log| ==> RetriedAt(log, k);
  }

  /** With no chunk files nothing is sent and none is reported. */
  lemma NothingToSend(batchId: string, sendReply: (nat, nat) -> Result<(), Error>, outcome: Result<nat, Error>, log: seq<ChunkEvent>)
    requires IsChunkUploadRun([], batchId, sendReply, outcome, log)
    ensures log == [] && outcome == Success(0)
  {
    if |log| > 0 {
      SendsWhileFilesLeft([], batchId, sendReply, log);
    }
  }

  // ---------------------------------------------------------------------------
  // The command

  /** ExecuteAsync: the one argument is the chunk directory, `listing` is what
      the directory holds of `*.chunk` files, `bucketOf` the bucket of a hash
      (invalid hashes throw), `requiredDepth` the depth the buckets call for. */
  method Execute(
    args: seq<string>,
    listing: string -> Result<seq<string>, Error>,
    bucketOf: string -> Result<nat, Error>,
    requiredDepth: multiset<nat> -> int,
    ctx: BatchContext,
    options: ChunkUploadOptions.Settings,
    sendReply: (nat, nat) -> Result<(), Error>)
    returns (outcome: Result<nat, Error>, keysRead: nat, batchLog: seq<Interaction>, uploadLog: seq<ChunkEvent>)
    requires ClockAdvances(ctx.gateway.now)
    requires options.usePostageBatchId.None? && !options.newPostageAutoPurchase ==> Answered(ctx.keys)
    ensures |args| != 1 ==> outcome == Failure(UploadArgumentsWrong) && keysRead == 0 && batchLog == [] && uploadLog == []
    ensures |args| == 1 && listing(args[0]).Failure? ==>
      outcome == Failure(listing(args[0]).error) && keysRead == 0 && batchLog == [] && uploadLog == []
    ensures |args| == 1 && listing(args[0]).Success? ==>
      var ids := BucketIds(listing(args[0]).value, bucketOf);
      && (ids.Failure? ==> outcome == Failure(ids.error) && keysRead == 0 && batchLog == [] && uploadLog == [])
      && (ids.Success? ==>
            var choice := UsablePostageBatch(ctx, requiredDepth(multiset(ids.value)), options.newPostageTtlDays,
                                             options.newPostageAutoPurchase, options.usePostageBatchId, options.newPostageLabel);
            && keysRead == choice.keysRead && batchLog == choice.log
            && (choice.batchId.Failure? ==> outcome == Failure(choice.batchId.error) && uploadLog == [])
            && (choice.batchId.Success? ==>
                  IsChunkUploadRun(listing(args[0]).value, choice.batchId.value, sendReply, outcome, uploadLog)))
  {
    keysRead, batchLog, uploadLog := 0, [], [];
    if |args| != 1 {
      return Failure(UploadArgumentsWrong), 0, [], [];
    }
    var dirPath := args[0];

    // Search chunks and calculate the required postage batch depth.
    var chunkFiles := listing(dirPath);
    if chunkFiles.Failure? {
      return Failure(chunkFiles.error), 0, [], [];
    }
    var collisions := CountCollisions(chunkFiles.value, bucketOf);
    if collisions.Failure? {
      return Failure(collisions.error), 0, [], [];
    }
    var batchDepth := requiredDepth(collisions.value);

    // Identify the postage batch to use.
    var batchId;
    batchId, keysRead, batchLog := GetUsablePostageBatch(
      ctx, batchDepth, options.newPostageTtlDays, options.newPostageAutoPurchase,
      options.usePostageBatchId, options.newPostageLabel);
    if batchId.Failure? {
      return Failure(batchId.error), keysRead, batchLog, [];
    }

    outcome, uploadLog := UploadChunks(chunkFiles.value, batchId.value, sendReply);
  }
}
