/** The gateway service: postage batch sizing, and the creation of a batch with
    its two polling loops (until the batch exists, then until it is usable).
    The remote gateway and the clock are an `Environment` of answers given in the
    order the service asks for them; what the service asks, and what it is told,
    is returned as a log of `Interaction`s. Times are in milliseconds. */
module GatewayService {
  import opened Wrappers
  import opened Failures

  const ChunkByteSize: nat := 4096
  const MinBatchDepth: nat := 17
  const BatchCheckTimeSpan: nat := 5_000        // 5 seconds
  const BatchCreationTimeout: nat := 600_000    // 10 minutes
  const BatchUsableTimeout: nat := 600_000      // 10 minutes

  const AmountNotPositive := "Amount must be positive"
  const DepthTooSmall := "Postage depth must be at least 17"

  function Pow2(n: nat): (r: nat)
    ensures r >= 1
  {
    if n == 0 then 1 else 2 * Pow2(n - 1)
  }

  // ---------------------------------------------------------------------------
  // Sizing

  /** What the gateway reports about a postage batch. */
  datatype PostageBatch = PostageBatch(id: string, depth: int, usable: bool)

  /** CalculatePostageBatchByteSize: `(long)Math.Pow(2, depth) * 4096`. For a
      negative depth the power is below one and the cast truncates it to zero. */
  function PostageBatchByteSize(depth: int): (r: nat)
  {
    if depth < 0 then 0 else Pow2(depth) * ChunkByteSize
  }

  /** One more level of depth doubles the capacity. */
  lemma ByteSizeDoubles(depth: nat)
    ensures PostageBatchByteSize(depth + 1) == 2 * PostageBatchByteSize(depth)
    ensures PostageBatchByteSize(depth) >= ChunkByteSize
  {
  }

  lemma {:induction false} ByteSizeMonotone(d1: int, d2: int)
    requires d1 <= d2
    ensures PostageBatchByteSize(d1) <= PostageBatchByteSize(d2)
  {
    if 0 <= d1 < d2 {
      ByteSizeMonotone(d1, d2 - 1);
      ByteSizeDoubles(d2 - 1);
    }
  }

  /** CalculateRequiredPostageBatchSpace: the content size plus 20% tolerance,
      truncated toward zero as the cast from double does. */
  function RequiredPostageBatchSpace(contentByteSize: int): (r: int)
    ensures contentByteSize >= 0 ==> 5 * r <= 6 * contentByteSize < 5 * r + 5
    ensures contentByteSize < 0 ==> 5 * -r <= 6 * -contentByteSize < 5 * -r + 5
    ensures contentByteSize >= 0 ==> contentByteSize <= r
  {
    if contentByteSize >= 0 then contentByteSize * 6 / 5
    else -((-contentByteSize) * 6 / 5)
  }

  lemma RequiredSpaceMonotone(s1: int, s2: int)
    requires s1 <= s2
    ensures RequiredPostageBatchSpace(s1) <= RequiredPostageBatchSpace(s2)
  {
  }

  /** `depth` is the smallest depth of at least 17 whose capacity holds `space`. */
  predicate IsLeastCoveringDepth(space: int, depth: nat) {
    && depth >= MinBatchDepth
    && space <= PostageBatchByteSize(depth)
    && forall d :: MinBatchDepth <= d < depth ==> PostageBatchByteSize(d) < space
  }

  /** The least covering depth of `space`, searched upward from `depth`. */
  function CoveringDepthFrom(space: int, depth: nat): (r: nat)
    requires depth >= MinBatchDepth
    requires forall d :: MinBatchDepth <= d < depth ==> PostageBatchByteSize(d) < space
    ensures IsLeastCoveringDepth(space, r)
    decreases space - PostageBatchByteSize(depth)
  {
    if PostageBatchByteSize(depth) < space then
      ByteSizeDoubles(depth);
      CoveringDepthFrom(space, depth + 1)
    else depth
  }

  /** The depth a batch needs to hold `space` bytes. */
  function CoveringDepth(space: int): (r: nat)
    ensures IsLeastCoveringDepth(space, r)
  {
    CoveringDepthFrom(space, MinBatchDepth)
  }

  /** CalculateDepth: try depths upward from 17 until the capacity holds the
      required space. */
  method CalculateDepth(contentByteSize: int) returns (batchDepth: nat)
    ensures IsLeastCoveringDepth(RequiredPostageBatchSpace(contentByteSize), batchDepth)
    ensures batchDepth == CoveringDepth(RequiredPostageBatchSpace(contentByteSize))
  {
    var space := RequiredPostageBatchSpace(contentByteSize);
    batchDepth := MinBatchDepth;
    while PostageBatchByteSize(batchDepth) < space
      invariant batchDepth >= MinBatchDepth
      invariant forall d :: MinBatchDepth <= d < batchDepth ==> PostageBatchByteSize(d) < space
      decreases space - PostageBatchByteSize(batchDepth)
    {
      ByteSizeDoubles(batchDepth);
      batchDepth := batchDepth + 1;
    }
    LeastCoveringDepthUnique(space, batchDepth, CoveringDepth(space));
  }

  /** There is one least covering depth for a given space. */
  lemma LeastCoveringDepthUnique(space: int, d1: nat, d2: nat)
    requires IsLeastCoveringDepth(space, d1) && IsLeastCoveringDepth(space, d2)
    ensures d1 == d2
  {
  }

  /** The depth CalculateDepth chooses never decreases as the content grows. */
  lemma CalculatedDepthMonotone(size1: int, size2: int, d1: nat, d2: nat)
    requires size1 <= size2
    requires IsLeastCoveringDepth(RequiredPostageBatchSpace(size1), d1)
    requires IsLeastCoveringDepth(RequiredPostageBatchSpace(size2), d2)
    ensures d1 <= d2
  {
    RequiredSpaceMonotone(size1, size2);
  }

  // ---------------------------------------------------------------------------
  // The remote gateway and the clock

  /** What the gateway and the clock answer, in the order the service asks. */
  datatype Environment = Environment(
    now: nat -> int,                              // the k-th reading of the UTC clock
    batchesPost: Result<string, Error>,           // BatchesPostAsync: the batch reference id
    postageBatchRef: nat -> Result<string, Error>, // the k-th PostageBatchRefAsync: the batch id
    batchUsable: nat -> Result<bool, Error>)      // the k-th BatchesGetAsync: its Usable flag

  /** Every clock reading is later than the one before it. */
  ghost predicate ClockAdvances(now: nat -> int) {
    forall k: nat, l: nat :: k < l ==> now(k) < now(l)
  }

  /** A call to the gateway with the answer it got, or a wait. */
  datatype Interaction =
    | BatchesPost(depth: int, amount: int, batchLabel: Option<string>, reply: Result<string, Error>)
    | PostageBatchRef(referenceId: string, batchIdReply: Result<string, Error>)
    | BatchesGet(batchId: string, usableReply: Result<bool, Error>)
    | Delay(milliseconds: nat)

  /** How a polling loop ended, the index of the next unread clock reading, and
      what it did. */
  datatype Poll<T> = Poll(outcome: Result<T, Error>, nextReading: nat, log: seq<Interaction>)

  function Prepend<T>(prefix: seq<Interaction>, p: Poll<T>): Poll<T> {
    Poll(p.outcome, p.nextReading, prefix + p.log)
  }

  lemma AppendAssociative(a: seq<Interaction>, b: seq<Interaction>, c: seq<Interaction>)
    ensures (a + b) + c == a + (b + c)
  {
  }

  /** `string.IsNullOrWhiteSpace` on a non-null string: `Char.IsWhiteSpace` holds
      for every character (the Unicode space, line and paragraph separators and
      the control characters tab to carriage return, U+0085 and U+00A0). */
  predicate IsWhiteSpace(c: char) {
    || c == ' ' || '\t' <= c <= '\r' || c == '\U{0085}' || c == '\U{00A0}' || c == '\U{1680}'
    || '\U{2000}' <= c <= '\U{200A}' || c == '\U{2028}' || c == '\U{2029}' || c == '\U{202F}'
    || c == '\U{205F}' || c == '\U{3000}'
  }

  predicate IsBlank(s: string) {
    forall i :: 0 <= i < |s| ==> IsWhiteSpace(s[i])
  }

  function CreationTimeout(referenceId: string): Error {
    InvalidOperationError("Batch not avaiable after timeout", map["BatchReferenceId" := referenceId])
  }

  function UsableTimeout(batchId: string): Error {
    InvalidOperationError("Batch not usable after timeout", map["BatchId" := batchId])
  }

  function CreationMeasure(now: nat -> int, start: int, k: nat): nat {
    if now(k) - start >= BatchCreationTimeout then 0 else BatchCreationTimeout - (now(k) - start)
  }

  function UsableMeasure(now: nat -> int, start: int, k: nat): nat {
    if now(k) - start >= BatchUsableTimeout then 0 else BatchUsableTimeout - (now(k) - start)
  }

  /** The creation poll from clock reading `k` and gateway answer `j` on. Each
      round reads the clock and gives up when the timeout has passed since
      `start`; it then asks for the batch id. A gateway API exception costs a
      5-second wait; a blank id asks again at once; any other exception ends the
      poll, and so does a non-blank id. */
  function CreationPoll(env: Environment, referenceId: string, start: int, k: nat, j: nat): (p: Poll<string>)
    requires ClockAdvances(env.now)
    ensures p.nextReading > k
    decreases CreationMeasure(env.now, start, k)
  {
    if env.now(k) - start >= BatchCreationTimeout then
      Poll(Failure(CreationTimeout(referenceId)), k + 1, [])
    else
      var reply := env.postageBatchRef(j);
      var call := PostageBatchRef(referenceId, reply);
      assert env.now(k) < env.now(k + 1);
      match reply
      case Success(batchId) =>
        if IsBlank(batchId) then Prepend([call], CreationPoll(env, referenceId, start, k + 1, j + 1))
        else Poll(Success(batchId), k + 1, [call])
      case Failure(e) =>
        if e.GatewayApiError? then
          Prepend([call, Delay(BatchCheckTimeSpan)], CreationPoll(env, referenceId, start, k + 1, j + 1))
        else Poll(Failure(e), k + 1, [call])
  }

  /** The usability poll (WaitForBatchUsableAsync) from clock reading `k` and
      gateway answer `j` on: each round reads the clock and gives up when the
      timeout has passed since `start`, reads the Usable flag, and then always
      waits 5 seconds, also after the flag turned true. An exception from the
      gateway ends the poll. */
  function UsablePoll(env: Environment, batchId: string, start: int, k: nat, j: nat): (p: Poll<()>)
    requires ClockAdvances(env.now)
    ensures p.nextReading > k
    decreases UsableMeasure(env.now, start, k)
  {
    if env.now(k) - start >= BatchUsableTimeout then
      Poll(Failure(UsableTimeout(batchId)), k + 1, [])
    else
      var reply := env.batchUsable(j);
      assert env.now(k) < env.now(k + 1);
      match reply
      case Failure(e) => Poll(Failure(e), k + 1, [BatchesGet(batchId, reply)])
      case Success(usable) =>
        var round := [BatchesGet(batchId, reply), Delay(BatchCheckTimeSpan)];
        if usable then Poll(Success(()), k + 1, round)
        else Prepend(round, UsablePoll(env, batchId, start, k + 1, j + 1))
  }

  /** CreatePostageBatchAsync as a whole: the argument checks, the purchase, the
      creation poll and the usability poll. The clock is first read after the
      purchase. */
  function CreatePostageBatchRun(env: Environment, amount: int, batchDepth: int, batchLabel: Option<string>): (p: Poll<string>)
    requires ClockAdvances(env.now)
    ensures p.log == [] <==> amount <= 0 || batchDepth < MinBatchDepth
    ensures p.log != [] ==> p.log[0] == BatchesPost(batchDepth, amount, batchLabel, env.batchesPost)
    ensures amount <= 0 ==> p.outcome == Failure(ArgumentError(AmountNotPositive))
    ensures amount > 0 && batchDepth < MinBatchDepth ==> p.outcome == Failure(ArgumentError(DepthTooSmall))
  {
    if amount <= 0 then Poll(Failure(ArgumentError(AmountNotPositive)), 0, [])
    else if batchDepth < MinBatchDepth then Poll(Failure(ArgumentError(DepthTooSmall)), 0, [])
    else
      var post := BatchesPost(batchDepth, amount, batchLabel, env.batchesPost);
      match env.batchesPost
      case Failure(e) => Poll(Failure(e), 0, [post])
      case Success(referenceId) =>
        var created := CreationPoll(env, referenceId, env.now(0), 1, 0);
        match created.outcome
        case Failure(e) => Prepend([post], created)
        case Success(batchId) =>
          var usable := UsablePoll(env, batchId, env.now(created.nextReading), created.nextReading + 1, 0);
          var outcome := if usable.outcome.Failure? then Failure(usable.outcome.error) else Success(batchId);
          Poll(outcome, usable.nextReading, [post] + created.log + usable.log)
  }

  // ---------------------------------------------------------------------------
  // What the polls promise

  /** A creation-poll answer that keeps the poll going: a blank id or a gateway
      API exception. */
  predicate Pending(i: Interaction) {
    i.PostageBatchRef? ==>
      || (i.batchIdReply.Success? && IsBlank(i.batchIdReply.value))
      || (i.batchIdReply.Failure? && i.batchIdReply.error.GatewayApiError?)
  }

  /** What the creation poll may do: ask for this reference id, or wait 5 s. */
  predicate CreationStep(referenceId: string, i: Interaction) {
    i == Delay(BatchCheckTimeSpan) || (i.PostageBatchRef? && i.referenceId == referenceId)
  }

  /** The creation poll asks only for its reference id and waits only 5 seconds
      at a time, and every answer but the last kept it going. */
  lemma {:induction false} CreationPollLog(env: Environment, referenceId: string, start: int, k: nat, j: nat)
    requires ClockAdvances(env.now)
    ensures forall i :: 0 <= i < |CreationPoll(env, referenceId, start, k, j).log| ==>
      CreationStep(referenceId, CreationPoll(env, referenceId, start, k, j).log[i])
    ensures forall i :: 0 <= i < |CreationPoll(env, referenceId, start, k, j).log| - 1 ==>
      Pending(CreationPoll(env, referenceId, start, k, j).log[i])
    decreases CreationMeasure(env.now, start, k)
  {
    if env.now(k) - start < BatchCreationTimeout {
      assert env.now(k) < env.now(k + 1);
      var reply := env.postageBatchRef(j);
      var call := PostageBatchRef(referenceId, reply);
      if reply.Success? && IsBlank(reply.value) {
        CreationPollLog(env, referenceId, start, k + 1, j + 1);
        var rest := CreationPoll(env, referenceId, start, k + 1, j + 1);
        var log := CreationPoll(env, referenceId, start, k, j).log;
        assert log == [call] + rest.log;
        forall i | 0 <= i < |log| ensures CreationStep(referenceId, log[i]) && (i < |log| - 1 ==> Pending(log[i])) {
          if i > 0 {
            assert log[i] == rest.log[i - 1];
          }
        }
      } else if reply.Failure? && reply.error.GatewayApiError? {
        CreationPollLog(env, referenceId, start, k + 1, j + 1);
        var rest := CreationPoll(env, referenceId, start, k + 1, j + 1);
        var log := CreationPoll(env, referenceId, start, k, j).log;
        assert log == [call, Delay(BatchCheckTimeSpan)] + rest.log;
        forall i | 0 <= i < |log| ensures CreationStep(referenceId, log[i]) && (i < |log| - 1 ==> Pending(log[i])) {
          if i > 1 {
            assert log[i] == rest.log[i - 2];
          }
        }
      }
    }
  }

  /** When the creation poll returns an id, the id is not blank and was the
      last answer of the gateway. */
  lemma {:induction false} CreationPollSucceeds(env: Environment, referenceId: string, start: int, k: nat, j: nat)
    requires ClockAdvances(env.now)
    ensures var p := CreationPoll(env, referenceId, start, k, j);
      p.outcome.Success? ==>
        && !IsBlank(p.outcome.value)
        && |p.log| > 0 && p.log[|p.log| - 1] == PostageBatchRef(referenceId, Success(p.outcome.value))
    decreases CreationMeasure(env.now, start, k)
  {
    if env.now(k) - start < BatchCreationTimeout {
      assert env.now(k) < env.now(k + 1);
      var reply := env.postageBatchRef(j);
      var call := PostageBatchRef(referenceId, reply);
      if (reply.Success? && IsBlank(reply.value)) || (reply.Failure? && reply.error.GatewayApiError?) {
        CreationPollSucceeds(env, referenceId, start, k + 1, j + 1);
        var rest := CreationPoll(env, referenceId, start, k + 1, j + 1);
        var prefix := if reply.Success? then [call] else [call, Delay(BatchCheckTimeSpan)];
        assert CreationPoll(env, referenceId, start, k, j) == Prepend(prefix, rest);
        assert Pending(prefix[|prefix| - 1]);
        if |rest.log| > 0 {
          assert (prefix + rest.log)[|prefix + rest.log| - 1] == rest.log[|rest.log| - 1];
        }
      }
    }
  }

  /** When the creation poll fails after an answer that would have kept it
      going, or before any answer, it timed out: the error carries the reference
      id and a clock reading past the deadline was seen. Otherwise the failure
      is the exception of the last answer, which was not a gateway API
      exception. */
  lemma {:induction false} CreationPollFails(env: Environment, referenceId: string, start: int, k: nat, j: nat)
    requires ClockAdvances(env.now)
    ensures var p := CreationPoll(env, referenceId, start, k, j);
      p.outcome.Failure? ==>
        if |p.log| == 0 || Pending(p.log[|p.log| - 1])
        then p.outcome.error == CreationTimeout(referenceId) && env.now(p.nextReading - 1) - start >= BatchCreationTimeout
        else
          && p.log[|p.log| - 1] == PostageBatchRef(referenceId, Failure(p.outcome.error))
          && !p.outcome.error.GatewayApiError?
    decreases CreationMeasure(env.now, start, k)
  {
    if env.now(k) - start < BatchCreationTimeout {
      assert env.now(k) < env.now(k + 1);
      var reply := env.postageBatchRef(j);
      var call := PostageBatchRef(referenceId, reply);
      if (reply.Success? && IsBlank(reply.value)) || (reply.Failure? && reply.error.GatewayApiError?) {
        CreationPollFails(env, referenceId, start, k + 1, j + 1);
        var rest := CreationPoll(env, referenceId, start, k + 1, j + 1);
        var prefix := if reply.Success? then [call] else [call, Delay(BatchCheckTimeSpan)];
        assert CreationPoll(env, referenceId, start, k, j) == Prepend(prefix, rest);
        assert Pending(prefix[|prefix| - 1]);
        if |rest.log| > 0 {
          assert (prefix + rest.log)[|prefix + rest.log| - 1] == rest.log[|rest.log| - 1];
        }
      }
    }
  }

  /** What the usability poll may do: read this batch's flag, or wait 5 s. */
  predicate UsableStep(batchId: string, i: Interaction) {
    i == Delay(BatchCheckTimeSpan) || (i.BatchesGet? && i.batchId == batchId)
  }

  /** A usability-poll answer that keeps the poll going. */
  predicate NotYetUsable(i: Interaction) {
    i.BatchesGet? ==> i.usableReply == Success(false)
  }

  /** The usability poll asks only about its batch, every flag it read before the
      last one was false, and every read flag is followed by a 5-second wait. */
  lemma {:induction false} UsablePollLog(env: Environment, batchId: string, start: int, k: nat, j: nat)
    requires ClockAdvances(env.now)
    ensures forall i :: 0 <= i < |UsablePoll(env, batchId, start, k, j).log| ==>
      UsableStep(batchId, UsablePoll(env, batchId, start, k, j).log[i])
    ensures forall i :: 0 <= i < |UsablePoll(env, batchId, start, k, j).log| - 2 ==>
      NotYetUsable(UsablePoll(env, batchId, start, k, j).log[i])
    ensures forall i ::
        (&& 0 <= i < |UsablePoll(env, batchId, start, k, j).log| - 1
         && UsablePoll(env, batchId, start, k, j).log[i].BatchesGet?
         && UsablePoll(env, batchId, start, k, j).log[i].usableReply.Success?) ==>
      UsablePoll(env, batchId, start, k, j).log[i + 1] == Delay(BatchCheckTimeSpan)
    decreases UsableMeasure(env.now, start, k)
  {
    if env.now(k) - start < BatchUsableTimeout {
      assert env.now(k) < env.now(k + 1);
      var reply := env.batchUsable(j);
      if reply == Success(false) {
        UsablePollLog(env, batchId, start, k + 1, j + 1);
        var rest := UsablePoll(env, batchId, start, k + 1, j + 1);
        var log := UsablePoll(env, batchId, start, k, j).log;
        assert log == [BatchesGet(batchId, reply), Delay(BatchCheckTimeSpan)] + rest.log;
        forall i | 0 <= i < |log|
          ensures UsableStep(batchId, log[i])
          ensures i < |log| - 2 ==> NotYetUsable(log[i])
          ensures i < |log| - 1 && log[i].BatchesGet? && log[i].usableReply.Success? ==> log[i + 1] == Delay(BatchCheckTimeSpan)
        {
          if i > 1 {
            assert log[i] == rest.log[i - 2];
            if i < |log| - 1 {
              assert log[i + 1] == rest.log[i - 1];
            }
          }
        }
      }
    }
  }

  /** The usability poll succeeds right after reading a true flag for its batch
      and waiting once more. */
  lemma {:induction false} UsablePollSucceeds(env: Environment, batchId: string, start: int, k: nat, j: nat)
    requires ClockAdvances(env.now)
    ensures var p := UsablePoll(env, batchId, start, k, j);
      p.outcome.Success? ==>
        && |p.log| >= 2
        && p.log[|p.log| - 2] == BatchesGet(batchId, Success(true))
        && p.log[|p.log| - 1] == Delay(BatchCheckTimeSpan)
    decreases UsableMeasure(env.now, start, k)
  {
    if env.now(k) - start < BatchUsableTimeout {
      assert env.now(k) < env.now(k + 1);
      var reply := env.batchUsable(j);
      if reply == Success(false) {
        UsablePollSucceeds(env, batchId, start, k + 1, j + 1);
        var rest := UsablePoll(env, batchId, start, k + 1, j + 1);
        var round := [BatchesGet(batchId, reply), Delay(BatchCheckTimeSpan)];
        assert UsablePoll(env, batchId, start, k, j) == Prepend(round, rest);
        if |rest.log| > 0 {
          assert (round + rest.log)[|round + rest.log| - 1] == rest.log[|rest.log| - 1];
        }
        if |rest.log| > 1 {
          assert (round + rest.log)[|round + rest.log| - 2] == rest.log[|rest.log| - 2];
        }
      }
    }
  }

  /** When the usability poll fails before any read or after a wait, it timed
      out: the error carries the batch id and a clock reading past the deadline
      was seen. Otherwise the failure is the exception of the last answer. */
  lemma {:induction false} UsablePollFails(env: Environment, batchId: string, start: int, k: nat, j: nat)
    requires ClockAdvances(env.now)
    ensures var p := UsablePoll(env, batchId, start, k, j);
      p.outcome.Failure? ==>
        if |p.log| == 0 || p.log[|p.log| - 1].Delay?
        then p.outcome.error == UsableTimeout(batchId) && env.now(p.nextReading - 1) - start >= BatchUsableTimeout
        else p.log[|p.log| - 1] == BatchesGet(batchId, Failure(p.outcome.error))
    decreases UsableMeasure(env.now, start, k)
  {
    if env.now(k) - start < BatchUsableTimeout {
      assert env.now(k) < env.now(k + 1);
      var reply := env.batchUsable(j);
      if reply == Success(false) {
        UsablePollFails(env, batchId, start, k + 1, j + 1);
        var rest := UsablePoll(env, batchId, start, k + 1, j + 1);
        var round := [BatchesGet(batchId, reply), Delay(BatchCheckTimeSpan)];
        assert UsablePoll(env, batchId, start, k, j) == Prepend(round, rest);
        if |rest.log| > 0 {
          assert (round + rest.log)[|round + rest.log| - 1] == rest.log[|rest.log| - 1];
        }
        if |rest.log| > 1 {
          assert (round + rest.log)[|round + rest.log| - 2] == rest.log[|rest.log| - 2];
        }
      }
    }
  }

  /** A batch id is returned only once the usability poll is over: the id came in
      as a non-blank answer to the reference id of the purchase, and the log ends
      with the read of a true Usable flag for that id and one last wait. */
  lemma ReturnsCreatedUsableBatch(env: Environment, amount: int, batchDepth: int, batchLabel: Option<string>)
    requires ClockAdvances(env.now)
    ensures var p := CreatePostageBatchRun(env, amount, batchDepth, batchLabel);
      p.outcome.Success? ==>
        && env.batchesPost.Success?
        && !IsBlank(p.outcome.value)
        && (exists i :: 0 <= i < |p.log| && p.log[i] == PostageBatchRef(env.batchesPost.value, Success(p.outcome.value)))
        && |p.log| >= 4
        && p.log[|p.log| - 2] == BatchesGet(p.outcome.value, Success(true))
        && p.log[|p.log| - 1] == Delay(BatchCheckTimeSpan)
  {
    var p := CreatePostageBatchRun(env, amount, batchDepth, batchLabel);
    if p.outcome.Success? {
      var referenceId := env.batchesPost.value;
      var created := CreationPoll(env, referenceId, env.now(0), 1, 0);
      CreationPollSucceeds(env, referenceId, env.now(0), 1, 0);
      var batchId := created.outcome.value;
      var usable := UsablePoll(env, batchId, env.now(created.nextReading), created.nextReading + 1, 0);
      UsablePollSucceeds(env, batchId, env.now(created.nextReading), created.nextReading + 1, 0);
      var post := BatchesPost(batchDepth, amount, batchLabel, env.batchesPost);
      assert p.log == ([post] + created.log) + usable.log;
      assert p.log[|created.log|] == PostageBatchRef(referenceId, Success(batchId));
      assert p.log[|p.log| - 1] == usable.log[|usable.log| - 1];
      assert p.log[|p.log| - 2] == usable.log[|usable.log| - 2];
    }
  }

  // ---------------------------------------------------------------------------
  // The service

  /** CreatePostageBatchAsync: check the arguments, buy the batch, poll until
      its id is known, then wait until it is usable and return the id. */
  method CreatePostageBatch(env: Environment, amount: int, batchDepth: int, batchLabel: Option<string>)
    returns (batchId: Result<string, Error>, nextReading: nat, log: seq<Interaction>)
    requires ClockAdvances(env.now)
    ensures Poll(batchId, nextReading, log) == CreatePostageBatchRun(env, amount, batchDepth, batchLabel)
  {
    if amount <= 0 {
      return Failure(ArgumentError(AmountNotPositive)), 0, [];
    }
    if batchDepth < MinBatchDepth {
      return Failure(ArgumentError(DepthTooSmall)), 0, [];
    }

    // Start creation.
    log := [BatchesPost(batchDepth, amount, batchLabel, env.batchesPost)];
    if env.batchesPost.Failure? {
      return Failure(env.batchesPost.error), 0, log;
    }
    var referenceId := env.batchesPost.value;

    // Wait until the created batch is available, then until it is usable.
    var created, k, createdLog := WaitForBatchCreated(env, referenceId);
    log := log + createdLog;
    if created.Failure? {
      return Failure(created.error), k, log;
    }
    var usable, usableLog;
    usable, nextReading, usableLog := WaitForBatchUsable(env, created.value, k);
    log := log + usableLog;
    if usable.Failure? {
      return Failure(usable.error), nextReading, log;
    }
    return Success(created.value), nextReading, log;
  }

  /** The creation poll of CreatePostageBatchAsync: the clock is read first when
      the poll starts (reading 0), then once per round. */
  method WaitForBatchCreated(env: Environment, referenceId: string)
    returns (batchId: Result<string, Error>, nextReading: nat, log: seq<Interaction>)
    requires ClockAdvances(env.now)
    ensures Poll(batchId, nextReading, log) == CreationPoll(env, referenceId, env.now(0), 1, 0)
  {
    var batchStartWait := env.now(0);
    var k: nat, j: nat := 1, 0;
    log := [];
    var id: Option<string> := None;
    ghost var whole := CreationPoll(env, referenceId, batchStartWait, k, j);
    while id.None? || IsBlank(id.value)
      invariant id.None? || IsBlank(id.value) ==>
        Prepend(log, CreationPoll(env, referenceId, batchStartWait, k, j)) == whole
      invariant id.Some? && !IsBlank(id.value) ==> whole == Poll(Success(id.value), k, log)
      decreases if id.None? || IsBlank(id.value) then CreationMeasure(env.now, batchStartWait, k) + 1 else 0
    {
      ghost var here := CreationPoll(env, referenceId, batchStartWait, k, j);
      ghost var done := log;
      var t := env.now(k);
      assert env.now(k) < env.now(k + 1);
      if t - batchStartWait >= BatchCreationTimeout {
        assert here == Poll(Failure(CreationTimeout(referenceId)), k + 1, []);
        assert log + [] == log;
        return Failure(CreationTimeout(referenceId)), k + 1, log;
      }
      k := k + 1;
      var reply := env.postageBatchRef(j);
      j := j + 1;
      var round := [PostageBatchRef(referenceId, reply)];
      if reply.Success? {
        id := Some(reply.value);
      } else if reply.error.GatewayApiError? {
        round := round + [Delay(BatchCheckTimeSpan)];
      } else {
        assert here == Poll(Failure(reply.error), k, round);
        return Failure(reply.error), k, log + round;
      }
      log := log + round;
      if id.None? || IsBlank(id.value) {
        ghost var rest := CreationPoll(env, referenceId, batchStartWait, k, j);
        assert here == Prepend(round, rest);
        AppendAssociative(done, round, rest.log);
      } else {
        assert here == Poll(Success(id.value), k, round);
      }
    }
    return Success(id.value), k, log;
  }

  /** WaitForBatchUsableAsync, reading the clock from reading `k0` on. */
  method WaitForBatchUsable(env: Environment, batchId: string, k0: nat)
    returns (usable: Result<(), Error>, nextReading: nat, log: seq<Interaction>)
    requires ClockAdvances(env.now)
    ensures Poll(usable, nextReading, log) == UsablePoll(env, batchId, env.now(k0), k0 + 1, 0)
  {
    var batchStartWait := env.now(k0);
    var k: nat, j: nat := k0 + 1, 0;
    log := [];
    var batchIsUsable := false;
    ghost var whole := UsablePoll(env, batchId, batchStartWait, k, j);
    while !batchIsUsable
      invariant !batchIsUsable ==> Prepend(log, UsablePoll(env, batchId, batchStartWait, k, j)) == whole
      invariant batchIsUsable ==> whole == Poll(Success(()), k, log)
      decreases if batchIsUsable then 0 else UsableMeasure(env.now, batchStartWait, k) + 1
    {
      ghost var here := UsablePoll(env, batchId, batchStartWait, k, j);
      ghost var done := log;
      var t := env.now(k);
      assert env.now(k) < env.now(k + 1);
      if t - batchStartWait >= BatchUsableTimeout {
        assert here == Poll(Failure(UsableTimeout(batchId)), k + 1, []);
        assert log + [] == log;
        return Failure(UsableTimeout(batchId)), k + 1, log;
      }
      k := k + 1;
      var reply := env.batchUsable(j);
      j := j + 1;
      if reply.Failure? {
        assert here == Poll(Failure(reply.error), k, [BatchesGet(batchId, reply)]);
        return Failure(reply.error), k, log + [BatchesGet(batchId, reply)];
      }
      batchIsUsable := reply.value;
      var round := [BatchesGet(batchId, reply), Delay(BatchCheckTimeSpan)];
      log := log + round;
      if !batchIsUsable {
        ghost var rest := UsablePoll(env, batchId, batchStartWait, k, j);
        assert here == Prepend(round, rest);
        AppendAssociative(done, round, rest.log);
      } else {
        assert here == Poll(Success(()), k, round);
      }
    }
    return Success(()), k, log;
  }
}
