/** The postage batch service: the depth a set of paths needs, and choosing the
    batch to stamp an upload with (buy a new one, or reuse a given one).
    The stamp issuer belongs to an external library: it is a state of type `S`
    that the caller's evaluation functions thread along, with no promise made
    about what they compute. */
module PostageBatchService {
  import opened Wrappers
  import opened Failures
  import opened GatewayService
  import opened PurchasePrompt

  /** What the file system says a path is: a file is tried first. */
  datatype PathKind = IsFile | IsDirectory | Missing

  /** A call of the chunk service's evaluation for one path. */
  datatype Evaluation = EvaluatedFile(path: string) | EvaluatedDirectory(path: string)

  /** Where an evaluation of paths got to: the issuer after the last path (or the
      exception), and the evaluations made. */
  datatype Evaluated<S> = Evaluated(issuer: Result<S, Error>, evaluations: seq<Evaluation>)

  function PathNotValid(path: string): Error {
    InvalidOperation("Path " + path + " is not valid")
  }

  function EvaluationOf(kind: PathKind, path: string): Evaluation {
    if kind == IsFile then EvaluatedFile(path) else EvaluatedDirectory(path)
  }

  /** The foreach of CalculatePostageBatchDepthAsync on values: one issuer goes
      from each path's evaluation to the next; a path that is neither a file nor
      a directory, or an exception of an evaluation, stops the walk. */
  function EvaluatePaths<S>(
    paths: seq<string>,
    kindOf: string -> PathKind,
    evaluateFile: (S, string) -> Result<S, Error>,
    evaluateDirectory: (S, string) -> Result<S, Error>,
    issuer: S): (r: Evaluated<S>)
    decreases |paths|
  {
    if |paths| == 0 then Evaluated(Success(issuer), [])
    else
      var path := paths[0];
      var kind := kindOf(path);
      if kind == Missing then Evaluated(Failure(PathNotValid(path)), [])
      else
        var next := if kind == IsFile then evaluateFile(issuer, path) else evaluateDirectory(issuer, path);
        match next
        case Failure(e) => Evaluated(Failure(e), [EvaluationOf(kind, path)])
        case Success(issuer') =>
          var rest := EvaluatePaths(paths[1..], kindOf, evaluateFile, evaluateDirectory, issuer');
          Evaluated(rest.issuer, [EvaluationOf(kind, path)] + rest.evaluations)
  }

  /** The paths are evaluated in order, each as a file if it is one and as a
      directory otherwise, and none after the first that fails: the evaluations
      made are those of a prefix of the paths, all of them when the walk
      succeeds. A path that is neither a file nor a directory ends the walk with
      the "is not valid" error, and a walk that succeeds met none. */
  lemma {:induction false} EvaluationsFollowPaths<S>(
    paths: seq<string>,
    kindOf: string -> PathKind,
    evaluateFile: (S, string) -> Result<S, Error>,
    evaluateDirectory: (S, string) -> Result<S, Error>,
    issuer: S)
    ensures |EvaluatePaths(paths, kindOf, evaluateFile, evaluateDirectory, issuer).evaluations| <= |paths|
    ensures forall i :: 0 <= i < |EvaluatePaths(paths, kindOf, evaluateFile, evaluateDirectory, issuer).evaluations| ==>
      && kindOf(paths[i]) != Missing
      && EvaluatePaths(paths, kindOf, evaluateFile, evaluateDirectory, issuer).evaluations[i] == EvaluationOf(kindOf(paths[i]), paths[i])
    ensures EvaluatePaths(paths, kindOf, evaluateFile, evaluateDirectory, issuer).issuer.Success? ==>
      |EvaluatePaths(paths, kindOf, evaluateFile, evaluateDirectory, issuer).evaluations| == |paths|
    ensures forall m :: 0 <= m < |paths| && kindOf(paths[m]) == Missing ==>
      && EvaluatePaths(paths, kindOf, evaluateFile, evaluateDirectory, issuer).issuer.Failure?
      && |EvaluatePaths(paths, kindOf, evaluateFile, evaluateDirectory, issuer).evaluations| <= m
    decreases |paths|
  {
    if |paths| > 0 && kindOf(paths[0]) != Missing {
      var kind := kindOf(paths[0]);
      var next := if kind == IsFile then evaluateFile(issuer, paths[0]) else evaluateDirectory(issuer, paths[0]);
      if next.Success? {
        EvaluationsFollowPaths(paths[1..], kindOf, evaluateFile, evaluateDirectory, next.value);
        var rest := EvaluatePaths(paths[1..], kindOf, evaluateFile, evaluateDirectory, next.value);
        var evaluations := EvaluatePaths(paths, kindOf, evaluateFile, evaluateDirectory, issuer).evaluations;
        assert evaluations == [EvaluationOf(kind, paths[0])] + rest.evaluations;
        forall i | 1 <= i < |evaluations|
          ensures kindOf(paths[i]) != Missing && evaluations[i] == EvaluationOf(kindOf(paths[i]), paths[i])
        {
          assert evaluations[i] == rest.evaluations[i - 1] && paths[i] == paths[1..][i - 1];
        }
        forall m | 1 <= m < |paths| && kindOf(paths[m]) == Missing
          ensures |evaluations| <= m
        {
          assert paths[m] == paths[1..][m - 1];
        }
      }
    }
  }

  /** When the evaluations themselves never throw, the walk stops exactly at
      the first path that is neither a file nor a directory, with the "is not
      valid" error naming it. */
  lemma {:induction false} FirstMissingPathReported<S>(
    paths: seq<string>,
    m: nat,
    kindOf: string -> PathKind,
    evaluateFile: (S, string) -> Result<S, Error>,
    evaluateDirectory: (S, string) -> Result<S, Error>,
    issuer: S)
    requires m < |paths| && kindOf(paths[m]) == Missing
    requires forall i :: 0 <= i < m ==> kindOf(paths[i]) != Missing
    requires forall s, p :: evaluateFile(s, p).Success? && evaluateDirectory(s, p).Success?
    ensures EvaluatePaths(paths, kindOf, evaluateFile, evaluateDirectory, issuer) ==
      Evaluated(Failure(PathNotValid(paths[m])), seq(m, i requires 0 <= i < m => EvaluationOf(kindOf(paths[i]), paths[i])))
    decreases m
  {
    if m > 0 {
      var kind := kindOf(paths[0]);
      var next := if kind == IsFile then evaluateFile(issuer, paths[0]) else evaluateDirectory(issuer, paths[0]);
      assert next.Success?;
      forall i | 0 <= i < m - 1
        ensures kindOf(paths[1..][i]) != Missing
      {
        assert paths[1..][i] == paths[i + 1];
      }
      FirstMissingPathReported(paths[1..], m - 1, kindOf, evaluateFile, evaluateDirectory, next.value);
      var tail := seq(m - 1, i requires 0 <= i < m - 1 => EvaluationOf(kindOf(paths[1..][i]), paths[1..][i]));
      var whole := seq(m, i requires 0 <= i < m => EvaluationOf(kindOf(paths[i]), paths[i]));
      assert whole == [EvaluationOf(kind, paths[0])] + tail;
    }
  }

  /** One issuer is threaded through all the paths: evaluating two lists of paths
      one after the other, the second starting from the issuer the first left,
      is evaluating the joined list. */
  lemma {:induction false} EvaluatePathsAppend<S>(
    first: seq<string>,
    second: seq<string>,
    kindOf: string -> PathKind,
    evaluateFile: (S, string) -> Result<S, Error>,
    evaluateDirectory: (S, string) -> Result<S, Error>,
    issuer: S)
    ensures var a := EvaluatePaths(first, kindOf, evaluateFile, evaluateDirectory, issuer);
      EvaluatePaths(first + second, kindOf, evaluateFile, evaluateDirectory, issuer) ==
        if a.issuer.Failure? then a
        else
          var b := EvaluatePaths(second, kindOf, evaluateFile, evaluateDirectory, a.issuer.value);
          Evaluated(b.issuer, a.evaluations + b.evaluations)
    decreases |first|
  {
    if |first| == 0 {
      assert first + second == second;
    } else {
      assert (first + second)[0] == first[0];
      assert (first + second)[1..] == first[1..] + second;
      var kind := kindOf(first[0]);
      if kind != Missing {
        var next := if kind == IsFile then evaluateFile(issuer, first[0]) else evaluateDirectory(issuer, first[0]);
        if next.Success? {
          EvaluatePathsAppend(first[1..], second, kindOf, evaluateFile, evaluateDirectory, next.value);
          var a1 := EvaluatePaths(first[1..], kindOf, evaluateFile, evaluateDirectory, next.value);
          if a1.issuer.Success? {
            var b := EvaluatePaths(second, kindOf, evaluateFile, evaluateDirectory, a1.issuer.value);
            AppendAssociativeEvaluations([EvaluationOf(kind, first[0])], a1.evaluations, b.evaluations);
          }
        }
      }
    }
  }

  lemma AppendAssociativeEvaluations(a: seq<Evaluation>, b: seq<Evaluation>, c: seq<Evaluation>)
    ensures (a + b) + c == a + (b + c)
  {
  }

  const EmptyPaths := ArgumentOutOfRangeError("paths", "Empty file paths")

  /** CalculatePostageBatchDepthAsync: `paths` must be given and not empty; the
      depth is the one the issuer requires after the last path. */
  method CalculatePostageBatchDepth<S>(
    paths: Option<seq<string>>,
    kindOf: string -> PathKind,
    evaluateFile: (S, string) -> Result<S, Error>,
    evaluateDirectory: (S, string) -> Result<S, Error>,
    requiredDepth: S -> int,
    newIssuer: S)
    returns (depth: Result<int, Error>, evaluations: seq<Evaluation>)
    ensures paths == None ==> depth == Failure(ArgumentNullError("paths")) && evaluations == []
    ensures paths == Some([]) ==> depth == Failure(EmptyPaths) && evaluations == []
    ensures paths.Some? && |paths.value| > 0 ==>
      var r := EvaluatePaths(paths.value, kindOf, evaluateFile, evaluateDirectory, newIssuer);
      && evaluations == r.evaluations
      && depth == (if r.issuer.Failure? then Failure(r.issuer.error) else Success(requiredDepth(r.issuer.value)))
  {
    if paths.None? {
      return Failure(ArgumentNullError("paths")), [];
    }
    var ps := paths.value;
    if |ps| == 0 {
      return Failure(EmptyPaths), [];
    }

    var stampIssuer := newIssuer;
    evaluations := [];
    ghost var whole := EvaluatePaths(ps, kindOf, evaluateFile, evaluateDirectory, newIssuer);
    var i := 0;
    while i < |ps|
      invariant 0 <= i <= |ps|
      invariant var rest := EvaluatePaths(ps[i..], kindOf, evaluateFile, evaluateDirectory, stampIssuer);
        whole == Evaluated(rest.issuer, evaluations + rest.evaluations)
    {
      ghost var rest := EvaluatePaths(ps[i..], kindOf, evaluateFile, evaluateDirectory, stampIssuer);
      var path := ps[i];
      assert ps[i..][0] == path && ps[i..][1..] == ps[i + 1..];
      var kind := kindOf(path);
      if kind == Missing {
        return Failure(PathNotValid(path)), evaluations;
      }
      var next := if kind == IsFile then evaluateFile(stampIssuer, path) else evaluateDirectory(stampIssuer, path);
      evaluations := evaluations + [EvaluationOf(kind, path)];
      if next.Failure? {
        return Failure(next.error), evaluations;
      }
      stampIssuer := next.value;
      i := i + 1;
      ghost var after := EvaluatePaths(ps[i..], kindOf, evaluateFile, evaluateDirectory, stampIssuer);
      AppendAssociativeEvaluations(evaluations[..|evaluations| - 1], [EvaluationOf(kind, path)], after.evaluations);
      assert evaluations[..|evaluations| - 1] + [EvaluationOf(kind, path)] == evaluations;
    }
    assert ps[i..] == [];
    assert evaluations + [] == evaluations;
    return Success(requiredDepth(stampIssuer)), evaluations;
  }

  // ---------------------------------------------------------------------------
  // Choosing the batch

  /** What choosing a batch is told: the chain price, the external amount
      computation (chain price and TTL in days to an amount), the keys the user
      presses, the gateway for a purchase, and what the gateway reports for the
      batch to reuse. */
  datatype BatchContext = BatchContext(
    chainPrice: Result<int, Error>,
    amountFor: (int, int) -> int,
    keys: seq<Key>,
    gateway: Environment,
    existingBatch: Result<PostageBatch, Error>)

  /** How choosing a batch ended: the batch id, how many keys were read, and the
      gateway interactions of a purchase. */
  datatype Choice = Choice(batchId: Result<string, Error>, keysRead: nat, log: seq<Interaction>)

  /** GetUsablePostageBatchAsync on values. */
  function UsablePostageBatch(
    ctx: BatchContext, minBatchDepth: int, minBatchTtlDays: int, autoPurchaseNewBatch: bool,
    useBatchId: Option<string>, newBatchLabel: Option<string>): (c: Choice)
    requires ClockAdvances(ctx.gateway.now)
    requires useBatchId.None? && !autoPurchaseNewBatch ==> Answered(ctx.keys)
  {
    if useBatchId.None? then
      if ctx.chainPrice.Failure? then Choice(Failure(ctx.chainPrice.error), 0, [])
      else
        var amount := ctx.amountFor(ctx.chainPrice.value, minBatchTtlDays);
        var keysRead := if autoPurchaseNewBatch then 0 else FirstAnswer(ctx.keys) + 1;
        var answer := if autoPurchaseNewBatch then Success(()) else PromptAnswer(ctx.keys);
        if answer.Failure? then Choice(Failure(answer.error), keysRead, [])
        else
          var created := CreatePostageBatchRun(ctx.gateway, amount, minBatchDepth, newBatchLabel);
          Choice(created.outcome, keysRead, created.log)
    else if ctx.existingBatch.Failure? then Choice(Failure(ctx.existingBatch.error), 0, [])
    else if !ctx.existingBatch.value.usable then Choice(Failure(DefaultInvalidOperation), 0, [])
    else Choice(Success(ctx.existingBatch.value.id), 0, [])
  }

  /** GetUsablePostageBatchAsync: with no batch to reuse, buy one of the given
      depth, for the amount the chain price and TTL call for, once the user
      confirms (or without asking under auto-purchase); otherwise reuse the given
      batch if the gateway knows it and it is usable. */
  method GetUsablePostageBatch(
    ctx: BatchContext, minBatchDepth: int, minBatchTtlDays: int, autoPurchaseNewBatch: bool,
    useBatchId: Option<string>, newBatchLabel: Option<string>)
    returns (batchId: Result<string, Error>, keysRead: nat, log: seq<Interaction>)
    requires ClockAdvances(ctx.gateway.now)
    requires useBatchId.None? && !autoPurchaseNewBatch ==> Answered(ctx.keys)
    ensures Choice(batchId, keysRead, log) ==
      UsablePostageBatch(ctx, minBatchDepth, minBatchTtlDays, autoPurchaseNewBatch, useBatchId, newBatchLabel)
  {
    keysRead, log := 0, [];
    if useBatchId.None? {
      // Create a new postage batch.
      if ctx.chainPrice.Failure? {
        return Failure(ctx.chainPrice.error), 0, [];
      }
      var amount := ctx.amountFor(ctx.chainPrice.value, minBatchTtlDays);
      if !autoPurchaseNewBatch {
        var answer;
        keysRead, answer := ConfirmPurchase(ctx.keys);
        if answer.Failure? {
          return Failure(answer.error), keysRead, [];
        }
      }
      var nextReading;
      batchId, nextReading, log := CreatePostageBatch(ctx.gateway, amount, minBatchDepth, newBatchLabel);
    } else {
      // Get info about the existing postage batch; a 404 is rethrown.
      if ctx.existingBatch.Failure? {
        return Failure(ctx.existingBatch.error), 0, [];
      }
      var postageBatch := ctx.existingBatch.value;
      if !postageBatch.usable {
        return Failure(DefaultInvalidOperation), 0, [];
      }
      batchId := Success(postageBatch.id);
    }
  }

  /** A batch to reuse is returned whatever depth was asked for: the service
      makes no capacity check, and it neither prompts nor buys. It fails exactly
      when the gateway does not report the batch or reports it unusable. */
  lemma ReuseMakesNoCapacityCheck(
    ctx: BatchContext, depth1: int, depth2: int, ttlDays: int, auto: bool, id: string, newBatchLabel: Option<string>)
    requires ClockAdvances(ctx.gateway.now)
    ensures UsablePostageBatch(ctx, depth1, ttlDays, auto, Some(id), newBatchLabel) ==
            UsablePostageBatch(ctx, depth2, ttlDays, auto, Some(id), newBatchLabel)
    ensures var c := UsablePostageBatch(ctx, depth1, ttlDays, auto, Some(id), newBatchLabel);
      && c.keysRead == 0 && c.log == []
      && (c.batchId.Success? <==> ctx.existingBatch.Success? && ctx.existingBatch.value.usable)
      && (c.batchId.Success? ==> c.batchId.value == ctx.existingBatch.value.id)
  {
  }

  /** A purchase asks the gateway for a batch of exactly the requested depth and
      of the amount the chain price and TTL give, and only once the purchase is
      confirmed; a denied purchase makes no gateway call and fails with "Batch
      purchase denied". */
  lemma PurchaseOnlyWhenConfirmed(
    ctx: BatchContext, minBatchDepth: int, ttlDays: int, auto: bool, newBatchLabel: Option<string>)
    requires ClockAdvances(ctx.gateway.now)
    requires !auto ==> Answered(ctx.keys)
    ensures var c := UsablePostageBatch(ctx, minBatchDepth, ttlDays, auto, None, newBatchLabel);
      && (auto ==> c.keysRead == 0)
      && (c.log != [] ==>
            && ctx.chainPrice.Success?
            && (auto || ctx.keys[FirstAnswer(ctx.keys)] in {KeyY, KeyEnter})
            && c.log[0].BatchesPost?
            && c.log[0].depth == minBatchDepth
            && c.log[0].amount == ctx.amountFor(ctx.chainPrice.value, ttlDays))
      && (!auto && ctx.chainPrice.Success? && ctx.keys[FirstAnswer(ctx.keys)] == KeyN ==>
            c.batchId == Failure(PurchaseDenied) && c.log == [])
  {
  }
}
