/** The requirement family as one datatype (the subclasses of `OptionRequirementBase`), the
    dispatch of `OptionsNames`, `PrintHelpLine` and `ValidateOptions` to each kind, and the
    `SelectMany` that runs every requirement of a command. `tryParse` stands for
    `double.TryParse` in the current culture, which is not modelled. */
module OptionRequirements {
  import opened Wrappers
  import opened Failures
  import opened CommandOptions
  import opened OptionRequirementBase
  import Exclusive = ExclusiveOptionRequirement
  import Forbidden = ForbiddenOptionRequirement
  import RequireOneOf = RequireOneOfOptionRequirement
  import IfPresentThen = IfPresentThenOptionRequirement
  import RangeReq = RangeOptionRequirement
  import MaxReq = MaxOptionRequirement
  import MaxValueReq = MaxValueOptionRequirement
  import MinValueReq = MinValueOptionRequirement

  datatype Requirement =
    | Exclusive(names: seq<string>)
    | Forbidden(names: seq<string>)
    | RequireOneOf(names: seq<string>)
    | IfPresentThen(trigger: string, thenRequirement: Requirement)
    | Range(range: RangeReq.CheckedRange)   // built only through NewRange's check
    | Max(optName: string, maxValue: real, maxText: string)
    | MaxValue(optName: string, maxValue: real, maxText: string)
    | MinValue(optName: string, minValue: real, minText: string)

  /** The names a requirement was built with: the list given, or the one option name. */
  function OptionsNames(req: Requirement): (r: seq<string>)
    ensures (req.Exclusive? || req.Forbidden? || req.RequireOneOf?) ==> r == req.names
    ensures !(req.Exclusive? || req.Forbidden? || req.RequireOneOf?) ==> |r| == 1
  {
    match req
    case Exclusive(names) => names
    case Forbidden(names) => names
    case RequireOneOf(names) => names
    case IfPresentThen(trigger, _) => [trigger]
    case Range(range) => [range.optionName]
    case Max(optName, _, _) => [optName]
    case MaxValue(optName, _, _) => [optName]
    case MinValue(optName, _, _) => [optName]
  }

  function PrintHelpLine<A>(defs: seq<CommandOption<A>>, req: Requirement): Result<string, Error>
    decreases req
  {
    match req
    case Exclusive(names) => Exclusive.PrintHelpLine(defs, names)
    case Forbidden(names) => Forbidden.PrintHelpLine(defs, names)
    case RequireOneOf(names) => RequireOneOf.PrintHelpLine(defs, names)
    case IfPresentThen(trigger, inner) => IfPresentThen.PrintHelpLine(defs, trigger, PrintHelpLine(defs, inner))
    case Range(range) => RangeReq.PrintHelpLine(defs, range)
    case Max(optName, _, maxText) => MaxReq.PrintHelpLine(defs, optName, maxText)
    case MaxValue(optName, _, maxText) => MaxValueReq.PrintHelpLine(defs, optName, maxText)
    case MinValue(optName, _, minText) => MinValueReq.PrintHelpLine(defs, optName, minText)
  }

  function ValidateOptions<A>(
    defs: seq<CommandOption<A>>,
    parsed: seq<ParsedOption<A>>,
    req: Requirement,
    tryParse: string -> Option<real>): Result<seq<string>, Error>
    decreases req
  {
    match req
    case Exclusive(names) => Exclusive.ValidateOptions(parsed, names)
    case Forbidden(names) => Forbidden.ValidateOptions(parsed, names)
    case RequireOneOf(names) => RequireOneOf.ValidateOptions(defs, parsed, names)
    case IfPresentThen(trigger, inner) =>
      IfPresentThen.ValidateOptions(parsed, trigger, ValidateOptions(defs, parsed, inner, tryParse))
    case Range(range) => RangeReq.ValidateOptions(parsed, range, tryParse)
    case Max(optName, maxValue, maxText) => MaxReq.ValidateOptions(parsed, optName, maxValue, maxText, tryParse)
    case MaxValue(optName, maxValue, maxText) =>
      MaxValueReq.ValidateOptions(parsed, optName, maxValue, maxText, tryParse)
    case MinValue(optName, minValue, minText) =>
      MinValueReq.ValidateOptions(parsed, optName, minValue, minText, tryParse)
  }

  /** `requirements.SelectMany(r => r.ValidateOptions(...)).ToArray()`: the errors of every
      requirement, in order; the first requirement that throws ends the query. */
  function ValidateAll<A>(
    defs: seq<CommandOption<A>>,
    parsed: seq<ParsedOption<A>>,
    reqs: seq<Requirement>,
    tryParse: string -> Option<real>): (r: Result<seq<string>, Error>)
    decreases |reqs|
  {
    if |reqs| == 0 then Success([])
    else
      var first :- ValidateOptions(defs, parsed, reqs[0], tryParse);
      var rest :- ValidateAll(defs, parsed, reqs[1..], tryParse);
      Success(first + rest)
  }

  /** A single requirement reports what it validates to. */
  lemma ValidateAllOne<A>(
    defs: seq<CommandOption<A>>,
    parsed: seq<ParsedOption<A>>,
    req: Requirement,
    tryParse: string -> Option<real>)
    ensures ValidateAll(defs, parsed, [req], tryParse) == ValidateOptions(defs, parsed, req, tryParse)
  {
    assert [req][1..] == [];
    var first := ValidateOptions(defs, parsed, req, tryParse);
    if first.Success? {
      assert first.value + [] == first.value;
    }
  }

  /** The first requirement's errors come before those of the rest; the first exception
      thrown is the one passed on. */
  lemma ValidateAllCons<A>(
    defs: seq<CommandOption<A>>,
    parsed: seq<ParsedOption<A>>,
    req: Requirement,
    reqs: seq<Requirement>,
    tryParse: string -> Option<real>)
    ensures var r := ValidateAll(defs, parsed, [req] + reqs, tryParse);
      var first := ValidateOptions(defs, parsed, req, tryParse);
      var rest := ValidateAll(defs, parsed, reqs, tryParse);
      && (first.Failure? ==> r == Failure(first.error))
      && (first.Success? && rest.Failure? ==> r == Failure(rest.error))
      && (first.Success? && rest.Success? ==> r == Success(first.value + rest.value))
  {
    assert ([req] + reqs)[0] == req;
    assert ([req] + reqs)[1..] == reqs;
  }

  /** No error at all exactly when every requirement answers with no error. */
  lemma {:induction false} ValidateAllEmpty<A>(
    defs: seq<CommandOption<A>>,
    parsed: seq<ParsedOption<A>>,
    reqs: seq<Requirement>,
    tryParse: string -> Option<real>)
    ensures ValidateAll(defs, parsed, reqs, tryParse) == Success([]) <==>
      forall k :: 0 <= k < |reqs| ==> ValidateOptions(defs, parsed, reqs[k], tryParse) == Success([])
    decreases |reqs|
  {
    if |reqs| > 0 {
      ValidateAllEmpty(defs, parsed, reqs[1..], tryParse);
      assert forall k :: 1 <= k < |reqs| ==> reqs[k] == reqs[1..][k - 1];
      var first := ValidateOptions(defs, parsed, reqs[0], tryParse);
      var rest := ValidateAll(defs, parsed, reqs[1..], tryParse);
      if first.Success? && rest.Success? {
        assert ValidateAll(defs, parsed, reqs, tryParse) == Success(first.value + rest.value);
        assert first.value + rest.value == [] <==> first.value == [] && rest.value == [] by {
          assert |first.value + rest.value| == |first.value| + |rest.value|;
        }
      }
    }
  }

  /** The query does not throw when no requirement does. */
  lemma {:induction false} ValidateAllSucceeds<A>(
    defs: seq<CommandOption<A>>,
    parsed: seq<ParsedOption<A>>,
    reqs: seq<Requirement>,
    tryParse: string -> Option<real>)
    requires forall k :: 0 <= k < |reqs| ==> ValidateOptions(defs, parsed, reqs[k], tryParse).Success?
    ensures ValidateAll(defs, parsed, reqs, tryParse).Success?
    decreases |reqs|
  {
    if |reqs| > 0 {
      assert forall k :: 1 <= k < |reqs| ==> reqs[k] == reqs[1..][k - 1];
      ValidateAllSucceeds(defs, parsed, reqs[1..], tryParse);
      assert ValidateOptions(defs, parsed, reqs[0], tryParse).Success?;
    }
  }

  /** A requirement whose errors are reported is answered by every requirement before it
      without throwing, and its errors are among those reported. */
  lemma {:induction false} ValidateAllCollects<A>(
    defs: seq<CommandOption<A>>,
    parsed: seq<ParsedOption<A>>,
    reqs: seq<Requirement>,
    tryParse: string -> Option<real>,
    k: nat)
    requires k < |reqs|
    requires ValidateAll(defs, parsed, reqs, tryParse).Success?
    ensures ValidateOptions(defs, parsed, reqs[k], tryParse).Success?
    ensures forall m :: m in ValidateOptions(defs, parsed, reqs[k], tryParse).value ==>
      m in ValidateAll(defs, parsed, reqs, tryParse).value
    decreases |reqs|
  {
    if k > 0 {
      assert reqs[k] == reqs[1..][k - 1];
      ValidateAllCollects(defs, parsed, reqs[1..], tryParse, k - 1);
    }
  }

  /** An `IfPresentThen` whose trigger is absent has nothing to say, whatever its inner
      requirement would answer (in the source the inner one is not even evaluated). */
  lemma IfPresentThenAbsentTrigger<A>(
    defs: seq<CommandOption<A>>,
    parsed: seq<ParsedOption<A>>,
    trigger: string,
    inner: Requirement,
    tryParse: string -> Option<real>)
    requires CountMatches(parsed, trigger) == 0
    ensures ValidateOptions(defs, parsed, IfPresentThen(trigger, inner), tryParse) == Success([])
  {
  }

  /** A present trigger passes on exactly as many errors as the inner requirement has,
      each prefixed with the trigger's configured name. */
  lemma IfPresentThenPresentTrigger<A>(
    defs: seq<CommandOption<A>>,
    parsed: seq<ParsedOption<A>>,
    trigger: string,
    inner: Requirement,
    tryParse: string -> Option<real>)
    requires CountMatches(parsed, trigger) == 1
    requires ValidateOptions(defs, parsed, inner, tryParse).Success?
    ensures var r := ValidateOptions(defs, parsed, IfPresentThen(trigger, inner), tryParse);
      && r.Success?
      && |r.value| == |ValidateOptions(defs, parsed, inner, tryParse).value|
      && forall i :: 0 <= i < |r.value| ==>
           r.value[i] == "If " + trigger + " is present then " + ValidateOptions(defs, parsed, inner, tryParse).value[i]
  {
  }
}
