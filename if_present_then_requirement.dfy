/** `IfPresentThenOptionRequirement`: another requirement that applies only when a trigger
    option is present. The inner requirement's verdict and help line are passed in; when the
    trigger is absent the answer does not depend on them, which is how the source skips
    evaluating the inner requirement. */
module IfPresentThenOptionRequirement {
  import opened Wrappers
  import opened Failures
  import opened CommandOptions
  import opened OptionRequirementBase

  function ComposeSentence(optName: string, thenMessageLine: string): string {
    "If " + optName + " is present then " + thenMessageLine
  }

  /** Each inner message, prefixed with the trigger's configured name. */
  function Prefixed(optName: string, thenMessages: seq<string>): (r: seq<string>)
    ensures |r| == |thenMessages|
    ensures forall i :: 0 <= i < |r| ==> r[i] == ComposeSentence(optName, thenMessages[i])
  {
    seq(|thenMessages|, i requires 0 <= i < |thenMessages| => ComposeSentence(optName, thenMessages[i]))
  }

  /** The trigger's long name is looked up first, then the inner help line is composed. */
  function PrintHelpLine<A>(defs: seq<CommandOption<A>>, optName: string, thenHelp: Result<string, Error>)
    : (r: Result<string, Error>)
    ensures FirstMatching(defs, optName).None? ==> r == Failure(InvalidOperation(NoMatch))
    ensures FirstMatching(defs, optName).Some? ==>
      r == (if thenHelp.Success?
            then Success(ComposeSentence(defs[FirstMatching(defs, optName).value].longName, thenHelp.value))
            else Failure(thenHelp.error))
  {
    var trigger :- FindOptionByName(defs, optName);
    var inner :- thenHelp;
    Success(ComposeSentence(trigger.longName, inner))
  }

  function ValidateOptions<A>(parsed: seq<ParsedOption<A>>, optName: string, thenErrors: Result<seq<string>, Error>)
    : (r: Result<seq<string>, Error>)
    ensures CountMatches(parsed, optName) == 0 ==> r == Success([])
    ensures CountMatches(parsed, optName) == 1 ==>
      r == (if thenErrors.Success? then Success(Prefixed(optName, thenErrors.value)) else Failure(thenErrors.error))
    ensures CountMatches(parsed, optName) >= 2 ==> r == Failure(InvalidOperation(MoreThanOneMatch))
  {
    var found :- TryFindParsedOption(parsed, optName);
    if found.None? then Success([])
    else
      var inner :- thenErrors;
      Success(Prefixed(optName, inner))
  }
}
