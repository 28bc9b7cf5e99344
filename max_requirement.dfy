/** `MaxOptionRequirement`: the first argument of an option is at most a bound. The bound
    is a double in the source; here it is a real, with the text string concatenation
    renders it as. */
module MaxOptionRequirement {
  import opened Wrappers
  import opened Failures
  import opened CommandOptions
  import opened OptionRequirementBase

  function ComposeSentence(optName: string, maxText: string): string {
    optName + ": max value " + maxText
  }

  function PrintHelpLine<A>(defs: seq<CommandOption<A>>, optName: string, maxText: string): (r: Result<string, Error>)
    ensures r.Success? <==> FirstMatching(defs, optName).Some?
    ensures r.Success? ==> r.value == ComposeSentence(defs[FirstMatching(defs, optName).value].longName, maxText)
  {
    var o :- FindOptionByName(defs, optName);
    Success(ComposeSentence(o.longName, maxText))
  }

  /** Absent: no error. Present: its first argument must read as a number `v <= max`. */
  function ValidateOptions<A>(
    parsed: seq<ParsedOption<A>>,
    optName: string,
    maxValue: real,
    maxText: string,
    tryParse: string -> Option<real>): (r: Result<seq<string>, Error>)
    ensures CountMatches(parsed, optName) == 0 ==> r == Success([])
    ensures CountMatches(parsed, optName) >= 2 ==> r == Failure(InvalidOperation(MoreThanOneMatch))
    ensures forall i :: 0 <= i < |parsed| && Matches(parsed[i].option, optName) &&
                        CountMatches(parsed, optName) == 1 &&
                        |parsed[i].parsedArgs| > 0 && tryParse(parsed[i].parsedArgs[0]).Some? ==>
      r == if tryParse(parsed[i].parsedArgs[0]).value <= maxValue then Success([])
           else Success([ComposeSentence(parsed[i].parsedName, maxText)])
    ensures forall i :: 0 <= i < |parsed| && Matches(parsed[i].option, optName) &&
                        CountMatches(parsed, optName) == 1 &&
                        |parsed[i].parsedArgs| > 0 && tryParse(parsed[i].parsedArgs[0]).None? ==>
      r == Success(["Invalid argument value: " + parsed[i].parsedName + " " + parsed[i].parsedArgs[0]])
    ensures forall i :: 0 <= i < |parsed| && Matches(parsed[i].option, optName) &&
                        CountMatches(parsed, optName) == 1 && |parsed[i].parsedArgs| == 0 ==>
      r == Failure(InvalidOperation(NoElements))
  {
    ValidateFirstArgument(parsed, optName, tryParse, v => v <= maxValue, typed => ComposeSentence(typed, maxText))
  }
}
