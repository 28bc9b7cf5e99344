/** `MinValueOptionRequirement`, which the postage batch creation options use. Its source is
    not part of this model: it is written as the mirror image of `MaxValueOptionRequirement`
    (a lower bound, included), and its sentence is an assumption. */
module MinValueOptionRequirement {
  import opened Wrappers
  import opened Failures
  import opened CommandOptions
  import opened OptionRequirementBase

  function ComposeSentence(optName: string, minText: string): string {
    optName + " has min value " + minText + "."
  }

  function PrintHelpLine<A>(defs: seq<CommandOption<A>>, optName: string, minText: string): (r: Result<string, Error>)
    ensures r.Success? <==> FirstMatching(defs, optName).Some?
    ensures r.Success? ==> r.value == ComposeSentence(defs[FirstMatching(defs, optName).value].longName, minText)
  {
    var o :- FindOptionByName(defs, optName);
    Success(ComposeSentence(o.longName, minText))
  }

  /** Absent: no error. Present: its first argument must read as a number `v >= min`. */
  function ValidateOptions<A>(
    parsed: seq<ParsedOption<A>>,
    optName: string,
    minValue: real,
    minText: string,
    tryParse: string -> Option<real>): (r: Result<seq<string>, Error>)
    ensures CountMatches(parsed, optName) == 0 ==> r == Success([])
    ensures CountMatches(parsed, optName) >= 2 ==> r == Failure(InvalidOperation(MoreThanOneMatch))
    ensures forall i :: 0 <= i < |parsed| && Matches(parsed[i].option, optName) &&
                        CountMatches(parsed, optName) == 1 &&
                        |parsed[i].parsedArgs| > 0 && tryParse(parsed[i].parsedArgs[0]).Some? ==>
      r == if tryParse(parsed[i].parsedArgs[0]).value >= minValue then Success([])
           else Success([ComposeSentence(parsed[i].parsedName, minText)])
    ensures forall i :: 0 <= i < |parsed| && Matches(parsed[i].option, optName) &&
                        CountMatches(parsed, optName) == 1 &&
                        |parsed[i].parsedArgs| > 0 && tryParse(parsed[i].parsedArgs[0]).None? ==>
      r == Success(["Invalid argument value: " + parsed[i].parsedName + " " + parsed[i].parsedArgs[0]])
    ensures forall i :: 0 <= i < |parsed| && Matches(parsed[i].option, optName) &&
                        CountMatches(parsed, optName) == 1 && |parsed[i].parsedArgs| == 0 ==>
      r == Failure(InvalidOperation(NoElements))
  {
    ValidateFirstArgument(parsed, optName, tryParse, v => v >= minValue, typed => ComposeSentence(typed, minText))
  }
  /** Every found option known under `optName` has a first argument that reads as a number
      of at least `minValue`. */
  predicate MinHolds<A>(parsed: seq<ParsedOption<A>>, optName: string, minValue: real, tryParse: string -> Option<real>) {
    forall i :: 0 <= i < |parsed| && Matches(parsed[i].option, optName) ==>
      |parsed[i].parsedArgs| > 0 && tryParse(parsed[i].parsedArgs[0]).Some? && tryParse(parsed[i].parsedArgs[0]).value >= minValue
  }

  /** Without ambiguity and with the argument present, the requirement never throws, and it
      is silent exactly when the value is readable and not below the minimum. */
  lemma MinValueVerdict<A>(
    parsed: seq<ParsedOption<A>>,
    optName: string,
    minValue: real,
    minText: string,
    tryParse: string -> Option<real>)
    requires CountMatches(parsed, optName) <= 1
    requires forall i :: 0 <= i < |parsed| && Matches(parsed[i].option, optName) ==> |parsed[i].parsedArgs| > 0
    ensures var r := ValidateOptions(parsed, optName, minValue, minText, tryParse);
      r.Success? && (r.value == [] <==> MinHolds(parsed, optName, minValue, tryParse))
  {
    var found := TryFindParsedOption(parsed, optName);
    if CountMatches(parsed, optName) == 0 {
      CountMatchesZero(parsed, optName);
    } else {
      var p := found.value.value;
      var i :| 0 <= i < |parsed| && parsed[i] == p;
      assert Matches(parsed[i].option, optName);
    }
  }
}
