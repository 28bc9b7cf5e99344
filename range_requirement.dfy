/** `RangeOptionRequirement`: the first argument of an option lies in a closed interval.
    The bounds are doubles in the source; here they are reals, with the text string
    interpolation renders them as. */
module RangeOptionRequirement {
  import opened Wrappers
  import opened Failures
  import opened CommandOptions
  import opened OptionRequirementBase

  datatype Range = Range(optionName: string, minValue: real, maxValue: real, minText: string, maxText: string)

  /** A range the constructor accepts: its lower bound is below the upper one. */
  type CheckedRange = r: Range | r.minValue < r.maxValue witness Range("", 0.0, 1.0, "", "")

  /** The constructor refuses bounds that are equal or reversed. */
  function NewRange(optionName: string, minValue: real, maxValue: real, minText: string, maxText: string)
    : (r: Result<CheckedRange, Error>)
    ensures r.Success? <==> minValue < maxValue
    ensures r.Success? ==> r.value == Range(optionName, minValue, maxValue, minText, maxText)
    ensures r.Failure? ==> r.error == ArgumentError("Min value must be smaller than max value")
  {
    if minValue >= maxValue then Failure(ArgumentError("Min value must be smaller than max value"))
    else Success(Range(optionName, minValue, maxValue, minText, maxText))
  }

  function BoundsText(range: Range): string {
    ": value between " + range.minText + " and " + range.maxText
  }

  function PrintHelpLine<A>(defs: seq<CommandOption<A>>, range: Range): (r: Result<string, Error>)
    ensures r.Success? <==> FirstMatching(defs, range.optionName).Some?
    ensures r.Success? ==> r.value == defs[FirstMatching(defs, range.optionName).value].longName + BoundsText(range)
  {
    var o :- FindOptionByName(defs, range.optionName);
    Success(o.longName + BoundsText(range))
  }

  /** Absent: no error. Present: its first argument must read as a number `v` with
      `min <= v <= max`, both ends included. */
  function ValidateOptions<A>(parsed: seq<ParsedOption<A>>, range: Range, tryParse: string -> Option<real>)
    : (r: Result<seq<string>, Error>)
    ensures CountMatches(parsed, range.optionName) == 0 ==> r == Success([])
    ensures CountMatches(parsed, range.optionName) >= 2 ==> r == Failure(InvalidOperation(MoreThanOneMatch))
    ensures forall i :: 0 <= i < |parsed| && Matches(parsed[i].option, range.optionName) &&
                        CountMatches(parsed, range.optionName) == 1 &&
                        |parsed[i].parsedArgs| > 0 && tryParse(parsed[i].parsedArgs[0]).Some? ==>
      var v := tryParse(parsed[i].parsedArgs[0]).value;
      r == if range.minValue <= v <= range.maxValue then Success([])
           else Success([parsed[i].parsedName + BoundsText(range)])
    ensures forall i :: 0 <= i < |parsed| && Matches(parsed[i].option, range.optionName) &&
                        CountMatches(parsed, range.optionName) == 1 &&
                        |parsed[i].parsedArgs| > 0 && tryParse(parsed[i].parsedArgs[0]).None? ==>
      r == Success(["Invalid argument value: " + parsed[i].parsedName + " " + parsed[i].parsedArgs[0]])
    ensures forall i :: 0 <= i < |parsed| && Matches(parsed[i].option, range.optionName) &&
                        CountMatches(parsed, range.optionName) == 1 && |parsed[i].parsedArgs| == 0 ==>
      r == Failure(InvalidOperation(NoElements))
  {
    ValidateFirstArgument(parsed, range.optionName, tryParse,
      v => range.minValue <= v <= range.maxValue, typed => typed + BoundsText(range))
  }
}
