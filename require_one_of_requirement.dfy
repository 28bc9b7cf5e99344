/** `RequireOneOfOptionRequirement`: at least one of the listed options must be present. */
module RequireOneOfOptionRequirement {
  import opened Wrappers
  import opened Failures
  import opened Text
  import opened CommandOptions
  import opened OptionRequirementBase

  function ComposeSentence(longNames: seq<string>, count: nat): string {
    Join(", ", longNames) + (if count == 1 then " is required." else " at least one is required.")
  }

  /** The long names joined, then " is required." for one name and
      " at least one is required." for several. */
  function PrintHelpLine<A>(defs: seq<CommandOption<A>>, names: seq<string>): (r: Result<string, Error>)
    ensures r.Success? <==> AllDefined(defs, names)
    ensures r.Success? ==> r.value == ComposeSentence(LongNamesOf(defs, names).value, |names|)
    ensures r.Failure? ==> r.error == InvalidOperation(NoMatch)
  {
    var longNames :- LongNamesOf(defs, names);
    Success(ComposeSentence(longNames, |names|))
  }

  /** No error when some listed name is present; otherwise the one error is the help line,
      so an undefined listed name throws there. */
  function ValidateOptions<A>(defs: seq<CommandOption<A>>, parsed: seq<ParsedOption<A>>, names: seq<string>)
    : (r: Result<seq<string>, Error>)
    ensures r == Success([]) ==> exists i :: 0 <= i < |names| && CountMatches(parsed, names[i]) == 1
    ensures (exists i :: 0 <= i < |names| && CountMatches(parsed, names[i]) == 1) && !SomeAmbiguous(parsed, names) ==>
      r == Success([])
    ensures (forall i :: 0 <= i < |names| ==> CountMatches(parsed, names[i]) == 0) ==>
      r == (if AllDefined(defs, names) then Success([PrintHelpLine(defs, names).value])
            else Failure(InvalidOperation(NoMatch)))
    ensures r.Success? ==> |r.value| <= 1
  {
    var any :- AnyFound(parsed, names);
    if any then Success([])
    else
      var help :- PrintHelpLine(defs, names);
      Success([help])
  }
}
