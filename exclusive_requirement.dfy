/** `ExclusiveOptionRequirement`: at most one of the listed options may be present. */
module ExclusiveOptionRequirement {
  import opened Wrappers
  import opened Failures
  import opened Text
  import opened CommandOptions
  import opened OptionRequirementBase

  function ComposeSentence(optNames: seq<string>): string {
    Join(", ", optNames) + " are mutual exclusive."
  }

  /** The help line names the definitions' long names. */
  function PrintHelpLine<A>(defs: seq<CommandOption<A>>, names: seq<string>): (r: Result<string, Error>)
    ensures r.Success? <==> AllDefined(defs, names)
    ensures r.Success? ==> r.value == ComposeSentence(LongNamesOf(defs, names).value)
    ensures r.Failure? ==> r.error == InvalidOperation(NoMatch)
  {
    var longNames :- LongNamesOf(defs, names);
    Success(ComposeSentence(longNames))
  }

  /** Two or more listed names present give one error naming, in parse order, the typed
      names of every listed option found; every name is looked up, so an ambiguous one throws. */
  function ValidateOptions<A>(parsed: seq<ParsedOption<A>>, names: seq<string>): (r: Result<seq<string>, Error>)
    ensures r.Failure? <==> SomeAmbiguous(parsed, names)
    ensures r.Failure? ==> r.error == InvalidOperation(MoreThanOneMatch)
    ensures r.Success? ==> (r.value == [] <==> NumPresent(parsed, names) < 2)
    ensures r.Success? && r.value != [] ==> r.value == [ComposeSentence(TypedNamesOfListed(parsed, names))]
  {
    var present :- CountFound(parsed, names);
    if present >= 2 then Success([ComposeSentence(TypedNamesOfListed(parsed, names))]) else Success([])
  }
}
