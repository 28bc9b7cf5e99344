/** `ForbiddenOptionRequirement`: none of the listed options may be present. */
module ForbiddenOptionRequirement {
  import opened Wrappers
  import opened Failures
  import opened Text
  import opened CommandOptions
  import opened OptionRequirementBase

  /** Singular or plural by the number of names given. */
  function ComposeSentence(optNames: seq<string>): string {
    Join(", ", optNames) + (if |optNames| == 1 then " is forbidden." else " are forbidden.")
  }

  /** The long names joined, singular or plural by how many names the requirement lists. */
  function PrintHelpLine<A>(defs: seq<CommandOption<A>>, names: seq<string>): (r: Result<string, Error>)
    ensures r.Success? <==> AllDefined(defs, names)
    ensures r.Success? ==> r.value == ComposeSentence(LongNamesOf(defs, names).value)
    ensures r.Failure? ==> r.error == InvalidOperation(NoMatch)
  {
    var longNames :- LongNamesOf(defs, names);
    Success(Join(", ", longNames) + (if |names| == 1 then " is forbidden." else " are forbidden."))
  }

  /** Any listed name present gives one error naming the typed names of the listed options
      found. The names are looked up in order until one is present (`Any`), so only an
      ambiguous name met before that throws. */
  function ValidateOptions<A>(parsed: seq<ParsedOption<A>>, names: seq<string>): (r: Result<seq<string>, Error>)
    ensures r == Success([]) <==> forall i :: 0 <= i < |names| ==> CountMatches(parsed, names[i]) == 0
    ensures r.Success? ==> |r.value| <= 1
    ensures r.Success? && r.value != [] ==> r.value == [ComposeSentence(TypedNamesOfListed(parsed, names))]
    ensures r.Failure? ==> SomeAmbiguous(parsed, names) && r.error == InvalidOperation(MoreThanOneMatch)
    ensures !SomeAmbiguous(parsed, names) ==> r.Success?
  {
    var any :- AnyFound(parsed, names);
    if any then Success([ComposeSentence(TypedNamesOfListed(parsed, names))]) else Success([])
  }

  /** The error, when there is one, names at least one typed name. */
  lemma ErrorNamesSomething<A>(parsed: seq<ParsedOption<A>>, names: seq<string>)
    requires ValidateOptions(parsed, names).Success? && ValidateOptions(parsed, names).value != []
    ensures |TypedNamesOfListed(parsed, names)| >= 1
  {
    var i :| 0 <= i < |names| && CountMatches(parsed, names[i]) == 1;
    PresentNameIsListed(parsed, names, i);
  }
}
