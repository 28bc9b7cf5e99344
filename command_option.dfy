/** An option definition of a command (`CommandOption`) and the lookup of a
    definition by one of its names (`CommandOptionsBase.FindOptionByName`).
    The `OnFound` callback is represented by an action tag of type `A`; each
    option table says what its tags do to its settings. */
module CommandOptions {
  import opened Wrappers
  import opened Failures
  import opened Text

  /** `^-[A-Za-z0-9]$` as .NET matches it: `$` also matches before one final '\n'. */
  predicate IsShortName(s: string) {
    (|s| == 2 || (|s| == 3 && s[2] == '\n')) && s[0] == '-' && IsAsciiLetterOrDigit(s[1])
  }

  predicate IsLongNameChar(c: char) {
    IsAsciiLetterOrDigit(c) || c == '-'
  }

  /** `--` followed by one or more characters of `[A-Za-z0-9-]`, nothing after. */
  predicate IsBareLongName(s: string) {
    |s| >= 3 && s[0] == '-' && s[1] == '-' && forall i :: 2 <= i < |s| ==> IsLongNameChar(s[i])
  }

  /** `^--[A-Za-z0-9-]+$` as .NET matches it, final '\n' tolerated. */
  predicate IsLongName(s: string) {
    IsBareLongName(s) || (|s| >= 4 && s[|s| - 1] == '\n' && IsBareLongName(s[..|s| - 1]))
  }

  datatype CommandOption<A> = CommandOption(
    shortName: Option<string>,
    longName: string,
    requiredArgTypes: seq<string>,   // the names of the argument types, e.g. "String", "Int32"
    description: string,
    onFound: A)

  /** The constructor: both names are checked, the short one first, before anything is stored. */
  function NewCommandOption<A>(
    shortName: Option<string>,
    longName: string,
    requiredArgTypes: seq<string>,
    description: string,
    onFound: A): (r: Result<CommandOption<A>, Error>)
    ensures r.Success? <==> (shortName.None? || IsShortName(shortName.value)) && IsLongName(longName)
    ensures r.Success? ==>
      && r.value.shortName == shortName && r.value.longName == longName
      && r.value.requiredArgTypes == requiredArgTypes && r.value.description == description
      && r.value.onFound == onFound
    ensures r.Failure? && shortName.Some? && !IsShortName(shortName.value) ==>
      r.error == ArgumentError("Invalid short option name")
    ensures r.Failure? && (shortName.None? || IsShortName(shortName.value)) ==>
      r.error == ArgumentError("Invalid long option name")
  {
    if shortName.Some? && !IsShortName(shortName.value) then
      Failure(ArgumentError("Invalid short option name"))
    else if !IsLongName(longName) then
      Failure(ArgumentError("Invalid long option name"))
    else
      Success(CommandOption(shortName, longName, requiredArgTypes, description, onFound))
  }

  /** The constructor accepts the definition's own fields (and then builds the definition
      itself): both names pass. */
  predicate IsValidDefinition<A>(d: CommandOption<A>) {
    NewCommandOption(d.shortName, d.longName, d.requiredArgTypes, d.description, d.onFound).Success?
  }

  /** No text is both a valid short name and a valid long name, and both kinds start
      with '-', so the parser, which only looks at arguments starting with '-', can
      reach every valid name. */
  lemma ShortAndLongNamesAreDisjointOptionTokens(s: string)
    ensures IsShortName(s) ==> !IsLongName(s) && |s| > 0 && s[0] == '-'
    ensures IsLongName(s) ==> !IsShortName(s) && |s| > 0 && s[0] == '-'
  {
    if IsLongName(s) && !IsBareLongName(s) {
      assert s[..|s| - 1][0] == s[0];
      assert s[..|s| - 1][1] == s[1];
    }
  }

  /** The definition is known under `name`, by its short or its long name. */
  predicate Matches<A>(option: CommandOption<A>, name: string) {
    option.shortName == Some(name) || option.longName == name
  }

  /** The position of the first definition known under `name`. */
  function FirstMatching<A>(defs: seq<CommandOption<A>>, name: string): (r: Option<nat>)
    ensures r.Some? ==> r.value < |defs| && Matches(defs[r.value], name)
    ensures r.Some? ==> forall j :: 0 <= j < r.value ==> !Matches(defs[j], name)
    ensures r.None? ==> forall j :: 0 <= j < |defs| ==> !Matches(defs[j], name)
    decreases |defs|
  {
    if |defs| == 0 then None
    else if Matches(defs[0], name) then Some(0)
    else
      match FirstMatching(defs[1..], name)
      case None => None
      case Some(i) => Some(i + 1)
  }

  /** `Definitions.First(o => o.ShortName == name || o.LongName == name)`. */
  function FindOptionByName<A>(defs: seq<CommandOption<A>>, name: string): (r: Result<CommandOption<A>, Error>)
    ensures r.Success? <==> exists i :: 0 <= i < |defs| && Matches(defs[i], name)
    ensures r.Success? ==> exists i :: 0 <= i < |defs| && defs[i] == r.value && Matches(r.value, name) &&
                                       forall j :: 0 <= j < i ==> !Matches(defs[j], name)
    ensures r.Failure? ==> r.error == InvalidOperation(NoMatch)
  {
    match FirstMatching(defs, name)
    case None => Failure(InvalidOperation(NoMatch))
    case Some(i) => Success(defs[i])
  }
}
