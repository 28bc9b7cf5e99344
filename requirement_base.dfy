/** What every option requirement shares (`OptionRequirementBase`): the record of a
    found option (`ParsedOption`) and the lookup of a found option by name
    (`TryFindParsedOption`, a `SingleOrDefault` query), plus the `Any`, `Count` and
    `Where/Select` queries the requirements run over their listed names. */
module OptionRequirementBase {
  import opened Wrappers
  import opened Failures
  import opened CommandOptions

  /** A found option: its definition, the name it was typed under, its arguments. */
  datatype ParsedOption<A> = ParsedOption(option: CommandOption<A>, parsedName: string, parsedArgs: seq<string>)

  /** How many found options have a definition known under `name`. */
  function CountMatches<A>(parsed: seq<ParsedOption<A>>, name: string): nat
    decreases |parsed|
  {
    if |parsed| == 0 then 0
    else (if Matches(parsed[0].option, name) then 1 else 0) + CountMatches(parsed[1..], name)
  }

  lemma {:induction false} CountMatchesZero<A>(parsed: seq<ParsedOption<A>>, name: string)
    ensures CountMatches(parsed, name) == 0 <==> forall i :: 0 <= i < |parsed| ==> !Matches(parsed[i].option, name)
    decreases |parsed|
  {
    if |parsed| > 0 {
      CountMatchesZero(parsed[1..], name);
      if CountMatches(parsed, name) == 0 {
        forall i | 0 <= i < |parsed| ensures !Matches(parsed[i].option, name) {
          if i > 0 { assert parsed[i] == parsed[1..][i - 1]; }
        }
      } else if !Matches(parsed[0].option, name) {
        var j :| 0 <= j < |parsed[1..]| && Matches(parsed[1..][j].option, name);
        assert parsed[j + 1] == parsed[1..][j];
      }
    }
  }

  /** `parsedOptions.SingleOrDefault(p => p.Option.ShortName == name || p.Option.LongName == name)`. */
  function TryFindParsedOption<A>(parsed: seq<ParsedOption<A>>, name: string): (r: Result<Option<ParsedOption<A>>, Error>)
    ensures r == Success(None) <==> CountMatches(parsed, name) == 0
    ensures r.Success? && r.value.Some? <==> CountMatches(parsed, name) == 1
    ensures r.Success? && r.value.Some? ==> r.value.value in parsed && Matches(r.value.value.option, name)
    ensures r.Success? && r.value.Some? ==>
      forall i :: 0 <= i < |parsed| && Matches(parsed[i].option, name) ==> parsed[i] == r.value.value
    ensures r.Failure? <==> CountMatches(parsed, name) >= 2
    ensures r.Failure? ==> r.error == InvalidOperation(MoreThanOneMatch)
    decreases |parsed|
  {
    if |parsed| == 0 then Success(None)
    else
      var rest := TryFindParsedOption(parsed[1..], name);
      assert forall i :: 1 <= i < |parsed| ==> parsed[i] == parsed[1..][i - 1];
      if !Matches(parsed[0].option, name) then rest
      else if rest == Success(None) then
        CountMatchesZero(parsed[1..], name);
        Success(Some(parsed[0]))
      else Failure(InvalidOperation(MoreThanOneMatch))
  }

  /** Some listed name is ambiguous: more than one found option is known under it. */
  predicate SomeAmbiguous<A>(parsed: seq<ParsedOption<A>>, names: seq<string>) {
    exists i :: 0 <= i < |names| && CountMatches(parsed, names[i]) >= 2
  }

  /** How many of the listed names are present among the found options. */
  function NumPresent<A>(parsed: seq<ParsedOption<A>>, names: seq<string>): nat
    decreases |names|
  {
    if |names| == 0 then 0
    else (if CountMatches(parsed, names[0]) >= 1 then 1 else 0) + NumPresent(parsed, names[1..])
  }

  lemma {:induction false} NumPresentZero<A>(parsed: seq<ParsedOption<A>>, names: seq<string>)
    ensures NumPresent(parsed, names) == 0 <==> forall i :: 0 <= i < |names| ==> CountMatches(parsed, names[i]) == 0
    decreases |names|
  {
    if |names| > 0 {
      NumPresentZero(parsed, names[1..]);
      assert forall i :: 1 <= i < |names| ==> names[i] == names[1..][i - 1];
    }
  }

  /** `names.Any(n => TryFindParsedOption(parsed, n, out _))`: stops at the first name
      present; an ambiguous name met before that throws. */
  function AnyFound<A>(parsed: seq<ParsedOption<A>>, names: seq<string>): (r: Result<bool, Error>)
    ensures r == Success(true) ==> exists i :: 0 <= i < |names| && CountMatches(parsed, names[i]) == 1
    ensures r == Success(false) <==> forall i :: 0 <= i < |names| ==> CountMatches(parsed, names[i]) == 0
    ensures r.Failure? ==> SomeAmbiguous(parsed, names) && r.error == InvalidOperation(MoreThanOneMatch)
    ensures !SomeAmbiguous(parsed, names) ==> r.Success?
    decreases |names|
  {
    if |names| == 0 then Success(false)
    else
      match TryFindParsedOption(parsed, names[0])
      case Failure(e) => Failure(e)
      case Success(Some(_)) => Success(true)
      case Success(None) =>
        var rest := AnyFound(parsed, names[1..]);
        assert forall i :: 1 <= i < |names| ==> names[i] == names[1..][i - 1];
        rest
  }

  /** `names.Count(n => TryFindParsedOption(parsed, n, out _))`: every name is looked up. */
  function CountFound<A>(parsed: seq<ParsedOption<A>>, names: seq<string>): (r: Result<nat, Error>)
    ensures r.Success? <==> !SomeAmbiguous(parsed, names)
    ensures r.Success? ==> r.value == NumPresent(parsed, names)
    ensures r.Failure? ==> r.error == InvalidOperation(MoreThanOneMatch)
    decreases |names|
  {
    if |names| == 0 then Success(0)
    else
      assert forall i :: 1 <= i < |names| ==> names[i] == names[1..][i - 1];
      match TryFindParsedOption(parsed, names[0])
      case Failure(e) => Failure(e)
      case Success(found) =>
        match CountFound(parsed, names[1..])
        case Failure(e) => Failure(e)
        case Success(n) => Success(n + if found.Some? then 1 else 0)
  }

  /** The definition of `p` is listed in `names` under its short or its long name. */
  predicate IsListed<A>(p: ParsedOption<A>, names: seq<string>) {
    (p.option.shortName.Some? && p.option.shortName.value in names) || p.option.longName in names
  }

  /** `name` was typed for some found option listed in `names`. */
  predicate TypedForListed<A>(parsed: seq<ParsedOption<A>>, names: seq<string>, name: string) {
    exists i :: 0 <= i < |parsed| && IsListed(parsed[i], names) && parsed[i].parsedName == name
  }

  /** `parsed.Where(p => names.Contains(p.Option.ShortName) || names.Contains(p.Option.LongName))
      .Select(p => p.ParsedName)`: the typed names of the listed options, in parse order. */
  function TypedNamesOfListed<A>(parsed: seq<ParsedOption<A>>, names: seq<string>): (r: seq<string>)
    ensures |r| <= |parsed|
    ensures forall k :: 0 <= k < |r| ==> TypedForListed(parsed, names, r[k])
    ensures forall i :: 0 <= i < |parsed| && IsListed(parsed[i], names) ==> parsed[i].parsedName in r
    decreases |parsed|
  {
    if |parsed| == 0 then []
    else
      var head := if IsListed(parsed[0], names) then [parsed[0].parsedName] else [];
      var rest := TypedNamesOfListed(parsed[1..], names);
      assert forall i :: 1 <= i < |parsed| ==> parsed[i] == parsed[1..][i - 1];
      ListedWitnessesShift(parsed, names, head, rest);
      head + rest
  }

  /** The witnesses of the typed names found in the tail, moved one place along. */
  lemma ListedWitnessesShift<A>(parsed: seq<ParsedOption<A>>, names: seq<string>, head: seq<string>, rest: seq<string>)
    requires |parsed| > 0
    requires head == if IsListed(parsed[0], names) then [parsed[0].parsedName] else []
    requires forall k :: 0 <= k < |rest| ==> TypedForListed(parsed[1..], names, rest[k])
    ensures forall k :: 0 <= k < |head + rest| ==> TypedForListed(parsed, names, (head + rest)[k])
  {
    forall k | 0 <= k < |head + rest| ensures TypedForListed(parsed, names, (head + rest)[k]) {
      if k < |head| {
        assert IsListed(parsed[0], names) && parsed[0].parsedName == (head + rest)[k];
      } else {
        assert (head + rest)[k] == rest[k - |head|];
        assert TypedForListed(parsed[1..], names, rest[k - |head|]);
        var i :| 0 <= i < |parsed[1..]| && IsListed(parsed[1..][i], names) && parsed[1..][i].parsedName == rest[k - |head|];
        assert parsed[i + 1] == parsed[1..][i];
      }
    }
  }

  /** A listed name that is present makes the list of typed names non-empty. */
  lemma {:induction false} PresentNameIsListed<A>(parsed: seq<ParsedOption<A>>, names: seq<string>, i: nat)
    requires i < |names| && CountMatches(parsed, names[i]) >= 1
    ensures |TypedNamesOfListed(parsed, names)| >= 1
    decreases |parsed|
  {
    if Matches(parsed[0].option, names[i]) {
      assert IsListed(parsed[0], names);
    } else {
      PresentNameIsListed(parsed[1..], names, i);
    }
  }

  /** Every listed name is known to some definition. */
  predicate AllDefined<A>(defs: seq<CommandOption<A>>, names: seq<string>) {
    forall i :: 0 <= i < |names| ==> FirstMatching(defs, names[i]).Some?
  }

  /** `names.Select(n => commandOptions.FindOptionByName(n).LongName)`, forced by
      `string.Join`: the first name without a definition throws. */
  function LongNamesOf<A>(defs: seq<CommandOption<A>>, names: seq<string>): (r: Result<seq<string>, Error>)
    ensures r.Success? <==> AllDefined(defs, names)
    ensures r.Success? ==> |r.value| == |names|
    ensures r.Success? ==>
      forall i :: 0 <= i < |names| ==> r.value[i] == defs[FirstMatching(defs, names[i]).value].longName
    ensures r.Failure? ==> r.error == InvalidOperation(NoMatch)
    decreases |names|
  {
    if |names| == 0 then Success([])
    else
      assert forall i :: 1 <= i < |names| ==> names[i] == names[1..][i - 1];
      match FindOptionByName(defs, names[0])
      case Failure(e) => Failure(e)
      case Success(o) =>
        match LongNamesOf(defs, names[1..])
        case Failure(e) => Failure(e)
        case Success(rest) => Success([o.longName] + rest)
  }

  /** What the numeric requirements answer for the found option `p`: its first argument is
      read as a number (`ParsedArgs.First()` throws when there is none), an unreadable one
      is reported as such, and a number is either accepted or reported by `complaint`. */
  function FirstArgumentVerdict<A>(
    p: ParsedOption<A>,
    tryParse: string -> Option<real>,
    accept: real -> bool,
    complaint: string): Result<seq<string>, Error>
  {
    if |p.parsedArgs| == 0 then Failure(InvalidOperation(NoElements))
    else if tryParse(p.parsedArgs[0]).None? then
      Success(["Invalid argument value: " + p.parsedName + " " + p.parsedArgs[0]])
    else if accept(tryParse(p.parsedArgs[0]).value) then Success([])
    else Success([complaint])
  }

  /** The shape shared by the numeric requirements: nothing to say when `name` is absent,
      otherwise the verdict on the one found option known under `name`. */
  function ValidateFirstArgument<A>(
    parsed: seq<ParsedOption<A>>,
    name: string,
    tryParse: string -> Option<real>,
    accept: real -> bool,
    complaint: string -> string): (r: Result<seq<string>, Error>)
    ensures CountMatches(parsed, name) == 0 ==> r == Success([])
    ensures CountMatches(parsed, name) >= 2 ==> r == Failure(InvalidOperation(MoreThanOneMatch))
    ensures forall i :: 0 <= i < |parsed| && Matches(parsed[i].option, name) && CountMatches(parsed, name) == 1 ==>
      r == FirstArgumentVerdict(parsed[i], tryParse, accept, complaint(parsed[i].parsedName))
    ensures r.Success? ==> |r.value| <= 1
  {
    match TryFindParsedOption(parsed, name)
    case Failure(e) => Failure(e)
    case Success(None) => Success([])
    case Success(Some(p)) => FirstArgumentVerdict(p, tryParse, accept, complaint(p.parsedName))
  }
}
