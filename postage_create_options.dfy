/** `CreateCommandOptions` of the `etherna postage create` command: the amount or the TTL of
    the new batch (one of them, not both), its depth (required, at least 17) and a label.
    The amount is kept as the text `BzzBalance.FromPlurString` would read; that library type
    is not part of this model. */
module PostageCreateOptions {
  import opened Wrappers
  import opened Failures
  import opened Text
  import opened CommandOptions
  import opened OptionCallbacks
  import opened OptionRequirementBase
  import opened OptionRequirements
  import Engine = CommandOptionsBase
  import ExclusiveOptionRequirement
  import RequireOneOfOptionRequirement
  import MinValueOptionRequirement

  /** What each definition's `OnFound` does. */
  datatype Action = SetAmount | SetDepth | SetLabel | SetTtl

  /** The option properties: the amount text, the depth (0 until set), the label, and the TTL
      as a whole number of days (`TimeSpan.FromDays`). */
  datatype Settings = Settings(amount: Option<string>, depth: int, batchLabel: Option<string>, ttlDays: Option<int>)

  const Defaults := Settings(None, 0, None, None)

  const AmountOption := CommandOption(Some("-a"), "--amount", ["Int64"], "Specify the amount to use", SetAmount)
  const DepthOption := CommandOption(Some("-d"), "--depth", ["Int32"], "Specify the postage batch depth", SetDepth)
  const LabelOption := CommandOption(Some("-l"), "--label", ["String"], "Set a custom postage batch label", SetLabel)
  const TtlOption := CommandOption(Some("-t"), "--ttl", ["Int32"], "Specify the time to live to obtain in days", SetTtl)

  const Definitions: seq<CommandOption<Action>> := [AmountOption, DepthOption, LabelOption, TtlOption]

  const AmountOrTtl := ["--amount", "--ttl"]

  const MinDepth: real := 17.0
  const MinTtlDays: real := 1.0

  const AmountTtlExclusive := Exclusive(AmountOrTtl)
  const AmountOrTtlRequirement := RequireOneOf(AmountOrTtl)
  const DepthRequirement := RequireOneOf(["--depth"])
  const DepthMinimum := MinValue("--depth", MinDepth, "17")
  const TtlMinimum := MinValue("--ttl", MinTtlDays, "1")

  const Requirements: seq<Requirement> :=
    [AmountTtlExclusive, AmountOrTtlRequirement, DepthRequirement, DepthMinimum, TtlMinimum]

  /** The `OnFound` callbacks: each sets its own property and nothing else; `--depth` and
      `--ttl` read their argument with `int.Parse`, which may throw, and `--ttl` passes it to
      `TimeSpan.FromDays`, which throws beyond 10,675,199 days either way. */
  function Apply(s: Settings, a: Action, args: seq<string>): (r: Result<Settings, Error>)
    ensures (a == SetAmount || a == SetLabel) && |args| > 0 ==> r.Success?
    ensures a == SetDepth && |args| > 0 ==> (r.Success? <==> ParseInt32(args[0]).Success?)
    ensures a == SetTtl && |args| > 0 ==>
      (r.Success? <==> ParseInt32(args[0]).Success? && FromDays(ParseInt32(args[0]).value).Success?)
    ensures r.Success? ==> if a == SetAmount then |args| > 0 && r.value.amount == Some(args[0])
                           else r.value.amount == s.amount
    ensures r.Success? ==> if a == SetDepth then |args| > 0 && ParseInt32(args[0]) == Success(r.value.depth)
                           else r.value.depth == s.depth
    ensures r.Success? ==> if a == SetLabel then |args| > 0 && r.value.batchLabel == Some(args[0])
                           else r.value.batchLabel == s.batchLabel
    ensures r.Success? ==> if a == SetTtl then |args| > 0 && r.value.ttlDays.Some? && ParseInt32(args[0]) == Success(r.value.ttlDays.value)
                           else r.value.ttlDays == s.ttlDays
  {
    match a
    case SetAmount =>
      var text :- FirstArg(args);
      Success(s.(amount := Some(text)))
    case SetDepth =>
      var text :- FirstArg(args);
      var depth :- ParseInt32(text);
      Success(s.(depth := depth))
    case SetLabel =>
      var text :- FirstArg(args);
      Success(s.(batchLabel := Some(text)))
    case SetTtl =>
      var text :- FirstArg(args);
      var days :- ParseInt32(text);
      var ttl :- FromDays(days);
      Success(s.(ttlDays := Some(ttl)))
  }
  /** `--ttl n` is accepted exactly when `n` days fit in a `TimeSpan`: `--ttl 20000000`
      throws while the options are parsed. */
  lemma TtlWithinTimeSpan(s: Settings, n: nat)
    requires n <= Int32Max
    ensures Apply(s, SetTtl, [NatToString(n)]).Success? <==> n <= MaxTimeSpanDays
  {
    ParseInt32OfNatToString(n);
  }


  class CreateCommandOptions {
    var amount: Option<string>
    var depth: int
    var batchLabel: Option<string>
    var ttlDays: Option<int>

    constructor()
      ensures Current() == Defaults
    {
      amount := None;
      depth := 0;
      batchLabel := None;
      ttlDays := None;
    }

    function Current(): Settings
      reads this
    {
      Settings(amount, depth, batchLabel, ttlDays)
    }

    /** `ParseArgs`: the consumed count or the exception, and the messages reported. */
    method ParseArgs(args: seq<string>, tryParse: string -> Option<real>) returns (count: Result<nat, Error>, reported: seq<string>)
      modifies this
      ensures var o := Engine.ParseArgsSpec(Definitions, Requirements, Apply, tryParse, old(Current()), args);
        Current() == o.state && count == o.result && reported == o.optionErrors
    {
      var o := Engine.ParseArgs(Definitions, Requirements, Apply, tryParse, Current(), args);
      amount := o.state.amount;
      depth := o.state.depth;
      batchLabel := o.state.batchLabel;
      ttlDays := o.state.ttlDays;
      count := o.result;
      reported := o.optionErrors;
    }
  }

  // ---------------------------------------------------------------------------------------
  // The table.

  /** Every definition passes the constructor's name checks; no two share a name or a
      callback; each takes exactly one argument. */
  lemma DefinitionsAreValid()
    ensures forall i :: 0 <= i < |Definitions| ==> IsValidDefinition(Definitions[i])
    ensures Engine.DistinctNames(Definitions)
    ensures forall i, j :: 0 <= i < j < |Definitions| ==> Definitions[i].onFound != Definitions[j].onFound
    ensures forall i :: 0 <= i < |Definitions| ==> |Definitions[i].requiredArgTypes| == 1
  {
    AmountOptionIsValid();
    DepthOptionIsValid();
    LabelOptionIsValid();
    TtlOptionIsValid();
    Engine.DistinctNamesOfValid(Definitions);
  }

  lemma AmountOptionIsValid() ensures IsValidDefinition(AmountOption) {
    assert forall c :: c in "amount" ==> IsLongNameChar(c);
  }

  lemma DepthOptionIsValid() ensures IsValidDefinition(DepthOption) {
    assert forall c :: c in "depth" ==> IsLongNameChar(c);
  }

  lemma LabelOptionIsValid() ensures IsValidDefinition(LabelOption) {
    assert forall c :: c in "label" ==> IsLongNameChar(c);
  }

  lemma TtlOptionIsValid() ensures IsValidDefinition(TtlOption) {
    assert forall c :: c in "ttl" ==> IsLongNameChar(c);
  }

  /** Every option the loop records carries its one argument. */
  lemma FoundOptionsHaveTheirArgument(found: seq<ParsedOption<Action>>)
    requires Engine.AllWellFound(Definitions, found)
    ensures forall i :: 0 <= i < |found| ==> |found[i].parsedArgs| == 1
  {
    DefinitionsAreValid();
    forall i | 0 <= i < |found| ensures |found[i].parsedArgs| == 1 {
      assert Engine.WellFound(Definitions, found[i]);
    }
  }

  lemma Lookups()
    ensures FirstMatching(Definitions, "--amount") == Some(0)
    ensures FirstMatching(Definitions, "--depth") == Some(1)
    ensures FirstMatching(Definitions, "--ttl") == Some(3)
  {
    assert Matches(Definitions[0], "--amount");
    assert !Matches(AmountOption, "--depth") && Matches(Definitions[1], "--depth");
    assert !Matches(AmountOption, "--ttl") && !Matches(DepthOption, "--ttl") && !Matches(LabelOption, "--ttl");
    assert Matches(Definitions[3], "--ttl");
  }

  // ---------------------------------------------------------------------------------------
  // The five requirements, one at a time, on options found without ambiguity.

  /** The sentences the requirements report. */
  const AmountOrTtlRequired := "--amount, --ttl at least one is required."
  const DepthRequired := "--depth is required."

  function MutualExclusionMessage(found: seq<ParsedOption<Action>>): string {
    ExclusiveOptionRequirement.ComposeSentence(TypedNamesOfListed(found, AmountOrTtl))
  }

  /** `--amount` and `--ttl` (under any of their names) both present. */
  predicate AmountAndTtl(found: seq<ParsedOption<Action>>) {
    CountMatches(found, "--amount") >= 1 && CountMatches(found, "--ttl") >= 1
  }

  /** Neither of them present. */
  predicate NeitherAmountNorTtl(found: seq<ParsedOption<Action>>) {
    CountMatches(found, "--amount") == 0 && CountMatches(found, "--ttl") == 0
  }

  lemma ExclusiveVerdict(found: seq<ParsedOption<Action>>, tryParse: string -> Option<real>)
    requires forall name :: CountMatches(found, name) <= 1
    ensures ValidateOptions(Definitions, found, AmountTtlExclusive, tryParse) ==
      Success(if AmountAndTtl(found) then [MutualExclusionMessage(found)] else [])
  {
    assert !SomeAmbiguous(found, AmountOrTtl);
    assert AmountOrTtl[1..] == ["--ttl"] && ["--ttl"][1..] == [];
    assert NumPresent(found, AmountOrTtl) >= 2 <==> AmountAndTtl(found);
  }

  lemma AmountOrTtlHelp()
    ensures RequireOneOfOptionRequirement.PrintHelpLine(Definitions, AmountOrTtl) == Success(AmountOrTtlRequired)
  {
    Lookups();
    var longNames := LongNamesOf(Definitions, AmountOrTtl);
    assert longNames.Success? && |longNames.value| == 2;
    assert longNames.value[0] == Definitions[0].longName;
    assert longNames.value[1] == Definitions[3].longName;
    assert longNames.value == ["--amount", "--ttl"];
    AmountOrTtlJoined();
  }

  lemma AmountOrTtlJoined()
    ensures RequireOneOfOptionRequirement.ComposeSentence(["--amount", "--ttl"], 2) == AmountOrTtlRequired
  {
    AmountOrTtlNames();
    assert "--amount, --ttl" + " at least one is required." == AmountOrTtlRequired;
  }

  lemma AmountOrTtlNames()
    ensures Text.Join(", ", ["--amount", "--ttl"]) == "--amount, --ttl"
  {
    Text.JoinTwo(", ", "--amount", "--ttl");
    assert "--amount" + ", " == "--amount, ";
    assert "--amount, " + "--ttl" == "--amount, --ttl";
  }

  lemma AmountOrTtlVerdict(found: seq<ParsedOption<Action>>, tryParse: string -> Option<real>)
    requires forall name :: CountMatches(found, name) <= 1
    ensures ValidateOptions(Definitions, found, AmountOrTtlRequirement, tryParse) ==
      Success(if NeitherAmountNorTtl(found) then [AmountOrTtlRequired] else [])
  {
    var v := RequireOneOfOptionRequirement.ValidateOptions(Definitions, found, AmountOrTtl);
    assert ValidateOptions(Definitions, found, RequireOneOf(AmountOrTtl), tryParse) == v;
    if NeitherAmountNorTtl(found) {
      AmountOrTtlHelp();
      assert forall i :: 0 <= i < |AmountOrTtl| ==> CountMatches(found, AmountOrTtl[i]) == 0;
    } else {
      assert !SomeAmbiguous(found, AmountOrTtl);
      assert CountMatches(found, AmountOrTtl[0]) == 1 || CountMatches(found, AmountOrTtl[1]) == 1;
    }
  }

  lemma DepthHelp()
    ensures RequireOneOfOptionRequirement.PrintHelpLine(Definitions, ["--depth"]) == Success(DepthRequired)
  {
    DepthLongName();
    DepthSentence();
  }

  lemma DepthLongName()
    ensures LongNamesOf(Definitions, ["--depth"]) == Success(["--depth"])
  {
    Lookups();
    var longNames := LongNamesOf(Definitions, ["--depth"]);
    assert longNames.Success? && |longNames.value| == 1;
    assert longNames.value[0] == Definitions[1].longName;
    assert longNames.value == ["--depth"];
  }

  lemma DepthSentence()
    ensures RequireOneOfOptionRequirement.ComposeSentence(["--depth"], 1) == DepthRequired
  {
    assert Text.Join(", ", ["--depth"]) == "--depth";
    assert "--depth" + " is required." == DepthRequired;
  }

  lemma DepthVerdict(found: seq<ParsedOption<Action>>, tryParse: string -> Option<real>)
    requires forall name :: CountMatches(found, name) <= 1
    ensures ValidateOptions(Definitions, found, DepthRequirement, tryParse) ==
      Success(if CountMatches(found, "--depth") == 0 then [DepthRequired] else [])
  {
    var names := ["--depth"];
    var v := RequireOneOfOptionRequirement.ValidateOptions(Definitions, found, names);
    assert ValidateOptions(Definitions, found, RequireOneOf(names), tryParse) == v;
    if CountMatches(found, "--depth") == 0 {
      DepthHelp();
      assert forall i :: 0 <= i < |names| ==> CountMatches(found, names[i]) == 0;
    } else {
      assert !SomeAmbiguous(found, names);
      assert CountMatches(found, names[0]) == 1;
    }
  }

  lemma DepthMinimumVerdict(found: seq<ParsedOption<Action>>, tryParse: string -> Option<real>)
    requires forall name :: CountMatches(found, name) <= 1
    requires forall i :: 0 <= i < |found| ==> |found[i].parsedArgs| == 1
    ensures var r := ValidateOptions(Definitions, found, DepthMinimum, tryParse);
      r.Success? && (r.value == [] <==> MinValueOptionRequirement.MinHolds(found, "--depth", MinDepth, tryParse))
  {
    MinValueOptionRequirement.MinValueVerdict(found, "--depth", MinDepth, "17", tryParse);
  }

  lemma TtlMinimumVerdict(found: seq<ParsedOption<Action>>, tryParse: string -> Option<real>)
    requires forall name :: CountMatches(found, name) <= 1
    requires forall i :: 0 <= i < |found| ==> |found[i].parsedArgs| == 1
    ensures var r := ValidateOptions(Definitions, found, TtlMinimum, tryParse);
      r.Success? && (r.value == [] <==> MinValueOptionRequirement.MinHolds(found, "--ttl", MinTtlDays, tryParse))
  {
    MinValueOptionRequirement.MinValueVerdict(found, "--ttl", MinTtlDays, "1", tryParse);
  }

  /** What the five requirements accept together. */
  predicate Accepted(found: seq<ParsedOption<Action>>, tryParse: string -> Option<real>) {
    && CountMatches(found, "--amount") + CountMatches(found, "--ttl") == 1
    && CountMatches(found, "--depth") == 1
    && MinValueOptionRequirement.MinHolds(found, "--depth", MinDepth, tryParse)
    && MinValueOptionRequirement.MinHolds(found, "--ttl", MinTtlDays, tryParse)
  }

  /** The requirements never throw on options found without ambiguity, each with its
      argument, and report nothing exactly when the options are accepted. */
  lemma RequirementsVerdict(found: seq<ParsedOption<Action>>, tryParse: string -> Option<real>)
    requires forall name :: CountMatches(found, name) <= 1
    requires forall i :: 0 <= i < |found| ==> |found[i].parsedArgs| == 1
    ensures var r := ValidateAll(Definitions, found, Requirements, tryParse);
      r.Success? && (r.value == [] <==> Accepted(found, tryParse))
  {
    var tail := [DepthRequirement, DepthMinimum, TtlMinimum];
    assert Requirements == [AmountTtlExclusive] + ([AmountOrTtlRequirement] + tail);
    DepthRequirementsVerdict(found, tryParse);
    ExclusiveVerdict(found, tryParse);
    AmountOrTtlVerdict(found, tryParse);
    ValidateAllCons(Definitions, found, AmountOrTtlRequirement, tail, tryParse);
    ValidateAllCons(Definitions, found, AmountTtlExclusive, [AmountOrTtlRequirement] + tail, tryParse);
    assert CountMatches(found, "--amount") + CountMatches(found, "--ttl") == 1 <==>
      !AmountAndTtl(found) && !NeitherAmountNorTtl(found);
  }

  /** The last three requirements: `--depth` present, and both minima. */
  lemma DepthRequirementsVerdict(found: seq<ParsedOption<Action>>, tryParse: string -> Option<real>)
    requires forall name :: CountMatches(found, name) <= 1
    requires forall i :: 0 <= i < |found| ==> |found[i].parsedArgs| == 1
    ensures var r := ValidateAll(Definitions, found, [DepthRequirement, DepthMinimum, TtlMinimum], tryParse);
      r.Success? && (r.value == [] <==>
        && CountMatches(found, "--depth") == 1
        && MinValueOptionRequirement.MinHolds(found, "--depth", MinDepth, tryParse)
        && MinValueOptionRequirement.MinHolds(found, "--ttl", MinTtlDays, tryParse))
  {
    DepthVerdict(found, tryParse);
    DepthMinimumVerdict(found, tryParse);
    TtlMinimumVerdict(found, tryParse);
    ValidateAllOne(Definitions, found, TtlMinimum, tryParse);
    ValidateAllCons(Definitions, found, DepthMinimum, [TtlMinimum], tryParse);
    ValidateAllCons(Definitions, found, DepthRequirement, [DepthMinimum, TtlMinimum], tryParse);
    assert [DepthMinimum] + [TtlMinimum] == [DepthMinimum, TtlMinimum];
    assert [DepthRequirement] + [DepthMinimum, TtlMinimum] == [DepthRequirement, DepthMinimum, TtlMinimum];
  }

  // ---------------------------------------------------------------------------------------
  // The parse.

  /** The options read by the loop are found without ambiguity, each with its argument. */
  lemma ScanFacts(s0: Settings, args: seq<string>)
    ensures var found := Engine.ScanFrom(Definitions, Apply, args, 0, s0, []).found;
      && (forall name :: CountMatches(found, name) <= 1)
      && (forall i :: 0 <= i < |found| ==> |found[i].parsedArgs| == 1)
  {
    DefinitionsAreValid();
    Engine.ScanNotAmbiguous(Definitions, Apply, s0, args);
    Engine.ScanFound(Definitions, Apply, s0, args);
    FoundOptionsHaveTheirArgument(Engine.ScanFrom(Definitions, Apply, args, 0, s0, []).found);
  }

  /** Once the options are read, parsing succeeds exactly when exactly one of `--amount` and
      `--ttl` is present, `--depth` is present, the depth reads as at least 17 and a TTL as at
      least 1; otherwise it throws the one `ArgumentException` after reporting the messages. */
  lemma OptionsAccepted(tryParse: string -> Option<real>, s0: Settings, args: seq<string>)
    requires Engine.ScanFrom(Definitions, Apply, args, 0, s0, []).result.Success?
    ensures var o := Engine.ParseArgsSpec(Definitions, Requirements, Apply, tryParse, s0, args);
      && (o.result.Success? <==> Accepted(o.found, tryParse))
      && (o.result.Failure? ==> o.result.error == ArgumentError("Errors with command options") && o.optionErrors != [])
  {
    ScanFacts(s0, args);
    RequirementsVerdict(Engine.ScanFrom(Definitions, Apply, args, 0, s0, []).found, tryParse);
  }

  /** The message of requirement `k` is among those a failing parse reports. */
  lemma Reported(tryParse: string -> Option<real>, s0: Settings, args: seq<string>, k: nat, m: string)
    requires Engine.ScanFrom(Definitions, Apply, args, 0, s0, []).result.Success?
    requires k < |Requirements|
    requires var found := Engine.ScanFrom(Definitions, Apply, args, 0, s0, []).found;
      var v := ValidateOptions(Definitions, found, Requirements[k], tryParse);
      v.Success? && m in v.value
    ensures var o := Engine.ParseArgsSpec(Definitions, Requirements, Apply, tryParse, s0, args);
      && o.result.Failure? && m in o.optionErrors
      && o.found == Engine.ScanFrom(Definitions, Apply, args, 0, s0, []).found
  {
    var found := Engine.ScanFrom(Definitions, Apply, args, 0, s0, []).found;
    ScanFacts(s0, args);
    RequirementsVerdict(found, tryParse);
    ValidateAllCollects(Definitions, found, Requirements, tryParse, k);
  }

  /** `--amount` with `--ttl`: the mutual-exclusion message, on the names as typed. */
  lemma AmountWithTtlReported(tryParse: string -> Option<real>, s0: Settings, args: seq<string>)
    requires Engine.ScanFrom(Definitions, Apply, args, 0, s0, []).result.Success?
    requires AmountAndTtl(Engine.ScanFrom(Definitions, Apply, args, 0, s0, []).found)
    ensures var o := Engine.ParseArgsSpec(Definitions, Requirements, Apply, tryParse, s0, args);
      o.result.Failure? && MutualExclusionMessage(o.found) in o.optionErrors
  {
    var found := Engine.ScanFrom(Definitions, Apply, args, 0, s0, []).found;
    ScanFacts(s0, args);
    ExclusiveVerdict(found, tryParse);
    Reported(tryParse, s0, args, 0, MutualExclusionMessage(found));
  }

  /** Neither `--amount` nor `--ttl`: the require-one-of message. */
  lemma AmountOrTtlMissingReported(tryParse: string -> Option<real>, s0: Settings, args: seq<string>)
    requires Engine.ScanFrom(Definitions, Apply, args, 0, s0, []).result.Success?
    requires NeitherAmountNorTtl(Engine.ScanFrom(Definitions, Apply, args, 0, s0, []).found)
    ensures var o := Engine.ParseArgsSpec(Definitions, Requirements, Apply, tryParse, s0, args);
      o.result.Failure? && AmountOrTtlRequired in o.optionErrors
  {
    var found := Engine.ScanFrom(Definitions, Apply, args, 0, s0, []).found;
    ScanFacts(s0, args);
    AmountOrTtlVerdict(found, tryParse);
    Reported(tryParse, s0, args, 1, AmountOrTtlRequired);
  }

  /** No `--depth`: the depth-required message. */
  lemma DepthMissingReported(tryParse: string -> Option<real>, s0: Settings, args: seq<string>)
    requires Engine.ScanFrom(Definitions, Apply, args, 0, s0, []).result.Success?
    requires CountMatches(Engine.ScanFrom(Definitions, Apply, args, 0, s0, []).found, "--depth") == 0
    ensures var o := Engine.ParseArgsSpec(Definitions, Requirements, Apply, tryParse, s0, args);
      o.result.Failure? && DepthRequired in o.optionErrors
  {
    var found := Engine.ScanFrom(Definitions, Apply, args, 0, s0, []).found;
    ScanFacts(s0, args);
    DepthVerdict(found, tryParse);
    Reported(tryParse, s0, args, 2, DepthRequired);
  }

  /** A depth that reads as a number below 17: the minimum message, on the name as typed. */
  lemma DepthTooSmallReported(tryParse: string -> Option<real>, s0: Settings, args: seq<string>, i: nat)
    requires Engine.ScanFrom(Definitions, Apply, args, 0, s0, []).result.Success?
    requires var found := Engine.ScanFrom(Definitions, Apply, args, 0, s0, []).found;
      && i < |found| && Matches(found[i].option, "--depth") && |found[i].parsedArgs| > 0
      && tryParse(found[i].parsedArgs[0]).Some? && tryParse(found[i].parsedArgs[0]).value < MinDepth
    ensures var o := Engine.ParseArgsSpec(Definitions, Requirements, Apply, tryParse, s0, args);
      o.result.Failure? && MinValueOptionRequirement.ComposeSentence(o.found[i].parsedName, "17") in o.optionErrors
  {
    var found := Engine.ScanFrom(Definitions, Apply, args, 0, s0, []).found;
    ScanFacts(s0, args);
    var m := MinValueOptionRequirement.ComposeSentence(found[i].parsedName, "17");
    DepthBelowMinimum(found, tryParse, i);
    Reported(tryParse, s0, args, 3, m);
  }

  lemma DepthBelowMinimum(found: seq<ParsedOption<Action>>, tryParse: string -> Option<real>, i: nat)
    requires forall name :: CountMatches(found, name) <= 1
    requires i < |found| && Matches(found[i].option, "--depth") && |found[i].parsedArgs| > 0
    requires tryParse(found[i].parsedArgs[0]).Some? && tryParse(found[i].parsedArgs[0]).value < MinDepth
    ensures ValidateOptions(Definitions, found, DepthMinimum, tryParse) ==
      Success([MinValueOptionRequirement.ComposeSentence(found[i].parsedName, "17")])
  {
    CountMatchesZero(found, "--depth");
  }

  /** A TTL that reads as a number below 1: the minimum message, on the name as typed. */
  lemma TtlTooSmallReported(tryParse: string -> Option<real>, s0: Settings, args: seq<string>, i: nat)
    requires Engine.ScanFrom(Definitions, Apply, args, 0, s0, []).result.Success?
    requires var found := Engine.ScanFrom(Definitions, Apply, args, 0, s0, []).found;
      && i < |found| && Matches(found[i].option, "--ttl") && |found[i].parsedArgs| > 0
      && tryParse(found[i].parsedArgs[0]).Some? && tryParse(found[i].parsedArgs[0]).value < MinTtlDays
    ensures var o := Engine.ParseArgsSpec(Definitions, Requirements, Apply, tryParse, s0, args);
      o.result.Failure? && MinValueOptionRequirement.ComposeSentence(o.found[i].parsedName, "1") in o.optionErrors
  {
    var found := Engine.ScanFrom(Definitions, Apply, args, 0, s0, []).found;
    ScanFacts(s0, args);
    var m := MinValueOptionRequirement.ComposeSentence(found[i].parsedName, "1");
    TtlBelowMinimum(found, tryParse, i);
    Reported(tryParse, s0, args, 4, m);
  }

  lemma TtlBelowMinimum(found: seq<ParsedOption<Action>>, tryParse: string -> Option<real>, i: nat)
    requires forall name :: CountMatches(found, name) <= 1
    requires i < |found| && Matches(found[i].option, "--ttl") && |found[i].parsedArgs| > 0
    requires tryParse(found[i].parsedArgs[0]).Some? && tryParse(found[i].parsedArgs[0]).value < MinTtlDays
    ensures ValidateOptions(Definitions, found, TtlMinimum, tryParse) ==
      Success([MinValueOptionRequirement.ComposeSentence(found[i].parsedName, "1")])
  {
    CountMatchesZero(found, "--ttl");
  }

  // ---------------------------------------------------------------------------------------
  // The properties after a successful parse from the defaults.

  /** An option found with callback `a` is the only one. */
  lemma FoundOnce(tryParse: string -> Option<real>, args: seq<string>, a: Action, i: nat)
    requires Engine.ParseArgsSpec(Definitions, Requirements, Apply, tryParse, Defaults, args).result.Success?
    requires var o := Engine.ParseArgsSpec(Definitions, Requirements, Apply, tryParse, Defaults, args);
      i < |o.found| && o.found[i].option.onFound == a
    ensures Engine.FoundWith(Engine.ParseArgsSpec(Definitions, Requirements, Apply, tryParse, Defaults, args).found, a) == Some(i)
  {
    var o := Engine.ParseArgsSpec(Definitions, Requirements, Apply, tryParse, Defaults, args);
    Engine.ParseArgsSuccess(Definitions, Requirements, Apply, tryParse, Defaults, args);
    DefinitionsAreValid();
    Engine.OneOptionPerCallback(Definitions, o.found, a, i);
  }

  /** The amount is the text after `--amount` when it was found, and absent otherwise. */
  lemma ParsedAmount(tryParse: string -> Option<real>, args: seq<string>)
    requires Engine.ParseArgsSpec(Definitions, Requirements, Apply, tryParse, Defaults, args).result.Success?
    ensures var o := Engine.ParseArgsSpec(Definitions, Requirements, Apply, tryParse, Defaults, args);
      match Engine.FoundWith(o.found, SetAmount)
      case None => o.state.amount.None?
      case Some(i) => |o.found[i].parsedArgs| > 0 && o.state.amount == Some(o.found[i].parsedArgs[0])
  {
    var o := Engine.ParseArgsSpec(Definitions, Requirements, Apply, tryParse, Defaults, args);
    Engine.ParseArgsState(Definitions, Requirements, Apply, tryParse, Defaults, args);
    var wrote := (xs: seq<string>, v: Option<string>) => |xs| > 0 && v == Some(xs[0]);
    Engine.FoldWrites(Apply, Defaults, o.found, SetAmount, (s: Settings) => s.amount, wrote);
    if Engine.FoundWith(o.found, SetAmount).Some? {
      var i :| 0 <= i < |o.found| && o.found[i].option.onFound == SetAmount && wrote(o.found[i].parsedArgs, o.state.amount);
      FoundOnce(tryParse, args, SetAmount, i);
    }
  }

  /** The depth is 0 unless `--depth` was found, and then what `int.Parse` reads from its
      argument. */
  lemma ParsedDepth(tryParse: string -> Option<real>, args: seq<string>)
    requires Engine.ParseArgsSpec(Definitions, Requirements, Apply, tryParse, Defaults, args).result.Success?
    ensures var o := Engine.ParseArgsSpec(Definitions, Requirements, Apply, tryParse, Defaults, args);
      match Engine.FoundWith(o.found, SetDepth)
      case None => o.state.depth == 0
      case Some(i) => |o.found[i].parsedArgs| > 0 && ParseInt32(o.found[i].parsedArgs[0]) == Success(o.state.depth)
  {
    var o := Engine.ParseArgsSpec(Definitions, Requirements, Apply, tryParse, Defaults, args);
    Engine.ParseArgsState(Definitions, Requirements, Apply, tryParse, Defaults, args);
    var wrote := (xs: seq<string>, v: int) => |xs| > 0 && ParseInt32(xs[0]) == Success(v);
    Engine.FoldWrites(Apply, Defaults, o.found, SetDepth, (s: Settings) => s.depth, wrote);
    if Engine.FoundWith(o.found, SetDepth).Some? {
      var i :| 0 <= i < |o.found| && o.found[i].option.onFound == SetDepth && wrote(o.found[i].parsedArgs, o.state.depth);
      FoundOnce(tryParse, args, SetDepth, i);
    }
  }

  /** The label is the text after `--label` when it was found, and absent otherwise. */
  lemma ParsedLabel(tryParse: string -> Option<real>, args: seq<string>)
    requires Engine.ParseArgsSpec(Definitions, Requirements, Apply, tryParse, Defaults, args).result.Success?
    ensures var o := Engine.ParseArgsSpec(Definitions, Requirements, Apply, tryParse, Defaults, args);
      match Engine.FoundWith(o.found, SetLabel)
      case None => o.state.batchLabel.None?
      case Some(i) => |o.found[i].parsedArgs| > 0 && o.state.batchLabel == Some(o.found[i].parsedArgs[0])
  {
    var o := Engine.ParseArgsSpec(Definitions, Requirements, Apply, tryParse, Defaults, args);
    Engine.ParseArgsState(Definitions, Requirements, Apply, tryParse, Defaults, args);
    var wrote := (xs: seq<string>, v: Option<string>) => |xs| > 0 && v == Some(xs[0]);
    Engine.FoldWrites(Apply, Defaults, o.found, SetLabel, (s: Settings) => s.batchLabel, wrote);
    if Engine.FoundWith(o.found, SetLabel).Some? {
      var i :| 0 <= i < |o.found| && o.found[i].option.onFound == SetLabel && wrote(o.found[i].parsedArgs, o.state.batchLabel);
      FoundOnce(tryParse, args, SetLabel, i);
    }
  }

  /** The TTL is absent unless `--ttl` was found, and then the days `int.Parse` reads from
      its argument. */
  lemma ParsedTtl(tryParse: string -> Option<real>, args: seq<string>)
    requires Engine.ParseArgsSpec(Definitions, Requirements, Apply, tryParse, Defaults, args).result.Success?
    ensures var o := Engine.ParseArgsSpec(Definitions, Requirements, Apply, tryParse, Defaults, args);
      match Engine.FoundWith(o.found, SetTtl)
      case None => o.state.ttlDays.None?
      case Some(i) => |o.found[i].parsedArgs| > 0 && o.state.ttlDays.Some? &&
                      ParseInt32(o.found[i].parsedArgs[0]) == Success(o.state.ttlDays.value)
  {
    var o := Engine.ParseArgsSpec(Definitions, Requirements, Apply, tryParse, Defaults, args);
    Engine.ParseArgsState(Definitions, Requirements, Apply, tryParse, Defaults, args);
    var wrote := (xs: seq<string>, v: Option<int>) => |xs| > 0 && v.Some? && ParseInt32(xs[0]) == Success(v.value);
    Engine.FoldWrites(Apply, Defaults, o.found, SetTtl, (s: Settings) => s.ttlDays, wrote);
    if Engine.FoundWith(o.found, SetTtl).Some? {
      var i :| 0 <= i < |o.found| && o.found[i].option.onFound == SetTtl && wrote(o.found[i].parsedArgs, o.state.ttlDays);
      FoundOnce(tryParse, args, SetTtl, i);
    }
  }
}
