/** `FundCommandOptions` (resource funding): two flags, at least one of them required. */
module ResourceFundOptions {
  import opened Wrappers
  import opened Failures
  import opened CommandOptions
  import opened OptionRequirementBase
  import opened OptionRequirements
  import Text
  import RequireOneOfOptionRequirement
  import Engine = CommandOptionsBase

  /** What each definition's `OnFound` does. */
  datatype Action = SetFundPinning | SetFundTraffic

  datatype Settings = Settings(fundPinning: bool, fundTraffic: bool)

  const Defaults := Settings(false, false)

  const PinOption := CommandOption(Some("-p"), "--pin", [], "Fund resource pinning on gateway", SetFundPinning)
  const TrafficOption := CommandOption(Some("-t"), "--traffic", [], "Fund resource traffic to everyone", SetFundTraffic)

  const Definitions: seq<CommandOption<Action>> := [PinOption, TrafficOption]

  const Requirements: seq<Requirement> := [RequireOneOf(["-p", "-t"])]

  /** The `OnFound` callbacks: each flag sets its own property and nothing else. */
  function Apply(s: Settings, a: Action, args: seq<string>): (r: Result<Settings, Error>)
    ensures r.Success?
    ensures r.value.fundPinning == (s.fundPinning || a == SetFundPinning)
    ensures r.value.fundTraffic == (s.fundTraffic || a == SetFundTraffic)
  {
    match a
    case SetFundPinning => Success(s.(fundPinning := true))
    case SetFundTraffic => Success(s.(fundTraffic := true))
  }

  class FundCommandOptions {
    var fundPinning: bool
    var fundTraffic: bool

    constructor()
      ensures fundPinning == false && fundTraffic == false
    {
      fundPinning := false;
      fundTraffic := false;
    }

    function Current(): Settings
      reads this
    {
      Settings(fundPinning, fundTraffic)
    }

    /** `ParseArgs`: the consumed count or the exception, and the messages reported. */
    method ParseArgs(args: seq<string>, tryParse: string -> Option<real>) returns (count: Result<nat, Error>, reported: seq<string>)
      modifies this
      ensures var o := Engine.ParseArgsSpec(Definitions, Requirements, Apply, tryParse, old(Current()), args);
        Current() == o.state && count == o.result && reported == o.optionErrors
    {
      var o := Engine.ParseArgs(Definitions, Requirements, Apply, tryParse, Current(), args);
      fundPinning := o.state.fundPinning;
      fundTraffic := o.state.fundTraffic;
      count := o.result;
      reported := o.optionErrors;
    }
  }

  /** Both definitions pass the constructor's name checks, share no name, and take no argument. */
  lemma DefinitionsAreValid()
    ensures forall i :: 0 <= i < |Definitions| ==> IsValidDefinition(Definitions[i])
    ensures Engine.DistinctNames(Definitions)
    ensures forall i :: 0 <= i < |Definitions| ==> Definitions[i].requiredArgTypes == []
  {
    assert IsValidDefinition(PinOption) by {
      assert IsLongNameChar('p') && IsLongNameChar('i') && IsLongNameChar('n');
    }
    assert IsValidDefinition(TrafficOption) by {
      assert forall c :: c in "traffic" ==> IsLongNameChar(c);
    }
    Engine.DistinctNamesOfValid(Definitions);
  }

  lemma LongNames()
    ensures LongNamesOf(Definitions, ["-p", "-t"]) == Success(["--pin", "--traffic"])
  {
    assert FirstMatching(Definitions, "-p") == Some(0);
    assert FirstMatching(Definitions, "-t") == Some(1);
    var longNames := LongNamesOf(Definitions, ["-p", "-t"]);
    assert longNames.Success? && |longNames.value| == 2;
    assert longNames.value[0] == Definitions[0].longName;
    assert longNames.value[1] == Definitions[1].longName;
    assert longNames.value == ["--pin", "--traffic"];
  }

  lemma HelpText()
    ensures RequireOneOfOptionRequirement.ComposeSentence(["--pin", "--traffic"], 2) ==
            "--pin, --traffic at least one is required."
  {
    JoinedNames();
    assert "--pin, --traffic" + " at least one is required." == "--pin, --traffic at least one is required.";
  }

  lemma JoinedNames()
    ensures Text.Join(", ", ["--pin", "--traffic"]) == "--pin, --traffic"
  {
    Text.JoinTwo(", ", "--pin", "--traffic");
    assert "--pin" + ", " == "--pin, ";
    assert "--pin, " + "--traffic" == "--pin, --traffic";
  }

  /** The help line of the only requirement. */
  lemma HelpLine()
    ensures PrintHelpLine(Definitions, Requirements[0]) == Success("--pin, --traffic at least one is required.")
  {
    LongNames();
    HelpText();
  }

  /** The requirement on options found without ambiguity: it never throws, and it reports
      its help line exactly when neither flag is present. */
  lemma RequirementVerdict(found: seq<ParsedOption<Action>>, tryParse: string -> Option<real>)
    requires forall name :: CountMatches(found, name) <= 1
    ensures ValidateAll(Definitions, found, Requirements, tryParse) ==
      Success(if CountMatches(found, "-p") + CountMatches(found, "-t") >= 1 then []
              else ["--pin, --traffic at least one is required."])
  {
    var names := ["-p", "-t"];
    assert Requirements == [RequireOneOf(names)];
    var v := RequireOneOfOptionRequirement.ValidateOptions(Definitions, found, names);
    assert ValidateOptions(Definitions, found, RequireOneOf(names), tryParse) == v;
    ValidateAllOne(Definitions, found, RequireOneOf(names), tryParse);
    if CountMatches(found, "-p") + CountMatches(found, "-t") >= 1 {
      assert !SomeAmbiguous(found, names);
      assert CountMatches(found, names[0]) == 1 || CountMatches(found, names[1]) == 1;
    } else {
      HelpLine();
      assert forall i :: 0 <= i < |names| ==> CountMatches(found, names[i]) == 0;
    }
  }

  /** Once the options are read, parsing succeeds exactly when a flag is present, whether it
      was typed by its short or its long name; otherwise the one message reported is the
      help line. */
  lemma RequiresAFlag(tryParse: string -> Option<real>, s0: Settings, args: seq<string>)
    requires Engine.ScanFrom(Definitions, Apply, args, 0, s0, []).result.Success?
    ensures var o := Engine.ParseArgsSpec(Definitions, Requirements, Apply, tryParse, s0, args);
      && (o.result.Success? <==> CountMatches(o.found, "-p") + CountMatches(o.found, "-t") >= 1)
      && (o.result.Failure? ==>
            o.result.error == ArgumentError("Errors with command options") &&
            o.optionErrors == ["--pin, --traffic at least one is required."])
  {
    DefinitionsAreValid();
    Engine.ScanNotAmbiguous(Definitions, Apply, s0, args);
    RequirementVerdict(Engine.ScanFrom(Definitions, Apply, args, 0, s0, []).found, tryParse);
  }

  /** After a successful parse from the defaults, pinning is funded exactly when `-p` or `--pin`
      was found. */
  lemma ParsedPinning(tryParse: string -> Option<real>, args: seq<string>)
    requires Engine.ParseArgsSpec(Definitions, Requirements, Apply, tryParse, Defaults, args).result.Success?
    ensures var o := Engine.ParseArgsSpec(Definitions, Requirements, Apply, tryParse, Defaults, args);
      o.state.fundPinning == Engine.FoundWith(o.found, SetFundPinning).Some?
  {
    var o := Engine.ParseArgsSpec(Definitions, Requirements, Apply, tryParse, Defaults, args);
    Engine.ParseArgsState(Definitions, Requirements, Apply, tryParse, Defaults, args);
    Engine.FoldWrites(Apply, Defaults, o.found, SetFundPinning, (s: Settings) => s.fundPinning, (_, v) => v);
  }

  /** After a successful parse from the defaults, traffic is funded exactly when `-t` or
      `--traffic` was found. */
  lemma ParsedTraffic(tryParse: string -> Option<real>, args: seq<string>)
    requires Engine.ParseArgsSpec(Definitions, Requirements, Apply, tryParse, Defaults, args).result.Success?
    ensures var o := Engine.ParseArgsSpec(Definitions, Requirements, Apply, tryParse, Defaults, args);
      o.state.fundTraffic == Engine.FoundWith(o.found, SetFundTraffic).Some?
  {
    var o := Engine.ParseArgsSpec(Definitions, Requirements, Apply, tryParse, Defaults, args);
    Engine.ParseArgsState(Definitions, Requirements, Apply, tryParse, Defaults, args);
    Engine.FoldWrites(Apply, Defaults, o.found, SetFundTraffic, (s: Settings) => s.fundTraffic, (_, v) => v);
  }

  /** `-p` alone: one argument consumed, pinning funded, traffic not. */
  lemma PinFlagAlone(tryParse: string -> Option<real>, resource: string)
    requires |resource| == 0 || resource[0] != '-'
    ensures var o := Engine.ParseArgsSpec(Definitions, Requirements, Apply, tryParse, Defaults, ["-p", resource]);
      o.result == Success(1) && o.state == Settings(true, false)
  {
    var args := ["-p", resource];
    var p := ParsedOption(Definitions[0], "-p", []);
    assert FirstMatching(Definitions, "-p") == Some(0);
    assert args[1..1] == [] && [] + [p] == [p];
    Engine.ScanStep(Definitions, Apply, args, 0, Defaults, [], 0, Settings(true, false));
    Engine.ScanStop(Definitions, Apply, args, 1, Settings(true, false), [p]);
    assert CountMatches([p], "-p") == 1;
    assert forall name :: CountMatches([p], name) <= 1;
    RequirementVerdict([p], tryParse);
  }
}
