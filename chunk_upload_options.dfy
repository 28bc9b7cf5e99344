/** `UploadCommandOptions` of the `etherna chunk upload` command: an existing postage batch,
    or the settings of a new one. `--postage` rules out the options that only matter for a
    new batch. */
module ChunkUploadOptions {
  import opened Wrappers
  import opened Failures
  import opened Text
  import opened CommandOptions
  import opened OptionCallbacks
  import opened OptionRequirementBase
  import opened OptionRequirements
  import Engine = CommandOptionsBase
  import ForbiddenOptionRequirement
  import IfPresentThenOptionRequirement

  /** What each definition's `OnFound` does. */
  datatype Action = SetUsePostageBatchId | SetAutoPurchase | SetLabel | SetTtl

  /** The option properties; the TTL is a whole number of days (`TimeSpan.FromDays`). */
  datatype Settings = Settings(
    newPostageAutoPurchase: bool,
    newPostageLabel: Option<string>,
    newPostageTtlDays: int,
    usePostageBatchId: Option<string>)

  const DefaultPostageBatchTtlDays := 365

  const Defaults := Settings(false, None, DefaultPostageBatchTtlDays, None)

  const PostageOption := CommandOption(None, "--postage", ["String"], "Use an existing postage batch. Create a new otherwise", SetUsePostageBatchId)
  const AutoPurchaseOption := CommandOption(Some("-A"), "--auto-purchase", [], "Auto purchase new postage batch", SetAutoPurchase)
  const LabelOption := CommandOption(Some("-l"), "--label", ["String"], "Label of new postage batch", SetLabel)
  const TtlOption := CommandOption(Some("-t"), "--ttl", ["Int32"], "TTL (days) of new postage batch (default: 365 days)", SetTtl)

  const Definitions: seq<CommandOption<Action>> := [PostageOption, AutoPurchaseOption, LabelOption, TtlOption]

  const NewBatchOptions := ["--auto-purchase", "--label", "--ttl"]

  const Requirements: seq<Requirement> := [IfPresentThen("--postage", Forbidden(NewBatchOptions))]

  /** The `OnFound` callbacks: each sets its own property and nothing else; `--ttl` reads its
      argument with `int.Parse` and passes it to `TimeSpan.FromDays`, each of which may throw. */
  function Apply(s: Settings, a: Action, args: seq<string>): (r: Result<Settings, Error>)
    ensures a != SetTtl && |args| > 0 ==> r.Success?
    ensures a == SetTtl && |args| > 0 ==>
      (r.Success? <==> ParseInt32(args[0]).Success? && FromDays(ParseInt32(args[0]).value).Success?)
    ensures r.Success? ==> r.value.newPostageAutoPurchase == (s.newPostageAutoPurchase || a == SetAutoPurchase)
    ensures r.Success? ==> if a == SetLabel then |args| > 0 && r.value.newPostageLabel == Some(args[0])
                           else r.value.newPostageLabel == s.newPostageLabel
    ensures r.Success? ==> if a == SetUsePostageBatchId then |args| > 0 && r.value.usePostageBatchId == Some(args[0])
                           else r.value.usePostageBatchId == s.usePostageBatchId
    ensures r.Success? ==> if a == SetTtl then |args| > 0 && ParseInt32(args[0]) == Success(r.value.newPostageTtlDays)
                           else r.value.newPostageTtlDays == s.newPostageTtlDays
  {
    match a
    case SetUsePostageBatchId =>
      var id :- FirstArg(args);
      Success(s.(usePostageBatchId := Some(id)))
    case SetAutoPurchase => Success(s.(newPostageAutoPurchase := true))
    case SetLabel =>
      var text :- FirstArg(args);
      Success(s.(newPostageLabel := Some(text)))
    case SetTtl =>
      var text :- FirstArg(args);
      var days :- ParseInt32(text);
      var ttl :- FromDays(days);
      Success(s.(newPostageTtlDays := ttl))
  }
  /** `--ttl n` is accepted exactly when `n` days fit in a `TimeSpan`: `--ttl 20000000`
      throws while the options are parsed. */
  lemma TtlWithinTimeSpan(s: Settings, n: nat)
    requires n <= Int32Max
    ensures Apply(s, SetTtl, [NatToString(n)]).Success? <==> n <= MaxTimeSpanDays
  {
    ParseInt32OfNatToString(n);
  }


  class UploadCommandOptions {
    var newPostageAutoPurchase: bool
    var newPostageLabel: Option<string>
    var newPostageTtlDays: int
    var usePostageBatchId: Option<string>

    constructor()
      ensures Current() == Defaults
    {
      newPostageAutoPurchase := false;
      newPostageLabel := None;
      newPostageTtlDays := DefaultPostageBatchTtlDays;
      usePostageBatchId := None;
    }

    function Current(): Settings
      reads this
    {
      Settings(newPostageAutoPurchase, newPostageLabel, newPostageTtlDays, usePostageBatchId)
    }

    /** `ParseArgs`: the consumed count or the exception, and the messages reported. */
    method ParseArgs(args: seq<string>, tryParse: string -> Option<real>) returns (count: Result<nat, Error>, reported: seq<string>)
      modifies this
      ensures var o := Engine.ParseArgsSpec(Definitions, Requirements, Apply, tryParse, old(Current()), args);
        Current() == o.state && count == o.result && reported == o.optionErrors
    {
      var o := Engine.ParseArgs(Definitions, Requirements, Apply, tryParse, Current(), args);
      newPostageAutoPurchase := o.state.newPostageAutoPurchase;
      newPostageLabel := o.state.newPostageLabel;
      newPostageTtlDays := o.state.newPostageTtlDays;
      usePostageBatchId := o.state.usePostageBatchId;
      count := o.result;
      reported := o.optionErrors;
    }
  }

  /** Every definition passes the constructor's name checks. */
  lemma DefinitionsAreValid()
    ensures forall i :: 0 <= i < |Definitions| ==> IsValidDefinition(Definitions[i])
  {
    PostageOptionIsValid();
    AutoPurchaseOptionIsValid();
    LabelOptionIsValid();
    TtlOptionIsValid();
  }

  lemma PostageOptionIsValid() ensures IsValidDefinition(PostageOption) {
    assert forall c :: c in "postage" ==> IsLongNameChar(c);
  }

  lemma AutoPurchaseOptionIsValid() ensures IsValidDefinition(AutoPurchaseOption) {
    assert forall c :: c in "auto-purchase" ==> IsLongNameChar(c);
  }

  lemma LabelOptionIsValid() ensures IsValidDefinition(LabelOption) {
    assert forall c :: c in "label" ==> IsLongNameChar(c);
  }

  lemma TtlOptionIsValid() ensures IsValidDefinition(TtlOption) {
    assert forall c :: c in "ttl" ==> IsLongNameChar(c);
  }

  /** No two definitions share a name, and no two share a callback. */
  lemma DefinitionsAreDistinct()
    ensures Engine.DistinctNames(Definitions)
    ensures forall i, j :: 0 <= i < j < |Definitions| ==> Definitions[i].onFound != Definitions[j].onFound
  {
    DefinitionsAreValid();
    LongNamesDiffer();
    ShortNamesDiffer();
    Engine.DistinctNamesOfValid(Definitions);
  }

  lemma LongNamesDiffer()
    ensures forall i, j :: 0 <= i < j < |Definitions| ==> Definitions[i].longName != Definitions[j].longName
  {
  }

  lemma ShortNamesDiffer()
    ensures forall i, j :: 0 <= i < j < |Definitions| && Definitions[i].shortName.Some? ==>
      Definitions[i].shortName != Definitions[j].shortName
  {
  }

  /** `--postage`, `--label` and `--ttl` take one argument, the flags none. */
  lemma DefinitionArities()
    ensures forall i :: 0 <= i < |Definitions| ==>
      |Definitions[i].requiredArgTypes| == if Definitions[i].onFound in {SetUsePostageBatchId, SetLabel, SetTtl} then 1 else 0
  {
  }

  /** `--postage` present together with a new-batch option, under any of their names. */
  predicate PostageConflict(found: seq<ParsedOption<Action>>) {
    CountMatches(found, "--postage") == 1 &&
    CountMatches(found, "--auto-purchase") + CountMatches(found, "--label") + CountMatches(found, "--ttl") >= 1
  }

  /** The message the requirement reports on a conflict. */
  function ConflictMessage(found: seq<ParsedOption<Action>>): string {
    IfPresentThenOptionRequirement.ComposeSentence("--postage",
      ForbiddenOptionRequirement.ComposeSentence(TypedNamesOfListed(found, NewBatchOptions)))
  }

  /** The inner `Forbidden` requirement on options found without ambiguity: one message
      exactly when a new-batch option is present. */
  lemma ForbiddenVerdict(found: seq<ParsedOption<Action>>, tryParse: string -> Option<real>)
    requires forall name :: CountMatches(found, name) <= 1
    ensures ValidateOptions(Definitions, found, Forbidden(NewBatchOptions), tryParse) ==
      Success(if CountMatches(found, "--auto-purchase") + CountMatches(found, "--label") + CountMatches(found, "--ttl") >= 1
              then [ForbiddenOptionRequirement.ComposeSentence(TypedNamesOfListed(found, NewBatchOptions))]
              else [])
  {
    assert !SomeAmbiguous(found, NewBatchOptions);
  }

  /** The requirement on options found without ambiguity: it never throws, and it reports one
      message exactly on a conflict. */
  lemma RequirementVerdict(found: seq<ParsedOption<Action>>, tryParse: string -> Option<real>)
    requires forall name :: CountMatches(found, name) <= 1
    ensures var v := ValidateAll(Definitions, found, Requirements, tryParse);
      v == Success(if PostageConflict(found) then [ConflictMessage(found)] else [])
  {
    var inner := Forbidden(NewBatchOptions);
    ForbiddenVerdict(found, tryParse);
    var fv := ValidateOptions(Definitions, found, inner, tryParse);
    var v := IfPresentThenOptionRequirement.ValidateOptions(found, "--postage", fv);
    assert ValidateOptions(Definitions, found, IfPresentThen("--postage", inner), tryParse) == v;
    ValidateAllOne(Definitions, found, IfPresentThen("--postage", inner), tryParse);
    if CountMatches(found, "--postage") == 1 {
      var msgs := IfPresentThenOptionRequirement.Prefixed("--postage", fv.value);
      assert v == Success(msgs);
      if fv.value != [] {
        assert msgs == [IfPresentThenOptionRequirement.ComposeSentence("--postage", fv.value[0])];
      } else {
        assert msgs == [];
      }
    }
  }

  /** Once the options are read: parsing fails exactly when `--postage` is present together
      with a new-batch option, whichever of its names was typed, and then reports one message:
      "If --postage is present then " and the forbidden sentence on the typed names of the
      offending options. */
  lemma PostageForbidsNewBatchOptions(tryParse: string -> Option<real>, s0: Settings, args: seq<string>)
    requires Engine.ScanFrom(Definitions, Apply, args, 0, s0, []).result.Success?
    ensures var o := Engine.ParseArgsSpec(Definitions, Requirements, Apply, tryParse, s0, args);
      && (o.result.Failure? <==> PostageConflict(o.found))
      && (o.result.Failure? ==>
            o.result.error == ArgumentError("Errors with command options") && o.optionErrors == [ConflictMessage(o.found)])
  {
    DefinitionsAreDistinct();
    Engine.ScanNotAmbiguous(Definitions, Apply, s0, args);
    RequirementVerdict(Engine.ScanFrom(Definitions, Apply, args, 0, s0, []).found, tryParse);
  }

  /** After a successful parse from the defaults, auto-purchase is set exactly when `-A` or
      `--auto-purchase` was found. */
  lemma ParsedAutoPurchase(tryParse: string -> Option<real>, args: seq<string>)
    requires Engine.ParseArgsSpec(Definitions, Requirements, Apply, tryParse, Defaults, args).result.Success?
    ensures var o := Engine.ParseArgsSpec(Definitions, Requirements, Apply, tryParse, Defaults, args);
      o.state.newPostageAutoPurchase == Engine.FoundWith(o.found, SetAutoPurchase).Some?
  {
    var o := Engine.ParseArgsSpec(Definitions, Requirements, Apply, tryParse, Defaults, args);
    Engine.ParseArgsSuccess(Definitions, Requirements, Apply, tryParse, Defaults, args);
    Engine.FoldWrites(Apply, Defaults, o.found, SetAutoPurchase, (s: Settings) => s.newPostageAutoPurchase, (_, v) => v);
  }

  /** After a successful parse, an option found with callback `a` is the only one. */
  lemma FoundOnce(tryParse: string -> Option<real>, args: seq<string>, a: Action, i: nat)
    requires Engine.ParseArgsSpec(Definitions, Requirements, Apply, tryParse, Defaults, args).result.Success?
    requires var o := Engine.ParseArgsSpec(Definitions, Requirements, Apply, tryParse, Defaults, args);
      i < |o.found| && o.found[i].option.onFound == a
    ensures Engine.FoundWith(Engine.ParseArgsSpec(Definitions, Requirements, Apply, tryParse, Defaults, args).found, a) == Some(i)
  {
    var o := Engine.ParseArgsSpec(Definitions, Requirements, Apply, tryParse, Defaults, args);
    Engine.ParseArgsSuccess(Definitions, Requirements, Apply, tryParse, Defaults, args);
    DefinitionsAreDistinct();
    Engine.OneOptionPerCallback(Definitions, o.found, a, i);
  }

  /** After a successful parse from the defaults, the label of a new batch is the argument
      of `--label` when it was found, and absent otherwise. */
  lemma ParsedLabel(tryParse: string -> Option<real>, args: seq<string>)
    requires Engine.ParseArgsSpec(Definitions, Requirements, Apply, tryParse, Defaults, args).result.Success?
    ensures var o := Engine.ParseArgsSpec(Definitions, Requirements, Apply, tryParse, Defaults, args);
      match Engine.FoundWith(o.found, SetLabel)
      case None => o.state.newPostageLabel.None?
      case Some(i) => |o.found[i].parsedArgs| > 0 && o.state.newPostageLabel == Some(o.found[i].parsedArgs[0])
  {
    var o := Engine.ParseArgsSpec(Definitions, Requirements, Apply, tryParse, Defaults, args);
    Engine.ParseArgsSuccess(Definitions, Requirements, Apply, tryParse, Defaults, args);
    var wrote := (xs: seq<string>, v: Option<string>) => |xs| > 0 && v == Some(xs[0]);
    Engine.FoldWrites(Apply, Defaults, o.found, SetLabel, (s: Settings) => s.newPostageLabel, wrote);
    if Engine.FoundWith(o.found, SetLabel).Some? {
      var i :| 0 <= i < |o.found| && o.found[i].option.onFound == SetLabel && wrote(o.found[i].parsedArgs, o.state.newPostageLabel);
      FoundOnce(tryParse, args, SetLabel, i);
    }
  }

  /** After a successful parse from the defaults, the batch to use is the argument of
      `--postage` when it was found, and absent otherwise. */
  lemma ParsedPostageBatchId(tryParse: string -> Option<real>, args: seq<string>)
    requires Engine.ParseArgsSpec(Definitions, Requirements, Apply, tryParse, Defaults, args).result.Success?
    ensures var o := Engine.ParseArgsSpec(Definitions, Requirements, Apply, tryParse, Defaults, args);
      match Engine.FoundWith(o.found, SetUsePostageBatchId)
      case None => o.state.usePostageBatchId.None?
      case Some(i) => |o.found[i].parsedArgs| > 0 && o.state.usePostageBatchId == Some(o.found[i].parsedArgs[0])
  {
    var o := Engine.ParseArgsSpec(Definitions, Requirements, Apply, tryParse, Defaults, args);
    Engine.ParseArgsSuccess(Definitions, Requirements, Apply, tryParse, Defaults, args);
    var wrote := (xs: seq<string>, v: Option<string>) => |xs| > 0 && v == Some(xs[0]);
    Engine.FoldWrites(Apply, Defaults, o.found, SetUsePostageBatchId, (s: Settings) => s.usePostageBatchId, wrote);
    if Engine.FoundWith(o.found, SetUsePostageBatchId).Some? {
      var i :| 0 <= i < |o.found| && o.found[i].option.onFound == SetUsePostageBatchId && wrote(o.found[i].parsedArgs, o.state.usePostageBatchId);
      FoundOnce(tryParse, args, SetUsePostageBatchId, i);
    }
  }

  /** After a successful parse from the defaults, the TTL is 365 days unless `--ttl` was
      found, and then it is what `int.Parse` reads from its argument. */
  lemma ParsedTtl(tryParse: string -> Option<real>, args: seq<string>)
    requires Engine.ParseArgsSpec(Definitions, Requirements, Apply, tryParse, Defaults, args).result.Success?
    ensures var o := Engine.ParseArgsSpec(Definitions, Requirements, Apply, tryParse, Defaults, args);
      match Engine.FoundWith(o.found, SetTtl)
      case None => o.state.newPostageTtlDays == DefaultPostageBatchTtlDays
      case Some(i) => |o.found[i].parsedArgs| > 0 && ParseInt32(o.found[i].parsedArgs[0]) == Success(o.state.newPostageTtlDays)
  {
    var o := Engine.ParseArgsSpec(Definitions, Requirements, Apply, tryParse, Defaults, args);
    Engine.ParseArgsSuccess(Definitions, Requirements, Apply, tryParse, Defaults, args);
    var wrote := (xs: seq<string>, v: int) => |xs| > 0 && ParseInt32(xs[0]) == Success(v);
    Engine.FoldWrites(Apply, Defaults, o.found, SetTtl, (s: Settings) => s.newPostageTtlDays, wrote);
    if Engine.FoundWith(o.found, SetTtl).Some? {
      var i :| 0 <= i < |o.found| && o.found[i].option.onFound == SetTtl && wrote(o.found[i].parsedArgs, o.state.newPostageTtlDays);
      FoundOnce(tryParse, args, SetTtl, i);
    }
  }

  lemma ReadThirty()
    ensures ParseInt32("30") == Success(30)
  {
    assert NatToString(30) == "30";
    ParseInt32OfNatToString(30);
  }

  /** The option loop over `--ttl 30` and a file. */
  lemma TtlScan(file: string)
    requires |file| == 0 || file[0] != '-'
    ensures Engine.ScanFrom(Definitions, Apply, ["--ttl", "30", file], 0, Defaults, []) ==
            Engine.Scan(Defaults.(newPostageTtlDays := 30), [ParsedOption(Definitions[3], "--ttl", ["30"])], Success(2))
  {
    var args := ["--ttl", "30", file];
    ReadThirty();
    assert FirstMatching(Definitions, "--ttl") == Some(3);
    assert args[1..2] == ["30"];
    var p := ParsedOption(Definitions[3], "--ttl", ["30"]);
    assert Engine.ScanFrom(Definitions, Apply, args, 0, Defaults, []) ==
           Engine.ScanFrom(Definitions, Apply, args, 2, Defaults.(newPostageTtlDays := 30), [p]);
  }

  /** `--ttl 30` before the file: two arguments consumed, a 30-day TTL, nothing else changed. */
  lemma TtlRun(tryParse: string -> Option<real>, file: string)
    requires |file| == 0 || file[0] != '-'
    ensures var o := Engine.ParseArgsSpec(Definitions, Requirements, Apply, tryParse, Defaults, ["--ttl", "30", file]);
      o.result == Success(2) && o.state == Defaults.(newPostageTtlDays := 30)
  {
    var p := ParsedOption(Definitions[3], "--ttl", ["30"]);
    TtlScan(file);
    assert CountMatches([p], "--postage") == 0;
    assert forall name :: CountMatches([p], name) <= 1;
    RequirementVerdict([p], tryParse);
  }

  /** Where each name of the table is defined. */
  lemma Lookups()
    ensures FirstMatching(Definitions, "--postage") == Some(0)
    ensures FirstMatching(Definitions, "-t") == Some(3) && FirstMatching(Definitions, "--ttl") == Some(3)
  {
    assert Matches(Definitions[0], "--postage");
    assert !Matches(PostageOption, "-t") && !Matches(AutoPurchaseOption, "-t") && !Matches(LabelOption, "-t");
    assert !Matches(PostageOption, "--ttl") && !Matches(AutoPurchaseOption, "--ttl") && !Matches(LabelOption, "--ttl");
    assert Matches(Definitions[3], "-t") && Matches(Definitions[3], "--ttl");
  }

  /** The option loop over `--postage`, its batch id, `-t 30` and a file. */
  lemma PostageWithTtlScan(id: string, file: string)
    requires |id| == 0 || id[0] != '-'
    requires |file| == 0 || file[0] != '-'
    ensures Engine.ScanFrom(Definitions, Apply, ["--postage", id, "-t", "30", file], 0, Defaults, []) ==
            Engine.Scan(Defaults.(usePostageBatchId := Some(id), newPostageTtlDays := 30),
                        [ParsedOption(Definitions[0], "--postage", [id]), ParsedOption(Definitions[3], "-t", ["30"])],
                        Success(4))
  {
    var args := ["--postage", id, "-t", "30", file];
    var p := ParsedOption(Definitions[0], "--postage", [id]);
    var t := ParsedOption(Definitions[3], "-t", ["30"]);
    var s1 := Defaults.(usePostageBatchId := Some(id));
    var s2 := s1.(newPostageTtlDays := 30);
    PostageFirstStep(args, Defaults);
    TtlSecondStep(args, s1, p);
    Engine.ScanStop(Definitions, Apply, args, 4, s2, [p, t]);
  }

  lemma PostageFirstStep(args: seq<string>, s: Settings)
    requires |args| == 5 && args[0] == "--postage" && args[2] == "-t" && args[3] == "30"
    ensures Engine.ScanFrom(Definitions, Apply, args, 0, s, []) ==
            Engine.ScanFrom(Definitions, Apply, args, 2, s.(usePostageBatchId := Some(args[1])),
                            [ParsedOption(Definitions[0], "--postage", [args[1]])])
  {
    Lookups();
    assert args[1..2] == [args[1]];
    assert |Definitions[0].requiredArgTypes| == 1;
    var q := ParsedOption(Definitions[0], "--postage", [args[1]]);
    assert [] + [q] == [q];
    Engine.ScanStep(Definitions, Apply, args, 0, s, [], 0, s.(usePostageBatchId := Some(args[1])));
  }

  lemma TtlSecondStep(args: seq<string>, s: Settings, p: ParsedOption<Action>)
    requires |args| == 5 && args[2] == "-t" && args[3] == "30"
    requires p.option == Definitions[0]
    ensures Engine.ScanFrom(Definitions, Apply, args, 2, s, [p]) ==
            Engine.ScanFrom(Definitions, Apply, args, 4, s.(newPostageTtlDays := 30), [p, ParsedOption(Definitions[3], "-t", ["30"])])
  {
    ReadThirty();
    Lookups();
    assert args[3..4] == ["30"];
    assert !Matches(p.option, "-t");
    assert !Engine.AlreadyFound([p], "-t");
    assert Apply(s, SetTtl, ["30"]) == Success(s.(newPostageTtlDays := 30));
    assert |Definitions[3].requiredArgTypes| == 1;
    var t := ParsedOption(Definitions[3], "-t", ["30"]);
    assert [p] + [t] == [p, t];
    Engine.ScanStep(Definitions, Apply, args, 2, s, [p], 3, s.(newPostageTtlDays := 30));
  }

  /** The two options of that run: `--postage` and `--ttl` present once each, and the only
      new-batch option was typed as `-t`. */
  lemma PostageWithTtlFound(id: string)
    ensures var found := [ParsedOption(Definitions[0], "--postage", [id]), ParsedOption(Definitions[3], "-t", ["30"])];
      && CountMatches(found, "--postage") == 1 && CountMatches(found, "--ttl") == 1
      && TypedNamesOfListed(found, NewBatchOptions) == ["-t"]
  {
    var found := [ParsedOption(Definitions[0], "--postage", [id]), ParsedOption(Definitions[3], "-t", ["30"])];
    assert found[1..] == [found[1]] && [found[1]][1..] == [];
    assert Matches(found[0].option, "--postage") && !Matches(found[1].option, "--postage");
    assert Matches(found[1].option, "--ttl") && !Matches(found[0].option, "--ttl");
    assert !IsListed(found[0], NewBatchOptions) && IsListed(found[1], NewBatchOptions);
    assert CountMatches(found[1..], "--postage") == 0 && CountMatches(found[1..], "--ttl") == 1;
  }

  lemma ConflictText()
    ensures IfPresentThenOptionRequirement.ComposeSentence("--postage", ForbiddenOptionRequirement.ComposeSentence(["-t"])) ==
            "If --postage is present then -t is forbidden."
  {
    assert Join(", ", ["-t"]) == "-t";
    assert "-t" + " is forbidden." == "-t is forbidden.";
    assert "If " + "--postage" == "If --postage";
    assert "If --postage" + " is present then " == "If --postage is present then ";
  }

  /** `--postage` with `-t`: the requirement reports the option under the name it was typed. */
  lemma PostageWithTtl(tryParse: string -> Option<real>, id: string, file: string)
    requires |id| == 0 || id[0] != '-'
    requires |file| == 0 || file[0] != '-'
    ensures var o := Engine.ParseArgsSpec(Definitions, Requirements, Apply, tryParse, Defaults, ["--postage", id, "-t", "30", file]);
      && o.result == Failure(ArgumentError("Errors with command options"))
      && o.optionErrors == ["If --postage is present then -t is forbidden."]
  {
    var args := ["--postage", id, "-t", "30", file];
    var found := [ParsedOption(Definitions[0], "--postage", [id]), ParsedOption(Definitions[3], "-t", ["30"])];
    PostageWithTtlScan(id, file);
    PostageForbidsNewBatchOptions(tryParse, Defaults, args);
    PostageWithTtlFound(id);
    ConflictText();
  }
}
