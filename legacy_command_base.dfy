/** The older `CommandBase`: the command owns its option list and parses it itself, without
    requirements, and `RunAsync` brackets help or the command between the pre-command and
    the post-command operations. */
module LegacyCommandBase {
  import opened Wrappers
  import opened Failures
  import opened CommandOptions
  import opened CommandNames
  import opened CommandBase
  import Engine = CommandOptionsBase
  import opened OptionRequirementBase

  // ---------------------------------------------------------------------------------------
  // ParseOptionArgs.

  /** `foundOptions.Any(opt => opt.ShortName == optName || opt.LongName == optName)`, on the
      list of options found so far. */
  predicate AnyMatches<A>(options: seq<CommandOption<A>>, optName: string) {
    exists j :: 0 <= j < |options| && Matches(options[j], optName)
  }

  /** The options of the parsed options, in order. */
  function OptionsOf<A>(found: seq<ParsedOption<A>>): (r: seq<CommandOption<A>>)
    ensures |r| == |found| && forall i :: 0 <= i < |r| ==> r[i] == found[i].option
  {
    seq(|found|, i requires 0 <= i < |found| => found[i].option)
  }

  lemma OptionsOfSnoc<A>(found: seq<ParsedOption<A>>, p: ParsedOption<A>)
    ensures OptionsOf(found + [p]) == OptionsOf(found) + [p.option]
  {
  }

  /** The duplicate check on the options found is the one on the parsed options. */
  lemma AnyMatchesOfFound<A>(found: seq<ParsedOption<A>>, optName: string)
    ensures AnyMatches(OptionsOf(found), optName) <==> Engine.AlreadyFound(found, optName)
  {
    if AnyMatches(OptionsOf(found), optName) {
      var j :| 0 <= j < |found| && Matches(OptionsOf(found)[j], optName);
      assert Matches(found[j].option, optName);
    }
    if Engine.AlreadyFound(found, optName) {
      var j :| 0 <= j < |found| && Matches(found[j].option, optName);
      assert Matches(OptionsOf(found)[j], optName);
    }
  }

  /** The older `ParseOptionArgs`: the same `while` loop as the options engine's, over the
      command's own `CommandOptions` and a list of the options found (added before their
      argument count is checked, which no one sees once that check throws). It ends where the
      engine's loop ends, with the same settings and the same count or exception. */
  method ParseOptionArgs<S, A>(
    commandOptions: seq<CommandOption<A>>,
    apply: (S, A, seq<string>) -> Result<S, Error>,
    s0: S,
    args: seq<string>) returns (state: S, count: Result<nat, Error>)
    ensures var scan := Engine.ScanFrom(commandOptions, apply, args, 0, s0, []);
      state == scan.state && count == scan.result
  {
    var parsedArgsCount := 0;
    var foundOptions: seq<CommandOption<A>> := [];
    ghost var found: seq<ParsedOption<A>> := [];
    state := s0;
    while parsedArgsCount < |args| && Engine.IsOptionToken(args[parsedArgsCount])
      invariant parsedArgsCount <= |args|
      invariant foundOptions == OptionsOf(found)
      invariant Engine.ScanFrom(commandOptions, apply, args, parsedArgsCount, state, found) ==
                Engine.ScanFrom(commandOptions, apply, args, 0, s0, [])
      decreases |args| - parsedArgsCount
    {
      var optName := args[parsedArgsCount];
      parsedArgsCount := parsedArgsCount + 1;

      var d := FirstMatching(commandOptions, optName);
      if d.None? {
        return state, Failure(ArgumentError(Engine.UnknownOptionMessage(optName)));
      }
      var foundOption := commandOptions[d.value];

      AnyMatchesOfFound(found, optName);
      if AnyMatches(foundOptions, optName) {
        return state, Failure(ArgumentError(Engine.DuplicateOptionMessage(optName)));
      }
      foundOptions := foundOptions + [foundOption];

      var k := |foundOption.requiredArgTypes|;
      if |args| - parsedArgsCount < k {
        return state, Failure(ArgumentError(Engine.MissingArgsMessage(optName, foundOption.requiredArgTypes)));
      }

      var requiredOptArgs := args[parsedArgsCount..parsedArgsCount + k];
      parsedArgsCount := parsedArgsCount + k;
      var next := apply(state, foundOption.onFound, requiredOptArgs);
      if next.Failure? {
        return state, Failure(next.error);
      }
      state := next.value;
      OptionsOfSnoc(found, ParsedOption(foundOption, optName, requiredOptArgs));
      found := found + [ParsedOption(foundOption, optName, requiredOptArgs)];
    }
    count := Success(parsedArgsCount);
  }

  /** The newer options engine with no requirement is the older loop: same settings and same
      count or exception, and nothing reported. */
  lemma NoRequirementsIsLegacyLoop<S, A>(
    defs: seq<CommandOption<A>>,
    apply: (S, A, seq<string>) -> Result<S, Error>,
    tryParse: string -> Option<real>,
    s0: S,
    args: seq<string>)
    ensures var scan := Engine.ScanFrom(defs, apply, args, 0, s0, []);
      var o := Engine.ParseArgsSpec(defs, [], apply, tryParse, s0, args);
      o.state == scan.state && o.result == scan.result && o.optionErrors == []
  {
  }

  // ---------------------------------------------------------------------------------------
  // RunAsync, with the pre- and post-command operations.

  datatype Event = PreCommandOps(command: TypeInfo) | Did(outcome: Outcome) | PostCommandOps(command: TypeInfo)

  /** What happened, in order, and the exception the run ended with, if any. */
  datatype Trace = Trace(events: seq<Event>, error: Option<Error>)

  /** `RunAsync`: help is evaluated and the options parsed first; then the pre-command
      operations, help or the command, and the post-command operations, which an exception
      skips. */
  function LegacyRun(assembly: seq<TypeInfo>, behaviours: TypeInfo -> Behaviour, t: TypeInfo, args: seq<string>): Trace
    decreases |args|, 1
  {
    var b := behaviours(t);
    var help := EvaluatePrintHelp(args, b.printHelpWithNoArgs);
    var count := if help then Success(0) else b.parseOptionArgs(args);
    if count.Failure? then Trace([], Some(count.error))
    else
      var inner :=
        if help then
          (match HelpText(assembly, behaviours, t)
           case Success(text) => Trace([Did(HelpPrinted(t, text))], None)
           case Failure(e) => Trace([], Some(e)))
        else if count.value > |args| then Trace([], Some(SliceOutOfRange))
        else if b.runsSubCommands then LegacyRunSubCommand(assembly, behaviours, t, args[count.value..])
        else Trace([Did(CommandRan(t, args[count.value..]))], None);
      if inner.error.Some? then Trace([PreCommandOps(t)] + inner.events, inner.error)
      else Trace([PreCommandOps(t)] + inner.events + [PostCommandOps(t)], None)
  }

  /** The older `RunSubCommandAsync`: the same dispatch as the newer one. */
  function LegacyRunSubCommand(assembly: seq<TypeInfo>, behaviours: TypeInfo -> Behaviour, t: TypeInfo, commandArgs: seq<string>): Trace
    decreases |commandArgs|, 0
  {
    if |commandArgs| == 0 then Trace([], Some(ArgumentError("A command name is required")))
    else
      var subs := SubCommandTypes(assembly, t);
      SubCommandTypesAreCommands(assembly, t);
      match SelectSubCommand(subs, commandArgs[0])
      case None =>
        (match CommandNamesPath(t)
         case Failure(e) => Trace([], Some(e))
         case Success(path) => Trace([], Some(ArgumentError(InvalidCommandMessage(path, commandArgs[0])))))
      case Some(i) => LegacyRun(assembly, behaviours, subs[i], commandArgs[1..])
  }

  /** The outcomes recorded in a trace, in order. */
  function Outcomes(events: seq<Event>): seq<Outcome>
    decreases |events|
  {
    if |events| == 0 then []
    else (if events[0].Did? then [events[0].outcome] else []) + Outcomes(events[1..])
  }

  lemma {:induction false} OutcomesAppend(a: seq<Event>, b: seq<Event>)
    ensures Outcomes(a + b) == Outcomes(a) + Outcomes(b)
    decreases |a|
  {
    if |a| == 0 {
      assert a + b == b;
    } else {
      assert (a + b)[0] == a[0] && (a + b)[1..] == a[1..] + b;
      OutcomesAppend(a[1..], b);
    }
  }

  /** Pre- and post-command operations of the same command around one outcome or around a
      sub-command's bracketed run. */
  predicate Bracketed(events: seq<Event>)
    decreases |events|
  {
    && |events| >= 3
    && events[0].PreCommandOps?
    && events[|events| - 1] == PostCommandOps(events[0].command)
    && var inner := events[1..|events| - 1];
       (|inner| == 1 && inner[0].Did?) || Bracketed(inner)
  }

  /** Both versions agree: the older run throws exactly when the newer one does, with the
      same exception, and otherwise records the newer one's outcome and nothing else. */
  lemma {:induction false} LegacyRunAgrees(assembly: seq<TypeInfo>, behaviours: TypeInfo -> Behaviour, t: TypeInfo, args: seq<string>)
    ensures var n := Run(assembly, behaviours, t, args);
      var l := LegacyRun(assembly, behaviours, t, args);
      && (n.Failure? <==> l.error.Some?)
      && (n.Failure? ==> l.error == Some(n.error))
      && (n.Success? ==> Outcomes(l.events) == [n.value])
    decreases |args|, 1
  {
    var b := behaviours(t);
    var help := EvaluatePrintHelp(args, b.printHelpWithNoArgs);
    var count := if help then Success(0) else b.parseOptionArgs(args);
    if count.Success? {
      var inner :=
        if help then
          (match HelpText(assembly, behaviours, t)
           case Success(text) => Trace([Did(HelpPrinted(t, text))], None)
           case Failure(e) => Trace([], Some(e)))
        else if count.value > |args| then Trace([], Some(SliceOutOfRange))
        else if b.runsSubCommands then LegacyRunSubCommand(assembly, behaviours, t, args[count.value..])
        else Trace([Did(CommandRan(t, args[count.value..]))], None);
      if !help && count.value <= |args| && b.runsSubCommands {
        LegacySubRunAgrees(assembly, behaviours, t, args[count.value..]);
      }
      OutcomesAppend([PreCommandOps(t)], inner.events);
      OutcomesAppend([PreCommandOps(t)] + inner.events, [PostCommandOps(t)]);
      assert Outcomes([PreCommandOps(t)]) == [] && Outcomes([PostCommandOps(t)]) == [];
    }
  }

  lemma {:induction false} LegacySubRunAgrees(assembly: seq<TypeInfo>, behaviours: TypeInfo -> Behaviour, t: TypeInfo, commandArgs: seq<string>)
    ensures var n := RunSubCommand(assembly, behaviours, t, commandArgs);
      var l := LegacyRunSubCommand(assembly, behaviours, t, commandArgs);
      && (n.Failure? <==> l.error.Some?)
      && (n.Failure? ==> l.error == Some(n.error))
      && (n.Success? ==> Outcomes(l.events) == [n.value])
    decreases |commandArgs|, 0
  {
    if |commandArgs| > 0 {
      var subs := SubCommandTypes(assembly, t);
      SubCommandTypesAreCommands(assembly, t);
      match SelectSubCommand(subs, commandArgs[0])
      case None =>
      case Some(i) => LegacyRunAgrees(assembly, behaviours, subs[i], commandArgs[1..]);
    }
  }

  /** A run that does not throw brackets its outcome between the pre- and post-command
      operations of every command it passes through, the outermost first; and a command
      whose options cannot be parsed runs no operation at all. */
  lemma {:induction false} LegacyRunBracketed(assembly: seq<TypeInfo>, behaviours: TypeInfo -> Behaviour, t: TypeInfo, args: seq<string>)
    ensures var l := LegacyRun(assembly, behaviours, t, args);
      l.error.None? ==> Bracketed(l.events) && l.events[0] == PreCommandOps(t)
    ensures !EvaluatePrintHelp(args, behaviours(t).printHelpWithNoArgs) && behaviours(t).parseOptionArgs(args).Failure? ==>
      LegacyRun(assembly, behaviours, t, args).events == []
    decreases |args|, 1
  {
    var b := behaviours(t);
    var help := EvaluatePrintHelp(args, b.printHelpWithNoArgs);
    var count := if help then Success(0) else b.parseOptionArgs(args);
    if count.Success? {
      var inner :=
        if help then
          (match HelpText(assembly, behaviours, t)
           case Success(text) => Trace([Did(HelpPrinted(t, text))], None)
           case Failure(e) => Trace([], Some(e)))
        else if count.value > |args| then Trace([], Some(SliceOutOfRange))
        else if b.runsSubCommands then LegacyRunSubCommand(assembly, behaviours, t, args[count.value..])
        else Trace([Did(CommandRan(t, args[count.value..]))], None);
      if !help && count.value <= |args| && b.runsSubCommands {
        LegacySubRunBracketed(assembly, behaviours, t, args[count.value..]);
      }
      var events := [PreCommandOps(t)] + inner.events + [PostCommandOps(t)];
      assert events[1..|events| - 1] == inner.events;
    }
  }

  lemma {:induction false} LegacySubRunBracketed(assembly: seq<TypeInfo>, behaviours: TypeInfo -> Behaviour, t: TypeInfo, commandArgs: seq<string>)
    ensures var l := LegacyRunSubCommand(assembly, behaviours, t, commandArgs);
      l.error.None? ==> Bracketed(l.events)
    decreases |commandArgs|, 0
  {
    if |commandArgs| > 0 {
      var subs := SubCommandTypes(assembly, t);
      SubCommandTypesAreCommands(assembly, t);
      match SelectSubCommand(subs, commandArgs[0])
      case None =>
      case Some(i) => LegacyRunBracketed(assembly, behaviours, subs[i], commandArgs[1..]);
    }
  }
}
