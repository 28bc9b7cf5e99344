/** `CommandBase`, in both of its versions: deciding between help and running, consuming
    the option prefix, dispatching to a sub-command by name, and the help page.

    A command is known by its type. What each command type does on its own account is a
    `Behaviour`: its help texts, whether no arguments mean help, its `ParseOptionArgs` (the
    base one consumes nothing; a command with options runs its options table) and whether
    it runs a sub-command or is a leaf command that runs itself. The sub-command types come
    from the program's types, as `AvailableSubCommandTypes` finds them. */
module CommandBase {
  import opened Wrappers
  import opened Failures
  import opened CommandOptions
  import opened CommandNames
  import opened CommandHelp
  import Engine = CommandOptionsBase
  import OptionRequirements

  datatype Behaviour = Behaviour(
    description: string,
    usage: string,                                      // CommandUsageHelpString
    isRoot: bool,                                       // IsRootCommand
    printHelpWithNoArgs: bool,                          // PrintHelpWithNoArgs
    parseOptionArgs: seq<string> -> Result<nat, Error>, // ParseOptionArgs: the count consumed, or its exception
    optionsHelp: string,                                // what AppendOptionsHelp writes
    runsSubCommands: bool)                              // RunCommandAsync not overridden

  /** The base `ParseOptionArgs`: no option is consumed. */
  const NoOptions: seq<string> -> Result<nat, Error> := (args: seq<string>) => Success(0)

  /** What a run ends with, when it does not throw: the help page written, or a command
      running on the arguments it was given. */
  datatype Outcome = HelpPrinted(command: TypeInfo, text: string) | CommandRan(command: TypeInfo, commandArgs: seq<string>)

  /** `args[optionArgsCount..]` past the end of the arguments. */
  const SliceOutOfRange := ArgumentOutOfRangeError("", "")

  // ---------------------------------------------------------------------------------------
  // Help or run.

  /** `EvaluatePrintHelp`: no arguments when the command asks for help then, or a lone
      "-h" or "--help". */
  predicate EvaluatePrintHelp(args: seq<string>, printHelpWithNoArgs: bool) {
    (|args| == 0 && printHelpWithNoArgs) || (|args| == 1 && (args[0] == "-h" || args[0] == "--help"))
  }

  /** Help is asked for by at most one argument, and a help flag among other arguments does
      not ask for it. */
  lemma HelpFlagsStandAlone(args: seq<string>, printHelpWithNoArgs: bool)
    ensures EvaluatePrintHelp(args, printHelpWithNoArgs) ==> |args| <= 1
    ensures |args| == 1 ==> (EvaluatePrintHelp(args, printHelpWithNoArgs) <==> args[0] in ["-h", "--help"])
    ensures |args| == 0 ==> (EvaluatePrintHelp(args, printHelpWithNoArgs) <==> printHelpWithNoArgs)
  {
  }

  // ---------------------------------------------------------------------------------------
  // The help page.

  /** The sub-commands as the page lists them: each type's command name and description. */
  function Entries(types: seq<TypeInfo>, behaviours: TypeInfo -> Behaviour): (r: seq<CommandEntry>)
    requires forall i :: 0 <= i < |types| ==> types[i].isCommand
    ensures |r| == |types|
    ensures forall i :: 0 <= i < |r| ==>
      Success(r[i].name) == GetCommandNameFromType(types[i]) && r[i].description == behaviours(types[i]).description
  {
    seq(|types|, i requires 0 <= i < |types| => CommandEntry(GetCommandNameFromType(types[i]).value, behaviours(types[i]).description))
  }

  /** The page `PrintHelp` writes for a command with path `path`. */
  function HelpPage(path: string, b: Behaviour, entries: seq<CommandEntry>): string {
    (path + NewLine) + HelpBody(path, b, entries)
  }

  /** Everything after the path line. */
  function HelpBody(path: string, b: Behaviour, entries: seq<CommandEntry>): string {
    b.description + NewLine + NewLine
    + "Usage:  " + path + " " + b.usage + NewLine + NewLine
    + CommandsSection(entries)
    + b.optionsHelp
    + HelpFooter(path, b.isRoot)
  }

  function HelpFooter(path: string, isRoot: bool): string {
    "Run '" + path + " -h' or '" + path + " --help' to print help." + NewLine
    + (if isRoot then "Run '" + path + " COMMAND -h' or '" + path + " COMMAND --help' for more information on a command." + NewLine
       else "")
    + NewLine
  }

  /** `PrintHelp`'s output, or the exception of `CommandNamesPath`. */
  function HelpText(assembly: seq<TypeInfo>, behaviours: TypeInfo -> Behaviour, t: TypeInfo): Result<string, Error> {
    var path :- CommandNamesPath(t);
    SubCommandTypesAreCommands(assembly, t);
    Success(HelpPage(path, behaviours(t), Entries(SubCommandTypes(assembly, t), behaviours)))
  }

  /** The help page of a command can only fail for a command outside any namespace, with
      `InvalidOperationException`. */
  lemma HelpTextFails(assembly: seq<TypeInfo>, behaviours: TypeInfo -> Behaviour, t: TypeInfo)
    requires t.isCommand
    ensures HelpText(assembly, behaviours, t).Failure? <==> t.ns.None?
    ensures t.ns.None? ==> HelpText(assembly, behaviours, t) == Failure(DefaultInvalidOperation)
  {
  }

  /** The page starts with the command's path on a line of its own. */
  lemma HelpTextStartsWithPath(assembly: seq<TypeInfo>, behaviours: TypeInfo -> Behaviour, t: TypeInfo)
    requires HelpText(assembly, behaviours, t).Success?
    ensures var path := CommandNamesPath(t).value;
      var text := HelpText(assembly, behaviours, t).value;
      |text| > |path| && text[..|path| + 1] == path + NewLine
  {
    var path := CommandNamesPath(t).value;
    SubCommandTypesAreCommands(assembly, t);
    var body := HelpBody(path, behaviours(t), Entries(SubCommandTypes(assembly, t), behaviours));
    assert ((path + NewLine) + body)[..|path| + 1] == path + NewLine;
  }

  /** The page lists every available sub-command, and only those, in name order, each by its
      command name and with its description. */
  lemma HelpListsSubCommands(assembly: seq<TypeInfo>, behaviours: TypeInfo -> Behaviour, t: TypeInfo)
    requires HelpText(assembly, behaviours, t).Success?
    ensures var subs := SubCommandTypes(assembly, t);
      && SortedByName(subs)
      && (forall u :: u in subs <==> u in assembly && IsSubCommandType(t, u))
      && (forall i :: 0 <= i < |subs| ==> subs[i].isCommand)
      && HelpText(assembly, behaviours, t).value == HelpPage(CommandNamesPath(t).value, behaviours(t), Entries(subs, behaviours))
  {
    SubCommandTypesSpec(assembly, t);
    SubCommandTypesAreCommands(assembly, t);
  }

  /** The help page of a root command invites to ask for a sub-command's help. */
  lemma RootFooter(path: string)
    ensures var footer := HelpFooter(path, true);
      var line := "Run '" + path + " COMMAND -h' or '" + path + " COMMAND --help' for more information on a command." + NewLine;
      exists k :: 0 <= k <= |footer| - |line| && footer[k..][..|line|] == line
  {
    var first := "Run '" + path + " -h' or '" + path + " --help' to print help." + NewLine;
    var line := "Run '" + path + " COMMAND -h' or '" + path + " COMMAND --help' for more information on a command." + NewLine;
    var footer := HelpFooter(path, true);
    assert footer == first + line + NewLine;
    assert footer[|first|..][..|line|] == line;
  }

  /** `PrintHelp`: the pieces the `StringBuilder` receives, with `AvailableSubCommandTypes`
      through the command's cache; the path line is put in front once the rest is built. */
  method PrintHelp(cmd: Command, behaviours: TypeInfo -> Behaviour) returns (output: Result<string, Error>)
    requires cmd.Valid()
    modifies cmd
    ensures cmd.Valid()
    ensures output == HelpText(cmd.assembly, behaviours, cmd.commandType)
  {
    var path := CommandNamesPath(cmd.commandType);
    if path.Failure? {
      return Failure(path.error);
    }
    var b := behaviours(cmd.commandType);
    var pathLine := path.value + NewLine;
    var text := b.description + NewLine;
    text := text + NewLine;
    text := text + "Usage:  " + path.value + " " + b.usage + NewLine;
    text := text + NewLine;
    var subs := cmd.AvailableSubCommandTypes();
    SubCommandTypesAreCommands(cmd.assembly, cmd.commandType);
    var commands := AppendCommandsHelp(Entries(subs, behaviours));
    text := text + commands;
    text := text + b.optionsHelp;
    text := text + HelpFooter(path.value, b.isRoot);
    text := pathLine + text;
    output := Success(text);
  }

  // ---------------------------------------------------------------------------------------
  // Running, in the newer version.

  /** `RunAsync`: help, or the options consumed and the rest to `RunCommandAsync`, which
      either dispatches to a sub-command or is the command's own. */
  function Run(assembly: seq<TypeInfo>, behaviours: TypeInfo -> Behaviour, t: TypeInfo, args: seq<string>): Result<Outcome, Error>
    decreases |args|, 1
  {
    var b := behaviours(t);
    if EvaluatePrintHelp(args, b.printHelpWithNoArgs) then
      var text :- HelpText(assembly, behaviours, t);
      Success(HelpPrinted(t, text))
    else
      var count :- b.parseOptionArgs(args);
      if count > |args| then Failure(SliceOutOfRange)
      else if b.runsSubCommands then RunSubCommand(assembly, behaviours, t, args[count..])
      else Success(CommandRan(t, args[count..]))
  }

  function InvalidCommandMessage(path: string, name: string): string {
    path + ": '" + name + "' is not a valid command."
  }

  /** `RunSubCommandAsync`: the first argument names the sub-command, which runs on the rest. */
  function RunSubCommand(assembly: seq<TypeInfo>, behaviours: TypeInfo -> Behaviour, t: TypeInfo, commandArgs: seq<string>): Result<Outcome, Error>
    decreases |commandArgs|, 0
  {
    if |commandArgs| == 0 then Failure(ArgumentError("A command name is required"))
    else
      var subs := SubCommandTypes(assembly, t);
      SubCommandTypesAreCommands(assembly, t);
      match SelectSubCommand(subs, commandArgs[0])
      case None =>
        var path :- CommandNamesPath(t);
        Failure(ArgumentError(InvalidCommandMessage(path, commandArgs[0])))
      case Some(i) => Run(assembly, behaviours, subs[i], commandArgs[1..])
  }

  /** When help is asked for, the page is all that happens: the options are not parsed (the
      outcome is the same whatever `ParseOptionArgs` would do) and no command runs. */
  lemma HelpDoesNotParse(
    assembly: seq<TypeInfo>, behaviours: TypeInfo -> Behaviour, t: TypeInfo, args: seq<string>,
    otherParse: seq<string> -> Result<nat, Error>)
    requires EvaluatePrintHelp(args, behaviours(t).printHelpWithNoArgs)
    ensures var others := (u: TypeInfo) => if u == t then behaviours(u).(parseOptionArgs := otherParse) else behaviours(u);
      && Run(assembly, behaviours, t, args) == Run(assembly, others, t, args)
      && (Run(assembly, behaviours, t, args).Success? ==> Run(assembly, behaviours, t, args).value == HelpPrinted(t, HelpText(assembly, behaviours, t).value))
  {
    var others := (u: TypeInfo) => if u == t then behaviours(u).(parseOptionArgs := otherParse) else behaviours(u);
    SubCommandTypesAreCommands(assembly, t);
    var subs := SubCommandTypes(assembly, t);
    assert Entries(subs, behaviours) == Entries(subs, others);
  }

  /** `|cargs|` trailing arguments of `args`. */
  predicate IsSuffix(cargs: seq<string>, args: seq<string>) {
    |cargs| <= |args| && cargs == args[|args| - |cargs|..]
  }

  lemma SuffixTransitive(a: seq<string>, b: seq<string>, c: seq<string>)
    requires IsSuffix(a, b) && IsSuffix(b, c)
    ensures IsSuffix(a, c)
  {
    assert b[|b| - |a|..] == c[|c| - |b|..][|b| - |a|..];
  }

  /** A command that runs gets the trailing part of the command line: options and command
      names are only ever taken from the front. */
  lemma {:induction false} RunForwardsSuffix(assembly: seq<TypeInfo>, behaviours: TypeInfo -> Behaviour, t: TypeInfo, args: seq<string>)
    ensures Run(assembly, behaviours, t, args).Success? && Run(assembly, behaviours, t, args).value.CommandRan? ==>
      IsSuffix(Run(assembly, behaviours, t, args).value.commandArgs, args)
    decreases |args|, 1
  {
    var b := behaviours(t);
    if !EvaluatePrintHelp(args, b.printHelpWithNoArgs) && b.parseOptionArgs(args).Success? {
      var count := b.parseOptionArgs(args).value;
      if count <= |args| {
        assert args[count..] == args[|args| - |args[count..]|..];
        if b.runsSubCommands {
          SubRunForwardsSuffix(assembly, behaviours, t, args[count..]);
          var r := RunSubCommand(assembly, behaviours, t, args[count..]);
          if r.Success? && r.value.CommandRan? {
            SuffixTransitive(r.value.commandArgs, args[count..], args);
          }
        }
      }
    }
  }

  lemma {:induction false} SubRunForwardsSuffix(assembly: seq<TypeInfo>, behaviours: TypeInfo -> Behaviour, t: TypeInfo, commandArgs: seq<string>)
    ensures RunSubCommand(assembly, behaviours, t, commandArgs).Success? && RunSubCommand(assembly, behaviours, t, commandArgs).value.CommandRan? ==>
      IsSuffix(RunSubCommand(assembly, behaviours, t, commandArgs).value.commandArgs, commandArgs)
    decreases |commandArgs|, 0
  {
    if |commandArgs| > 0 {
      var subs := SubCommandTypes(assembly, t);
      SubCommandTypesAreCommands(assembly, t);
      var sel := SelectSubCommand(subs, commandArgs[0]);
      if sel.Some? {
        RunForwardsSuffix(assembly, behaviours, subs[sel.value], commandArgs[1..]);
        var r := Run(assembly, behaviours, subs[sel.value], commandArgs[1..]);
        if r.Success? && r.value.CommandRan? {
          assert commandArgs[1..] == commandArgs[|commandArgs| - |commandArgs[1..]|..];
          SuffixTransitive(r.value.commandArgs, commandArgs[1..], commandArgs);
        }
      }
    }
  }

  /** The dispatch rule: no name throws, an unknown name throws with the command's path,
      and a known one runs the first sub-command of that name, in name order, on the rest. */
  lemma SubCommandDispatch(assembly: seq<TypeInfo>, behaviours: TypeInfo -> Behaviour, t: TypeInfo, commandArgs: seq<string>)
    requires t.isCommand
    ensures |commandArgs| == 0 ==>
      RunSubCommand(assembly, behaviours, t, commandArgs) == Failure(ArgumentError("A command name is required"))
    ensures |commandArgs| > 0 && t.ns.Some? &&
            (forall u :: u in SubCommandTypes(assembly, t) ==> GetCommandNameFromType(u) != Success(commandArgs[0])) ==>
      RunSubCommand(assembly, behaviours, t, commandArgs) ==
        Failure(ArgumentError(InvalidCommandMessage(CommandNamesPath(t).value, commandArgs[0])))
    ensures forall i :: (0 <= i < |SubCommandTypes(assembly, t)| && |commandArgs| > 0 &&
            GetCommandNameFromType(SubCommandTypes(assembly, t)[i]) == Success(commandArgs[0]) &&
            (forall j :: 0 <= j < i ==> GetCommandNameFromType(SubCommandTypes(assembly, t)[j]) != Success(commandArgs[0]))) ==>
      RunSubCommand(assembly, behaviours, t, commandArgs) == Run(assembly, behaviours, SubCommandTypes(assembly, t)[i], commandArgs[1..])
  {
    var subs := SubCommandTypes(assembly, t);
    SubCommandTypesAreCommands(assembly, t);
    if |commandArgs| > 0 {
      var sel := SelectSubCommand(subs, commandArgs[0]);
      if sel.Some? {
        assert subs[sel.value] in subs;
        forall i | 0 <= i < |subs| && GetCommandNameFromType(subs[i]) == Success(commandArgs[0]) &&
            (forall j :: 0 <= j < i ==> GetCommandNameFromType(subs[j]) != Success(commandArgs[0]))
          ensures i == sel.value
        {
        }
      } else {
        forall i | 0 <= i < |subs|
          ensures GetCommandNameFromType(subs[i]) != Success(commandArgs[0])
        {
        }
      }
    }
  }

  /** A command whose `ParseOptionArgs` is its options table's `ParseArgs` never slices past
      the end of its arguments: the command gets the arguments after the option prefix. */
  lemma OptionsParseStaysInRange<S, A>(
    defs: seq<CommandOption<A>>,
    reqs: seq<OptionRequirements.Requirement>,
    apply: (S, A, seq<string>) -> Result<S, Error>,
    tryParse: string -> Option<real>,
    s0: S,
    args: seq<string>)
    requires Engine.ParseArgsSpec(defs, reqs, apply, tryParse, s0, args).result.Success?
    ensures var count := Engine.ParseArgsSpec(defs, reqs, apply, tryParse, s0, args).result.value;
      && count <= |args|
      && Engine.Tokens(Engine.ParseArgsSpec(defs, reqs, apply, tryParse, s0, args).found) + args[count..] == args
  {
    Engine.ParseArgsSuccess(defs, reqs, apply, tryParse, s0, args);
    var count := Engine.ParseArgsSpec(defs, reqs, apply, tryParse, s0, args).result.value;
    assert args[..count] + args[count..] == args;
  }
}
