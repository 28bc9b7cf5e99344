# Etherna gateway CLI — a verified Dafny model

This project models the core of the Etherna gateway command-line client. It covers four parts:

- **The option engine.** Option definitions with their name checks, and the `ParseArgs` prefix parser. It also covers the family of option requirements: exclusive, forbidden, require-one-of, if-present-then, range, max, max-value and min-value.
- **The two command bases.** The newer `Models/Commands/CommandBase` and the older `Commands/CommandBase` are both modelled. Each has help evaluation, command names derived from type names and namespaces, sub-command dispatch, and the help page with its column padding.
- **The option tables.** The option tables of the upload, chunk upload, postage create, resource fund and resource defund commands.
- **Postage batches and uploads.** The gateway service (batch sizing, creation, and its two polling loops) and the postage batch service (depth of a set of paths, and the buy-or-reuse choice with its confirmation prompt). Also the two upload commands: the per-file retry loop, and the resumable chunk upload in slices of 500 with its consecutive-failure retry counter.

The form of the model follows the source:

- Pure C# (queries, conditionals, string building) becomes Dafny functions and lemmas.
- Loops that update variables become methods with loop invariants, proved equal to a specification function.
- Objects updated in place are classes: the option tables' settings, the sub-command cache and the postage bucket counter.

The remote gateway, the clock, the keyboard and the file system are given as values. Each is an answer function indexed by the call number, or a listing. Everything the code asks of them, with the answer, is returned as an event log, so lemmas can state what was sent, in which order, and what was never sent.

Modules (one per file): `Wrappers`, `Failures`, `Text`, `CommandOptions`, `OptionRequirementBase`, one module per requirement, `OptionRequirements`, `CommandOptionsBase`, `EthernaUploadOptions`, `ChunkUploadOptions`, `PostageCreateOptions`, `ResourceFundOptions`, `ResourceDefundOptions`, `CommandNames`, `CommandHelp`, `CommandBase`, `LegacyCommandBase`, `GatewayService`, `PurchasePrompt`, `PostageBatchService`, `EthernaUploadCommand`, `ChunkUploadCommand`.

## Model

| member | source | states |
|---|---|---|
| CommandOptions.NewCommandOption | src/EthernaGatewayCli/Models/Commands/CommandOption.cs:24-46 | construction succeeds iff the short name is absent or `-` plus one ASCII letter or digit, and the long name is `--` plus one or more of `[A-Za-z0-9-]`, each optionally followed by one final line break as .NET's `$` allows; the short-name check comes first with its own message; on success the five properties are the arguments unchanged |
| CommandOptions.ShortAndLongNamesAreDisjointOptionTokens | src/EthernaGatewayCli/Models/Commands/CommandOption.cs:24-25 | no name is both a valid short and a valid long name, and every valid name starts with `-` (so the parser sees it as an option) |
| CommandOptions.FirstMatching | src/EthernaGatewayCli/Models/Commands/CommandOptionsBase.cs:49 | the index of the first definition whose short or long name equals the query; none before it matches; `None` iff no definition matches |
| CommandOptions.FindOptionByName | src/EthernaGatewayCli/Models/Commands/CommandOptionsBase.cs:29-30 | succeeds iff some definition matches by short or long name, and returns the first such one; otherwise the `First` exception |
| OptionRequirementBase.TryFindParsedOption | src/EthernaGatewayCli/Models/Commands/OptionRequirements/OptionRequirementBase.cs:35-44 | no match gives `false`/null; exactly one match (by the definition's short or long name, not the typed name) gives that parsed option; two or more matches throw as `SingleOrDefault` does |
| OptionRequirementBase.CountMatchesZero | src/EthernaGatewayCli/Models/Commands/OptionRequirements/OptionRequirementBase.cs:40-42 | no parsed option matches a name iff the match count is zero |
| OptionRequirementBase.AnyFound | src/EthernaGatewayCli/Models/Commands/OptionRequirements/ForbiddenOptionRequirement.cs:31 | `OptionsNames.Any(TryFindParsedOption)`: `false` iff no listed name is present, `true` only if one is present once, and an exception only when some name is ambiguous |
| OptionRequirementBase.CountFound | src/EthernaGatewayCli/Models/Commands/OptionRequirements/ExclusiveOptionRequirement.cs:32 | `OptionsNames.Count(TryFindParsedOption)`: the number of listed names present, unless one is ambiguous, which throws |
| OptionRequirementBase.NumPresentZero | src/EthernaGatewayCli/Models/Commands/OptionRequirements/ExclusiveOptionRequirement.cs:32 | no listed name is present iff each has zero matches |
| OptionRequirementBase.TypedNamesOfListed | src/EthernaGatewayCli/Models/Commands/OptionRequirements/ExclusiveOptionRequirement.cs:34-37 | the typed names of the parsed options whose definition is listed by short or long name, in parse order: every result is such a name and every such option's name is in the result |
| OptionRequirementBase.PresentNameIsListed | src/EthernaGatewayCli/Models/Commands/OptionRequirements/ForbiddenOptionRequirement.cs:33-36 | when a listed name is present, the list of offending typed names is not empty |
| OptionRequirementBase.LongNamesOf | src/EthernaGatewayCli/Models/Commands/OptionRequirements/ExclusiveOptionRequirement.cs:26 | the long names of the listed options' definitions, in the listed order; throws iff some listed name is not defined |
| OptionRequirementBase.ValidateFirstArgument | src/EthernaGatewayCli/Models/Commands/OptionRequirements/MaxValueOptionRequirement.cs:34-50 | absent option: no error; ambiguous: exception; present once: the verdict on its first argument; never more than one error |
| ExclusiveOptionRequirement.PrintHelpLine | src/EthernaGatewayCli/Models/Commands/OptionRequirements/ExclusiveOptionRequirement.cs:25-26 | the listed options' long names in the sentence; throws iff a listed name is not defined |
| ExclusiveOptionRequirement.ValidateOptions | src/EthernaGatewayCli/Models/Commands/OptionRequirements/ExclusiveOptionRequirement.cs:28-47 | no error iff fewer than two listed options are present; otherwise exactly one error naming the present ones by typed name in parse order, "... are mutual exclusive."; ambiguity throws |
| ForbiddenOptionRequirement.PrintHelpLine | src/EthernaGatewayCli/Models/Commands/OptionRequirements/ForbiddenOptionRequirement.cs:25-27 | the listed long names, singular or plural sentence; throws iff a listed name is not defined |
| ForbiddenOptionRequirement.ValidateOptions | src/EthernaGatewayCli/Models/Commands/OptionRequirements/ForbiddenOptionRequirement.cs:29-46 | no error iff none of the listed options is present; otherwise exactly one error with the present typed names in parse order; an exception only on ambiguity |
| ForbiddenOptionRequirement.ErrorNamesSomething | src/EthernaGatewayCli/Models/Commands/OptionRequirements/ForbiddenOptionRequirement.cs:31-38 | an error is only raised when at least one typed name is in it |
| RequireOneOfOptionRequirement.PrintHelpLine | src/EthernaGatewayCli/Models/Commands/OptionRequirements/RequireOneOfOptionRequirement.cs:24-26 | long names joined by ", " with "is required." for one name and "at least one is required." otherwise; throws iff a name is not defined |
| RequireOneOfOptionRequirement.ValidateOptions | src/EthernaGatewayCli/Models/Commands/OptionRequirements/RequireOneOfOptionRequirement.cs:28-33 | no error iff some listed option is present (without ambiguity); with none present, exactly one error equal to the help line |
| IfPresentThenOptionRequirement.PrintHelpLine | src/EthernaGatewayCli/Models/Commands/OptionRequirements/IfPresentThenOptionRequirement.cs:27-35 | the trigger's long name composed with the inner help line; throws if the trigger is undefined or the inner help throws |
| IfPresentThenOptionRequirement.ValidateOptions | src/EthernaGatewayCli/Models/Commands/OptionRequirements/IfPresentThenOptionRequirement.cs:37-52 | trigger absent: no error and the inner verdict is not used; present once: the inner errors, each prefixed "If {name} is present then"; ambiguous: exception |
| RangeOptionRequirement.NewRange | src/EthernaGatewayCli/Models/Commands/OptionRequirements/RangeOptionRequirement.cs:24-33 | the constructor succeeds iff min < max, and stores its arguments; a requirement's range can only be one with min < max |
| RangeOptionRequirement.PrintHelpLine | src/EthernaGatewayCli/Models/Commands/OptionRequirements/RangeOptionRequirement.cs:40-46 | the long name followed by the bounds; throws iff the option is not defined |
| RangeOptionRequirement.ValidateOptions | src/EthernaGatewayCli/Models/Commands/OptionRequirements/RangeOptionRequirement.cs:48-64 | absent: no error; unparsable first argument: one "Invalid argument value" error; min <= v <= max (inclusive): no error, otherwise one bounds error; no argument: the `First` exception |
| MaxOptionRequirement.PrintHelpLine | src/EthernaGatewayCli/Models/Commands/OptionRequirements/MaxOptionRequirement.cs:30-36 | the long name with ": max value"; throws iff undefined |
| MaxOptionRequirement.ValidateOptions | src/EthernaGatewayCli/Models/Commands/OptionRequirements/MaxOptionRequirement.cs:38-54 | absent: no error; unparsable: one invalid-value error; v <= max: none, otherwise one error on the typed name |
| MaxValueOptionRequirement.PrintHelpLine | src/EthernaGatewayCli/Models/Commands/OptionRequirements/MaxValueOptionRequirement.cs:27-32 | the max-value sentence on the long name; throws iff undefined |
| MaxValueOptionRequirement.ValidateOptions | src/EthernaGatewayCli/Models/Commands/OptionRequirements/MaxValueOptionRequirement.cs:34-53 | absent: no error; unparsable: one invalid-value error; v <= max: none, otherwise one "{typed name} has max value {max}." |
| MinValueOptionRequirement.PrintHelpLine | src/EthernaGatewayCli/Commands/Etherna/Postage/CreateCommandOptions.cs:38-39 | the min-value sentence on the long name; throws iff undefined |
| MinValueOptionRequirement.ValidateOptions | src/EthernaGatewayCli/Commands/Etherna/Postage/CreateCommandOptions.cs:38-39 | absent: no error; unparsable: one invalid-value error; v >= min: none, otherwise one min-value error |
| MinValueOptionRequirement.MinValueVerdict | src/EthernaGatewayCli/Commands/Etherna/Postage/CreateCommandOptions.cs:38-39 | with the option at most once and carrying its argument, the requirement never throws and reports nothing iff the minimum holds |
| OptionRequirements.OptionsNames | src/EthernaGatewayCli/Models/Commands/OptionRequirements/OptionRequirementBase.cs:24 | the names given at construction for list requirements, the one option name for the others |
| OptionRequirements.ValidateAllOne | src/EthernaGatewayCli/Models/Commands/CommandOptionsBase.cs:71 | the errors of a single requirement are that requirement's errors |
| OptionRequirements.ValidateAllCons | src/EthernaGatewayCli/Models/Commands/CommandOptionsBase.cs:71 | `SelectMany`: the first exception stops the evaluation, otherwise the errors are concatenated in requirement order |
| OptionRequirements.ValidateAllEmpty | src/EthernaGatewayCli/Models/Commands/CommandOptionsBase.cs:71-72 | no error at all iff every requirement reports no error |
| OptionRequirements.ValidateAllSucceeds | src/EthernaGatewayCli/Models/Commands/CommandOptionsBase.cs:71 | no exception when no requirement throws |
| OptionRequirements.ValidateAllCollects | src/EthernaGatewayCli/Models/Commands/CommandOptionsBase.cs:71 | every error of every requirement is among the errors collected |
| OptionRequirements.IfPresentThenAbsentTrigger | src/EthernaGatewayCli/Models/Commands/OptionRequirements/IfPresentThenOptionRequirement.cs:41-42 | an absent trigger gives no error whatever the inner requirement |
| OptionRequirements.IfPresentThenPresentTrigger | src/EthernaGatewayCli/Models/Commands/OptionRequirements/IfPresentThenOptionRequirement.cs:44-52 | a present trigger gives as many errors as the inner requirement, each "If {trigger} is present then {inner}" |
| CommandOptionsBase.NextTurn | src/EthernaGatewayCli/Models/Commands/CommandOptionsBase.cs:44-67 | one loop turn: stop at the end or at a non-option; otherwise the first matching definition, no duplicate by either name, enough arguments left, the callback applied to exactly the next k arguments, and the option recorded with its typed name |
| CommandOptionsBase.NextTurnErrors | src/EthernaGatewayCli/Models/Commands/CommandOptionsBase.cs:49-59 | the turn stops with "{name} is not a valid option", "{name} option is duplicate" or "{name} requires {k} args: {lower-cased type names}", checked in that order |
| CommandOptionsBase.ParseArgs | src/EthernaGatewayCli/Models/Commands/CommandOptionsBase.cs:37-84 | the `while` loop and requirement check equal the specification of the parse: same settings, same found options, same count or exception, same reported errors |
| CommandOptionsBase.ScanFromKeeps | src/EthernaGatewayCli/Models/Commands/CommandOptionsBase.cs:44-68 | the loop keeps its invariant: the settings are the callbacks folded over the found options, and options found earlier stay recorded in order |
| CommandOptionsBase.ScanFromWellFound | src/EthernaGatewayCli/Models/Commands/CommandOptionsBase.cs:49-67 | every recorded option is a definition, typed by one of its names, with exactly its required number of arguments |
| CommandOptionsBase.ScanFromConsumes | src/EthernaGatewayCli/Models/Commands/CommandOptionsBase.cs:42-46 | the recorded names and arguments are a prefix of the arguments; on success the count is that prefix's length, at most the argument count, and stops at the end or at a non-option |
| CommandOptionsBase.ScanFound | src/EthernaGatewayCli/Models/Commands/CommandOptionsBase.cs:44-68 | from the start: well-found options, no definition recorded twice, settings equal to the callbacks' fold, tokens a prefix of the arguments |
| CommandOptionsBase.ParseArgsSuccess | src/EthernaGatewayCli/Models/Commands/CommandOptionsBase.cs:71-83 | a parse that returns consumed exactly a prefix of options, each definition once, with every requirement satisfied and nothing reported |
| CommandOptionsBase.ParseArgsState | src/EthernaGatewayCli/Models/Commands/CommandOptionsBase.cs:62-64 | whatever the outcome, the settings are the callbacks applied in order to the recorded options |
| CommandOptionsBase.DistinctNamesOfValid | src/EthernaGatewayCli/Models/Commands/CommandOption.cs:24-25 | valid definitions with distinct long names and distinct short names never share a name |
| CommandOptionsBase.NoAmbiguity | src/EthernaGatewayCli/Models/Commands/OptionRequirements/OptionRequirementBase.cs:40-42 | with distinct names and no definition recorded twice, no name matches two parsed options, so `SingleOrDefault` cannot throw |
| CommandOptionsBase.ScanNotAmbiguous | src/EthernaGatewayCli/Models/Commands/CommandOptionsBase.cs:54-55 | the duplicate check makes every name match at most one found option |
| CommandOptionsBase.FoundWith | src/EthernaGatewayCli/Models/Commands/CommandOptionsBase.cs:67 | the position of the first found option with a given callback; none before it has that callback |
| CommandOptionsBase.FoldWrites | src/EthernaGatewayCli/Models/Commands/CommandOptionsBase.cs:64 | a field only its own callback writes keeps its default unless that option was found, and otherwise holds what the callback wrote from that option's arguments |
| CommandOptionsBase.OneOptionPerCallback | src/EthernaGatewayCli/Models/Commands/CommandOptionsBase.cs:54-55 | with distinct callbacks, the found option with a callback is the only one |
| LegacyCommandBase.ParseOptionArgs | src/EthernaGatewayCli/Commands/CommandBase.cs:105-136 | the older loop computes the same settings and the same count or exception as the options engine's loop |
| LegacyCommandBase.NoRequirementsIsLegacyLoop | src/EthernaGatewayCli/Models/Commands/CommandOptionsBase.cs:37-84 | the newer `ParseArgs` with no requirements is the older loop: same state, same result, nothing reported |
| LegacyCommandBase.AnyMatchesOfFound | src/EthernaGatewayCli/Commands/CommandBase.cs:121-122 | the older duplicate check on found definitions is the newer one on parsed options |
| LegacyCommandBase.LegacyRunAgrees | src/EthernaGatewayCli/Commands/CommandBase.cs:80-97 | the older `RunAsync` throws exactly when the newer one does, with the same exception, and otherwise records the newer one's outcome and no other |
| LegacyCommandBase.LegacySubRunAgrees | src/EthernaGatewayCli/Commands/CommandBase.cs:253-269 | the older dispatch agrees with the newer one in the same sense |
| LegacyCommandBase.LegacyRunBracketed | src/EthernaGatewayCli/Commands/CommandBase.cs:80-97 | a run that does not throw starts with the pre-command operations and brackets every outcome between pre- and post-command operations; options that fail to parse run no operation |
| LegacyCommandBase.LegacySubRunBracketed | src/EthernaGatewayCli/Commands/CommandBase.cs:253-269 | a dispatched run that does not throw is bracketed |
| CommandBase.HelpFlagsStandAlone | src/EthernaGatewayCli/Models/Commands/CommandBase.cs:139-157 | help is asked by no arguments iff `PrintHelpWithNoArgs`, or by one argument iff it is `-h` or `--help`; never with two or more |
| CommandBase.HelpTextFails | src/EthernaGatewayCli/Models/Commands/CommandBase.cs:56-62 | the help page fails only for a command outside any namespace, with `InvalidOperationException` and .NET's default message |
| CommandBase.HelpTextStartsWithPath | src/EthernaGatewayCli/Models/Commands/CommandBase.cs:165 | the page starts with the command path on its own line |
| CommandBase.HelpListsSubCommands | src/EthernaGatewayCli/Models/Commands/CommandBase.cs:174-190 | the page lists exactly the available sub-commands, sorted by name, each with its name and description |
| CommandBase.RootFooter | src/EthernaGatewayCli/Models/Commands/CommandBase.cs:196-198 | a root command's page contains the "COMMAND -h" hint line |
| CommandBase.PrintHelp | src/EthernaGatewayCli/Models/Commands/CommandBase.cs:160-204 | the output built through the command's cache equals the help page specification |
| CommandBase.HelpDoesNotParse | src/EthernaGatewayCli/Models/Commands/CommandBase.cs:81-86 | when help is asked the options are not parsed (any parser gives the same run) and the outcome is the help page |
| CommandBase.RunForwardsSuffix | src/EthernaGatewayCli/Models/Commands/CommandBase.cs:78-89 | a command that runs receives a trailing part of the command line |
| CommandBase.SubRunForwardsSuffix | src/EthernaGatewayCli/Models/Commands/CommandBase.cs:107-125 | the same through sub-command dispatch |
| CommandBase.SubCommandDispatch | src/EthernaGatewayCli/Models/Commands/CommandBase.cs:107-125 | no arguments: "A command name is required"; an unknown name: the invalid-command message with the path; otherwise the first sub-command of that name (in name order) runs on the rest |
| CommandBase.OptionsParseStaysInRange | src/EthernaGatewayCli/Models/Commands/CommandBase.cs:82-88 | with `ParseArgs` as `ParseOptionArgs`, the count is within the arguments and the option tokens followed by what the command receives are the whole command line |
| CommandHelp.MaxNameLengthAttained | src/EthernaGatewayCli/Models/Commands/CommandBase.cs:180 | the maximum name length bounds every name and is some name's length |
| CommandHelp.MaxNameLength | src/EthernaGatewayCli/Models/Commands/CommandBase.cs:180 | no sub-command name is longer than the maximum |
| CommandHelp.CommandLineLayout | src/EthernaGatewayCli/Models/Commands/CommandBase.cs:183-187 | a sub-command line: two spaces, the name, only spaces up to column 2+shift, the description there, a line break |
| CommandHelp.CommandDescriptionsAligned | src/EthernaGatewayCli/Models/Commands/CommandBase.cs:180-187 | every sub-command description starts at the same column, at least four spaces after each name and exactly four after the longest |
| CommandHelp.AppendSpaces | src/EthernaGatewayCli/Models/Commands/CommandBase.cs:185-186 | the padding loop appends exactly k spaces |
| CommandHelp.AppendCommandsHelp | src/EthernaGatewayCli/Models/Commands/CommandBase.cs:175-190 | the sub-commands part built by the loops equals the commands section specification |
| CommandHelp.AppendCommandLines | src/EthernaGatewayCli/Models/Commands/CommandBase.cs:181-188 | the loop over sub-commands builds their lines in order |
| CommandHelp.AppendCommandLine | src/EthernaGatewayCli/Models/Commands/CommandBase.cs:183-187 | one iteration builds that sub-command's line |
| CommandHelp.OptionHelpWidth | src/EthernaGatewayCli/Models/Commands/CommandBase.cs:229-235 | the width loop counts the long name and one plus each type name |
| CommandHelp.MaxOptionWidthAttained | src/EthernaGatewayCli/Models/Commands/CommandBase.cs:229-235 | the maximum width bounds every option's width and is attained |
| CommandHelp.ArgTypesTextWidth | src/EthernaGatewayCli/Models/Commands/CommandBase.cs:238-245 | the type names written after an option are as wide as the width loop counts |
| CommandHelp.MaxOptionWidth | src/EthernaGatewayCli/Models/Commands/CommandBase.cs:229-235 | no option is wider than the maximum |
| CommandHelp.OptionLineLayout | src/EthernaGatewayCli/Models/Commands/CommandBase.cs:238-249 | an option line: only spaces between the types and the description, which starts shift columns after the short-name column; the line break last |
| CommandHelp.ValidShortNameIsNarrow | src/EthernaGatewayCli/Models/Commands/CommandOption.cs:24 | a valid short name without a trailing line break makes a four-wide short-name column, as the absent one does |
| CommandHelp.OptionDescriptionsAligned | src/EthernaGatewayCli/Models/Commands/CommandBase.cs:236-249 | with narrow short names every option description starts at column 6+shift |
| CommandHelp.OptionGaps | src/EthernaGatewayCli/Models/Commands/CommandBase.cs:229-247 | the shift covers every width, leaves at least four spaces before every description and exactly four after the widest |
| CommandHelp.OptionsShift | src/EthernaGatewayCli/Models/Commands/CommandBase.cs:229-235 | the computed shift is the maximum width plus four |
| CommandHelp.AppendOptionsHelp | src/EthernaGatewayCli/Models/Commands/CommandBase.cs:222-253 | the options part built by the loops equals the options section specification |
| CommandHelp.AppendOptionLines | src/EthernaGatewayCli/Models/Commands/CommandBase.cs:236-250 | the loop over options builds their lines in order |
| CommandHelp.AppendOptionLine | src/EthernaGatewayCli/Models/Commands/CommandBase.cs:238-249 | one iteration builds that option's line |
| CommandNames.GetCommandNameFromType | src/EthernaGatewayCli/Models/Commands/CommandBase.cs:128-136 | succeeds iff the type is a command, else "is not a command type"; the name is lower case and no longer than the type name |
| CommandNames.RemoveSuffixedWord | src/EthernaGatewayCli/Models/Commands/CommandBase.cs:135 | removing "Command" from `<Base>Command` with no other occurrence gives `<Base>` |
| CommandNames.CommandNameOfSuffixedType | src/EthernaGatewayCli/Models/Commands/CommandBase.cs:135 | the command of type `<Base>Command` is named by its base lower-cased |
| CommandNames.CommandNameIsLowerCase | src/EthernaGatewayCli/Models/Commands/CommandBase.cs:135 | command names are fixed points of lower-casing |
| CommandNames.SubCommandCandidates | src/EthernaGatewayCli/Models/Commands/CommandBase.cs:45-49 | exactly the non-abstract command classes of the assembly in the namespace named after the command |
| CommandNames.SortByNameSorts | src/EthernaGatewayCli/Models/Commands/CommandBase.cs:50 | the ordering by name is sorted, in ordinal order in place of the default culture-sensitive comparer |
| CommandNames.SortByNamePermutes | src/EthernaGatewayCli/Models/Commands/CommandBase.cs:50 | the ordering keeps every type, as many times as given |
| CommandNames.InsertByName | src/EthernaGatewayCli/Models/Commands/CommandBase.cs:50 | inserting a type into a list adds exactly that type |
| CommandNames.InsertByNameSorted | src/EthernaGatewayCli/Models/Commands/CommandBase.cs:50 | inserting into a list sorted by name keeps it sorted |
| CommandNames.SubCommandTypesSpec | src/EthernaGatewayCli/Models/Commands/CommandBase.cs:39-55 | the available sub-commands are sorted by name and are exactly the matching types of the assembly |
| CommandNames.Command.constructor | src/EthernaGatewayCli/Models/Commands/CommandBase.cs:29-36 | a command starts with its type, its assembly and an empty cache |
| CommandNames.Command.AvailableSubCommandTypes | src/EthernaGatewayCli/Models/Commands/CommandBase.cs:39-55 | the lazily cached property returns the specified sub-command types and fills the cache with them |
| CommandNames.SelectSubCommand | src/EthernaGatewayCli/Models/Commands/CommandBase.cs:117-118 | the first sub-command whose command name equals the given name; none before it; `None` iff none matches |
| CommandNames.SubCommandTypesAreCommands | src/EthernaGatewayCli/Models/Commands/CommandBase.cs:49 | every available sub-command type is a command type |
| CommandNames.TrailingNonCommands | src/EthernaGatewayCli/Models/Commands/CommandBase.cs:66 | the longest trailing run with no "commands" part, preceded by a "commands" part when shorter than the whole |
| CommandNames.LastCommandsEnd | src/EthernaGatewayCli/Models/Commands/CommandBase.cs:66 | the position after the last "commands" part, with none after it |
| CommandNames.CommandNamesPath | src/EthernaGatewayCli/Models/Commands/CommandBase.cs:56-69 | no namespace throws `InvalidOperationException` with .NET's default message; a non-command type throws as `Name` does; success only for a command in a namespace |
| CommandNames.CommandNamesPathParts | src/EthernaGatewayCli/Models/Commands/CommandBase.cs:64-68 | splitting the path at spaces gives the lower-cased namespace parts after the last "commands" and then the command name |
| Text.JoinSplit | src/EthernaGatewayCli/Models/Commands/CommandBase.cs:64 | joining the pieces of a split with the separator gives the text back |
| Text.SplitPiecesHaveNoSeparator | src/EthernaGatewayCli/Models/Commands/CommandBase.cs:64 | no piece of a split contains the separator |
| Text.RemoveAllWithoutOccurrence | src/EthernaGatewayCli/Models/Commands/CommandBase.cs:135 | `Replace` with no occurrence leaves the text unchanged |
| Text.ToLowerIdempotent | src/EthernaGatewayCli/Models/Commands/CommandBase.cs:65 | lower-casing twice is lower-casing once |
| Text.ToLower | src/EthernaGatewayCli/Models/Commands/CommandBase.cs:65 | every character is mapped by the ASCII lower-casing, same length, no ASCII upper-case letter left |
| Text.DigitsValueOfNatToString | src/EthernaGatewayCli/Models/Commands/CommandOptionsBase.cs:59 | the decimal text of the argument count denotes that count |
| Text.NatToString | src/EthernaGatewayCli/Models/Commands/CommandOptionsBase.cs:59 | a non-empty decimal text of digits |
| Text.ParseInt32 | src/EthernaGatewayCli/Commands/Etherna/Postage/CreateCommandOptions.cs:29 | `int.Parse`: a value parsed is within the 32-bit range |
| Text.ParseInt32OfNatToString | src/EthernaGatewayCli/Commands/Etherna/Postage/CreateCommandOptions.cs:29 | every 32-bit natural's decimal text parses back to it |
| OptionCallbacks.FromDays | src/EthernaGatewayCli/Commands/Etherna/UploadCommandOptions.cs:33 | a day count is accepted iff its ticks (864,000,000,000 per day) fit in a signed 64-bit long, and is kept unchanged |
| EthernaUploadOptions.Apply | src/EthernaGatewayCli/Commands/Etherna/UploadCommandOptions.cs:30-35 | each callback writes its own property only: `--postage`/`--label` store the argument, `--ttl` its 32-bit parse when that many days fit in a `TimeSpan` (an exception otherwise), `-A`/`--offer` set and `--no-pin` clears their flag |
| EthernaUploadOptions.TtlWithinTimeSpan | src/EthernaGatewayCli/Commands/Etherna/UploadCommandOptions.cs:33 | `--ttl n` is accepted iff n <= 10,675,199 days, the most `TimeSpan.FromDays` holds |
| EthernaUploadOptions.UploadCommandOptions.constructor | src/EthernaGatewayCli/Commands/Etherna/UploadCommandOptions.cs:25-48 | the defaults: TTL 365 days, pinning on, every other option off or null |
| EthernaUploadOptions.UploadCommandOptions.ParseArgs | src/EthernaGatewayCli/Commands/Etherna/UploadCommandOptions.cs:28-40 | the object's properties become the engine's settings for this table, with its count or exception |
| EthernaUploadOptions.DefinitionsAreValid | src/EthernaGatewayCli/Commands/Etherna/UploadCommandOptions.cs:28-36 | every definition passes the constructor's name checks |
| EthernaUploadOptions.DefinitionsAreDistinct | src/EthernaGatewayCli/Commands/Etherna/UploadCommandOptions.cs:28-36 | no two definitions share a name or a callback |
| EthernaUploadOptions.DefinitionArities | src/EthernaGatewayCli/Commands/Etherna/UploadCommandOptions.cs:30-35 | `--postage`, `--label` and `--ttl` take one argument; the flags none |
| EthernaUploadOptions.ForbiddenVerdict | src/EthernaGatewayCli/Commands/Etherna/UploadCommandOptions.cs:37-40 | the forbidden requirement reports one sentence iff one of `--auto-purchase`, `--label`, `--ttl` (or an alias) is present |
| EthernaUploadOptions.RequirementVerdict | src/EthernaGatewayCli/Commands/Etherna/UploadCommandOptions.cs:37-40 | the table's requirements report exactly the `--postage` conflict message when there is a conflict, and nothing otherwise |
| EthernaUploadOptions.PostageForbidsNewBatchOptions | src/EthernaGatewayCli/Commands/Etherna/UploadCommandOptions.cs:37-40 | a well-formed command line fails iff `--postage` comes with a new-batch option, with "Errors with command options" and exactly the conflict message |
| EthernaUploadOptions.ParsedOfferDownload | src/EthernaGatewayCli/Commands/Etherna/UploadCommandOptions.cs:34-43 | after a successful parse `OfferDownload` is on iff `--offer` was found |
| EthernaUploadOptions.ParsedAutoPurchase | src/EthernaGatewayCli/Commands/Etherna/UploadCommandOptions.cs:31-44 | auto-purchase is on iff `-A` was found |
| EthernaUploadOptions.ParsedPinResource | src/EthernaGatewayCli/Commands/Etherna/UploadCommandOptions.cs:35-47 | pinning stays on iff `--no-pin` was not found |
| EthernaUploadOptions.FoundOnce | src/EthernaGatewayCli/Commands/Etherna/UploadCommandOptions.cs:28-36 | the found option with a callback is the only one with it |
| EthernaUploadOptions.ParsedLabel | src/EthernaGatewayCli/Commands/Etherna/UploadCommandOptions.cs:32-45 | the label is null unless `--label` was found, and then its argument |
| EthernaUploadOptions.ParsedPostageBatchId | src/EthernaGatewayCli/Commands/Etherna/UploadCommandOptions.cs:30-48 | the batch id is null unless `--postage` was found, and then its argument |
| EthernaUploadOptions.ParsedTtl | src/EthernaGatewayCli/Commands/Etherna/UploadCommandOptions.cs:25-46 | the TTL is 365 days unless `--ttl` was found, and then its argument's value |
| EthernaUploadOptions.TtlRun | src/EthernaGatewayCli/Commands/Etherna/UploadCommandOptions.cs:33 | `--ttl 30 FILE` consumes two arguments and sets the TTL to 30 days, nothing else |
| EthernaUploadOptions.PostageWithTtl | src/EthernaGatewayCli/Commands/Etherna/UploadCommandOptions.cs:37-40 | `--postage ID -t 30 FILE` fails with exactly "If --postage is present then -t is forbidden." |
| ChunkUploadOptions.Apply | src/EthernaGatewayCli/Commands/Etherna/Chunk/UploadCommandOptions.cs:31-34 | each callback writes its own property only; `--ttl` stores its 32-bit parse when that many days fit in a `TimeSpan`, and throws otherwise |
| ChunkUploadOptions.TtlWithinTimeSpan | src/EthernaGatewayCli/Commands/Etherna/Chunk/UploadCommandOptions.cs:34 | `--ttl n` is accepted iff n <= 10,675,199 days |
| ChunkUploadOptions.UploadCommandOptions.constructor | src/EthernaGatewayCli/Commands/Etherna/Chunk/UploadCommandOptions.cs:26-45 | the defaults: TTL 365 days, no auto-purchase, no label, no batch id |
| ChunkUploadOptions.UploadCommandOptions.ParseArgs | src/EthernaGatewayCli/Commands/Etherna/Chunk/UploadCommandOptions.cs:29-39 | the object's properties become the engine's settings for this table |
| ChunkUploadOptions.DefinitionsAreValid | src/EthernaGatewayCli/Commands/Etherna/Chunk/UploadCommandOptions.cs:29-35 | every definition passes the name checks |
| ChunkUploadOptions.DefinitionsAreDistinct | src/EthernaGatewayCli/Commands/Etherna/Chunk/UploadCommandOptions.cs:29-35 | no two definitions share a name or a callback |
| ChunkUploadOptions.DefinitionArities | src/EthernaGatewayCli/Commands/Etherna/Chunk/UploadCommandOptions.cs:31-34 | `--postage`, `--label`, `--ttl` take one argument, `-A` none |
| ChunkUploadOptions.ForbiddenVerdict | src/EthernaGatewayCli/Commands/Etherna/Chunk/UploadCommandOptions.cs:36-39 | the forbidden requirement reports iff a new-batch option is present |
| ChunkUploadOptions.RequirementVerdict | src/EthernaGatewayCli/Commands/Etherna/Chunk/UploadCommandOptions.cs:36-39 | the requirements report exactly the conflict message iff `--postage` comes with a new-batch option |
| ChunkUploadOptions.PostageForbidsNewBatchOptions | src/EthernaGatewayCli/Commands/Etherna/Chunk/UploadCommandOptions.cs:36-39 | a well-formed command line fails iff there is that conflict, with exactly the conflict message |
| ChunkUploadOptions.ParsedAutoPurchase | src/EthernaGatewayCli/Commands/Etherna/Chunk/UploadCommandOptions.cs:32-42 | auto-purchase is on iff `-A` was found |
| ChunkUploadOptions.FoundOnce | src/EthernaGatewayCli/Commands/Etherna/Chunk/UploadCommandOptions.cs:29-35 | the found option with a callback is the only one with it |
| ChunkUploadOptions.ParsedLabel | src/EthernaGatewayCli/Commands/Etherna/Chunk/UploadCommandOptions.cs:33-43 | the label is null unless `--label` was found, then its argument |
| ChunkUploadOptions.ParsedPostageBatchId | src/EthernaGatewayCli/Commands/Etherna/Chunk/UploadCommandOptions.cs:31-45 | the batch id is null unless `--postage` was found, then its argument |
| ChunkUploadOptions.ParsedTtl | src/EthernaGatewayCli/Commands/Etherna/Chunk/UploadCommandOptions.cs:26-44 | the TTL is 365 days unless `--ttl` was found, then its argument's value |
| ChunkUploadOptions.TtlRun | src/EthernaGatewayCli/Commands/Etherna/Chunk/UploadCommandOptions.cs:34 | `--ttl 30 DIR` consumes two arguments and sets the TTL to 30 days |
| ChunkUploadOptions.PostageWithTtl | src/EthernaGatewayCli/Commands/Etherna/Chunk/UploadCommandOptions.cs:36-39 | `--postage ID -t 30 DIR` fails with exactly "If --postage is present then -t is forbidden." |
| PostageCreateOptions.Apply | src/EthernaGatewayCli/Commands/Etherna/Postage/CreateCommandOptions.cs:28-31 | each callback writes its own property only; `--depth` stores its argument's 32-bit parse, `--ttl` that parse when it fits in a `TimeSpan` (an exception otherwise), `--amount` and `--label` the text |
| PostageCreateOptions.TtlWithinTimeSpan | src/EthernaGatewayCli/Commands/Etherna/Postage/CreateCommandOptions.cs:31 | `--ttl n` is accepted iff n <= 10,675,199 days |
| PostageCreateOptions.CreateCommandOptions.constructor | src/EthernaGatewayCli/Commands/Etherna/Postage/CreateCommandOptions.cs:43-46 | the defaults: null amount, label and TTL, depth 0 |
| PostageCreateOptions.CreateCommandOptions.ParseArgs | src/EthernaGatewayCli/Commands/Etherna/Postage/CreateCommandOptions.cs:26-40 | the object's properties become the engine's settings for this table |
| PostageCreateOptions.DefinitionsAreValid | src/EthernaGatewayCli/Commands/Etherna/Postage/CreateCommandOptions.cs:26-32 | valid, distinct names and callbacks; every option takes one argument |
| PostageCreateOptions.FoundOptionsHaveTheirArgument | src/EthernaGatewayCli/Commands/Etherna/Postage/CreateCommandOptions.cs:26-32 | every option the parser records carries exactly one argument |
| PostageCreateOptions.ExclusiveVerdict | src/EthernaGatewayCli/Commands/Etherna/Postage/CreateCommandOptions.cs:35 | the mutual-exclusion error is reported iff both `--amount` and `--ttl` are present |
| PostageCreateOptions.AmountOrTtlVerdict | src/EthernaGatewayCli/Commands/Etherna/Postage/CreateCommandOptions.cs:36 | the require-one-of error is reported iff neither `--amount` nor `--ttl` is present |
| PostageCreateOptions.DepthVerdict | src/EthernaGatewayCli/Commands/Etherna/Postage/CreateCommandOptions.cs:37 | the depth error is reported iff `--depth` is absent |
| PostageCreateOptions.DepthMinimumVerdict | src/EthernaGatewayCli/Commands/Etherna/Postage/CreateCommandOptions.cs:38 | the depth minimum reports nothing iff the depth is at least 17 |
| PostageCreateOptions.TtlMinimumVerdict | src/EthernaGatewayCli/Commands/Etherna/Postage/CreateCommandOptions.cs:39 | the TTL minimum reports nothing iff the TTL is at least 1 |
| PostageCreateOptions.RequirementsVerdict | src/EthernaGatewayCli/Commands/Etherna/Postage/CreateCommandOptions.cs:33-40 | the five requirements never throw here, and report nothing iff the options are acceptable |
| PostageCreateOptions.OptionsAccepted | src/EthernaGatewayCli/Commands/Etherna/Postage/CreateCommandOptions.cs:33-40 | a well-formed command line parses iff its options are acceptable, and fails reporting at least one error otherwise |
| PostageCreateOptions.AmountWithTtlReported | src/EthernaGatewayCli/Commands/Etherna/Postage/CreateCommandOptions.cs:35 | `--amount` with `--ttl` fails and reports the mutual-exclusion message |
| PostageCreateOptions.AmountOrTtlMissingReported | src/EthernaGatewayCli/Commands/Etherna/Postage/CreateCommandOptions.cs:36 | neither fails and reports the require-one-of sentence |
| PostageCreateOptions.DepthMissingReported | src/EthernaGatewayCli/Commands/Etherna/Postage/CreateCommandOptions.cs:37 | a missing `--depth` fails and reports the depth sentence |
| PostageCreateOptions.DepthTooSmallReported | src/EthernaGatewayCli/Commands/Etherna/Postage/CreateCommandOptions.cs:38 | a depth below 17 fails and reports the minimum on the typed name |
| PostageCreateOptions.TtlTooSmallReported | src/EthernaGatewayCli/Commands/Etherna/Postage/CreateCommandOptions.cs:39 | a TTL below 1 fails and reports the minimum on the typed name |
| PostageCreateOptions.FoundOnce | src/EthernaGatewayCli/Commands/Etherna/Postage/CreateCommandOptions.cs:26-32 | the found option with a callback is the only one with it |
| PostageCreateOptions.ParsedAmount | src/EthernaGatewayCli/Commands/Etherna/Postage/CreateCommandOptions.cs:28-43 | the amount is null unless `--amount` was found, then its argument |
| PostageCreateOptions.ParsedDepth | src/EthernaGatewayCli/Commands/Etherna/Postage/CreateCommandOptions.cs:29-44 | the depth is 0 unless `--depth` was found, then its argument's value |
| PostageCreateOptions.ParsedLabel | src/EthernaGatewayCli/Commands/Etherna/Postage/CreateCommandOptions.cs:30-45 | the label is null unless `--label` was found, then its argument |
| PostageCreateOptions.ParsedTtl | src/EthernaGatewayCli/Commands/Etherna/Postage/CreateCommandOptions.cs:31-46 | the TTL is null unless `--ttl` was found, then its argument's value in days |
| ResourceFundOptions.Apply | src/EthernaGatewayCli/Commands/Etherna/Resource/FundCommandOptions.cs:25-26 | `-p` sets `FundPinning`, `-t` sets `FundTraffic`, nothing else changes |
| ResourceFundOptions.FundCommandOptions.constructor | src/EthernaGatewayCli/Commands/Etherna/Resource/FundCommandOptions.cs:34-35 | both flags start false |
| ResourceFundOptions.FundCommandOptions.ParseArgs | src/EthernaGatewayCli/Commands/Etherna/Resource/FundCommandOptions.cs:23-32 | the object's flags become the engine's settings for this table |
| ResourceFundOptions.DefinitionsAreValid | src/EthernaGatewayCli/Commands/Etherna/Resource/FundCommandOptions.cs:23-27 | valid, distinct names; both flags take no argument |
| ResourceFundOptions.HelpLine | src/EthernaGatewayCli/Commands/Etherna/Resource/FundCommandOptions.cs:31 | the help line is "--pin, --traffic at least one is required." |
| ResourceFundOptions.RequirementVerdict | src/EthernaGatewayCli/Commands/Etherna/Resource/FundCommandOptions.cs:29-32 | the requirement reports nothing iff `-p` or `-t` is found (by short name), else exactly that sentence |
| ResourceFundOptions.RequiresAFlag | src/EthernaGatewayCli/Commands/Etherna/Resource/FundCommandOptions.cs:29-32 | a well-formed command line parses iff a flag is present, and otherwise fails with exactly that sentence |
| ResourceFundOptions.ParsedPinning | src/EthernaGatewayCli/Commands/Etherna/Resource/FundCommandOptions.cs:25-34 | `FundPinning` iff `-p` was found |
| ResourceFundOptions.ParsedTraffic | src/EthernaGatewayCli/Commands/Etherna/Resource/FundCommandOptions.cs:26-35 | `FundTraffic` iff `-t` was found |
| ResourceFundOptions.PinFlagAlone | src/EthernaGatewayCli/Commands/Etherna/Resource/FundCommandOptions.cs:25-31 | `-p RESOURCE` parses, consumes one argument and sets only pinning |
| ResourceDefundOptions.Apply | src/EthernaGatewayCli/Commands/Etherna/Resource/DefundCommandOptions.cs:25-26 | `-p` sets `DefundPinning`, `-t` sets `DefundTraffic`, nothing else changes |
| ResourceDefundOptions.DefundCommandOptions.constructor | src/EthernaGatewayCli/Commands/Etherna/Resource/DefundCommandOptions.cs:34-35 | both flags start false |
| ResourceDefundOptions.DefundCommandOptions.ParseArgs | src/EthernaGatewayCli/Commands/Etherna/Resource/DefundCommandOptions.cs:23-32 | the object's flags become the engine's settings for this table |
| ResourceDefundOptions.DefinitionsAreValid | src/EthernaGatewayCli/Commands/Etherna/Resource/DefundCommandOptions.cs:23-27 | valid, distinct names; both flags take no argument |
| ResourceDefundOptions.HelpLine | src/EthernaGatewayCli/Commands/Etherna/Resource/DefundCommandOptions.cs:31 | the help line is "--pin, --traffic at least one is required." |
| ResourceDefundOptions.RequirementVerdict | src/EthernaGatewayCli/Commands/Etherna/Resource/DefundCommandOptions.cs:29-32 | the requirement reports nothing iff a flag is found, else exactly that sentence |
| ResourceDefundOptions.RequiresAFlag | src/EthernaGatewayCli/Commands/Etherna/Resource/DefundCommandOptions.cs:29-32 | a well-formed command line parses iff a flag is present |
| ResourceDefundOptions.ParsedPinning | src/EthernaGatewayCli/Commands/Etherna/Resource/DefundCommandOptions.cs:25-34 | `DefundPinning` iff `-p` was found |
| ResourceDefundOptions.ParsedTraffic | src/EthernaGatewayCli/Commands/Etherna/Resource/DefundCommandOptions.cs:26-35 | `DefundTraffic` iff `-t` was found |
| ResourceDefundOptions.PinFlagAlone | src/EthernaGatewayCli/Commands/Etherna/Resource/DefundCommandOptions.cs:25-31 | `-p RESOURCE` parses, consumes one argument and sets only pinning |
| GatewayService.ByteSizeDoubles | src/EthernaGatewayCli/Services/GatewayService.cs:69-73 | one more depth level doubles a batch's byte size, which is at least one 4096-byte chunk |
| GatewayService.ByteSizeMonotone | src/EthernaGatewayCli/Services/GatewayService.cs:69-73 | the byte size grows with the depth |
| GatewayService.RequiredPostageBatchSpace | src/EthernaGatewayCli/Services/GatewayService.cs:75-76 | the size times 1.2 truncated toward zero (within one unit below 6/5 of the size), never below the size |
| GatewayService.RequiredSpaceMonotone | src/EthernaGatewayCli/Services/GatewayService.cs:75-76 | the required space grows with the content size |
| GatewayService.CoveringDepth | src/EthernaGatewayCli/Services/GatewayService.cs:61-67 | the least depth of at least 17 whose capacity covers the space |
| GatewayService.CoveringDepthFrom | src/EthernaGatewayCli/Services/GatewayService.cs:61-67 | from a depth below which nothing covers, the least covering depth |
| GatewayService.CalculateDepth | src/EthernaGatewayCli/Services/GatewayService.cs:61-67 | the loop returns the least depth >= 17 whose byte size covers the required space |
| GatewayService.LeastCoveringDepthUnique | src/EthernaGatewayCli/Services/GatewayService.cs:61-67 | there is only one least covering depth |
| GatewayService.CalculatedDepthMonotone | src/EthernaGatewayCli/Services/GatewayService.cs:61-67 | a larger content never gets a smaller depth |
| GatewayService.CreatePostageBatchRun | src/EthernaGatewayCli/Services/GatewayService.cs:78-121 | amount <= 0 and depth < 17 are refused, in that order, before any remote call; otherwise the first call is the purchase with the given depth, amount and label |
| GatewayService.CreationPollLog | src/EthernaGatewayCli/Services/GatewayService.cs:93-114 | the creation poll only asks for the batch id or waits 5 s, and every step but the last is a pending answer |
| GatewayService.CreationPoll | src/EthernaGatewayCli/Services/GatewayService.cs:93-114 | the creation poll always reads the clock at least once more |
| GatewayService.CreationPollSucceeds | src/EthernaGatewayCli/Services/GatewayService.cs:93-114 | a found id is not blank and is the last answer of the gateway |
| GatewayService.CreationPollFails | src/EthernaGatewayCli/Services/GatewayService.cs:93-114 | a failure is either the timeout (10 minutes elapsed, carrying the reference id) or a non-API exception of the last call |
| GatewayService.UsablePollLog | src/EthernaGatewayCli/Services/GatewayService.cs:155-171 | the usability poll only reads `Usable` and waits; every read answered is followed by a 5 s wait; all but the last read said not usable |
| GatewayService.UsablePoll | src/EthernaGatewayCli/Services/GatewayService.cs:155-171 | the usability poll always reads the clock at least once more |
| GatewayService.UsablePollSucceeds | src/EthernaGatewayCli/Services/GatewayService.cs:155-171 | the poll ends after `Usable` was true, followed by the wait |
| GatewayService.UsablePollFails | src/EthernaGatewayCli/Services/GatewayService.cs:155-171 | a failure is the timeout (carrying the batch id) or the exception of the last read |
| GatewayService.ReturnsCreatedUsableBatch | src/EthernaGatewayCli/Services/GatewayService.cs:107-120 | the id returned is the creation poll's answer, only after a read said it is usable |
| GatewayService.CreatePostageBatch | src/EthernaGatewayCli/Services/GatewayService.cs:78-121 | the method's result, clock position and log equal the run's specification |
| GatewayService.WaitForBatchCreated | src/EthernaGatewayCli/Services/GatewayService.cs:93-114 | the `do`/`while` creation loop equals the creation poll specification |
| GatewayService.WaitForBatchUsable | src/EthernaGatewayCli/Services/GatewayService.cs:150-174 | the usability loop equals the usability poll specification |
| PurchasePrompt.FirstAnswer | src/EthernaGatewayCli/Services/PostageBatchService.cs:89-109 | the first key that answers the prompt; every key before it is another key |
| PurchasePrompt.PromptAnswer | src/EthernaGatewayCli/Services/PostageBatchService.cs:89-109 | confirmed iff the first answering key is Y or Enter; otherwise "Batch purchase denied" |
| PurchasePrompt.ConfirmPurchase | src/EthernaGatewayCli/Services/PostageBatchService.cs:89-109 | the key loop reads up to and including the first answer and settles on the prompt's answer |
| PostageBatchService.EvaluationsFollowPaths | src/EthernaGatewayCli/Services/PostageBatchService.cs:44-66 | the evaluations follow the paths in order, each by its kind (file or directory); every path is evaluated on success; a path that is neither makes the loop fail before evaluating it |
| PostageBatchService.FirstMissingPathReported | src/EthernaGatewayCli/Services/PostageBatchService.cs:44-66 | the first path that is neither file nor directory is reported and no later path is evaluated |
| PostageBatchService.EvaluatePathsAppend | src/EthernaGatewayCli/Services/PostageBatchService.cs:44-66 | evaluating two lists of paths is evaluating the first, then the second with the issuer it leaves |
| PostageBatchService.CalculatePostageBatchDepth | src/EthernaGatewayCli/Services/PostageBatchService.cs:34-71 | null paths: `ArgumentNullException`; empty paths: out of range; otherwise the loop equals the specification, with the issuer's depth after the last path |
| PostageBatchService.GetUsablePostageBatch | src/EthernaGatewayCli/Services/PostageBatchService.cs:73-158 | the method's result, keys read and log equal the choice's specification |
| PostageBatchService.ReuseMakesNoCapacityCheck | src/EthernaGatewayCli/Services/PostageBatchService.cs:127-156 | a given batch is returned iff the gateway reports it and it is usable, whatever the depth needed, with no key read or purchase |
| PostageBatchService.PurchaseOnlyWhenConfirmed | src/EthernaGatewayCli/Services/PostageBatchService.cs:83-119 | auto-purchase reads no key; a purchase happens only when confirmed, at the minimum depth and with the amount for the chain price and TTL; N buys nothing and is denied |
| EthernaUploadCommand.TotalLengthAppend | src/EthernaGatewayCli/Commands/Etherna/UploadCommand.cs:65-73 | the total length of two lists of files is the sum of their totals |
| EthernaUploadCommand.ContentSizeMeaning | src/EthernaGatewayCli/Commands/Etherna/UploadCommand.cs:65-73 | the size succeeds iff every file exists, and is their total length; otherwise the first missing file is reported |
| EthernaUploadCommand.ContentByteSize | src/EthernaGatewayCli/Commands/Etherna/UploadCommand.cs:65-73 | the accumulator loop equals the content size specification |
| EthernaUploadCommand.GetUsablePostageBatchId | src/EthernaGatewayCli/Commands/Etherna/UploadCommand.cs:126-198 | the method's result, keys read and log equal the batch choice specification |
| EthernaUploadCommand.ReusedBatchHasRoom | src/EthernaGatewayCli/Commands/Etherna/UploadCommand.cs:167-197 | a given batch is used iff the lookup succeeds, it is usable and its byte size covers the required space; a failed lookup is rethrown unchanged; no key is read and nothing is bought |
| EthernaUploadCommand.NewBatchCoversContent | src/EthernaGatewayCli/Commands/Etherna/UploadCommand.cs:131-161 | auto-purchase reads no key; a purchase needs the chain price and a Y or Enter (unless auto), uses the least covering depth for the content and the amount for the chain price and TTL; an amount that is not positive is refused without a purchase |
| EthernaUploadCommand.AttemptsCount | src/EthernaGatewayCli/Commands/Etherna/UploadCommand.cs:86-116 | between 1 and 10 attempts, stopping at the first success; a give-up only after all 10 |
| EthernaUploadCommand.AttemptsSend | src/EthernaGatewayCli/Commands/Etherna/UploadCommand.cs:92-98 | every attempt uploads the same file to the same batch with the same pinning |
| EthernaUploadCommand.AttemptsWait | src/EthernaGatewayCli/Commands/Etherna/UploadCommand.cs:104-113 | a 5 s wait follows a failed attempt only, and only when another attempt follows |
| EthernaUploadCommand.AttemptsEndWithAttempt | src/EthernaGatewayCli/Commands/Etherna/UploadCommand.cs:86-116 | the attempts start and end with an upload and contain no offer |
| EthernaUploadCommand.UploadFile | src/EthernaGatewayCli/Commands/Etherna/UploadCommand.cs:86-116 | the retry loop equals the attempts specification |
| EthernaUploadCommand.PrependRunTwice | src/EthernaGatewayCli/Commands/Etherna/UploadCommand.cs:82-122 | prefixing a run's log twice is prefixing it once with both parts |
| EthernaUploadCommand.UploadFromOrdered | src/EthernaGatewayCli/Commands/Etherna/UploadCommand.cs:82-122 | the files are uploaded in order; without `--offer` nothing is offered and the loop never throws |
| EthernaUploadCommand.UploadFromFailsOnOffer | src/EthernaGatewayCli/Commands/Etherna/UploadCommand.cs:118-121 | the loop throws only with `--offer`, and then the last event is the offer that failed with that exception |
| EthernaUploadCommand.UploadNextFile | src/EthernaGatewayCli/Commands/Etherna/UploadCommand.cs:84-121 | one file's events, then the rest of the files, or the offer's exception |
| EthernaUploadCommand.UploadFiles | src/EthernaGatewayCli/Commands/Etherna/UploadCommand.cs:82-122 | the loop over files equals the upload run specification |
| EthernaUploadCommand.Execute | src/EthernaGatewayCli/Commands/Etherna/UploadCommand.cs:55-123 | the command equals its specification: checks, then the batch, then the uploads |
| EthernaUploadCommand.ChecksComeFirst | src/EthernaGatewayCli/Commands/Etherna/UploadCommand.cs:60-73 | no argument throws `ArgumentException`, a missing file `InvalidOperationException`, before any key, purchase or upload |
| EthernaUploadCommand.AttemptsUseBatch | src/EthernaGatewayCli/Commands/Etherna/UploadCommand.cs:88-98 | every attempt of the retry loop uploads with its one batch and pinning flag |
| EthernaUploadCommand.UploadFromUsesBatch | src/EthernaGatewayCli/Commands/Etherna/UploadCommand.cs:82-98 | every upload of the file loop uses the one batch and pinning flag |
| EthernaUploadCommand.UploadsUseChosenBatch | src/EthernaGatewayCli/Commands/Etherna/UploadCommand.cs:79-98 | uploads happen only after every file was found and the total size computed; the first upload is of the first file; every upload uses one batch and the pinning option, and with `--postage` that batch is the given one |
| ChunkUploadCommand.LastIndexOf | src/EthernaGatewayCli/Commands/Etherna/Chunk/UploadCommand.cs:69 | the last position of a character, -1 when absent |
| ChunkUploadCommand.ChunkFileNameGivesHash | src/EthernaGatewayCli/Commands/Etherna/Chunk/UploadCommand.cs:69 | the file name without extension of `DIR/HASH.chunk` is HASH |
| ChunkUploadCommand.PostageBuckets.constructor | src/EthernaGatewayCli/Commands/Etherna/Chunk/UploadCommand.cs:66 | the bucket counter starts empty |
| ChunkUploadCommand.PostageBuckets.IncrementCollisions | src/EthernaGatewayCli/Commands/Etherna/Chunk/UploadCommand.cs:71 | one increment adds one collision in that bucket |
| ChunkUploadCommand.BucketIdsMatchFiles | src/EthernaGatewayCli/Commands/Etherna/Chunk/UploadCommand.cs:67-72 | one bucket per chunk file, in order, the bucket of the hash in its name |
| ChunkUploadCommand.BucketIds | src/EthernaGatewayCli/Commands/Etherna/Chunk/UploadCommand.cs:66-72 | when every hash has a bucket, one bucket id per chunk file |
| ChunkUploadCommand.BucketIdsFailure | src/EthernaGatewayCli/Commands/Etherna/Chunk/UploadCommand.cs:67-72 | the loop fails iff some hash has no bucket, with the first such file's exception |
| ChunkUploadCommand.BucketIdsExtendFailure | src/EthernaGatewayCli/Commands/Etherna/Chunk/UploadCommand.cs:67-72 | after files that all had a bucket, a file whose hash has none makes the loop fail with that file's exception |
| ChunkUploadCommand.CountCollisions | src/EthernaGatewayCli/Commands/Etherna/Chunk/UploadCommand.cs:66-72 | the counter holds exactly one increment per chunk file, on its bucket |
| ChunkUploadCommand.Slice | src/EthernaGatewayCli/Commands/Etherna/Chunk/UploadCommand.cs:43-107 | the next slice is at most 500 files from the cursor |
| ChunkUploadCommand.Replay | src/EthernaGatewayCli/Commands/Etherna/Chunk/UploadCommand.cs:85-139 | replaying a send log gives the cursor it reached, never past the number of files; a send once every file is delivered does not replay |
| ChunkUploadCommand.ReplayDeliversPrefix | src/EthernaGatewayCli/Commands/Etherna/Chunk/UploadCommand.cs:107-120 | the chunks delivered are exactly the files before the cursor: none skipped, none delivered twice |
| ChunkUploadCommand.SendsWhileFilesLeft | src/EthernaGatewayCli/Commands/Etherna/Chunk/UploadCommand.cs:87-94 | every send in a log that replays comes at a cursor short of the number of files |
| ChunkUploadCommand.CursorNeverDecreases | src/EthernaGatewayCli/Commands/Etherna/Chunk/UploadCommand.cs:87-120 | along the log the cursor never goes back and never passes the number of files |
| ChunkUploadCommand.RetriesLeftEach | src/EthernaGatewayCli/Commands/Etherna/Chunk/UploadCommand.cs:44-118 | every send is preceded by fewer than 10 failures since the last success |
| ChunkUploadCommand.WaitsEach | src/EthernaGatewayCli/Commands/Etherna/Chunk/UploadCommand.cs:133-137 | each wait is 5 s, follows a failed send and precedes another send |
| ChunkUploadCommand.ReplaySend | src/EthernaGatewayCli/Commands/Etherna/Chunk/UploadCommand.cs:115-120 | a successful send advances the cursor by the slice and resets the failures; a failed one keeps the cursor |
| ChunkUploadCommand.ExtendSend | src/EthernaGatewayCli/Commands/Etherna/Chunk/UploadCommand.cs:107-120 | sending the next slice keeps the log consistent |
| ChunkUploadCommand.ExtendWait | src/EthernaGatewayCli/Commands/Etherna/Chunk/UploadCommand.cs:133-137 | a wait after a failure keeps the log consistent and the cursor unchanged |
| ChunkUploadCommand.FailuresRetriedEach | src/EthernaGatewayCli/Commands/Etherna/Chunk/UploadCommand.cs:124-137 | the log law holds iff every failed send followed by another event was one of the four retried kinds and, with fewer than 10 failures in a row, was followed by the 5 s wait |
| ChunkUploadCommand.SendNext | src/EthernaGatewayCli/Commands/Etherna/Chunk/UploadCommand.cs:107-118 | one send of the slice at the cursor, logged: success moves the cursor over the slice and resets the failure count, failure adds one; the log stays consistent |
| ChunkUploadCommand.SendSlices | src/EthernaGatewayCli/Commands/Etherna/Chunk/UploadCommand.cs:94-121 | the inner loop sends slices from the cursor until all are sent or one fails |
| ChunkUploadCommand.UploadChunks | src/EthernaGatewayCli/Commands/Etherna/Chunk/UploadCommand.cs:85-141 | the retry loop is a consistent run, with no send once every file is delivered: every file before the reported count delivered once, fewer only after 10 failures in a row; every failure before the last send is one of the four retried kinds and, while an attempt is left, is followed by the 5 s wait; the command throws exactly when the last send failed with another kind, and throws that exception |
| ChunkUploadCommand.NonRetriedFailureEndsRun | src/EthernaGatewayCli/Commands/Etherna/Chunk/UploadCommand.cs:124-137 | a send failing with an exception that is not retried is the last event of the run, and the command throws it |
| ChunkUploadCommand.RunDeliversReported | src/EthernaGatewayCli/Commands/Etherna/Chunk/UploadCommand.cs:141 | the count reported is the number of files delivered, a prefix of the files; a short count means 10 consecutive failures |
| ChunkUploadCommand.NothingToSend | src/EthernaGatewayCli/Commands/Etherna/Chunk/UploadCommand.cs:87 | an empty directory makes no gateway call at all (the log is empty) and reports 0 |
| ChunkUploadCommand.Execute | src/EthernaGatewayCli/Commands/Etherna/Chunk/UploadCommand.cs:52-142 | exactly one argument, else `ArgumentException`; the listing, the buckets and the batch choice in this order, each failure stopping the rest; then an upload run on the batch chosen, with only the four transient kinds retried, the wait before each retry, and any other exception thrown |

## Left out

- Console output, colours and `IoService` lines are not modelled: help pages and reported errors are returned as strings instead of being written.
- `PrintProgressLine` is not modelled: it computes percentages and an ETA in floating point from the clock, and only prints.
- `CalculateBzzPrice` and `CalculateAmountAsync` are not modelled: they are floating-point arithmetic in an external library. The amount for a chain price and TTL is a function parameter (`amountFor`).
- GatewayService.RequiredPostageBatchSpace: the double product `size * 1.2` is modelled as the exact 6/5 truncated toward zero; double rounding near integer boundaries is not modelled.
- `long` overflow of the content size, the byte size and the amount: integers here are unbounded.
- The clock is a sequence of strictly increasing readings (`ClockAdvances`); the polls terminate only because of it.
- `Task.Delay` is modelled as a logged event, not as time passing.
- Keys: the purchase prompt assumes the keys pressed eventually contain an answer (`Answered`); a user who never answers is not modelled.
- Sign-in (`SignInAsync`), MIME sniffing and opening the uploaded file are not modelled; they have no effect on the model's results.
- Remote calls (batch purchase, batch id, batch status, chain price, file and chunk upload, resource offer) are oracle functions indexed by call number.
- Listing and reading: `Directory.GetFiles` is a listing function and the chunk file reads are folded into the send's reply.
- Paths: only `/` is taken as a directory separator.
- The BeeNet library is not modelled: `SwarmHash.ToBucketId`, the postage bucket depth, `PostageStampIssuer` and the chunk evaluation are parameters with no contract.
- `CreatePostageBatchAsync` comes from two library versions with different signatures. Each caller uses it through its own oracle or through `GatewayService`, as that file calls it.
- Null arguments (`ArgumentNullException.ThrowIfNull`) cannot occur with Dafny values, except the `paths` of `CalculatePostageBatchDepthAsync`, which is modelled as an `Option`.
- MinValueOptionRequirement: its source is not present. It is modelled on `MaxValueOptionRequirement` with the comparison reversed, and its sentence wording is an assumption.
- `double.TryParse` in the numeric requirements is an uninterpreted parameter `tryParse` to reals.
- The 404 message printed before rethrowing on the reuse path is not modelled; only the rethrow is.
- `BzzBalance.FromPlurString` is kept as the option's text; the amount is not converted.
- Reflection and dependency injection: the assembly is a list of type descriptions, and a command's behaviour (description, usage, flags, option parser, own command) is a function of its type.
- CommandNames.SortByNameSorts: names are ordered ordinally. `OrderBy(t => t.Name)` uses .NET's culture-sensitive default comparer, which can order names differently ("PostageCommand" before "PostCommand"). The same order runs through `CommandNames.SortByName`, `CommandNames.SubCommandTypesSpec` and `CommandBase.HelpListsSubCommands`.
- Text.ToLower: only ASCII letters are lower-cased. .NET's `ToLower()` follows the current culture, and `ToLowerInvariant()` also lowers non-ASCII letters. That affects `CommandNames.GetCommandNameFromType` and `CommandNames.CommandNamesPath`.
- OptionCallbacks.FromDays: the exception for too many days is `OverflowException`, from `TimeSpan.FromDays(double)`. The overload `FromDays(int)` of newer runtimes rejects the same day counts with `ArgumentOutOfRangeException`. The target runtime is not part of this model.
- The options section of a command's help page is a field of its behaviour (`optionsHelp`). It is not tied to `CommandHelp.OptionsSection` of the command's option table.
- ChunkUploadOptions and ResourceDefundOptions: the chunk upload and resource defund option tables are written against the external `Etherna.CliHelper.Models.Commands` engine and its requirements. The source of that engine is not part of this model. Their tables run through this repository's `Models/Commands/CommandOptionsBase.cs` and its requirements, on the assumption that the library behaves the same.
- The thin command wrappers, the option tables with no rules, `Program.cs` and the version check are not part of this model.
