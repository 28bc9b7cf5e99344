/** The two tables of the help page, as `PrintHelp` and `AppendOptionsHelp` lay them out:
    one line per sub-command and one per option, each description starting at the same
    column, at least four spaces after the longest entry. A line ends with `AppendLine`'s
    new line, here "\n". */
module CommandHelp {
  import opened Wrappers
  import opened Text
  import opened CommandOptions

  const NewLine := "\n"

  /** A sub-command as the help page shows it: its `Name` and its `Description`. */
  datatype CommandEntry = CommandEntry(name: string, description: string)

  // ---------------------------------------------------------------------------------------
  // The "Commands:" table.

  /** `allSubCommands.Select(c => c.Name.Length).Max()`. */
  function MaxNameLength(entries: seq<CommandEntry>): (r: nat)
    ensures forall i :: 0 <= i < |entries| ==> |entries[i].name| <= r
    decreases |entries|
  {
    if |entries| == 0 then 0
    else
      var rest := MaxNameLength(entries[1..]);
      assert forall i :: 1 <= i < |entries| ==> entries[i] == entries[1..][i - 1];
      if |entries[0].name| >= rest then |entries[0].name| else rest
  }

  /** The maximum is the length of some name. */
  lemma {:induction false} MaxNameLengthAttained(entries: seq<CommandEntry>)
    requires |entries| > 0
    ensures exists i :: 0 <= i < |entries| && |entries[i].name| == MaxNameLength(entries)
    decreases |entries|
  {
    if |entries| > 1 && |entries[0].name| < MaxNameLength(entries[1..]) {
      MaxNameLengthAttained(entries[1..]);
      var i :| 0 <= i < |entries[1..]| && |entries[1..][i].name| == MaxNameLength(entries[1..]);
      assert entries[i + 1] == entries[1..][i];
    } else {
      assert |entries[0].name| == MaxNameLength(entries);
    }
  }

  /** One line of the table: two spaces, the name, padding up to column `2 + shift`, then
      the description. */
  function CommandLine(name: string, shift: nat, description: string): string
    requires |name| <= shift
  {
    "  " + name + Spaces(shift - |name|) + description + NewLine
  }

  /** `text` holds `description` from column `column` on. */
  predicate DescriptionAt(text: string, column: nat, description: string) {
    column + |description| <= |text| && text[column..column + |description|] == description
  }

  /** The layout of a sub-command's line: the indent, the name, only spaces up to column
      `2 + shift`, the description there, and the line break last. */
  lemma CommandLineLayout(name: string, shift: nat, description: string)
    requires |name| <= shift
    ensures var r := CommandLine(name, shift, description);
      && |r| == 2 + shift + |description| + 1
      && r[..2] == "  " && r[2..2 + |name|] == name
      && (forall j :: 2 + |name| <= j < 2 + shift ==> r[j] == ' ')
      && DescriptionAt(r, 2 + shift, description) && r[|r| - 1] == '\n'
  {
    var r := CommandLine(name, shift, description);
    assert r[2..2 + |name|] == name;
    assert r[2 + shift..2 + shift + |description|] == description;
  }

  predicate ShiftCovers(entries: seq<CommandEntry>, shift: nat) {
    forall i :: 0 <= i < |entries| ==> |entries[i].name| <= shift
  }

  /** The lines of the first `|entries|` sub-commands, in order. */
  function CommandLines(entries: seq<CommandEntry>, shift: nat): string
    requires ShiftCovers(entries, shift)
    decreases |entries|
  {
    if |entries| == 0 then ""
    else
      var last := entries[|entries| - 1];
      CommandLines(entries[..|entries| - 1], shift) + CommandLine(last.name, shift, last.description)
  }

  /** The table, or nothing when there is no sub-command. */
  function CommandsSection(entries: seq<CommandEntry>): string {
    if |entries| == 0 then ""
    else "Commands:" + NewLine + CommandLines(entries, MaxNameLength(entries) + 4) + NewLine
  }

  /** In the table, every description starts at the same column, `2 + shift`, and at least
      four spaces follow every name: the longest exactly four. */
  lemma CommandDescriptionsAligned(entries: seq<CommandEntry>)
    requires |entries| > 0
    ensures var shift := MaxNameLength(entries) + 4;
      && (forall i :: 0 <= i < |entries| ==> shift - |entries[i].name| >= 4)
      && (forall i :: 0 <= i < |entries| ==>
            DescriptionAt(CommandLine(entries[i].name, shift, entries[i].description), 2 + shift, entries[i].description))
      && (exists i :: 0 <= i < |entries| && shift - |entries[i].name| == 4)
  {
    var shift := MaxNameLength(entries) + 4;
    forall i | 0 <= i < |entries|
      ensures DescriptionAt(CommandLine(entries[i].name, shift, entries[i].description), 2 + shift, entries[i].description)
    {
      CommandLineLayout(entries[i].name, shift, entries[i].description);
    }
    MaxNameLengthAttained(entries);
    var i :| 0 <= i < |entries| && |entries[i].name| == MaxNameLength(entries);
    assert shift - |entries[i].name| == 4;
  }

  /** One more sub-command adds its line at the end. */
  lemma CommandLinesSnoc(entries: seq<CommandEntry>, k: nat, shift: nat)
    requires k < |entries| && ShiftCovers(entries, shift)
    ensures ShiftCovers(entries[..k], shift) && ShiftCovers(entries[..k + 1], shift)
    ensures CommandLines(entries[..k + 1], shift) ==
      CommandLines(entries[..k], shift) + CommandLine(entries[k].name, shift, entries[k].description)
  {
    assert entries[..k + 1][..k] == entries[..k];
  }

  /** `k` more spaces after `text`. */
  method AppendSpaces(text: string, k: nat) returns (r: string)
    ensures r == text + Spaces(k)
  {
    r := text;
    var i := 0;
    while i < k
      invariant 0 <= i <= k
      invariant r == text + Spaces(i)
    {
      r := r + " ";
      i := i + 1;
      assert Spaces(i) == Spaces(i - 1) + " ";
    }
  }

  /** The sub-commands part of `PrintHelp`: the header, then for each sub-command its name,
      the padding loop and its description, then an empty line. */
  method AppendCommandsHelp(entries: seq<CommandEntry>) returns (text: string)
    ensures text == CommandsSection(entries)
  {
    text := "";
    if |entries| > 0 {
      var lines := AppendCommandLines(entries, MaxNameLength(entries) + 4);
      text := "Commands:" + NewLine + lines + NewLine;
    }
  }

  /** The loop over the sub-commands. */
  method AppendCommandLines(entries: seq<CommandEntry>, shift: nat) returns (lines: string)
    requires ShiftCovers(entries, shift)
    ensures lines == CommandLines(entries, shift)
  {
    lines := "";
    var k := 0;
    while k < |entries|
      invariant 0 <= k <= |entries|
      invariant ShiftCovers(entries[..k], shift)
      invariant lines == CommandLines(entries[..k], shift)
    {
      var line := AppendCommandLine(entries[k], shift);
      CommandLinesSnoc(entries, k, shift);
      lines := lines + line;
      k := k + 1;
    }
    assert entries[..k] == entries;
  }

  /** The body of the loop over the sub-commands: the name, the padding loop, the description. */
  method AppendCommandLine(entry: CommandEntry, shift: nat) returns (line: string)
    requires |entry.name| <= shift
    ensures line == CommandLine(entry.name, shift, entry.description)
  {
    line := "  " + entry.name;
    line := AppendSpaces(line, shift - |entry.name|);
    line := line + entry.description + NewLine;
  }

  // ---------------------------------------------------------------------------------------
  // The "Options:" table.

  /** The argument types after the long name: each type name, lower-cased, after a space. */
  function ArgTypesText(typeNames: seq<string>): string
    decreases |typeNames|
  {
    if |typeNames| == 0 then ""
    else ArgTypesText(typeNames[..|typeNames| - 1]) + " " + ToLower(typeNames[|typeNames| - 1])
  }

  /** What the width count adds for the argument types: each type name and one space. */
  function ArgTypesWidth(typeNames: seq<string>): nat
    decreases |typeNames|
  {
    if |typeNames| == 0 then 0
    else ArgTypesWidth(typeNames[..|typeNames| - 1]) + |typeNames[|typeNames| - 1]| + 1
  }

  /** The width counted is the width written: lower-casing keeps the length. */
  lemma {:induction false} ArgTypesTextWidth(typeNames: seq<string>)
    ensures |ArgTypesText(typeNames)| == ArgTypesWidth(typeNames)
    decreases |typeNames|
  {
    if |typeNames| > 0 {
      ArgTypesTextWidth(typeNames[..|typeNames| - 1]);
    }
  }

  /** The width `AppendOptionsHelp` counts for an option: the long name and its types. */
  function OptionWidth<A>(option: CommandOption<A>): nat {
    |option.longName| + ArgTypesWidth(option.requiredArgTypes)
  }

  /** The loop inside the width selector: the long name's length, then one type at a time. */
  method OptionHelpWidth<A>(option: CommandOption<A>) returns (len: nat)
    ensures len == OptionWidth(option)
  {
    len := |option.longName|;
    var k := 0;
    while k < |option.requiredArgTypes|
      invariant 0 <= k <= |option.requiredArgTypes|
      invariant len == |option.longName| + ArgTypesWidth(option.requiredArgTypes[..k])
    {
      len := len + |option.requiredArgTypes[k]| + 1;
      assert option.requiredArgTypes[..k + 1][..k] == option.requiredArgTypes[..k];
      k := k + 1;
    }
    assert option.requiredArgTypes[..k] == option.requiredArgTypes;
  }

  /** The `Max()` of the widths. */
  function MaxOptionWidth<A>(defs: seq<CommandOption<A>>): (r: nat)
    ensures forall i :: 0 <= i < |defs| ==> OptionWidth(defs[i]) <= r
    decreases |defs|
  {
    if |defs| == 0 then 0
    else
      var rest := MaxOptionWidth(defs[1..]);
      assert forall i :: 1 <= i < |defs| ==> defs[i] == defs[1..][i - 1];
      if OptionWidth(defs[0]) >= rest then OptionWidth(defs[0]) else rest
  }

  /** The maximum is the width of some option. */
  lemma {:induction false} MaxOptionWidthAttained<A>(defs: seq<CommandOption<A>>)
    requires |defs| > 0
    ensures exists i :: 0 <= i < |defs| && OptionWidth(defs[i]) == MaxOptionWidth(defs)
    decreases |defs|
  {
    if |defs| > 1 && OptionWidth(defs[0]) < MaxOptionWidth(defs[1..]) {
      MaxOptionWidthAttained(defs[1..]);
      var i :| 0 <= i < |defs[1..]| && OptionWidth(defs[1..][i]) == MaxOptionWidth(defs[1..]);
      assert defs[i + 1] == defs[1..][i];
    } else {
      assert OptionWidth(defs[0]) == MaxOptionWidth(defs);
    }
  }

  /** The short-name column: "-x, ", or four spaces when there is none. */
  function ShortNameColumn(shortName: Option<string>): string
  {
    if shortName.None? then "    " else shortName.value + ", "
  }

  /** One line of the table: two spaces, the short-name column, the long name and its
      types, padding up to the shift, then the description. */
  function OptionLine<A>(option: CommandOption<A>, shift: nat): string
    requires OptionWidth(option) <= shift
  {
    "  " + ShortNameColumn(option.shortName) + option.longName + ArgTypesText(option.requiredArgTypes)
      + Spaces(shift - OptionWidth(option)) + option.description + NewLine
  }

  /** The layout of an option's line: only spaces between the types and the description,
      which starts `shift` columns after the short-name column, and the line break last. */
  lemma OptionLineLayout<A>(option: CommandOption<A>, shift: nat)
    requires OptionWidth(option) <= shift
    ensures var r := OptionLine(option, shift);
      var column := 2 + |ShortNameColumn(option.shortName)| + shift;
      && |r| == column + |option.description| + 1
      && DescriptionAt(r, column, option.description)
      && (forall j :: column - (shift - OptionWidth(option)) <= j < column ==> r[j] == ' ')
      && r[|r| - 1] == '\n'
  {
    ArgTypesTextWidth(option.requiredArgTypes);
    var head := "  " + ShortNameColumn(option.shortName) + option.longName + ArgTypesText(option.requiredArgTypes);
    var r := OptionLine(option, shift);
    assert r == head + Spaces(shift - OptionWidth(option)) + option.description + NewLine;
    assert |head| == 2 + |ShortNameColumn(option.shortName)| + OptionWidth(option);
    var column := 2 + |ShortNameColumn(option.shortName)| + shift;
    assert r[column..column + |option.description|] == option.description;
  }

  predicate WidthCovers<A>(defs: seq<CommandOption<A>>, shift: nat) {
    forall i :: 0 <= i < |defs| ==> OptionWidth(defs[i]) <= shift
  }

  function OptionLines<A>(defs: seq<CommandOption<A>>, shift: nat): string
    requires WidthCovers(defs, shift)
    decreases |defs|
  {
    if |defs| == 0 then ""
    else OptionLines(defs[..|defs| - 1], shift) + OptionLine(defs[|defs| - 1], shift)
  }

  /** The table, or nothing when there is no option. */
  function OptionsSection<A>(defs: seq<CommandOption<A>>): string {
    if |defs| == 0 then ""
    else "Options:" + NewLine + OptionLines(defs, MaxOptionWidth(defs) + 4) + NewLine
  }

  /** The short-name column is four wide when the short name is absent or two characters
      long, as a short name without the final new line that name matching tolerates is. */
  predicate NarrowShortName<A>(option: CommandOption<A>) {
    option.shortName.None? || |option.shortName.value| == 2
  }

  lemma ValidShortNameIsNarrow<A>(option: CommandOption<A>)
    requires IsValidDefinition(option)
    requires option.shortName.Some? ==> '\n' !in option.shortName.value
    ensures NarrowShortName(option)
  {
    if option.shortName.Some? && |option.shortName.value| == 3 {
      assert option.shortName.value[2] in option.shortName.value;
    }
  }

  /** With narrow short names, every option's description starts at column `6 + shift`
      for any shift that covers every width, as four more than the widest does. */
  lemma OptionDescriptionsAligned<A>(defs: seq<CommandOption<A>>, shift: nat)
    requires WidthCovers(defs, shift)
    requires forall i :: 0 <= i < |defs| ==> NarrowShortName(defs[i])
    ensures forall i :: 0 <= i < |defs| ==> DescriptionAt(OptionLine(defs[i], shift), 6 + shift, defs[i].description)
  {
    forall i | 0 <= i < |defs|
      ensures DescriptionAt(OptionLine(defs[i], shift), 6 + shift, defs[i].description)
    {
      OptionLineColumn(defs[i], shift);
    }
  }

  /** The shift the table uses covers every width, leaves at least four spaces between every
      option's types and its description, and exactly four after the widest one's. */
  lemma OptionGaps<A>(defs: seq<CommandOption<A>>)
    requires |defs| > 0
    ensures WidthCovers(defs, MaxOptionWidth(defs) + 4)
    ensures forall i :: 0 <= i < |defs| ==> MaxOptionWidth(defs) + 4 - OptionWidth(defs[i]) >= 4
    ensures exists i :: 0 <= i < |defs| && MaxOptionWidth(defs) + 4 - OptionWidth(defs[i]) == 4
  {
    MaxOptionWidthAttained(defs);
  }

  lemma OptionLineColumn<A>(option: CommandOption<A>, shift: nat)
    requires OptionWidth(option) <= shift && NarrowShortName(option)
    ensures DescriptionAt(OptionLine(option, shift), 6 + shift, option.description)
  {
    OptionLineLayout(option, shift);
    assert |ShortNameColumn(option.shortName)| == 4;
  }

  /** One more option adds its line at the end. */
  lemma OptionLinesSnoc<A>(defs: seq<CommandOption<A>>, k: nat, shift: nat)
    requires k < |defs| && WidthCovers(defs, shift)
    ensures WidthCovers(defs[..k], shift) && WidthCovers(defs[..k + 1], shift)
    ensures OptionLines(defs[..k + 1], shift) == OptionLines(defs[..k], shift) + OptionLine(defs[k], shift)
  {
    assert defs[..k + 1][..k] == defs[..k];
  }

  /** The width selector of `AppendOptionsHelp`, with its loop, and its `Max()`. */
  method OptionsShift<A>(defs: seq<CommandOption<A>>) returns (shift: nat)
    requires |defs| > 0
    ensures shift == MaxOptionWidth(defs) + 4
  {
    var max := OptionHelpWidth(defs[|defs| - 1]);
    var k := |defs| - 1;
    while k > 0
      invariant 0 <= k < |defs|
      invariant max == MaxOptionWidth(defs[k..])
    {
      k := k - 1;
      var w := OptionHelpWidth(defs[k]);
      assert defs[k..][1..] == defs[k + 1..];
      max := if w >= max then w else max;
    }
    shift := max + 4;
  }

  /** `AppendOptionsHelp`: the header, then for each option the short-name column, the long
      name, the loop over its argument types counting the width, the padding loop and the
      description, then an empty line. */
  method AppendOptionsHelp<A>(defs: seq<CommandOption<A>>) returns (text: string)
    ensures text == OptionsSection(defs)
  {
    text := "";
    if |defs| > 0 {
      var shift := OptionsShift(defs);
      var lines := AppendOptionLines(defs, shift);
      text := "Options:" + NewLine + lines + NewLine;
    }
  }

  /** The loop over the options. */
  method AppendOptionLines<A>(defs: seq<CommandOption<A>>, shift: nat) returns (lines: string)
    requires WidthCovers(defs, shift)
    ensures lines == OptionLines(defs, shift)
  {
    lines := "";
    var k := 0;
    while k < |defs|
      invariant 0 <= k <= |defs|
      invariant WidthCovers(defs[..k], shift)
      invariant lines == OptionLines(defs[..k], shift)
    {
      var line := AppendOptionLine(defs[k], shift);
      OptionLinesSnoc(defs, k, shift);
      lines := lines + line;
      k := k + 1;
    }
    assert defs[..k] == defs;
  }

  /** The body of the loop over the options. */
  method AppendOptionLine<A>(option: CommandOption<A>, shift: nat) returns (line: string)
    requires OptionWidth(option) <= shift
    ensures line == OptionLine(option, shift)
  {
    line := "  " + ShortNameColumn(option.shortName) + option.longName;
    var strLen := |option.longName|;
    var types := option.requiredArgTypes;
    var k := 0;
    while k < |types|
      invariant 0 <= k <= |types|
      invariant line == "  " + ShortNameColumn(option.shortName) + option.longName + ArgTypesText(types[..k])
      invariant strLen == |option.longName| + ArgTypesWidth(types[..k])
    {
      line := line + " " + ToLower(types[k]);
      strLen := strLen + |types[k]| + 1;
      assert types[..k + 1][..k] == types[..k];
      k := k + 1;
    }
    assert types[..k] == types;
    line := AppendSpaces(line, shift - strLen);
    line := line + option.description + NewLine;
  }
}
