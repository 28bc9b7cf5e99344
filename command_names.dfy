/** How a command is named and found, from what reflection says about its type: the
    command name of a type (`GetCommandNameFromType`), the sub-commands of a command
    (`AvailableSubCommandTypes`, cached on first use) and the command path printed in help
    and errors (`CommandNamesPath`). Both versions of `CommandBase` do this alike. */
module CommandNames {
  import opened Wrappers
  import opened Failures
  import opened Text

  /** What reflection tells about a type: its name, its namespace (absent for the global
      namespace), whether it is a non-abstract class, and whether it derives from
      `CommandBase`. */
  datatype TypeInfo = TypeInfo(name: string, ns: Option<string>, isClass: bool, isAbstract: bool, isCommand: bool)

  const CommandWord := "Command"

  // ---------------------------------------------------------------------------------------
  // Command names.

  /** `GetCommandNameFromType`: the type name with every "Command" removed, lower-cased; a
      type that is not a command is refused. */
  function GetCommandNameFromType(t: TypeInfo): (r: Result<string, Error>)
    ensures r.Success? <==> t.isCommand
    ensures r.Failure? ==> r.error == ArgumentError(t.name + " is not a command type")
    ensures r.Success? ==> |r.value| <= |t.name| && forall i :: 0 <= i < |r.value| ==> !IsAsciiUpper(r.value[i])
  {
    if !t.isCommand then Failure(ArgumentError(t.name + " is not a command type"))
    else Success(ToLower(RemoveAll(t.name, CommandWord)))
  }

  /** A name is a base followed by "Command", with no other "Command" starting inside the
      base: only the suffix is removed. */
  lemma {:induction false} RemoveSuffixedWord(base: string)
    requires forall i: nat :: i < |base| ==> !OccursAt(base + CommandWord, CommandWord, i)
    ensures RemoveAll(base + CommandWord, CommandWord) == base
    decreases |base|
  {
    var s := base + CommandWord;
    if |base| == 0 {
      assert s == CommandWord;
      assert StartsWith(s, CommandWord);
      assert s[|CommandWord|..] == [];
    } else {
      assert !OccursAt(s, CommandWord, 0);
      assert !StartsWith(s, CommandWord);
      assert s[1..] == base[1..] + CommandWord;
      forall i: nat | i < |base[1..]| ensures !OccursAt(base[1..] + CommandWord, CommandWord, i) {
        assert !OccursAt(s, CommandWord, i + 1);
        assert s[i + 1..i + 1 + |CommandWord|] == (base[1..] + CommandWord)[i..i + |CommandWord|];
      }
      RemoveSuffixedWord(base[1..]);
      assert [s[0]] + base[1..] == base;
    }
  }

  /** So the command of type `<Base>Command` is called by its base name lower-cased, when
      "Command" does not also start inside the base. */
  lemma CommandNameOfSuffixedType(t: TypeInfo, base: string)
    requires t.isCommand && t.name == base + CommandWord
    requires forall i: nat :: i < |base| ==> !OccursAt(base + CommandWord, CommandWord, i)
    ensures GetCommandNameFromType(t) == Success(ToLower(base))
  {
    RemoveSuffixedWord(base);
  }

  /** The name of a command type read back as the name of a type is unchanged: command
      names are fixed points. */
  lemma CommandNameIsLowerCase(t: TypeInfo)
    requires t.isCommand
    ensures ToLower(GetCommandNameFromType(t).value) == GetCommandNameFromType(t).value
  {
    ToLowerIdempotent(RemoveAll(t.name, CommandWord));
  }

  // ---------------------------------------------------------------------------------------
  // Sub-command types.

  /** `GetType().Namespace + "." + GetType().Name.Replace("Command", "")`; a missing
      namespace concatenates as the empty string. */
  function SubCommandsNamespace(t: TypeInfo): (r: string)
    ensures r == (if t.ns.Some? then t.ns.value else "") + "." + RemoveAll(t.name, CommandWord)
  {
    (if t.ns.Some? then t.ns.value else "") + "." + RemoveAll(t.name, CommandWord)
  }

  /** The filter of `AvailableSubCommandTypes`. */
  predicate IsSubCommandType(t: TypeInfo, candidate: TypeInfo) {
    candidate.isClass && !candidate.isAbstract && candidate.ns == Some(SubCommandsNamespace(t)) && candidate.isCommand
  }

  /** `Where(...)`: the sub-command types of `t`, in the order of the assembly. */
  function SubCommandCandidates(assembly: seq<TypeInfo>, t: TypeInfo): (r: seq<TypeInfo>)
    ensures forall x :: x in r <==> x in assembly && IsSubCommandType(t, x)
    ensures |r| <= |assembly|
    decreases |assembly|
  {
    if |assembly| == 0 then []
    else
      var rest := SubCommandCandidates(assembly[1..], t);
      assert forall x :: x in assembly <==> x == assembly[0] || x in assembly[1..];
      if IsSubCommandType(t, assembly[0]) then [assembly[0]] + rest else rest
  }

  /** Ordinal string order: a prefix comes first, otherwise the first differing character
      decides. .NET's default string comparer, which `OrderBy` uses, is culture-sensitive
      instead; the model puts this order in its place. */
  predicate OrdinalLe(a: string, b: string)
    decreases |a|
  {
    |a| == 0 || (|b| > 0 && (a[0] < b[0] || (a[0] == b[0] && OrdinalLe(a[1..], b[1..]))))
  }

  lemma {:induction false} OrdinalTotal(a: string, b: string)
    ensures OrdinalLe(a, b) || OrdinalLe(b, a)
    decreases |a|
  {
    if |a| > 0 && |b| > 0 && a[0] == b[0] {
      OrdinalTotal(a[1..], b[1..]);
    }
  }

  lemma {:induction false} OrdinalTransitive(a: string, b: string, c: string)
    requires OrdinalLe(a, b) && OrdinalLe(b, c)
    ensures OrdinalLe(a, c)
    decreases |a|
  {
    if |a| > 0 && a[0] == b[0] && b[0] == c[0] {
      OrdinalTransitive(a[1..], b[1..], c[1..]);
    }
  }

  predicate SortedByName(types: seq<TypeInfo>) {
    forall i, j :: 0 <= i < j < |types| ==> OrdinalLe(types[i].name, types[j].name)
  }

  /** Insertion in front of the first type with a name not before `t`'s: ahead of equal
      names, as a stable sort puts an earlier element. */
  function InsertByName(t: TypeInfo, sorted: seq<TypeInfo>): (r: seq<TypeInfo>)
    ensures multiset(r) == multiset(sorted) + multiset{t}
    decreases |sorted|
  {
    if |sorted| == 0 then [t]
    else if OrdinalLe(t.name, sorted[0].name) then [t] + sorted
    else
      assert sorted == [sorted[0]] + sorted[1..];
      [sorted[0]] + InsertByName(t, sorted[1..])
  }

  lemma {:induction false} InsertByNameSorted(t: TypeInfo, sorted: seq<TypeInfo>)
    requires SortedByName(sorted)
    ensures SortedByName(InsertByName(t, sorted))
    decreases |sorted|
  {
    if |sorted| > 0 {
      if OrdinalLe(t.name, sorted[0].name) {
        InsertInFront(t, sorted);
      } else {
        OrdinalTotal(t.name, sorted[0].name);
        InsertByNameSorted(t, sorted[1..]);
        InsertBehind(t, sorted);
      }
    }
  }

  /** A type whose name comes before every name of a sorted sequence can head it. */
  lemma ConsSorted(x: TypeInfo, s: seq<TypeInfo>)
    requires SortedByName(s)
    requires forall j :: 0 <= j < |s| ==> OrdinalLe(x.name, s[j].name)
    ensures SortedByName([x] + s)
  {
    var r := [x] + s;
    forall i, j | 0 <= i < j < |r| ensures OrdinalLe(r[i].name, r[j].name) {
      assert r[j] == s[j - 1];
      if i > 0 {
        assert r[i] == s[i - 1];
      }
    }
  }

  lemma InsertInFront(t: TypeInfo, sorted: seq<TypeInfo>)
    requires SortedByName(sorted) && |sorted| > 0 && OrdinalLe(t.name, sorted[0].name)
    ensures SortedByName([t] + sorted)
  {
    forall j | 0 <= j < |sorted| ensures OrdinalLe(t.name, sorted[j].name) {
      if j > 0 {
        OrdinalTransitive(t.name, sorted[0].name, sorted[j].name);
      }
    }
    ConsSorted(t, sorted);
  }

  lemma InsertBehind(t: TypeInfo, sorted: seq<TypeInfo>)
    requires SortedByName(sorted) && |sorted| > 0 && OrdinalLe(sorted[0].name, t.name)
    requires SortedByName(InsertByName(t, sorted[1..]))
    ensures SortedByName([sorted[0]] + InsertByName(t, sorted[1..]))
  {
    var tail := InsertByName(t, sorted[1..]);
    forall j | 0 <= j < |tail| ensures OrdinalLe(sorted[0].name, tail[j].name) {
      InsertedElement(t, sorted[1..], j);
      if tail[j] != t {
        var k :| 0 <= k < |sorted[1..]| && sorted[1..][k] == tail[j];
        assert sorted[k + 1] == tail[j];
      }
    }
    ConsSorted(sorted[0], tail);
  }

  lemma InsertedElement(t: TypeInfo, sorted: seq<TypeInfo>, j: nat)
    requires j < |InsertByName(t, sorted)|
    ensures InsertByName(t, sorted)[j] == t || InsertByName(t, sorted)[j] in sorted
  {
    var r := InsertByName(t, sorted);
    assert r[j] in multiset(r);
  }

  /** `OrderBy(t => t.Name)`, with the ordinal order standing in for the culture-sensitive
      default comparer. */
  function SortByName(types: seq<TypeInfo>): (r: seq<TypeInfo>)
    decreases |types|
  {
    if |types| == 0 then [] else InsertByName(types[0], SortByName(types[1..]))
  }

  /** Sorting orders the types by name... */
  lemma {:induction false} SortByNameSorts(types: seq<TypeInfo>)
    ensures SortedByName(SortByName(types))
    decreases |types|
  {
    if |types| > 0 {
      SortByNameSorts(types[1..]);
      InsertByNameSorted(types[0], SortByName(types[1..]));
    }
  }

  /** ... and keeps them. */
  lemma {:induction false} SortByNamePermutes(types: seq<TypeInfo>)
    ensures multiset(SortByName(types)) == multiset(types)
    decreases |types|
  {
    if |types| > 0 {
      SortByNamePermutes(types[1..]);
      assert types == [types[0]] + types[1..];
    }
  }

  /** `AvailableSubCommandTypes` as computed on first use. */
  function SubCommandTypes(assembly: seq<TypeInfo>, t: TypeInfo): seq<TypeInfo> {
    SortByName(SubCommandCandidates(assembly, t))
  }

  /** The sub-commands are exactly the non-abstract command classes of the assembly in the
      namespace named after the command, ordered by type name. */
  lemma SubCommandTypesSpec(assembly: seq<TypeInfo>, t: TypeInfo)
    ensures var r := SubCommandTypes(assembly, t);
      && SortedByName(r)
      && (forall x :: x in r <==> x in assembly && IsSubCommandType(t, x))
  {
    var candidates := SubCommandCandidates(assembly, t);
    SortByNameSorts(candidates);
    SortByNamePermutes(candidates);
    forall x ensures x in SortByName(candidates) <==> x in candidates {
      assert x in multiset(SortByName(candidates)) <==> x in multiset(candidates);
    }
  }

  /** A command object: its type, the types of the assembly, and the cache behind
      `AvailableSubCommandTypes`. */
  class Command {
    const commandType: TypeInfo
    const assembly: seq<TypeInfo>
    var availableSubCommandTypes: Option<seq<TypeInfo>>

    /** A cached list is the one computed from the assembly. */
    predicate Valid()
      reads this
    {
      availableSubCommandTypes.Some? ==> availableSubCommandTypes.value == SubCommandTypes(assembly, commandType)
    }

    constructor(commandType: TypeInfo, assembly: seq<TypeInfo>)
      ensures Valid()
      ensures this.commandType == commandType && this.assembly == assembly
      ensures availableSubCommandTypes.None?
    {
      this.commandType := commandType;
      this.assembly := assembly;
      availableSubCommandTypes := None;
    }

    /** The getter: computed and cached on first use, the cached list afterwards. */
    method AvailableSubCommandTypes() returns (types: seq<TypeInfo>)
      requires Valid()
      modifies this
      ensures Valid()
      ensures types == SubCommandTypes(assembly, commandType)
      ensures availableSubCommandTypes == Some(types)
    {
      if availableSubCommandTypes.None? {
        availableSubCommandTypes := Some(SortByName(SubCommandCandidates(assembly, commandType)));
      }
      types := availableSubCommandTypes.value;
    }
  }

  /** `AvailableSubCommandTypes.FirstOrDefault(t => GetCommandNameFromType(t) == name)`, on
      types that are commands (so the name never throws). */
  function SelectSubCommand(types: seq<TypeInfo>, name: string): (r: Option<nat>)
    requires forall i :: 0 <= i < |types| ==> types[i].isCommand
    ensures r.Some? ==> r.value < |types| && GetCommandNameFromType(types[r.value]) == Success(name)
    ensures r.Some? ==> forall j :: 0 <= j < r.value ==> GetCommandNameFromType(types[j]) != Success(name)
    ensures r.None? ==> forall j :: 0 <= j < |types| ==> GetCommandNameFromType(types[j]) != Success(name)
    decreases |types|
  {
    if |types| == 0 then None
    else if GetCommandNameFromType(types[0]) == Success(name) then Some(0)
    else
      match SelectSubCommand(types[1..], name)
      case None => None
      case Some(i) => Some(i + 1)
  }

  /** Every available sub-command type is a command type. */
  lemma SubCommandTypesAreCommands(assembly: seq<TypeInfo>, t: TypeInfo)
    ensures forall i :: 0 <= i < |SubCommandTypes(assembly, t)| ==> SubCommandTypes(assembly, t)[i].isCommand
  {
    SubCommandTypesSpec(assembly, t);
    var r := SubCommandTypes(assembly, t);
    forall i | 0 <= i < |r| ensures r[i].isCommand {
      assert r[i] in r;
    }
  }

  // ---------------------------------------------------------------------------------------
  // The command path.

  /** `Reverse().TakeWhile(n => n != "commands").Reverse()`: the longest run at the end of
      `parts` in which no part is "commands". */
  function TrailingNonCommands(parts: seq<string>): (r: seq<string>)
    ensures |r| <= |parts| && r == parts[|parts| - |r|..]
    ensures forall i :: 0 <= i < |r| ==> r[i] != "commands"
    ensures |r| < |parts| ==> parts[|parts| - |r| - 1] == "commands"
  {
    parts[LastCommandsEnd(parts)..]
  }

  /** The position just after the last "commands" part, 0 when there is none. */
  function LastCommandsEnd(parts: seq<string>): (k: nat)
    ensures k <= |parts|
    ensures forall i :: k <= i < |parts| ==> parts[i] != "commands"
    ensures k > 0 ==> parts[k - 1] == "commands"
    decreases |parts|
  {
    if |parts| == 0 then 0
    else if parts[|parts| - 1] == "commands" then |parts|
    else LastCommandsEnd(parts[..|parts| - 1])
  }

  /** `CommandNamesPath`: the lower-cased namespace segments after the last "commands"
      segment, then the command's own name, joined by single spaces; a command in the global
      namespace throws `InvalidOperationException` with its default message. */
  function CommandNamesPath(t: TypeInfo): (r: Result<string, Error>)
    ensures t.ns.None? ==> r == Failure(DefaultInvalidOperation)
    ensures t.ns.Some? && !t.isCommand ==> r == Failure(ArgumentError(t.name + " is not a command type"))
    ensures r.Success? ==> t.ns.Some? && t.isCommand
  {
    if t.ns.None? then Failure(DefaultInvalidOperation)
    else
      var parents := TrailingNonCommands(ToLowerAll(Split(t.ns.value, '.')));
      var name :- GetCommandNameFromType(t);
      Success(Join(" ", parents + [name]))
  }

  /** The path of a command is its parent names and its name, each separated by one space:
      splitting the path at the spaces gives the names back when none contains a space. */
  lemma CommandNamesPathParts(t: TypeInfo)
    requires CommandNamesPath(t).Success?
    requires forall c :: c in t.ns.value ==> c != ' '
    requires forall c :: c in t.name ==> c != ' '
    ensures var parents := TrailingNonCommands(ToLowerAll(Split(t.ns.value, '.')));
      Split(CommandNamesPath(t).value, ' ') == parents + [GetCommandNameFromType(t).value]
  {
    var parts := ToLowerAll(Split(t.ns.value, '.'));
    var parents := TrailingNonCommands(parts);
    var names := parents + [GetCommandNameFromType(t).value];
    forall k | 0 <= k < |names| ensures ' ' !in names[k] {
      if k < |parents| {
        NoSpaceInLowerParts(t.ns.value, |parts| - |parents| + k);
        assert names[k] == parts[|parts| - |parents| + k];
      } else {
        RemoveAllKeepsOut(t.name, CommandWord, ' ');
        assert names[k] == ToLower(RemoveAll(t.name, CommandWord));
      }
    }
    SplitJoin(names, ' ');
  }

  lemma NoSpaceInLowerParts(ns: string, i: nat)
    requires forall c :: c in ns ==> c != ' '
    requires i < |Split(ns, '.')|
    ensures ' ' !in ToLower(Split(ns, '.')[i])
  {
    var piece := Split(ns, '.')[i];
    SplitPiecesAreIn(ns, '.', i);
    forall j | 0 <= j < |piece| ensures ToLower(piece)[j] != ' ' {
      assert piece[j] in piece;
    }
  }

  /** Every character of a piece of a split is a character of the text. */
  lemma {:induction false} SplitPiecesAreIn(s: string, sep: char, i: nat)
    requires i < |Split(s, sep)|
    ensures forall c :: c in Split(s, sep)[i] ==> c in s
    decreases |s|
  {
    if |s| > 0 {
      var rest := Split(s[1..], sep);
      if s[0] == sep {
        if i > 0 {
          SplitPiecesAreIn(s[1..], sep, i - 1);
        }
      } else if i == 0 {
        SplitPiecesAreIn(s[1..], sep, 0);
      } else {
        SplitPiecesAreIn(s[1..], sep, i);
      }
    }
  }

  /** Removing a pattern brings in no character that was not there. */
  lemma {:induction false} RemoveAllKeepsOut(s: string, pattern: string, c: char)
    requires |pattern| > 0
    requires c !in s
    ensures c !in RemoveAll(s, pattern)
    decreases |s|
  {
    if |s| > 0 {
      if StartsWith(s, pattern) {
        RemoveAllKeepsOut(s[|pattern|..], pattern, c);
      } else {
        RemoveAllKeepsOut(s[1..], pattern, c);
      }
    }
  }

  /** Joining with a separator that occurs in no part, then splitting, gives the parts. */
  lemma {:induction false} SplitJoin(parts: seq<string>, sep: char)
    requires |parts| > 0
    requires forall k :: 0 <= k < |parts| ==> sep !in parts[k]
    ensures Split(Join([sep], parts), sep) == parts
    decreases |parts|
  {
    if |parts| == 1 {
      SplitWithoutSeparator(parts[0], sep);
    } else {
      JoinCons([sep], parts[0], parts[1..]);
      assert [parts[0]] + parts[1..] == parts;
      SplitJoin(parts[1..], sep);
      SplitAfterPiece(parts[0], Join([sep], parts[1..]), sep);
    }
  }

  lemma {:induction false} SplitWithoutSeparator(s: string, sep: char)
    requires sep !in s
    ensures Split(s, sep) == [s]
    decreases |s|
  {
    if |s| > 0 {
      SplitWithoutSeparator(s[1..], sep);
      assert [s[0]] + s[1..] == s;
    }
  }

  lemma {:induction false} SplitAfterPiece(piece: string, rest: string, sep: char)
    requires sep !in piece
    ensures Split(piece + [sep] + rest, sep) == [piece] + Split(rest, sep)
    decreases |piece|
  {
    var s := piece + [sep] + rest;
    if |piece| == 0 {
      assert s == [sep] + rest;
      assert s[1..] == rest;
    } else {
      assert s[1..] == piece[1..] + [sep] + rest;
      SplitAfterPiece(piece[1..], rest, sep);
      assert [piece[0]] + piece[1..] == piece;
    }
  }
}
