/** `CommandOptionsBase.ParseArgs`: the options engine. It reads the leading run of arguments
    that start with '-', looks each one up among the definitions, refuses unknown and repeated
    options and options whose arguments are missing, hands each option its arguments (the
    `OnFound` callback, here `apply` on the option's action tag), and finally runs every
    requirement over the options found.

    The settings the callbacks change are a value of type `S`: `apply(s, tag, args)` is the
    new settings, or the exception the callback throws (an unparsable number, say). */
module CommandOptionsBase {
  import opened Wrappers
  import opened Failures
  import opened Text
  import opened CommandOptions
  import opened OptionRequirementBase
  import opened OptionRequirements

  /** `arg.StartsWith('-')`. */
  predicate IsOptionToken(arg: string) {
    |arg| > 0 && arg[0] == '-'
  }

  function UnknownOptionMessage(optName: string): string {
    optName + " is not a valid option"
  }

  function DuplicateOptionMessage(optName: string): string {
    optName + " option is duplicate"
  }

  function MissingArgsMessage(optName: string, typeNames: seq<string>): string {
    optName + " requires " + NatToString(|typeNames|) + " args: " + Join(" ", ToLowerAll(typeNames))
  }

  /** `foundOptions.Any(opt => opt.Option.ShortName == optName || opt.Option.LongName == optName)`. */
  predicate AlreadyFound<A>(found: seq<ParsedOption<A>>, optName: string) {
    exists j :: 0 <= j < |found| && Matches(found[j].option, optName)
  }

  /** Where the option loop ends: the settings reached, the options found so far, and either
      the number of arguments consumed or the exception that ended the loop. */
  datatype Scan<S, A> = Scan(state: S, found: seq<ParsedOption<A>>, result: Result<nat, Error>)

  /** What one turn of the loop does at argument `pos`: stop, with the count consumed or the
      exception, or record an option and go on at `resume` with the callback's settings. */
  datatype Turn<S, A> = Stop(result: Result<nat, Error>) | Record(next: S, parsed: ParsedOption<A>, resume: nat)

  /** One turn of the loop: an argument not starting with '-' (or none left) ends it; an
      unknown name, a repeated option, missing arguments and a throwing callback end it
      with an exception; otherwise the option is recorded with its arguments. */
  function NextTurn<S, A>(
    defs: seq<CommandOption<A>>,
    apply: (S, A, seq<string>) -> Result<S, Error>,
    args: seq<string>,
    pos: nat,
    state: S,
    found: seq<ParsedOption<A>>): (t: Turn<S, A>)
    requires pos <= |args|
    ensures (pos == |args| || !IsOptionToken(args[pos])) <==> t == Stop(Success(pos))
    ensures t.Stop? && t.result.Success? ==> t.result.value == pos
    ensures t.Record? ==>
      && pos < |args| && IsOptionToken(args[pos])
      && FirstMatching(defs, args[pos]).Some?
      && !AlreadyFound(found, args[pos])
      && var option := defs[FirstMatching(defs, args[pos]).value];
         && t.resume == pos + 1 + |option.requiredArgTypes| <= |args|
         && t.parsed == ParsedOption(option, args[pos], args[pos + 1..t.resume])
         && apply(state, option.onFound, t.parsed.parsedArgs) == Success(t.next)
  {
    if pos == |args| || !IsOptionToken(args[pos]) then Stop(Success(pos))
    else
      var optName := args[pos];
      match FirstMatching(defs, optName)
      case None => Stop(Failure(ArgumentError(UnknownOptionMessage(optName))))
      case Some(d) =>
        var option := defs[d];
        var k := |option.requiredArgTypes|;
        if AlreadyFound(found, optName) then
          Stop(Failure(ArgumentError(DuplicateOptionMessage(optName))))
        else if |args| - (pos + 1) < k then
          Stop(Failure(ArgumentError(MissingArgsMessage(optName, option.requiredArgTypes))))
        else
          var optArgs := args[pos + 1..pos + 1 + k];
          match apply(state, option.onFound, optArgs)
          case Failure(e) => Stop(Failure(e))
          case Success(next) => Record(next, ParsedOption(option, optName, optArgs), pos + 1 + k)
  }
  /** The three `ArgumentException`s of a turn, checked in this order: an unknown name, an
      option already found (by either of its names), too few arguments left for it. */
  lemma NextTurnErrors<S, A>(
    defs: seq<CommandOption<A>>,
    apply: (S, A, seq<string>) -> Result<S, Error>,
    args: seq<string>,
    pos: nat,
    state: S,
    found: seq<ParsedOption<A>>)
    requires pos < |args| && IsOptionToken(args[pos])
    ensures var t := NextTurn(defs, apply, args, pos, state, found);
      && (FirstMatching(defs, args[pos]).None? ==>
            t == Stop(Failure(ArgumentError(UnknownOptionMessage(args[pos])))))
      && (FirstMatching(defs, args[pos]).Some? && AlreadyFound(found, args[pos]) ==>
            t == Stop(Failure(ArgumentError(DuplicateOptionMessage(args[pos])))))
      && (FirstMatching(defs, args[pos]).Some? && !AlreadyFound(found, args[pos]) &&
          |args| - (pos + 1) < |defs[FirstMatching(defs, args[pos]).value].requiredArgTypes| ==>
            t == Stop(Failure(ArgumentError(MissingArgsMessage(args[pos],
                                defs[FirstMatching(defs, args[pos]).value].requiredArgTypes)))))
  {
  }


  /** The option loop from argument `pos`, with settings `state` and options `found` so far. */
  function ScanFrom<S, A>(
    defs: seq<CommandOption<A>>,
    apply: (S, A, seq<string>) -> Result<S, Error>,
    args: seq<string>,
    pos: nat,
    state: S,
    found: seq<ParsedOption<A>>): Scan<S, A>
    requires pos <= |args|
    decreases |args| - pos
  {
    match NextTurn(defs, apply, args, pos, state, found)
    case Stop(result) => Scan(state, found, result)
    case Record(next, p, resume) => ScanFrom(defs, apply, args, resume, next, found + [p])
  }

  /** The result of `ParseArgs`: the settings reached, the options found, the messages
      reported under "Invalid options:", and the count of consumed arguments or the exception. */
  datatype Outcome<S, A> = Outcome(state: S, found: seq<ParsedOption<A>>, optionErrors: seq<string>, result: Result<nat, Error>)

  /** The option loop from the first argument, then the requirement check. */
  function ParseArgsSpec<S, A>(
    defs: seq<CommandOption<A>>,
    reqs: seq<Requirement>,
    apply: (S, A, seq<string>) -> Result<S, Error>,
    tryParse: string -> Option<real>,
    s0: S,
    args: seq<string>): Outcome<S, A>
  {
    var scan := ScanFrom(defs, apply, args, 0, s0, []);
    if scan.result.Failure? then Outcome(scan.state, scan.found, [], scan.result)
    else
      match ValidateAll(defs, scan.found, reqs, tryParse)
      case Failure(e) => Outcome(scan.state, scan.found, [], Failure(e))
      case Success(errors) =>
        if |errors| != 0 then Outcome(scan.state, scan.found, errors, Failure(ArgumentError("Errors with command options")))
        else Outcome(scan.state, scan.found, [], scan.result)
  }

  /** A turn that stops on an exception ends the parse with that exception and the settings
      and options reached. */
  lemma StopEndsParse<S, A>(
    defs: seq<CommandOption<A>>,
    reqs: seq<Requirement>,
    apply: (S, A, seq<string>) -> Result<S, Error>,
    tryParse: string -> Option<real>,
    s0: S,
    args: seq<string>,
    pos: nat,
    state: S,
    found: seq<ParsedOption<A>>)
    requires pos <= |args|
    requires ScanFrom(defs, apply, args, pos, state, found) == ScanFrom(defs, apply, args, 0, s0, [])
    requires NextTurn(defs, apply, args, pos, state, found).Stop?
    requires NextTurn(defs, apply, args, pos, state, found).result.Failure?
    ensures ParseArgsSpec(defs, reqs, apply, tryParse, s0, args)
      == Outcome(state, found, [], NextTurn(defs, apply, args, pos, state, found).result)
  {
  }

  /** A turn that records an option continues the scan after its arguments. */
  lemma RecordContinuesScan<S, A>(
    defs: seq<CommandOption<A>>,
    apply: (S, A, seq<string>) -> Result<S, Error>,
    args: seq<string>,
    pos: nat,
    state: S,
    found: seq<ParsedOption<A>>)
    requires pos <= |args|
    requires NextTurn(defs, apply, args, pos, state, found).Record?
    ensures var t := NextTurn(defs, apply, args, pos, state, found);
      ScanFrom(defs, apply, args, pos, state, found) == ScanFrom(defs, apply, args, t.resume, t.next, found + [t.parsed])
  {
  }

  /** At the end of the arguments, or at one not starting with '-', the scan ends with the
      count consumed. */
  lemma ExitEndsScan<S, A>(
    defs: seq<CommandOption<A>>,
    apply: (S, A, seq<string>) -> Result<S, Error>,
    args: seq<string>,
    pos: nat,
    state: S,
    found: seq<ParsedOption<A>>)
    requires pos <= |args|
    requires pos == |args| || !IsOptionToken(args[pos])
    ensures ScanFrom(defs, apply, args, pos, state, found) == Scan(state, found, Success(pos))
  {
  }

  /** A scan that consumed `n` arguments ends the parse with the requirement check. */
  lemma ScanEndsParse<S, A>(
    defs: seq<CommandOption<A>>,
    reqs: seq<Requirement>,
    apply: (S, A, seq<string>) -> Result<S, Error>,
    tryParse: string -> Option<real>,
    s0: S,
    args: seq<string>,
    n: nat,
    state: S,
    found: seq<ParsedOption<A>>)
    requires ScanFrom(defs, apply, args, 0, s0, []) == Scan(state, found, Success(n))
    ensures var v := ValidateAll(defs, found, reqs, tryParse);
      ParseArgsSpec(defs, reqs, apply, tryParse, s0, args)
        == if v.Failure? then Outcome(state, found, [], Failure(v.error))
           else if |v.value| != 0 then Outcome(state, found, v.value, Failure(ArgumentError("Errors with command options")))
           else Outcome(state, found, [], Success(n))
  {
  }

  /** `ParseArgs` itself: the `while` loop over `parsedArgsCount` and `foundOptions`. */
  method ParseArgs<S, A>(
    defs: seq<CommandOption<A>>,
    reqs: seq<Requirement>,
    apply: (S, A, seq<string>) -> Result<S, Error>,
    tryParse: string -> Option<real>,
    s0: S,
    args: seq<string>) returns (o: Outcome<S, A>)
    ensures o == ParseArgsSpec(defs, reqs, apply, tryParse, s0, args)
  {
    var parsedArgsCount := 0;
    var foundOptions: seq<ParsedOption<A>> := [];
    var state := s0;
    while parsedArgsCount < |args| && IsOptionToken(args[parsedArgsCount])
      invariant parsedArgsCount <= |args|
      invariant ScanFrom(defs, apply, args, parsedArgsCount, state, foundOptions) == ScanFrom(defs, apply, args, 0, s0, [])
      decreases |args| - parsedArgsCount
    {
      ghost var pos := parsedArgsCount;
      var optName := args[parsedArgsCount];
      parsedArgsCount := parsedArgsCount + 1;

      var d := FirstMatching(defs, optName);
      NextTurnErrors(defs, apply, args, pos, state, foundOptions);
      if d.None? {
        StopEndsParse(defs, reqs, apply, tryParse, s0, args, pos, state, foundOptions);
        return Outcome(state, foundOptions, [], Failure(ArgumentError(UnknownOptionMessage(optName))));
      }
      var foundOption := defs[d.value];

      if AlreadyFound(foundOptions, optName) {
        StopEndsParse(defs, reqs, apply, tryParse, s0, args, pos, state, foundOptions);
        return Outcome(state, foundOptions, [], Failure(ArgumentError(DuplicateOptionMessage(optName))));
      }

      var k := |foundOption.requiredArgTypes|;
      if |args| - parsedArgsCount < k {
        StopEndsParse(defs, reqs, apply, tryParse, s0, args, pos, state, foundOptions);
        return Outcome(state, foundOptions, [],
          Failure(ArgumentError(MissingArgsMessage(optName, foundOption.requiredArgTypes))));
      }

      var requiredOptArgs := args[parsedArgsCount..parsedArgsCount + k];
      parsedArgsCount := parsedArgsCount + k;
      var next := apply(state, foundOption.onFound, requiredOptArgs);
      if next.Failure? {
        assert NextTurn(defs, apply, args, pos, state, foundOptions) == Stop(Failure(next.error));
        StopEndsParse(defs, reqs, apply, tryParse, s0, args, pos, state, foundOptions);
        return Outcome(state, foundOptions, [], Failure(next.error));
      }
      assert NextTurn(defs, apply, args, pos, state, foundOptions)
        == Record(next.value, ParsedOption(foundOption, optName, requiredOptArgs), parsedArgsCount);
      RecordContinuesScan(defs, apply, args, pos, state, foundOptions);
      state := next.value;

      foundOptions := foundOptions + [ParsedOption(foundOption, optName, requiredOptArgs)];
    }

    ExitEndsScan(defs, apply, args, parsedArgsCount, state, foundOptions);
    ScanEndsParse(defs, reqs, apply, tryParse, s0, args, parsedArgsCount, state, foundOptions);
    var optionErrors := ValidateAll(defs, foundOptions, reqs, tryParse);
    if optionErrors.Failure? {
      return Outcome(state, foundOptions, [], Failure(optionErrors.error));
    }
    if |optionErrors.value| != 0 {
      return Outcome(state, foundOptions, optionErrors.value, Failure(ArgumentError("Errors with command options")));
    }
    return Outcome(state, foundOptions, [], Success(parsedArgsCount));
  }

  // ---------------------------------------------------------------------------------------
  // What the loop keeps.

  /** The arguments the found options account for: each typed name followed by its arguments. */
  function Tokens<A>(found: seq<ParsedOption<A>>): seq<string>
    decreases |found|
  {
    if |found| == 0 then []
    else
      var last := found[|found| - 1];
      Tokens(found[..|found| - 1]) + [last.parsedName] + last.parsedArgs
  }

  /** The settings reached by running the callbacks of `found`, in order, from `s0`. */
  function FoldApply<S, A>(apply: (S, A, seq<string>) -> Result<S, Error>, s0: S, found: seq<ParsedOption<A>>)
    : Result<S, Error>
    decreases |found|
  {
    if |found| == 0 then Success(s0)
    else
      var last := found[|found| - 1];
      var s :- FoldApply(apply, s0, found[..|found| - 1]);
      apply(s, last.option.onFound, last.parsedArgs)
  }

  /** A found option was typed as an option, is the first definition known under the typed
      name, and carries exactly as many arguments as the definition requires. */
  ghost predicate WellFound<A>(defs: seq<CommandOption<A>>, p: ParsedOption<A>) {
    && IsOptionToken(p.parsedName)
    && FirstMatching(defs, p.parsedName).Some?
    && defs[FirstMatching(defs, p.parsedName).value] == p.option
    && |p.parsedArgs| == |p.option.requiredArgTypes|
  }

  /** No option found is known under a name typed after it. */
  predicate NoRepeats<A>(found: seq<ParsedOption<A>>) {
    forall i, j :: 0 <= i < j < |found| ==> !Matches(found[i].option, found[j].parsedName)
  }

  ghost predicate FoundInvariant<S, A>(
    defs: seq<CommandOption<A>>,
    apply: (S, A, seq<string>) -> Result<S, Error>,
    s0: S,
    state: S,
    found: seq<ParsedOption<A>>)
  {
    NoRepeats(found) && FoldApply(apply, s0, found) == Success(state)
  }

  ghost predicate AllWellFound<A>(defs: seq<CommandOption<A>>, found: seq<ParsedOption<A>>) {
    forall i :: 0 <= i < |found| ==> WellFound(defs, found[i])
  }

  /** The loop stops at the end of the arguments or at one that is not an option. */
  lemma ScanStop<S, A>(
    defs: seq<CommandOption<A>>,
    apply: (S, A, seq<string>) -> Result<S, Error>,
    args: seq<string>,
    pos: nat,
    state: S,
    found: seq<ParsedOption<A>>)
    requires pos == |args| || (pos < |args| && !IsOptionToken(args[pos]))
    ensures ScanFrom(defs, apply, args, pos, state, found) == Scan(state, found, Success(pos))
  {
  }

  /** One round of the loop that records an option (used to follow a concrete run). */
  lemma ScanStep<S, A>(
    defs: seq<CommandOption<A>>,
    apply: (S, A, seq<string>) -> Result<S, Error>,
    args: seq<string>,
    pos: nat,
    state: S,
    found: seq<ParsedOption<A>>,
    d: nat,
    next: S)
    requires pos < |args| && IsOptionToken(args[pos])
    requires FirstMatching(defs, args[pos]) == Some(d)
    requires !AlreadyFound(found, args[pos])
    requires pos + 1 + |defs[d].requiredArgTypes| <= |args|
    requires apply(state, defs[d].onFound, args[pos + 1..pos + 1 + |defs[d].requiredArgTypes|]) == Success(next)
    ensures var k := |defs[d].requiredArgTypes|;
      ScanFrom(defs, apply, args, pos, state, found) ==
      ScanFrom(defs, apply, args, pos + 1 + k, next, found + [ParsedOption(defs[d], args[pos], args[pos + 1..pos + 1 + k])])
  {
  }

  lemma TokensSnoc<A>(found: seq<ParsedOption<A>>, p: ParsedOption<A>)
    ensures Tokens(found + [p]) == Tokens(found) + [p.parsedName] + p.parsedArgs
  {
    assert (found + [p])[..|found|] == found;
  }

  lemma FoldApplySnoc<S, A>(apply: (S, A, seq<string>) -> Result<S, Error>, s0: S, found: seq<ParsedOption<A>>, p: ParsedOption<A>)
    requires FoldApply(apply, s0, found).Success?
    ensures FoldApply(apply, s0, found + [p]) == apply(FoldApply(apply, s0, found).value, p.option.onFound, p.parsedArgs)
  {
    assert (found + [p])[..|found|] == found;
  }

  /** One turn of the loop that records an option keeps the invariant. */
  lemma StepKeeps<S, A>(
    defs: seq<CommandOption<A>>,
    apply: (S, A, seq<string>) -> Result<S, Error>,
    s0: S,
    args: seq<string>,
    pos: nat,
    state: S,
    found: seq<ParsedOption<A>>)
    requires pos <= |args| && Tokens(found) == args[..pos]
    requires FoundInvariant(defs, apply, s0, state, found)
    requires NextTurn(defs, apply, args, pos, state, found).Record?
    ensures var t := NextTurn(defs, apply, args, pos, state, found);
      Tokens(found + [t.parsed]) == args[..t.resume] && FoundInvariant(defs, apply, s0, t.next, found + [t.parsed])
  {
    var t := NextTurn(defs, apply, args, pos, state, found);
    var p := t.parsed;
    var found' := found + [p];
    TokensSnoc(found, p);
    assert args[..t.resume] == args[..pos] + [args[pos]] + p.parsedArgs;
    FoldApplySnoc(apply, s0, found, p);
    forall i, j | 0 <= i < j < |found'| ensures !Matches(found'[i].option, found'[j].parsedName) {
      if j == |found| {
        assert found'[i] == found[i];
        assert !AlreadyFound(found, args[pos]);
      } else {
        assert found'[i] == found[i] && found'[j] == found[j];
      }
    }
  }

  /** The loop keeps its invariant: no option found repeats an earlier one, the settings are
      the callbacks' fold, and options are only ever added. */
  lemma {:induction false} ScanFromKeeps<S, A>(
    defs: seq<CommandOption<A>>,
    apply: (S, A, seq<string>) -> Result<S, Error>,
    s0: S,
    args: seq<string>,
    pos: nat,
    state: S,
    found: seq<ParsedOption<A>>)
    requires pos <= |args| && Tokens(found) == args[..pos]
    requires FoundInvariant(defs, apply, s0, state, found)
    ensures var r := ScanFrom(defs, apply, args, pos, state, found);
      FoundInvariant(defs, apply, s0, r.state, r.found) && |found| <= |r.found| && r.found[..|found|] == found
    decreases |args| - pos
  {
    var t := NextTurn(defs, apply, args, pos, state, found);
    if t.Record? {
      var found' := found + [t.parsed];
      var r := ScanFrom(defs, apply, args, t.resume, t.next, found');
      StepKeeps(defs, apply, s0, args, pos, state, found);
      ScanFromKeeps(defs, apply, s0, args, t.resume, t.next, found');
      assert r.found[..|found|] == r.found[..|found'|][..|found|];
    }
  }

  /** Every option the loop records is well found. */
  lemma {:induction false} ScanFromWellFound<S, A>(
    defs: seq<CommandOption<A>>,
    apply: (S, A, seq<string>) -> Result<S, Error>,
    args: seq<string>,
    pos: nat,
    state: S,
    found: seq<ParsedOption<A>>)
    requires pos <= |args| && AllWellFound(defs, found)
    ensures AllWellFound(defs, ScanFrom(defs, apply, args, pos, state, found).found)
    decreases |args| - pos
  {
    var t := NextTurn(defs, apply, args, pos, state, found);
    if t.Record? {
      var found' := found + [t.parsed];
      assert WellFound(defs, t.parsed);
      assert AllWellFound(defs, found') by {
        forall i | 0 <= i < |found'| ensures WellFound(defs, found'[i]) {
          if i < |found| { assert found'[i] == found[i]; }
        }
      }
      ScanFromWellFound(defs, apply, args, t.resume, t.next, found');
    }
  }

  /** The found options spell out a prefix of the arguments: each typed name followed by its
      own arguments. A successful loop has consumed exactly that prefix and stopped at the end
      of the arguments or at one not starting with '-'. */
  lemma {:induction false} ScanFromConsumes<S, A>(
    defs: seq<CommandOption<A>>,
    apply: (S, A, seq<string>) -> Result<S, Error>,
    args: seq<string>,
    pos: nat,
    state: S,
    found: seq<ParsedOption<A>>)
    requires pos <= |args| && Tokens(found) == args[..pos]
    ensures var r := ScanFrom(defs, apply, args, pos, state, found);
      && |Tokens(r.found)| <= |args| && Tokens(r.found) == args[..|Tokens(r.found)|]
      && (r.result.Success? ==>
            && pos <= r.result.value <= |args|
            && Tokens(r.found) == args[..r.result.value]
            && (r.result.value == |args| || !IsOptionToken(args[r.result.value])))
    decreases |args| - pos
  {
    var t := NextTurn(defs, apply, args, pos, state, found);
    if t.Record? {
      var p := t.parsed;
      TokensSnoc(found, p);
      assert args[..t.resume] == args[..pos] + [args[pos]] + p.parsedArgs;
      ScanFromConsumes(defs, apply, args, t.resume, t.next, found + [p]);
    }
  }

  /** Everything the loop from the first argument guarantees about what it found, however it
      ended. */
  lemma ScanFound<S, A>(
    defs: seq<CommandOption<A>>,
    apply: (S, A, seq<string>) -> Result<S, Error>,
    s0: S,
    args: seq<string>)
    ensures var scan := ScanFrom(defs, apply, args, 0, s0, []);
      && AllWellFound(defs, scan.found)
      && NoRepeats(scan.found)
      && (forall i, j :: 0 <= i < j < |scan.found| ==> scan.found[i].option != scan.found[j].option)
      && FoldApply(apply, s0, scan.found) == Success(scan.state)
      && |Tokens(scan.found)| <= |args| && Tokens(scan.found) == args[..|Tokens(scan.found)|]
      && (scan.result.Success? ==>
            && scan.result.value <= |args|
            && Tokens(scan.found) == args[..scan.result.value]
            && (scan.result.value == |args| || !IsOptionToken(args[scan.result.value])))
  {
    var scan := ScanFrom(defs, apply, args, 0, s0, []);
    ScanFromKeeps(defs, apply, s0, args, 0, s0, []);
    ScanFromWellFound(defs, apply, args, 0, s0, []);
    ScanFromConsumes(defs, apply, args, 0, s0, []);
    forall i, j | 0 <= i < j < |scan.found| ensures scan.found[i].option != scan.found[j].option {
      assert WellFound(defs, scan.found[j]);
      assert !Matches(scan.found[i].option, scan.found[j].parsedName);
    }
  }

  /** What a successful `ParseArgs` promises: the consumed arguments are exactly the typed
      names of the options found, each followed by its own arguments; parsing stopped at the
      end or at an argument not starting with '-'; every option found is the first definition
      known under its typed name and got exactly the arguments it requires; no definition was
      found twice; the settings are the fold of the callbacks; and no requirement objected. */
  lemma ParseArgsSuccess<S, A>(
    defs: seq<CommandOption<A>>,
    reqs: seq<Requirement>,
    apply: (S, A, seq<string>) -> Result<S, Error>,
    tryParse: string -> Option<real>,
    s0: S,
    args: seq<string>)
    requires ParseArgsSpec(defs, reqs, apply, tryParse, s0, args).result.Success?
    ensures var o := ParseArgsSpec(defs, reqs, apply, tryParse, s0, args);
      && o.result.value <= |args|
      && Tokens(o.found) == args[..o.result.value]
      && (o.result.value == |args| || !IsOptionToken(args[o.result.value]))
      && (forall i :: 0 <= i < |o.found| ==> WellFound(defs, o.found[i]))
      && (forall i, j :: 0 <= i < j < |o.found| ==> o.found[i].option != o.found[j].option)
      && FoldApply(apply, s0, o.found) == Success(o.state)
      && ValidateAll(defs, o.found, reqs, tryParse) == Success([])
      && o.optionErrors == []
  {
    ScanFound(defs, apply, s0, args);
  }

  /** Whatever the outcome, the settings are those the callbacks of the options found
      produce: a callback that throws leaves them as they were. */
  lemma ParseArgsState<S, A>(
    defs: seq<CommandOption<A>>,
    reqs: seq<Requirement>,
    apply: (S, A, seq<string>) -> Result<S, Error>,
    tryParse: string -> Option<real>,
    s0: S,
    args: seq<string>)
    ensures var o := ParseArgsSpec(defs, reqs, apply, tryParse, s0, args);
      FoldApply(apply, s0, o.found) == Success(o.state) && |Tokens(o.found)| <= |args|
  {
    ScanFound(defs, apply, s0, args);
  }

  // ---------------------------------------------------------------------------------------
  // Tables whose definitions share no name, and settings written by one callback only.

  /** No two definitions share a name, short or long. */
  predicate DistinctNames<A>(defs: seq<CommandOption<A>>) {
    forall i, j :: 0 <= i < |defs| && 0 <= j < |defs| && i != j ==>
      && !Matches(defs[j], defs[i].longName)
      && (defs[i].shortName.Some? ==> !Matches(defs[j], defs[i].shortName.value))
  }

  /** Definitions that pass the constructor's checks share no name as soon as their long
      names are pairwise different and so are the short names they have: a short name is
      never a long one. */
  lemma DistinctNamesOfValid<A>(defs: seq<CommandOption<A>>)
    requires forall i :: 0 <= i < |defs| ==>
      IsValidDefinition(defs[i])
    requires forall i, j :: 0 <= i < j < |defs| ==> defs[i].longName != defs[j].longName
    requires forall i, j :: 0 <= i < j < |defs| && defs[i].shortName.Some? ==> defs[i].shortName != defs[j].shortName
    ensures DistinctNames(defs)
  {
    forall i, j | 0 <= i < |defs| && 0 <= j < |defs| && i != j
      ensures !Matches(defs[j], defs[i].longName)
      ensures defs[i].shortName.Some? ==> !Matches(defs[j], defs[i].shortName.value)
    {
      ShortAndLongNamesAreDisjointOptionTokens(defs[i].longName);
      if defs[i].shortName.Some? {
        ShortAndLongNamesAreDisjointOptionTokens(defs[i].shortName.value);
      }
    }
  }

  /** With such a table, no name is known to two of the options found, so no requirement
      can run into the ambiguity `SingleOrDefault` throws on. */
  lemma {:induction false} NoAmbiguity<A>(defs: seq<CommandOption<A>>, found: seq<ParsedOption<A>>, name: string)
    requires DistinctNames(defs) && AllWellFound(defs, found)
    requires forall i, j :: 0 <= i < j < |found| ==> found[i].option != found[j].option
    ensures CountMatches(found, name) <= 1
    decreases |found|
  {
    if |found| > 0 {
      var tail := found[1..];
      assert forall i :: 0 <= i < |tail| ==> tail[i] == found[i + 1];
      NoAmbiguity(defs, tail, name);
      if Matches(found[0].option, name) {
        forall k | 0 <= k < |tail| ensures !Matches(tail[k].option, name) {
          assert WellFound(defs, found[0]) && WellFound(defs, found[k + 1]);
          var a := FirstMatching(defs, found[0].parsedName).value;
          var b := FirstMatching(defs, found[k + 1].parsedName).value;
          assert a != b by { assert found[0].option != found[k + 1].option; }
        }
        CountMatchesZero(tail, name);
      }
    }
  }

  /** The loop over such a table finds no name twice. */
  lemma ScanNotAmbiguous<S, A>(
    defs: seq<CommandOption<A>>,
    apply: (S, A, seq<string>) -> Result<S, Error>,
    s0: S,
    args: seq<string>)
    requires DistinctNames(defs)
    ensures forall name :: CountMatches(ScanFrom(defs, apply, args, 0, s0, []).found, name) <= 1
  {
    ScanFound(defs, apply, s0, args);
    var found := ScanFrom(defs, apply, args, 0, s0, []).found;
    forall name ensures CountMatches(found, name) <= 1 {
      NoAmbiguity(defs, found, name);
    }
  }

  /** The position of the first option found whose callback is `a`. */
  function FoundWith<A(==)>(found: seq<ParsedOption<A>>, a: A): (r: Option<nat>)
    ensures r.Some? ==> r.value < |found| && found[r.value].option.onFound == a
    ensures r.Some? ==> forall j :: 0 <= j < r.value ==> found[j].option.onFound != a
    ensures r.None? ==> forall i :: 0 <= i < |found| ==> found[i].option.onFound != a
    decreases |found|
  {
    if |found| == 0 then None
    else if found[0].option.onFound == a then Some(0)
    else
      match FoundWith(found[1..], a)
      case None => None
      case Some(i) => Some(i + 1)
  }

  /** A setting that only callbacks `own` change, each time to a value `wrote` accepts for
      its arguments: after the fold it is still the initial value when no such option was
      found, and otherwise what the last such option wrote. */
  lemma {:induction false} FoldWrites<S, A, T>(
    apply: (S, A, seq<string>) -> Result<S, Error>,
    s0: S,
    found: seq<ParsedOption<A>>,
    own: A,
    proj: S -> T,
    wrote: (seq<string>, T) -> bool)
    requires forall s, a, xs :: apply(s, a, xs).Success? ==>
      if a == own then wrote(xs, proj(apply(s, a, xs).value)) else proj(apply(s, a, xs).value) == proj(s)
    requires FoldApply(apply, s0, found).Success?
    ensures FoundWith(found, own).None? ==> proj(FoldApply(apply, s0, found).value) == proj(s0)
    ensures FoundWith(found, own).Some? ==>
      exists i :: 0 <= i < |found| && found[i].option.onFound == own &&
                  wrote(found[i].parsedArgs, proj(FoldApply(apply, s0, found).value))
    decreases |found|
  {
    if |found| > 0 {
      var init := found[..|found| - 1];
      var last := found[|found| - 1];
      FoldWrites(apply, s0, init, own, proj, wrote);
      var s := FoldApply(apply, s0, init).value;
      assert FoldApply(apply, s0, found) == apply(s, last.option.onFound, last.parsedArgs);
      assert forall i :: 0 <= i < |init| ==> init[i] == found[i];
      if last.option.onFound != own {
        if FoundWith(found, own).Some? {
          assert FoundWith(init, own).Some? by {
            var i := FoundWith(found, own).value;
            assert i < |init| && init[i].option.onFound == own;
          }
        }
      }
    }
  }

  /** With a table whose callbacks are pairwise different, at most one option found has a
      given callback. */
  lemma OneOptionPerCallback<A>(defs: seq<CommandOption<A>>, found: seq<ParsedOption<A>>, a: A, i: nat)
    requires AllWellFound(defs, found)
    requires forall j, k :: 0 <= j < k < |found| ==> found[j].option != found[k].option
    requires forall j, k :: 0 <= j < k < |defs| ==> defs[j].onFound != defs[k].onFound
    requires i < |found| && found[i].option.onFound == a
    ensures FoundWith(found, a) == Some(i)
  {
    forall j | 0 <= j < i ensures found[j].option.onFound != a {
      assert WellFound(defs, found[i]) && WellFound(defs, found[j]);
      assert FirstMatching(defs, found[i].parsedName).value != FirstMatching(defs, found[j].parsedName).value;
    }
  }

}
