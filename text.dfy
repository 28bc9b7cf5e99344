/** The handful of .NET string operations the client relies on, on `seq<char>`:
    `string.Join`, `Split`, `Replace(pattern, "")`, `ToLower` (ASCII letters only),
    `StartsWith`, rendering a count, and `int.Parse` with the default number style. */
module Text {
  import opened Wrappers
  import opened Failures

  predicate StartsWith(s: string, prefix: string) {
    |prefix| <= |s| && s[..|prefix|] == prefix
  }

  /** `string.Join(sep, parts)`. */
  function Join(sep: string, parts: seq<string>): string
    decreases |parts|
  {
    if |parts| == 0 then ""
    else if |parts| == 1 then parts[0]
    else parts[0] + sep + Join(sep, parts[1..])
  }

  lemma {:induction false} JoinCons(sep: string, head: string, tail: seq<string>)
    requires tail != []
    ensures Join(sep, [head] + tail) == head + sep + Join(sep, tail)
  {
    assert ([head] + tail)[1..] == tail;
  }

  lemma JoinTwo(sep: string, first: string, second: string)
    ensures Join(sep, [first, second]) == first + sep + second
  {
    assert [first, second][1..] == [second];
  }

  /** `string.Split(sep)`: the pieces between separators, empty pieces kept. */
  function Split(s: string, sep: char): (pieces: seq<string>)
    ensures |pieces| >= 1
    decreases |s|
  {
    if |s| == 0 then [""]
    else if s[0] == sep then [""] + Split(s[1..], sep)
    else
      var rest := Split(s[1..], sep);
      [[s[0]] + rest[0]] + rest[1..]
  }

  /** No piece of a split contains the separator. */
  lemma {:induction false} SplitPiecesHaveNoSeparator(s: string, sep: char)
    ensures forall i :: 0 <= i < |Split(s, sep)| ==> sep !in Split(s, sep)[i]
    decreases |s|
  {
    if |s| > 0 {
      SplitPiecesHaveNoSeparator(s[1..], sep);
    }
  }

  /** Splitting and joining again with the same separator gives the original text back. */
  lemma {:induction false} JoinSplit(s: string, sep: char)
    ensures Join([sep], Split(s, sep)) == s
    decreases |s|
  {
    if |s| > 0 {
      var rest := Split(s[1..], sep);
      JoinSplit(s[1..], sep);
      if s[0] == sep {
        JoinCons([sep], "", rest);
        assert s == [sep] + s[1..];
      } else {
        if |rest| == 1 {
          assert Split(s, sep) == [[s[0]] + rest[0]];
        } else {
          var head := [s[0]] + rest[0];
          assert Split(s, sep) == [head] + rest[1..];
          JoinCons([sep], head, rest[1..]);
          JoinCons([sep], rest[0], rest[1..]);
          assert [rest[0]] + rest[1..] == rest;
        }
        assert s == [s[0]] + s[1..];
      }
    }
  }

  /** `string.Replace(pattern, "")`: every non-overlapping occurrence of `pattern`,
      scanned left to right, removed. */
  function RemoveAll(s: string, pattern: string): (r: string)
    requires |pattern| > 0
    ensures |r| <= |s|
    decreases |s|
  {
    if |s| == 0 then ""
    else if StartsWith(s, pattern) then RemoveAll(s[|pattern|..], pattern)
    else [s[0]] + RemoveAll(s[1..], pattern)
  }

  /** `pattern` occurs in `s` at position `i`. */
  predicate OccursAt(s: string, pattern: string, i: nat) {
    i + |pattern| <= |s| && s[i..i + |pattern|] == pattern
  }

  /** Text in which a pattern does not occur is left as it is. */
  lemma {:induction false} RemoveAllWithoutOccurrence(s: string, pattern: string)
    requires |pattern| > 0
    requires forall i: nat :: !OccursAt(s, pattern, i)
    ensures RemoveAll(s, pattern) == s
    decreases |s|
  {
    if |s| > 0 {
      assert !OccursAt(s, pattern, 0);
      assert !StartsWith(s, pattern);
      forall i: nat
        ensures !OccursAt(s[1..], pattern, i)
      {
        assert !OccursAt(s, pattern, i + 1);
        if i + |pattern| <= |s[1..]| {
          assert s[1..][i..i + |pattern|] == s[i + 1..i + 1 + |pattern|];
        }
      }
      RemoveAllWithoutOccurrence(s[1..], pattern);
      assert s == [s[0]] + s[1..];
    }
  }

  predicate IsAsciiUpper(c: char) {
    'A' <= c <= 'Z'
  }

  predicate IsAsciiLetterOrDigit(c: char) {
    'A' <= c <= 'Z' || 'a' <= c <= 'z' || '0' <= c <= '9'
  }

  predicate IsDigit(c: char) {
    '0' <= c <= '9'
  }

  function LowerChar(c: char): char {
    if IsAsciiUpper(c) then (c as int + 32) as char else c
  }

  /** `ToLower` / `ToLowerInvariant` restricted to ASCII letters. */
  function ToLower(s: string): (r: string)
    ensures |r| == |s|
    ensures forall i :: 0 <= i < |s| ==> r[i] == LowerChar(s[i])
    ensures forall i :: 0 <= i < |r| ==> !IsAsciiUpper(r[i])
  {
    seq(|s|, i requires 0 <= i < |s| => LowerChar(s[i]))
  }

  /** Lower-casing twice is lower-casing once. */
  lemma ToLowerIdempotent(s: string)
    ensures ToLower(ToLower(s)) == ToLower(s)
  {
  }

  /** `Select(n => n.ToLower())`: every text lower-cased, in order; none of the results
      changes when lower-cased again. */
  function ToLowerAll(texts: seq<string>): (r: seq<string>)
    ensures |r| == |texts|
    ensures forall i :: 0 <= i < |r| ==> r[i] == ToLower(texts[i])
    ensures forall i :: 0 <= i < |r| ==> ToLower(r[i]) == r[i]
  {
    var r := seq(|texts|, i requires 0 <= i < |texts| => ToLower(texts[i]));
    forall i | 0 <= i < |r| ensures ToLower(r[i]) == r[i] {
      ToLowerIdempotent(texts[i]);
    }
    r
  }

  function Spaces(n: nat): (r: string)
    ensures |r| == n
    ensures forall i :: 0 <= i < n ==> r[i] == ' '
  {
    seq(n, _ => ' ')
  }

  function DigitChar(d: nat): char
    requires d < 10
  {
    ('0' as int + d) as char
  }

  /** The decimal rendering of a count, as string interpolation writes it. */
  function NatToString(n: nat): (r: string)
    ensures |r| >= 1
    ensures forall i :: 0 <= i < |r| ==> IsDigit(r[i])
  {
    if n < 10 then [DigitChar(n)] else NatToString(n / 10) + [DigitChar(n % 10)]
  }

  /** The value of a non-empty run of decimal digits. */
  function DigitsValue(ds: string): nat
    requires forall i :: 0 <= i < |ds| ==> IsDigit(ds[i])
    decreases |ds|
  {
    if |ds| == 0 then 0
    else
      assert IsDigit(ds[|ds| - 1]);
      DigitsValue(ds[..|ds| - 1]) * 10 + (ds[|ds| - 1] as int - '0' as int)
  }

  /** Reading back a rendered count gives the count. */
  lemma {:induction false} DigitsValueOfNatToString(n: nat)
    ensures DigitsValue(NatToString(n)) == n
  {
    if n >= 10 {
      var s := NatToString(n);
      assert s[..|s| - 1] == NatToString(n / 10);
      DigitsValueOfNatToString(n / 10);
    }
  }

  /** The white-space characters `int.Parse` skips at either end. */
  predicate IsWhite(c: char) {
    c == ' ' || '\t' <= c <= '\r'
  }

  function TrimWhite(s: string): (r: string)
    ensures |r| <= |s|
    ensures |r| > 0 ==> !IsWhite(r[0]) && !IsWhite(r[|r| - 1])
    decreases |s|
  {
    if |s| == 0 then s
    else if IsWhite(s[0]) then TrimWhite(s[1..])
    else if IsWhite(s[|s| - 1]) then TrimWhite(s[..|s| - 1])
    else s
  }

  const Int32Min: int := -0x8000_0000
  const Int32Max: int := 0x7FFF_FFFF

  /** `int.Parse(s)` with the default style (leading and trailing white space, one
      leading sign, decimal digits), in a culture whose signs are '-' and '+'. */
  function ParseInt32(s: string): (r: Result<int, Error>)
    ensures r.Success? ==> Int32Min <= r.value <= Int32Max
  {
    var t := TrimWhite(s);
    var negative := |t| > 0 && t[0] == '-';
    var digits := if |t| > 0 && (t[0] == '-' || t[0] == '+') then t[1..] else t;
    if |digits| == 0 || exists i :: 0 <= i < |digits| && !IsDigit(digits[i]) then
      Failure(FormatError(s))
    else
      var magnitude: int := DigitsValue(digits);
      var v := if negative then -magnitude else magnitude;
      if Int32Min <= v <= Int32Max then Success(v) else Failure(OverflowError(s))
  }

  /** Every count an int holds is read back by `int.Parse` from its rendering. */
  lemma ParseInt32OfNatToString(n: nat)
    requires n <= Int32Max
    ensures ParseInt32(NatToString(n)) == Success(n)
  {
    var s := NatToString(n);
    assert !IsWhite(s[0]) && !IsWhite(s[|s| - 1]);
    assert TrimWhite(s) == s;
    DigitsValueOfNatToString(n);
  }
}
