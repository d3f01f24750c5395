/** The handful of JavaScript string operations the application relies on,
    restricted to ASCII: `split` on one character, decimal rendering of
    numbers (template literals), `parseInt` of a digit run, `toLowerCase`,
    `includes` and the `\s` character class. */
module Strings {

  // ---------------------------------------------------------------------
  // split / join on a one-character separator
  // ---------------------------------------------------------------------

  /** `s.split(sep)`: the pieces between separators, left to right; there is
      always at least one piece, and an empty string gives `[""]`. */
  function Split(s: string, sep: char): (parts: seq<string>)
    ensures |parts| >= 1
    ensures forall i :: 0 <= i < |parts| ==> sep !in parts[i]
    decreases |s|
  {
    if s == [] then [[]]
    else
      var rest := Split(s[1..], sep);
      if s[0] == sep then [[]] + rest
      else [[s[0]] + rest[0]] + rest[1..]
  }

  /** `parts.join(sep)`, the inverse of `Split`. */
  function Join(parts: seq<string>, sep: char): string
    requires |parts| >= 1
    decreases |parts|
  {
    if |parts| == 1 then parts[0] else parts[0] + [sep] + Join(parts[1..], sep)
  }

  /** `s.split(sep)[0]`: everything before the first separator. */
  function FirstSegment(s: string, sep: char): (r: string)
    ensures sep !in r
  {
    Split(s, sep)[0]
  }

  /** Joining the pieces of a split gives the string back. */
  lemma {:induction false} JoinSplit(s: string, sep: char)
    ensures Join(Split(s, sep), sep) == s
    decreases |s|
  {
    if s != [] {
      var rest := Split(s[1..], sep);
      JoinSplit(s[1..], sep);
      var parts := Split(s, sep);
      if s[0] == sep {
        assert parts[1..] == rest;
      } else if |rest| > 1 {
        assert parts[1..] == rest[1..];
        assert Join(rest, sep) == rest[0] + [sep] + Join(rest[1..], sep);
        assert s == [s[0]] + s[1..];
      } else {
        assert s == [s[0]] + s[1..];
      }
    }
  }

  /** A string without the separator is a single piece. */
  lemma {:induction false} SplitNoSep(s: string, sep: char)
    requires sep !in s
    ensures Split(s, sep) == [s]
    decreases |s|
  {
    if s != [] {
      assert sep !in s[1..] by {
        forall k | 0 <= k < |s[1..]| ensures s[1..][k] != sep { assert s[1..][k] == s[k + 1]; }
      }
      SplitNoSep(s[1..], sep);
      assert s == [s[0]] + s[1..];
    }
  }

  /** Splitting at a separator splits the two sides independently. */
  lemma {:induction false} SplitConcat(x: string, y: string, sep: char)
    ensures Split(x + [sep] + y, sep) == Split(x, sep) + Split(y, sep)
    decreases |x|
  {
    var s := x + [sep] + y;
    if x == [] {
      assert s == [sep] + y;
      assert s[1..] == y;
    } else {
      assert s[0] == x[0];
      assert s[1..] == x[1..] + [sep] + y;
      SplitConcat(x[1..], y, sep);
    }
  }

  /** A separator-free piece in front comes off as the first part. */
  lemma SplitFront(x: string, y: string, sep: char)
    requires sep !in x
    ensures Split(x + [sep] + y, sep) == [x] + Split(y, sep)
  {
    SplitConcat(x, y, sep);
    SplitNoSep(x, sep);
  }

  /** The first piece of `x + sep + y` is `x` when `x` has no separator. */
  lemma FirstSegmentConcat(x: string, y: string, sep: char)
    requires sep !in x
    ensures FirstSegment(x + [sep] + y, sep) == x
  {
    SplitConcat(x, y, sep);
    SplitNoSep(x, sep);
  }

  /** The first piece of a string without the separator is the string. */
  lemma FirstSegmentNoSep(s: string, sep: char)
    requires sep !in s
    ensures FirstSegment(s, sep) == s
  {
    SplitNoSep(s, sep);
  }

  // ---------------------------------------------------------------------
  // decimal digits: template-literal rendering and parseInt
  // ---------------------------------------------------------------------

  predicate IsDigit(c: char) { '0' <= c <= '9' }

  predicate AllDigits(s: string) { forall i :: 0 <= i < |s| ==> IsDigit(s[i]) }

  /** A non-empty run of decimal digits, what the pattern `\d+` matches. */
  predicate IsDigits(s: string) { |s| > 0 && AllDigits(s) }

  /** `parseInt` of a run of decimal digits (leading zeros allowed). */
  function DigitsValue(s: string): nat
    requires AllDigits(s)
    decreases |s|
  {
    if s == [] then 0
    else DigitsValue(s[..|s| - 1]) * 10 + ((s[|s| - 1] as int) - ('0' as int))
  }

  function DigitChar(d: nat): (c: char)
    requires d < 10
    ensures IsDigit(c) && (c as int) - ('0' as int) == d
  {
    (('0' as int) + d) as char
  }

  /** The decimal rendering of a natural number, as `${n}` produces it;
      parsing it back gives the number. */
  function NatToString(n: nat): (r: string)
    ensures IsDigits(r)
    ensures DigitsValue(r) == n
    decreases n
  {
    if n < 10 then [DigitChar(n)]
    else
      var prefix := NatToString(n / 10);
      var r := prefix + [DigitChar(n % 10)];
      assert r[..|r| - 1] == prefix;
      r
  }

  /** Distinct numbers render to distinct strings. */
  lemma NatToStringInjective(m: nat, n: nat)
    requires NatToString(m) == NatToString(n)
    ensures m == n
  {
  }

  /** `${i}` for an integer. */
  function IntToString(i: int): (r: string)
    ensures |r| > 0
  {
    if i < 0 then "-" + NatToString(-i) else NatToString(i)
  }

  // ---------------------------------------------------------------------
  // toLowerCase, includes, \s
  // ---------------------------------------------------------------------

  /** ASCII `toLowerCase` of one character. */
  function LowerChar(c: char): char
  {
    if 'A' <= c <= 'Z' then ((c as int) + 32) as char else c
  }

  /** ASCII `toLowerCase`. */
  function Lower(s: string): (r: string)
    ensures |r| == |s|
  {
    seq(|s|, i requires 0 <= i < |s| => LowerChar(s[i]))
  }

  /** Lower-casing twice is lower-casing once. */
  lemma LowerIdempotent(s: string)
    ensures Lower(Lower(s)) == Lower(s)
  {
    var once := Lower(s);
    assert forall i :: 0 <= i < |s| ==> Lower(once)[i] == once[i];
  }

  /** `s.includes(sub)`: `sub` occurs as a contiguous piece of `s`. */
  predicate Contains(s: string, sub: string)
  {
    exists i :: 0 <= i <= |s| - |sub| && OccursAt(s, sub, i)
  }

  /** `sub` starts at position `i` of `s`. */
  predicate OccursAt(s: string, sub: string, i: int)
  {
    0 <= i && i + |sub| <= |s| && s[i..i + |sub|] == sub
  }

  /** Every string includes the empty string. */
  lemma ContainsEmpty(s: string)
    ensures Contains(s, [])
  {
    assert OccursAt(s, [], 0);
  }

  /** ASCII whitespace, what `\s` matches on ASCII text. */
  predicate IsSpace(c: char) { c == ' ' || ('\t' <= c <= '\r') }

  predicate NoSpace(s: string) { forall i :: 0 <= i < |s| ==> !IsSpace(s[i]) }

  predicate IsLowerCase(s: string) { forall i :: 0 <= i < |s| ==> !('A' <= s[i] <= 'Z') }

  /** Lower-casing yields a string without upper-case letters. */
  lemma LowerIsLowerCase(s: string)
    ensures IsLowerCase(Lower(s))
  {
  }

  /** Lower-casing a string without upper-case letters changes nothing. */
  lemma LowerOfLowerCase(s: string)
    requires IsLowerCase(s)
    ensures Lower(s) == s
  {
  }

  /** A number rendered in decimal contains no underscore. */
  lemma IntToStringNoUnderscore(i: int)
    ensures '_' !in IntToString(i)
  {
    var r := if i < 0 then NatToString(-i) else NatToString(i);
    assert forall k :: 0 <= k < |r| ==> IsDigit(r[k]);
  }

  // ---------------------------------------------------------------------
  // replace(/\s+/g, '_')
  // ---------------------------------------------------------------------

  /** `s` without its leading whitespace. */
  function SkipSpaces(s: string): (r: string)
    ensures |r| <= |s| && r == s[|s| - |r|..]
    ensures |s| > 0 && IsSpace(s[0]) ==> |r| < |s|
    ensures r == [] || !IsSpace(r[0])
    decreases |s|
  {
    if s != [] && IsSpace(s[0]) then SkipSpaces(s[1..]) else s
  }

  /** `s.replace(/\s+/g, '_')`: every maximal run of whitespace becomes
      one underscore. */
  function ReplaceSpaceRuns(s: string): (r: string)
    decreases |s|
  {
    if s == [] then []
    else if IsSpace(s[0]) then "_" + ReplaceSpaceRuns(SkipSpaces(s))
    else [s[0]] + ReplaceSpaceRuns(s[1..])
  }

  /** Putting a non-space character in front keeps a string free of
      whitespace. */
  lemma NoSpaceCons(c: char, t: string)
    requires !IsSpace(c) && NoSpace(t)
    ensures NoSpace([c] + t)
  {
    forall i | 0 <= i < |[c] + t| ensures !IsSpace(([c] + t)[i]) {
      if i > 0 { assert ([c] + t)[i] == t[i - 1]; }
    }
  }

  /** No whitespace survives the replacement. */
  lemma {:induction false} ReplaceSpaceRunsNoSpace(s: string)
    ensures NoSpace(ReplaceSpaceRuns(s))
    decreases |s|
  {
    if s != [] {
      if IsSpace(s[0]) {
        var rest := SkipSpaces(s);
        ReplaceSpaceRunsNoSpace(rest);
        NoSpaceCons('_', ReplaceSpaceRuns(rest));
        assert ReplaceSpaceRuns(s) == ['_'] + ReplaceSpaceRuns(rest);
      } else {
        ReplaceSpaceRunsNoSpace(s[1..]);
        NoSpaceCons(s[0], ReplaceSpaceRuns(s[1..]));
        assert ReplaceSpaceRuns(s) == [s[0]] + ReplaceSpaceRuns(s[1..]);
      }
    }
  }

  /** A string without whitespace is left as it is. */
  lemma {:induction false} ReplaceSpaceRunsOfNoSpace(s: string)
    requires NoSpace(s)
    ensures ReplaceSpaceRuns(s) == s
    decreases |s|
  {
    if s != [] {
      assert !IsSpace(s[0]);
      ReplaceSpaceRunsOfNoSpace(s[1..]);
    }
  }

  /** The replacement adds only underscores, so it keeps a string free of
      upper-case letters. */
  lemma {:induction false} ReplaceSpaceRunsLowerCase(s: string)
    requires IsLowerCase(s)
    ensures IsLowerCase(ReplaceSpaceRuns(s))
    decreases |s|
  {
    if s != [] {
      if IsSpace(s[0]) {
        var rest := SkipSpaces(s);
        assert forall k :: 0 <= k < |rest| ==> rest[k] == s[|s| - |rest| + k];
        ReplaceSpaceRunsLowerCase(rest);
      } else {
        ReplaceSpaceRunsLowerCase(s[1..]);
      }
    }
  }
}
