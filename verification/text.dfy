/** The optional value used wherever JavaScript has `null` or `undefined`. */
module Optional {
  datatype Option<+T> = None | Some(value: T)
}

/**
 * Character classes, trimming, joining and decimal rendering as JavaScript's
 * string built-ins perform them. A `char` is one Unicode scalar value, so a
 * character outside the Basic Multilingual Plane counts once here where
 * JavaScript's `length` counts its two UTF-16 code units.
 */
module Text {
  import opened Optional

  /** The characters matched by `\s` and removed by `String.prototype.trim`. */
  predicate IsSpace(c: char) {
    || c == '\t' || c == '\n' || c == '\U{000B}' || c == '\U{000C}' || c == '\r' || c == ' '
    || c == '\U{00A0}' || c == '\U{1680}' || ('\U{2000}' <= c <= '\U{200A}')
    || c == '\U{2028}' || c == '\U{2029}' || c == '\U{202F}' || c == '\U{205F}'
    || c == '\U{3000}' || c == '\U{FEFF}'
  }

  /** The characters a regular-expression `.` refuses to match. */
  predicate IsLineTerminator(c: char) {
    c == '\n' || c == '\r' || c == '\U{2028}' || c == '\U{2029}'
  }

  /** `\d` without the `u` flag: ASCII digits only. */
  predicate IsDigit(c: char) {
    '0' <= c <= '9'
  }

  predicate AllSpace(s: string) {
    forall i :: 0 <= i < |s| ==> IsSpace(s[i])
  }

  predicate NoSpace(s: string) {
    forall i :: 0 <= i < |s| ==> !IsSpace(s[i])
  }

  predicate AllDigits(s: string) {
    forall i :: 0 <= i < |s| ==> IsDigit(s[i])
  }

  /** Neither end of `s` is white space. */
  predicate Trimmed(s: string) {
    |s| == 0 || (!IsSpace(s[0]) && !IsSpace(s[|s| - 1]))
  }

  /** Length of the longest all-space prefix of `s[from..]`. */
  function SpaceRun(s: string, from: nat): (n: nat)
    requires from <= |s|
    ensures from + n <= |s|
    ensures AllSpace(s[from..from + n])
    ensures from + n < |s| ==> !IsSpace(s[from + n])
    decreases |s| - from
  {
    if from < |s| && IsSpace(s[from]) then
      var n := 1 + SpaceRun(s, from + 1);
      assert s[from..from + n] == [s[from]] + s[from + 1..from + n];
      n
    else 0
  }

  /** A space run ending where white space ends has exactly that length. */
  lemma {:induction false} SpaceRunExact(s: string, from: nat, k: nat)
    requires from <= k <= |s|
    requires AllSpace(s[from..k])
    requires k < |s| ==> !IsSpace(s[k])
    ensures SpaceRun(s, from) == k - from
    decreases k - from
  {
    if from < k {
      assert s[from] == s[from..k][0];
      assert s[from + 1..k] == s[from..k][1..];
      SpaceRunExact(s, from + 1, k);
    }
  }

  /** A trailing space run starting where white space starts has exactly that length. */
  lemma {:induction false} TrailingSpaceExact(s: string, m: nat)
    requires m <= |s|
    requires AllSpace(s[|s| - m..])
    requires m < |s| ==> !IsSpace(s[|s| - m - 1])
    ensures TrailingSpaceCount(s) == m
  {
    if m > 0 {
      var s' := s[..|s| - 1];
      assert IsSpace(s[|s| - 1]) by {
        assert s[|s| - 1] == s[|s| - m..][m - 1];
      }
      assert AllSpace(s'[|s'| - (m - 1)..]) by {
        var tail := s'[|s'| - (m - 1)..];
        forall i | 0 <= i < |tail| ensures IsSpace(tail[i]) {
          assert tail[i] == s[|s| - m..][i];
        }
      }
      assert m - 1 < |s'| ==> !IsSpace(s'[|s'| - (m - 1) - 1]) by {
        if m - 1 < |s'| {
          assert s'[|s'| - (m - 1) - 1] == s[|s| - m - 1];
        }
      }
      TrailingSpaceExact(s', m - 1);
    }
  }

  /** Length of the longest all-space suffix of `s`. */
  function TrailingSpaceCount(s: string): (n: nat)
    ensures n <= |s|
    ensures AllSpace(s[|s| - n..])
    ensures n < |s| ==> !IsSpace(s[|s| - n - 1])
  {
    if |s| > 0 && IsSpace(s[|s| - 1]) then
      var n := 1 + TrailingSpaceCount(s[..|s| - 1]);
      assert s[|s| - n..] == s[..|s| - 1][|s| - n..] + [s[|s| - 1]];
      n
    else 0
  }

  /** `String.prototype.trim`: strips white space from both ends. */
  function Trim(s: string): (r: string)
    ensures Trimmed(r)
  {
    var a := SpaceRun(s, 0);
    var t := s[a..];
    t[..|t| - TrailingSpaceCount(t)]
  }

  /** Trimming keeps a slice of the text and drops only white space around it. */
  lemma TrimIsSlice(s: string) returns (i: nat, j: nat)
    ensures i <= j <= |s| && Trim(s) == s[i..j] && AllSpace(s[..i]) && AllSpace(s[j..])
  {
    i := SpaceRun(s, 0);
    var t := s[i..];
    var b := TrailingSpaceCount(t);
    j := |s| - b;
    assert Trim(s) == t[..|t| - b];
    assert t[..|t| - b] == s[i..j];
    assert s[..i] == s[0..i];
    assert s[j..] == t[|t| - b..];
  }

  /** Trimming removes exactly the surrounding white space. */
  lemma {:induction false} TrimSurrounded(a: string, b: string, c: string)
    requires AllSpace(a) && AllSpace(c) && Trimmed(b)
    ensures Trim(a + b + c) == b
  {
    var s := a + b + c;
    var n := SpaceRun(s, 0);
    if |b| == 0 {
      assert AllSpace(s);
      assert n == |s|;
    } else {
      assert s[|a|] == b[0];
      assert s[0..|a|] == a;
      SpaceRunExact(s, 0, |a|);
      var t := s[n..];
      assert t == b + c;
      assert t[|t| - |c|..] == c;
      assert t[|t| - |c| - 1] == b[|b| - 1];
      TrailingSpaceExact(t, |c|);
      var m := TrailingSpaceCount(t);
      assert t[..|t| - m] == b;
    }
  }

  lemma TrimTrimmed(s: string)
    requires Trimmed(s)
    ensures Trim(s) == s
  {
    TrimSurrounded([], s, []);
    assert [] + s + [] == s;
  }

  /** A string is its prefix, one character and its suffix. */
  lemma SplitAround(s: string, k: nat)
    requires k < |s|
    ensures s == s[..k] + [s[k]] + s[k + 1..]
  {
  }

  /** Length of the longest run of ASCII digits starting at `from`. */
  function DigitRun(s: string, from: nat): (n: nat)
    requires from <= |s|
    ensures from + n <= |s|
    ensures AllDigits(s[from..from + n])
    ensures from + n < |s| ==> !IsDigit(s[from + n])
    decreases |s| - from
  {
    if from < |s| && IsDigit(s[from]) then
      var n := 1 + DigitRun(s, from + 1);
      assert s[from..from + n] == [s[from]] + s[from + 1..from + n];
      n
    else 0
  }

  /** A digit run ending at a non-digit has exactly that length. */
  lemma {:induction false} DigitRunExact(s: string, from: nat, n: nat)
    requires from + n < |s| && AllDigits(s[from..from + n]) && !IsDigit(s[from + n])
    ensures DigitRun(s, from) == n
    decreases n
  {
    if n > 0 {
      assert IsDigit(s[from]) by {
        assert s[from] == s[from..from + n][0];
      }
      assert AllDigits(s[from + 1..from + n]) by {
        var tail := s[from + 1..from + n];
        forall i | 0 <= i < n - 1 ensures IsDigit(tail[i]) {
          assert tail[i] == s[from..from + n][i + 1];
        }
      }
      DigitRunExact(s, from + 1, n - 1);
    }
  }

  /** ASCII case folding, which is what a non-Unicode `/i` regular expression uses for the letters involved. */
  function Lower(c: char): char {
    if 'A' <= c <= 'Z' then (c as int + 32) as char else c
  }

  /** `String.prototype.toLowerCase` on the ASCII letters. */
  function LowerAll(s: string): (r: string)
    ensures |r| == |s| && forall i :: 0 <= i < |s| ==> r[i] == Lower(s[i])
  {
    seq(|s|, i requires 0 <= i < |s| => Lower(s[i]))
  }

  /** `lit` (written in lower case) occurs at position `p` of `s`, ignoring ASCII case. */
  predicate MatchesAt(s: string, p: nat, lit: string) {
    p + |lit| <= |s| && forall k :: 0 <= k < |lit| ==> Lower(s[p + k]) == lit[k]
  }

  /** `pat` occurs in `s` exactly at position `i`. */
  predicate OccursAt(s: string, pat: string, i: nat) {
    i + |pat| <= |s| && s[i..i + |pat|] == pat
  }

  /** `String.prototype.indexOf(pat, from)`: the first occurrence at or after `from`; `None` stands for -1. */
  function IndexOf(s: string, pat: string, from: nat): (r: Option<nat>)
    ensures r.Some? ==> from <= r.value && OccursAt(s, pat, r.value)
    ensures r.Some? ==> forall i :: from <= i < r.value ==> !OccursAt(s, pat, i)
    ensures r.None? ==> forall i :: from <= i ==> !OccursAt(s, pat, i)
    decreases |s| - from
  {
    if from + |pat| > |s| then None
    else if s[from..from + |pat|] == pat then Some(from)
    else IndexOf(s, pat, from + 1)
  }

  /** `String.prototype.includes`. */
  predicate Contains(s: string, pat: string) {
    IndexOf(s, pat, 0).Some?
  }

  /** The first position of `c` in `s`. */
  function FirstIndex(s: string, c: char): (r: Option<nat>)
    ensures r.Some? ==> r.value < |s| && s[r.value] == c && c !in s[..r.value]
    ensures r.None? ==> c !in s
  {
    if |s| == 0 then None
    else if s[0] == c then Some(0)
    else
      match FirstIndex(s[1..], c)
      case Some(i) =>
        assert s[..i + 1] == [s[0]] + s[1..][..i];
        Some(i + 1)
      case None =>
        assert s == [s[0]] + s[1..];
        None
  }

  /** `String.prototype.split(sep)` for a one-character separator. */
  function Split(s: string, sep: char): (r: seq<string>)
    ensures |r| > 0
    decreases |s|
  {
    match FirstIndex(s, sep)
    case None => [s]
    case Some(i) => [s[..i]] + Split(s[i + 1..], sep)
  }

  /** A piece free of the separator, then the separator, comes off as the first field. */
  lemma SplitCons(a: string, sep: char, b: string)
    requires sep !in a
    ensures Split(a + [sep] + b, sep) == [a] + Split(b, sep)
  {
    var s := a + [sep] + b;
    assert s[|a|] == sep;
    assert s[..|a|] == a;
    assert FirstIndex(s, sep) == Some(|a|);
    assert s[|a| + 1..] == b;
  }

  /** Two pieces free of the separator, each followed by it, come off as the first two fields. */
  lemma SplitTwo(a: string, b: string, sep: char, rest: string)
    requires sep !in a && sep !in b
    ensures Split(a + [sep] + b + [sep] + rest, sep) == [a, b] + Split(rest, sep)
  {
    assert a + [sep] + b + [sep] + rest == a + [sep] + (b + [sep] + rest);
    SplitCons(a, sep, b + [sep] + rest);
    SplitCons(b, sep, rest);
    assert [a] + ([b] + Split(rest, sep)) == [a, b] + Split(rest, sep);
  }

  /** A text without the separator is one field. */
  lemma SplitNone(a: string, sep: char)
    requires sep !in a
    ensures Split(a, sep) == [a]
  {
  }

  lemma AppendAssoc<T>(a: seq<T>, b: seq<T>, c: seq<T>)
    ensures a + (b + c) == a + b + c
  {
  }

  /** `Array.prototype.join(sep)` over strings. */
  function Join(parts: seq<string>, sep: string): string {
    if |parts| == 0 then ""
    else if |parts| == 1 then parts[0]
    else parts[0] + sep + Join(parts[1..], sep)
  }

  function DigitChar(d: nat): (c: char)
    requires d < 10
    ensures IsDigit(c)
  {
    ('0' as int + d) as char
  }

  function DigitValue(c: char): nat
    requires IsDigit(c)
  {
    c as int - '0' as int
  }

  /** The decimal rendering of a non-negative integer, as template literals and `String()` produce it. */
  function NatToString(n: nat): (r: string)
    ensures |r| > 0 && AllDigits(r)
  {
    if n < 10 then [DigitChar(n)] else NatToString(n / 10) + [DigitChar(n % 10)]
  }

  /** `String(n)` for an integer. */
  function IntToString(i: int): string {
    if i < 0 then "-" + NatToString(-i) else NatToString(i)
  }

  /** `parseInt(s, 10)` of a string of decimal digits. */
  function DigitsValue(s: string): nat
    requires AllDigits(s)
  {
    if |s| == 0 then 0 else DigitsValue(s[..|s| - 1]) * 10 + DigitValue(s[|s| - 1])
  }

  /** Reading back a rendered number gives the number. */
  lemma {:induction false} NatToStringRoundTrip(n: nat)
    ensures DigitsValue(NatToString(n)) == n
  {
    var r := NatToString(n);
    if n >= 10 {
      NatToStringRoundTrip(n / 10);
      assert r[..|r| - 1] == NatToString(n / 10);
    }
  }

  /** A rendered number has no leading zero unless it is zero. */
  lemma {:induction false} NatToStringNoLeadingZero(n: nat)
    ensures NatToString(n)[0] == '0' <==> n == 0
  {
    if n >= 10 {
      NatToStringNoLeadingZero(n / 10);
    }
  }

  /**
   * `text.match(re)` for an unanchored expression whose match at a given
   * start position is `at`: the match at the leftmost start position from
   * `from` on.
   */
  function Search<M>(at: (string, nat) -> Option<M>, t: string, from: nat): (r: Option<(nat, M)>)
    requires from <= |t|
    ensures r.Some? ==> from <= r.value.0 <= |t| && at(t, r.value.0) == Some(r.value.1)
    ensures r.Some? ==> forall i :: from <= i < r.value.0 ==> at(t, i).None?
    ensures r.None? ==> forall i :: from <= i <= |t| ==> at(t, i).None?
    decreases |t| - from
  {
    if at(t, from).Some? then Some((from, at(t, from).value))
    else if from == |t| then None
    else Search(at, t, from + 1)
  }

  /** The search returns the first start position that matches. */
  lemma SearchFinds<M>(at: (string, nat) -> Option<M>, t: string, from: nat, i: nat)
    requires from <= i <= |t| && at(t, i).Some?
    requires forall j :: from <= j < i ==> at(t, j).None?
    ensures Search(at, t, from) == Some((i, at(t, i).value))
  {
    var r := Search(at, t, from);
    assert !(r.value.0 < i) && !(i < r.value.0);
  }

  /** The search finds nothing exactly when no start position matches. */
  lemma SearchNone<M>(at: (string, nat) -> Option<M>, t: string, from: nat)
    requires from <= |t|
    ensures Search(at, t, from).None? <==> forall i :: from <= i <= |t| ==> at(t, i).None?
  {
  }
}
