/**
 * `cleanText` in src/lib/scraper.ts: entity decoding (an external HTML
 * parser, passed in as a function) followed by the white-space stage, which
 * turns invisible characters into spaces, collapses every run of white space
 * into one space and trims.
 */
module TextCleaning {
  import opened Text

  /** U+00A0, U+200B, U+200C, U+200D and U+FEFF, which the first replacement turns into spaces. */
  predicate IsInvisible(c: char) {
    c == '\U{00A0}' || c == '\U{200B}' || c == '\U{200C}' || c == '\U{200D}' || c == '\U{FEFF}'
  }

  predicate Visible(s: string) {
    forall i :: 0 <= i < |s| ==> !IsInvisible(s[i])
  }

  /** Text as the white-space stage leaves it: trimmed, every white-space character a lone `' '`. */
  predicate Normalized(s: string) {
    && Trimmed(s)
    && (forall i :: 0 <= i < |s| && IsSpace(s[i]) ==> s[i] == ' ')
    && (forall i :: 0 <= i < |s| - 1 ==> !SpacePairAt(s, i))
  }

  /** Two white-space characters in a row start at position `i`. */
  predicate SpacePairAt(s: string, i: nat)
    requires i + 1 < |s|
  {
    IsSpace(s[i]) && IsSpace(s[i + 1])
  }

  /** `.replace(/[ ​‌‍﻿]/g, " ")` */
  function ReplaceInvisible(s: string): (r: string)
    ensures |r| == |s|
    ensures Visible(r)
    ensures forall i :: 0 <= i < |s| && !IsInvisible(s[i]) ==> r[i] == s[i]
    ensures forall i :: 0 <= i < |s| && IsInvisible(s[i]) ==> r[i] == ' '
  {
    seq(|s|, i requires 0 <= i < |s| => if IsInvisible(s[i]) then ' ' else s[i])
  }

  /** `s` without its leading white space. */
  function DropSpaces(s: string): (r: string)
    ensures |r| <= |s|
    ensures |r| == 0 || !IsSpace(r[0])
  {
    s[SpaceRun(s, 0)..]
  }

  /** Length of the longest prefix of `s` free of white space. */
  function WordLength(s: string): (k: nat)
    ensures k <= |s|
    ensures NoSpace(s[..k])
    ensures k < |s| ==> IsSpace(s[k])
  {
    if |s| > 0 && !IsSpace(s[0]) then
      var k := 1 + WordLength(s[1..]);
      assert s[..k] == [s[0]] + s[1..][..k - 1];
      k
    else 0
  }

  /** `.replace(/\s+/g, " ")`: every maximal run of white space becomes one space. */
  function CollapseSpaces(s: string): string
    decreases |s|
  {
    if |s| == 0 then ""
    else if IsSpace(s[0]) then " " + CollapseSpaces(DropSpaces(s))
    else [s[0]] + CollapseSpaces(s[1..])
  }

  /** The white-space stage of `cleanText`. */
  function ShapeWhitespace(s: string): string {
    Trim(CollapseSpaces(ReplaceInvisible(s)))
  }

  /** The white-space stage leaves normalized text with no invisible characters. */
  lemma ShapeClean(s: string)
    ensures Normalized(ShapeWhitespace(s)) && Visible(ShapeWhitespace(s))
  {
    var u := ReplaceInvisible(s);
    ShapeIsJoinedWords(s);
    WordsShape(u);
    JoinWordsNormalized(Words(u));
  }

  /** `/&[#a-z0-9]+;/i` matches at position `i`. */
  predicate EntityAt(s: string, i: nat) {
    && i < |s| && s[i] == '&'
    && var n := EntityRun(s, i + 1);
       n >= 1 && i + 1 + n < |s| && s[i + 1 + n] == ';'
  }

  predicate IsEntityChar(c: char) {
    c == '#' || IsDigit(c) || ('a' <= c <= 'z') || ('A' <= c <= 'Z')
  }

  /** `s[from..to]` lies within `s` and is made of entity characters. */
  predicate EntityChars(s: string, from: nat, to: nat) {
    from <= to <= |s| && forall k :: from <= k < to ==> IsEntityChar(s[k])
  }

  /** The length of the maximal run of entity characters that starts at `from`. */
  function EntityRun(s: string, from: nat): (n: nat)
    ensures n == 0 || EntityChars(s, from, from + n)
    ensures from + n >= |s| || !IsEntityChar(s[from + n])
    decreases |s| - from
  {
    if from < |s| && IsEntityChar(s[from]) then
      1 + EntityRun(s, from + 1)
    else 0
  }

  /** The test that decides whether the HTML parser is asked to decode entities. */
  predicate HasEntity(s: string) {
    exists i :: 0 <= i < |s| && EntityAt(s, i)
  }

  /**
   * `cleanText(text)`. `decode` stands for loading `<p>text</p>` into the
   * HTML parser and reading its text back.
   */
  function CleanText(decode: string -> string, text: string): string {
    ShapeWhitespace(if HasEntity(text) then decode(text) else text)
  }

  /** Cleaned text is normalized and has no invisible characters, whatever the decoder returns. */
  lemma CleanTextClean(decode: string -> string, text: string)
    ensures Normalized(CleanText(decode, text)) && Visible(CleanText(decode, text))
  {
    ShapeClean(if HasEntity(text) then decode(text) else text);
  }

  // ---------------------------------------------------------------------
  // The white-space stage as words joined by single spaces.

  /** The maximal runs of non-white-space characters of `s`, in order. */
  function Words(s: string): seq<string>
    decreases |s|
  {
    var t := DropSpaces(s);
    if |t| == 0 then []
    else
      var k := WordLength(t);
      [t[..k]] + Words(t[k..])
  }

  predicate WellFormedWords(ws: seq<string>) {
    forall i :: 0 <= i < |ws| ==> |ws[i]| > 0 && NoSpace(ws[i])
  }

  predicate AllVisible(ws: seq<string>) {
    forall i :: 0 <= i < |ws| ==> Visible(ws[i])
  }

  lemma DropSpacesOfNonSpace(s: string)
    requires |s| == 0 || !IsSpace(s[0])
    ensures DropSpaces(s) == s
  {
    SpaceRunExact(s, 0, 0);
  }

  /** Every word is non-empty, free of white space, and visible when the text is. */
  lemma WordsShape(s: string)
    ensures WellFormedWords(Words(s))
    ensures Visible(s) ==> AllVisible(Words(s))
  {
    WordsWellFormed(s);
    if Visible(s) {
      WordsVisible(s);
    }
  }

  lemma {:induction false} WordsWellFormed(s: string)
    ensures WellFormedWords(Words(s))
    decreases |s|
  {
    var t := DropSpaces(s);
    if |t| > 0 {
      var k := WordLength(t);
      WordsWellFormed(t[k..]);
      WellFormedCons(t[..k], Words(t[k..]));
    }
  }

  lemma {:induction false} WordsVisible(s: string)
    requires Visible(s)
    ensures AllVisible(Words(s))
    decreases |s|
  {
    var t := DropSpaces(s);
    if |t| > 0 {
      var k := WordLength(t);
      VisibleSuffix(s, SpaceRun(s, 0));
      VisibleSuffix(t, k);
      VisiblePrefix(t, k);
      WordsVisible(t[k..]);
      AllVisibleCons(t[..k], Words(t[k..]));
    }
  }

  lemma WellFormedCons(w: string, ws: seq<string>)
    requires |w| > 0 && NoSpace(w) && WellFormedWords(ws)
    ensures WellFormedWords([w] + ws)
  {
    forall i | 0 <= i < |ws| + 1 ensures |([w] + ws)[i]| > 0 && NoSpace(([w] + ws)[i]) {
      if i > 0 {
        assert ([w] + ws)[i] == ws[i - 1];
      }
    }
  }

  lemma AllVisibleCons(w: string, ws: seq<string>)
    requires Visible(w) && AllVisible(ws)
    ensures AllVisible([w] + ws)
  {
    forall i | 0 <= i < |ws| + 1 ensures Visible(([w] + ws)[i]) {
      if i > 0 {
        assert ([w] + ws)[i] == ws[i - 1];
      }
    }
  }

  lemma VisibleSuffix(s: string, k: nat)
    requires k <= |s| && Visible(s)
    ensures Visible(s[k..])
  {
    assert forall j :: 0 <= j < |s| - k ==> s[k..][j] == s[k + j];
  }

  lemma VisiblePrefix(s: string, k: nat)
    requires k <= |s| && Visible(s)
    ensures Visible(s[..k])
  {
    assert forall j :: 0 <= j < k ==> s[..k][j] == s[j];
  }

  /** Non-empty words without white space, joined by single spaces, are normalized text. */
  lemma JoinWordsNormalized(ws: seq<string>)
    requires WellFormedWords(ws)
    ensures Normalized(Join(ws, " "))
    ensures AllVisible(ws) ==> Visible(Join(ws, " "))
    ensures |ws| > 0 ==> |Join(ws, " ")| > 0
  {
    JoinWordsShape(ws);
    if AllVisible(ws) {
      JoinWordsVisible(ws);
    }
  }

  lemma {:induction false} JoinWordsShape(ws: seq<string>)
    requires WellFormedWords(ws)
    ensures Normalized(Join(ws, " "))
    ensures |ws| > 0 ==> |Join(ws, " ")| > 0
  {
    if |ws| > 1 {
      WellFormedTail(ws);
      JoinWordsShape(ws[1..]);
      JoinConsNormalized(ws[0], Join(ws[1..], " "), Join(ws, " "));
    }
  }

  lemma WellFormedTail(ws: seq<string>)
    requires WellFormedWords(ws) && |ws| > 0
    ensures WellFormedWords(ws[1..]) && |ws[0]| > 0 && NoSpace(ws[0])
  {
    forall i | 0 <= i < |ws| - 1 ensures |ws[1..][i]| > 0 && NoSpace(ws[1..][i]) {
      assert ws[1..][i] == ws[i + 1];
    }
  }

  /** A word, one space and non-empty normalized text make normalized text. */
  lemma JoinConsNormalized(w: string, rest: string, j: string)
    requires |w| > 0 && NoSpace(w) && Normalized(rest) && |rest| > 0
    requires j == w + " " + rest
    ensures Normalized(j) && |j| > 0
  {
    assert forall i :: 0 <= i < |w| ==> j[i] == w[i];
    assert j[|w|] == ' ';
    assert forall i :: 0 <= i < |rest| ==> j[|w| + 1 + i] == rest[i];
    forall i | 0 <= i < |j| - 1
      ensures !SpacePairAt(j, i)
    {
      if i + 1 < |w| {
        assert j[i] == w[i];
      } else if i + 1 == |w| {
        assert j[i] == w[i];
      } else if i == |w| {
        assert j[i + 1] == rest[0];
      } else {
        assert j[i] == rest[i - |w| - 1];
        assert j[i + 1] == rest[i + 1 - |w| - 1];
        assert !SpacePairAt(rest, i - |w| - 1);
      }
    }
    forall i | |w| < i < |j| && IsSpace(j[i]) ensures j[i] == ' ' {
      assert j[i] == rest[i - |w| - 1];
    }
    assert j[|j| - 1] == rest[|rest| - 1];
  }

  lemma {:induction false} JoinWordsVisible(ws: seq<string>)
    requires AllVisible(ws)
    ensures Visible(Join(ws, " "))
  {
    if |ws| > 1 {
      assert AllVisible(ws[1..]) by {
        forall i | 0 <= i < |ws| - 1 ensures Visible(ws[1..][i]) {
          assert ws[1..][i] == ws[i + 1];
        }
      }
      JoinWordsVisible(ws[1..]);
      assert Visible(ws[0]);
      JoinConsVisible(ws[0], Join(ws[1..], " "), Join(ws, " "));
    }
  }

  lemma JoinConsVisible(w: string, rest: string, j: string)
    requires Visible(w) && Visible(rest) && j == w + " " + rest
    ensures Visible(j)
  {
    forall i | 0 <= i < |j| ensures !IsInvisible(j[i]) {
      if i < |w| {
        assert j[i] == w[i];
      } else if i > |w| {
        assert j[i] == rest[i - |w| - 1];
      }
    }
  }

  /** Replacing white space inside non-space text leaves the text alone. */
  lemma {:induction false} CollapseWordPrefix(w: string, r: string)
    requires NoSpace(w)
    ensures CollapseSpaces(w + r) == w + CollapseSpaces(r)
    decreases |w|
  {
    if |w| > 0 {
      var s := w + r;
      assert s[0] == w[0] && !IsSpace(w[0]);
      assert s[1..] == w[1..] + r;
      assert CollapseSpaces(s) == [w[0]] + CollapseSpaces(w[1..] + r);
      CollapseWordPrefix(w[1..], r);
      assert w == [w[0]] + w[1..];
    } else {
      assert w + r == r;
    }
  }

  lemma ConcatChain(x: string, w: string, cr: string, ct: string, j: string, t: string)
    requires x == w + cr && cr == " " + ct && ct == j + t
    ensures x == (w + " " + j) + t
  {
  }

  function TrailingSpace(t: string): string {
    if |t| > 0 && IsSpace(t[|t| - 1]) then " " else ""
  }

  /** Collapsing text that starts with a non-space gives its words joined, plus one space if it ends in white space. */
  lemma {:induction false} CollapseIsJoinedWords(t: string)
    requires |t| == 0 || !IsSpace(t[0])
    ensures CollapseSpaces(t) == Join(Words(t), " ") + TrailingSpace(t)
    decreases |t|, 2
  {
    if |t| == 0 {
      assert DropSpaces(t) == [];
    } else {
      var k := WordLength(t);
      var w := t[..k];
      var r := t[k..];
      assert Words(t) == [w] + Words(r) by {
        DropSpacesOfNonSpace(t);
      }
      assert CollapseSpaces(t) == w + CollapseSpaces(r) by {
        assert t == w + r;
        CollapseWordPrefix(w, r);
      }
      if |r| == 0 {
        assert Words(r) == [] && CollapseSpaces(r) == [];
        assert TrailingSpace(t) == "" by {
          assert t[|t| - 1] == w[k - 1];
        }
      } else {
        CollapseAfterWord(t, k);
      }
    }
  }

  /** The inductive step of `CollapseIsJoinedWords`: a word followed by white space. */
  lemma {:induction false} CollapseAfterWord(t: string, k: nat)
    requires |t| > 0 && !IsSpace(t[0])
    requires k == WordLength(t) && k < |t|
    requires Words(t) == [t[..k]] + Words(t[k..])
    requires CollapseSpaces(t) == t[..k] + CollapseSpaces(t[k..])
    ensures CollapseSpaces(t) == Join(Words(t), " ") + TrailingSpace(t)
    decreases |t|, 1
  {
    var r := t[k..];
    var t' := DropSpaces(r);
    assert IsSpace(r[0]);
    assert CollapseSpaces(r) == " " + CollapseSpaces(t');
    assert Words(r) == Words(t') by {
      DropSpacesOfNonSpace(t');
    }
    if |t'| == 0 {
      assert Words(t') == [] && CollapseSpaces(t') == "";
      assert TrailingSpace(t) == " " by {
        assert SpaceRun(r, 0) == |r|;
        assert r[0..|r|] == r;
        assert t[|t| - 1] == r[|r| - 1];
      }
    } else {
      CollapseBeforeWord(t, k, t');
    }
  }

  /** `CollapseAfterWord` when another word follows the white space. */
  lemma {:induction false} CollapseBeforeWord(t: string, k: nat, t': string)
    requires |t| > 0 && !IsSpace(t[0])
    requires k == WordLength(t) && k < |t|
    requires Words(t) == [t[..k]] + Words(t[k..])
    requires CollapseSpaces(t) == t[..k] + CollapseSpaces(t[k..])
    requires t' == DropSpaces(t[k..]) && |t'| > 0
    requires CollapseSpaces(t[k..]) == " " + CollapseSpaces(t')
    requires Words(t[k..]) == Words(t')
    ensures CollapseSpaces(t) == Join(Words(t), " ") + TrailingSpace(t)
    decreases |t|, 0
  {
    var w := t[..k];
    var r := t[k..];
    var J := Join(Words(t'), " ");
    var T := TrailingSpace(t');
    assert CollapseSpaces(t') == J + T by {
      CollapseIsJoinedWords(t');
    }
    assert Join(Words(t), " ") == w + " " + J by {
      WordsShape(t');
      assert Words(t') != [];
    }
    assert TrailingSpace(t) == T by {
      assert t'[|t'| - 1] == r[|r| - 1] == t[|t| - 1];
    }
    ConcatChain(CollapseSpaces(t), w, CollapseSpaces(r), CollapseSpaces(t'), J, T);
  }

  /** The white-space stage equals the words of the text joined by single spaces. */
  lemma ShapeIsJoinedWords(s: string)
    ensures Trim(CollapseSpaces(ReplaceInvisible(s))) == Join(Words(ReplaceInvisible(s)), " ")
  {
    var u := ReplaceInvisible(s);
    var t := DropSpaces(u);
    var j := Join(Words(u), " ");
    var ts := TrailingSpace(t);
    var c := CollapseSpaces(t);
    assert c == j + ts by {
      DropSpacesOfNonSpace(t);
      CollapseIsJoinedWords(t);
      assert Words(u) == Words(t);
    }
    assert Trimmed(j) by {
      WordsShape(u);
      JoinWordsNormalized(Words(u));
    }
    if |u| > 0 && IsSpace(u[0]) {
      assert CollapseSpaces(u) == " " + c;
      AppendAssoc(" ", j, ts);
      TrimSurrounded(" ", j, ts);
    } else {
      DropSpacesOfNonSpace(u);
      assert CollapseSpaces(u) == c;
      AppendAssoc("", j, ts);
      TrimSurrounded("", j, ts);
    }
  }

  /** Normalized text is its own words joined by single spaces. */
  lemma {:induction false} NormalizedIsJoinedWords(s: string)
    requires Normalized(s)
    ensures Join(Words(s), " ") == s
    decreases |s|
  {
    if |s| > 0 {
      var k := WordLength(s);
      if k == |s| {
        assert Words(s) == [s] by {
          DropSpacesOfNonSpace(s);
          assert s[..k] == s;
          assert Words(s[k..]) == [];
        }
      } else {
        var w := s[..k];
        var t := s[k + 1..];
        NormalizedWordThenRest(s, k);
        NormalizedIsJoinedWords(t);
        WordsShape(t);
        assert Join(Words(s), " ") == w + " " + Join(Words(t), " ");
      }
    }
  }

  /** Normalized text is a word, one space, and normalized text, or a single word. */
  lemma NormalizedWordThenRest(s: string, k: nat)
    requires Normalized(s) && |s| > 0 && k == WordLength(s) && k < |s|
    ensures Words(s) == [s[..k]] + Words(s[k + 1..])
    ensures Normalized(s[k + 1..]) && |s[k + 1..]| > 0
    ensures s == s[..k] + " " + s[k + 1..]
  {
    var r := s[k..];
    var t := s[k + 1..];
    assert Words(s) == [s[..k]] + Words(r) by {
      DropSpacesOfNonSpace(s);
    }
    assert r[0] == ' ' && |t| > 0 && !IsSpace(t[0]) by {
      assert r[0] == s[k];
      assert !SpacePairAt(s, k);
    }
    assert Words(r) == Words(t) by {
      assert r[0..1] == [r[0]];
      SpaceRunExact(r, 0, 1);
      assert DropSpaces(r) == t;
      DropSpacesOfNonSpace(t);
    }
    NormalizedSuffix(s, k + 1);
    SplitAround(s, k);
  }

  /** A suffix of normalized text that starts after a space is normalized. */
  lemma NormalizedSuffix(s: string, k: nat)
    requires Normalized(s) && 0 < k < |s| && IsSpace(s[k - 1])
    ensures Normalized(s[k..])
  {
    var t := s[k..];
    assert !SpacePairAt(s, k - 1);
    forall i | 0 <= i < |t| - 1 ensures !SpacePairAt(t, i) {
      assert !SpacePairAt(s, k + i);
    }
  }

  /** Normalized, visible text is left unchanged by the white-space stage. */
  lemma {:induction false} ShapeFixpoint(s: string)
    requires Normalized(s) && Visible(s)
    ensures ShapeWhitespace(s) == s
  {
    assert ReplaceInvisible(s) == s;
    ShapeIsJoinedWords(s);
    NormalizedIsJoinedWords(s);
  }

  /** The white-space stage is idempotent. */
  lemma ShapeIdempotent(s: string)
    ensures ShapeWhitespace(ShapeWhitespace(s)) == ShapeWhitespace(s)
  {
    ShapeClean(s);
    ShapeFixpoint(ShapeWhitespace(s));
  }

  /** `cleanText` is the words of the (decoded) text, each run of white space and invisible characters read as a separator. */
  lemma CleanTextIsJoinedWords(decode: string -> string, text: string)
    ensures CleanText(decode, text)
         == Join(Words(ReplaceInvisible(if HasEntity(text) then decode(text) else text)), " ")
  {
    ShapeIsJoinedWords(if HasEntity(text) then decode(text) else text);
  }

  /** Text that carries no entity and is already clean passes through `cleanText` unchanged. */
  lemma CleanTextFixpoint(decode: string -> string, text: string)
    requires !HasEntity(text) && Normalized(text) && Visible(text)
    ensures CleanText(decode, text) == text
  {
    ShapeFixpoint(text);
  }
}
