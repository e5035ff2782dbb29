/**
 * `parseDuration` in src/lib/scraper.ts: the first match of
 *
 *   P(?:\d+Y)?(?:\d+M)?(?:\d+D)?T(?:(\d+)H)?(?:(\d+)M)?(?:[\d.]+S)?     (flag i)
 *
 * anywhere in the text, rendered as "<h> hr <m> min".
 *
 * Each optional group is "digits, then a letter". Giving back digits cannot
 * help such a group, since the character that follows would again be a
 * digit; and skipping a group that matched leaves a digit run no later group
 * or the `T` can consume. So at each start position the engine's first
 * match takes every group that can match, which is what `MatchFrom` does.
 */
module Duration {
  import opened Optional
  import opened Text
  import opened Json

  /** The digits of `(\d+)x` at `p` (`x` a lower-case letter, matched ignoring case), if it matches there. */
  function DesignatorDigits(s: string, p: nat, x: char): (r: Option<string>)
    requires p <= |s|
    ensures r.Some? ==> |r.value| > 0 && AllDigits(r.value)
    ensures r.Some? ==> p + |r.value| < |s| && s[p..p + |r.value|] == r.value && Lower(s[p + |r.value|]) == x
  {
    var n := DigitRun(s, p);
    if n > 0 && p + n < |s| && Lower(s[p + n]) == x then Some(s[p..p + n]) else None
  }

  /** The position after `(?:\d+x)?` at `p`. */
  function PastDesignator(s: string, p: nat, x: char): (q: nat)
    requires p <= |s|
    ensures p <= q <= |s|
  {
    match DesignatorDigits(s, p, x)
    case Some(d) => p + |d| + 1
    case None => p
  }

  /** The two captures of a match: hours and minutes, each present only when its group took part. */
  datatype DurationMatch = DurationMatch(hours: Option<string>, minutes: Option<string>)

  /** The captures read as `hv` hours and `mv` minutes. */
  predicate Reads(c: DurationMatch, hv: nat, mv: nat) {
    CaptureValue(c.hours) == hv && CaptureValue(c.minutes) == mv
  }

  /** The match that starts at `p`, if one does. */
  function MatchFrom(s: string, p: nat): (r: Option<DurationMatch>)
    ensures r.Some? ==> p < |s| && Lower(s[p]) == 'p'
    ensures r.Some? && r.value.hours.Some? ==> |r.value.hours.value| > 0 && AllDigits(r.value.hours.value)
    ensures r.Some? && r.value.minutes.Some? ==> |r.value.minutes.value| > 0 && AllDigits(r.value.minutes.value)
  {
    if p < |s| && Lower(s[p]) == 'p' then
      var afterDate := DateEnd(s, p);
      if afterDate < |s| && Lower(s[afterDate]) == 't' then Some(TimeCaptures(s, afterDate + 1)) else None
    else None
  }

  /** The position after `P(?:\d+Y)?(?:\d+M)?(?:\d+D)?` when the `P` is at `p`. */
  function DateEnd(s: string, p: nat): nat
    requires p < |s|
  {
    PastDesignator(s, PastDesignator(s, PastDesignator(s, p + 1, 'y'), 'm'), 'd')
  }

  /** The captures of `(?:(\d+)H)?(?:(\d+)M)?` at `b`, just after the `T`. */
  function TimeCaptures(s: string, b: nat): DurationMatch
    requires b <= |s|
  {
    DurationMatch(DesignatorDigits(s, b, 'h'), DesignatorDigits(s, PastDesignator(s, b, 'h'), 'm'))
  }

  /** `parseInt(match[k] || "0")` for a captured digit string. */
  function CaptureValue(g: Option<string>): nat {
    match g
    case Some(d) => if AllDigits(d) then DigitsValue(d) else 0
    case None => 0
  }

  /** The rendering of hours and minutes: both, either one, or nothing when both are zero. */
  function Render(hours: nat, minutes: nat): (r: string)
    ensures r == "" <==> hours == 0 && minutes == 0
  {
    if hours != 0 && minutes != 0 then NatToString(hours) + " hr " + NatToString(minutes) + " min"
    else if hours != 0 then NatToString(hours) + " hr"
    else if minutes != 0 then NatToString(minutes) + " min"
    else ""
  }

  /** `parseDuration(raw)`. */
  function ParseDuration(raw: Option<Json>): (r: string)
    ensures !(raw.Some? && raw.value.Str?) ==> r == ""
    ensures raw.Some? && raw.value.Str? && Search(MatchFrom, raw.value.s, 0).None? ==> r == raw.value.s
    ensures raw.Some? && raw.value.Str? && Search(MatchFrom, raw.value.s, 0).Some? ==>
      r != raw.value.s && forall i :: 0 <= i < |r| ==> Lower(r[i]) != 'p'
  {
    if raw.Some? && raw.value.Str? then
      match Search(MatchFrom, raw.value.s, 0)
      case Some((at, m)) =>
        RenderHasNoP(CaptureValue(m.hours), CaptureValue(m.minutes));
        assert Lower(raw.value.s[at]) == 'p';
        Render(CaptureValue(m.hours), CaptureValue(m.minutes))
      case None => raw.value.s
    else ""
  }

  // ---------------------------------------------------------------------
  // Properties.

  /** The text "PT<h>H<m>M" reads back as its hours and minutes. */
  lemma DurationRoundTrip(h: nat, m: nat)
    ensures ParseDuration(Some(Str("PT" + NatToString(h) + "H" + NatToString(m) + "M"))) == Render(h, m)
  {
    HoursMinutesText(h, m);
    DurationTextReads(None, None, None, Some(h), Some(m), "");
  }

  /** "PT<h>H<m>M" is the duration text with just hours and minutes. */
  lemma HoursMinutesText(h: nat, m: nat)
    ensures DurationText(None, None, None, Some(h), Some(m), "") == "PT" + NatToString(h) + "H" + NatToString(m) + "M"
  {
    var hs, ms := NatToString(h), NatToString(m);
    HoursMinutesNested(h, m);
    Reassociate(hs, ms);
  }

  /** The duration text with just hours and minutes, with its concatenations nested to the right. */
  lemma HoursMinutesNested(h: nat, m: nat)
    ensures DurationText(None, None, None, Some(h), Some(m), "") == "P" + ("T" + (NatToString(h) + ("H" + (NatToString(m) + "M"))))
  {
    var hs, ms := NatToString(h), NatToString(m);
    calc {
      DurationText(None, None, None, Some(h), Some(m), "");
      { TimeOnlyText(Some(h), Some(m), ""); }
      "P" + ("T" + (Group(Some(h), 'H') + (Group(Some(m), 'M') + "")));
      { assert Group(Some(h), 'H') == hs + "H" && Group(Some(m), 'M') + "" == ms + "M"; }
      "P" + ("T" + ((hs + "H") + (ms + "M")));
      { AppendAssoc(hs, "H", ms + "M"); }
      "P" + ("T" + (hs + ("H" + (ms + "M"))));
    }
  }

  /** A duration text without a date part. */
  lemma TimeOnlyText(hours: Option<nat>, minutes: Option<nat>, rest: string)
    ensures DurationText(None, None, None, hours, minutes, rest) == "P" + ("T" + (Group(hours, 'H') + (Group(minutes, 'M') + rest)))
  {
    var t := "T" + (Group(hours, 'H') + (Group(minutes, 'M') + rest));
    assert Group(None, 'D') + t == t;
    assert Group(None, 'M') + (Group(None, 'D') + t) == t;
    assert Group(None, 'Y') + (Group(None, 'M') + (Group(None, 'D') + t)) == t;
  }

  /** "PT<hs>H<ms>M" read left to right or nested to the right. */
  lemma Reassociate(hs: string, ms: string)
    ensures "P" + ("T" + (hs + ("H" + (ms + "M")))) == "PT" + hs + "H" + ms + "M"
  {
    calc {
      "P" + ("T" + (hs + ("H" + (ms + "M"))));
      { AppendAssoc("P", "T", hs + ("H" + (ms + "M"))); assert "P" + "T" == "PT"; }
      "PT" + (hs + ("H" + (ms + "M")));
      { AppendAssoc("PT", hs, "H" + (ms + "M")); }
      ("PT" + hs) + ("H" + (ms + "M"));
      { AppendAssoc("PT" + hs, "H", ms + "M"); }
      (("PT" + hs) + "H") + (ms + "M");
      { AppendAssoc(("PT" + hs) + "H", ms, "M"); }
      "PT" + hs + "H" + ms + "M";
    }
  }

  /** `<n>X` for a group that is present, nothing for one that is absent. */
  function Group(v: Option<nat>, x: char): string {
    match v
    case Some(n) => NatToString(n) + [x]
    case None => ""
  }

  /** The number a group stands for, 0 when it is absent. */
  function GroupValue(v: Option<nat>): nat {
    match v
    case Some(n) => n
    case None => 0
  }

  /**
   * An ISO 8601 duration as schema.org pages write it: optional years,
   * months and days, `T`, optional hours and minutes, then anything at all
   * (a seconds part such as "0.000S", or nothing).
   */
  function DurationText(years: Option<nat>, months: Option<nat>, days: Option<nat>, hours: Option<nat>, minutes: Option<nat>, rest: string): string {
    "P" + (Group(years, 'Y') + (Group(months, 'M') + (Group(days, 'D') + ("T" + (Group(hours, 'H') + (Group(minutes, 'M') + rest))))))
  }

  /** No `(\d+)x` group can start at the beginning of `t`. */
  predicate Blocks(t: string, x: char) {
    DesignatorDigits(t, 0, x).None?
  }

  /** A text that does not start with a digit blocks every group. */
  lemma NonDigitBlocks(t: string, x: char)
    requires |t| == 0 || !IsDigit(t[0])
    ensures Blocks(t, x)
  {
  }

  /** A present group blocks every group with a different letter; an absent one passes the question on. */
  lemma GroupBlocks(v: Option<nat>, X: char, tail: string, x: char)
    requires !IsDigit(X) && Lower(X) != x
    requires v.None? ==> Blocks(tail, x)
    ensures Blocks(Group(v, X) + tail, x)
  {
    if v.Some? {
      var d := NatToString(v.value);
      var t := Group(v, X) + tail;
      assert t[..|d|] == d && t[|d|] == X;
      DigitRunExact(t, 0, |d|);
    } else {
      assert Group(v, X) + tail == tail;
    }
  }

  /** A seconds part "<digits and points>S" blocks the hours and minutes groups. */
  lemma SecondsBlocks(d: string, tail: string, x: char)
    requires |d| > 0 && forall i :: 0 <= i < |d| ==> IsDigit(d[i]) || d[i] == '.'
    requires x == 'h' || x == 'm'
    ensures Blocks(d + "S" + tail, x)
  {
    var t := d + "S" + tail;
    var n := DigitRun(t, 0);
    assert t[|d|] == 'S';
    assert n <= |d|;
    if n < |d| {
      assert t[n] == d[n];
    } else {
      assert t[n] == 'S';
    }
  }

  /** `DesignatorDigits` looks only at the text from its position on. */
  lemma {:induction false} DigitRunShift(s: string, p: nat, k: nat)
    requires p + k <= |s|
    ensures DigitRun(s, p + k) == DigitRun(s[p..], k)
    decreases |s| - p - k
  {
    if p + k < |s| {
      assert s[p..][k] == s[p + k];
      DigitRunShift(s, p, k + 1);
    }
  }

  lemma DesignatorShift(s: string, p: nat, x: char)
    requires p <= |s|
    ensures DesignatorDigits(s, p, x) == DesignatorDigits(s[p..], 0, x)
  {
    DigitRunShift(s, p, 0);
    var n := DigitRun(s, p);
    if n > 0 && p + n < |s| {
      assert s[p..][n] == s[p + n];
      assert s[p..][0..n] == s[p..p + n];
    }
  }

  /** Reading one group whose text starts at `p` and is followed by `rest`. */
  lemma GroupAt(s: string, p: nat, v: Option<nat>, X: char, x: char, rest: string)
    requires p <= |s| && s[p..] == Group(v, X) + rest
    requires !IsDigit(X) && Lower(X) == x
    requires v.None? ==> Blocks(rest, x)
    ensures p + |Group(v, X)| <= |s| && s[p + |Group(v, X)|..] == rest
    ensures DesignatorDigits(s, p, x) == (if v.Some? then Some(NatToString(v.value)) else None)
    ensures PastDesignator(s, p, x) == p + |Group(v, X)|
  {
    var g := Group(v, X);
    var t := g + rest;
    assert s[p + |g|..] == t[|g|..];
    DesignatorShift(s, p, x);
    if v.Some? {
      var d := NatToString(v.value);
      assert t[0..|d|] == d && t[|d|] == X;
      DesignatorAt(t, 0, d, x);
    } else {
      assert t == rest;
    }
  }

  /** A captured rendering reads back as its number. */
  lemma CaptureOfGroup(v: Option<nat>)
    ensures CaptureValue(if v.Some? then Some(NatToString(v.value)) else None) == GroupValue(v)
  {
    if v.Some? {
      NatToStringRoundTrip(v.value);
    }
  }

  /** What follows each date group cannot supply a group it skipped. */
  lemma DateBlocks(months: Option<nat>, days: Option<nat>, s4: string)
    requires |s4| > 0 && s4[0] == 'T'
    ensures Blocks(s4, 'd')
    ensures Blocks(Group(days, 'D') + s4, 'm')
    ensures Blocks(Group(months, 'M') + (Group(days, 'D') + s4), 'y')
  {
    NonDigitBlocks(s4, 'y');
    NonDigitBlocks(s4, 'm');
    NonDigitBlocks(s4, 'd');
    GroupBlocks(days, 'D', s4, 'y');
    GroupBlocks(days, 'D', s4, 'm');
    GroupBlocks(months, 'M', Group(days, 'D') + s4, 'y');
  }

  /** The optional years, months and days after `P` end where the `T` begins. */
  lemma DateAt(s: string, years: Option<nat>, months: Option<nat>, days: Option<nat>, s2: string, s3: string, s4: string)
    requires |s| > 0 && s[1..] == Group(years, 'Y') + s2
    requires s2 == Group(months, 'M') + s3 && s3 == Group(days, 'D') + s4
    requires |s4| > 0 && s4[0] == 'T'
    ensures DateEnd(s, 0) < |s| && s[DateEnd(s, 0)..] == s4
  {
    DateBlocks(months, days, s4);
    var p2 := GroupEnd(s, 1, years, 'Y', 'y', s2);
    var p3 := GroupEnd(s, p2, months, 'M', 'm', s3);
    var a := GroupEnd(s, p3, days, 'D', 'd', s4);
  }

  /** `GroupAt`, giving the position after the group. */
  lemma GroupEnd(s: string, p: nat, v: Option<nat>, X: char, x: char, rest: string) returns (q: nat)
    requires p <= |s| && s[p..] == Group(v, X) + rest
    requires !IsDigit(X) && Lower(X) == x
    requires v.None? ==> Blocks(rest, x)
    ensures q == PastDesignator(s, p, x) && q <= |s| && s[q..] == rest
  {
    GroupAt(s, p, v, X, x, rest);
    q := p + |Group(v, X)|;
  }

  /** The optional hours and minutes after `T` are the two captures. */
  lemma TimeAt(s: string, b: nat, hours: Option<nat>, minutes: Option<nat>, rest: string)
    requires b <= |s| && s[b..] == Group(hours, 'H') + (Group(minutes, 'M') + rest)
    requires minutes.None? ==> Blocks(rest, 'm')
    requires hours.None? && minutes.None? ==> Blocks(rest, 'h')
    ensures Reads(TimeCaptures(s, b), GroupValue(hours), GroupValue(minutes))
  {
    var s6 := Group(minutes, 'M') + rest;
    if hours.None? {
      GroupBlocks(minutes, 'M', rest, 'h');
    }
    var q := GroupCapture(s, b, hours, 'H', 'h', s6);
    var _ := GroupCapture(s, q, minutes, 'M', 'm', rest);
  }

  /** `GroupAt`, read as the capture's value. */
  lemma GroupCapture(s: string, p: nat, v: Option<nat>, X: char, x: char, rest: string) returns (q: nat)
    requires p <= |s| && s[p..] == Group(v, X) + rest
    requires !IsDigit(X) && Lower(X) == x
    requires v.None? ==> Blocks(rest, x)
    ensures CaptureValue(DesignatorDigits(s, p, x)) == GroupValue(v)
    ensures q == PastDesignator(s, p, x) && q <= |s| && s[q..] == rest
  {
    GroupAt(s, p, v, X, x, rest);
    CaptureOfGroup(v);
    q := p + |Group(v, X)|;
  }

  /**
   * Every duration text reads as its hours and minutes, whatever date part
   * precedes the `T` and whatever follows, as long as an absent hours or
   * minutes group is not supplied by what follows.
   */
  lemma DurationTextReads(years: Option<nat>, months: Option<nat>, days: Option<nat>, hours: Option<nat>, minutes: Option<nat>, rest: string)
    requires minutes.None? ==> Blocks(rest, 'm')
    requires hours.None? && minutes.None? ==> Blocks(rest, 'h')
    ensures ParseDuration(Some(Str(DurationText(years, months, days, hours, minutes, rest)))) == Render(GroupValue(hours), GroupValue(minutes))
  {
    var s := DurationText(years, months, days, hours, minutes, rest);
    TextMatchesAtStart(years, months, days, hours, minutes, rest);
    SearchFinds(MatchFrom, s, 0, 0);
  }

  /** A duration text matches at its first character, with the hours and minutes as captures. */
  lemma TextMatchesAtStart(years: Option<nat>, months: Option<nat>, days: Option<nat>, hours: Option<nat>, minutes: Option<nat>, rest: string)
    requires minutes.None? ==> Blocks(rest, 'm')
    requires hours.None? && minutes.None? ==> Blocks(rest, 'h')
    ensures var m := MatchFrom(DurationText(years, months, days, hours, minutes, rest), 0);
      m.Some? && Reads(m.value, GroupValue(hours), GroupValue(minutes))
  {
    var s := DurationText(years, months, days, hours, minutes, rest);
    var s5 := Group(hours, 'H') + (Group(minutes, 'M') + rest);
    DateOfText(years, months, days, s5, s);
    MatchWithTime(s, hours, minutes, rest);
  }

  /** Past the date part, the hours and minutes groups decide the captures. */
  lemma MatchWithTime(s: string, hours: Option<nat>, minutes: Option<nat>, rest: string)
    requires 0 < |s| && Lower(s[0]) == 'p'
    requires DateEnd(s, 0) < |s| && Lower(s[DateEnd(s, 0)]) == 't'
    requires s[DateEnd(s, 0) + 1..] == Group(hours, 'H') + (Group(minutes, 'M') + rest)
    requires minutes.None? ==> Blocks(rest, 'm')
    requires hours.None? && minutes.None? ==> Blocks(rest, 'h')
    ensures var m := MatchFrom(s, 0);
      m.Some? && Reads(m.value, GroupValue(hours), GroupValue(minutes))
  {
    TimeAfterDate(s, hours, minutes, rest);
    MatchAfterDate(s, GroupValue(hours), GroupValue(minutes));
  }

  /** `TimeAt` just past the `T` that ends the date part. */
  lemma TimeAfterDate(s: string, hours: Option<nat>, minutes: Option<nat>, rest: string)
    requires 0 < |s| && DateEnd(s, 0) < |s|
    requires s[DateEnd(s, 0) + 1..] == Group(hours, 'H') + (Group(minutes, 'M') + rest)
    requires minutes.None? ==> Blocks(rest, 'm')
    requires hours.None? && minutes.None? ==> Blocks(rest, 'h')
    ensures Reads(TimeCaptures(s, DateEnd(s, 0) + 1), GroupValue(hours), GroupValue(minutes))
  {
    TimeAt(s, DateEnd(s, 0) + 1, hours, minutes, rest);
  }

  /** With the date part read up to the `T`, the match is decided by the hours and minutes that follow. */
  lemma MatchAfterDate(s: string, hv: nat, mv: nat)
    requires 0 < |s| && Lower(s[0]) == 'p'
    requires DateEnd(s, 0) < |s| && Lower(s[DateEnd(s, 0)]) == 't'
    requires Reads(TimeCaptures(s, DateEnd(s, 0) + 1), hv, mv)
    ensures MatchFrom(s, 0).Some? && Reads(MatchFrom(s, 0).value, hv, mv)
  {
    MatchAtStart(s);
  }

  /** A text starting with `P` whose date part ends at a `T` matches, capturing what follows the `T`. */
  lemma MatchAtStart(s: string)
    requires 0 < |s| && Lower(s[0]) == 'p'
    requires DateEnd(s, 0) < |s| && Lower(s[DateEnd(s, 0)]) == 't'
    ensures MatchFrom(s, 0) == Some(TimeCaptures(s, DateEnd(s, 0) + 1))
  {
  }

  /** Where the date part of a duration text ends. */
  lemma DateOfText(years: Option<nat>, months: Option<nat>, days: Option<nat>, s5: string, s: string)
    requires s == "P" + (Group(years, 'Y') + (Group(months, 'M') + (Group(days, 'D') + ("T" + s5))))
    ensures 0 < |s| && Lower(s[0]) == 'p'
    ensures DateEnd(s, 0) < |s| && Lower(s[DateEnd(s, 0)]) == 't' && s[DateEnd(s, 0) + 1..] == s5
  {
    var s4 := "T" + s5;
    var s3 := Group(days, 'D') + s4;
    var s2 := Group(months, 'M') + s3;
    DropFirst("P", Group(years, 'Y') + s2, s);
    DateAt(s, years, months, days, s2, s3, s4);
    DropFirst("T", s5, s4);
    StepPast(s, DateEnd(s, 0), s4);
  }

  /** Dropping a one-character head. */
  lemma DropFirst(c: string, t: string, s: string)
    requires |c| == 1 && s == c + t
    ensures 0 < |s| && s[0] == c[0] && s[1..] == t
  {
  }

  /** One character further into a text whose suffix is known. */
  lemma StepPast(s: string, a: nat, t: string)
    requires a <= |s| && s[a..] == t && 0 < |t|
    ensures a < |s| && s[a] == t[0] && s[a + 1..] == t[1..]
  {
    assert s[a..][1..] == s[a + 1..];
  }

  /** The renderings the examples below come to. */
  lemma ExampleRenderings()
    ensures Render(0, 30) == "30 min" && Render(1, 0) == "1 hr" && Render(0, 20) == "20 min"
  {
    assert NatToString(1) == "1";
    assert NatToString(3) == "3" && NatToString(30) == NatToString(3) + [DigitChar(0)];
    assert NatToString(2) == "2" && NatToString(20) == NatToString(2) + [DigitChar(0)];
  }

  /** "PT30M", a form real pages use, reads as half an hour. */
  lemma MinutesOnlyDuration()
    ensures ParseDuration(Some(Str("PT30M"))) == "30 min"
  {
    assert DurationText(None, None, None, None, Some(30), "") == "PT30M";
    DurationTextReads(None, None, None, None, Some(30), "");
    ExampleRenderings();
  }

  /** "PT1H" reads as one hour. */
  lemma HoursOnlyDuration()
    ensures ParseDuration(Some(Str("PT1H"))) == "1 hr"
  {
    assert DurationText(None, None, None, Some(1), None, "") == "PT1H";
    DurationTextReads(None, None, None, Some(1), None, "");
    ExampleRenderings();
  }

  lemma FullText()
    ensures DurationText(Some(0), Some(0), Some(0), Some(0), Some(20), "0.000S") == "P0Y0M0DT0H20M0.000S"
  {
    calc {
      DurationText(Some(0), Some(0), Some(0), Some(0), Some(20), "0.000S");
      "P" + (Group(Some(0), 'Y') + (Group(Some(0), 'M') + (Group(Some(0), 'D') + ("T" + (Group(Some(0), 'H') + (Group(Some(20), 'M') + "0.000S"))))));
      { FullTextTime(); }
      "P" + (Group(Some(0), 'Y') + (Group(Some(0), 'M') + (Group(Some(0), 'D') + ("T" + "0H20M0.000S"))));
      { ZeroDate("T" + "0H20M0.000S"); }
      "P" + ("0Y0M0D" + ("T" + "0H20M0.000S"));
      "P0Y0M0DT0H20M0.000S";
    }
  }

  lemma FullTextTime()
    ensures Group(Some(0), 'H') + (Group(Some(20), 'M') + "0.000S") == "0H20M0.000S"
  {
    assert NatToString(0) == "0";
    assert NatToString(20) == "20" by {
      assert NatToString(2) == "2" && NatToString(20) == NatToString(2) + [DigitChar(0)];
    }
  }

  lemma ZeroDate(t: string)
    ensures Group(Some(0), 'Y') + (Group(Some(0), 'M') + (Group(Some(0), 'D') + t)) == "0Y0M0D" + t
  {
    assert NatToString(0) == "0";
    AppendAssoc("0M", "0D", t);
    AppendAssoc("0Y", "0M0D", t);
  }

  /** "P0Y0M0DT0H20M0.000S", with every date group and a seconds part, reads as twenty minutes. */
  lemma FullDuration()
    ensures ParseDuration(Some(Str("P0Y0M0DT0H20M0.000S"))) == "20 min"
  {
    FullText();
    DurationTextReads(Some(0), Some(0), Some(0), Some(0), Some(20), "0.000S");
    ExampleRenderings();
  }

  /** A duration of seconds only renders as nothing: "PT45S" gives "". */
  lemma SecondsOnlyIsEmpty(d: string)
    requires |d| > 0 && forall i :: 0 <= i < |d| ==> IsDigit(d[i]) || d[i] == '.'
    ensures ParseDuration(Some(Str("PT" + d + "S"))) == ""
  {
    SecondsBlocks(d, "", 'h');
    SecondsBlocks(d, "", 'm');
    assert d + "S" + "" == d + "S";
    assert DurationText(None, None, None, None, None, d + "S") == "PT" + d + "S";
    DurationTextReads(None, None, None, None, None, d + "S");
  }

  /** Digits `d` followed by the designator letter form the group at `p`. */
  lemma DesignatorAt(s: string, p: nat, d: string, x: char)
    requires p + |d| < |s| && s[p..p + |d|] == d && |d| > 0 && AllDigits(d)
    requires Lower(s[p + |d|]) == x && !IsDigit(s[p + |d|])
    ensures DesignatorDigits(s, p, x) == Some(d) && PastDesignator(s, p, x) == p + |d| + 1
  {
    DigitRunExact(s, p, |d|);
  }

  /** A text with no `p` anywhere has no match, so it comes back unchanged. */
  lemma NoLetterPUnchanged(s: string)
    requires forall i :: 0 <= i < |s| ==> Lower(s[i]) != 'p'
    ensures ParseDuration(Some(Str(s))) == s
  {
    assert forall i :: 0 <= i <= |s| ==> MatchFrom(s, i).None?;
    SearchNone(MatchFrom, s, 0);
  }

  /** Everything `Render` produces is free of the letter `p`. */
  lemma RenderHasNoP(h: nat, m: nat)
    ensures forall i :: 0 <= i < |Render(h, m)| ==> Lower(Render(h, m)[i]) != 'p'
  {
    var hs := NatToString(h);
    var ms := NatToString(m);
    assert forall i :: 0 <= i < |hs| ==> IsDigit(hs[i]);
    assert forall i :: 0 <= i < |ms| ==> IsDigit(ms[i]);
  }

  /** Parsing a parsed duration changes nothing: the output never contains a match. */
  lemma ParseDurationIdempotent(raw: Option<Json>)
    ensures ParseDuration(Some(Str(ParseDuration(raw)))) == ParseDuration(raw)
  {
    if raw.Some? && raw.value.Str? {
      match Search(MatchFrom, raw.value.s, 0)
      case Some((_, m)) =>
        RenderHasNoP(CaptureValue(m.hours), CaptureValue(m.minutes));
        NoLetterPUnchanged(ParseDuration(raw));
      case None =>
    } else {
      NoLetterPUnchanged("");
    }
  }

  /**
   * The unanchored search: when the first `p` of the text is followed by
   * `t` and then by something other than a digit, the result is "" however
   * the text goes on ("Sept", "empty").
   */
  lemma FirstPtGivesEmpty(s: string, i: nat)
    requires i + 1 < |s| && Lower(s[i]) == 'p' && Lower(s[i + 1]) == 't'
    requires forall j :: 0 <= j < i ==> Lower(s[j]) != 'p'
    requires i + 2 == |s| || !IsDigit(s[i + 2])
    ensures ParseDuration(Some(Str(s))) == ""
  {
    assert forall j :: 0 <= j < i ==> MatchFrom(s, j).None?;
    assert PastDesignator(s, i + 1, 'y') == i + 1;
    assert PastDesignator(s, i + 1, 'm') == i + 1;
    assert PastDesignator(s, i + 1, 'd') == i + 1;
    assert DesignatorDigits(s, i + 2, 'h').None?;
    assert PastDesignator(s, i + 2, 'h') == i + 2;
    assert DesignatorDigits(s, i + 2, 'm').None?;
    assert MatchFrom(s, i) == Some(DurationMatch(None, None));
    SearchFinds(MatchFrom, s, 0, i);
  }
}
