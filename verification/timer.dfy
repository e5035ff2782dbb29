/**
 * src/lib/timer-utils.ts: finding a cooking time in an instruction and
 * rendering a countdown.
 *
 * The three expressions of `detectTimer` are read as explicit searches. In
 * each of them a greedy choice is the only one that can succeed, because the
 * next item of the expression cannot begin with what was given back: digits
 * are followed by spaces or a letter, spaces by a letter or a digit, and the
 * optional `s` of a unit word by spaces, `and` or a digit. So at each start
 * position the first match the engine finds is the greedy one, and the
 * search returns the one at the leftmost start position.
 */
module Timer {
  import opened Optional
  import opened Text

  /** A detected duration and its label (`label` in the source). */
  datatype DetectedTimer = DetectedTimer(durationSeconds: nat, labelText: string)

  /** `toSeconds(hours, minutes, seconds)`. */
  function ToSeconds(hours: nat, minutes: nat, seconds: nat): nat {
    hours * 3600 + minutes * 60 + seconds
  }

  /** The parts of a label: the non-zero hours and minutes, and the seconds only on their own. */
  function LabelParts(hours: nat, minutes: nat, seconds: nat): seq<string> {
    (if hours > 0 then [NatToString(hours) + " hr"] else [])
    + (if minutes > 0 then [NatToString(minutes) + " min"] else [])
    + (if seconds > 0 && hours == 0 && minutes == 0 then [NatToString(seconds) + " sec"] else [])
  }

  /** `buildLabel(hours, minutes, seconds)`: the parts joined by spaces, or "0 sec" when there are none. */
  function BuildLabel(hours: nat, minutes: nat, seconds: nat): (r: string)
    ensures r != ""
  {
    var joined := Join(LabelParts(hours, minutes, seconds), " ");
    if joined == "" then "0 sec" else joined
  }

  // ---------------------------------------------------------------------
  // Reading a label back

  function UnitSeconds(unit: string): Option<nat> {
    if unit == "hr" then Some(3600)
    else if unit == "min" then Some(60)
    else if unit == "sec" then Some(1)
    else None
  }

  /** The seconds a list of words "<n> <unit> <n> <unit> ..." stands for. */
  function PairsValue(words: seq<string>): Option<nat>
    decreases |words|
  {
    if |words| == 0 then Some(0)
    else if |words| >= 2 && |words[0]| > 0 && AllDigits(words[0]) && UnitSeconds(words[1]).Some? then
      match PairsValue(words[2..])
      case Some(v) => Some(DigitsValue(words[0]) * UnitSeconds(words[1]).value + v)
      case None => None
    else None
  }

  /** The seconds a label stands for, read independently of how it was built. */
  function LabelSeconds(text: string): Option<nat> {
    PairsValue(Split(text, ' '))
  }

  /** A rendered number has no space in it. */
  lemma NumberHasNoSpace(n: nat)
    ensures ' ' !in NatToString(n)
  {
  }

  /** The words of "<n> <unit>". */
  lemma PartWords(n: nat, unit: string)
    requires ' ' !in unit
    ensures Split(NatToString(n) + " " + unit, ' ') == [NatToString(n), unit]
  {
    NumberHasNoSpace(n);
    assert NatToString(n) + " " + unit == NatToString(n) + [' '] + unit;
    SplitCons(NatToString(n), ' ', unit);
    SplitNone(unit, ' ');
  }

  /** The words of "<n> <unit> <rest>". */
  lemma PartThenWords(n: nat, unit: string, rest: string)
    requires ' ' !in unit
    ensures Split(NatToString(n) + " " + unit + " " + rest, ' ') == [NatToString(n), unit] + Split(rest, ' ')
  {
    NumberHasNoSpace(n);
    assert " " == [' '];
    SplitTwo(NatToString(n), unit, ' ', rest);
  }

  /** "<n> <unit>" stands for `n` units. */
  lemma PartValue(n: nat, unit: string, u: nat, rest: seq<string>, v: nat)
    requires UnitSeconds(unit) == Some(u) && PairsValue(rest) == Some(v)
    ensures PairsValue([NatToString(n), unit] + rest) == Some(n * u + v)
  {
    NatToStringRoundTrip(n);
    assert ([NatToString(n), unit] + rest)[2..] == rest;
  }

  /** Two parts joined. */
  lemma JoinPair(a: string, b: string, sep: string)
    ensures Join([a, b], sep) == a + sep + b
  {
    assert [a, b][1..] == [b];
  }

  /** The words of the two-part label. */
  lemma HoursMinutesWords(hours: nat, minutes: nat)
    requires hours > 0 && minutes > 0
    ensures Split(BuildLabel(hours, minutes, 0), ' ') == [NatToString(hours), "hr", NatToString(minutes), "min"]
  {
    var m := NatToString(minutes);
    HoursMinutesText(hours, minutes);
    assert NatToString(hours) + " hr " + m + " min" == NatToString(hours) + " " + "hr" + " " + (m + " " + "min");
    PartThenWords(hours, "hr", m + " " + "min");
    PartWords(minutes, "min");
  }

  /** The text of the two-part label. */
  lemma HoursMinutesText(hours: nat, minutes: nat)
    requires hours > 0 && minutes > 0
    ensures BuildLabel(hours, minutes, 0) == NatToString(hours) + " hr " + NatToString(minutes) + " min"
  {
    var h := NatToString(hours);
    var m := NatToString(minutes);
    assert LabelParts(hours, minutes, 0) == [h + " hr", m + " min"];
    JoinPair(h + " hr", m + " min", " ");
  }

  /** The two-part label. */
  lemma HoursMinutesLabel(hours: nat, minutes: nat)
    requires hours > 0 && minutes > 0
    ensures LabelSeconds(BuildLabel(hours, minutes, 0)) == Some(ToSeconds(hours, minutes, 0))
  {
    var tail := [NatToString(minutes), "min"];
    assert PairsValue(tail) == Some(minutes * 60) by {
      assert PairsValue([]) == Some(0);
      PartValue(minutes, "min", 60, [], 0);
      assert tail + [] == tail;
    }
    PartValue(hours, "hr", 3600, tail, minutes * 60);
    assert [NatToString(hours), "hr"] + tail == [NatToString(hours), "hr", NatToString(minutes), "min"];
    HoursMinutesWords(hours, minutes);
  }

  /** A one-part label. */
  lemma SinglePartLabel(n: nat, unit: string)
    requires unit == "hr" || unit == "min" || unit == "sec"
    ensures LabelSeconds(NatToString(n) + " " + unit) == Some(n * UnitSeconds(unit).value)
  {
    PartWords(n, unit);
    assert PairsValue([]) == Some(0);
    PartValue(n, unit, UnitSeconds(unit).value, [], 0);
    assert [NatToString(n), unit] + [] == [NatToString(n), unit];
  }

  /** A label built from a duration stands for that duration, whenever the seconds part is shown. */
  lemma LabelDenotes(hours: nat, minutes: nat, seconds: nat)
    requires seconds == 0 || (hours == 0 && minutes == 0)
    ensures LabelSeconds(BuildLabel(hours, minutes, seconds)) == Some(ToSeconds(hours, minutes, seconds))
  {
    if hours > 0 && minutes > 0 {
      HoursMinutesLabel(hours, minutes);
    } else if hours > 0 {
      assert BuildLabel(hours, minutes, seconds) == NatToString(hours) + " " + "hr";
      SinglePartLabel(hours, "hr");
    } else if minutes > 0 {
      assert BuildLabel(hours, minutes, seconds) == NatToString(minutes) + " " + "min";
      SinglePartLabel(minutes, "min");
    } else {
      assert BuildLabel(hours, minutes, seconds) == NatToString(seconds) + " " + "sec";
      SinglePartLabel(seconds, "sec");
    }
  }

  // ---------------------------------------------------------------------
  // The three expressions of detectTimer

  /** The position after `\s*` at `q`. */
  function SkipSpaces(t: string, q: nat): (r: nat)
    requires q <= |t|
    ensures q <= r <= |t| && (r < |t| ==> !IsSpace(t[r]))
    ensures q < |t| && !IsSpace(t[q]) ==> r == q
  {
    q + SpaceRun(t, q)
  }

  /** `(\d+)` at `p`: the captured digits and the position after them. */
  function NumberAt(t: string, p: nat): (r: Option<(string, nat)>)
    ensures r.Some? ==> p < r.value.1 <= |t| && (r.value.1 < |t| ==> !IsDigit(t[r.value.1]))
    ensures r.None? ==> p >= |t| || !IsDigit(t[p])
  {
    if p >= |t| then None
    else
      var n := DigitRun(t, p);
      if n == 0 then None else Some((t[p..p + n], p + n))
  }

  /** An optional `s` at `q`, taken when present. */
  function OptionalS(t: string, q: nat): (r: nat)
    requires q <= |t|
    ensures q <= r <= |t|
  {
    if q < |t| && t[q] == 's' then q + 1 else q
  }

  /** Where `(?:hours?|hrs?)` ends when it matches at `p`. */
  function HourWordEnd(t: string, p: nat): (r: Option<nat>)
    ensures r.Some? ==> p < r.value <= |t| && t[p] == 'h'
    ensures r.Some? <==> OccursAt(t, "hour", p) || OccursAt(t, "hr", p)
  {
    if OccursAt(t, "hour", p) then Some(OptionalS(t, p + 4))
    else if OccursAt(t, "hr", p) then Some(OptionalS(t, p + 2))
    else None
  }

  datatype Unit = Hours | Minutes | Seconds

  /**
   * The unit named by a duration word at `p`, if one starts there. Every
   * spelling of a unit in the expressions starts with "hour", "hr", "min" or
   * "sec", and the unit a matched word is classified as follows from that start.
   */
  function UnitAt(t: string, p: nat): (r: Option<Unit>)
    ensures r.Some? ==> p < |t| && (t[p] == 'h' || t[p] == 'm' || t[p] == 's')
    ensures r == Some(Hours) <==> OccursAt(t, "hour", p) || OccursAt(t, "hr", p)
  {
    if OccursAt(t, "hour", p) || OccursAt(t, "hr", p) then Some(Hours)
    else if OccursAt(t, "min", p) then Some(Minutes)
    else if OccursAt(t, "sec", p) then Some(Seconds)
    else None
  }

  /** `\s*(?:and\s*)?(\d+)\s*(?:minutes?|mins?)` at `q`: the minutes' digits. */
  function MinutesAt(t: string, q: nat): Option<string>
    requires q <= |t|
  {
    MinutesFrom(t, PastAnd(t, SkipSpaces(t, q)))
  }

  /** `(?:and\s*)?` at `q`: the position after it. */
  function PastAnd(t: string, q: nat): (r: nat)
    requires q <= |t|
    ensures q <= r <= |t|
  {
    if OccursAt(t, "and", q) then SkipSpaces(t, q + 3) else q
  }

  /** `(\d+)\s*(?:minutes?|mins?)` at `q`: the minutes. */
  function MinutesFrom(t: string, q: nat): Option<string> {
    match NumberAt(t, q)
    case Some((m, e)) => if OccursAt(t, "min", SkipSpaces(t, e)) then Some(m) else None
    case None => None
  }

  /** `(\d+)\s*(?:hours?|hrs?)\s*(?:and\s*)?(\d+)\s*(?:minutes?|mins?)` at `p`: hours and minutes. */
  function CompoundAt(t: string, p: nat): (r: Option<(string, string)>)
    ensures r.Some? ==> NumberAt(t, p).Some? && r.value.0 == NumberAt(t, p).value.0
    ensures r.Some? ==> HourWordEnd(t, SkipSpaces(t, NumberAt(t, p).value.1)).Some?
  {
    match NumberAt(t, p)
    case None => None
    case Some((h, e)) =>
      match HourWordEnd(t, SkipSpaces(t, e))
      case None => None
      case Some(q) =>
        match MinutesAt(t, q)
        case Some(m) => Some((h, m))
        case None => None
  }

  /** Where the second number of `(\d+)\s*-\s*(\d+)` may start, when the first number and the dash match at `p`. */
  function RangeUpperStart(t: string, p: nat): (q: Option<nat>)
    ensures q.Some? ==> q.value <= |t|
  {
    match NumberAt(t, p)
    case None => None
    case Some((_, e)) =>
      var d := SkipSpaces(t, e);
      if d == |t| || t[d] != '-' then None else Some(SkipSpaces(t, d + 1))
  }

  /** `(\d+)\s*-\s*(\d+)\s*(?:minutes?|mins?|hours?|hrs?|seconds?|secs?)` at `p`: the upper bound and its unit. */
  function RangeAt(t: string, p: nat): (r: Option<(string, Unit)>)
    ensures r.Some? ==> RangeUpperStart(t, p).Some?
  {
    match RangeUpperStart(t, p)
    case None => None
    case Some(q) =>
      match NumberAt(t, q)
      case None => None
      case Some((high, e)) =>
        match UnitAt(t, SkipSpaces(t, e))
        case Some(u) => Some((high, u))
        case None => None
  }

  /** The digits of `(\d+(?:\.\d+)?)` before and after the point; `fraction` is empty without one. */
  datatype Number = Number(whole: string, fraction: string)

  /** `(\d+(?:\.\d+)?)\s*(?:hours?|hrs?|minutes?|mins?|seconds?|secs?)` at `p`: the number and its unit. */
  function SimpleAt(t: string, p: nat): (r: Option<(Number, Unit)>)
    ensures r.Some? ==> p < |t| && IsDigit(t[p])
    ensures r.Some? ==> NumberAt(t, p).Some? && r.value.0.whole == NumberAt(t, p).value.0
  {
    match NumberAt(t, p)
    case None => None
    case Some((whole, e)) =>
      var frac := if e < |t| && t[e] == '.' then NumberAt(t, e + 1) else None;
      var n := if frac.Some? then Number(whole, frac.value.0) else Number(whole, "");
      var q := if frac.Some? then frac.value.1 else e;
      match UnitAt(t, SkipSpaces(t, q))
      case Some(u) => Some((n, u))
      case None => None
  }

  // ---------------------------------------------------------------------
  // Values

  /** `parseInt` of captured digits. */
  function IntValue(d: string): nat {
    if AllDigits(d) then DigitsValue(d) else 0
  }

  function Pow10(k: nat): (r: nat)
    ensures r > 0
  {
    if k == 0 then 1 else 10 * Pow10(k - 1)
  }

  /** `Math.round(a / b)` for a non-negative quotient: halves round up. */
  function RoundDiv(a: nat, b: nat): nat
    requires b > 0
  {
    (2 * a + b) / (2 * b)
  }

  /** Hours, minutes and seconds for a range's upper bound in its unit. */
  function RangeParts(high: nat, unit: Unit): (r: (nat, nat, nat))
    ensures ToSeconds(r.0, r.1, r.2) == high * UnitFactor(unit)
    ensures r.2 == 0 || (r.0 == 0 && r.1 == 0)
  {
    match unit
    case Hours => (high, 0, 0)
    case Seconds => (0, 0, high)
    case Minutes => (0, high, 0)
  }

  /**
   * Hours, minutes and seconds for a simple match, in exact arithmetic: the
   * value is `whole + fraction / 10^|fraction|`; hours keep their whole part
   * and round the rest to minutes, seconds and minutes round the value.
   */
  function SimpleParts(n: Number, unit: Unit): (r: (nat, nat, nat))
    ensures r.2 == 0 || (r.0 == 0 && r.1 == 0)
  {
    var whole := IntValue(n.whole);
    var fraction := IntValue(n.fraction);
    var den := Pow10(|n.fraction|);
    match unit
    case Hours => (whole, RoundDiv(60 * fraction, den), 0)
    case Seconds => (0, 0, whole + RoundDiv(fraction, den))
    case Minutes => (0, whole + RoundDiv(fraction, den), 0)
  }

  /** The hours, minutes and seconds `detectTimer` settles on: compound first, then a range, then a single value. */
  function DetectParts(instruction: string): (r: Option<(nat, nat, nat)>)
    ensures r.Some? ==> r.value.2 == 0 || (r.value.0 == 0 && r.value.1 == 0)
  {
    var t := LowerAll(instruction);
    match Search(CompoundAt, t, 0)
    case Some((_, (h, m))) => Some((IntValue(h), IntValue(m), 0))
    case None =>
      match Search(RangeAt, t, 0)
      case Some((_, (high, unit))) => Some(RangeParts(IntValue(high), unit))
      case None =>
        match Search(SimpleAt, t, 0)
        case Some((_, (n, unit))) => Some(SimpleParts(n, unit))
        case None => None
  }

  /** `detectTimer(instruction)`; `None` is the source's `null`. */
  function DetectTimer(instruction: string): (r: Option<DetectedTimer>)
    ensures r.Some? <==> DetectParts(instruction).Some?
    ensures r.Some? ==> var (h, m, s) := DetectParts(instruction).value;
      r.value.durationSeconds == ToSeconds(h, m, s) && r.value.labelText == BuildLabel(h, m, s)
    ensures r.None? <==> Search(SimpleAt, LowerAll(instruction), 0).None?
    ensures r.Some? ==> LabelSeconds(r.value.labelText) == Some(r.value.durationSeconds)
  {
    DetectPartsNoneIff(instruction);
    match DetectParts(instruction)
    case Some((h, m, s)) =>
      LabelDenotes(h, m, s);
      Some(DetectedTimer(ToSeconds(h, m, s), BuildLabel(h, m, s)))
    case None => None
  }

  // ---------------------------------------------------------------------
  // Properties of detectTimer

  lemma LowerTwice(s: string)
    ensures LowerAll(LowerAll(s)) == LowerAll(s)
  {
  }

  /** Detection ignores ASCII case. */
  lemma DetectIgnoresCase(instruction: string)
    ensures DetectTimer(LowerAll(instruction)) == DetectTimer(instruction)
  {
    LowerTwice(instruction);
    assert DetectParts(LowerAll(instruction)) == DetectParts(instruction);
    SamePartsSameTimer(LowerAll(instruction), instruction);
  }

  /** The detected timer depends on the instruction only through its parts. */
  lemma SamePartsSameTimer(a: string, b: string)
    requires DetectParts(a) == DetectParts(b)
    ensures DetectTimer(a) == DetectTimer(b)
  {
  }

  /** Where a compound phrase matches, a single value with a unit matches too. */
  lemma CompoundIsSimple(t: string, p: nat)
    requires CompoundAt(t, p).Some?
    ensures SimpleAt(t, p).Some?
  {
    var e := NumberAt(t, p).value.1;
    var q := SkipSpaces(t, e);
    assert t[q] == 'h';
    assert !(e < |t| && t[e] == '.');
    assert UnitAt(t, q) == Some(Hours);
  }

  /** Where a range matches, its upper bound with the unit is a single value that matches. */
  lemma RangeIsSimple(t: string, p: nat) returns (q: nat)
    requires RangeAt(t, p).Some?
    ensures q <= |t| && SimpleAt(t, q).Some?
  {
    q := RangeUpperStart(t, p).value;
    var e := NumberAt(t, q).value.1;
    var q3 := SkipSpaces(t, e);
    assert UnitAt(t, q3).Some?;
    assert !(e < |t| && t[e] == '.');
  }

  /** No parts are found exactly when no number followed by a unit word occurs anywhere. */
  lemma DetectPartsNoneIff(instruction: string)
    ensures DetectParts(instruction).None? <==> Search(SimpleAt, LowerAll(instruction), 0).None?
  {
    var t := LowerAll(instruction);
    var c := Search(CompoundAt, t, 0);
    if c.Some? {
      CompoundIsSimple(t, c.value.0);
    } else {
      var r := Search(RangeAt, t, 0);
      if r.Some? {
        var q := RangeIsSimple(t, r.value.0);
      }
    }
  }

  /** Without an `h` there is no compound phrase. */
  lemma NoHourNoCompound(t: string)
    requires 'h' !in t
    ensures Search(CompoundAt, t, 0).None?
  {
    forall p | 0 <= p <= |t| ensures CompoundAt(t, p).None? {
    }
  }

  /** One space before a non-space is skipped. */
  lemma OneSpace(t: string, q: nat)
    requires q + 1 < |t| && t[q] == ' ' && !IsSpace(t[q + 1])
    ensures SkipSpaces(t, q) == q + 1
  {
    SpaceRunExact(t, q, q + 1);
  }

  /** A digit run of known length at `p`. */
  lemma NumberAtExact(t: string, p: nat, n: nat)
    requires 0 < n && p + n < |t| && AllDigits(t[p..p + n]) && !IsDigit(t[p + n])
    ensures NumberAt(t, p) == Some((t[p..p + n], p + n))
  {
    DigitRunExact(t, p, n);
  }

  /** Lower-casing distributes over concatenation. */
  lemma LowerAllAppend(a: string, b: string)
    ensures LowerAll(a + b) == LowerAll(a) + LowerAll(b)
  {
  }

  /** Digits are their own lower case. */
  lemma LowerDigits(d: string)
    requires AllDigits(d)
    ensures LowerAll(d) == d
  {
  }

  /** The phrase "<h> hour and <m> minutes". */
  function CompoundText(hs: string, ms: string): string {
    hs + " hour and " + ms + " minutes"
  }

  /** Where the pieces of "<h> hour and <m> minutes" sit. */
  lemma CompoundLayout(t: string, hs: string, ms: string)
    requires t == hs + " hour and " + ms + " minutes"
    ensures |t| == |hs| + |ms| + 18
    ensures t[..|hs|] == hs && t[|hs|] == ' ' && OccursAt(t, "hour", |hs| + 1) && t[|hs| + 5] == ' '
    ensures OccursAt(t, "and", |hs| + 6) && t[|hs| + 9] == ' '
    ensures t[|hs| + 10..|hs| + 10 + |ms|] == ms && t[|hs| + 10 + |ms|] == ' ' && OccursAt(t, "min", |hs| + 11 + |ms|)
  {
    var a := hs + " hour and ";
    var b := a + ms;
    assert t == b + " minutes";
    assert a[|hs|..] == " hour and ";
    assert t[|hs| + 1..|hs| + 5] == a[|hs| + 1..|hs| + 5] == "hour";
    assert t[|hs| + 6..|hs| + 9] == a[|hs| + 6..|hs| + 9] == "and";
    assert b[|a|..] == ms;
    assert t[|b|..] == " minutes";
    assert t[|b| + 1..|b| + 4] == "min";
  }

  /** A word starting "min" names minutes. */
  lemma MinutesWord(t: string, p: nat)
    requires OccursAt(t, "min", p)
    ensures UnitAt(t, p) == Some(Minutes)
  {
    assert t[p] == t[p..p + 3][0];
  }

  /** `\s*and\s*(\d+)\s*min` at `q`, laid out with single spaces. */
  lemma MinutesAtLayout(t: string, q: nat, j: nat)
    requires 0 < j && q + j + 9 <= |t|
    requires t[q] == ' ' && OccursAt(t, "and", q + 1) && t[q + 4] == ' '
    requires AllDigits(t[q + 5..q + 5 + j]) && t[q + 5 + j] == ' ' && OccursAt(t, "min", q + 6 + j)
    ensures MinutesAt(t, q) == Some(t[q + 5..q + 5 + j])
  {
    OccursAtHead(t, "and", q + 1);
    OneSpace(t, q);
    assert t[q + 5] == t[q + 5..q + 5 + j][0];
    OneSpace(t, q + 4);
    NumberAtExact(t, q + 5, j);
    OccursAtHead(t, "min", q + 6 + j);
    OneSpace(t, q + 5 + j);
    AndStep(t, q + 1);
    MinutesStep(t, q + 5, t[q + 5..q + 5 + j], q + 5 + j);
  }

  /** An "and" at `q` is skipped with the spaces after it. */
  lemma AndStep(t: string, q: nat)
    requires OccursAt(t, "and", q)
    ensures PastAnd(t, q) == SkipSpaces(t, q + 3)
  {
  }

  /** A number at `q` followed by a minutes word gives the minutes. */
  lemma MinutesStep(t: string, q: nat, m: string, e: nat)
    requires NumberAt(t, q) == Some((m, e)) && OccursAt(t, "min", SkipSpaces(t, e))
    ensures MinutesFrom(t, q) == Some(m)
  {
  }

  /** A text occurring at `i` starts there with its first character. */
  lemma OccursAtHead(t: string, pat: string, i: nat)
    requires OccursAt(t, pat, i) && 0 < |pat|
    ensures t[i] == pat[0]
  {
    assert t[i] == t[i..i + |pat|][0];
  }

  /** The compound expression takes "<h> hour and <m> minutes" whole. */
  lemma CompoundAtLayout(t: string, k: nat, j: nat)
    requires 0 < k && 0 < j && |t| == k + j + 18
    requires AllDigits(t[..k]) && t[k] == ' ' && OccursAt(t, "hour", k + 1)
    requires t[k + 5] == ' ' && OccursAt(t, "and", k + 6) && t[k + 9] == ' '
    requires AllDigits(t[k + 10..k + 10 + j]) && t[k + 10 + j] == ' ' && OccursAt(t, "min", k + 11 + j)
    ensures CompoundAt(t, 0) == Some((t[..k], t[k + 10..k + 10 + j]))
  {
    assert t[0..k] == t[..k];
    NumberAtExact(t, 0, k);
    OneSpace(t, k);
    assert HourWordEnd(t, k + 1) == Some(k + 5);
    MinutesAtLayout(t, k + 5, j);
  }

  /** The compound expression takes "<h> hour and <m> minutes" whole. */
  lemma CompoundPhraseMatch(t: string, hs: string, ms: string)
    requires t == CompoundText(hs, ms)
    requires |hs| > 0 && AllDigits(hs) && |ms| > 0 && AllDigits(ms)
    ensures CompoundAt(t, 0) == Some((hs, ms))
  {
    CompoundLayout(t, hs, ms);
    CompoundAtLayout(t, |hs|, |ms|);
  }

  /** A compound phrase at the very start decides the timer. */
  lemma CompoundAtStart(instruction: string, hs: string, ms: string)
    requires CompoundAt(LowerAll(instruction), 0) == Some((hs, ms))
    ensures var (h, m) := (IntValue(hs), IntValue(ms));
      DetectTimer(instruction) == Some(DetectedTimer(ToSeconds(h, m, 0), BuildLabel(h, m, 0)))
  {
    SearchFinds(CompoundAt, LowerAll(instruction), 0, 0);
  }

  lemma LowerCompoundPhrase(hs: string, ms: string)
    requires AllDigits(hs) && AllDigits(ms)
    ensures LowerAll(CompoundText(hs, ms)) == CompoundText(hs, ms)
  {
    LowerAllAppend(hs + " hour and " + ms, " minutes");
    LowerAllAppend(hs + " hour and ", ms);
    LowerAllAppend(hs, " hour and ");
    LowerDigits(hs);
    LowerDigits(ms);
  }

  /**
   * Compound before simple: "<h> hour and <m> minutes" counts hours and
   * minutes together, not just the hours: "1 hour and 30 minutes" is 5400
   * seconds, and its label is "1 hr 30 min" by `HoursMinutesText`.
   */
  lemma CompoundPhrase(h: nat, m: nat)
    ensures DetectTimer(CompoundText(NatToString(h), NatToString(m)))
      == Some(DetectedTimer(ToSeconds(h, m, 0), BuildLabel(h, m, 0)))
  {
    CompoundDigits(NatToString(h), NatToString(m));
    IntValueOfNat(h);
    IntValueOfNat(m);
  }

  /** A rendered number reads back through `parseInt`. */
  lemma IntValueOfNat(n: nat)
    ensures IntValue(NatToString(n)) == n
  {
    NatToStringRoundTrip(n);
  }

  /** The compound phrase for any two digit strings. */
  lemma CompoundDigits(hs: string, ms: string)
    requires |hs| > 0 && AllDigits(hs) && |ms| > 0 && AllDigits(ms)
    ensures var (h, m) := (IntValue(hs), IntValue(ms));
      DetectTimer(CompoundText(hs, ms)) == Some(DetectedTimer(ToSeconds(h, m, 0), BuildLabel(h, m, 0)))
  {
    var t := CompoundText(hs, ms);
    LowerCompoundPhrase(hs, ms);
    CompoundPhraseMatch(t, hs, ms);
    CompoundAtStart(t, hs, ms);
  }

  /** The phrase "<lo>-<hi> minutes". */
  function RangeText(ls: string, hs: string): string {
    ls + "-" + hs + " minutes"
  }

  /** Where the pieces of "<lo>-<hi> minutes" sit. */
  lemma RangeLayout(t: string, ls: string, hs: string)
    requires t == ls + "-" + hs + " minutes"
    ensures |t| == |ls| + |hs| + 9
    ensures t[..|ls|] == ls && t[|ls|] == '-'
    ensures t[|ls| + 1..|ls| + 1 + |hs|] == hs && t[|ls| + 1 + |hs|] == ' ' && OccursAt(t, "min", |ls| + 2 + |hs|)
  {
    var a := ls + "-";
    var b := a + hs;
    assert t == b + " minutes";
    assert b[|a|..] == hs;
    assert t[|b|..] == " minutes";
    assert t[|b| + 1..|b| + 4] == "min";
  }

  /** The range expression takes "<lo>-<hi> minutes" with its upper bound. */
  lemma RangeAtLayout(t: string, k: nat, hs: string)
    requires 0 < k && 0 < |hs| && |t| == k + |hs| + 9 && AllDigits(hs)
    requires AllDigits(t[..k]) && t[k] == '-'
    requires t[k + 1..k + 1 + |hs|] == hs && t[k + 1 + |hs|] == ' ' && OccursAt(t, "min", k + 2 + |hs|)
    ensures RangeAt(t, 0) == Some((hs, Minutes))
  {
    var j := |hs|;
    assert t[0..k] == t[..k];
    NumberAtExact(t, 0, k);
    assert SkipSpaces(t, k) == k;
    assert t[k + 1] == hs[0];
    assert SkipSpaces(t, k + 1) == k + 1;
    NumberAtExact(t, k + 1, j);
    OneSpace(t, k + 1 + j);
    MinutesWord(t, k + 2 + j);
    assert NumberAt(t, 0).Some? && NumberAt(t, 0).value.1 == k;
    assert RangeUpperStart(t, 0) == Some(k + 1);
    assert UnitAt(t, SkipSpaces(t, k + 1 + j)) == Some(Minutes);
  }

  /** The range expression takes "<lo>-<hi> minutes" with its upper bound. */
  lemma RangePhraseMatch(t: string, ls: string, hs: string)
    requires t == RangeText(ls, hs)
    requires |ls| > 0 && AllDigits(ls) && |hs| > 0 && AllDigits(hs)
    ensures RangeAt(t, 0) == Some((hs, Minutes))
  {
    RangeLayout(t, ls, hs);
    RangeAtLayout(t, |ls|, hs);
  }

  /** A range at the very start decides the timer when no compound phrase occurs. */
  lemma RangeAtStart(instruction: string, high: string, unit: Unit)
    requires Search(CompoundAt, LowerAll(instruction), 0).None?
    requires RangeAt(LowerAll(instruction), 0) == Some((high, unit))
    ensures var (h, m, s) := RangeParts(IntValue(high), unit);
      DetectTimer(instruction) == Some(DetectedTimer(ToSeconds(h, m, s), BuildLabel(h, m, s)))
  {
    SearchFinds(RangeAt, LowerAll(instruction), 0, 0);
  }

  lemma LowerRangePhrase(ls: string, hs: string)
    requires AllDigits(ls) && AllDigits(hs)
    ensures LowerAll(RangeText(ls, hs)) == RangeText(ls, hs)
  {
    LowerAllAppend(ls + "-" + hs, " minutes");
    LowerAllAppend(ls + "-", hs);
    LowerAllAppend(ls, "-");
    LowerDigits(ls);
    LowerDigits(hs);
  }

  /** A range counts as its upper bound: "10-12 minutes" is twelve minutes, labelled "12 min". */
  lemma RangePhrase(lo: nat, hi: nat)
    ensures DetectTimer(RangeText(NatToString(lo), NatToString(hi))) == Some(DetectedTimer(hi * 60, BuildLabel(0, hi, 0)))
    ensures hi > 0 ==> BuildLabel(0, hi, 0) == NatToString(hi) + " min"
  {
    var hs := NatToString(hi);
    RangeDigits(NatToString(lo), hs);
    IntValueOfNat(hi);
    if hi > 0 {
      assert LabelParts(0, hi, 0) == [hs + " min"];
    }
  }

  /** The range phrase for any two digit strings. */
  lemma RangeDigits(ls: string, hs: string)
    requires |ls| > 0 && AllDigits(ls) && |hs| > 0 && AllDigits(hs)
    ensures var hi := IntValue(hs);
      DetectTimer(RangeText(ls, hs)) == Some(DetectedTimer(ToSeconds(0, hi, 0), BuildLabel(0, hi, 0)))
  {
    var t := RangeText(ls, hs);
    LowerRangePhrase(ls, hs);
    assert 'h' !in t;
    NoHourNoCompound(t);
    RangePhraseMatch(t, ls, hs);
    RangeAtStart(t, hs, Minutes);
  }

  /** Seconds per unit, stated apart from `toSeconds`. */
  function UnitFactor(unit: Unit): nat {
    match unit
    case Hours => 3600
    case Minutes => 60
    case Seconds => 1
  }

  /** A range's upper bound counts in its own unit: hours by 3600, minutes by 60, seconds by 1, and the label names that one unit. */
  lemma RangeScales(high: nat, unit: Unit)
    ensures var (h, m, s) := RangeParts(high, unit);
      && ToSeconds(h, m, s) == high * UnitFactor(unit)
      && LabelSeconds(BuildLabel(h, m, s)) == Some(high * UnitFactor(unit))
  {
    var (h, m, s) := RangeParts(high, unit);
    LabelDenotes(h, m, s);
  }

  /** The phrase "<n> minutes". */
  function MinutesText(ns: string): string {
    ns + " minutes"
  }

  /** Without a dash there is no range. */
  lemma NoDashNoRange(t: string)
    requires '-' !in t
    ensures Search(RangeAt, t, 0).None?
  {
    forall p | 0 <= p <= |t| ensures RangeAt(t, p).None? {
    }
    SearchNone(RangeAt, t, 0);
  }

  /** The simple expression takes "<n> minutes" as a whole number of minutes. */
  lemma SimplePhraseMatch(t: string, ns: string)
    requires t == MinutesText(ns) && |ns| > 0 && AllDigits(ns)
    ensures SimpleAt(t, 0) == Some((Number(ns, ""), Minutes))
  {
    var k := |ns|;
    assert t[..k] == ns && t[k] == ' ';
    assert t[k + 1..k + 4] == "min";
    assert t[0..k] == t[..k];
    NumberAtExact(t, 0, k);
    OneSpace(t, k);
    MinutesWord(t, k + 1);
  }

  lemma LowerMinutesPhrase(ns: string)
    requires AllDigits(ns)
    ensures LowerAll(MinutesText(ns)) == MinutesText(ns)
  {
    LowerAllAppend(ns, " minutes");
    LowerDigits(ns);
  }

  /** A single value at the very start decides the timer when no compound phrase and no range occur. */
  lemma SimpleAtStart(instruction: string, n: Number, unit: Unit)
    requires Search(CompoundAt, LowerAll(instruction), 0).None?
    requires Search(RangeAt, LowerAll(instruction), 0).None?
    requires SimpleAt(LowerAll(instruction), 0) == Some((n, unit))
    ensures var (h, m, s) := SimpleParts(n, unit);
      DetectTimer(instruction) == Some(DetectedTimer(ToSeconds(h, m, s), BuildLabel(h, m, s)))
  {
    SearchFinds(SimpleAt, LowerAll(instruction), 0, 0);
  }

  /** The minutes phrase for any digit string. */
  lemma SimpleDigits(ns: string)
    requires |ns| > 0 && AllDigits(ns)
    ensures DetectTimer(MinutesText(ns)) == Some(DetectedTimer(ToSeconds(0, IntValue(ns), 0), BuildLabel(0, IntValue(ns), 0)))
  {
    var t := MinutesText(ns);
    LowerMinutesPhrase(ns);
    assert 'h' !in t && '-' !in t;
    NoHourNoCompound(t);
    NoDashNoRange(t);
    SimplePhraseMatch(t, ns);
    SimpleAtStart(t, Number(ns, ""), Minutes);
    WholeMinutes(ns);
  }

  /** "<n>.5 hours" is `n` hours and 30 minutes: the fraction of an hour is rounded to minutes. */
  lemma HalfHour(ws: string)
    ensures SimpleParts(Number(ws, "5"), Hours) == (IntValue(ws), 30, 0)
  {
    assert AllDigits("5") && DigitsValue("5") == 5;
    assert Pow10(1) == 10;
    assert RoundDiv(300, 10) == 30;
  }

  /** A number without a fractional part counts that many of its unit. */
  lemma WholeParts(n: Number, unit: Unit)
    requires n.fraction == ""
    ensures var (h, m, s) := SimpleParts(n, unit); ToSeconds(h, m, s) == IntValue(n.whole) * UnitFactor(unit)
  {
    var w, f, d := IntValue(n.whole), IntValue(n.fraction), Pow10(|n.fraction|);
    assert f == 0 && d == 1;
    assert RoundDiv(60 * f, d) == 0 && RoundDiv(f, d) == 0;
    match unit
    case Hours =>
      assert SimpleParts(n, unit) == (w, 0, 0);
      assert ToSeconds(w, 0, 0) == w * 3600;
    case Minutes =>
      assert SimpleParts(n, unit) == (0, w, 0);
      assert ToSeconds(0, w, 0) == w * 60;
    case Seconds =>
      assert SimpleParts(n, unit) == (0, 0, w);
  }

  /** A number without a fractional part counts whole minutes. */
  lemma WholeMinutes(ns: string)
    ensures SimpleParts(Number(ns, ""), Minutes) == (0, IntValue(ns), 0)
  {
    assert IntValue("") == 0;
    assert Pow10(0) == 1;
    assert RoundDiv(0, 1) == 0;
  }

  /** With no compound phrase and no range, a plain "<n> minutes" is `n` minutes: "25 minutes" is 1500 seconds. */
  lemma SimplePhrase(n: nat)
    ensures DetectTimer(MinutesText(NatToString(n))) == Some(DetectedTimer(n * 60, BuildLabel(0, n, 0)))
  {
    SimpleDigits(NatToString(n));
    IntValueOfNat(n);
  }

  // ---------------------------------------------------------------------
  // formatTime

  /** `String(n).padStart(2, "0")`. */
  function Pad2(n: nat): string {
    var d := NatToString(n);
    if |d| < 2 then "0" + d else d
  }

  /** Below 100 the padded number has two digits and reads back as itself. */
  lemma Pad2Value(n: nat)
    requires n < 100
    ensures |Pad2(n)| == 2 && AllDigits(Pad2(n)) && DigitsValue(Pad2(n)) == n
  {
    var d := NatToString(n);
    NatToStringRoundTrip(n);
    if n < 10 {
      assert d == [DigitChar(n)];
      assert Pad2(n)[..1] == "0";
    } else {
      assert d == NatToString(n / 10) + [DigitChar(n % 10)];
      assert |NatToString(n / 10)| == 1;
    }
  }

  /** The clock face for hours, minutes and seconds: "H:MM:SS" from one hour on, "M:SS" below. */
  function Clock(h: nat, m: nat, sec: nat): string {
    if h > 0 then NatToString(h) + ":" + Pad2(m) + ":" + Pad2(sec)
    else NatToString(m) + ":" + Pad2(sec)
  }

  /** `toSeconds` and `formatTime` agree: the seconds of hours, minutes and seconds display as those same fields. */
  lemma FormatOfParts(h: nat, m: nat, s: nat)
    requires m < 60 && s < 60
    ensures FormatTime(ToSeconds(h, m, s)) == Clock(h, m, s)
  {
    var t := ToSeconds(h, m, s);
    var r := m * 60 + s;
    DivMod3600(h, r);
    DivMod60(m, s);
    DivMod60(h * 60 + m, s);
    assert t == (h * 60 + m) * 60 + s;
  }

  lemma DivMod3600(q: nat, r: nat)
    requires r < 3600
    ensures (q * 3600 + r) / 3600 == q && (q * 3600 + r) % 3600 == r
  {
  }

  lemma DivMod60(q: nat, r: nat)
    requires r < 60
    ensures (q * 60 + r) / 60 == q && (q * 60 + r) % 60 == r
  {
  }

  /** `formatTime(seconds)` for a whole number of seconds; negative input counts as zero. */
  function FormatTime(seconds: int): (r: string)
    ensures seconds <= 0 ==> r == "0:00"
  {
    var s: nat := if seconds < 0 then 0 else seconds;
    Clock(s / 3600, (s % 3600) / 60, s % 60)
  }

  /** A non-empty run of decimal digits. */
  predicate DigitField(d: string) {
    |d| > 0 && AllDigits(d)
  }

  /** Reads "H:MM:SS" or "M:SS" back into seconds. */
  function ReadClock(text: string): Option<nat> {
    var f := Split(text, ':');
    if |f| == 3 && DigitField(f[0]) && DigitField(f[1]) && DigitField(f[2]) then
      Some(ToSeconds(DigitsValue(f[0]), DigitsValue(f[1]), DigitsValue(f[2])))
    else if |f| == 2 && DigitField(f[0]) && DigitField(f[1]) then
      Some(ToSeconds(0, DigitsValue(f[0]), DigitsValue(f[1])))
    else None
  }

  lemma DigitsHaveNoColon(d: string)
    requires AllDigits(d)
    ensures ':' !in d
  {
  }

  /** The fields of a clock with an hour part. */
  lemma LongClockFields(h: nat, m: nat, sec: nat)
    requires h > 0 && m < 60 && sec < 60
    ensures Split(Clock(h, m, sec), ':') == [NatToString(h), Pad2(m), Pad2(sec)]
  {
    Pad2Value(m);
    Pad2Value(sec);
    DigitsHaveNoColon(NatToString(h));
    DigitsHaveNoColon(Pad2(m));
    DigitsHaveNoColon(Pad2(sec));
    assert ":" == [':'];
    SplitTwo(NatToString(h), Pad2(m), ':', Pad2(sec));
    SplitNone(Pad2(sec), ':');
  }

  /** The fields of a clock without an hour part. */
  lemma ShortClockFields(m: nat, sec: nat)
    requires sec < 60
    ensures Split(Clock(0, m, sec), ':') == [NatToString(m), Pad2(sec)]
  {
    Pad2Value(sec);
    DigitsHaveNoColon(NatToString(m));
    DigitsHaveNoColon(Pad2(sec));
    assert Clock(0, m, sec) == NatToString(m) + [':'] + Pad2(sec);
    SplitCons(NatToString(m), ':', Pad2(sec));
    SplitNone(Pad2(sec), ':');
  }

  /** Three digit fields read as hours, minutes and seconds. */
  lemma ReadThreeFields(text: string, a: string, b: string, c: string)
    requires Split(text, ':') == [a, b, c]
    requires DigitField(a) && DigitField(b) && DigitField(c)
    ensures ReadClock(text) == Some(ToSeconds(DigitsValue(a), DigitsValue(b), DigitsValue(c)))
  {
    var f := Split(text, ':');
    assert f[0] == a && f[1] == b && f[2] == c;
  }

  /** Two digit fields read as minutes and seconds. */
  lemma ReadTwoFields(text: string, a: string, b: string)
    requires Split(text, ':') == [a, b]
    requires DigitField(a) && DigitField(b)
    ensures ReadClock(text) == Some(ToSeconds(0, DigitsValue(a), DigitsValue(b)))
  {
    var f := Split(text, ':');
    assert f[0] == a && f[1] == b;
  }

  /** A clock with an hour part reads back as the seconds it shows. */
  lemma LongClockRoundTrip(h: nat, m: nat, sec: nat)
    requires h > 0 && m < 60 && sec < 60
    ensures ReadClock(Clock(h, m, sec)) == Some(ToSeconds(h, m, sec))
  {
    Pad2Value(m);
    Pad2Value(sec);
    NatToStringRoundTrip(h);
    LongClockFields(h, m, sec);
    ReadThreeFields(Clock(h, m, sec), NatToString(h), Pad2(m), Pad2(sec));
  }

  /** A clock without an hour part reads back as the seconds it shows. */
  lemma ShortClockRoundTrip(m: nat, sec: nat)
    requires sec < 60
    ensures ReadClock(Clock(0, m, sec)) == Some(ToSeconds(0, m, sec))
  {
    Pad2Value(sec);
    NatToStringRoundTrip(m);
    ShortClockFields(m, sec);
    ReadTwoFields(Clock(0, m, sec), NatToString(m), Pad2(sec));
  }

  /** A clock reads back as the seconds it shows. */
  lemma ClockRoundTrip(h: nat, m: nat, sec: nat)
    requires m < 60 && sec < 60
    ensures ReadClock(Clock(h, m, sec)) == Some(ToSeconds(h, m, sec))
  {
    if h > 0 {
      LongClockRoundTrip(h, m, sec);
    } else {
      assert h == 0;
      ShortClockRoundTrip(m, sec);
    }
  }

  /** Splitting seconds into hours, minutes and seconds loses nothing. */
  lemma ClockArithmetic(s: nat)
    ensures (s % 3600) / 60 < 60 && s % 60 < 60
    ensures ToSeconds(s / 3600, (s % 3600) / 60, s % 60) == s
  {
    assert s % 3600 == ((s % 3600) / 60) * 60 + (s % 3600) % 60;
    assert (s % 3600) % 60 == s % 60;
  }

  /** The fields of a rendered clock: an hour field only from one hour on, minutes and seconds in two digits below it. */
  lemma FormatTimeFields(seconds: nat)
    ensures var fields := Split(FormatTime(seconds), ':');
      && (seconds >= 3600 ==> |fields| == 3 && |fields[1]| == 2 && |fields[2]| == 2)
      && (seconds < 3600 ==> |fields| == 2 && |fields[1]| == 2)
  {
    var h, m, sec := seconds / 3600, (seconds % 3600) / 60, seconds % 60;
    ClockArithmetic(seconds);
    Pad2Value(m);
    Pad2Value(sec);
    if h > 0 {
      LongClockFields(h, m, sec);
    } else {
      ShortClockFields(m, sec);
    }
  }

  /** A rendered clock reads back as the (clamped) number of seconds. */
  lemma FormatTimeRoundTrip(seconds: int)
    ensures ReadClock(FormatTime(seconds)) == Some(if seconds < 0 then 0 else seconds)
  {
    var s: nat := if seconds < 0 then 0 else seconds;
    ClockArithmetic(s);
    ClockRoundTrip(s / 3600, (s % 3600) / 60, s % 60);
  }
}
