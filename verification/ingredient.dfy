/**
 * `parseIngredientString` in src/lib/scraper.ts: the regular expression
 *
 *   ^([\d\s/½⅓⅔¼¾⅛.,-]+)?\s*(UNIT)?\s*(?:of\s+)?(.+)      (flag i)
 *
 * evaluated the way a backtracking engine does: every quantifier is tried
 * greedily first and given back one character at a time, every alternative
 * is tried in the order written, and the first complete match wins. The unit
 * alternation has no word boundary, so "3 large eggs" yields unit "l".
 *
 * The matcher takes the unit alternation as a list of lower-case words,
 * `units`; the scraper's own list is `UnitWords`.
 */
module IngredientLine {
  import opened Optional
  import opened Text
  import opened TextCleaning
  import opened Recipe

  /** `[\d\s/½⅓⅔¼¾⅛.,-]` */
  predicate IsQuantityChar(c: char) {
    || IsDigit(c) || IsSpace(c) || c == '/' || c == '.' || c == ',' || c == '-'
    || c == '\U{00BD}' || c == '\U{2153}' || c == '\U{2154}'
    || c == '\U{00BC}' || c == '\U{00BE}' || c == '\U{215B}'
  }

  /** Length of the longest run of quantity characters starting at `from`. */
  function QuantityRun(s: string, from: nat): (n: nat)
    requires from <= |s|
    ensures from + n <= |s|
    ensures from + n < |s| ==> !IsQuantityChar(s[from + n])
    ensures forall i :: from <= i < from + n ==> IsQuantityChar(s[i])
    decreases |s| - from
  {
    if from < |s| && IsQuantityChar(s[from]) then 1 + QuantityRun(s, from + 1) else 0
  }

  /** Length of the run `.` can match from `from`: up to the next line terminator. */
  function DotRun(s: string, from: nat): (n: nat)
    requires from <= |s|
    ensures from + n <= |s|
    ensures from + n < |s| ==> IsLineTerminator(s[from + n])
    decreases |s| - from
  {
    if from < |s| && !IsLineTerminator(s[from]) then 1 + DotRun(s, from + 1) else 0
  }

  /**
   * The unit alternation flattened into the order the engine tries it:
   * `cups?` is "cups" then "cup", `bunche?s?` is "bunches", "bunche",
   * "bunchs", "bunch", `pinch(?:es)?` is "pinches" then "pinch".
   */
  const UnitWords: seq<string> := MeasureWords + CountWords

  /** The volume and weight units, the first half of the alternation. */
  const MeasureWords: seq<string> := [
    "cups", "cup", "tbsp", "tsp", "tablespoons", "tablespoon", "teaspoons", "teaspoon",
    "oz", "ounces", "ounce", "lbs", "lb", "pounds", "pound", "g", "kg", "ml", "l",
    "liters", "liter", "quarts", "quart", "pints", "pint", "gallons", "gallon"]

  /** The count and size words, the second half of the alternation. */
  const CountWords: seq<string> := [
    "cloves", "clove", "stalks", "stalk", "cans", "can", "packages", "package",
    "slices", "slice", "pieces", "piece", "sticks", "stick", "heads", "head",
    "bunches", "bunche", "bunchs", "bunch", "large", "medium", "small", "whole",
    "pinches", "pinch"]

  /** A word that starts and ends with a lower-case letter. */
  predicate LetterEnds(w: string) {
    |w| > 0 && 'a' <= w[0] <= 'z' && 'a' <= w[|w| - 1] <= 'z'
  }

  predicate LetterWords(units: seq<string>) {
    forall j :: 0 <= j < |units| ==> LetterEnds(units[j])
  }

  /** `u` spells one of `units`, ignoring ASCII case. */
  predicate SpellsOneOf(u: string, units: seq<string>) {
    exists j :: 0 <= j < |units| && |u| == |units[j]| && MatchesAt(u, 0, units[j])
  }

  /** `u` spells one of the scraper's unit words, ignoring ASCII case. */
  predicate IsUnitToken(u: string) {
    SpellsOneOf(u, UnitWords)
  }

  /** The three capture groups of a successful match; `None` is a group that did not take part. */
  datatype Captures = Captures(quantity: Option<string>, unit: Option<string>, item: string)

  /** `match[k] || ""` for a group that may not have taken part. */
  function OrEmpty(g: Option<string>): string {
    if g.Some? then g.value else ""
  }

  /** `(.+)` at `p`: at least one character, then everything up to a line terminator. */
  function RestAt(s: string, p: nat): (r: Option<string>)
    ensures r.Some? ==> |r.value| > 0
  {
    if p < |s| && !IsLineTerminator(s[p]) then Some(s[p..p + DotRun(s, p)]) else None
  }

  /** `\s+(.+)` with the white space after `base` tried at lengths `n` down to 1. */
  function SpacesThenRest(s: string, base: nat, n: nat): (r: Option<string>)
    ensures r.Some? ==> |r.value| > 0
    decreases n
  {
    if n == 0 then None
    else if RestAt(s, base + n).Some? then RestAt(s, base + n)
    else SpacesThenRest(s, base, n - 1)
  }

  /** `(?:of\s+)?(.+)` at `p`: the optional group is tried before it is skipped. */
  function OfThenRest(s: string, p: nat): (r: Option<string>)
    requires p <= |s|
    ensures r.Some? ==> |r.value| > 0
  {
    var viaOf := if MatchesAt(s, p, "of") then SpacesThenRest(s, p + 2, SpaceRun(s, p + 2)) else None;
    if viaOf.Some? then viaOf else RestAt(s, p)
  }

  /** `\s*(?:of\s+)?(.+)` with the white space after `base` tried at lengths `n` down to 0. */
  function GapThenOf(s: string, base: nat, n: nat): (r: Option<string>)
    requires base + n <= |s|
    ensures r.Some? ==> |r.value| > 0
    decreases n
  {
    var r := OfThenRest(s, base + n);
    if r.Some? || n == 0 then r else GapThenOf(s, base, n - 1)
  }

  /** Everything after the unit group, which ends at `p`. */
  function AfterUnit(s: string, p: nat): (r: Option<string>)
    requires p <= |s|
    ensures r.Some? ==> |r.value| > 0
  {
    GapThenOf(s, p, SpaceRun(s, p))
  }

  /** The unit group at `p`: the alternatives from index `i` on in order, then the group skipped. */
  function UnitThenRest(units: seq<string>, s: string, p: nat, i: nat): (r: Option<(Option<string>, string)>)
    requires p <= |s| && i <= |units|
    ensures r.Some? ==> |r.value.1| > 0
    ensures r.Some? && r.value.0.Some? ==> SpellsOneOf(r.value.0.value, units)
    decreases |units| - i
  {
    if i == |units| then
      match AfterUnit(s, p)
      case Some(item) => Some((None, item))
      case None => None
    else
      var w := units[i];
      if MatchesAt(s, p, w) && AfterUnit(s, p + |w|).Some? then
        assert MatchesAt(s[p..p + |w|], 0, units[i]);
        Some((Some(s[p..p + |w|]), AfterUnit(s, p + |w|).value))
      else UnitThenRest(units, s, p, i + 1)
  }

  /** `\s*` then the unit group, with the white space after `base` tried at lengths `n` down to 0. */
  function GapThenUnit(units: seq<string>, s: string, base: nat, n: nat): (r: Option<(Option<string>, string)>)
    requires base + n <= |s|
    ensures r.Some? ==> |r.value.1| > 0
    ensures r.Some? && r.value.0.Some? ==> SpellsOneOf(r.value.0.value, units)
    decreases n
  {
    var r := UnitThenRest(units, s, base + n, 0);
    if r.Some? || n == 0 then r else GapThenUnit(units, s, base, n - 1)
  }

  /** Everything after the quantity group, which ends at `k`. */
  function AfterQuantity(units: seq<string>, s: string, k: nat): (r: Option<(Option<string>, string)>)
    requires k <= |s|
    ensures r.Some? ==> |r.value.1| > 0
    ensures r.Some? && r.value.0.Some? ==> SpellsOneOf(r.value.0.value, units)
  {
    GapThenUnit(units, s, k, SpaceRun(s, k))
  }

  /** The quantity group tried at lengths `n` down to 1, then skipped. */
  function QuantityThenRest(units: seq<string>, s: string, n: nat): (r: Option<Captures>)
    requires n <= |s|
    ensures r.Some? ==> |r.value.item| > 0
    ensures r.Some? && r.value.unit.Some? ==> SpellsOneOf(r.value.unit.value, units)
    decreases n
  {
    if n == 0 then
      match AfterQuantity(units, s, 0)
      case Some((u, item)) => Some(Captures(None, u, item))
      case None => None
    else
      match AfterQuantity(units, s, n)
      case Some((u, item)) => Some(Captures(Some(s[..n]), u, item))
      case None => QuantityThenRest(units, s, n - 1)
  }

  /** `s.match(…)`: the first match in the engine's order, if any. */
  function MatchLine(units: seq<string>, s: string): (r: Option<Captures>)
    ensures r.Some? ==> |r.value.item| > 0
    ensures r.Some? && r.value.unit.Some? ==> SpellsOneOf(r.value.unit.value, units)
  {
    QuantityThenRest(units, s, QuantityRun(s, 0))
  }

  /**
   * The trimmed groups, or the whole trimmed line as the item when nothing
   * matches. A match always has a non-empty third group, so the source's
   * `match[3] || s` fallback never applies.
   */
  function ParseWith(units: seq<string>, s: string): (r: Ingredient)
    requires LetterWords(units)
    ensures Trimmed(r.quantity) && Trimmed(r.unit) && Trimmed(r.item)
    ensures r.unit != "" ==> SpellsOneOf(r.unit, units)
  {
    match MatchLine(units, s)
    case Some(c) =>
      var unit := Trim(OrEmpty(c.unit));
      assert unit != "" ==> SpellsOneOf(unit, units) by {
        if c.unit.Some? {
          SpelledWordTrimmed(c.unit.value, units);
          TrimTrimmed(c.unit.value);
        }
      }
      Ingredient(Trim(OrEmpty(c.quantity)), unit, Trim(c.item))
    case None => Ingredient("", "", Trim(s))
  }

  /** `parseIngredientString(s)`. */
  function ParseIngredientString(s: string): (r: Ingredient)
    ensures Trimmed(r.quantity) && Trimmed(r.unit) && Trimmed(r.item)
    ensures r.unit != "" ==> IsUnitToken(r.unit)
  {
    UnitWordsAreLetters();
    ParseWith(UnitWords, s)
  }

  lemma MeasureWordsAreLetters()
    ensures LetterWords(MeasureWords)
  {
  }

  lemma CountWordsAreLetters()
    ensures LetterWords(CountWords)
  {
  }

  lemma UnitWordsAreLetters()
    ensures LetterWords(UnitWords)
  {
    MeasureWordsAreLetters();
    CountWordsAreLetters();
    forall j | 0 <= j < |UnitWords| ensures LetterEnds(UnitWords[j]) {
      if j >= |MeasureWords| {
        assert UnitWords[j] == CountWords[j - |MeasureWords|];
      }
    }
  }

  /** A word spelling one of a list of letter words begins and ends with a letter, so trimming leaves it alone. */
  lemma SpelledWordTrimmed(u: string, units: seq<string>)
    requires LetterWords(units) && SpellsOneOf(u, units)
    ensures Trimmed(u)
  {
    var j :| 0 <= j < |units| && |u| == |units[j]| && MatchesAt(u, 0, units[j]);
    var w := units[j];
    assert Lower(u[0]) == w[0];
    assert Lower(u[|u| - 1]) == w[|w| - 1];
    FoldsToLetter(u[0], w[0]);
    FoldsToLetter(u[|u| - 1], w[|w| - 1]);
  }

  /** A character that folds to a letter is not white space. */
  lemma FoldsToLetter(c: char, d: char)
    requires Lower(c) == d && 'a' <= d <= 'z'
    ensures !IsSpace(c)
  {
  }

  // ---------------------------------------------------------------------
  // The same match read directly on a cleaned line.

  /** Where the quantity group ends on a cleaned, non-empty line: as far as it reaches, but short of the last character. */
  function QuantityEnd(s: string): (k: nat)
    requires |s| > 0
    ensures k < |s|
  {
    var q := QuantityRun(s, 0);
    if q < |s| then q else q - 1
  }

  /** Unit word `w` matches at `k` and leaves at least one character after it. */
  predicate UnitFits(s: string, k: nat, w: string) {
    MatchesAt(s, k, w) && k + |w| < |s|
  }

  /** Index of the first of `units`, from index `i` on, that fits at `k`. */
  function FirstUnit(units: seq<string>, s: string, k: nat, i: nat): (r: Option<nat>)
    requires i <= |units|
    ensures r.Some? ==> i <= r.value < |units| && UnitFits(s, k, units[r.value])
    ensures r.Some? ==> forall j :: i <= j < r.value ==> !UnitFits(s, k, units[j])
    ensures r.None? ==> forall j :: i <= j < |units| ==> !UnitFits(s, k, units[j])
    decreases |units| - i
  {
    if i == |units| then None
    else if UnitFits(s, k, units[i]) then Some(i)
    else FirstUnit(units, s, k, i + 1)
  }

  /** Past an `of` followed by white space at `g`, if there is one. */
  function PastOf(s: string, g: nat): (i: nat)
    requires g <= |s|
    ensures g <= i <= |s|
  {
    if MatchesAt(s, g, "of") && g + 2 < |s| && IsSpace(s[g + 2]) then g + 2 + SpaceRun(s, g + 2) else g
  }

  /** Where the item starts when the unit group ends at `p`. */
  function ItemStart(s: string, p: nat): (i: nat)
    requires p <= |s|
    ensures p <= i <= |s|
  {
    PastOf(s, p + SpaceRun(s, p))
  }

  /** The unit and the item once the quantity group ends at `k`, given the unit word chosen there. */
  function UnitAndItem(units: seq<string>, s: string, k: nat, f: Option<nat>): (Option<string>, string)
    requires k < |s|
    requires f.Some? ==> f.value < |units| && UnitFits(s, k, units[f.value])
  {
    match f
    case Some(j) => (Some(s[k..k + |units[j]|]), s[ItemStart(s, k + |units[j]|)..])
    case None => (None, s[ItemStart(s, k)..])
  }

  /**
   * The split of a cleaned line: the longest quantity prefix that leaves a
   * character over, then the first listed unit word that leaves a character
   * over, then, past white space and an optional `of`, the rest of the line.
   */
  function CleanSplit(units: seq<string>, s: string): Ingredient
    requires |s| > 0
  {
    var k := QuantityEnd(s);
    var ui := UnitAndItem(units, s, k, FirstUnit(units, s, k, 0));
    Ingredient(Trim(s[..k]), OrEmpty(ui.0), ui.1)
  }

  /**
   * The split's fields: the item is a non-empty trimmed suffix of the line,
   * a unit is one of the listed words, and the quantity holds only quantity
   * characters.
   */
  lemma CleanSplitShape(units: seq<string>, s: string)
    requires Normalized(s) && |s| > 0
    ensures var r := CleanSplit(units, s);
      && 0 < |r.item| <= |s| && r.item == s[|s| - |r.item|..] && Trimmed(r.item)
      && (r.unit != "" ==> SpellsOneOf(r.unit, units))
      && forall i :: 0 <= i < |r.quantity| ==> IsQuantityChar(r.quantity[i])
  {
    var k := QuantityEnd(s);
    var f := FirstUnit(units, s, k, 0);
    UnitAndItemSuffix(units, s, k, f);
    TrimmedQuantity(s, k);
    UnitSpelled(units, s, k, f);
  }

  /** The unit taken, if any, spells the chosen word. */
  lemma UnitSpelled(units: seq<string>, s: string, k: nat, f: Option<nat>)
    requires k < |s|
    requires f.Some? ==> f.value < |units| && UnitFits(s, k, units[f.value])
    ensures var u := OrEmpty(UnitAndItem(units, s, k, f).0);
      u != "" ==> SpellsOneOf(u, units)
  {
    if f.Some? {
      var u := s[k..k + |units[f.value]|];
      assert MatchesAt(u, 0, units[f.value]);
    }
  }

  /** The item is a non-empty suffix of the line. */
  lemma UnitAndItemSuffix(units: seq<string>, s: string, k: nat, f: Option<nat>)
    requires Normalized(s) && k < |s|
    requires f.Some? ==> f.value < |units| && UnitFits(s, k, units[f.value])
    ensures var item := UnitAndItem(units, s, k, f).1;
            0 < |item| <= |s| && item == s[|s| - |item|..] && Trimmed(item)
  {
    match f
    case Some(j) => ItemStartClean(s, k + |units[j]|);
    case None => ItemStartClean(s, k);
  }

  /** Trimming a prefix of quantity characters keeps only quantity characters. */
  lemma TrimmedQuantity(s: string, k: nat)
    requires k <= QuantityRun(s, 0)
    ensures forall i :: 0 <= i < |Trim(s[..k])| ==> IsQuantityChar(Trim(s[..k])[i])
  {
    var quantity := Trim(s[..k]);
    var a, b := TrimIsSlice(s[..k]);
    forall i | 0 <= i < |quantity| ensures IsQuantityChar(quantity[i]) {
      assert quantity[i] == s[a + i];
    }
  }

  // ---------------------------------------------------------------------
  // The backtracking matcher agrees with the direct reading.

  /** A cleaned line holds no line terminator, so `.` runs to its end. */
  lemma DotRunClean(s: string, p: nat)
    requires Normalized(s) && p <= |s|
    ensures DotRun(s, p) == |s| - p
  {
    forall i | p <= i < |s| ensures !IsLineTerminator(s[i]) {
    }
  }

  lemma RestAtClean(s: string, p: nat)
    requires Normalized(s) && p < |s|
    ensures RestAt(s, p) == Some(s[p..])
  {
    assert !IsLineTerminator(s[p]);
    DotRunClean(s, p);
    assert s[p..p + DotRun(s, p)] == s[p..];
  }

  /** White space inside a cleaned line is always followed by more of the line. */
  lemma SpaceRunInside(s: string, p: nat)
    requires Normalized(s) && p < |s|
    ensures p + SpaceRun(s, p) < |s|
  {
    var n := SpaceRun(s, p);
    if n > 0 {
      assert s[p + n - 1] == s[p..p + n][n - 1];
    }
  }

  lemma SpaceRunNone(s: string, p: nat)
    requires p <= |s| && (p < |s| ==> !IsSpace(s[p]))
    ensures SpaceRun(s, p) == 0
  {
    SpaceRunExact(s, p, p);
  }

  lemma ItemStartClean(s: string, p: nat)
    requires Normalized(s) && p < |s|
    ensures ItemStart(s, p) < |s| && !IsSpace(s[ItemStart(s, p)])
  {
    var g := p + SpaceRun(s, p);
    SpaceRunInside(s, p);
    if MatchesAt(s, g, "of") && g + 2 < |s| && IsSpace(s[g + 2]) {
      SpaceRunInside(s, g + 2);
    }
  }

  lemma OfThenRestClean(s: string, p: nat)
    requires Normalized(s) && p < |s| && !IsSpace(s[p])
    ensures OfThenRest(s, p) == Some(s[PastOf(s, p)..])
  {
    if MatchesAt(s, p, "of") && p + 2 < |s| && IsSpace(s[p + 2]) {
      var n := SpaceRun(s, p + 2);
      SpaceRunInside(s, p + 2);
      RestAtClean(s, p + 2 + n);
    } else {
      if MatchesAt(s, p, "of") {
        SpaceRunNone(s, p + 2);
      }
      RestAtClean(s, p);
    }
  }

  lemma AfterUnitClean(s: string, e: nat)
    requires Normalized(s) && e < |s|
    ensures AfterUnit(s, e) == Some(s[ItemStart(s, e)..])
  {
    SpaceRunInside(s, e);
    OfThenRestClean(s, e + SpaceRun(s, e));
  }

  lemma AfterUnitAtEnd(s: string)
    ensures AfterUnit(s, |s|) == None
  {
  }

  lemma {:induction false} UnitThenRestClean(units: seq<string>, s: string, k: nat, i: nat)
    requires Normalized(s) && k < |s| && i <= |units|
    ensures UnitThenRest(units, s, k, i) == Some(UnitAndItem(units, s, k, FirstUnit(units, s, k, i)))
    decreases |units| - i
  {
    if i == |units| {
      AfterUnitClean(s, k);
    } else if UnitFits(s, k, units[i]) {
      UnitTaken(units, s, k, i);
    } else {
      UnitPassed(units, s, k, i);
      UnitThenRestClean(units, s, k, i + 1);
    }
  }

  /** A unit word that fits is taken. */
  lemma UnitTaken(units: seq<string>, s: string, k: nat, i: nat)
    requires Normalized(s) && k < |s| && i < |units| && UnitFits(s, k, units[i])
    ensures UnitThenRest(units, s, k, i) == Some(UnitAndItem(units, s, k, FirstUnit(units, s, k, i)))
  {
    var e := k + |units[i]|;
    AfterUnitClean(s, e);
    UnitThenRestTakes(units, s, k, i);
    FirstUnitHere(units, s, k, i);
    UnitAndItemTaken(units, s, k, i);
  }

  lemma FirstUnitHere(units: seq<string>, s: string, k: nat, i: nat)
    requires i < |units| && UnitFits(s, k, units[i])
    ensures FirstUnit(units, s, k, i) == Some(i)
  {
  }

  lemma UnitAndItemTaken(units: seq<string>, s: string, k: nat, i: nat)
    requires k < |s| && i < |units| && UnitFits(s, k, units[i])
    ensures UnitAndItem(units, s, k, Some(i)) == (Some(s[k..k + |units[i]|]), s[ItemStart(s, k + |units[i]|)..])
  {
  }

  lemma UnitThenRestTakes(units: seq<string>, s: string, p: nat, i: nat)
    requires i < |units| && MatchesAt(s, p, units[i]) && AfterUnit(s, p + |units[i]|).Some?
    ensures UnitThenRest(units, s, p, i) == Some((Some(s[p..p + |units[i]|]), AfterUnit(s, p + |units[i]|).value))
  {
  }

  /** A unit word that does not fit is passed over. */
  lemma UnitPassed(units: seq<string>, s: string, k: nat, i: nat)
    requires k < |s| && i < |units| && !UnitFits(s, k, units[i])
    ensures UnitThenRest(units, s, k, i) == UnitThenRest(units, s, k, i + 1)
    ensures FirstUnit(units, s, k, i) == FirstUnit(units, s, k, i + 1)
  {
    AfterUnitAtEnd(s);
  }

  lemma {:induction false} UnitThenRestAtEnd(units: seq<string>, s: string, i: nat)
    requires i <= |units|
    ensures UnitThenRest(units, s, |s|, i) == None
    decreases |units| - i
  {
    AfterUnitAtEnd(s);
    if i < |units| {
      UnitThenRestAtEnd(units, s, i + 1);
    }
  }

  lemma AfterQuantityClean(units: seq<string>, s: string, k: nat)
    requires Normalized(s) && k < |s| && !IsSpace(s[k])
    ensures AfterQuantity(units, s, k) == Some(UnitAndItem(units, s, k, FirstUnit(units, s, k, 0)))
  {
    SpaceRunNone(s, k);
    UnitThenRestClean(units, s, k, 0);
  }

  lemma AfterQuantityAtEnd(units: seq<string>, s: string)
    ensures AfterQuantity(units, s, |s|) == None
  {
    SpaceRunNone(s, |s|);
    UnitThenRestAtEnd(units, s, 0);
  }

  /** On a cleaned line the engine's first match is the direct reading. */
  lemma MatchClean(units: seq<string>, s: string)
    requires Normalized(s) && |s| > 0
    ensures MatchLine(units, s) == Some(CleanCaptures(units, s))
  {
    var q := QuantityRun(s, 0);
    var k := QuantityEnd(s);
    assert QuantityThenRest(units, s, k) == Some(CleanCaptures(units, s)) by {
      AfterQuantityClean(units, s, k);
    }
    if q == |s| {
      assert QuantityThenRest(units, s, q) == QuantityThenRest(units, s, k) by {
        AfterQuantityAtEnd(units, s);
      }
    }
  }

  /** The reference split once the quantity end, the unit word and the item start are known. */
  lemma CleanSplitWithUnit(units: seq<string>, s: string, k: nat, j: nat, i: nat)
    requires |s| > 0
    requires QuantityEnd(s) == k && FirstUnit(units, s, k, 0) == Some(j)
    requires ItemStart(s, k + |units[j]|) == i
    ensures CleanSplit(units, s) == Ingredient(Trim(s[..k]), s[k..k + |units[j]|], s[i..])
  {
    var ui := UnitAndItem(units, s, k, Some(j));
    assert ui == (Some(s[k..k + |units[j]|]), s[i..]);
  }

  /** The matcher on a cleaned, non-empty line gives its direct split. */
  lemma ParseWithClean(units: seq<string>, s: string)
    requires LetterWords(units)
    requires Normalized(s) && |s| > 0
    ensures ParseWith(units, s) == CleanSplit(units, s)
  {
    var c := CleanCaptures(units, s);
    MatchClean(units, s);
    ParseWithMatch(units, s, c);
    CleanSplitShape(units, s);
    CapturesAgree(units, s);
    TrimmedCaptures(units, c, CleanSplit(units, s));
  }

  /** The captures the direct reading predicts for a cleaned, non-empty line. */
  function CleanCaptures(units: seq<string>, s: string): Captures
    requires |s| > 0
  {
    var k := QuantityEnd(s);
    var ui := UnitAndItem(units, s, k, FirstUnit(units, s, k, 0));
    Captures(if k > 0 then Some(s[..k]) else None, ui.0, ui.1)
  }

  /** The split is the captures with the quantity trimmed. */
  lemma CapturesAgree(units: seq<string>, s: string)
    requires |s| > 0
    ensures var c := CleanCaptures(units, s);
      var r := CleanSplit(units, s);
      OrEmpty(c.unit) == r.unit && c.item == r.item && r.quantity == Trim(OrEmpty(c.quantity))
  {
    assert s[..0] == "";
  }

  /** What `ParseWith` makes of a match. */
  lemma ParseWithMatch(units: seq<string>, s: string, c: Captures)
    requires LetterWords(units) && MatchLine(units, s) == Some(c)
    ensures ParseWith(units, s) == Ingredient(Trim(OrEmpty(c.quantity)), Trim(OrEmpty(c.unit)), Trim(c.item))
  {
  }

  /** Trimming captures whose unit and item are already trimmed changes only the quantity's white space. */
  lemma TrimmedCaptures(units: seq<string>, c: Captures, r: Ingredient)
    requires LetterWords(units)
    requires OrEmpty(c.unit) == r.unit && c.item == r.item && Trimmed(r.item)
    requires r.unit != "" ==> SpellsOneOf(r.unit, units)
    requires r.quantity == Trim(OrEmpty(c.quantity))
    ensures Ingredient(Trim(OrEmpty(c.quantity)), Trim(OrEmpty(c.unit)), Trim(c.item)) == r
  {
    TrimTrimmed(r.item);
    if r.unit != "" {
      SpelledWordTrimmed(r.unit, units);
    }
    TrimTrimmed(r.unit);
  }

  /**
   * `parseIngredientString` of a cleaned, non-empty line, which is what
   * `parseIngredients` passes it: the item is non-empty, the quantity holds
   * only quantity characters, and the line ends with the item.
   */
  lemma ParseCleanLine(s: string)
    requires Normalized(s) && |s| > 0
    ensures ParseIngredientString(s) == CleanSplit(UnitWords, s)
    ensures |ParseIngredientString(s).item| > 0
  {
    UnitWordsAreLetters();
    ParseWithClean(UnitWords, s);
    CleanSplitShape(UnitWords, s);
  }

  /** An empty line matches nothing and gives three empty fields. */
  lemma ParseEmptyLine()
    ensures ParseIngredientString("") == Ingredient("", "", "")
  {
    UnitWordsAreLetters();
    AfterQuantityAtEnd(UnitWords, "");
    TrimTrimmed("");
  }
}

/**
 * The missing word boundary in the unit alternation: in "3 large eggs" the
 * one-letter unit "l" is the first listed word that fits after "3 ", so the
 * item loses its first letter.
 */
module IngredientQuirks {
  import opened Optional
  import opened Text
  import opened TextCleaning
  import opened Recipe
  import opened IngredientLine

  /** One differing character rules a literal out. */
  lemma Mismatch(s: string, p: nat, w: string, k: nat)
    requires k < |w| && p + k < |s| && Lower(s[p + k]) != w[k]
    ensures !MatchesAt(s, p, w)
  {
  }

  /** None of the eighteen unit words listed before "l" fits after "3 ". */
  lemma NoEarlyFit(s: string)
    requires s == "3 large eggs"
    ensures forall j :: 0 <= j < 18 ==> !UnitFits(s, 2, MeasureWords[j])
  {
    forall j | 0 <= j < 18 ensures !UnitFits(s, 2, MeasureWords[j]) {
      var w := MeasureWords[j];
      if w[0] != 'l' {
        Mismatch(s, 2, w, 0);
      } else {
        Mismatch(s, 2, w, 1);
      }
    }
  }

  lemma FirstFitIsL(s: string)
    requires s == "3 large eggs"
    ensures FirstUnit(UnitWords, s, 2, 0) == Some(18) && UnitWords[18] == "l"
  {
    NoEarlyFit(s);
    assert forall j :: 0 <= j < 18 ==> UnitWords[j] == MeasureWords[j];
    assert UnitWords[18] == "l";
    assert UnitFits(s, 2, "l");
  }

  lemma LargeEggsClean(s: string)
    requires s == "3 large eggs"
    ensures Normalized(s)
  {
  }

  lemma LargeEggsPositions(s: string)
    requires s == "3 large eggs"
    ensures QuantityEnd(s) == 2 && ItemStart(s, 3) == 3
  {
    assert QuantityRun(s, 2) == 0;
    assert QuantityRun(s, 1) == 1;
    assert SpaceRun(s, 3) == 0;
  }

  lemma LargeEggsPieces(s: string)
    requires s == "3 large eggs"
    ensures Trim(s[..2]) == "3" && s[2..3] == "l" && s[3..] == "arge eggs"
  {
    assert s[..2] == "" + "3" + " ";
    TrimSurrounded("", "3", " ");
  }

  /** None of the fifteen unit words listed before "g" fits after "2 ". */
  lemma NoEarlyFitG(s: string)
    requires s == "2 garlic"
    ensures forall j :: 0 <= j < 15 ==> !UnitFits(s, 2, MeasureWords[j])
  {
    forall j | 0 <= j < 15 ensures !UnitFits(s, 2, MeasureWords[j]) {
      Mismatch(s, 2, MeasureWords[j], 0);
    }
  }

  lemma FirstFitIsG(s: string)
    requires s == "2 garlic"
    ensures FirstUnit(UnitWords, s, 2, 0) == Some(15) && UnitWords[15] == "g"
  {
    NoEarlyFitG(s);
    assert UnitFits(s, 2, UnitWords[15]);
  }

  lemma GarlicPositions(s: string)
    requires s == "2 garlic"
    ensures Normalized(s)
    ensures QuantityEnd(s) == 2
    ensures ItemStart(s, 3) == 3
  {
    assert !IsQuantityChar(s[2]);
    assert QuantityRun(s, 2) == 0;
    assert QuantityRun(s, 1) == 1;
  }

  lemma GarlicPieces(s: string)
    requires s == "2 garlic"
    ensures Trim(s[..2]) == "2" && s[2..3] == "g" && s[3..] == "arlic"
  {
    assert s[..2] == "" + "2" + " ";
    TrimSurrounded("", "2", " ");
  }

  /** `parseIngredientString("2 garlic")` reads unit "g" and item "arlic". */
  lemma Garlic(s: string)
    requires s == "2 garlic"
    ensures ParseIngredientString(s) == Ingredient("2", "g", "arlic")
  {
    GarlicPositions(s);
    FirstFitIsG(s);
    GarlicPieces(s);
    CleanSplitWithUnit(UnitWords, s, 2, 15, 3);
    ParseCleanLine(s);
  }

  /** `parseIngredientString("3 large eggs")` reads unit "l" and item "arge eggs". */
  lemma LargeEggs(s: string)
    requires s == "3 large eggs"
    ensures ParseIngredientString(s) == Ingredient("3", "l", "arge eggs")
  {
    LargeEggsClean(s);
    LargeEggsPositions(s);
    LargeEggsPieces(s);
    FirstFitIsL(s);
    CleanSplitWithUnit(UnitWords, s, 2, 18, 3);
    ParseCleanLine(s);
  }
}
