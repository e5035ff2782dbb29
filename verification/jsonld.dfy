/**
 * The structured-data path of src/lib/scraper.ts: finding schema.org
 * `Recipe` nodes in a parsed JSON-LD document (through arrays and the
 * `@graph` container of JSON-LD 1.1, section 4.9) and mapping one of them
 * to a `ParsedRecipe`.
 *
 * HTML entity decoding, which `cleanText` delegates to an HTML parser, is
 * the parameter `decode` throughout.
 */
module JsonLd {
  import opened Optional
  import opened Text
  import opened Json
  import opened TextCleaning
  import opened IngredientLine
  import opened Duration
  import opened Recipe

  // ---------------------------------------------------------------------
  // findRecipeObjects

  /** `@type` is "Recipe", or an array with "Recipe" among its elements (JSON-LD 1.1, section 3.5). */
  predicate HasRecipeType(fields: seq<(string, Json)>) {
    match Get(fields, "@type")
    case Some(Str(t)) => t == "Recipe"
    case Some(Arr(ts)) => Str("Recipe") in ts
    case _ => false
  }

  predicate IsRecipeNode(v: Json) {
    v.Obj? && HasRecipeType(v.fields)
  }

  /** `v` occurs somewhere inside `root`, or is `root`. */
  predicate SubValue(v: Json, root: Json)
    decreases root
  {
    || v == root
    || (root.Arr? && exists i :: 0 <= i < |root.items| && SubValue(v, root.items[i]))
    || (root.Obj? && exists i :: 0 <= i < |root.fields| && SubValue(v, root.fields[i].1))
  }

  /** The `@graph` member of a node, when it is an array. */
  function GraphOf(fields: seq<(string, Json)>): (r: Option<seq<Json>>)
    ensures r.Some? ==> exists i :: 0 <= i < |fields| && fields[i].1 == Arr(r.value)
  {
    match Get(fields, "@graph")
    case Some(Arr(g)) =>
      assert fields[FieldIndex(fields, "@graph").value].1 == Arr(g);
      Some(g)
    case _ => None
  }

  /**
   * `findRecipeObjects(data)`: a recipe node is taken whole, without looking
   * inside it; arrays and a node's `@graph` array are searched in document
   * order; anything else contributes nothing.
   */
  function FindRecipeObjects(data: Json): (r: seq<Json>)
    ensures forall k :: 0 <= k < |r| ==> IsRecipeNode(r[k])
    ensures IsRecipeNode(data) ==> r == [data]
    ensures data.Arr? ==> r == FindAll(data.items)
    ensures data.Obj? && !IsRecipeNode(data) && GraphOf(data.fields).None? ==> r == []
    ensures data.Obj? && !IsRecipeNode(data) && GraphOf(data.fields).Some? ==> r == FindAll(GraphOf(data.fields).value)
    ensures !data.Arr? && !data.Obj? ==> r == []
    decreases data, 1
  {
    match data
    case Arr(items) => FindAll(items)
    case Obj(fields) =>
      if HasRecipeType(fields) then [data]
      else (
        match GraphOf(fields)
        case Some(g) =>
          assert exists i :: 0 <= i < |fields| && fields[i].1 == Arr(g);
          var i :| 0 <= i < |fields| && fields[i].1 == Arr(g);
          assert fields[i] in fields;
          FindAll(g)
        case None => [])
    case _ => []
  }

  /** `items.flatMap(findRecipeObjects)`. */
  function FindAll(items: seq<Json>): (r: seq<Json>)
    ensures forall k :: 0 <= k < |r| ==> IsRecipeNode(r[k])
    decreases items, 0
  {
    if |items| == 0 then []
    else FindRecipeObjects(items[0]) + FindAll(items[1..])
  }

  /** Searching a concatenation is concatenating the searches. */
  lemma {:induction false} FindAllAppend(a: seq<Json>, b: seq<Json>)
    ensures FindAll(a + b) == FindAll(a) + FindAll(b)
    decreases |a|
  {
    if |a| > 0 {
      var ab := a + b;
      assert ab[0] == a[0] && ab[1..] == a[1..] + b;
      assert FindAll(ab) == FindRecipeObjects(a[0]) + FindAll(a[1..] + b);
      FindAllAppend(a[1..], b);
    } else {
      assert a + b == b;
    }
  }

  /** Every node found is a recipe node taken from inside the document. */
  lemma {:induction false} FoundInside(data: Json)
    ensures forall k :: 0 <= k < |FindRecipeObjects(data)| ==> SubValue(FindRecipeObjects(data)[k], data)
    decreases data, 1
  {
    match data
    case Arr(items) =>
      FoundAllInside(items, data, 0);
    case Obj(fields) =>
      if !HasRecipeType(fields) {
        match GraphOf(fields)
        case Some(g) =>
          var i :| 0 <= i < |fields| && fields[i].1 == Arr(g);
          assert fields[i] in fields;
          FoundAllInside(g, Arr(g), 0);
          forall k | 0 <= k < |FindAll(g)| ensures SubValue(FindAll(g)[k], data) {
            SubValueTrans(FindAll(g)[k], Arr(g), data, i);
          }
        case None =>
      }
    case _ =>
  }

  lemma {:induction false} FoundAllInside(items: seq<Json>, root: Json, j: nat)
    requires root.Arr? && j <= |root.items| && root.items[j..] == items
    ensures forall k :: 0 <= k < |FindAll(items)| ==> SubValue(FindAll(items)[k], root)
    decreases items, 0
  {
    if |items| > 0 {
      assert root.items[j] == items[0];
      FoundInside(items[0]);
      var head := FindRecipeObjects(items[0]);
      forall k | 0 <= k < |head| ensures SubValue(head[k], root) {
        assert SubValue(head[k], root.items[j]);
      }
      assert root.items[j + 1..] == items[1..];
      FoundAllInside(items[1..], root, j + 1);
    }
  }

  /** Inside a field value is inside the node. */
  lemma SubValueTrans(v: Json, inner: Json, root: Json, i: nat)
    requires root.Obj? && i < |root.fields| && root.fields[i].1 == inner
    requires inner.Arr? && exists j :: 0 <= j < |inner.items| && SubValue(v, inner.items[j])
    ensures SubValue(v, root)
  {
    assert SubValue(v, inner);
  }

  // ---------------------------------------------------------------------
  // Field readers

  /** `asString(v)`: a string is cleaned; anything else is "". */
  function AsString(decode: string -> string, v: Option<Json>): (r: string)
    ensures Normalized(r) && Visible(r)
    ensures !(v.Some? && v.value.Str?) ==> r == ""
    ensures v.Some? && v.value.Str? ==> r == CleanText(decode, v.value.s)
  {
    if v.Some? && v.value.Str? then
      CleanTextClean(decode, v.value.s);
      CleanText(decode, v.value.s)
    else ""
  }

  /** `parseServings(raw)`. */
  function ParseServings(raw: Option<Json>): (r: string)
    ensures raw.Some? && raw.value.Str? ==> r == raw.value.s
    ensures raw.Some? && raw.value.Num? ==> r == IntToString(raw.value.n) + " servings"
    ensures raw.Some? && raw.value.Arr? && |raw.value.items| > 0 ==> r == JsString(raw.value.items[0])
    ensures !(raw.Some? && (raw.value.Str? || raw.value.Num? || (raw.value.Arr? && |raw.value.items| > 0))) ==> r == ""
  {
    match raw
    case Some(Str(s)) => s
    case Some(Num(n)) => IntToString(n) + " servings"
    case Some(Arr(items)) => if |items| > 0 then JsString(items[0]) else ""
    case _ => ""
  }

  /** A count of servings reads back from its rendering. */
  lemma ServingsNumberRoundTrip(n: nat)
    ensures var r := ParseServings(Some(Num(n)));
      && |r| > 9 && r[|r| - 9..] == " servings"
      && AllDigits(r[..|r| - 9]) && DigitsValue(r[..|r| - 9]) == n
  {
    var r := ParseServings(Some(Num(n)));
    assert r == NatToString(n) + " servings";
    assert r[..|r| - 9] == NatToString(n);
    NatToStringRoundTrip(n);
  }

  // ---------------------------------------------------------------------
  // parseIngredients

  /** The string elements of an array, in order (`raw.filter(s => typeof s === "string")`). */
  function StringElements(items: seq<Json>): (r: seq<string>)
    ensures |r| <= |items|
  {
    if |items| == 0 then []
    else (if items[0].Str? then [items[0].s] else []) + StringElements(items[1..])
  }

  /** A string is kept exactly when it is one of the items; every other kind of item is dropped. */
  lemma {:induction false} StringElementsMembers(items: seq<Json>, t: string)
    ensures t in StringElements(items) <==> Str(t) in items
  {
    if |items| > 0 {
      StringElementsMembers(items[1..], t);
      assert items == [items[0]] + items[1..];
    }
  }

  function ParseLines(decode: string -> string, lines: seq<string>): (r: seq<Ingredient>)
    ensures |r| == |lines|
    ensures forall k :: 0 <= k < |r| ==> r[k] == ParseIngredientString(CleanText(decode, lines[k]))
  {
    if |lines| == 0 then []
    else [ParseIngredientString(CleanText(decode, lines[0]))] + ParseLines(decode, lines[1..])
  }

  /** `parseIngredients(raw)`: every string element of an array, cleaned and split; nothing else. */
  function ParseIngredients(decode: string -> string, raw: Option<Json>): (r: seq<Ingredient>)
    ensures !(raw.Some? && raw.value.Arr?) ==> r == []
    ensures raw.Some? && raw.value.Arr? ==> r == ParseLines(decode, StringElements(raw.value.items))
    ensures forall k :: 0 <= k < |r| ==> Trimmed(r[k].quantity) && Trimmed(r[k].unit) && Trimmed(r[k].item)
    ensures forall k :: 0 <= k < |r| ==> r[k].unit != "" ==> IsUnitToken(r[k].unit)
  {
    match raw
    case Some(Arr(items)) => ParseLines(decode, StringElements(items))
    case _ => []
  }

  /** An array of strings keeps every one of them, in order. */
  lemma {:induction false} StringElementsOfStrings(lines: seq<string>)
    ensures StringElements(seq(|lines|, k requires 0 <= k < |lines| => Str(lines[k]))) == lines
  {
    var items := seq(|lines|, k requires 0 <= k < |lines| => Str(lines[k]));
    if |lines| > 0 {
      StringElementsOfStrings(lines[1..]);
      assert items[1..] == seq(|lines[1..]|, k requires 0 <= k < |lines[1..]| => Str(lines[1..][k]));
      assert lines == [lines[0]] + lines[1..];
    }
  }

  /** An array of ingredient lines parses line by line: the partner of `ParseLines` through the JSON array. */
  lemma StringArrayIngredients(decode: string -> string, lines: seq<string>)
    ensures ParseIngredients(decode, Some(Arr(seq(|lines|, k requires 0 <= k < |lines| => Str(lines[k]))))) == ParseLines(decode, lines)
  {
    StringElementsOfStrings(lines);
  }

  /** Each parsed line has a non-empty item exactly when its cleaned text is non-empty, and is all-empty otherwise. */
  lemma IngredientItems(decode: string -> string, items: seq<Json>, k: nat)
    requires k < |StringElements(items)|
    ensures var line := CleanText(decode, StringElements(items)[k]);
      var ing := ParseIngredients(decode, Some(Arr(items)))[k];
      (line == "" ==> ing == Ingredient("", "", "")) && (line != "" ==> ing.item != "")
  {
    var line := CleanText(decode, StringElements(items)[k]);
    CleanTextClean(decode, StringElements(items)[k]);
    if line == "" {
      ParseEmptyLine();
    } else {
      ParseCleanLine(line);
    }
  }

  /** The string elements of a concatenation. */
  lemma {:induction false} StringElementsAppend(a: seq<Json>, b: seq<Json>)
    ensures StringElements(a + b) == StringElements(a) + StringElements(b)
    decreases |a|
  {
    if |a| > 0 {
      var ab := a + b;
      assert ab[0] == a[0] && ab[1..] == a[1..] + b;
      StringElementsAppend(a[1..], b);
    } else {
      assert a + b == b;
    }
  }

  // ---------------------------------------------------------------------
  // parseInstructions

  /** Every step is cleaned text: white space normalized, no invisible characters. */
  predicate CleanSteps(r: seq<string>) {
    forall k :: 0 <= k < |r| ==> Normalized(r[k]) && Visible(r[k])
  }

  /** One cleaned step. */
  function CleanStep(decode: string -> string, text: string): (r: seq<string>)
    ensures r == [CleanText(decode, text)] && CleanSteps(r)
  {
    CleanTextClean(decode, text);
    [CleanText(decode, text)]
  }

  lemma CleanStepsAppend(a: seq<string>, b: seq<string>)
    requires CleanSteps(a) && CleanSteps(b)
    ensures CleanSteps(a + b)
  {
    forall k | |a| <= k < |a + b| ensures Normalized((a + b)[k]) && Visible((a + b)[k]) {
      assert (a + b)[k] == b[k - |a|];
    }
  }

  /** An object's `text` member, when it is a string. */
  function TextField(v: Json): Option<string> {
    if v.Obj? && Get(v.fields, "text").Some? && Get(v.fields, "text").value.Str? then Some(Get(v.fields, "text").value.s)
    else None
  }

  /** An object's `itemListElement` member, when it is an array. */
  function SectionItems(v: Json): Option<seq<Json>> {
    if v.Obj? && Get(v.fields, "itemListElement").Some? && Get(v.fields, "itemListElement").value.Arr? then
      Some(Get(v.fields, "itemListElement").value.items)
    else None
  }

  /** The step texts of a section's `itemListElement`: objects with a string `text`; everything else is dropped. */
  function SectionTexts(decode: string -> string, subs: seq<Json>): (r: seq<string>)
    ensures |r| <= |subs|
    ensures CleanSteps(r)
  {
    if |subs| == 0 then []
    else
      var head := if TextField(subs[0]).Some? then CleanStep(decode, TextField(subs[0]).value) else [];
      CleanStepsAppend(head, SectionTexts(decode, subs[1..]));
      head + SectionTexts(decode, subs[1..])
  }

  /** The string `text` members of the objects among `subs`, in order, before cleaning. */
  function SubTexts(subs: seq<Json>): (r: seq<string>)
    ensures |r| <= |subs|
  {
    if |subs| == 0 then []
    else (if TextField(subs[0]).Some? then [TextField(subs[0]).value] else []) + SubTexts(subs[1..])
  }

  /** A text is collected exactly when some sub-item is an object whose `text` member is that string. */
  lemma {:induction false} SubTextsMembers(subs: seq<Json>, t: string)
    ensures t in SubTexts(subs) <==> exists k :: 0 <= k < |subs| && TextField(subs[k]) == Some(t)
  {
    if |subs| > 0 {
      SubTextsMembers(subs[1..], t);
      if TextField(subs[0]) != Some(t) && t in SubTexts(subs[1..]) {
        var k :| 0 <= k < |subs[1..]| && TextField(subs[1..][k]) == Some(t);
        assert TextField(subs[k + 1]) == Some(t);
      }
      if exists k :: 0 <= k < |subs| && TextField(subs[k]) == Some(t) {
        var k :| 0 <= k < |subs| && TextField(subs[k]) == Some(t);
        if k > 0 {
          assert TextField(subs[1..][k - 1]) == Some(t);
        }
      }
    }
  }

  /** The texts of a concatenation. */
  lemma {:induction false} SubTextsAppend(a: seq<Json>, b: seq<Json>)
    ensures SubTexts(a + b) == SubTexts(a) + SubTexts(b)
    decreases |a|
  {
    if |a| > 0 {
      var ab := a + b;
      assert ab[0] == a[0] && ab[1..] == a[1..] + b;
      SubTextsAppend(a[1..], b);
    } else {
      assert a + b == b;
    }
  }

  /** A section's steps are the collected texts, each cleaned, in order. */
  lemma {:induction false} SectionTextsCleaned(decode: string -> string, subs: seq<Json>)
    ensures SectionTexts(decode, subs) == CleanEach(decode, SubTexts(subs))
  {
    if |subs| > 0 {
      var rest := subs[1..];
      SectionTextsCleaned(decode, rest);
      if TextField(subs[0]).Some? {
        var t := TextField(subs[0]).value;
        var texts := SubTexts(subs);
        assert texts == [t] + SubTexts(rest);
        assert texts[1..] == SubTexts(rest);
        assert CleanEach(decode, texts) == [CleanText(decode, t)] + CleanEach(decode, SubTexts(rest));
        assert SectionTexts(decode, subs) == CleanStep(decode, t) + SectionTexts(decode, rest);
      } else {
        assert SubTexts(subs) == SubTexts(rest);
        assert SectionTexts(decode, subs) == [] + SectionTexts(decode, rest);
      }
    }
  }

  /** What one element of `recipeInstructions` contributes: a string, a step's `text`, or a section's step texts. */
  function ItemInstructions(decode: string -> string, item: Json): (r: seq<string>)
    ensures item.Str? ==> r == [CleanText(decode, item.s)]
    ensures !item.Str? && !item.Obj? ==> r == []
    ensures TextField(item).Some? ==> r == [CleanText(decode, TextField(item).value)]
    ensures TextField(item).None? && SectionItems(item).Some? ==> r == SectionTexts(decode, SectionItems(item).value)
    ensures item.Obj? && TextField(item).None? && SectionItems(item).None? ==> r == []
    ensures CleanSteps(r)
  {
    if item.Str? then CleanStep(decode, item.s)
    else if TextField(item).Some? then CleanStep(decode, TextField(item).value)
    else if SectionItems(item).Some? then SectionTexts(decode, SectionItems(item).value)
    else []
  }

  /** `items.flatMap(...)` over `recipeInstructions`. */
  function InstructionsOf(decode: string -> string, items: seq<Json>): (r: seq<string>)
    ensures CleanSteps(r)
  {
    if |items| == 0 then []
    else
      CleanStepsAppend(ItemInstructions(decode, items[0]), InstructionsOf(decode, items[1..]));
      ItemInstructions(decode, items[0]) + InstructionsOf(decode, items[1..])
  }

  /** `parseInstructions(raw)`: only an array yields steps. */
  function ParseInstructions(decode: string -> string, raw: Option<Json>): (r: seq<string>)
    ensures !(raw.Some? && raw.value.Arr?) ==> r == []
    ensures raw.Some? && raw.value.Arr? ==> r == InstructionsOf(decode, raw.value.items)
  {
    if Falsy(raw) then []
    else
      match raw
      case Some(Arr(items)) => InstructionsOf(decode, items)
      case _ => []
  }

  /** The steps of a concatenation are the steps of each part, in order. */
  lemma {:induction false} InstructionsAppend(decode: string -> string, a: seq<Json>, b: seq<Json>)
    ensures InstructionsOf(decode, a + b) == InstructionsOf(decode, a) + InstructionsOf(decode, b)
    decreases |a|
  {
    if |a| > 0 {
      var ab := a + b;
      assert ab[0] == a[0] && ab[1..] == a[1..] + b;
      var x := ItemInstructions(decode, a[0]);
      assert InstructionsOf(decode, ab) == x + InstructionsOf(decode, a[1..] + b);
      assert InstructionsOf(decode, a) == x + InstructionsOf(decode, a[1..]);
      InstructionsAppend(decode, a[1..], b);
      AppendAssoc(x, InstructionsOf(decode, a[1..]), InstructionsOf(decode, b));
    } else {
      assert a + b == b;
    }
  }

  /** Each text cleaned, in order. */
  function CleanEach(decode: string -> string, texts: seq<string>): (r: seq<string>)
    ensures |r| == |texts|
  {
    if |texts| == 0 then [] else [CleanText(decode, texts[0])] + CleanEach(decode, texts[1..])
  }

  /** A list of plain strings gives one cleaned step per string, in order. */
  lemma {:induction false} PlainStringSteps(decode: string -> string, items: seq<Json>)
    requires forall k :: 0 <= k < |items| ==> items[k].Str?
    ensures InstructionsOf(decode, items) == CleanEach(decode, StringElements(items))
  {
    if |items| > 0 {
      var rest := items[1..];
      PlainStringSteps(decode, rest);
      assert StringElements(items) == [items[0].s] + StringElements(rest);
      assert StringElements(items)[1..] == StringElements(rest);
    }
  }

  /** A list of `HowToStep` objects gives one cleaned step per `text`, in order. */
  lemma {:induction false} HowToStepSteps(decode: string -> string, items: seq<Json>)
    requires forall k :: 0 <= k < |items| ==> TextField(items[k]).Some?
    ensures InstructionsOf(decode, items) == CleanEach(decode, SubTexts(items))
  {
    if |items| > 0 {
      var rest := items[1..];
      HowToStepSteps(decode, rest);
      assert SubTexts(items) == [TextField(items[0]).value] + SubTexts(rest);
      assert SubTexts(items)[1..] == SubTexts(rest);
    }
  }

  /** A single `HowToSection` gives the cleaned `text` of each of its object items, in order. */
  lemma OneSectionSteps(decode: string -> string, section: Json)
    requires TextField(section).None? && SectionItems(section).Some?
    ensures ParseInstructions(decode, Some(Arr([section]))) == CleanEach(decode, SubTexts(SectionItems(section).value))
  {
    var subs := SectionItems(section).value;
    assert [section][1..] == [];
    assert InstructionsOf(decode, []) == [];
    assert InstructionsOf(decode, [section]) == ItemInstructions(decode, section) + [];
    assert ItemInstructions(decode, section) == SectionTexts(decode, subs);
    SectionTextsCleaned(decode, subs);
  }

  /** A section whose items are plain strings contributes no steps at all. */
  lemma {:induction false} SectionStringsDropped(decode: string -> string, subs: seq<Json>)
    requires forall k :: 0 <= k < |subs| ==> subs[k].Str?
    ensures SectionTexts(decode, subs) == []
  {
    if |subs| > 0 {
      SectionStringsDropped(decode, subs[1..]);
    }
  }

  // ---------------------------------------------------------------------
  // mapJsonLdToRecipe

  /**
   * `mapJsonLdToRecipe(data, url)`: `None` (the source's `null`) when the
   * cleaned name is empty or there are neither ingredients nor steps.
   */
  function MapJsonLdToRecipe(decode: string -> string, data: seq<(string, Json)>, url: string): (r: Option<ParsedRecipe>)
    ensures r.None? <==>
      || AsString(decode, Get(data, "name")) == ""
      || (ParseIngredients(decode, Get(data, "recipeIngredient")) == [] && ParseInstructions(decode, Get(data, "recipeInstructions")) == [])
    ensures r.Some? ==> r.value.title != "" && Normalized(r.value.title)
    ensures r.Some? ==> r.value.title == AsString(decode, Get(data, "name"))
    ensures r.Some? ==> r.value.ingredients == ParseIngredients(decode, Get(data, "recipeIngredient"))
    ensures r.Some? ==> r.value.instructions == ParseInstructions(decode, Get(data, "recipeInstructions"))
    ensures r.Some? ==> r.value.source == url
    ensures r.Some? ==> r.value.notes == AsString(decode, Get(data, "description"))
    ensures r.Some? ==> r.value.servings == ParseServings(Get(data, "recipeYield"))
    ensures r.Some? ==> r.value.prepTime == ParseDuration(Get(data, "prepTime"))
    ensures r.Some? ==> r.value.cookTime == ParseDuration(Get(data, "cookTime"))
    ensures r.Some? ==> r.value.totalTime == ParseDuration(Get(data, "totalTime"))
    ensures r.Some? ==> r.value.stepIngredients.None?
    ensures r.Some? ==> |r.value.ingredients| + |r.value.instructions| > 0
  {
    var title := AsString(decode, Get(data, "name"));
    var ingredients := ParseIngredients(decode, Get(data, "recipeIngredient"));
    var instructions := ParseInstructions(decode, Get(data, "recipeInstructions"));
    if title == "" || (|ingredients| == 0 && |instructions| == 0) then None
    else
      Some(ParsedRecipe(
        title,
        url,
        ParseDuration(Get(data, "prepTime")),
        ParseDuration(Get(data, "cookTime")),
        ParseDuration(Get(data, "totalTime")),
        ParseServings(Get(data, "recipeYield")),
        ingredients,
        instructions,
        AsString(decode, Get(data, "description")),
        None))
  }
}
