/**
 * The pure parts of src/lib/ai/gemini.ts around per-step ingredients: the
 * guard that drops a `stepIngredients` list of the wrong length, the
 * rebuilding of per-step ingredient lists from 1-based indices, and the
 * one-line rendering of an ingredient (with its two copies in the UI).
 */
module StepMap {
  import opened Optional
  import opened Text
  import opened Recipe

  // ---------------------------------------------------------------------
  // formatIngredientString

  /** `parts.filter(Boolean)` for strings: the non-empty ones, in order. */
  function NonEmpty(parts: seq<string>): (r: seq<string>)
    ensures |r| <= |parts|
    ensures forall k :: 0 <= k < |r| ==> r[k] != ""
  {
    if |parts| == 0 then []
    else if parts[0] == "" then NonEmpty(parts[1..])
    else [parts[0]] + NonEmpty(parts[1..])
  }

  /** `[quantity, unit, item].filter(Boolean).join(" ")` (gemini.ts, and the same text in recipe-card.tsx). */
  function FormatIngredientString(ing: Ingredient): string {
    Join(NonEmpty([ing.quantity, ing.unit, ing.item]), " ")
  }

  /** The copy in step-ingredients.tsx: push each non-empty part, then join. */
  function PushedParts(ing: Ingredient): seq<string> {
    var afterQuantity := if ing.quantity != "" then [ing.quantity] else [];
    var afterUnit := if ing.unit != "" then afterQuantity + [ing.unit] else afterQuantity;
    if ing.item != "" then afterUnit + [ing.item] else afterUnit
  }

  function FormatPushed(ing: Ingredient): string {
    Join(PushedParts(ing), " ")
  }

  /** A part as the filter leaves it: itself when non-empty, nothing otherwise. */
  function Keep(x: string): seq<string> {
    if x != "" then [x] else []
  }

  /** Filtering decides the first part, then filters the rest. */
  lemma NonEmptyStep(parts: seq<string>)
    requires |parts| > 0
    ensures NonEmpty(parts) == Keep(parts[0]) + NonEmpty(parts[1..])
  {
    if parts[0] == "" {
      assert [] + NonEmpty(parts[1..]) == NonEmpty(parts[1..]);
    }
  }

  /** The filter keeps exactly the non-empty parts. */
  lemma {:induction false} NonEmptyMembers(parts: seq<string>, x: string)
    ensures x in NonEmpty(parts) <==> x in parts && x != ""
  {
    if |parts| > 0 {
      NonEmptyMembers(parts[1..], x);
      NonEmptyStep(parts);
      assert parts == [parts[0]] + parts[1..];
    }
  }

  /** Filtering distributes over concatenation, so the kept parts stay in order. */
  lemma {:induction false} NonEmptyAppend(a: seq<string>, b: seq<string>)
    ensures NonEmpty(a + b) == NonEmpty(a) + NonEmpty(b)
    decreases |a|
  {
    if |a| > 0 {
      var ab := a + b;
      assert ab[0] == a[0] && ab[1..] == a[1..] + b;
      NonEmptyAppend(a[1..], b);
      NonEmptyStep(ab);
      NonEmptyStep(a);
      AppendAssoc(Keep(a[0]), NonEmpty(a[1..]), NonEmpty(b));
    } else {
      assert a + b == b;
    }
  }

  /** Filtering three parts, spelled out. */
  lemma NonEmptyThree(parts: seq<string>)
    requires |parts| == 3
    ensures NonEmpty(parts) == Keep(parts[0]) + Keep(parts[1]) + Keep(parts[2])
  {
    var k0, k1, k2 := Keep(parts[0]), Keep(parts[1]), Keep(parts[2]);
    var t := parts[1..];
    var u := t[1..];
    assert NonEmpty(u) == k2 by {
      NonEmptyStep(u);
      assert u[1..] == [] && u[0] == parts[2];
      assert k2 + [] == k2;
    }
    assert NonEmpty(t) == k1 + k2 by {
      NonEmptyStep(t);
    }
    NonEmptyStep(parts);
    AppendAssoc(k0, k1, k2);
  }

  /** The filtering and the pushing copies render every ingredient alike. */
  lemma FormattersAgree(ing: Ingredient)
    ensures FormatPushed(ing) == FormatIngredientString(ing)
  {
    var parts := [ing.quantity, ing.unit, ing.item];
    NonEmptyThree(parts);
    assert PushedParts(ing) == Keep(ing.quantity) + Keep(ing.unit) + Keep(ing.item);
  }

  /** Joining non-empty parts yields the empty string only for no parts at all. */
  lemma JoinEmpty(parts: seq<string>, sep: string)
    requires forall k :: 0 <= k < |parts| ==> parts[k] != ""
    ensures Join(parts, sep) == "" <==> |parts| == 0
  {
    if |parts| > 1 {
      assert |parts[0] + sep + Join(parts[1..], sep)| >= |parts[0]|;
    }
  }

  /** The rendering is empty exactly when quantity, unit and item all are. */
  lemma FormatEmptyIff(ing: Ingredient)
    ensures FormatIngredientString(ing) == "" <==> ing.quantity == "" && ing.unit == "" && ing.item == ""
  {
    NonEmptyThree([ing.quantity, ing.unit, ing.item]);
    JoinEmpty(NonEmpty([ing.quantity, ing.unit, ing.item]), " ");
  }

  /** Splitting a join on a separator the parts do not contain gives the parts back. */
  lemma {:induction false} SplitJoin(parts: seq<string>, sep: char)
    requires |parts| > 0 && forall k :: 0 <= k < |parts| ==> sep !in parts[k]
    ensures Split(Join(parts, [sep]), sep) == parts
    decreases |parts|
  {
    if |parts| == 1 {
      SplitNone(parts[0], sep);
    } else {
      var rest := parts[1..];
      SplitJoin(rest, sep);
      SplitCons(parts[0], sep, Join(rest, [sep]));
      assert parts == [parts[0]] + rest;
    }
  }

  /**
   * For fields without spaces, the rendering splits back on spaces into
   * exactly the non-empty fields, in the order quantity, unit, item.
   */
  lemma FormatSplitsIntoFields(ing: Ingredient)
    requires ' ' !in ing.quantity && ' ' !in ing.unit && ' ' !in ing.item
    requires ing.quantity != "" || ing.unit != "" || ing.item != ""
    ensures Split(FormatIngredientString(ing), ' ') == NonEmpty([ing.quantity, ing.unit, ing.item])
  {
    NonEmptyThree([ing.quantity, ing.unit, ing.item]);
    var parts := NonEmpty([ing.quantity, ing.unit, ing.item]);
    assert " " == [' '];
    SplitJoin(parts, ' ');
  }

  // ---------------------------------------------------------------------
  // The stepIngredients length guard of extractRecipe

  /** A present list of the wrong length is dropped; nothing else changes. */
  function GuardStepIngredients(recipe: ParsedRecipe): (r: ParsedRecipe)
    ensures r.stepIngredients.Some? ==> |r.stepIngredients.value| == |r.instructions|
    ensures r == recipe.(stepIngredients := r.stepIngredients)
    ensures r.stepIngredients == recipe.stepIngredients || r.stepIngredients.None?
    ensures recipe.stepIngredients.Some? && |recipe.stepIngredients.value| == |recipe.instructions| ==> r == recipe
  {
    match recipe.stepIngredients
    case Some(lists) => if |lists| != |recipe.instructions| then recipe.(stepIngredients := None) else recipe
    case None => recipe
  }

  /** The guard removes a list exactly when its length is wrong. */
  lemma GuardDropsIff(recipe: ParsedRecipe)
    ensures GuardStepIngredients(recipe).stepIngredients.None?
      <==> recipe.stepIngredients.None? || |recipe.stepIngredients.value| != |recipe.instructions|
  {
  }

  /** Guarding twice is guarding once. */
  lemma GuardIdempotent(recipe: ParsedRecipe)
    ensures GuardStepIngredients(GuardStepIngredients(recipe)) == GuardStepIngredients(recipe)
  {
  }

  // ---------------------------------------------------------------------
  // Rebuilding per-step lists from indices (mapStepIngredients)

  /** `ingredients[i - 1]` when it exists; JavaScript gives `undefined` for any other `i`. */
  function At(ingredients: seq<Ingredient>, i: int): Option<Ingredient> {
    if 1 <= i <= |ingredients| then Some(ingredients[i - 1]) else None
  }

  /** `indices.map(i => ingredients[i - 1]).filter(ing => ing != null)` for one step. */
  function StepEntry(ingredients: seq<Ingredient>, indices: seq<int>): (r: seq<StepIngredient>)
    ensures |r| <= |indices|
    ensures forall k :: 0 <= k < |r| ==> r[k].totalQuantity.None? && r[k].totalUnit.None? && r[k].Base() in ingredients
  {
    if |indices| == 0 then []
    else
      var head := match At(ingredients, indices[0]) case Some(ing) => [AsStepIngredient(ing)] case None => [];
      head + StepEntry(ingredients, indices[1..])
  }

  /** The indices that name an ingredient, in order and with repeats. */
  function InRange(n: nat, indices: seq<int>): (r: seq<int>)
    ensures forall k :: 0 <= k < |r| ==> 1 <= r[k] <= n
  {
    if |indices| == 0 then []
    else if 1 <= indices[0] <= n then [indices[0]] + InRange(n, indices[1..])
    else InRange(n, indices[1..])
  }

  /** The kept indices are exactly the listed ones within 1 and `n`. */
  lemma {:induction false} InRangeMembers(n: nat, indices: seq<int>, i: int)
    ensures i in InRange(n, indices) <==> i in indices && 1 <= i <= n
  {
    if |indices| > 0 {
      InRangeMembers(n, indices[1..], i);
      assert indices == [indices[0]] + indices[1..];
    }
  }

  /** Keeping indices distributes over concatenation: order and repeats survive. */
  lemma {:induction false} InRangeAppend(n: nat, a: seq<int>, b: seq<int>)
    ensures InRange(n, a + b) == InRange(n, a) + InRange(n, b)
    decreases |a|
  {
    if |a| > 0 {
      var ab := a + b;
      assert ab[0] == a[0] && ab[1..] == a[1..] + b;
      InRangeAppend(n, a[1..], b);
      if 1 <= a[0] <= n {
        assert [a[0]] + (InRange(n, a[1..]) + InRange(n, b)) == ([a[0]] + InRange(n, a[1..])) + InRange(n, b);
      }
    } else {
      assert a + b == b;
    }
  }

  /** Position by position, `r` holds the ingredients the 1-based indices `valid` name. */
  predicate NamedBy(ingredients: seq<Ingredient>, r: seq<StepIngredient>, valid: seq<int>) {
    |r| == |valid| && forall k :: 0 <= k < |r| ==>
      1 <= valid[k] <= |ingredients| && r[k] == AsStepIngredient(ingredients[valid[k] - 1])
  }

  /** The ingredients that in-range 1-based indices name, in order. */
  function Named(ingredients: seq<Ingredient>, valid: seq<int>): seq<StepIngredient>
    requires forall k :: 0 <= k < |valid| ==> 1 <= valid[k] <= |ingredients|
  {
    if |valid| == 0 then []
    else [AsStepIngredient(ingredients[valid[0] - 1])] + Named(ingredients, valid[1..])
  }

  /**
   * One step's entry is, position by position, the ingredients its in-range
   * indices name: out-of-range indices are dropped, repeats are kept, order
   * is preserved.
   */
  lemma {:induction false} StepEntryIsIndexed(ingredients: seq<Ingredient>, indices: seq<int>)
    ensures NamedBy(ingredients, StepEntry(ingredients, indices), InRange(|ingredients|, indices))
  {
    StepEntryIsNamed(ingredients, indices);
    NamedIsNamedBy(ingredients, InRange(|ingredients|, indices));
  }

  /** A step's entry names the ingredients of its in-range indices. */
  lemma {:induction false} StepEntryIsNamed(ingredients: seq<Ingredient>, indices: seq<int>)
    ensures StepEntry(ingredients, indices) == Named(ingredients, InRange(|ingredients|, indices))
    decreases |indices|
  {
    if |indices| > 0 {
      StepEntryIsNamed(ingredients, indices[1..]);
      if !(1 <= indices[0] <= |ingredients|) {
        assert [] + StepEntry(ingredients, indices[1..]) == StepEntry(ingredients, indices[1..]);
      } else {
        var valid := InRange(|ingredients|, indices);
        assert valid == [indices[0]] + InRange(|ingredients|, indices[1..]);
        assert valid[1..] == InRange(|ingredients|, indices[1..]);
      }
    }
  }

  /** The named ingredients hold, position by position, what each index names. */
  lemma {:induction false} NamedIsNamedBy(ingredients: seq<Ingredient>, valid: seq<int>)
    requires forall k :: 0 <= k < |valid| ==> 1 <= valid[k] <= |ingredients|
    ensures NamedBy(ingredients, Named(ingredients, valid), valid)
    decreases |valid|
  {
    if |valid| > 0 {
      NamedIsNamedBy(ingredients, valid[1..]);
      NamedByCons(ingredients, valid[0], Named(ingredients, valid[1..]), valid[1..]);
      assert [valid[0]] + valid[1..] == valid;
    }
  }

  /** Prepending one named ingredient and its index keeps entries and indices in step. */
  lemma NamedByCons(ingredients: seq<Ingredient>, i: int, rest: seq<StepIngredient>, valid: seq<int>)
    requires 1 <= i <= |ingredients| && NamedBy(ingredients, rest, valid)
    ensures NamedBy(ingredients, [AsStepIngredient(ingredients[i - 1])] + rest, [i] + valid)
  {
    var r, v := [AsStepIngredient(ingredients[i - 1])] + rest, [i] + valid;
    forall k | 0 <= k < |r| ensures 1 <= v[k] <= |ingredients| && r[k] == AsStepIngredient(ingredients[v[k] - 1]) {
      if k > 0 {
        assert r[k] == rest[k - 1] && v[k] == valid[k - 1];
      }
    }
  }

  /** Every index in range contributes; an entry is as long as its index list exactly when all are in range. */
  lemma {:induction false} StepEntryFull(ingredients: seq<Ingredient>, indices: seq<int>)
    ensures |StepEntry(ingredients, indices)| == |indices|
      <==> forall k :: 0 <= k < |indices| ==> 1 <= indices[k] <= |ingredients|
    decreases |indices|
  {
    if |indices| > 0 {
      StepEntryFull(ingredients, indices[1..]);
      var tail := indices[1..];
      assert forall k :: 1 <= k < |indices| ==> indices[k] == tail[k - 1];
      if !(1 <= indices[0] <= |ingredients|) {
        assert |StepEntry(ingredients, indices)| <= |tail|;
      }
    }
  }

  /**
   * The value `mapStepIngredients` returns for the model's answer `lists`;
   * `None` is the source's `undefined` for an answer of the wrong length.
   */
  function MapStepIngredients(ingredients: seq<Ingredient>, instructions: seq<string>, lists: seq<seq<int>>)
    : (r: Option<seq<seq<StepIngredient>>>)
    ensures r.None? <==> |lists| != |instructions|
    ensures r.Some? ==> |r.value| == |instructions|
    ensures r.Some? ==> forall s :: 0 <= s < |r.value| ==> r.value[s] == StepEntry(ingredients, lists[s])
  {
    if |lists| != |instructions| then None
    else Some(seq(|lists|, s requires 0 <= s < |lists| => StepEntry(ingredients, lists[s])))
  }

  /** Every rebuilt ingredient is one of the recipe's, and no step gets more entries than it named indices. */
  lemma MappedFromRecipe(ingredients: seq<Ingredient>, instructions: seq<string>, lists: seq<seq<int>>)
    requires MapStepIngredients(ingredients, instructions, lists).Some?
    ensures var steps := MapStepIngredients(ingredients, instructions, lists).value;
      forall s, k :: 0 <= s < |steps| && 0 <= k < |steps[s]| ==>
        steps[s][k].Base() in ingredients && |steps[s]| <= |lists[s]|
  {
  }

  /** A rebuilt list always passes the length guard of `extractRecipe`. */
  lemma MappedPassesGuard(recipe: ParsedRecipe, lists: seq<seq<int>>)
    requires MapStepIngredients(recipe.ingredients, recipe.instructions, lists).Some?
    ensures var withSteps := recipe.(stepIngredients := MapStepIngredients(recipe.ingredients, recipe.instructions, lists));
      GuardStepIngredients(withSteps) == withSteps
  {
  }
}
