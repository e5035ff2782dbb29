/** The recipe records of src/types/recipe.ts and the scraper's result type. */
module Recipe {
  import opened Optional

  /** One ingredient line split into free-text quantity, unit and item. */
  datatype Ingredient = Ingredient(quantity: string, unit: string, item: string)

  /**
   * An ingredient as one step uses it; the totals are present only when the
   * step uses part of the recipe's full amount.
   */
  datatype StepIngredient = StepIngredient(
    quantity: string,
    unit: string,
    item: string,
    totalQuantity: Option<string>,
    totalUnit: Option<string>)
  {
    function Base(): Ingredient {
      Ingredient(quantity, unit, item)
    }
  }

  function AsStepIngredient(ing: Ingredient): StepIngredient {
    StepIngredient(ing.quantity, ing.unit, ing.item, None, None)
  }

  datatype ParsedRecipe = ParsedRecipe(
    title: string,
    source: string,
    prepTime: string,
    cookTime: string,
    totalTime: string,
    servings: string,
    ingredients: seq<Ingredient>,
    instructions: seq<string>,
    notes: string,
    stepIngredients: Option<seq<seq<StepIngredient>>>)

  /** What the page scraper hands back: a finished recipe, or page text for an AI extractor. */
  datatype ScrapeResult =
    | Structured(recipe: ParsedRecipe)
    | Raw(content: string)
}
