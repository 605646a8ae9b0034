/** What the API returns and what the controller shows of it: the recipe cards of
    `displayRecipes` (script.js:140-167) and the branch choices of `displayRecipeDetails`
    (script.js:223-287), as view values rather than HTML text. Optional JSON fields are
    `Option`s; a string field counts as present the way JavaScript's truthiness decides,
    that is when it is there and not empty. */
module Recipes {
  import opened Wrappers
  import opened Text
  import opened Markup
  import opened Badges

  /** One element of the search response. */
  datatype RecipeSummary = RecipeSummary(
    id: int,
    title: string,
    image: string,
    readyInMinutes: Option<int>,
    usedIngredientCount: Option<int>,
    usedIngredients: Option<seq<Ingredient>>,
    missedIngredients: Option<seq<Ingredient>>)

  /** A recipe card. `minutes` is None where the card shows "N/A"; clicking the card asks for
      the details of `recipeId`. */
  datatype Card = Card(
    recipeId: int,
    title: string,
    image: string,
    minutes: Option<int>,
    usedCount: int,
    used: Option<Section>,
    missing: Option<Section>)

  /** A numbered step of the structured instructions. */
  datatype Step = Step(number: int, text: string)

  datatype AnalyzedInstruction = AnalyzedInstruction(steps: seq<Step>)

  /** The response to a detail request. `extendedIngredients` holds the `original` line of
      each extended ingredient. */
  datatype RecipeDetail = RecipeDetail(
    id: int,
    title: string,
    image: string,
    readyInMinutes: Option<int>,
    servings: Option<int>,
    diets: Option<seq<string>>,
    summary: Option<string>,
    extendedIngredients: Option<seq<string>>,
    analyzedInstructions: Option<seq<AnalyzedInstruction>>,
    instructions: Option<string>,
    sourceUrl: Option<string>)

  datatype IngredientsView = Originals(lines: seq<string>) | NoIngredientInformation

  datatype InstructionsView = StepList(steps: seq<Step>) | CleanedText(html: string) | NoInstructions

  /** The detail view. `minutes` and `servings` are None where it shows "N/A"; `about` is the
      cleaned summary section and `source` the link to the original recipe, when shown. */
  datatype DetailView = DetailView(
    title: string,
    image: string,
    minutes: Option<int>,
    servings: Option<int>,
    diets: Option<string>,
    about: Option<string>,
    ingredients: IngredientsView,
    instructions: InstructionsView,
    source: Option<string>)

  /** `x || 'N/A'` on a number: absent and zero both read as missing. */
  function ShownNumber(x: Option<int>): (r: Option<int>)
    ensures r.None? <==> x.None? || x.value == 0
    ensures r.Some? ==> r == x
  {
    if x.Some? && x.value != 0 then x else None
  }

  /** A string field that JavaScript reads as true: present and not empty. */
  predicate Truthy(s: Option<string>)
  {
    s.Some? && s.value != ""
  }

  /** One card: its title, image, time, used count and the two badge sections. */
  function RenderCard(recipe: RecipeSummary): (c: Card)
    ensures c.recipeId == recipe.id && c.title == recipe.title && c.image == recipe.image
    ensures c.minutes == ShownNumber(recipe.readyInMinutes)
    ensures c.usedCount == if recipe.usedIngredientCount.Some? then recipe.usedIngredientCount.value else 0
    ensures c.used == RenderIngredients(Used, recipe.usedIngredients)
    ensures c.missing == RenderIngredients(Missing, recipe.missedIngredients)
  {
    Card(
      recipe.id,
      recipe.title,
      recipe.image,
      ShownNumber(recipe.readyInMinutes),
      if recipe.usedIngredientCount.Some? then recipe.usedIngredientCount.value else 0,
      RenderIngredients(Used, recipe.usedIngredients),
      RenderIngredients(Missing, recipe.missedIngredients))
  }

  /** `recipes.map(...)`: one card per recipe, in the order of the response. */
  function RenderCards(recipes: seq<RecipeSummary>): (cards: seq<Card>)
    ensures |cards| == |recipes|
    ensures forall i :: 0 <= i < |recipes| ==> cards[i] == RenderCard(recipes[i])
  {
    seq(|recipes|, i requires 0 <= i < |recipes| => RenderCard(recipes[i]))
  }

  /** The instructions section: the steps of the first structured instruction when there is
      one, else the cleaned free text when it is not empty, else the "no instructions"
      placeholder. */
  function ChooseInstructions(analyzed: Option<seq<AnalyzedInstruction>>, instructions: Option<string>)
    : (v: InstructionsView)
    ensures v.StepList? <==> analyzed.Some? && |analyzed.value| > 0
    ensures v.StepList? ==> v.steps == analyzed.value[0].steps
    ensures v.CleanedText? <==> !(analyzed.Some? && |analyzed.value| > 0) && Truthy(instructions)
    ensures v.CleanedText? ==> '\n' !in v.html && Unbreak(v.html) == Strip(instructions.value)
  {
    if analyzed.Some? && |analyzed.value| > 0 then StepList(analyzed.value[0].steps)
    else if Truthy(instructions) then
      CleanInstructionsRoundTrip(instructions.value);
      CleanedText(CleanInstructions(instructions.value))
    else NoInstructions
  }

  /** The whole detail view of one recipe. */
  function RenderDetail(recipe: RecipeDetail): (v: DetailView)
    ensures v.title == recipe.title && v.image == recipe.image
    ensures v.minutes == ShownNumber(recipe.readyInMinutes)
    ensures v.servings == ShownNumber(recipe.servings)
    ensures v.about.Some? <==> Truthy(recipe.summary)
    ensures v.about.Some? ==> v.about.value == CleanSummary(recipe.summary.value)
    ensures v.about.Some? ==> |v.about.value| <= SummaryLimit + 3 && NoMarkup(v.about.value)
    ensures v.diets.Some? <==> recipe.diets.Some? && |recipe.diets.value| > 0
    ensures v.diets.Some? ==> v.diets.value == Join(recipe.diets.value, ", ")
    ensures v.ingredients.NoIngredientInformation? <==> recipe.extendedIngredients.None?
    ensures v.ingredients.Originals? ==> v.ingredients.lines == recipe.extendedIngredients.value
    ensures v.instructions == ChooseInstructions(recipe.analyzedInstructions, recipe.instructions)
    ensures v.source.Some? <==> Truthy(recipe.sourceUrl)
    ensures v.source.Some? ==> v.source == recipe.sourceUrl
  {
    DetailView(
      recipe.title,
      recipe.image,
      ShownNumber(recipe.readyInMinutes),
      ShownNumber(recipe.servings),
      if recipe.diets.Some? && |recipe.diets.value| > 0 then Some(Join(recipe.diets.value, ", ")) else None,
      if Truthy(recipe.summary) then Some(CleanSummary(recipe.summary.value)) else None,
      if recipe.extendedIngredients.Some? then Originals(recipe.extendedIngredients.value)
      else NoIngredientInformation,
      ChooseInstructions(recipe.analyzedInstructions, recipe.instructions),
      if Truthy(recipe.sourceUrl) then recipe.sourceUrl else None)
  }
}
