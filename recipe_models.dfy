/** The recipe schema: tags, ingredients, recipes, the per-recipe ingredient amounts
    and the favourite and shopping-cart join tables, with their field bounds and unique
    constraints as predicates over table contents. */
module RecipeModels {
  import opened Wrappers
  import opened Tables
  import opened UserModels

  type TagId = nat
  type IngredientId = nat
  type RecipeId = nat

  datatype Tag = Tag(name: string, color: string, slug: string)

  datatype Ingredient = Ingredient(name: string, measurementUnit: string)

  /** A recipe row with its tag set (the `tags` many-to-many relation). */
  datatype Recipe = Recipe(
    author: UserId,
    name: string,
    image: Option<string>,
    text: string,
    tags: set<TagId>,
    cookingTime: int)

  /** One `IngredientsAmount` row: how much of an ingredient a recipe needs. */
  datatype AmountRow = AmountRow(recipe: RecipeId, ingredient: IngredientId, amount: int)

  /** One `Favorite` or `ShoppingCart` row: `user` has marked `recipe`. */
  datatype Link = Link(user: UserId, recipe: RecipeId)

  const CharFieldMaxLength: nat := 200
  const ColorMaxLength: nat := 7
  const MinCookingTime: int := 1
  const MaxCookingTime: int := 600
  /** The field's `default`, stored when a create request leaves the cooking time out. */
  const DefaultCookingTime: int := 0
  const MinAmount: int := 1
  const MaxAmount: int := 32000

  /** One character of the slug class `[-a-zA-Z0-9_]`. */
  predicate IsSlugChar(c: char) {
    'a' <= c <= 'z' || 'A' <= c <= 'Z' || '0' <= c <= '9' || c == '_' || c == '-'
  }

  predicate TagValid(t: Tag) {
    && |t.name| <= CharFieldMaxLength
    && |t.color| <= ColorMaxLength
    && 0 < |t.slug| <= CharFieldMaxLength
    && (forall i :: 0 <= i < |t.slug| ==> IsSlugChar(t.slug[i]))
  }

  /** The `Tag` table: every row valid; name, color and slug each unique. */
  predicate TagsValid(tags: map<TagId, Tag>) {
    && (forall id :: id in tags ==> TagValid(tags[id]))
    && (forall a, b :: a in tags && b in tags && a != b ==>
          && tags[a].name != tags[b].name
          && tags[a].color != tags[b].color
          && tags[a].slug != tags[b].slug)
  }

  /** The `Ingredient` table: bounded fields, and `(name, measurement_unit)` unique. */
  predicate IngredientsValid(ingredients: map<IngredientId, Ingredient>) {
    && (forall id :: id in ingredients ==>
          |ingredients[id].name| <= CharFieldMaxLength
          && |ingredients[id].measurementUnit| <= CharFieldMaxLength)
    && (forall a, b :: a in ingredients && b in ingredients && a != b ==>
          ingredients[a] != ingredients[b])
  }

  /** One recipe row: an existing author and tags, a bounded name, and a cooking time
      of at most 600 minutes. The validators' lower bound of 1 applies only to a value
      a request supplies; the default 0 is stored without them. */
  predicate RecipeValid(r: Recipe, users: set<UserId>, tags: set<TagId>) {
    && r.author in users
    && |r.name| <= CharFieldMaxLength
    && DefaultCookingTime <= r.cookingTime <= MaxCookingTime
    && r.tags <= tags
  }

  predicate RecipesValid(recipes: map<RecipeId, Recipe>, users: set<UserId>, tags: set<TagId>) {
    forall id :: id in recipes ==> RecipeValid(recipes[id], users, tags)
  }

  /** The key of the constraint `unique ingredient for recipe`. */
  function AmountKey(row: AmountRow): (RecipeId, IngredientId) {
    (row.recipe, row.ingredient)
  }

  /** The `IngredientsAmount` table: existing recipe and ingredient, an amount in
      1..32000, and at most one row per recipe and ingredient. */
  predicate AmountsValid(rows: seq<AmountRow>, recipes: set<RecipeId>, ingredients: set<IngredientId>) {
    && (forall row :: row in rows ==>
          row.recipe in recipes && row.ingredient in ingredients
          && MinAmount <= row.amount <= MaxAmount)
    && UniqueBy(rows, AmountKey)
  }

  /** The `Favorite` or `ShoppingCart` table: existing user and recipe, and at most one
      row per user and recipe (`unique_favourite`, `unique_shopping_cart`). */
  predicate LinksValid(links: seq<Link>, users: set<UserId>, recipes: set<RecipeId>) {
    && NoDup(links)
    && (forall l :: l in links ==> l.user in users && l.recipe in recipes)
  }

  /** The recipes that remain once user `author` is deleted (`on_delete=CASCADE` on
      `Recipe.author`). */
  function RecipesNotBy(recipes: map<RecipeId, Recipe>, author: UserId): (r: map<RecipeId, Recipe>)
    ensures forall id :: id in r <==> id in recipes && recipes[id].author != author
    ensures forall id :: id in r ==> r[id] == recipes[id]
  {
    map id | id in recipes && recipes[id].author != author :: recipes[id]
  }

  /** The amount rows that `on_delete=CASCADE` keeps once only `recipes` remain. */
  function AmountWithin(recipes: set<RecipeId>): AmountRow -> bool {
    (row: AmountRow) => row.recipe in recipes
  }

  /** The favourite or cart rows that `on_delete=CASCADE` keeps once only `users` and
      `recipes` remain. */
  function LinkWithin(users: set<UserId>, recipes: set<RecipeId>): Link -> bool {
    (l: Link) => l.user in users && l.recipe in recipes
  }

  /** Cascading a recipe deletion leaves a valid amount table that holds exactly the
      rows of the other recipes. */
  lemma AmountsAfterDelete(rows: seq<AmountRow>, recipes: set<RecipeId>, ingredients: set<IngredientId>, kept: set<RecipeId>)
    requires AmountsValid(rows, recipes, ingredients)
    requires kept <= recipes
    ensures var rest := Filter(rows, AmountWithin(kept));
            && AmountsValid(rest, kept, ingredients)
            && (forall row :: row in rest <==> row in rows && row.recipe in kept)
  {
    FilterUniqueBy(rows, AmountWithin(kept), AmountKey);
  }

  /** Cascading user or recipe deletions leaves a valid join table that holds exactly
      the rows whose user and recipe both remain. */
  lemma LinksAfterDelete(links: seq<Link>, users: set<UserId>, recipes: set<RecipeId>, keptUsers: set<UserId>, keptRecipes: set<RecipeId>)
    requires LinksValid(links, users, recipes)
    requires keptUsers <= users && keptRecipes <= recipes
    ensures var rest := Filter(links, LinkWithin(keptUsers, keptRecipes));
            && LinksValid(rest, keptUsers, keptRecipes)
            && (forall l :: l in rest <==> l in links && l.user in keptUsers && l.recipe in keptRecipes)
  {
    FilterNoDup(links, LinkWithin(keptUsers, keptRecipes));
  }

  /** Deleting recipe `id` removes exactly its favourite or cart rows. */
  lemma LinksAfterRecipeDelete(links: seq<Link>, users: set<UserId>, recipes: map<RecipeId, Recipe>, id: RecipeId)
    requires LinksValid(links, users, recipes.Keys)
    ensures var rest := Filter(links, LinkWithin(users, (recipes - {id}).Keys));
            && LinksValid(rest, users, (recipes - {id}).Keys)
            && (forall l :: l in rest <==> l in links && l.recipe != id)
  {
    LinksAfterDelete(links, users, recipes.Keys, users, (recipes - {id}).Keys);
  }
}
