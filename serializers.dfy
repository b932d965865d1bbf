/** The recipe and user serializers: the validation of a recipe's ingredient list, the
    replacement of a recipe's fields, tags and ingredient rows on update (and their
    creation on create), the reserved username, and the read-only fields computed for
    users and recipes. */
module Serializers {
  import opened Wrappers
  import opened Tables
  import opened Text
  import opened UserModels
  import opened RecipeModels
  import opened Database

  /** One element of the request's `ingredients` list: an ingredient id and an amount. */
  datatype IngredientItem = IngredientItem(id: IngredientId, amount: int)

  /** Why a request body is refused. `IngredientNotFound` is the 404 raised from inside
      validation; the others are 400 validation errors. */
  datatype ValidationError =
    | NoIngredients
    | IngredientNotFound(id: IngredientId)
    | DuplicateIngredient
    | AmountOutOfRange
    | ReservedUsername
    | CookingTimeRequired

  /** The failure of slicing a query set with a negative bound (a server error). */
  datatype QueryError = NegativeIndexing

  /** The largest amount the serializer accepts; the model field itself allows 32000. */
  const MaxValidatedAmount: int := 31999

  /** No ingredient id occurs twice. */
  predicate DistinctIds(items: seq<IngredientItem>) {
    forall i, j :: 0 <= i < j < |items| ==> items[i].id != items[j].id
  }

  /** What validation promises of an accepted list: non-empty, every id an existing
      ingredient, no id repeated, every amount in 1..31999. */
  predicate ValidIngredients(catalog: set<IngredientId>, items: seq<IngredientItem>) {
    && |items| > 0
    && DistinctIds(items)
    && forall i :: 0 <= i < |items| ==>
         items[i].id in catalog && 1 <= items[i].amount <= MaxValidatedAmount
  }

  /** The error the validation loop raises at item `i`, checking in the loop's order:
      existence, then repetition of an earlier id, then the amount's range. */
  function ItemError(catalog: set<IngredientId>, items: seq<IngredientItem>, i: nat): Option<ValidationError>
    requires i < |items|
  {
    if items[i].id !in catalog then Some(IngredientNotFound(items[i].id))
    else if exists j :: 0 <= j < i && items[j].id == items[i].id then Some(DuplicateIngredient)
    else if items[i].amount <= 0 || items[i].amount >= 32000 then Some(AmountOutOfRange)
    else None
  }

  /** Item `k` is the first one the loop rejects. */
  predicate FirstFailure(catalog: set<IngredientId>, items: seq<IngredientItem>, k: nat) {
    && k < |items|
    && ItemError(catalog, items, k).Some?
    && forall j :: 0 <= j < k ==> ItemError(catalog, items, j).None?
  }

  /** `RecipeSerializer.validate` on the request's `ingredients` (`None` when absent). */
  method Validate(catalog: set<IngredientId>, ingredients: Option<seq<IngredientItem>>)
    returns (r: Result<seq<IngredientItem>, ValidationError>)
    ensures ingredients.None? || ingredients.value == [] ==> r == Err(NoIngredients)
    ensures r.Ok? <==> ingredients.Some? && ValidIngredients(catalog, ingredients.value)
    ensures r.Ok? ==> r.value == ingredients.value
    ensures r.Err? && ingredients.Some? && ingredients.value != [] ==>
              exists k :: FirstFailure(catalog, ingredients.value, k) &&
                          ItemError(catalog, ingredients.value, k) == Some(r.error)
  {
    if ingredients.None? || ingredients.value == [] {
      return Err(NoIngredients);
    }
    var items := ingredients.value;
    var seen: set<IngredientId> := {};
    for i := 0 to |items|
      invariant seen == set j | 0 <= j < i :: items[j].id
      invariant forall j :: 0 <= j < i ==> ItemError(catalog, items, j).None?
    {
      var item := items[i];
      if item.id !in catalog {
        assert FirstFailure(catalog, items, i);
        return Err(IngredientNotFound(item.id));
      }
      if item.id in seen {
        assert FirstFailure(catalog, items, i);
        return Err(DuplicateIngredient);
      }
      seen := seen + {item.id};
      if item.amount <= 0 || item.amount >= 32000 {
        assert FirstFailure(catalog, items, i);
        return Err(AmountOutOfRange);
      }
    }
    ValidIngredientsIffNoFailure(catalog, items);
    return Ok(items);
  }

  /** A list is accepted exactly when no item fails: the loop's item-by-item checks and
      the declarative description agree. */
  lemma ValidIngredientsIffNoFailure(catalog: set<IngredientId>, items: seq<IngredientItem>)
    requires |items| > 0
    ensures ValidIngredients(catalog, items) <==>
            forall k :: 0 <= k < |items| ==> ItemError(catalog, items, k).None?
  {
    if forall k :: 0 <= k < |items| ==> ItemError(catalog, items, k).None? {
      forall i, j | 0 <= i < j < |items| ensures items[i].id != items[j].id {
        assert ItemError(catalog, items, j).None?;
      }
      forall i | 0 <= i < |items|
        ensures items[i].id in catalog && 1 <= items[i].amount <= MaxValidatedAmount
      {
        assert ItemError(catalog, items, i).None?;
      }
    }
  }

  /** The fields of a create or update request other than tags and ingredients; `None`
      where the request leaves a field out. */
  datatype RecipeInput = RecipeInput(
    image: Option<string>,
    name: Option<string>,
    text: Option<string>,
    cookingTime: Option<int>)

  /** The field-level validation the serializer applies to the input: a name of at most
      200 characters and a cooking time in 1..600. */
  predicate InputValid(input: RecipeInput) {
    && (input.name.Some? ==> |input.name.value| <= CharFieldMaxLength)
    && (input.cookingTime.Some? ==> MinCookingTime <= input.cookingTime.value <= MaxCookingTime)
  }

  /** `validated_data.get(key, current)`. */
  function GetOr<T>(field: Option<T>, current: T): T {
    if field.Some? then field.value else current
  }

  /** The recipe after `update`: each scalar field present in the input replaced, each
      absent one kept, and the tags replaced. */
  function Updated(r: Recipe, input: RecipeInput, tags: set<TagId>): Recipe {
    Recipe(
      r.author,
      GetOr(input.name, r.name),
      if input.image.Some? then input.image else r.image,
      GetOr(input.text, r.text),
      tags,
      GetOr(input.cookingTime, r.cookingTime))
  }

  /** `create_ingredients`: one amount row per item of the list, in order. */
  function RowsFor(id: RecipeId, items: seq<IngredientItem>): (r: seq<AmountRow>)
    ensures |r| == |items|
    ensures forall i :: 0 <= i < |r| ==> r[i] == AmountRow(id, items[i].id, items[i].amount)
  {
    seq(|items|, i requires 0 <= i < |items| => AmountRow(id, items[i].id, items[i].amount))
  }

  /** The amount rows of recipe `id`. */
  function OfRecipe(id: RecipeId): AmountRow -> bool {
    (row: AmountRow) => row.recipe == id
  }

  /** The amount rows of every other recipe. */
  function NotOfRecipe(id: RecipeId): AmountRow -> bool {
    (row: AmountRow) => row.recipe != id
  }

  /** The rows created for a validated list are valid rows of recipe `id` with distinct
      ingredients; the serializer's 1..31999 lies inside the model's 1..32000. */
  lemma NewRowsValid(id: RecipeId, recipes: set<RecipeId>, catalog: set<IngredientId>, items: seq<IngredientItem>)
    requires ValidIngredients(catalog, items) && id in recipes
    ensures AmountsValid(RowsFor(id, items), recipes, catalog)
    ensures forall row :: row in RowsFor(id, items) ==> row.recipe == id
  {
    var rows := RowsFor(id, items);
    forall i, j | 0 <= i < j < |rows| ensures AmountKey(rows[i]) != AmountKey(rows[j]) {
      assert items[i].id != items[j].id;
    }
  }

  /** The serializer's bound is strictly narrower than the model's: an amount of 32000
      is a valid stored amount, yet a list carrying it is refused. */
  lemma AmountBoundStrictlyNarrower(catalog: set<IngredientId>, id: IngredientId)
    ensures MinAmount <= MaxAmount && MaxValidatedAmount < MaxAmount
    ensures !ValidIngredients(catalog, [IngredientItem(id, MaxAmount)])
  {
    var items := [IngredientItem(id, MaxAmount)];
    assert items[0].amount > MaxValidatedAmount;
  }

  /** Replacing the amount rows of one recipe by those of a validated list, keeping the
      other recipes' rows, leaves a valid table. */
  lemma ReplacedRowsValid(rows: seq<AmountRow>, id: RecipeId, recipes: set<RecipeId>, catalog: set<IngredientId>, items: seq<IngredientItem>)
    requires AmountsValid(rows, recipes, catalog)
    requires ValidIngredients(catalog, items) && id in recipes
    ensures AmountsValid(Filter(rows, NotOfRecipe(id)) + RowsFor(id, items), recipes, catalog)
  {
    var kept := Filter(rows, NotOfRecipe(id));
    var added := RowsFor(id, items);
    FilterUniqueBy(rows, NotOfRecipe(id), AmountKey);
    NewRowsValid(id, recipes, catalog, items);
    var all := kept + added;
    forall i, j | 0 <= i < j < |all| ensures AmountKey(all[i]) != AmountKey(all[j]) {
      if j < |kept| {
        assert all[i] == kept[i] && all[j] == kept[j];
      } else if i >= |kept| {
        assert all[i] == added[i - |kept|] && all[j] == added[j - |kept|];
      } else {
        assert all[i] == kept[i] && all[j] == added[j - |kept|];
        assert NotOfRecipe(id)(kept[i]);
      }
    }
  }

  /** Each scalar field the input leaves out keeps the recipe's value, each one it
      gives replaces it; the author is kept and the tags become exactly `tags`. */
  lemma UpdatedFields(r: Recipe, input: RecipeInput, tags: set<TagId>)
    ensures var u := Updated(r, input, tags);
            && u.author == r.author
            && u.tags == tags
            && (input.name.None? ==> u.name == r.name)
            && (input.name.Some? ==> u.name == input.name.value)
            && (input.image.None? ==> u.image == r.image)
            && (input.image.Some? ==> u.image == input.image)
            && (input.text.None? ==> u.text == r.text)
            && (input.text.Some? ==> u.text == input.text.value)
            && (input.cookingTime.None? ==> u.cookingTime == r.cookingTime)
            && (input.cookingTime.Some? ==> u.cookingTime == input.cookingTime.value)
  {
  }

  /** Creating recipe `id` gives it exactly the rows of the validated list, since no row
      of a recipe not yet stored exists. */
  lemma CreatedRows(amounts: seq<AmountRow>, recipes: set<RecipeId>, catalog: set<IngredientId>, id: RecipeId, items: seq<IngredientItem>)
    requires AmountsValid(amounts, recipes, catalog) && id !in recipes
    ensures Filter(amounts + RowsFor(id, items), OfRecipe(id)) == RowsFor(id, items)
    ensures Filter(amounts + RowsFor(id, items), NotOfRecipe(id)) == amounts
  {
    FilterAppend(amounts, RowsFor(id, items), OfRecipe(id));
    FilterAppend(amounts, RowsFor(id, items), NotOfRecipe(id));
    FilterDropsAll(amounts, OfRecipe(id));
    FilterKeepsAll(RowsFor(id, items), OfRecipe(id));
    FilterKeepsAll(amounts, NotOfRecipe(id));
    FilterDropsAll(RowsFor(id, items), NotOfRecipe(id));
    assert [] + RowsFor(id, items) == RowsFor(id, items);
    assert amounts + [] == amounts;
  }

  /** Updating recipe `id` keeps every constraint of the database. */
  lemma RecipeReplacement(
    users: map<UserId, User>, follows: seq<Subscription>,
    tags: map<TagId, Tag>, ingredients: map<IngredientId, Ingredient>,
    recipes: map<RecipeId, Recipe>, amounts: seq<AmountRow>,
    favorites: seq<Link>, cart: seq<Link>,
    id: RecipeId, input: RecipeInput, tagIds: set<TagId>, items: seq<IngredientItem>)
    requires Consistent(users, follows, tags, ingredients, recipes, amounts, favorites, cart)
    requires id in recipes && InputValid(input) && tagIds <= tags.Keys
    requires ValidIngredients(ingredients.Keys, items)
    ensures Consistent(users, follows, tags, ingredients,
                       recipes[id := Updated(recipes[id], input, tagIds)],
                       Filter(amounts, NotOfRecipe(id)) + RowsFor(id, items),
                       favorites, cart)
  {
    var recipes' := recipes[id := Updated(recipes[id], input, tagIds)];
    assert recipes'.Keys == recipes.Keys;
    ReplacedRowsValid(amounts, id, recipes.Keys, ingredients.Keys, items);
    assert RecipesValid(recipes', users.Keys, tags.Keys);
  }

  /** In a table of rows of other recipes followed by rows of recipe `id`, the rows of
      `id` are the second part and the rows of the other recipes the first. */
  lemma SplitReplacedRows(rows: seq<AmountRow>, id: RecipeId, items: seq<IngredientItem>)
    ensures var all := Filter(rows, NotOfRecipe(id)) + RowsFor(id, items);
            && Filter(all, OfRecipe(id)) == RowsFor(id, items)
            && Filter(all, NotOfRecipe(id)) == Filter(rows, NotOfRecipe(id))
  {
    var kept := Filter(rows, NotOfRecipe(id));
    var added := RowsFor(id, items);
    FilterAppend(kept, added, OfRecipe(id));
    FilterAppend(kept, added, NotOfRecipe(id));
    FilterDropsAll(kept, OfRecipe(id));
    FilterKeepsAll(added, OfRecipe(id));
    FilterKeepsAll(kept, NotOfRecipe(id));
    FilterDropsAll(added, NotOfRecipe(id));
    assert kept + [] == kept;
    assert [] + added == added;
  }

  /** `RecipeSerializer.update`: the scalar fields present in the input replace the
      recipe's, absent ones are kept; the tags become exactly `tagIds`; the recipe's
      amount rows are replaced by one row per validated item (`SplitReplacedRows`: they
      are then exactly those rows, and the other recipes' rows are as before); nothing
      else changes. */
  method UpdateRecipe(db: Store, id: RecipeId, input: RecipeInput, tagIds: set<TagId>, items: seq<IngredientItem>)
    requires db.Valid() && id in db.recipes
    requires InputValid(input) && tagIds <= db.tags.Keys
    requires ValidIngredients(db.ingredients.Keys, items)
    modifies db`recipes, db`amounts
    ensures db.Valid()
    ensures db.recipes == old(db.recipes)[id := Updated(old(db.recipes)[id], input, tagIds)]
    ensures db.amounts == Filter(old(db.amounts), NotOfRecipe(id)) + RowsFor(id, items)
  {
    var recipes, amounts := db.recipes, db.amounts;
    RecipeReplacement(db.users, db.follows, db.tags, db.ingredients, recipes, amounts,
                      db.favorites, db.cart, id, input, tagIds, items);
    var updated := Updated(recipes[id], input, tagIds);
    db.recipes, db.amounts := recipes[id := updated], Filter(amounts, NotOfRecipe(id)) + RowsFor(id, items);
  }

  /** Creating recipe `id` keeps every constraint of the database. */
  lemma RecipeCreation(
    users: map<UserId, User>, follows: seq<Subscription>,
    tags: map<TagId, Tag>, ingredients: map<IngredientId, Ingredient>,
    recipes: map<RecipeId, Recipe>, amounts: seq<AmountRow>,
    favorites: seq<Link>, cart: seq<Link>,
    id: RecipeId, recipe: Recipe, items: seq<IngredientItem>)
    requires Consistent(users, follows, tags, ingredients, recipes, amounts, favorites, cart)
    requires id !in recipes && RecipeValid(recipe, users.Keys, tags.Keys)
    requires ValidIngredients(ingredients.Keys, items)
    ensures Consistent(users, follows, tags, ingredients, recipes[id := recipe],
                       amounts + RowsFor(id, items), favorites, cart)
  {
    var recipes' := recipes[id := recipe];
    var added := RowsFor(id, items);
    NewRowsValid(id, recipes'.Keys, ingredients.Keys, items);
    var all := amounts + added;
    forall i, j | 0 <= i < j < |all| ensures AmountKey(all[i]) != AmountKey(all[j]) {
      if j < |amounts| {
        assert all[i] == amounts[i] && all[j] == amounts[j];
      } else if i >= |amounts| {
        assert all[i] == added[i - |amounts|] && all[j] == added[j - |amounts|];
      } else {
        assert all[i] == amounts[i] && all[j] == added[j - |amounts|];
        assert amounts[i] in amounts;
      }
    }
    assert AmountsValid(amounts, recipes'.Keys, ingredients.Keys);
    assert LinksValid(favorites, users.Keys, recipes'.Keys);
    assert LinksValid(cart, users.Keys, recipes'.Keys);
  }

  /** The recipe row `Recipe.objects.create` stores: the request's fields, and the cooking
      time the request gives or else the field's default. */
  function CreatedRecipe(author: UserId, name: string, image: Option<string>, text: string,
                         tagIds: set<TagId>, cookingTime: Option<int>): Recipe {
    Recipe(author, name, image, text, tagIds, GetOr(cookingTime, DefaultCookingTime))
  }

  /** The cooking time is optional on create because the model field has a default, and
      the default lies below the validators' minimum: a create request without it stores
      a recipe no request could have set, yet one the schema accepts. */
  lemma OmittedCookingTimeCounterexample(author: UserId, users: set<UserId>)
    requires author in users
    ensures var r := CreatedRecipe(author, "soup", None, "text", {}, None);
            && r.cookingTime == 0
            && r.cookingTime < MinCookingTime
            && RecipeValid(r, users, {})
  {
  }

  /** The create the validators evidently intend: a request without a cooking time is
      refused, so every created recipe has a cooking time in 1..600. */
  function CreatedRecipeRequiringCookingTime(author: UserId, name: string, image: Option<string>, text: string,
                                             tagIds: set<TagId>, cookingTime: Option<int>): (r: Result<Recipe, ValidationError>)
    requires cookingTime.Some? ==> MinCookingTime <= cookingTime.value <= MaxCookingTime
    ensures r.Err? <==> cookingTime.None?
    ensures r.Err? ==> r.error == CookingTimeRequired
    ensures r.Ok? ==> r.value == CreatedRecipe(author, name, image, text, tagIds, cookingTime)
    ensures r.Ok? ==> MinCookingTime <= r.value.cookingTime <= MaxCookingTime
  {
    if cookingTime.None? then Err(CookingTimeRequired)
    else Ok(Recipe(author, name, image, text, tagIds, cookingTime.value))
  }

  /** `perform_create` with `RecipeSerializer.create`: a new recipe by the requesting
      user with the given fields and tags, the cooking time defaulting to 0 when the
      request leaves it out, and one amount row per validated item. */
  method CreateRecipe(db: Store, author: UserId, id: RecipeId, image: Option<string>, name: string, text: string,
                      cookingTime: Option<int>, tagIds: set<TagId>, items: seq<IngredientItem>)
    requires db.Valid() && author in db.users && id !in db.recipes
    requires |name| <= CharFieldMaxLength
    requires cookingTime.Some? ==> MinCookingTime <= cookingTime.value <= MaxCookingTime
    requires tagIds <= db.tags.Keys
    requires ValidIngredients(db.ingredients.Keys, items)
    modifies db`recipes, db`amounts
    ensures db.Valid()
    ensures db.recipes == old(db.recipes)[id := CreatedRecipe(author, name, image, text, tagIds, cookingTime)]
    ensures cookingTime.None? ==> db.recipes[id].cookingTime == DefaultCookingTime
    ensures db.amounts == old(db.amounts) + RowsFor(id, items)
  {
    var recipe := CreatedRecipe(author, name, image, text, tagIds, cookingTime);
    RecipeCreation(db.users, db.follows, db.tags, db.ingredients, db.recipes, db.amounts,
                   db.favorites, db.cart, id, recipe, items);
    db.recipes, db.amounts := db.recipes[id := recipe], db.amounts + RowsFor(id, items);
  }

  // ---------------------------------------------------------------------------------
  // Users

  /** `CustomUserCreateSerializer.validate_username`: "me" in any letter case is refused. */
  function ValidateUsername(value: string): (r: Result<string, ValidationError>)
    ensures r.Ok? ==> r.value == value
    ensures r.Err? ==> r.error == ReservedUsername
  {
    if Lower(value) == "me" then Err(ReservedUsername) else Ok(value)
  }

  /** Exactly the four spellings of "me" are refused, although the `User` model itself
      would accept each of them. */
  lemma ReservedUsernames(value: string)
    ensures ValidateUsername(value).Err? <==> value in {"me", "Me", "mE", "ME"}
    ensures value in {"me", "Me", "mE", "ME"} ==> UsernameValid(value)
  {
    if Lower(value) == "me" {
      assert |value| == 2;
      assert Lower(value)[0] == LowerChar(value[0]) && Lower(value)[1] == LowerChar(value[1]);
      assert LowerChar(value[0]) == 'm' && LowerChar(value[1]) == 'e';
      assert value == [value[0], value[1]];
    }
    if value in {"me", "Me", "mE", "ME"} {
      assert Lower(value) == [LowerChar(value[0]), LowerChar(value[1])];
      assert IsUsernameChar(value[0]) && IsUsernameChar(value[1]);
    }
  }

  /** `CustomUserSerializer.get_is_subscribed` as written: for an authenticated user,
      whether they follow anybody at all; the user shown, `obj`, plays no part. */
  predicate IsSubscribedAsWritten(follows: seq<Subscription>, user: Option<UserId>, obj: UserId) {
    user.Some? && exists f :: f in follows && f.user == user.value
  }

  /** Whether the requesting user follows `obj`: the intended meaning of the field. */
  predicate IsSubscribed(follows: seq<Subscription>, user: Option<UserId>, obj: UserId) {
    user.Some? && Subscription(user.value, obj) in follows
  }

  /** The as-written field is true whenever the intended one is, and is the same for
      every user shown. */
  lemma IsSubscribedAsWrittenOverApproximates(follows: seq<Subscription>, user: Option<UserId>, obj: UserId, other: UserId)
    ensures IsSubscribed(follows, user, obj) ==> IsSubscribedAsWritten(follows, user, obj)
    ensures IsSubscribedAsWritten(follows, user, obj) == IsSubscribedAsWritten(follows, user, other)
  {
    if IsSubscribed(follows, user, obj) {
      assert Subscription(user.value, obj).user == user.value;
    }
  }

  /** A user who follows only author 2 is shown as subscribed to author 3. */
  lemma IsSubscribedCounterexample()
    ensures IsSubscribedAsWritten([Subscription(1, 2)], Some(1), 3)
    ensures !IsSubscribed([Subscription(1, 2)], Some(1), 3)
  {
    assert Subscription(1, 2) in [Subscription(1, 2)];
  }

  /** `SubscribeSerializer.get_recipes`: the author's recipes, cut to the first
      `recipeLimit` when one is given; a negative limit makes the query fail. */
  function GetRecipes(listing: seq<RecipeId>, recipeLimit: Option<int>): (r: Result<seq<RecipeId>, QueryError>)
    ensures r.Err? <==> recipeLimit.Some? && recipeLimit.value < 0
    ensures r.Ok? ==> r.value <= listing
    ensures r.Ok? && recipeLimit.None? ==> r.value == listing
    ensures r.Ok? && recipeLimit.Some? ==>
              |r.value| == if recipeLimit.value < |listing| then recipeLimit.value else |listing|
  {
    if recipeLimit.None? then Ok(listing)
    else if recipeLimit.value < 0 then Err(NegativeIndexing)
    else if recipeLimit.value < |listing| then Ok(listing[..recipeLimit.value])
    else Ok(listing)
  }

  /** The recipes whose author is `author`. */
  function AuthorRecipes(recipes: map<RecipeId, Recipe>, author: UserId): set<RecipeId> {
    set id | id in recipes && recipes[id].author == author
  }

  /** `SubscribeSerializer.get_recipes_count`: how many recipes the author has. */
  function GetRecipesCount(recipes: map<RecipeId, Recipe>, author: UserId): nat {
    |AuthorRecipes(recipes, author)|
  }

  /** When `listing` enumerates the author's recipes, the count is its length whatever
      the limit, and the limited list has `min(limit, count)` of them. */
  lemma RecipesCountIgnoresLimit(recipes: map<RecipeId, Recipe>, author: UserId, listing: seq<RecipeId>, limit: nat)
    requires NoDup(listing)
    requires forall id :: id in listing <==> id in recipes && recipes[id].author == author
    ensures GetRecipesCount(recipes, author) == |listing|
    ensures |GetRecipes(listing, Some(limit)).value| ==
            if limit < GetRecipesCount(recipes, author) then limit else GetRecipesCount(recipes, author)
  {
    NoDupCardinality(listing);
    assert Elements(listing) == AuthorRecipes(recipes, author);
  }

  /** `RecipeSerializer.get_is_favorited` and `get_is_in_shopping_cart`: false for an
      anonymous user (`None`), else whether the user has marked the recipe. */
  predicate IsMarked(links: seq<Link>, user: Option<UserId>, recipe: RecipeId) {
    user.Some? && Link(user.value, recipe) in links
  }
}
