# Foodgram backend core, modelled in Dafny

Foodgram is a recipe-sharing REST backend (Django and Django REST framework). Users publish recipes with tags and ingredient amounts. They follow authors, mark recipes as favourites, put recipes in a shopping cart, and download a shopping list that sums the ingredients of the recipes in their cart.

This project models the logic underneath the framework. The database is one object, `Database.Store`, with one field per table:

- users and subscriptions;
- tags and ingredients;
- recipes, with their tag sets;
- the per-recipe ingredient amounts;
- the favourite and shopping-cart join tables.

The field bounds, foreign keys and unique constraints of the schema form the store's invariant, `Valid()`. Two bounds in it differ from the validators as written:

- Usernames are held to the corrected character class (`UserModels.UsernameValid`, anchored at the very end). The validator as written also accepts a trailing newline (see "## Findings").
- Cooking times are bounded by 0..600, not the validators' 1..600, because a create request without a cooking time stores the field's default 0 (see "## Findings").

The operations over the store are these:

- the view actions that change it, and the `on_delete=CASCADE` deletions;
- the serializer's validation and its create and update;
- the read-only serializer fields;
- the query filters;
- the shopping-list aggregation.

Modules, one per source file or concern:

- `Wrappers`: `Option` and `Result`.
- `Tables`: rows as sequences. Uniqueness (`NoDup`, `UniqueBy`), `Filter`, and the lemmas about filtering that the deletions and updates need.
- `Text`: character classes, case folding, substring tests and decimal rendering.
- `UserModels`: the user schema and the username validator (`backend/users/models.py`).
- `RecipeModels`: the recipe schema (`backend/recipes/models.py`).
- `Database`: the store, its invariant and the cascading deletions.
- `Serializers`: `backend/api/serializers.py`.
- `Filters`: `backend/api/filters.py`.
- `ShoppingList`: the query, the grouping and the dictionary fold of `download_shopping_cart`.
- `Views`: the actions of `backend/api/views.py`.

The view actions take the request's verb, user and path parameter as arguments. They return a `Status` (201, 204, 400, 404, or 500 for an exception raised while the response is built) and change only the tables named in their `modifies` clause. In the serializer fields and the filters, an anonymous requesting user is `None`.

## Model

| member | source | states |
|---|---|---|
| UserModels.UsernameRegexAdmitsNewline | backend/users/models.py:12-15 | The username regex `^[\w.@+-]+$` as written accepts exactly the intended usernames, plus those usernames followed by one newline. |
| UserModels.UsernameNewlineCounterexample | backend/users/models.py:13 | `"bob\n"` passes the as-written regex although its last character is outside `[\w.@+-]`. |
| UserModels.UsernameValidCharacters | backend/users/models.py:10-16 | A valid username is non-empty, has at most 150 characters, and contains no newline, space or slash. |
| UserModels.DeleteUserSubscriptions | backend/users/models.py:39-59 | Deleting a user cascades to every subscription where they are follower or author. It keeps all others, and the table stays free of duplicate (user, author) pairs. |
| RecipeModels.RecipesNotBy | backend/recipes/models.py:58-63 | The recipes left after an author is deleted: exactly those by other authors, with unchanged contents. |
| RecipeModels.AmountsAfterDelete | backend/recipes/models.py:122-157 | Cascading recipe deletions to the amount table keeps exactly the rows of the remaining recipes. The table stays valid, including the 1..32000 bound and the unique (recipe, ingredient) constraint. |
| RecipeModels.LinksAfterDelete | backend/recipes/models.py:163-216 | Cascading user or recipe deletions to a favourite or cart table keeps exactly the rows whose user and recipe both remain. At most one row per (user, recipe) remains. |
| RecipeModels.LinksAfterRecipeDelete | backend/recipes/models.py:171-176 | Deleting a recipe removes exactly its favourite or cart rows. |
| Database.RecipeDeletion | backend/recipes/models.py:122-126 | Deleting a recipe and its dependent amount, favourite and cart rows keeps every schema constraint. It removes exactly the rows that refer to the recipe. |
| Database.UserDeletion | backend/users/models.py:39-50 | Deleting a user cascades to their subscriptions, their recipes and those recipes' rows, and keeps every schema constraint. |
| Database.Store.DeleteRecipe | backend/recipes/models.py:122-126 | Deleting a recipe removes it and exactly its amount, favourite and cart rows. The invariant is kept and no other table changes. |
| Database.Store.DeleteUser | backend/users/models.py:39-50 | Deleting a user removes them, their subscriptions in either role, their recipes, and the rows of those recipes or of that user. No recipe by them remains, and the invariant is kept. |
| Serializers.Validate | backend/api/serializers.py:153-176 | A missing or empty list gives `NoIngredients`. The result is Ok iff the list is non-empty, every id exists, no id repeats, and every amount is in 1..31999. On Ok the list is returned unchanged. Otherwise the error is the one for the first failing item: unknown id (404), then repetition, then the amount range. |
| Serializers.ValidIngredientsIffNoFailure | backend/api/serializers.py:160-174 | The loop's item-by-item checks accept exactly the lists the declarative condition describes. |
| Serializers.AmountBoundStrictlyNarrower | backend/api/serializers.py:170 | 32000 is a valid stored amount (model bound 1..32000), yet a list carrying it is refused. |
| Serializers.NewRowsValid | backend/api/serializers.py:178-186 | The rows `create_ingredients` makes from a validated list belong to the recipe, respect the model's amount bound, and have distinct ingredients. |
| Serializers.ReplacedRowsValid | backend/api/serializers.py:209-210 | Deleting a recipe's amount rows and creating the new ones keeps the amount table valid. |
| Serializers.UpdatedFields | backend/api/serializers.py:200-208 | After update, each scalar field absent from the input keeps its value, each present one is replaced, the author is kept, and the tags are exactly the given tags. |
| Serializers.SplitReplacedRows | backend/api/serializers.py:209-210 | After the replacement, the recipe's amount rows are exactly one row per supplied item, and the other recipes' rows are as before. |
| Serializers.RecipeReplacement | backend/api/serializers.py:198-212 | An update keeps every schema constraint of the database. |
| Serializers.UpdateRecipe | backend/api/serializers.py:198-212 | The recipe becomes `Updated(old, input, tags)` and its amount rows are replaced by the supplied list. The invariant is kept, and only the recipe and amount tables change. |
| Serializers.CreatedRows | backend/api/serializers.py:188-196 | A newly created recipe has exactly the rows of its validated list, and the existing rows are untouched. |
| Serializers.RecipeCreation | backend/api/serializers.py:188-196 | Creating a recipe with valid fields, stored tags and a validated list keeps every schema constraint. |
| Serializers.CreateRecipe | backend/api/serializers.py:188-196 | `perform_create` plus `create`: the new recipe is stored with the requesting user as author and one amount row per item. A request without a cooking time stores the default 0. The invariant is kept. |
| Serializers.OmittedCookingTimeCounterexample | backend/recipes/models.py:91-104 | A create request without a cooking time stores a recipe whose cooking time is 0, below the validators' minimum of 1. The schema still accepts it. |
| Serializers.CreatedRecipeRequiringCookingTime | backend/recipes/models.py:94-98 | The intended create refuses a request without a cooking time (`CookingTimeRequired`). Every recipe it creates has a cooking time in 1..600 and otherwise equals what `create` stores. |
| Serializers.ValidateUsername | backend/api/serializers.py:39-43 | An accepted username is returned unchanged; a refusal is always `ReservedUsername`. |
| Serializers.ReservedUsernames | backend/api/serializers.py:41 | Exactly "me", "Me", "mE" and "ME" are refused, and each of them would satisfy the model's username validator. |
| Serializers.IsSubscribedAsWrittenOverApproximates | backend/api/serializers.py:61-66 | The as-written `is_subscribed` is true whenever the user follows the shown user. Its value is the same for every shown user. |
| Serializers.IsSubscribedCounterexample | backend/api/serializers.py:66 | A user following only author 2 is reported as subscribed to author 3. |
| Serializers.GetRecipes | backend/api/serializers.py:79-87 | The result is a prefix of the author's recipes. Without a limit it is all of them; with limit n it has min(n, count) of them; a negative limit makes the query fail. |
| Serializers.RecipesCountIgnoresLimit | backend/api/serializers.py:83-91 | When the listing enumerates the author's recipes without repetition, `recipes_count` equals its length whatever the limit, and the limited list has min(limit, count) recipes. |
| Text.StartsWithContains | backend/api/filters.py:48-49 | A case-insensitive prefix match is a case-insensitive substring match. |
| Filters.NameFilterMembers | backend/api/filters.py:48-49 | `name_filter` keeps exactly the ingredients whose name contains the value, ignoring case. |
| Filters.NameFilterReorders | backend/api/filters.py:48-55 | The result is a reordering of the filtered query set: nothing added, lost or repeated. |
| Filters.NameFilterPrefixFirst | backend/api/filters.py:50-55 | Every ingredient whose name begins with the value precedes every ingredient whose name does not. |
| Filters.NameFilterNoDup | backend/api/filters.py:48-55 | A query set without duplicates gives a result without duplicates. |
| Filters.FilterMarked | backend/api/filters.py:22-34 | With a true value and an authenticated user, the result keeps exactly the recipes that user has favourited (or has in the cart). Otherwise the query set is returned unchanged. The result is always a sub-multiset of the input. |
| Filters.FilterAgreesWithField | backend/api/serializers.py:139-151 | With a true value, a recipe passes the filter exactly when `is_favorited` (or `is_in_shopping_cart`) is true for it. Both fields are false for anonymous users. |
| Filters.FiltersCommute | backend/api/filters.py:14-34 | Applying the favourite and cart filters in either order gives the same recipes in the same order. |
| ShoppingList.GroupSums | backend/api/views.py:176-180 | Grouping the cart rows by (name, unit) keeps every name's total and the grand total. |
| ShoppingList.GroupPairs | backend/api/views.py:178-180 | The groups carry exactly the (name, unit) pairs of the cart rows. |
| ShoppingList.GroupNames | backend/api/views.py:178-180 | Grouping keeps the set of ingredient names. |
| ShoppingList.CartRowsPositive | backend/recipes/models.py:134-146 | Every cart row carries a positive amount. |
| ShoppingList.SumNamePositive | backend/api/views.py:186-194 | With positive amounts, every name that occurs has a positive total. |
| ShoppingList.FoldKeys | backend/api/views.py:181-194 | The dictionary's keys are exactly the names seen, each listed once in iteration order. |
| ShoppingList.FoldAmounts | backend/api/views.py:186-189 | Each entry's amount is the sum of the amounts of all rows with its name. |
| ShoppingList.FoldUnits | backend/api/views.py:190-194 | Each entry keeps the unit of the first row seen with its name. |
| ShoppingList.FoldTotal | backend/api/views.py:181-194 | The entries' amounts add up to the amounts of all rows: nothing is lost or counted twice. |
| ShoppingList.Aggregate | backend/api/views.py:181-194 | The loop computes `Fold(rows)`: one entry per name, with the summed amount, the first-seen unit, no repeated key, and the total conserved. |
| ShoppingList.LineParses | backend/api/views.py:209-211 | A line reads back into its parts: the capitalized name, " - ", the decimal digits of the amount (which read back as the amount), a space, the unit and a full stop. |
| Tables.WithoutAppended | backend/api/views.py:137-156 | Inserting a row that is not present and then deleting it restores the table. |
| Views.Subscribe | backend/api/views.py:56-86 | An unknown author gives 404. POST gives 400 with no change if the pair exists; that check comes first. POST also gives 400 with no change when following oneself. Otherwise POST appends exactly (user, author) and gives 201. With a negative `recipe_limit` it gives 500 instead: rendering the author fails after the pair is stored. DELETE removes the pair with 204 if present, else gives 400 with no change. Only `Subscribe` changes, and the invariant holds. |
| Views.ToAddOrDelete | backend/api/views.py:132-156 | An unknown recipe gives 404. POST on a present pair gives 400 with no change, else appends exactly (user, recipe) with 201. DELETE removes the pair with 204 if present, else gives 400. Only the model's table changes, and `is_favorited` / `is_in_shopping_cart` then reflect the action. |
| Views.Favorite | backend/api/views.py:158-161 | The toggle acts on the `Favorite` table only; the cart is unchanged. |
| Views.ShoppingCart | backend/api/views.py:163-166 | The toggle acts on the `ShoppingCart` table only; the favourites are unchanged. |
| Views.PostThenDelete | backend/api/views.py:137-156 | A successful POST followed by DELETE gives 204 and restores both tables. |
| Views.SubscribeThenUnsubscribe | backend/api/views.py:62-86 | A successful subscribe followed by unsubscribe gives 204 and restores the `Subscribe` table. |
| Views.DrawLines | backend/api/views.py:205-212 | One line per dictionary entry, in insertion order. |
| Views.DownloadShoppingCart | backend/api/views.py:172-212 | Each name in the user's cart appears once. It carries the total of all its cart rows, a unit one of its rows carries, and a line from which that total reads back. The grand total is conserved. |

## Left out

- HTTP, routing, pagination, permissions and authentication are not modelled. Every action takes an authenticated, stored user. `backend/api/permissions.py` is not part of this model.
- Response bodies (the nested serializer output) are not modelled; only status codes are.
- PDF rendering is not modelled: fonts, page coordinates, the title line, and the module-global vertical position that persists across requests. Only the text of each line is modelled.
- `int()` on request strings is not modelled; the model takes integers. A non-numeric amount or id raises an error that becomes a server error. So does a non-numeric `recipe_limit`, and on a subscribe POST it does so after the subscription is stored, as the negative limit that `Views.Subscribe` models does.
- A request item missing its `id` or `amount` key is not modelled.
- The race between the existence check and the insert in the toggle actions is not modelled. The model is sequential, and the unique constraints are part of the invariant.
- Case folding, `capitalize()` and the regex class `\w` are modelled on ASCII letters, digits and the underscore only.
- Email address syntax is not modelled; only email uniqueness is.
- The SQL order of the grouped cart query is not specified. `ShoppingList.GroupByNameUnit` fixes first-appearance order, which decides which unit wins when one name has two units.
- If the ORM also groups by the model's default ordering (`recipe`), the query returns one row per recipe instead. The per-name totals are unaffected: `FoldAmounts` holds for any row sequence.
- `order_by('-startswith')` leaves the order inside each group to the database. `Filters.NameFilter` keeps query-set order within each group.
- The `tags` and `author` recipe filters are not modelled; they are framework-generated lookups.
- Deleting a tag or an ingredient is not modelled. The source exposes no deletion endpoint for them.
- Serializers.UpdateRecipe: requires a validated ingredient list and field values that passed field validation; in the source, `validate` and the field validators run before `update`. It also requires stored tag ids, which nothing in the source checks: `tags` is a read-only field read raw from the request. An unknown tag id, or a missing `tags` entry (`set(None)`), raises an error that becomes a server error. That error path is not modelled. It comes after `tags.clear()`, so the recipe is left without tags, unless the request runs in a transaction; the settings that would decide this are not part of this model.
- Serializers.CreateRecipe: requires the same, and a recipe id not yet in use (the database assigns it). On an unknown or missing tag id, the error comes after `Recipe.objects.create`, so the recipe row is left stored without tags or ingredient amounts. That error path is not modelled, for the same reason.
- `Recipe.pub_date` and the default ordering by it are not modelled. The author's recipe listing is an argument of `GetRecipes`.

## Findings

| source | as written | input that shows it | evidently intended | confidence | as-written member | corrected member |
|---|---|---|---|---|---|---|
| backend/users/models.py:13 | `^[\w.@+-]+$` with `re.search`: `$` also matches before a final newline | the validator (as the model's `full_clean` runs it) accepts username `"bob\n"`; the API's character fields trim surrounding whitespace first, so that path does not reach it with the newline | only `[\w.@+-]` characters, anchored at the very end (`\Z`) | high (not executed) | UserModels.UsernameNewlineCounterexample | UserModels.UsernameValidCharacters |
| backend/api/serializers.py:66 | `user.follower.exists()` ignores `obj` | user 1 follows only author 2 and views author 3: `is_subscribed` is true | whether the requesting user follows `obj` (`Serializers.IsSubscribed`) | high (not executed) | Serializers.IsSubscribedCounterexample | Views.Subscribe |
| backend/recipes/models.py:93 | `cooking_time` has `default=0` while its validators require 1..600, so the serializer makes the field optional and `create` stores the default without validating it | a create request that leaves out `cooking_time` stores a recipe with cooking time 0 | a cooking time in 1..600 on every recipe: the field required, or a default within the bounds | high (not executed) | Serializers.OmittedCookingTimeCounterexample | Serializers.CreatedRecipeRequiringCookingTime |
