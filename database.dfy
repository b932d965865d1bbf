/** The database as one object: one field per table, the schema's constraints as the
    object invariant, and the deletions whose `on_delete=CASCADE` foreign keys remove
    the dependent rows. */
module Database {
  import opened Tables
  import opened UserModels
  import opened RecipeModels

  /** Every field bound, foreign key and unique constraint of the schema holds of
      these table contents. */
  ghost predicate Consistent(
    users: map<UserId, User>, follows: seq<Subscription>,
    tags: map<TagId, Tag>, ingredients: map<IngredientId, Ingredient>,
    recipes: map<RecipeId, Recipe>, amounts: seq<AmountRow>,
    favorites: seq<Link>, cart: seq<Link>)
  {
    && UsersValid(users)
    && SubscriptionsValid(follows, users.Keys)
    && TagsValid(tags)
    && IngredientsValid(ingredients)
    && RecipesValid(recipes, users.Keys, tags.Keys)
    && AmountsValid(amounts, recipes.Keys, ingredients.Keys)
    && LinksValid(favorites, users.Keys, recipes.Keys)
    && LinksValid(cart, users.Keys, recipes.Keys)
  }

  /** Deleting a recipe and cascading to its rows keeps the schema's constraints and
      removes exactly the rows that refer to it. */
  lemma RecipeDeletion(
    users: map<UserId, User>, follows: seq<Subscription>,
    tags: map<TagId, Tag>, ingredients: map<IngredientId, Ingredient>,
    recipes: map<RecipeId, Recipe>, amounts: seq<AmountRow>,
    favorites: seq<Link>, cart: seq<Link>, id: RecipeId)
    requires Consistent(users, follows, tags, ingredients, recipes, amounts, favorites, cart)
    ensures var kept := recipes - {id};
            var amounts' := Filter(amounts, AmountWithin(kept.Keys));
            var favorites' := Filter(favorites, LinkWithin(users.Keys, kept.Keys));
            var cart' := Filter(cart, LinkWithin(users.Keys, kept.Keys));
            && Consistent(users, follows, tags, ingredients, kept, amounts', favorites', cart')
            && (forall row :: row in amounts' <==> row in amounts && row.recipe != id)
            && (forall l :: l in favorites' <==> l in favorites && l.recipe != id)
            && (forall l :: l in cart' <==> l in cart && l.recipe != id)
  {
    var kept := recipes - {id};
    AmountsAfterDelete(amounts, recipes.Keys, ingredients.Keys, kept.Keys);
    LinksAfterRecipeDelete(favorites, users.Keys, recipes, id);
    LinksAfterRecipeDelete(cart, users.Keys, recipes, id);
    assert RecipesValid(kept, users.Keys, tags.Keys);
  }

  /** Deleting a user and cascading to their subscriptions, their recipes and every row
      of those keeps the schema's constraints. */
  lemma UserDeletion(
    users: map<UserId, User>, follows: seq<Subscription>,
    tags: map<TagId, Tag>, ingredients: map<IngredientId, Ingredient>,
    recipes: map<RecipeId, Recipe>, amounts: seq<AmountRow>,
    favorites: seq<Link>, cart: seq<Link>, id: UserId)
    requires Consistent(users, follows, tags, ingredients, recipes, amounts, favorites, cart)
    ensures var users' := users - {id};
            var recipes' := RecipesNotBy(recipes, id);
            var follows' := Filter(follows, Within(users'.Keys));
            var amounts' := Filter(amounts, AmountWithin(recipes'.Keys));
            var favorites' := Filter(favorites, LinkWithin(users'.Keys, recipes'.Keys));
            var cart' := Filter(cart, LinkWithin(users'.Keys, recipes'.Keys));
            && Consistent(users', follows', tags, ingredients, recipes', amounts', favorites', cart')
            && (forall f :: f in follows' <==> f in follows && f.user != id && f.author != id)
  {
    var users' := users - {id};
    var recipes' := RecipesNotBy(recipes, id);
    assert users'.Keys == users.Keys - {id};
    DeleteUserSubscriptions(follows, users.Keys, id);
    AmountsAfterDelete(amounts, recipes.Keys, ingredients.Keys, recipes'.Keys);
    LinksAfterDelete(favorites, users.Keys, recipes.Keys, users'.Keys, recipes'.Keys);
    LinksAfterDelete(cart, users.Keys, recipes.Keys, users'.Keys, recipes'.Keys);
    assert UsersValid(users');
    assert RecipesValid(recipes', users'.Keys, tags.Keys);
  }

  class Store {
    var users: map<UserId, User>
    var follows: seq<Subscription>
    var tags: map<TagId, Tag>
    var ingredients: map<IngredientId, Ingredient>
    var recipes: map<RecipeId, Recipe>
    var amounts: seq<AmountRow>
    var favorites: seq<Link>
    var cart: seq<Link>

    /** Every field bound, foreign key and unique constraint of the schema holds. */
    ghost predicate Valid()
      reads this
    {
      Consistent(users, follows, tags, ingredients, recipes, amounts, favorites, cart)
    }

    /** An empty database. */
    constructor ()
      ensures Valid()
      ensures users == map[] && tags == map[] && ingredients == map[] && recipes == map[]
      ensures follows == [] && amounts == [] && favorites == [] && cart == []
    {
      users, tags, ingredients, recipes := map[], map[], map[], map[];
      follows, amounts, favorites, cart := [], [], [], [];
    }

    /** Deleting recipe `id`: its ingredient-amount, favourite and cart rows go with it;
        nothing else changes. */
    method DeleteRecipe(id: RecipeId)
      requires Valid() && id in recipes
      modifies this`recipes, this`amounts, this`favorites, this`cart
      ensures Valid()
      ensures recipes == old(recipes) - {id}
      ensures amounts == Filter(old(amounts), AmountWithin(recipes.Keys))
      ensures favorites == Filter(old(favorites), LinkWithin(users.Keys, recipes.Keys))
      ensures cart == Filter(old(cart), LinkWithin(users.Keys, recipes.Keys))
      ensures forall row :: row in amounts <==> row in old(amounts) && row.recipe != id
      ensures forall l :: l in favorites <==> l in old(favorites) && l.recipe != id
      ensures forall l :: l in cart <==> l in old(cart) && l.recipe != id
    {
      RecipeDeletion(users, follows, tags, ingredients, recipes, amounts, favorites, cart, id);
      var kept := recipes - {id};
      recipes, amounts, favorites, cart :=
        kept,
        Filter(amounts, AmountWithin(kept.Keys)),
        Filter(favorites, LinkWithin(users.Keys, kept.Keys)),
        Filter(cart, LinkWithin(users.Keys, kept.Keys));
    }

    /** Deleting user `id`: their subscriptions in either role, their recipes, and every
        amount, favourite and cart row of those recipes or of that user go with them. */
    method DeleteUser(id: UserId)
      requires Valid() && id in users
      modifies this`users, this`follows, this`recipes, this`amounts, this`favorites, this`cart
      ensures Valid()
      ensures users == old(users) - {id}
      ensures recipes == RecipesNotBy(old(recipes), id)
      ensures follows == Filter(old(follows), Within(users.Keys))
      ensures amounts == Filter(old(amounts), AmountWithin(recipes.Keys))
      ensures favorites == Filter(old(favorites), LinkWithin(users.Keys, recipes.Keys))
      ensures cart == Filter(old(cart), LinkWithin(users.Keys, recipes.Keys))
      ensures forall f :: f in follows <==> f in old(follows) && f.user != id && f.author != id
      ensures forall r :: r in recipes ==> recipes[r].author != id
    {
      UserDeletion(users, follows, tags, ingredients, recipes, amounts, favorites, cart, id);
      var users' := users - {id};
      var recipes' := RecipesNotBy(recipes, id);
      users, recipes, follows, amounts, favorites, cart :=
        users',
        recipes',
        Filter(follows, Within(users'.Keys)),
        Filter(amounts, AmountWithin(recipes'.Keys)),
        Filter(favorites, LinkWithin(users'.Keys, recipes'.Keys)),
        Filter(cart, LinkWithin(users'.Keys, recipes'.Keys));
    }
  }
}
