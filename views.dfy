/** The view actions that change the database or export it: subscribing to an author,
    adding a recipe to or removing it from the favourites or the shopping cart, and the
    shopping-list download. The requesting user is authenticated and stored. */
module Views {
  import opened Wrappers
  import opened Tables
  import opened UserModels
  import opened RecipeModels
  import opened Database
  import opened Serializers
  import opened ShoppingList

  /** The two HTTP methods the toggle actions accept. */
  datatype Verb = Post | Delete

  /** The status of the response: 201, 204, 400, 404, or 500 for an exception raised
      while the response is built. */
  datatype Status = Created | NoContent | BadRequest | NotFound | ServerError

  /** The model `to_add_or_delete` works on: `Favorite` or `ShoppingCart`. */
  datatype LinkModel = FavoriteModel | ShoppingCartModel

  /** The table of `model`. */
  function Table(db: Store, model: LinkModel): seq<Link>
    reads db
  {
    if model == FavoriteModel then db.favorites else db.cart
  }

  /** `CustomUserViewSet.subscribe`: 404 for an unknown author; on POST, 400 if the
      subscription exists, then 400 if the user is the author, else the pair is added
      and the author rendered with 201 — unless the request's `recipe_limit` is
      negative, when `get_recipes` fails after the pair is stored and the response is a
      server error; on DELETE, the pair is removed with 204 if it exists, else 400. Only
      the `Subscribe` table changes. */
  method Subscribe(db: Store, verb: Verb, user: UserId, id: UserId, recipeLimit: Option<int>) returns (status: Status)
    requires db.Valid() && user in db.users
    modifies db`follows
    ensures db.Valid()
    ensures id !in db.users ==> status == NotFound && db.follows == old(db.follows)
    ensures id in db.users && verb == Post && Subscription(user, id) in old(db.follows) ==>
              status == BadRequest && db.follows == old(db.follows)
    ensures id in db.users && verb == Post && Subscription(user, id) !in old(db.follows) && user == id ==>
              status == BadRequest && db.follows == old(db.follows)
    ensures id in db.users && verb == Post && Subscription(user, id) !in old(db.follows) && user != id ==>
              && db.follows == old(db.follows) + [Subscription(user, id)]
              && status == (if recipeLimit.Some? && recipeLimit.value < 0 then ServerError else Created)
    ensures id in db.users && verb == Delete && Subscription(user, id) in old(db.follows) ==>
              status == NoContent && db.follows == Without(old(db.follows), Subscription(user, id))
    ensures id in db.users && verb == Delete && Subscription(user, id) !in old(db.follows) ==>
              status == BadRequest && db.follows == old(db.follows)
    ensures status != BadRequest && status != NotFound ==>
              IsSubscribed(db.follows, Some(user), id) == (verb == Post)
  {
    if id !in db.users {
      return NotFound;
    }
    var sub := Subscription(user, id);
    var present := sub in db.follows;
    if verb == Post {
      if present {
        return BadRequest;
      }
      if user == id {
        return BadRequest;
      }
      AppendNoDup(db.follows, sub);
      db.follows := db.follows + [sub];
      // Rendering the author runs `get_recipes`, whose slice by the limit fails exactly
      // when the limit is negative, whatever the author's recipes (`GetRecipes`).
      return if recipeLimit.Some? && recipeLimit.value < 0 then ServerError else Created;
    } else {
      if present {
        FilterNoDup(db.follows, Other(sub));
        db.follows := Without(db.follows, sub);
        return NoContent;
      }
      return BadRequest;
    }
  }

  /** `RecipeViewSet.to_add_or_delete`: 404 for an unknown recipe; on POST, 400 if the
      pair is already in the model's table, else it is added with 201; on DELETE, the
      pair is removed with 204 if present, else 400. The other table is untouched. */
  method ToAddOrDelete(db: Store, model: LinkModel, verb: Verb, user: UserId, pk: RecipeId) returns (status: Status)
    requires db.Valid() && user in db.users
    modifies db`favorites, db`cart
    ensures db.Valid()
    ensures model == FavoriteModel ==> db.cart == old(db.cart)
    ensures model == ShoppingCartModel ==> db.favorites == old(db.favorites)
    ensures pk !in db.recipes ==> status == NotFound && Table(db, model) == old(Table(db, model))
    ensures pk in db.recipes && verb == Post && Link(user, pk) in old(Table(db, model)) ==>
              status == BadRequest && Table(db, model) == old(Table(db, model))
    ensures pk in db.recipes && verb == Post && Link(user, pk) !in old(Table(db, model)) ==>
              status == Created && Table(db, model) == old(Table(db, model)) + [Link(user, pk)]
    ensures pk in db.recipes && verb == Delete && Link(user, pk) in old(Table(db, model)) ==>
              status == NoContent && Table(db, model) == Without(old(Table(db, model)), Link(user, pk))
    ensures pk in db.recipes && verb == Delete && Link(user, pk) !in old(Table(db, model)) ==>
              status == BadRequest && Table(db, model) == old(Table(db, model))
    ensures status != BadRequest && status != NotFound ==>
              IsMarked(Table(db, model), Some(user), pk) == (verb == Post)
  {
    if pk !in db.recipes {
      return NotFound;
    }
    var link := Link(user, pk);
    var rows := Table(db, model);
    var present := link in rows;
    var updated: seq<Link>;
    if verb == Post {
      if present {
        return BadRequest;
      }
      AppendNoDup(rows, link);
      updated, status := rows + [link], Created;
    } else {
      if !present {
        return BadRequest;
      }
      FilterNoDup(rows, Other(link));
      updated, status := Without(rows, link), NoContent;
    }
    if model == FavoriteModel {
      db.favorites := updated;
    } else {
      db.cart := updated;
    }
  }

  /** `RecipeViewSet.favorite`: the toggle on the `Favorite` table only. */
  method Favorite(db: Store, verb: Verb, user: UserId, pk: RecipeId) returns (status: Status)
    requires db.Valid() && user in db.users
    modifies db`favorites, db`cart
    ensures db.Valid()
    ensures db.cart == old(db.cart)
    ensures pk in db.recipes && status == Created ==> db.favorites == old(db.favorites) + [Link(user, pk)]
    ensures pk in db.recipes && status == NoContent ==> db.favorites == Without(old(db.favorites), Link(user, pk))
    ensures status == BadRequest || status == NotFound ==> db.favorites == old(db.favorites)
  {
    status := ToAddOrDelete(db, FavoriteModel, verb, user, pk);
  }

  /** `RecipeViewSet.shopping_cart`: the toggle on the `ShoppingCart` table only. */
  method ShoppingCart(db: Store, verb: Verb, user: UserId, pk: RecipeId) returns (status: Status)
    requires db.Valid() && user in db.users
    modifies db`favorites, db`cart
    ensures db.Valid()
    ensures db.favorites == old(db.favorites)
    ensures pk in db.recipes && status == Created ==> db.cart == old(db.cart) + [Link(user, pk)]
    ensures pk in db.recipes && status == NoContent ==> db.cart == Without(old(db.cart), Link(user, pk))
    ensures status == BadRequest || status == NotFound ==> db.cart == old(db.cart)
  {
    status := ToAddOrDelete(db, ShoppingCartModel, verb, user, pk);
  }

  /** A POST that adds a recipe followed by a DELETE of it removes it again and leaves
      the table as it was. */
  method PostThenDelete(db: Store, model: LinkModel, user: UserId, pk: RecipeId) returns (added: Status, removed: Status)
    requires db.Valid() && user in db.users
    modifies db`favorites, db`cart
    ensures db.Valid()
    ensures added == Created ==> removed == NoContent
    ensures added == Created ==> db.favorites == old(db.favorites) && db.cart == old(db.cart)
  {
    ghost var before := Table(db, model);
    added := ToAddOrDelete(db, model, Post, user, pk);
    removed := ToAddOrDelete(db, model, Delete, user, pk);
    if added == Created {
      WithoutAppended(before, Link(user, pk));
    }
  }

  /** A POST that subscribes followed by a DELETE of the subscription leaves the
      `Subscribe` table as it was. */
  method SubscribeThenUnsubscribe(db: Store, user: UserId, id: UserId, recipeLimit: Option<int>)
    returns (added: Status, removed: Status)
    requires db.Valid() && user in db.users
    modifies db`follows
    ensures db.Valid()
    ensures added == Created ==> removed == NoContent && db.follows == old(db.follows)
  {
    ghost var before := db.follows;
    added := Subscribe(db, Post, user, id, recipeLimit);
    removed := Subscribe(db, Delete, user, id, recipeLimit);
    if added == Created {
      WithoutAppended(before, Subscription(user, id));
    }
  }

  /** The text lines of the list, one per dictionary entry in insertion order. */
  method DrawLines(entries: map<string, Entry>, order: seq<string>) returns (lines: seq<string>)
    requires forall k :: k in order ==> k in entries
    ensures |lines| == |order|
    ensures forall i :: 0 <= i < |order| ==> lines[i] == Line(order[i], entries[order[i]])
  {
    lines := [];
    for i := 0 to |order|
      invariant |lines| == i
      invariant forall j :: 0 <= j < i ==> lines[j] == Line(order[j], entries[order[j]])
    {
      var line := Line(order[i], entries[order[i]]);
      ghost var drawn := lines;
      lines := lines + [line];
      assert lines[i] == line && lines[..i] == drawn;
    }
  }

  /** `RecipeViewSet.download_shopping_cart`: the cart's amount rows grouped by
      ingredient name and unit, folded into one entry per name, and one line per entry.
      Each name of the cart appears once, with the total of all its cart rows, a unit
      one of its rows carries, and a line from which the total reads back. */
  method DownloadShoppingCart(db: Store, user: UserId)
    returns (entries: map<string, Entry>, order: seq<string>, lines: seq<string>)
    requires db.Valid()
    ensures var rows := CartRows(db.amounts, db.ingredients, db.cart, user);
            && entries.Keys == Names(rows)
            && NoDup(order) && (forall k :: k in order <==> k in entries)
            && (forall n :: n in entries ==> entries[n].amount == SumName(rows, n) && entries[n].amount >= 1)
            && (forall n :: n in entries ==> HasPair(rows, n, entries[n].unit))
            && Total(entries, order) == SumAll(rows)
    ensures |lines| == |order|
    ensures forall i :: 0 <= i < |order| ==> lines[i] == Line(order[i], entries[order[i]])
  {
    var rows := CartRows(db.amounts, db.ingredients, db.cart, user);
    var groups := GroupByNameUnit(rows);
    entries, order := Aggregate(groups);
    GroupNames(rows);
    GroupSums(rows, "");
    CartRowsPositive(db.amounts, db.ingredients, db.cart, user);
    forall n | n in entries
      ensures entries[n].amount == SumName(rows, n) && entries[n].amount >= 1
      ensures HasPair(rows, n, entries[n].unit)
    {
      GroupedEntry(rows, n, entries[n].amount, entries[n].unit);
    }
    lines := DrawLines(entries, order);
  }
}
