/** The query filters: the ingredient autocomplete by name, and the recipe filters by
    the requesting user's favourites and shopping cart. */
module Filters {
  import opened Wrappers
  import opened Tables
  import opened Text
  import opened UserModels
  import opened RecipeModels
  import opened Serializers

  /** `Q(name__istartswith=value) | Q(name__icontains=value)`. */
  function NameMatches(value: string): Ingredient -> bool {
    (i: Ingredient) => IStartsWith(i.name, value) || IContains(i.name, value)
  }

  /** The annotation `startswith`: the name begins with `value`, ignoring case. */
  function StartsWith(value: string): Ingredient -> bool {
    (i: Ingredient) => IStartsWith(i.name, value)
  }

  function NotStartsWith(value: string): Ingredient -> bool {
    (i: Ingredient) => !IStartsWith(i.name, value)
  }

  /** `FilterIngredient.name_filter`: the matching ingredients, those whose name begins
      with `value` first (`order_by('-startswith')`), each group in the order of the
      query set. */
  function NameFilter(qs: seq<Ingredient>, value: string): seq<Ingredient> {
    var matched := Filter(qs, NameMatches(value));
    Filter(matched, StartsWith(value)) + Filter(matched, NotStartsWith(value))
  }

  /** The result holds exactly the ingredients whose name contains `value`, ignoring
      case: the prefix test adds nothing, since a prefix is a substring. */
  lemma NameFilterMembers(qs: seq<Ingredient>, value: string)
    ensures forall x :: x in NameFilter(qs, value) <==> x in qs && IContains(x.name, value)
  {
    forall x | x in qs && IStartsWith(x.name, value) ensures IContains(x.name, value) {
      StartsWithContains(x.name, value);
    }
  }

  /** The result is a reordering of the filtered query set: no ingredient is added,
      lost or repeated. */
  lemma NameFilterReorders(qs: seq<Ingredient>, value: string)
    ensures multiset(NameFilter(qs, value)) == multiset(Filter(qs, NameMatches(value)))
  {
    FilterSplit(Filter(qs, NameMatches(value)), StartsWith(value), NotStartsWith(value));
  }

  /** Every ingredient whose name begins with `value` comes before every one whose
      name does not. */
  lemma NameFilterPrefixFirst(qs: seq<Ingredient>, value: string)
    ensures var r := NameFilter(qs, value);
            forall i, j :: 0 <= i < j < |r| && IStartsWith(r[j].name, value) ==> IStartsWith(r[i].name, value)
  {
    var matched := Filter(qs, NameMatches(value));
    var first := Filter(matched, StartsWith(value));
    var rest := Filter(matched, NotStartsWith(value));
    var r := first + rest;
    forall k | |first| <= k < |r| ensures !IStartsWith(r[k].name, value) {
      assert r[k] == rest[k - |first|];
      assert NotStartsWith(value)(rest[k - |first|]);
    }
    forall i, j | 0 <= i < j < |r| && IStartsWith(r[j].name, value)
      ensures IStartsWith(r[i].name, value)
    {
      assert r[i] == first[i];
      assert StartsWith(value)(first[i]);
    }
  }

  /** `name_filter` returns no ingredient twice when the query set has none twice. */
  lemma NameFilterNoDup(qs: seq<Ingredient>, value: string)
    requires NoDup(qs)
    ensures NoDup(NameFilter(qs, value))
  {
    var matched := Filter(qs, NameMatches(value));
    FilterNoDup(qs, NameMatches(value));
    FilterNoDup(matched, StartsWith(value));
    FilterNoDup(matched, NotStartsWith(value));
    AppendDisjointNoDup(Filter(matched, StartsWith(value)), Filter(matched, NotStartsWith(value)));
  }

  /** The recipes that `user` has marked in `links`. */
  function MarkedBy(links: seq<Link>, user: UserId): RecipeId -> bool {
    (id: RecipeId) => Link(user, id) in links
  }

  /** `FilterRecipe.filter_is_favorited` (with the favourites) and
      `filter_is_in_shopping_cart` (with the cart): with a true value and an
      authenticated user (`Some`), the recipes that user has marked; otherwise the query
      set unchanged. */
  function FilterMarked(qs: seq<RecipeId>, links: seq<Link>, user: Option<UserId>, value: bool): (r: seq<RecipeId>)
    ensures value && user.Some? ==> forall id :: id in r <==> id in qs && Link(user.value, id) in links
    ensures !(value && user.Some?) ==> r == qs
    ensures multiset(r) <= multiset(qs)
  {
    if value && user.Some? then
      FilterSubMultiset(qs, MarkedBy(links, user.value));
      Filter(qs, MarkedBy(links, user.value))
    else qs
  }

  /** The filter and the recipe's read-only field agree: with a true value, a recipe of
      the query set passes exactly when `is_favorited` (or `is_in_shopping_cart`) is
      true for it, and an anonymous user is never shown a marked recipe. */
  lemma FilterAgreesWithField(qs: seq<RecipeId>, links: seq<Link>, user: Option<UserId>)
    ensures user.Some? ==> forall id :: id in qs ==>
              (id in FilterMarked(qs, links, user, true) <==> IsMarked(links, user, id))
    ensures user.None? ==> forall id :: !IsMarked(links, user, id)
  {
  }

  /** Applying the favourite filter and the cart filter in either order gives the same
      recipes in the same order. */
  lemma FiltersCommute(qs: seq<RecipeId>, favorites: seq<Link>, cart: seq<Link>, user: Option<UserId>, favorited: bool, inCart: bool)
    ensures FilterMarked(FilterMarked(qs, favorites, user, favorited), cart, user, inCart) ==
            FilterMarked(FilterMarked(qs, cart, user, inCart), favorites, user, favorited)
  {
    if user.Some? {
      FilterCommute(qs, MarkedBy(favorites, user.value), MarkedBy(cart, user.value));
    }
  }
}
