/** The shopping list: the ingredient rows of the recipes in a user's cart, the
    database's grouping of them by ingredient name and unit with the amounts summed,
    the dictionary the view builds from those groups keyed by name alone, and the text
    of each line of the exported list. */
module ShoppingList {
  import opened Tables
  import opened Text
  import opened UserModels
  import opened RecipeModels

  /** One row of the cart query: an ingredient's name, its unit and an amount. */
  datatype Row = Row(name: string, unit: string, amount: int)

  /** One value of the view's `ingredients` dictionary. */
  datatype Entry = Entry(unit: string, amount: int)

  /** A dictionary with its insertion order (the order in which Python iterates it). */
  datatype Dict = Dict(entries: map<string, Entry>, order: seq<string>)

  /** `IngredientsAmount` rows whose recipe is in `user`'s cart, with the ingredient's
      name and unit looked up, in table order. */
  function CartRows(amounts: seq<AmountRow>, ingredients: map<IngredientId, Ingredient>, cart: seq<Link>, user: UserId): seq<Row>
    requires forall a :: a in amounts ==> a.ingredient in ingredients
  {
    if amounts == [] then []
    else
      var a := amounts[0];
      var rest := CartRows(amounts[1..], ingredients, cart, user);
      if Link(user, a.recipe) in cart then
        [Row(ingredients[a.ingredient].name, ingredients[a.ingredient].measurementUnit, a.amount)] + rest
      else rest
  }

  /** The total amount of the rows named `name`. */
  function SumName(rows: seq<Row>, name: string): int {
    if rows == [] then 0
    else (if rows[0].name == name then rows[0].amount else 0) + SumName(rows[1..], name)
  }

  /** The total amount of all rows. */
  function SumAll(rows: seq<Row>): int {
    if rows == [] then 0 else rows[0].amount + SumAll(rows[1..])
  }

  /** The names that occur in `rows`. */
  function Names(rows: seq<Row>): set<string> {
    set i | 0 <= i < |rows| :: rows[i].name
  }

  lemma {:induction false} SumAppend(a: seq<Row>, b: seq<Row>, name: string)
    ensures SumName(a + b, name) == SumName(a, name) + SumName(b, name)
    ensures SumAll(a + b) == SumAll(a) + SumAll(b)
    decreases |a|
  {
    if a == [] {
      assert a + b == b;
    } else {
      assert (a + b)[1..] == a[1..] + b;
      SumAppend(a[1..], b, name);
    }
  }

  /** Taking one more row adds its amount to its name's total and to the grand total. */
  lemma SumSnoc(rows: seq<Row>, k: nat, name: string)
    requires k < |rows|
    ensures SumName(rows[..k + 1], name) ==
            SumName(rows[..k], name) + (if rows[k].name == name then rows[k].amount else 0)
    ensures SumAll(rows[..k + 1]) == SumAll(rows[..k]) + rows[k].amount
  {
    assert rows[..k + 1] == rows[..k] + [rows[k]];
    SumAppend(rows[..k], [rows[k]], name);
  }

  // ---------------------------------------------------------------------------------
  // The database's GROUP BY (name, unit) with Sum('amount')

  /** Adds `row` to the group with its name and unit, or opens a new group after the others. */
  function Merge(groups: seq<Row>, row: Row): (r: seq<Row>)
    ensures |r| > 0
    decreases |groups|
  {
    if groups == [] then [row]
    else if groups[0].name == row.name && groups[0].unit == row.unit then
      [groups[0].(amount := groups[0].amount + row.amount)] + groups[1..]
    else [groups[0]] + Merge(groups[1..], row)
  }

  /** The grouped query: one row per (name, unit) in order of first appearance, the
      amounts of each group summed. */
  function GroupByNameUnit(rows: seq<Row>): seq<Row> {
    if rows == [] then []
    else Merge(GroupByNameUnit(rows[..|rows| - 1]), rows[|rows| - 1])
  }

  /** Merging a row adds its amount to its name's total and to the grand total. */
  lemma {:induction false} MergeSums(groups: seq<Row>, row: Row, name: string)
    ensures SumName(Merge(groups, row), name) ==
            SumName(groups, name) + (if row.name == name then row.amount else 0)
    ensures SumAll(Merge(groups, row)) == SumAll(groups) + row.amount
    decreases |groups|
  {
    if groups != [] {
      if groups[0].name == row.name && groups[0].unit == row.unit {
        assert Merge(groups, row)[1..] == groups[1..];
      } else {
        MergeSums(groups[1..], row, name);
        assert Merge(groups, row)[1..] == Merge(groups[1..], row);
      }
    }
  }

  /** Some row of `rows` has this name and unit. */
  ghost predicate HasPair(rows: seq<Row>, name: string, unit: string) {
    exists i :: 0 <= i < |rows| && rows[i].name == name && rows[i].unit == unit
  }

  lemma HasPairAppend(a: seq<Row>, b: seq<Row>, name: string, unit: string)
    ensures HasPair(a + b, name, unit) <==> HasPair(a, name, unit) || HasPair(b, name, unit)
  {
    var t := a + b;
    if HasPair(t, name, unit) {
      var i :| 0 <= i < |t| && t[i].name == name && t[i].unit == unit;
      if i < |a| { assert t[i] == a[i]; } else { assert t[i] == b[i - |a|]; }
    }
    if HasPair(a, name, unit) {
      var i :| 0 <= i < |a| && a[i].name == name && a[i].unit == unit;
      assert t[i] == a[i];
    }
    if HasPair(b, name, unit) {
      var i :| 0 <= i < |b| && b[i].name == name && b[i].unit == unit;
      assert t[i + |a|] == b[i];
    }
  }

  /** Merging a row neither invents nor loses a (name, unit) pair. */
  lemma {:induction false} MergePairs(groups: seq<Row>, row: Row, name: string, unit: string)
    ensures HasPair(Merge(groups, row), name, unit) <==>
            HasPair(groups, name, unit) || (row.name == name && row.unit == unit)
    decreases |groups|
  {
    if groups == [] {
      assert Merge(groups, row)[0] == row;
    } else {
      var r := Merge(groups, row);
      assert groups == [groups[0]] + groups[1..];
      HasPairAppend([groups[0]], groups[1..], name, unit);
      if groups[0].name == row.name && groups[0].unit == row.unit {
        assert r == [r[0]] + groups[1..];
        HasPairAppend([r[0]], groups[1..], name, unit);
      } else {
        MergePairs(groups[1..], row, name, unit);
        assert r == [groups[0]] + Merge(groups[1..], row);
        HasPairAppend([groups[0]], Merge(groups[1..], row), name, unit);
      }
    }
  }

  /** Grouping conserves every name's total and the grand total. */
  lemma {:induction false} GroupSums(rows: seq<Row>, name: string)
    ensures SumName(GroupByNameUnit(rows), name) == SumName(rows, name)
    ensures SumAll(GroupByNameUnit(rows)) == SumAll(rows)
    decreases |rows|
  {
    if rows != [] {
      var k := |rows| - 1;
      GroupSums(rows[..k], name);
      MergeSums(GroupByNameUnit(rows[..k]), rows[k], name);
      SumSnoc(rows, k, name);
      assert rows[..k + 1] == rows;
    }
  }

  /** The groups carry exactly the (name, unit) pairs of the input. */
  lemma {:induction false} GroupPairs(rows: seq<Row>, name: string, unit: string)
    ensures HasPair(GroupByNameUnit(rows), name, unit) <==> HasPair(rows, name, unit)
    decreases |rows|
  {
    if rows != [] {
      var k := |rows| - 1;
      GroupPairs(rows[..k], name, unit);
      MergePairs(GroupByNameUnit(rows[..k]), rows[k], name, unit);
      assert rows == rows[..k] + [rows[k]];
      HasPairAppend(rows[..k], [rows[k]], name, unit);
    }
  }

  /** Grouping keeps the set of names. */
  lemma GroupNames(rows: seq<Row>)
    ensures Names(GroupByNameUnit(rows)) == Names(rows)
  {
    var groups := GroupByNameUnit(rows);
    forall n | n in Names(groups) ensures n in Names(rows) {
      var j :| 0 <= j < |groups| && groups[j].name == n;
      assert HasPair(groups, n, groups[j].unit);
      GroupPairs(rows, n, groups[j].unit);
    }
    forall n | n in Names(rows) ensures n in Names(groups) {
      var i :| 0 <= i < |rows| && rows[i].name == n;
      assert HasPair(rows, n, rows[i].unit);
      GroupPairs(rows, n, rows[i].unit);
    }
  }

  /** When every amount is positive, every name that occurs has a positive total. */
  lemma {:induction false} SumNamePositive(rows: seq<Row>, name: string)
    requires PositiveAmounts(rows)
    ensures name in Names(rows) ==> SumName(rows, name) >= 1
    ensures SumName(rows, name) >= 0
    decreases |rows|
  {
    if rows != [] {
      var tail := rows[1..];
      assert forall i :: 0 <= i < |tail| ==> tail[i] == rows[i + 1];
      SumNamePositive(tail, name);
      if name in Names(rows) && rows[0].name != name {
        var i :| 0 <= i < |rows| && rows[i].name == name;
        assert tail[i - 1] == rows[i];
      }
    }
  }

  /** Every row has a positive amount. */
  predicate PositiveAmounts(rows: seq<Row>) {
    forall i :: 0 <= i < |rows| ==> rows[i].amount >= 1
  }

  /** Every row of a user's cart carries the positive amount of a stored amount row. */
  lemma {:induction false} CartRowsPositive(amounts: seq<AmountRow>, ingredients: map<IngredientId, Ingredient>, cart: seq<Link>, user: UserId)
    requires forall a :: a in amounts ==> a.ingredient in ingredients && a.amount >= MinAmount
    ensures PositiveAmounts(CartRows(amounts, ingredients, cart, user))
    decreases |amounts|
  {
    if amounts != [] {
      var a := amounts[0];
      assert a in amounts;
      assert forall b :: b in amounts[1..] ==> b in amounts;
      CartRowsPositive(amounts[1..], ingredients, cart, user);
      var rest := CartRows(amounts[1..], ingredients, cart, user);
      if Link(user, a.recipe) in cart {
        var rows := [Row(ingredients[a.ingredient].name, ingredients[a.ingredient].measurementUnit, a.amount)] + rest;
        assert forall i :: 0 < i < |rows| ==> rows[i] == rest[i - 1];
      }
    }
  }

  // ---------------------------------------------------------------------------------
  // The view's dictionary, keyed by ingredient name only

  /** One iteration of the view's loop: add to the entry of the row's name, or insert
      a new entry carrying the row's unit. */
  function Step(d: Dict, row: Row): Dict {
    if row.name in d.entries then
      var e := d.entries[row.name];
      Dict(d.entries[row.name := Entry(e.unit, e.amount + row.amount)], d.order)
    else
      Dict(d.entries[row.name := Entry(row.unit, row.amount)], d.order + [row.name])
  }

  /** The dictionary after the loop has seen every row. */
  function Fold(rows: seq<Row>): Dict {
    if rows == [] then Dict(map[], [])
    else Step(Fold(rows[..|rows| - 1]), rows[|rows| - 1])
  }

  /** An entry built from the grouped rows carries the sum and a unit of the rows themselves. */
  lemma GroupedEntry(rows: seq<Row>, name: string, amount: int, unit: string)
    requires PositiveAmounts(rows)
    requires name in Names(GroupByNameUnit(rows))
    requires amount == SumName(GroupByNameUnit(rows), name)
    requires FirstUnit(GroupByNameUnit(rows), name, unit)
    ensures amount == SumName(rows, name) && amount >= 1
    ensures HasPair(rows, name, unit)
  {
    var groups := GroupByNameUnit(rows);
    GroupNames(rows);
    GroupSums(rows, name);
    SumNamePositive(rows, name);
    var i :| 0 <= i < |groups| && groups[i].name == name && groups[i].unit == unit &&
             forall j :: 0 <= j < i ==> groups[j].name != name;
    assert HasPair(groups, name, unit);
    GroupPairs(rows, name, unit);
  }

  /** The sum of the entries' amounts, in iteration order. */
  function Total(entries: map<string, Entry>, order: seq<string>): int
    requires forall k :: k in order ==> k in entries
  {
    if order == [] then 0
    else Total(entries, order[..|order| - 1]) + entries[order[|order| - 1]].amount
  }

  /** Changing one entry that occurs once in the order changes the total by as much. */
  lemma {:induction false} TotalUpdate(entries: map<string, Entry>, order: seq<string>, key: string, e: Entry)
    requires forall k :: k in order ==> k in entries
    requires NoDup(order)
    ensures Total(entries[key := e], order) ==
            Total(entries, order) + (if key in order then e.amount - entries[key].amount else 0)
    decreases |order|
  {
    if order != [] {
      var prefix := order[..|order| - 1];
      assert NoDup(prefix) by {
        forall i, j | 0 <= i < j < |prefix| ensures prefix[i] != prefix[j] {
          assert prefix[i] == order[i] && prefix[j] == order[j];
        }
      }
      assert forall k :: k in prefix ==> k in order;
      TotalUpdate(entries, prefix, key, e);
      var last := order[|order| - 1];
      if last == key {
        forall i | 0 <= i < |prefix| ensures prefix[i] != key {
          assert prefix[i] == order[i];
        }
      } else {
        assert key in order <==> key in prefix by {
          assert order == prefix + [last];
        }
      }
    }
  }

  /** The dictionary's keys are exactly the names seen, each listed once in the order. */
  lemma {:induction false} FoldKeys(rows: seq<Row>)
    ensures Fold(rows).entries.Keys == Names(rows)
    ensures NoDup(Fold(rows).order)
    ensures forall k :: k in Fold(rows).order <==> k in Fold(rows).entries
    decreases |rows|
  {
    if rows != [] {
      var k := |rows| - 1;
      var prefix := rows[..k];
      FoldKeys(prefix);
      assert Names(rows) == Names(prefix) + {rows[k].name} by {
        forall n | n in Names(rows) ensures n in Names(prefix) + {rows[k].name} {
          var i :| 0 <= i < |rows| && rows[i].name == n;
          if i < k { assert prefix[i] == rows[i]; }
        }
        forall n | n in Names(prefix) ensures n in Names(rows) {
          var i :| 0 <= i < |prefix| && prefix[i].name == n;
          assert rows[i] == prefix[i];
        }
      }
      var d := Fold(prefix);
      if rows[k].name !in d.entries {
        var o := d.order + [rows[k].name];
        forall i, j | 0 <= i < j < |o| ensures o[i] != o[j] {
          if j == |o| - 1 { assert o[i] in d.order; }
          else { assert o[i] == d.order[i] && o[j] == d.order[j]; }
        }
      }
    }
  }

  /** Each entry's amount is the sum of the amounts of all rows with its name. */
  lemma {:induction false} FoldAmounts(rows: seq<Row>)
    ensures forall n :: n in Fold(rows).entries ==> Fold(rows).entries[n].amount == SumName(rows, n)
    decreases |rows|
  {
    if rows != [] {
      var k := |rows| - 1;
      var prefix := rows[..k];
      FoldAmounts(prefix);
      FoldKeys(prefix);
      assert rows[..k + 1] == rows;
      forall n | n in Fold(rows).entries
        ensures Fold(rows).entries[n].amount == SumName(rows, n)
      {
        SumSnoc(rows, k, n);
        if n != rows[k].name {
          assert n in Fold(prefix).entries;
        } else if n !in Fold(prefix).entries {
          assert n !in Names(prefix);
          assert SumName(prefix, n) == 0 by { SumAbsent(prefix, n); }
        }
      }
    }
  }

  /** A name that does not occur contributes nothing. */
  lemma {:induction false} SumAbsent(rows: seq<Row>, name: string)
    requires name !in Names(rows)
    ensures SumName(rows, name) == 0
    decreases |rows|
  {
    if rows != [] {
      assert rows[0].name in Names(rows);
      assert Names(rows[1..]) <= Names(rows) by {
        forall n | n in Names(rows[1..]) ensures n in Names(rows) {
          var i :| 0 <= i < |rows[1..]| && rows[1..][i].name == n;
          assert rows[i + 1].name == n;
        }
      }
      SumAbsent(rows[1..], name);
    }
  }

  /** The unit of `name` is that of the first row with that name. */
  ghost predicate FirstUnit(rows: seq<Row>, name: string, unit: string) {
    exists i :: 0 <= i < |rows| && rows[i].name == name && rows[i].unit == unit &&
      forall j :: 0 <= j < i ==> rows[j].name != name
  }

  /** Each entry keeps the unit of the first row seen with its name. */
  lemma {:induction false} FoldUnits(rows: seq<Row>)
    ensures forall n :: n in Fold(rows).entries ==> FirstUnit(rows, n, Fold(rows).entries[n].unit)
    decreases |rows|
  {
    if rows != [] {
      var k := |rows| - 1;
      var prefix := rows[..k];
      FoldUnits(prefix);
      FoldKeys(prefix);
      forall n | n in Fold(rows).entries
        ensures FirstUnit(rows, n, Fold(rows).entries[n].unit)
      {
        var u := Fold(rows).entries[n].unit;
        if n in Fold(prefix).entries {
          assert u == Fold(prefix).entries[n].unit;
          var i :| 0 <= i < |prefix| && prefix[i].name == n && prefix[i].unit == u &&
                   forall j :: 0 <= j < i ==> prefix[j].name != n;
          assert rows[i] == prefix[i];
          assert forall j :: 0 <= j < i ==> rows[j] == prefix[j];
        } else {
          assert n == rows[k].name && u == rows[k].unit;
          forall j | 0 <= j < k ensures rows[j].name != n {
            assert rows[j] == prefix[j];
            assert prefix[j].name in Names(prefix);
          }
        }
      }
    }
  }

  /** One step of the loop adds the row's amount to the total of the entries. */
  lemma StepTotal(d: Dict, row: Row)
    requires NoDup(d.order) && forall k :: k in d.order <==> k in d.entries
    ensures forall k :: k in Step(d, row).order ==> k in Step(d, row).entries
    ensures Total(Step(d, row).entries, Step(d, row).order) == Total(d.entries, d.order) + row.amount
  {
    var s := Step(d, row);
    if row.name in d.entries {
      var e := Entry(d.entries[row.name].unit, d.entries[row.name].amount + row.amount);
      assert s.entries == d.entries[row.name := e] && s.order == d.order;
      TotalUpdate(d.entries, d.order, row.name, e);
    } else {
      var e := Entry(row.unit, row.amount);
      assert s.entries == d.entries[row.name := e] && s.order == d.order + [row.name];
      TotalUpdate(d.entries, d.order, row.name, e);
      assert s.order[..|d.order|] == d.order;
      assert Total(s.entries, s.order) == Total(s.entries, d.order) + e.amount;
    }
  }

  /** The entries' amounts add up to the amounts of all rows: nothing is lost or counted twice. */
  lemma {:induction false} FoldTotal(rows: seq<Row>)
    ensures forall k :: k in Fold(rows).order ==> k in Fold(rows).entries
    ensures Total(Fold(rows).entries, Fold(rows).order) == SumAll(rows)
    decreases |rows|
  {
    if rows != [] {
      var k := |rows| - 1;
      FoldTotal(rows[..k]);
      FoldKeys(rows[..k]);
      SumSnoc(rows, k, rows[k].name);
      assert rows[..k + 1] == rows;
      StepTotal(Fold(rows[..k]), rows[k]);
    }
  }

  /** The view's loop over the grouped rows, building the `ingredients` dictionary. */
  method Aggregate(rows: seq<Row>) returns (entries: map<string, Entry>, order: seq<string>)
    ensures Dict(entries, order) == Fold(rows)
    ensures entries.Keys == Names(rows)
    ensures NoDup(order) && forall k :: k in order <==> k in entries
    ensures forall n :: n in entries ==> entries[n].amount == SumName(rows, n)
    ensures forall n :: n in entries ==> FirstUnit(rows, n, entries[n].unit)
    ensures Total(entries, order) == SumAll(rows)
  {
    entries, order := map[], [];
    var i := 0;
    while i < |rows|
      invariant 0 <= i <= |rows|
      invariant Dict(entries, order) == Fold(rows[..i])
    {
      var row := rows[i];
      if row.name in entries {
        entries := entries[row.name := Entry(entries[row.name].unit, entries[row.name].amount + row.amount)];
      } else {
        entries := entries[row.name := Entry(row.unit, row.amount)];
        order := order + [row.name];
      }
      assert rows[..i + 1][..i] == rows[..i];
      i := i + 1;
    }
    assert rows[..i] == rows;
    FoldKeys(rows);
    FoldAmounts(rows);
    FoldUnits(rows);
    FoldTotal(rows);
  }

  /** The text of one line of the list: `"<Name> - <amount> <unit>."`. */
  function Line(name: string, e: Entry): string {
    Concat([Capitalize(name), " - ", IntToDecimal(e.amount), " ", e.unit, "."])
  }

  /** A line reads back into its parts: the capitalized name, `" - "`, the decimal
      digits of the amount, a space, the unit and a full stop. */
  lemma LineParses(name: string, e: Entry)
    requires e.amount >= 0
    ensures |Line(name, e)| == |name| + 3 + |NatToDecimal(e.amount)| + |e.unit| + 2
    ensures var r := Line(name, e);
            && r[..|name|] == Capitalize(name)
            && r[|name|..|name| + 3] == " - "
            && r[|name| + 3..|r| - |e.unit| - 2] == NatToDecimal(e.amount)
            && r[|r| - |e.unit| - 2..] == " " + e.unit + "."
    ensures DecimalValue(NatToDecimal(e.amount)) == e.amount
  {
    var r := Line(name, e);
    var c := Capitalize(name);
    var d := NatToDecimal(e.amount);
    var tail := " " + e.unit + ".";
    var parts := [c, " - ", IntToDecimal(e.amount), " ", e.unit, "."];
    assert Concat(parts[5..]) == ".";
    assert Concat(parts[4..]) == e.unit + ".";
    assert Concat(parts[3..]) == tail;
    assert Concat(parts[2..]) == d + tail;
    assert Concat(parts[1..]) == " - " + d + tail;
    assert r == c + " - " + d + tail;
    assert r[..|name|] == c;
    assert r[|name|..|name| + 3] == " - ";
    assert r[|name| + 3..|r| - |e.unit| - 2] == d;
    assert r[|r| - |e.unit| - 2..] == tail;
    DecimalRoundTrip(e.amount);
  }
}
