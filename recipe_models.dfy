/** The queries the recipe models define: the default newest-first order of recipes
    and the shopping-list export of a user's cart. The queryset's viewer-relative flags
    and the favourite count are the join-table queries `HasRow` and `CountFor`. */
module RecipeModels {
  import opened Common
  import opened Sorting
  import opened Grouping
  import opened JoinTables
  import opened Schema

  // ---- default ordering: newest first

  function StampOf(recipes: seq<Recipe>, id: nat): int
  {
    if id < |recipes| then recipes[id].createdAt else 0
  }

  /** `ordering = ['-created_at']`. */
  function NewestFirst(recipes: seq<Recipe>): (nat, nat) -> bool
  {
    (a: nat, b: nat) => StampOf(recipes, a) >= StampOf(recipes, b)
  }

  lemma NewestFirstPreorder(recipes: seq<Recipe>)
    ensures TotalPreorder(NewestFirst(recipes))
  {
  }

  function Ids(n: nat): (r: seq<nat>)
    ensures |r| == n && forall i :: 0 <= i < n ==> r[i] == i
  {
    if n == 0 then [] else Ids(n - 1) + [n - 1]
  }

  /** The primary keys of all recipes in the model's default order. */
  function OrderedRecipeIds(recipes: seq<Recipe>): seq<nat>
  {
    SortBy(Ids(|recipes|), NewestFirst(recipes))
  }

  /** The default order lists every recipe exactly once, newest first. */
  lemma OrderedRecipeIdsCorrect(recipes: seq<Recipe>)
    ensures multiset(OrderedRecipeIds(recipes)) == multiset(Ids(|recipes|))
    ensures forall i :: 0 <= i < |OrderedRecipeIds(recipes)| ==> OrderedRecipeIds(recipes)[i] < |recipes|
    ensures forall i, j :: 0 <= i < j < |OrderedRecipeIds(recipes)| ==>
              recipes[OrderedRecipeIds(recipes)[i]].createdAt >= recipes[OrderedRecipeIds(recipes)[j]].createdAt
  {
    var s := OrderedRecipeIds(recipes);
    NewestFirstPreorder(recipes);
    SortBySorted(Ids(|recipes|), NewestFirst(recipes));
    var ids := Ids(|recipes|);
    forall i | 0 <= i < |s| ensures s[i] < |recipes| {
      assert s[i] in multiset(ids);
      var k :| 0 <= k < |ids| && ids[k] == s[i];
    }
    forall i, j | 0 <= i < j < |s| ensures recipes[s[i]].createdAt >= recipes[s[j]].createdAt {
      assert NewestFirst(recipes)(s[i], s[j]);
      assert StampOf(recipes, s[i]) == recipes[s[i]].createdAt && StampOf(recipes, s[j]) == recipes[s[j]].createdAt;
    }
  }

  // ---- shopping-list export

  const Header: string := "Список покупок:\n"

  /** The recipes in user's cart: `user.shopping_cart.values_list('recipe__id')`. */
  function CartRecipes(carts: set<Pair>, user: nat): set<nat>
  {
    set p | p in carts && p.user == user :: p.target
  }

  /** (ingredient, amount) of every recipe-ingredient row whose recipe is in cart,
      in table order: `RecipeIngredient.objects.filter(recipe_id__in=...)`. */
  function CartEntries(rows: seq<RecipeIngredient>, cart: set<nat>): seq<Entry>
  {
    if rows == [] then []
    else
      var last := rows[|rows| - 1];
      CartEntries(rows[..|rows| - 1], cart) + (if last.recipe in cart then [(last.ingredient, last.amount)] else [])
  }

  function IngredientAt(catalog: seq<Ingredient>, id: nat): Ingredient
  {
    if id < |catalog| then catalog[id] else Ingredient("", "")
  }

  /** `order_by('ingredient__name')`. */
  function ByName(catalog: seq<Ingredient>): (Entry, Entry) -> bool
  {
    (a: Entry, b: Entry) => StrLe(IngredientAt(catalog, a.0).name, IngredientAt(catalog, b.0).name)
  }

  /** The rows the export loops over: the cart's rows sorted by ingredient name. */
  function Contents(catalog: seq<Ingredient>, rows: seq<RecipeIngredient>, cart: set<nat>): seq<Entry>
  {
    SortBy(CartEntries(rows, cart), ByName(catalog))
  }

  /** One line of the list: `- {name} — {amount} {unit}`. */
  function Line(catalog: seq<Ingredient>, e: Entry): string
  {
    var ing := IngredientAt(catalog, e.0);
    "- " + ing.name + " — " + NatToString(e.1) + " " + ing.unit
  }

  function Lines(catalog: seq<Ingredient>, totals: seq<Entry>): (r: seq<string>)
    ensures |r| == |totals| && forall i :: 0 <= i < |totals| ==> r[i] == Line(catalog, totals[i])
  {
    if totals == [] then [] else Lines(catalog, totals[..|totals| - 1]) + [Line(catalog, totals[|totals| - 1])]
  }

  /** The per-ingredient totals the export lists, in list order. */
  function Totals(catalog: seq<Ingredient>, rows: seq<RecipeIngredient>, cart: set<nat>): seq<Entry>
  {
    GroupSum(Contents(catalog, rows, cart))
  }

  /** The text `ShoppingCart.export` returns for the cart's recipes. */
  function ShoppingList(catalog: seq<Ingredient>, rows: seq<RecipeIngredient>, cart: set<nat>): string
  {
    Join([Header] + Lines(catalog, Totals(catalog, rows, cart)), "\n")
  }

  /** `ShoppingCart.export(user)`: sums the amounts of the cart's rows per ingredient
      into a dictionary, then appends one line per dictionary item to the header. */
  method Export(db: Database, user: nat) returns (text: string)
    ensures text == ShoppingList(db.ingredients, db.recipeIngredients, CartRecipes(db.carts, user))
  {
    var catalog, cart := db.ingredients, CartRecipes(db.carts, user);
    var result := [Header];
    var contents := Contents(catalog, db.recipeIngredients, cart);
    var total := Accumulate(contents);
    assert total == Totals(catalog, db.recipeIngredients, cart);
    var i := 0;
    while i < |total|
      invariant 0 <= i <= |total|
      invariant result == [Header] + Lines(catalog, total[..i])
    {
      LinesStep(catalog, total, i);
      result := result + [Line(catalog, total[i])];
      i := i + 1;
    }
    assert total[..i] == total;
    text := Join(result, "\n");
  }

  lemma LinesStep(catalog: seq<Ingredient>, totals: seq<Entry>, i: nat)
    requires i < |totals|
    ensures Lines(catalog, totals[..i + 1]) == Lines(catalog, totals[..i]) + [Line(catalog, totals[i])]
  {
    var next := totals[..i + 1];
    assert next[..i] == totals[..i] && next[i] == totals[i];
  }

  // ---- what the export promises

  /** A row is exported exactly when its recipe is in the cart. */
  lemma {:induction false} CartEntriesMembers(rows: seq<RecipeIngredient>, cart: set<nat>, e: Entry)
    ensures e in CartEntries(rows, cart) <==>
            exists row :: row in rows && row.recipe in cart && (row.ingredient, row.amount) == e
  {
    if rows != [] {
      var init := rows[..|rows| - 1];
      CartEntriesMembers(init, cart, e);
      assert rows == init + [rows[|rows| - 1]];
      if exists row :: row in rows && row.recipe in cart && (row.ingredient, row.amount) == e {
        var row :| row in rows && row.recipe in cart && (row.ingredient, row.amount) == e;
        if row != rows[|rows| - 1] {
          assert row in init;
        }
      }
    }
  }

  /** The rows whose recipe is in cart, in table order. */
  function InCart(rows: seq<RecipeIngredient>, cart: set<nat>): (r: seq<RecipeIngredient>)
    ensures forall x :: x in r <==> x in rows && x.recipe in cart
  {
    if rows == [] then []
    else
      var last := rows[|rows| - 1];
      assert rows == rows[..|rows| - 1] + [last];
      InCart(rows[..|rows| - 1], cart) + (if last.recipe in cart then [last] else [])
  }

  lemma {:induction false} CartEntriesInCart(rows: seq<RecipeIngredient>, cart: set<nat>)
    ensures CartEntries(InCart(rows, cart), cart) == CartEntries(rows, cart)
  {
    if rows != [] {
      var init := rows[..|rows| - 1];
      var last := rows[|rows| - 1];
      var kept := InCart(init, cart);
      CartEntriesInCart(init, cart);
      assert CartEntries(rows, cart) == CartEntries(init, cart) + (if last.recipe in cart then [(last.ingredient, last.amount)] else []);
      if last.recipe in cart {
        var x := kept + [last];
        assert InCart(rows, cart) == x;
        assert x[..|x| - 1] == kept && x[|x| - 1] == last;
        assert CartEntries(x, cart) == CartEntries(kept, cart) + [(last.ingredient, last.amount)];
      } else {
        assert InCart(rows, cart) == kept;
      }
    }
  }

  /** Rows of recipes outside the cart, wherever they stand in the table, do not change
      the list: it is the list of the cart's rows alone. */
  lemma ExportIgnoresOtherRecipes(catalog: seq<Ingredient>, rows: seq<RecipeIngredient>, cart: set<nat>)
    ensures ShoppingList(catalog, rows, cart) == ShoppingList(catalog, InCart(rows, cart), cart)
  {
    CartEntriesInCart(rows, cart);
  }

  lemma ByNamePreorder(catalog: seq<Ingredient>)
    ensures TotalPreorder(ByName(catalog))
  {
    var le := ByName(catalog);
    forall a: Entry, b: Entry ensures le(a, b) || le(b, a) {
      StrLeTotal(IngredientAt(catalog, a.0).name, IngredientAt(catalog, b.0).name);
    }
    forall a: Entry, b: Entry, c: Entry | le(a, b) && le(b, c) ensures le(a, c) {
      StrLeTransitive(IngredientAt(catalog, a.0).name, IngredientAt(catalog, b.0).name, IngredientAt(catalog, c.0).name);
    }
  }

  /** One line per distinct ingredient found among the cart's rows, each with the sum of
      that ingredient's amounts over those rows. */
  lemma ExportTotals(catalog: seq<Ingredient>, rows: seq<RecipeIngredient>, cart: set<nat>)
    ensures DistinctKeys(Totals(catalog, rows, cart))
    ensures KeySet(Totals(catalog, rows, cart)) == KeySet(CartEntries(rows, cart))
    ensures forall j :: 0 <= j < |Totals(catalog, rows, cart)| ==>
              Totals(catalog, rows, cart)[j].1 == SumFor(CartEntries(rows, cart), Totals(catalog, rows, cart)[j].0)
  {
    var entries := CartEntries(rows, cart);
    var contents := Contents(catalog, rows, cart);
    GroupSumDistinct(contents);
    GroupSumKeys(contents);
    KeySetPermutation(contents, entries);
    GroupSumAmounts(contents);
    forall k: nat ensures SumFor(contents, k) == SumFor(entries, k) {
      SumForPermutation(contents, entries, k);
    }
  }

  /** The lines come in nondecreasing order of ingredient name. */
  lemma ExportOrderedByName(catalog: seq<Ingredient>, rows: seq<RecipeIngredient>, cart: set<nat>)
    ensures forall i, j :: 0 <= i < j < |Totals(catalog, rows, cart)| ==>
              StrLe(IngredientAt(catalog, Totals(catalog, rows, cart)[i].0).name,
                    IngredientAt(catalog, Totals(catalog, rows, cart)[j].0).name)
  {
    var contents := Contents(catalog, rows, cart);
    var totals := Totals(catalog, rows, cart);
    ByNamePreorder(catalog);
    SortBySorted(CartEntries(rows, cart), ByName(catalog));
    forall i, j | 0 <= i < j < |totals|
      ensures StrLe(IngredientAt(catalog, totals[i].0).name, IngredientAt(catalog, totals[j].0).name)
    {
      GroupSumOrder(contents, i, j);
      var p, q := FirstIndex(contents, totals[i].0), FirstIndex(contents, totals[j].0);
      assert ByName(catalog)(contents[p], contents[q]);
    }
  }

  /** The text is the header followed by the ingredient lines, joined with newlines;
      an empty cart (or one whose recipes have no rows) gives the header alone. */
  lemma ExportShape(catalog: seq<Ingredient>, rows: seq<RecipeIngredient>, cart: set<nat>)
    ensures var lines := Lines(catalog, Totals(catalog, rows, cart));
            ShoppingList(catalog, rows, cart) == if lines == [] then Header else Header + "\n" + Join(lines, "\n")
    ensures CartEntries(rows, cart) == [] ==> ShoppingList(catalog, rows, cart) == Header
  {
    var lines := Lines(catalog, Totals(catalog, rows, cart));
    var parts := [Header] + lines;
    if lines == [] {
      assert parts == [Header];
    } else {
      assert |parts| >= 2 && parts[0] == Header && parts[1..] == lines;
    }
    if CartEntries(rows, cart) == [] {
      assert Contents(catalog, rows, cart) == [];
      assert Totals(catalog, rows, cart) == [];
    }
  }

  /** An empty cart exports the header alone. */
  lemma EmptyCartExport(catalog: seq<Ingredient>, rows: seq<RecipeIngredient>)
    ensures ShoppingList(catalog, rows, {}) == Header
  {
    CartEmpty(rows);
    ExportShape(catalog, rows, {});
  }

  lemma {:induction false} CartEmpty(rows: seq<RecipeIngredient>)
    ensures CartEntries(rows, {}) == []
  {
    if rows != [] {
      CartEmpty(rows[..|rows| - 1]);
    }
  }

  /** Two carted recipes using 2 and 3 of the same ingredient give one line with 5. */
  lemma SharedIngredientExport()
    ensures ShoppingList([Ingredient("X", "g")], [RecipeIngredient(0, 0, 2), RecipeIngredient(1, 0, 3)], {0, 1})
            == Header + "\n" + "- X — 5 g"
  {
    var catalog := [Ingredient("X", "g")];
    SharedIngredientTotals();
    var line := Line(catalog, (0, 5));
    SharedIngredientLine();
    assert Lines(catalog, [(0, 5)]) == [line];
    var parts := [Header] + [line];
    assert parts[1..] == [line];
    assert Join(parts, "\n") == Header + "\n" + line;
  }

  lemma SharedIngredientLine()
    ensures Line([Ingredient("X", "g")], (0, 5)) == "- X — 5 g"
  {
    assert NatToString(5) == "5";
  }

  lemma SharedIngredientTotals()
    ensures Totals([Ingredient("X", "g")], [RecipeIngredient(0, 0, 2), RecipeIngredient(1, 0, 3)], {0, 1}) == [(0, 5)]
  {
    var catalog := [Ingredient("X", "g")];
    var rows := [RecipeIngredient(0, 0, 2), RecipeIngredient(1, 0, 3)];
    assert rows[..1] == [rows[0]];
    assert CartEntries(rows, {0, 1}) == [(0, 2), (0, 3)];
    assert StrLe("X", "X");
    var c: seq<Entry> := [(0, 2), (0, 3)];
    assert Contents(catalog, rows, {0, 1}) == c;
    assert c[..1] == [(0, 2)] && c[..1][..0] == [];
    assert GroupSum(c[..1]) == [(0, 2)];
  }
}
