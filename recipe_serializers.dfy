/** The recipe write path: field checks, `validate` (merging duplicate ingredients),
    `_attach_ingredients` (get-or-create each merged row, then `set()` the linked
    ingredients), `create` and `update`; and the favourite and shopping-cart
    serializers' uniqueness check and representation. */
module RecipeSerializers {
  import opened Common
  import opened Grouping
  import opened Schema

  // ---- payload and field checks

  /** One element of the submitted `ingredients` list. */
  datatype SubmittedIngredient = SubmittedIngredient(id: int, amount: int)

  /** A create or update payload; a missing key is None. */
  datatype RecipePayload = RecipePayload(
    name: Option<string>,
    text: Option<string>,
    cookingTime: Option<int>,
    ingredients: Option<seq<SubmittedIngredient>>,
    tags: Option<seq<int>>)

  predicate IngredientOk(e: SubmittedIngredient, ingredientCount: nat)
  {
    0 <= e.id < ingredientCount && e.amount >= 1
  }

  // ---- character fields

  /** The characters Python's `str.isspace()` accepts, which `str.strip()` removes. */
  predicate IsSpace(c: char)
  {
    '\t' <= c <= '\r' || '\U{1C}' <= c <= ' ' || c == '\U{85}' || c == '\U{A0}' || c == '\U{1680}'
    || '\U{2000}' <= c <= '\U{200A}' || c == '\U{2028}' || c == '\U{2029}' || c == '\U{202F}'
    || c == '\U{205F}' || c == '\U{3000}'
  }

  /** How many whitespace characters s starts with. */
  function LeadingSpaces(s: string): (n: nat)
    ensures n <= |s|
    ensures forall m :: 0 <= m < n ==> IsSpace(s[m])
    ensures n < |s| ==> !IsSpace(s[n])
  {
    if s != [] && IsSpace(s[0]) then 1 + LeadingSpaces(s[1..]) else 0
  }

  /** s without its trailing whitespace. */
  function TrimEnd(s: string): (r: string)
    ensures |r| <= |s| && r == s[..|r|]
    ensures forall m :: |r| <= m < |s| ==> IsSpace(s[m])
    ensures r != [] ==> !IsSpace(r[|r| - 1])
  {
    if s != [] && IsSpace(s[|s| - 1]) then TrimEnd(s[..|s| - 1]) else s
  }

  /** `str.strip()`, which a DRF character field applies to its input: the middle of s
      after its leading whitespace, with only whitespace cut off at either end and none
      left at either end. */
  function Trim(s: string): (r: string)
    ensures LeadingSpaces(s) + |r| <= |s| && r == s[LeadingSpaces(s)..LeadingSpaces(s) + |r|]
    ensures forall m :: LeadingSpaces(s) + |r| <= m < |s| ==> IsSpace(s[m])
    ensures r != [] ==> !IsSpace(r[0]) && !IsSpace(r[|r| - 1])
  {
    TrimEnd(s[LeadingSpaces(s)..])
  }

  /** A character field without `allow_blank` refuses a value that is empty once
      trimmed; then the trimmed value must fit `max_length` and hold no NUL
      character. */
  predicate CharFieldRejects(value: string, maxLength: Option<nat>)
  {
    var t := Trim(value);
    t == [] || (maxLength.Some? && |t| > maxLength.value) || '\0' in t
  }

  /** The value a character field stores: trimmed, not blank, within its length and
      without NUL. */
  predicate CleanText(s: string, maxLength: Option<nat>)
  {
    s != [] && !IsSpace(s[0]) && !IsSpace(s[|s| - 1]) && (maxLength.Some? ==> |s| <= maxLength.value) && '\0' !in s
  }

  /** A value passes the field exactly when its trimmed form is clean, and trimming a
      clean value leaves it as it is. */
  lemma CharFieldClean(value: string, maxLength: Option<nat>)
    ensures !CharFieldRejects(value, maxLength) <==> CleanText(Trim(value), maxLength)
    ensures CleanText(value, maxLength) ==> Trim(value) == value
  {
    if CleanText(value, maxLength) {
      assert LeadingSpaces(value) == 0;
      assert TrimEnd(value) == value;
    }
  }

  /** `Recipe.name`: a `CharField` of at most 200 characters. */
  const NameMaxLength: nat := 200

  /** The fields the serializer's field validation rejects: a required field missing
      (unless the update is partial), a name or text that is blank once trimmed, a
      name longer than 200 characters, a NUL character, a cooking time or amount
      below 1, or a primary key that names no ingredient or tag. */
  function FieldErrors(payload: RecipePayload, partial: bool, ingredientCount: nat, tagCount: nat): set<string>
  {
    (if (payload.name.None? && !partial) || (payload.name.Some? && CharFieldRejects(payload.name.value, Some(NameMaxLength)))
     then {"name"} else {})
    + (if (payload.text.None? && !partial) || (payload.text.Some? && CharFieldRejects(payload.text.value, None))
       then {"text"} else {})
    + (if (payload.cookingTime.None? && !partial) || (payload.cookingTime.Some? && payload.cookingTime.value < 1)
       then {"cooking_time"} else {})
    + (if (payload.ingredients.None? && !partial)
          || (payload.ingredients.Some? && exists e | e in payload.ingredients.value :: !IngredientOk(e, ingredientCount))
       then {"ingredients"} else {})
    + (if (payload.tags.None? && !partial)
          || (payload.tags.Some? && exists t | t in payload.tags.value :: !(0 <= t < tagCount))
       then {"tags"} else {})
  }

  function ToEntries(s: seq<SubmittedIngredient>): (r: seq<Entry>)
    requires forall e | e in s :: e.id >= 0 && e.amount >= 0
    ensures |r| == |s| && forall i :: 0 <= i < |s| ==> r[i] == (s[i].id as nat, s[i].amount as nat)
  {
    if s == [] then [] else [(s[0].id as nat, s[0].amount as nat)] + ToEntries(s[1..])
  }

  /** The submitted ingredient list after field validation; an absent key is empty. */
  function Submitted(ingredients: Option<seq<Entry>>): seq<Entry>
  {
    if ingredients.Some? then ingredients.value else []
  }

  // ---- validate

  /** `validate`: pops the ingredient list (empty when the key is absent) and stores
      a dictionary mapping each submitted ingredient to the sum of its amounts. */
  method Validate(ingredients: Option<seq<Entry>>) returns (merged: seq<Entry>)
    ensures merged == GroupSum(Submitted(ingredients))
    ensures ingredients.None? ==> merged == []
    ensures DistinctKeys(merged)
    ensures KeySet(merged) == KeySet(Submitted(ingredients))
    ensures forall j :: 0 <= j < |merged| ==> merged[j].1 == SumFor(Submitted(ingredients), merged[j].0)
    ensures Total(merged) == Total(Submitted(ingredients))
  {
    merged := Accumulate(Submitted(ingredients));
    GroupSumDistinct(Submitted(ingredients));
    GroupSumKeys(Submitted(ingredients));
    GroupSumAmounts(Submitted(ingredients));
    GroupSumTotal(Submitted(ingredients));
  }

  // ---- _attach_ingredients, as written

  /** `RecipeIngredient.objects.get_or_create(...)`: the unique constraint on all three
      columns means at most one row matches. */
  function GetOrCreateRow(rows: seq<RecipeIngredient>, row: RecipeIngredient): seq<RecipeIngredient>
  {
    if row in rows then rows else rows + [row]
  }

  /** The rows after get-or-create of every merged (ingredient, amount) for recipe. */
  function AttachRows(rows: seq<RecipeIngredient>, recipe: nat, merged: seq<Entry>): seq<RecipeIngredient>
  {
    if merged == [] then rows
    else
      var e := merged[|merged| - 1];
      GetOrCreateRow(AttachRows(rows, recipe, merged[..|merged| - 1]), RecipeIngredient(recipe, e.0, e.1))
  }

  /** `recipe.ingredients.set(keep)`: deletes the recipe's through rows whose ingredient
      is not kept; rows of kept ingredients stay whatever their amount. */
  function Unlink(rows: seq<RecipeIngredient>, recipe: nat, keep: set<nat>): seq<RecipeIngredient>
  {
    if rows == [] then []
    else
      var last := rows[|rows| - 1];
      Unlink(rows[..|rows| - 1], recipe, keep) + (if last.recipe != recipe || last.ingredient in keep then [last] else [])
  }

  /** The rows `_attach_ingredients(recipe, merged)` leaves. */
  function Attached(rows: seq<RecipeIngredient>, recipe: nat, merged: seq<Entry>): seq<RecipeIngredient>
  {
    Unlink(AttachRows(rows, recipe, merged), recipe, KeySet(merged))
  }

  /** The recipe's linked-ingredient set (`recipe.ingredients.all()`). */
  function LinkedIngredients(rows: seq<RecipeIngredient>, recipe: nat): set<nat>
  {
    set row | row in rows && row.recipe == recipe :: row.ingredient
  }

  method AttachIngredients(db: Database, recipe: nat, merged: seq<Entry>)
    requires db.Valid() && recipe < |db.recipes|
    requires forall e | e in merged :: e.0 < |db.ingredients| && e.1 >= 1
    modifies db
    ensures db.Valid()
    ensures db.recipeIngredients == Attached(old(db.recipeIngredients), recipe, merged)
    ensures db.ingredients == old(db.ingredients) && db.tags == old(db.tags) && db.users == old(db.users)
    ensures db.recipes == old(db.recipes)
    ensures db.favorites == old(db.favorites) && db.carts == old(db.carts) && db.follows == old(db.follows)
  {
    var toAppend: seq<nat> := [];
    var i := 0;
    while i < |merged|
      invariant 0 <= i <= |merged|
      invariant db.recipeIngredients == AttachRows(old(db.recipeIngredients), recipe, merged[..i])
      invariant (set x | x in toAppend) == KeySet(merged[..i])
      invariant RowsUnique(db.recipeIngredients) && RowsWellFormed(db.recipeIngredients, |db.recipes|, |db.ingredients|)
      invariant db.ingredients == old(db.ingredients) && db.tags == old(db.tags) && db.users == old(db.users)
      invariant db.recipes == old(db.recipes)
      invariant db.favorites == old(db.favorites) && db.carts == old(db.carts) && db.follows == old(db.follows)
    {
      var (ingredient, amount) := merged[i];
      var row := RecipeIngredient(recipe, ingredient, amount);
      assert merged[i] in merged;
      AttachStep(old(db.recipeIngredients), recipe, merged, i, db.recipeIngredients, toAppend, |db.recipes|, |db.ingredients|);
      if row !in db.recipeIngredients {
        db.recipeIngredients := db.recipeIngredients + [row];
      }
      toAppend := toAppend + [ingredient];
      i := i + 1;
    }
    assert merged[..i] == merged;
    var keep := set x | x in toAppend;
    assert keep == KeySet(merged);
    UnlinkSubset(db.recipeIngredients, recipe, keep);
    db.recipeIngredients := Unlink(db.recipeIngredients, recipe, keep);
    assert RowsWellFormed(db.recipeIngredients, |db.recipes|, |db.ingredients|);
  }

  /** One turn of the attach loop: get-or-create the i-th merged row and remember its key. */
  lemma AttachStep(rows0: seq<RecipeIngredient>, recipe: nat, merged: seq<Entry>, i: nat,
                   rows: seq<RecipeIngredient>, toAppend: seq<nat>, recipeCount: nat, ingredientCount: nat)
    requires i < |merged| && recipe < recipeCount
    requires merged[i].0 < ingredientCount && merged[i].1 >= 1
    requires rows == AttachRows(rows0, recipe, merged[..i])
    requires (set x | x in toAppend) == KeySet(merged[..i])
    requires RowsUnique(rows) && RowsWellFormed(rows, recipeCount, ingredientCount)
    ensures var row := RecipeIngredient(recipe, merged[i].0, merged[i].1);
            && GetOrCreateRow(rows, row) == AttachRows(rows0, recipe, merged[..i + 1])
            && RowsUnique(GetOrCreateRow(rows, row))
            && RowsWellFormed(GetOrCreateRow(rows, row), recipeCount, ingredientCount)
    ensures (set x | x in toAppend + [merged[i].0]) == KeySet(merged[..i + 1])
  {
    var row := RecipeIngredient(recipe, merged[i].0, merged[i].1);
    var next := merged[..i + 1];
    assert next[..i] == merged[..i] && next[i] == merged[i];
    assert next == merged[..i] + [merged[i]];
    assert KeySet(next) == KeySet(merged[..i]) + {merged[i].0};
    if row !in rows {
      AppendKeepsUnique(rows, row);
    }
  }

  lemma AppendKeepsUnique(rows: seq<RecipeIngredient>, row: RecipeIngredient)
    requires RowsUnique(rows) && row !in rows
    ensures RowsUnique(rows + [row])
  {
    forall i, j | 0 <= i < j < |rows + [row]| ensures (rows + [row])[i] != (rows + [row])[j] {
      if j == |rows| {
        assert (rows + [row])[i] == rows[i] && rows[i] in rows;
      }
    }
  }

  /** `set()` only deletes: what survives was there, in the same relative order. */
  lemma {:induction false} UnlinkSubset(rows: seq<RecipeIngredient>, recipe: nat, keep: set<nat>)
    ensures forall row :: row in Unlink(rows, recipe, keep) <==>
                            row in rows && (row.recipe != recipe || row.ingredient in keep)
    ensures RowsUnique(rows) ==> RowsUnique(Unlink(rows, recipe, keep))
  {
    if rows != [] {
      var init := rows[..|rows| - 1];
      var last := rows[|rows| - 1];
      UnlinkSubset(init, recipe, keep);
      assert rows == init + [last];
      if RowsUnique(rows) {
        assert RowsUnique(init) by {
          forall i, j | 0 <= i < j < |init| ensures init[i] != init[j] {
            assert init[i] == rows[i] && init[j] == rows[j];
          }
        }
        forall m | 0 <= m < |init| ensures init[m] != last {
          assert init[m] == rows[m];
        }
        assert last !in init;
        var u := Unlink(init, recipe, keep);
        if last.recipe != recipe || last.ingredient in keep {
          AppendKeepsUnique(u, last);
        }
      }
    }
  }

  lemma {:induction false} AttachRowsMembers(rows: seq<RecipeIngredient>, recipe: nat, merged: seq<Entry>)
    ensures forall row :: row in AttachRows(rows, recipe, merged) <==>
              row in rows || (row.recipe == recipe && (row.ingredient, row.amount) in merged)
  {
    if merged != [] {
      var init := merged[..|merged| - 1];
      AttachRowsMembers(rows, recipe, init);
      assert merged == init + [merged[|merged| - 1]];
    }
  }

  // ---- what _attach_ingredients promises

  /** After attaching, the recipe's linked-ingredient set is exactly the merged keys. */
  lemma AttachedLinks(rows: seq<RecipeIngredient>, recipe: nat, merged: seq<Entry>)
    ensures LinkedIngredients(Attached(rows, recipe, merged), recipe) == KeySet(merged)
  {
    var res := Attached(rows, recipe, merged);
    AttachRowsMembers(rows, recipe, merged);
    UnlinkSubset(AttachRows(rows, recipe, merged), recipe, KeySet(merged));
    forall k | k in KeySet(merged) ensures k in LinkedIngredients(res, recipe) {
      var e :| e in merged && e.0 == k;
      assert RecipeIngredient(recipe, e.0, e.1) in res;
    }
  }

  /** Which rows of the recipe remain: a row of a kept ingredient, old or merged, stays;
      every other row of the recipe is gone. Two rows for one ingredient can remain. */
  lemma AttachedRecipeRows(rows: seq<RecipeIngredient>, recipe: nat, merged: seq<Entry>, row: RecipeIngredient)
    requires row.recipe == recipe
    ensures row in Attached(rows, recipe, merged) <==>
            row.ingredient in KeySet(merged) && (row in rows || (row.ingredient, row.amount) in merged)
  {
    AttachRowsMembers(rows, recipe, merged);
    UnlinkSubset(AttachRows(rows, recipe, merged), recipe, KeySet(merged));
  }

  /** Rows of other recipes are untouched. */
  lemma AttachedOtherRows(rows: seq<RecipeIngredient>, recipe: nat, merged: seq<Entry>, row: RecipeIngredient)
    requires row.recipe != recipe
    ensures row in Attached(rows, recipe, merged) <==> row in rows
  {
    AttachRowsMembers(rows, recipe, merged);
    UnlinkSubset(AttachRows(rows, recipe, merged), recipe, KeySet(merged));
  }

  /** Get-or-create never adds a second identical row. */
  lemma {:induction false} AttachedUnique(rows: seq<RecipeIngredient>, recipe: nat, merged: seq<Entry>)
    requires RowsUnique(rows)
    ensures RowsUnique(Attached(rows, recipe, merged))
  {
    AttachRowsUnique(rows, recipe, merged);
    UnlinkSubset(AttachRows(rows, recipe, merged), recipe, KeySet(merged));
  }

  lemma {:induction false} AttachRowsUnique(rows: seq<RecipeIngredient>, recipe: nat, merged: seq<Entry>)
    requires RowsUnique(rows)
    ensures RowsUnique(AttachRows(rows, recipe, merged))
  {
    if merged != [] {
      var e := merged[|merged| - 1];
      var before := AttachRows(rows, recipe, merged[..|merged| - 1]);
      AttachRowsUnique(rows, recipe, merged[..|merged| - 1]);
      var row := RecipeIngredient(recipe, e.0, e.1);
      if row !in before {
        AppendKeepsUnique(before, row);
      }
    }
  }

  /** On a recipe that had no rows (a newly created one) the recipe's rows are exactly
      the merged pairs, one per distinct ingredient. */
  lemma AttachedFreshRecipe(rows: seq<RecipeIngredient>, recipe: nat, merged: seq<Entry>, row: RecipeIngredient)
    requires forall r | r in rows :: r.recipe != recipe
    requires row.recipe == recipe
    ensures row in Attached(rows, recipe, merged) <==> (row.ingredient, row.amount) in merged
  {
    AttachedRecipeRows(rows, recipe, merged, row);
    if (row.ingredient, row.amount) in merged {
      assert row.ingredient in KeySet(merged);
    }
  }

  /** An update whose payload has no ingredients leaves the recipe with none linked. */
  lemma UpdateWithoutIngredients(rows: seq<RecipeIngredient>, recipe: nat)
    ensures LinkedIngredients(Attached(rows, recipe, GroupSum(Submitted(None))), recipe) == {}
  {
    AttachedLinks(rows, recipe, []);
  }

  /** The same ingredient submitted twice with 2 and 3 is stored once with 5. */
  lemma DuplicatesMerged()
    ensures GroupSum([(1, 2), (1, 3)]) == [(1, 5)]
  {
    assert [(1, 2), (1, 3)][..1] == [(1, 2)];
  }

  /** Changing an ingredient's amount keeps the row with the old amount beside the new one:
      the update of recipe 0 from 2 to 3 units of ingredient 5 leaves both rows. */
  lemma StaleRowKept()
    ensures Attached([RecipeIngredient(0, 5, 2)], 0, [(5, 3)])
            == [RecipeIngredient(0, 5, 2), RecipeIngredient(0, 5, 3)]
  {
    var rows := [RecipeIngredient(0, 5, 2)];
    var merged: seq<Entry> := [(5, 3)];
    assert merged[..0] == [];
    assert KeySet(merged) == {5};
    var attached := AttachRows(rows, 0, merged);
    assert attached == [RecipeIngredient(0, 5, 2), RecipeIngredient(0, 5, 3)];
    assert attached[..1] == rows;
    assert rows[..0] == [];
  }

  // ---- the intended replacement of the recipe's rows

  function RowsOf(recipe: nat, merged: seq<Entry>): (r: seq<RecipeIngredient>)
    ensures |r| == |merged| && forall i :: 0 <= i < |merged| ==> r[i] == RecipeIngredient(recipe, merged[i].0, merged[i].1)
  {
    if merged == [] then [] else RowsOf(recipe, merged[..|merged| - 1]) + [RecipeIngredient(recipe, merged[|merged| - 1].0, merged[|merged| - 1].1)]
  }

  /** The recipe's rows replaced by the merged pairs: every old row of the recipe goes. */
  function Replaced(rows: seq<RecipeIngredient>, recipe: nat, merged: seq<Entry>): seq<RecipeIngredient>
  {
    Unlink(rows, recipe, {}) + RowsOf(recipe, merged)
  }

  /** After replacing, the recipe has exactly one row per merged ingredient, carrying the
      merged amount, and rows of other recipes are untouched. */
  lemma ReplacedExact(rows: seq<RecipeIngredient>, recipe: nat, merged: seq<Entry>)
    requires DistinctKeys(merged)
    ensures forall row: RecipeIngredient | row.recipe == recipe :: row in Replaced(rows, recipe, merged) <==> (row.ingredient, row.amount) in merged
    ensures forall row: RecipeIngredient | row.recipe != recipe :: row in Replaced(rows, recipe, merged) <==> row in rows
    ensures forall i, j :: 0 <= i < j < |Replaced(rows, recipe, merged)| &&
              Replaced(rows, recipe, merged)[i].recipe == recipe && Replaced(rows, recipe, merged)[j].recipe == recipe
              ==> Replaced(rows, recipe, merged)[i].ingredient != Replaced(rows, recipe, merged)[j].ingredient
  {
    ReplacedRows(rows, recipe, merged);
    ReplacedDistinct(rows, recipe, merged);
  }

  lemma ReplacedRows(rows: seq<RecipeIngredient>, recipe: nat, merged: seq<Entry>)
    ensures forall row: RecipeIngredient | row.recipe == recipe :: row in Replaced(rows, recipe, merged) <==> (row.ingredient, row.amount) in merged
    ensures forall row: RecipeIngredient | row.recipe != recipe :: row in Replaced(rows, recipe, merged) <==> row in rows
  {
    var kept := Unlink(rows, recipe, {});
    var added := RowsOf(recipe, merged);
    var res := Replaced(rows, recipe, merged);
    UnlinkSubset(rows, recipe, {});
    forall row: RecipeIngredient | row.recipe == recipe ensures row in res <==> (row.ingredient, row.amount) in merged {
      assert row !in kept;
      if (row.ingredient, row.amount) in merged {
        var m :| 0 <= m < |merged| && merged[m] == (row.ingredient, row.amount);
        assert added[m] == row;
      }
      if row in added {
        var m :| 0 <= m < |added| && added[m] == row;
        assert merged[m] == (row.ingredient, row.amount);
      }
    }
    forall row: RecipeIngredient | row.recipe != recipe ensures row in res <==> row in rows {
      assert row !in added;
    }
  }

  lemma ReplacedDistinct(rows: seq<RecipeIngredient>, recipe: nat, merged: seq<Entry>)
    requires DistinctKeys(merged)
    ensures forall i, j :: 0 <= i < j < |Replaced(rows, recipe, merged)| &&
              Replaced(rows, recipe, merged)[i].recipe == recipe && Replaced(rows, recipe, merged)[j].recipe == recipe
              ==> Replaced(rows, recipe, merged)[i].ingredient != Replaced(rows, recipe, merged)[j].ingredient
  {
    var kept := Unlink(rows, recipe, {});
    var added := RowsOf(recipe, merged);
    var res := Replaced(rows, recipe, merged);
    UnlinkSubset(rows, recipe, {});
    forall m | 0 <= m < |kept| ensures kept[m].recipe != recipe {
      assert kept[m] in kept;
    }
    forall i, j | 0 <= i < j < |res| && res[i].recipe == recipe && res[j].recipe == recipe
      ensures res[i].ingredient != res[j].ingredient
    {
      assert res[i] == added[i - |kept|] && res[j] == added[j - |kept|];
    }
  }

  // ---- create and update

  function RecipeFrom(author: nat, payload: RecipePayload, now: int): Recipe
    requires payload.name.Some? && payload.text.Some? && payload.cookingTime.Some? && payload.tags.Some?
    requires payload.cookingTime.value >= 1 && forall t | t in payload.tags.value :: t >= 0
  {
    Recipe(author, Trim(payload.name.value), Trim(payload.text.value), payload.cookingTime.value as nat, now,
           set t | t in payload.tags.value :: t as nat)
  }

  /** A created recipe stores its name and text trimmed, not blank, the name within
      200 characters. */
  lemma CreatedFieldsClean(author: nat, payload: RecipePayload, now: int, ingredientCount: nat, tagCount: nat)
    requires FieldErrors(payload, false, ingredientCount, tagCount) == {}
    ensures CleanText(RecipeFrom(author, payload, now).name, Some(NameMaxLength))
    ensures CleanText(RecipeFrom(author, payload, now).text, None)
    ensures RecipeFrom(author, payload, now).name == Trim(payload.name.value)
  {
    CharFieldClean(payload.name.value, Some(NameMaxLength));
    CharFieldClean(payload.text.value, None);
  }

  /** An update that passes field validation keeps a recipe's name and text clean. */
  lemma UpdatedFieldsClean(r: Recipe, payload: RecipePayload, partial: bool, ingredientCount: nat, tagCount: nat)
    requires FieldErrors(payload, partial, ingredientCount, tagCount) == {}
    requires CleanText(r.name, Some(NameMaxLength)) && CleanText(r.text, None)
    ensures CleanText(UpdatedRecipe(r, payload).name, Some(NameMaxLength))
    ensures CleanText(UpdatedRecipe(r, payload).text, None)
  {
    if payload.name.Some? {
      CharFieldClean(payload.name.value, Some(NameMaxLength));
    }
    if payload.text.Some? {
      CharFieldClean(payload.text.value, None);
    }
  }

  /** A name of spaces is blank; surrounding whitespace is cut off. */
  lemma TrimExamples()
    ensures CharFieldRejects(" \t ", Some(NameMaxLength))
    ensures Trim(" Soup\n") == "Soup" && !CharFieldRejects(" Soup\n", Some(NameMaxLength))
  {
    assert LeadingSpaces(" \t ") == 3;
    assert LeadingSpaces(" Soup\n") == 1;
    assert " Soup\n"[1..] == "Soup\n";
    assert TrimEnd("Soup\n") == "Soup";
  }

  /** The recipe after `super().update`: every given field overwritten, the tag set
      replaced when tags are given, author and creation stamp unchanged. */
  function UpdatedRecipe(r: Recipe, payload: RecipePayload): Recipe
    requires payload.cookingTime.Some? ==> payload.cookingTime.value >= 1
    requires payload.tags.Some? ==> forall t | t in payload.tags.value :: t >= 0
  {
    Recipe(
      r.author,
      if payload.name.Some? then Trim(payload.name.value) else r.name,
      if payload.text.Some? then Trim(payload.text.value) else r.text,
      if payload.cookingTime.Some? then payload.cookingTime.value as nat else r.cookingTime,
      r.createdAt,
      if payload.tags.Some? then set t | t in payload.tags.value :: t as nat else r.tags)
  }

  function ValidEntries(payload: RecipePayload, ingredientCount: nat): seq<Entry>
    requires payload.ingredients.Some? ==> forall e | e in payload.ingredients.value :: IngredientOk(e, ingredientCount)
  {
    if payload.ingredients.Some? then
      assert forall e | e in payload.ingredients.value :: IngredientOk(e, ingredientCount);
      assert forall e | e in payload.ingredients.value :: e.id >= 0 && e.amount >= 0;
      ToEntries(payload.ingredients.value)
    else []
  }

  lemma EntriesInRange(payload: RecipePayload, ingredientCount: nat)
    requires payload.ingredients.Some? ==> forall e | e in payload.ingredients.value :: IngredientOk(e, ingredientCount)
    ensures forall e | e in GroupSum(ValidEntries(payload, ingredientCount)) :: e.0 < ingredientCount && e.1 >= 1
  {
    var s := ValidEntries(payload, ingredientCount);
    if payload.ingredients.Some? {
      forall e | e in s ensures e.0 < ingredientCount && e.1 >= 1 {
        var m :| 0 <= m < |s| && s[m] == e;
        assert payload.ingredients.value[m] in payload.ingredients.value;
      }
    }
    GroupSumPositive(s);
    GroupSumKeys(s);
    forall e | e in GroupSum(s) ensures e.0 < ingredientCount {
      assert e.0 in KeySet(GroupSum(s));
    }
  }

  /** `create`: the recipe is saved with the requesting user as author, the merged
      ingredients are attached, then the submitted tags are added. */
  method Create(db: Database, viewer: nat, payload: RecipePayload, now: int) returns (res: Result<nat>)
    requires db.Valid() && viewer < |db.users|
    modifies db
    ensures db.Valid()
    ensures res.Ok? <==> FieldErrors(payload, false, |old(db.ingredients)|, |old(db.tags)|) == {}
    ensures res.Err? ==> res == Err(Invalid(FieldErrors(payload, false, |old(db.ingredients)|, |old(db.tags)|)))
                         && unchanged(db)
    ensures res.Ok? ==>
      && res.value == |old(db.recipes)|
      && db.recipes == old(db.recipes) + [RecipeFrom(viewer, payload, now)]
      && db.recipeIngredients == Attached(old(db.recipeIngredients), res.value,
                                          GroupSum(ValidEntries(payload, |old(db.ingredients)|)))
      && db.ingredients == old(db.ingredients) && db.tags == old(db.tags) && db.users == old(db.users)
      && db.favorites == old(db.favorites) && db.carts == old(db.carts) && db.follows == old(db.follows)
  {
    var errors := FieldErrors(payload, false, |db.ingredients|, |db.tags|);
    if errors != {} {
      return Err(Invalid(errors));
    }
    var merged := Validate(if payload.ingredients.Some? then Some(ToEntries(payload.ingredients.value)) else None);
    EntriesInRange(payload, |db.ingredients|);
    var id := |db.recipes|;
    var recipe := RecipeFrom(viewer, payload, now);
    db.recipes := db.recipes + [recipe];
    AttachIngredients(db, id, merged);
    res := Ok(id);
  }

  /** `update`: the recipe's fields are overwritten by the given ones, and the merged
      ingredients are re-attached even when the payload had none. */
  method Update(db: Database, recipe: nat, payload: RecipePayload, partial: bool) returns (res: Result<nat>)
    requires db.Valid()
    modifies db
    ensures db.Valid()
    ensures recipe >= |old(db.recipes)| ==> res == Err(NotFound) && unchanged(db)
    ensures recipe < |old(db.recipes)| && FieldErrors(payload, partial, |old(db.ingredients)|, |old(db.tags)|) != {} ==>
              res == Err(Invalid(FieldErrors(payload, partial, |old(db.ingredients)|, |old(db.tags)|))) && unchanged(db)
    ensures res.Ok? ==>
      && recipe < |old(db.recipes)|
      && FieldErrors(payload, partial, |old(db.ingredients)|, |old(db.tags)|) == {}
      && res.value == recipe
      && db.recipes == old(db.recipes)[recipe := UpdatedRecipe(old(db.recipes)[recipe], payload)]
      && db.recipeIngredients == Attached(old(db.recipeIngredients), recipe,
                                          GroupSum(ValidEntries(payload, |old(db.ingredients)|)))
      && db.ingredients == old(db.ingredients) && db.tags == old(db.tags) && db.users == old(db.users)
      && db.favorites == old(db.favorites) && db.carts == old(db.carts) && db.follows == old(db.follows)
    ensures recipe < |old(db.recipes)| && FieldErrors(payload, partial, |old(db.ingredients)|, |old(db.tags)|) == {} ==> res.Ok?
  {
    if recipe >= |db.recipes| {
      return Err(NotFound);
    }
    var errors := FieldErrors(payload, partial, |db.ingredients|, |db.tags|);
    if errors != {} {
      return Err(Invalid(errors));
    }
    var merged := Validate(if payload.ingredients.Some? then Some(ToEntries(payload.ingredients.value)) else None);
    EntriesInRange(payload, |db.ingredients|);
    db.recipes := db.recipes[recipe := UpdatedRecipe(db.recipes[recipe], payload)];
    AttachIngredients(db, recipe, merged);
    res := Ok(recipe);
  }

  // ---- favourite and shopping-cart serializers

  datatype ActionTable = Favorites | ShoppingCart

  /** The message of the unique-together validator on (user, recipe). */
  function AlreadyMessage(table: ActionTable): string
  {
    match table
    case Favorites => "Recipe is already in favorites"
    case ShoppingCart => "Recipe is already in shopping cart"
  }

  /** The short form of a recipe (`RecipeShortSerializer`), without the image. */
  datatype RecipeSummary = RecipeSummary(id: nat, name: string, cookingTime: nat)

  function Summary(recipes: seq<Recipe>, id: nat): RecipeSummary
    requires id < |recipes|
  {
    RecipeSummary(id, recipes[id].name, recipes[id].cookingTime)
  }

  /** `RecipeActionSerializer.to_representation`: a saved favourite or cart row is
      represented by its recipe's short form. */
  function ActionRepresentation(recipes: seq<Recipe>, row: Pair): (r: RecipeSummary)
    requires row.target < |recipes|
    ensures r.id == row.target && r.name == recipes[row.target].name
    ensures r.cookingTime == recipes[row.target].cookingTime
  {
    Summary(recipes, row.target)
  }

  /** The serializer's validation of (user, recipe): refused with the table's message
      when the row already exists. */
  function ValidateAction(rel: set<Pair>, table: ActionTable, row: Pair): (r: Result<Pair>)
    ensures r.Ok? <==> row !in rel
    ensures r.Ok? ==> r.value == row
    ensures r.Err? ==> r.failure == AlreadyExists(AlreadyMessage(table))
  {
    if row in rel then Err(AlreadyExists(AlreadyMessage(table))) else Ok(row)
  }
}
