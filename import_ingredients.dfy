/** The `import_ingredients` management command: reads (name, unit) rows and
    get-or-creates one catalog entry per row, counting the entries it created. */
module ImportIngredients {
  import opened Common
  import opened Schema

  /** What the command reports: the number of entries created, or that it failed
      (a missing file, a row without exactly two fields, or an ambiguous lookup). */
  datatype Report = Imported(created: nat) | Failed

  datatype Outcome = Outcome(catalog: seq<Ingredient>, report: Report)

  /** How many catalog entries carry exactly this name and unit. */
  function Occurrences(catalog: seq<Ingredient>, x: Ingredient): (n: nat)
    ensures n > 0 <==> x in catalog
  {
    if catalog == [] then 0
    else Occurrences(catalog[..|catalog| - 1], x) + (if catalog[|catalog| - 1] == x then 1 else 0)
  }

  /** The pairs the well-formed rows name. */
  function Pairs(rows: seq<seq<string>>): set<Ingredient>
  {
    set r | r in rows && |r| == 2 :: Ingredient(r[0], r[1])
  }

  /** The loop from a given catalog and count onwards: unpack the row (failing unless
      it has two fields), then `get_or_create` by name and unit, which fails when more
      than one entry matches, keeps a single match, and creates and counts otherwise.
      A failure ends the run; what was created before it stays. */
  function Run(catalog: seq<Ingredient>, rows: seq<seq<string>>, created: nat): Outcome
    decreases |rows|
  {
    if rows == [] then Outcome(catalog, Imported(created))
    else if |rows[0]| != 2 then Outcome(catalog, Failed)
    else
      var entry := Ingredient(rows[0][0], rows[0][1]);
      var matches := Occurrences(catalog, entry);
      if matches >= 2 then Outcome(catalog, Failed)
      else if matches == 1 then Run(catalog, rows[1..], created)
      else Run(catalog + [entry], rows[1..], created + 1)
  }

  /** The whole command over the rows of a file; no file means failure. */
  function Import(catalog: seq<Ingredient>, file: Option<seq<seq<string>>>): Outcome
  {
    match file
    case None => Outcome(catalog, Failed)
    case Some(rows) => Run(catalog, rows, 0)
  }

  /** `Command.handle`: the loop over the rows, against the database's catalog. */
  method Handle(db: Database, file: Option<seq<seq<string>>>) returns (report: Report)
    requires db.Valid()
    modifies db
    ensures db.Valid()
    ensures db.ingredients == Import(old(db.ingredients), file).catalog
    ensures report == Import(old(db.ingredients), file).report
    ensures db.tags == old(db.tags) && db.users == old(db.users) && db.recipes == old(db.recipes)
    ensures db.recipeIngredients == old(db.recipeIngredients)
    ensures db.favorites == old(db.favorites) && db.carts == old(db.carts) && db.follows == old(db.follows)
  {
    if file.None? {
      return Failed;
    }
    var rows := file.value;
    var createdCount := 0;
    var i := 0;
    while i < |rows|
      invariant 0 <= i <= |rows|
      invariant db.Valid()
      invariant Run(db.ingredients, rows[i..], createdCount) == Run(old(db.ingredients), rows, 0)
      invariant db.tags == old(db.tags) && db.users == old(db.users) && db.recipes == old(db.recipes)
      invariant db.recipeIngredients == old(db.recipeIngredients)
      invariant db.favorites == old(db.favorites) && db.carts == old(db.carts) && db.follows == old(db.follows)
    {
      assert rows[i..][0] == rows[i] && rows[i..][1..] == rows[i + 1..];
      var row := rows[i];
      if |row| != 2 {
        return Failed;
      }
      var entry := Ingredient(row[0], row[1]);
      var matches := Occurrences(db.ingredients, entry);
      if matches >= 2 {
        return Failed;
      }
      if matches == 0 {
        db.ingredients := db.ingredients + [entry];
        createdCount := createdCount + 1;
      }
      i := i + 1;
    }
    assert rows[i..] == [];
    report := Imported(createdCount);
  }

  // ---- what the command promises

  lemma OccurrencesAppend(catalog: seq<Ingredient>, y: Ingredient, x: Ingredient)
    ensures Occurrences(catalog + [y], x) == Occurrences(catalog, x) + (if y == x then 1 else 0)
  {
    assert (catalog + [y])[..|catalog|] == catalog;
  }

  /** The entries that existed before are left as they were, in place. */
  lemma {:induction false} ImportKeepsCatalog(catalog: seq<Ingredient>, rows: seq<seq<string>>, created: nat)
    ensures |catalog| <= |Run(catalog, rows, created).catalog|
    ensures Run(catalog, rows, created).catalog[..|catalog|] == catalog
    decreases |rows|
  {
    if rows != [] && |rows[0]| == 2 {
      var entry := Ingredient(rows[0][0], rows[0][1]);
      var matches := Occurrences(catalog, entry);
      if matches == 1 {
        ImportKeepsCatalog(catalog, rows[1..], created);
      } else if matches == 0 {
        ImportKeepsCatalog(catalog + [entry], rows[1..], created + 1);
        assert (catalog + [entry])[..|catalog|] == catalog;
      }
    }
  }

  /** A pair already in the catalog keeps its number of entries, and a pair that is
      absent gains at most one: the command never duplicates an entry. */
  lemma {:induction false} ImportNoDuplicates(catalog: seq<Ingredient>, rows: seq<seq<string>>, created: nat, x: Ingredient)
    ensures Occurrences(catalog, x) >= 1 ==> Occurrences(Run(catalog, rows, created).catalog, x) == Occurrences(catalog, x)
    ensures Occurrences(catalog, x) == 0 ==> Occurrences(Run(catalog, rows, created).catalog, x) <= 1
    decreases |rows|
  {
    if rows != [] && |rows[0]| == 2 {
      var entry := Ingredient(rows[0][0], rows[0][1]);
      var matches := Occurrences(catalog, entry);
      if matches == 1 {
        ImportNoDuplicates(catalog, rows[1..], created, x);
      } else if matches == 0 {
        ImportNoDuplicates(catalog + [entry], rows[1..], created + 1, x);
        OccurrencesAppend(catalog, entry, x);
      }
    }
  }

  /** After a successful import every row's pair has exactly one entry. */
  lemma {:induction false} ImportAllPresent(catalog: seq<Ingredient>, rows: seq<seq<string>>, created: nat)
    ensures Run(catalog, rows, created).report.Imported? ==>
              forall r | r in rows :: |r| == 2 && Occurrences(Run(catalog, rows, created).catalog, Ingredient(r[0], r[1])) == 1
    decreases |rows|
  {
    var out := Run(catalog, rows, created);
    if rows != [] && |rows[0]| == 2 && out.report.Imported? {
      var entry := Ingredient(rows[0][0], rows[0][1]);
      var matches := Occurrences(catalog, entry);
      var next := if matches == 1 then catalog else catalog + [entry];
      var count := if matches == 1 then created else created + 1;
      assert out == Run(next, rows[1..], count);
      OccurrencesAppend(catalog, entry, entry);
      assert Occurrences(next, entry) == 1;
      ImportAllPresent(next, rows[1..], count);
      ImportNoDuplicates(next, rows[1..], count, entry);
      forall r | r in rows ensures |r| == 2 && Occurrences(out.catalog, Ingredient(r[0], r[1])) == 1 {
        if r != rows[0] {
          assert r in rows[1..];
        }
      }
    }
  }

  /** The count is the number of entries created. */
  lemma {:induction false} ImportCount(catalog: seq<Ingredient>, rows: seq<seq<string>>, created: nat)
    ensures |catalog| <= |Run(catalog, rows, created).catalog|
    ensures Run(catalog, rows, created).report.Imported? ==>
              Run(catalog, rows, created).report.created == created + |Run(catalog, rows, created).catalog| - |catalog|
    decreases |rows|
  {
    ImportKeepsCatalog(catalog, rows, created);
    if rows != [] && |rows[0]| == 2 {
      var entry := Ingredient(rows[0][0], rows[0][1]);
      var matches := Occurrences(catalog, entry);
      if matches == 1 {
        ImportCount(catalog, rows[1..], created);
      } else if matches == 0 {
        ImportCount(catalog + [entry], rows[1..], created + 1);
      }
    }
  }

  /** The entries a run creates are exactly the rows' pairs that were not in the
      catalog before. */
  lemma {:induction false} ImportCreated(catalog: seq<Ingredient>, rows: seq<seq<string>>, created: nat)
    ensures |catalog| <= |Run(catalog, rows, created).catalog|
    ensures Run(catalog, rows, created).report.Imported? ==>
              forall x :: x in Run(catalog, rows, created).catalog[|catalog|..] <==> x in Pairs(rows) && x !in catalog
    decreases |rows|
  {
    ImportKeepsCatalog(catalog, rows, created);
    var out := Run(catalog, rows, created);
    if rows != [] && |rows[0]| == 2 && out.report.Imported? {
      var entry := Ingredient(rows[0][0], rows[0][1]);
      var matches := Occurrences(catalog, entry);
      var tail := rows[1..];
      PairsFirst(rows);
      if matches == 1 {
        ImportCreated(catalog, tail, created);
      } else {
        var next := catalog + [entry];
        ImportCreated(next, tail, created + 1);
        ImportKeepsCatalog(next, tail, created + 1);
        assert out.catalog[|catalog|..] == [entry] + out.catalog[|next|..] by {
          assert out.catalog[..|next|] == next;
        }
      }
    }
  }

  lemma PairsFirst(rows: seq<seq<string>>)
    requires rows != [] && |rows[0]| == 2
    ensures Pairs(rows) == {Ingredient(rows[0][0], rows[0][1])} + Pairs(rows[1..])
  {
    assert rows == [rows[0]] + rows[1..];
  }

  /** Importing the same rows a second time creates nothing. */
  lemma ReimportCreatesNothing(catalog: seq<Ingredient>, rows: seq<seq<string>>)
    requires Run(catalog, rows, 0).report.Imported?
    ensures Run(Run(catalog, rows, 0).catalog, rows, 0) == Outcome(Run(catalog, rows, 0).catalog, Imported(0))
  {
    var after := Run(catalog, rows, 0).catalog;
    ImportAllPresent(catalog, rows, 0);
    RunOverPresent(after, rows);
  }

  /** Over rows whose pairs all have exactly one entry, the loop creates nothing. */
  lemma {:induction false} RunOverPresent(catalog: seq<Ingredient>, rows: seq<seq<string>>)
    requires forall r | r in rows :: |r| == 2 && Occurrences(catalog, Ingredient(r[0], r[1])) == 1
    ensures Run(catalog, rows, 0) == Outcome(catalog, Imported(0))
    decreases |rows|
  {
    if rows != [] {
      assert rows[0] in rows;
      forall r | r in rows[1..] ensures |r| == 2 && Occurrences(catalog, Ingredient(r[0], r[1])) == 1 {
        assert r in rows;
      }
      RunOverPresent(catalog, rows[1..]);
    }
  }

  /** Running two batches of rows one after the other is running them together: the
      second starts from the catalog and count the first left, unless the first
      failed. */
  lemma {:induction false} RunConcat(catalog: seq<Ingredient>, first: seq<seq<string>>, second: seq<seq<string>>, created: nat)
    ensures var mid := Run(catalog, first, created);
            Run(catalog, first + second, created) ==
              if mid.report.Failed? then mid else Run(mid.catalog, second, mid.report.created)
    decreases |first|
  {
    if first != [] {
      assert (first + second)[0] == first[0];
      assert (first + second)[1..] == first[1..] + second;
      if |first[0]| == 2 {
        var entry := Ingredient(first[0][0], first[0][1]);
        var matches := Occurrences(catalog, entry);
        if matches == 1 {
          RunConcat(catalog, first[1..], second, created);
        } else if matches == 0 {
          RunConcat(catalog + [entry], first[1..], second, created + 1);
        }
      }
    } else {
      assert first + second == second;
    }
  }

  /** A malformed row stops the import with a failure, and the entries created for
      the rows before it stay. */
  lemma MalformedRowKeepsEarlierRows(catalog: seq<Ingredient>, rows: seq<seq<string>>, bad: seq<string>, rest: seq<seq<string>>)
    requires |bad| != 2 && Run(catalog, rows, 0).report.Imported?
    ensures Run(catalog, rows + [bad] + rest, 0) == Outcome(Run(catalog, rows, 0).catalog, Failed)
  {
    RunConcat(catalog, rows, [bad] + rest, 0);
    assert rows + [bad] + rest == rows + ([bad] + rest);
  }
}
