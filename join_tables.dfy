/** The three join tables (Favorite, ShoppingCart, Follow) as sets of (user, target)
    pairs, with the two changes the views make to them and the queries they answer. */
module JoinTables {
  import opened Common

  /** The viewer-relative flag (`annotate_is_favorited`, `annotate_is_in_shopping_cart`,
      `is_subscribed`): a row (viewer, target) exists. An anonymous viewer's key is
      None, and a filter on `user=None` matches no row. */
  predicate HasRow(rel: set<Pair>, viewer: Viewer, target: nat)
  {
    viewer.Member? && Pair(viewer.id, target) in rel
  }

  /** The table after a save that the uniqueness validator let through, or unchanged
      when the validator refused the pair because it is already there. */
  function AfterAdd(rel: set<Pair>, p: Pair): set<Pair>
  {
    if p in rel then rel else rel + {p}
  }

  /** The table after `get_object_or_404(...).delete()`; unchanged when the row is absent. */
  function AfterDelete(rel: set<Pair>, p: Pair): set<Pair>
  {
    rel - {p}
  }

  /** The number of rows pointing at target (`favorite_count`). */
  function CountFor(rel: set<Pair>, target: nat): nat
  {
    |set p | p in rel && p.target == target|
  }

  /** Adding an absent pair and then deleting it restores the table. */
  lemma AddThenDelete(rel: set<Pair>, p: Pair)
    requires p !in rel
    ensures AfterDelete(AfterAdd(rel, p), p) == rel
  {
    assert (rel + {p}) - {p} == rel;
  }

  /** Deleting a present pair and then adding it back restores the table. */
  lemma DeleteThenAdd(rel: set<Pair>, p: Pair)
    requires p in rel
    ensures AfterAdd(AfterDelete(rel, p), p) == rel
  {
    assert (rel - {p}) + {p} == rel;
  }

  /** After an add the flag holds for that pair, and every other flag is as before. */
  lemma FlagsAfterAdd(rel: set<Pair>, p: Pair, viewer: Viewer, target: nat)
    ensures HasRow(AfterAdd(rel, p), viewer, target) ==
            (HasRow(rel, viewer, target) || (viewer == Member(p.user) && target == p.target))
  {
  }

  /** After a delete the flag is false for that pair, and every other flag is as before. */
  lemma FlagsAfterDelete(rel: set<Pair>, p: Pair, viewer: Viewer, target: nat)
    ensures HasRow(AfterDelete(rel, p), viewer, target) ==
            (HasRow(rel, viewer, target) && !(viewer == Member(p.user) && target == p.target))
  {
  }

  /** A new row raises its target's count by one and leaves every other count alone. */
  lemma {:induction false} CountAfterAdd(rel: set<Pair>, p: Pair, target: nat)
    requires p !in rel
    ensures CountFor(AfterAdd(rel, p), target) == CountFor(rel, target) + (if p.target == target then 1 else 0)
  {
    var before := set q | q in rel && q.target == target;
    var after := set q | q in rel + {p} && q.target == target;
    if p.target == target {
      assert after == before + {p};
    } else {
      assert after == before;
    }
  }

  /** Deleting a present row lowers its target's count by one and leaves every other
      count alone. */
  lemma {:induction false} CountAfterDelete(rel: set<Pair>, p: Pair, target: nat)
    requires p in rel
    ensures CountFor(AfterDelete(rel, p), target) + (if p.target == target then 1 else 0) == CountFor(rel, target)
  {
    var before := set q | q in rel && q.target == target;
    var after := set q | q in rel - {p} && q.target == target;
    if p.target == target {
      assert before == after + {p};
    } else {
      assert after == before;
    }
  }
}
