/** Summing amounts per ingredient into an insertion-ordered dictionary, the
    `defaultdict(int)` accumulation that both the recipe serializer's `validate`
    and the shopping-list export perform. Dictionary keys are ingredient primary keys
    (a model instance hashes and compares by its primary key). */
module Grouping {

  /** (ingredient id, amount): a submitted ingredient entry or a recipe-ingredient row. */
  type Entry = (nat, nat)

  function KeySet(s: seq<Entry>): set<nat>
  {
    set e | e in s :: e.0
  }

  predicate DistinctKeys(s: seq<Entry>)
  {
    forall i, j :: 0 <= i < j < |s| ==> s[i].0 != s[j].0
  }

  /** The sum of the amounts s gives for key k. */
  function SumFor(s: seq<Entry>, k: nat): nat
  {
    if s == [] then 0
    else SumFor(s[..|s| - 1], k) + (if s[|s| - 1].0 == k then s[|s| - 1].1 else 0)
  }

  /** The sum of all amounts in s. */
  function Total(s: seq<Entry>): nat
  {
    if s == [] then 0 else Total(s[..|s| - 1]) + s[|s| - 1].1
  }

  /** `d[k] += a` on an insertion-ordered dictionary given as its item list:
      an existing key keeps its place, a new key goes last. */
  function Bump(items: seq<Entry>, k: nat, a: nat): seq<Entry>
  {
    if items == [] then [(k, a)]
    else if items[0].0 == k then [(k, items[0].1 + a)] + items[1..]
    else [items[0]] + Bump(items[1..], k, a)
  }

  /** The dictionary's items after accumulating every entry of s in order. */
  function GroupSum(s: seq<Entry>): seq<Entry>
  {
    if s == [] then [] else Bump(GroupSum(s[..|s| - 1]), s[|s| - 1].0, s[|s| - 1].1)
  }

  /** The loop `for k, a in s: d[k] += a`, with the dictionary kept as its item list
      plus a hash index from key to position, as an insertion-ordered dictionary is. */
  method Accumulate(s: seq<Entry>) returns (items: seq<Entry>)
    ensures items == GroupSum(s)
  {
    var index: map<nat, nat> := map[];
    items := [];
    var i := 0;
    while i < |s|
      invariant 0 <= i <= |s|
      invariant items == GroupSum(s[..i])
      invariant Indexes(index, items)
    {
      var (k, a) := s[i];
      assert s[..i + 1] == s[..i] + [(k, a)];
      AccumulateStep(s[..i], k, a, items, index);
      if k in index {
        var j := index[k];
        items := items[j := (k, items[j].1 + a)];
      } else {
        index := index[k := |items|];
        items := items + [(k, a)];
      }
      i := i + 1;
    }
    assert s[..i] == s;
  }

  /** The index maps exactly the dictionary's keys to their positions. */
  ghost predicate Indexes(index: map<nat, nat>, items: seq<Entry>)
  {
    && (forall k :: k in index ==> index[k] < |items| && items[index[k]].0 == k)
    && (forall j :: 0 <= j < |items| ==> items[j].0 in index)
  }

  /** One turn of Accumulate's loop: either the indexed item grows, or a new item
      goes last and into the index. */
  lemma AccumulateStep(p: seq<Entry>, k: nat, a: nat, items: seq<Entry>, index: map<nat, nat>)
    requires items == GroupSum(p) && Indexes(index, items)
    ensures k in index ==> index[k] < |items|
    ensures k in index ==>
              && GroupSum(p + [(k, a)]) == items[index[k] := (k, items[index[k]].1 + a)]
              && Indexes(index, items[index[k] := (k, items[index[k]].1 + a)])
    ensures k !in index ==>
              && GroupSum(p + [(k, a)]) == items + [(k, a)]
              && Indexes(index[k := |items|], items + [(k, a)])
  {
    var q := p + [(k, a)];
    assert q[..|q| - 1] == p;
    assert GroupSum(q) == Bump(items, k, a);
    GroupSumDistinct(p);
    if k in index {
      var j := index[k];
      IndexesAfterUpdate(index, items, k, items[j].1 + a);
      assert items[j].0 == k;
      BumpExisting(items, j, a);
    } else {
      IndexesAfterAppend(index, items, k, a);
      BumpFresh(items, k, a);
    }
  }

  lemma IndexesAfterUpdate(index: map<nat, nat>, items: seq<Entry>, k: nat, v: nat)
    requires Indexes(index, items) && k in index
    ensures index[k] < |items| && Indexes(index, items[index[k] := (k, v)])
  {
  }

  lemma IndexesAfterAppend(index: map<nat, nat>, items: seq<Entry>, k: nat, a: nat)
    requires Indexes(index, items) && k !in index
    ensures k !in KeySet(items)
    ensures Indexes(index[k := |items|], items + [(k, a)])
  {
    forall e | e in items ensures e.0 != k {
      var m :| 0 <= m < |items| && items[m] == e;
    }
  }

  // ---- Bump on a dictionary without repeated keys

  lemma {:induction false} BumpExisting(items: seq<Entry>, j: nat, a: nat)
    requires DistinctKeys(items) && j < |items|
    ensures Bump(items, items[j].0, a) == items[j := (items[j].0, items[j].1 + a)]
  {
    var k := items[j].0;
    if j > 0 {
      var t := items[1..];
      assert forall x, y :: 0 <= x < y < |t| ==> t[x] == items[x + 1] && t[y] == items[y + 1];
      assert t[j - 1] == items[j] && items[0].0 != k;
      BumpExisting(t, j - 1, a);
      assert Bump(items, k, a) == [items[0]] + Bump(t, k, a);
      assert items[j := (k, items[j].1 + a)] == [items[0]] + t[j - 1 := (k, items[j].1 + a)];
    } else {
      assert items[0 := (k, items[0].1 + a)] == [(k, items[0].1 + a)] + items[1..];
    }
  }

  lemma {:induction false} BumpFresh(items: seq<Entry>, k: nat, a: nat)
    requires k !in KeySet(items)
    ensures Bump(items, k, a) == items + [(k, a)]
  {
    if items != [] {
      assert items[0] in items;
      KeySetTail(items);
      BumpFresh(items[1..], k, a);
    }
  }

  lemma KeySetTail(items: seq<Entry>)
    requires items != []
    ensures KeySet(items) == {items[0].0} + KeySet(items[1..])
  {
    assert items == [items[0]] + items[1..];
  }

  /** Bump keeps every key in its place and can only append the new key. */
  lemma {:induction false} BumpKeysInPlace(items: seq<Entry>, k: nat, a: nat)
    ensures |Bump(items, k, a)| == |items| || |Bump(items, k, a)| == |items| + 1
    ensures forall m :: 0 <= m < |items| ==> Bump(items, k, a)[m].0 == items[m].0
    ensures |Bump(items, k, a)| == |items| + 1 ==> Bump(items, k, a)[|items|].0 == k
  {
    if items != [] && items[0].0 != k {
      BumpKeysInPlace(items[1..], k, a);
      var r := Bump(items, k, a);
      assert r == [items[0]] + Bump(items[1..], k, a);
    }
  }

  lemma {:induction false} BumpShape(items: seq<Entry>, k: nat, a: nat)
    requires DistinctKeys(items)
    ensures k in KeySet(items) ==>
      exists j :: 0 <= j < |items| && items[j].0 == k && Bump(items, k, a) == items[j := (k, items[j].1 + a)]
    ensures k !in KeySet(items) ==> Bump(items, k, a) == items + [(k, a)]
  {
    if k in KeySet(items) {
      var e :| e in items && e.0 == k;
      var j :| 0 <= j < |items| && items[j] == e;
      BumpExisting(items, j, a);
    } else {
      BumpFresh(items, k, a);
    }
  }

  // ---- what the accumulated dictionary holds

  /** No key appears twice among the dictionary's items. */
  lemma {:induction false} GroupSumDistinct(s: seq<Entry>)
    ensures DistinctKeys(GroupSum(s))
  {
    if s != [] {
      var p := s[..|s| - 1];
      GroupSumDistinct(p);
      BumpShape(GroupSum(p), s[|s| - 1].0, s[|s| - 1].1);
      var g := GroupSum(p);
      if s[|s| - 1].0 !in KeySet(g) {
        forall i | 0 <= i < |g| ensures g[i].0 != s[|s| - 1].0 {
          assert g[i] in g;
        }
      }
    }
  }

  /** The dictionary has a key exactly for each ingredient the entries mention. */
  lemma {:induction false} GroupSumKeys(s: seq<Entry>)
    ensures KeySet(GroupSum(s)) == KeySet(s)
  {
    if s != [] {
      var p := s[..|s| - 1];
      var e := s[|s| - 1];
      GroupSumKeys(p);
      BumpKeys(GroupSum(p), e.0, e.1);
      assert s == p + [e];
      assert KeySet(s) == KeySet(p) + {e.0};
    }
  }

  lemma {:induction false} BumpKeys(items: seq<Entry>, k: nat, a: nat)
    ensures KeySet(Bump(items, k, a)) == KeySet(items) + {k}
  {
    if items != [] {
      assert items == [items[0]] + items[1..];
      assert KeySet(items) == {items[0].0} + KeySet(items[1..]);
      if items[0].0 == k {
        assert KeySet([(k, items[0].1 + a)] + items[1..]) == {k} + KeySet(items[1..]);
      } else {
        BumpKeys(items[1..], k, a);
        assert KeySet([items[0]] + Bump(items[1..], k, a)) == {items[0].0} + KeySet(Bump(items[1..], k, a));
      }
    }
  }

  /** Each key's value is the sum of the amounts the entries give it. */
  lemma {:induction false} GroupSumAmounts(s: seq<Entry>)
    ensures forall j :: 0 <= j < |GroupSum(s)| ==> GroupSum(s)[j].1 == SumFor(s, GroupSum(s)[j].0)
  {
    if s != [] {
      var p := s[..|s| - 1];
      var e := s[|s| - 1];
      GroupSumAmounts(p);
      GroupSumDistinct(p);
      GroupSumKeys(p);
      BumpShape(GroupSum(p), e.0, e.1);
      var g := GroupSum(p);
      if e.0 !in KeySet(g) {
        assert e.0 !in KeySet(p);
        SumForAbsent(p, e.0);
      }
    }
  }

  lemma {:induction false} SumForAbsent(s: seq<Entry>, k: nat)
    requires k !in KeySet(s)
    ensures SumFor(s, k) == 0
  {
    if s != [] {
      assert s[|s| - 1] in s;
      assert forall e | e in s[..|s| - 1] :: e in s;
      SumForAbsent(s[..|s| - 1], k);
    }
  }

  /** Merging loses no amount: the values sum to the total of the entries. */
  lemma {:induction false} GroupSumTotal(s: seq<Entry>)
    ensures Total(GroupSum(s)) == Total(s)
  {
    if s != [] {
      var p := s[..|s| - 1];
      var e := s[|s| - 1];
      GroupSumTotal(p);
      GroupSumDistinct(p);
      BumpTotal(GroupSum(p), e.0, e.1);
    }
  }

  lemma {:induction false} BumpTotal(items: seq<Entry>, k: nat, a: nat)
    ensures Total(Bump(items, k, a)) == Total(items) + a
  {
    if items != [] {
      if items[0].0 == k {
        TotalCons((k, items[0].1 + a), items[1..]);
        TotalCons(items[0], items[1..]);
        assert items == [items[0]] + items[1..];
      } else {
        BumpTotal(items[1..], k, a);
        TotalCons(items[0], Bump(items[1..], k, a));
        TotalCons(items[0], items[1..]);
        assert items == [items[0]] + items[1..];
      }
    }
  }

  lemma {:induction false} TotalCons(e: Entry, s: seq<Entry>)
    ensures Total([e] + s) == e.1 + Total(s)
  {
    if s != [] {
      assert ([e] + s)[..|[e] + s| - 1] == [e] + s[..|s| - 1];
      TotalCons(e, s[..|s| - 1]);
    }
  }

  /** The position of k's first occurrence among the entries, or |s| when k does not
      occur. */
  function FirstIndex(s: seq<Entry>, k: nat): (r: nat)
    ensures r <= |s|
    ensures r < |s| ==> s[r].0 == k
    ensures forall m :: 0 <= m < r ==> s[m].0 != k
    ensures r < |s| <==> k in KeySet(s)
  {
    if s == [] then 0
    else if s[0].0 == k then 0
    else
      KeySetTail(s);
      1 + FirstIndex(s[1..], k)
  }

  /** Appending an entry keeps every first occurrence already there, and makes the
      entry's key first occur at the end when it is new. */
  lemma FirstIndexAppend(s: seq<Entry>, e: Entry, k: nat)
    ensures k in KeySet(s) ==> FirstIndex(s + [e], k) == FirstIndex(s, k)
    ensures k !in KeySet(s) && e.0 == k ==> FirstIndex(s + [e], k) == |s|
  {
    var t := s + [e];
    assert forall m :: 0 <= m < |s| ==> t[m] == s[m];
    assert t[|s|] == e;
  }

  /** Keys keep the order of their first occurrence: of two keys of the dictionary,
      the earlier one first occurs among the entries before the later one does. */
  lemma {:induction false} GroupSumOrder(s: seq<Entry>, i: nat, j: nat)
    requires i < j < |GroupSum(s)|
    ensures FirstIndex(s, GroupSum(s)[i].0) < FirstIndex(s, GroupSum(s)[j].0) < |s|
  {
    var pre := s[..|s| - 1];
    var e := s[|s| - 1];
    var g := GroupSum(pre);
    var r := GroupSum(s);
    assert r == Bump(g, e.0, e.1);
    assert s == pre + [e];
    BumpKeysInPlace(g, e.0, e.1);
    GroupSumKeys(pre);
    assert g[i] in g;
    assert r[i].0 == g[i].0;
    FirstIndexAppend(pre, e, g[i].0);
    if j < |g| {
      GroupSumOrder(pre, i, j);
      assert g[j] in g;
      assert r[j].0 == g[j].0;
      FirstIndexAppend(pre, e, g[j].0);
    } else {
      GroupSumDistinct(pre);
      BumpShape(g, e.0, e.1);
      assert j == |g| && |r| == |g| + 1;
      assert e.0 !in KeySet(pre);
      assert r[j].0 == e.0;
      FirstIndexAppend(pre, e, e.0);
    }
  }

  /** Summing depends only on which entries there are, not on their order. */
  lemma {:induction false} SumForPermutation(s: seq<Entry>, t: seq<Entry>, k: nat)
    requires multiset(s) == multiset(t)
    ensures SumFor(s, k) == SumFor(t, k)
    decreases |s|
  {
    if s != [] {
      var e := s[|s| - 1];
      assert e in multiset(t);
      var m :| 0 <= m < |t| && t[m] == e;
      var rest := t[..m] + t[m + 1..];
      RemoveOne(s, t, m);
      SumForPermutation(s[..|s| - 1], rest, k);
      SumForRemove(t, m, k);
    }
  }

  lemma RemoveOne(s: seq<Entry>, t: seq<Entry>, m: nat)
    requires multiset(s) == multiset(t) && s != [] && m < |t| && t[m] == s[|s| - 1]
    ensures multiset(s[..|s| - 1]) == multiset(t[..m] + t[m + 1..])
  {
    var e := t[m];
    assert t == t[..m] + [e] + t[m + 1..];
    assert s == s[..|s| - 1] + [e];
    var before, after := multiset(s[..|s| - 1]), multiset(t[..m] + t[m + 1..]);
    assert before + multiset{e} == after + multiset{e};
    forall x ensures before[x] == after[x] {
      assert (before + multiset{e})[x] == (after + multiset{e})[x];
    }
  }

  lemma SumForRemove(t: seq<Entry>, m: nat, k: nat)
    requires m < |t|
    ensures SumFor(t, k) == SumFor(t[..m] + t[m + 1..], k) + (if t[m].0 == k then t[m].1 else 0)
  {
    assert t == t[..m] + [t[m]] + t[m + 1..];
    SumForConcat(t[..m] + [t[m]], t[m + 1..], k);
    SumForConcat(t[..m], t[m + 1..], k);
    SumForConcat(t[..m], [t[m]], k);
    assert SumFor([t[m]], k) == (if t[m].0 == k then t[m].1 else 0) by {
      var one: seq<Entry> := [t[m]];
      assert one[..0] == [];
    }
  }

  lemma {:induction false} SumForConcat(a: seq<Entry>, b: seq<Entry>, k: nat)
    ensures SumFor(a + b, k) == SumFor(a, k) + SumFor(b, k)
    decreases |b|
  {
    if b == [] {
      assert a + b == a;
    } else {
      assert (a + b)[..|a + b| - 1] == a + b[..|b| - 1];
      SumForConcat(a, b[..|b| - 1], k);
    }
  }

  lemma KeySetPermutation(s: seq<Entry>, t: seq<Entry>)
    requires multiset(s) == multiset(t)
    ensures KeySet(s) == KeySet(t)
  {
    forall x | x in KeySet(s) ensures x in KeySet(t) {
      var e :| e in s && e.0 == x;
      assert e in multiset(t);
    }
    forall x | x in KeySet(t) ensures x in KeySet(s) {
      var e :| e in t && e.0 == x;
      assert e in multiset(s);
    }
  }

  /** Every value is positive when every entry's amount is. */
  lemma {:induction false} GroupSumPositive(s: seq<Entry>)
    requires forall e | e in s :: e.1 >= 1
    ensures forall e | e in GroupSum(s) :: e.1 >= 1
  {
    if s != [] {
      assert forall e | e in s[..|s| - 1] :: e in s;
      GroupSumPositive(s[..|s| - 1]);
      BumpPositive(GroupSum(s[..|s| - 1]), s[|s| - 1].0, s[|s| - 1].1);
    }
  }

  lemma {:induction false} BumpPositive(items: seq<Entry>, k: nat, a: nat)
    requires forall e | e in items :: e.1 >= 1
    requires a >= 1
    ensures forall e | e in Bump(items, k, a) :: e.1 >= 1
  {
    if items != [] && items[0].0 != k {
      assert forall e | e in items[1..] :: e in items;
      BumpPositive(items[1..], k, a);
    }
  }
}
