/** The ordering a query's `order_by` (or a model's default ordering) imposes on the rows
    it returns, modelled as a stable insertion sort under a total preorder. Rows that
    compare equal keep the order in which the table holds them. */
module Sorting {

  ghost predicate TotalPreorder<T(!new)>(le: (T, T) -> bool)
  {
    && (forall a: T, b: T :: le(a, b) || le(b, a))
    && (forall a: T, b: T, c: T :: le(a, b) && le(b, c) ==> le(a, c))
  }

  ghost predicate SortedBy<T>(s: seq<T>, le: (T, T) -> bool)
  {
    forall i, j :: 0 <= i < j < |s| ==> le(s[i], s[j])
  }

  /** Puts x after every element of s that is not above it. */
  function Insert<T>(x: T, s: seq<T>, le: (T, T) -> bool): (r: seq<T>)
    ensures multiset(r) == multiset(s) + multiset{x}
  {
    if s == [] then [x]
    else if le(s[0], x) then
      assert s == [s[0]] + s[1..];
      [s[0]] + Insert(x, s[1..], le)
    else [x] + s
  }

  function SortBy<T>(s: seq<T>, le: (T, T) -> bool): (r: seq<T>)
    ensures multiset(r) == multiset(s)
    ensures |r| == |s|
  {
    if s == [] then []
    else
      var init, last := s[..|s| - 1], s[|s| - 1];
      assert s == init + [last];
      assert multiset(s) == multiset(init) + multiset{last};
      var sorted := SortBy(init, le);
      Insert(last, sorted, le)
  }

  lemma {:induction false} InsertSorted<T(!new)>(x: T, s: seq<T>, le: (T, T) -> bool)
    requires TotalPreorder(le)
    requires SortedBy(s, le)
    ensures SortedBy(Insert(x, s, le), le)
  {
    if s != [] && le(s[0], x) {
      InsertSorted(x, s[1..], le);
      InsertBehind(x, s, le);
    } else if s != [] {
      InsertInFront(x, s, le);
    }
  }

  /** Every element of Insert(x, s) is x or comes from s. */
  lemma InsertMembers<T>(x: T, s: seq<T>, le: (T, T) -> bool)
    ensures forall y :: y in Insert(x, s, le) ==> y in s || y == x
  {
    forall y | y in Insert(x, s, le) ensures y in s || y == x {
      assert y in multiset(Insert(x, s, le));
    }
  }

  /** When x goes behind the sorted s's first element, that element stays first. */
  lemma InsertBehind<T(!new)>(x: T, s: seq<T>, le: (T, T) -> bool)
    requires TotalPreorder(le) && SortedBy(s, le)
    requires s != [] && le(s[0], x)
    requires SortedBy(Insert(x, s[1..], le), le)
    ensures SortedBy(Insert(x, s, le), le)
  {
    var t := Insert(x, s[1..], le);
    var r := Insert(x, s, le);
    InsertMembers(x, s[1..], le);
    assert r == [s[0]] + t;
    forall k | 0 <= k < |t| ensures le(s[0], t[k]) {
      assert t[k] in t;
      if t[k] != x {
        var m :| 0 <= m < |s[1..]| && s[1..][m] == t[k];
        assert s[1 + m] == t[k];
      }
    }
    forall i, j | 0 <= i < j < |r| ensures le(r[i], r[j]) {
      assert r[j] == t[j - 1];
      if i > 0 {
        assert r[i] == t[i - 1];
      }
    }
  }

  /** When x is strictly below the sorted s's first element, it goes in front. */
  lemma InsertInFront<T(!new)>(x: T, s: seq<T>, le: (T, T) -> bool)
    requires TotalPreorder(le) && SortedBy(s, le)
    requires s != [] && !le(s[0], x)
    ensures SortedBy(Insert(x, s, le), le)
  {
    var r := Insert(x, s, le);
    assert r == [x] + s;
    assert le(x, s[0]);
    forall i, j | 0 <= i < j < |r| ensures le(r[i], r[j]) {
      assert r[j] == s[j - 1];
      if i > 0 {
        assert r[i] == s[i - 1];
      } else if j > 1 {
        assert le(s[0], s[j - 1]);
        assert le(x, s[0]) && le(s[0], s[j - 1]) ==> le(x, s[j - 1]);
      }
    }
  }

  lemma {:induction false} SortBySorted<T(!new)>(s: seq<T>, le: (T, T) -> bool)
    requires TotalPreorder(le)
    ensures SortedBy(SortBy(s, le), le)
  {
    if s != [] {
      SortBySorted(s[..|s| - 1], le);
      InsertSorted(s[|s| - 1], SortBy(s[..|s| - 1], le), le);
    }
  }
}
