/** The subscriptions viewset: the list of followed authors, subscribe and
    unsubscribe. */
module UserViews {
  import opened Common
  import opened JoinTables
  import opened Schema
  import opened UserModels
  import opened UserSerializers

  // ---- subscriptions

  /** The keys below n, ascending, that satisfy the filter. An unordered queryset is
      taken in primary-key order. */
  function UsersWhere(n: nat, keep: nat -> bool): (r: seq<nat>)
    ensures forall x: nat :: x in r <==> x < n && keep(x)
    ensures Increasing(r) && forall i :: 0 <= i < |r| ==> r[i] < n
  {
    if n == 0 then []
    else
      var init := UsersWhere(n - 1, keep);
      if keep(n - 1) then
        assert forall x | x in init :: x < n - 1;
        init + [n - 1]
      else init
  }

  /** `User.objects.filter(following__user_id=request.user.id)` as written. For an
      anonymous viewer the key is None, and Django reads `= None` across the reverse
      relation as IS NULL over a left outer join: it selects the users nobody follows. */
  function SubscribedAuthorsAsWritten(userCount: nat, follows: set<Pair>, viewer: Viewer): (r: seq<nat>)
    ensures viewer.Member? ==> forall u: nat :: u in r <==> u < userCount && HasRow(follows, viewer, u)
    ensures viewer.Anonymous? ==> forall u: nat :: u in r <==> u < userCount && forall p | p in follows :: p.target != u
    ensures Increasing(r)
  {
    match viewer
    case Member(v) => UsersWhere(userCount, (u: nat) => Pair(v, u) in follows)
    case Anonymous => UsersWhere(userCount, (u: nat) => u !in Followed(follows))
  }

  /** The users somebody follows. */
  function Followed(follows: set<Pair>): set<nat>
  {
    set p | p in follows :: p.target
  }

  /** The list the endpoint means to show: the authors the viewer follows, and none
      for an anonymous viewer. */
  function SubscribedAuthors(userCount: nat, follows: set<Pair>, viewer: Viewer): (r: seq<nat>)
    ensures forall u: nat :: u in r <==> u < userCount && HasRow(follows, viewer, u)
    ensures Increasing(r)
  {
    match viewer
    case Member(v) => UsersWhere(userCount, (u: nat) => Pair(v, u) in follows)
    case Anonymous => []
  }

  /** As written, an anonymous request lists every user without followers: with two
      users and only user 0 following user 1, it lists user 0. */
  lemma AnonymousSubscriptionsAsWritten()
    ensures SubscribedAuthorsAsWritten(2, {Pair(0, 1)}, Anonymous) == [0]
    ensures SubscribedAuthors(2, {Pair(0, 1)}, Anonymous) == []
  {
    assert Followed({Pair(0, 1)}) == {1};
    var keep := (u: nat) => u !in Followed({Pair(0, 1)});
    assert UsersWhere(0, keep) == [];
    assert UsersWhere(1, keep) == [0];
    assert UsersWhere(2, keep) == [0];
  }

  /** `subscriptions` as written: the subscription profile of each user the query
      selects. A signed-in viewer gets the authors they follow, each marked subscribed;
      an anonymous viewer gets the users nobody follows, each marked not subscribed. */
  function Subscriptions(db: Database, viewer: Viewer, limit: Option<int>): (r: Result<seq<Subscription>>)
    reads db
    ensures r.Err? <==> limit.Some? && limit.value < 0 && SubscribedAuthorsAsWritten(|db.users|, db.follows, viewer) != []
    ensures r.Ok? ==> |r.value| == |SubscribedAuthorsAsWritten(|db.users|, db.follows, viewer)|
    ensures r.Ok? ==> forall i :: 0 <= i < |r.value| ==>
              r.value[i].profile.id == SubscribedAuthorsAsWritten(|db.users|, db.follows, viewer)[i]
              && r.value[i].profile.isSubscribed == viewer.Member?
              && r.value[i] == SubscriptionOf(db.users, db.recipes, db.follows, viewer,
                                              SubscribedAuthorsAsWritten(|db.users|, db.follows, viewer)[i], limit).value
    ensures viewer.Member? ==> r == SubscriptionsCorrected(db, viewer, limit)
  {
    var ids := SubscribedAuthorsAsWritten(|db.users|, db.follows, viewer);
    SubscriptionsOf(db.users, db.recipes, db.follows, viewer, ids, limit)
  }

  /** The intended `subscriptions`: the subscription profile of each followed author,
      and an empty list for an anonymous viewer. */
  function SubscriptionsCorrected(db: Database, viewer: Viewer, limit: Option<int>): (r: Result<seq<Subscription>>)
    reads db
    ensures r.Err? <==> limit.Some? && limit.value < 0 && SubscribedAuthors(|db.users|, db.follows, viewer) != []
    ensures r.Ok? ==> |r.value| == |SubscribedAuthors(|db.users|, db.follows, viewer)|
    ensures r.Ok? ==> forall i :: 0 <= i < |r.value| ==>
              r.value[i].profile.id == SubscribedAuthors(|db.users|, db.follows, viewer)[i]
              && r.value[i].profile.isSubscribed
              && r.value[i] == SubscriptionOf(db.users, db.recipes, db.follows, viewer,
                                              SubscribedAuthors(|db.users|, db.follows, viewer)[i], limit).value
    ensures viewer.Anonymous? ==> r == Ok([])
  {
    var ids := SubscribedAuthors(|db.users|, db.follows, viewer);
    SubscriptionsOf(db.users, db.recipes, db.follows, viewer, ids, limit)
  }

  /** The list serializer renders each user in turn, with `is_subscribed` relative to
      the viewer; the only way a rendering fails, a negative `recipes_limit`, fails on
      the first user already. */
  function SubscriptionsOf(users: seq<User>, recipes: seq<Recipe>, follows: set<Pair>, viewer: Viewer,
                           ids: seq<nat>, limit: Option<int>): (r: Result<seq<Subscription>>)
    requires forall i :: 0 <= i < |ids| ==> ids[i] < |users|
    ensures r.Err? <==> limit.Some? && limit.value < 0 && ids != []
    ensures r.Ok? ==> |r.value| == |ids|
    ensures r.Ok? ==> forall i :: 0 <= i < |ids| ==>
              r.value[i].profile.id == ids[i] && r.value[i].profile.isSubscribed == HasRow(follows, viewer, ids[i])
    ensures r.Ok? ==> forall i :: 0 <= i < |ids| ==>
              SubscriptionOf(users, recipes, follows, viewer, ids[i], limit).Ok?
              && r.value[i] == SubscriptionOf(users, recipes, follows, viewer, ids[i], limit).value
  {
    if ids != [] && limit.Some? && limit.value < 0 then Err(Unhandled)
    else Ok(seq(|ids|, i requires 0 <= i < |ids| => SubscriptionOf(users, recipes, follows, viewer, ids[i], limit).value))
  }

  // ---- subscribe and unsubscribe

  function RequestUser(viewer: Viewer): Option<nat>
  {
    match viewer
    case Member(id) => Some(id)
    case Anonymous => None
  }

  /** `subscribe`: look the author up (not found otherwise), validate the Follow pair,
      save it, and answer with the author's subscription profile. The row is saved
      before the answer is rendered, so a rendering failure leaves it saved. */
  method Subscribe(db: Database, viewer: Viewer, author: nat, limit: Option<int>) returns (res: Result<Subscription>)
    requires db.Valid() && (viewer.Member? ==> viewer.id < |db.users|)
    modifies db
    ensures db.Valid()
    ensures author >= |old(db.users)| ==> res == Err(NotFound) && unchanged(db)
    ensures author < |old(db.users)| && ValidateFollow(old(db.follows), |old(db.users)|, RequestUser(viewer), author).Err? ==>
              res == Err(ValidateFollow(old(db.follows), |old(db.users)|, RequestUser(viewer), author).failure) && unchanged(db)
    ensures author < |old(db.users)| && ValidateFollow(old(db.follows), |old(db.users)|, RequestUser(viewer), author).Ok? ==>
              && db.follows == AfterAdd(old(db.follows), Pair(viewer.id, author))
              && res == FollowRepresentation(db.users, db.recipes, db.follows, viewer, Pair(viewer.id, author), limit)
    ensures res.Ok? ==> res.value.profile.id == author && res.value.profile.isSubscribed
    ensures db.ingredients == old(db.ingredients) && db.tags == old(db.tags) && db.users == old(db.users)
    ensures db.recipes == old(db.recipes) && db.recipeIngredients == old(db.recipeIngredients)
    ensures db.favorites == old(db.favorites) && db.carts == old(db.carts)
  {
    if author >= |db.users| {
      return Err(NotFound);
    }
    var checked := ValidateFollow(db.follows, |db.users|, RequestUser(viewer), author);
    if checked.Err? {
      return Err(checked.failure);
    }
    var row := checked.value;
    assert row == Pair(viewer.id, author) && row !in db.follows;
    assert PairsWellFormed(db.follows + {row}, |db.users|, |db.users|);
    db.follows := db.follows + {row};
    res := FollowRepresentation(db.users, db.recipes, db.follows, viewer, row, limit);
    assert res.Ok? ==> HasRow(db.follows, viewer, author);
  }

  /** `unsubscribe`: look the author up, then delete the viewer's Follow row for that
      author, or answer not found when there is none (always, for an anonymous viewer,
      whose key matches no row). */
  method Unsubscribe(db: Database, viewer: Viewer, author: nat) returns (res: Result<()>)
    requires db.Valid()
    modifies db
    ensures db.Valid()
    ensures res.Ok? <==> author < |old(db.users)| && HasRow(old(db.follows), viewer, author)
    ensures res.Err? ==> res == Err(NotFound) && unchanged(db)
    ensures res.Ok? ==> db.follows == AfterDelete(old(db.follows), Pair(viewer.id, author))
    ensures db.ingredients == old(db.ingredients) && db.tags == old(db.tags) && db.users == old(db.users)
    ensures db.recipes == old(db.recipes) && db.recipeIngredients == old(db.recipeIngredients)
    ensures db.favorites == old(db.favorites) && db.carts == old(db.carts)
  {
    if author >= |db.users| || !HasRow(db.follows, viewer, author) {
      return Err(NotFound);
    }
    db.follows := db.follows - {Pair(viewer.id, author)};
    res := Ok(());
  }

  /** Subscribing to a new author and then unsubscribing restores the Follow table. */
  method SubscribeThenUnsubscribe(db: Database, viewer: nat, author: nat)
    requires db.Valid() && viewer < |db.users| && author < |db.users| && viewer != author
    requires Pair(viewer, author) !in db.follows
    modifies db
    ensures db.Valid()
    ensures db.follows == old(db.follows) && db.favorites == old(db.favorites) && db.carts == old(db.carts)
    ensures db.recipes == old(db.recipes) && db.recipeIngredients == old(db.recipeIngredients)
  {
    ghost var before := db.follows;
    var subscribed := Subscribe(db, Member(viewer), author, None);
    assert db.follows == before + {Pair(viewer, author)};
    var unsubscribed := Unsubscribe(db, Member(viewer), author);
    assert unsubscribed.Ok?;
    AddThenDelete(before, Pair(viewer, author));
  }
}
