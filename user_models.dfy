/** The user model's own queries: the subscription flag and the email login key. */
module UserModels {
  import opened Common
  import opened JoinTables
  import opened Schema

  /** `User.is_subscribed(to_user)`: false when there is no user to ask about,
      otherwise whether a Follow row (self, to_user) exists. */
  function IsSubscribed(follows: set<Pair>, self: nat, toUser: Option<nat>): (r: bool)
    ensures toUser.None? ==> !r
    ensures toUser.Some? ==> (r <==> HasRow(follows, Member(self), toUser.value))
  {
    match toUser
    case None => false
    case Some(target) => Pair(self, target) in follows
  }

  /** Looks a user up by the login field: the first (and, the emails being unique, the
      only) user whose email matches. */
  function UserByEmail(users: seq<User>, email: string): (r: Option<nat>)
    ensures r.Some? ==> r.value < |users| && users[r.value].email == email
    ensures r.None? ==> forall i :: 0 <= i < |users| ==> users[i].email != email
    ensures r.Some? && EmailsUnique(users) ==>
              forall i :: 0 <= i < |users| && users[i].email == email ==> i == r.value
  {
    if users == [] then None
    else
      var init := users[..|users| - 1];
      match UserByEmail(init, email)
      case Some(i) => Some(i)
      case None => if users[|users| - 1].email == email then Some(|users| - 1) else None
  }

  /** The schema's only constraint on Follow is pair uniqueness, which the set of pairs
      carries by construction: a user may follow themselves as far as the database is
      concerned. Self-follow is refused by the serializer, not by the model. */
  lemma ModelAllowsSelfFollow(db: Database, user: nat)
    requires db.Valid() && user < |db.users|
    ensures PairsWellFormed(db.follows + {Pair(user, user)}, |db.users|, |db.users|)
  {
    forall p | p in db.follows + {Pair(user, user)} ensures p.user < |db.users| && p.target < |db.users| {
      if p != Pair(user, user) {
        assert p in db.follows;
      }
    }
  }
}
