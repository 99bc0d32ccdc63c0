/** The user serializers: the viewer-relative subscription flag, the subscription
    profile with its recipe preview and count, and the Follow serializer's checks. */
module UserSerializers {
  import opened Common
  import opened Sorting
  import opened JoinTables
  import opened Schema
  import opened RecipeModels
  import opened RecipeSerializers
  import opened UserModels

  // ---- UserSerializer

  /** `get_is_subscribed`. The request is None when the serializer was built without
      one; an anonymous viewer is not authenticated. */
  function GetIsSubscribed(follows: set<Pair>, request: Option<Viewer>, obj: nat): (r: bool)
    ensures request.None? || request.value.Anonymous? ==> !r
    ensures request.Some? && request.value.Member? ==> (r <==> IsSubscribed(follows, request.value.id, Some(obj)))
    ensures r <==> request.Some? && HasRow(follows, request.value, obj)
  {
    if request.None? || request.value.Anonymous? then false
    else IsSubscribed(follows, request.value.id, Some(obj))
  }

  datatype UserProfile = UserProfile(
    id: nat, email: string, username: string, firstName: string, lastName: string, isSubscribed: bool)

  /** A user as `UserSerializer` shows them to the requesting viewer. */
  function Profile(users: seq<User>, follows: set<Pair>, request: Option<Viewer>, id: nat): (r: UserProfile)
    requires id < |users|
    ensures r.id == id && r.email == users[id].email && r.username == users[id].username
    ensures r.firstName == users[id].firstName && r.lastName == users[id].lastName
    ensures r.isSubscribed <==> request.Some? && HasRow(follows, request.value, id)
  {
    var u := users[id];
    UserProfile(id, u.email, u.username, u.firstName, u.lastName, GetIsSubscribed(follows, request, id))
  }

  // ---- UserSubscriptionSerializer: the recipe preview and the count

  /** The keys among ids whose recipe has the given author, in the order of ids. */
  function ByAuthor(recipes: seq<Recipe>, ids: seq<nat>, author: nat): (r: seq<nat>)
    ensures forall x :: x in r <==> x in ids && x < |recipes| && recipes[x].author == author
  {
    if ids == [] then []
    else
      var last := ids[|ids| - 1];
      ByAuthor(recipes, ids[..|ids| - 1], author)
        + (if last < |recipes| && recipes[last].author == author then [last] else [])
  }

  predicate Increasing(s: seq<nat>)
  {
    forall i, j :: 0 <= i < j < |s| ==> s[i] < s[j]
  }

  /** `obj.recipes.all()`: the author's recipes under the model's default order,
      newest first. */
  function AuthorRecipes(recipes: seq<Recipe>, author: nat): seq<nat>
  {
    SortBy(ByAuthor(recipes, Ids(|recipes|), author), NewestFirst(recipes))
  }

  function Summaries(recipes: seq<Recipe>, ids: seq<nat>): (r: seq<RecipeSummary>)
    requires forall i :: 0 <= i < |ids| ==> ids[i] < |recipes|
    ensures |r| == |ids| && forall i :: 0 <= i < |ids| ==> r[i] == Summary(recipes, ids[i])
  {
    if ids == [] then [] else Summaries(recipes, ids[..|ids| - 1]) + [Summary(recipes, ids[|ids| - 1])]
  }

  /** `get_recipes`: the author's recipes, cut to the first `recipes_limit` when the
      query names one. A negative limit makes the queryset slice raise. */
  function GetRecipes(recipes: seq<Recipe>, author: nat, limit: Option<int>): (r: Result<seq<RecipeSummary>>)
    ensures r.Err? <==> limit.Some? && limit.value < 0
    ensures r.Err? ==> r.failure == Unhandled
    ensures r.Ok? ==> |r.value| == (if limit.Some? && limit.value < |AuthorRecipes(recipes, author)|
                                    then limit.value else |AuthorRecipes(recipes, author)|)
    ensures r.Ok? ==> forall i :: 0 <= i < |r.value| ==>
              i < |AuthorRecipes(recipes, author)| && AuthorRecipes(recipes, author)[i] < |recipes|
              && r.value[i] == Summary(recipes, AuthorRecipes(recipes, author)[i])
  {
    var ids := AuthorRecipes(recipes, author);
    AuthorRecipesCorrect(recipes, author);
    match limit
    case None => Ok(Summaries(recipes, ids))
    case Some(n) =>
      if n < 0 then Err(Unhandled)
      else if n < |ids| then Ok(Summaries(recipes, ids[..n]))
      else Ok(Summaries(recipes, ids))
  }

  /** `get_recipes_count`: `obj.recipes.count()`, the number of recipe rows by author. */
  function RecipesCount(recipes: seq<Recipe>, author: nat): nat
  {
    if recipes == [] then 0
    else RecipesCount(recipes[..|recipes| - 1], author) + (if recipes[|recipes| - 1].author == author then 1 else 0)
  }

  /** Every key is a recipe and the recipes come newest first. */
  predicate NewestFirstIds(recipes: seq<Recipe>, ids: seq<nat>)
  {
    && (forall i :: 0 <= i < |ids| ==> ids[i] < |recipes|)
    && (forall i, j :: 0 <= i < j < |ids| ==> recipes[ids[i]].createdAt >= recipes[ids[j]].createdAt)
  }

  /** The preview lists each of the author's recipes exactly once, newest first. */
  lemma AuthorRecipesCorrect(recipes: seq<Recipe>, author: nat)
    ensures forall x: nat :: x in AuthorRecipes(recipes, author) <==> x < |recipes| && recipes[x].author == author
    ensures forall x: nat :: multiset(AuthorRecipes(recipes, author))[x] == if x < |recipes| && recipes[x].author == author then 1 else 0
    ensures NewestFirstIds(recipes, AuthorRecipes(recipes, author))
  {
    AuthorRecipesMembers(recipes, author);
    AuthorRecipesOnce(recipes, author);
    AuthorRecipesNewestFirst(recipes, author);
  }

  lemma MineMembers(recipes: seq<Recipe>, author: nat)
    ensures forall x: nat :: x in ByAuthor(recipes, Ids(|recipes|), author) <==> x < |recipes| && recipes[x].author == author
  {
    var ids := Ids(|recipes|);
    forall x: nat | x < |recipes| ensures x in ids {
      assert ids[x] == x;
    }
  }

  lemma AuthorRecipesMembers(recipes: seq<Recipe>, author: nat)
    ensures forall x: nat :: x in AuthorRecipes(recipes, author) <==> x < |recipes| && recipes[x].author == author
  {
    var mine := ByAuthor(recipes, Ids(|recipes|), author);
    var s := AuthorRecipes(recipes, author);
    MineMembers(recipes, author);
    forall x: nat ensures x in s <==> x in mine {
      assert x in s <==> x in multiset(s);
    }
  }

  lemma AuthorRecipesOnce(recipes: seq<Recipe>, author: nat)
    ensures forall x: nat :: multiset(AuthorRecipes(recipes, author))[x] == if x < |recipes| && recipes[x].author == author then 1 else 0
  {
    var mine := ByAuthor(recipes, Ids(|recipes|), author);
    MineMembers(recipes, author);
    IdsIncreasing(|recipes|);
    ByAuthorIncreasing(recipes, Ids(|recipes|), author);
    IncreasingMultiplicity(mine);
  }

  lemma AuthorRecipesNewestFirst(recipes: seq<Recipe>, author: nat)
    ensures NewestFirstIds(recipes, AuthorRecipes(recipes, author))
  {
    var mine := ByAuthor(recipes, Ids(|recipes|), author);
    var s := AuthorRecipes(recipes, author);
    NewestFirstPreorder(recipes);
    SortBySorted(mine, NewestFirst(recipes));
    AuthorRecipesMembers(recipes, author);
    forall i | 0 <= i < |s| ensures s[i] < |recipes| {
      assert s[i] in s;
    }
    forall i, j | 0 <= i < j < |s| ensures recipes[s[i]].createdAt >= recipes[s[j]].createdAt {
      assert NewestFirst(recipes)(s[i], s[j]);
    }
  }

  /** The count is the length of the whole preview: a limit cuts the list, never the
      count. */
  lemma RecipesCountIgnoresLimit(recipes: seq<Recipe>, author: nat, limit: Option<int>)
    ensures RecipesCount(recipes, author) == |AuthorRecipes(recipes, author)|
    ensures GetRecipes(recipes, author, None).Ok? && |GetRecipes(recipes, author, None).value| == RecipesCount(recipes, author)
    ensures GetRecipes(recipes, author, limit).Ok? ==> |GetRecipes(recipes, author, limit).value| <= RecipesCount(recipes, author)
  {
    CountPrefix(recipes, author, |recipes|);
    assert recipes[..|recipes|] == recipes;
  }

  lemma IdsIncreasing(n: nat)
    ensures Increasing(Ids(n))
  {
  }

  /** Dropping the last element keeps a sequence increasing, and every earlier
      element is below the last. */
  lemma IncreasingSplit(s: seq<nat>)
    requires Increasing(s) && s != []
    ensures Increasing(s[..|s| - 1])
    ensures forall k :: 0 <= k < |s| - 1 ==> s[k] < s[|s| - 1]
  {
    var init := s[..|s| - 1];
    forall i, j | 0 <= i < j < |init| ensures init[i] < init[j] {
      assert init[i] == s[i] && init[j] == s[j];
    }
  }

  lemma IncreasingAppend(s: seq<nat>, last: nat)
    requires Increasing(s) && forall x | x in s :: x < last
    ensures Increasing(s + [last])
  {
    var t := s + [last];
    forall i, j | 0 <= i < j < |t| ensures t[i] < t[j] {
      assert t[i] == s[i];
      if j < |s| {
        assert t[j] == s[j];
      } else {
        assert s[i] in s;
      }
    }
  }

  lemma {:induction false} ByAuthorIncreasing(recipes: seq<Recipe>, ids: seq<nat>, author: nat)
    requires Increasing(ids)
    ensures Increasing(ByAuthor(recipes, ids, author))
  {
    if ids != [] {
      var init := ids[..|ids| - 1];
      var last := ids[|ids| - 1];
      IncreasingSplit(ids);
      ByAuthorIncreasing(recipes, init, author);
      var r := ByAuthor(recipes, init, author);
      forall x | x in r ensures x < last {
        var k :| 0 <= k < |init| && init[k] == x;
      }
      if last < |recipes| && recipes[last].author == author {
        IncreasingAppend(r, last);
      } else {
        assert ByAuthor(recipes, ids, author) == r;
      }
    }
  }

  lemma {:induction false} IncreasingMultiplicity(s: seq<nat>)
    requires Increasing(s)
    ensures forall x :: multiset(s)[x] == if x in s then 1 else 0
  {
    if s != [] {
      var init := s[..|s| - 1];
      IncreasingSplit(s);
      IncreasingMultiplicity(init);
      assert s == init + [s[|s| - 1]];
      forall k | 0 <= k < |init| ensures init[k] != s[|s| - 1] {
        assert init[k] == s[k];
      }
    }
  }

  /** Counting the author's rows of the first k recipes counts the author's keys below k. */
  lemma {:induction false} CountPrefix(recipes: seq<Recipe>, author: nat, k: nat)
    requires k <= |recipes|
    ensures |ByAuthor(recipes, Ids(k), author)| == RecipesCount(recipes[..k], author)
  {
    if k > 0 {
      CountPrefix(recipes, author, k - 1);
      assert Ids(k)[..k - 1] == Ids(k - 1);
      assert recipes[..k][..k - 1] == recipes[..k - 1];
    }
  }

  datatype Subscription = Subscription(profile: UserProfile, recipes: seq<RecipeSummary>, recipesCount: nat)

  /** `UserSubscriptionSerializer`: the user's profile, the recipe preview and the
      full count. It reads `recipes_limit` from the request, so it is only rendered
      with one; the viewer is that request's user. */
  function SubscriptionOf(users: seq<User>, recipes: seq<Recipe>, follows: set<Pair>, request: Viewer,
                          id: nat, limit: Option<int>): (r: Result<Subscription>)
    requires id < |users|
    ensures r.Ok? <==> GetRecipes(recipes, id, limit).Ok?
    ensures r.Err? <==> limit.Some? && limit.value < 0
    ensures r.Err? ==> r.failure == Unhandled
    ensures r.Ok? ==> r.value.profile.id == id
    ensures r.Ok? ==> (r.value.profile.isSubscribed <==> HasRow(follows, request, id))
    ensures r.Ok? ==> r.value.profile == Profile(users, follows, Some(request), id)
                      && r.value.recipes == GetRecipes(recipes, id, limit).value
                      && r.value.recipesCount == |AuthorRecipes(recipes, id)|
  {
    RecipesCountIgnoresLimit(recipes, id, limit);
    match GetRecipes(recipes, id, limit)
    case Err(f) => Err(f)
    case Ok(preview) => Ok(Subscription(Profile(users, follows, Some(request), id), preview, RecipesCount(recipes, id)))
  }

  // ---- FollowSerializer

  const AlreadySubscribed: string := "User is already subscribed to this author"
  const SelfSubscription: string := "Can't subscribe to yourself"

  /** `FollowSerializer.is_valid` on `{'user': viewer id, 'author': author id}`: the
      field checks (present, an existing user), then the unique-together validator,
      then `validate`'s self-follow check. */
  function ValidateFollow(follows: set<Pair>, userCount: nat, user: Option<nat>, author: nat): (r: Result<Pair>)
    ensures r.Ok? <==> user.Some? && user.value < userCount && author < userCount
                       && Pair(user.value, author) !in follows && user.value != author
    ensures r.Ok? ==> r.value == Pair(user.value, author)
    ensures r.Err? && (user.None? || user.value >= userCount || author >= userCount) ==>
              r.failure.Invalid? && ("user" in r.failure.fields <==> user.None? || user.value >= userCount)
              && ("author" in r.failure.fields <==> author >= userCount)
    ensures user.Some? && user.value < userCount && author < userCount && Pair(user.value, author) in follows ==>
              r == Err(AlreadyExists(AlreadySubscribed))
    ensures user.Some? && user.value < userCount && author < userCount && Pair(user.value, author) !in follows
            && user.value == author
            ==> r == Err(SelfFollow(SelfSubscription))
  {
    var fields := (if user.None? || user.value >= userCount then {"user"} else {})
                  + (if author >= userCount then {"author"} else {});
    if fields != {} then Err(Invalid(fields))
    else if Pair(user.value, author) in follows then Err(AlreadyExists(AlreadySubscribed))
    else if user.value == author then Err(SelfFollow(SelfSubscription))
    else Ok(Pair(user.value, author))
  }

  /** `FollowSerializer.to_representation`: a saved Follow row is shown as its
      author's subscription profile, seen by the same request. */
  function FollowRepresentation(users: seq<User>, recipes: seq<Recipe>, follows: set<Pair>, request: Viewer,
                                row: Pair, limit: Option<int>): (r: Result<Subscription>)
    requires row.target < |users|
    ensures r.Ok? ==> r.value.profile.id == row.target
    ensures r.Ok? ==> r.value.profile.isSubscribed == HasRow(follows, request, row.target)
    ensures r == SubscriptionOf(users, recipes, follows, request, row.target, limit)
  {
    SubscriptionOf(users, recipes, follows, request, row.target, limit)
  }
}
