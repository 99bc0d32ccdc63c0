/** The recipe viewset: list and retrieve with the viewer-relative flags, the favourite
    and shopping-cart toggles (`_add`, `_cancel`) and the shopping-list download. */
module RecipeViews {
  import opened Common
  import opened JoinTables
  import opened Schema
  import opened RecipeModels
  import opened RecipeSerializers

  // ---- list and retrieve

  /** A recipe as list and retrieve show it, annotated for the viewer (image, nested
      tags, ingredients and author left out). */
  datatype RecipeCard = RecipeCard(id: nat, name: string, cookingTime: nat, isFavorited: bool, isInShoppingCart: bool)

  function Card(db: Database, viewer: Viewer, id: nat): RecipeCard
    reads db
    requires id < |db.recipes|
  {
    CardOf(db.recipes, db.favorites, db.carts, viewer, id)
  }

  function CardOf(recipes: seq<Recipe>, favorites: set<Pair>, carts: set<Pair>, viewer: Viewer, id: nat): RecipeCard
    requires id < |recipes|
  {
    RecipeCard(id, recipes[id].name, recipes[id].cookingTime, HasRow(favorites, viewer, id), HasRow(carts, viewer, id))
  }

  function CardIds(cards: seq<RecipeCard>): (r: seq<nat>)
    ensures |r| == |cards| && forall i :: 0 <= i < |cards| ==> r[i] == cards[i].id
  {
    seq(|cards|, i requires 0 <= i < |cards| => cards[i].id)
  }

  /** `list`: every recipe, newest first, each annotated for the viewer. */
  function ListRecipes(db: Database, viewer: Viewer): (cards: seq<RecipeCard>)
    reads db
    ensures |cards| == |db.recipes|
    ensures forall i :: 0 <= i < |cards| ==> cards[i].id < |db.recipes| && cards[i] == Card(db, viewer, cards[i].id)
    ensures forall i, j :: 0 <= i < j < |cards| ==> db.recipes[cards[i].id].createdAt >= db.recipes[cards[j].id].createdAt
    ensures multiset(CardIds(cards)) == multiset(Ids(|db.recipes|))
  {
    var recipes, favorites, carts := db.recipes, db.favorites, db.carts;
    var ids := OrderedRecipeIds(recipes);
    OrderedRecipeIdsCorrect(recipes);
    var cards := seq(|ids|, i requires 0 <= i < |ids| => CardOf(recipes, favorites, carts, viewer, ids[i]));
    assert CardIds(cards) == ids;
    cards
  }

  /** `retrieve`: the recipe with the given key, annotated for the viewer. */
  function RetrieveRecipe(db: Database, viewer: Viewer, id: nat): (r: Result<RecipeCard>)
    reads db
    ensures id < |db.recipes| <==> r.Ok?
    ensures r.Ok? ==> r.value.id == id && r.value.isFavorited == HasRow(db.favorites, viewer, id)
                      && r.value.isInShoppingCart == HasRow(db.carts, viewer, id)
    ensures r.Err? ==> r.failure == NotFound
  {
    if id < |db.recipes| then Ok(Card(db, viewer, id)) else Err(NotFound)
  }

  // ---- favourite and shopping-cart toggles

  function Table(db: Database, table: ActionTable): set<Pair>
    reads db
  {
    match table
    case Favorites => db.favorites
    case ShoppingCart => db.carts
  }

  /** `_add`: look the recipe up (not found otherwise), validate the (viewer, recipe)
      pair against the table's uniqueness, save it and answer with the recipe's short
      form. The viewer is authenticated: the action's permission admits no one else. */
  method Add(db: Database, table: ActionTable, viewer: nat, recipe: nat) returns (res: Result<RecipeSummary>)
    requires db.Valid() && viewer < |db.users|
    modifies db
    ensures db.Valid()
    ensures recipe >= |old(db.recipes)| ==> res == Err(NotFound) && unchanged(db)
    ensures recipe < |old(db.recipes)| && Pair(viewer, recipe) in old(Table(db, table)) ==>
              res == Err(AlreadyExists(AlreadyMessage(table))) && unchanged(db)
    ensures recipe < |old(db.recipes)| && Pair(viewer, recipe) !in old(Table(db, table)) ==>
              && res == Ok(ActionRepresentation(old(db.recipes), Pair(viewer, recipe)))
              && Table(db, table) == AfterAdd(old(Table(db, table)), Pair(viewer, recipe))
    ensures table == Favorites ==> db.carts == old(db.carts)
    ensures table == ShoppingCart ==> db.favorites == old(db.favorites)
    ensures db.ingredients == old(db.ingredients) && db.tags == old(db.tags) && db.users == old(db.users)
    ensures db.recipes == old(db.recipes) && db.recipeIngredients == old(db.recipeIngredients)
    ensures db.follows == old(db.follows)
  {
    if recipe >= |db.recipes| {
      return Err(NotFound);
    }
    var row := Pair(viewer, recipe);
    var checked := ValidateAction(Table(db, table), table, row);
    if checked.Err? {
      return Err(checked.failure);
    }
    match table {
      case Favorites => db.favorites := db.favorites + {row};
      case ShoppingCart => db.carts := db.carts + {row};
    }
    res := Ok(ActionRepresentation(db.recipes, row));
  }

  /** `_cancel`: look the recipe up, then delete the (viewer, recipe) row, or answer
      not found when there is none. */
  method Cancel(db: Database, table: ActionTable, viewer: nat, recipe: nat) returns (res: Result<()>)
    requires db.Valid() && viewer < |db.users|
    modifies db
    ensures db.Valid()
    ensures res.Ok? <==> recipe < |old(db.recipes)| && Pair(viewer, recipe) in old(Table(db, table))
    ensures res.Err? ==> res == Err(NotFound) && unchanged(db)
    ensures Table(db, table) == AfterDelete(old(Table(db, table)), Pair(viewer, recipe))
    ensures table == Favorites ==> db.carts == old(db.carts)
    ensures table == ShoppingCart ==> db.favorites == old(db.favorites)
    ensures db.ingredients == old(db.ingredients) && db.tags == old(db.tags) && db.users == old(db.users)
    ensures db.recipes == old(db.recipes) && db.recipeIngredients == old(db.recipeIngredients)
    ensures db.follows == old(db.follows)
  {
    var row := Pair(viewer, recipe);
    if recipe >= |db.recipes| || row !in Table(db, table) {
      assert AfterDelete(Table(db, table), row) == Table(db, table);
      return Err(NotFound);
    }
    match table {
      case Favorites => db.favorites := db.favorites - {row};
      case ShoppingCart => db.carts := db.carts - {row};
    }
    res := Ok(());
  }

  /** Adding a recipe to favourites and then cancelling restores the database. */
  method AddThenCancel(db: Database, table: ActionTable, viewer: nat, recipe: nat)
    requires db.Valid() && viewer < |db.users| && recipe < |db.recipes|
    requires Pair(viewer, recipe) !in Table(db, table)
    modifies db
    ensures db.Valid()
    ensures db.favorites == old(db.favorites) && db.carts == old(db.carts)
    ensures db.follows == old(db.follows) && db.recipes == old(db.recipes)
    ensures db.recipeIngredients == old(db.recipeIngredients) && db.ingredients == old(db.ingredients)
  {
    ghost var before := Table(db, table);
    var added := Add(db, table, viewer, recipe);
    assert added.Ok?;
    var cancelled := Cancel(db, table, viewer, recipe);
    assert cancelled.Ok?;
    AddThenDelete(before, Pair(viewer, recipe));
  }

  // ---- download

  datatype Attachment = Attachment(body: string, contentType: string, filename: string)

  /** `download_shopping_cart`: the export of the viewer's cart as a plain-text
      attachment named list.txt. */
  method DownloadShoppingCart(db: Database, viewer: nat) returns (a: Attachment)
    ensures a.body == ShoppingList(db.ingredients, db.recipeIngredients, CartRecipes(db.carts, viewer))
    ensures a.contentType == "text/plain" && a.filename == "list.txt"
  {
    var text := Export(db, viewer);
    a := Attachment(text, "text/plain", "list.txt");
  }
}
