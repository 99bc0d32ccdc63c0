/** The database the views read and write: one field per table, each row an immutable
    value. Tables whose rows carry an auto-increment primary key are sequences indexed
    by that key; the join tables Favorite, ShoppingCart and Follow, whose only
    constraint is uniqueness of the (user, target) pair, are sets of pairs. */
module Schema {
  import opened Common

  datatype Ingredient = Ingredient(name: string, unit: string)

  datatype Tag = Tag(name: string, color: string, slug: string)

  datatype User = User(email: string, username: string, firstName: string, lastName: string)

  /** A recipe row; `tags` is its many-to-many link to the Tag table. */
  datatype Recipe = Recipe(
    author: nat, name: string, text: string, cookingTime: nat, createdAt: int, tags: set<nat>)

  /** The through table of the recipe-to-ingredient link, with its amount. */
  datatype RecipeIngredient = RecipeIngredient(recipe: nat, ingredient: nat, amount: nat)

  /** The unique constraint on (recipe, ingredient, amount): no two rows are equal. */
  predicate RowsUnique(rows: seq<RecipeIngredient>)
  {
    forall i, j :: 0 <= i < j < |rows| ==> rows[i] != rows[j]
  }

  /** Foreign keys resolve and amounts respect their minimum of 1. */
  predicate RowsWellFormed(rows: seq<RecipeIngredient>, recipeCount: nat, ingredientCount: nat)
  {
    forall row | row in rows :: row.recipe < recipeCount && row.ingredient < ingredientCount && row.amount >= 1
  }

  predicate RecipesWellFormed(recipes: seq<Recipe>, userCount: nat, tagCount: nat)
  {
    forall r | r in recipes :: r.author < userCount && r.cookingTime >= 1 && (forall t | t in r.tags :: t < tagCount)
  }

  predicate PairsWellFormed(rel: set<Pair>, userCount: nat, targetCount: nat)
  {
    forall p | p in rel :: p.user < userCount && p.target < targetCount
  }

  /** Email is the login field and is unique. */
  predicate EmailsUnique(users: seq<User>)
  {
    forall i, j :: 0 <= i < j < |users| ==> users[i].email != users[j].email
  }

  predicate SlugsUnique(tags: seq<Tag>)
  {
    forall i, j :: 0 <= i < j < |tags| ==> tags[i].slug != tags[j].slug
  }

  class Database {
    var ingredients: seq<Ingredient>
    var tags: seq<Tag>
    var users: seq<User>
    var recipes: seq<Recipe>
    var recipeIngredients: seq<RecipeIngredient>
    var favorites: set<Pair>
    var carts: set<Pair>
    var follows: set<Pair>

    /** The constraints the schema declares: unique keys, foreign keys that resolve,
        and the minimum values of amount and cooking time. */
    ghost predicate Valid()
      reads this
    {
      && RowsUnique(recipeIngredients)
      && RowsWellFormed(recipeIngredients, |recipes|, |ingredients|)
      && RecipesWellFormed(recipes, |users|, |tags|)
      && PairsWellFormed(favorites, |users|, |recipes|)
      && PairsWellFormed(carts, |users|, |recipes|)
      && PairsWellFormed(follows, |users|, |users|)
      && EmailsUnique(users)
      && SlugsUnique(tags)
    }

    constructor (users: seq<User>, tags: seq<Tag>)
      requires EmailsUnique(users) && SlugsUnique(tags)
      ensures Valid()
      ensures this.users == users && this.tags == tags
      ensures ingredients == [] && recipes == [] && recipeIngredients == []
      ensures favorites == {} && carts == {} && follows == {}
    {
      this.users := users;
      this.tags := tags;
      ingredients, recipes, recipeIngredients := [], [], [];
      favorites, carts, follows := {}, {}, {};
    }
  }
}
