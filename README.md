# Foodgram backend core, modelled in Dafny

This project models the logic core of the Foodgram recipe-sharing backend, a Django and
Django REST Framework service. Users publish recipes built from a shared ingredient
catalog. They keep favourites and a shopping cart, follow other authors, and download
a shopping list that sums the ingredients of the recipes in their cart.

The database is one class, `Schema.Database`:
- Catalog tables are sequences indexed by primary key: ingredients, tags, users,
  recipes, and recipe-ingredient rows.
- Favorite, ShoppingCart and Follow are sets of (user, target) pairs, so "at most one
  row per pair" holds by construction.
- `Valid()` carries the declared constraints: foreign keys resolve; amount and cooking
  time are at least 1; (recipe, ingredient, amount) is unique; email and tag slug are
  unique.

The modules follow the program's files:
- `Grouping`: the `defaultdict(int)` accumulation loop shared by `validate` and the
  export, as an insertion-ordered dictionary. `Sorting`: `order_by` as a stable sort.
- `RecipeModels`: the queryset flags, the default order, and `ShoppingCart.export`.
- `RecipeSerializers`: `validate`, `_attach_ingredients`, `create`, `update`, and the
  favourite and cart serializers.
- `RecipeViews`: list and retrieve, `_add`, `_cancel`, and the download.
- `UserModels`, `UserSerializers`, `UserViews`: `is_subscribed`, the subscription
  profile, the Follow serializer, and subscriptions, subscribe and unsubscribe.
- `HexColor`: the colour validator. `ImportIngredients`: the import command.

Operations that change tables are methods with `modifies db`. Each is proved against
a specification function or states its whole new state. Queries are functions, and
lemmas state what the source promises about them.

## Model

| member | source | states |
|---|---|---|
| Grouping.Accumulate | backend/recipes/serializers.py:102-104 | the `d[k] += a` loop over a list yields exactly the insertion-ordered item list `GroupSum` of the input |
| Grouping.GroupSumDistinct | backend/recipes/serializers.py:102-105 | the merged mapping has each ingredient key once |
| Grouping.GroupSumKeys | backend/recipes/serializers.py:102-105 | the merged keys are exactly the submitted ingredient keys |
| Grouping.GroupSumAmounts | backend/recipes/serializers.py:103-104 | each merged amount is the sum of that key's submitted amounts |
| Grouping.GroupSumTotal | backend/recipes/serializers.py:103-104 | merging preserves the total of all amounts |
| Grouping.GroupSumOrder | backend/recipes/models.py:179-182 | of two dictionary keys, the earlier one first occurs among the entries before the later one first occurs: items come in order of first occurrence |
| Grouping.GroupSumPositive | backend/recipes/models.py:34-35 | summing amounts that are at least 1 gives amounts that are at least 1 |
| Grouping.SumForPermutation | backend/recipes/models.py:176-180 | reordering rows does not change any ingredient's sum |
| Sorting.SortBySorted | backend/recipes/models.py:178 | `order_by` returns the rows in nondecreasing order of the key, as a permutation of them |
| Common.NatToStringRoundTrip | backend/recipes/models.py:184 | the decimal text of an amount reads back as that amount |
| Common.StrLeTotal | backend/recipes/models.py:178 | ordering by name compares any two names |
| Common.StrLeTransitive | backend/recipes/models.py:178 | ordering by name is transitive |
| Schema.Database.constructor | backend/recipes/migrations/0003_recipeingredient_unique_recipe_ingredient.py:15 | a fresh database with unique emails and slugs satisfies every declared constraint, including (recipe, ingredient, amount) uniqueness |
| JoinTables.AddThenDelete | backend/recipes/views.py:52-68 | adding an absent pair and then deleting it restores the join table |
| JoinTables.DeleteThenAdd | backend/recipes/views.py:52-68 | deleting a present pair and adding it back restores the join table |
| JoinTables.FlagsAfterAdd | backend/recipes/models.py:83-97 | after an add, the viewer flag holds for that pair and every other flag is unchanged |
| JoinTables.FlagsAfterDelete | backend/recipes/models.py:83-97 | after a delete, the flag is false for that pair and every other flag is unchanged |
| JoinTables.CountAfterAdd | backend/recipes/models.py:126-128 | a new favourite raises that recipe's `favorite_count` by one and no other count |
| JoinTables.CountAfterDelete | backend/recipes/models.py:126-128 | removing a favourite lowers that recipe's count by one and no other count |
| RecipeModels.OrderedRecipeIdsCorrect | backend/recipes/models.py:122 | the default order lists every recipe once, newest first |
| RecipeModels.Export | backend/recipes/models.py:170-188 | the two loops (sum per ingredient, then one line per item) produce exactly `ShoppingList` of the cart |
| RecipeModels.CartEntriesMembers | backend/recipes/models.py:175-176 | a row is exported exactly when its recipe is in this user's cart |
| RecipeModels.ExportIgnoresOtherRecipes | backend/recipes/models.py:175-176 | the list equals the list of the cart's rows alone: rows of other recipes, wherever they stand, do not change it |
| RecipeModels.ExportTotals | backend/recipes/models.py:173-186 | one line per distinct ingredient id among the cart's rows, with the sum of that ingredient's amounts over those rows |
| RecipeModels.ExportOrderedByName | backend/recipes/models.py:176-182 | lines come in nondecreasing ingredient-name order |
| RecipeModels.ExportShape | backend/recipes/models.py:172-188 | the text is the header, then the `- name — amount unit` lines, joined by newlines; no rows gives the header alone |
| RecipeModels.EmptyCartExport | backend/recipes/models.py:172-188 | an empty cart exports exactly `"Список покупок:\n"` |
| RecipeModels.SharedIngredientExport | backend/recipes/models.py:170-188 | recipes with 2 and 3 of the same ingredient export one line with 5 |
| RecipeSerializers.Validate | backend/recipes/serializers.py:100-106 | each distinct submitted ingredient maps to the sum of its amounts; keys are distinct; the total is preserved; an absent key gives an empty mapping |
| RecipeSerializers.DuplicatesMerged | backend/recipes/serializers.py:100-106 | the same ingredient with 2 and 3 is stored once with 5 |
| RecipeSerializers.AttachIngredients | backend/recipes/serializers.py:108-116 | the get-or-create loop followed by `set()` leaves the rows `Attached` describes, and keeps the database constraints |
| RecipeSerializers.AttachedLinks | backend/recipes/serializers.py:108-116 | afterwards the recipe's linked-ingredient set equals the merged keys |
| RecipeSerializers.AttachedRecipeRows | backend/recipes/serializers.py:111-116 | the recipe keeps a row exactly when it is a merged pair, or an older row whose ingredient is still kept |
| RecipeSerializers.AttachedOtherRows | backend/recipes/serializers.py:108-116 | other recipes' rows are untouched |
| RecipeSerializers.AttachedUnique | backend/recipes/serializers.py:111-113 | get-or-create never adds a second identical (recipe, ingredient, amount) row |
| RecipeSerializers.AttachedFreshRecipe | backend/recipes/serializers.py:82-92 | on a new recipe, the rows are exactly the merged pairs |
| RecipeSerializers.UpdateWithoutIngredients | backend/recipes/serializers.py:94-98 | an update without ingredients leaves the recipe with no linked ingredients |
| RecipeSerializers.StaleRowKept | backend/recipes/serializers.py:108-116 | as written: changing an ingredient's amount from 2 to 3 keeps both rows |
| RecipeSerializers.ReplacedExact | backend/recipes/serializers.py:108-116 | corrected: the recipe's rows are exactly the merged pairs, one per ingredient, other rows untouched |
| RecipeSerializers.EntriesInRange | backend/recipes/models.py:34-35 | validated entries name existing ingredients with amounts at least 1 |
| RecipeSerializers.Trim | backend/recipes/models.py:104-106 | the character fields' `strip()`: the value's middle, with only whitespace cut off and none left at either end |
| RecipeSerializers.CharFieldClean | backend/recipes/models.py:104-106 | a name or text passes its field exactly when its trimmed form is non-blank, within `max_length` and free of NUL; trimming a clean value changes nothing |
| RecipeSerializers.CreatedFieldsClean | backend/recipes/models.py:104-106 | a created recipe stores its name and text trimmed and non-blank, the name at most 200 characters |
| RecipeSerializers.UpdatedFieldsClean | backend/recipes/serializers.py:94-98 | an update that passes validation keeps the stored name and text clean |
| RecipeSerializers.TrimExamples | backend/recipes/models.py:104 | a name of whitespace is refused as blank; " Soup\n" is stored as "Soup" |
| RecipeSerializers.Create | backend/recipes/serializers.py:82-92 | on valid fields, appends the recipe authored by the requester with its name and text trimmed, attaches the merged ingredients and adds the tags; otherwise refuses the invalid fields (missing, blank, too long, out of range) and changes nothing |
| RecipeSerializers.Update | backend/recipes/serializers.py:94-98 | unknown recipe gives not found; invalid fields are refused; otherwise overwrites the given fields (name and text trimmed) and re-attaches ingredients |
| RecipeSerializers.ActionRepresentation | backend/recipes/serializers.py:119-123 | a saved favourite or cart row is shown as its recipe's short form |
| RecipeSerializers.ValidateAction | backend/recipes/serializers.py:126-149 | an existing pair is refused with "Recipe is already in favorites" or "Recipe is already in shopping cart"; a new pair passes |
| RecipeViews.ListRecipes | backend/recipes/views.py:29-32 | every recipe once, newest first, each with its two viewer-relative flags |
| RecipeViews.RetrieveRecipe | backend/recipes/views.py:29-32 | the recipe with its flags, or not found |
| RecipeViews.Add | backend/recipes/views.py:52-62 | unknown recipe gives not found; an existing pair is refused and nothing changes; otherwise exactly that pair is inserted into that table only, answered with the recipe's short form |
| RecipeViews.Cancel | backend/recipes/views.py:64-68 | deletes exactly the (viewer, recipe) row of that table; when it is absent, not found and nothing changes |
| RecipeViews.AddThenCancel | backend/recipes/views.py:52-68 | add followed by cancel restores both join tables |
| RecipeViews.DownloadShoppingCart | backend/recipes/views.py:70-75 | the body is the export unchanged, as text/plain named list.txt |
| UserModels.IsSubscribed | backend/users/models.py:14-19 | false for no user; otherwise true exactly when a Follow row (self, user) exists |
| UserModels.UserByEmail | backend/users/models.py:7-10 | the login key finds the user with that email, and only that user since emails are unique |
| UserModels.ModelAllowsSelfFollow | backend/users/models.py:36-44 | the schema's Follow constraints allow a self-follow row |
| UserSerializers.GetIsSubscribed | backend/users/serializers.py:23-29 | false without a request or for an anonymous viewer; otherwise `is_subscribed` |
| UserSerializers.Profile | backend/users/serializers.py:8-29 | the user's fields with `is_subscribed` relative to the request |
| UserSerializers.GetRecipes | backend/users/serializers.py:41-53 | the author's recipes newest first, cut to the first n when `recipes_limit` is n; a negative limit raises |
| UserSerializers.AuthorRecipesCorrect | backend/users/serializers.py:48 | the preview lists each of the author's recipes exactly once, newest first |
| UserSerializers.RecipesCountIgnoresLimit | backend/users/serializers.py:55-56 | `recipes_count` is the author's full count, at least as long as any preview |
| UserSerializers.SubscriptionOf | backend/users/serializers.py:32-56 | for a request's viewer: the profile with `is_subscribed` relative to that viewer, the recipe preview and the full count; a negative limit raises |
| UserSerializers.ValidateFollow | backend/users/serializers.py:59-77 | missing or unknown user is a field error; an existing pair gets "User is already subscribed to this author" (checked first); a self-follow gets "Can't subscribe to yourself"; otherwise the pair passes |
| UserSerializers.FollowRepresentation | backend/users/serializers.py:79-83 | a created Follow is shown as its author's subscription profile, seen by the same request |
| UserViews.SubscribedAuthorsAsWritten | backend/users/views.py:13-17 | the query as written: for a signed-in viewer exactly the users they follow; for an anonymous viewer exactly the users nobody follows; ascending keys |
| UserViews.SubscribedAuthors | backend/users/views.py:15-21 | corrected: exactly the users the viewer follows, none for an anonymous viewer |
| UserViews.AnonymousSubscriptionsAsWritten | backend/users/views.py:13-17 | as written: an anonymous request lists the users nobody follows |
| UserViews.Subscriptions | backend/users/views.py:13-21 | one subscription profile per user the query selects, in key order; each the full `SubscriptionOf` profile, preview and count of that user, marked subscribed for a signed-in viewer and not subscribed for an anonymous one; a signed-in viewer gets the intended list |
| UserViews.SubscriptionsCorrected | backend/users/views.py:15-21 | corrected: one full subscription profile per followed author, each marked subscribed; an empty list for an anonymous viewer |
| UserViews.Subscribe | backend/users/views.py:23-34 | missing author gives not found before validation; a refused pair changes nothing; otherwise inserts exactly (viewer, author) and answers with the author's profile, now subscribed |
| UserViews.Unsubscribe | backend/users/views.py:36-43 | deletes exactly the (viewer, author) row; when it is absent, not found and nothing changes |
| UserViews.SubscribeThenUnsubscribe | backend/users/views.py:23-43 | subscribe followed by unsubscribe restores the Follow table |
| HexColor.HexRunLength | backend/recipes/validators.py:4 | the greedy `[A-Fa-f0-9]` run: every character in it is hex and the next is not |
| HexColor.MatchesAsWritten | backend/recipes/validators.py:3-5 | as written, the pattern admits the 3- and 6-digit colours, and the same followed by one newline |
| HexColor.TrailingNewlineAccepted | backend/recipes/validators.py:4 | as written, "#abc\n" passes although it is not a colour; the corrected validator refuses it |
| HexColor.FullMatchesExactly | backend/recipes/validators.py:4 | corrected: the end-anchored pattern admits exactly `#` and 3 or 6 hex digits |
| HexColor.ColorError | backend/recipes/validators.py:3-5 | as written: no error exactly for a colour or a colour followed by one final newline; otherwise the message "Неверный формат цвета. " |
| HexColor.ColorErrorCorrected | backend/recipes/validators.py:3-5 | corrected: no error exactly for a colour; otherwise the message |
| HexColor.AcceptedColors | backend/recipes/validators.py:4 | 6 digits, 3 digits, and both letter cases pass |
| HexColor.RejectedColors | backend/recipes/validators.py:3-5 | no `#`, a non-hex character, or 2, 4 or 7 digits are refused with the message |
| ImportIngredients.Handle | backend/recipes/management/commands/import_ingredients.py:15-35 | the row loop leaves the catalog and report that `Import` specifies; no file means failure and no change |
| ImportIngredients.ImportKeepsCatalog | backend/recipes/management/commands/import_ingredients.py:25-28 | existing catalog entries stay as they were, in place |
| ImportIngredients.ImportNoDuplicates | backend/recipes/management/commands/import_ingredients.py:25-28 | an existing pair keeps its number of entries; an absent one gains at most one |
| ImportIngredients.ImportAllPresent | backend/recipes/management/commands/import_ingredients.py:23-28 | after a successful import every row's pair has exactly one entry |
| ImportIngredients.ImportCount | backend/recipes/management/commands/import_ingredients.py:22-30 | `created_count` is the number of entries created |
| ImportIngredients.ImportCreated | backend/recipes/management/commands/import_ingredients.py:22-30 | the entries created are exactly the rows' pairs that were absent before |
| ImportIngredients.ReimportCreatesNothing | backend/recipes/management/commands/import_ingredients.py:25-30 | importing the same rows again creates nothing and reports 0 |
| ImportIngredients.RunConcat | backend/recipes/management/commands/import_ingredients.py:23-35 | two batches of rows run one after the other as they run together, stopping at a failure |
| ImportIngredients.MalformedRowKeepsEarlierRows | backend/recipes/management/commands/import_ingredients.py:18-35 | a row without exactly two fields fails the import; entries created before it stay |

## Left out

- HTTP routing, status codes, pagination and the permission classes are left out. Outcomes are `Result` values; an authenticated write path takes the viewer's key as a `nat`.
- Image upload, base64 decoding and `RecipeShortSerializer`'s image URL are left out. They are file storage and a foreign library, so the recipe summary has no image.
- djoser accounts, tokens, passwords and the initial-data command are left out (framework and environment).
- In the import command, CSV parsing, the file's encoding and BOM, tqdm and console output are left out. The file arrives as `Option` of rows of fields; a missing or unreadable file is `None`.
- Prefetch, `select_related` and the `Exists` subqueries are left out: they only affect performance. Flags are set membership.
- Ingredient search and recipe filters are left out, because `recipes/filters.py` is not part of this model. Deleting a recipe is not modelled; it is framework CRUD with no logic of its own.
- Concurrency is left out: each request is one atomic step, so the race between the uniqueness check and the database constraint is not modelled.
- Integer widths are left out: amounts and cooking times are unbounded naturals, so the SmallInteger column limits on summed amounts are not modelled, and neither is the field-level maximum of 32767 that DRF derives for a single `amount` or `cooking_time`: `RecipeSerializers.FieldErrors` has no upper bound.
- RecipeModels.ByName: names are compared by code point, with ties kept in table order. The database collation and its tie order are not modelled.
- RecipeSerializers.FieldErrors: records only which fields fail, not DRF's error messages. Nested-serializer details of the ingredient list are not modelled. Surrogate code points cannot occur in a Dafny string, so that character check is not modelled.
- RecipeViews.RecipeCard: list and retrieve show only the id, name, cooking time and the two viewer flags. The nested tags, the ingredient rows with name, amount and unit, the author's profile, the text and the image are not modelled.
- ImportIngredients.Run: the column limit of 200 characters on an ingredient's name and unit is not modelled. On a database that enforces it, a longer field raises inside `get_or_create`, and the command then reports its failure message; the model creates the entry.
- RecipeModels.NewestFirst: recipes with the same `created_at` keep primary-key order, since the sort is stable. The database leaves their order unspecified, and no lemma states a tie order.
- UserSerializers.GetRecipes: a `recipes_limit` that is not an integer string is not modelled. The limit arrives already parsed; a negative one raises as the queryset slice does.
- UserSerializers.SubscriptionOf: takes the request's viewer, not an optional request. Built without a request, `get_recipes` raises on `request.query_params`; no view does that, so that failure is not modelled.
- UserViews.Subscribe: when rendering the answer raises (a negative limit), the Follow row is already saved. The model keeps that order.
- UserViews.UsersWhere: an unordered user queryset is taken in primary-key order.
- `Recipe.created_at` is a parameter `now` of `Create`, not a clock.
- Tag colours are not a `Valid()` invariant, since no modelled operation writes tags.

## Findings

| source | as written | input that shows it | evidently intended | confidence | as-written member | corrected member |
|---|---|---|---|---|---|---|
| backend/recipes/serializers.py:108-116 | `set()` removes only ingredients that are no longer linked, so a kept ingredient's old row stays | recipe row (X, 2); update with X amount 3 leaves rows (X, 2) and (X, 3), and the export then sums 5 | the recipe's rows become exactly the merged (ingredient, amount) pairs | high, not executed | RecipeSerializers.StaleRowKept | RecipeSerializers.ReplacedExact |
| backend/recipes/validators.py:4 | `$` in Python also matches just before a final newline | "#abc\n" passes the validator | only `#` and 3 or 6 hex digits pass | high, not executed | HexColor.TrailingNewlineAccepted | HexColor.ColorErrorCorrected |
| backend/users/views.py:13-17 | with `AllowAny`, an anonymous key of None turns the filter into IS NULL over the reverse Follow join | anonymous GET of the subscriptions list with Follow (0, 1) lists user 0 | an anonymous viewer follows no one | medium, not executed | UserViews.AnonymousSubscriptionsAsWritten | UserViews.SubscriptionsCorrected |

The operations keep the code's behaviour, and each corrected definition stands beside them. For the first finding, `RecipeSerializers.AttachIngredients`, `Create` and `Update` keep the stale row; `Replaced` is the corrected definition. For the second, `HexColor.ColorError` accepts the trailing newline; `ColorErrorCorrected` does not. For the third, `UserViews.Subscriptions` lists the users nobody follows to an anonymous viewer; `SubscriptionsCorrected` lists no one. A partial update without ingredients still unlinks every ingredient (`UpdateWithoutIngredients`), as the code does.
