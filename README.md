# Product import and favourites of a food-substitute site, in Dafny

The site keeps a catalogue of food products, their categories and the ranked
positions that join the two. A management command refreshes that catalogue from a
remote food database. Logged-in users keep a set of favourite products.

This project models four parts of the site:

- **The refresh command's `Collector`** (`refresh.dfy`). `fetch` projects the records
  returned for one category and nutrition grade onto a fixed list of keys. It drops
  any record that lacks a key and stops once a target count is reached. `populate`
  runs `fetch` over every category and grade tier, then calls `register`. `register`
  saves one product row per record. It then walks the record's category hierarchy in
  reverse, get-or-creates each category by name, and saves one position per entry,
  ranked by its index in the reversed walk. `empty` deletes every product whose
  favourite counter is 0. The command runs `empty`, then `populate`.
- **The catalogue tables** (`catalog.dfy`). A `Database` class holds the product,
  category and position tables as sequence fields. Each of its methods is one ORM
  call: save, get-or-create and delete.
- **The favourites views** (`favorites.dfy`). `add_to_favorites` and
  `remove_from_favorites` update a profile's set of favourite product keys together
  with the product's `favorized` counter. `user_account` reports the size of the set.
- **The redirect rule of `registration` and `log_in`** (`redirects.dfy`). After a
  successful login the user goes to the product page recorded in the session's
  `currentsearch` when it names a random product, and to the search page otherwise.

Each state-changing method is proved against a specification function: over table
snapshots (`Tables`) for the catalogue and the refresh command, and over the product
sequence and the profile's key set for the favourites views. The properties the source promises are lemmas about those
functions. The answer of the remote search endpoint is a parameter: a function from
category and grade to the list of records it returns.

The main invariant across modules is `Favorites.Covered`: every favourite is an
existing product, and each product's counter is at least the number of profiles that
hold it. Adding, removing, `empty` and `register` all preserve it. While it holds,
`empty` never deletes a favourite.

Where the code and its own documentation disagree, the model follows the code.
The docstring of `fetch` (openfood/management/commands/refresh.py:37-38) says it gets
`products_number` products, so one fetch should never store more records than its
target. The code checks for equality after each item, so this holds only for targets
of at least 1 (`Refresh.FetchedIsPrefix`). With a negative target every valid record
is kept (`Refresh.FetchedNegativeTarget`). With a target of 0 the outcome depends on
the first item: when it lacks a key, the check fires at once and nothing is stored;
otherwise every valid record is kept (`Refresh.FetchedZeroTarget`). So for a target
of 0 an invalid record at the head does change what is stored, although it never
changes the valid projections (`Refresh.InvalidRecordDropped`).

## Model

| member | source | states |
|---|---|---|
| Catalog.FindCategory | openfood/management/commands/refresh.py:82-84 | The lookup by name returns the index of the first category with that name. It returns nothing exactly when the name is not in the table. |
| Catalog.GetOrCreate | openfood/management/commands/refresh.py:82-84 | The returned index names the requested category. An existing name leaves the table unchanged. A new name is appended at the end. Unique names stay unique. |
| Catalog.Insert | openfood/management/commands/refresh.py:79 | Saving a product adds one row and advances the next key by one. The category and position tables are unchanged. |
| Catalog.InsertWellFormed | openfood/management/commands/refresh.py:79 | Saving a new product with a non-negative counter under the next key keeps the tables well formed: increasing keys, valid references, unique names. |
| Catalog.UpdateWellFormed | openuser/views.py:159-160 | Re-saving an existing product with its key unchanged and a non-negative counter keeps the tables well formed. |
| Catalog.Unfavorized | openfood/management/commands/refresh.py:102 | The products selected for deletion are exactly those whose counter is 0. |
| Catalog.Kept | openfood/management/commands/refresh.py:106 | The products left after the delete are exactly those whose counter is not 0. |
| Catalog.KeptIncreasing | openfood/management/commands/refresh.py:106 | The rows left after the delete stay in key order. |
| Catalog.Cascade | openfood/management/commands/refresh.py:106 | The positions left after the delete are exactly those whose product was not deleted. |
| Catalog.Purge | openfood/management/commands/refresh.py:102-106 | The products left are exactly those whose counter is not 0. The positions left are exactly those whose product was not deleted. Categories and the next key are unchanged. |
| Catalog.PurgeCounts | openfood/management/commands/refresh.py:102-106 | The number of deleted products plus the number of remaining products equals the prior total. |
| Catalog.CascadeTargetKept | openfood/management/commands/refresh.py:106 | Every position that survives the cascade points at a product that survives the delete. |
| Catalog.PurgeWellFormed | openfood/management/commands/refresh.py:101-106 | The delete keeps the tables well formed. |
| Catalog.Database.Save | openfood/management/commands/refresh.py:79 | The new product row is appended with the next key, and the next key advances. |
| Catalog.Database.GetOrCreateCategory | openfood/management/commands/refresh.py:82-84 | The category table and index are those of `GetOrCreate`. `created` is true exactly when the name was new. |
| Catalog.Database.Update | openuser/views.py:160 | The product row at the given index is replaced, key unchanged. |
| Catalog.Database.SavePosition | openfood/management/commands/refresh.py:85-89 | The position row is appended. |
| Catalog.Database.DeleteUnfavorized | openfood/management/commands/refresh.py:102-106 | The new tables are the purge of the old ones: unfavourited products deleted, their positions cascaded. |
| Refresh.DefaultKeysRegistrable | openfood/management/commands/refresh.py:33-35 | A record holding exactly the default keys has every field `register` reads. |
| Refresh.Project | openfood/management/commands/refresh.py:55-56 | The stored dict has exactly the requested keys, each with the source record's value. |
| Refresh.FetchFrom | openfood/management/commands/refresh.py:52-64 | Continuing from an accumulator, the loop appends at most one record per source item. |
| Refresh.Fetched | openfood/management/commands/refresh.py:51-66 | One fetch stores at most as many records as the endpoint returned. |
| Refresh.FetchFromBounded | openfood/management/commands/refresh.py:52-64 | With fewer than `n` records so far, the loop appends the first `min(n - so far, #valid)` valid projections, in source order. |
| Refresh.FetchFromUnbounded | openfood/management/commands/refresh.py:52-64 | With more than `n` records already, the equality check never fires, and every valid projection is appended. |
| Refresh.FetchedIsPrefix | openfood/management/commands/refresh.py:52-66 | For a target `n >= 1`, one fetch appends the first `min(n, #valid)` valid projections, in source order, and so never more than `n`. |
| Refresh.FetchedNegativeTarget | openfood/management/commands/refresh.py:62-64 | For a negative target, every valid record is kept. |
| Refresh.FetchedZeroTarget | openfood/management/commands/refresh.py:62-64 | For a target of 0, nothing is kept when the first item is dropped or the source is empty. Otherwise every valid record is kept. |
| Refresh.ValidProjectionsShape | openfood/management/commands/refresh.py:52-57 | Every valid projection has exactly the requested keys, with values copied from a source record that has all of them. |
| Refresh.InvalidRecordDropped | openfood/management/commands/refresh.py:54-60 | Inserting a record that lacks a key anywhere in the source does not change the valid projections. So it does not change what one fetch stores for any target other than 0. |
| Refresh.FetchedHaveKeys | openfood/management/commands/refresh.py:52-57 | Every record one fetch appends has exactly the requested keys, whatever the target. |
| Refresh.RowOf | openfood/management/commands/refresh.py:71-78 | The product row built from a record takes its barcode from `code` and starts with a counter of 0. |
| Refresh.Chars | openfood/management/commands/refresh.py:81 | Iterating over a string hierarchy yields one entry per character: entry `i` is the `i`-th character as a one-character string. |
| Refresh.Hierarchy | openfood/management/commands/refresh.py:81 | A list hierarchy is walked item by item. A string hierarchy is walked character by character: entry `i` is the `i`-th character as a one-character string. |
| Refresh.Reversed | openfood/management/commands/refresh.py:81 | Entry `i` of the reversed hierarchy is entry `L-1-i` of the original, and the length is unchanged. |
| Refresh.AddPositions | openfood/management/commands/refresh.py:81-89 | The inner loop saves exactly one position per hierarchy entry. |
| Refresh.AddPositionsFrame | openfood/management/commands/refresh.py:81-89 | The inner loop leaves products and the next key untouched. It keeps earlier categories at their index, adds one position per entry, and keeps names unique. |
| Refresh.AddPositionsRows | openfood/management/commands/refresh.py:81-89 | The `i`-th added position belongs to the product, has rank `i` and names the category of reversed entry `i`. |
| Refresh.AddPositionsNames | openfood/management/commands/refresh.py:82-84 | Every entry walked is in the category table afterwards. |
| Refresh.RegisterOne | openfood/management/commands/refresh.py:70-89 | Registering one record saves exactly one position per entry of its hierarchy. |
| Refresh.RegisterOneProducts | openfood/management/commands/refresh.py:70-79 | Registering one record appends exactly its product row under the next key, and the next key advances by one. |
| Refresh.RegisterOneFrame | openfood/management/commands/refresh.py:70-79 | Registering one record appends exactly its product row under the next key. The field mapping is code→barcode, nutrition_grades→grade, brands→brand, stores→store, image_url→image URL, with the counter at 0. The other tables are only extended. |
| Refresh.RegisterOneRanks | openfood/management/commands/refresh.py:81-89 | A hierarchy `h` of length `L` gives `L` positions for the new product. Position `i` has rank `i` and names `h[L-1-i]`. |
| Refresh.RegisterOneNames | openfood/management/commands/refresh.py:81-84 | Every name of the record's hierarchy is in the category table afterwards. |
| Refresh.RegisterRanksExample | openfood/management/commands/refresh.py:81-89 | The hierarchy `["A","B","C"]` gives rank 0 to "C", rank 1 to "B" and rank 2 to "A". |
| Refresh.RegisterAll | openfood/management/commands/refresh.py:69-89 | `register` never lowers the number of positions. |
| Refresh.RegisterAllKeepsPositions | openfood/management/commands/refresh.py:69-89 | `register` keeps every earlier position at its index and only appends new ones. |
| Refresh.RowsIndex | openfood/management/commands/refresh.py:70-79 | The reference rows of a batch are one per record, in order, with consecutive keys. |
| Refresh.RegisterAllRows | openfood/management/commands/refresh.py:69-79 | `register` appends exactly the reference rows to the product table, and the next key advances by the batch size. |
| Refresh.RegisterAllProducts | openfood/management/commands/refresh.py:69-79 | `register` creates one product per record, in order, with consecutive keys, after the old rows. There is no deduplication by barcode. |
| Refresh.RegisterAllFreshRows | openfood/management/commands/refresh.py:69-79 | The rows `register` adds have keys from the old next key on and a counter of 0. The old rows are kept as a prefix. |
| Refresh.RegisterAllCategoriesFrame | openfood/management/commands/refresh.py:82-84 | After `register`, category names are still unique and earlier categories keep their index. |
| Refresh.RegisterOneKeepsNames | openfood/management/commands/refresh.py:82-84 | Registering one record never loses a category name. |
| Refresh.RegisterAllCategories | openfood/management/commands/refresh.py:82-84 | After `register`, every name of every processed hierarchy is in the category table. |
| Refresh.AddPositionsWellFormed | openfood/management/commands/refresh.py:81-89 | The inner loop on an existing product keeps the tables well formed. |
| Refresh.RegisterAllWellFormed | openfood/management/commands/refresh.py:69-89 | `register` keeps the tables well formed. |
| Refresh.FetchedRegistrable | openfood/management/commands/refresh.py:33-35 | Every record fetched with the default keys can be registered. |
| Refresh.FetchGrades | openfood/management/commands/refresh.py:93-95 | All records fetched for one category over the grade tiers can be registered. |
| Refresh.FetchAll | openfood/management/commands/refresh.py:92-95 | All records fetched over every category and grade tier can be registered. |
| Refresh.FetchGradesBound | openfood/management/commands/refresh.py:93-95 | With every target at least 1, one category yields at most the sum of the targets. |
| Refresh.FetchAllBound | openfood/management/commands/refresh.py:92-95 | With every target at least 1, `populate` fetches at most (number of categories) × (sum of targets) records. |
| Refresh.Collector.constructor | openfood/management/commands/refresh.py:18-30 | The collector keeps the configuration it is given and starts with no records. |
| Refresh.Collector.ProjectRecord | openfood/management/commands/refresh.py:53-60 | The key loop yields the projection exactly when every key is present. On a missing key (the `KeyError` path) it yields nothing. |
| Refresh.Collector.Fetch | openfood/management/commands/refresh.py:32-66 | The collector's records grow by exactly the fetch specification on the endpoint's answer. Earlier records are kept as a prefix. |
| Refresh.Collector.SavePositions | openfood/management/commands/refresh.py:81-89 | The inner loop changes the tables exactly as the position specification says. |
| Refresh.Collector.RegisterRecord | openfood/management/commands/refresh.py:70-89 | One iteration of the outer loop changes the tables exactly as registering that record says. |
| Refresh.Collector.Register | openfood/management/commands/refresh.py:69-89 | The tables become the registration of every collected record, in order, and stay well formed. |
| Refresh.Collector.Populate | openfood/management/commands/refresh.py:91-99 | The records grow by the fetches over every category and grade tier, in loop order. The tables then become the registration of all records, and stay well formed. |
| Refresh.Collector.Empty | openfood/management/commands/refresh.py:101-111 | The tables become their purge and stay well formed. The reported deleted number and total are the unfavourited count and the prior count. Deleted plus remaining equals the total. |
| Refresh.Handle | openfood/management/commands/refresh.py:137-138 | A run with the default configuration leaves exactly the registration of all fetched records on top of the purged tables, and keeps them well formed. |
| Favorites.FindProduct | openuser/views.py:154 | The lookup by key returns the index of the first product with that key. It returns nothing exactly when no product has it. |
| Favorites.Favorite | openuser/views.py:151-166 | A product is found exactly when its key exists. Then the key joins the favourites, the row with that key gets its counter raised by 1, the rendered product is that updated row, and the found message is rendered. Otherwise nothing changes and the not-found message is rendered. |
| Favorites.Unfavorite | openuser/views.py:168-177 | The removal fails exactly when the key is not a favourite or no product has that key. Otherwise the key leaves the favourites, and the returned product is the row with that key, its counter lowered by 1 if it was positive, as now stored in the table. |
| Favorites.FavoriteEffect | openuser/views.py:158-160 | With unique keys, adding raises the counter of exactly the product with that key by 1, even if it was already a favourite. Every other row is unchanged. |
| Favorites.UnfavoriteEffect | openuser/views.py:172-175 | With unique keys, removing lowers the counter of that product by 1 if it was positive and leaves it otherwise. Every other row is unchanged. |
| Favorites.FavoriteCount | openuser/views.py:158 | The favourites count grows by one exactly when an existing product that was not yet a favourite is added. |
| Favorites.UnfavoriteCount | openuser/views.py:172 | A successful removal shrinks the favourites count by one. |
| Favorites.AddThenRemove | openuser/views.py:158-175 | Adding an existing product that is not yet a favourite, then removing it, restores the product table and the favourites exactly. |
| Favorites.AddTwiceOvercounts | openuser/views.py:158-159 | Adding the same product twice raises its counter by 2 while the profile holds it once. |
| Favorites.HoldersUpdate | openuser/views.py:158 | Replacing one profile's favourites changes a key's holder count by that profile's contribution only. |
| Favorites.UnfavoriteNeverClamps | openuser/views.py:173 | While counters cover their holders, removing a favourite always finds a positive counter. |
| Favorites.FavoriteKeepsCovered | openuser/views.py:154-160 | Adding keeps every favourite existing and every counter at or above its holder count. |
| Favorites.UnfavoriteKeepsCovered | openuser/views.py:171-175 | A successful removal keeps every favourite existing and every counter at or above its holder count. |
| Favorites.PurgeKeepsFavorites | openfood/management/commands/refresh.py:102-106 | While counters cover their holders, `empty` deletes no favourite, and the counters still cover their holders. |
| Favorites.RegisterKeepsCovered | openfood/management/commands/refresh.py:69-79 | `register` keeps every counter at or above its holder count: new rows start at 0 under keys no profile holds. |
| Favorites.Profile.constructor | openuser/views.py:34-36 | A new profile has no favourites. |
| Favorites.Profile.FavoritesNumber | openuser/views.py:130 | The account page shows the number of favourites in the profile's set. |
| Favorites.AddToFavorites | openuser/views.py:151-166 | The view leaves the product table, the favourites and the rendered product and message as the add specification says. The tables stay well formed. |
| Favorites.RemoveFromFavorites | openuser/views.py:168-177 | For a key that is not a favourite, the request fails and nothing changes. Otherwise the table and favourites become those of the remove specification, and the tables stay well formed. |
| Redirects.CurrentSearch | openuser/views.py:21-24 | The current search is the session value when present, and "logout" otherwise. |
| Redirects.FormData | openuser/views.py:25 | The form is bound to data only on a POST, and then to the POST data. A GET leaves it unbound. |
| Redirects.FormValid | openuser/views.py:26 | The form is valid exactly on a POST with non-empty data whose fields are valid, and so never on a GET. |
| Redirects.Contains | openuser/views.py:39 | A string contains a pattern only if it is at least as long. Every string contains the empty pattern. |
| Redirects.ContainsIff | openuser/views.py:39 | The substring test holds exactly when the pattern occurs at some index, both ways. |
| Redirects.RemoveAll | openuser/views.py:47 | Removing every occurrence never lengthens the string. |
| Redirects.RemoveAllIdentity | openuser/views.py:47 | A string without the pattern is returned unchanged. |
| Redirects.RemoveAllPrefix | openuser/views.py:47 | A leading occurrence is removed together with the rest. |
| Redirects.AfterLogin | openuser/views.py:39-51 | The target is the substitutes page exactly when the current search contains "random", with "random_" stripped to give the key. Otherwise it is the search page. |
| Redirects.Registration | openuser/views.py:19-52 | With a valid bound form and a taken username, the user creation fails and the view errors. The view redirects exactly when the bound form is valid, the username is free and the new credentials authenticate, and then by the current search. Otherwise it renders the registration page with the current search. |
| Redirects.LogInAsWritten | openuser/views.py:54-81 | The login view as written renders the login page exactly when the bound form is invalid or authentication fails. |
| Redirects.LogInAsWrittenIgnoresNext | openuser/views.py:60-68 | As written, every redirect after login goes by the current search. The `next` branch is never taken. |
| Redirects.LogInAsWrittenExample | openuser/views.py:67-68 | A valid POST login to `?next=/account/` with no current search lands on the search page, not on `/account/`. |
| Redirects.LogIn | openuser/views.py:54-81 | The corrected login view renders the login page exactly when the bound form is invalid or authentication fails. |
| Redirects.LogInFollowsNext | openuser/views.py:67-68 | After a successful login, an explicit `next` URL is followed. |
| Redirects.LogInAgreesWithRegistration | openuser/views.py:67-80 | Without `next`, login and registration under a free username redirect alike, and the corrected and as-written login agree. |
| Redirects.DefaultSearchRedirect | openuser/views.py:23-24 | With no current search in the session, a successful user goes to the search page. |
| Redirects.RandomRoundTrip | openuser/views.py:39-49 | A current search `random_<pk>`, where the key does not contain "random_", leads to the substitutes of that very key. |
| Redirects.RandomWithoutUnderscore | openuser/views.py:39-47 | A current search containing "random" but not "random_" is passed on whole as the key. |

## Findings

| source | as written | input that shows it | evidently intended | confidence | as-written member | corrected member |
|---|---|---|---|---|---|---|
| openuser/views.py:60-68 | The `next` URL is followed only when `request.method == 'GET'`. The form is bound to `request.POST or None`, so on a GET it is unbound and never valid, and the branch can never run. | A valid POST login to `?next=/account/` with no current search redirects to the search page. | After any successful login, follow an explicit `next` URL, then the random-product rule. | medium, not executed | Redirects.LogInAsWritten | Redirects.LogIn |

## Left out

- The network request of `fetch` (`requests.get`, the query arguments, `page_size`, JSON decoding) is not modelled. The endpoint's answer is the `Catalogue` parameter, so the 1000-record page limit is whatever that function returns. The collector's `url` is stored but has no other use.
- JSON values other than strings and lists of strings are not modelled. A record field is a string or a list of strings.
- All printing is not modelled: the progress prints, the stdout redirection, the timestamped log file and `datetime`. `Refresh.Handle` keeps only the order `empty`, then `populate`.
- The ORM is not modelled, only in-memory tables. Concurrent requests and the missing transaction boundaries are not modelled: every view and the command run alone.
- openfood/models.py is not part of this model. Two of its properties are assumed: a new product's counter is 0, and a position's foreign key cascades when its product is deleted. The profile–product relation rows held outside the tables are not cascaded. `Favorites.PurgeKeepsFavorites` shows that no favourite is deleted while `Favorites.Covered` holds.
- `Favorites.Covered`: the counter is proved to be at least the number of profiles holding the product, not equal to it. The code does not keep equality, because a second add counts twice (`Favorites.AddTwiceOvercounts`).
- `Favorites.RemoveFromFavorites`: when the key is not a favourite, `remove(None)` is assumed to change nothing before the `None.favorized` access fails. The model reports this as a failed request.
- In `registration`, creating the `User` and `Profile` rows and hashing the password are not modelled. Form-field validation, whether the username is already taken, and `authenticate` are boolean parameters. A taken username makes `create_user` fail on the unique username column, because `CreateUser` does not check it. The model reports this as `ServerError` and does not model what the error page shows. `reverse_lazy` URL resolution is replaced by symbolic targets.
- `signup`, `activate`, `log_out`, `user_favorites` and its paginator, `login_required`, template rendering, and the favourites JSON import and export are outside this model.
- openuser/forms.py, openfood/management/commands/count_products.py, openfood/management/commands/hello.py and openuser/tests.py are not modelled: they hold field declarations, ORM counts, prints and status-code tests.
