# MyAnime, modelled in Dafny

MyAnime is a small anime catalogue. It has three parts:

- a browser front end for the catalogue page (`public/script.js`), which browses the Jikan API and keeps a personal "my anime" list;
- a detail page for one anime (`public/anime.js`);
- an Express server (`server.js`), which keeps accounts, sessions and favourites in SQLite.

This project models the logic of those three files and proves what they promise.

Catalogue page:
- how the UI state becomes a Jikan search URL;
- the retry loop in front of Jikan;
- the local filter, sort and paging of the cached favourites;
- the loaders and event handlers that update the page's state;
- the favourite toggle.

Detail page:
- the character list, revealed five at a time;
- the recommendation pages, fetched and revealed five at a time;
- the fallback from Jikan to the server's cache;
- the meta line;
- the page's two favourite toggles.

Server:
- register, login, logout and current user;
- the three favourites routes over the `users` and `favorites` tables and the session store.

Modules, one file each:

| file | module | what it holds |
|---|---|---|
| JsRuntime.dfy | JsRuntime | The JavaScript built-ins the code relies on: `trim` with ECMAScript's white-space set, ASCII `toLowerCase`, `includes`, `slice` with index clamping, `filter`, a `Set` kept in insertion order, and `String(n)` / `Number(s)` for integers. |
| StableSort.dfy | StableSort | `Array.prototype.sort` with the page's `by(fn, dir)` comparator. It is stable, and its result is proved to be a sorted, stable permutation. |
| Jikan.dfy | Jikan | `jikanFetch`, as a method with a `while` loop, proved against a reference definition of how the call settles. |
| Browse.dfy | Browse | `buildBrowseUrl`, as the list of query parameters in the order they are set. |
| Favorites.dfy | Favorites | `filterSortFavorites`, `mapCacheToAnime`, the page window of `loadFavorites`, the favourite toggle, and `loadFavoriteIds` as a function. |
| Catalog.dfy | Catalog | The catalogue page's module state (`state`, `FAVORITES`, `favoritesCache`) as class `CatalogPage`, plus `ensureFavoritesLoaded`'s collection of cached items. |
| DetailLists.dfy | DetailLists | Chunk cursor arithmetic, normalising recommendation entries, and the entries a run of pages contributes. |
| Detail.dfy | Detail | The detail page's module state as class `DetailPage`, with its loaders and click handlers. |
| DetailView.dfy | DetailView | `loadDetails` and its meta line. |
| Server.dfy | Api | The server as class `Server`, over its two tables and the session store. |

Requests are inputs of the model, not actions. Each of the following is a parameter:
- the reply to each `fetch` inside `jikanFetch`;
- how a `jikanFetch` call settles;
- the answers of `/api/favorites`, `/api/user` and `/api/anime-cache/:id`;
- whether a favourites request was answered OK;
- the clock value for `created_at`;
- the bcrypt salt.

Rendering is represented by the list of items a call hands to the grid.

The model follows the code. The code has none of the following behaviours, so the model has none either:
- de-duplication by id;
- an optimistic toggle with rollback;
- pruning of old items;
- scroll-triggered loading;
- an in-flight guard against concurrent loads.

## Model

| member | source | states |
|---|---|---|
| JsRuntime.Trim | server.js:62 | `trim()` returns the infix of the input that neither starts nor ends with white space. Everything cut from either end is white space. |
| JsRuntime.SkipSpaces | public/script.js:73 | The first position at or after `i` that is not white space, with only white space skipped. |
| JsRuntime.SkipSpacesBack | public/script.js:73 | The end of the text before `j` once trailing white space is dropped, with only white space dropped. |
| JsRuntime.TrimOffset | public/script.js:207 | The number of characters `trim()` cuts from the front is at most the length. |
| JsRuntime.TrimOfTrimmed | public/script.js:315 | A string with no white space at either end is its own trim. |
| JsRuntime.TrimIdempotent | public/script.js:315 | Trimming twice is the same as trimming once, so the trimmed `state.q` that the search click stores trims to itself in `buildBrowseUrl`. |
| JsRuntime.LowerChar | public/script.js:207 | ASCII case folding: an upper-case letter becomes the lower-case letter 32 code points above it, and every other character is left as it is. |
| JsRuntime.ToLower | public/script.js:207 | `toLowerCase()` keeps the length and folds each character. |
| JsRuntime.Slice | public/script.js:274 | `slice(start, end)` with 0 <= start <= end is the infix between the two indices, each clamped to the length. |
| JsRuntime.Filter | public/script.js:209 | `filter` keeps exactly the elements that pass the test, with no element gained (a sub-multiset). |
| JsRuntime.FilterAppend | public/script.js:209 | Filtering a concatenation is concatenating the filtered parts. |
| JsRuntime.FilterTwice | public/script.js:209-225 | Two filters in a row equal one filter by the conjunction of their tests. |
| JsRuntime.FilterAll | public/script.js:209 | A filter whose test every element passes returns the list unchanged. |
| JsRuntime.Includes | public/script.js:209 | `includes` holds for the empty string and for any prefix, and never for a part longer than the text. |
| JsRuntime.NoDupsCons | public/script.js:18 | A list with a new head is duplicate-free exactly when the head is new and the tail is duplicate-free. |
| JsRuntime.SetAdd | public/script.js:385 | `Set.add` appends a new element and keeps a present one in place. The members afterwards are the old ones plus x, still without duplicates. |
| JsRuntime.SetDelete | public/script.js:367 | `Set.delete` leaves exactly the other elements, in their order (a filter by `y != x`). It keeps the set free of duplicates, shrinks it by one when x was present and changes nothing otherwise. |
| JsRuntime.SetOf | public/script.js:152-153 | `clear()` followed by an `add` of each id gives a duplicate-free set holding exactly those ids. |
| JsRuntime.SetOfDistinct | public/script.js:152-153 | Ids without repetitions keep their exact order in the set. |
| JsRuntime.DigitChar | public/script.js:70 | A digit below 10 becomes a decimal digit character with that value. |
| JsRuntime.NatToDecimal | public/script.js:70 | `String(n)` of a natural number is a non-empty string of digits, one digit long exactly when n < 10. |
| JsRuntime.DecimalRoundTrip | public/script.js:70 | Reading the digits of `String(n)` gives back n. |
| JsRuntime.IntToString | public/script.js:70 | `String(n)` is non-empty and has no white space at either end. |
| JsRuntime.NumberOfString | server.js:148 | `Number(String(n)) == n` for every integer n. |
| JsRuntime.DecimalOfString | server.js:148 | The text `String(n)` reads back as n, with or without its sign. |
| JsRuntime.StringToNumber | server.js:148 | `Number()` of a string that is empty or all white space is 0. Its round trip with `String(n)` is `NumberOfString`. |
| StableSort.Compare | public/script.js:227 | `by(fn, dir)` returns only -1, 0 or 1. |
| StableSort.TextLessIrreflexive | public/script.js:227 | No string is `<` itself. |
| StableSort.TextLessTransitive | public/script.js:227 | `<` on strings is transitive. |
| StableSort.TextLessTotal | public/script.js:227 | Any two distinct strings are ordered one way or the other. |
| StableSort.KeyLessIrreflexive | public/script.js:227 | No sort key is `<` itself. |
| StableSort.KeyLessTransitive | public/script.js:227 | `<` on sort keys is transitive. |
| StableSort.KeyLessTotal | public/script.js:227 | Any two distinct sort keys are ordered one way or the other. |
| StableSort.CompareZero | public/script.js:227 | The comparator reports a tie exactly for equal keys. |
| StableSort.CompareAntisymmetric | public/script.js:227 | Swapping the comparator's arguments flips its sign. |
| StableSort.LeTotal | public/script.js:227 | Of two elements, at least one may stand before the other. |
| StableSort.LeTransitive | public/script.js:227 | "may stand before" is transitive. |
| StableSort.InsertPermutes | public/script.js:228-252 | Inserting one element adds exactly that element. |
| StableSort.SortByPermutes | public/script.js:228-252 | `items.sort(by(fn, dir))` is a permutation of `items`. |
| StableSort.SortedCons | public/script.js:228-252 | A sorted list stays sorted with a head that may stand before all its elements. |
| StableSort.InsertSorted | public/script.js:228-252 | Inserting into a sorted list gives a sorted list. |
| StableSort.SortBySorted | public/script.js:228-252 | The sorted result is ordered by the comparator: every element may stand before every later one. |
| StableSort.InsertStable | public/script.js:228-252 | Inserting x in front of its equals keeps the order of the elements with any one key. |
| StableSort.SortByStable | public/script.js:228-252 | The sort is stable: for every key, the elements carrying it keep their original order. |
| Jikan.JikanFetch | public/script.js:25-36 | The loop makes between 1 and `retries + 1` requests and pauses `backoffMs * (k + 1)` after the k-th retriable failure. Its outcome and request count are those of the reference definition `Settle` / `Requests`. |
| Jikan.IsRetriable | public/script.js:30 | An OK status is never retried, and among the 4xx statuses only 429 is. |
| Jikan.PausesGrow | public/script.js:32 | With a positive backoff, each pause is strictly longer than the one before. |
| Jikan.StepGrows | public/script.js:32 | `backoffMs * (attempt + 1)` grows strictly with the attempt number. |
| Jikan.SettleShape | public/anime.js:22-32 | Every request before the last met a retriable failure (429 or 5xx). The last request is the last allowed attempt or met something else, and that reply alone decides the outcome. |
| Jikan.ResolvedIffOkAfterRetriable | public/script.js:25-36 | The call resolves with a body exactly when some allowed attempt gets an OK response with that body and every earlier attempt met a retriable failure. |
| Jikan.NonRetriableFailsAtOnce | public/script.js:30-35 | A non-OK status other than 429 and 5xx throws `Jikan error <status>` after one request. |
| Jikan.AlwaysThrottledFails | public/script.js:29-35 | A retriable status at the last attempt is thrown. When every reply is 429, the call makes `retries + 1` requests and throws. |
| Jikan.ThrottledTwiceThenOk | public/script.js:25 | With the default two retries, two 429 replies and then an OK reply resolve with the third reply's body after three requests. |
| Browse.ParseSort | public/script.js:76-111 | A sort string selects the case whose label it is, or no case when it is no label. |
| Browse.ParseSortLabel | public/script.js:76-111 | Each case's label selects that case. |
| Browse.Names | public/script.js:68-113 | The names of the query parameters, position by position. |
| Browse.SearchParams | public/script.js:73 | At most one parameter, named `q`. |
| Browse.GenreParams | public/script.js:74 | At most one parameter, named `genres`. |
| Browse.BuildBrowseUrl | public/script.js:68-113 | The URL starts with `page` (the decimal page) and then `limit` (25). The other parameters are covered by `BrowseSearchAndGenre`, `BrowseOrderAndDirection`, `BrowseStatus` and `BrowseParamsDistinct`. |
| Browse.LookupAppend | public/script.js:68-113 | `searchParams.get` on a concatenation looks in the first part, then in the second. |
| Browse.RankedAppend | public/script.js:68-113 | Two groups of parameters set in rank order concatenate into one group set in rank order. |
| Browse.RankedNoDups | public/script.js:68-113 | Parameters in strictly increasing rank have distinct names. |
| Browse.OrderingRanked | public/script.js:76-111 | Each sort case sets `status`, `order_by` and `sort` in that order, and nothing else. |
| Browse.LookupAbsent | public/script.js:68-113 | A name that was never set is absent. |
| Browse.QueryDistinct | public/script.js:68-113 | No parameter name is set twice. |
| Browse.BrowseParamsDistinct | public/script.js:68-113 | `buildBrowseUrl` sets each parameter at most once, so no `set` overwrites another. |
| Browse.QueryLookup | public/script.js:68-113 | `page` and `limit` come first, then `q`, `genres` and the ordering group, in that order. |
| Browse.BrowsePageAndLimit | public/script.js:70-71 | `page` is `String(state.page)` and reads back as `state.page`. `limit` is always 25. |
| Browse.QuerySearchAndGenre | public/script.js:73-74 | `q` is present iff the search text has at least two characters. `genres` is present iff the genre is non-empty. |
| Browse.OrderingLacks | public/script.js:76-111 | The sort cases never set `page`, `limit`, `q` or `genres`. |
| Browse.BrowseSearchAndGenre | public/script.js:73-74 | `q` is present iff the trimmed query has at least two characters, and its value is the trimmed query. `genres` is present iff a genre is chosen, with that genre as its value. |
| Browse.QueryOrdering | public/script.js:76-111 | `status`, `order_by` and `sort` come from the sort key alone. |
| Browse.OrderingLookups | public/script.js:76-105 | A two-parameter case sets `order_by` and `sort` to its pair, and no `status`. |
| Browse.StatusOrderingLookups | public/script.js:100-109 | `airing` and `upcoming` set `status` to their own label, `order_by` to members and `sort` to desc. |
| Browse.OrderingOf | public/script.js:76-111 | The `(order_by, sort[, status])` each sort case sets, and nothing for an unknown key. |
| Browse.BrowseOrderAndDirection | public/script.js:76-111 | The `order_by` / `sort` pair of each of the eight sort keys, and neither parameter for an unknown key. |
| Browse.BrowseStatus | public/script.js:100-109 | `status` is set exactly for `airing` and `upcoming`, to the key itself. |
| Favorites.GenreIds | public/script.js:216-221 | An id is among the item's genre ids iff it occurs in genres, themes, demographics or explicit_genres. A missing list counts as empty. |
| Favorites.FilterSortFavorites | public/script.js:203-257 | The view is a sub-multiset of the cached items. It holds exactly the cached items that pass the search, genre and status filters. |
| Favorites.FiltersSelect | public/script.js:206-225 | The search filter (applied only from two characters of trimmed, lower-cased query on), the genre filter and the status filter together keep exactly the selected items, in cache order. |
| Favorites.FilterSortFavoritesOrdered | public/script.js:227-254 | With a known sort key, the view is sorted by that case's key and direction. It is a permutation of the selected items and keeps the cache order among equal keys. |
| Favorites.FilterSortFavoritesUnknownSort | public/script.js:227-256 | With an unknown sort key, the view is the selected items in cache order. With no search and no genre as well, it is the whole cache. |
| Favorites.SortKeyCases | public/script.js:228-255 | Only `az` and `za` compare lower-cased titles. `top_rated` and `worst_rated` compare scores. `popular`, `least_popular`, `airing` and `upcoming` compare members (or popularity). |
| Favorites.SortDirection | public/script.js:228-255 | `dir` is -1 exactly for `least_popular`, `za` and `top_rated`. |
| Favorites.MappedCacheRow | public/script.js:160-167 | A mapped cache row keeps the row's id, title and score, has popularity 0, and never passes a genre filter or the airing/upcoming status filter. |
| Favorites.MapCacheToAnime | public/script.js:160-167 | The mapped row carries the row's `mal_id`, title, image and score, and no genres, status, members or popularity. |
| Favorites.FavoritesPage | public/script.js:273-274 | For page >= 1, the page shows `items[(page-1)*25, page*25)`, clamped to the list, and never more than 25 items. |
| Favorites.LoadMoreDisabledIffNextEmpty | public/script.js:277 | "Load more" is disabled exactly when the next page would be empty. |
| Favorites.LoadMoreDisabledCovers | public/script.js:273-277 | "Load more" is disabled exactly when the first `page` pages hold every item (`length <= page * 25`). |
| Favorites.FirstPagesPrefix | public/script.js:270-278 | Pages 1..n shown one after another are the first min(25n, length) items, each once and in order. |
| Favorites.ToggleRequest | public/script.js:359-384 | A star click sends DELETE for a favourite and POST otherwise, for the card's id. |
| Favorites.ToggleFavorite | public/script.js:359-389 | On an OK answer, the id's membership flips and no other id changes. On any other answer, FAVORITES is unchanged. It stays a set. |
| Favorites.DeleteAfterAdd | public/script.js:367 | Deleting an element just added restores the set, order included. |
| Favorites.ToggleTwice | public/script.js:359-387 | Adding and then removing a favourite, both answered OK, restores FAVORITES exactly. |
| Favorites.IdsAfter | public/script.js:149-157 | `loadFavoriteIds` rebuilds FAVORITES from the ids on an OK answer, in their order when distinct. A non-OK answer (read as `[]`) empties it, and a failed request leaves it alone. |
| Catalog.Collect | public/script.js:172-196 | Every cached item is what was found for one of the ids, and there are no more items than ids. |
| Catalog.ItemForSources | public/script.js:177-194 | The Jikan record is pushed whenever `jikanFetch` resolves with one. Otherwise what is pushed is the mapped row of a cache answer that found a row. Nothing is pushed when neither cache answer has a row. |
| Catalog.CollectAppend | public/script.js:172-196 | The loop over a list of ids is the loop over its first part followed by the loop over the rest. |
| Catalog.CollectOne | public/script.js:174-195 | One id contributes exactly the item found for it, or nothing: at most one item. |
| Catalog.CollectAllFound | public/script.js:172-196 | When something is found for every id, the cache holds exactly one item per id, in id order. |
| Catalog.UpstreamFirst | public/script.js:180-182 | An id that Jikan answers with a record contributes that record, whatever the cache holds. |
| Catalog.MissingSkipped | public/script.js:183-194 | An id that neither Jikan nor the cache knows adds nothing. |
| Catalog.CatalogPage.constructor | public/script.js:10-22 | The initial `state`, an empty FAVORITES and an empty, unloaded cache. |
| Catalog.CatalogPage.LoadFavoriteIds | public/script.js:149-157 | The loop leaves FAVORITES equal to `IdsAfter` of the answer, and still a set. |
| Catalog.CatalogPage.EnsureFavoritesLoaded | public/script.js:169-200 | Once loaded, nothing changes. Otherwise FAVORITES is reloaded, the cache becomes `Collect` of the ids in FAVORITES order, and it is marked loaded. |
| Catalog.CatalogPage.LoadBrowse | public/script.js:260-268 | It requests `buildBrowseUrl(state)`. On success it renders the list and disables "load more" iff fewer than 25 items came back. On a throw nothing changes. |
| Catalog.CatalogPage.LoadFavorites | public/script.js:270-278 | `FavoritesShown`: the cache is loaded when it was not (ids reloaded, then `Collect`) and otherwise left alone. Page `state.page` of the filtered, sorted favourites is rendered, and "load more" is disabled from the last page on. |
| Catalog.CatalogPage.LoadView | public/script.js:293-297 | The mode dispatch: in browse mode the browse URL of the state is requested, its listing rendered, the favourites and cache untouched, and "load more" disabled below a full page or kept on a throw; in "my anime" mode the cache is loaded when it was not (ids reloaded, then `Collect`) and the current page of the filtered, sorted cache is rendered with the button rule (`ViewShown`). |
| Catalog.CatalogPage.Refresh | public/script.js:289-298 | Page 1 when asked, then the current mode's first load (`ViewShown`). Browse mode: the browse URL of the state is requested, its listing is rendered and "load more" is disabled below a full page. On a throw nothing is rendered and the button stays disabled. The favourites and cache are untouched. "My anime" mode: the cache is loaded when it was not (ids reloaded, then `Collect`), and the current page of the filtered, sorted cache is rendered with the button rule. |
| Catalog.CatalogPage.LoadMore | public/script.js:334-341 | `state.page` goes up by one, then the same state as a reload (`ViewShown`): in browse mode the next page's listing from the browse URL, with the button keeping its state on a throw; in "my anime" mode the next page of the cache. |
| Catalog.CatalogPage.SearchInput | public/script.js:305-309 | The raw input text becomes `state.q`, and the view reloads from page 1 with the state `Refresh` gives: URL, rendered list, button and cache. |
| Catalog.CatalogPage.SearchClick | public/script.js:312-317 | Genre, sort (`popular` when empty) and the trimmed query are stored, and the view reloads from page 1 with the state `Refresh` gives: URL, rendered list, button and cache. |
| Catalog.CatalogPage.ShowMine | public/script.js:328-331 | The mode follows the checkbox, and the view reloads from page 1 in that mode with the state `Refresh` gives: the browse listing, or page 1 of the favourites after loading the cache when it was not loaded. |
| Catalog.CatalogPage.StarClick | public/script.js:344-390 | Without an id or a user, nothing is sent and nothing changes. Otherwise DELETE or POST follows membership, and FAVORITES changes only on OK. An OK removal in "my anime" mode also drops the cached items with that id. |
| Catalog.RemovalPurgesCache | public/script.js:373 | After the purge no cached item has the id, and the purge changes nothing exactly when no item had it. |
| Detail.DetailPage.constructor | public/anime.js:8-19 | The module-level initial values: no user, empty lists, cursors at 0, `recPage` 1, `recHasNext` true. |
| Detail.DetailPage.SetupAuth | public/anime.js:35-52 | `currentUser` follows `/api/user`. A failed request leaves it as it was. |
| Detail.DetailPage.LoadFavoriteIds | public/anime.js:54-59 | FAVORITES becomes `IdsAfter` of the answer, and stays a set. |
| Detail.DetailPage.FavClick | public/anime.js:71-88 | Without a user nothing is sent and nothing changes. Otherwise the request follows membership and FAVORITES flips only on OK. |
| Detail.DetailPage.RecStarClick | public/anime.js:124-144 | As FavClick, for the card's id. Nothing happens for a NaN or 0 id. |
| Detail.DetailPage.RenderMoreCharacters | public/anime.js:198-204 | The cursor advances by min(5, remaining) and stays within the list. It renders exactly the characters it passes. The button is disabled once the cursor reaches the end. |
| Detail.DetailPage.LoadCharacters | public/anime.js:192-196 | The fetched list replaces the characters, the first chunk is rendered and "more characters" is disabled when that chunk reaches the end. On a throw nothing changes, the button included. |
| Detail.DetailPage.FetchRecPage | public/anime.js:207-220 | A no-op once `recHasNext` is false. A failed request changes nothing. Otherwise `recPage` goes up by 1, `recHasNext` follows `has_next_page`, and the page's normalised entries are appended. |
| Detail.DetailPage.AppendEntries | public/anime.js:216-219 | `recItems` grows by exactly the normalised entries of the page, in response order. |
| Detail.DetailPage.FetchUntilChunk | public/anime.js:224-227 | `recItems` only grows, by the entries of the pages fetched, in page order. Unless a fetch fails, the loop ends with 5 unrendered entries or no next page. A false `recHasNext` is terminal. |
| Detail.DetailPage.RenderMoreRecs | public/anime.js:222-233 | After the loop it renders the next min(5, available) entries and keeps `recRendered <= recItems.length`. It disables the button iff everything is rendered and there is no next page. |
| Detail.DetailPage.RenderRecChunk | public/anime.js:228-232 | The next chunk of entries, the cursor past them, and the button disabled iff everything is rendered and there is no next page. |
| DetailLists.Advance | public/anime.js:200-202 | The cursor moves by at most 5, never past the end, and moves by fewer only when it reaches the end. |
| DetailLists.CursorAfter | public/anime.js:198-204 | The cursor never exceeds the list's length. |
| DetailLists.RenderedAfterPrefix | public/anime.js:198-204 | After n calls the cursor is min(5n, length), and exactly the characters before it were rendered, each once and in order. |
| DetailLists.Normalise | public/anime.js:217-218 | An entry is kept only when it exists and has a truthy `mal_id`. `entry[0]` is taken when the entry is an array. |
| DetailLists.NormaliseAll | public/anime.js:216-219 | A page contributes at most one entry per item. |
| DetailLists.NormaliseAllAppend | public/anime.js:216-219 | The entries of two runs of items are those of the first followed by those of the second. |
| DetailLists.NormaliseAllMembers | public/anime.js:216-219 | An entry is contributed iff some item normalises to it, and every contributed entry has a truthy `mal_id`. |
| DetailLists.Answer | public/anime.js:209-210 | Page p is answered by the p-th page Jikan serves. A request past them fails. |
| DetailLists.Contributions | public/anime.js:207-220 | One list of entries per fetched page, in page order. |
| DetailLists.FetchedFlat | public/anime.js:224-227 | The entries of a run of pages are the pages' contributions one after another. |
| DetailLists.PagesLeftShrinks | public/anime.js:224-227 | Every answered page brings the fetch loop closer to its end. |
| DetailLists.FetchedSplit | public/anime.js:224-227 | The entries of consecutive runs of pages are those of the first run followed by those of the second. |
| DetailLists.FetchedStep | public/anime.js:224-227 | The entries held, then a run of pages, then the next page, equal the entries held followed by the longer run. |
| DetailView.Join | public/anime.js:185 | `join` of no parts is empty, of one part is that part, and otherwise starts with the first part. |
| DetailView.JoinLength | public/anime.js:185 | The joined string is as long as the parts together plus one separator between each two neighbours. |
| DetailView.JoinAppend | public/anime.js:185 | Joining one more part appends the separator and then that part, so every part appears once, in order, with one separator between neighbours. |
| DetailView.Present | public/anime.js:185 | `filter(Boolean)` (a `Filter` by non-emptiness) keeps exactly the non-empty parts. |
| DetailView.EpisodesPart | public/anime.js:182 | The episodes part is empty exactly when `episodes` is null. Otherwise it is the count, which reads back as the count, followed by " ep". |
| DetailView.YearPart | public/anime.js:183 | The year part is empty exactly when neither `year` nor the aired year is present and non-zero. `year` wins when set, and either reads back as the year shown. |
| DetailView.MetaLine | public/anime.js:185 | The meta line is never empty. |
| DetailView.MetaLineCases | public/anime.js:185 | "—" when every part is empty. Otherwise the non-empty parts joined with " • ", with one separator between each two. |
| DetailView.MetaLineSkipsEmpty | public/anime.js:185 | An empty part is dropped wherever it stands: `xs + [""] + ys` gives the same line as `xs + ys`. |
| DetailView.MetaLineAppend | public/anime.js:185 | A non-empty part after a non-empty one lengthens the line by " • " and that part. |
| DetailView.MetaLineThree | public/anime.js:185 | Three non-empty parts give `a • b • c`. |
| DetailView.MetaLineFull | public/anime.js:182-185 | With episodes, year and status all present, the line is `<n> ep • <year> • <status>`. |
| DetailView.LoadDetails | public/anime.js:147-189 | The Jikan record when there is one, else the cache row (with empty genres), else "not found", in both directions. |
| Api.NormaliseEmail | server.js:62 | A normalised email has no upper-case ASCII letter and no white space at either end. |
| Api.LowerCharIdempotent | server.js:81 | Folding a character twice is folding it once. |
| Api.NormaliseEmailIdempotent | server.js:62 | Normalising a stored email changes nothing, so login looks up the key register stored. |
| Api.NormaliseEmailIgnoresCase | server.js:81 | Emails that differ only in ASCII letter case normalise alike. |
| Api.IntegerValue | server.js:131 | `Number(v)` for an integer is that integer, `null` is 0, and a fraction or an absent field is not an integer. |
| Api.AnimeIdOf | server.js:131-134 | `anime_id` is accepted iff `Number()` gives an integer greater than 0. |
| Api.AnimeIdRoundTrip | server.js:148-151 | A positive id in a path segment or a JSON number is read back exactly. A non-positive id, `null`, a fraction and an absent field are refused. |
| Api.UserWithEmail | server.js:81 | The lookup finds a row with that email iff one exists. |
| Api.UserWithId | server.js:103-105 | The lookup finds a row with that id iff one exists. |
| Api.UserWithIdAppend | server.js:60-61 | Inserting a row leaves every earlier lookup by id unchanged. |
| Api.AddUserKeyed | server.js:30-36 | A row with a free email and the next AUTOINCREMENT id keeps the table's keys and unique emails. |
| Api.RegisteredUserCanLogIn | server.js:62-81 | After registering, login with any spelling whose ASCII lower case matches the registered email finds the new user, and the registered password matches its digest. |
| Api.UserWithEmailAppend | server.js:60-61 | A row with a new email is found by that email after the insert. |
| Api.InsertOrIgnore | server.js:136 | `INSERT OR IGNORE` adds the pair iff it is new, with `created_at` now, and keeps the primary key. |
| Api.InsertOrIgnoreIdempotent | server.js:136 | Adding the same pair again, at any later time, changes nothing. |
| Api.DeletePair | server.js:153 | Exactly the caller's pair is gone and every other row stays. The primary key is kept. |
| Api.DeleteUndoesInsert | server.js:136-153 | Deleting a pair just added restores the table. |
| Api.RowsOf | server.js:119 | `WHERE user_id = ?` keeps exactly that user's rows. |
| Api.OtherUsersUnaffected | server.js:136-153 | Adding or deleting a pair leaves every other user's rows as they were. |
| Api.NewestFirst | server.js:119 | `ORDER BY created_at DESC` gives a permutation of the caller's rows, newest first. |
| Api.AnimeIdsOf | server.js:123 | `rows.map(r => r.anime_id)`, position by position. |
| Api.FavoriteIdsOfCaller | server.js:116-126 | GET answers exactly the caller's anime ids, each once. |
| Api.NewestFirstDistinct | server.js:119 | Two positions of the caller's listing hold different anime ids. |
| Api.SessionsAfterInsert | server.js:60-68 | After a user row is added, every session, including a new one for that row, names a user of the table. |
| Api.Server.constructor | server.js:30-44 | Both tables are empty and there is no session. |
| Api.Server.Register | server.js:50-72 | 400 with no change when a field is missing or the password has fewer than 6 characters. 400 with no change when the normalised email is taken. Otherwise a row is added with trimmed names, the normalised email and the next id, and the session holds that id. |
| Api.Server.InsertUser | server.js:60-68 | The row is appended with the next id and the session holds it. All table keys, unique emails and known sessions are kept. |
| Api.Server.Login | server.js:75-89 | 400 without an email or password. 401 with the session untouched when no user has the normalised email or the password does not match. Otherwise the session holds the user's id. |
| Api.Server.Logout | server.js:92-98 | The session is destroyed and the answer is a success. |
| Api.Server.CurrentUser | server.js:101-111 | null without a session. Otherwise the session user's id, names and email, never the digest. |
| Api.Server.GetFavorites | server.js:116-126 | 401 without a session. Otherwise the caller's anime ids, newest first. |
| Api.Server.PostFavorite | server.js:129-143 | 401 without a session and 400 for an `anime_id` that is not a positive integer, with the table unchanged in both cases. Otherwise INSERT OR IGNORE of the caller's pair, answered 201. |
| Api.Server.DeleteFavorite | server.js:146-160 | 401 without a session and 400 for a path segment that is not a positive integer, with the table unchanged in both cases. Otherwise the caller's pair is deleted, answered 200. |
| Api.Server.AddFavoriteRow | server.js:135-137 | The table becomes `InsertOrIgnore` of the pair and keeps its primary key. |
| Api.Server.DeleteFavoriteRow | server.js:152-154 | The table becomes `DeletePair` of the pair and keeps its primary key. |

## Left out

- DOM and rendering are not modelled: `innerHTML`, `insertAdjacentHTML`, `cardHTML`, `animeCardHTML`, `characterCardHTML`, attribute and colour updates, alerts, `syncFavButtonPressed` and `renderList`. A loader's rendering is represented by the list it hands to the grid.
- I/O is not modelled: `fetch`, Express routing, cookies and sqlite. Responses, row results and the session id are parameters, and the tables are sequences of rows.
- Timing is not modelled: `sleep`, `debounce` and `setTimeout`. The backoff is kept only as the list of pauses the loop asks for. Interleaving of concurrent handlers at an `await` is not modelled either; each handler runs to completion.
- The Jikan replies inside one `jikanFetch` are a function from attempt number to reply. Elsewhere a call to `jikanFetch` is represented by how it settles (`Outcome`), and the loop itself is proved once, in module Jikan.
- Network answers are maps keyed by request, and a request with no entry is one whose promise rejects. The recommendation pages are a finite list: a request past its end fails, which is what bounds the fetch loop of `renderMoreRecs`.
- `bcrypt.hashSync` / `compareSync` become an abstract digest that matches exactly the password it was made of.
- Floating point is not modelled. Scores are integers, and `toFixed` and the score badges are left out.
- `toLowerCase` is ASCII case folding; locale and non-ASCII mappings are left out. `localeCompare` belongs to `populateGenres`, which is left out.
- `Number()` is modelled for the empty string, signed decimal integers with surrounding white space, JSON numbers, booleans and `null`. Hexadecimal, exponents, `Infinity` and other spellings read as NaN.
- Non-string JSON values in the register and login forms are left out, so the `trim()` that would throw on them is left out too. A field is present or absent, and `!field` is "absent or empty".
- `created_at` is a number of seconds passed in by the caller. Rows with equal `created_at` are listed in table order, one of the orders SQL allows.
- Database errors (the 500 answers of every route) and the error path of `session.destroy` are left out.
- `populateGenres`, the catalogue page's `setupAuth` (its only state change is the `loadFavoriteIds` modelled here), the page initialisation handlers, public/admin.js and public/auth.js are not part of this model.
- The client sends `DELETE /api/favorites` with a JSON body, while the server only answers `DELETE /api/favorites/:anime_id`. Each side is modelled as written: the client takes whether its request was answered OK as a parameter, and the server models the route it has.
- Favorites.SortDirection: modelled as written. `popular`, `airing` and `upcoming` sort the favourites by members ascending, unlike the browse URL, which asks Jikan for members descending.
- Jikan.JikanFetch: its `ensures` gives each pause's value. That the pauses strictly increase is stated separately, in `Jikan.PausesGrow`.
- Detail.DetailPage.LoadCharacters: requires that no character has been rendered yet, which holds because the page calls it once, before the first chunk.
- Strings are sequences of Unicode code points, while JavaScript counts and compares UTF-16 code units. Outside the Basic Multilingual Plane the two differ. A character such as an emoji has length 2 in JavaScript and 1 here, so the `length >= 2` search gate and the `length < 6` password rule can decide differently. String `<` in the A–Z sort can also order such a character differently against characters from U+E000 to U+FFFF.
- `res.json()` can reject on a 200 answer whose body is not JSON, and `jikanFetch` does not retry that. Here an OK reply always carries its body.
- `Number()` of an array (`Number([5])` is 5) is left out, because the JSON values here have no arrays, so a POST body `{"anime_id":[5]}` is not modelled.
- JSON numbers are exact integers here, while JavaScript rounds integers above 2^53.
- `buildBrowseUrl` returns its parameters as a list of name/value pairs. Percent-encoding of the values and the text `URL.toString()` produces from them are not modelled.
- bcryptjs compares only the first 72 bytes of a password. The abstract digest here compares whole passwords, so two long passwords sharing their first 72 bytes fail `Login` here with 401 where the source logs the user in.
- The recommendation loop of `renderMoreRecs` never ends in the source if Jikan keeps answering `has_next_page: true` without enough entries. The model ends it only because its list of pages is finite.
