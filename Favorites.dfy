/**
 * The "my anime" view of the catalog page (public/script.js): the local
 * filter and sort applied to the cached favourites (filterSortFavorites),
 * the page window loadFavorites shows, and the mapping of a cache row to an
 * anime object (mapCacheToAnime).
 *
 * An anime object is modelled by the fields these functions read; a field
 * the JSON object lacks (or holds null) is None. Scores are abstracted as
 * integers.
 */
module Favorites {
  import opened JsRuntime
  import opened StableSort
  import opened Browse

  /** An anime object as Jikan returns it, or as mapCacheToAnime builds it.
      The four genre lists hold the `mal_id` of each genre entry. */
  datatype Anime = Anime(
    malId: int,
    title: Option<string>,
    imageUrl: Option<string>,
    score: Option<int>,
    members: Option<int>,
    popularity: Option<int>,
    status: Option<string>,
    genres: Option<seq<int>>,
    themes: Option<seq<int>>,
    demographics: Option<seq<int>>,
    explicitGenres: Option<seq<int>>)

  /** A row of the server's anime cache. */
  datatype CacheRow = CacheRow(malId: int, title: Option<string>, imageUrl: Option<string>, score: Option<int>)

  /** `s || ''` on an optional string: absent and empty both give ''. */
  function OrEmpty(s: Option<string>): string {
    if s.Some? then s.value else ""
  }

  /** `list || []`. */
  function OrNone(ids: Option<seq<int>>): seq<int> {
    if ids.Some? then ids.value else []
  }

  /** `[].concat(a.genres || []).concat(a.themes || []).concat(a.demographics || [])
      .concat(a.explicit_genres || []).map(g => g.mal_id)`. */
  function GenreIds(a: Anime): (ids: seq<int>)
    ensures forall g :: g in ids <==>
              g in OrNone(a.genres) || g in OrNone(a.themes)
              || g in OrNone(a.demographics) || g in OrNone(a.explicitGenres)
  {
    OrNone(a.genres) + OrNone(a.themes) + OrNone(a.demographics) + OrNone(a.explicitGenres)
  }

  // ---------------------------------------------------------------------
  // Sort keys
  // ---------------------------------------------------------------------

  /** `a.members ?? a.popularity ?? 0`. */
  function PopularityKey(a: Anime): Key {
    Num(if a.members.Some? then a.members.value else if a.popularity.Some? then a.popularity.value else 0)
  }

  /** `(a.title || '').toLowerCase()`. */
  function TitleKey(a: Anime): Key {
    Text(ToLower(OrEmpty(a.title)))
  }

  /** `a.score ?? 0`. */
  function ScoreKey(a: Anime): Key {
    Num(if a.score.Some? then a.score.value else 0)
  }

  /** The key each `case` of the sort `switch` sorts by. */
  function SortKey(c: SortChoice): Anime -> Key {
    match c
    case AZ => TitleKey
    case ZA => TitleKey
    case TopRated => ScoreKey
    case WorstRated => ScoreKey
    case _ => PopularityKey
  }

  /** Titles are compared as text only for the two alphabetical orders;
      both rating orders compare scores and the other four compare
      members. */
  lemma SortKeyCases(c: SortChoice)
    ensures forall a :: SortKey(c)(a).Text? <==> c == AZ || c == ZA
    ensures c == TopRated || c == WorstRated ==> forall a :: SortKey(c)(a) == ScoreKey(a)
    ensures c in {Popular, LeastPopular, Airing, Upcoming} ==> forall a :: SortKey(c)(a) == PopularityKey(a)
  {
  }

  /** The `dir` each `case` passes to `by`. As written, `popular`, `airing`
      and `upcoming` sort by members ascending, and `top_rated` by score
      descending. */
  function SortDirection(c: SortChoice): (d: Direction)
    ensures d == Descending <==> c == LeastPopular || c == ZA || c == TopRated
  {
    match c
    case LeastPopular => Descending
    case ZA => Descending
    case TopRated => Descending
    case _ => Ascending
  }

  // ---------------------------------------------------------------------
  // The three filters
  // ---------------------------------------------------------------------

  /** `state.q.trim().toLowerCase()`. */
  function SearchText(q: string): string {
    ToLower(Trim(q))
  }

  /** An item the search keeps: the search text is shorter than two
      characters, or the lower-cased title contains it. */
  predicate MatchesSearch(a: Anime, q: string) {
    |SearchText(q)| < 2 || Includes(ToLower(OrEmpty(a.title)), SearchText(q))
  }

  /** An item the genre filter keeps: no genre is chosen, or
      `Number(state.genre)` is one of the item's genre ids (a genre string
      that is not a number matches nothing). */
  predicate MatchesGenre(a: Anime, genre: string) {
    genre == "" || (StringToNumber(genre).Some? && StringToNumber(genre).value in GenreIds(a))
  }

  /** The word the `airing` and `upcoming` cases look for in the status. */
  function StatusWord(c: SortChoice): Option<string> {
    match c
    case Airing => Some("air")
    case Upcoming => Some("upcoming")
    case _ => None
  }

  /** An item the sort case keeps: only `airing` and `upcoming` filter, on
      the lower-cased status. */
  predicate MatchesStatus(a: Anime, sort: string) {
    var c := ParseSort(sort);
    c.None? || StatusWord(c.value).None? || Includes(ToLower(OrEmpty(a.status)), StatusWord(c.value).value)
  }

  /** Reference definition: an item ends up in the view exactly when all
      three filters keep it. */
  predicate Selected(a: Anime, q: string, genre: string, sort: string) {
    MatchesSearch(a, q) && MatchesGenre(a, genre) && MatchesStatus(a, sort)
  }

  function SearchFilter(items: seq<Anime>, q: string): seq<Anime> {
    if |SearchText(q)| >= 2 then Filter(items, (a: Anime) => Includes(ToLower(OrEmpty(a.title)), SearchText(q)))
    else items
  }

  function GenreFilter(items: seq<Anime>, genre: string): seq<Anime> {
    if genre != "" then
      var gid := StringToNumber(genre);
      Filter(items, (a: Anime) => gid.Some? && gid.value in GenreIds(a))
    else items
  }

  function StatusFilter(items: seq<Anime>, c: SortChoice): seq<Anime> {
    if StatusWord(c).Some? then Filter(items, (a: Anime) => Includes(ToLower(OrEmpty(a.status)), StatusWord(c).value))
    else items
  }

  /** filterSortFavorites on a copy of the cached items: the search filter,
      the genre filter, then the sort case (which for `airing` and
      `upcoming` filters by status first). An unknown sort key leaves the
      order as it is. */
  function FilterSortFavorites(items: seq<Anime>, q: string, genre: string, sort: string): (r: seq<Anime>)
    ensures multiset(r) <= multiset(items)
    ensures forall a :: a in r <==> a in items && Selected(a, q, genre, sort)
  {
    var kept := GenreFilter(SearchFilter(items, q), genre);
    FiltersSelect(items, q, genre, sort);
    match ParseSort(sort)
    case None => kept
    case Some(c) =>
      var filtered := StatusFilter(kept, c);
      var sorted := SortBy(filtered, SortKey(c), SortDirection(c));
      SortByPermutes(filtered, SortKey(c), SortDirection(c));
      assert forall a :: a in sorted <==> a in multiset(sorted);
      assert forall a :: a in filtered <==> a in multiset(filtered);
      sorted
  }

  /** The three filters in a row keep exactly the items `Selected` keeps,
      in their original order. */
  lemma FiltersSelect(items: seq<Anime>, q: string, genre: string, sort: string)
    ensures var kept := GenreFilter(SearchFilter(items, q), genre);
            (if ParseSort(sort).Some? then StatusFilter(kept, ParseSort(sort).value) else kept)
            == Filter(items, (a: Anime) => Selected(a, q, genre, sort))
  {
    var search := (a: Anime) => MatchesSearch(a, q);
    var sg := (a: Anime) => MatchesSearch(a, q) && MatchesGenre(a, genre);
    var all := (a: Anime) => Selected(a, q, genre, sort);
    var s1 := SearchFilter(items, q);
    assert s1 == Filter(items, search) by {
      if |SearchText(q)| < 2 {
        FilterAll(items, search);
      } else {
        FilterTwice(items, (a: Anime) => true, (a: Anime) => Includes(ToLower(OrEmpty(a.title)), SearchText(q)), search);
        FilterAll(items, (a: Anime) => true);
      }
    }
    var s2 := GenreFilter(s1, genre);
    assert s2 == Filter(items, sg) by {
      var gid := StringToNumber(genre);
      var g := (a: Anime) => MatchesGenre(a, genre);
      if genre == "" {
        FilterAll(s1, g);
        FilterTwice(items, search, g, sg);
      } else {
        FilterTwice(items, search, (a: Anime) => gid.Some? && gid.value in GenreIds(a), sg);
      }
    }
    var st := (a: Anime) => MatchesStatus(a, sort);
    if ParseSort(sort).Some? && StatusWord(ParseSort(sort).value).Some? {
      var w := StatusWord(ParseSort(sort).value).value;
      FilterTwice(items, sg, (a: Anime) => Includes(ToLower(OrEmpty(a.status)), w), all);
    } else {
      FilterAll(s2, st);
      FilterTwice(items, sg, st, all);
    }
  }

  /** With a known sort key the view is ordered by that case's key and
      direction, and it is a stable sort of the selected items: items with
      equal keys keep their order from the cache. */
  lemma FilterSortFavoritesOrdered(items: seq<Anime>, q: string, genre: string, sort: string, c: SortChoice, k: Key)
    requires ParseSort(sort) == Some(c)
    ensures var r := FilterSortFavorites(items, q, genre, sort);
            && Sorted(r, SortKey(c), SortDirection(c))
            && multiset(r) == multiset(Filter(items, (a: Anime) => Selected(a, q, genre, sort)))
            && WithKey(r, SortKey(c), k) == WithKey(Filter(items, (a: Anime) => Selected(a, q, genre, sort)), SortKey(c), k)
  {
    FiltersSelect(items, q, genre, sort);
    var filtered := StatusFilter(GenreFilter(SearchFilter(items, q), genre), c);
    SortBySorted(filtered, SortKey(c), SortDirection(c));
    SortByPermutes(filtered, SortKey(c), SortDirection(c));
    SortByStable(filtered, SortKey(c), SortDirection(c), k);
  }

  /** With an unknown sort key the view is the selected items in their
      cached order; with, in addition, no search and no genre, it is the
      whole cache. */
  lemma FilterSortFavoritesUnknownSort(items: seq<Anime>, q: string, genre: string, sort: string)
    requires ParseSort(sort).None?
    ensures FilterSortFavorites(items, q, genre, sort) == Filter(items, (a: Anime) => Selected(a, q, genre, sort))
    ensures |SearchText(q)| < 2 && genre == "" ==> FilterSortFavorites(items, q, genre, sort) == items
  {
    FiltersSelect(items, q, genre, sort);
  }

  // ---------------------------------------------------------------------
  // mapCacheToAnime
  // ---------------------------------------------------------------------

  /** mapCacheToAnime: the cache row's id, title, image and score; every
      other field absent. */
  function MapCacheToAnime(row: CacheRow): (a: Anime)
    ensures a.malId == row.malId && a.title == row.title && a.imageUrl == row.imageUrl && a.score == row.score
    ensures GenreIds(a) == [] && a.status.None?
    ensures a.members.None? && a.popularity.None?
  {
    Anime(row.malId, row.title, row.imageUrl, row.score, None, None, None, None, None, None, None)
  }

  /** A mapped cache row keeps the row's identity, title and score, sorts by
      popularity as 0, carries no status, and so never passes a genre filter
      or the `airing`/`upcoming` status filter. */
  lemma MappedCacheRow(row: CacheRow, genre: string, c: SortChoice)
    ensures MapCacheToAnime(row).malId == row.malId
    ensures MapCacheToAnime(row).title == row.title
    ensures ScoreKey(MapCacheToAnime(row)) == Num(if row.score.Some? then row.score.value else 0)
    ensures PopularityKey(MapCacheToAnime(row)) == Num(0)
    ensures genre != "" ==> !MatchesGenre(MapCacheToAnime(row), genre)
    ensures StatusWord(c).Some? ==> !MatchesStatus(MapCacheToAnime(row), SortLabel(c))
  {
    ParseSortLabel(c);
    var a := MapCacheToAnime(row);
    assert GenreIds(a) == [];
    if StatusWord(c).Some? {
      var w := StatusWord(c).value;
      assert ToLower(OrEmpty(a.status)) == [];
      assert |w| > 0;
      assert !Includes([], w);
    }
  }

  // ---------------------------------------------------------------------
  // Page window
  // ---------------------------------------------------------------------

  /** `(state.page - 1) * PAGE_SIZE`. */
  function PageStart(page: int): int {
    (page - 1) * PageSize
  }

  /** `items.slice(start, start + PAGE_SIZE)`. */
  function FavoritesPage(items: seq<Anime>, page: int): (r: seq<Anime>)
    ensures page >= 1 ==>
              var from := if PageStart(page) < |items| then PageStart(page) else |items|;
              var to := if PageStart(page) + PageSize < |items| then PageStart(page) + PageSize else |items|;
              r == items[from..to]
    ensures |r| <= PageSize
  {
    Slice(items, PageStart(page), PageStart(page) + PageSize)
  }

  /** `start + PAGE_SIZE >= items.length`: "load more" is disabled. */
  predicate LoadMoreDisabled(items: seq<Anime>, page: int) {
    PageStart(page) + PageSize >= |items|
  }

  /** Disabled exactly when the first `page` pages already hold every item. */
  lemma LoadMoreDisabledCovers(items: seq<Anime>, page: int)
    ensures LoadMoreDisabled(items, page) <==> |items| <= page * PageSize
  {
  }

  /** "Load more" is disabled exactly when the next page would be empty. */
  lemma LoadMoreDisabledIffNextEmpty(items: seq<Anime>, page: int)
    requires page >= 1
    ensures LoadMoreDisabled(items, page) <==> FavoritesPage(items, page + 1) == []
  {
    assert PageStart(page + 1) == PageStart(page) + PageSize;
    if !LoadMoreDisabled(items, page) {
      assert |FavoritesPage(items, page + 1)| > 0;
    }
  }

  /** Pages 1 to n, shown one after another (page 1 replaces the grid, the
      later ones are appended). */
  function FirstPages(items: seq<Anime>, n: nat): seq<Anime> {
    if n == 0 then [] else FirstPages(items, n - 1) + FavoritesPage(items, n)
  }

  /** Pages 1 to n together show the first min(25 n, |items|) items, each
      once and in order. */
  lemma {:induction false} FirstPagesPrefix(items: seq<Anime>, n: nat)
    ensures FirstPages(items, n) == items[..if n * PageSize < |items| then n * PageSize else |items|]
  {
    if n > 0 {
      FirstPagesPrefix(items, n - 1);
      assert PageStart(n) == (n - 1) * PageSize;
    }
  }

  // ---------------------------------------------------------------------
  // The favourite toggle shared by every star button
  // ---------------------------------------------------------------------

  /** The request a star click sends: POST to add, DELETE to remove, with
      `{ anime_id: id }` as the body. */
  datatype FavoriteRequest = AddFavorite(id: int) | RemoveFavorite(id: int)

  /** The request for `id`: DELETE when it is a favourite, POST otherwise. */
  function ToggleRequest(favorites: seq<int>, id: int): (req: FavoriteRequest)
    ensures req.id == id
    ensures req.RemoveFavorite? <==> id in favorites
  {
    if id in favorites then RemoveFavorite(id) else AddFavorite(id)
  }

  /** FAVORITES after the server answered the request for `id`: changed
      only when the answer is OK. */
  function ToggleFavorite(favorites: seq<int>, id: int, ok: bool): (r: seq<int>)
    ensures NoDups(favorites) ==> NoDups(r)
    ensures !ok ==> r == favorites
    ensures ok ==> (id in r <==> id !in favorites)
    ensures forall y :: y != id ==> (y in r <==> y in favorites)
  {
    if !ok then favorites
    else if id in favorites then SetDelete(favorites, id)
    else SetAdd(favorites, id)
  }

  /** Deleting an element just added restores the set, order included. */
  lemma DeleteAfterAdd(s: seq<int>, x: int)
    requires x !in s
    ensures SetDelete(s + [x], x) == s
  {
    var other := Other(x);
    FilterAppend(s, [x], other);
    FilterAll(s, other);
    assert Filter([x], other) == [] by {
      assert [x][1..] == [];
    }
  }

  /** Adding a favourite and then removing it (both answered OK) gives back
      exactly the favourites before, in the same iteration order. */
  lemma ToggleTwice(favorites: seq<int>, id: int)
    requires id !in favorites
    ensures ToggleFavorite(ToggleFavorite(favorites, id, true), id, true) == favorites
  {
    DeleteAfterAdd(favorites, id);
  }

  // ---------------------------------------------------------------------
  // loadFavoriteIds, the same on both pages
  // ---------------------------------------------------------------------

  /** `fetch('/api/favorites').then(r => r.ok ? r.json() : [])`: the id list,
      an answer that is not OK (read as []), or a rejected promise. */
  datatype IdsAnswer = IdsOk(ids: seq<int>) | IdsNotOk | IdsRejected

  /** FAVORITES after loadFavoriteIds: rebuilt from the ids on an OK answer,
      emptied on a non-OK one, left alone when the request fails. */
  function IdsAfter(favorites: seq<int>, answer: IdsAnswer): (r: seq<int>)
    ensures NoDups(favorites) ==> NoDups(r)
    ensures answer.IdsOk? ==> forall id :: id in r <==> id in answer.ids
    ensures answer.IdsOk? && NoDups(answer.ids) ==> r == answer.ids
    ensures answer.IdsNotOk? ==> r == []
    ensures answer.IdsRejected? ==> r == favorites
  {
    match answer
    case IdsOk(ids) =>
      if NoDups(ids) then SetOfDistinct(ids); SetOf(ids) else SetOf(ids)
    case IdsNotOk => []
    case IdsRejected => favorites
  }
}
