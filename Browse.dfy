/**
 * buildBrowseUrl (public/script.js): the catalog page's UI state turned into
 * the query parameters of a Jikan `/v4/anime` search.
 *
 * The URL is modelled by its list of query parameters in the order they are
 * set; percent-encoding and serialisation by `URL.toString()` are not part
 * of the model.
 */
module Browse {
  import opened JsRuntime

  /** PAGE_SIZE: the number of cards per page, in both modes. */
  const PageSize: nat := 25

  /** The labels of the sort `switch` shared by buildBrowseUrl and
      filterSortFavorites. */
  datatype SortChoice = Popular | LeastPopular | AZ | ZA | TopRated | WorstRated | Airing | Upcoming

  function SortLabel(c: SortChoice): string {
    match c
    case Popular => "popular"
    case LeastPopular => "least_popular"
    case AZ => "az"
    case ZA => "za"
    case TopRated => "top_rated"
    case WorstRated => "worst_rated"
    case Airing => "airing"
    case Upcoming => "upcoming"
  }

  /** Which `case` a sort string selects; any other string selects none. */
  function ParseSort(sort: string): (c: Option<SortChoice>)
    ensures c.Some? ==> SortLabel(c.value) == sort
    ensures c.None? ==> forall d :: SortLabel(d) != sort
  {
    if sort == "popular" then Some(Popular)
    else if sort == "least_popular" then Some(LeastPopular)
    else if sort == "az" then Some(AZ)
    else if sort == "za" then Some(ZA)
    else if sort == "top_rated" then Some(TopRated)
    else if sort == "worst_rated" then Some(WorstRated)
    else if sort == "airing" then Some(Airing)
    else if sort == "upcoming" then Some(Upcoming)
    else None
  }

  lemma ParseSortLabel(c: SortChoice)
    ensures ParseSort(SortLabel(c)) == Some(c)
  {
  }

  /** The part of the page's `state` that a browse request depends on. */
  datatype BrowseState = BrowseState(q: string, genre: string, sort: string, page: int)

  /** The parameter names buildBrowseUrl uses. */
  datatype Name = Page | Limit | Q | Genres | OrderBy | SortDir | Status

  /** The name as it appears in the URL. */
  function NameText(n: Name): string {
    match n
    case Page => "page"
    case Limit => "limit"
    case Q => "q"
    case Genres => "genres"
    case OrderBy => "order_by"
    case SortDir => "sort"
    case Status => "status"
  }

  datatype Param = Param(name: Name, value: string)

  function Names(query: seq<Param>): (names: seq<Name>)
    ensures |names| == |query| && forall k :: 0 <= k < |query| ==> names[k] == query[k].name
  {
    if query == [] then [] else [query[0].name] + Names(query[1..])
  }

  /** `searchParams.get(name)`: the value of the first parameter so named. */
  function Lookup(query: seq<Param>, name: Name): Option<string> {
    if query == [] then None
    else if query[0].name == name then Some(query[0].value)
    else Lookup(query[1..], name)
  }

  /** The ordering parameters each sort case sets, in the order it sets them. */
  function OrderingParams(c: Option<SortChoice>): seq<Param> {
    match c
    case None => []
    case Some(Popular) => [Param(OrderBy, "members"), Param(SortDir, "desc")]
    case Some(LeastPopular) => [Param(OrderBy, "members"), Param(SortDir, "asc")]
    case Some(AZ) => [Param(OrderBy, "title"), Param(SortDir, "asc")]
    case Some(ZA) => [Param(OrderBy, "title"), Param(SortDir, "desc")]
    case Some(TopRated) => [Param(OrderBy, "score"), Param(SortDir, "desc")]
    case Some(WorstRated) => [Param(OrderBy, "score"), Param(SortDir, "asc")]
    case Some(Airing) => [Param(Status, "airing"), Param(OrderBy, "members"), Param(SortDir, "desc")]
    case Some(Upcoming) => [Param(Status, "upcoming"), Param(OrderBy, "members"), Param(SortDir, "desc")]
  }

  /** `q` once trimmed: set when it has at least two characters. */
  function SearchParams(q: string): (r: seq<Param>)
    ensures |r| <= 1 && forall p :: p in r ==> p.name == Q
  {
    if |q| >= 2 then [Param(Q, q)] else []
  }

  function GenreParams(genre: string): (r: seq<Param>)
    ensures |r| <= 1 && forall p :: p in r ==> p.name == Genres
  {
    if genre != "" then [Param(Genres, genre)] else []
  }

  /** `page` (already in decimal) and `limit`. */
  function BaseParams(page: string): seq<Param> {
    [Param(Page, page), Param(Limit, IntToString(PageSize))]
  }

  /** The parameters set from the page's decimal text, the trimmed search
      text, the genre and the parsed sort key, in the order they are set. */
  function Query(page: string, q: string, genre: string, c: Option<SortChoice>): seq<Param> {
    BaseParams(page) + (SearchParams(q) + (GenreParams(genre) + OrderingParams(c)))
  }

  /** buildBrowseUrl: `page` and `limit`, then the trimmed search text, the
      genre and the ordering, each only when the state asks for it. */
  function BuildBrowseUrl(st: BrowseState): (url: seq<Param>)
    ensures |url| >= 2 && url[0] == Param(Page, IntToString(st.page)) && url[1] == Param(Limit, IntToString(PageSize))
  {
    Query(IntToString(st.page), Trim(st.q), st.genre, ParseSort(st.sort))
  }

  lemma {:induction false} LookupAppend(a: seq<Param>, b: seq<Param>, name: Name)
    ensures Lookup(a + b, name) == if Lookup(a, name).Some? then Lookup(a, name) else Lookup(b, name)
  {
    if a == [] {
      assert a + b == b;
    } else {
      assert (a + b)[1..] == a[1..] + b;
      LookupAppend(a[1..], b, name);
    }
  }

  /** The position of each name in the order buildBrowseUrl sets them. */
  function Rank(n: Name): nat {
    match n
    case Page => 0
    case Limit => 1
    case Q => 2
    case Genres => 3
    case Status => 4
    case OrderBy => 5
    case SortDir => 6
  }

  /** Parameter names appear in strictly increasing rank, hence at most once. */
  predicate Ranked(query: seq<Param>) {
    forall i, j :: 0 <= i < j < |query| ==> Rank(query[i].name) < Rank(query[j].name)
  }

  predicate RanksWithin(query: seq<Param>, lo: nat, hi: nat) {
    forall p :: p in query ==> lo <= Rank(p.name) < hi
  }

  lemma RankedAppend(a: seq<Param>, b: seq<Param>, lo: nat, k: nat, hi: nat)
    requires Ranked(a) && Ranked(b)
    requires RanksWithin(a, lo, k) && RanksWithin(b, k, hi) && lo <= k <= hi
    ensures Ranked(a + b) && RanksWithin(a + b, lo, hi)
  {
    var s := a + b;
    forall p | p in s ensures lo <= Rank(p.name) < hi {
      assert p in a || p in b;
    }
    forall i, j | 0 <= i < j < |s| ensures Rank(s[i].name) < Rank(s[j].name) {
      if j < |a| {
        assert s[i] == a[i] && s[j] == a[j];
      } else if i >= |a| {
        assert s[i] == b[i - |a|] && s[j] == b[j - |a|];
      } else {
        assert s[i] in a && s[j] in b;
      }
    }
  }

  lemma RankedNoDups(query: seq<Param>)
    requires Ranked(query)
    ensures NoDups(Names(query))
  {
  }

  lemma OrderingRanked(c: Option<SortChoice>)
    ensures Ranked(OrderingParams(c))
    ensures RanksWithin(OrderingParams(c), 4, 7)
  {
    var ps := OrderingParams(c);
    if c.Some? && (c.value == Airing || c.value == Upcoming) {
      assert |ps| == 3 && ps[0].name == Status && ps[1].name == OrderBy && ps[2].name == SortDir;
    } else if c.Some? {
      assert |ps| == 2 && ps[0].name == OrderBy && ps[1].name == SortDir;
    }
  }

  lemma {:induction false} LookupAbsent(query: seq<Param>, name: Name)
    requires name !in Names(query)
    ensures Lookup(query, name) == None
  {
    if query != [] {
      assert Names(query) == [query[0].name] + Names(query[1..]);
      LookupAbsent(query[1..], name);
    }
  }

  lemma QueryDistinct(page: string, q: string, genre: string, c: Option<SortChoice>)
    ensures NoDups(Names(Query(page, q, genre, c)))
  {
    var base := BaseParams(page);
    var search := SearchParams(q);
    var genres := GenreParams(genre);
    var ordering := OrderingParams(c);
    assert Ranked(base) && RanksWithin(base, 0, 2);
    assert Ranked(search) && RanksWithin(search, 2, 3);
    assert Ranked(genres) && RanksWithin(genres, 3, 4);
    OrderingRanked(c);
    RankedAppend(genres, ordering, 3, 4, 7);
    RankedAppend(search, genres + ordering, 2, 3, 7);
    RankedAppend(base, search + (genres + ordering), 0, 2, 7);
    RankedNoDups(Query(page, q, genre, c));
  }

  /** Every parameter is set at most once, so `searchParams.set` never
      overwrites and the parameters appear in the order they were set. */
  lemma BrowseParamsDistinct(st: BrowseState)
    ensures NoDups(Names(BuildBrowseUrl(st)))
  {
    QueryDistinct(IntToString(st.page), Trim(st.q), st.genre, ParseSort(st.sort));
  }

  /** Looks a name up in the four groups of parameters one after another. */
  lemma QueryLookup(page: string, q: string, genre: string, c: Option<SortChoice>, name: Name)
    ensures Lookup(Query(page, q, genre, c), name)
            == if name == Page then Some(page)
               else if name == Limit then Some(IntToString(PageSize))
               else if Lookup(SearchParams(q), name).Some? then Lookup(SearchParams(q), name)
               else if Lookup(GenreParams(genre), name).Some? then Lookup(GenreParams(genre), name)
               else Lookup(OrderingParams(c), name)
  {
    var search := SearchParams(q);
    var genres := GenreParams(genre);
    var ordering := OrderingParams(c);
    LookupAppend(BaseParams(page), search + (genres + ordering), name);
    LookupAppend(search, genres + ordering, name);
    LookupAppend(genres, ordering, name);
  }

  /** `page` is the state's page and `limit` is PAGE_SIZE, whatever the
      rest of the state. */
  lemma BrowsePageAndLimit(st: BrowseState)
    ensures Lookup(BuildBrowseUrl(st), Page) == Some(IntToString(st.page))
    ensures Lookup(BuildBrowseUrl(st), Limit) == Some(IntToString(PageSize))
    ensures StringToNumber(Lookup(BuildBrowseUrl(st), Page).value) == Some(st.page)
  {
    var page, q, c := IntToString(st.page), Trim(st.q), ParseSort(st.sort);
    QueryLookup(page, q, st.genre, c, Page);
    QueryLookup(page, q, st.genre, c, Limit);
    NumberOfString(st.page);
  }

  /** The search text and the genre never come from the ordering group. */
  lemma QuerySearchAndGenre(page: string, q: string, genre: string, c: Option<SortChoice>)
    ensures Lookup(Query(page, q, genre, c), Q) == if |q| >= 2 then Some(q) else None
    ensures Lookup(Query(page, q, genre, c), Genres) == if genre != "" then Some(genre) else None
  {
    QueryLookup(page, q, genre, c, Q);
    QueryLookup(page, q, genre, c, Genres);
    OrderingLacks(c, Q);
    OrderingLacks(c, Genres);
  }

  /** The ordering group sets none of the first four names. */
  lemma OrderingLacks(c: Option<SortChoice>, name: Name)
    requires Rank(name) < 4
    ensures Lookup(OrderingParams(c), name) == None
  {
    OrderingRanked(c);
    LookupAbsent(OrderingParams(c), name);
  }

  /** `q` is present exactly when the trimmed search text has at least two
      characters, and then it is that trimmed text; `genres` is present
      exactly when a genre is chosen. */
  lemma BrowseSearchAndGenre(st: BrowseState)
    ensures Lookup(BuildBrowseUrl(st), Q) == if |Trim(st.q)| >= 2 then Some(Trim(st.q)) else None
    ensures Lookup(BuildBrowseUrl(st), Genres) == if st.genre != "" then Some(st.genre) else None
  {
    QuerySearchAndGenre(IntToString(st.page), Trim(st.q), st.genre, ParseSort(st.sort));
  }

  /** `status`, `order_by` and `sort` come from the sort key alone. */
  lemma QueryOrdering(page: string, q: string, genre: string, c: Option<SortChoice>, name: Name)
    requires Rank(name) >= 4
    ensures Lookup(Query(page, q, genre, c), name) == Lookup(OrderingParams(c), name)
  {
    QueryLookup(page, q, genre, c, name);
    LookupAbsent(SearchParams(q), name);
    LookupAbsent(GenreParams(genre), name);
  }

  lemma OrderingLookups(c: SortChoice, orderBy: string, dir: string)
    requires OrderingParams(Some(c)) == [Param(OrderBy, orderBy), Param(SortDir, dir)]
    ensures Lookup(OrderingParams(Some(c)), Status) == None
    ensures Lookup(OrderingParams(Some(c)), OrderBy) == Some(orderBy)
    ensures Lookup(OrderingParams(Some(c)), SortDir) == Some(dir)
  {
    var ps := OrderingParams(Some(c));
    assert ps[1..] == [Param(SortDir, dir)];
    assert ps[1..][1..] == [];
    assert Lookup(ps[1..], Status) == Lookup(ps[1..][1..], Status) == None;
  }

  lemma StatusOrderingLookups(c: SortChoice)
    requires c == Airing || c == Upcoming
    ensures Lookup(OrderingParams(Some(c)), Status) == Some(SortLabel(c))
    ensures Lookup(OrderingParams(Some(c)), OrderBy) == Some("members")
    ensures Lookup(OrderingParams(Some(c)), SortDir) == Some("desc")
  {
    var ps := OrderingParams(Some(c));
    assert ps[1..] == [Param(OrderBy, "members"), Param(SortDir, "desc")];
    assert ps[1..][1..] == [Param(SortDir, "desc")];
    assert Lookup(ps[1..][1..], SortDir) == Some("desc");
    assert Lookup(ps[1..], SortDir) == Some("desc");
  }

  /** The ordering parameters of each parsed sort key. */
  lemma OrderingOf(c: Option<SortChoice>)
    ensures var orderBy := Lookup(OrderingParams(c), OrderBy);
            var dir := Lookup(OrderingParams(c), SortDir);
            var status := Lookup(OrderingParams(c), Status);
            (c == Some(Popular) ==> orderBy == Some("members") && dir == Some("desc"))
            && (c == Some(LeastPopular) ==> orderBy == Some("members") && dir == Some("asc"))
            && (c == Some(AZ) ==> orderBy == Some("title") && dir == Some("asc"))
            && (c == Some(ZA) ==> orderBy == Some("title") && dir == Some("desc"))
            && (c == Some(TopRated) ==> orderBy == Some("score") && dir == Some("desc"))
            && (c == Some(WorstRated) ==> orderBy == Some("score") && dir == Some("asc"))
            && (c == Some(Airing) || c == Some(Upcoming) ==> orderBy == Some("members") && dir == Some("desc"))
            && (c.None? ==> orderBy == None && dir == None)
            && status == if c == Some(Airing) || c == Some(Upcoming) then Some(SortLabel(c.value)) else None
  {
    match c
    case None =>
    case Some(Popular) => OrderingLookups(Popular, "members", "desc");
    case Some(LeastPopular) => OrderingLookups(LeastPopular, "members", "asc");
    case Some(AZ) => OrderingLookups(AZ, "title", "asc");
    case Some(ZA) => OrderingLookups(ZA, "title", "desc");
    case Some(TopRated) => OrderingLookups(TopRated, "score", "desc");
    case Some(WorstRated) => OrderingLookups(WorstRated, "score", "asc");
    case Some(Airing) => StatusOrderingLookups(Airing);
    case Some(Upcoming) => StatusOrderingLookups(Upcoming);
  }

  /** Each sort key fixes `order_by` and `sort`; an unknown key sets
      neither. ParseSort selects `Popular` exactly for "popular", and so on
      (ParseSort, ParseSortLabel). */
  lemma BrowseOrderAndDirection(st: BrowseState)
    ensures var c := ParseSort(st.sort);
            var orderBy := Lookup(BuildBrowseUrl(st), OrderBy);
            var dir := Lookup(BuildBrowseUrl(st), SortDir);
            (c == Some(Popular) ==> orderBy == Some("members") && dir == Some("desc"))
            && (c == Some(LeastPopular) ==> orderBy == Some("members") && dir == Some("asc"))
            && (c == Some(AZ) ==> orderBy == Some("title") && dir == Some("asc"))
            && (c == Some(ZA) ==> orderBy == Some("title") && dir == Some("desc"))
            && (c == Some(TopRated) ==> orderBy == Some("score") && dir == Some("desc"))
            && (c == Some(WorstRated) ==> orderBy == Some("score") && dir == Some("asc"))
            && (c == Some(Airing) || c == Some(Upcoming) ==> orderBy == Some("members") && dir == Some("desc"))
            && (c.None? ==> orderBy == None && dir == None)
  {
    var page, q, c := IntToString(st.page), Trim(st.q), ParseSort(st.sort);
    QueryOrdering(page, q, st.genre, c, OrderBy);
    QueryOrdering(page, q, st.genre, c, SortDir);
    OrderingOf(c);
  }

  /** `status` is set exactly for the `airing` and `upcoming` keys, to the
      key itself. */
  lemma BrowseStatus(st: BrowseState)
    ensures Lookup(BuildBrowseUrl(st), Status)
            == if ParseSort(st.sort) == Some(Airing) || ParseSort(st.sort) == Some(Upcoming) then Some(st.sort) else None
  {
    var page, q, c := IntToString(st.page), Trim(st.q), ParseSort(st.sort);
    QueryOrdering(page, q, st.genre, c, Status);
    OrderingOf(c);
  }
}
