/**
 * The module state of the catalog page (public/script.js): the UI `state`,
 * the FAVORITES set and `favoritesCache`, with the loaders and event
 * handlers that update them.
 *
 * Every request the page makes is answered by a `Network` value given as a
 * parameter; jikanFetch is represented by how it settles (its retry loop is
 * the subject of module Jikan). Rendering is represented by the list of
 * anime a loader hands to renderList.
 */
module Catalog {
  import opened JsRuntime
  import opened Jikan
  import opened Browse
  import opened Favorites

  /** `state.mode`. */
  datatype Mode = BrowseMode | FavoritesMode

  /** `fetch('/api/anime-cache/' + id).then(r => r.ok ? r.json() : null)`. */
  datatype CacheAnswer = CacheHit(row: CacheRow) | CacheMiss | CacheRejected

  /** The answers the page's requests get, keyed by request; a request
      with no entry is one whose promise rejects. `DetailFor(id)` is how
      jikanFetch of `/v4/anime/{id}` settles, with `data?.data` as its body;
      `CacheFor(id, k)` answers the k-th cache request for `id` within one
      pass; `ListingFor(url)` is how jikanFetch of a browse URL settles, with
      `data?.data` as its body. */
  datatype Network = Network(
    favoriteIds: IdsAnswer,
    details: map<int, Outcome<Option<Anime>>>,
    cacheRows: map<(int, nat), CacheAnswer>,
    listings: map<seq<Param>, Outcome<Option<seq<Anime>>>>)
  {
    function DetailFor(id: int): Outcome<Option<Anime>> {
      if id in details then details[id] else FetchRejected
    }

    function CacheFor(id: int, k: nat): CacheAnswer {
      if (id, k) in cacheRows then cacheRows[(id, k)] else CacheRejected
    }

    function ListingFor(url: seq<Param>): Outcome<Option<seq<Anime>>> {
      if url in listings then listings[url] else FetchRejected
    }

    /** What loadBrowse hands to renderList for `url`: `data?.data || []`,
        or nothing when jikanFetch throws. */
    function Listing(url: seq<Param>): Option<seq<Anime>> {
      match ListingFor(url)
      case Resolved(data) => Some(if data.Some? then data.value else [])
      case _ => None
    }
  }

  /** `if (c) favoritesCache.items.push(mapCacheToAnime(c))`. */
  function CacheItem(answer: CacheAnswer): Option<Anime> {
    if answer.CacheHit? then Some(MapCacheToAnime(answer.row)) else None
  }

  /** What one pass of the ensureFavoritesLoaded loop pushes for `id`: the
      Jikan record when jikanFetch resolves with one; otherwise the mapped
      cache row. When jikanFetch resolves without data and the cache request
      then fails, the `catch` asks the cache a second time. */
  function ItemFor(net: Network, id: int): (r: Option<Anime>)
  {
    match net.DetailFor(id)
    case Resolved(data) =>
      if data.Some? then data
      else if net.CacheFor(id, 0).CacheRejected? then CacheItem(net.CacheFor(id, 1))
      else CacheItem(net.CacheFor(id, 0))
    case _ => CacheItem(net.CacheFor(id, 0))
  }

  function OptionList(o: Option<Anime>): seq<Anime> {
    if o.Some? then [o.value] else []
  }

  /** favoritesCache.items after the loop over `ids`: the item found for
      each id, in id order; ids for which nothing was found are skipped. */
  function Collect(net: Network, ids: seq<int>): (items: seq<Anime>)
    ensures |items| <= |ids|
    ensures forall a :: a in items ==> exists id :: id in ids && ItemFor(net, id) == Some(a)
  {
    if ids == [] then []
    else
      var init := ids[..|ids| - 1];
      var rest := Collect(net, init);
      assert forall a :: a in rest ==> exists id :: id in ids && ItemFor(net, id) == Some(a) by {
        forall a | a in rest ensures exists id :: id in ids && ItemFor(net, id) == Some(a) {
          var id :| id in init && ItemFor(net, id) == Some(a);
          assert id in ids;
        }
      }
      rest + OptionList(ItemFor(net, ids[|ids| - 1]))
  }

  /** When something is found for every id, the cache holds exactly one item
      per favourite, in the order of the ids. */
  lemma {:induction false} CollectAllFound(net: Network, ids: seq<int>)
    requires forall id :: id in ids ==> ItemFor(net, id).Some?
    ensures |Collect(net, ids)| == |ids|
    ensures forall k :: 0 <= k < |ids| ==> Collect(net, ids)[k] == ItemFor(net, ids[k]).value
  {
    if ids != [] {
      var init := ids[..|ids| - 1];
      var last := ids[|ids| - 1];
      assert ids == init + [last];
      CollectAllFound(net, init);
      var found := ItemFor(net, last).value;
      assert Collect(net, ids) == Collect(net, init) + [found] by {
        assert last in ids;
      }
      forall k | 0 <= k < |init| ensures Collect(net, ids)[k] == ItemFor(net, ids[k]).value {
        assert ids[k] == init[k];
      }
    }
  }

  /** An id for which Jikan answers with a record contributes exactly that
      record, whatever the cache holds. */
  lemma UpstreamFirst(net: Network, id: int, a: Anime)
    requires net.DetailFor(id) == Resolved(Some(a))
    ensures Collect(net, [id]) == [a]
  {
    assert [id][..0] == [];
  }

  /** The loop over a list of ids is the loop over its first part followed
      by the loop over the rest. */
  lemma {:induction false} CollectAppend(net: Network, a: seq<int>, b: seq<int>)
    ensures Collect(net, a + b) == Collect(net, a) + Collect(net, b)
  {
    if b == [] {
      assert a + b == a;
    } else {
      var init := b[..|b| - 1];
      var last := b[|b| - 1];
      assert (a + b)[..|a + b| - 1] == a + init;
      assert (a + b)[|a + b| - 1] == last;
      CollectAppend(net, a, init);
    }
  }

  /** Where the item for `id` comes from: the Jikan record whenever
      jikanFetch resolves with one; otherwise the mapped row of one of the
      two cache answers that was a hit; nothing when neither cache answer
      is a hit. */
  lemma ItemForSources(net: Network, id: int)
    ensures net.DetailFor(id).Resolved? && net.DetailFor(id).body.Some? ==> ItemFor(net, id) == net.DetailFor(id).body
    ensures ItemFor(net, id).Some? && !(net.DetailFor(id).Resolved? && net.DetailFor(id).body.Some?) ==>
              (net.CacheFor(id, 0).CacheHit? && ItemFor(net, id).value == MapCacheToAnime(net.CacheFor(id, 0).row))
              || (net.CacheFor(id, 1).CacheHit? && ItemFor(net, id).value == MapCacheToAnime(net.CacheFor(id, 1).row))
    ensures (!(net.DetailFor(id).Resolved? && net.DetailFor(id).body.Some?)
             && !net.CacheFor(id, 0).CacheHit? && !net.CacheFor(id, 1).CacheHit?) ==> ItemFor(net, id).None?
  {
  }

  /** One id contributes at most one item: the one found for it. */
  lemma CollectOne(net: Network, id: int)
    ensures Collect(net, [id]) == OptionList(ItemFor(net, id))
    ensures |Collect(net, [id])| <= 1
  {
    assert [id][..0] == [];
  }

  /** An id that neither Jikan nor the cache knows is skipped. */
  lemma MissingSkipped(net: Network, ids: seq<int>, id: int)
    requires ItemFor(net, id).None?
    ensures Collect(net, ids + [id]) == Collect(net, ids)
  {
    assert (ids + [id])[..|ids|] == ids;
  }

  class CatalogPage {
    var mode: Mode
    var q: string
    var genre: string
    var sort: string
    var page: int
    /** FAVORITES, in iteration order. */
    var favorites: seq<int>
    /** favoritesCache.loaded and favoritesCache.items. */
    var cacheLoaded: bool
    var cacheItems: seq<Anime>
    /** `$('#loadMore').disabled`. */
    var loadMoreDisabled: bool

    /** FAVORITES is a set and pages are counted from 1. */
    predicate Valid()
      reads this
    {
      NoDups(favorites) && page >= 1
    }

    /** The initial `state`, an empty FAVORITES and an empty cache. */
    constructor()
      ensures mode == BrowseMode && q == "" && genre == "" && sort == "popular" && page == 1
      ensures favorites == [] && !cacheLoaded && cacheItems == [] && !loadMoreDisabled
      ensures Valid()
    {
      mode := BrowseMode;
      q := "";
      genre := "";
      sort := "popular";
      page := 1;
      favorites := [];
      cacheLoaded := false;
      cacheItems := [];
      loadMoreDisabled := false;
    }

    function State(): BrowseState
      reads this
    {
      BrowseState(q, genre, sort, page)
    }

    /** loadFavoriteIds: `FAVORITES.clear()` and one `add` per id. */
    method LoadFavoriteIds(answer: IdsAnswer)
      requires Valid()
      modifies this`favorites
      ensures Valid()
      ensures favorites == IdsAfter(old(favorites), answer)
    {
      match answer
      case IdsRejected =>
      case IdsNotOk =>
        favorites := [];
      case IdsOk(ids) =>
        favorites := [];
        var i := 0;
        while i < |ids|
          invariant 0 <= i <= |ids|
          invariant favorites == SetOf(ids[..i])
        {
          assert ids[..i + 1][..i] == ids[..i];
          favorites := SetAdd(favorites, ids[i]);
          i := i + 1;
        }
        assert ids[..|ids|] == ids;
    }

    /** ensureFavoritesLoaded: once loaded, nothing; otherwise reload the
        ids, rebuild the cache from them in FAVORITES order and mark it
        loaded. */
    method EnsureFavoritesLoaded(net: Network)
      requires Valid()
      modifies this`favorites, this`cacheItems, this`cacheLoaded
      ensures Valid() && cacheLoaded
      ensures old(cacheLoaded) ==> favorites == old(favorites) && cacheItems == old(cacheItems)
      ensures !old(cacheLoaded) ==>
                favorites == IdsAfter(old(favorites), net.favoriteIds)
                && cacheItems == Collect(net, favorites)
    {
      if cacheLoaded {
        return;
      }
      LoadFavoriteIds(net.favoriteIds);
      var ids := favorites;
      cacheItems := [];
      for i := 0 to |ids|
        invariant favorites == ids
        invariant cacheItems == Collect(net, ids[..i])
      {
        assert ids[..i + 1][..i] == ids[..i];
        var item := ItemFor(net, ids[i]);
        if item.Some? {
          cacheItems := cacheItems + [item.value];
        }
      }
      assert ids[..|ids|] == ids;
      cacheLoaded := true;
    }

    /** Browse mode: the browse URL of the current state was requested, the
        favourites and the cache are untouched, the listing is rendered and
        "load more" is disabled when it is shorter than a page; when
        jikanFetch throws nothing is rendered and the button keeps
        `disabled0`. */
    predicate BrowseShown(net: Network, favorites0: seq<int>, items0: seq<Anime>, loaded0: bool,
                          disabled0: bool, url: Option<seq<Param>>, rendered: Option<seq<Anime>>)
      reads this
    {
      && favorites == favorites0 && cacheItems == items0 && cacheLoaded == loaded0
      && url == Some(BuildBrowseUrl(State()))
      && rendered == net.Listing(url.value)
      && loadMoreDisabled == (if rendered.Some? then |rendered.value| < PageSize else disabled0)
    }

    /** "My anime" mode: the cache was loaded first when it was not (the ids
        reloaded, then one item per id), and the current page of the
        filtered and sorted cache is rendered with "load more" following
        the next page. */
    predicate FavoritesShown(net: Network, favorites0: seq<int>, items0: seq<Anime>, loaded0: bool,
                             url: Option<seq<Param>>, rendered: Option<seq<Anime>>)
      reads this
    {
      && url.None? && cacheLoaded
      && (loaded0 ==> favorites == favorites0 && cacheItems == items0)
      && (!loaded0 ==> favorites == IdsAfter(favorites0, net.favoriteIds) && cacheItems == Collect(net, favorites))
      && rendered == Some(FavoritesPage(FilterSortFavorites(cacheItems, q, genre, sort), page))
      && loadMoreDisabled == LoadMoreDisabled(FilterSortFavorites(cacheItems, q, genre, sort), page)
    }

    /** loadBrowse: request buildBrowseUrl(state); render what comes back
        and disable "load more" when it is less than a full page. When
        jikanFetch throws, nothing is rendered and nothing changes. */
    method LoadBrowse(net: Network) returns (url: seq<Param>, rendered: Option<seq<Anime>>)
      modifies this`loadMoreDisabled
      ensures url == BuildBrowseUrl(State())
      ensures net.ListingFor(url).Resolved? ==>
                rendered == Some(if net.ListingFor(url).body.Some? then net.ListingFor(url).body.value else [])
                && loadMoreDisabled == (|rendered.value| < PageSize)
      ensures !net.ListingFor(url).Resolved? ==> rendered.None? && loadMoreDisabled == old(loadMoreDisabled)
      ensures BrowseShown(net, old(favorites), old(cacheItems), old(cacheLoaded), old(loadMoreDisabled), Some(url), rendered)
    {
      url := BuildBrowseUrl(State());
      match net.ListingFor(url)
      case Resolved(data) =>
        var list := if data.Some? then data.value else [];
        rendered := Some(list);
        loadMoreDisabled := |list| < PageSize;
      case _ =>
        rendered := None;
    }

    /** loadFavorites: load the cache if needed, filter and sort it, show
        the current page, and disable "load more" from the last page on. */
    method LoadFavorites(net: Network) returns (rendered: seq<Anime>)
      requires Valid()
      modifies this`favorites, this`cacheItems, this`cacheLoaded, this`loadMoreDisabled
      ensures Valid()
      ensures FavoritesShown(net, old(favorites), old(cacheItems), old(cacheLoaded), None, Some(rendered))
    {
      EnsureFavoritesLoaded(net);
      var items := FilterSortFavorites(cacheItems, q, genre, sort);
      rendered := FavoritesPage(items, page);
      loadMoreDisabled := LoadMoreDisabled(items, page);
    }

    /** The state a reload of the current view leaves, given the FAVORITES,
        cache and button as they were before it: `BrowseShown` in browse
        mode, `FavoritesShown` in "my anime" mode. */
    predicate ViewShown(net: Network, favorites0: seq<int>, items0: seq<Anime>, loaded0: bool,
                        disabled0: bool, url: Option<seq<Param>>, rendered: Option<seq<Anime>>)
      reads this
    {
      if mode == BrowseMode then BrowseShown(net, favorites0, items0, loaded0, disabled0, url, rendered)
      else FavoritesShown(net, favorites0, items0, loaded0, url, rendered)
    }

    /** The dispatch refresh and the "load more" click share: loadFavorites
        in "my anime" mode, loadBrowse otherwise. */
    method LoadView(net: Network) returns (url: Option<seq<Param>>, rendered: Option<seq<Anime>>)
      requires Valid()
      modifies this`favorites, this`cacheItems, this`cacheLoaded, this`loadMoreDisabled
      ensures Valid()
      ensures ViewShown(net, old(favorites), old(cacheItems), old(cacheLoaded), old(loadMoreDisabled), url, rendered)
    {
      if mode == BrowseMode {
        var u, list := LoadBrowse(net);
        url, rendered := Some(u), list;
        assert BrowseShown(net, old(favorites), old(cacheItems), old(cacheLoaded), old(loadMoreDisabled), url, rendered);
      } else {
        var items := LoadFavorites(net);
        url, rendered := None, Some(items);
        assert FavoritesShown(net, old(favorites), old(cacheItems), old(cacheLoaded), url, rendered);
      }
    }

    /** refresh: back to page 1 when asked, disable "load more", then load
        the current mode's first view. In browse mode a failed request
        leaves "load more" disabled. */
    method Refresh(net: Network, resetPage: bool) returns (url: Option<seq<Param>>, rendered: Option<seq<Anime>>)
      requires Valid()
      modifies this`page, this`favorites, this`cacheItems, this`cacheLoaded, this`loadMoreDisabled
      ensures Valid()
      ensures page == if resetPage then 1 else old(page)
      ensures ViewShown(net, old(favorites), old(cacheItems), old(cacheLoaded), true, url, rendered)
    {
      if resetPage {
        page := 1;
      }
      loadMoreDisabled := true;
      url, rendered := LoadView(net);
    }

    /** The "load more" click: the next page, appended. When jikanFetch
        throws, "load more" keeps its state. */
    method LoadMore(net: Network) returns (url: Option<seq<Param>>, rendered: Option<seq<Anime>>)
      requires Valid()
      modifies this`page, this`favorites, this`cacheItems, this`cacheLoaded, this`loadMoreDisabled
      ensures Valid()
      ensures page == old(page) + 1
      ensures ViewShown(net, old(favorites), old(cacheItems), old(cacheLoaded), old(loadMoreDisabled), url, rendered)
    {
      page := page + 1;
      url, rendered := LoadView(net);
    }

    /** The search input (after its debounce): the raw text becomes the
        query and the view reloads from page 1. */
    method SearchInput(net: Network, text: string) returns (url: Option<seq<Param>>, rendered: Option<seq<Anime>>)
      requires Valid()
      modifies this`q, this`page, this`favorites, this`cacheItems, this`cacheLoaded, this`loadMoreDisabled
      ensures Valid() && q == text && page == 1
      ensures ViewShown(net, old(favorites), old(cacheItems), old(cacheLoaded), true, url, rendered)
    {
      q := text;
      url, rendered := Refresh(net, true);
    }

    /** The search button: genre, sort (`popular` when the select gives
        nothing) and the trimmed search text are read from the controls and
        the view reloads from page 1. */
    method SearchClick(net: Network, genreValue: string, sortValue: string, text: string)
      returns (url: Option<seq<Param>>, rendered: Option<seq<Anime>>)
      requires Valid()
      modifies this`q, this`genre, this`sort, this`page, this`favorites, this`cacheItems, this`cacheLoaded, this`loadMoreDisabled
      ensures Valid() && page == 1
      ensures genre == genreValue && sort == (if sortValue == "" then "popular" else sortValue) && q == Trim(text)
      ensures ViewShown(net, old(favorites), old(cacheItems), old(cacheLoaded), true, url, rendered)
    {
      genre := genreValue;
      sort := if sortValue == "" then "popular" else sortValue;
      q := Trim(text);
      url, rendered := Refresh(net, true);
    }

    /** The "my anime" switch: the mode follows the checkbox and the view
        reloads from page 1. */
    method ShowMine(net: Network, checked: bool) returns (url: Option<seq<Param>>, rendered: Option<seq<Anime>>)
      requires Valid()
      modifies this`mode, this`page, this`favorites, this`cacheItems, this`cacheLoaded, this`loadMoreDisabled
      ensures Valid() && page == 1
      ensures mode == if checked then FavoritesMode else BrowseMode
      ensures ViewShown(net, old(favorites), old(cacheItems), old(cacheLoaded), true, url, rendered)
    {
      mode := if checked then FavoritesMode else BrowseMode;
      url, rendered := Refresh(net, true);
    }

    /** The star click on a card. `cardId` is `Number(card.dataset.id)`
        (None for NaN), `loggedIn` whether `/api/user` answered with a user,
        `ok` whether the favourites request was answered OK. Without an id
        or a user nothing is sent and nothing changes; otherwise the request
        follows membership, FAVORITES changes only on OK, and a removal in
        "my anime" mode also drops the cached items with that id. */
    method StarClick(cardId: Option<int>, loggedIn: bool, ok: bool) returns (sent: Option<FavoriteRequest>)
      requires Valid()
      modifies this`favorites, this`cacheItems
      ensures Valid()
      ensures cardId.None? || cardId.value == 0 || !loggedIn ==>
                sent.None? && favorites == old(favorites) && cacheItems == old(cacheItems)
      ensures cardId.Some? && cardId.value != 0 && loggedIn ==>
                var id := cardId.value;
                && sent == Some(ToggleRequest(old(favorites), id))
                && favorites == ToggleFavorite(old(favorites), id, ok)
                && cacheItems == (if ok && id in old(favorites) && mode == FavoritesMode
                                  then Filter(old(cacheItems), (a: Anime) => a.malId != id)
                                  else old(cacheItems))
    {
      if cardId.None? || cardId.value == 0 {
        return None;
      }
      var id := cardId.value;
      if !loggedIn {
        return None;
      }
      if id in favorites {
        sent := Some(RemoveFavorite(id));
        if ok {
          favorites := SetDelete(favorites, id);
          if mode == FavoritesMode {
            cacheItems := Filter(cacheItems, (a: Anime) => a.malId != id);
          }
        }
      } else {
        sent := Some(AddFavorite(id));
        if ok {
          favorites := SetAdd(favorites, id);
        }
      }
    }
  }

  /** After an OK removal in "my anime" mode no cached item carries the id,
      and the other items stay, in their order. */
  lemma RemovalPurgesCache(items: seq<Anime>, id: int)
    ensures forall a :: a in Filter(items, (a: Anime) => a.malId != id) ==> a.malId != id
    ensures Filter(items, (a: Anime) => a.malId != id) == items <==> forall a :: a in items ==> a.malId != id
  {
    var keep := (a: Anime) => a.malId != id;
    if forall a :: a in items ==> a.malId != id {
      FilterAll(items, keep);
    }
    if Filter(items, keep) == items {
      assert forall a :: a in items ==> keep(a);
    }
  }
}
