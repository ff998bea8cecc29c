/**
 * The module state of the detail page (public/anime.js): the signed-in
 * flag, FAVORITES, the characters list revealed CHUNK at a time, the
 * recommendations fetched page by page and revealed CHUNK at a time, and
 * the page's two favourite toggles.
 *
 * Requests are answered by parameters: `Outcome` values for jikanFetch
 * (its retry loop is the subject of module Jikan) and plain answers for
 * the server's endpoints. Rendering is represented by the list a call
 * hands to the grid.
 */
module Detail {
  import opened JsRuntime
  import opened Jikan
  import opened Favorites
  import opened DetailLists

  datatype Character = Character(name: Option<string>, role: Option<string>, imageUrl: Option<string>)

  /** `/api/user` as setupAuth reads it: a user, null, or a failed request. */
  datatype UserAnswer = SignedIn | SignedOut | UserFailed

  class DetailPage {
    /** `id`: the anime this page shows. */
    const id: int
    /** Whether `currentUser` is set. */
    var signedIn: bool
    var favorites: seq<int>
    var allCharacters: seq<Character>
    var charRendered: nat
    /** `$('#charsMore').disabled`. */
    var charsMoreDisabled: bool
    var recItems: seq<Entry>
    var recRendered: nat
    var recPage: int
    var recHasNext: bool
    /** `$('#recMore').disabled`. */
    var recMoreDisabled: bool

    /** FAVORITES is a set, the render cursors stay inside their lists. */
    predicate Valid()
      reads this
    {
      NoDups(favorites) && charRendered <= |allCharacters| && recRendered <= |recItems|
    }

    /** The module-level initial values. */
    constructor(pageId: int)
      ensures id == pageId && !signedIn && favorites == []
      ensures allCharacters == [] && charRendered == 0 && !charsMoreDisabled
      ensures recItems == [] && recRendered == 0 && recPage == 1 && recHasNext && !recMoreDisabled
      ensures Valid()
    {
      id := pageId;
      signedIn := false;
      favorites := [];
      allCharacters := [];
      charRendered := 0;
      charsMoreDisabled := false;
      recItems := [];
      recRendered := 0;
      recPage := 1;
      recHasNext := true;
      recMoreDisabled := false;
    }

    /** setupAuth: `currentUser` follows the answer; a failed request leaves
        it as it was. */
    method SetupAuth(answer: UserAnswer)
      modifies this`signedIn
      ensures signedIn == (if answer.UserFailed? then old(signedIn) else answer.SignedIn?)
    {
      if !answer.UserFailed? {
        signedIn := answer.SignedIn?;
      }
    }

    /** loadFavoriteIds, as on the catalog page. */
    method LoadFavoriteIds(answer: IdsAnswer)
      requires Valid()
      modifies this`favorites
      ensures Valid()
      ensures favorites == IdsAfter(old(favorites), answer)
    {
      match answer
      case IdsRejected =>
      case IdsNotOk =>
        favorites := [];
      case IdsOk(ids) =>
        favorites := [];
        for i := 0 to |ids|
          invariant favorites == SetOf(ids[..i])
        {
          assert ids[..i + 1][..i] == ids[..i];
          favorites := SetAdd(favorites, ids[i]);
        }
        assert ids[..|ids|] == ids;
    }

    /** The favourite button of the page's own anime: nothing without a
        user; otherwise the request follows membership and FAVORITES flips
        only on an OK answer. */
    method FavClick(ok: bool) returns (sent: Option<FavoriteRequest>)
      requires Valid()
      modifies this`favorites
      ensures Valid()
      ensures !signedIn ==> sent.None? && favorites == old(favorites)
      ensures signedIn ==> sent == Some(ToggleRequest(old(favorites), id))
                           && favorites == ToggleFavorite(old(favorites), id, ok)
    {
      if !signedIn {
        return None;
      }
      if id in favorites {
        sent := Some(RemoveFavorite(id));
        if ok {
          favorites := SetDelete(favorites, id);
        }
      } else {
        sent := Some(AddFavorite(id));
        if ok {
          favorites := SetAdd(favorites, id);
        }
      }
    }

    /** A star on a recommendation card: nothing without an id (NaN or 0)
        or without a user; otherwise as FavClick for that card's id. */
    method RecStarClick(cardId: Option<int>, ok: bool) returns (sent: Option<FavoriteRequest>)
      requires Valid()
      modifies this`favorites
      ensures Valid()
      ensures cardId.None? || cardId.value == 0 || !signedIn ==> sent.None? && favorites == old(favorites)
      ensures cardId.Some? && cardId.value != 0 && signedIn ==>
                sent == Some(ToggleRequest(old(favorites), cardId.value))
                && favorites == ToggleFavorite(old(favorites), cardId.value, ok)
    {
      if cardId.None? || cardId.value == 0 || !signedIn {
        return None;
      }
      var aid := cardId.value;
      if aid in favorites {
        sent := Some(RemoveFavorite(aid));
        if ok {
          favorites := SetDelete(favorites, aid);
        }
      } else {
        sent := Some(AddFavorite(aid));
        if ok {
          favorites := SetAdd(favorites, aid);
        }
      }
    }

    /** renderMoreCharacters: the next CHUNK characters (fewer at the end),
        then the cursor moves past them; the button is disabled once the
        cursor reaches the end. */
    method RenderMoreCharacters() returns (rendered: seq<Character>)
      requires Valid()
      modifies this`charRendered, this`charsMoreDisabled
      ensures Valid()
      ensures charRendered == Advance(old(charRendered), |allCharacters|)
      ensures rendered == allCharacters[old(charRendered)..charRendered]
      ensures charsMoreDisabled == (old(charsMoreDisabled) || charRendered >= |allCharacters|)
    {
      var next := Slice(allCharacters, charRendered, charRendered + Chunk);
      charRendered := charRendered + |next|;
      rendered := next;
      if charRendered >= |allCharacters| {
        charsMoreDisabled := true;
      }
    }

    /** loadCharacters: the list Jikan returns (`[]` without data) replaces
        the characters and the first chunk is rendered. When jikanFetch
        throws nothing changes. It runs once, before any chunk was shown. */
    method LoadCharacters(answer: Outcome<Option<seq<Character>>>) returns (rendered: Option<seq<Character>>)
      requires Valid() && charRendered == 0
      modifies this`allCharacters, this`charRendered, this`charsMoreDisabled
      ensures Valid()
      ensures answer.Resolved? ==>
                allCharacters == (if answer.body.Some? then answer.body.value else [])
                && charRendered == Advance(0, |allCharacters|)
                && rendered == Some(allCharacters[..charRendered])
                && charsMoreDisabled == (old(charsMoreDisabled) || charRendered >= |allCharacters|)
      ensures !answer.Resolved? ==>
                rendered.None? && allCharacters == old(allCharacters) && charRendered == 0
                && charsMoreDisabled == old(charsMoreDisabled)
    {
      if !answer.Resolved? {
        return None;
      }
      allCharacters := if answer.body.Some? then answer.body.value else [];
      var chunk := RenderMoreCharacters();
      rendered := Some(chunk);
    }

    /** fetchRecPage: a no-op once there is no next page. Otherwise page
        `recPage` is requested; when jikanFetch throws nothing changes and the
        call fails; else `recHasNext` follows the answer, `recPage` moves on
        by one and the page's normalised entries are appended. */
    method FetchRecPage(pages: seq<Outcome<RecPage>>) returns (failed: bool)
      requires Valid()
      modifies this`recItems, this`recPage, this`recHasNext
      ensures Valid()
      ensures !old(recHasNext) ==> !failed && recItems == old(recItems) && recPage == old(recPage) && !recHasNext
      ensures old(recHasNext) && !Answer(pages, old(recPage)).Resolved? ==>
                failed && recItems == old(recItems) && recPage == old(recPage) && recHasNext
      ensures old(recHasNext) && Answer(pages, old(recPage)).Resolved? ==>
                !failed && recPage == old(recPage) + 1
                && recHasNext == Answer(pages, old(recPage)).body.hasNext
                && recItems == old(recItems) + PageEntries(Answer(pages, old(recPage)))
    {
      if !recHasNext {
        return false;
      }
      var answer := Answer(pages, recPage);
      if !answer.Resolved? {
        return true;
      }
      failed := false;
      var list := if answer.body.data.Some? then answer.body.data.value else [];
      recHasNext := answer.body.hasNext;
      recPage := recPage + 1;
      AppendEntries(list);
    }

    /** The `for` loop of fetchRecPage: each item of the page whose entry
        normalises is pushed onto recItems, in order. */
    method AppendEntries(list: seq<EntryField>)
      requires Valid()
      modifies this`recItems
      ensures Valid()
      ensures recItems == old(recItems) + NormaliseAll(list)
    {
      for i := 0 to |list|
        invariant recRendered <= |recItems|
        invariant recItems == old(recItems) + NormaliseAll(list[..i])
      {
        assert list[..i + 1][..i] == list[..i];
        var e := Normalise(list[i]);
        if e.Some? {
          recItems := recItems + [e.value];
        }
      }
      assert list[..|list|] == list;
    }

    /** The `while` loop of renderMoreRecs: fetch pages until CHUNK
        unrendered entries are available or there is no next page. A failed
        fetch ends it, keeping the pages fetched before. It ends because
        Jikan answers only `|pages|` pages: a later request fails. */
    method FetchUntilChunk(pages: seq<Outcome<RecPage>>) returns (failed: bool)
      requires Valid()
      modifies this`recItems, this`recPage, this`recHasNext
      ensures Valid()
      ensures old(recPage) <= recPage && recItems == old(recItems) + Fetched(pages, old(recPage), recPage - old(recPage))
      ensures !old(recHasNext) ==> recPage == old(recPage) && !recHasNext
      ensures !failed ==> |recItems| >= recRendered + Chunk || !recHasNext
    {
      while |recItems| < recRendered + Chunk && recHasNext
        invariant Valid()
        invariant old(recPage) <= recPage && recItems == old(recItems) + Fetched(pages, old(recPage), recPage - old(recPage))
        invariant !old(recHasNext) ==> recPage == old(recPage) && !recHasNext
        decreases PagesLeft(recHasNext, recPage, |pages|)
      {
        ghost var count, page := recPage - old(recPage), recPage;
        var f := FetchRecPage(pages);
        if f {
          return true;
        }
        PagesLeftShrinks(pages, page, recHasNext);
        assert recItems == old(recItems) + Fetched(pages, old(recPage), count + 1) by {
          FetchedStep(pages, old(recPage), count, old(recItems));
        }
      }
      failed := false;
    }

    /** renderMoreRecs: after the fetch loop, render the next CHUNK entries
        (fewer at the end) and disable the button once everything is
        rendered and there is no next page. A failed fetch ends the call
        without rendering. */
    method RenderMoreRecs(pages: seq<Outcome<RecPage>>)
      returns (rendered: seq<Entry>, failed: bool)
      requires Valid()
      modifies this`recItems, this`recPage, this`recHasNext, this`recRendered, this`recMoreDisabled
      ensures Valid()
      ensures old(recPage) <= recPage && recItems == old(recItems) + Fetched(pages, old(recPage), recPage - old(recPage))
      ensures !old(recHasNext) ==> recPage == old(recPage) && !recHasNext
      ensures failed ==> rendered == [] && recRendered == old(recRendered) && recMoreDisabled == old(recMoreDisabled)
      ensures !failed ==>
                (|recItems| >= old(recRendered) + Chunk || !recHasNext)
                && recRendered == Advance(old(recRendered), |recItems|)
                && rendered == recItems[old(recRendered)..recRendered]
                && recMoreDisabled == (old(recMoreDisabled) || (recRendered >= |recItems| && !recHasNext))
    {
      failed := FetchUntilChunk(pages);
      if failed {
        return [], true;
      }
      rendered := RenderRecChunk();
    }

    /** The rendering half of renderMoreRecs: the next CHUNK entries (fewer
        at the end), the cursor past them, and the button disabled once
        everything is rendered and there is no next page. */
    method RenderRecChunk() returns (rendered: seq<Entry>)
      requires Valid()
      modifies this`recRendered, this`recMoreDisabled
      ensures Valid()
      ensures recRendered == Advance(old(recRendered), |recItems|)
      ensures rendered == recItems[old(recRendered)..recRendered]
      ensures recMoreDisabled == (old(recMoreDisabled) || (recRendered >= |recItems| && !recHasNext))
    {
      var slice := Slice(recItems, recRendered, recRendered + Chunk);
      recRendered := recRendered + |slice|;
      rendered := slice;
      if recRendered >= |recItems| && !recHasNext {
        recMoreDisabled := true;
      }
    }
  }
}
