/**
 * The two lists the detail page (public/anime.js) reveals CHUNK at a time:
 * the cursor arithmetic of renderMoreCharacters and renderMoreRecs, and the
 * recommendation entries fetchRecPage keeps from each page of Jikan's
 * answer.
 */
module DetailLists {
  import opened JsRuntime
  import opened Jikan

  /** CHUNK: how many characters or recommendations one click reveals. */
  const Chunk: nat := 5

  // ---------------------------------------------------------------------
  // Characters: the cursor over a fixed list
  // ---------------------------------------------------------------------

  /** The cursor after one renderMoreCharacters call. */
  function Advance(cursor: nat, total: nat): (r: nat)
    requires cursor <= total
    ensures cursor <= r <= total && r - cursor <= Chunk
    ensures r == total || r == cursor + Chunk
  {
    if cursor + Chunk < total then cursor + Chunk else total
  }

  /** The cursor after n calls from the start. */
  function CursorAfter(total: nat, n: nat): (r: nat)
    ensures r <= total
  {
    if n == 0 then 0 else Advance(CursorAfter(total, n - 1), total)
  }

  /** What n calls from the start render, one chunk after another. */
  function RenderedAfter<T>(all: seq<T>, n: nat): seq<T> {
    if n == 0 then []
    else
      var c := CursorAfter(|all|, n - 1);
      RenderedAfter(all, n - 1) + all[c..Advance(c, |all|)]
  }

  /** After n calls the cursor stands at min(CHUNK n, length) and exactly the
      characters before it were rendered, each once and in order. */
  lemma {:induction false} RenderedAfterPrefix<T>(all: seq<T>, n: nat)
    ensures CursorAfter(|all|, n) == if Chunk * n < |all| then Chunk * n else |all|
    ensures RenderedAfter(all, n) == all[..CursorAfter(|all|, n)]
  {
    if n > 0 {
      RenderedAfterPrefix(all, n - 1);
    }
  }

  // ---------------------------------------------------------------------
  // Recommendations: normalising the entries of one page
  // ---------------------------------------------------------------------

  /** A recommended anime (`entry`); `malId` is None when absent. */
  datatype Entry = Entry(malId: Option<int>, title: Option<string>, imageUrl: Option<string>)

  /** `rec.entry`: one object, an array of them, or missing. */
  datatype EntryField = OneEntry(entry: Entry) | EntryList(entries: seq<Entry>) | NoEntry

  /** `json.data` when it is an array (None otherwise) and
      `!!json.pagination.has_next_page`. */
  datatype RecPage = RecPage(data: Option<seq<EntryField>>, hasNext: bool)

  /** `e && e.mal_id`: the entry exists and its id is truthy. */
  predicate HasId(e: Entry) {
    e.malId.Some? && e.malId.value != 0
  }

  /** `Array.isArray(rec.entry) ? rec.entry[0] : rec.entry`, kept only when
      it has a truthy id. */
  function Normalise(f: EntryField): (r: Option<Entry>)
    ensures r.Some? ==> HasId(r.value)
  {
    match f
    case OneEntry(e) => if HasId(e) then Some(e) else None
    case EntryList(es) => if es != [] && HasId(es[0]) then Some(es[0]) else None
    case NoEntry => None
  }

  function EntryList'(o: Option<Entry>): seq<Entry> {
    if o.Some? then [o.value] else []
  }

  /** The entries one page adds to recItems, in response order. */
  function NormaliseAll(list: seq<EntryField>): (r: seq<Entry>)
    ensures |r| <= |list|
  {
    if list == [] then []
    else NormaliseAll(list[..|list| - 1]) + EntryList'(Normalise(list[|list| - 1]))
  }

  lemma {:induction false} NormaliseAllAppend(a: seq<EntryField>, b: seq<EntryField>)
    ensures NormaliseAll(a + b) == NormaliseAll(a) + NormaliseAll(b)
    decreases |b|
  {
    if b == [] {
      assert a + b == a;
    } else {
      var init := b[..|b| - 1];
      assert (a + b)[..|a + b| - 1] == a + init;
      NormaliseAllAppend(a, init);
    }
  }

  /** An entry ends up in the page's contribution exactly when some item of
      the page normalises to it. */
  lemma {:induction false} NormaliseAllMembers(list: seq<EntryField>, e: Entry)
    ensures e in NormaliseAll(list) <==> exists k :: 0 <= k < |list| && Normalise(list[k]) == Some(e)
    ensures e in NormaliseAll(list) ==> HasId(e)
  {
    if list != [] {
      var init, last := list[..|list| - 1], list[|list| - 1];
      NormaliseAllMembers(init, e);
      assert e in NormaliseAll(list) <==> e in NormaliseAll(init) || Normalise(last) == Some(e);
      assert forall k :: 0 <= k < |init| ==> list[k] == init[k];
      assert Normalise(list[|list| - 1]) == Normalise(last);
    }
  }

  /** Jikan's answers to the recommendation requests: page `p` is answered
      by `pages[p - 1]`; a request for any other page fails. */
  function Answer(pages: seq<Outcome<RecPage>>, p: int): (r: Outcome<RecPage>)
    ensures 1 <= p <= |pages| ==> r == pages[p - 1]
    ensures !(1 <= p <= |pages|) ==> r.FetchRejected?
  {
    if 1 <= p <= |pages| then pages[p - 1] else FetchRejected
  }

  /** The data of a settled page request, `[]` when it is not an array. */
  function PageEntries(o: Outcome<RecPage>): seq<Entry> {
    if o.Resolved? && o.body.data.Some? then NormaliseAll(o.body.data.value) else []
  }

  /** What each of `count` pages from page `from` on contributes, in page
      order. */
  function Contributions(pages: seq<Outcome<RecPage>>, from: int, count: nat): (r: seq<seq<Entry>>)
    ensures |r| == count
    ensures forall i :: 0 <= i < count ==> r[i] == PageEntries(Answer(pages, from + i))
  {
    if count == 0 then [] else Contributions(pages, from, count - 1) + [PageEntries(Answer(pages, from + count - 1))]
  }

  /** The lists one after another. */
  function Flatten(parts: seq<seq<Entry>>): seq<Entry> {
    if parts == [] then [] else Flatten(parts[..|parts| - 1]) + parts[|parts| - 1]
  }

  /** The entries `count` pages from page `from` on add, one page after
      another. */
  function Fetched(pages: seq<Outcome<RecPage>>, from: int, count: nat): seq<Entry> {
    if count == 0 then [] else Fetched(pages, from, count - 1) + PageEntries(Answer(pages, from + count - 1))
  }

  /** The fetched entries are the pages' contributions one after another. */
  lemma {:induction false} FetchedFlat(pages: seq<Outcome<RecPage>>, from: int, count: nat)
    ensures Fetched(pages, from, count) == Flatten(Contributions(pages, from, count))
  {
    if count > 0 {
      FetchedFlat(pages, from, count - 1);
      var c := Contributions(pages, from, count);
      assert c[..count - 1] == Contributions(pages, from, count - 1);
    }
  }

  /** Pages the fetch loop of renderMoreRecs may still ask for: none once
      `has_next_page` was false, otherwise the answered pages from `page` on
      and one more, whose request fails. */
  function PagesLeft(hasNext: bool, page: int, answered: nat): nat {
    if !hasNext then 0 else if page > answered then 1 else answered - page + 2
  }

  /** A page that was answered moves the loop closer to its end, whatever
      the page said about a next one. */
  lemma PagesLeftShrinks(pages: seq<Outcome<RecPage>>, page: int, hasNext: bool)
    requires Answer(pages, page).Resolved?
    ensures PagesLeft(hasNext, page + 1, |pages|) < PagesLeft(true, page, |pages|)
  {
  }

  /** The entries fetched over consecutive pages are those of the first
      stretch followed by those of the second. */
  lemma {:induction false} FetchedSplit(pages: seq<Outcome<RecPage>>, from: int, m: nat, n: nat)
    ensures Fetched(pages, from, m + n) == Fetched(pages, from, m) + Fetched(pages, from + m, n)
  {
    if n > 0 {
      FetchedSplit(pages, from, m, n - 1);
      var a, b := Fetched(pages, from, m), Fetched(pages, from + m, n - 1);
      var last := PageEntries(Answer(pages, from + m + n - 1));
      calc {
        Fetched(pages, from, m + n);
        Fetched(pages, from, m + n - 1) + last;
        (a + b) + last;
        { AppendAssoc(a, b, last); }
        a + (b + last);
        a + Fetched(pages, from + m, n);
      }
    }
  }

  lemma AppendAssoc<T>(a: seq<T>, b: seq<T>, c: seq<T>)
    ensures (a + b) + c == a + (b + c)
  {
  }

  /** Entries already held, followed by `count` pages and then the next
      page, are the entries held followed by `count + 1` pages. */
  lemma FetchedStep(pages: seq<Outcome<RecPage>>, from: int, count: nat, held: seq<Entry>)
    ensures (held + Fetched(pages, from, count)) + PageEntries(Answer(pages, from + count))
            == held + Fetched(pages, from, count + 1)
  {
    var next := PageEntries(Answer(pages, from + count));
    assert Fetched(pages, from, count + 1) == Fetched(pages, from, count) + next;
    AppendAssoc(held, Fetched(pages, from, count), next);
  }
}
