/**
 * What loadDetails (public/anime.js) puts at the top of the detail page:
 * the Jikan record when there is one, the cached row otherwise, and the
 * meta line built from the optional episode count, year and status.
 */
module DetailView {
  import opened JsRuntime
  import opened Jikan
  import opened Favorites

  // ---------------------------------------------------------------------
  // loadDetails and the meta line
  // ---------------------------------------------------------------------

  /** The fields of a Jikan `/anime/{id}/full` record the page shows; the
      genres are their names, `airedYear` is `aired.prop.from.year`. */
  datatype Record = Record(
    title: Option<string>,
    genres: Option<seq<string>>,
    episodes: Option<int>,
    year: Option<int>,
    airedYear: Option<int>,
    status: Option<string>,
    synopsis: Option<string>)

  /** The fields of a cache row the page shows. */
  datatype CachedRecord = CachedRecord(
    title: Option<string>,
    episodes: Option<int>,
    year: Option<int>,
    status: Option<string>,
    synopsis: Option<string>)

  datatype Origin = FromJikan | FromCache

  /** The texts loadDetails puts on the page. */
  datatype View = View(origin: Origin, title: string, genres: string, meta: string, synopsis: string)

  /** loadDetails either fills the page or throws `Error('not found')`. */
  datatype Loaded = Shown(view: View) | NotFound

  /** `x || '—'` on an optional string. */
  function OrDash(s: Option<string>): string {
    if s.Some? && s.value != "" then s.value else "—"
  }

  /** `parts.join(sep)`. */
  function Join(parts: seq<string>, sep: string): (r: string)
    ensures parts == [] ==> r == ""
    ensures |parts| == 1 ==> r == parts[0]
    ensures parts != [] ==> parts[0] <= r
  {
    if parts == [] then ""
    else if |parts| == 1 then parts[0]
    else parts[0] + sep + Join(parts[1..], sep)
  }

  function TotalLength(parts: seq<string>): nat {
    if parts == [] then 0 else |parts[0]| + TotalLength(parts[1..])
  }

  /** The joined string is as long as the parts together plus one
      separator between each two neighbours. */
  lemma {:induction false} JoinLength(parts: seq<string>, sep: string)
    requires parts != []
    ensures |Join(parts, sep)| == TotalLength(parts) + |sep| * (|parts| - 1)
  {
    if |parts| > 1 {
      JoinLength(parts[1..], sep);
    }
  }

  /** Joining one more part adds a separator and then that part: the joined
      string holds every part once, in order, with one separator between
      each two neighbours. */
  lemma {:induction false} JoinAppend(parts: seq<string>, p: string, sep: string)
    requires parts != []
    ensures Join(parts + [p], sep) == Join(parts, sep) + sep + p
  {
    var longer := parts + [p];
    if |parts| == 1 {
      assert longer[1..] == [p];
      assert Join(longer, sep) == parts[0] + sep + p;
    } else {
      var head, tail := parts[0], parts[1..];
      assert longer[0] == head && longer[1..] == tail + [p];
      JoinAppend(tail, p, sep);
      assert Join(longer, sep) == head + sep + (Join(tail, sep) + sep + p);
      assert (head + sep) + (Join(tail, sep) + sep + p) == (head + sep + Join(tail, sep)) + sep + p;
    }
  }

  /** `${n} ep` when the episode count is present, '' otherwise. */
  function EpisodesPart(episodes: Option<int>): (r: string)
    ensures r != "" <==> episodes.Some?
    ensures episodes.Some? ==> |r| > 3 && r[|r| - 3..] == " ep" && StringToNumber(r[..|r| - 3]) == episodes
  {
    if episodes.Some? then
      var n := IntToString(episodes.value);
      NumberOfString(episodes.value);
      assert (n + " ep")[..|n|] == n;
      n + " ep"
    else ""
  }

  /** `data.year || (data.aired?.prop?.from?.year || '')`: a year of 0 counts
      as missing. */
  function YearPart(year: Option<int>, airedYear: Option<int>): (r: string)
    ensures r == "" <==> (year.None? || year.value == 0) && (airedYear.None? || airedYear.value == 0)
    ensures year.Some? && year.value != 0 ==> StringToNumber(r) == year
    ensures (year.None? || year.value == 0) && airedYear.Some? && airedYear.value != 0 ==> StringToNumber(r) == airedYear
  {
    if year.Some? && year.value != 0 then
      NumberOfString(year.value);
      IntToString(year.value)
    else if airedYear.Some? && airedYear.value != 0 then
      NumberOfString(airedYear.value);
      IntToString(airedYear.value)
    else ""
  }

  /** `Boolean(s)` for a string. */
  predicate NonEmpty(p: string) {
    p != ""
  }

  /** `parts.filter(Boolean)` on strings: the non-empty ones, in order. */
  function Present(parts: seq<string>): (r: seq<string>)
    ensures |r| <= |parts|
    ensures forall p :: p in r <==> p in parts && p != ""
  {
    Filter(parts, NonEmpty)
  }

  /** `[eps, year, status].filter(Boolean).join(' • ') || '—'`. */
  function MetaLine(parts: seq<string>): (r: string)
    ensures r != ""
  {
    var present := Present(parts);
    if present == [] then "—"
    else
      assert present[0] in present;
      Join(present, " • ")
  }

  /** The meta line is "—" when every part is empty, and otherwise the
      non-empty parts in order, joined with " • ", with one separator
      between each two of them. */
  lemma MetaLineCases(parts: seq<string>)
    ensures (forall p :: p in parts ==> p == "") ==> MetaLine(parts) == "—"
    ensures (exists p :: p in parts && p != "") ==>
              MetaLine(parts) == Join(Present(parts), " • ")
              && |MetaLine(parts)| == TotalLength(Present(parts)) + 3 * (|Present(parts)| - 1)
  {
    assert |Present(parts)| == 0 || Present(parts)[0] in Present(parts);
    if exists p :: p in parts && p != "" {
      var p :| p in parts && p != "";
      assert p in Present(parts);
      JoinLength(Present(parts), " • ");
    }
  }

  /** Empty parts are dropped wherever they stand. */
  lemma MetaLineSkipsEmpty(xs: seq<string>, ys: seq<string>)
    ensures MetaLine(xs + [""] + ys) == MetaLine(xs + ys)
  {
    FilterAppend(xs + [""], ys, NonEmpty);
    FilterAppend(xs, [""], NonEmpty);
    FilterAppend(xs, ys, NonEmpty);
    assert Filter([""], NonEmpty) == [] by {
      assert [""][1..] == [];
    }
    assert Present(xs + [""]) == Present(xs);
  }

  /** A non-empty part after at least one non-empty part lengthens the meta
      line by the separator and that part. */
  lemma MetaLineAppend(xs: seq<string>, p: string)
    requires p != "" && exists x :: x in xs && x != ""
    ensures MetaLine(xs + [p]) == MetaLine(xs) + " • " + p
  {
    FilterAppend(xs, [p], NonEmpty);
    assert Filter([p], NonEmpty) == [p] by {
      assert [p][1..] == [];
    }
    var x :| x in xs && x != "";
    assert x in Present(xs);
    JoinAppend(Present(xs), p, " • ");
  }

  /** Three non-empty parts give `a • b • c`. */
  lemma MetaLineThree(a: string, b: string, c: string)
    requires a != "" && b != "" && c != ""
    ensures MetaLine([a, b, c]) == a + " • " + b + " • " + c
  {
    assert MetaLine([a]) == a by {
      assert Filter([a], NonEmpty) == [a] by {
        assert [a][1..] == [];
      }
    }
    assert a in [a];
    MetaLineAppend([a], b);
    assert [a] + [b] == [a, b];
    assert a in [a, b];
    MetaLineAppend([a, b], c);
    assert [a, b] + [c] == [a, b, c];
  }

  /** The meta line of a record with all three parts present. */
  lemma MetaLineFull(episodes: int, year: int, status: string)
    requires year != 0 && status != ""
    ensures MetaLine([EpisodesPart(Some(episodes)), YearPart(Some(year), None), status])
            == IntToString(episodes) + " ep" + " • " + IntToString(year) + " • " + status
  {
    var e := EpisodesPart(Some(episodes));
    var y := YearPart(Some(year), None);
    assert e == IntToString(episodes) + " ep" && e != "";
    assert y == IntToString(year) && y != "";
    MetaLineThree(e, y, status);
  }

  /** loadDetails: the Jikan record when jikanFetch resolves with one;
      otherwise the cache row; otherwise not found. `cached` is None when the
      cache request fails or answers without a row. */
  function LoadDetails(upstream: Outcome<Option<Record>>, cached: Option<CachedRecord>): (r: Loaded)
    ensures r.NotFound? <==> !(upstream.Resolved? && upstream.body.Some?) && cached.None?
    ensures upstream.Resolved? && upstream.body.Some? ==>
              r.Shown? && r.view.origin == FromJikan && r.view.title == OrDash(upstream.body.value.title)
    ensures !(upstream.Resolved? && upstream.body.Some?) && cached.Some? ==>
              r.Shown? && r.view.origin == FromCache && r.view.title == OrDash(cached.value.title)
              && r.view.genres == ""
  {
    if upstream.Resolved? && upstream.body.Some? then
      var d := upstream.body.value;
      var names := if d.genres.Some? then d.genres.value else [];
      var genres := Join(names, ", ");
      Shown(View(FromJikan, OrDash(d.title), if genres == "" then "—" else genres,
                 MetaLine([EpisodesPart(d.episodes), YearPart(d.year, d.airedYear), OrEmpty(d.status)]),
                 OrDash(d.synopsis)))
    else if cached.Some? then
      var c := cached.value;
      Shown(View(FromCache, OrDash(c.title), "",
                 MetaLine([EpisodesPart(c.episodes), YearPart(c.year, None), OrEmpty(c.status)]),
                 OrDash(c.synopsis)))
    else NotFound
  }
}
