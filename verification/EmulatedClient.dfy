// What a client sees who follows the links served by the emulating helpers
// (apmec/api/api_common.py).
module EmulatedClient {
  import opened Wrappers
  import opened Keyset
  import opened Paging
  import opened PageWalk
  import opened EmulatedPaging

  // ---- Requests reached by following links from the first page ----

  datatype Request = Request(marker: Option<nat>, reverse: bool)

  predicate Valid(q: Request, n: nat) {
    q.marker.Some? ==> q.marker.value < n
  }

  function RangeOf(n: nat, limit: nat, q: Request): (nat, nat)
    requires Valid(q, n)
  {
    Range(n, limit, q.marker, q.reverse)
  }

  // One of the links on the page.
  predicate Follows(n: nat, limit: nat, q: Request, q': Request)
    requires Valid(q, n)
  {
    var here := RangeOf(n, limit, q);
    || (HasNext(here.1 - here.0, limit, q.reverse) && q' == Request(NextMarker(here), false))
    || (HasPrevious(here.1 - here.0, limit, q.reverse) && q' == Request(PreviousMarker(here), true))
  }

  predicate LinkPath(n: nat, limit: nat, path: seq<Request>) {
    && |path| > 0 && path[0] == Request(None, false)
    && (forall i | 0 <= i < |path| :: Valid(path[i], n))
    && (forall i, j | 0 <= i && j == i + 1 < |path| :: Follows(n, limit, path[i], path[j]))
  }

  // No request strays from the grid of whole pages, except the one without a marker that asks
  // for the last page backwards.
  lemma {:induction false} LinksStayOnGrid(n: nat, limit: nat, path: seq<Request>, k: nat)
    requires limit > 0 && LinkPath(n, limit, path) && k < |path|
    requires forall i | 0 <= i <= k :: path[i].reverse ==> path[i].marker.Some?
    ensures var range := RangeOf(n, limit, path[k]);
            (OnGrid(limit, range.0) && range.1 == Min(range.0 + limit, n)) || range.0 == range.1 == 0
    ensures path[k].reverse ==> OnGrid(limit, path[k].marker.value)
  {
    if k > 0 {
      LinksStayOnGrid(n, limit, path, k - 1);
      var q, here := path[k - 1], RangeOf(n, limit, path[k - 1]);
      assert Follows(n, limit, q, path[k]);
      assert Multiple(0, limit) == 0;
      GridStep(limit, here.0);
    } else {
      assert Multiple(0, limit) == 0;
    }
  }

  ghost predicate OnGrid(limit: nat, lo: nat) {
    exists q: nat :: Multiple(q, limit) == lo
  }

  function Multiple(q: nat, limit: nat): nat {
    q * limit
  }

  lemma GridStep(limit: nat, lo: nat)
    requires limit > 0 && OnGrid(limit, lo)
    ensures OnGrid(limit, lo + limit)
    ensures if lo < limit then lo == 0 else OnGrid(limit, lo - limit)
  {
    var q: nat :| Multiple(q, limit) == lo;
    assert Multiple(q + 1, limit) == lo + limit;
    if q > 0 {
      assert Multiple(q - 1, limit) == lo - limit;
    }
  }

  // So, short of that one request, every backward page reached by links satisfies the
  // condition of EmulatedBackwardExact.
  lemma LinkedBackwardPagesAgree(n: nat, limit: nat, path: seq<Request>)
    requires limit > 0 && LinkPath(n, limit, path)
    requires forall i | 0 <= i < |path| :: path[i].reverse ==> path[i].marker.Some?
    ensures forall i | 0 <= i < |path| && path[i].reverse ::
              var m := path[i].marker.value; limit <= m || m == 0 || n + m <= limit
  {
    forall i | 0 <= i < |path| && path[i].reverse
      ensures limit <= path[i].marker.value || path[i].marker.value == 0
    {
      LinksStayOnGrid(n, limit, path, i);
      GridStep(limit, path[i].marker.value);
    }
  }

  // ---- A client of the emulating helpers ----

  // A request with the row whose key it carries.
  datatype Ask = Ask(marker: Option<Row>, reverse: bool)

  ghost predicate EmulatedPage(out: seq<Row>, model: Model, limit: nat, ask: Ask, page: seq<Row>) {
    && (forall r | r in out :: model.primaryKey in r) && (ask.marker.Some? ==> model.primaryKey in ask.marker.value)
    && exists at :: SlicedAt(out, model, limit, ask, at, page)
  }

  ghost predicate SlicedAt(out: seq<Row>, model: Model, limit: nat, ask: Ask, at: int, page: seq<Row>)
    requires forall r | r in out :: model.primaryKey in r
    requires ask.marker.Some? ==> model.primaryKey in ask.marker.value
  {
    StopsAt(out, model.primaryKey, KeyOf(ask.marker, model), at) && page == Sliced(out, limit, at, ask.reverse)
  }

  function Sliced(out: seq<Row>, limit: nat, at: int, reverse: bool): seq<Row> {
    if reverse then Slice(out, at - limit, at) else Slice(out, at + 1, at + limit + 1)
  }

  // Where the search for a marker stops.
  function Place(m: Option<nat>): int {
    if m.Some? then m.value else -1
  }

  ghost predicate LinkOf(page: seq<Row>, reverse: bool, limit: nat, ask: Ask) {
    || (HasNext(|page|, limit, reverse) && ask == Ask(LastRow(page), false))
    || (HasPrevious(|page|, limit, reverse) && ask == Ask(FirstRow(page), true))
  }

  // From the first page on, every request is a link of the page before.
  ghost predicate ClientPath(out: seq<Row>, model: Model, limit: nat, asks: seq<Ask>, pages: seq<seq<Row>>) {
    && |asks| == |pages| > 0 && asks[0] == Ask(None, false)
    && (forall k | 0 <= k < |asks| :: EmulatedPage(out, model, limit, asks[k], pages[k]))
    && (forall k, l | 0 <= k && l == k + 1 < |asks| :: LinkOf(pages[k], asks[k].reverse, limit, asks[l]))
  }

  // The request stands at this place, and its page is the stretch of the table there.
  ghost predicate StandsAt(out: seq<Row>, limit: nat, ask: Ask, page: seq<Row>, q: Request) {
    && q.reverse == ask.reverse && MarkerAt(out, ask.marker, q.marker) && page == Page(out, limit, q.marker, q.reverse)
  }

  // The slices around the marker's place.
  lemma SliceIsPage(out: seq<Row>, limit: nat, q: Request)
    requires limit > 0 && Valid(q, |out|)
    requires q.reverse ==> q.marker.Some? && (var m := q.marker.value; limit <= m || m == 0 || |out| + m <= limit)
    ensures Sliced(out, limit, Place(q.marker), q.reverse) == Page(out, limit, q.marker, q.reverse)
  {
    if q.reverse {
      BackwardSliceExact(out, limit, q.marker.value);
    } else {
      ForwardSlice(out, limit, q.marker);
    }
  }

  lemma EmulatedStands(out: seq<Row>, rows: set<Row>, model: Model, sorts: seq<Sort>, limit: nat, ask: Ask,
                       page: seq<Row>, q: Request)
    requires Table(rows, model) && Listing(out, rows, sorts) && limit > 0 && EmulatedPage(out, model, limit, ask, page)
    requires q.reverse == ask.reverse && MarkerAt(out, ask.marker, q.marker)
    requires q.reverse ==> q.marker.Some? && (var m := q.marker.value; limit <= m || m == 0 || |out| + m <= limit)
    ensures page == Page(out, limit, q.marker, q.reverse)
  {
    var at :| SlicedAt(out, model, limit, ask, at, page);
    SlicedAtMarker(out, rows, model, sorts, limit, ask, page, q.marker, at);
    SliceIsPage(out, limit, q);
  }

  lemma SlicedAtMarker(out: seq<Row>, rows: set<Row>, model: Model, sorts: seq<Sort>, limit: nat, ask: Ask,
                       page: seq<Row>, m: Option<nat>, at: int)
    requires Table(rows, model) && Listing(out, rows, sorts) && MarkerAt(out, ask.marker, m)
    requires forall r | r in out :: model.primaryKey in r
    requires ask.marker.Some? ==> model.primaryKey in ask.marker.value
    requires SlicedAt(out, model, limit, ask, at, page)
    ensures at == Place(m)
  {
    if m.Some? {
      assert out[m.value] in out;
      StopsAtMarker(out, rows, model, sorts, m.value, at);
    }
  }

  lemma {:induction false} ClientStands(out: seq<Row>, rows: set<Row>, model: Model, sorts: seq<Sort>, limit: nat,
                                        asks: seq<Ask>, pages: seq<seq<Row>>, k: nat) returns (path: seq<Request>)
    requires Table(rows, model) && Listing(out, rows, sorts) && limit > 0 && k < |asks|
    requires ClientPath(out, model, limit, asks, pages)
    requires forall i | 0 <= i < |asks| :: asks[i].reverse ==> asks[i].marker.Some?
    ensures LinkPath(|out|, limit, path) && |path| == k + 1
    ensures forall i | 0 <= i <= k :: path[i].reverse ==> path[i].marker.Some?
    ensures StandsAt(out, limit, asks[k], pages[k], path[k])
  {
    assert EmulatedPage(out, model, limit, asks[k], pages[k]);
    if k == 0 {
      path := [Request(None, false)];
      EmulatedStands(out, rows, model, sorts, limit, asks[0], pages[0], path[0]);
    } else {
      var before := ClientStands(out, rows, model, sorts, limit, asks, pages, k - 1);
      assert LinkOf(pages[k - 1], asks[k - 1].reverse, limit, asks[k]);
      var next := NextStand(out, limit, asks[k - 1], pages[k - 1], before[k - 1], asks[k]);
      path := before + [next];
      PathGrows(|out|, limit, before, next);
      EmulatedStands(out, rows, model, sorts, limit, asks[k], pages[k], next);
    }
  }

  lemma PathGrows(n: nat, limit: nat, path: seq<Request>, next: Request)
    requires limit > 0 && LinkPath(n, limit, path) && Valid(next, n) && Follows(n, limit, path[|path| - 1], next)
    requires forall i | 0 <= i < |path| :: path[i].reverse ==> path[i].marker.Some?
    requires next.reverse ==> next.marker.Some?
    ensures LinkPath(n, limit, path + [next])
    ensures next.reverse ==> (var m := next.marker.value; limit <= m || m == 0 || n + m <= limit)
  {
    var longer := path + [next];
    assert forall i | 0 <= i < |path| :: longer[i] == path[i];
    LinkedBackwardPagesAgree(n, limit, longer);
    assert longer[|path|] == next;
  }

  // A link of a page leads to the request at the page's edge.
  lemma NextStand(out: seq<Row>, limit: nat, ask: Ask, page: seq<Row>, q: Request, ask': Ask) returns (next: Request)
    requires limit > 0 && StandsAt(out, limit, ask, page, q) && LinkOf(page, ask.reverse, limit, ask')
    ensures Valid(q, |out|) && Follows(|out|, limit, q, next) && Valid(next, |out|)
    ensures next.reverse == ask'.reverse && MarkerAt(out, ask'.marker, next.marker)
  {
    var range := RangeOf(|out|, limit, q);
    EdgeMarkers(out, limit, q.marker, q.reverse);
    next := if HasNext(|page|, limit, ask.reverse) && ask' == Ask(LastRow(page), false)
            then Request(NextMarker(range), false) else Request(PreviousMarker(range), true);
  }

  // Following links from the first page, whichever way and however often, a client of the
  // emulating helpers is served the database's page every time, as long as it does not ask for
  // the last page.
  lemma ClientServedNatively(rows: set<Row>, model: Model, sorts: seq<Sort>, items: seq<Row>, out: seq<Row>, limit: nat,
                             asks: seq<Ask>, pages: seq<seq<Row>>)
    requires Emulates(rows, model, sorts, items, out) && TiesByKey(items, sorts, model.primaryKey) && limit > 0
    requires ClientPath(out, model, limit, asks, pages)
    requires forall k | 0 <= k < |asks| :: asks[k].reverse ==> asks[k].marker.Some?
    ensures forall k | 0 <= k < |asks| ::
              IsPage(pages[k], rows, NativeSorts(sorts, model), limit, asks[k].marker, asks[k].reverse)
  {
    SortedIsListingExactly(rows, model, sorts, items, out);
    forall k | 0 <= k < |asks|
      ensures IsPage(pages[k], rows, NativeSorts(sorts, model), limit, asks[k].marker, asks[k].reverse)
    {
      var path := ClientStands(out, rows, model, NativeSorts(sorts, model), limit, asks, pages, k);
      PageOfListing(out, rows, NativeSorts(sorts, model), limit, asks[k].marker, path[k].marker, asks[k].reverse);
    }
  }

  // ---- Pages that differ ----

  const ID := "id"
  const MEAS := Model({ID}, ID)

  function Mea(id: int): Row {
    map[ID := id]
  }

  lemma ById(i: int, j: int)
    ensures NativeSorts([], MEAS) == [Sort(ID, true)] && Total(NativeSorts([], MEAS), MEAS)
    ensures Carries(Mea(i), NativeSorts([], MEAS)) && Carries(Mea(j), NativeSorts([], MEAS))
    ensures Compare(NativeSorts([], MEAS), Mea(i), Mea(j)) == Cmp(i, j)
  {
    var native := NativeSorts([], MEAS);
    assert !Keyed([], ID) && native == [Sort(ID, true)];
    assert native[0].key == ID && native[1..] == [];
    assert Compare(native[1..], Mea(i), Mea(j)) == 0;
  }

  // Without sort keys: a plugin that lists MEA 2 before MEA 1 has MEA 2 on the first page, the
  // database has MEA 1.
  lemma UnsortedPagesDiffer()
    ensures Emulates({Mea(1), Mea(2)}, MEAS, [], [Mea(2), Mea(1)], [Mea(2), Mea(1)])
    ensures Slice([Mea(2), Mea(1)], 0, 1) == [Mea(2)]
    ensures IsPage([Mea(1)], {Mea(1), Mea(2)}, NativeSorts([], MEAS), 1, None, false)
  {
    var rows, items, all := {Mea(1), Mea(2)}, [Mea(2), Mea(1)], [Mea(1), Mea(2)];
    assert Mea(1)[ID] != Mea(2)[ID];
    assert multiset(items) == multiset(rows);
    assert Precedes(items, items[0], items[1]);
    ById(1, 2);
    assert Listing(all, rows, NativeSorts([], MEAS));
    PageOfListing(all, rows, NativeSorts([], MEAS), 1, None, None, false);
    assert Page(all, 1, None, false) == [Mea(1)];
  }

  // Three MEAs, the page of at most three before the second: the slice is empty, the database
  // serves the first.
  lemma BackwardPagesDiffer()
    ensures Slice([Mea(1), Mea(2), Mea(3)], 1 - 3, 1) == []
    ensures IsPage([Mea(1)], {Mea(1), Mea(2), Mea(3)}, NativeSorts([], MEAS), 3, Some(Mea(2)), true)
  {
    var all := [Mea(1), Mea(2), Mea(3)];
    ById(1, 2);
    ById(1, 3);
    ById(2, 3);
    assert Listing(all, {Mea(1), Mea(2), Mea(3)}, NativeSorts([], MEAS));
    PageOfListing(all, {Mea(1), Mea(2), Mea(3)}, NativeSorts([], MEAS), 3, Some(Mea(2)), Some(1), true);
    assert Page(all, 3, Some(1), true) == [Mea(1)];
  }

  // One MEA, one to a page: next leads to an empty page, and previous from there to an empty
  // page again instead of the only one.
  lemma LastPagesDiffer()
    ensures ClientPath([Mea(1)], MEAS, 1, [Ask(None, false), Ask(Some(Mea(1)), false), Ask(None, true)],
                       [[Mea(1)], [], []])
    ensures IsPage([Mea(1)], {Mea(1)}, NativeSorts([], MEAS), 1, None, true)
  {
    var all := [Mea(1)];
    ById(1, 1);
    assert Mea(1) in all;
    assert SlicedAt(all, MEAS, 1, Ask(None, false), -1, [Mea(1)]);
    assert SlicedAt(all, MEAS, 1, Ask(Some(Mea(1)), false), 0, []);
    assert SlicedAt(all, MEAS, 1, Ask(None, true), -1, []);
    assert Listing(all, {Mea(1)}, NativeSorts([], MEAS));
    PageOfListing(all, {Mea(1)}, NativeSorts([], MEAS), 1, None, None, true);
    assert Page(all, 1, None, true) == [Mea(1)];
  }
}
