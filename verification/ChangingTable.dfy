// A client who follows next links while the table changes. The link carries the key of the last
// row only (apmec/api/api_common.py, get_next_link); each request reads that row again
// (apmec/db/db_base.py, _get_marker_obj) and serves what follows it as it is by then.
module ChangingTable {
  import opened Wrappers
  import opened Keyset
  import opened Paging
  import opened PageWalk

  // A page served from the table as it is by then, after the given marker.
  ghost predicate ServedFrom(rows: set<Row>, model: Model, sorts: seq<Sort>, limit: nat, marker: Option<Row>,
                             items: seq<Row>)
  {
    && Table(rows, model)
    && (forall r | r in rows :: Carries(r, sorts))
    && (marker.Some? ==> Carries(marker.value, sorts))
    && Serves(Wanted(rows, sorts, marker), sorts, limit, items)
  }

  ghost predicate After(sorts: seq<Sort>, marker: Option<Row>, r: Row) {
    Carries(r, sorts) && (marker.Some? ==> Carries(marker.value, sorts) && Compare(sorts, marker.value, r) < 0)
  }

  // A full page either lists a row that lies ahead, or leaves it ahead of the next page.
  lemma FullPageSplits(rows: set<Row>, model: Model, sorts: seq<Sort>, limit: nat, marker: Option<Row>,
                       items: seq<Row>, r: Row)
    requires ServedFrom(rows, model, sorts, limit, marker, items) && Total(sorts, model)
    requires r in rows && |items| == limit > 0
    ensures r in items ==> After(sorts, marker, r) && !After(sorts, LastRow(items), r)
    ensures After(sorts, marker, r) && r !in items ==> After(sorts, LastRow(items), r)
    ensures !After(sorts, marker, r) ==> !After(sorts, LastRow(items), r)
  {
    var last := items[|items| - 1];
    assert last in items && last in Wanted(rows, sorts, marker);
    CompareFlip(sorts, last, r);
    if r in items {
      var i :| 0 <= i < |items| && items[i] == r;
      CompareZero(sorts, r, r);
    } else if After(sorts, marker, r) {
      assert r in Wanted(rows, sorts, marker);
      DistinctDiffer(rows, model, sorts, last, r);
    } else {
      CompareFlip(sorts, marker.value, r);
      CompareTransitive(sorts, r, marker.value, last);
    }
  }

  lemma ShortPageSplits(rows: set<Row>, model: Model, sorts: seq<Sort>, limit: nat, marker: Option<Row>,
                        items: seq<Row>, r: Row)
    requires ServedFrom(rows, model, sorts, limit, marker, items) && r in rows && |items| < limit
    ensures r in items <==> After(sorts, marker, r)
  {
    assert r in Wanted(rows, sorts, marker) <==> After(sorts, marker, r);
  }

  // ---- The same row, by its sort values ----

  predicate SameValues(sorts: seq<Sort>, a: Row, b: Row) {
    Carries(a, sorts) && Carries(b, sorts) && forall i | 0 <= i < |sorts| :: a[sorts[i].key] == b[sorts[i].key]
  }

  lemma {:induction false} CompareSame(sorts: seq<Sort>, a: Row, b: Row, r: Row)
    requires SameValues(sorts, a, b) && Carries(r, sorts)
    ensures Compare(sorts, a, r) == Compare(sorts, b, r)
  {
    if sorts != [] {
      assert a[sorts[0].key] == b[sorts[0].key];
      CompareSame(sorts[1..], a, b, r);
    }
  }

  lemma {:induction false} CompareSameSecond(sorts: seq<Sort>, r: Row, a: Row, b: Row)
    requires SameValues(sorts, a, b) && Carries(r, sorts)
    ensures Compare(sorts, r, a) == Compare(sorts, r, b)
  {
    if sorts != [] {
      assert a[sorts[0].key] == b[sorts[0].key];
      CompareSameSecond(sorts[1..], r, a, b);
    }
  }

  // A row with r's sort values is on the page.
  predicate Lists(page: seq<Row>, sorts: seq<Sort>, r: Row) {
    exists row | row in page :: SameValues(sorts, r, row)
  }

  // A row with r's sort values is in the table.
  predicate InTable(rows: set<Row>, sorts: seq<Sort>, r: Row) {
    exists row | row in rows :: SameValues(sorts, r, row)
  }

  // ---- What a request is served ----

  lemma PrefixServes(all: seq<Row>, wanted: set<Row>, order: seq<Sort>, limit: nat)
    requires Listing(all, wanted, order)
    ensures Serves(wanted, order, limit, all[..PageSize(limit, |all|)])
  {
    var n := PageSize(limit, |all|);
    var out := all[..n];
    assert forall r | r in wanted :: r in all && Carries(r, order);
    assert all[..|all|] == all;
    ListingDistinct(all, wanted, order);
    PrefixSorted(all, wanted, order, n);
    forall r, i | r in wanted && r !in out && 0 <= i < |out| ensures Compare(order, out[i], r) <= 0 {
      LaterRow(all, wanted, order, n, r, i);
    }
  }

  lemma PrefixSorted(all: seq<Row>, wanted: set<Row>, order: seq<Sort>, n: nat)
    requires Listing(all, wanted, order) && n <= |all|
    ensures forall r | r in all[..n] :: r in wanted && Carries(r, order)
    ensures forall i, j | 0 <= i < j < n :: Compare(order, all[..n][i], all[..n][j]) <= 0
  {
    assert forall r | r in all[..n] :: r in all;
  }

  lemma LaterRow(all: seq<Row>, wanted: set<Row>, order: seq<Sort>, n: nat, r: Row, i: nat)
    requires Listing(all, wanted, order) && i < n <= |all| && r in wanted && r !in all[..n]
    ensures Carries(r, order) && Compare(order, all[i], r) <= 0
  {
    assert r in all;
    var m :| 0 <= m < |all| && all[m] == r;
    assert forall p | 0 <= p < n :: all[p] == all[..n][p] && all[p] in all[..n];
  }

  lemma PageIsServed(rows: set<Row>, model: Model, sorts: seq<Sort>, limit: nat, marker: Option<Row>, page: seq<Row>)
    requires Table(rows, model) && Total(sorts, model) && (marker.Some? ==> marker.value in rows)
    requires IsPage(page, rows, sorts, limit, marker, false)
    ensures ServedFrom(rows, model, sorts, limit, marker, page)
  {
    var all := ListingExists(rows, model, sorts);
    var at := Locate(all, rows, sorts, marker);
    assert forall r | r in rows :: Carries(r, sorts);
    PageOfRest(all, limit, at);
    if at.None? {
      PrefixServes(all, rows, sorts, limit);
    } else {
      ListingAfter(all, rows, sorts, at.value);
      PrefixServes(all[at.value + 1..], Following(rows, sorts, all[at.value]), sorts, limit);
    }
  }

  // A request is served from the table by _get_collection.
  method Request(rows: set<Row>, model: Model, sorts: seq<Sort>, limit: nat, marker: Option<Row>)
    returns (page: seq<Row>)
    requires Table(rows, model) && Total(sorts, model) && (marker.Some? ==> marker.value in rows)
    ensures ServedFrom(rows, model, sorts, limit, marker, page)
  {
    page := GetPage(rows, model, sorts, limit, marker, false);
    PageIsServed(rows, model, sorts, limit, marker, page);
  }

  // ---- Walks ----

  // One entry per request: the table at that time, the marker row as read from it, the page.
  datatype Walk = Walk(tables: seq<set<Row>>, markers: seq<Option<Row>>, pages: seq<seq<Row>>)

  // The row of the table that has the key of the last row of the page before.
  ghost predicate Reread(rows: set<Row>, model: Model, before: seq<Row>, marker: Option<Row>) {
    && before != [] && marker.Some? && marker.value in rows
    && model.primaryKey in before[|before| - 1] && model.primaryKey in marker.value
    && marker.value[model.primaryKey] == before[|before| - 1][model.primaryKey]
  }

  // A full page is what keeps the walk going.
  ghost predicate Turn(w: Walk, model: Model, sorts: seq<Sort>, limit: nat, k: nat)
    requires k < |w.tables| == |w.markers| == |w.pages|
  {
    && (if k == 0 then w.markers[k] == None else Reread(w.tables[k], model, w.pages[k - 1], w.markers[k]))
    && ServedFrom(w.tables[k], model, sorts, limit, w.markers[k], w.pages[k])
    && (if k < |w.pages| - 1 then |w.pages[k]| == limit else |w.pages[k]| < limit)
  }

  ghost predicate IsWalk(w: Walk, model: Model, sorts: seq<Sort>, limit: nat) {
    && |w.tables| == |w.markers| == |w.pages| > 0 && limit > 0 && Total(sorts, model)
    && forall k | 0 <= k < |w.pages| :: Turn(w, model, sorts, limit, k)
  }

  // ---- What the moves of marker rows do to a row that stays ----

  // When the marker of request k was listed, the row was still to come; by the time of the
  // request the marker has moved past it.
  ghost predicate Overtakes(w: Walk, sorts: seq<Sort>, r: Row, k: nat)
    requires 0 < k < |w.pages| == |w.markers|
  {
    After(sorts, LastRow(w.pages[k - 1]), r) && !After(sorts, w.markers[k], r)
  }

  // The marker was listed with or after the row, and has moved back before it.
  ghost predicate FallsBehind(w: Walk, sorts: seq<Sort>, r: Row, k: nat)
    requires 0 < k < |w.pages| == |w.markers|
  {
    !After(sorts, LastRow(w.pages[k - 1]), r) && After(sorts, w.markers[k], r)
  }

  function Bit(b: bool): nat {
    if b then 1 else 0
  }

  // How many of the first n pages list the row.
  function Listings(w: Walk, sorts: seq<Sort>, r: Row, n: nat): nat
    requires n <= |w.pages|
  {
    if n == 0 then 0 else Listings(w, sorts, r, n - 1) + Bit(Lists(w.pages[n - 1], sorts, r))
  }

  // The row keeps its place: it may change otherwise, but it is in every table with these sort
  // values, the primary key among them.
  ghost predicate Stays(w: Walk, sorts: seq<Sort>, r: Row) {
    Carries(r, sorts) && forall k | 0 <= k < |w.tables| :: InTable(w.tables[k], sorts, r)
  }

  // How often a marker overtakes the row before request n.
  ghost function Skips(w: Walk, sorts: seq<Sort>, r: Row, n: nat): nat
    requires 0 < n <= |w.pages| == |w.markers|
  {
    if n == 1 then 0 else Skips(w, sorts, r, n - 1) + Bit(Overtakes(w, sorts, r, n - 1))
  }

  ghost function Repeats(w: Walk, sorts: seq<Sort>, r: Row, n: nat): nat
    requires 0 < n <= |w.pages| == |w.markers|
  {
    if n == 1 then 0 else Repeats(w, sorts, r, n - 1) + Bit(FallsBehind(w, sorts, r, n - 1))
  }

  // What the turn k does: the row is listed if it lies ahead of the marker and not beyond the page.
  lemma TurnSplits(w: Walk, model: Model, sorts: seq<Sort>, limit: nat, r: Row, k: nat)
    requires IsWalk(w, model, sorts, limit) && k < |w.pages| && Stays(w, sorts, r)
    ensures k == 0 ==> After(sorts, w.markers[k], r)
    ensures k < |w.pages| - 1 ==>
              Bit(Lists(w.pages[k], sorts, r)) + Bit(After(sorts, LastRow(w.pages[k]), r))
              == Bit(After(sorts, w.markers[k], r))
    ensures k == |w.pages| - 1 ==> Bit(Lists(w.pages[k], sorts, r)) == Bit(After(sorts, w.markers[k], r))
  {
    assert Turn(w, model, sorts, limit, k) && InTable(w.tables[k], sorts, r);
    var row :| row in w.tables[k] && SameValues(sorts, r, row);
    ListsItself(w.tables[k], model, sorts, limit, w.markers[k], w.pages[k], r, row);
    AfterSame(sorts, w.markers[k], r, row);
    if k < |w.pages| - 1 {
      AfterSame(sorts, LastRow(w.pages[k]), r, row);
      FullPageSplits(w.tables[k], model, sorts, limit, w.markers[k], w.pages[k], row);
    } else {
      ShortPageSplits(w.tables[k], model, sorts, limit, w.markers[k], w.pages[k], row);
    }
  }

  lemma AfterSame(sorts: seq<Sort>, marker: Option<Row>, r: Row, row: Row)
    requires SameValues(sorts, r, row)
    ensures After(sorts, marker, r) <==> After(sorts, marker, row)
  {
    if marker.Some? && Carries(marker.value, sorts) {
      CompareSameSecond(sorts, marker.value, r, row);
    }
  }

  // The only row of the table with r's sort values is the one of its key.
  lemma ListsItself(rows: set<Row>, model: Model, sorts: seq<Sort>, limit: nat, marker: Option<Row>, page: seq<Row>,
                    r: Row, row: Row)
    requires ServedFrom(rows, model, sorts, limit, marker, page) && Total(sorts, model)
    requires row in rows && SameValues(sorts, r, row)
    ensures Lists(page, sorts, r) <==> row in page
  {
    if other :| other in page && SameValues(sorts, r, other) {
      assert other in Wanted(rows, sorts, marker) && other in rows;
      var i :| 0 <= i < |sorts| && sorts[i].key == model.primaryKey;
      assert other[sorts[i].key] == row[sorts[i].key];
    }
  }

  lemma {:induction false} ListingsSoFar(w: Walk, model: Model, sorts: seq<Sort>, limit: nat, r: Row, n: nat)
    requires IsWalk(w, model, sorts, limit) && 0 < n <= |w.pages|
    requires Stays(w, sorts, r)
    ensures Listings(w, sorts, r, n) + Skips(w, sorts, r, n)
            + Bit(n < |w.pages| && After(sorts, LastRow(w.pages[n - 1]), r))
            == 1 + Repeats(w, sorts, r, n)
  {
    TurnSplits(w, model, sorts, limit, r, n - 1);
    if n == 1 {
      assert Listings(w, sorts, r, 1) == Listings(w, sorts, r, 0) + Bit(Lists(w.pages[0], sorts, r));
    } else {
      ListingsSoFar(w, model, sorts, limit, r, n - 1);
    }
  }

  // A row that is there all along with the same sort values is listed once, plus once for every time a marker
  // falls behind it and minus once for every time a marker overtakes it. Rows may come and go and
  // change as they like otherwise.
  lemma ListingsExactly(w: Walk, model: Model, sorts: seq<Sort>, limit: nat, r: Row)
    requires IsWalk(w, model, sorts, limit)
    requires Stays(w, sorts, r)
    ensures Listings(w, sorts, r, |w.pages|)
            == 1 + Repeats(w, sorts, r, |w.pages|) - Skips(w, sorts, r, |w.pages|)
  {
    ListingsSoFar(w, model, sorts, limit, r, |w.pages|);
  }

  // ---- Markers that keep their place ----

  // The marker row of request k still has the sort values it was listed with.
  ghost predicate KeepsPlace(w: Walk, sorts: seq<Sort>, k: nat)
    requires 0 < k < |w.pages| == |w.markers|
  {
    && w.markers[k].Some? && LastRow(w.pages[k - 1]).Some?
    && SameValues(sorts, LastRow(w.pages[k - 1]).value, w.markers[k].value)
  }

  ghost predicate MarkersKeepPlace(w: Walk, sorts: seq<Sort>)
    requires |w.pages| == |w.markers|
  {
    forall k | 0 < k < |w.pages| :: KeepsPlace(w, sorts, k)
  }

  lemma {:induction false} NoMoves(w: Walk, sorts: seq<Sort>, r: Row, n: nat)
    requires 0 < n <= |w.pages| == |w.markers| && MarkersKeepPlace(w, sorts) && Carries(r, sorts)
    ensures Skips(w, sorts, r, n) == 0 && Repeats(w, sorts, r, n) == 0
  {
    if n > 1 {
      NoMoves(w, sorts, r, n - 1);
      assert KeepsPlace(w, sorts, n - 1);
      CompareSame(sorts, LastRow(w.pages[n - 2]).value, w.markers[n - 1].value, r);
    }
  }

  lemma {:induction false} FindListing(w: Walk, sorts: seq<Sort>, r: Row, n: nat) returns (page: nat)
    requires n <= |w.pages| && Listings(w, sorts, r, n) == 1
    ensures page < n && Lists(w.pages[page], sorts, r)
    ensures forall k | 0 <= k < n && Lists(w.pages[k], sorts, r) :: k == page
  {
    if Lists(w.pages[n - 1], sorts, r) {
      NoListing(w, sorts, r, n - 1);
      return n - 1;
    }
    page := FindListing(w, sorts, r, n - 1);
  }

  lemma {:induction false} NoListing(w: Walk, sorts: seq<Sort>, r: Row, n: nat)
    requires n <= |w.pages| && Listings(w, sorts, r, n) == 0
    ensures forall k | 0 <= k < n :: !Lists(w.pages[k], sorts, r)
  {
    if n > 0 {
      NoListing(w, sorts, r, n - 1);
    }
  }

  // So when no marker row changes its sort values, whatever else happens, a row that stays is
  // listed on exactly one page.
  lemma StableRowListed(w: Walk, model: Model, sorts: seq<Sort>, limit: nat, r: Row) returns (page: nat)
    requires IsWalk(w, model, sorts, limit) && MarkersKeepPlace(w, sorts) && Stays(w, sorts, r)
    ensures page < |w.pages| && Lists(w.pages[page], sorts, r)
    ensures forall k | 0 <= k < |w.pages| && Lists(w.pages[k], sorts, r) :: k == page
  {
    ListingsExactly(w, model, sorts, limit, r);
    NoMoves(w, sorts, r, |w.pages|);
    page := FindListing(w, sorts, r, |w.pages|);
  }

  // ---- A row that is lost, and one that comes twice ----

  const STATUS := "status"
  const ID := "id"
  const BY_STATUS: seq<Sort> := [Sort(STATUS, true), Sort(ID, true)]
  const MEAS := Model({STATUS, ID}, ID)

  function Mea(status: int, id: int): Row {
    map[STATUS := status, ID := id]
  }

  lemma ByStatus(s: int, i: int, t: int, j: int)
    ensures Carries(Mea(s, i), BY_STATUS) && Carries(Mea(t, j), BY_STATUS) && Total(BY_STATUS, MEAS)
    ensures Compare(BY_STATUS, Mea(s, i), Mea(t, j)) == if s != t then Cmp(s, t) else Cmp(i, j)
  {
    var a, b := Mea(s, i), Mea(t, j);
    assert BY_STATUS[1].key == ID;
    var byId := [Sort(ID, true)];
    assert BY_STATUS[1..] == byId && byId[1..] == [];
    assert Compare(byId[1..], a, b) == 0;
    assert Compare(byId, a, b) == Cmp(i, j);
  }

  // The first MEA moves behind the second between the two requests: the second is there all
  // along and is on no page.
  lemma MovedMarkerSkips() returns (w: Walk)
    ensures IsWalk(w, MEAS, BY_STATUS, 1) && |w.pages| == 2
    ensures forall k | 0 <= k < 2 :: Mea(2, 2) in w.tables[k] && Mea(2, 2) !in w.pages[k]
  {
    var a, moved, r := Mea(1, 1), Mea(5, 1), Mea(2, 2);
    w := Walk([{a, r}, {moved, r}], [None, Some(moved)], [[a], []]);
    ByStatus(1, 1, 2, 2);
    ByStatus(5, 1, 2, 2);
    ByStatus(5, 1, 5, 1);
    assert Turn(w, MEAS, BY_STATUS, 1, 0);
    assert Turn(w, MEAS, BY_STATUS, 1, 1);
  }

  // The second MEA moves before the first: the first is listed on two pages.
  lemma MovedMarkerRepeats() returns (w: Walk)
    ensures IsWalk(w, MEAS, BY_STATUS, 2) && |w.pages| == 2
    ensures forall k | 0 <= k < 2 :: Mea(2, 2) in w.tables[k] && Mea(2, 2) in w.pages[k]
  {
    var r, a, moved := Mea(2, 2), Mea(5, 1), Mea(1, 1);
    w := Walk([{a, r}, {moved, r}], [None, Some(moved)], [[r, a], [r]]);
    ByStatus(2, 2, 5, 1);
    ByStatus(1, 1, 2, 2);
    ByStatus(1, 1, 1, 1);
    assert Turn(w, MEAS, BY_STATUS, 2, 0);
    assert Turn(w, MEAS, BY_STATUS, 2, 1);
  }
}
