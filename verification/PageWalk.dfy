// What a client sees who follows the links of a paginated collection.
module PageWalk {
  import opened Wrappers
  import opened Keyset
  import opened Paging

  lemma {:induction false} LeastExists(rows: set<Row>, sorts: seq<Sort>) returns (least: Row)
    requires rows != {} && forall r | r in rows :: Carries(r, sorts)
    ensures Least(least, rows, sorts)
    decreases |rows|
  {
    var r :| r in rows;
    CompareZero(sorts, r, r);
    if rows == {r} {
      return r;
    }
    var rest := rows - {r};
    assert rest != {};
    var s := LeastExists(rest, sorts);
    if Compare(sorts, s, r) <= 0 {
      return s;
    }
    CompareFlip(sorts, s, r);
    forall o | o in rows ensures Compare(sorts, r, o) <= 0 {
      if o != r {
        CompareTransitive(sorts, r, s, o);
      }
    }
    return r;
  }

  // Every table has its fully sorted listing.
  lemma {:induction false} ListingExists(rows: set<Row>, model: Model, sorts: seq<Sort>) returns (all: seq<Row>)
    requires Table(rows, model) && Total(sorts, model)
    ensures Listing(all, rows, sorts) && |all| == |rows|
    decreases |rows|
  {
    if rows == {} {
      return [];
    }
    var first := LeastExists(rows, sorts);
    var rest := rows - {first};
    var tail := ListingExists(rest, model, sorts);
    forall r | r in tail ensures Compare(sorts, first, r) < 0 {
      assert r in rest;
      DistinctDiffer(rows, model, sorts, first, r);
    }
    all := [first] + tail;
    forall r ensures r in all <==> r in rows {
      assert r in all <==> r == first || r in tail;
      assert r in tail <==> r in rest;
    }
  }

  lemma ListingDistinct(all: seq<Row>, rows: set<Row>, sorts: seq<Sort>)
    requires Listing(all, rows, sorts)
    ensures forall i, j | 0 <= i < j < |all| :: all[i] != all[j]
  {
    forall i, j | 0 <= i < j < |all| ensures all[i] != all[j] {
      assert Compare(sorts, all[i], all[j]) < 0;
      CompareZero(sorts, all[i], all[i]);
    }
  }

  // ---- The links of a page (get_pagination_links) ----

  predicate HasNext(size: nat, limit: nat, reverse: bool) {
    !(size < limit && !reverse)
  }

  predicate HasPrevious(size: nat, limit: nat, reverse: bool) {
    !(size < limit && reverse)
  }

  // The next link carries the last row of the page as marker, the previous one the first row;
  // an empty page has no marker to give.
  function NextMarker(range: (nat, nat)): Option<nat> {
    if range.0 < range.1 then Some(range.1 - 1) else None
  }

  function PreviousMarker(range: (nat, nat)): Option<nat> {
    if range.0 < range.1 then Some(range.0) else None
  }

  // From any page that offers the link, next and then previous lead back to the same stretch
  // of the table, and so do previous and then next.
  lemma LinksAreInverse(n: nat, limit: nat, marker: Option<nat>, reverse: bool)
    requires limit > 0 && (marker.Some? ==> marker.value < n)
    ensures var here := Range(n, limit, marker, reverse);
            HasNext(here.1 - here.0, limit, reverse) ==>
              var next := Range(n, limit, NextMarker(here), false);
              SameRows(Range(n, limit, PreviousMarker(next), true), here)
    ensures var here := Range(n, limit, marker, reverse);
            HasPrevious(here.1 - here.0, limit, reverse) ==>
              var previous := Range(n, limit, PreviousMarker(here), true);
              SameRows(Range(n, limit, NextMarker(previous), false), here)
  {
  }

  predicate SameRows(a: (nat, nat), b: (nat, nat)) {
    a == b || (a.0 == a.1 && b.0 == b.1)
  }

  function LastRow(items: seq<Row>): Option<Row> {
    if items == [] then None else Some(items[|items| - 1])
  }

  function FirstRow(items: seq<Row>): Option<Row> {
    if items == [] then None else Some(items[0])
  }

  // The markers in a page's links are the rows at its two ends.
  lemma EdgeMarkers(all: seq<Row>, limit: nat, at: Option<nat>, reverse: bool)
    requires at.Some? ==> at.value < |all|
    ensures var range := Range(|all|, limit, at, reverse);
            var items := Page(all, limit, at, reverse);
            && |items| == range.1 - range.0
            && MarkerAt(all, LastRow(items), NextMarker(range))
            && MarkerAt(all, FirstRow(items), PreviousMarker(range))
  {
  }

  // The next link and then the previous one.
  function ThereAndBack(all: seq<Row>, limit: nat, at: Option<nat>, reverse: bool): seq<Row>
    requires at.Some? ==> at.value < |all|
  {
    Page(all, limit, PreviousMarker(Range(|all|, limit, NextMarker(Range(|all|, limit, at, reverse)), false)), true)
  }

  function BackAndThere(all: seq<Row>, limit: nat, at: Option<nat>, reverse: bool): seq<Row>
    requires at.Some? ==> at.value < |all|
  {
    Page(all, limit, NextMarker(Range(|all|, limit, PreviousMarker(Range(|all|, limit, at, reverse)), true)), false)
  }

  lemma ReturnsHere(all: seq<Row>, limit: nat, at: Option<nat>, reverse: bool)
    requires limit > 0 && (at.Some? ==> at.value < |all|)
    ensures var here := Page(all, limit, at, reverse);
            && (HasNext(|here|, limit, reverse) ==> ThereAndBack(all, limit, at, reverse) == here)
            && (HasPrevious(|here|, limit, reverse) ==> BackAndThere(all, limit, at, reverse) == here)
  {
    LinksAreInverse(|all|, limit, at, reverse);
    EdgeMarkers(all, limit, at, reverse);
  }

  // On any page of any table, a client who follows next and then previous is served the rows of
  // the page it started from. The link is there on every page reached backwards, and otherwise
  // exactly on full ones.
  method NextAndPrevious(rows: set<Row>, model: Model, sorts: seq<Sort>, limit: nat, marker: Option<Row>, reverse: bool)
    returns (here: seq<Row>, back: seq<Row>)
    requires Table(rows, model) && Total(sorts, model) && limit > 0 && (marker.Some? ==> marker.value in rows)
    ensures IsPage(here, rows, sorts, limit, marker, reverse)
    ensures HasNext(|here|, limit, reverse) <==> reverse || |here| == limit
    ensures HasNext(|here|, limit, reverse) ==> back == here
  {
    ghost var all := ListingExists(rows, model, sorts);
    ghost var at := Locate(all, rows, sorts, marker);
    here := GetPage(rows, model, sorts, limit, marker, reverse);
    assert here == Page(all, limit, at, reverse);
    ghost var n := NextMarker(Range(|all|, limit, at, reverse));
    EdgeMarkers(all, limit, at, reverse);
    var next := ServePage(rows, model, sorts, limit, LastRow(here), false, all, n);
    EdgeMarkers(all, limit, n, false);
    back := ServePage(rows, model, sorts, limit, FirstRow(next), true, all,
                      PreviousMarker(Range(|all|, limit, n, false)));
    ReturnsHere(all, limit, at, reverse);
  }

  // The same for previous and then next, with the directions exchanged.
  method PreviousAndNext(rows: set<Row>, model: Model, sorts: seq<Sort>, limit: nat, marker: Option<Row>, reverse: bool)
    returns (here: seq<Row>, forth: seq<Row>)
    requires Table(rows, model) && Total(sorts, model) && limit > 0 && (marker.Some? ==> marker.value in rows)
    ensures IsPage(here, rows, sorts, limit, marker, reverse)
    ensures HasPrevious(|here|, limit, reverse) <==> !reverse || |here| == limit
    ensures HasPrevious(|here|, limit, reverse) ==> forth == here
  {
    ghost var all := ListingExists(rows, model, sorts);
    ghost var at := Locate(all, rows, sorts, marker);
    here := GetPage(rows, model, sorts, limit, marker, reverse);
    assert here == Page(all, limit, at, reverse);
    ghost var p := PreviousMarker(Range(|all|, limit, at, reverse));
    EdgeMarkers(all, limit, at, reverse);
    var previous := ServePage(rows, model, sorts, limit, FirstRow(here), true, all, p);
    EdgeMarkers(all, limit, p, true);
    forth := ServePage(rows, model, sorts, limit, LastRow(previous), false, all,
                       NextMarker(Range(|all|, limit, p, true)));
    ReturnsHere(all, limit, at, reverse);
  }

  lemma Locate(all: seq<Row>, rows: set<Row>, sorts: seq<Sort>, marker: Option<Row>) returns (at: Option<nat>)
    requires Listing(all, rows, sorts) && (marker.Some? ==> marker.value in rows)
    ensures MarkerAt(all, marker, at)
  {
    if marker.None? {
      return None;
    }
    assert marker.value in all;
    var i :| 0 <= i < |all| && all[i] == marker.value;
    return Some(i);
  }

  method GetPage(rows: set<Row>, model: Model, sorts: seq<Sort>, limit: nat, marker: Option<Row>, reverse: bool)
    returns (items: seq<Row>)
    requires Table(rows, model) && Total(sorts, model) && (marker.Some? ==> marker.value in rows)
    ensures IsPage(items, rows, sorts, limit, marker, reverse)
  {
    var r := GetCollection(rows, model, sorts, limit, marker, reverse);
    return r.value;
  }

  method ServePage(rows: set<Row>, model: Model, sorts: seq<Sort>, limit: nat, marker: Option<Row>, reverse: bool,
                   ghost all: seq<Row>, ghost at: Option<nat>) returns (items: seq<Row>)
    requires Table(rows, model) && Total(sorts, model) && Listing(all, rows, sorts) && MarkerAt(all, marker, at)
    ensures items == Page(all, limit, at, reverse)
  {
    if marker.Some? {
      assert marker.value in all;
    }
    var r := GetCollection(rows, model, sorts, limit, marker, reverse);
    return r.value;
  }

  // ---- Walking a table that does not change ----

  function Concat(pages: seq<seq<Row>>): seq<Row> {
    if pages == [] then [] else Concat(pages[..|pages| - 1]) + pages[|pages| - 1]
  }

  // Where the last of the first `done` rows stands.
  function LastOf(done: nat): Option<nat> {
    if done == 0 then None else Some(done - 1)
  }

  method WalkTurn(rows: set<Row>, model: Model, sorts: seq<Sort>, limit: nat, marker: Option<Row>, ghost all: seq<Row>,
                  ghost pages: seq<seq<Row>>, ghost done: nat)
    returns (items: seq<Row>)
    requires Table(rows, model) && Total(sorts, model) && limit > 0 && Listing(all, rows, sorts)
    requires Walking(all, pages, limit, done, marker, true)
    ensures var more := HasNext(|items|, limit, false);
            Walking(all, pages + [items], limit, done + limit, if more then LastRow(items) else None, more)
  {
    items := ServePage(rows, model, sorts, limit, marker, false, all, LastOf(done));
    WalkOn(all, pages, limit, done, items);
  }

  // Following the next links from the first page lists the whole table in order, every row
  // once, in |rows| / limit + 1 pages.
  method WalkForward(rows: set<Row>, model: Model, sorts: seq<Sort>, limit: nat) returns (pages: seq<seq<Row>>)
    requires Table(rows, model) && Total(sorts, model) && limit > 0
    ensures Listing(Concat(pages), rows, sorts)
    ensures |pages| == |rows| / limit + 1
  {
    ghost var all := ListingExists(rows, model, sorts);
    pages := [];
    var marker: Option<Row> := None;
    var more := true;
    ghost var done: nat := 0;
    while more
      invariant done == Counted(|pages|, limit) && Walking(all, pages, limit, done, marker, more)
      decreases |all| + limit - done, more
    {
      var items := WalkTurn(rows, model, sorts, limit, marker, all, pages, done);
      pages := pages + [items];
      done := done + limit;
      more := HasNext(|items|, limit, false);
      marker := if more then LastRow(items) else None;
    }
    CountedIsProduct(|pages|, limit);
    PageCount(|all|, limit, |pages|);
  }

  // A page taken after the first `done` rows continues them.
  lemma PageExtends(all: seq<Row>, limit: nat, done: nat)
    requires limit > 0 && done <= |all|
    ensures var items := Page(all, limit, LastOf(done), false);
            && |items| == Min(limit, |all| - done)
            && all[..done] + items == all[..done + |items|]
            && (items != [] ==> items[|items| - 1] == all[done + |items| - 1])
  {
  }

  // The pages are the first `done` rows and the marker is the last of them; at the end they are
  // all rows.
  ghost predicate Walking(all: seq<Row>, pages: seq<seq<Row>>, limit: nat, done: nat, marker: Option<Row>, more: bool) {
    if more then done <= |all| && Concat(pages) == all[..done] && MarkerAt(all, marker, LastOf(done))
    else Concat(pages) == all && |all| < done <= |all| + limit
  }

  lemma WalkOn(all: seq<Row>, pages: seq<seq<Row>>, limit: nat, done: nat, items: seq<Row>)
    requires limit > 0 && done <= |all| && Concat(pages) == all[..done]
    requires items == Page(all, limit, LastOf(done), false)
    ensures var more := HasNext(|items|, limit, false);
            Walking(all, pages + [items], limit, done + limit, if more then LastRow(items) else None, more)
  {
    ConcatOne(pages, items);
    PageExtends(all, limit, done);
    assert all[..|all|] == all;
  }

  // The rows on that many full pages.
  ghost function Counted(pages: nat, limit: nat): nat {
    if pages == 0 then 0 else Counted(pages - 1, limit) + limit
  }

  lemma {:induction false} CountedIsProduct(pages: nat, limit: nat)
    ensures Counted(pages, limit) == pages * limit
  {
    if pages > 0 {
      CountedIsProduct(pages - 1, limit);
    }
  }

  lemma ConcatOne(pages: seq<seq<Row>>, items: seq<Row>)
    ensures Concat(pages + [items]) == Concat(pages) + items
  {
    assert (pages + [items])[..|pages|] == pages;
  }

  lemma PageCount(n: nat, limit: nat, pages: nat)
    requires limit > 0 && n < pages * limit <= n + limit
    ensures pages == n / limit + 1
  {
    var q := n / limit;
    assert q * limit <= n < q * limit + limit;
    assert pages < q + 1 ==> pages * limit <= q * limit;
    assert pages > q + 1 ==> pages * limit >= (q + 2) * limit == q * limit + limit + limit;
  }
}
