// The helpers that sort and slice a collection in memory for plugins without native support
// (apmec/api/api_common.py), against the pages a database would serve.
module EmulatedPaging {
  import opened Wrappers
  import opened Keyset
  import opened Paging
  import opened PageWalk

  // cmp_func of SortingEmulatedHelper.
  method CmpFunc(sorts: seq<Sort>, a: Row, b: Row) returns (r: int)
    requires Carries(a, sorts) && Carries(b, sorts)
    ensures r == Compare(sorts, a, b)
  {
    var i := 0;
    assert sorts[0..] == sorts;
    while i < |sorts|
      invariant 0 <= i <= |sorts|
      invariant Compare(sorts[i..], a, b) == Compare(sorts, a, b)
    {
      var ret := Cmp(a[sorts[i].key], b[sorts[i].key]);
      assert sorts[i..][1..] == sorts[i + 1..];
      if ret != 0 {
        return ret * if sorts[i].ascending then 1 else -1;
      }
      i := i + 1;
    }
    return 0;
  }

  ghost predicate Precedes(items: seq<Row>, a: Row, b: Row) {
    exists p, q :: 0 <= p < q < |items| && items[p] == a && items[q] == b
  }

  // What sorted(items, cmp=cmp_func) returns: rows that compare equal stay in the order in
  // which the plugin listed them.
  ghost predicate SortedStably(items: seq<Row>, out: seq<Row>, sorts: seq<Sort>) {
    && multiset(out) == multiset(items)
    && CarryAll(out, sorts)
    && (forall i, j | 0 <= i < j < |out| :: Compare(sorts, out[i], out[j]) <= 0)
    && (forall i, j | 0 <= i < j < |out| && Compare(sorts, out[i], out[j]) == 0 :: Precedes(items, out[i], out[j]))
  }

  // The plugin lists the rows of the table, and these are sorted.
  ghost predicate Emulates(rows: set<Row>, model: Model, sorts: seq<Sort>, items: seq<Row>, out: seq<Row>) {
    && Table(rows, model) && Sortable(sorts, model)
    && multiset(items) == multiset(rows) && SortedStably(items, out, sorts)
  }

  lemma NoRepetition(out: seq<Row>, rows: set<Row>, i: nat, j: nat)
    requires multiset(out) == multiset(rows) && i < j < |out|
    ensures out[i] != out[j]
  {
    assert out == out[..j] + out[j..];
    assert out[i] in out[..j] && out[j] in out[j..];
    assert multiset(out)[out[j]] <= 1;
  }

  lemma SameRowsListed(rows: set<Row>, items: seq<Row>)
    requires multiset(items) == multiset(rows)
    ensures forall r :: r in items <==> r in rows
    ensures |items| == |rows|
  {
    assert forall r :: r in items <==> r in multiset(items);
    assert |items| == |multiset(items)| == |multiset(rows)| == |rows|;
  }

  // ---- What the database is asked for ----

  // PaginationNativeHelper.update_args: the primary key comes last if it is not there.
  function NativeSorts(sorts: seq<Sort>, model: Model): seq<Sort> {
    if Keyed(sorts, model.primaryKey) then sorts else sorts + [Sort(model.primaryKey, true)]
  }

  lemma NativeSortsTotal(sorts: seq<Sort>, model: Model)
    requires Sortable(sorts, model) && model.primaryKey in model.columns
    ensures Total(NativeSorts(sorts, model), model)
  {
    if !Keyed(sorts, model.primaryKey) {
      assert NativeSorts(sorts, model)[|sorts|].key == model.primaryKey;
    }
  }

  lemma {:induction false} CompareAppended(sorts: seq<Sort>, key: string, a: Row, b: Row)
    requires Carries(a, sorts) && Carries(b, sorts) && key in a && key in b
    ensures Carries(a, sorts + [Sort(key, true)]) && Carries(b, sorts + [Sort(key, true)])
    ensures Compare(sorts + [Sort(key, true)], a, b)
            == if Compare(sorts, a, b) != 0 then Compare(sorts, a, b) else Cmp(a[key], b[key])
  {
    var longer := sorts + [Sort(key, true)];
    if sorts == [] {
      assert longer == [Sort(key, true)] && longer[1..] == [];
    } else {
      CompareAppended(sorts[1..], key, a, b);
      assert longer[1..] == sorts[1..] + [Sort(key, true)];
    }
  }

  lemma NativeCompares(rows: set<Row>, model: Model, sorts: seq<Sort>, a: Row, b: Row)
    requires Table(rows, model) && Sortable(sorts, model) && a in rows && b in rows && a != b
    ensures var native := NativeSorts(sorts, model);
            && Carries(a, sorts) && Carries(b, sorts) && Carries(a, native) && Carries(b, native)
            && (Compare(native, a, b) < 0 <==>
                Compare(sorts, a, b) < 0 || (Compare(sorts, a, b) == 0 && a[model.primaryKey] < b[model.primaryKey]))
  {
    if Keyed(sorts, model.primaryKey) {
      DistinctDiffer(rows, model, sorts, a, b);
    } else {
      CompareAppended(sorts, model.primaryKey, a, b);
    }
  }

  // ---- When the two orders agree ----

  // Rows with equal sort keys are listed by the plugin in increasing order of the primary key.
  ghost predicate TiesByKey(items: seq<Row>, sorts: seq<Sort>, key: string) {
    forall p, q | 0 <= p < q < |items| :: InOrder(items[p], items[q], sorts, key)
  }

  ghost predicate InOrder(a: Row, b: Row, sorts: seq<Sort>, key: string) {
    && Carries(a, sorts) && Carries(b, sorts) && key in a && key in b
    && (Compare(sorts, a, b) == 0 ==> a[key] < b[key])
  }

  // Sorting in memory yields the database's order exactly then.
  lemma SortedIsListingExactly(rows: set<Row>, model: Model, sorts: seq<Sort>, items: seq<Row>, out: seq<Row>)
    requires Emulates(rows, model, sorts, items, out)
    ensures Listing(out, rows, NativeSorts(sorts, model)) <==> TiesByKey(items, sorts, model.primaryKey)
  {
    if TiesByKey(items, sorts, model.primaryKey) {
      TiesGiveListing(rows, model, sorts, items, out);
    }
    if Listing(out, rows, NativeSorts(sorts, model)) {
      forall p, q | 0 <= p < q < |items| ensures InOrder(items[p], items[q], sorts, model.primaryKey) {
        ListingGivesTies(rows, model, sorts, items, out, p, q);
      }
    }
  }

  lemma TiesGiveListing(rows: set<Row>, model: Model, sorts: seq<Sort>, items: seq<Row>, out: seq<Row>)
    requires Emulates(rows, model, sorts, items, out) && TiesByKey(items, sorts, model.primaryKey)
    ensures Listing(out, rows, NativeSorts(sorts, model))
  {
    var native := NativeSorts(sorts, model);
    SameRowsListed(rows, out);
    NativeSortsTotal(sorts, model);
    assert CarryAll(out, native);
    forall i, j | 0 <= i < j < |out| ensures Compare(native, out[i], out[j]) < 0 {
      NoRepetition(out, rows, i, j);
      NativeCompares(rows, model, sorts, out[i], out[j]);
      if Compare(sorts, out[i], out[j]) == 0 {
        var p, q :| 0 <= p < q < |items| && items[p] == out[i] && items[q] == out[j];
        assert InOrder(items[p], items[q], sorts, model.primaryKey);
      }
    }
  }

  lemma ListingGivesTies(rows: set<Row>, model: Model, sorts: seq<Sort>, items: seq<Row>, out: seq<Row>, p: nat, q: nat)
    requires Emulates(rows, model, sorts, items, out) && Listing(out, rows, NativeSorts(sorts, model))
    requires p < q < |items|
    ensures InOrder(items[p], items[q], sorts, model.primaryKey)
  {
    var a, b := items[p], items[q];
    NoRepetition(items, rows, p, q);
    SameRowsListed(rows, items);
    SameRowsListed(rows, out);
    NativeCompares(rows, model, sorts, a, b);
    if Compare(sorts, a, b) == 0 {
      var i :| 0 <= i < |out| && out[i] == a;
      var j :| 0 <= j < |out| && out[j] == b;
      if j < i {
        CompareFlip(sorts, a, b);
        assert Precedes(items, b, a);
        var q', p' :| 0 <= q' < p' < |items| && items[q'] == b && items[p'] == a;
        OnePlace(items, rows, p, p');
        OnePlace(items, rows, q, q');
      }
    }
  }

  lemma OnePlace(items: seq<Row>, rows: set<Row>, i: nat, j: nat)
    requires multiset(items) == multiset(rows) && i < |items| && j < |items| && items[i] == items[j]
    ensures i == j
  {
    if i < j {
      NoRepetition(items, rows, i, j);
    } else if j < i {
      NoRepetition(items, rows, j, i);
    }
  }

  // ---- PaginationEmulatedHelper.paginate ----

  // A Python slice: a negative bound counts from the end, and bounds are clipped.
  function Clip(i: int, n: nat): (r: nat)
    ensures r <= n
  {
    if i + n < 0 then 0 else if i < 0 then i + n else if i > n then n else i
  }

  function Slice(items: seq<Row>, from: int, to: int): seq<Row> {
    var lo, hi := Clip(from, |items|), Clip(to, |items|);
    if lo <= hi then items[lo..hi] else []
  }

  // Where the search for the marker stops: before the first item without a marker, on the
  // first item with the marker's key, else on the last item.
  ghost predicate StopsAt(items: seq<Row>, key: string, marker: Option<int>, at: int)
    requires forall r | r in items :: key in r
  {
    match marker
    case None => at == -1
    case Some(v) =>
      if exists r | r in items :: r[key] == v
      then 0 <= at < |items| && items[at][key] == v && forall j | 0 <= j < at :: items[j][key] != v
      else at == |items| - 1
  }

  method Paginate(items: seq<Row>, key: string, limit: nat, marker: Option<int>, reverse: bool)
    returns (page: seq<Row>)
    requires forall r | r in items :: key in r
    ensures limit == 0 ==> page == items
    ensures limit > 0 ==>
              exists at :: StopsAt(items, key, marker, at)
                && page == if reverse then Slice(items, at - limit, at) else Slice(items, at + 1, at + limit + 1)
  {
    if limit == 0 {
      return items;
    }
    var i := FindMarker(items, key, marker);
    if reverse {
      return Slice(items, i - limit, i);
    }
    return Slice(items, i + 1, i + limit + 1);
  }

  method FindMarker(items: seq<Row>, key: string, marker: Option<int>) returns (i: int)
    requires forall r | r in items :: key in r
    ensures StopsAt(items, key, marker, i)
  {
    i := -1;
    if marker.Some? {
      while i + 1 < |items|
        invariant -1 <= i < |items|
        invariant forall j | 0 <= j <= i :: items[j][key] != marker.value
      {
        i := i + 1;
        if items[i][key] == marker.value {
          break;
        }
      }
    }
  }

  lemma StopsAtMarker(all: seq<Row>, rows: set<Row>, model: Model, sorts: seq<Sort>, m: nat, at: int)
    requires Table(rows, model) && Listing(all, rows, sorts) && m < |all|
    requires forall r | r in all :: model.primaryKey in r
    requires StopsAt(all, model.primaryKey, Some(all[m][model.primaryKey]), at)
    ensures at == m
  {
    assert all[m] in all;
    assert all[at] == all[m];
    CompareZero(sorts, all[m], all[m]);
  }

  // Forward, the slice is the page the database serves.
  lemma ForwardSlice(all: seq<Row>, limit: nat, marker: Option<nat>)
    requires limit > 0 && (marker.Some? ==> marker.value < |all|)
    ensures var at: int := if marker.Some? then marker.value else -1;
            Slice(all, at + 1, at + limit + 1) == Page(all, limit, marker, false)
  {
  }

  // Backward, items[i - limit:i] has a negative start when fewer than limit rows precede the
  // marker, and then it counts from the wrong end. The page is right exactly if enough rows
  // precede, or none does, or the table is so short that the start is clipped to zero.
  lemma BackwardSliceExact(all: seq<Row>, limit: nat, m: nat)
    requires limit > 0 && m < |all|
    ensures Slice(all, m - limit, m) == Page(all, limit, Some(m), true) <==>
            limit <= m || m == 0 || |all| + m <= limit
  {
    if m < limit && m > 0 && |all| + m > limit {
      assert |Slice(all, m - limit, m)| < m == |Page(all, limit, Some(m), true)|;
    }
  }

  // ---- Forward pages ----

  function KeyOf(marker: Option<Row>, model: Model): Option<int>
    requires marker.Some? ==> model.primaryKey in marker.value
  {
    if marker.Some? then Some(marker.value[model.primaryKey]) else None
  }

  // With this marker the slice is the page the database serves.
  ghost predicate AgreesForward(rows: set<Row>, model: Model, sorts: seq<Sort>, out: seq<Row>, limit: nat,
                                marker: Option<Row>)
    requires (forall r | r in out :: model.primaryKey in r) && (marker.Some? ==> model.primaryKey in marker.value)
  {
    forall at, native | StopsAt(out, model.primaryKey, KeyOf(marker, model), at)
                        && IsPage(native, rows, NativeSorts(sorts, model), limit, marker, false) ::
      Slice(out, at + 1, at + limit + 1) == native
  }

  ghost predicate AllAgreeForward(rows: set<Row>, model: Model, sorts: seq<Sort>, out: seq<Row>, limit: nat)
    requires Table(rows, model) && forall r | r in out :: model.primaryKey in r
  {
    && AgreesForward(rows, model, sorts, out, limit, None)
    && forall m | m in rows :: AgreesForward(rows, model, sorts, out, limit, Some(m))
  }

  // Sorting and slicing in memory serves all the forward pages of the database exactly when the
  // plugin lists rows with equal sort keys in increasing order of the primary key.
  lemma EmulatedForwardExactly(rows: set<Row>, model: Model, sorts: seq<Sort>, items: seq<Row>, out: seq<Row>,
                               limit: nat)
    requires Emulates(rows, model, sorts, items, out) && limit > 0
    ensures forall r | r in out :: model.primaryKey in r
    ensures AllAgreeForward(rows, model, sorts, out, limit) <==> TiesByKey(items, sorts, model.primaryKey)
  {
    SameRowsListed(rows, out);
    SortedIsListingExactly(rows, model, sorts, items, out);
    if Listing(out, rows, NativeSorts(sorts, model)) {
      ListingAgrees(rows, model, sorts, out, limit, None);
      forall m | m in rows ensures AgreesForward(rows, model, sorts, out, limit, Some(m)) {
        ListingAgrees(rows, model, sorts, out, limit, Some(m));
      }
    }
    if AllAgreeForward(rows, model, sorts, out, limit) {
      NativeSortsTotal(sorts, model);
      var all := ListingExists(rows, model, NativeSorts(sorts, model));
      AgreeingPrefix(rows, model, sorts, out, limit, all, |all|);
      assert out[..|all|] == out && all[..|all|] == all;
    }
  }

  lemma ListingAgrees(rows: set<Row>, model: Model, sorts: seq<Sort>, out: seq<Row>, limit: nat, marker: Option<Row>)
    requires Table(rows, model) && limit > 0 && Listing(out, rows, NativeSorts(sorts, model))
    requires (forall r | r in out :: model.primaryKey in r) && (marker.Some? ==> marker.value in rows)
    ensures AgreesForward(rows, model, sorts, out, limit, marker)
  {
    var orders := NativeSorts(sorts, model);
    forall at, native | StopsAt(out, model.primaryKey, KeyOf(marker, model), at)
                        && IsPage(native, rows, orders, limit, marker, false)
      ensures Slice(out, at + 1, at + limit + 1) == native
    {
      SliceAgrees(rows, model, orders, out, limit, marker, at, native);
    }
  }

  lemma SliceAgrees(rows: set<Row>, model: Model, orders: seq<Sort>, out: seq<Row>, limit: nat, marker: Option<Row>,
                    at: int, native: seq<Row>)
    requires Table(rows, model) && limit > 0 && Listing(out, rows, orders)
    requires (forall r | r in out :: model.primaryKey in r) && (marker.Some? ==> marker.value in rows)
    requires StopsAt(out, model.primaryKey, KeyOf(marker, model), at)
    requires IsPage(native, rows, orders, limit, marker, false)
    ensures Slice(out, at + 1, at + limit + 1) == native
  {
    if marker.None? {
      ForwardSlice(out, limit, None);
      PageIs(native, out, rows, orders, limit, None, false, None);
    } else {
      StopsAtRow(out, rows, model, orders, marker.value, at);
      ForwardSlice(out, limit, Some(at));
      PageIs(native, out, rows, orders, limit, marker, false, Some(at));
    }
  }

  // When all forward pages agree, each row is followed by the same row in both orders.
  lemma {:induction false} AgreeingPrefix(rows: set<Row>, model: Model, sorts: seq<Sort>, out: seq<Row>, limit: nat,
                                          all: seq<Row>, k: nat)
    requires Table(rows, model) && limit > 0 && multiset(out) == multiset(rows)
    requires (forall r | r in out :: model.primaryKey in r) && AllAgreeForward(rows, model, sorts, out, limit)
    requires Listing(all, rows, NativeSorts(sorts, model)) && k <= |all| == |rows|
    ensures |out| == |all| && out[..k] == all[..k]
  {
    SameRowsListed(rows, out);
    if k > 0 {
      AgreeingPrefix(rows, model, sorts, out, limit, all, k - 1);
      NextAgrees(rows, model, sorts, out, limit, all, k - 1);
      PrefixGrows(out, all, k - 1);
    }
  }

  lemma PrefixGrows<T>(a: seq<T>, b: seq<T>, k: nat)
    requires k < |a| && k < |b| && a[..k] == b[..k] && a[k] == b[k]
    ensures a[..k + 1] == b[..k + 1]
  {
    assert a[..k + 1] == a[..k] + [a[k]] && b[..k + 1] == b[..k] + [b[k]];
  }

  lemma NextAgrees(rows: set<Row>, model: Model, sorts: seq<Sort>, out: seq<Row>, limit: nat, all: seq<Row>, k: nat)
    requires Table(rows, model) && limit > 0 && multiset(out) == multiset(rows) && |out| == |all|
    requires (forall r | r in out :: model.primaryKey in r) && AllAgreeForward(rows, model, sorts, out, limit)
    requires Listing(all, rows, NativeSorts(sorts, model)) && k < |all| && out[..k] == all[..k]
    ensures out[k] == all[k]
  {
    var marker := LastRow(out[..k]);
    SameRowsListed(rows, out);
    PrefixMarker(all, out, k);
    assert AgreesForward(rows, model, sorts, out, limit, marker);
    StopsThere(rows, model, out, k);
    PageOfListing(all, rows, NativeSorts(sorts, model), limit, marker, LastOf(k), false);
    FirstOfPage(all, out, limit, k);
  }

  lemma PrefixMarker(all: seq<Row>, out: seq<Row>, k: nat)
    requires k <= |all| && k <= |out| && out[..k] == all[..k]
    ensures MarkerAt(all, LastRow(out[..k]), LastOf(k))
    ensures LastRow(out[..k]).Some? ==> LastRow(out[..k]).value in out
  {
    assert k > 0 ==> all[k - 1] == all[..k][k - 1] == out[..k][k - 1] == out[k - 1];
  }

  lemma FirstOfPage(all: seq<Row>, out: seq<Row>, limit: nat, k: nat)
    requires k < |all| == |out| && limit > 0 && Slice(out, k, k + limit) == Page(all, limit, LastOf(k), false)
    ensures out[k] == all[k]
  {
    assert Slice(out, k, k + limit)[0] == out[k] && Page(all, limit, LastOf(k), false)[0] == all[k];
  }

  // The search for the last of the first `done` rows stops there.
  lemma StopsThere(rows: set<Row>, model: Model, out: seq<Row>, done: nat)
    requires Table(rows, model) && multiset(out) == multiset(rows) && done <= |out|
    requires forall r | r in out :: model.primaryKey in r
    ensures StopsAt(out, model.primaryKey, KeyOf(LastRow(out[..done]), model), done - 1)
  {
    SameRowsListed(rows, out);
    if done > 0 {
      forall j | 0 <= j < done - 1 ensures out[j][model.primaryKey] != out[done - 1][model.primaryKey] {
        NoRepetition(out, rows, j, done - 1);
      }
    }
  }

  lemma ListingUnique(all: seq<Row>, all': seq<Row>, rows: set<Row>, sorts: seq<Sort>)
    requires Listing(all, rows, sorts) && Listing(all', rows, sorts)
    ensures all == all'
  {
    ListingDistinct(all, rows, sorts);
    assert forall r | r in rows :: r in all && Carries(r, sorts);
    ServedIsPrefix(rows, sorts, 0, all, all');
    assert all'[..|all'|] == all';
  }

  lemma PageOfListing(all: seq<Row>, rows: set<Row>, sorts: seq<Sort>, limit: nat, marker: Option<Row>, at: Option<nat>,
                      reverse: bool)
    requires Listing(all, rows, sorts) && MarkerAt(all, marker, at)
    ensures IsPage(Page(all, limit, at, reverse), rows, sorts, limit, marker, reverse)
  {
    forall all', at': Option<nat> | Listing(all', rows, sorts) && MarkerAt(all', marker, at')
      ensures Page(all, limit, at, reverse) == Page(all', limit, at', reverse)
    {
      ListingUnique(all, all', rows, sorts);
      ListingDistinct(all, rows, sorts);
    }
  }

  lemma PageIs(native: seq<Row>, all: seq<Row>, rows: set<Row>, sorts: seq<Sort>, limit: nat, marker: Option<Row>,
               reverse: bool, at: Option<nat>)
    requires IsPage(native, rows, sorts, limit, marker, reverse)
    requires Listing(all, rows, sorts) && MarkerAt(all, marker, at)
    ensures native == Page(all, limit, at, reverse)
  {
  }

  lemma StopsAtRow(all: seq<Row>, rows: set<Row>, model: Model, sorts: seq<Sort>, marker: Row, at: int)
    requires Table(rows, model) && Listing(all, rows, sorts) && marker in rows
    requires forall r | r in all :: model.primaryKey in r
    requires StopsAt(all, model.primaryKey, Some(marker[model.primaryKey]), at)
    ensures 0 <= at < |all| && all[at] == marker
  {
    assert marker in all;
    var m :| 0 <= m < |all| && all[m] == marker;
    StopsAtMarker(all, rows, model, sorts, m, at);
  }

  // ---- Backward pages ----

  // A backward page agrees with the database exactly under the condition on the marker's place.
  lemma EmulatedBackwardExact(rows: set<Row>, model: Model, sorts: seq<Sort>, items: seq<Row>, out: seq<Row>,
                              limit: nat, marker: Row, at: int, native: seq<Row>)
    requires Emulates(rows, model, sorts, items, out) && TiesByKey(items, sorts, model.primaryKey)
    requires limit > 0 && marker in rows && forall r | r in out :: model.primaryKey in r
    requires StopsAt(out, model.primaryKey, Some(marker[model.primaryKey]), at)
    requires IsPage(native, rows, NativeSorts(sorts, model), limit, Some(marker), true)
    ensures Slice(out, at - limit, at) == native <==> limit <= at || at == 0 || |rows| + at <= limit
  {
    SortedIsListingExactly(rows, model, sorts, items, out);
    StopsAtRow(out, rows, model, NativeSorts(sorts, model), marker, at);
    BackwardSliceExact(out, limit, at);
    PageIs(native, out, rows, NativeSorts(sorts, model), limit, Some(marker), true, Some(at));
    SameRowsListed(rows, out);
  }

  // The last page asked for backwards without a marker: the slice then ends one row early, and
  // is right only for an empty table.
  lemma EmulatedLastPageExact(rows: set<Row>, model: Model, sorts: seq<Sort>, items: seq<Row>, out: seq<Row>,
                              limit: nat, native: seq<Row>)
    requires Emulates(rows, model, sorts, items, out) && TiesByKey(items, sorts, model.primaryKey) && limit > 0
    requires IsPage(native, rows, NativeSorts(sorts, model), limit, None, true)
    ensures Slice(out, -1 - limit, -1) == native <==> rows == {}
  {
    SortedIsListingExactly(rows, model, sorts, items, out);
    SameRowsListed(rows, out);
    ListedLastPageExact(rows, NativeSorts(sorts, model), out, limit, native);
  }

  lemma ListedLastPageExact(rows: set<Row>, orders: seq<Sort>, out: seq<Row>, limit: nat, native: seq<Row>)
    requires Listing(out, rows, orders) && |out| == |rows| && limit > 0
    requires IsPage(native, rows, orders, limit, None, true)
    ensures Slice(out, -1 - limit, -1) == native <==> rows == {}
  {
    PageIs(native, out, rows, orders, limit, None, true, None);
    if out != [] {
      LastSliceDiffers(out, rows, orders, limit);
    }
  }

  lemma LastSliceDiffers(all: seq<Row>, rows: set<Row>, sorts: seq<Sort>, limit: nat)
    requires Listing(all, rows, sorts) && all != [] && limit > 0
    ensures Slice(all, -1 - limit, -1) != Page(all, limit, None, true)
  {
    var n := |all|;
    var slice, page := Slice(all, -1 - limit, -1), Page(all, limit, None, true);
    assert page[|page| - 1] == all[n - 1];
    if |slice| == |page| {
      assert slice[|slice| - 1] == all[n - 2];
      assert Compare(sorts, all[n - 2], all[n - 1]) < 0;
      CompareZero(sorts, all[n - 1], all[n - 1]);
    }
  }
}
