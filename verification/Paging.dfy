// Pages of a collection: what the database serves (apmec/db/db_base.py), what the emulating
// helpers serve, and what following the links amounts to (apmec/api/api_common.py).
module Paging {
  import opened Wrappers
  import opened Keyset

  // The live rows a caller sees: they have every column and distinct primary keys.
  ghost predicate Table(rows: set<Row>, model: Model) {
    && model.primaryKey in model.columns
    && (forall r | r in rows :: r.Keys == model.columns)
    && (forall a, b | a in rows && b in rows && a[model.primaryKey] == b[model.primaryKey] :: a == b)
  }

  // The sort names columns only and fixes the order of any two rows.
  ghost predicate Total(sorts: seq<Sort>, model: Model) {
    Keyed(sorts, model.primaryKey) && Sortable(sorts, model)
  }

  predicate CarryAll(rows: seq<Row>, sorts: seq<Sort>) {
    forall r | r in rows :: Carries(r, sorts)
  }

  // The whole table, fully sorted.
  ghost predicate Listing(all: seq<Row>, rows: set<Row>, sorts: seq<Sort>) {
    && (forall r :: r in all <==> r in rows)
    && CarryAll(all, sorts)
    && (forall i, j | 0 <= i < j < |all| :: Compare(sorts, all[i], all[j]) < 0)
  }

  lemma DistinctDiffer(rows: set<Row>, model: Model, sorts: seq<Sort>, a: Row, b: Row)
    requires Table(rows, model) && Total(sorts, model) && a in rows && b in rows && a != b
    ensures Carries(a, sorts) && Carries(b, sorts) && Compare(sorts, a, b) != 0
  {
    CompareZero(sorts, a, b);
  }

  // ---- What SQL promises of ORDER BY with LIMIT ----

  predicate Within(limit: nat, n: nat) {
    limit == 0 || n <= limit
  }

  // `out` is a page of the wanted rows: sorted, without repetition, as many as the limit
  // allows, none of them after a wanted row that is left out.
  ghost predicate Serves(wanted: set<Row>, order: seq<Sort>, limit: nat, out: seq<Row>) {
    && (forall r | r in wanted :: Carries(r, order))
    && (forall r | r in out :: r in wanted)
    && (forall i, j | 0 <= i < j < |out| :: out[i] != out[j] && Compare(order, out[i], out[j]) <= 0)
    && Within(limit, |out|)
    && (|out| < limit || limit == 0 ==> forall r | r in wanted :: r in out)
    && (forall r, i | r in wanted && r !in out && 0 <= i < |out| :: Compare(order, out[i], r) <= 0)
  }

  ghost predicate Least(r: Row, rest: set<Row>, order: seq<Sort>)
    requires forall r | r in rest :: Carries(r, order)
  {
    r in rest && forall o | o in rest :: Compare(order, r, o) <= 0
  }

  method FindLeast(rest: set<Row>, order: seq<Sort>) returns (least: Row)
    requires rest != {} && forall r | r in rest :: Carries(r, order)
    ensures Least(least, rest, order)
  {
    least :| least in rest;
    var todo := rest - {least};
    CompareZero(order, least, least);
    while todo != {}
      invariant todo <= rest && least in rest
      invariant forall o | o in rest && o !in todo :: Compare(order, least, o) <= 0
    {
      var r :| r in todo;
      CompareFlip(order, least, r);
      if Compare(order, r, least) < 0 {
        forall o | o in rest && o !in todo ensures Compare(order, r, o) <= 0 {
          CompareTransitive(order, r, least, o);
        }
        least := r;
        CompareZero(order, r, r);
      }
      todo := todo - {r};
    }
  }

  // The rows served so far, and those that are left.
  ghost predicate ServedSoFar(wanted: set<Row>, order: seq<Sort>, out: seq<Row>, rest: set<Row>) {
    && (forall r | r in wanted :: Carries(r, order))
    && rest <= wanted && (forall r | r in wanted :: r in rest <==> r !in out)
    && (forall r | r in out :: r in wanted)
    && (forall i, j | 0 <= i < j < |out| :: out[i] != out[j] && Compare(order, out[i], out[j]) <= 0)
    && (forall r, i | r in rest && 0 <= i < |out| :: Compare(order, out[i], r) <= 0)
  }

  lemma ServeOne(wanted: set<Row>, order: seq<Sort>, out: seq<Row>, rest: set<Row>, r: Row)
    requires ServedSoFar(wanted, order, out, rest) && Least(r, rest, order)
    ensures ServedSoFar(wanted, order, out + [r], rest - {r})
  {
  }

  // A database that keeps the promise.
  method Execute(wanted: set<Row>, order: seq<Sort>, limit: nat) returns (out: seq<Row>)
    requires forall r | r in wanted :: Carries(r, order)
    ensures Serves(wanted, order, limit, out)
  {
    out := [];
    var rest := wanted;
    while rest != {} && (limit == 0 || |out| < limit)
      invariant Within(limit, |out|) && ServedSoFar(wanted, order, out, rest)
      decreases |rest|
    {
      var r := FindLeast(rest, order);
      ServeOne(wanted, order, out, rest, r);
      out := out + [r];
      rest := rest - {r};
    }
  }

  // A page of a fully sorted table is its first rows.
  lemma {:induction false} ServedPrefix(wanted: set<Row>, order: seq<Sort>, limit: nat, out: seq<Row>, all: seq<Row>,
                                        k: nat)
    requires Serves(wanted, order, limit, out) && Listing(all, wanted, order) && k <= |out|
    ensures k <= |all| && out[..k] == all[..k]
  {
    if k > 0 {
      ServedPrefix(wanted, order, limit, out, all, k - 1);
      assert forall p | 0 <= p < k - 1 :: out[p] == out[..k - 1][p] == all[..k - 1][p] == all[p];
      ServedNext(wanted, order, limit, out, all, k - 1);
      assert out[..k] == out[..k - 1] + [out[k - 1]];
      assert all[..k] == all[..k - 1] + [out[k - 1]];
    }
  }

  lemma ServedNext(wanted: set<Row>, order: seq<Sort>, limit: nat, out: seq<Row>, all: seq<Row>, k: nat)
    requires Serves(wanted, order, limit, out) && Listing(all, wanted, order) && k < |out|
    requires k <= |all| && forall p | 0 <= p < k :: out[p] == all[p]
    ensures k < |all| && out[k] == all[k]
  {
    var r := out[k];
    assert r in out && r in all;
    var m :| 0 <= m < |all| && all[m] == r;
    if m > k {
      var first := all[k];
      assert Compare(order, first, r) < 0;
      CompareFlip(order, first, r);
      if first in out {
        var p :| 0 <= p < |out| && out[p] == first;
        CompareZero(order, first, first);
      }
      assert false;
    }
  }

  function Min(a: nat, b: nat): nat {
    if a < b then a else b
  }

  // How many of n rows a page holds.
  function PageSize(limit: nat, n: nat): nat {
    if limit == 0 then n else Min(limit, n)
  }

  lemma ServedIsPrefix(wanted: set<Row>, order: seq<Sort>, limit: nat, out: seq<Row>, all: seq<Row>)
    requires Serves(wanted, order, limit, out) && Listing(all, wanted, order)
    ensures out == all[..PageSize(limit, |all|)]
  {
    ServedPrefix(wanted, order, limit, out, all, |out|);
    assert out[..|out|] == out;
    if |out| < PageSize(limit, |all|) {
      var r := all[|out|];
      assert r in all && r in wanted && r in out;
      var p :| 0 <= p < |out| && out[p] == r;
      assert all[..|out|][p] == out[p];
      CompareZero(order, r, r);
      assert false;
    }
  }

  // ---- _get_collection ----

  function Passing(rows: set<Row>, q: Query): set<Row> {
    set row | row in rows && Passes(q, row)
  }

  function Following(rows: set<Row>, sorts: seq<Sort>, marker: Row): set<Row>
    requires Carries(marker, sorts) && forall r | r in rows :: Carries(r, sorts)
  {
    set row | row in rows && Compare(sorts, marker, row) < 0
  }

  function Reverse<T>(s: seq<T>): (r: seq<T>)
    ensures |r| == |s| && forall i | 0 <= i < |s| :: r[i] == s[|s| - 1 - i]
  {
    seq(|s|, i requires 0 <= i < |s| => s[|s| - 1 - i])
  }

  // Where in the sorted table a page starts and ends, given the marker's position.
  function Range(n: nat, limit: nat, marker: Option<nat>, reverse: bool): (r: (nat, nat))
    requires marker.Some? ==> marker.value < n
    ensures r.0 <= r.1 <= n
  {
    if limit > 0 && reverse then
      var hi := if marker.Some? then marker.value else n;
      (if limit < hi then hi - limit else 0, hi)
    else
      var lo := if marker.Some? then marker.value + 1 else 0;
      (lo, lo + PageSize(limit, n - lo))
  }

  function Page(all: seq<Row>, limit: nat, marker: Option<nat>, reverse: bool): seq<Row>
    requires marker.Some? ==> marker.value < |all|
  {
    var (lo, hi) := Range(|all|, limit, marker, reverse);
    all[lo..hi]
  }

  ghost predicate MarkerAt(all: seq<Row>, marker: Option<Row>, at: Option<nat>) {
    match (marker, at)
    case (None, None) => true
    case (Some(row), Some(i)) => i < |all| && all[i] == row
    case _ => false
  }

  lemma ListingAfter(all: seq<Row>, rows: set<Row>, sorts: seq<Sort>, m: nat)
    requires Listing(all, rows, sorts) && m < |all| && forall r | r in rows :: Carries(r, sorts)
    ensures Listing(all[m + 1..], Following(rows, sorts, all[m]), sorts)
  {
    var after := Following(rows, sorts, all[m]);
    forall r ensures r in all[m + 1..] <==> r in after {
      if r in all[m + 1..] {
        var i :| 0 <= i < |all[m + 1..]| && all[m + 1..][i] == r;
        assert all[m + 1 + i] == r && r in all;
      }
      if r in after {
        assert r in all;
        var i :| 0 <= i < |all| && all[i] == r;
        CompareFlip(sorts, all[m], r);
        CompareZero(sorts, r, r);
        assert i > m;
        assert all[m + 1..][i - m - 1] == r;
      }
    }
  }

  lemma ListingReversed(all: seq<Row>, rows: set<Row>, sorts: seq<Sort>)
    requires Listing(all, rows, sorts)
    ensures Listing(Reverse(all), rows, Flip(sorts))
  {
    var back := Reverse(all);
    forall r ensures r in back <==> r in all {
      if r in all {
        var i :| 0 <= i < |all| && all[i] == r;
        assert back[|all| - 1 - i] == r;
      }
    }
    forall r | r in back ensures Carries(r, Flip(sorts)) {
      CompareFlip(sorts, r, r);
    }
    forall i, j | 0 <= i < j < |back| ensures Compare(Flip(sorts), back[i], back[j]) < 0 {
      CompareFlip(sorts, back[i], back[j]);
      assert all[|all| - 1 - j] == back[j] && all[|all| - 1 - i] == back[i];
    }
  }

  ghost predicate Refused(model: Model, limit: nat, sorts: seq<Sort>) {
    sorts != [] && ((limit > 0 && !Keyed(sorts, model.primaryKey)) || !Sortable(sorts, model))
  }

  // The items are the stretch of the sorted table that the request denotes.
  ghost predicate IsPage(items: seq<Row>, rows: set<Row>, sorts: seq<Sort>, limit: nat, marker: Option<Row>,
                         reverse: bool)
  {
    forall all, at | Listing(all, rows, sorts) && MarkerAt(all, marker, at) ::
      items == Page(all, limit, at, reverse)
  }

  // Every row of the table once, and nothing else.
  ghost predicate Lists(items: seq<Row>, rows: set<Row>) {
    (forall r :: r in items <==> r in rows) && (forall i, j | 0 <= i < j < |items| :: items[i] != items[j])
  }

  // What any request gets that is not refused, whether or not its sort tells all rows apart. Without
  // sort keys that is the whole table, since paginate_query then adds neither limit nor marker;
  // otherwise it is as many of the wanted rows as the limit allows, first ones first.
  ghost predicate Gets(items: seq<Row>, rows: set<Row>, sorts: seq<Sort>, limit: nat, marker: Option<Row>,
                       reverse: bool)
  {
    && (sorts == [] || (limit == 0 && marker.None?) ==> Lists(items, rows))
    && (sorts != [] ==>
          var backwards := limit > 0 && reverse;
          var directed := if backwards then Flip(sorts) else sorts;
          && (forall r | r in rows :: Carries(r, directed))
          && (marker.Some? ==> Carries(marker.value, directed))
          && Serves(Wanted(rows, directed, marker), directed, limit, if backwards then Reverse(items) else items))
  }

  lemma ServedLists(items: seq<Row>, rows: set<Row>, order: seq<Sort>)
    requires Serves(rows, order, 0, items)
    ensures Lists(items, rows) && Lists(Reverse(items), rows)
  {
    var back := Reverse(items);
    forall r | r in items ensures r in back {
      var i :| 0 <= i < |items| && items[i] == r;
      assert back[|items| - 1 - i] == r;
    }
    assert forall i, j | 0 <= i < j < |back| :: back[i] == items[|items| - 1 - i] && back[j] == items[|items| - 1 - j];
  }

  // The rows a query asks for and the page of them that it gets.
  method GetCollection(rows: set<Row>, model: Model, sorts: seq<Sort>, limit: nat, marker: Option<Row>, reverse: bool)
    returns (r: Result<seq<Row>, PageError>)
    requires Table(rows, model) && (marker.Some? ==> marker.value in rows)
    ensures r.Failure? <==> Refused(model, limit, sorts)
    ensures r.Success? ==> Gets(r.value, rows, sorts, limit, marker, reverse)
    ensures r.Success? && Total(sorts, model) ==> IsPage(r.value, rows, sorts, limit, marker, reverse)
  {
    var directed := sorts;
    var backwards := limit > 0 && reverse && sorts != [];
    if backwards {
      directed := Flip(sorts);
      FlipKeys(model, sorts);
    }
    var query := PaginateQuery(Query([], [], 0), model, limit, directed, marker);
    if query.Failure? {
      return Failure(query.error);
    }
    var q := query.value;
    var items := Execute(Passing(rows, q), q.order, q.limit);
    CollectionGets(rows, sorts, limit, marker, reverse, q, items);
    if Total(sorts, model) {
      assert q.order == directed;
      CollectionIsPage(rows, model, sorts, limit, marker, reverse, q, items);
    }
    if limit > 0 && reverse {
      items := Reverse(items);
    }
    return Success(items);
  }

  lemma CollectionGets(rows: set<Row>, sorts: seq<Sort>, limit: nat, marker: Option<Row>, reverse: bool, q: Query,
                       items: seq<Row>)
    requires marker.Some? ==> marker.value in rows
    requires Serves(Passing(rows, q), q.order, q.limit, items)
    requires sorts == [] ==> q == Query([], [], 0)
    requires sorts != [] ==>
               var directed := if limit > 0 && reverse then Flip(sorts) else sorts;
               && (forall r | r in rows :: Carries(r, directed)) && q.order == directed && q.limit == limit
               && Filters(Query([], [], 0), q, directed, marker)
    ensures Gets(if limit > 0 && reverse then Reverse(items) else items, rows, sorts, limit, marker, reverse)
  {
    assert Reverse(Reverse(items)) == items;
    if sorts == [] {
      assert Passing(rows, q) == rows;
      ServedLists(items, rows, q.order);
    } else {
      PassingExact(rows, q.order, q, marker);
      if limit == 0 && marker.None? {
        ServedLists(items, rows, q.order);
      }
    }
  }

  lemma CollectionIsPage(rows: set<Row>, model: Model, sorts: seq<Sort>, limit: nat, marker: Option<Row>, reverse: bool,
                         q: Query, items: seq<Row>)
    requires Table(rows, model) && Total(sorts, model) && (marker.Some? ==> marker.value in rows)
    requires var directed := if limit > 0 && reverse then Flip(sorts) else sorts;
             && (forall r | r in rows :: Carries(r, directed))
             && Filters(Query([], [], 0), q, directed, marker) && Serves(Passing(rows, q), directed, limit, items)
    ensures IsPage(if limit > 0 && reverse then Reverse(items) else items, rows, sorts, limit, marker, reverse)
  {
    assert forall r | r in rows :: Carries(r, sorts) && Carries(r, Flip(sorts));
    if limit > 0 && reverse {
      PassingExact(rows, Flip(sorts), q, marker);
      ServedBackwards(rows, sorts, marker, limit, items);
    } else {
      PassingExact(rows, sorts, q, marker);
      ServedForwards(rows, sorts, marker, limit, items);
    }
  }

  lemma FlipKeys(model: Model, sorts: seq<Sort>)
    ensures Keyed(Flip(sorts), model.primaryKey) <==> Keyed(sorts, model.primaryKey)
    ensures Sortable(Flip(sorts), model) <==> Sortable(sorts, model)
  {
    assert forall i | 0 <= i < |sorts| :: Flip(sorts)[i].key == sorts[i].key;
  }

  // The rows a marker asks for.
  function Wanted(rows: set<Row>, sorts: seq<Sort>, marker: Option<Row>): set<Row>
    requires forall r | r in rows :: Carries(r, sorts)
    requires marker.Some? ==> Carries(marker.value, sorts)
  {
    if marker.None? then rows else Following(rows, sorts, marker.value)
  }

  lemma PassingExact(rows: set<Row>, sorts: seq<Sort>, q: Query, marker: Option<Row>)
    requires forall r | r in rows :: Carries(r, sorts)
    requires marker.Some? ==> Carries(marker.value, sorts)
    requires Filters(Query([], [], 0), q, sorts, marker)
    ensures Passing(rows, q) == Wanted(rows, sorts, marker)
  {
    forall r | r in rows ensures Passes(q, r) <==> (marker.Some? ==> Compare(sorts, marker.value, r) < 0) {
      assert Passes(Query([], [], 0), r);
    }
  }

  lemma ServedAt(rows: set<Row>, sorts: seq<Sort>, marker: Option<Row>, limit: nat, items: seq<Row>,
                 all: seq<Row>, at: Option<nat>)
    requires forall r | r in rows :: Carries(r, sorts)
    requires marker.Some? ==> marker.value in rows
    requires Serves(Wanted(rows, sorts, marker), sorts, limit, items)
    requires Listing(all, rows, sorts) && MarkerAt(all, marker, at)
    ensures items == Page(all, limit, at, false)
  {
    PageOfRest(all, limit, at);
    if at.None? {
      ServedIsPrefix(rows, sorts, limit, items, all);
    } else {
      ListingAfter(all, rows, sorts, at.value);
      ServedIsPrefix(Following(rows, sorts, all[at.value]), sorts, limit, items, all[at.value + 1..]);
    }
  }

  // A forward page is the beginning of what follows the marker.
  lemma PageOfRest(all: seq<Row>, limit: nat, at: Option<nat>)
    requires at.Some? ==> at.value < |all|
    ensures var rest := if at.None? then all else all[at.value + 1..];
            Page(all, limit, at, false) == rest[..PageSize(limit, |rest|)]
  {
  }

  lemma ServedForwards(rows: set<Row>, sorts: seq<Sort>, marker: Option<Row>, limit: nat, items: seq<Row>)
    requires forall r | r in rows :: Carries(r, sorts)
    requires marker.Some? ==> marker.value in rows
    requires Serves(Wanted(rows, sorts, marker), sorts, limit, items)
    ensures IsPage(items, rows, sorts, limit, marker, false)
    ensures limit == 0 ==> IsPage(items, rows, sorts, limit, marker, true)
  {
    forall all, at | Listing(all, rows, sorts) && MarkerAt(all, marker, at)
      ensures items == Page(all, limit, at, false)
    {
      ServedAt(rows, sorts, marker, limit, items, all, at);
    }
  }

  lemma ServedBackwards(rows: set<Row>, sorts: seq<Sort>, marker: Option<Row>, limit: nat, items: seq<Row>)
    requires forall r | r in rows :: Carries(r, sorts) && Carries(r, Flip(sorts))
    requires marker.Some? ==> marker.value in rows
    requires limit > 0 && Serves(Wanted(rows, Flip(sorts), marker), Flip(sorts), limit, items)
    ensures IsPage(Reverse(items), rows, sorts, limit, marker, true)
  {
    forall all, at | Listing(all, rows, sorts) && MarkerAt(all, marker, at)
      ensures Reverse(items) == Page(all, limit, at, true)
    {
      ListingReversed(all, rows, sorts);
      var back := Reverse(all);
      var at' := if at.Some? then Some(|all| - 1 - at.value) else None;
      ServedAt(rows, Flip(sorts), marker, limit, items, back, at');
      ReversedPage(all, limit, at, at');
    }
  }

  lemma ReversedPage(all: seq<Row>, limit: nat, at: Option<nat>, at': Option<nat>)
    requires limit > 0 && (at.Some? ==> at.value < |all|)
    requires at' == if at.Some? then Some(|all| - 1 - at.value) else None
    ensures Reverse(Page(Reverse(all), limit, at', false)) == Page(all, limit, at, true)
  {
    var p, r := Page(Reverse(all), limit, at', false), Page(all, limit, at, true);
    assert |p| == |r|;
    assert forall i | 0 <= i < |r| :: Reverse(p)[i] == r[i];
  }
}
