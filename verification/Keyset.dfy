// Sorting and keyset pagination of a query (apmec/db/sqlalchemyutils.py, paginate_query).
module Keyset {
  import opened Wrappers

  // A row with its sortable columns; NULL does not occur in them.
  type Row = map<string, int>

  datatype Sort = Sort(key: string, ascending: bool)

  // A model class: the attributes that are columns, the primary key among them.
  datatype Model = Model(columns: set<string>, primaryKey: string)

  datatype Op = EQ | GT | LT

  datatype Atom = Atom(key: string, op: Op, value: int)

  // An OR of ANDs.
  type Criteria = seq<seq<Atom>>

  // `where` is a conjunction, `limit` 0 means none.
  datatype Query = Query(where: seq<Criteria>, order: seq<Sort>, limit: nat)

  datatype PageError = NoPrimaryKey | BadSortKey(key: string)

  predicate Carries(row: Row, sorts: seq<Sort>) {
    forall i | 0 <= i < |sorts| :: sorts[i].key in row
  }

  predicate Keyed(sorts: seq<Sort>, key: string) {
    exists i | 0 <= i < |sorts| :: sorts[i].key == key
  }

  // ---- The directed lexicographic order ----

  // cmp of Python 2.
  function Cmp(x: int, y: int): int {
    if x < y then -1 else if x > y then 1 else 0
  }

  // The sign a sort by these keys and directions gives to a pair of rows.
  function Compare(sorts: seq<Sort>, a: Row, b: Row): int
    requires Carries(a, sorts) && Carries(b, sorts)
  {
    if sorts == [] then 0
    else
      var c := Cmp(a[sorts[0].key], b[sorts[0].key]);
      if c != 0 then (if sorts[0].ascending then c else -c) else Compare(sorts[1..], a, b)
  }

  function Flip(sorts: seq<Sort>): (f: seq<Sort>)
    ensures |f| == |sorts|
    ensures forall i | 0 <= i < |f| :: f[i] == Sort(sorts[i].key, !sorts[i].ascending)
  {
    seq(|sorts|, i requires 0 <= i < |sorts| => Sort(sorts[i].key, !sorts[i].ascending))
  }

  lemma {:induction false} CompareFlip(sorts: seq<Sort>, a: Row, b: Row)
    requires Carries(a, sorts) && Carries(b, sorts)
    ensures Carries(a, Flip(sorts)) && Carries(b, Flip(sorts))
    ensures Compare(Flip(sorts), a, b) == Compare(sorts, b, a)
    ensures Compare(sorts, b, a) == -Compare(sorts, a, b)
  {
    if sorts != [] {
      assert Flip(sorts)[1..] == Flip(sorts[1..]);
      CompareFlip(sorts[1..], a, b);
    }
  }

  lemma {:induction false} CompareTransitive(sorts: seq<Sort>, a: Row, b: Row, c: Row)
    requires Carries(a, sorts) && Carries(b, sorts) && Carries(c, sorts)
    requires Compare(sorts, a, b) <= 0 && Compare(sorts, b, c) <= 0
    ensures Compare(sorts, a, c) <= 0
    ensures Compare(sorts, a, b) < 0 || Compare(sorts, b, c) < 0 ==> Compare(sorts, a, c) < 0
  {
    if sorts != [] && a[sorts[0].key] == b[sorts[0].key] == c[sorts[0].key] {
      CompareTransitive(sorts[1..], a, b, c);
    }
  }

  lemma {:induction false} CompareZero(sorts: seq<Sort>, a: Row, b: Row)
    requires Carries(a, sorts) && Carries(b, sorts)
    ensures Compare(sorts, a, b) == 0 <==> forall i | 0 <= i < |sorts| :: a[sorts[i].key] == b[sorts[i].key]
  {
    if sorts != [] {
      CompareZero(sorts[1..], a, b);
      assert forall i | 0 < i < |sorts| :: sorts[i] == sorts[1..][i - 1];
    }
  }

  // ---- The keyset criteria ----

  predicate Meets(row: Row, atom: Atom) {
    atom.key in row &&
    match atom.op
    case EQ => row[atom.key] == atom.value
    case GT => row[atom.key] > atom.value
    case LT => row[atom.key] < atom.value
  }

  predicate MeetsAll(row: Row, atoms: seq<Atom>) {
    forall i | 0 <= i < |atoms| :: Meets(row, atoms[i])
  }

  predicate Accepts(criteria: Criteria, row: Row) {
    exists i | 0 <= i < |criteria| :: MeetsAll(row, criteria[i])
  }

  predicate Passes(q: Query, row: Row) {
    forall i | 0 <= i < |q.where| :: Accepts(q.where[i], row)
  }

  // The i-th disjunct: equal to the marker on the keys before i, beyond it on key i.
  ghost predicate IsCriterion(sorts: seq<Sort>, marker: Row, i: nat, atoms: seq<Atom>)
    requires i < |sorts| && Carries(marker, sorts)
  {
    && |atoms| == i + 1
    && (forall j | 0 <= j < i :: atoms[j] == Atom(sorts[j].key, EQ, marker[sorts[j].key]))
    && atoms[i] == Atom(sorts[i].key, if sorts[i].ascending then GT else LT, marker[sorts[i].key])
  }

  // Rows a and b agree on the keys before i and part, in the right direction, on key i.
  ghost predicate PartAt(sorts: seq<Sort>, a: Row, b: Row, i: nat)
    requires Carries(a, sorts) && Carries(b, sorts) && i < |sorts|
  {
    && (forall j | 0 <= j < i :: a[sorts[j].key] == b[sorts[j].key])
    && (if sorts[i].ascending then a[sorts[i].key] < b[sorts[i].key] else a[sorts[i].key] > b[sorts[i].key])
  }

  lemma {:induction false} BeforeMeansPart(sorts: seq<Sort>, a: Row, b: Row)
    requires Carries(a, sorts) && Carries(b, sorts)
    ensures Compare(sorts, a, b) < 0 <==> exists i :: 0 <= i < |sorts| && PartAt(sorts, a, b, i)
  {
    if sorts != [] {
      BeforeMeansPart(sorts[1..], a, b);
      if a[sorts[0].key] != b[sorts[0].key] {
        assert PartAt(sorts, a, b, 0) <==> Compare(sorts, a, b) < 0;
      } else {
        if i :| 0 <= i < |sorts[1..]| && PartAt(sorts[1..], a, b, i) {
          assert forall j | 0 < j < i + 1 :: sorts[j] == sorts[1..][j - 1];
          assert PartAt(sorts, a, b, i + 1);
        }
        if i :| 0 <= i < |sorts| && PartAt(sorts, a, b, i) {
          assert i > 0;
          assert PartAt(sorts[1..], a, b, i - 1);
        }
      }
    }
  }

  // The OR of ANDs accepts a row exactly when it comes strictly after the marker, for any keys
  // and any mix of directions.
  lemma KeysetExact(sorts: seq<Sort>, marker: Row, criteria: Criteria, row: Row)
    requires Carries(marker, sorts) && Carries(row, sorts)
    requires |criteria| == |sorts| && forall i | 0 <= i < |sorts| :: IsCriterion(sorts, marker, i, criteria[i])
    ensures Accepts(criteria, row) <==> Compare(sorts, marker, row) < 0
  {
    BeforeMeansPart(sorts, marker, row);
    forall i | 0 <= i < |sorts| ensures MeetsAll(row, criteria[i]) <==> PartAt(sorts, marker, row, i) {
      var atoms := criteria[i];
      assert IsCriterion(sorts, marker, i, atoms);
      if MeetsAll(row, atoms) {
        forall j | 0 <= j < i ensures marker[sorts[j].key] == row[sorts[j].key] {
          assert Meets(row, atoms[j]);
        }
        assert Meets(row, atoms[i]);
      }
    }
  }

  // ---- paginate_query ----

  // Sort keys that are not attributes, or only references to other resources, are refused.
  predicate Sortable(sorts: seq<Sort>, model: Model) {
    forall i | 0 <= i < |sorts| :: sorts[i].key in model.columns
  }

  // The rows that pass are those that passed before and, given a marker, come after it.
  ghost predicate Filters(q: Query, q': Query, sorts: seq<Sort>, marker: Option<Row>)
    requires marker.Some? ==> Carries(marker.value, sorts)
  {
    forall row | Carries(row, sorts) ::
      Passes(q', row) <==> Passes(q, row) && (marker.Some? ==> Compare(sorts, marker.value, row) < 0)
  }

  method PaginateQuery(query: Query, model: Model, limit: nat, sorts: seq<Sort>, marker: Option<Row>)
    returns (r: Result<Query, PageError>)
    requires marker.Some? ==> model.columns <= marker.value.Keys
    ensures sorts == [] ==> r == Success(query)
    ensures r == Failure(NoPrimaryKey) <==> sorts != [] && limit > 0 && !Keyed(sorts, model.primaryKey)
    ensures r.Failure? && r.error.BadSortKey? <==>
            (limit > 0 ==> Keyed(sorts, model.primaryKey)) && !Sortable(sorts, model)
    ensures r.Success? && sorts != [] ==>
              && r.value.order == query.order + sorts
              && r.value.limit == (if limit > 0 then limit else query.limit)
              && Sortable(sorts, model)
              && Filters(query, r.value, sorts, marker)
  {
    if sorts == [] {
      return Success(query);
    }
    if limit > 0 && !Keyed(sorts, model.primaryKey) {
      return Failure(NoPrimaryKey);
    }
    var q := query;
    var i := 0;
    while i < |sorts|
      invariant 0 <= i <= |sorts|
      invariant forall j | 0 <= j < i :: sorts[j].key in model.columns
      invariant q == query.(order := query.order + sorts[..i])
    {
      if sorts[i].key !in model.columns {
        return Failure(BadSortKey(sorts[i].key));
      }
      assert sorts[..i + 1] == sorts[..i] + [sorts[i]];
      q := q.(order := q.order + [sorts[i]]);
      i := i + 1;
    }
    assert sorts[..i] == sorts;
    if marker.Some? {
      var criteria := BuildCriteria(sorts, marker.value);
      q := q.(where := q.where + [criteria]);
      AddedFilter(query, q, sorts, marker.value, criteria);
    }
    if limit > 0 {
      q := q.(limit := limit);
    }
    assert Filters(query, q, sorts, marker) by {
      if marker.None? {
        assert forall row :: Passes(q, row) <==> Passes(query, row);
      }
    }
    return Success(q);
  }

  // The two nested loops that list the criteria.
  method BuildCriteria(sorts: seq<Sort>, marker: Row) returns (criteria: Criteria)
    requires Carries(marker, sorts)
    ensures |criteria| == |sorts|
    ensures forall i | 0 <= i < |sorts| :: IsCriterion(sorts, marker, i, criteria[i])
  {
    criteria := [];
    for i := 0 to |sorts|
      invariant |criteria| == i
      invariant forall k | 0 <= k < i :: IsCriterion(sorts, marker, k, criteria[k])
    {
      var atoms := [];
      for j := 0 to i
        invariant |atoms| == j
        invariant forall k | 0 <= k < j :: atoms[k] == Atom(sorts[k].key, EQ, marker[sorts[k].key])
      {
        atoms := atoms + [Atom(sorts[j].key, EQ, marker[sorts[j].key])];
      }
      var op := if sorts[i].ascending then GT else LT;
      atoms := atoms + [Atom(sorts[i].key, op, marker[sorts[i].key])];
      criteria := criteria + [atoms];
    }
  }

  lemma AddedFilter(q: Query, q': Query, sorts: seq<Sort>, marker: Row, criteria: Criteria)
    requires Carries(marker, sorts) && q'.where == q.where + [criteria]
    requires |criteria| == |sorts| && forall i | 0 <= i < |sorts| :: IsCriterion(sorts, marker, i, criteria[i])
    ensures Filters(q, q', sorts, Some(marker))
  {
    forall row: Row | Carries(row, sorts)
      ensures Passes(q', row) <==> Passes(q, row) && Compare(sorts, marker, row) < 0
    {
      KeysetExact(sorts, marker, criteria, row);
      assert q'.where[|q.where|] == criteria;
      assert forall i | 0 <= i < |q.where| :: q'.where[i] == q.where[i];
    }
  }
}
