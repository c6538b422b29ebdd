// The merge of nested dictionaries as it runs, on dictionaries that are changed in place
// (apmec/common/utils.py, deep_update).
module DeepUpdate {
  import opened Wrappers
  import opened Values
  import opened Trees
  import opened Merging

  // The entry k of the new dictionary is, or contains, a dictionary that
  // becomes part of the old one, because there is none to merge it with.
  predicate GraftsAt(orig: Dict, new': Dict, k: string)
    decreases Obj(new'), 0
  {
    k in new' && new'[k].Obj? &&
    (k !in orig || !orig[k].Obj? || (assert new'[k] == Obj(new'[k].dict); Grafts(orig[k].dict, new'[k].dict)))
  }

  predicate Grafts(orig: Dict, new': Dict)
    decreases Obj(new'), 1
  {
    exists k | k in new' :: GraftsAt(orig, new', k)
  }

  // The old contents with all but the entries in todo merged.
  ghost predicate Between(orig: Dict, new': Dict, todo: set<string>, d: Dict) {
    && d.Keys == orig.Keys + (new'.Keys - todo)
    && forall k | k in d :: d[k] == if k in todo then orig[k] else Update(orig, new')[k]
  }

  // ---- Objects ----

  // The dictionary object at the end of a path of keys.
  ghost function Node(t: Tree, d: Dict, path: seq<string>): (r: Option<Tree>)
    requires t.Holds(d, false)
    reads t, t.Repr
    ensures r.Some? ==> r.value in t.Repr
    decreases |path|
  {
    if path == [] then Some(t)
    else if path[0] in t.children then
      assert t.HoldsAt(d, path[0], false);
      Node(t.children[path[0]], d[path[0]].dict, path[1..])
    else None
  }

  // The path leads to one and the same object in both.
  ghost predicate Meet(s: Tree, d: Dict, t: Tree, e: Dict, path: seq<string>)
    requires s.Holds(d, false) && t.Holds(e, false)
    reads s, s.Repr, t, t.Repr
  {
    Node(s, d, path).Some? && Node(s, d, path) == Node(t, e, path)
  }

  // The path below the key k does.
  ghost predicate MeetBelow(s: Tree, d: Dict, t: Tree, e: Dict, k: string, path: seq<string>)
    reads s, s.Repr, t, t.Repr
  {
    && s.HoldsAt(d, k, false) && t.HoldsAt(e, k, false)
    && Meet(s.children[k], d[k].dict, t.children[k], e[k].dict, path)
  }

  // Some object can be reached from both, by whatever paths.
  ghost predicate Share(s: Tree, d: Dict, t: Tree, e: Dict)
    requires s.Holds(d, false) && t.Holds(e, false)
    reads s, s.Repr, t, t.Repr
  {
    exists p, q :: Node(s, d, p).Some? && Node(s, d, p) == Node(t, e, q)
  }

  lemma MeetAbove(s: Tree, d: Dict, t: Tree, e: Dict, k: string, path: seq<string>)
    requires s.Holds(d, false) && t.Holds(e, false) && MeetBelow(s, d, t, e, k, path)
    ensures Meet(s, d, t, e, [k] + path)
  {
    assert ([k] + path)[1..] == path;
  }

  // The recursive call: it changes the objects of one child only.
  method UpdateChild(orig: Tree, k: string, value: Tree, ghost d: Dict, ghost e: Dict) returns (ghost path: seq<string>)
    requires orig.Holds(d, false) && orig.HoldsAt(d, k, false) && value.Holds(e, false) && value.Repr !! orig.Repr
    modifies orig.children[k].Repr
    ensures orig.HoldsBut(d, k, false) && orig.children[k].Holds(Update(d[k].dict, e), false) && value.Holds(e, false)
    ensures old(orig.ReprAt(k)) <= orig.ReprAt(k) <= old(orig.ReprAt(k)) + value.Repr && orig !in orig.ReprAt(k)
    ensures forall j | j != k :: orig.ReprAt(j) == old(orig.ReprAt(j))
    ensures orig.ReprAt(k) !! value.Repr <==> !Grafts(d[k].dict, e)
    ensures Grafts(d[k].dict, e) ==> Meet(orig.children[k], Update(d[k].dict, e), value, e, path)
    decreases value.Repr, 5
  {
    path := DeepUpdate(orig.children[k], value, d[k].dict, e);
    forall j | j in orig.children && j != k ensures orig.HoldsAt(d, j, false) && orig.Apart(j, k) {
      assert old(orig.HoldsAt(d, j, false)) && old(orig.Apart(j, k));
    }
    forall i, j | i in orig.children && j in orig.children && i != j && i != k && j != k ensures orig.Apart(i, j) {
      assert old(orig.Apart(i, j)) && old(orig.Apart(i, k)) && old(orig.Apart(j, k));
      assert old(orig.HoldsAt(d, i, false)) && old(orig.HoldsAt(d, j, false));
    }
  }

  // The call for a key that has a dictionary on both sides.
  method MergeChild(orig: Tree, k: string, value: Tree, ghost d: Dict, ghost e: Dict) returns (ghost path: seq<string>)
    requires orig.Holds(d, false) && orig.HoldsAt(d, k, false) && value.Holds(e, false) && value.Repr !! orig.Repr
    modifies orig`Repr, orig.children[k].Repr
    ensures orig.Holds(d[k := Obj(Update(d[k].dict, e))], false) && value.Holds(e, false)
    ensures old(orig.Repr) <= orig.Repr <= old(orig.Repr) + value.Repr
    ensures orig.children == old(orig.children) && forall j | j != k :: orig.ReprAt(j) == old(orig.ReprAt(j))
    ensures orig.Repr !! value.Repr <==> !Grafts(d[k].dict, e)
    ensures orig.children[k].Holds(Update(d[k].dict, e), false)
    ensures Grafts(d[k].dict, e) ==> Meet(orig.children[k], Update(d[k].dict, e), value, e, path)
    decreases value.Repr, 6
  {
    ghost var before := orig.ReprAt(k);
    path := UpdateChild(orig, k, value, d, e);
    FootprintGrows(orig.Repr, before, orig.ReprAt(k), value.Repr);
    AdoptMet(orig, k, value, d, Update(d[k].dict, e), e, path);
  }

  // Taking the changed child over changes no place where paths meet.
  ghost method AdoptMet(orig: Tree, k: string, value: Tree, d: Dict, u: Dict, e: Dict, path: seq<string>)
    requires orig.HoldsBut(d, k, false) && orig.children[k].Holds(u, false) && orig !in orig.children[k].Repr
    requires value.Holds(e, false) && orig !in value.Repr
    modifies orig`Repr
    ensures orig.Holds(d[k := Obj(u)], false) && orig.Repr == old(orig.Repr) + orig.children[k].Repr
    ensures orig.children[k].Holds(u, false) && value.Holds(e, false)
    ensures forall j | j != k :: orig.ReprAt(j) == old(orig.ReprAt(j))
    ensures old(Meet(orig.children[k], u, value, e, path)) ==> Meet(orig.children[k], u, value, e, path)
  {
    orig.Adopt(k, d, u, false);
  }

  lemma FootprintGrows(all: set<Tree>, child: set<Tree>, child': set<Tree>, value: set<Tree>)
    requires child <= all && all !! value && child <= child' <= child + value
    ensures all <= all + child' <= all + value
    ensures all + child' !! value <==> child' !! value
  {
  }

  // Objects shared after a turn of the loop were shared before or come from the entry.
  lemma SharedAfter(before: set<Tree>, after: set<Tree>, entry: set<Tree>, all: set<Tree>)
    requires before <= after <= before + entry && entry <= all
    ensures after !! all <==> before !! all && after !! entry
  {
  }

  // The entry for a key that has a dictionary on both sides.
  method MergeEntry(orig: Tree, new': Tree, k: string, ghost d: Dict, ghost n: Dict) returns (ghost path: seq<string>)
    requires orig.Holds(d, false) && new'.Holds(n, false) && orig.HoldsAt(d, k, false) && new'.HoldsAt(n, k, false)
    requires new'.children[k].Repr !! orig.Repr && new' !in orig.Repr
    modifies orig`Repr, orig.children[k].Repr
    ensures orig.Holds(d[k := Update(d, n)[k]], false)
    ensures old(orig.Repr) <= orig.Repr <= old(orig.Repr) + old(new'.ReprAt(k))
    ensures orig.children == old(orig.children) && forall j | j != k :: orig.ReprAt(j) == old(orig.ReprAt(j))
    ensures orig.Repr !! old(new'.ReprAt(k)) <==> !GraftsAt(d, n, k)
    ensures GraftsAt(d, n, k) ==> MeetBelow(orig, d[k := Update(d, n)[k]], new', n, k, path)
    decreases new'.Repr, 0
  {
    path := MergeChild(orig, k, new'.children[k], d, n[k].dict);
    assert Update(d, n)[k] == Obj(Update(d[k].dict, n[k].dict));
    assert orig.HoldsAt(d[k := Update(d, n)[k]], k, false) && new'.HoldsAt(n, k, false);
  }

  lemma SameObjectMeets(orig: Tree, new': Tree, k: string, d: Dict, n: Dict)
    requires orig.Holds(d, false) && k in orig.children && new'.HoldsAt(n, k, false)
    requires orig.children[k] == new'.children[k] && k in d && d[k] == n[k]
    ensures MeetBelow(orig, d, new', n, k, [])
  {
    assert orig.HoldsAt(d, k, false);
    assert Meet(new'.children[k], n[k].dict, new'.children[k], n[k].dict, []);
  }

  // The entry for a key that has a dictionary only in the new one: it is taken over.
  method GraftEntry(orig: Tree, new': Tree, k: string, ghost d: Dict, ghost n: Dict)
    requires orig.Holds(d, false) && new'.HoldsAt(n, k, false) && k !in orig.children
    requires new'.children[k].Repr !! orig.Repr && new' !in orig.Repr
    modifies orig
    ensures orig.Holds(d[k := n[k]], false)
    ensures orig.Repr == old(orig.Repr) + new'.children[k].Repr
    ensures forall j | j != k :: orig.ReprAt(j) == old(orig.ReprAt(j)) && orig.ChildAt(j) == old(orig.ChildAt(j))
    ensures MeetBelow(orig, d[k := n[k]], new', n, k, [])
  {
    NotOwnChild(orig, d);
    orig.Graft(k, new'.children[k], d, n[k].dict, false);
    SameObjectMeets(orig, new', k, d[k := n[k]], n);
  }

  lemma NotOwnChild(t: Tree, d: Dict)
    requires t.Holds(d, false)
    ensures forall j | j in t.children :: t.children[j] != t
  {
    assert forall j | j in t.children :: t.HoldsAt(d, j, false);
  }

  // The entry for a key that has a value in the new one: it replaces whatever was there.
  method PutEntry(orig: Tree, new': Tree, k: string, ghost d: Dict, ghost n: Dict)
    requires orig.Holds(d, false) && new'.Holds(n, false) && k in new'.leaves
    modifies orig
    ensures orig.Holds(d[k := n[k]], false) && orig.Repr == old(orig.Repr)
    ensures forall j | j != k :: orig.ReprAt(j) == old(orig.ReprAt(j)) && orig.ChildAt(j) == old(orig.ChildAt(j))
  {
    NotOwnChild(orig, d);
    orig.Put(k, new'.leaves[k], d, false);
  }

  // What the entry amounts to.
  lemma EntryValue(orig: Tree, new': Tree, k: string, d: Dict, n: Dict)
    requires orig.Holds(d, false) && new'.Holds(n, false) && k in n
    ensures k in orig.children ==> orig.HoldsAt(d, k, false)
    ensures k in new'.children ==> new'.HoldsAt(n, k, false) && new'.ReprAt(k) != {}
    ensures k !in orig.children || k !in new'.children ==>
              Update(d, n)[k] == n[k] && (GraftsAt(d, n, k) <==> k in new'.children)
  {
  }

  // One turn of the loop.
  method UpdateEntry(orig: Tree, new': Tree, k: string, ghost d: Dict, ghost n: Dict) returns (ghost path: seq<string>)
    requires orig.Holds(d, false) && new'.Holds(n, false) && k in n && new'.ReprAt(k) !! orig.Repr && new' !in orig.Repr
    modifies orig, orig.ReprAt(k)
    ensures orig.Holds(d[k := Update(d, n)[k]], false)
    ensures old(orig.Repr) <= orig.Repr <= old(orig.Repr) + old(new'.ReprAt(k))
    ensures forall j | j != k :: orig.ReprAt(j) == old(orig.ReprAt(j))
    ensures forall j | j != k :: orig.ChildAt(j) == old(orig.ChildAt(j))
    ensures orig.Repr !! old(new'.ReprAt(k)) <==> !GraftsAt(d, n, k)
    ensures GraftsAt(d, n, k) ==> MeetBelow(orig, d[k := Update(d, n)[k]], new', n, k, path)
    decreases new'.Repr, 1
  {
    EntryValue(orig, new', k, d, n);
    if k in new'.children && k in orig.children {
      path := MergeEntry(orig, new', k, d, n);
    } else if k in new'.children {
      GraftEntry(orig, new', k, d, n);
      path := [];
    } else {
      PutEntry(orig, new', k, d, n);
      path := [];
    }
  }

  // Where a place to meet has been found before, it stays.
  method UpdateEntryKeeping(orig: Tree, new': Tree, k: string, ghost d: Dict, ghost n: Dict, ghost found: string,
                            ghost place: seq<string>)
    returns (ghost path: seq<string>)
    requires orig.Holds(d, false) && new'.Holds(n, false) && k in n && new'.ReprAt(k) !! orig.Repr && new' !in orig.Repr
    requires orig !in new'.Repr && orig.ReprAt(k) !! new'.Repr
    modifies orig, orig.ReprAt(k)
    ensures orig.Holds(d[k := Update(d, n)[k]], false)
    ensures old(orig.Repr) <= orig.Repr <= old(orig.Repr) + old(new'.ReprAt(k))
    ensures forall j | j != k :: orig.ReprAt(j) == old(orig.ReprAt(j))
    ensures orig.Repr !! old(new'.ReprAt(k)) <==> !GraftsAt(d, n, k)
    ensures GraftsAt(d, n, k) ==> MeetBelow(orig, d[k := Update(d, n)[k]], new', n, k, path)
    ensures found != k && old(MeetBelow(orig, d, new', n, found, place)) ==>
              MeetBelow(orig, d[k := Update(d, n)[k]], new', n, found, place)
    decreases new'.Repr, 2
  {
    orig.ChildrenApart(d, false);
    path := UpdateEntry(orig, new', k, d, n);
    assert found != k ==> orig.ChildAt(found) == old(orig.ChildAt(found));
    assert found != k ==> old(orig.ReprAt(found)) !! old(orig.ReprAt(k));
    if found != k && old(MeetBelow(orig, d, new', n, found, place)) {
      assert orig.HoldsAt(d[k := Update(d, n)[k]], found, false);
    }
  }

  // The entry k is still to be merged: nothing of it is in the old tree yet.
  ghost predicate Ready(orig: Tree, new': Tree, owned: set<Tree>, k: string)
    reads orig, new', orig.children.Values, new'.children.Values
  {
    new'.ReprAt(k) !! orig.Repr && orig.ReprAt(k) <= owned
  }

  lemma ReadyAtStart(orig: Tree, new': Tree, o: Dict, n: Dict)
    requires orig.Holds(o, false) && new'.Holds(n, false) && orig.Repr !! new'.Repr
    ensures forall k :: Ready(orig, new', orig.Repr, k)
  {
    orig.ChildrenApart(o, false);
    new'.ChildrenApart(n, false);
  }

  // `found` is where a place to meet has been found before.
  method Turn(orig: Tree, new': Tree, k: string, ghost d: Dict, ghost n: Dict, ghost owned: set<Tree>,
              ghost todo: set<string>, ghost found: string, ghost place: seq<string>)
    returns (ghost path: seq<string>)
    requires orig.Holds(d, false) && new'.Holds(n, false) && k in todo && todo <= n.Keys && new' !in orig.Repr
    requires orig in owned && owned !! new'.Repr
    requires forall j | j in todo :: Ready(orig, new', owned, j)
    modifies orig, orig.ReprAt(k)
    ensures orig.Holds(d[k := Update(d, n)[k]], false) && new'.Holds(n, false)
    ensures new'.Repr == old(new'.Repr) && new' !in orig.Repr
    ensures old(orig.Repr) <= orig.Repr <= old(orig.Repr) + new'.Repr
    ensures forall j | j in todo && j != k :: Ready(orig, new', owned, j)
    ensures orig.Repr !! new'.Repr <==> old(orig.Repr) !! new'.Repr && !GraftsAt(d, n, k)
    ensures GraftsAt(d, n, k) ==> MeetBelow(orig, d[k := Update(d, n)[k]], new', n, k, path)
    ensures found != k && old(MeetBelow(orig, d, new', n, found, place)) ==>
              MeetBelow(orig, d[k := Update(d, n)[k]], new', n, found, place)
    decreases new'.Repr, 3
  {
    assert Ready(orig, new', owned, k);
    new'.ChildrenApart(n, false);
    path := UpdateEntryKeeping(orig, new', k, d, n, found, place);
    SharedAfter(old(orig.Repr), orig.Repr, new'.ReprAt(k), new'.Repr);
    forall j | j in todo && j != k ensures Ready(orig, new', owned, j) {
      assert old(Ready(orig, new', owned, j));
      assert new'.ReprAt(j) == old(new'.ReprAt(j)) && old(new'.ReprAt(j)) !! old(new'.ReprAt(k));
    }
  }

  ghost predicate Ungrafted(orig: Dict, new': Dict, todo: set<string>) {
    forall k | k in new' && k !in todo :: !GraftsAt(orig, new', k)
  }

  lemma BetweenNext(orig: Dict, new': Dict, todo: set<string>, d: Dict, k: string)
    requires Between(orig, new', todo, d) && k in todo && todo <= new'.Keys
    ensures Between(orig, new', todo - {k}, d[k := Update(d, new')[k]])
    ensures GraftsAt(d, new', k) <==> GraftsAt(orig, new', k)
    ensures Ungrafted(orig, new', todo - {k}) <==> Ungrafted(orig, new', todo) && !GraftsAt(d, new', k)
  {
    assert GraftsAt(d, new', k) <==> GraftsAt(orig, new', k);
  }

  lemma BetweenDone(orig: Dict, new': Dict, d: Dict)
    requires Between(orig, new', {}, d)
    ensures d == Update(orig, new') && (Ungrafted(orig, new', {}) <==> !Grafts(orig, new'))
  {
  }

  // The old dictionary becomes the merge of both and the new one stays as it is. Its parts
  // are taken over as objects, so that afterwards some object can be reached from both exactly
  // if a dictionary was taken over.
  method DeepUpdate(orig: Tree, new': Tree, ghost o: Dict, ghost n: Dict) returns (ghost path: seq<string>)
    requires orig.Holds(o, false) && new'.Holds(n, false) && orig.Repr !! new'.Repr
    modifies orig.Repr
    ensures orig.Holds(Update(o, n), false) && new'.Holds(n, false)
    ensures old(orig.Repr) <= orig.Repr <= old(orig.Repr) + new'.Repr
    ensures orig.Repr !! new'.Repr <==> !Grafts(o, n)
    ensures Grafts(o, n) ==> Meet(orig, Update(o, n), new', n, path)
    ensures Share(orig, Update(o, n), new', n) <==> Grafts(o, n)
    decreases new'.Repr, 4
  {
    var todo := new'.leaves.Keys + new'.children.Keys;
    ghost var cur := o;
    ghost var owned := orig.Repr;
    ghost var found, place := "", [];
    ReadyAtStart(orig, new', o, n);
    while todo != {}
      invariant todo <= n.Keys && orig.Holds(cur, false) && Between(o, n, todo, cur)
      invariant new'.Holds(n, false) && new' !in orig.Repr && orig in owned && owned !! new'.Repr
      invariant owned <= orig.Repr <= owned + new'.Repr
      invariant forall k | k in todo :: Ready(orig, new', owned, k)
      invariant orig.Repr !! new'.Repr <==> Ungrafted(o, n, todo)
      invariant !Ungrafted(o, n, todo) ==> found !in todo && MeetBelow(orig, cur, new', n, found, place)
    {
      var k :| k in todo;
      assert Ready(orig, new', owned, k);
      ghost var deeper := Turn(orig, new', k, cur, n, owned, todo, found, place);
      BetweenNext(o, n, todo, cur, k);
      if GraftsAt(cur, n, k) {
        found, place := k, deeper;
      }
      cur := cur[k := Update(cur, n)[k]];
      todo := todo - {k};
    }
    BetweenDone(o, n, cur);
    path := [found] + place;
    if Grafts(o, n) {
      MeetAbove(orig, cur, new', n, found, place);
    }
    SharesIfMeets(orig, cur, new', n, path);
  }

  // Objects that can be reached are in the footprints, and paths that meet reach one.
  lemma SharesIfMeets(s: Tree, d: Dict, t: Tree, e: Dict, path: seq<string>)
    requires s.Holds(d, false) && t.Holds(e, false)
    ensures s.Repr !! t.Repr ==> !Share(s, d, t, e)
    ensures Meet(s, d, t, e, path) ==> Share(s, d, t, e)
  {
  }
}
