// Extension loading order and the merged attribute map
// (apmec/api/extensions.py, ExtensionManager.extend_resources).
module Extensions {
  import opened Wrappers

  type Name = string
  type Resource = string
  type Definitions = map<string, string>
  type AttrMap = map<Resource, Definitions>

  // The hooks of an extension. `fragment` is what get_extended_resources returns: None without
  // the hook, Some(None) when it raises AttributeError. `required` is None without the hook.
  datatype Extension = Extension(
    fragment: Option<Option<AttrMap>>,
    required: Option<set<Name>>,
    updates: bool)

  type Registry = map<Name, Extension>

  predicate Extends(exts: Registry, n: Name) {
    n in exts && exts[n].fragment.Some?
  }

  function Requires(exts: Registry, n: Name): set<Name>
    requires n in exts
  {
    if exts[n].required.None? then {} else exts[n].required.value
  }

  // ---- Which extensions can be processed ----

  // Closed under "an extension whose requirements are all in is in".
  ghost predicate Closed(exts: Registry, names: set<Name>) {
    forall n | Extends(exts, n) && Requires(exts, n) <= names :: n in names
  }

  // Each name is an extension that comes after everything it requires, and comes once.
  ghost predicate Ordered(exts: Registry, order: seq<Name>) {
    forall i | 0 <= i < |order| ::
      Extends(exts, order[i]) && order[i] !in order[..i] && forall r | r in Requires(exts, order[i]) :: r in order[..i]
  }

  function Names(order: seq<Name>): (s: set<Name>)
    ensures forall n :: n in s <==> n in order
  {
    set n | n in order
  }

  lemma {:induction false} OrderedInEveryClosed(exts: Registry, order: seq<Name>, names: set<Name>, k: nat)
    requires Ordered(exts, order) && Closed(exts, names) && k <= |order|
    ensures Names(order[..k]) <= names
  {
    if k > 0 {
      OrderedInEveryClosed(exts, order, names, k - 1);
      var n := order[k - 1];
      assert order[..k] == order[..k - 1] + [n];
      forall r | r in Requires(exts, n) ensures r in names {
        assert r in order[..k - 1] && r in Names(order[..k - 1]);
      }
    }
  }

  // The least closed set.
  ghost predicate LeastClosed(exts: Registry, names: set<Name>) {
    Closed(exts, names) && forall other | Closed(exts, other) :: names <= other
  }

  // An order that stops only when nothing more is ready lists the least closed set, so any two
  // such orders process the same extensions.
  lemma OrderIsLeast(exts: Registry, order: seq<Name>)
    requires Ordered(exts, order) && Closed(exts, Names(order))
    ensures LeastClosed(exts, Names(order))
  {
    forall other | Closed(exts, other) ensures Names(order) <= other {
      OrderedInEveryClosed(exts, order, other, |order|);
      assert order[..|order|] == order;
    }
  }

  lemma LeastIsUnique(exts: Registry, a: set<Name>, b: set<Name>)
    requires LeastClosed(exts, a) && LeastClosed(exts, b)
    ensures a == b
  {
  }

  // ---- Why an extension stays unprocessed ----

  // A chain of requirements that ends in a name that is no attribute extension or that
  // occurred before.
  ghost predicate DeadEnd(exts: Registry, chain: seq<Name>) {
    && |chain| > 0
    && (forall i | 0 <= i < |chain| - 1 :: Extends(exts, chain[i]) && chain[i + 1] in Requires(exts, chain[i]))
    && (var last := chain[|chain| - 1]; !Extends(exts, last) || last in chain[..|chain| - 1])
  }

  ghost predicate Blocked(exts: Registry, n: Name) {
    exists chain :: DeadEnd(exts, chain) && chain[0] == n
  }

  lemma {:induction false} ChainDescends(exts: Registry, order: seq<Name>, chain: seq<Name>, i: nat, k: nat)
    returns (j: nat)
    requires Ordered(exts, order) && DeadEnd(exts, chain)
    requires i <= k < |chain| && chain[i] in order
    ensures chain[k] in order && j < |order| && order[j] == chain[k]
    ensures forall p | 0 <= p < |order| && order[p] == chain[i] :: if k == i then p == j else j < p
    decreases k - i
  {
    var p :| 0 <= p < |order| && order[p] == chain[i];
    PositionUnique(exts, order, chain[i], p);
    if i == k {
      return p;
    }
    assert chain[i + 1] in order[..p];
    var q :| 0 <= q < p && order[q] == chain[i + 1];
    PositionUnique(exts, order, chain[i + 1], q);
    j := ChainDescends(exts, order, chain, i + 1, k);
  }

  lemma PositionUnique(exts: Registry, order: seq<Name>, n: Name, p: nat)
    requires Ordered(exts, order) && p < |order| && order[p] == n
    ensures forall q | 0 <= q < |order| && order[q] == n :: q == p
  {
    forall a, b | 0 <= a < b < |order| ensures order[a] != order[b] {
      assert order[..b][a] == order[a];
    }
  }

  lemma DeadEndNotOrdered(exts: Registry, order: seq<Name>, chain: seq<Name>)
    requires Ordered(exts, order) && DeadEnd(exts, chain)
    ensures chain[0] !in order
  {
    if chain[0] in order {
      var last := |chain| - 1;
      var j := ChainDescends(exts, order, chain, 0, last);
      var i :| 0 <= i < last && chain[i] == chain[last];
      var a := ChainDescends(exts, order, chain, 0, i);
      var b := ChainDescends(exts, order, chain, i, last);
      assert false;
    }
  }

  // From an unprocessed name, requirements lead on through unprocessed names until one is no
  // attribute extension or comes up again.
  lemma {:induction false} FollowBlocked(exts: Registry, order: seq<Name>, chain: seq<Name>) returns (full: seq<Name>)
    requires Closed(exts, Names(order)) && |chain| > 0 && chain[|chain| - 1] !in order
    requires forall i | 0 <= i < |chain| - 1 :: Extends(exts, chain[i]) && chain[i + 1] in Requires(exts, chain[i])
    requires forall i, j | 0 <= i < j < |chain| - 1 :: chain[i] != chain[j]
    ensures DeadEnd(exts, full) && full[0] == chain[0]
    decreases exts.Keys - Names(chain[..|chain| - 1])
  {
    var before := chain[..|chain| - 1];
    var last := chain[|chain| - 1];
    if !Extends(exts, last) || last in before {
      return chain;
    }
    var next :| next in Requires(exts, last) && next !in Names(order);
    var longer := chain + [next];
    assert longer[..|longer| - 1] == before + [last];
    assert last in (before + [last]);
    full := FollowBlocked(exts, order, longer);
  }

  // An extension is left unprocessed exactly when following its requirements can reach a
  // missing or non-attribute extension, or a cycle.
  lemma UnprocessedExactly(exts: Registry, order: seq<Name>, n: Name)
    requires Ordered(exts, order) && Closed(exts, Names(order))
    ensures n !in order <==> Blocked(exts, n)
  {
    if n !in order {
      var chain := FollowBlocked(exts, order, [n]);
    }
    if chain :| DeadEnd(exts, chain) && chain[0] == n {
      DeadEndNotOrdered(exts, order, chain);
    }
  }

  // ---- The merged attribute map ----

  function Merge(base: AttrMap, fragment: AttrMap): AttrMap {
    map r | r in base.Keys + fragment.Keys :: Merged(base, fragment, r)
  }

  // The attributes of one resource, those of the fragment taking precedence.
  function Merged(base: AttrMap, fragment: AttrMap, r: Resource): Definitions {
    (if r in base then base[r] else map[]) + (if r in fragment then fragment[r] else map[])
  }

  function FragmentOf(exts: Registry, n: Name): AttrMap
    requires Extends(exts, n)
  {
    if exts[n].fragment.value.Some? then exts[n].fragment.value.value else map[]
  }

  function MergeAll(exts: Registry, base: AttrMap, order: seq<Name>): AttrMap
    requires forall n | n in order :: Extends(exts, n)
  {
    if order == [] then base
    else Merge(MergeAll(exts, base, order[..|order| - 1]), FragmentOf(exts, order[|order| - 1]))
  }

  // The definition of attribute a of resource r.
  function Lookup(m: AttrMap, r: Resource, a: string): Option<string> {
    if r in m && a in m[r] then Some(m[r][a]) else None
  }

  ghost predicate AllExtend(exts: Registry, names: set<Name>) {
    forall n | n in names :: Extends(exts, n)
  }

  // The fragments of these extensions give a shared attribute the same definition.
  ghost predicate Agree(exts: Registry, names: set<Name>)
    requires AllExtend(exts, names)
  {
    forall m, n, r, a | m in names && n in names
      && Lookup(FragmentOf(exts, m), r, a).Some? && Lookup(FragmentOf(exts, n), r, a).Some? ::
      Lookup(FragmentOf(exts, m), r, a) == Lookup(FragmentOf(exts, n), r, a)
  }

  // Some processed extension defines the attribute, as d.
  ghost predicate Gives(exts: Registry, names: set<Name>, r: Resource, a: string, d: string)
    requires AllExtend(exts, names)
  {
    exists n | n in names :: Lookup(FragmentOf(exts, n), r, a) == Some(d)
  }

  ghost predicate Touches(exts: Registry, names: set<Name>, r: Resource)
    requires AllExtend(exts, names)
  {
    exists n | n in names :: r in FragmentOf(exts, n)
  }

  // The attribute is defined as a processed extension has it, else as the base has it.
  ghost predicate RightAt(exts: Registry, base: AttrMap, names: set<Name>, m: AttrMap, r: Resource, a: string)
    requires AllExtend(exts, names)
  {
    && (forall d | Gives(exts, names, r, a, d) :: Lookup(m, r, a) == Some(d))
    && ((forall d :: !Gives(exts, names, r, a, d)) ==> Lookup(m, r, a) == Lookup(base, r, a))
  }

  ghost predicate IsUnion(exts: Registry, base: AttrMap, names: set<Name>, m: AttrMap)
    requires AllExtend(exts, names)
  {
    && (forall r :: r in m <==> r in base || Touches(exts, names, r))
    && (forall r, a :: RightAt(exts, base, names, m, r, a))
  }

  lemma {:induction false} MergeAllIsUnion(exts: Registry, base: AttrMap, order: seq<Name>)
    requires (forall n | n in order :: Extends(exts, n)) && Agree(exts, Names(order))
    ensures IsUnion(exts, base, Names(order), MergeAll(exts, base, order))
  {
    if order == [] {
      forall r, a ensures RightAt(exts, base, Names(order), base, r, a) {
      }
    } else {
      var n := order[|order| - 1];
      var before := order[..|order| - 1];
      assert Names(order) == Names(before) + {n};
      MergeAllIsUnion(exts, base, before);
      var m := MergeAll(exts, base, before);
      forall r, a ensures RightAt(exts, base, Names(order), Merge(m, FragmentOf(exts, n)), r, a) {
        UnionStep(exts, base, Names(before), m, n, r, a);
      }
    }
  }

  lemma UnionStep(exts: Registry, base: AttrMap, names: set<Name>, m: AttrMap, n: Name, r: Resource, a: string)
    requires Extends(exts, n) && AllExtend(exts, names) && Agree(exts, names + {n})
    requires RightAt(exts, base, names, m, r, a)
    ensures RightAt(exts, base, names + {n}, Merge(m, FragmentOf(exts, n)), r, a)
  {
    var mine := Lookup(FragmentOf(exts, n), r, a);
    assert Lookup(Merge(m, FragmentOf(exts, n)), r, a) == if mine.Some? then mine else Lookup(m, r, a);
    if mine.Some? {
      assert Gives(exts, names + {n}, r, a, mine.value);
    } else {
      forall d ensures Gives(exts, names + {n}, r, a, d) <==> Gives(exts, names, r, a, d) {
      }
    }
  }

  lemma UnionIsUnique(exts: Registry, base: AttrMap, names: set<Name>, m: AttrMap, m': AttrMap)
    requires AllExtend(exts, names) && IsUnion(exts, base, names, m) && IsUnion(exts, base, names, m')
    ensures m == m'
  {
    forall r | r in m ensures r in m' && m[r] == m'[r] {
      forall a ensures Lookup(m, r, a) == Lookup(m', r, a) {
        assert RightAt(exts, base, names, m, r, a) && RightAt(exts, base, names, m', r, a);
      }
      assert forall a :: (a in m[r] <==> Lookup(m, r, a).Some?) && (a in m'[r] <==> Lookup(m', r, a).Some?);
    }
    assert m.Keys == m'.Keys;
  }

  // Whatever order the dictionaries are walked in, loading processes the same extensions and,
  // when their fragments agree, ends with the same attribute map.
  lemma LoadingConfluent(exts: Registry, base: AttrMap, order: seq<Name>, order': seq<Name>)
    requires Ordered(exts, order) && Closed(exts, Names(order))
    requires Ordered(exts, order') && Closed(exts, Names(order'))
    ensures AllExtend(exts, Names(order)) && Names(order) == Names(order')
    ensures Agree(exts, Names(order)) ==> MergeAll(exts, base, order) == MergeAll(exts, base, order')
  {
    OrderIsLeast(exts, order);
    OrderIsLeast(exts, order');
    LeastIsUnique(exts, Names(order), Names(order'));
    forall n | n in Names(order) ensures Extends(exts, n) && n in order' {
      var i :| 0 <= i < |order| && order[i] == n;
    }
    if Agree(exts, Names(order)) {
      MergeAllIsUnion(exts, base, order);
      MergeAllIsUnion(exts, base, order');
      UnionIsUnique(exts, base, Names(order), MergeAll(exts, base, order), MergeAll(exts, base, order'));
    }
  }

  // ---- extend_resources ----

  class AttributeMap {
    var entries: AttrMap

    constructor (entries: AttrMap)
      ensures this.entries == entries
    {
      this.entries := entries;
    }

    // Adds the attributes of one extension, resource by resource.
    method Extend(fragment: AttrMap)
      modifies this
      ensures entries == Merge(old(entries), fragment)
    {
      var todo := fragment.Keys;
      while todo != {}
        invariant todo <= fragment.Keys && PartlyMerged(old(entries), fragment, todo, entries)
      {
        var r :| r in todo;
        MergeOne(old(entries), fragment, todo, entries, r);
        if r in entries && entries[r] != map[] {
          entries := entries[r := entries[r] + fragment[r]];
        } else {
          entries := entries[r := fragment[r]];
        }
        todo := todo - {r};
      }
    }
  }

  // All resources but those in todo are merged.
  ghost predicate PartlyMerged(base: AttrMap, fragment: AttrMap, todo: set<Resource>, m: AttrMap) {
    && m.Keys == base.Keys + (fragment.Keys - todo)
    && forall r | r in m :: m[r] == if r in todo then base[r] else Merged(base, fragment, r)
  }

  lemma MergeOne(base: AttrMap, fragment: AttrMap, todo: set<Resource>, m: AttrMap, r: Resource)
    requires r in todo && todo <= fragment.Keys && PartlyMerged(base, fragment, todo, m)
    ensures PartlyMerged(base, fragment, todo - {r}, m[r := Merged(base, fragment, r)])
    ensures Merged(base, fragment, r) == if r in m && m[r] != map[] then m[r] + fragment[r] else fragment[r]
  {
    assert map[] + fragment[r] == fragment[r];
  }

  class ExtensionManager {
    var extensions: Registry

    constructor (extensions: Registry)
      ensures this.extensions == extensions
    {
      this.extensions := extensions;
    }

    // Fetches the attributes of an extension whose requirements are in.
    method Process(attrMap: AttributeMap, toProcess: Registry, order: seq<Name>, n: Name, ghost base: AttrMap)
      returns (toProcess': Registry, order': seq<Name>)
      requires Pending(extensions, toProcess, order) && n in toProcess && Extends(extensions, n)
      requires Requires(extensions, n) <= Names(order)
      requires attrMap.entries == MergeAll(extensions, base, order)
      modifies attrMap
      ensures toProcess' == toProcess - {n} && order' == order + [n]
      ensures Pending(extensions, toProcess', order')
      ensures attrMap.entries == MergeAll(extensions, base, order')
    {
      var ext := extensions[n];
      if ext.fragment.value.Some? {
        attrMap.Extend(ext.fragment.value.value);
      } else {
        MergeNothing(attrMap.entries);
      }
      OrderedStep(extensions, order, n);
      toProcess', order' := toProcess - {n}, order + [n];
      assert order'[..|order'| - 1] == order;
    }

    // One turn of the loop.
    method Visit(attrMap: AttributeMap, toProcess: Registry, order: seq<Name>, calls: seq<Name>, n: Name,
                 ghost base: AttrMap)
      returns (toProcess': Registry, order': seq<Name>, calls': seq<Name>)
      requires Pending(extensions, toProcess, order) && n in toProcess
      requires attrMap.entries == MergeAll(extensions, base, order)
      modifies attrMap
      ensures Pending(extensions, toProcess', order') && attrMap.entries == MergeAll(extensions, base, order')
      ensures calls' == if Extends(extensions, n) && extensions[n].updates then calls + [n] else calls
      ensures if !Extends(extensions, n) then toProcess' == toProcess - {n} && order' == order
              else if Requires(extensions, n) <= Names(order)
              then toProcess' == toProcess - {n} && order' == order + [n]
              else toProcess' == toProcess && order' == order
    {
      toProcess', order', calls' := toProcess, order, calls;
      var ext := extensions[n];
      if ext.fragment.None? {
        toProcess' := toProcess - {n};
        return;
      }
      if ext.updates {
        calls' := calls + [n];
      }
      if ext.required.Some? && !(ext.required.value <= Names(order)) {
        return;
      }
      toProcess', order' := Process(attrMap, toProcess, order, n, base);
    }

    // `order` lists the processed extensions, `turn` says in which pass each was processed, and
    // `calls` lists the calls of update_attributes_map made at the end. Those go to every
    // extension that has both hooks, once for every pass up to the one in which it is processed,
    // and once for each of the passes when it never is.
    method ExtendResources(attrMap: AttributeMap)
      returns (order: seq<Name>, calls: seq<Name>, ghost turn: map<Name, nat>, ghost passes: nat)
      modifies attrMap
      ensures Ordered(extensions, order) && Closed(extensions, Names(order))
      ensures (forall n | n in order :: Extends(extensions, n))
              && attrMap.entries == MergeAll(extensions, old(attrMap.entries), order)
      ensures InTurn(order, turn, passes) && passes <= |order| + 1 && (extensions != map[] ==> passes > 0)
      ensures forall n :: multiset(calls)[n] == Times(extensions, order, turn, passes, n)
    {
      order, calls, turn, passes := [], [], map[], 0;
      var toProcess := extensions;
      ghost var base := attrMap.entries;
      while toProcess != map[]
        invariant Pending(extensions, toProcess, order) && attrMap.entries == MergeAll(extensions, base, order)
        invariant InTurn(order, turn, passes) && passes <= |order| && (passes == 0 ==> toProcess == extensions)
        invariant Counted(extensions, calls, order, turn, passes, toProcess.Keys)
        decreases toProcess.Keys
      {
        var count := |order|;
        toProcess, order, calls, turn := OnePass(attrMap, toProcess, order, calls, turn, passes, base);
        passes := passes + 1;
        CountedAgain(extensions, calls, order, turn, passes, toProcess);
        if |order| == count {
          break;
        }
      }
      CountedTimes(extensions, calls, order, turn, passes, toProcess);
    }

    // The loop over a snapshot of what is to process.
    method OnePass(attrMap: AttributeMap, toProcess: Registry, order: seq<Name>, calls: seq<Name>,
                   ghost turn: map<Name, nat>, ghost passes: nat, ghost base: AttrMap)
      returns (toProcess': Registry, order': seq<Name>, calls': seq<Name>, ghost turn': map<Name, nat>)
      requires Pending(extensions, toProcess, order) && attrMap.entries == MergeAll(extensions, base, order)
      requires InTurn(order, turn, passes) && Counted(extensions, calls, order, turn, passes, toProcess.Keys)
      modifies attrMap
      ensures Pending(extensions, toProcess', order') && attrMap.entries == MergeAll(extensions, base, order')
      ensures InTurn(order', turn', passes + 1) && Counted(extensions, calls', order', turn', passes, {})
      ensures toProcess'.Keys <= toProcess.Keys && |order| <= |order'|
      ensures if |order'| == |order| then Unready(extensions, toProcess'.Keys, order')
              else toProcess'.Keys < toProcess.Keys
    {
      toProcess', order', calls', turn' := toProcess, order, calls, turn;
      var pass := toProcess.Keys;
      InTurnLater(order, turn, passes);
      while pass != {}
        invariant pass <= toProcess'.Keys <= toProcess.Keys && |order| <= |order'|
        invariant Pending(extensions, toProcess', order') && attrMap.entries == MergeAll(extensions, base, order')
        invariant InTurn(order', turn', passes + 1) && Counted(extensions, calls', order', turn', passes, pass)
        invariant if |order'| == |order| then Unready(extensions, toProcess'.Keys - pass, order')
                  else toProcess'.Keys < toProcess.Keys
      {
        var n :| n in pass;
        toProcess', order', calls', turn' :=
          VisitInPass(attrMap, toProcess', order', calls', turn', passes, pass, n, base);
        pass := pass - {n};
      }
    }

    method VisitInPass(attrMap: AttributeMap, toProcess: Registry, order: seq<Name>, calls: seq<Name>,
                       ghost turn: map<Name, nat>, ghost passes: nat, ghost pass: set<Name>, n: Name,
                       ghost base: AttrMap)
      returns (toProcess': Registry, order': seq<Name>, calls': seq<Name>, ghost turn': map<Name, nat>)
      requires Pending(extensions, toProcess, order) && attrMap.entries == MergeAll(extensions, base, order)
      requires InTurn(order, turn, passes + 1) && Counted(extensions, calls, order, turn, passes, pass)
      requires n in pass && pass <= toProcess.Keys
      modifies attrMap
      ensures Pending(extensions, toProcess', order') && attrMap.entries == MergeAll(extensions, base, order')
      ensures InTurn(order', turn', passes + 1) && Counted(extensions, calls', order', turn', passes, pass - {n})
      ensures if !Extends(extensions, n) then toProcess' == toProcess - {n} && order' == order
              else if Requires(extensions, n) <= Names(order)
              then toProcess' == toProcess - {n} && order' == order + [n]
              else toProcess' == toProcess && order' == order
    {
      toProcess', order', calls' := Visit(attrMap, toProcess, order, calls, n, base);
      VisitCounts(extensions, toProcess, calls, order, turn, passes, pass, n, calls', order');
      turn' := if order' == order then turn else turn[n := passes + 1];
    }

    // An extension that requires one that is missing is not processed, and its hook is called.
    static method HookOfUnprocessed() returns (order: seq<Name>, calls: seq<Name>)
      ensures order == [] && calls == ["waits"]
    {
      var exts: Registry := map["waits" := Extension(Some(None), Some({"missing"}), true)];
      var manager := new ExtensionManager(exts);
      var attrMap := new AttributeMap(map[]);
      ghost var turn, passes;
      order, calls, turn, passes := manager.ExtendResources(attrMap);
      NothingReady(exts, order);
      assert "waits" in exts;
      OnlyCall(exts, calls, order, turn, passes);
    }
  }

  lemma NothingReady(exts: Registry, order: seq<Name>)
    requires exts == map["waits" := Extension(Some(None), Some({"missing"}), true)] && Ordered(exts, order)
    ensures order == []
  {
    SomeName(order);
    assert order[..|order|] == order;
    OrderedInEveryClosed(exts, order, {}, |order|);
  }

  lemma SomeName(order: seq<Name>)
    ensures order != [] ==> Names(order) != {}
  {
    if order != [] {
      assert order[0] in Names(order);
    }
  }

  lemma OnlyCall(exts: Registry, calls: seq<Name>, order: seq<Name>, turn: map<Name, nat>, passes: nat)
    requires exts == map["waits" := Extension(Some(None), Some({"missing"}), true)] && order == [] && passes == 1
    requires InTurn(order, turn, passes) && forall n :: multiset(calls)[n] == Times(exts, order, turn, passes, n)
    ensures calls == ["waits"]
  {
    assert multiset(calls) == multiset{"waits"};
    assert |calls| == |multiset(calls)| == 1;
    assert calls[0] in multiset(calls);
  }

  // ---- Passes ----

  // Every processed extension has its turn in one of the passes, in the order of processing.
  ghost predicate InTurn(order: seq<Name>, turn: map<Name, nat>, passes: nat) {
    && (forall n :: n in turn <==> n in order)
    && (forall n | n in turn :: 1 <= turn[n] <= passes)
    && (forall i, j | 0 <= i < j < |order| :: turn[order[i]] <= turn[order[j]])
  }

  // How often the hook of an extension is called.
  ghost function Times(exts: Registry, order: seq<Name>, turn: map<Name, nat>, passes: nat, n: Name): nat
    requires InTurn(order, turn, passes)
  {
    if !Extends(exts, n) || !exts[n].updates then 0 else if n in order then turn[n] else passes
  }

  lemma InTurnLater(order: seq<Name>, turn: map<Name, nat>, passes: nat)
    requires InTurn(order, turn, passes)
    ensures InTurn(order, turn, passes + 1)
  {
  }

  lemma TurnOne(order: seq<Name>, order': seq<Name>, turn: map<Name, nat>, pass: nat, n: Name)
    requires InTurn(order, turn, pass) && pass >= 1 && n !in order && (order' == order || order' == order + [n])
    ensures InTurn(order', if order' == order then turn else turn[n := pass], pass)
  {
  }

  // After some passes, those in `left` not being visited yet in the present one.
  ghost predicate Counted(exts: Registry, calls: seq<Name>, order: seq<Name>, turn: map<Name, nat>, passes: nat,
                          left: set<Name>)
    requires forall n | n in order :: n in turn
  {
    forall n :: multiset(calls)[n] ==
      if !Extends(exts, n) || !exts[n].updates then 0
      else if n in order then turn[n]
      else if n in left then passes else passes + 1
  }

  lemma CountOne(exts: Registry, calls: seq<Name>, order: seq<Name>, turn: map<Name, nat>, passes: nat,
                 left: set<Name>, n: Name, calls': seq<Name>, order': seq<Name>)
    requires (forall m | m in order :: m in turn) && Counted(exts, calls, order, turn, passes, left)
    requires n in left && n !in order && (order' == order || order' == order + [n])
    requires calls' == if Extends(exts, n) && exts[n].updates then calls + [n] else calls
    ensures var turn' := if order' == order then turn else turn[n := passes + 1];
            (forall m | m in order' :: m in turn') && Counted(exts, calls', order', turn', passes, left - {n})
  {
  }

  lemma VisitCounts(exts: Registry, toProcess: Registry, calls: seq<Name>, order: seq<Name>, turn: map<Name, nat>,
                    passes: nat, left: set<Name>, n: Name, calls': seq<Name>, order': seq<Name>)
    requires Pending(exts, toProcess, order) && n in left && left <= toProcess.Keys
    requires InTurn(order, turn, passes + 1) && Counted(exts, calls, order, turn, passes, left)
    requires order' == order || order' == order + [n]
    requires calls' == if Extends(exts, n) && exts[n].updates then calls + [n] else calls
    ensures var turn' := if order' == order then turn else turn[n := passes + 1];
            InTurn(order', turn', passes + 1) && Counted(exts, calls', order', turn', passes, left - {n})
  {
    TurnOne(order, order', turn, passes + 1, n);
    CountOne(exts, calls, order, turn, passes, left, n, calls', order');
  }

  // Between two passes all that is still to process is left.
  lemma CountedAgain(exts: Registry, calls: seq<Name>, order: seq<Name>, turn: map<Name, nat>, passes: nat,
                     toProcess: Registry)
    requires InTurn(order, turn, passes) && passes > 0 && Pending(exts, toProcess, order)
    requires Counted(exts, calls, order, turn, passes - 1, {})
    ensures Counted(exts, calls, order, turn, passes, toProcess.Keys)
  {
  }

  lemma CountedTimes(exts: Registry, calls: seq<Name>, order: seq<Name>, turn: map<Name, nat>, passes: nat,
                     toProcess: Registry)
    requires InTurn(order, turn, passes) && Counted(exts, calls, order, turn, passes, toProcess.Keys)
    requires Pending(exts, toProcess, order)
    ensures forall n :: multiset(calls)[n] == Times(exts, order, turn, passes, n)
  {
  }

  // What is still to process: every attribute extension not processed yet.
  ghost predicate Pending(exts: Registry, toProcess: Registry, order: seq<Name>) {
    && toProcess.Keys <= exts.Keys
    && Ordered(exts, order)
    && (forall n | n in order :: Extends(exts, n))
    && (forall n | Extends(exts, n) :: n in toProcess <==> n !in order)
  }

  // Each of these lacks a requirement.
  ghost predicate Unready(exts: Registry, names: set<Name>, order: seq<Name>) {
    forall n | n in names :: Extends(exts, n) && !(Requires(exts, n) <= Names(order))
  }

  lemma MergeNothing(m: AttrMap)
    ensures Merge(m, map[]) == m
  {
    assert forall r | r in m :: Merged(m, map[], r) == m[r];
  }

  lemma OrderedStep(exts: Registry, order: seq<Name>, n: Name)
    requires Ordered(exts, order) && Extends(exts, n) && n !in order && Requires(exts, n) <= Names(order)
    ensures Ordered(exts, order + [n])
  {
    var longer := order + [n];
    forall i | 0 <= i < |longer|
      ensures Extends(exts, longer[i]) && longer[i] !in longer[..i]
      ensures forall r | r in Requires(exts, longer[i]) :: r in longer[..i]
    {
      assert longer[..i] == order[..i];
      assert order[..|order|] == order;
    }
  }
}
