// The substitution of parameters as it runs, on a template that is changed in place
// (apmec/meo/meo_plugin.py, _update_params).
module ParameterUpdate {
  import opened Wrappers
  import opened Values
  import opened Trees
  import opened Parameters

  // The entry k is as it was.
  ghost predicate Untouched(t: Tree, d: Dict, k: string)
    reads t, t.Repr
  {
    t.HoldsAt(d, k, false) || (k in t.leaves && k in d && d[k] == t.leaves[k] && !d[k].Obj?)
  }

  // The call for a dictionary below the key k.
  method UpdateChild(t: Tree, k: string, params: Dict, ghost cur: Dict, ghost d: Dict)
    returns (error: Option<InputError>, ghost after: Dict)
    requires t.Holds(cur, true) && t.HoldsAt(d, k, false) && !IsCall(d[k])
    modifies t`Repr, t.children[k].Repr
    ensures t.Holds(cur[k := Obj(after)], true)
    ensures t.Repr == old(t.Repr) && t.ReprAt(k) == old(t.ReprAt(k))
    ensures error.Some? <==> Unresolved(d[k].dict, params)
    ensures error.Some? ==> Explains(d, params, error.value)
    ensures error.None? ==> after == Subst(d[k].dict, params)
    ensures Partly(d[k].dict, params, after)
    decreases t.Repr, 0
  {
    error, after := UpdateParams(t.children[k], params, d[k].dict);
    if error.Some? {
      StopsBelow(d, params, k, error.value);
    }
    forall j | j in t.children && j != k ensures t.HoldsAt(cur, j, true) && t.Apart(j, k) {
      assert old(t.HoldsAt(cur, j, true)) && old(t.Apart(j, k));
    }
    forall i, j | i in t.children && j in t.children && i != j && i != k && j != k ensures t.Apart(i, j) {
      assert old(t.Apart(i, j)) && old(t.Apart(i, k)) && old(t.Apart(j, k));
      assert old(t.HoldsAt(cur, i, true)) && old(t.HoldsAt(cur, j, true));
    }
    t.Adopt(k, cur, after, true);
  }

  // The entry k is a call.
  method ReplaceCall(t: Tree, k: string, params: Dict, ghost cur: Dict, ghost d: Dict)
    returns (error: Option<InputError>, ghost v: Value)
    requires t.Holds(cur, true) && t.HoldsAt(d, k, false) && k in d && IsCall(d[k]) && k in cur && cur[k] == d[k]
    modifies t
    ensures t.Holds(cur[k := v], true) && t.Repr == old(t.Repr)
    ensures t.children - {k} == old(t.children) - {k} && t.leaves - {k} == old(t.leaves) - {k}
    ensures error.None? <==> Resolves(d[k], params)
    ensures error.Some? ==> Explains(d, params, error.value)
    ensures v == if error.None? then Argument(d[k], params) else d[k]
  {
    var value := t.children[k];
    v := cur[k];
    assert cur[k := v] == cur;
    if GET_INPUT in value.children {
      assert value.HoldsAt(d[k].dict, GET_INPUT, false);
      StopsHere(d, params, k, UnhashableName);
      return Some(UnhashableName), v;
    }
    match value.leaves[GET_INPUT]
    case Str(name) =>
      if name !in params {
        StopsHere(d, params, k, InputValuesMissing(k));
        return Some(InputValuesMissing(k)), v;
      }
      v := params[name];
      t.Put(k, params[name], cur, true);
      return None, v;
    case Num(_) =>
      StopsHere(d, params, k, InputValuesMissing(k));
      return Some(InputValuesMissing(k)), v;
    case _ =>
      StopsHere(d, params, k, UnhashableName);
      return Some(UnhashableName), v;
  }

  // One turn of the loop.
  method UpdateEntry(t: Tree, k: string, params: Dict, ghost cur: Dict, ghost d: Dict)
    returns (error: Option<InputError>, ghost v: Value)
    requires t.Holds(cur, true) && Untouched(t, d, k) && k in cur && k in d && cur[k] == d[k]
    modifies t, t.ReprAt(k)
    ensures t.Holds(cur[k := v], true) && t.Repr == old(t.Repr)
    ensures t.children - {k} == old(t.children) - {k} && t.leaves - {k} == old(t.leaves) - {k}
    ensures error.None? <==> Settled(d[k], params)
    ensures error.Some? ==> Explains(d, params, error.value)
    ensures error.None? ==> v == Subst(d, params)[k]
    ensures PartlyAt(d, params, k, v)
    decreases t.Repr, 1
  {
    error, v := None, cur[k];
    assert cur[k := v] == cur;
    if k in t.children {
      assert t.HoldsAt(d, k, false);
      var value := t.children[k];
      ghost var e := d[k].dict;
      value.SaysWhatItMentions(GET_INPUT, e);
      if !value.Says(GET_INPUT, e) {
        NothingToDo(e, params);
        MentionsOwnCalls(d[k]);
      } else if GET_INPUT in value.leaves || GET_INPUT in value.children {
        error, v := ReplaceCall(t, k, params, cur, d);
      } else {
        ghost var after;
        error, after := UpdateChild(t, k, params, cur, d);
        v := Obj(after);
      }
    }
  }

  lemma MentionsOwnCalls(v: Value)
    requires v.Obj? && !Mentions(v, GET_INPUT)
    ensures !IsCall(v)
  {
    assert Text.Contains(GET_INPUT, GET_INPUT);
  }

  method Turn(t: Tree, k: string, params: Dict, ghost cur: Dict, ghost d: Dict, ghost todo: set<string>)
    returns (error: Option<InputError>, ghost v: Value)
    requires t.Holds(cur, true) && k in todo && todo <= d.Keys && k in cur && cur[k] == d[k]
    requires forall j | j in todo :: Untouched(t, d, j)
    modifies t, t.ReprAt(k)
    ensures t.Holds(cur[k := v], true) && t.Repr == old(t.Repr)
    ensures forall j | j in todo && j != k :: Untouched(t, d, j)
    ensures error.None? <==> Settled(d[k], params)
    ensures error.Some? ==> Explains(d, params, error.value)
    ensures error.None? ==> v == Subst(d, params)[k]
    ensures PartlyAt(d, params, k, v)
    decreases t.Repr, 2
  {
    t.ChildrenApart(cur, true);
    error, v := UpdateEntry(t, k, params, cur, d);
    forall j | j in todo && j != k ensures Untouched(t, d, j) {
      assert old(Untouched(t, d, j));
      assert old(t.ReprAt(j)) !! old(t.ReprAt(k));
      assert j in t.children <==> j in t.children - {k};
      assert j in t.leaves <==> j in t.leaves - {k};
    }
  }

  // The contents once the entries outside todo are substituted.
  ghost predicate Between(d: Dict, params: Dict, todo: set<string>, cur: Dict) {
    && cur.Keys == d.Keys
    && (forall k | k in d && k in todo :: cur[k] == d[k])
    && (forall k | k in d && k !in todo :: cur[k] == Subst(d, params)[k] && Settled(d[k], params))
  }

  lemma BetweenNext(d: Dict, params: Dict, todo: set<string>, cur: Dict, k: string, v: Value)
    requires Between(d, params, todo, cur) && k in todo && todo <= d.Keys && PartlyAt(d, params, k, v)
    ensures Settled(d[k], params) && v == Subst(d, params)[k] ==> Between(d, params, todo - {k}, cur[k := v])
    ensures !Settled(d[k], params) ==> Unresolved(d, params)
    ensures Partly(d, params, cur[k := v])
  {
    forall j | j in d ensures PartlyAt(d, params, j, cur[k := v][j]) {
      SubstIsPartly(d, params, j);
    }
  }

  lemma {:induction false} SubstIsPartly(d: Dict, params: Dict, k: string)
    requires k in d
    ensures PartlyAt(d, params, k, Subst(d, params)[k])
    decreases Obj(d)
  {
    var v := d[k];
    if v.Obj? && !IsCall(v) {
      assert v == Obj(v.dict);
      forall j | j in v.dict ensures PartlyAt(v.dict, params, j, Subst(v.dict, params)[j]) {
        SubstIsPartly(v.dict, params, j);
      }
    }
  }

  lemma BetweenDone(d: Dict, params: Dict, cur: Dict)
    requires Between(d, params, {}, cur)
    ensures cur == Subst(d, params) && !Unresolved(d, params) && Partly(d, params, cur)
  {
    forall k | k in d ensures PartlyAt(d, params, k, cur[k]) {
      SubstIsPartly(d, params, k);
    }
  }

  // It stops at the first call it cannot resolve, in whatever order the entries come; entries
  // met before that stay substituted.
  method UpdateParams(original: Tree, params: Dict, ghost d: Dict)
    returns (error: Option<InputError>, ghost after: Dict)
    requires original.Holds(d, false)
    modifies original.Repr
    ensures original.Holds(after, true) && original.Repr == old(original.Repr)
    ensures error.Some? <==> Unresolved(d, params)
    ensures error.Some? ==> Explains(d, params, error.value)
    ensures error.None? ==> after == Subst(d, params)
    ensures Partly(d, params, after)
    decreases original.Repr, 3
  {
    var todo := original.leaves.Keys + original.children.Keys;
    after := d;
    original.Mixes(d);
    assert forall k | k in original.children :: original.HoldsAt(d, k, false);
    while todo != {}
      invariant todo <= d.Keys && original.Holds(after, true) && original.Repr == old(original.Repr)
      invariant Between(d, params, todo, after)
      invariant forall k | k in todo :: Untouched(original, d, k)
    {
      var key :| key in todo;
      original.ChildrenApart(after, true);
      ghost var v;
      error, v := Turn(original, key, params, after, d, todo);
      BetweenNext(d, params, todo, after, key, v);
      after := after[key := v];
      if error.Some? {
        return;
      }
      todo := todo - {key};
    }
    BetweenDone(d, params, after);
    error := None;
  }

  // ---- _process_parameterized_input ----

  datatype ProcessError = ParamYAMLInputMissing | NoServiceParameters | Input(error: InputError)

  const NSD := "nsd"

  // The node template i is a tree among these objects, with these contents.
  ghost predicate NodeHolds(nodes: seq<Tree>, objects: set<Tree>, i: nat, d: Dict, mixed: bool)
    requires i < |nodes|
    reads objects
  {
    nodes[i] in objects && nodes[i].Repr <= objects && nodes[i].Holds(d, mixed)
  }

  ghost predicate Separate(nodes: seq<Tree>, objects: set<Tree>)
    reads objects
  {
    && (forall i | 0 <= i < |nodes| :: nodes[i] in objects)
    && (forall i, j | 0 <= i < j < |nodes| :: nodes[i].Repr !! nodes[j].Repr)
  }

  // The node needs nothing, or everything it needs is given.
  predicate Provided(d: Dict, params: map<string, Dict>) {
    Mentions(Obj(d), GET_INPUT) ==> NSD in params && !Unresolved(d, params[NSD])
  }

  function Filled(d: Dict, params: map<string, Dict>): Dict {
    if NSD in params then Subst(d, params[NSD]) else d
  }

  // Why a node template is not provided for.
  ghost predicate Accounts(d: Dict, params: map<string, Dict>, error: ProcessError) {
    match error
    case ParamYAMLInputMissing => false
    case NoServiceParameters => NSD !in params
    case Input(e) => NSD in params && Explains(d, params[NSD], e)
  }

  method ProcessNode(node: Tree, params: map<string, Dict>, ghost d: Dict) returns (error: Option<ProcessError>)
    requires node.Holds(d, false)
    modifies node.Repr
    ensures node.Repr == old(node.Repr)
    ensures error.None? <==> Provided(d, params)
    ensures error.Some? ==> Accounts(d, params, error.value)
    ensures error.None? ==> node.Holds(Filled(d, params), true)
  {
    node.Mixes(d);
    node.SaysWhatItMentions(GET_INPUT, d);
    if !node.Says(GET_INPUT, d) {
      if NSD in params {
        NothingToDo(d, params[NSD]);
      }
      return None;
    }
    if NSD !in params {
      return Some(NoServiceParameters);
    }
    var failed, after := UpdateParams(node, params[NSD], d);
    return if failed.Some? then Some(Input(failed.value)) else None;
  }

  // With parameters at all, it succeeds exactly when every node template is provided for, and
  // then every one of them is filled in.
  method ProcessParameterizedInput(nodes: seq<Tree>, paramValues: Option<map<string, Dict>>, ghost objects: set<Tree>,
                                   ghost ds: seq<Dict>)
    returns (error: Option<ProcessError>)
    requires |nodes| == |ds| && Separate(nodes, objects)
    requires forall i | 0 <= i < |nodes| :: NodeHolds(nodes, objects, i, ds[i], false)
    modifies objects
    ensures error == Some(ParamYAMLInputMissing) <==> paramValues.None? || paramValues.value == map[]
    ensures error.None? <==> paramValues.Some? && paramValues.value != map[]
                             && AllProvided(ds, paramValues.value, |ds|)
    ensures error.Some? && error.value != ParamYAMLInputMissing ==>
              exists i | 0 <= i < |ds| :: Accounts(ds[i], paramValues.value, error.value)
    ensures Separate(nodes, objects)
    ensures error.None? ==>
              forall i | 0 <= i < |nodes| :: NodeHolds(nodes, objects, i, Filled(ds[i], paramValues.value), true)
  {
    if paramValues.None? || paramValues.value == map[] {
      return Some(ParamYAMLInputMissing);
    }
    var params := paramValues.value;
    ghost var filled := seq(|ds|, i requires 0 <= i < |ds| => Filled(ds[i], params));
    error := ProcessNodes(nodes, params, objects, ds, filled);
    assert error.None? ==> forall i | 0 <= i < |nodes| ::
        NodeHolds(nodes, objects, i, filled[i], true) && filled[i] == Filled(ds[i], params);
  }

  ghost predicate AllProvided(ds: seq<Dict>, params: map<string, Dict>, k: nat)
    requires k <= |ds|
  {
    forall i | 0 <= i < k :: Provided(ds[i], params)
  }

  // The first k node templates are filled in, the others as they were.
  ghost predicate FilledUpTo(nodes: seq<Tree>, objects: set<Tree>, ds: seq<Dict>, filled: seq<Dict>, k: nat)
    requires |nodes| == |ds| == |filled|
    reads objects
  {
    && Separate(nodes, objects)
    && forall i | 0 <= i < |nodes| :: NodeHolds(nodes, objects, i, if i < k then filled[i] else ds[i], i < k)
  }

  method ProcessNodes(nodes: seq<Tree>, params: map<string, Dict>, ghost objects: set<Tree>, ghost ds: seq<Dict>,
                      ghost filled: seq<Dict>)
    returns (error: Option<ProcessError>)
    requires |nodes| == |ds| == |filled| && Separate(nodes, objects)
    requires forall i | 0 <= i < |nodes| :: filled[i] == Filled(ds[i], params)
    requires forall i | 0 <= i < |nodes| :: NodeHolds(nodes, objects, i, ds[i], false)
    modifies objects
    ensures Separate(nodes, objects)
    ensures error.None? <==> AllProvided(ds, params, |ds|)
    ensures error.Some? ==> exists i | 0 <= i < |ds| :: Accounts(ds[i], params, error.value)
    ensures error.None? ==> forall i | 0 <= i < |nodes| :: NodeHolds(nodes, objects, i, filled[i], true)
  {
    for k := 0 to |nodes|
      invariant FilledUpTo(nodes, objects, ds, filled, k) && AllProvided(ds, params, k)
    {
      error := ProcessOne(nodes, params, objects, ds, filled, k);
      if error.Some? {
        return;
      }
    }
    return None;
  }

  // One turn of the loop.
  method ProcessOne(nodes: seq<Tree>, params: map<string, Dict>, ghost objects: set<Tree>, ghost ds: seq<Dict>,
                    ghost filled: seq<Dict>, k: nat)
    returns (error: Option<ProcessError>)
    requires |nodes| == |ds| == |filled| && k < |nodes| && FilledUpTo(nodes, objects, ds, filled, k)
    requires filled[k] == Filled(ds[k], params) && AllProvided(ds, params, k)
    modifies objects
    ensures Separate(nodes, objects)
    ensures error.None? ==> FilledUpTo(nodes, objects, ds, filled, k + 1) && AllProvided(ds, params, k + 1)
    ensures error.Some? ==> !AllProvided(ds, params, |ds|) && Accounts(ds[k], params, error.value)
  {
    assert NodeHolds(nodes, objects, k, ds[k], false);
    error := ProcessNode(nodes[k], params, ds[k]);
    forall i | 0 <= i < |nodes| && i != k
      ensures NodeHolds(nodes, objects, i, if i < k then filled[i] else ds[i], i < k)
      ensures nodes[i].Repr == old(nodes[i].Repr)
    {
      assert old(NodeHolds(nodes, objects, i, if i < k then filled[i] else ds[i], i < k));
      assert old(nodes[i].Repr) !! old(nodes[k].Repr);
    }
    assert forall i | 0 <= i < |nodes| :: nodes[i].Repr == old(nodes[i].Repr);
  }
}
