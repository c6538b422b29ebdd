// What substituting the get_input calls of a template means (apmec/meo/meo_plugin.py,
// _update_params).
module Parameters {
  import opened Wrappers
  import opened Text
  import opened Values

  const GET_INPUT := "get_input"

  datatype InputError = InputValuesMissing(key: string) | UnhashableName

  // A dictionary with a get_input entry stands for a parameter.
  predicate IsCall(v: Value) {
    v.Obj? && GET_INPUT in v.dict
  }

  // The call names a supplied parameter.
  predicate Resolves(call: Value, params: Dict)
    requires IsCall(call)
  {
    call.dict[GET_INPUT].Str? && call.dict[GET_INPUT].text in params
  }

  function Argument(call: Value, params: Dict): Value
    requires IsCall(call) && Resolves(call, params)
  {
    params[call.dict[GET_INPUT].text]
  }

  // The substituted template; calls that do not resolve stay.
  function Subst(original: Dict, params: Dict): Dict
    decreases Obj(original)
  {
    map k | k in original ::
      var v := original[k];
      if IsCall(v) then (if Resolves(v, params) then Argument(v, params) else v)
      else if v.Obj? then assert v == Obj(v.dict); Obj(Subst(v.dict, params))
      else v
  }

  // Some call below does not resolve.
  predicate Unresolved(original: Dict, params: Dict)
    decreases Obj(original)
  {
    exists k | k in original ::
      var v := original[k];
      if IsCall(v) then !Resolves(v, params)
      else v.Obj? && (assert v == Obj(v.dict); Unresolved(v.dict, params))
  }

  // What does not mention get_input anywhere is left alone: the source skips it outright.
  lemma {:induction false} NothingToDo(original: Dict, params: Dict)
    requires !Mentions(Obj(original), GET_INPUT)
    ensures Subst(original, params) == original && !Unresolved(original, params)
    decreases Obj(original)
  {
    forall k | k in original
      ensures !IsCall(original[k]) && Subst(original, params)[k] == original[k]
      ensures original[k].Obj? ==> !Unresolved(original[k].dict, params)
    {
      var v := original[k];
      assert !Contains(k, GET_INPUT) && !Mentions(v, GET_INPUT);
      if v.Obj? {
        assert v == Obj(v.dict);
        assert Contains(GET_INPUT, GET_INPUT);
        NothingToDo(v.dict, params);
      }
    }
  }

  // Nothing at or below this value keeps the substitution from succeeding.
  predicate Settled(v: Value, params: Dict) {
    if IsCall(v) then Resolves(v, params) else v.Obj? ==> !Unresolved(v.dict, params)
  }

  // Every entry is as it was or as the substitution makes it.
  predicate Partly(original: Dict, params: Dict, r: Dict)
    decreases Obj(original), 1
  {
    r.Keys == original.Keys && forall k | k in original :: PartlyAt(original, params, k, r[k])
  }

  predicate PartlyAt(original: Dict, params: Dict, k: string, r: Value)
    requires k in original
    decreases Obj(original), 0
  {
    var v := original[k];
    || r == v
    || (IsCall(v) && Resolves(v, params) && r == Argument(v, params))
    || (v.Obj? && !IsCall(v) && r.Obj? && (assert v == Obj(v.dict); Partly(v.dict, params, r.dict)))
  }

  // ---- Which calls count ----

  // The first call on a path from the root, as the length of the path to it.
  function CallOn(original: Dict, path: seq<string>): (r: Option<nat>)
    ensures r.Some? ==> 0 < r.value <= |path|
    decreases |path|
  {
    if path == [] || path[0] !in original || !original[path[0]].Obj? then None
    else if IsCall(original[path[0]]) then Some(1)
    else
      match CallOn(original[path[0]].dict, path[1..])
      case None => None
      case Some(n) => Some(n + 1)
  }

  // It is the first: a call is found there and none before.
  lemma {:induction false} CallOnIsFirst(original: Dict, path: seq<string>, n: nat)
    requires n <= |path|
    ensures CallOn(original, path) == Some(n) <==>
            n > 0 && CallAt(original, path[..n]) && forall i | 0 < i < n :: !CallAt(original, path[..i])
    decreases |path|
  {
    if path != [] {
      forall i | 0 < i <= |path| ensures CallAt(original, path[..i]) <==> CallBelow(original, path, i) {
        assert path[..i][1..] == path[1..][..i - 1];
      }
      if path[0] in original && original[path[0]].Obj? {
        if IsCall(original[path[0]]) {
          assert CallBelow(original, path, 1);
        } else if n > 0 {
          CallOnIsFirst(original[path[0]].dict, path[1..], n - 1);
          assert !CallBelow(original, path, 1);
          assert forall i | 0 < i < n :: CallBelow(original, path, i + 1) ==
                                         CallAt(original[path[0]].dict, path[1..][..i]);
        }
      }
    }
  }

  // A call at the end of the first i keys, seen from the entry the first key leads to.
  predicate CallBelow(original: Dict, path: seq<string>, i: nat)
    requires 0 < i <= |path|
  {
    path[0] in original &&
    (var v := At(original[path[0]], path[1..][..i - 1]); v.Some? && IsCall(v.value))
  }

  predicate CallAt(original: Dict, path: seq<string>) {
    var v := At(Obj(original), path);
    path != [] && v.Some? && IsCall(v.value)
  }

  // The path leads, past no other call, to a call that does not resolve.
  predicate UnresolvedAt(original: Dict, params: Dict, path: seq<string>) {
    && CallAt(original, path)
    && CallOn(original, path) == Some(|path|)
    && !Resolves(At(Obj(original), path).value, params)
  }

  // Substitution fails exactly when following dictionaries can reach a call, no other call
  // before it, that does not resolve. Calls inside lists are not looked at.
  lemma {:induction false} FailsExactly(original: Dict, params: Dict)
    ensures Unresolved(original, params) <==>
            exists path :: UnresolvedAt(original, params, path)
    decreases Obj(original)
  {
    if Unresolved(original, params) {
      var path := UnresolvedPath(original, params);
    }
    if path :| UnresolvedAt(original, params, path) {
      PathUnresolved(original, params, path);
    }
  }

  // This is what stops the substitution at a call for which no argument is given: the key of the
  // entry that holds the call, unless the name is a list or a dictionary, which no key can be.
  ghost predicate Stops(original: Dict, params: Dict, path: seq<string>, error: InputError) {
    && UnresolvedAt(original, params, path)
    && var name := At(Obj(original), path).value.dict[GET_INPUT];
       error == if name.Str? || name.Num? then InputValuesMissing(path[|path| - 1]) else UnhashableName
  }

  // The error is that of some call which does not resolve.
  ghost predicate Explains(original: Dict, params: Dict, error: InputError) {
    exists path :: Stops(original, params, path, error)
  }

  lemma StopsHere(original: Dict, params: Dict, k: string, error: InputError)
    requires k in original && IsCall(original[k]) && !Resolves(original[k], params)
    requires var name := original[k].dict[GET_INPUT];
             error == if name.Str? || name.Num? then InputValuesMissing(k) else UnhashableName
    ensures Explains(original, params, error)
  {
    assert [k][1..] == [] && At(Obj(original), [k]) == Some(original[k]);
    assert Stops(original, params, [k], error);
  }

  lemma StopsBelow(original: Dict, params: Dict, k: string, error: InputError)
    requires k in original && original[k].Obj? && !IsCall(original[k])
    requires Explains(original[k].dict, params, error)
    ensures Explains(original, params, error)
  {
    var path :| Stops(original[k].dict, params, path, error);
    assert ([k] + path)[1..] == path && original[k] == Obj(original[k].dict);
    assert At(Obj(original), [k] + path) == At(original[k], path);
    assert Stops(original, params, [k] + path, error);
  }

  lemma {:induction false} UnresolvedPath(original: Dict, params: Dict) returns (path: seq<string>)
    requires Unresolved(original, params)
    ensures UnresolvedAt(original, params, path)
    decreases Obj(original)
  {
    var k :| k in original &&
      var v := original[k];
      if IsCall(v) then !Resolves(v, params) else v.Obj? && Unresolved(v.dict, params);
    if IsCall(original[k]) {
      return [k];
    }
    assert original[k] == Obj(original[k].dict);
    var rest := UnresolvedPath(original[k].dict, params);
    path := [k] + rest;
    assert path[1..] == rest;
  }

  lemma {:induction false} PathUnresolved(original: Dict, params: Dict, path: seq<string>)
    requires UnresolvedAt(original, params, path)
    ensures Unresolved(original, params)
    decreases |path|
  {
    var v := original[path[0]];
    assert At(Obj(original), path) == At(v, path[1..]);
    if IsCall(v) {
      assert path[1..] == [];
      assert !Resolves(v, params);
    } else {
      PathUnresolved(v.dict, params, path[1..]);
    }
  }

  // What is found on a path after the substitution: below a call, what the argument has there;
  // elsewhere what was there before, itself substituted if it is a dictionary.
  lemma {:induction false} SubstPaths(original: Dict, params: Dict, path: seq<string>)
    requires !Unresolved(original, params)
    ensures match CallOn(original, path)
            case Some(n) =>
              At(Obj(original), path[..n]).Some? && IsCall(At(Obj(original), path[..n]).value)
              && Resolves(At(Obj(original), path[..n]).value, params)
              && At(Obj(Subst(original, params)), path)
                 == At(Argument(At(Obj(original), path[..n]).value, params), path[n..])
            case None =>
              At(Obj(Subst(original, params)), path) ==
              match At(Obj(original), path)
              case Some(Obj(d)) => Some(Obj(Subst(d, params)))
              case other => other
    decreases |path|
  {
    if path != [] && path[0] in original && original[path[0]].Obj? {
      var v := original[path[0]];
      if IsCall(v) {
        assert path[..1] == [path[0]] && path[..1][1..] == [];
      } else {
        SubstPaths(v.dict, params, path[1..]);
        var n := CallOn(original, path);
        if n.Some? {
          assert path[..n.value][1..] == path[1..][..n.value - 1];
          assert path[n.value..] == path[1..][n.value - 1..];
        }
      }
    }
  }

  // No call can be reached from here through dictionaries.
  predicate NoCalls(v: Value) {
    v.Obj? ==> !IsCall(v) && forall k | k in v.dict :: NoCalls(v.dict[k])
  }

  predicate EntriesFree(d: Dict) {
    forall k | k in d :: NoCalls(d[k])
  }

  // With arguments free of calls none is left after a substitution that succeeds.
  lemma {:induction false} SubstLeavesNoCalls(original: Dict, params: Dict)
    requires !Unresolved(original, params) && EntriesFree(params)
    ensures EntriesFree(Subst(original, params))
    decreases Obj(original)
  {
    forall k | k in original ensures NoCalls(Subst(original, params)[k]) {
      var v := original[k];
      if v.Obj? && !IsCall(v) {
        assert v == Obj(v.dict);
        SubstLeavesNoCalls(v.dict, params);
        assert GET_INPUT !in Subst(v.dict, params);
      }
    }
  }

  lemma {:induction false} SubstNothing(original: Dict, params: Dict)
    requires EntriesFree(original)
    ensures Subst(original, params) == original && !Unresolved(original, params)
    decreases Obj(original)
  {
    forall k | k in original
      ensures !IsCall(original[k]) && Subst(original, params)[k] == original[k]
      ensures original[k].Obj? ==> !Unresolved(original[k].dict, params)
    {
      var v := original[k];
      assert NoCalls(v);
      if v.Obj? {
        assert v == Obj(v.dict);
        SubstNothing(v.dict, params);
      }
    }
  }

  // And so a second substitution, with whatever arguments, succeeds and changes nothing.
  lemma SubstIdempotent(original: Dict, params: Dict, again: Dict)
    requires !Unresolved(original, params) && EntriesFree(params)
    ensures !Unresolved(Subst(original, params), again)
    ensures Subst(Subst(original, params), again) == Subst(original, params)
  {
    SubstLeavesNoCalls(original, params);
    SubstNothing(Subst(original, params), again);
  }
}
