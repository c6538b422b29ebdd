// What merging one nested dictionary into another means (apmec/common/utils.py, deep_update).
module Merging {
  import opened Wrappers
  import opened Values

  function Update(orig: Dict, new': Dict): Dict
    decreases Obj(new')
  {
    map k | k in orig.Keys + new'.Keys ::
      if k !in new' then orig[k]
      else if new'[k].Obj? && k in orig && orig[k].Obj? then
        assert new'[k] == Obj(new'[k].dict);
        Obj(Update(orig[k].dict, new'[k].dict))
      else new'[k]
  }

  // ---- What is found on each path ----

  // On the way to the end of the path there is a value that is no dictionary.
  predicate Shadows(v: Value, path: seq<string>) {
    path != [] && (!v.Obj? || (path[0] in v.dict && Shadows(v.dict[path[0]], path[1..])))
  }

  // The new value wins; where it and the old one are dictionaries they are merged; where there
  // is no new value the old one survives, unless a new scalar took the place of a dictionary
  // above it.
  lemma {:induction false} PathSemantics(orig: Dict, new': Dict, path: seq<string>)
    ensures At(Obj(Update(orig, new')), path) ==
            match (At(Obj(orig), path), At(Obj(new'), path))
            case (Some(Obj(o)), Some(Obj(n))) => Some(Obj(Update(o, n)))
            case (_, Some(n)) => Some(n)
            case (old', None) => if Shadows(Obj(new'), path) then None else old'
    decreases |path|
  {
    if path != [] {
      var k := path[0];
      if k in orig && k in new' && orig[k].Obj? && new'[k].Obj? {
        PathSemantics(orig[k].dict, new'[k].dict, path[1..]);
      } else if k in new' {
        ShadowedOrFound(new'[k], path[1..]);
      }
    }
  }

  lemma {:induction false} ShadowedOrFound(v: Value, path: seq<string>)
    ensures Shadows(v, path) ==> At(v, path).None?
  {
    if path != [] && v.Obj? && path[0] in v.dict {
      ShadowedOrFound(v.dict[path[0]], path[1..]);
    }
  }

  // ---- Repeated updates ----

  lemma {:induction false} UpdateIdempotent(orig: Dict, new': Dict)
    ensures Update(Update(orig, new'), new') == Update(orig, new')
    decreases Obj(new')
  {
    var once := Update(orig, new');
    forall k | k in once ensures Update(once, new')[k] == once[k] {
      if k in new' && new'[k].Obj? {
        assert new'[k] == Obj(new'[k].dict);
        if k in orig && orig[k].Obj? {
          UpdateIdempotent(orig[k].dict, new'[k].dict);
        } else {
          CoversItself(new'[k].dict);
          AbsorbedExactly(new'[k].dict, new'[k].dict);
        }
      }
    }
    assert Update(once, new').Keys == once.Keys;
  }

  // Every entry of a is overridden by c, all the way down.
  predicate Covers(a: Dict, c: Dict)
    decreases Obj(c)
  {
    forall k | k in a ::
      k in c && (a[k].Obj? && c[k].Obj? ==>
                   assert c[k] == Obj(c[k].dict); Covers(a[k].dict, c[k].dict))
  }

  lemma {:induction false} CoversItself(c: Dict)
    ensures Covers(c, c)
    decreases Obj(c)
  {
    forall k | k in c && c[k].Obj? ensures Covers(c[k].dict, c[k].dict) {
      assert c[k] == Obj(c[k].dict);
      CoversItself(c[k].dict);
    }
  }

  // Nothing of a is left after updating it with c exactly if c covers a.
  lemma {:induction false} AbsorbedExactly(a: Dict, c: Dict)
    ensures Update(a, c) == c <==> Covers(a, c)
    decreases Obj(c)
  {
    forall k | k in a && k in c && a[k].Obj? && c[k].Obj?
      ensures Update(a[k].dict, c[k].dict) == c[k].dict <==> Covers(a[k].dict, c[k].dict)
    {
      assert c[k] == Obj(c[k].dict);
      AbsorbedExactly(a[k].dict, c[k].dict);
    }
    if Covers(a, c) {
      assert Update(a, c).Keys == c.Keys;
      forall k | k in c ensures Update(a, c)[k] == c[k] {}
    }
    if Update(a, c) == c {
      forall k | k in a
        ensures k in c && (a[k].Obj? && c[k].Obj? ==> Covers(a[k].dict, c[k].dict))
      {
        assert k in Update(a, c);
      }
    }
  }

  // A dictionary in a that a scalar of b replaces and a dictionary of c replaces again leaves
  // nothing that c does not override.
  predicate Compatible(a: Dict, b: Dict, c: Dict)
    decreases Obj(c)
  {
    forall k | k in a && k in b && k in c && a[k].Obj? && c[k].Obj? ::
      assert c[k] == Obj(c[k].dict);
      if b[k].Obj? then Compatible(a[k].dict, b[k].dict, c[k].dict) else Covers(a[k].dict, c[k].dict)
  }

  // Updating with b and then with c is the same as updating once with the merge of both,
  // exactly under that condition.
  lemma {:induction false} AssociativeExactly(a: Dict, b: Dict, c: Dict)
    ensures Update(Update(a, b), c) == Update(a, Update(b, c)) <==> Compatible(a, b, c)
    decreases Obj(c)
  {
    var left, right := Update(Update(a, b), c), Update(a, Update(b, c));
    assert left.Keys == right.Keys;
    forall k | k in left ensures left[k] == right[k] <==> CompatibleAt(a, b, c, k) {
      AssociativeAt(a, b, c, k);
    }
    if Compatible(a, b, c) {
      forall k | k in left ensures left[k] == right[k] {
        assert CompatibleAt(a, b, c, k);
      }
      assert left == right;
    }
    if left == right {
      forall k | k in a && k in b && k in c && a[k].Obj? && c[k].Obj?
        ensures if b[k].Obj? then Compatible(a[k].dict, b[k].dict, c[k].dict) else Covers(a[k].dict, c[k].dict)
      {
        assert k in left && CompatibleAt(a, b, c, k);
      }
    }
  }

  predicate CompatibleAt(a: Dict, b: Dict, c: Dict, k: string) {
    k in a && k in b && k in c && a[k].Obj? && c[k].Obj? ==>
      if b[k].Obj? then Compatible(a[k].dict, b[k].dict, c[k].dict) else Covers(a[k].dict, c[k].dict)
  }

  lemma {:induction false} AssociativeAt(a: Dict, b: Dict, c: Dict, k: string)
    requires k in a || k in b || k in c
    ensures Update(Update(a, b), c)[k] == Update(a, Update(b, c))[k] <==> CompatibleAt(a, b, c, k)
    decreases Obj(c), 0
  {
    if k in a && k in c && a[k].Obj? && c[k].Obj? && k in b {
      assert c[k] == Obj(c[k].dict);
      if b[k].Obj? {
        AssociativeExactly(a[k].dict, b[k].dict, c[k].dict);
      } else {
        AbsorbedExactly(a[k].dict, c[k].dict);
      }
    }
  }

  const SERVER: Dict := map["config" := Obj(map["port" := Num(80)])]
  const OFF: Dict := map["config" := Num(0)]
  const EMPTY: Dict := map["config" := Obj(map[])]

  // A dictionary, a scalar and an empty dictionary under one key: in two steps nothing is left of
  // the first, but merging the last two first saves it.
  lemma AssociativityFails()
    ensures Update(Update(SERVER, OFF), EMPTY) == EMPTY
    ensures Update(SERVER, Update(OFF, EMPTY)) == SERVER
    ensures SERVER != EMPTY
  {
    assert Update(SERVER, OFF) == OFF;
    assert Update(OFF, EMPTY) == EMPTY && Update(map["port" := Num(80)], map[]) == map["port" := Num(80)];
    assert "port" in SERVER["config"].dict && "port" !in EMPTY["config"].dict;
  }
}
