// Nested dictionaries that are changed in place. Every dictionary is an object of its own,
// whose entries are either values or further dictionaries.
module Trees {
  import opened Wrappers
  import opened Values
  import opened Text

  class Tree {
    var leaves: map<string, Value>
    var children: map<string, Tree>
    ghost var Repr: set<Tree>

    // The tree has the contents d, and its objects are in Repr. Where `mixed` allows it,
    // values may be dictionaries as well, which then belong to somebody else.
    ghost predicate Holds(d: Dict, mixed: bool)
      reads this, Repr
      decreases Repr, 1
    {
      && this in Repr && leaves.Keys !! children.Keys && d.Keys == leaves.Keys + children.Keys
      && (forall k | k in leaves :: (mixed || !leaves[k].Obj?) && d[k] == leaves[k])
      && (forall k | k in children :: HoldsAt(d, k, mixed))
      && (forall j, k | j in children && k in children && j != k :: Apart(j, k))
    }

    ghost predicate HoldsAt(d: Dict, k: string, mixed: bool)
      reads this, Repr
      decreases Repr, 0
    {
      && k in children && k in d && d[k].Obj?
      && children[k] in Repr && children[k] in children[k].Repr && children[k].Repr <= Repr
      && this in Repr && this !in children[k].Repr
      && children[k].Holds(d[k].dict, mixed)
    }

    ghost predicate Apart(j: string, k: string)
      requires j in children && k in children
      reads this, children[j], children[k]
    {
      children[j].Repr !! children[k].Repr
    }

    // All but the child k is as it should be.
    ghost predicate HoldsBut(d: Dict, k: string, mixed: bool)
      reads this, Repr, children.Values
    {
      && this in Repr && leaves.Keys !! children.Keys && d.Keys == leaves.Keys + children.Keys && k in children
      && (forall j | j in leaves :: (mixed || !leaves[j].Obj?) && d[j] == leaves[j])
      && (forall j | j in children && j != k :: HoldsAt(d, j, mixed) && Apart(j, k))
      && (forall i, j | i in children && j in children && i != j && i != k && j != k :: Apart(i, j))
    }

    function ChildAt(k: string): Option<Tree>
      reads this
    {
      if k in children then Some(children[k]) else None
    }

    // The objects of the child k, if there is one.
    ghost function ReprAt(k: string): set<Tree>
      reads this, children.Values
    {
      if k in children then children[k].Repr else {}
    }

    lemma ChildrenApart(d: Dict, mixed: bool)
      requires Holds(d, mixed)
      ensures forall k :: ReprAt(k) <= Repr && this !in ReprAt(k)
      ensures forall j, k | j != k :: ReprAt(j) !! ReprAt(k)
    {
      assert forall k | k in children :: HoldsAt(d, k, mixed);
      assert forall j, k | j in children && k in children && j != k :: Apart(j, k);
    }

    lemma {:induction false} Mixes(d: Dict)
      requires Holds(d, false)
      ensures Holds(d, true)
      decreases Repr
    {
      forall k | k in children ensures HoldsAt(d, k, true) {
        assert HoldsAt(d, k, false);
        children[k].Mixes(d[k].dict);
      }
    }

    // `text in str(self)`
    predicate Says(text: string, ghost d: Dict)
      requires Holds(d, false)
      reads this, Repr
      decreases Repr
    {
      || (exists k | k in leaves :: Contains(k, text) || Mentions(leaves[k], text))
      || (exists k | k in children ::
            Contains(k, text) || (assert HoldsAt(d, k, false); children[k].Says(text, d[k].dict)))
    }

    lemma {:induction false} SaysWhatItMentions(text: string, d: Dict)
      requires Holds(d, false)
      ensures Says(text, d) <==> Mentions(Obj(d), text)
      decreases Repr
    {
      forall k | k in children ensures d[k].Obj? && children[k].Holds(d[k].dict, false)
      ensures children[k].Says(text, d[k].dict) <==> Mentions(d[k], text) {
        assert HoldsAt(d, k, false);
        children[k].SaysWhatItMentions(text, d[k].dict);
      }
    }

    // self[k] = v
    method Put(k: string, v: Value, ghost d: Dict, ghost mixed: bool)
      requires Holds(d, mixed) && (mixed || !v.Obj?)
      modifies this
      ensures Holds(d[k := v], mixed)
      ensures Repr == old(Repr) && children == old(children) - {k} && leaves == old(leaves)[k := v]
    {
      LeafKeys(d, leaves, children, k, v);
      children := children - {k};
      leaves := leaves[k := v];
      forall j | j in children ensures HoldsAt(d[k := v], j, mixed) {
        assert old(HoldsAt(d, j, mixed));
      }
      forall i, j | i in children && j in children && i != j ensures Apart(i, j) {
        assert old(Apart(i, j));
      }
    }

    // self[k] = t, for a dictionary t that comes from elsewhere
    method Graft(k: string, t: Tree, ghost d: Dict, ghost e: Dict, ghost mixed: bool)
      requires Holds(d, mixed) && t.Holds(e, mixed) && t.Repr !! Repr && k !in children
      modifies this
      ensures Holds(d[k := Obj(e)], mixed)
      ensures Repr == old(Repr) + t.Repr && children == old(children)[k := t] && leaves == old(leaves) - {k}
    {
      SetChild(k, t, d, e, mixed);
      Adopt(k, d[k := Obj(e)], e, mixed);
      assert d[k := Obj(e)][k := Obj(e)] == d[k := Obj(e)];
    }

    method SetChild(k: string, t: Tree, ghost d: Dict, ghost e: Dict, ghost mixed: bool)
      requires Holds(d, mixed) && t.Holds(e, mixed) && t.Repr !! Repr && k !in children
      modifies this`leaves, this`children
      ensures HoldsBut(d[k := Obj(e)], k, mixed) && t.Holds(e, mixed) && this !in t.Repr
      ensures children == old(children)[k := t] && leaves == old(leaves) - {k}
    {
      ChildKeys(d, leaves, children, k, t, Obj(e));
      leaves := leaves - {k};
      children := children[k := t];
      forall j | j in children && j != k ensures HoldsAt(d[k := Obj(e)], j, mixed) && Apart(j, k) {
        assert old(HoldsAt(d, j, mixed));
      }
      forall i, j | i in children && j in children && i != j && i != k && j != k ensures Apart(i, j) {
        assert old(Apart(i, j));
      }
    }

    // The child k has changed by itself.
    ghost method Adopt(k: string, d: Dict, e: Dict, mixed: bool)
      requires HoldsBut(d, k, mixed) && children[k].Holds(e, mixed) && this !in children[k].Repr
      modifies this`Repr
      ensures Holds(d[k := Obj(e)], mixed) && Repr == old(Repr) + children[k].Repr
    {
      Repr := Repr + children[k].Repr;
      forall j | j in children ensures HoldsAt(d[k := Obj(e)], j, mixed) {
        if j == k {
          assert children[k] in children[k].Repr;
        } else {
          assert old(HoldsAt(d, j, mixed)) && old(Apart(j, k));
        }
      }
      forall i, j | i in children && j in children && i != j ensures Apart(i, j) {
        assert i == k ==> old(Apart(j, k));
        assert j == k ==> old(Apart(i, k));
        assert i != k && j != k ==> old(Apart(i, j));
      }
    }
  }

  lemma ChildKeys(d: Dict, leaves: map<string, Value>, children: map<string, Tree>, k: string, t: Tree, v: Value)
    requires leaves.Keys !! children.Keys && d.Keys == leaves.Keys + children.Keys
    ensures (leaves - {k}).Keys !! children[k := t].Keys
    ensures d[k := v].Keys == (leaves - {k}).Keys + children[k := t].Keys
  {
  }

  lemma LeafKeys(d: Dict, leaves: map<string, Value>, children: map<string, Tree>, k: string, v: Value)
    requires leaves.Keys !! children.Keys && d.Keys == leaves.Keys + children.Keys
    ensures leaves[k := v].Keys !! (children - {k}).Keys
    ensures d[k := v].Keys == leaves[k := v].Keys + (children - {k}).Keys
  {
  }
}
