// Creating several objects in one request, when the plugin has no bulk operation
// (apmec/api/v1/base.py, _emulate_bulk_create). What the plugin does for each item is given
// in advance: it creates the object, raises before having stored it, or raises afterwards.
module BulkCreate {
  import opened Wrappers

  type Id = nat
  type Item = string
  type Rows = map<Id, Item>

  datatype Obj = Obj(id: Id, item: Item)

  datatype Outcome = Created(id: Id) | Raised | RaisedStored(id: Id)

  // Ids are new and used once.
  ghost predicate FreshIds(rows: Rows, outcomes: seq<Outcome>) {
    && (forall i | 0 <= i < |outcomes| && !outcomes[i].Raised? :: outcomes[i].id !in rows)
    && (forall i, j | 0 <= i < j < |outcomes| && !outcomes[i].Raised? && !outcomes[j].Raised? ::
          outcomes[i].id != outcomes[j].id)
  }

  // How many items are created before the first failure.
  function Successes(outcomes: seq<Outcome>): (n: nat)
    ensures n <= |outcomes|
    ensures forall i | 0 <= i < n :: outcomes[i].Created?
    ensures n < |outcomes| ==> !outcomes[n].Created?
  {
    if outcomes != [] && outcomes[0].Created? then 1 + Successes(outcomes[1..]) else 0
  }

  ghost predicate AllCreated(outcomes: seq<Outcome>) {
    forall i | 0 <= i < |outcomes| :: outcomes[i].Created?
  }

  // The rows after the first n items.
  function After(before: Rows, items: seq<Item>, outcomes: seq<Outcome>, n: nat): Rows
    requires n <= |items| == |outcomes|
  {
    if n == 0 then before
    else
      var rows := After(before, items, outcomes, n - 1);
      if outcomes[n - 1].Raised? then rows else rows[outcomes[n - 1].id := items[n - 1]]
  }

  // The ids of the items created before the failure.
  function CreatedIds(outcomes: seq<Outcome>): set<Id> {
    set i | 0 <= i < Successes(outcomes) :: outcomes[i].id
  }

  // What the failing item itself leaves in the rows.
  function Remnant(outcomes: seq<Outcome>): set<Id> {
    var n := Successes(outcomes);
    if n < |outcomes| && outcomes[n].RaisedStored? then {outcomes[n].id} else {}
  }

  predicate InOrder(objs: seq<Obj>, items: seq<Item>, outcomes: seq<Outcome>) {
    && |objs| <= |items| == |outcomes|
    && forall i | 0 <= i < |objs| :: !outcomes[i].Raised? && objs[i] == Obj(outcomes[i].id, items[i])
  }

  function Ids(objs: seq<Obj>): set<Id> {
    set i | 0 <= i < |objs| :: objs[i].id
  }

  class Plugin {
    var rows: Rows

    constructor (rows: Rows)
      ensures this.rows == rows
    {
      this.rows := rows;
    }

    // The plugin's handler for DELETE, which raises unless the object is deletable.
    method Delete(id: Id, deletable: set<Id>) returns (ok: bool)
      modifies this
      ensures ok == (id in deletable && id in old(rows))
      ensures rows == if ok then old(rows) - {id} else old(rows)
    {
      ok := id in deletable && id in rows;
      if ok {
        rows := rows - {id};
      }
    }

    // Either every object in order, or nothing, and the objects created so far are deleted
    // as far as that succeeds.
    method EmulateBulkCreate(items: seq<Item>, outcomes: seq<Outcome>, deletable: set<Id>)
      returns (result: Option<seq<Obj>>)
      requires |items| == |outcomes|
      modifies this
      ensures result.Some? <==> AllCreated(outcomes)
      ensures result.Some? ==> |result.value| == |items| && InOrder(result.value, items, outcomes)
                               && rows == After(old(rows), items, outcomes, |items|)
      ensures result.None? ==> Successes(outcomes) < |items|
                               && rows == After(old(rows), items, outcomes, Successes(outcomes) + 1)
                                          - (CreatedIds(outcomes) * deletable)
    {
      var objs: seq<Obj> := [];
      for i := 0 to |items|
        invariant i == |objs| <= Successes(outcomes) && InOrder(objs, items, outcomes)
        invariant rows == After(old(rows), items, outcomes, i)
      {
        if !outcomes[i].Raised? {
          rows := rows[outcomes[i].id := items[i]];
        }
        if !outcomes[i].Created? {
          assert Ids(objs) == CreatedIds(outcomes);
          Undo(objs, deletable);
          return None;
        }
        objs := objs + [Obj(outcomes[i].id, items[i])];
      }
      return Some(objs);
    }

    // The loop of the exception handler.
    method Undo(objs: seq<Obj>, deletable: set<Id>)
      modifies this
      ensures rows == old(rows) - (Ids(objs) * deletable)
    {
      for i := 0 to |objs|
        invariant rows == old(rows) - (Ids(objs[..i]) * deletable)
      {
        assert Ids(objs[..i + 1]) == Ids(objs[..i]) + {objs[i].id};
        var ok := Delete(objs[i].id, deletable);
      }
      assert objs[..|objs|] == objs;
    }
  }

  // The items add their own rows and touch no others.
  lemma {:induction false} AfterAdds(before: Rows, items: seq<Item>, outcomes: seq<Outcome>, n: nat)
    requires n <= |items| == |outcomes| && FreshIds(before, outcomes)
    ensures var rows := After(before, items, outcomes, n);
            && (forall id :: id in rows <==>
                  id in before || exists i | 0 <= i < n :: !outcomes[i].Raised? && outcomes[i].id == id)
            && (forall id | id in before :: rows[id] == before[id])
            && (forall i | 0 <= i < n && !outcomes[i].Raised? :: rows[outcomes[i].id] == items[i])
  {
    if n > 0 {
      AfterAdds(before, items, outcomes, n - 1);
    }
  }

  // What a failed request leaves behind besides the rows there were: the objects that could
  // not be deleted again and the remnant of the failing item.
  lemma LeftBehind(before: Rows, items: seq<Item>, outcomes: seq<Outcome>, deletable: set<Id>)
    requires Successes(outcomes) < |items| == |outcomes| && FreshIds(before, outcomes)
    ensures var rows := After(before, items, outcomes, Successes(outcomes) + 1) - (CreatedIds(outcomes) * deletable);
            && rows.Keys == before.Keys + (CreatedIds(outcomes) - deletable) + Remnant(outcomes)
            && (forall id | id in before :: rows[id] == before[id])
  {
    var n := Successes(outcomes);
    AfterAdds(before, items, outcomes, n + 1);
    var all := After(before, items, outcomes, n + 1);
    var rows := all - (CreatedIds(outcomes) * deletable);
    forall id
      ensures id in rows <==> id in before || id in CreatedIds(outcomes) - deletable || id in Remnant(outcomes)
    {
      AddedAt(outcomes, id);
    }
  }

  // What is added up to the failure is created before it or the remnant.
  lemma AddedAt(outcomes: seq<Outcome>, id: Id)
    requires Successes(outcomes) < |outcomes|
    ensures (exists i | 0 <= i < Successes(outcomes) + 1 :: !outcomes[i].Raised? && outcomes[i].id == id)
            <==> id in CreatedIds(outcomes) || id in Remnant(outcomes)
  {
    var n := Successes(outcomes);
    if i :| 0 <= i < n + 1 && !outcomes[i].Raised? && outcomes[i].id == id {
      assert i < n ==> id in CreatedIds(outcomes);
      assert i == n ==> id in Remnant(outcomes);
    }
    if id in CreatedIds(outcomes) {
      var i :| 0 <= i < n && outcomes[i].id == id;
      assert outcomes[i].Created?;
    }
    if id in Remnant(outcomes) {
      assert !outcomes[n].Raised? && outcomes[n].id == id;
    }
  }

  // A failed request leaves the rows as they were exactly when every object created before
  // the failure could be deleted and the failing item stored nothing.
  lemma RestoredExactly(before: Rows, items: seq<Item>, outcomes: seq<Outcome>, deletable: set<Id>)
    requires Successes(outcomes) < |items| == |outcomes| && FreshIds(before, outcomes)
    ensures After(before, items, outcomes, Successes(outcomes) + 1) - (CreatedIds(outcomes) * deletable) == before
            <==> CreatedIds(outcomes) <= deletable && !outcomes[Successes(outcomes)].RaisedStored?
  {
    LeftBehind(before, items, outcomes, deletable);
    var n := Successes(outcomes);
    assert forall id | id in CreatedIds(outcomes) :: id !in before;
    assert outcomes[n].RaisedStored? ==> outcomes[n].id !in before;
  }

  // The second of two items fails and the first cannot be deleted again: it stays.
  lemma FirstItemStays()
    ensures Successes([Created(1), Raised]) == 1
    ensures After(map[], ["a", "b"], [Created(1), Raised], 2) - (CreatedIds([Created(1), Raised]) * {}) == map[1 := "a"]
  {
    var outcomes := [Created(1), Raised];
    assert outcomes[1..] == [Raised];
    assert Successes(outcomes[1..]) == 0;
    var items := ["a", "b"];
    assert After(map[], items, outcomes, 1) == map[1 := "a"];
  }
}
