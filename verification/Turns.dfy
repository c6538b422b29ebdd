// What a worker's row goes through between the worker's own steps.
module Turns {
  import opened Wrappers
  import opened Text
  import opened MeaTable
  import opened Lifecycle
  import opened Ownership

  // A step of a worker, after a gap in which others run.
  datatype Turn = Turn(gap: seq<Event>, outcome: Outcome, input: Input)

  function Play(pid: Pid, turns: seq<Turn>): seq<Event> {
    if turns == [] then []
    else
      var last := turns[|turns| - 1];
      Play(pid, turns[..|turns| - 1]) + last.gap + [Step(pid, last.outcome, last.input)]
  }

  predicate OthersOnly(es: seq<Event>, pid: Pid) {
    forall k | 0 <= k < |es| :: es[k].pid != pid
  }

  predicate OthersBetween(turns: seq<Turn>, pid: Pid) {
    forall i | 0 <= i < |turns| :: OthersOnly(turns[i].gap, pid)
  }

  ghost function After(s: System, pid: Pid, turn: Turn): System {
    Do(Run(s, turn.gap), Step(pid, turn.outcome, turn.input))
  }

  lemma {:induction false} PlayNext(s: System, pid: Pid, turns: seq<Turn>, k: nat)
    requires k < |turns|
    ensures Run(s, Play(pid, turns[..k + 1])) == After(Run(s, Play(pid, turns[..k])), pid, turns[k])
  {
    assert turns[..k + 1][..k] == turns[..k];
    var before, step := Play(pid, turns[..k]), Step(pid, turns[k].outcome, turns[k].input);
    RunConcat(s, before + turns[k].gap, [step]);
    RunConcat(s, before, turns[k].gap);
    RunOne(Run(Run(s, before), turns[k].gap), step);
  }

  // ---- A row that a worker holds ----

  // The row is as the worker left it, and nobody else is to move it on.
  predicate Waiting(s: System, pid: Pid, id: MeaId, st: Status) {
    st in CLAIMED && Holds(s, pid, id, st) && Honoured(s, pid)
  }

  // The state keeps claims of these kinds apart, and the worker has one of them.
  ghost predicate Held(s: System, pid: Pid, id: MeaId, st: Status, kinds: set<Status>) {
    UPDATE_DELETE <= kinds <= CLAIMED && Exclusive(s, kinds) && st in kinds && Waiting(s, pid, id, st)
  }

  // No scaling worker loses its row on the way.
  ghost predicate Unbroken(s: System, es: seq<Event>)
    decreases |es|
  {
    es == [] || (!Breach(s, es[0]) && Unbroken(Do(s, es[0]), es[1..]))
  }

  lemma {:induction false} UnbrokenConcat(s: System, es: seq<Event>, fs: seq<Event>)
    ensures Unbroken(s, es + fs) <==> Unbroken(s, es) && Unbroken(Run(s, es), fs)
    decreases |es|
  {
    if es == [] {
      assert es + fs == fs;
    } else {
      assert (es + fs)[1..] == es[1..] + fs;
      UnbrokenConcat(Do(s, es[0]), es[1..], fs);
    }
  }

  lemma {:induction false} UnbrokenExclusive(s: System, es: seq<Event>)
    requires Exclusive(s, CLAIMED) && Unbroken(s, es)
    ensures Exclusive(Run(s, es), CLAIMED)
    decreases |es|
  {
    if es != [] {
      StepExclusive(s, es[0], CLAIMED);
      UnbrokenExclusive(Do(s, es[0]), es[1..]);
    }
  }

  // The claims that stay exclusive along a run from a freshly started server.
  ghost predicate Apart(s: System, es: seq<Event>, kinds: set<Status>) {
    Boot(s) && (kinds == UPDATE_DELETE || (kinds == CLAIMED && Unbroken(s, es)))
  }

  lemma {:induction false} ApartOwned(s: System, es: seq<Event>, fs: seq<Event>, kinds: set<Status>)
    requires Apart(s, es + fs, kinds)
    ensures Exclusive(Run(s, es), kinds) && (kinds <= UPDATE_DELETE || Unbroken(Run(s, es), fs))
  {
    if kinds == UPDATE_DELETE {
      UpdateDeleteOwned(s, es);
    } else {
      UnbrokenConcat(s, es, fs);
      UnbrokenExclusive(s, es);
    }
  }

  // No event is about this MEA.
  ghost predicate Elsewhere(s: System, es: seq<Event>, id: MeaId)
    decreases |es|
  {
    es == [] || (Target(s, es[0]) != id && Elsewhere(Do(s, es[0]), es[1..], id))
  }

  // Nobody else touches the MEA before turn k.
  ghost predicate QuietAt(s: System, pid: Pid, turns: seq<Turn>, k: nat, id: MeaId)
    requires k < |turns|
  {
    Elsewhere(Run(s, Play(pid, turns[..k])), turns[k].gap, id)
  }

  predicate SameButReason(a: Row, b: Row) {
    b == a.(errorReason := b.errorReason)
  }

  // The row and its attributes are as they were, but for the reason of an error.
  predicate Kept(s: System, t: System, id: MeaId) {
    && id in s.tables.mea && id in t.tables.mea && SameButReason(s.tables.mea[id], t.tables.mea[id])
    && AttributesOf(t.tables, id) == AttributesOf(s.tables, id)
  }

  predicate Pending(row: Row) {
    Live(row) && row.status in CLAIMED
  }

  lemma CreateLeaves(s: System, e: Event, id: MeaId)
    requires e.Step? && e.pid in s.workers && Creates(s.workers[e.pid].pc)
    requires id in s.tables.mea && Pending(s.tables.mea[id])
    ensures Kept(s, Do(s, e), id)
  {
    Frame(s, e);
  }

  lemma ScaleLeaves(s: System, e: Event, id: MeaId)
    requires e.Step? && e.pid in s.workers && Scales(s.workers[e.pid].pc)
    requires id in s.tables.mea && Pending(s.tables.mea[id])
    requires s.workers[e.pid].mea == id ==> Claims(s.workers[e.pid].pc) != Some(s.tables.mea[id].status)
    ensures Kept(s, Do(s, e), id)
  {
    Frame(s, e);
  }

  lemma DeleteStartLeaves(s: System, e: Event, id: MeaId)
    requires e.Step? && e.pid in s.workers && s.workers[e.pid].pc.DeleteStart?
    requires id in s.tables.mea && Pending(s.tables.mea[id])
    ensures Kept(s, Do(s, e), id)
  {
    Frame(s, e);
  }

  lemma CallLeaves(s: System, e: Event, id: MeaId)
    requires !e.Step? || e.pid !in s.workers
    requires id in s.tables.mea && Pending(s.tables.mea[id])
    requires MarksDead(s, e) && e.mea == id ==> s.tables.mea[id].status in UPDATE_DELETE
    ensures Kept(s, Do(s, e), id)
  {
    Frame(s, e);
  }

  lemma OtherRow(s: System, e: Event, id: MeaId)
    requires id in s.tables.mea && Target(s, e) != id
    ensures id in Do(s, e).tables.mea && Do(s, e).tables.mea[id] == s.tables.mea[id]
    ensures AttributesOf(Do(s, e).tables, id) == AttributesOf(s.tables, id)
  {
    Frame(s, e);
  }

  lemma OthersLeave(s: System, e: Event, pid: Pid, id: MeaId, st: Status, kinds: set<Status>)
    requires Held(s, pid, id, st, kinds) && e.pid != pid && (kinds <= UPDATE_DELETE || !Breach(s, e))
    ensures Kept(s, Do(s, e), id)
  {
    assert s.tables.mea[id].status == st && Pending(s.tables.mea[id]);
    assert MarksDead(s, e) && e.mea == id && st !in UPDATE_DELETE ==> Breach(s, e) by {
      assert forall d :: st == PendingScale(d) ==> Holds(s, pid, id, PendingScale(d));
      assert st == PENDING_SCALE_IN ==> st == PendingScale(IN);
      assert st == PENDING_SCALE_OUT ==> st == PendingScale(OUT);
    }
    if Target(s, e) != id {
      OtherRow(s, e, id);
    } else if !e.Step? || e.pid !in s.workers {
      CallLeaves(s, e, id);
    } else {
      OthersStepLeaves(s, e, pid, id, st, kinds);
    }
  }

  lemma OthersStepLeaves(s: System, e: Event, pid: Pid, id: MeaId, st: Status, kinds: set<Status>)
    requires Held(s, pid, id, st, kinds) && e.pid != pid
    requires e.Step? && e.pid in s.workers && s.workers[e.pid].mea == id
    ensures Kept(s, Do(s, e), id)
  {
    var pc := s.workers[e.pid].pc;
    assert Relevant(s, pid, kinds) && !Relevant(s, e.pid, kinds);
    assert s.tables.mea[id].status == st && Pending(s.tables.mea[id]);
    if Creates(pc) {
      CreateLeaves(s, e, id);
    } else if pc.DeleteStart? {
      DeleteStartLeaves(s, e, id);
    } else if Scales(pc) {
      ScaleLeaves(s, e, id);
    } else {
      assert false by {
        ClaimOf(pc);
      }
    }
  }

  lemma ClaimOf(pc: Pc)
    ensures Updates(pc) ==> Claims(pc) == Some(PENDING_UPDATE)
    ensures Deletes(pc) && !pc.DeleteStart? ==> Claims(pc) == Some(PENDING_DELETE)
  {
  }

  lemma StepHeld(s: System, e: Event, pid: Pid, id: MeaId, st: Status, kinds: set<Status>)
    requires Held(s, pid, id, st, kinds) && e.pid != pid && (kinds <= UPDATE_DELETE || !Breach(s, e))
    ensures Held(Do(s, e), pid, id, st, kinds) && Do(s, e).workers[pid] == s.workers[pid]
  {
    StepExclusive(s, e, kinds);
    Frame(s, e);
    assert Relevant(Do(s, e), pid, kinds);
  }

  // Whatever others do, the row waits for the worker that holds it.
  lemma {:induction false} GapHeld(s: System, es: seq<Event>, pid: Pid, id: MeaId, st: Status, kinds: set<Status>)
    requires Held(s, pid, id, st, kinds) && OthersOnly(es, pid) && (kinds <= UPDATE_DELETE || Unbroken(s, es))
    ensures Held(Run(s, es), pid, id, st, kinds) && Run(s, es).workers[pid] == s.workers[pid]
    ensures Kept(s, Run(s, es), id)
    ensures Elsewhere(s, es, id) ==> Run(s, es).tables.mea[id] == s.tables.mea[id]
    decreases |es|
  {
    if es != [] {
      StepHeld(s, es[0], pid, id, st, kinds);
      OthersLeave(s, es[0], pid, id, st, kinds);
      if Target(s, es[0]) != id {
        OtherRow(s, es[0], id);
      }
      GapHeld(Do(s, es[0]), es[1..], pid, id, st, kinds);
    }
  }

  // At turn k of a run that started with events es the row still waits for the worker's step.
  lemma {:induction false} GapAt(s: System, es: seq<Event>, pid: Pid, id: MeaId, st: Status, kinds: set<Status>,
                                 turns: seq<Turn>, k: nat)
    requires k < |turns| && Apart(s, es + Play(pid, turns), kinds) && st in kinds
    requires OthersOnly(turns[k].gap, pid) && Waiting(Run(Run(s, es), Play(pid, turns[..k])), pid, id, st)
    ensures var t := Run(Run(s, es), Play(pid, turns[..k]));
            var v := Run(t, turns[k].gap);
            && Held(v, pid, id, st, kinds) && v.workers[pid] == t.workers[pid] && Kept(t, v, id)
            && (Elsewhere(t, turns[k].gap, id) ==> v.tables.mea[id] == t.tables.mea[id])
  {
    var before := Play(pid, turns[..k]);
    var after := PlayFrom(pid, turns, k);
    assert es + Play(pid, turns) == (es + before) + (turns[k].gap + after);
    ApartOwned(s, es + before, turns[k].gap + after, kinds);
    RunConcat(s, es, before);
    UnbrokenConcat(Run(s, es + before), turns[k].gap, after);
    GapHeld(Run(s, es + before), turns[k].gap, pid, id, st, kinds);
  }

  lemma {:induction false} PlayFrom(pid: Pid, turns: seq<Turn>, k: nat) returns (after: seq<Event>)
    requires k < |turns|
    ensures Play(pid, turns) == Play(pid, turns[..k]) + turns[k].gap + after
  {
    var last := turns[|turns| - 1];
    var step := [Step(pid, last.outcome, last.input)];
    if k == |turns| - 1 {
      after := step;
    } else {
      assert turns[..|turns| - 1][..k] == turns[..k];
      after := PlayFrom(pid, turns[..|turns| - 1], k);
      after := after + last.gap + step;
    }
  }
}
