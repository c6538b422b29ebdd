// How updates, deletions and scalings end, told by what the driver calls came to and by the row
// alone, whatever other workers do in between.
module Outcomes {
  import opened Wrappers
  import opened Text
  import opened MeaTable
  import opened Lifecycle
  import opened Ownership
  import opened Turns

  // ---- The driver's part ----

  predicate Starting(pc: Pc) {
    pc.DeleteRun? || pc.UpdateRun? || pc.ScaleRun?
  }

  predicate Driving(pc: Pc) {
    Starting(pc) || pc.DeleteWait? || pc.UpdateWait? || pc.ScaleWait?
  }

  // Without a stack a deletion has nothing to wait for.
  predicate Fails(w: Worker, o: Outcome) {
    o.Raises? && (w.pc.DeleteWait? ==> w.instance.Some?)
  }

  function Closing(pc: Pc, failed: bool): Pc
    requires Driving(pc)
  {
    match pc
    case DeleteRun | DeleteWait => Pc.DeletePost(failed)
    case UpdateRun | UpdateWait => Pc.UpdatePost(failed)
    case ScaleRun(d) => Pc.ScalePost(d, failed)
    case ScaleWait(d) => Pc.ScalePost(d, failed)
  }

  function NextPc(pc: Pc, fails: bool): Pc
    requires Driving(pc)
  {
    match pc
    case DeleteRun => if fails then Closing(pc, true) else DeleteWait
    case UpdateRun => if fails then Closing(pc, true) else UpdateWait
    case ScaleRun(d) => if fails then Closing(pc, true) else Pc.ScaleWait(d)
    case DeleteWait | UpdateWait => Closing(pc, fails)
    case ScaleWait(d) => Closing(pc, fails)
  }

  // A step of the worker took it from s to u: the row still waits and has the reason of a failure.
  predicate Drove(s: System, u: System, pid: Pid, id: MeaId, st: Status, o: Outcome)
    requires pid in s.workers && Driving(s.workers[pid].pc) && id in s.tables.mea
  {
    var w := s.workers[pid];
    && Waiting(u, pid, id, st) && Kept(s, u, id)
    && u.workers[pid] == w.(pc := NextPc(w.pc, Fails(w, o)))
    && u.tables.mea[id].errorReason == if Fails(w, o) then Some(o.reason) else s.tables.mea[id].errorReason
  }

  lemma DriveDelete(s: System, pid: Pid, id: MeaId, st: Status, o: Outcome, d: Input)
    requires Waiting(s, pid, id, st) && (s.workers[pid].pc.DeleteRun? || s.workers[pid].pc.DeleteWait?)
    ensures Drove(s, Do(s, Step(pid, o, d)), pid, id, st, o)
  {
  }

  lemma DriveUpdate(s: System, pid: Pid, id: MeaId, st: Status, o: Outcome, d: Input)
    requires Waiting(s, pid, id, st) && (s.workers[pid].pc.UpdateRun? || s.workers[pid].pc.UpdateWait?)
    ensures Drove(s, Do(s, Step(pid, o, d)), pid, id, st, o)
  {
  }

  lemma DriveScale(s: System, pid: Pid, id: MeaId, st: Status, o: Outcome, d: Input)
    requires Waiting(s, pid, id, st) && (s.workers[pid].pc.ScaleRun? || s.workers[pid].pc.ScaleWait?)
    ensures Drove(s, Do(s, Step(pid, o, d)), pid, id, st, o)
  {
  }

  // The same with the gap before the step, which may be quiet.
  predicate Turned(s: System, u: System, pid: Pid, id: MeaId, st: Status, o: Outcome, quiet: bool)
    requires pid in s.workers && Driving(s.workers[pid].pc) && id in s.tables.mea
  {
    var w, fails := s.workers[pid], Fails(s.workers[pid], o);
    && Waiting(u, pid, id, st) && Kept(s, u, id)
    && u.workers[pid] == w.(pc := NextPc(w.pc, fails))
    && (fails ==> u.tables.mea[id].errorReason == Some(o.reason))
    && (!fails && quiet ==> u.tables.mea[id].errorReason == s.tables.mea[id].errorReason)
  }

  lemma {:induction false} DriverTurn(s: System, es: seq<Event>, pid: Pid, id: MeaId, st: Status,
                                      kinds: set<Status>, turns: seq<Turn>, k: nat)
    requires k < |turns| && Apart(s, es + Play(pid, turns), kinds) && st in kinds && OthersOnly(turns[k].gap, pid)
    requires Waiting(Run(Run(s, es), Play(pid, turns[..k])), pid, id, st)
    requires Driving(Run(Run(s, es), Play(pid, turns[..k])).workers[pid].pc)
    ensures Turned(Run(Run(s, es), Play(pid, turns[..k])), Run(Run(s, es), Play(pid, turns[..k + 1])),
                   pid, id, st, turns[k].outcome, QuietAt(Run(s, es), pid, turns, k, id))
  {
    GapAt(s, es, pid, id, st, kinds, turns, k);
    PlayNext(Run(s, es), pid, turns, k);
    var v := Run(Run(Run(s, es), Play(pid, turns[..k])), turns[k].gap);
    var pc := v.workers[pid].pc;
    if pc.DeleteRun? || pc.DeleteWait? {
      DriveDelete(v, pid, id, st, turns[k].outcome, turns[k].input);
    } else if pc.UpdateRun? || pc.UpdateWait? {
      DriveUpdate(v, pid, id, st, turns[k].outcome, turns[k].input);
    } else {
      DriveScale(v, pid, id, st, turns[k].outcome, turns[k].input);
    }
  }

  // One step for the call that raises, or two and the wait.
  predicate TurnsOf(pid: Pid, turns: seq<Turn>) {
    |turns| > 0 && |turns| == (if turns[0].outcome.Raises? then 2 else 3) && OthersBetween(turns, pid)
  }

  // What was raised, if anything: by the call, or by the wait where there is one.
  function FailureOf(turns: seq<Turn>, waits: bool): Option<string>
    requires |turns| > 1
  {
    if turns[0].outcome.Raises? then Some(turns[0].outcome.reason)
    else if waits && turns[1].outcome.Raises? then Some(turns[1].outcome.reason) else None
  }

  // All but the last of the worker's steps took it from t to v.
  predicate Driven(t: System, v: System, pid: Pid, id: MeaId, st: Status, failure: Option<string>, quiet: bool)
    requires pid in t.workers && Driving(t.workers[pid].pc) && id in t.tables.mea
  {
    && Waiting(v, pid, id, st) && Kept(t, v, id)
    && v.workers[pid] == t.workers[pid].(pc := Closing(t.workers[pid].pc, failure.Some?))
    && (failure.Some? ==> v.tables.mea[id].errorReason == failure)
    && (failure.None? && quiet ==> v.tables.mea[id].errorReason == t.tables.mea[id].errorReason)
  }

  // The same when the first call returned and the wait came to o.
  predicate Drives(t: System, v: System, pid: Pid, id: MeaId, st: Status, o: Outcome, quiet: bool)
    requires pid in t.workers && Driving(t.workers[pid].pc) && id in t.tables.mea
  {
    var w := t.workers[pid];
    Driven(t, v, pid, id, st, if (w.pc.DeleteRun? ==> w.instance.Some?) && o.Raises? then Some(o.reason) else None,
           quiet)
  }

  lemma DriveTwice(t: System, a: System, v: System, pid: Pid, id: MeaId, st: Status, o: Outcome, p: Outcome,
                   quiet: bool, quiet': bool)
    requires Waiting(t, pid, id, st) && Starting(t.workers[pid].pc) && !o.Raises?
    requires Turned(t, a, pid, id, st, o, quiet) && Turned(a, v, pid, id, st, p, quiet')
    ensures Drives(t, v, pid, id, st, p, quiet && quiet')
  {
  }

  // Nobody else touches the MEA before the first two steps.
  ghost predicate QuietStart(s: System, pid: Pid, turns: seq<Turn>, id: MeaId)
    requires |turns| > 1
  {
    QuietAt(s, pid, turns, 0, id) && QuietAt(s, pid, turns, 1, id)
  }

  lemma {:induction false} DriverRaises(s: System, es: seq<Event>, pid: Pid, id: MeaId, st: Status,
                                        kinds: set<Status>, turns: seq<Turn>)
    requires Apart(s, es + Play(pid, turns), kinds) && st in kinds && TurnsOf(pid, turns) && turns[0].outcome.Raises?
    requires Waiting(Run(s, es), pid, id, st) && Starting(Run(s, es).workers[pid].pc)
    ensures Driven(Run(s, es), Run(Run(s, es), Play(pid, turns[..1])), pid, id, st,
                   Some(turns[0].outcome.reason), false)
  {
    assert Run(Run(s, es), Play(pid, turns[..0])) == Run(s, es);
    DriverTurn(s, es, pid, id, st, kinds, turns, 0);
  }

  // The second step, after a first one that took the worker to its wait.
  lemma {:induction false} DriverSecond(s: System, es: seq<Event>, t: System, a: System, pid: Pid, id: MeaId,
                                        st: Status, kinds: set<Status>, turns: seq<Turn>, quiet: bool)
    requires Apart(s, es + Play(pid, turns), kinds) && st in kinds
    requires |turns| > 1 && !turns[0].outcome.Raises? && OthersOnly(turns[1].gap, pid)
    requires t == Run(s, es) && a == Run(t, Play(pid, turns[..1]))
    requires Waiting(t, pid, id, st) && Starting(t.workers[pid].pc)
    requires Turned(t, a, pid, id, st, turns[0].outcome, quiet)
    ensures Driving(a.workers[pid].pc)
    ensures Turned(a, Run(t, Play(pid, turns[..2])), pid, id, st, turns[1].outcome, QuietAt(t, pid, turns, 1, id))
  {
    DriverTurn(s, es, pid, id, st, kinds, turns, 1);
  }

  // Both steps together.
  lemma {:induction false} DriverWaits(s: System, es: seq<Event>, t: System, a: System, pid: Pid, id: MeaId,
                                       st: Status, kinds: set<Status>, turns: seq<Turn>, quiet: bool)
    requires Apart(s, es + Play(pid, turns), kinds) && st in kinds
    requires |turns| > 1 && !turns[0].outcome.Raises? && OthersOnly(turns[1].gap, pid)
    requires t == Run(s, es) && a == Run(t, Play(pid, turns[..1]))
    requires Waiting(t, pid, id, st) && Starting(t.workers[pid].pc)
    requires Turned(t, a, pid, id, st, turns[0].outcome, quiet)
    ensures Drives(t, Run(t, Play(pid, turns[..2])), pid, id, st, turns[1].outcome,
                   quiet && QuietAt(t, pid, turns, 1, id))
  {
    DriverSecond(s, es, t, a, pid, id, st, kinds, turns, quiet);
    DriveTwice(t, a, Run(t, Play(pid, turns[..2])), pid, id, st, turns[0].outcome,
               turns[1].outcome, quiet, QuietAt(t, pid, turns, 1, id));
  }

  lemma {:induction false} DriverReturns(s: System, es: seq<Event>, pid: Pid, id: MeaId, st: Status,
                                         kinds: set<Status>, turns: seq<Turn>)
    requires Apart(s, es + Play(pid, turns), kinds) && st in kinds && TurnsOf(pid, turns) && !turns[0].outcome.Raises?
    requires Waiting(Run(s, es), pid, id, st) && Starting(Run(s, es).workers[pid].pc)
    ensures var t := Run(s, es);
            var w := t.workers[pid];
            Driven(t, Run(t, Play(pid, turns[..2])), pid, id, st,
                   FailureOf(turns, w.pc.DeleteRun? ==> w.instance.Some?), QuietStart(t, pid, turns, id))
  {
    var t := Run(s, es);
    assert Run(t, Play(pid, turns[..0])) == t;
    DriverTurn(s, es, pid, id, st, kinds, turns, 0);
    DriverWaits(s, es, t, Run(t, Play(pid, turns[..1])), pid, id, st, kinds, turns, QuietAt(t, pid, turns, 0, id));
  }

  lemma {:induction false} DriverTurns(s: System, es: seq<Event>, pid: Pid, id: MeaId, st: Status,
                                       kinds: set<Status>, turns: seq<Turn>)
    requires Apart(s, es + Play(pid, turns), kinds) && st in kinds && TurnsOf(pid, turns)
    requires Waiting(Run(s, es), pid, id, st) && Starting(Run(s, es).workers[pid].pc)
    ensures var t := Run(s, es);
            var w := t.workers[pid];
            Driven(t, Run(t, Play(pid, turns[..|turns| - 1])), pid, id, st,
                   FailureOf(turns, w.pc.DeleteRun? ==> w.instance.Some?), QuietStart(t, pid, turns, id))
  {
    if turns[0].outcome.Raises? {
      DriverRaises(s, es, pid, id, st, kinds, turns);
    } else {
      DriverReturns(s, es, pid, id, st, kinds, turns);
    }
  }

  // Nobody else touches the MEA after this worker wrote a reason, or at all if it writes none.
  ghost predicate ReasonStays(s: System, pid: Pid, turns: seq<Turn>, failure: Option<string>, id: MeaId)
    requires |turns| > 1
  {
    QuietAt(s, pid, turns, |turns| - 1, id) && (failure.None? ==> QuietStart(s, pid, turns, id))
  }

  // Just before its last step the worker has its row as the driver's part left it.
  lemma {:induction false} BeforeLast(s: System, es: seq<Event>, pid: Pid, id: MeaId, st: Status,
                                      kinds: set<Status>, turns: seq<Turn>)
    returns (v: System)
    requires Apart(s, es + Play(pid, turns), kinds) && st in kinds && TurnsOf(pid, turns)
    requires Waiting(Run(s, es), pid, id, st) && Starting(Run(s, es).workers[pid].pc)
    ensures var t, last := Run(s, es), turns[|turns| - 1];
            var w := t.workers[pid];
            var failure := FailureOf(turns, w.pc.DeleteRun? ==> w.instance.Some?);
            && Waiting(v, pid, id, st) && Kept(t, v, id)
            && v.workers[pid] == w.(pc := Closing(w.pc, failure.Some?))
            && (ReasonStays(t, pid, turns, failure, id) ==>
                  v.tables.mea[id].errorReason == if failure.Some? then failure else t.tables.mea[id].errorReason)
            && Run(t, Play(pid, turns)) == Do(v, Step(pid, last.outcome, last.input))
  {
    var m := |turns| - 1;
    DriverTurns(s, es, pid, id, st, kinds, turns);
    GapAt(s, es, pid, id, st, kinds, turns, m);
    PlayNext(Run(s, es), pid, turns, m);
    assert turns[..m + 1] == turns;
    v := Run(Run(Run(s, es), Play(pid, turns[..m])), turns[m].gap);
  }

  // ---- Deletion ----

  // A call of delete_mea that the database lets through, or the deletion that log_and_kill or a
  // failed creation goes on to.
  predicate BeginsDeletion(s: System, e: Event, id: MeaId) {
    && id in s.tables.mea && s.tables.mea[id].status in {PENDING_CREATE, ACTIVE, ERROR, DEAD}
    && if e.Step?
       then e.pid in s.workers && s.workers[e.pid].mea == id && s.workers[e.pid].pc.DeleteStart?
            && Visible(s.workers[e.pid].ctx, s.tables.mea[id])
       else e.CallDelete? && e.pid !in s.workers && e.mea == id && Visible(e.ctx, s.tables.mea[id])
  }

  lemma DeletionBegins(s: System, e: Event, id: MeaId)
    requires BeginsDeletion(s, e, id)
    ensures var u, row := Do(s, e), s.tables.mea[id];
            && Waiting(u, e.pid, id, PENDING_DELETE)
            && u.workers[e.pid].pc.DeleteRun? && u.workers[e.pid].instance == row.instance
            && u.tables.mea[id] == row.(status := PENDING_DELETE)
            && AttributesOf(u.tables, id) == AttributesOf(s.tables, id)
  {
  }

  lemma DeletionCloses(s: System, pid: Pid, id: MeaId, o: Outcome, d: Input)
    requires Waiting(s, pid, id, PENDING_DELETE) && s.workers[pid].pc.DeletePost?
    ensures var u, row := Do(s, Step(pid, o, d)), s.tables.mea[id];
            && pid !in u.workers && id in u.tables.mea
            && u.tables.mea[id] == (if s.workers[pid].pc.error then row.(status := ERROR)
                                    else row.(deletedAt := d.now))
            && AttributesOf(u.tables, id) == AttributesOf(s.tables, id)
  {
  }

  // From any reachable state, with any events of other workers between the steps of this one: the
  // row ends soft-deleted, at the time of the last step, exactly when the calls that delete the
  // stack returned and the wait returned too or there was no stack. Otherwise it ends live, in
  // ERROR, with what was raised for a reason unless somebody else writes one before the last step.
  // All the rest of the row is as it was.
  lemma {:induction false} DeletionOutcome(s: System, pre: seq<Event>, e: Event, id: MeaId, turns: seq<Turn>)
    requires Boot(s) && BeginsDeletion(Run(s, pre), e, id) && TurnsOf(e.pid, turns)
    ensures var t, row := Run(s, pre + [e]), Run(s, pre).tables.mea[id];
            var u, failure := Run(t, Play(e.pid, turns)), FailureOf(turns, row.instance.Some?);
            && id in t.tables.mea && t.tables.mea[id] == row.(status := PENDING_DELETE)
            && e.pid !in u.workers && id in u.tables.mea
            && u.tables.mea[id] == (if failure.Some? then row.(status := ERROR)
                                    else row.(status := PENDING_DELETE, deletedAt := turns[2].input.now))
                                   .(errorReason := u.tables.mea[id].errorReason)
            && (ReasonStays(t, e.pid, turns, failure, id) ==>
                  u.tables.mea[id].errorReason == if failure.Some? then failure else row.errorReason)
            && AttributesOf(u.tables, id) == AttributesOf(Run(s, pre).tables, id)
  {
    RunConcat(s, pre, [e]);
    RunOne(Run(s, pre), e);
    DeletionBegins(Run(s, pre), e, id);
    var last := turns[|turns| - 1];
    var v := BeforeLast(s, pre + [e], e.pid, id, PENDING_DELETE, UPDATE_DELETE, turns);
    DeletionCloses(v, e.pid, id, last.outcome, last.input);
  }

  // A failed creation or log_and_kill that finds its MEA in no state to be deleted leaves it so.
  lemma DeletionRefused(s: System, pid: Pid, o: Outcome, d: Input)
    requires pid in s.workers && s.workers[pid].pc.DeleteStart?
    requires !Matches(s.tables, s.workers[pid].ctx, s.workers[pid].mea, {PENDING_CREATE, ACTIVE, ERROR, DEAD})
    ensures var u := Do(s, Step(pid, o, d)); u.tables == s.tables && pid !in u.workers
  {
  }

  // ---- Update ----

  // The attribute rows are the entries of the dictionary. Where a key mentions vim_auth the row
  // there was stays as long as the dictionary has the key, and no row is made.
  ghost predicate Rewritten(before: Attributes, dict: Attributes, now: Attributes) {
    && (forall k :: k in now <==> k in dict && (Contains(k, "vim_auth") ==> k in before))
    && (forall k | k in now :: now[k] == if Contains(k, "vim_auth") then before[k] else dict[k])
  }

  lemma UpdateBegins(s: System, pid: Pid, ctx: Context, id: MeaId)
    requires pid !in s.workers && Matches(s.tables, ctx, id, {ACTIVE})
    ensures var u := Do(s, CallUpdate(pid, ctx, id));
            && Waiting(u, pid, id, PENDING_UPDATE) && u.workers[pid].pc.UpdateRun?
            && u.tables.mea[id] == s.tables.mea[id].(status := PENDING_UPDATE)
            && AttributesOf(u.tables, id) == AttributesOf(s.tables, id)
  {
  }

  lemma UpdateCloses(s: System, pid: Pid, id: MeaId, o: Outcome, d: Input)
    requires Waiting(s, pid, id, PENDING_UPDATE) && s.workers[pid].pc.UpdatePost?
    ensures var u, row := Do(s, Step(pid, o, d)), s.tables.mea[id];
            && pid !in u.workers && id in u.tables.mea
            && u.tables.mea[id] == row.(status := if s.workers[pid].pc.failed then ERROR else ACTIVE)
            && Rewritten(AttributesOf(s.tables, id), d.attributes, AttributesOf(u.tables, id))
  {
  }

  // The same for update_mea: the row ends ACTIVE exactly when neither the update nor the wait
  // raised, and otherwise in ERROR. Its attribute rows are rewritten either way.
  lemma {:induction false} UpdateOutcome(s: System, pre: seq<Event>, pid: Pid, ctx: Context, id: MeaId,
                                         turns: seq<Turn>)
    requires Boot(s) && pid !in Run(s, pre).workers && Matches(Run(s, pre).tables, ctx, id, {ACTIVE})
    requires TurnsOf(pid, turns)
    ensures var t, row := Run(s, pre + [CallUpdate(pid, ctx, id)]), Run(s, pre).tables.mea[id];
            var u, failure, last := Run(t, Play(pid, turns)), FailureOf(turns, true), turns[|turns| - 1];
            && id in t.tables.mea && t.tables.mea[id] == row.(status := PENDING_UPDATE)
            && pid !in u.workers && id in u.tables.mea
            && u.tables.mea[id] == row.(status := if failure.Some? then ERROR else ACTIVE,
                                        errorReason := u.tables.mea[id].errorReason)
            && (ReasonStays(t, pid, turns, failure, id) ==>
                  u.tables.mea[id].errorReason == if failure.Some? then failure else row.errorReason)
            && Rewritten(AttributesOf(Run(s, pre).tables, id), last.input.attributes, AttributesOf(u.tables, id))
  {
    var call, last := CallUpdate(pid, ctx, id), turns[|turns| - 1];
    RunConcat(s, pre, [call]);
    RunOne(Run(s, pre), call);
    UpdateBegins(Run(s, pre), pid, ctx, id);
    var v := BeforeLast(s, pre + [call], pid, id, PENDING_UPDATE, UPDATE_DELETE, turns);
    UpdateCloses(v, pid, id, last.outcome, last.input);
  }

  // ---- Scaling ----

  lemma ScalingBegins(s: System, pid: Pid, ctx: Context, id: MeaId, dir: Direction)
    requires pid !in s.workers && Matches(s.tables, ctx, id, {ACTIVE})
    ensures var u := Do(s, CallScale(pid, ctx, id, dir));
            && Waiting(u, pid, id, PendingScale(dir)) && u.workers[pid].pc == Pc.ScaleRun(dir)
            && u.tables.mea[id] == s.tables.mea[id].(status := PendingScale(dir))
            && AttributesOf(u.tables, id) == AttributesOf(s.tables, id)
  {
  }

  lemma ScalingCloses(s: System, pid: Pid, id: MeaId, dir: Direction, o: Outcome, d: Input)
    requires Waiting(s, pid, id, PendingScale(dir)) && s.workers[pid].pc.ScalePost?
    ensures var u, row := Do(s, Step(pid, o, d)), s.tables.mea[id];
            && pid !in u.workers && id in u.tables.mea
            && u.tables.mea[id] == (if s.workers[pid].pc.failed then row.(status := ERROR)
                                    else row.(status := ACTIVE, mgmtUrl := if d.mgmtUrl.Some? then d.mgmtUrl
                                                                           else row.mgmtUrl))
            && AttributesOf(u.tables, id) == AttributesOf(s.tables, id)
  {
  }

  // And for a scaling, along runs on which _mark_mea_dead never fires on an MEA that is being
  // scaled: ACTIVE, with the management URL the driver found, exactly when neither the scaling nor
  // the wait raised, and ERROR with the old URL otherwise.
  lemma {:induction false} ScalingOutcome(s: System, pre: seq<Event>, pid: Pid, ctx: Context, id: MeaId,
                                          dir: Direction, turns: seq<Turn>)
    requires Boot(s) && pid !in Run(s, pre).workers && Matches(Run(s, pre).tables, ctx, id, {ACTIVE})
    requires TurnsOf(pid, turns) && Unbroken(s, pre + [CallScale(pid, ctx, id, dir)] + Play(pid, turns))
    ensures var t, row := Run(s, pre + [CallScale(pid, ctx, id, dir)]), Run(s, pre).tables.mea[id];
            var u, failure, last := Run(t, Play(pid, turns)), FailureOf(turns, true), turns[|turns| - 1];
            && id in t.tables.mea
            && t.tables.mea[id] == row.(status := if dir.IN? then PENDING_SCALE_IN else PENDING_SCALE_OUT)
            && pid !in u.workers && id in u.tables.mea
            && u.tables.mea[id] == (if failure.Some? then row.(status := ERROR)
                                    else row.(mgmtUrl := if last.input.mgmtUrl.Some? then last.input.mgmtUrl
                                                         else row.mgmtUrl))
                                   .(errorReason := u.tables.mea[id].errorReason)
            && (ReasonStays(t, pid, turns, failure, id) ==>
                  u.tables.mea[id].errorReason == if failure.Some? then failure else row.errorReason)
            && AttributesOf(u.tables, id) == AttributesOf(Run(s, pre).tables, id)
  {
    var call, last := CallScale(pid, ctx, id, dir), turns[|turns| - 1];
    RunConcat(s, pre, [call]);
    RunOne(Run(s, pre), call);
    ScalingBegins(Run(s, pre), pid, ctx, id, dir);
    var v := BeforeLast(s, pre + [call], pid, id, PendingScale(dir), CLAIMED, turns);
    ScalingCloses(v, pid, id, dir, last.outcome, last.input);
  }

  // A closing transaction that finds the row in another status raises MEANotFound. The handler
  // writes that down as the reason and tries again with ERROR, and after that gives up.
  lemma ScalingRefused(s: System, pid: Pid, id: MeaId, o: Outcome, d: Input)
    requires pid in s.workers && s.workers[pid].mea == id && s.workers[pid].pc.ScalePost? && id in s.tables.mea
    requires !Matches(s.tables, s.workers[pid].ctx, id, {PendingScale(s.workers[pid].pc.dir)})
    ensures var u, w, row := Do(s, Step(pid, o, d)), s.workers[pid], s.tables.mea[id];
            if w.pc.failed then u.tables == s.tables && pid !in u.workers
            else && pid in u.workers && u.workers[pid] == w.(pc := Pc.ScalePost(w.pc.dir, true))
                 && id in u.tables.mea
                 && u.tables.mea[id]
                    == if Visible(w.ctx, row) then row.(errorReason := Some("MEANotFound")) else row
  {
  }

  // ---- Which calls begin ----

  // log_and_kill goes on to a deletion like any other.
  lemma LogAndKillBegins(s: System, e: Event, o: Outcome, d: Input)
    requires e.CallLogAndKill? && e.pid !in s.workers
    requires Matches(s.tables, ADMIN, e.mea, {ACTIVE, DEAD, PENDING_SCALE_IN, PENDING_SCALE_OUT})
    requires Visible(e.ctx, s.tables.mea[e.mea])
    ensures BeginsDeletion(Do(s, e), Step(e.pid, o, d), e.mea)
    ensures Do(s, e).tables.mea[e.mea] == s.tables.mea[e.mea].(status := DEAD)
  {
    MarksDeadExactly(s.tables, e.mea);
  }

  // A call under a free pid gets its worker exactly when the row says so, and a call that does not
  // changes nothing.
  // The row is such that the call may begin.
  ghost predicate Admits(t: Tables, e: Event)
    requires !e.Step? && !e.Stop?
  {
    match e
    case CallCreate(_, _, id, tenant, name, _) =>
      id !in t.mea && id !in t.attr
      && forall i | i in t.mea :: !(Live(t.mea[i]) && t.mea[i].tenant == tenant && t.mea[i].name == name)
    case CallUpdate(_, ctx, id) => Matches(t, ctx, id, {ACTIVE})
    case CallDelete(_, ctx, id) => Matches(t, ctx, id, {PENDING_CREATE, ACTIVE, ERROR, DEAD})
    case CallScale(_, ctx, id, _) => Matches(t, ctx, id, {ACTIVE})
    case CallRespawn(_, _, id, _, _, _) => Matches(t, ADMIN, id, {ACTIVE, DEAD, PENDING_SCALE_IN, PENDING_SCALE_OUT})
    case CallLogAndKill(_, _, id) => Matches(t, ADMIN, id, {ACTIVE, DEAD, PENDING_SCALE_IN, PENDING_SCALE_OUT})
  }

  lemma MarksDeadExactly(t: Tables, id: MeaId)
    ensures MarkDead(t, id).Some? <==> Matches(t, ADMIN, id, {ACTIVE, DEAD, PENDING_SCALE_IN, PENDING_SCALE_OUT})
  {
    forall st: Status ensures st in NOT_MARKED_DEAD <==> st !in {ACTIVE, DEAD, PENDING_SCALE_IN, PENDING_SCALE_OUT} {
      match st
      case ACTIVE | DEAD | PENDING_SCALE_IN | PENDING_SCALE_OUT =>
      case DOWN | INACTIVE | PENDING_CREATE | PENDING_UPDATE | PENDING_DELETE | ERROR =>
    }
  }

  // A call under a free pid gets its worker exactly when the row admits it. Otherwise nothing changes.
  lemma AdmittedExactly(s: System, e: Event)
    requires !e.Step? && !e.Stop? && e.pid !in s.workers
    ensures e.pid in Do(s, e).workers <==> Admits(s.tables, e)
    ensures e.pid !in Do(s, e).workers ==> Do(s, e) == s
  {
    match e
    case CallCreate(pid, ctx, id, tenant, name, attributes) =>
      assert Taken(s.tables, tenant, name) <==> exists i | i in s.tables.mea ::
               Live(s.tables.mea[i]) && s.tables.mea[i].tenant == tenant && s.tables.mea[i].name == name;
    case CallUpdate(pid, ctx, id) =>
    case CallDelete(pid, ctx, id) =>
    case CallScale(pid, ctx, id, dir) =>
    case CallRespawn(pid, ctx, id, monitoring, alarming, dictStatus) =>
      MarksDeadExactly(s.tables, id);
    case CallLogAndKill(pid, ctx, id) =>
      MarksDeadExactly(s.tables, id);
  }

  // An MEA that is being updated is in use for an update and for a deletion. For a scaling, and
  // wherever else an MEA does not qualify, it is not found.
  lemma RefusedWith(t: Tables, ctx: Context, id: MeaId, dir: Direction)
    ensures var updating := Matches(t, ctx, id, {PENDING_UPDATE});
            && (UpdatePre(t, ctx, id) == Failure(InUse) <==> updating)
            && (UpdatePre(t, ctx, id) == Failure(NotFound) <==> !updating && !Matches(t, ctx, id, {ACTIVE}))
            && (DeletePre(t, ctx, id) == Failure(InUse) <==> updating)
            && (DeletePre(t, ctx, id) == Failure(NotFound) <==>
                  !updating && !Matches(t, ctx, id, {PENDING_CREATE, ACTIVE, ERROR, DEAD}))
            && (ScalingStatus(t, ctx, id, {ACTIVE}, PendingScale(dir), None) == Failure(NotFound) <==>
                  !Matches(t, ctx, id, {ACTIVE}))
            && ScalingStatus(t, ctx, id, {ACTIVE}, PendingScale(dir), None) != Failure(InUse)
  {
  }
}
