// Which worker a pending row belongs to, over every run.
module Ownership {
  import opened Wrappers
  import opened MeaTable
  import opened Lifecycle
  import HeatPolling
  import opened NoResurrection

  const CLAIMED: set<Status> := {PENDING_UPDATE, PENDING_DELETE, PENDING_SCALE_IN, PENDING_SCALE_OUT}

  // The status a worker set and has still to replace.
  function Claims(pc: Pc): Option<Status> {
    match pc
    case UpdateRun | UpdateWait | UpdatePost(_) => Some(PENDING_UPDATE)
    case DeleteRun | DeleteWait | DeletePost(_) => Some(PENDING_DELETE)
    case ScaleRun(d) => Some(PendingScale(d))
    case ScaleWait(d) => Some(PendingScale(d))
    case ScalePost(d, _) => Some(PendingScale(d))
    case _ => None
  }

  predicate Holds(s: System, pid: Pid, id: MeaId, st: Status) {
    pid in s.workers && s.workers[pid].mea == id && Claims(s.workers[pid].pc) == Some(st)
  }

  predicate AtStatus(s: System, id: MeaId, st: Status) {
    id in s.tables.mea && Live(s.tables.mea[id]) && s.tables.mea[id].status == st
  }

  // The worker's row is live, in the worker's sight and in the claimed status.
  predicate Honoured(s: System, pid: Pid)
    requires pid in s.workers && Claims(s.workers[pid].pc).Some?
  {
    Matches(s.tables, s.workers[pid].ctx, s.workers[pid].mea, {Claims(s.workers[pid].pc).value})
  }

  predicate Relevant(s: System, pid: Pid, kinds: set<Status>) {
    pid in s.workers && Claims(s.workers[pid].pc).Some? && Claims(s.workers[pid].pc).value in kinds
  }

  // Every worker with a claim of one of these kinds is the only one on its MEA, and the row
  // is as the worker left it.
  ghost predicate Exclusive(s: System, kinds: set<Status>) {
    && (forall p | Relevant(s, p, kinds) :: Honoured(s, p))
    && (forall p, q | Relevant(s, p, kinds) && Relevant(s, q, kinds) && p != q ::
          s.workers[p].mea != s.workers[q].mea)
  }

  // _mark_mea_dead succeeds.
  predicate MarksDead(s: System, e: Event) {
    (e.CallRespawn? || e.CallLogAndKill?) && e.pid !in s.workers && MarkDead(s.tables, e.mea).Some?
  }

  // _mark_mea_dead fires on an MEA that a scaling worker is busy with.
  ghost predicate Breach(s: System, e: Event) {
    MarksDead(s, e) && exists p, d :: Holds(s, p, e.mea, PendingScale(d))
  }

  // What one step from s to s' does to a claimed row and to the claim of the worker that takes it.
  ghost predicate KeepsClaims(s: System, e: Event, s': System) {
    var id := Target(s, e);
    // a claimed status is replaced only by a worker that claims it, or by _mark_mea_dead
    && (forall st | st in CLAIMED && AtStatus(s, id, st) && !AtStatus(s', id, st) ::
          Holds(s, e.pid, id, st) || (MarksDead(s, e) && (st == PENDING_SCALE_IN || st == PENDING_SCALE_OUT)))
    // a claim that survives a step leaves the row alone, a new one starts from an unclaimed row
    && (Relevant(s', e.pid, CLAIMED) ==>
          var w' := s'.workers[e.pid];
          if Relevant(s, e.pid, CLAIMED)
          then s.workers[e.pid].mea == w'.mea && Claims(s.workers[e.pid].pc) == Claims(w'.pc)
               && s.workers[e.pid].ctx == w'.ctx && (Honoured(s, e.pid) ==> Honoured(s', e.pid))
          else w'.mea == id && Honoured(s', e.pid) && id in s.tables.mea && s.tables.mea[id].status !in CLAIMED)
  }

  lemma CreateKeepsClaims(s: System, e: Event)
    requires e.Step? && e.pid in s.workers && Creates(s.workers[e.pid].pc)
    ensures KeepsClaims(s, e, Do(s, e))
  {
  }

  lemma UpdateKeepsClaims(s: System, e: Event)
    requires e.Step? && e.pid in s.workers && Updates(s.workers[e.pid].pc)
    ensures KeepsClaims(s, e, Do(s, e))
  {
  }

  lemma DeleteStartKeepsClaims(s: System, e: Event)
    requires e.Step? && e.pid in s.workers && s.workers[e.pid].pc.DeleteStart?
    ensures KeepsClaims(s, e, Do(s, e))
  {
  }

  lemma DeleteKeepsClaims(s: System, e: Event)
    requires e.Step? && e.pid in s.workers && Deletes(s.workers[e.pid].pc) && !s.workers[e.pid].pc.DeleteStart?
    ensures KeepsClaims(s, e, Do(s, e))
  {
  }

  lemma ScaleKeepsClaims(s: System, e: Event)
    requires e.Step? && e.pid in s.workers && Scales(s.workers[e.pid].pc)
    ensures KeepsClaims(s, e, Do(s, e))
  {
  }

  predicate Scaling(e: Event) {
    e.CallScale? || e.CallRespawn? || e.CallLogAndKill?
  }

  lemma ScalingCallKeepsClaims(s: System, e: Event)
    requires Scaling(e)
    ensures KeepsClaims(s, e, Do(s, e))
  {
  }

  lemma UpdateCallKeepsClaims(s: System, e: Event)
    requires e.CallUpdate?
    ensures KeepsClaims(s, e, Do(s, e))
  {
  }

  lemma DeleteCallKeepsClaims(s: System, e: Event)
    requires e.CallDelete?
    ensures KeepsClaims(s, e, Do(s, e))
  {
  }

  lemma CallKeepsClaims(s: System, e: Event)
    requires e.CallCreate? || e.Stop? || (e.Step? && e.pid !in s.workers)
    ensures KeepsClaims(s, e, Do(s, e))
  {
  }

  lemma AllKeepClaims(s: System, e: Event)
    ensures KeepsClaims(s, e, Do(s, e))
  {
    if Scaling(e) {
      ScalingCallKeepsClaims(s, e);
    } else if e.CallUpdate? {
      UpdateCallKeepsClaims(s, e);
    } else if e.CallDelete? {
      DeleteCallKeepsClaims(s, e);
    } else if !e.Step? || e.pid !in s.workers {
      CallKeepsClaims(s, e);
    } else if Creates(s.workers[e.pid].pc) {
      CreateKeepsClaims(s, e);
    } else if Updates(s.workers[e.pid].pc) {
      UpdateKeepsClaims(s, e);
    } else if s.workers[e.pid].pc.DeleteStart? {
      DeleteStartKeepsClaims(s, e);
    } else if Deletes(s.workers[e.pid].pc) {
      DeleteKeepsClaims(s, e);
    } else {
      ScaleKeepsClaims(s, e);
    }
  }

  const UPDATE_DELETE: set<Status> := {PENDING_UPDATE, PENDING_DELETE}

  lemma StepExclusive(s: System, e: Event, kinds: set<Status>)
    requires Exclusive(s, kinds) && kinds <= CLAIMED
    requires kinds <= UPDATE_DELETE || !Breach(s, e)
    ensures Exclusive(Do(s, e), kinds)
  {
    Frame(s, e);
    AllKeepClaims(s, e);
    StepOnward(s, e, Target(s, e));
    MoveExclusive(s, e, Do(s, e), kinds);
  }

  // Exclusive is kept by whatever step frames and keeps claims as Do does.
  lemma MoveExclusive(s: System, e: Event, t: System, kinds: set<Status>)
    requires Exclusive(s, kinds) && kinds <= CLAIMED && Moves(s, e, t)
    requires kinds <= UPDATE_DELETE || !Breach(s, e)
    ensures Exclusive(t, kinds)
  {
    forall p: Pid | Relevant(t, p, kinds) ensures Honoured(t, p) {
      if p != e.pid {
        OtherStaysHonoured(s, e, t, kinds, p);
      }
    }
    forall p: Pid, q: Pid | Relevant(t, p, kinds) && Relevant(t, q, kinds) && p != q
      ensures t.workers[p].mea != t.workers[q].mea
    {
      if p == e.pid {
        NewClaimIsAlone(s, e, t, kinds, q);
      } else if q == e.pid {
        NewClaimIsAlone(s, e, t, kinds, p);
      }
    }
  }

  ghost predicate Moves(s: System, e: Event, t: System) {
    && SameExcept(s.tables.mea, t.tables.mea, Target(s, e)) && SameExcept(s.workers, t.workers, e.pid)
    && KeepsClaims(s, e, t) && Onward(s.tables.mea, t.tables.mea, Target(s, e))
  }

  lemma OtherStaysHonoured(s: System, e: Event, t: System, kinds: set<Status>, p: Pid)
    requires Exclusive(s, kinds) && kinds <= CLAIMED && Moves(s, e, t)
    requires kinds <= UPDATE_DELETE || !Breach(s, e)
    requires p != e.pid && Relevant(t, p, kinds)
    ensures Honoured(t, p)
  {
    assert Relevant(s, p, kinds) && Honoured(s, p);
    var id, st := s.workers[p].mea, Claims(s.workers[p].pc).value;
    assert Holds(s, p, id, st) && AtStatus(s, id, st);
    if id == Target(s, e) {
      assert Holds(s, e.pid, id, st) ==> Relevant(s, e.pid, kinds);
      assert AtStatus(t, id, st);
    }
  }

  lemma NewClaimIsAlone(s: System, e: Event, t: System, kinds: set<Status>, q: Pid)
    requires Exclusive(s, kinds) && kinds <= CLAIMED && Moves(s, e, t)
    requires q != e.pid && Relevant(t, e.pid, kinds) && Relevant(t, q, kinds)
    ensures t.workers[e.pid].mea != t.workers[q].mea
  {
    assert Relevant(s, q, kinds) && Honoured(s, q);
  }

  lemma {:induction false} RunExclusive(s: System, es: seq<Event>)
    requires Exclusive(s, UPDATE_DELETE)
    ensures Exclusive(Run(s, es), UPDATE_DELETE)
    decreases |es|
  {
    if es != [] {
      StepExclusive(s, es[0], UPDATE_DELETE);
      RunExclusive(Do(s, es[0]), es[1..]);
    }
  }

  // In every state the server can reach, whatever rows it started with: a worker between
  // _update_mea_pre and _update_mea_post finds its row live and PENDING_UPDATE, one between
  // _delete_mea_pre and _delete_mea_post finds it live and PENDING_DELETE, and no MEA has two.
  lemma UpdateDeleteOwned(s: System, es: seq<Event>)
    requires Boot(s)
    ensures Exclusive(Run(s, es), UPDATE_DELETE)
  {
    RunExclusive(s, es);
  }

  lemma BreachBreaks(s: System, e: Event)
    requires Breach(s, e)
    ensures !Exclusive(Do(s, e), CLAIMED)
  {
    Frame(s, e);
    var p, d :| Holds(s, p, e.mea, PendingScale(d));
    assert Relevant(Do(s, e), p, CLAIMED) && !Honoured(Do(s, e), p);
  }

  lemma {:induction false} PrefixExclusive(s: System, es: seq<Event>, k: nat)
    requires Boot(s) && k <= |es|
    requires forall i | 0 <= i < |es| :: !Breach(Run(s, es[..i]), es[i])
    ensures Exclusive(Run(s, es[..k]), CLAIMED)
  {
    if k > 0 {
      PrefixExclusive(s, es, k - 1);
      RunExtend(s, es, k - 1);
      StepExclusive(Run(s, es[..k - 1]), es[k - 1], CLAIMED);
    }
  }

  // With scaling workers counted in, the ownership holds all along a run exactly when
  // _mark_mea_dead never fires on an MEA that such a worker is busy with.
  lemma ScalingOwnedExactly(s: System, es: seq<Event>)
    requires Boot(s)
    ensures (forall k | 0 <= k <= |es| :: Exclusive(Run(s, es[..k]), CLAIMED)) <==>
            (forall k | 0 <= k < |es| :: !Breach(Run(s, es[..k]), es[k]))
  {
    if forall k | 0 <= k < |es| :: !Breach(Run(s, es[..k]), es[k]) {
      forall k | 0 <= k <= |es| ensures Exclusive(Run(s, es[..k]), CLAIMED) {
        PrefixExclusive(s, es, k);
      }
    } else {
      var k :| 0 <= k < |es| && Breach(Run(s, es[..k]), es[k]);
      BreachBreaks(Run(s, es[..k]), es[k]);
      RunExtend(s, es, k);
      assert !Exclusive(Run(s, es[..k + 1]), CLAIMED);
    }
  }

  // ---- Attribute rows ----

  predicate Untouchable(t: Tables, id: MeaId) {
    id in t.mea && (!Live(t.mea[id]) || Doomed(t.mea[id]))
  }

  lemma OtherKeepsAttributes(s: System, e: Event)
    requires e.Step? && e.pid in s.workers && !Updates(s.workers[e.pid].pc)
    requires Untouchable(s.tables, Target(s, e))
    ensures Do(s, e).tables.attr == s.tables.attr
  {
  }

  lemma StepAttributes(s: System, e: Event, id: MeaId)
    requires Exclusive(s, UPDATE_DELETE) && Untouchable(s.tables, id)
    ensures AttributesOf(Do(s, e).tables, id) == AttributesOf(s.tables, id)
  {
    Frame(s, e);
    if e.Step? && e.pid in s.workers && id == s.workers[e.pid].mea {
      var pc := s.workers[e.pid].pc;
      // an updating worker would have seen the row live and PENDING_UPDATE
      assert Updates(pc) ==> Relevant(s, e.pid, UPDATE_DELETE);
      OtherKeepsAttributes(s, e);
    }
  }

  lemma {:induction false} RunAttributes(s: System, es: seq<Event>, id: MeaId)
    requires Exclusive(s, UPDATE_DELETE) && Untouchable(s.tables, id)
    ensures Untouchable(Run(s, es).tables, id)
    ensures AttributesOf(Run(s, es).tables, id) == AttributesOf(s.tables, id)
    decreases |es|
  {
    if es != [] {
      StepExclusive(s, es[0], UPDATE_DELETE);
      StepAttributes(s, es[0], id);
      StepOnward(s, es[0], id);
      RunAttributes(Do(s, es[0]), es[1..], id);
    }
  }

  // _update_mea_post rewrites attribute rows without looking at the status. Ownership makes up
  // for it: from the moment an MEA is ERROR, PENDING_DELETE or soft-deleted its attribute rows
  // are never changed again.
  lemma AttributesFrozen(s: System, es: seq<Event>, i: nat, j: nat, id: MeaId)
    requires Boot(s) && i <= j <= |es|
    requires Untouchable(Run(s, es[..i]).tables, id)
    ensures AttributesOf(Run(s, es[..j]).tables, id) == AttributesOf(Run(s, es[..i]).tables, id)
  {
    UpdateDeleteOwned(s, es[..i]);
    assert es[..j] == es[..i] + es[i..j];
    RunConcat(s, es[..i], es[i..j]);
    RunAttributes(Run(s, es[..i]), es[i..j], id);
  }

  // ---- Rows nobody will move on ----

  ghost predicate Orphan(s: System, id: MeaId, st: Status) {
    AtStatus(s, id, st) && forall p :: !Holds(s, p, id, st)
  }

  predicate MarksDeadHere(s: System, e: Event, id: MeaId) {
    MarksDead(s, e) && e.mea == id
  }

  lemma StepOrphan(s: System, e: Event, id: MeaId, st: Status)
    requires Orphan(s, id, st) && st in CLAIMED
    requires st in UPDATE_DELETE || !MarksDeadHere(s, e, id)
    ensures Orphan(Do(s, e), id, st)
  {
    Frame(s, e);
    AllKeepClaims(s, e);
    MoveOrphan(s, e, Do(s, e), id, st);
  }

  lemma MoveOrphan(s: System, e: Event, t: System, id: MeaId, st: Status)
    requires Orphan(s, id, st) && st in CLAIMED
    requires st in UPDATE_DELETE || !MarksDeadHere(s, e, id)
    requires SameExcept(s.tables.mea, t.tables.mea, Target(s, e)) && SameExcept(s.workers, t.workers, e.pid)
    requires KeepsClaims(s, e, t)
    ensures Orphan(t, id, st)
  {
    assert !Holds(s, e.pid, id, st);
    assert Holds(t, e.pid, id, st) ==> Relevant(t, e.pid, CLAIMED);
    forall p ensures !Holds(t, p, id, st) {
      assert !Holds(s, p, id, st);
    }
  }

  lemma {:induction false} OrphanStuck(s: System, es: seq<Event>, id: MeaId, st: Status)
    requires Orphan(s, id, st) && st in UPDATE_DELETE
    ensures Orphan(Run(s, es), id, st)
    decreases |es|
  {
    if es != [] {
      StepOrphan(s, es[0], id, st);
      OrphanStuck(Do(s, es[0]), es[1..], id, st);
    }
  }

  // A worker that holds the row still has a way to move it on.
  lemma HolderReleases(s: System, pid: Pid, id: MeaId, st: Status) returns (es: seq<Event>)
    requires Holds(s, pid, id, st) && st in UPDATE_DELETE && Honoured(s, pid)
    ensures !AtStatus(Run(s, es), id, st)
  {
    var go := Step(pid, Returns, Input(map[], None, 1));
    es := [];
    var now := s;
    while !now.workers[pid].pc.UpdatePost? && !now.workers[pid].pc.DeletePost?
      invariant Holds(now, pid, id, st) && Honoured(now, pid)
      invariant now == Run(s, es)
      decreases match now.workers[pid].pc case UpdateRun => 2 case DeleteRun => 2 case UpdateWait => 1
                case DeleteWait => 1 case _ => 0
    {
      HolderAdvances(now, pid, id, st, go);
      RunConcat(s, es, [go]);
      RunOne(now, go);
      es := es + [go];
      now := Do(now, go);
    }
    HolderCloses(now, pid, id, st, go);
    RunConcat(s, es, [go]);
    RunOne(now, go);
    es := es + [go];
  }

  lemma HolderAdvances(s: System, pid: Pid, id: MeaId, st: Status, go: Event)
    requires Holds(s, pid, id, st) && st in UPDATE_DELETE && Honoured(s, pid)
    requires go == Step(pid, Returns, Input(map[], None, 1))
    requires !s.workers[pid].pc.UpdatePost? && !s.workers[pid].pc.DeletePost?
    ensures Holds(Do(s, go), pid, id, st) && Honoured(Do(s, go), pid)
    ensures var pc, pc' := s.workers[pid].pc, Do(s, go).workers[pid].pc;
            (pc.UpdateRun? && pc'.UpdateWait?) || (pc.DeleteRun? && pc'.DeleteWait?)
            || pc'.UpdatePost? || pc'.DeletePost?
  {
  }

  lemma HolderCloses(s: System, pid: Pid, id: MeaId, st: Status, go: Event)
    requires Holds(s, pid, id, st) && st in UPDATE_DELETE && Honoured(s, pid)
    requires go == Step(pid, Returns, Input(map[], None, 1))
    requires s.workers[pid].pc.UpdatePost? || s.workers[pid].pc.DeletePost?
    ensures !AtStatus(Do(s, go), id, st)
  {
  }

  // A row that is PENDING_UPDATE or PENDING_DELETE in a reachable state stays so for ever, whatever
  // is called, exactly when no worker holds it: every call refuses it and only its holder moves it.
  lemma StuckExactly(s: System, es: seq<Event>, id: MeaId, st: Status)
    requires Boot(s) && st in UPDATE_DELETE && AtStatus(Run(s, es), id, st)
    ensures (forall fs :: AtStatus(Run(Run(s, es), fs), id, st)) <==>
            (forall p :: !Holds(Run(s, es), p, id, st))
  {
    var t := Run(s, es);
    if p: Pid :| Holds(t, p, id, st) {
      UpdateDeleteOwned(s, es);
      assert Relevant(t, p, UPDATE_DELETE);
      var fs := HolderReleases(t, p, id, st);
    } else {
      forall fs ensures AtStatus(Run(t, fs), id, st) {
        OrphanStuck(t, fs, id, st);
      }
    }
  }

  // Such a row can be made of every ACTIVE MEA, in every reachable state, by an update whose
  // worker stops right after _update_mea_pre, as it does when get_vim raises.
  lemma UpdateCanStrand(s: System, es: seq<Event>, id: MeaId, pid: Pid)
    requires Boot(s) && AtStatus(Run(s, es), id, ACTIVE) && pid !in Run(s, es).workers
    ensures Orphan(Run(Run(s, es), [CallUpdate(pid, ADMIN, id), Stop(pid)]), id, PENDING_UPDATE)
  {
    var t := Run(s, es);
    UpdateDeleteOwned(s, es);
    forall p ensures !Holds(t, p, id, PENDING_UPDATE) {
      assert Relevant(t, p, UPDATE_DELETE) ==> Honoured(t, p);
    }
    RunTwo(t, CallUpdate(pid, ADMIN, id), Stop(pid));
    Strand(t, id, pid);
  }

  lemma Strand(t: System, id: MeaId, pid: Pid)
    requires AtStatus(t, id, ACTIVE) && pid !in t.workers && forall p :: !Holds(t, p, id, PENDING_UPDATE)
    ensures Orphan(Do(Do(t, CallUpdate(pid, ADMIN, id)), Stop(pid)), id, PENDING_UPDATE)
  {
    var u := Do(Do(t, CallUpdate(pid, ADMIN, id)), Stop(pid));
    forall p ensures !Holds(u, p, id, PENDING_UPDATE) {
      assert !Holds(t, p, id, PENDING_UPDATE);
    }
  }

  // ---- Abandoned scaling ----

  // Every ACTIVE MEA of a reachable state can get there by a scaling whose worker stops right
  // after its first transaction.
  lemma ScaleCanStrand(s: System, es: seq<Event>, id: MeaId, pid: Pid, dir: Direction)
    requires Boot(s) && AtStatus(Run(s, es), id, ACTIVE) && pid !in Run(s, es).workers
    requires forall p :: !Holds(Run(s, es), p, id, PendingScale(dir))
    ensures Orphan(Run(Run(s, es), [CallScale(pid, ADMIN, id, dir), Stop(pid)]), id, PendingScale(dir))
  {
    var t := Run(s, es);
    RunTwo(t, CallScale(pid, ADMIN, id, dir), Stop(pid));
    var u := Do(Do(t, CallScale(pid, ADMIN, id, dir)), Stop(pid));
    forall p ensures !Holds(u, p, id, PendingScale(dir)) {
      assert !Holds(t, p, id, PendingScale(dir));
    }
  }

  lemma {:induction false} ScaleOrphanStays(s: System, es: seq<Event>, id: MeaId, st: Status, k: nat)
    requires Orphan(s, id, st) && st in {PENDING_SCALE_IN, PENDING_SCALE_OUT} && k <= |es|
    requires forall i | 0 <= i < k :: !MarksDeadHere(Run(s, es[..i]), es[i], id)
    ensures Orphan(Run(s, es[..k]), id, st)
  {
    if k > 0 {
      ScaleOrphanStays(s, es, id, st, k - 1);
      RunExtend(s, es, k - 1);
      StepOrphan(Run(s, es[..k - 1]), es[k - 1], id, st);
    }
  }

  // An MEA that is being scaled and that no worker holds can be neither updated nor deleted nor
  // scaled: along every run it keeps its status exactly as long as _mark_mea_dead does not fire
  // on it, and then it is DEAD.
  lemma ScaleOrphanLeavesExactly(s: System, es: seq<Event>, id: MeaId, st: Status)
    requires Orphan(s, id, st) && st in {PENDING_SCALE_IN, PENDING_SCALE_OUT}
    ensures (forall k | 0 <= k <= |es| :: AtStatus(Run(s, es[..k]), id, st)) <==>
            (forall k | 0 <= k < |es| :: !MarksDeadHere(Run(s, es[..k]), es[k], id))
    ensures forall k | 0 <= k < |es| && MarksDeadHere(Run(s, es[..k]), es[k], id) ::
              AtStatus(Run(s, es[..k + 1]), id, DEAD)
  {
    forall k | 0 <= k < |es| && MarksDeadHere(Run(s, es[..k]), es[k], id)
      ensures AtStatus(Run(s, es[..k + 1]), id, DEAD)
    {
      RunExtend(s, es, k);
    }
    if forall k | 0 <= k < |es| :: !MarksDeadHere(Run(s, es[..k]), es[k], id) {
      forall k | 0 <= k <= |es| ensures AtStatus(Run(s, es[..k]), id, st) {
        ScaleOrphanStays(s, es, id, st, k);
      }
    } else {
      var k :| 0 <= k < |es| && MarksDeadHere(Run(s, es[..k]), es[k], id);
      assert AtStatus(Run(s, es[..k + 1]), id, DEAD) && !AtStatus(Run(s, es[..k + 1]), id, st);
    }
  }

  // ---- Two workers on one row ----

  // How a scaling row changes hands: while worker p scales out, the MEA is respawned up to ACTIVE
  // by q and scaled out again by r, and then p and r hold the one row. Any state in which the MEA
  // is ACTIVE will do.
  lemma TwoScalingWorkers(s: System, id: MeaId, stack: StackId, p: Pid, q: Pid, r: Pid) returns (es: seq<Event>)
    requires AtStatus(s, id, ACTIVE) && Free(s, p, q, r)
    ensures Holds(Run(s, es), p, id, PENDING_SCALE_OUT) && Holds(Run(s, es), r, id, PENDING_SCALE_OUT)
    ensures AtStatus(Run(s, es), id, PENDING_SCALE_OUT)
  {
    es := [CallScale(p, ADMIN, id, OUT), CallRespawn(q, ADMIN, id, true, false, ACTIVE)];
    RunTwo(s, es[0], es[1]);
    ScaleThenRespawn(s, id, p, q, r);
    var go := RunRespawn(Run(s, es), id, stack, Input(map[], None, 1), p, q, r);
    RunConcat(s, es, go);
    var again := CallScale(r, ADMIN, id, OUT);
    ScaleAgain(Run(s, es + go), id, p, q, r);
    RunConcat(s, es + go, [again]);
    RunOne(Run(s, es + go), again);
    es := es + go + [again];
  }

  predicate Free(s: System, p: Pid, q: Pid, r: Pid) {
    p != q && p != r && q != r && p !in s.workers && q !in s.workers && r !in s.workers
  }

  lemma ScaleThenRespawn(s: System, id: MeaId, p: Pid, q: Pid, r: Pid)
    requires AtStatus(s, id, ACTIVE) && Free(s, p, q, r)
    ensures var t := Do(Do(s, CallScale(p, ADMIN, id, OUT)), CallRespawn(q, ADMIN, id, true, false, ACTIVE));
            && Respawning(t, id, CreateReady, DEAD, p, q, r)
            && t.workers[q].rounds == 1 && t.workers[q].dictStatus == ACTIVE
  {
  }

  lemma ScaleAgain(u: System, id: MeaId, p: Pid, q: Pid, r: Pid)
    requires Respawning(u, id, CreateReady, ACTIVE, p, q, r)
    ensures var v := Do(u, CallScale(r, ADMIN, id, OUT));
            && Holds(v, p, id, PENDING_SCALE_OUT) && Holds(v, r, id, PENDING_SCALE_OUT)
            && AtStatus(v, id, PENDING_SCALE_OUT)
  {
  }

  lemma RunOne(s: System, e: Event)
    ensures Run(s, [e]) == Do(s, e)
  {
    assert Run(Do(s, e), [e][1..]) == Do(s, e);
  }

  lemma RunTwo(s: System, e: Event, f: Event)
    ensures Run(s, [e, f]) == Do(Do(s, e), f)
  {
    assert [e, f][1..] == [f] && [f][1..] == [];
    assert Run(Do(s, e), [f]) == Run(Do(Do(s, e), f), []);
  }

  // The respawning worker q is at pc, with the MEA in the given status, and p still scaling it.
  predicate Respawning(t: System, id: MeaId, pc: Pc, st: Status, p: Pid, q: Pid, r: Pid) {
    && p != q && p != r && q != r
    && q in t.workers && t.workers[q].mea == id && t.workers[q].ctx == ADMIN && t.workers[q].pc == pc
    && (pc == CreateReady || t.workers[q].dictStatus == ACTIVE)
    && AtStatus(t, id, st) && Holds(t, p, id, PENDING_SCALE_OUT) && r !in t.workers
  }

  lemma RespawnStart(t: System, id: MeaId, stack: StackId, d: Input, p: Pid, q: Pid, r: Pid)
    requires Respawning(t, id, CreateReady, DEAD, p, q, r)
    requires t.workers[q].rounds == 1 && t.workers[q].dictStatus == ACTIVE
    ensures var u := Do(Do(t, Step(q, Returns, d)), Step(q, ReturnsStack(stack), d));
            Respawning(u, id, Pc.CreateWait(stack), DEAD, p, q, r)
  {
    var a := Do(t, Step(q, Returns, d));
    assert Respawning(a, id, CreateInfra, DEAD, p, q, r);
  }

  lemma RespawnPost(t: System, id: MeaId, stack: StackId, d: Input, p: Pid, q: Pid, r: Pid)
    requires Respawning(t, id, Pc.CreateWait(stack), DEAD, p, q, r)
    ensures Respawning(Do(Do(t, Step(q, Completed(), d)), Step(q, Returns, d)), id, CreateConf, DEAD, p, q, r)
  {
    CompletesAtOnce();
    var a := Do(t, Step(q, Completed(), d));
    assert Respawning(a, id, Pc.CreatePost(stack, false), DEAD, p, q, r);
  }

  // Heat's first answer is CREATE_COMPLETE.
  function Completed(): Outcome {
    Polled([HeatPolling.Stack(HeatPolling.CREATE_COMPLETE)], 0, true, "")
  }

  lemma CompletesAtOnce()
    ensures var o := Completed();
            HeatPolling.CreateOutcome(HeatPolling.From(o.answers), o.retries, o.lookedUp) == HeatPolling.Returned
  {
    var answer := HeatPolling.From(Completed().answers);
    assert answer(0) == HeatPolling.Stack(HeatPolling.CREATE_COMPLETE);
    assert HeatPolling.Settles(answer, 0, 0, HeatPolling.CREATE_IN_PROGRESS, false);
  }

  lemma RespawnFinish(t: System, id: MeaId, d: Input, p: Pid, q: Pid, r: Pid)
    requires Respawning(t, id, CreateConf, DEAD, p, q, r)
    ensures Respawning(Do(Do(t, Step(q, Returns, d)), Step(q, Returns, d)), id, CreateReady, ACTIVE, p, q, r)
  {
    var a := Do(t, Step(q, Returns, d));
    assert Respawning(a, id, Pc.CreateStatus(false), DEAD, p, q, r);
  }

  // Runs worker q from its respawn to ACTIVE.
  lemma RunRespawn(t: System, id: MeaId, stack: StackId, d: Input, p: Pid, q: Pid, r: Pid) returns (go: seq<Event>)
    requires Respawning(t, id, CreateReady, DEAD, p, q, r)
    requires t.workers[q].rounds == 1 && t.workers[q].dictStatus == ACTIVE
    ensures Respawning(Run(t, go), id, CreateReady, ACTIVE, p, q, r)
  {
    var e, f := Step(q, Returns, d), Step(q, ReturnsStack(stack), d);
    RespawnStart(t, id, stack, d, p, q, r);
    RunTwo(t, e, f);
    var a := Run(t, [e, f]);
    RespawnPost(a, id, stack, d, p, q, r);
    var c := Step(q, Completed(), d);
    RunTwo(a, c, e);
    RunConcat(t, [e, f], [c, e]);
    var b := Run(t, [e, f] + [c, e]);
    RespawnFinish(b, id, d, p, q, r);
    RunTwo(b, e, e);
    RunConcat(t, [e, f] + [c, e], [e, e]);
    go := [e, f] + [c, e] + [e, e];
  }
}
