// Where ACTIVE comes from.
module Provenance {
  import opened MeaTable
  import HeatPolling
  import opened Lifecycle
  import opened NoResurrection

  // Statuses that promise a running stack.
  const RUNNING: set<Status> := {ACTIVE, PENDING_UPDATE, PENDING_SCALE_IN, PENDING_SCALE_OUT, DEAD}

  // The row's stack was seen CREATE_COMPLETE by some create_wait.
  predicate Sourced(row: Row, complete: set<StackId>) {
    row.instance.Some? && row.instance.value in complete
  }

  ghost predicate RowSourced(s: System, id: MeaId) {
    id in s.tables.mea && Live(s.tables.mea[id]) ==>
      var row := s.tables.mea[id];
      && (row.status in RUNNING ==> Sourced(row, s.complete))
      && (row.status == PENDING_CREATE && row.instance.Some? ==> Sourced(row, s.complete))
  }

  // What a creating worker may rely on at each of its points.
  ghost predicate WorkerSourced(s: System, pid: Pid) {
    pid in s.workers ==>
      var w := s.workers[pid];
      match w.pc
      case CreatePost(stack, failed) => if failed then w.dictStatus == ERROR else stack in s.complete
      case CreateConf => Posted(s, w.mea)
      case CreateStatus(_) => Posted(s, w.mea)
      case _ => true
  }

  // _create_mea_post went through for this MEA.
  predicate Posted(s: System, id: MeaId) {
    id in s.tables.mea &&
    (!Live(s.tables.mea[id]) || Doomed(s.tables.mea[id]) || s.tables.mea[id].instance.Some?)
  }

  ghost predicate AllSourced(s: System) {
    (forall id :: RowSourced(s, id)) && (forall pid :: WorkerSourced(s, pid))
  }

  // A step keeps the two facts for the MEA and the worker it is about.
  ghost predicate KeepsSources(s: System, e: Event) {
    && s.complete <= Do(s, e).complete
    && RowSourced(Do(s, e), Target(s, e))
    && WorkerSourced(Do(s, e), e.pid)
    && (Posted(s, Target(s, e)) ==> Posted(Do(s, e), Target(s, e)))
  }

  lemma CreateKeepsSources(s: System, e: Event)
    requires e.Step? && e.pid in s.workers && Creates(s.workers[e.pid].pc)
    requires RowSourced(s, Target(s, e)) && WorkerSourced(s, e.pid)
    ensures KeepsSources(s, e)
  {
  }

  lemma UpdateKeepsSources(s: System, e: Event)
    requires e.Step? && e.pid in s.workers && Updates(s.workers[e.pid].pc)
    requires RowSourced(s, Target(s, e))
    ensures KeepsSources(s, e)
  {
  }

  lemma DeleteKeepsSources(s: System, e: Event)
    requires e.Step? && e.pid in s.workers && Deletes(s.workers[e.pid].pc)
    requires RowSourced(s, Target(s, e))
    ensures KeepsSources(s, e)
  {
  }

  lemma ScaleKeepsSources(s: System, e: Event)
    requires e.Step? && e.pid in s.workers && Scales(s.workers[e.pid].pc)
    requires RowSourced(s, Target(s, e))
    ensures KeepsSources(s, e)
  {
  }

  lemma CallKeepsSources(s: System, e: Event)
    requires !e.Step? || e.pid !in s.workers
    requires RowSourced(s, Target(s, e)) && WorkerSourced(s, e.pid)
    ensures KeepsSources(s, e)
  {
  }

  lemma StepSourced(s: System, e: Event)
    requires AllSourced(s)
    ensures AllSourced(Do(s, e))
  {
    assert RowSourced(s, Target(s, e)) && WorkerSourced(s, e.pid);
    assert KeepsSources(s, e) by {
      if !e.Step? || e.pid !in s.workers {
        CallKeepsSources(s, e);
      } else if Creates(s.workers[e.pid].pc) {
        CreateKeepsSources(s, e);
      } else if Updates(s.workers[e.pid].pc) {
        UpdateKeepsSources(s, e);
      } else if Deletes(s.workers[e.pid].pc) {
        DeleteKeepsSources(s, e);
      } else {
        ScaleKeepsSources(s, e);
      }
    }
    Frame(s, e);
    forall id: MeaId ensures RowSourced(Do(s, e), id) {
      assert RowSourced(s, id);
    }
    forall pid: Pid ensures WorkerSourced(Do(s, e), pid) {
      assert WorkerSourced(s, pid);
    }
  }

  lemma {:induction false} RunSourced(s: System, es: seq<Event>)
    requires AllSourced(s)
    ensures AllSourced(Run(s, es))
    decreases |es|
  {
    if es != [] {
      StepSourced(s, es[0]);
      RunSourced(Do(s, es[0]), es[1..]);
    }
  }

  // At this event some worker that creates with the stack hears from Heat, within the retries,
  // that it is CREATE_COMPLETE.
  ghost predicate Observes(s: System, e: Event, stack: StackId) {
    && e.Step? && e.pid in s.workers && s.workers[e.pid].pc == Pc.CreateWait(stack)
    && e.outcome.Polled? && HeatPolling.Completes(HeatPolling.From(e.outcome.answers), e.outcome.retries)
  }

  lemma StepComplete(s: System, e: Event, stack: StackId)
    requires stack in Do(s, e).complete
    ensures stack in s.complete || Observes(s, e, stack)
  {
  }

  lemma {:induction false} RunComplete(s: System, es: seq<Event>, stack: StackId, k: nat)
    requires k <= |es| && stack in Run(s, es[..k]).complete
    ensures stack in s.complete || exists i :: 0 <= i < k && Observes(Run(s, es[..i]), es[i], stack)
  {
    if k > 0 {
      RunExtend(s, es, k - 1);
      StepComplete(Run(s, es[..k - 1]), es[k - 1], stack);
      if stack in Run(s, es[..k - 1]).complete {
        RunComplete(s, es, stack, k - 1);
      }
    } else {
      assert es[..0] == [];
    }
  }

  // From a database whose live rows satisfy it (an empty one does), after any run: a live row
  // that is ACTIVE, PENDING_UPDATE, PENDING_SCALE_*, or DEAD has an instance_id, and Heat has said
  // of that stack that it is CREATE_COMPLETE, to a worker waiting for it in this run or before.
  // Respawns, which replace the stack, are no exception.
  lemma ActiveProvenance(s: System, es: seq<Event>, id: MeaId)
    requires Boot(s) && forall i :: RowSourced(s, i)
    requires id in Run(s, es).tables.mea
    ensures var row := Run(s, es).tables.mea[id];
            Live(row) && row.status in RUNNING ==>
              && row.instance.Some?
              && (row.instance.value in s.complete
                  || exists k :: 0 <= k < |es| && Observes(Run(s, es[..k]), es[k], row.instance.value))
  {
    RunSourced(s, es);
    assert RowSourced(Run(s, es), id);
    var row := Run(s, es).tables.mea[id];
    if Live(row) && row.status in RUNNING {
      assert es[..|es|] == es;
      RunComplete(s, es, row.instance.value, |es|);
    }
  }
}
