// The flows of plugin.py as they run: one plugin object with its workers and the database. Each
// method performs one event in place; together they are the state machine of Lifecycle.
module Server {
  import opened Wrappers
  import opened MeaTable
  import HeatPolling
  import opened Lifecycle

  class MecPlugin {
    const db: MeaDb
    var workers: map<Pid, Worker>
    var complete: set<StackId>

    function State(): System
      reads this, db
    {
      System(db.Contents(), workers, complete)
    }

    constructor (db: MeaDb)
      ensures this.db == db && workers == map[] && complete == {}
    {
      this.db := db;
      workers, complete := map[], {};
    }

    method Continue(pid: Pid, pc: Pc)
      requires pid in workers
      modifies this`workers
      ensures workers == old(workers)[pid := old(workers)[pid].(pc := pc)]
    {
      workers := workers[pid := workers[pid].(pc := pc)];
    }

    method Finish(pid: Pid)
      modifies this`workers
      ensures workers == old(workers) - {pid}
    {
      workers := workers - {pid};
    }

    // _create_mea and _create_mea_wait
    method CreateMea(pid: Pid, o: Outcome, d: Input)
      requires pid in workers && Creates(workers[pid].pc)
      modifies this, db
      ensures State() == StepCreate(old(State()), pid, o, d)
    {
      var w := workers[pid];
      match w.pc
      case CreateReady =>
        if w.rounds == 0 {
          Finish(pid);
        } else {
          workers := workers[pid := w.(pc := CreateInfra, rounds := w.rounds - 1)];
        }
      case CreateInfra =>
        match o {
          case ReturnsStack(stack) => Continue(pid, Pc.CreateWait(stack));
          case Raises(_) => Continue(pid, DeleteStart);
          case _ => Continue(pid, CreateNull);
        }
      case CreateNull =>
        var ok := db.CreateMeaPost(w.ctx, w.mea, None, None, w.dictStatus, d.attributes);
        Finish(pid);
      case CreateWait(stack) =>
        if o.Polled? {
          var waited := HeatPolling.CreateWait(HeatPolling.From(o.answers), o.retries, o.lookedUp);
          match waited {
            case WaitFailed =>
              db.SetMeaErrorStatusReason(w.ctx, w.mea, o.failure);
              workers := workers[pid := w.(pc := Pc.CreatePost(stack, true), dictStatus := ERROR)];
            case Returned =>
              Continue(pid, Pc.CreatePost(stack, false));
              complete := complete + {stack};
            case Escaped =>
              Finish(pid);
          }
        }
      case CreatePost(stack, failed) =>
        var url := if failed then None else d.mgmtUrl;
        var ok := db.CreateMeaPost(w.ctx, w.mea, Some(stack), url, w.dictStatus, d.attributes);
        if !ok {
          Finish(pid);
        } else {
          Continue(pid, if failed then CreateReady else CreateConf);
        }
      case CreateConf =>
        if o.Raises? {
          db.SetMeaErrorStatusReason(w.ctx, w.mea, o.reason);
          workers := workers[pid := w.(pc := Pc.CreateStatus(true), dictStatus := ERROR)];
        } else {
          workers := workers[pid := w.(pc := Pc.CreateStatus(false), dictStatus := ACTIVE)];
        }
      case CreateStatus(failed) =>
        var ok := db.CreateMeaStatus(w.ctx, w.mea, NewStatus(failed));
        if !ok {
          Finish(pid);
        } else {
          Continue(pid, CreateReady);
        }
    }

    // update_mea after _update_mea_pre, and _update_mea_wait
    method UpdateMea(pid: Pid, o: Outcome, d: Input)
      requires pid in workers && Updates(workers[pid].pc)
      modifies this, db
      ensures State() == StepUpdate(old(State()), pid, o, d)
    {
      var w := workers[pid];
      match w.pc
      case UpdatePost(failed) =>
        db.UpdateMeaPost(w.ctx, w.mea, NewStatus(failed), d.attributes);
        Finish(pid);
      case UpdateRun =>
        if o.Raises? {
          db.SetMeaErrorStatusReason(w.ctx, w.mea, o.reason);
          Continue(pid, Pc.UpdatePost(true));
        } else {
          Continue(pid, UpdateWait);
        }
      case UpdateWait =>
        if o.Raises? {
          db.SetMeaErrorStatusReason(w.ctx, w.mea, o.reason);
          Continue(pid, Pc.UpdatePost(true));
        } else {
          Continue(pid, Pc.UpdatePost(false));
        }
    }

    // delete_mea and _delete_mea_wait
    method DeleteMea(pid: Pid, o: Outcome, d: Input)
      requires pid in workers && Deletes(workers[pid].pc)
      modifies this, db
      ensures State() == StepDelete(old(State()), pid, o, d)
    {
      var w := workers[pid];
      match w.pc
      case DeleteStart =>
        var error := db.GetMeaDb(w.ctx, w.mea, ACTIVE_UPDATE_ERROR_DEAD, PENDING_DELETE);
        if error.Some? {
          Finish(pid);
        } else {
          workers := workers[pid := w.(pc := DeleteRun, instance := db.mea[w.mea].instance)];
        }
      case DeletePost(error) =>
        db.DeleteMeaPost(w.ctx, w.mea, error, d.now);
        Finish(pid);
      case DeleteRun =>
        if o.Raises? {
          db.SetMeaErrorStatusReason(w.ctx, w.mea, o.reason);
          Continue(pid, Pc.DeletePost(true));
        } else {
          Continue(pid, DeleteWait);
        }
      case DeleteWait =>
        if w.instance.Some? && o.Raises? {
          db.SetMeaErrorStatusReason(w.ctx, w.mea, o.reason);
          Continue(pid, Pc.DeletePost(true));
        } else {
          Continue(pid, Pc.DeletePost(false));
        }
    }

    // _handle_mea_scaling after its first status change
    method HandleMeaScaling(pid: Pid, o: Outcome, d: Input)
      requires pid in workers && Scales(workers[pid].pc)
      modifies this, db
      ensures State() == StepScale(old(State()), pid, o, d)
    {
      var w := workers[pid];
      match w.pc
      case ScalePost(dir, failed) =>
        var error := db.UpdateMeaScalingStatus(w.ctx, w.mea, {PendingScale(dir)}, NewStatus(failed),
                                               if failed then None else d.mgmtUrl);
        if error.None? || failed {
          Finish(pid);
        } else {
          db.SetMeaErrorStatusReason(w.ctx, w.mea, "MEANotFound");
          Continue(pid, Pc.ScalePost(dir, true));
        }
      case ScaleRun(dir) =>
        if o.Raises? {
          db.SetMeaErrorStatusReason(w.ctx, w.mea, o.reason);
          Continue(pid, Pc.ScalePost(dir, true));
        } else {
          Continue(pid, Pc.ScaleWait(dir));
        }
      case ScaleWait(dir) =>
        if o.Raises? {
          db.SetMeaErrorStatusReason(w.ctx, w.mea, o.reason);
          Continue(pid, Pc.ScalePost(dir, true));
        } else {
          Continue(pid, Pc.ScalePost(dir, false));
        }
    }

    method Step(pid: Pid, o: Outcome, d: Input)
      modifies this, db
      ensures State() == Do(old(State()), Event.Step(pid, o, d))
    {
      if pid in workers {
        if Creates(workers[pid].pc) {
          CreateMea(pid, o, d);
        } else if Updates(workers[pid].pc) {
          UpdateMea(pid, o, d);
        } else if Deletes(workers[pid].pc) {
          DeleteMea(pid, o, d);
        } else {
          HandleMeaScaling(pid, o, d);
        }
      }
    }

    // The transaction that begins a call, and the worker for the rest of it.
    method Call(e: Event)
      requires !e.Step? && !e.Stop?
      modifies this, db
      ensures State() == Do(old(State()), e)
    {
      if e.pid in workers {
        return;
      }
      match e
      case CallCreate(pid, ctx, mea, tenant, name, attributes) =>
        if mea !in db.mea && mea !in db.attr {
          var ok := db.CreateMeaPre(mea, tenant, name, attributes);
          if ok {
            workers := workers[pid := NewWorker(mea, ctx, CreateInfra)];
          }
        }
      case CallUpdate(pid, ctx, mea) =>
        var error := db.GetMeaDb(ctx, mea, ACTIVE_UPDATE, PENDING_UPDATE);
        if error.None? {
          workers := workers[pid := NewWorker(mea, ctx, UpdateRun)];
        }
      case CallDelete(pid, ctx, mea) =>
        var error := db.GetMeaDb(ctx, mea, ACTIVE_UPDATE_ERROR_DEAD, PENDING_DELETE);
        if error.None? {
          workers := workers[pid := NewWorker(mea, ctx, DeleteRun).(instance := db.mea[mea].instance)];
        }
      case CallScale(pid, ctx, mea, dir) =>
        var error := db.UpdateMeaScalingStatus(ctx, mea, {ACTIVE}, PendingScale(dir), None);
        if error.None? {
          workers := workers[pid := NewWorker(mea, ctx, ScaleRun(dir))];
        }
      case CallRespawn(pid, ctx, mea, monitoring, alarming, dictStatus) =>
        var marked := db.MarkMeaStatus(mea, NOT_MARKED_DEAD, DEAD);
        if marked {
          workers := workers[pid := Worker(mea, ctx, CreateReady, Rounds(monitoring, alarming), dictStatus, None)];
        }
      case CallLogAndKill(pid, ctx, mea) =>
        var marked := db.MarkMeaStatus(mea, NOT_MARKED_DEAD, DEAD);
        if marked {
          workers := workers[pid := NewWorker(mea, ctx, DeleteStart)];
        }
    }

    // Any schedule runs as the state machine says.
    method Serve(es: seq<Event>)
      modifies this, db
      ensures State() == Run(old(State()), es)
    {
      ghost var s := State();
      assert es[..0] == [];
      for k := 0 to |es|
        invariant State() == Run(s, es[..k])
      {
        RunExtend(s, es, k);
        match es[k]
        case Step(pid, o, d) => Step(pid, o, d);
        case Stop(pid) => Finish(pid);
        case _ => Call(es[k]);
      }
      assert es[..|es|] == es;
    }
  }
}
