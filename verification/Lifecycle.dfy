// The MEA lifecycle as interleaved steps (apmec/mem/plugin.py and the respawn and
// log_and_kill policy actions). Each API call, monitor action and spawned green thread is a
// worker with a program counter. A step runs one driver call together with the database
// transaction that follows its outcome; any worker can take the next step, and any worker
// can stop for good at any point, as one does when an exception escapes it.
module Lifecycle {
  import opened Wrappers
  import opened MeaTable
  import HeatPolling

  type Pid = nat

  // A time stamp, later than datetime.min.
  type Moment = n: nat | NEVER < n witness 1

  datatype Direction = IN | OUT

  function PendingScale(d: Direction): Status {
    match d
    case IN => PENDING_SCALE_IN
    case OUT => PENDING_SCALE_OUT
  }

  // Where a worker is. The argument lists hold what the worker remembers there.
  datatype Pc =
    // _create_mea and _create_mea_wait
    | CreateReady
    | CreateInfra
    | CreateNull
    | CreateWait(stack: StackId)
    | CreatePost(stack: StackId, failed: bool)
    | CreateConf
    | CreateStatus(failed: bool)
    // update_mea and _update_mea_wait
    | UpdateRun
    | UpdateWait
    | UpdatePost(failed: bool)
    // delete_mea and _delete_mea_wait
    | DeleteStart
    | DeleteRun
    | DeleteWait
    | DeletePost(error: bool)
    // _handle_mea_scaling
    | ScaleRun(dir: Direction)
    | ScaleWait(dir: Direction)
    | ScalePost(dir: Direction, failed: bool)

  predicate Creates(pc: Pc) {
    pc.CreateReady? || pc.CreateInfra? || pc.CreateNull? || pc.CreateWait? || pc.CreatePost?
    || pc.CreateConf? || pc.CreateStatus?
  }

  // Between _update_mea_pre and _update_mea_post.
  predicate Updates(pc: Pc) {
    pc.UpdateRun? || pc.UpdateWait? || pc.UpdatePost?
  }

  predicate Deletes(pc: Pc) {
    pc.DeleteStart? || pc.DeleteRun? || pc.DeleteWait? || pc.DeletePost?
  }

  // Between the two status changes of _handle_mea_scaling.
  predicate Scales(pc: Pc) {
    pc.ScaleRun? || pc.ScaleWait? || pc.ScalePost?
  }

  // `rounds` counts the creations a respawn still has to start, `dictStatus` is the status
  // entry of the dictionary the worker carries and `instance` its instance_id entry.
  datatype Worker = Worker(mea: MeaId, ctx: Context, pc: Pc, rounds: nat, dictStatus: Status,
                           instance: Option<StackId>)

  // `complete` records the stacks that some create_wait has seen CREATE_COMPLETE.
  datatype System = System(tables: Tables, workers: map<Pid, Worker>, complete: set<StackId>)

  // How a driver call ends. For create_wait this is what Heat answers within the retries, whether
  // the look-up afterwards succeeds, and the reason given for a failure.
  datatype Outcome =
    | Returns
    | ReturnsNothing
    | ReturnsStack(stack: StackId)
    | Raises(reason: string)
    | Polled(answers: seq<HeatPolling.Answer>, retries: int, lookedUp: bool, failure: string)

  // What the outside supplies to a step: attribute entries, a management URL, the time.
  datatype Input = Input(attributes: Attributes, mgmtUrl: Option<string>, now: Moment)

  datatype Event =
    | CallCreate(pid: Pid, ctx: Context, mea: MeaId, tenant: nat, name: string, attributes: Attributes)
    | CallUpdate(pid: Pid, ctx: Context, mea: MeaId)
    | CallDelete(pid: Pid, ctx: Context, mea: MeaId)
    | CallScale(pid: Pid, ctx: Context, mea: MeaId, dir: Direction)
    | CallRespawn(pid: Pid, ctx: Context, mea: MeaId, monitoring: bool, alarming: bool, dictStatus: Status)
    | CallLogAndKill(pid: Pid, ctx: Context, mea: MeaId)
    | Step(pid: Pid, outcome: Outcome, input: Input)
    | Stop(pid: Pid)

  function NewStatus(failed: bool): Status {
    if failed then ERROR else ACTIVE
  }

  function Spawn(s: System, t: Tables, pid: Pid, w: Worker): System {
    s.(tables := t, workers := s.workers[pid := w])
  }

  function Goto(s: System, t: Tables, pid: Pid, pc: Pc): System
    requires pid in s.workers
  {
    Spawn(s, t, pid, s.workers[pid].(pc := pc))
  }

  function End(s: System, t: Tables, pid: Pid): System {
    s.(tables := t, workers := s.workers - {pid})
  }

  ghost function StepCreate(s: System, pid: Pid, o: Outcome, d: Input): System
    requires pid in s.workers
    requires Creates(s.workers[pid].pc)
  {
    var w := s.workers[pid];
    var t := s.tables;
    match w.pc
    case CreateReady =>
      if w.rounds == 0 then End(s, t, pid)
      else Spawn(s, t, pid, w.(pc := CreateInfra, rounds := w.rounds - 1))
    case CreateInfra =>
      // the driver's create; when it raises, _create_mea calls delete_mea
      (match o
       case ReturnsStack(stack) => Goto(s, t, pid, Pc.CreateWait(stack))
       case Raises(_) => Goto(s, t, pid, DeleteStart)
       case _ => Goto(s, t, pid, CreateNull))
    case CreateNull =>
      var r := MeaTable.CreatePost(t, w.ctx, w.mea, None, None, w.dictStatus, d.attributes);
      End(s, if r.Some? then r.value else t, pid)
    case CreateWait(stack) =>
      if !o.Polled? then s
      else
        (match HeatPolling.CreateOutcome(HeatPolling.From(o.answers), o.retries, o.lookedUp)
         case WaitFailed =>
           Spawn(s, SetErrorReason(t, w.ctx, w.mea, o.failure), pid,
                 w.(pc := Pc.CreatePost(stack, true), dictStatus := ERROR))
         case Returned => Goto(s, t, pid, Pc.CreatePost(stack, false)).(complete := s.complete + {stack})
         case Escaped => End(s, t, pid))
    case CreatePost(stack, failed) =>
      var url := if failed then None else d.mgmtUrl;
      var r := MeaTable.CreatePost(t, w.ctx, w.mea, Some(stack), url, w.dictStatus, d.attributes);
      if r.None? then End(s, t, pid)
      else if failed then Goto(s, r.value, pid, CreateReady)
      else Goto(s, r.value, pid, CreateConf)
    case CreateConf =>
      (match o
       case Raises(reason) =>
         Spawn(s, SetErrorReason(t, w.ctx, w.mea, reason), pid,
               w.(pc := Pc.CreateStatus(true), dictStatus := ERROR))
       case _ => Spawn(s, t, pid, w.(pc := Pc.CreateStatus(false), dictStatus := ACTIVE)))
    case CreateStatus(failed) =>
      var r := MeaTable.CreateStatus(t, w.ctx, w.mea, NewStatus(failed));
      if r.None? then End(s, t, pid) else Goto(s, r.value, pid, CreateReady)
  }

  function StepUpdate(s: System, pid: Pid, o: Outcome, d: Input): System
    requires pid in s.workers
    requires Updates(s.workers[pid].pc)
  {
    var w := s.workers[pid];
    var t := s.tables;
    match w.pc
    case UpdateRun =>
      if o.Raises? then Goto(s, SetErrorReason(t, w.ctx, w.mea, o.reason), pid, Pc.UpdatePost(true))
      else Goto(s, t, pid, UpdateWait)
    case UpdateWait =>
      if o.Raises? then Goto(s, SetErrorReason(t, w.ctx, w.mea, o.reason), pid, Pc.UpdatePost(true))
      else Goto(s, t, pid, Pc.UpdatePost(false))
    case UpdatePost(failed) =>
      End(s, MeaTable.UpdatePost(t, w.ctx, w.mea, NewStatus(failed), d.attributes), pid)
  }

  function StepDelete(s: System, pid: Pid, o: Outcome, d: Input): System
    requires pid in s.workers
    requires Deletes(s.workers[pid].pc)
  {
    var w := s.workers[pid];
    var t := s.tables;
    match w.pc
    case DeleteStart =>
      (match DeletePre(t, w.ctx, w.mea)
       case Failure(_) => End(s, t, pid)
       case Success(t') => Spawn(s, t', pid, w.(pc := DeleteRun, instance := t.mea[w.mea].instance)))
    case DeleteRun =>
      if o.Raises? then Goto(s, SetErrorReason(t, w.ctx, w.mea, o.reason), pid, Pc.DeletePost(true))
      else Goto(s, t, pid, DeleteWait)
    case DeleteWait =>
      // without an instance there is no stack to wait for
      if w.instance.Some? && o.Raises? then
        Goto(s, SetErrorReason(t, w.ctx, w.mea, o.reason), pid, Pc.DeletePost(true))
      else Goto(s, t, pid, Pc.DeletePost(false))
    case DeletePost(error) =>
      End(s, MeaTable.DeletePost(t, w.ctx, w.mea, error, d.now), pid)
  }

  function StepScale(s: System, pid: Pid, o: Outcome, d: Input): System
    requires pid in s.workers
    requires Scales(s.workers[pid].pc)
  {
    var w := s.workers[pid];
    var t := s.tables;
    match w.pc
    case ScaleRun(dir) =>
      if o.Raises? then Goto(s, SetErrorReason(t, w.ctx, w.mea, o.reason), pid, Pc.ScalePost(dir, true))
      else Goto(s, t, pid, Pc.ScaleWait(dir))
    case ScaleWait(dir) =>
      if o.Raises? then Goto(s, SetErrorReason(t, w.ctx, w.mea, o.reason), pid, Pc.ScalePost(dir, true))
      else Goto(s, t, pid, Pc.ScalePost(dir, false))
    case ScalePost(dir, failed) =>
      // a refused ACTIVE raises inside the try block, whose handler then tries ERROR
      (match ScalingStatus(t, w.ctx, w.mea, {PendingScale(dir)}, NewStatus(failed),
                           if failed then None else d.mgmtUrl)
       case Success(t') => End(s, t', pid)
       case Failure(_) =>
         if failed then End(s, t, pid)
         else Goto(s, SetErrorReason(t, w.ctx, w.mea, "MEANotFound"), pid, Pc.ScalePost(dir, true)))
  }

  ghost function DoStep(s: System, pid: Pid, o: Outcome, d: Input): System
    requires pid in s.workers
  {
    var pc := s.workers[pid].pc;
    if Creates(pc) then StepCreate(s, pid, o, d)
    else if Updates(pc) then StepUpdate(s, pid, o, d)
    else if Deletes(pc) then StepDelete(s, pid, o, d)
    else StepScale(s, pid, o, d)
  }

  function NewWorker(mea: MeaId, ctx: Context, pc: Pc): Worker {
    Worker(mea, ctx, pc, 0, PENDING_CREATE, None)
  }

  // One creation for a monitoring policy and one more for an alarming policy.
  function Rounds(monitoring: bool, alarming: bool): nat {
    (if monitoring then 1 else 0) + (if alarming then 1 else 0)
  }

  // The next state. An event that is not possible changes nothing: a step of a worker that is
  // gone, a call under a pid in use, a creation under an id in use, a call the database refuses.
  ghost function Do(s: System, e: Event): System {
    var t := s.tables;
    match e
    case Step(pid, o, d) => if pid in s.workers then DoStep(s, pid, o, d) else s
    case Stop(pid) => End(s, t, pid)
    case CallCreate(pid, ctx, mea, tenant, name, attributes) =>
      var r := CreatePre(t, mea, tenant, name, attributes);
      if pid in s.workers || mea in t.mea || mea in t.attr || r.None? then s
      else Spawn(s, r.value, pid, NewWorker(mea, ctx, CreateInfra))
    case CallUpdate(pid, ctx, mea) =>
      var r := UpdatePre(t, ctx, mea);
      if pid in s.workers || r.Failure? then s else Spawn(s, r.value, pid, NewWorker(mea, ctx, UpdateRun))
    case CallDelete(pid, ctx, mea) =>
      var r := DeletePre(t, ctx, mea);
      if pid in s.workers || r.Failure? then s
      else Spawn(s, r.value, pid, NewWorker(mea, ctx, DeleteRun).(instance := t.mea[mea].instance))
    case CallScale(pid, ctx, mea, dir) =>
      var r := ScalingStatus(t, ctx, mea, {ACTIVE}, PendingScale(dir), None);
      if pid in s.workers || r.Failure? then s
      else Spawn(s, r.value, pid, NewWorker(mea, ctx, ScaleRun(dir)))
    case CallRespawn(pid, ctx, mea, monitoring, alarming, dictStatus) =>
      var r := MarkDead(t, mea);
      if pid in s.workers || r.None? then s
      else Spawn(s, r.value, pid, Worker(mea, ctx, CreateReady, Rounds(monitoring, alarming), dictStatus, None))
    case CallLogAndKill(pid, ctx, mea) =>
      var r := MarkDead(t, mea);
      if pid in s.workers || r.None? then s
      else Spawn(s, r.value, pid, NewWorker(mea, ctx, DeleteStart))
  }

  // The MEA an event is about.
  function Target(s: System, e: Event): MeaId {
    match e
    case Step(pid, _, _) => if pid in s.workers then s.workers[pid].mea else 0
    case Stop(_) => 0
    case _ => e.mea
  }

  ghost predicate SameExcept<K(!new), V>(m: map<K, V>, m': map<K, V>, k: K) {
    forall x | x != k :: (x in m <==> x in m') && (x in m ==> m'[x] == m[x])
  }

  // An event touches the rows of its MEA and its own worker only.
  lemma Frame(s: System, e: Event)
    ensures SameExcept(s.tables.mea, Do(s, e).tables.mea, Target(s, e))
    ensures SameExcept(s.tables.attr, Do(s, e).tables.attr, Target(s, e))
    ensures SameExcept(s.workers, Do(s, e).workers, e.pid)
    ensures e.Stop? ==> Do(s, e).tables == s.tables
  {
    if e.Step? && e.pid in s.workers {
      var pc := s.workers[e.pid].pc;
      if Creates(pc) {
        CreateFrame(s, e.pid, e.outcome, e.input);
        CreateFrameWorkers(s, e.pid, e.outcome, e.input);
      } else if Updates(pc) {
        UpdateFrame(s, e.pid, e.outcome, e.input);
      } else if Deletes(pc) {
        DeleteFrame(s, e.pid, e.outcome, e.input);
      } else {
        ScaleFrame(s, e.pid, e.outcome, e.input);
      }
    }
  }

  lemma CreateFrame(s: System, pid: Pid, o: Outcome, d: Input)
    requires pid in s.workers && Creates(s.workers[pid].pc)
    ensures SameExcept(s.tables.mea, StepCreate(s, pid, o, d).tables.mea, s.workers[pid].mea)
    ensures SameExcept(s.tables.attr, StepCreate(s, pid, o, d).tables.attr, s.workers[pid].mea)
  {
  }

  lemma CreateFrameWorkers(s: System, pid: Pid, o: Outcome, d: Input)
    requires pid in s.workers && Creates(s.workers[pid].pc)
    ensures SameExcept(s.workers, StepCreate(s, pid, o, d).workers, pid)
  {
  }

  lemma UpdateFrame(s: System, pid: Pid, o: Outcome, d: Input)
    requires pid in s.workers && Updates(s.workers[pid].pc)
    ensures SameExcept(s.tables.mea, StepUpdate(s, pid, o, d).tables.mea, s.workers[pid].mea)
    ensures SameExcept(s.tables.attr, StepUpdate(s, pid, o, d).tables.attr, s.workers[pid].mea)
    ensures SameExcept(s.workers, StepUpdate(s, pid, o, d).workers, pid)
  {
  }

  lemma DeleteFrame(s: System, pid: Pid, o: Outcome, d: Input)
    requires pid in s.workers && Deletes(s.workers[pid].pc)
    ensures SameExcept(s.tables.mea, StepDelete(s, pid, o, d).tables.mea, s.workers[pid].mea)
    ensures SameExcept(s.tables.attr, StepDelete(s, pid, o, d).tables.attr, s.workers[pid].mea)
    ensures SameExcept(s.workers, StepDelete(s, pid, o, d).workers, pid)
  {
  }

  lemma ScaleFrame(s: System, pid: Pid, o: Outcome, d: Input)
    requires pid in s.workers && Scales(s.workers[pid].pc)
    ensures SameExcept(s.tables.mea, StepScale(s, pid, o, d).tables.mea, s.workers[pid].mea)
    ensures SameExcept(s.tables.attr, StepScale(s, pid, o, d).tables.attr, s.workers[pid].mea)
    ensures SameExcept(s.workers, StepScale(s, pid, o, d).workers, pid)
  {
  }

  // Any schedule of calls and steps.
  ghost function Run(s: System, es: seq<Event>): System
    decreases |es|
  {
    if es == [] then s else Run(Do(s, es[0]), es[1..])
  }

  // The server starts over whatever rows the database holds.
  ghost predicate Boot(s: System) {
    s.workers == map[]
  }

  lemma {:induction false} RunConcat(s: System, es: seq<Event>, fs: seq<Event>)
    ensures Run(s, es + fs) == Run(Run(s, es), fs)
    decreases |es|
  {
    if es == [] {
      assert es + fs == fs;
    } else {
      assert (es + fs)[1..] == es[1..] + fs;
      RunConcat(Do(s, es[0]), es[1..], fs);
    }
  }

  lemma RunExtend(s: System, es: seq<Event>, k: nat)
    requires k < |es|
    ensures Run(s, es[..k + 1]) == Do(Run(s, es[..k]), es[k])
  {
    assert es[..k + 1] == es[..k] + [es[k]];
    RunConcat(s, es[..k], [es[k]]);
    assert Run(Run(s, es[..k]), [es[k]]) == Run(Do(Run(s, es[..k]), es[k]), []);
  }
}

// No interleaving brings an MEA back from ERROR, from deletion or from the soft-deleted state.
module NoResurrection {
  import opened MeaTable
  import opened Lifecycle

  predicate Doomed(row: Row) {
    row.status == ERROR || row.status == PENDING_DELETE
  }

  // What row id may have become when the rows were mea and are now mea'.
  ghost predicate Onward(mea: map<MeaId, Row>, mea': map<MeaId, Row>, id: MeaId) {
    id in mea ==>
      && id in mea'
      && mea'[id].tenant == mea[id].tenant && mea'[id].name == mea[id].name
      && (!Live(mea[id]) ==> mea'[id] == mea[id])
      && (Doomed(mea[id]) ==> Doomed(mea'[id]))
      && (!Live(mea'[id]) && Live(mea[id]) ==> mea'[id].status == PENDING_DELETE)
  }

  lemma CreateOnward(s: System, pid: Pid, o: Outcome, d: Input)
    requires pid in s.workers && Creates(s.workers[pid].pc)
    ensures Onward(s.tables.mea, StepCreate(s, pid, o, d).tables.mea, s.workers[pid].mea)
  {
  }

  lemma UpdateOnward(s: System, pid: Pid, o: Outcome, d: Input)
    requires pid in s.workers && Updates(s.workers[pid].pc)
    ensures Onward(s.tables.mea, StepUpdate(s, pid, o, d).tables.mea, s.workers[pid].mea)
  {
  }

  lemma DeleteOnward(s: System, pid: Pid, o: Outcome, d: Input)
    requires pid in s.workers && Deletes(s.workers[pid].pc)
    ensures Onward(s.tables.mea, StepDelete(s, pid, o, d).tables.mea, s.workers[pid].mea)
  {
  }

  lemma ScaleOnward(s: System, pid: Pid, o: Outcome, d: Input)
    requires pid in s.workers && Scales(s.workers[pid].pc)
    ensures Onward(s.tables.mea, StepScale(s, pid, o, d).tables.mea, s.workers[pid].mea)
  {
  }

  lemma StepOnward(s: System, e: Event, id: MeaId)
    ensures Onward(s.tables.mea, Do(s, e).tables.mea, id)
  {
    Frame(s, e);
    if e.Step? && e.pid in s.workers && id == s.workers[e.pid].mea {
      var pc := s.workers[e.pid].pc;
      if Creates(pc) {
        CreateOnward(s, e.pid, e.outcome, e.input);
      } else if Updates(pc) {
        UpdateOnward(s, e.pid, e.outcome, e.input);
      } else if Deletes(pc) {
        DeleteOnward(s, e.pid, e.outcome, e.input);
      } else {
        ScaleOnward(s, e.pid, e.outcome, e.input);
      }
    }
  }

  lemma {:induction false} RunOnward(s: System, es: seq<Event>, id: MeaId)
    ensures Onward(s.tables.mea, Run(s, es).tables.mea, id)
    decreases |es|
  {
    if es != [] {
      StepOnward(s, es[0], id);
      RunOnward(Do(s, es[0]), es[1..], id);
    }
  }

  // From any state, at any two points of any run: an ERROR or PENDING_DELETE row stays within
  // these two until it is soft-deleted, and a soft-deleted row never changes again.
  lemma NoResurrection(s: System, es: seq<Event>, i: nat, j: nat, id: MeaId)
    requires i <= j <= |es|
    ensures Onward(Run(s, es[..i]).tables.mea, Run(s, es[..j]).tables.mea, id)
  {
    assert es[..j] == es[..i] + es[i..j];
    RunConcat(s, es[..i], es[i..j]);
    RunOnward(Run(s, es[..i]), es[i..j], id);
  }
}
