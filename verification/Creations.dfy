// How creations end, respawns included, while nobody else touches the MEA: what the row holds in
// terms of what the driver answered.
module Creations {
  import opened Wrappers
  import opened Text
  import opened MeaTable
  import HeatPolling
  import opened Lifecycle
  import opened Ownership
  import opened Turns
  import opened Outcomes

  // The worker, its row, which it can see, and the attribute rows.
  predicate At(s: System, pid: Pid, w: Worker, row: Row, attributes: Attributes) {
    && pid in s.workers && s.workers[pid] == w
    && w.mea in s.tables.mea && s.tables.mea[w.mea] == row && Visible(w.ctx, row)
    && AttributesOf(s.tables, w.mea) == attributes
  }

  // The worker has ended and left this row.
  predicate Left(s: System, pid: Pid, id: MeaId, row: Row, attributes: Attributes) {
    && pid !in s.workers && id in s.tables.mea && s.tables.mea[id] == row
    && AttributesOf(s.tables, id) == attributes
  }

  lemma {:induction false} QuietGap(s: System, es: seq<Event>, pid: Pid, w: Worker, row: Row,
                                    attributes: Attributes)
    requires At(s, pid, w, row, attributes) && OthersOnly(es, pid) && Elsewhere(s, es, w.mea)
    ensures At(Run(s, es), pid, w, row, attributes)
    decreases |es|
  {
    if es != [] {
      Frame(s, es[0]);
      OtherRow(s, es[0], w.mea);
      QuietGap(Do(s, es[0]), es[1..], pid, w, row, attributes);
    }
  }

  // Nobody else touches the MEA before turns i to j.
  ghost predicate Quiet(s: System, pid: Pid, turns: seq<Turn>, i: nat, j: nat, id: MeaId)
    requires i <= j <= |turns|
    decreases j
  {
    i == j || (Quiet(s, pid, turns, i, j - 1, id) && OthersOnly(turns[j - 1].gap, pid)
               && QuietAt(s, pid, turns, j - 1, id))
  }

  // Where the worker is when its step number k comes.
  lemma {:induction false} QuietTurn(s: System, pid: Pid, turns: seq<Turn>, k: nat, w: Worker, row: Row,
                                     attributes: Attributes)
    returns (v: System)
    requires k < |turns| && At(Run(s, Play(pid, turns[..k])), pid, w, row, attributes)
    requires OthersOnly(turns[k].gap, pid) && QuietAt(s, pid, turns, k, w.mea)
    ensures At(v, pid, w, row, attributes)
    ensures Run(s, Play(pid, turns[..k + 1])) == Do(v, Step(pid, turns[k].outcome, turns[k].input))
  {
    PlayNext(s, pid, turns, k);
    v := Run(Run(s, Play(pid, turns[..k])), turns[k].gap);
    QuietGap(Run(s, Play(pid, turns[..k])), turns[k].gap, pid, w, row, attributes);
  }

  // ---- One creation ----

  // The attribute rows there were and the entries of the dictionary over them, except those whose
  // key mentions vim_auth.
  ghost predicate Extended(before: Attributes, dict: Attributes, now: Attributes) {
    && (forall k :: k in now <==> k in before || (k in dict && !Contains(k, "vim_auth")))
    && (forall k | k in now :: now[k] == if k in dict && !Contains(k, "vim_auth") then dict[k] else before[k])
  }

  // Heat reports the stack complete within the retries and the look-up succeeds.
  ghost predicate Complete(o: Outcome) {
    o.Polled? && HeatPolling.From(o.answers)(0).Stack?
    && HeatPolling.Completes(HeatPolling.From(o.answers), o.retries) && o.lookedUp
  }

  // create_wait raises its own error.
  ghost predicate Incomplete(o: Outcome) {
    o.Polled? && HeatPolling.From(o.answers)(0).Stack?
    && !HeatPolling.Completes(HeatPolling.From(o.answers), o.retries)
  }

  lemma InfraStep(s: System, pid: Pid, w: Worker, row: Row, attributes: Attributes, o: Outcome, d: Input)
    requires At(s, pid, w, row, attributes) && w.pc.CreateInfra?
    ensures At(Do(s, Step(pid, o, d)), pid,
               w.(pc := if o.ReturnsStack? then Pc.CreateWait(o.stack)
                        else if o.Raises? then DeleteStart else CreateNull), row, attributes)
  {
  }

  lemma NullStep(s: System, pid: Pid, w: Worker, row: Row, attributes: Attributes, o: Outcome, d: Input)
    returns (now: Attributes)
    requires At(s, pid, w, row, attributes) && w.pc.CreateNull? && row.status in {PENDING_CREATE, DEAD}
    ensures Left(Do(s, Step(pid, o, d)), pid, w.mea, row.(instance := None, mgmtUrl := None, status := ERROR), now)
    ensures Extended(attributes, d.attributes, now)
  {
    now := AttributesOf(Do(s, Step(pid, o, d)).tables, w.mea);
  }

  lemma WaitStep(s: System, pid: Pid, w: Worker, row: Row, attributes: Attributes, o: Outcome, d: Input)
    requires At(s, pid, w, row, attributes) && w.pc.CreateWait? && o.Polled?
    ensures var u := Do(s, Step(pid, o, d));
            if Complete(o) then At(u, pid, w.(pc := Pc.CreatePost(w.pc.stack, false)), row, attributes)
            else if Incomplete(o)
            then At(u, pid, w.(pc := Pc.CreatePost(w.pc.stack, true), dictStatus := ERROR),
                    row.(errorReason := Some(o.failure)), attributes)
            else Left(u, pid, w.mea, row, attributes)
  {
  }

  lemma PostStep(s: System, pid: Pid, w: Worker, row: Row, attributes: Attributes, o: Outcome, d: Input)
    returns (now: Attributes)
    requires At(s, pid, w, row, attributes) && w.pc.CreatePost? && row.status in {PENDING_CREATE, DEAD}
    ensures At(Do(s, Step(pid, o, d)), pid, w.(pc := if w.pc.failed then CreateReady else CreateConf),
               row.(instance := Some(w.pc.stack), mgmtUrl := if w.pc.failed then None else d.mgmtUrl,
                    status := if w.dictStatus == ERROR then ERROR else row.status), now)
    ensures Extended(attributes, d.attributes, now)
  {
    now := AttributesOf(Do(s, Step(pid, o, d)).tables, w.mea);
  }

  lemma PostRefused(s: System, pid: Pid, w: Worker, row: Row, attributes: Attributes, o: Outcome, d: Input)
    requires At(s, pid, w, row, attributes) && w.pc.CreatePost? && row.status !in {PENDING_CREATE, DEAD}
    ensures Left(Do(s, Step(pid, o, d)), pid, w.mea, row, attributes)
  {
  }

  lemma ConfStep(s: System, pid: Pid, w: Worker, row: Row, attributes: Attributes, o: Outcome, d: Input)
    requires At(s, pid, w, row, attributes) && w.pc.CreateConf?
    ensures At(Do(s, Step(pid, o, d)), pid,
               w.(pc := Pc.CreateStatus(o.Raises?), dictStatus := if o.Raises? then ERROR else ACTIVE),
               row.(errorReason := if o.Raises? then Some(o.reason) else row.errorReason), attributes)
  {
  }

  lemma StatusStep(s: System, pid: Pid, w: Worker, row: Row, attributes: Attributes, o: Outcome, d: Input)
    requires At(s, pid, w, row, attributes) && w.pc.CreateStatus?
    ensures var u := Do(s, Step(pid, o, d));
            if row.status in {PENDING_CREATE, DEAD}
            then At(u, pid, w.(pc := CreateReady), row.(status := if w.pc.failed then ERROR else ACTIVE), attributes)
            else Left(u, pid, w.mea, row, attributes)
  {
  }

  // The steps of one creation: the driver's create, and the rest where there is a stack.
  ghost predicate Round(turns: seq<Turn>, i: nat) {
    && i < |turns|
    && match turns[i].outcome
       case ReturnsStack(_) =>
         i + 1 < |turns| && turns[i + 1].outcome.Polled?
         && |turns| == i + (if Complete(turns[i + 1].outcome) then 5 else if Incomplete(turns[i + 1].outcome) then 3
                            else 2)
       case Raises(_) => |turns| == i + 1
       case _ => |turns| == i + 2
  }

  lemma {:induction false} QuietBefore(s: System, pid: Pid, turns: seq<Turn>, i: nat, k: nat, j: nat, id: MeaId)
    requires i <= k < j <= |turns| && Quiet(s, pid, turns, i, j, id)
    ensures OthersOnly(turns[k].gap, pid) && QuietAt(s, pid, turns, k, id)
    decreases j
  {
    if k < j - 1 {
      QuietBefore(s, pid, turns, i, k, j - 1, id);
    }
  }

  // The worker is about to create: its row may still be completed.
  predicate Ready(s: System, pid: Pid, w: Worker, row: Row, attributes: Attributes) {
    At(s, pid, w, row, attributes) && w.pc.CreateInfra? && row.status in {PENDING_CREATE, DEAD}
  }

  // Creation up to its wait, which ends on its own error or returns.
  lemma {:induction false} RoundWaited(s: System, pid: Pid, turns: seq<Turn>, i: nat, w: Worker, row: Row,
                                       attributes: Attributes)
    requires i + 1 < |turns| && At(Run(s, Play(pid, turns[..i])), pid, w, row, attributes) && w.pc.CreateInfra?
    requires Quiet(s, pid, turns, i, |turns|, w.mea) && turns[i].outcome.ReturnsStack? && turns[i + 1].outcome.Polled?
    ensures var u, stack, o := Run(s, Play(pid, turns[..i + 2])), turns[i].outcome.stack, turns[i + 1].outcome;
            if Complete(o) then At(u, pid, w.(pc := Pc.CreatePost(stack, false)), row, attributes)
            else if Incomplete(o)
            then At(u, pid, w.(pc := Pc.CreatePost(stack, true), dictStatus := ERROR),
                    row.(errorReason := Some(o.failure)), attributes)
            else Left(u, pid, w.mea, row, attributes)
  {
    QuietBefore(s, pid, turns, i, i, |turns|, w.mea);
    QuietBefore(s, pid, turns, i, i + 1, |turns|, w.mea);
    var a := QuietTurn(s, pid, turns, i, w, row, attributes);
    InfraStep(a, pid, w, row, attributes, turns[i].outcome, turns[i].input);
    var w' := w.(pc := Pc.CreateWait(turns[i].outcome.stack));
    var b := QuietTurn(s, pid, turns, i + 1, w', row, attributes);
    WaitStep(b, pid, w', row, attributes, turns[i + 1].outcome, turns[i + 1].input);
  }

  // The rest of it when create_wait returns.
  lemma {:induction false} RoundCompletes(s: System, pid: Pid, turns: seq<Turn>, k: nat, w: Worker, row: Row,
                                          attributes: Attributes)
    returns (now: Attributes)
    requires |turns| == k + 3 && At(Run(s, Play(pid, turns[..k])), pid, w, row, attributes)
    requires w.pc.CreatePost? && !w.pc.failed && row.status in {PENDING_CREATE, DEAD}
    requires Quiet(s, pid, turns, k, |turns|, w.mea)
    ensures var u, conf := Run(s, Play(pid, turns)), turns[k + 1].outcome;
            var row' := row.(instance := Some(w.pc.stack), mgmtUrl := turns[k].input.mgmtUrl,
                             status := if w.dictStatus == ERROR || conf.Raises? then ERROR else ACTIVE,
                             errorReason := if conf.Raises? then Some(conf.reason) else row.errorReason);
            if w.dictStatus == ERROR then Left(u, pid, w.mea, row', now)
            else At(u, pid, w.(pc := CreateReady, dictStatus := if conf.Raises? then ERROR else ACTIVE), row', now)
    ensures Extended(attributes, turns[k].input.attributes, now)
  {
    QuietBefore(s, pid, turns, k, k, |turns|, w.mea);
    var a := QuietTurn(s, pid, turns, k, w, row, attributes);
    now := PostStep(a, pid, w, row, attributes, turns[k].outcome, turns[k].input);
    RoundConfigured(s, pid, turns, k, w.(pc := CreateConf),
                    row.(instance := Some(w.pc.stack), mgmtUrl := turns[k].input.mgmtUrl,
                         status := if w.dictStatus == ERROR then ERROR else row.status), now);
  }

  lemma {:induction false} RoundConfigured(s: System, pid: Pid, turns: seq<Turn>, k: nat, w: Worker, row: Row,
                                           attributes: Attributes)
    requires |turns| == k + 3 && At(Run(s, Play(pid, turns[..k + 1])), pid, w, row, attributes)
    requires w.pc.CreateConf? && Quiet(s, pid, turns, k, |turns|, w.mea)
    ensures var u, conf := Run(s, Play(pid, turns)), turns[k + 1].outcome;
            var reason := if conf.Raises? then Some(conf.reason) else row.errorReason;
            if row.status in {PENDING_CREATE, DEAD}
            then At(u, pid, w.(pc := CreateReady, dictStatus := if conf.Raises? then ERROR else ACTIVE),
                    row.(status := if conf.Raises? then ERROR else ACTIVE, errorReason := reason), attributes)
            else Left(u, pid, w.mea, row.(errorReason := reason), attributes)
  {
    QuietBefore(s, pid, turns, k, k + 1, |turns|, w.mea);
    QuietBefore(s, pid, turns, k, k + 2, |turns|, w.mea);
    var conf := turns[k + 1].outcome;
    var b := QuietTurn(s, pid, turns, k + 1, w, row, attributes);
    ConfStep(b, pid, w, row, attributes, conf, turns[k + 1].input);
    var w' := w.(pc := Pc.CreateStatus(conf.Raises?), dictStatus := if conf.Raises? then ERROR else ACTIVE);
    var row' := row.(errorReason := if conf.Raises? then Some(conf.reason) else row.errorReason);
    var c := QuietTurn(s, pid, turns, k + 2, w', row', attributes);
    StatusStep(c, pid, w', row', attributes, turns[k + 2].outcome, turns[k + 2].input);
    assert turns[..k + 3] == turns;
  }

  // What one creation makes of its row.
  ghost function RowAfter(row: Row, dictStatus: Status, turns: seq<Turn>, i: nat): Row
    requires Round(turns, i)
  {
    match turns[i].outcome
    case ReturnsStack(stack) =>
      var wait := turns[i + 1].outcome;
      if Complete(wait) then
        var conf := turns[i + 3].outcome;
        row.(instance := Some(stack), mgmtUrl := turns[i + 2].input.mgmtUrl,
             status := if dictStatus == ERROR || conf.Raises? then ERROR else ACTIVE,
             errorReason := if conf.Raises? then Some(conf.reason) else row.errorReason)
      else if Incomplete(wait) then
        row.(instance := Some(stack), mgmtUrl := None, status := ERROR, errorReason := Some(wait.failure))
      else row
    case Raises(_) => row
    case _ => row.(instance := None, mgmtUrl := None, status := ERROR)
  }

  // The attribute rows change with the transaction that stores the instance, or its absence.
  ghost predicate AttributesAfter(before: Attributes, turns: seq<Turn>, i: nat, now: Attributes)
    requires Round(turns, i)
  {
    match turns[i].outcome
    case ReturnsStack(_) =>
      if Complete(turns[i + 1].outcome) || Incomplete(turns[i + 1].outcome)
      then Extended(before, turns[i + 2].input.attributes, now) else now == before
    case Raises(_) => now == before
    case _ => Extended(before, turns[i + 1].input.attributes, now)
  }

  // A raising create leads to a deletion, an escaping exception ends the worker, and so does a
  // transaction that finds the MEA in ERROR.
  ghost predicate WorkerAfter(u: System, pid: Pid, w: Worker, turns: seq<Turn>, i: nat, row: Row, now: Attributes)
    requires Round(turns, i)
  {
    match turns[i].outcome
    case ReturnsStack(_) =>
      var wait := turns[i + 1].outcome;
      if Complete(wait) && w.dictStatus != ERROR then
        var status := if turns[i + 3].outcome.Raises? then ERROR else ACTIVE;
        At(u, pid, w.(pc := CreateReady, dictStatus := status), row, now)
      else if Incomplete(wait) then At(u, pid, w.(pc := CreateReady, dictStatus := ERROR), row, now)
      else Left(u, pid, w.mea, row, now)
    case Raises(_) => At(u, pid, w.(pc := DeleteStart), row, now)
    case _ => Left(u, pid, w.mea, row, now)
  }

  lemma {:induction false} RoundOutcome(s: System, pid: Pid, turns: seq<Turn>, i: nat, w: Worker, row: Row,
                                        attributes: Attributes)
    returns (now: Attributes)
    requires Round(turns, i) && Ready(Run(s, Play(pid, turns[..i])), pid, w, row, attributes)
    requires Quiet(s, pid, turns, i, |turns|, w.mea)
    ensures WorkerAfter(Run(s, Play(pid, turns)), pid, w, turns, i, RowAfter(row, w.dictStatus, turns, i), now)
    ensures AttributesAfter(attributes, turns, i, now)
  {
    if turns[i].outcome.ReturnsStack? {
      now := StackOutcome(s, pid, turns, i, w, row, attributes);
    } else {
      QuietBefore(s, pid, turns, i, i, |turns|, w.mea);
      var a := QuietTurn(s, pid, turns, i, w, row, attributes);
      InfraStep(a, pid, w, row, attributes, turns[i].outcome, turns[i].input);
      now := attributes;
      if turns[i].outcome.Raises? {
        assert turns[..i + 1] == turns;
      } else {
        QuietBefore(s, pid, turns, i, i + 1, |turns|, w.mea);
        var b := QuietTurn(s, pid, turns, i + 1, w.(pc := CreateNull), row, attributes);
        now := NullStep(b, pid, w.(pc := CreateNull), row, attributes, turns[i + 1].outcome, turns[i + 1].input);
        assert turns[..i + 2] == turns;
      }
    }
  }

  lemma {:induction false} StackOutcome(s: System, pid: Pid, turns: seq<Turn>, i: nat, w: Worker, row: Row,
                                        attributes: Attributes)
    returns (now: Attributes)
    requires Round(turns, i) && Ready(Run(s, Play(pid, turns[..i])), pid, w, row, attributes)
    requires Quiet(s, pid, turns, i, |turns|, w.mea) && turns[i].outcome.ReturnsStack?
    ensures WorkerAfter(Run(s, Play(pid, turns)), pid, w, turns, i, RowAfter(row, w.dictStatus, turns, i), now)
    ensures AttributesAfter(attributes, turns, i, now)
  {
    RoundWaited(s, pid, turns, i, w, row, attributes);
    now := attributes;
    var stack, wait := turns[i].outcome.stack, turns[i + 1].outcome;
    if Complete(wait) {
      QuietFrom(s, pid, turns, i, i + 2, |turns|, w.mea);
      now := RoundCompletes(s, pid, turns, i + 2, w.(pc := Pc.CreatePost(stack, false)), row, attributes);
    } else if Incomplete(wait) {
      var w' := w.(pc := Pc.CreatePost(stack, true), dictStatus := ERROR);
      QuietBefore(s, pid, turns, i, i + 2, |turns|, w.mea);
      var c := QuietTurn(s, pid, turns, i + 2, w', row.(errorReason := Some(wait.failure)), attributes);
      now := PostStep(c, pid, w', row.(errorReason := Some(wait.failure)), attributes, turns[i + 2].outcome,
                      turns[i + 2].input);
      assert turns[..i + 3] == turns;
    } else {
      assert turns[..i + 2] == turns;
    }
  }

  lemma {:induction false} QuietFrom(s: System, pid: Pid, turns: seq<Turn>, i: nat, k: nat, j: nat, id: MeaId)
    requires i <= k <= j <= |turns| && Quiet(s, pid, turns, i, j, id)
    ensures Quiet(s, pid, turns, k, j, id)
    decreases j
  {
    if k < j {
      QuietFrom(s, pid, turns, i, k, j - 1, id);
    }
  }

  // The tenant's own caller or an administrator asks for an MEA under a name that is free.
  ghost predicate AdmitsCreate(s: System, e: Event) {
    && e.CallCreate? && e.pid !in s.workers && e.mea !in s.tables.mea && e.mea !in s.tables.attr
    && (e.ctx.isAdmin || e.tenant == e.ctx.tenant)
    && forall i | i in s.tables.mea ::
         !(Live(s.tables.mea[i]) && s.tables.mea[i].tenant == e.tenant && s.tables.mea[i].name == e.name)
  }

  // What create_mea comes to when nobody else touches the MEA meanwhile. It ends ACTIVE with its
  // stack and URL exactly when the driver returned a stack, the wait and the look-up after it
  // succeeded and the configuration did not raise. It stays PENDING_CREATE without an instance
  // when another exception escaped the wait, although there is a stack, or when the driver's
  // create raised, and then its deletion begins. In every other case it is in ERROR.
  lemma {:induction false} CreationOutcome(s: System, e: Event, turns: seq<Turn>) returns (now: Attributes)
    requires AdmitsCreate(s, e) && Round(turns, 0) && Quiet(Do(s, e), e.pid, turns, 0, |turns|, e.mea)
    ensures var u, o := Run(Do(s, e), Play(e.pid, turns)), turns[0].outcome;
            var done := o.ReturnsStack? && Complete(turns[1].outcome);
            var failed := o.ReturnsStack? && Incomplete(turns[1].outcome);
            && e.mea in u.tables.mea
            && u.tables.mea[e.mea] == Row(
                 e.tenant, e.name,
                 if done && !turns[3].outcome.Raises? then ACTIVE
                 else if o.Raises? || (o.ReturnsStack? && !done && !failed) then PENDING_CREATE else ERROR,
                 if done || failed then Some(o.stack) else None,
                 if done then turns[2].input.mgmtUrl else None,
                 if failed then Some(turns[1].outcome.failure)
                 else if done && turns[3].outcome.Raises? then Some(turns[3].outcome.reason) else None,
                 NEVER)
            && AttributesOf(u.tables, e.mea) == now && AttributesAfter(e.attributes, turns, 0, now)
            && (o.Raises? ==> BeginsDeletion(u, Step(e.pid, o, turns[0].input), e.mea))
  {
    var w := Worker(e.mea, e.ctx, CreateInfra, 0, PENDING_CREATE, None);
    var row := Row(e.tenant, e.name, PENDING_CREATE, None, None, None, NEVER);
    Admitted(s, e);
    assert Run(Do(s, e), Play(e.pid, turns[..0])) == Do(s, e);
    now := RoundOutcome(Do(s, e), e.pid, turns, 0, w, row, e.attributes);
  }

  lemma Admitted(s: System, e: Event)
    requires AdmitsCreate(s, e)
    ensures Ready(Do(s, e), e.pid, Worker(e.mea, e.ctx, CreateInfra, 0, PENDING_CREATE, None),
                  Row(e.tenant, e.name, PENDING_CREATE, None, None, None, NEVER), e.attributes)
  {
  }

  // ---- Respawn ----

  // _mark_mea_dead succeeds, on an MEA in the caller's sight.
  predicate AdmitsRespawn(s: System, e: Event) {
    && e.CallRespawn? && e.pid !in s.workers
    && e.mea in s.tables.mea && Visible(e.ctx, s.tables.mea[e.mea])
    && s.tables.mea[e.mea].status in {ACTIVE, DEAD, PENDING_SCALE_IN, PENDING_SCALE_OUT}
  }

  function Respawner(e: Event, pc: Pc, rounds: nat): Worker
    requires e.CallRespawn?
  {
    Worker(e.mea, e.ctx, pc, rounds, e.dictStatus, None)
  }

  lemma RespawnBegins(s: System, e: Event)
    requires AdmitsRespawn(s, e)
    ensures At(Do(s, e), e.pid,
               Respawner(e, CreateReady, if e.monitoring && e.alarming then 2 else if e.monitoring || e.alarming then 1
                                         else 0),
               s.tables.mea[e.mea].(status := DEAD), AttributesOf(s.tables, e.mea))
  {
  }

  lemma ReadyStep(s: System, pid: Pid, w: Worker, row: Row, attributes: Attributes, o: Outcome, d: Input)
    requires At(s, pid, w, row, attributes) && w.pc.CreateReady? && w.rounds > 0
    ensures At(Do(s, Step(pid, o, d)), pid, w.(pc := CreateInfra, rounds := w.rounds - 1), row, attributes)
  {
  }

  // Without a policy to respawn for the MEA is left DEAD.
  lemma RespawnForNothing(s: System, e: Event, o: Outcome, d: Input)
    requires AdmitsRespawn(s, e) && !e.monitoring && !e.alarming
    ensures Left(Do(Do(s, e), Step(e.pid, o, d)), e.pid, e.mea, s.tables.mea[e.mea].(status := DEAD),
                 AttributesOf(s.tables, e.mea))
  {
    RespawnBegins(s, e);
    NoneReady(Do(s, e), e.pid, Respawner(e, CreateReady, 0), s.tables.mea[e.mea].(status := DEAD),
              AttributesOf(s.tables, e.mea), o, d);
  }

  lemma NoneReady(s: System, pid: Pid, w: Worker, row: Row, attributes: Attributes, o: Outcome, d: Input)
    requires At(s, pid, w, row, attributes) && w.pc.CreateReady? && w.rounds == 0
    ensures Left(Do(s, Step(pid, o, d)), pid, w.mea, row, attributes)
  {
  }

  // A respawn replaces the stack of its row as a creation fills it in, whatever the row held.
  lemma {:induction false} RespawnOutcome(s: System, e: Event, turns: seq<Turn>) returns (now: Attributes)
    requires AdmitsRespawn(s, e) && (e.monitoring || e.alarming) && Round(turns, 1)
    requires Quiet(Do(s, e), e.pid, turns, 0, |turns|, e.mea)
    ensures var row := s.tables.mea[e.mea].(status := DEAD);
            WorkerAfter(Run(Do(s, e), Play(e.pid, turns)), e.pid,
                        Respawner(e, CreateInfra, if e.monitoring && e.alarming then 1 else 0), turns, 1,
                        RowAfter(row, e.dictStatus, turns, 1), now)
    ensures AttributesAfter(AttributesOf(s.tables, e.mea), turns, 1, now)
  {
    var n := if e.monitoring && e.alarming then 2 else 1;
    var row, before := s.tables.mea[e.mea].(status := DEAD), AttributesOf(s.tables, e.mea);
    RespawnBegins(s, e);
    assert Run(Do(s, e), Play(e.pid, turns[..0])) == Do(s, e);
    QuietBefore(Do(s, e), e.pid, turns, 0, 0, |turns|, e.mea);
    var a := QuietTurn(Do(s, e), e.pid, turns, 0, Respawner(e, CreateReady, n), row, before);
    ReadyStep(a, e.pid, Respawner(e, CreateReady, n), row, before, turns[0].outcome, turns[0].input);
    QuietFrom(Do(s, e), e.pid, turns, 0, 1, |turns|, e.mea);
    now := RoundOutcome(Do(s, e), e.pid, turns, 1, Respawner(e, CreateInfra, n - 1), row, before);
  }

  // Another creation on a row that is no longer DEAD: its stack goes nowhere.
  lemma {:induction false} StackLost(s: System, pid: Pid, turns: seq<Turn>, i: nat, w: Worker, row: Row,
                                     attributes: Attributes)
    requires |turns| == i + 4 && At(Run(s, Play(pid, turns[..i])), pid, w, row, attributes)
    requires w.pc.CreateReady? && w.rounds > 0 && row.status !in {PENDING_CREATE, DEAD}
    requires Quiet(s, pid, turns, i, |turns|, w.mea) && turns[i + 1].outcome.ReturnsStack?
    requires Complete(turns[i + 2].outcome) || Incomplete(turns[i + 2].outcome)
    ensures var wait := turns[i + 2].outcome;
            Left(Run(s, Play(pid, turns)), pid, w.mea,
                 if Complete(wait) then row else row.(errorReason := Some(wait.failure)), attributes)
  {
    QuietBefore(s, pid, turns, i, i, |turns|, w.mea);
    var a := QuietTurn(s, pid, turns, i, w, row, attributes);
    ReadyStep(a, pid, w, row, attributes, turns[i].outcome, turns[i].input);
    QuietFrom(s, pid, turns, i, i + 1, |turns|, w.mea);
    var w', wait := w.(pc := CreateInfra, rounds := w.rounds - 1), turns[i + 2].outcome;
    RoundWaited(s, pid, turns, i + 1, w', row, attributes);
    var row' := if Complete(wait) then row else row.(errorReason := Some(wait.failure));
    var w'' := if Complete(wait) then w'.(pc := Pc.CreatePost(turns[i + 1].outcome.stack, false))
               else w'.(pc := Pc.CreatePost(turns[i + 1].outcome.stack, true), dictStatus := ERROR);
    QuietBefore(s, pid, turns, i, i + 3, |turns|, w.mea);
    var c := QuietTurn(s, pid, turns, i + 3, w'', row', attributes);
    PostRefused(c, pid, w'', row', attributes, turns[i + 3].outcome, turns[i + 3].input);
    assert turns[..i + 4] == turns;
  }

  lemma {:induction false} QuietPrefix(s: System, pid: Pid, turns: seq<Turn>, n: nat, i: nat, j: nat, id: MeaId)
    requires i <= j <= n <= |turns| && Quiet(s, pid, turns, i, j, id)
    ensures Quiet(s, pid, turns[..n], i, j, id)
    decreases j
  {
    if i < j {
      QuietPrefix(s, pid, turns, n, i, j - 1, id);
      assert turns[..n][..j - 1] == turns[..j - 1];
    }
  }

  lemma {:induction false} QuietTo(s: System, pid: Pid, turns: seq<Turn>, i: nat, k: nat, j: nat, id: MeaId)
    requires i <= k <= j <= |turns| && Quiet(s, pid, turns, i, j, id)
    ensures Quiet(s, pid, turns, i, k, id)
    decreases j
  {
    if k < j {
      QuietTo(s, pid, turns, i, k, j - 1, id);
    }
  }

  // An MEA with a monitoring and an alarming policy is created again twice. The first creation
  // takes its row to ACTIVE or ERROR, where _create_mea_post refuses the second, so that the row
  // keeps the first stack and the second one belongs to no MEA.
  lemma {:induction false} RespawnLosesSecondStack(s: System, e: Event, turns: seq<Turn>, n: nat)
    requires AdmitsRespawn(s, e) && e.monitoring && e.alarming && e.dictStatus != ERROR
    requires |turns| == n + 4 && Round(turns[..n], 1) && turns[1].outcome.ReturnsStack?
    requires Complete(turns[2].outcome) || Incomplete(turns[2].outcome)
    requires turns[n + 1].outcome.ReturnsStack?
    requires Complete(turns[n + 2].outcome) || Incomplete(turns[n + 2].outcome)
    requires Quiet(Do(s, e), e.pid, turns, 0, |turns|, e.mea)
    ensures var u := Run(Do(s, e), Play(e.pid, turns));
            && e.pid !in u.workers && e.mea in u.tables.mea
            && u.tables.mea[e.mea].instance == Some(turns[1].outcome.stack)
            && u.tables.mea[e.mea].status
               == if Complete(turns[2].outcome) && !turns[4].outcome.Raises? then ACTIVE else ERROR
  {
    var t := Do(s, e);
    QuietTo(t, e.pid, turns, 0, n, |turns|, e.mea);
    QuietPrefix(t, e.pid, turns, n, 0, n, e.mea);
    var first := turns[..n];
    var now := RespawnOutcome(s, e, first);
    var row := RowAfter(s.tables.mea[e.mea].(status := DEAD), e.dictStatus, first, 1);
    QuietFrom(t, e.pid, turns, 0, n, |turns|, e.mea);
    var conf := Complete(turns[2].outcome) && !turns[4].outcome.Raises?;
    var w := Respawner(e, CreateReady, 1).(dictStatus := if conf then ACTIVE else ERROR);
    StackLost(t, e.pid, turns, n, w, row, now);
  }
}
