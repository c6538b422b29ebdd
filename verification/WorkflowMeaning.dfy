// What a workflow definition does: tasks run as their links allow, on whatever the API answers,
// and fill the variables they publish.
module WorkflowMeaning {
  import opened Wrappers
  import opened Workflow
  import opened WorkflowScope

  // What the API answers about an MEA.
  datatype Mea = Mea(id: string, vimId: string, mgmtUrl: string, status: string)

  function Entry(mea: Mea, field: Field): string {
    match field
    case MEA_ID => mea.id
    case VIM_ID => mea.vimId
    case MGMT_URL => mea.mgmtUrl
    case STATUS => mea.status
  }

  // The variables so far and the tasks that are over, with their result unless they failed.
  datatype Execution = Execution(vars: map<Var, string>, results: map<TaskName, Option<Mea>>)

  predicate Succeeded(x: Execution, t: TaskName) {
    t in x.results && x.results[t].Some?
  }

  // The variables a task publishes, each with the field of the result it is taken from.
  function Publishing(task: Task, results: map<TaskName, Option<Mea>>): map<Var, string> {
    map v | v in task.publish && task.publish[v].task in results && results[task.publish[v].task].Some? ::
      Entry(results[task.publish[v].task].value, task.publish[v].field)
  }

  // The task is over and its on-success links are taken.
  predicate LeadsOn(def: Definition, x: Execution, t: TaskName) {
    && t in def.tasks && Succeeded(x, t)
    && match def.tasks[t].onlyAt
       case None => true
       case Some(status) => Var(STATUS, t.node) in x.vars && x.vars[Var(STATUS, t.node)] == status
  }

  ghost predicate MayRun(def: Definition, x: Execution, t: TaskName) {
    && t in def.tasks && t !in x.results
    && (Starts(def, t) || exists u | u in def.tasks :: t in def.tasks[u].onSuccess && LeadsOn(def, x, u))
  }

  // A task and what comes of it.
  datatype Done = Done(task: TaskName, result: Option<Mea>)

  function After(def: Definition, x: Execution, done: Done): Execution {
    var results := x.results[done.task := done.result];
    if done.result.None? || done.task !in def.tasks then Execution(x.vars, results)
    else Execution(x.vars + Publishing(def.tasks[done.task], results), results)
  }

  function Execute(def: Definition, steps: seq<Done>): Execution {
    if steps == [] then Execution(def.values, map[])
    else After(def, Execute(def, steps[..|steps| - 1]), steps[|steps| - 1])
  }

  // Tasks end in any order their links allow.
  ghost predicate IsRun(def: Definition, steps: seq<Done>) {
    steps == []
    || (IsRun(def, steps[..|steps| - 1]) && MayRun(def, Execute(def, steps[..|steps| - 1]), steps[|steps| - 1].task))
  }

  // The output of the definition, as far as its variables are there.
  function OutputOf(def: Definition, x: Execution): map<Var, string> {
    map v | v in def.output && def.output[v].Variable? && def.output[v].name in x.vars :: x.vars[def.output[v].name]
  }

  // The task performs this action on the MEA with this id.
  ghost predicate ActsOn(def: Definition, x: Execution, t: TaskName, action: string, id: string) {
    && t in def.tasks && def.tasks[t].action == action
    && exists v: Var | v.field == MEA_ID && Variable(v) in def.tasks[t].uses :: v in x.vars && x.vars[v] == id
  }

  // The task performs this action with the request of a node.
  predicate Requests(def: Definition, t: TaskName, action: string, request: MeaRequest) {
    && t in def.tasks && def.tasks[t].action == action
    && exists n | n in def.requests :: def.tasks[t].uses == {RequestOf(n)} && def.requests[n] == request
  }

  // ---- The create workflow ----

  // The creation of the node's MEA and the wait for it, as far as they have come.
  predicate Created(x: Execution, n: Node) {
    Succeeded(x, CreateMea(n))
  }

  predicate Waited(x: Execution, n: Node) {
    Succeeded(x, WaitMeaActive(n))
  }

  // Where a variable has its value from: URL and status from the wait, once it is over.
  function Source(x: Execution, v: Var): Mea
    requires Created(x, v.node)
  {
    if Waited(x, v.node) && (v.field == MGMT_URL || v.field == STATUS) then x.results[WaitMeaActive(v.node)].value
    else x.results[CreateMea(v.node)].value
  }

  // What holds after any number of steps.
  ghost predicate Filled(x: Execution, nodes: set<Node>) {
    Staged(x, nodes) && Valued(x)
  }

  ghost predicate Staged(x: Execution, nodes: set<Node>) {
    && (forall t | t in x.results :: t.node in nodes)
    && (forall n | WaitMeaActive(n) in x.results :: Created(x, n))
    && (forall n | DeleteMea(n) in x.results :: Waited(x, n) && x.results[WaitMeaActive(n)].value.status == "ERROR")
  }

  ghost predicate Valued(x: Execution) {
    && (forall v :: v in x.vars <==> Created(x, v.node))
    && (forall v | v in x.vars :: x.vars[v] == Entry(Source(x, v), v.field))
  }

  // The tasks that may run next.
  predicate IsNext(x: Execution, nodes: set<Node>, t: TaskName) {
    && t.node in nodes && t !in x.results
    && match t
       case CreateMea(n) => true
       case WaitMeaActive(n) => Created(x, n)
       case DeleteMea(n) => Waited(x, n) && x.results[WaitMeaActive(n)].value.status == "ERROR"
  }

  // A task that only u leads to may run once u leads on.
  lemma OneLink(def: Definition, x: Execution, t: TaskName, u: TaskName)
    requires t in def.tasks && u in def.tasks && t !in x.results
    requires forall w | w in def.tasks :: t in def.tasks[w].onSuccess <==> w == u
    ensures MayRun(def, x, t) <==> LeadsOn(def, x, u)
  {
    assert t in def.tasks[u].onSuccess;
  }

  lemma LinksShaped(def: Definition, nodes: set<Node>, n: Node)
    requires Shaped(def, nodes) && n in nodes
    ensures Starts(def, CreateMea(n))
    ensures forall w | w in def.tasks :: WaitMeaActive(n) in def.tasks[w].onSuccess <==> w == CreateMea(n)
    ensures forall w | w in def.tasks :: DeleteMea(n) in def.tasks[w].onSuccess <==> w == WaitMeaActive(n)
  {
    CreationsStart(def, nodes, CreateMea(n));
    forall w | w in def.tasks ensures WaitMeaActive(n) in def.tasks[w].onSuccess <==> w == CreateMea(n) {
      assert Shape(w, def.tasks[w]);
    }
    forall w | w in def.tasks ensures DeleteMea(n) in def.tasks[w].onSuccess <==> w == WaitMeaActive(n) {
      assert Shape(w, def.tasks[w]);
    }
  }

  lemma StatusKnown(nodes: set<Node>, x: Execution, n: Node)
    requires Filled(x, nodes) && Waited(x, n)
    ensures Var(STATUS, n) in x.vars && x.vars[Var(STATUS, n)] == x.results[WaitMeaActive(n)].value.status
  {
    assert Created(x, n);
  }

  lemma LeadsOnExactly(def: Definition, x: Execution, n: Node)
    requires CreateMea(n) in def.tasks && def.tasks[CreateMea(n)] == TaskOf(CreateMea(n))
    requires WaitMeaActive(n) in def.tasks && def.tasks[WaitMeaActive(n)] == TaskOf(WaitMeaActive(n))
    requires Waited(x, n) ==>
               Var(STATUS, n) in x.vars && x.vars[Var(STATUS, n)] == x.results[WaitMeaActive(n)].value.status
    ensures LeadsOn(def, x, CreateMea(n)) <==> Created(x, n)
    ensures LeadsOn(def, x, WaitMeaActive(n)) <==> Waited(x, n) && x.results[WaitMeaActive(n)].value.status == "ERROR"
  {
  }

  lemma NextExactly(def: Definition, nodes: set<Node>, x: Execution, t: TaskName)
    requires IsCreateDefinition(def, nodes) && Filled(x, nodes)
    ensures MayRun(def, x, t) <==> IsNext(x, nodes, t)
  {
    var n := t.node;
    if n in nodes && t !in x.results {
      CreateShaped(def, nodes);
      LinksShaped(def, nodes, n);
      if Waited(x, n) {
        StatusKnown(nodes, x, n);
      }
      LeadsOnExactly(def, x, n);
      match t
      case CreateMea(_) =>
      case WaitMeaActive(_) => OneLink(def, x, t, CreateMea(n));
      case DeleteMea(_) => OneLink(def, x, t, WaitMeaActive(n));
    }
  }

  lemma StagesOn(nodes: set<Node>, x: Execution, t: TaskName, result: Option<Mea>)
    requires Staged(x, nodes) && IsNext(x, nodes, t)
    ensures Staged(Execution(x.vars, x.results[t := result]), nodes)
  {
  }

  // A task that fails, or a deletion, fills nothing.
  lemma FillsNothing(nodes: set<Node>, x: Execution, y: Execution, t: TaskName, result: Option<Mea>)
    requires Filled(x, nodes) && IsNext(x, nodes, t) && (result.None? || t.DeleteMea?)
    requires y == Execution(x.vars, x.results[t := result])
    ensures Valued(y)
  {
    assert forall n :: Created(y, n) <==> Created(x, n);
    assert forall n :: Waited(y, n) <==> Waited(x, n);
    forall v | v in y.vars ensures y.vars[v] == Entry(Source(y, v), v.field) {
      assert Source(y, v) == Source(x, v);
    }
  }

  lemma FillsCreate(nodes: set<Node>, x: Execution, y: Execution, n: Node, mea: Mea)
    requires Filled(x, nodes) && IsNext(x, nodes, CreateMea(n)) && y.results == x.results[CreateMea(n) := Some(mea)]
    requires forall v :: v in y.vars <==> v in x.vars || v.node == n
    requires forall v | v in y.vars :: y.vars[v] == if v.node == n then Entry(mea, v.field) else x.vars[v]
    ensures Valued(y)
  {
    assert !Waited(x, n);
    assert forall m :: Created(y, m) <==> Created(x, m) || m == n;
    assert forall m :: Waited(y, m) <==> Waited(x, m);
    forall v | v in y.vars ensures y.vars[v] == Entry(Source(y, v), v.field) {
      if v.node != n {
        assert Source(y, v) == Source(x, v);
      }
    }
  }

  lemma FillsWait(nodes: set<Node>, x: Execution, y: Execution, n: Node, mea: Mea)
    requires Filled(x, nodes) && IsNext(x, nodes, WaitMeaActive(n))
    requires y.results == x.results[WaitMeaActive(n) := Some(mea)]
    requires forall v :: v in y.vars <==> v in x.vars
    requires forall v | v in y.vars ::
               y.vars[v] == if v.node == n && (v.field == MGMT_URL || v.field == STATUS) then Entry(mea, v.field)
                            else x.vars[v]
    ensures Valued(y)
  {
    assert forall m :: Created(y, m) <==> Created(x, m);
    assert forall m :: Waited(y, m) <==> Waited(x, m) || m == n;
    forall v | v in y.vars ensures y.vars[v] == Entry(Source(y, v), v.field) {
      assert x.vars[v] == Entry(Source(x, v), v.field);
    }
  }

  // What a task publishes of its own result.
  lemma PublishesOwn(t: TaskName, results: map<TaskName, Option<Mea>>)
    requires t in results && results[t].Some?
    ensures var published := Publishing(TaskOf(t), results);
            && (forall v :: v in published <==> Publishes(t, v))
            && (forall v | v in published :: published[v] == Entry(results[t].value, v.field))
            && (t.DeleteMea? ==> published == map[])
  {
    TaskShape(t);
  }

  lemma FillsSuccess(nodes: set<Node>, x: Execution, y: Execution, t: TaskName, mea: Mea)
    requires Filled(x, nodes) && IsNext(x, nodes, t) && y.results == x.results[t := Some(mea)]
    requires y.vars == x.vars + Publishing(TaskOf(t), y.results)
    ensures Valued(y)
  {
    PublishesOwn(t, y.results);
    if t.CreateMea? {
      FillsCreate(nodes, x, y, t.node, mea);
    } else if t.WaitMeaActive? {
      assert Created(x, t.node);
      FillsWait(nodes, x, y, t.node, mea);
    } else {
      FillsNothing(nodes, x, y, t, Some(mea));
    }
  }

  lemma FillsOn(def: Definition, nodes: set<Node>, x: Execution, done: Done)
    requires done.task in def.tasks && def.tasks[done.task] == TaskOf(done.task)
    requires Filled(x, nodes) && IsNext(x, nodes, done.task)
    ensures Filled(After(def, x, done), nodes)
  {
    StagesOn(nodes, x, done.task, done.result);
    if done.result.None? {
      FillsNothing(nodes, x, After(def, x, done), done.task, None);
    } else {
      FillsSuccess(nodes, x, After(def, x, done), done.task, done.result.value);
    }
  }

  lemma {:induction false} RunFills(def: Definition, nodes: set<Node>, steps: seq<Done>)
    requires IsCreateDefinition(def, nodes) && IsRun(def, steps)
    ensures Filled(Execute(def, steps), nodes)
  {
    if steps != [] {
      var before := steps[..|steps| - 1];
      RunFills(def, nodes, before);
      NextExactly(def, nodes, Execute(def, before), steps[|steps| - 1].task);
      FillsOn(def, nodes, Execute(def, before), steps[|steps| - 1]);
    }
  }

  // What each task is for.
  function ActionOf(t: TaskName): string {
    match t
    case CreateMea(_) => "apmec.create_mea"
    case WaitMeaActive(_) => "apmec.show_mea"
    case DeleteMea(_) => "apmec.delete_mea"
  }

  lemma ActsExactly(def: Definition, x: Execution, t: TaskName, id: string)
    requires t in def.tasks && def.tasks[t] == TaskOf(t) && !t.CreateMea?
    requires Var(MEA_ID, t.node) in x.vars && x.vars[Var(MEA_ID, t.node)] == id
    ensures forall id' :: ActsOn(def, x, t, ActionOf(t), id') <==> id' == id
  {
    var v := Var(MEA_ID, t.node);
    assert Variable(v) in def.tasks[t].uses;
    assert forall w: Var | w.field == MEA_ID && Variable(w) in def.tasks[t].uses :: w == v;
  }

  lemma RequestsExactly(def: Definition, n: Node)
    requires CreateMea(n) in def.tasks && def.tasks[CreateMea(n)] == TaskOf(CreateMea(n)) && n in def.requests
    ensures forall request ::
              Requests(def, CreateMea(n), ActionOf(CreateMea(n)), request) <==> request == def.requests[n]
  {
    assert forall m :: def.tasks[CreateMea(n)].uses == {RequestOf(m)} <==> m == n by {
      assert RequestOf(n) in def.tasks[CreateMea(n)].uses;
    }
  }

  lemma NextActs(def: Definition, nodes: set<Node>, x: Execution, t: TaskName)
    requires IsCreateDefinition(def, nodes) && Filled(x, nodes) && IsNext(x, nodes, t)
    ensures t.CreateMea? ==>
              t.node in def.requests
              && forall request :: Requests(def, t, ActionOf(t), request) <==> request == def.requests[t.node]
    ensures !t.CreateMea? ==>
              Created(x, t.node)
              && forall id :: ActsOn(def, x, t, ActionOf(t), id) <==> id == x.results[CreateMea(t.node)].value.id
  {
    assert def.tasks[t] == TaskOf(t);
    if t.CreateMea? {
      RequestsExactly(def, t.node);
    } else {
      IdKnown(nodes, x, t.node);
      ActsExactly(def, x, t, x.results[CreateMea(t.node)].value.id);
    }
  }

  lemma IdKnown(nodes: set<Node>, x: Execution, n: Node)
    requires Filled(x, nodes) && (Created(x, n) || Waited(x, n))
    ensures Created(x, n)
    ensures Var(MEA_ID, n) in x.vars && x.vars[Var(MEA_ID, n)] == x.results[CreateMea(n)].value.id
  {
  }

  // After any run of the create workflow, complete or not: a task may run next exactly when it has
  // not and what it depends on succeeded, deletions only after a wait that reports ERROR. The
  // output has all four variables of every node whose MEA was created and no others. Each holds
  // its own field of that MEA, as the creation returned it, except that URL and status are as the
  // wait returned them once it has succeeded.
  lemma CreateMeaning(def: Definition, nodes: set<Node>, steps: seq<Done>)
    requires IsCreateDefinition(def, nodes) && IsRun(def, steps)
    ensures var x := Execute(def, steps);
            && (forall t :: MayRun(def, x, t) <==> IsNext(x, nodes, t))
            && (forall v :: v in OutputOf(def, x) <==> Created(x, v.node))
            && (forall v | v in OutputOf(def, x) :: OutputOf(def, x)[v] == Entry(Source(x, v), v.field))
            && (forall n | Created(x, n) :: n in nodes)
  {
    var x := Execute(def, steps);
    RunFills(def, nodes, steps);
    forall t ensures MayRun(def, x, t) <==> IsNext(x, nodes, t) {
      NextExactly(def, nodes, x, t);
    }
    OutputFilled(def, nodes, x);
  }

  // Along any such run a creation is asked for with the request of its node, and the wait and the
  // deletion are about the MEA that was created for the node.
  lemma CreateActs(def: Definition, nodes: set<Node>, steps: seq<Done>, t: TaskName)
    requires IsCreateDefinition(def, nodes) && IsRun(def, steps) && MayRun(def, Execute(def, steps), t)
    ensures t.CreateMea? ==>
              t.node in def.requests
              && forall request :: Requests(def, t, ActionOf(t), request) <==> request == def.requests[t.node]
    ensures var x := Execute(def, steps);
            !t.CreateMea? ==>
              Created(x, t.node)
              && forall id :: ActsOn(def, x, t, ActionOf(t), id) <==> id == x.results[CreateMea(t.node)].value.id
  {
    RunFills(def, nodes, steps);
    NextExactly(def, nodes, Execute(def, steps), t);
    NextActs(def, nodes, Execute(def, steps), t);
  }

  lemma OutputFilled(def: Definition, nodes: set<Node>, x: Execution)
    requires ListsOutput(def.output, nodes) && Filled(x, nodes)
    ensures forall n | Created(x, n) :: n in nodes
    ensures forall v :: v in OutputOf(def, x) <==> Created(x, v.node)
    ensures forall v | v in OutputOf(def, x) :: OutputOf(def, x)[v] == Entry(Source(x, v), v.field)
  {
    forall n | Created(x, n) ensures n in nodes {
      assert CreateMea(n) in x.results;
    }
    forall v ensures v in OutputOf(def, x) <==> v in x.vars {
      FieldListed(v.field);
      assert v in x.vars ==> Created(x, v.node) && v.node in nodes;
    }
  }

  lemma FieldListed(f: Field)
    ensures f in OUTPUT
  {
    match f
    case MEA_ID =>
    case VIM_ID =>
    case MGMT_URL =>
    case STATUS =>
  }

  // A show_mea that still says PENDING_CREATE is repeated, ten times at most and ten seconds
  // apart, and one that says ERROR is not. Nothing else is.
  lemma OnlyWaitsRepeat(def: Definition, nodes: set<Node>, t: TaskName)
    requires IsCreateDefinition(def, nodes) && t in def.tasks
    ensures def.tasks[t].retry
            == if t.WaitMeaActive? then Some(Retry(10, 10, "ERROR", "PENDING_CREATE")) else None
  {
    assert def.tasks[t] == TaskOf(t);
  }

  // ---- The delete workflow ----

  // Only tasks of recorded nodes have run, and the ids are there throughout.
  ghost predicate Deleting(def: Definition, x: Execution, ids: map<Node, string>) {
    && x.vars == def.values && (forall t | t in x.results :: t.DeleteMea? && t.node in ids)
  }

  lemma DeleteNext(def: Definition, ids: map<Node, string>, x: Execution, t: TaskName)
    requires IsDeleteDefinition(def, ids) && Deleting(def, x, ids)
    ensures MayRun(def, x, t) <==> t.DeleteMea? && t.node in ids && t !in x.results
  {
    DeleteWellScoped(def, ids);
  }

  lemma DeleteActs(def: Definition, ids: map<Node, string>, x: Execution, t: TaskName)
    requires IsDeleteDefinition(def, ids) && x.vars == def.values && t.DeleteMea? && t.node in ids
    ensures forall id :: ActsOn(def, x, t, ActionOf(t), id) <==> id == ids[t.node]
  {
    var v := Var(MEA_ID, t.node);
    assert v in def.values && def.values[v] == ids[t.node];
    ActsExactly(def, x, t, ids[t.node]);
  }

  lemma DeletesOn(def: Definition, ids: map<Node, string>, x: Execution, done: Done)
    requires Deleting(def, x, ids) && done.task in def.tasks && done.task.DeleteMea? && done.task.node in ids
    requires def.tasks[done.task] == TaskOf(done.task)
    ensures Deleting(def, After(def, x, done), ids)
  {
    assert Publishing(TaskOf(done.task), x.results[done.task := done.result]) == map[];
    assert x.vars + map[] == x.vars;
  }

  lemma {:induction false} RunDeletes(def: Definition, ids: map<Node, string>, steps: seq<Done>)
    requires IsDeleteDefinition(def, ids) && IsRun(def, steps)
    ensures Deleting(def, Execute(def, steps), ids)
  {
    if steps != [] {
      var before := steps[..|steps| - 1];
      RunDeletes(def, ids, before);
      DeleteNext(def, ids, Execute(def, before), steps[|steps| - 1].task);
      DeletesOn(def, ids, Execute(def, before), steps[|steps| - 1]);
    }
  }

  // Along any run of the delete workflow the tasks that may run are exactly those of the recorded
  // nodes that have not, and each deletes the MEA with the id recorded for its node and no other.
  lemma DeleteMeaning(def: Definition, ids: map<Node, string>, steps: seq<Done>)
    requires IsDeleteDefinition(def, ids) && IsRun(def, steps)
    ensures var x := Execute(def, steps);
            && (forall t :: MayRun(def, x, t) <==> t.DeleteMea? && t.node in ids && t !in x.results)
            && (forall t, id | MayRun(def, x, t) ::
                  ActsOn(def, x, t, ActionOf(t), id) <==> id == ids[t.node])
  {
    var x := Execute(def, steps);
    RunDeletes(def, ids, steps);
    forall t ensures MayRun(def, x, t) <==> t.DeleteMea? && t.node in ids && t !in x.results {
      DeleteNext(def, ids, x, t);
    }
    forall t, id | MayRun(def, x, t) ensures ActsOn(def, x, t, ActionOf(t), id) <==> id == ids[t.node] {
      DeleteActs(def, ids, x, t);
    }
  }
}
