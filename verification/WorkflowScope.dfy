// Whether a workflow definition makes sense to Mistral: every name it uses is there when it is
// used. A direct workflow starts with the tasks no other task leads to and goes on along the
// on-success links.
module WorkflowScope {
  import opened Workflow

  ghost predicate Starts(def: Definition, t: TaskName) {
    t in def.tasks && forall u | u in def.tasks :: t !in def.tasks[u].onSuccess
  }

  ghost predicate IsPath(def: Definition, path: seq<TaskName>) {
    && |path| > 0 && Starts(def, path[0])
    && (forall i | 0 <= i < |path| :: path[i] in def.tasks)
    && (forall i, j | 0 <= i && j == i + 1 < |path| :: path[j] in def.tasks[path[i]].onSuccess)
  }

  // The reference can be resolved once the tasks before the last one of the path are done.
  ghost predicate Resolved(def: Definition, path: seq<TaskName>, ref: Ref)
    requires IsPath(def, path)
  {
    match ref
    case RequestOf(n) => def.takesMea && n in def.requests
    case Variable(v) => v in def.values || exists i | 0 <= i < |path| - 1 :: v in def.tasks[path[i]].publish
  }

  ghost predicate PathResolved(def: Definition, path: seq<TaskName>)
    requires IsPath(def, path)
  {
    forall ref | ref in def.tasks[path[|path| - 1]].uses :: Resolved(def, path, ref)
  }

  ghost predicate Reachable(def: Definition, t: TaskName) {
    exists path :: IsPath(def, path) && path[|path| - 1] == t
  }

  // An output expression is a variable that some starting task publishes.
  ghost predicate OutputPublished(def: Definition, ref: Ref) {
    ref.Variable? && exists t | Starts(def, t) :: ref.name in def.tasks[t].publish
  }

  ghost predicate WellScoped(def: Definition) {
    && (forall t, u | t in def.tasks && u in def.tasks[t].onSuccess :: u in def.tasks)
    && (forall t, v | t in def.tasks && v in def.tasks[t].publish :: def.tasks[t].publish[v].task == t)
    && (forall path | IsPath(def, path) :: PathResolved(def, path))
    && (forall t | t in def.tasks :: Reachable(def, t))
    && (forall k | k in def.output :: OutputPublished(def, def.output[k]))
  }

  // ---- What tasks lead to, publish and use ----

  predicate Follows(t: TaskName, u: TaskName) {
    u.node == t.node && ((t.CreateMea? && u.WaitMeaActive?) || (t.WaitMeaActive? && u.DeleteMea?))
  }

  predicate Publishes(t: TaskName, v: Var) {
    v.node == t.node && (t.CreateMea? || (t.WaitMeaActive? && (v.field == MGMT_URL || v.field == STATUS)))
  }

  predicate Uses(t: TaskName, ref: Ref) {
    match ref
    case RequestOf(n) => t == CreateMea(n)
    case Variable(v) => v.node == t.node && (v.field == MEA_ID || v.field == STATUS) && !t.CreateMea?
  }

  ghost predicate Shape(t: TaskName, task: Task) {
    && (forall u :: u in task.onSuccess <==> Follows(t, u))
    && (forall v :: v in task.publish <==> Publishes(t, v))
    && (forall v | v in task.publish :: task.publish[v].task == t)
    && (forall ref | ref in task.uses :: Uses(t, ref))
  }

  ghost predicate Shaped(def: Definition, nodes: set<Node>) {
    && def.takesMea && def.requests.Keys == nodes && ListsOutput(def.output, nodes)
    && (forall t :: t in def.tasks <==> t.node in nodes)
    && (forall t | t in def.tasks :: Shape(t, def.tasks[t]))
  }

  lemma TaskShape(t: TaskName)
    ensures Shape(t, TaskOf(t))
  {
    forall v ensures v in TaskOf(t).publish <==> Publishes(t, v) {
      assert v == Var(v.field, v.node);
      match v.field
      case MEA_ID =>
      case VIM_ID =>
      case MGMT_URL =>
      case STATUS =>
    }
  }

  lemma CreateShaped(def: Definition, nodes: set<Node>)
    requires IsCreateDefinition(def, nodes)
    ensures Shaped(def, nodes)
  {
    forall t | t in def.tasks ensures Shape(t, def.tasks[t]) {
      TaskShape(t);
    }
  }

  // ---- The create workflow ----

  // Only creations start.
  lemma CreationsStart(def: Definition, nodes: set<Node>, t: TaskName)
    requires Shaped(def, nodes) && t in def.tasks
    ensures Starts(def, t) <==> t.CreateMea?
  {
    if t.WaitMeaActive? {
      assert t in def.tasks[CreateMea(t.node)].onSuccess;
    } else if t.DeleteMea? {
      assert t in def.tasks[WaitMeaActive(t.node)].onSuccess;
    }
  }

  function Stages(node: Node): seq<TaskName> {
    [CreateMea(node), WaitMeaActive(node), DeleteMea(node)]
  }

  // A path creates one node's MEA, waits for it, and deletes it.
  lemma {:induction false} PathShape(def: Definition, nodes: set<Node>, path: seq<TaskName>, i: nat)
    requires Shaped(def, nodes) && IsPath(def, path) && i < |path|
    ensures path[i].node == path[0].node && i < 3 && path[i] == Stages(path[0].node)[i]
  {
    if i == 0 {
      CreationsStart(def, nodes, path[0]);
    } else {
      PathShape(def, nodes, path, i - 1);
      assert Follows(path[i - 1], path[i]);
    }
  }

  lemma CreatePathResolved(def: Definition, nodes: set<Node>, path: seq<TaskName>)
    requires Shaped(def, nodes) && IsPath(def, path)
    ensures PathResolved(def, path)
  {
    PathShape(def, nodes, path, 0);
    PathShape(def, nodes, path, |path| - 1);
    var n := path[0].node;
    assert Var(MEA_ID, n) in def.tasks[path[0]].publish && Var(STATUS, n) in def.tasks[path[0]].publish;
  }

  lemma CreateReachable(def: Definition, nodes: set<Node>, t: TaskName)
    requires Shaped(def, nodes) && t in def.tasks
    ensures Reachable(def, t)
  {
    var a, b, c := CreateMea(t.node), WaitMeaActive(t.node), DeleteMea(t.node);
    CreationsStart(def, nodes, a);
    assert IsPath(def, [a]) && IsPath(def, [a, b]) && IsPath(def, [a, b, c]);
  }

  lemma CreateOutputPublished(def: Definition, nodes: set<Node>, v: Var)
    requires Shaped(def, nodes) && v in def.output
    ensures OutputPublished(def, def.output[v])
  {
    CreationsStart(def, nodes, CreateMea(v.node));
    assert v in def.tasks[CreateMea(v.node)].publish;
  }

  // The create workflow is well scoped, for any number of MEADs and nodes.
  lemma CreateWellScoped(def: Definition, nodes: set<Node>)
    requires IsCreateDefinition(def, nodes)
    ensures WellScoped(def)
  {
    CreateShaped(def, nodes);
    ShapedWellScoped(def, nodes);
  }

  lemma ShapedWellScoped(def: Definition, nodes: set<Node>)
    requires Shaped(def, nodes)
    ensures WellScoped(def)
  {
    forall t | t in def.tasks ensures Reachable(def, t) {
      CreateReachable(def, nodes, t);
    }
    forall path | IsPath(def, path) ensures PathResolved(def, path) {
      CreatePathResolved(def, nodes, path);
    }
    forall v | v in def.output ensures OutputPublished(def, def.output[v]) {
      CreateOutputPublished(def, nodes, v);
    }
  }

  // ---- The delete workflow ----

  // Every task is on its own and uses an id that is given.
  ghost predicate Alone(def: Definition, t: TaskName) {
    && t in def.tasks
    && (forall u :: u !in def.tasks[t].onSuccess)
    && (forall v :: v !in def.tasks[t].publish)
    && (forall ref | ref in def.tasks[t].uses :: ref.Variable? && ref.name in def.values)
  }

  lemma DeletesAlone(def: Definition, ids: map<Node, string>, t: TaskName)
    requires IsDeleteDefinition(def, ids) && t in def.tasks
    ensures Alone(def, t)
  {
    TaskShape(t);
    assert def.tasks[t] == DeleteTask(t.node) && Var(MEA_ID, t.node) in def.values;
  }

  lemma AloneWellScoped(def: Definition)
    requires forall t | t in def.tasks :: Alone(def, t)
    requires def.output == map[]
    ensures WellScoped(def)
    ensures forall t | t in def.tasks :: Starts(def, t)
  {
    forall t | t in def.tasks ensures Starts(def, t) && Reachable(def, t) {
      assert IsPath(def, [t]);
    }
    forall path | IsPath(def, path) ensures PathResolved(def, path) {
      assert Alone(def, path[|path| - 1]);
    }
  }

  // The delete workflow is well scoped too, and its tasks all start at once.
  lemma DeleteWellScoped(def: Definition, ids: map<Node, string>)
    requires IsDeleteDefinition(def, ids)
    ensures WellScoped(def)
    ensures forall t | t in def.tasks :: Starts(def, t)
  {
    forall t | t in def.tasks ensures Alone(def, t) {
      DeletesAlone(def, ids, t);
    }
    AloneWellScoped(def);
  }
}
