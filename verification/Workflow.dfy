// The Mistral workflows that create and delete the MEAs of a network service
// (apmec/meo/drivers/workflow/workflow_generator.py), from the grouping of its nodes
// (apmec/meo/meo_plugin.py, create_ns) to the record of its MEAs (apmec/db/meo/ns_db.py,
// create_ns_post). Expressions are kept as references instead of text.
module Workflow {
  import opened Wrappers

  type Node = string

  // A MEAD used by the service: its id, when it is onboarded, and the nodes to instantiate.
  datatype MeadInfo = MeadInfo(id: Option<string>, instances: seq<Node>)

  type MeadDetails = map<string, MeadInfo>

  // ---- Grouping the nodes ----

  // The MEAD a node instantiates: `types` gives the type of each node template that has one,
  // `meads` the MEAD for each of the descriptor's types.
  predicate Instantiates(types: map<Node, string>, meads: map<string, string>, node: Node, mead: string) {
    node in types && types[node] in meads && meads[types[node]] == mead
  }

  predicate NoRepetition<T(==)>(s: seq<T>) {
    forall i, j | 0 <= i < j < |s| :: s[i] != s[j]
  }

  ghost predicate Groups(types: map<Node, string>, meads: map<string, string>, details: MeadDetails) {
    && (forall n, m :: m in details && n in details[m].instances <==> Instantiates(types, meads, n, m))
    && (forall m | m in details :: NoRepetition(details[m].instances))
  }

  function OnboardedId(mead: string, onboarded: seq<(string, string)>): Option<string> {
    if onboarded == [] then None
    else if onboarded[0].0 == mead then Some(onboarded[0].1)
    else OnboardedId(mead, onboarded[1..])
  }

  // Every node of one of the descriptor's types lands in the list of its MEAD, once, and no
  // other node in any.
  method GroupNodes(types: map<Node, string>, meads: map<string, string>, onboarded: seq<(string, string)>)
    returns (details: MeadDetails)
    ensures Groups(types, meads, details)
    ensures forall m | m in details :: details[m].id == OnboardedId(m, onboarded)
  {
    details := map[];
    var todo := types.Keys;
    while todo != {}
      invariant todo <= types.Keys
      invariant Groups(types - todo, meads, details)
      invariant forall m | m in details :: details[m].id == OnboardedId(m, onboarded)
    {
      var node :| node in todo;
      ghost var before := details;
      if types[node] in meads {
        var mead := meads[types[node]];
        if mead !in details {
          details := details[mead := MeadInfo(OnboardedId(mead, onboarded), [node])];
        } else {
          details := details[mead := details[mead].(instances := details[mead].instances + [node])];
        }
      }
      GroupOne(types, meads, before, details, todo, node);
      todo := todo - {node};
    }
    assert types - todo == types;
  }

  lemma GroupOne(types: map<Node, string>, meads: map<string, string>, before: MeadDetails, details: MeadDetails,
                 todo: set<Node>, node: Node)
    requires node in todo && todo <= types.Keys && Groups(types - todo, meads, before)
    requires if types[node] !in meads then details == before
             else var mead := meads[types[node]];
                  mead in details && details == before[mead := details[mead]]
                  && details[mead].instances == (if mead in before then before[mead].instances else []) + [node]
    ensures Groups(types - (todo - {node}), meads, details)
  {
    var old', new' := types - todo, types - (todo - {node});
    forall n, m ensures m in details && n in details[m].instances <==> Instantiates(new', meads, n, m) {
      assert Instantiates(new', meads, n, m) <==>
             Instantiates(old', meads, n, m) || (n == node && Instantiates(types, meads, n, m));
      assert m in before && n in before[m].instances <==> Instantiates(old', meads, n, m);
    }
    forall m | m in details ensures NoRepetition(details[m].instances) {
      assert m in before && node in before[m].instances <==> Instantiates(old', meads, node, m);
    }
  }

  // The nodes of all MEADs.
  function NodesOf(details: MeadDetails): set<Node> {
    set m, n | m in details && n in details[m].instances :: n
  }

  // Grouped nodes are listed under one MEAD only.
  lemma GroupsOneMead(types: map<Node, string>, meads: map<string, string>, details: MeadDetails)
    requires Groups(types, meads, details)
    ensures OneMead(details)
    ensures forall n :: n in NodesOf(details) <==> n in types && types[n] in meads
  {
    forall m, m', n | m in details && m' in details && n in details[m].instances && n in details[m'].instances
      ensures m == m'
    {
      assert Instantiates(types, meads, n, m) && Instantiates(types, meads, n, m');
    }
    forall n ensures n in NodesOf(details) <==> n in types && types[n] in meads {
      if n in types && types[n] in meads {
        assert Instantiates(types, meads, n, meads[types[n]]);
      }
      if n in NodesOf(details) {
        var m :| m in details && n in details[m].instances;
        assert Instantiates(types, meads, n, m);
      }
    }
  }

  // ---- Names ----

  // The names of tasks and variables, by what they stand for; Text and VarText spell them out.
  datatype TaskName = CreateMea(node: Node) | WaitMeaActive(node: Node) | DeleteMea(node: Node)

  datatype Field = MEA_ID | VIM_ID | MGMT_URL | STATUS

  datatype Var = Var(field: Field, node: Node)

  function Text(t: TaskName): string {
    match t
    case CreateMea(node) => "create_mea_" + node
    case WaitMeaActive(node) => "wait_mea_active_" + node
    case DeleteMea(node) => "delete_mea_" + node
  }

  function FieldText(f: Field): string {
    match f
    case MEA_ID => "mea_id"
    case VIM_ID => "vim_id"
    case MGMT_URL => "mgmt_url"
    case STATUS => "status"
  }

  function VarText(v: Var): string {
    FieldText(v.field) + "_" + v.node
  }

  // Different tasks have different names, whatever the nodes are called, so no entry of the
  // task table is overwritten by another.
  lemma TaskNamesDiffer(a: TaskName, b: TaskName)
    requires Text(a) == Text(b)
    ensures a == b
  {
    assert Text(a)[0] == (match a case CreateMea(_) => 'c' case WaitMeaActive(_) => 'w' case DeleteMea(_) => 'd');
    assert Text(b)[0] == (match b case CreateMea(_) => 'c' case WaitMeaActive(_) => 'w' case DeleteMea(_) => 'd');
    var n := if a.WaitMeaActive? then 16 else 11;
    assert Text(a)[n..] == a.node && Text(b)[n..] == b.node;
  }

  // And so have different variables and outputs.
  lemma VarNamesDiffer(a: Var, b: Var)
    requires VarText(a) == VarText(b)
    ensures a == b
  {
    var x, y := VarText(a), VarText(b);
    assert x[1] == FieldText(a.field)[1] && y[1] == FieldText(b.field)[1];
    assert x[0] == FieldText(a.field)[0] && y[0] == FieldText(b.field)[0];
    assert a.field == b.field;
    var n := |FieldText(a.field)| + 1;
    assert x[n..] == a.node && y[n..] == b.node;
  }

  // ---- Workflow definitions ----

  // What an expression refers to: the request of a node in the input mea, or a variable.
  datatype Ref = RequestOf(node: Node) | Variable(name: Var)

  // The result field a published variable is taken from.
  datatype Published = Published(task: TaskName, field: Field)

  // How often to try again, and at which status to stop or to go on.
  datatype Retry = Retry(count: nat, delay: nat, breakOn: string, continueOn: string)

  // `onlyAt` is the status at which the on-success links are taken, if it matters.
  datatype Task = Task(action: string, uses: set<Ref>, publish: map<Var, Published>, retry: Option<Retry>,
                       onSuccess: set<TaskName>, onlyAt: Option<string>)

  // The parameters of one MEAD.
  type Params = map<string, string>

  // Empty parameters count as none.
  function ParamsOf(params: map<string, Params>, mead: string): Option<Params> {
    if mead in params && params[mead] != map[] then Some(params[mead]) else None
  }

  datatype MeaRequest = MeaRequest(name: string, meadId: Option<string>, vimId: string, paramValues: Option<Params>)

  // `takesMea` says that the input mea is declared, with `requests` as its value; `values` are
  // the other inputs.
  datatype Definition = Definition(
    takesMea: bool,
    requests: map<Node, MeaRequest>,
    values: map<Var, string>,
    tasks: map<TaskName, Task>,
    output: map<Var, Ref>)

  const OUTPUT: set<Field> := {MEA_ID, VIM_ID, MGMT_URL, STATUS}

  function CreateTask(node: Node): Task {
    Task("apmec.create_mea", {RequestOf(node)},
         map[Var(MEA_ID, node) := Published(CreateMea(node), MEA_ID),
             Var(VIM_ID, node) := Published(CreateMea(node), VIM_ID),
             Var(MGMT_URL, node) := Published(CreateMea(node), MGMT_URL),
             Var(STATUS, node) := Published(CreateMea(node), STATUS)],
         None, {WaitMeaActive(node)}, None)
  }

  // Of the two break-on entries only the second exists.
  function WaitTask(node: Node): Task {
    Task("apmec.show_mea", {Variable(Var(MEA_ID, node)), Variable(Var(STATUS, node))},
         map[Var(MGMT_URL, node) := Published(WaitMeaActive(node), MGMT_URL),
             Var(STATUS, node) := Published(WaitMeaActive(node), STATUS)],
         Some(Retry(10, 10, "ERROR", "PENDING_CREATE")), {DeleteMea(node)}, Some("ERROR"))
  }

  function DeleteTask(node: Node): Task {
    Task("apmec.delete_mea", {Variable(Var(MEA_ID, node))}, map[], None, {}, None)
  }

  function TaskOf(t: TaskName): Task {
    match t
    case CreateMea(n) => CreateTask(n)
    case WaitMeaActive(n) => WaitTask(n)
    case DeleteMea(n) => DeleteTask(n)
  }

  datatype Kind = CREATE | WAIT | DELETE

  function Name(kind: Kind, node: Node): TaskName {
    match kind
    case CREATE => CreateMea(node)
    case WAIT => WaitMeaActive(node)
    case DELETE => DeleteMea(node)
  }

  // A table with one task of this kind per node and no other.
  ghost predicate Lists(tasks: map<TaskName, Task>, nodes: set<Node>, kind: Kind) {
    && (forall t :: t in tasks <==> t.node in nodes && t == Name(kind, t.node))
    && (forall t | t in tasks :: tasks[t] == TaskOf(t))
  }

  // The nested loops shared by _add_create_mea_tasks, _add_wait_mea_tasks and
  // _add_delete_mea_tasks.
  method AddTasks(details: MeadDetails, kind: Kind) returns (tasks: map<TaskName, Task>)
    ensures Lists(tasks, NodesOf(details), kind)
  {
    tasks := map[];
    var todo := details.Keys;
    ghost var done: set<Node> := {};
    while todo != {}
      invariant todo <= details.Keys && Lists(tasks, done, kind)
      invariant forall n :: n in done <==> exists m | m in details && m !in todo :: n in details[m].instances
    {
      var mead :| mead in todo;
      var nodes := details[mead].instances;
      ghost var start := done;
      for i := 0 to |nodes|
        invariant Lists(tasks, done, kind)
        invariant forall n :: n in done <==> n in start || n in nodes[..i]
      {
        tasks := tasks[Name(kind, nodes[i]) := TaskOf(Name(kind, nodes[i]))];
        done := done + {nodes[i]};
        assert nodes[..i + 1] == nodes[..i] + [nodes[i]];
      }
      assert nodes[..|nodes|] == nodes;
      todo := todo - {mead};
    }
    assert done == NodesOf(details);
  }

  ghost predicate ListsOutput(output: map<Var, Ref>, nodes: set<Node>) {
    && (forall v :: v in output <==> v.node in nodes && v.field in OUTPUT)
    && (forall v | v in output :: output[v] == Variable(v))
  }

  // _build_output_dict
  method BuildOutput(details: MeadDetails) returns (output: map<Var, Ref>)
    ensures ListsOutput(output, NodesOf(details))
  {
    output := map[];
    var todo := NodesOf(details);
    while todo != {}
      invariant todo <= NodesOf(details) && ListsOutput(output, NodesOf(details) - todo)
    {
      var node :| node in todo;
      var ops := OUTPUT;
      while ops != {}
        invariant ops <= OUTPUT
        invariant forall v :: v in output <==>
                    v.field in OUTPUT && (v.node in NodesOf(details) - todo || (v.node == node && v.field !in ops))
        invariant forall v | v in output :: output[v] == Variable(v)
      {
        var op :| op in ops;
        output := output[Var(op, node) := Variable(Var(op, node))];
        ops := ops - {op};
      }
      todo := todo - {node};
    }
  }

  // No node is listed under two MEADs.
  ghost predicate OneMead(details: MeadDetails) {
    forall m, m', n | m in details && m' in details && n in details[m].instances && n in details[m'].instances ::
      m == m'
  }

  // A MEAD that is not onboarded has no id, which is printed as None.
  function IdText(id: Option<string>): string {
    if id.Some? then id.value else "None"
  }

  // One uuid serves all requests of a workflow.
  function RequestName(id: Option<string>, uuid: string): string {
    "create_mea_" + IdText(id) + "_" + uuid
  }

  function NewRequest(info: MeadInfo, mead: string, vimId: string, params: map<string, Params>, uuid: string)
    : MeaRequest
  {
    MeaRequest(RequestName(info.id, uuid), info.id, vimId, ParamsOf(params, mead))
  }

  ghost predicate RequestsFor(details: MeadDetails, vimId: string, params: map<string, Params>, uuid: string,
                              requests: map<Node, MeaRequest>) {
    && requests.Keys == NodesOf(details)
    && forall m, n | m in details && n in details[m].instances ::
         requests[n] == NewRequest(details[m], m, vimId, params, uuid)
  }

  // build_input
  method BuildInput(details: MeadDetails, vimId: string, params: map<string, Params>, uuid: string)
    returns (requests: map<Node, MeaRequest>)
    requires OneMead(details)
    ensures RequestsFor(details, vimId, params, uuid, requests)
  {
    requests := map[];
    var todo := details.Keys;
    while todo != {}
      invariant todo <= details.Keys
      invariant RequestsFor(details - todo, vimId, params, uuid, requests)
    {
      var mead :| mead in todo;
      var info := details[mead];
      ghost var before := requests;
      var values := if mead in params && params[mead] != map[] then Some(params[mead]) else None;
      var request := MeaRequest(RequestName(info.id, uuid), info.id, vimId, values);
      assert request == NewRequest(info, mead, vimId, params, uuid);
      for i := 0 to |info.instances|
        invariant requests.Keys == before.Keys + set n | n in info.instances[..i]
        invariant forall n | n in before && n !in info.instances :: requests[n] == before[n]
        invariant forall n | n in info.instances[..i] :: requests[n] == request
      {
        assert info.instances[..i + 1] == info.instances[..i] + [info.instances[i]];
        requests := requests[info.instances[i] := request];
      }
      assert info.instances[..|info.instances|] == info.instances;
      RequestsOne(details, vimId, params, uuid, todo, mead, before, requests);
      todo := todo - {mead};
    }
    assert details - todo == details;
  }

  lemma RequestsOne(details: MeadDetails, vimId: string, params: map<string, Params>, uuid: string, todo: set<string>,
                    mead: string, before: map<Node, MeaRequest>, requests: map<Node, MeaRequest>)
    requires OneMead(details) && mead in todo && todo <= details.Keys
    requires RequestsFor(details - todo, vimId, params, uuid, before)
    requires requests.Keys == before.Keys + set n | n in details[mead].instances
    requires forall n | n in before && n !in details[mead].instances :: requests[n] == before[n]
    requires forall n | n in details[mead].instances ::
               requests[n] == NewRequest(details[mead], mead, vimId, params, uuid)
    ensures RequestsFor(details - (todo - {mead}), vimId, params, uuid, requests)
  {
    var rest, more := details - todo, details - (todo - {mead});
    NodesOne(details, todo, mead);
    forall m, n | m in more && n in more[m].instances
      ensures requests[n] == NewRequest(details[m], m, vimId, params, uuid)
    {
      if m != mead {
        assert m in rest && n in rest[m].instances && n in NodesOf(rest) && n !in details[mead].instances;
      }
    }
  }

  lemma NodesOne(details: MeadDetails, todo: set<string>, mead: string)
    requires mead in todo && todo <= details.Keys
    ensures NodesOf(details - (todo - {mead})) == NodesOf(details - todo) + set n | n in details[mead].instances
  {
    var rest, more := details - todo, details - (todo - {mead});
    assert mead in more && more[mead] == details[mead];
    forall n ensures n in NodesOf(more) <==> n in NodesOf(rest) || n in details[mead].instances {
      if n in NodesOf(rest) {
        var m :| m in rest && n in rest[m].instances;
        assert m in more && n in more[m].instances;
      }
      if n in NodesOf(more) {
        var m :| m in more && n in more[m].instances;
        assert m == mead || (m in rest && n in rest[m].instances);
      }
    }
  }

  // The id is that of the first onboarded MEAD of this name.
  ghost predicate FirstOnboarded(mead: string, onboarded: seq<(string, string)>, id: Option<string>) {
    match id
    case None => forall i | 0 <= i < |onboarded| :: onboarded[i].0 != mead
    case Some(s) => exists i | 0 <= i < |onboarded| ::
                      onboarded[i] == (mead, s) && forall j | 0 <= j < i :: onboarded[j].0 != mead
  }

  lemma {:induction false} OnboardedFirst(mead: string, onboarded: seq<(string, string)>)
    ensures FirstOnboarded(mead, onboarded, OnboardedId(mead, onboarded))
  {
    if onboarded != [] && onboarded[0].0 != mead {
      OnboardedFirst(mead, onboarded[1..]);
      assert forall j | 0 < j < |onboarded| :: onboarded[j] == onboarded[1..][j - 1];
      match OnboardedId(mead, onboarded)
      case None =>
      case Some(s) =>
        var i :| 0 <= i < |onboarded[1..]| && onboarded[1..][i] == (mead, s)
                 && forall j | 0 <= j < i :: onboarded[1..][j].0 != mead;
        assert onboarded[i + 1] == (mead, s);
    }
  }

  // What is asked for each node: an MEA of the MEAD that the descriptor gives for the node's type,
  // on the service's VIM, with the values given for that MEAD.
  lemma RequestOfNode(types: map<Node, string>, meads: map<string, string>, onboarded: seq<(string, string)>,
                      details: MeadDetails, vimId: string, params: map<string, Params>, uuid: string,
                      requests: map<Node, MeaRequest>, n: Node)
    requires Groups(types, meads, details) && forall m | m in details :: details[m].id == OnboardedId(m, onboarded)
    requires RequestsFor(details, vimId, params, uuid, requests) && n in requests
    ensures n in types && types[n] in meads
    ensures var mead := meads[types[n]];
            && FirstOnboarded(mead, onboarded, requests[n].meadId)
            && requests[n].vimId == vimId
            && requests[n].paramValues
               == (if mead in params && params[mead] != map[] then Some(params[mead]) else None)
            && requests[n].name
               == "create_mea_" + (if requests[n].meadId.Some? then requests[n].meadId.value else "None") + "_" + uuid
  {
    var m :| m in details && n in details[m].instances;
    assert Instantiates(types, meads, n, m);
    OnboardedFirst(m, onboarded);
    assert requests[n] == NewRequest(details[m], m, vimId, params, uuid);
  }

  ghost predicate IsCreateDefinition(def: Definition, nodes: set<Node>) {
    && def.takesMea && def.values == map[] && def.requests.Keys == nodes
    && AllTasks(def.tasks, nodes)
    && ListsOutput(def.output, nodes)
  }

  // One task per recorded instance, which is given the recorded id.
  ghost predicate IsDeleteDefinition(def: Definition, ids: map<Node, string>) {
    && Lists(def.tasks, ids.Keys, DELETE)
    && !def.takesMea && def.output == map[]
    && BindsIds(def.values, ids, ids.Keys)
  }

  ghost predicate BindsIds(values: map<Var, string>, ids: map<Node, string>, nodes: set<Node>) {
    && (forall v :: v in values <==> v.field == MEA_ID && v.node in nodes)
    && (forall v | v in values :: v.node in ids && values[v] == ids[v.node])
  }

  datatype RecordError = NoRecord

  // The generator fills in its definition step by step.
  class WorkflowGenerator {
    var def: Definition

    constructor ()
      ensures def == Definition(true, map[], map[], map[], map[])
    {
      def := Definition(true, map[], map[], map[], map[]);
    }

    method CreateMea(details: MeadDetails, vimId: string, params: map<string, Params>, uuid: string)
      requires def == Definition(true, map[], map[], map[], map[]) && OneMead(details)
      modifies this
      ensures IsCreateDefinition(def, NodesOf(details)) && RequestsFor(details, vimId, params, uuid, def.requests)
    {
      var creates := AddTasks(details, CREATE);
      var waits := AddTasks(details, WAIT);
      var deletes := AddTasks(details, DELETE);
      def := def.(tasks := map[]);
      def := def.(tasks := def.tasks + creates);
      def := def.(tasks := def.tasks + waits);
      def := def.(tasks := def.tasks + deletes);
      TasksTogether(NodesOf(details), creates, waits, deletes);
      var output := BuildOutput(details);
      var requests := BuildInput(details, vimId, params, uuid);
      def := def.(output := output, requests := requests);
    }

    // delete_mea reads the ids back from the record; a service without a record makes it raise.
    method DeleteMea(meaIds: Option<map<Node, string>>) returns (error: Option<RecordError>)
      requires def == Definition(true, map[], map[], map[], map[])
      modifies this
      ensures error.Some? <==> meaIds.None?
      ensures error.None? ==> IsDeleteDefinition(def, meaIds.value)
    {
      if meaIds.None? {
        return Some(NoRecord);
      }
      var ids := meaIds.value;
      def := def.(takesMea := false);
      var details: MeadDetails := map[];
      var todo := ids.Keys;
      while todo != {}
        invariant todo <= ids.Keys
        invariant def == Definition(false, map[], def.values, map[], map[])
        invariant BindsIds(def.values, ids, ids.Keys - todo)
        invariant details.Keys == ids.Keys - todo && forall n | n in details :: details[n].instances == [n]
      {
        var node :| node in todo;
        def := def.(values := def.values[Var(MEA_ID, node) := ids[node]]);
        details := details[node := MeadInfo(None, [node])];
        todo := todo - {node};
      }
      SingleNodes(ids, details);
      var tasks := AddTasks(details, DELETE);
      assert ids.Keys - todo == ids.Keys;
      def := def.(tasks := tasks);
      return None;
    }
  }

  lemma SingleNodes(ids: map<Node, string>, details: MeadDetails)
    requires details.Keys == ids.Keys && forall n | n in details :: details[n].instances == [n]
    ensures NodesOf(details) == ids.Keys
  {
    forall n ensures n in NodesOf(details) <==> n in ids {
      if n in ids {
        assert n in details && details[n].instances == [n] && n in details[n].instances;
      }
      if n in NodesOf(details) {
        var m :| m in details && n in details[m].instances;
        assert details[m].instances == [m];
      }
    }
  }

  // The three task tables merge without loss.
  lemma TasksTogether(nodes: set<Node>, creates: map<TaskName, Task>, waits: map<TaskName, Task>,
                      deletes: map<TaskName, Task>)
    requires Lists(creates, nodes, CREATE) && Lists(waits, nodes, WAIT) && Lists(deletes, nodes, DELETE)
    ensures AllTasks(map[] + creates + waits + deletes, nodes)
  {
    var tasks := map[] + creates + waits + deletes;
    forall t ensures t in tasks <==> t.node in nodes {
      KeysTogether(creates, waits, deletes, t);
    }
  }

  lemma KeysTogether(fs: map<TaskName, Task>, gs: map<TaskName, Task>, hs: map<TaskName, Task>, t: TaskName)
    ensures t in map[] + fs + gs + hs <==> t in fs || t in gs || t in hs
  {
  }

  // Each node has its create, wait and delete task, and there are no others.
  ghost predicate AllTasks(tasks: map<TaskName, Task>, nodes: set<Node>) {
    && (forall t :: t in tasks <==> t.node in nodes)
    && (forall t | t in tasks :: tasks[t] == TaskOf(t))
  }
}
