// The record a network service keeps of its MEAs (apmec/db/meo/ns_db.py, create_ns_post), and
// what the delete workflow makes of it.
module NsRecord {
  import opened Wrappers
  import opened Workflow
  import opened WorkflowMeaning
  import MeaTable

  type Output = map<Var, string>

  datatype NsError = BadOutput | NotFound

  // Python's literal_eval on a stripped string; None where it raises.
  type Evaluator = string -> Option<string>

  predicate HasUrl(output: Output, node: Node) {
    Var(MGMT_URL, node) in output
  }

  // An instance with a management url must have an id, and its url must be a literal.
  predicate Readable(output: Output, evaluate: Evaluator, node: Node) {
    HasUrl(output, node) ==> Var(MEA_ID, node) in output && evaluate(output[Var(MGMT_URL, node)]).Some?
  }

  ghost predicate AllReadable(output: Output, evaluate: Evaluator, nodes: set<Node>) {
    forall n | n in nodes :: Readable(output, evaluate, n)
  }

  // Only instances with a management url are recorded.
  function Recorded(output: Output, nodes: set<Node>): map<Node, string> {
    map n | n in nodes && HasUrl(output, n) && Var(MEA_ID, n) in output :: output[Var(MEA_ID, n)]
  }

  ghost predicate Collects(output: Output, evaluate: Evaluator, nodes: set<Node>,
                           ids: map<Node, string>, urls: map<Node, string>) {
    && AllReadable(output, evaluate, nodes)
    && (forall n :: n in ids <==> n in nodes && HasUrl(output, n))
    && (forall n :: n in urls <==> n in nodes && HasUrl(output, n))
    && (forall n | n in ids :: Var(MEA_ID, n) in output && ids[n] == output[Var(MEA_ID, n)])
    && (forall n | n in urls :: evaluate(output[Var(MGMT_URL, n)]) == Some(urls[n]))
  }

  lemma CollectsRecorded(output: Output, evaluate: Evaluator, nodes: set<Node>,
                         ids: map<Node, string>, urls: map<Node, string>)
    requires Collects(output, evaluate, nodes, ids, urls)
    ensures ids == Recorded(output, nodes)
  {
  }

  lemma CollectsMore(output: Output, evaluate: Evaluator, nodes: set<Node>,
                     ids: map<Node, string>, urls: map<Node, string>, node: Node)
    requires Collects(output, evaluate, nodes, ids, urls) && Readable(output, evaluate, node)
    ensures if HasUrl(output, node)
            then Collects(output, evaluate, nodes + {node}, ids[node := output[Var(MEA_ID, node)]],
                          urls[node := evaluate(output[Var(MGMT_URL, node)]).value])
            else Collects(output, evaluate, nodes + {node}, ids, urls)
  {
  }

  lemma NodeListed(details: MeadDetails, mead: string, i: nat)
    requires mead in details && i < |details[mead].instances|
    ensures details[mead].instances[i] in NodesOf(details)
  {
    assert details[mead].instances[i] in details[mead].instances;
  }

  // The loops of create_ns_post.
  method Collect(output: Output, details: MeadDetails, evaluate: Evaluator)
    returns (error: Option<NsError>, ids: map<Node, string>, urls: map<Node, string>)
    ensures error.Some? ==> error.value == BadOutput && !AllReadable(output, evaluate, NodesOf(details))
    ensures error.None? ==> Collects(output, evaluate, NodesOf(details), ids, urls)
  {
    ids, urls := map[], map[];
    var todo := details.Keys;
    ghost var done: set<Node> := {};
    while todo != {}
      invariant todo <= details.Keys && Collects(output, evaluate, done, ids, urls)
      invariant forall n :: n in done <==> exists m | m in details && m !in todo :: n in details[m].instances
    {
      var mead :| mead in todo;
      var nodes := details[mead].instances;
      ghost var start := done;
      for i := 0 to |nodes|
        invariant Collects(output, evaluate, done, ids, urls)
        invariant forall n :: n in done <==> n in start || n in nodes[..i]
      {
        var node := nodes[i];
        NodeListed(details, mead, i);
        if HasUrl(output, node) {
          var url := evaluate(output[Var(MGMT_URL, node)]);
          if url.None? || Var(MEA_ID, node) !in output {
            assert !Readable(output, evaluate, node);
            return Some(BadOutput), map[], map[];
          }
          CollectsMore(output, evaluate, done, ids, urls, node);
          urls := urls[node := url.value];
          ids := ids[node := output[Var(MEA_ID, node)]];
        }
        done := done + {node};
        assert nodes[..i + 1] == nodes[..i] + [node];
      }
      assert nodes[..|nodes|] == nodes;
      todo := todo - {mead};
    }
    assert done == NodesOf(details);
    return None, ids, urls;
  }

  // What is recorded of an output. A workflow without any output leaves no record.
  predicate RecordedAs(output: Output, nodes: set<Node>, record: Option<map<Node, string>>) {
    record == if output == map[] then None else Some(Recorded(output, nodes))
  }

  class NsRow {
    var deleted: bool
    var status: MeaTable.Status
    var meaIds: Option<map<Node, string>>
    var mgmtUrls: Option<map<Node, string>>
    var errorReason: Option<string>

    constructor ()
      ensures !deleted && status == MeaTable.PENDING_CREATE && meaIds == None && mgmtUrls == None && errorReason == None
    {
      deleted, status := false, MeaTable.PENDING_CREATE;
      meaIds, mgmtUrls, errorReason := None, None, None;
    }

    // The status written does not depend on the one before.
    method CreateNsPost(succeeded: bool, output: Output, details: MeadDetails, errorReason: Option<string>,
                        evaluate: Evaluator)
      returns (error: Option<NsError>)
      modifies this
      ensures deleted == old(deleted)
      ensures error.None? <==> !deleted && AllReadable(output, evaluate, NodesOf(details))
      ensures error == Some(NotFound) <==> deleted && AllReadable(output, evaluate, NodesOf(details))
      ensures error.Some? ==> status == old(status) && meaIds == old(meaIds) && mgmtUrls == old(mgmtUrls)
                              && this.errorReason == old(this.errorReason)
      ensures error.None? ==>
                && RecordedAs(output, NodesOf(details), meaIds)
                && (mgmtUrls.Some? <==> meaIds.Some?)
                && (mgmtUrls.Some? ==> Collects(output, evaluate, NodesOf(details), meaIds.value, mgmtUrls.value))
                && status == (if succeeded then MeaTable.ACTIVE else MeaTable.ERROR)
                && this.errorReason == errorReason
    {
      var ids, urls := None, None;
      if output != map[] {
        var failed, someIds, someUrls := Collect(output, details, evaluate);
        if failed.Some? {
          return failed;
        }
        CollectsRecorded(output, evaluate, NodesOf(details), someIds, someUrls);
        ids, urls := Some(someIds), Some(someUrls);
      }
      if deleted {
        return Some(NotFound);
      }
      meaIds := ids;
      mgmtUrls := urls;
      status := if succeeded then MeaTable.ACTIVE else MeaTable.ERROR;
      this.errorReason := errorReason;
      return None;
    }
  }

  // ---- Create, then delete ----

  // The ids of the MEAs that a run of the create workflow has created, by node.
  function CreatedIds(x: Execution, nodes: set<Node>): map<Node, string> {
    map n | n in nodes && Created(x, n) :: x.results[CreateMea(n)].value.id
  }

  // The output of a create workflow names the ids of the MEAs it created.
  ghost predicate Names(output: Output, created: map<Node, string>) {
    forall n | n in created :: Var(MEA_ID, n) in output && output[Var(MEA_ID, n)] == created[n]
  }

  lemma FilledNames(output: Output, x: Execution, nodes: set<Node>)
    requires forall v :: v in output <==> Created(x, v.node)
    requires forall v | v in output :: output[v] == Entry(Source(x, v), v.field)
    requires forall n | Created(x, n) :: n in nodes
    ensures Names(output, CreatedIds(x, nodes))
    ensures forall n :: HasUrl(output, n) <==> n in CreatedIds(x, nodes)
  {
    forall n | n in CreatedIds(x, nodes)
      ensures Var(MEA_ID, n) in output && output[Var(MEA_ID, n)] == CreatedIds(x, nodes)[n]
    {
      assert Source(x, Var(MEA_ID, n)) == x.results[CreateMea(n)].value;
    }
  }

  // It does so after any run, and gives every one of them a URL.
  lemma OutputNames(create: Definition, nodes: set<Node>, steps: seq<Done>)
    requires IsCreateDefinition(create, nodes) && IsRun(create, steps)
    ensures var x := Execute(create, steps);
            && Names(OutputOf(create, x), CreatedIds(x, nodes))
            && forall n :: HasUrl(OutputOf(create, x), n) <==> n in CreatedIds(x, nodes)
  {
    CreateMeaning(create, nodes, steps);
    FilledNames(OutputOf(create, Execute(create, steps)), Execute(create, steps), nodes);
  }

  // Running the definition deletes the MEA with this id for this node: at any point where the
  // node's task may run, it deletes this MEA, and it may run at the start.
  ghost predicate Deletes(def: Definition, node: Node, id: string) {
    && MayRun(def, Execute(def, []), DeleteMea(node))
    && forall steps | IsRun(def, steps) && MayRun(def, Execute(def, steps), DeleteMea(node)) ::
         ActsOn(def, Execute(def, steps), DeleteMea(node), "apmec.delete_mea", id)
  }

  lemma DeletesRecorded(def: Definition, ids: map<Node, string>, node: Node, id: string)
    requires IsDeleteDefinition(def, ids)
    ensures Deletes(def, node, id) <==> node in ids && ids[node] == id
  {
    var t := DeleteMea(node);
    assert IsRun(def, []);
    DeleteMeaning(def, ids, []);
    if node in ids {
      assert ActsOn(def, Execute(def, []), t, ActionOf(t), id) <==> id == ids[node];
      forall steps | ids[node] == id && IsRun(def, steps) && MayRun(def, Execute(def, steps), t)
        ensures ActsOn(def, Execute(def, steps), t, "apmec.delete_mea", id)
      {
        DeleteMeaning(def, ids, steps);
      }
    }
  }

  // The delete workflow deletes nothing that was not created, by one task for each recorded
  // instance, and misses exactly the created MEAs whose management url is not in the output.
  lemma DeletedExactly(def: Definition, output: Output, created: map<Node, string>)
    requires Names(output, created) && IsDeleteDefinition(def, Recorded(output, created.Keys))
    ensures forall n, id :: Deletes(def, n, id) <==> n in created && created[n] == id && HasUrl(output, n)
    ensures forall t :: t in def.tasks <==> t.DeleteMea? && t.node in created && HasUrl(output, t.node)
  {
    var ids := Recorded(output, created.Keys);
    forall n, id ensures Deletes(def, n, id) <==> n in created && created[n] == id && HasUrl(output, n) {
      DeletesRecorded(def, ids, n, id);
    }
  }

  lemma RecordedInFull(nodes: set<Node>, output: Output, created: map<Node, string>)
    requires created.Keys <= nodes && Names(output, created)
    requires forall n :: HasUrl(output, n) <==> n in created
    ensures Recorded(output, nodes) == created == Recorded(output, created.Keys)
  {
  }

  // What a run of the create workflow created is conserved, however far the run has come and
  // whatever failed in it: the record made of its output holds exactly the ids of the MEAs that
  // the creations returned, and there is none if nothing was created. The delete workflow made
  // from the record has one task for each of them and deletes exactly those.
  lemma CreateThenDelete(create: Definition, nodes: set<Node>, steps: seq<Done>, record: Option<map<Node, string>>,
                         delete: Definition)
    requires IsCreateDefinition(create, nodes) && IsRun(create, steps)
    requires RecordedAs(OutputOf(create, Execute(create, steps)), nodes, record)
    requires record.Some? ==> IsDeleteDefinition(delete, record.value)
    ensures var x := Execute(create, steps);
            && (record.None? <==> forall n | n in nodes :: !Created(x, n))
            && (record.Some? ==>
                  && (forall n :: n in record.value <==> n in nodes && Created(x, n))
                  && (forall n | n in record.value :: record.value[n] == x.results[CreateMea(n)].value.id)
                  && (forall n, id :: Deletes(delete, n, id) <==>
                                      n in nodes && Created(x, n) && x.results[CreateMea(n)].value.id == id)
                  && (forall t :: t in delete.tasks <==> t.DeleteMea? && t.node in nodes && Created(x, t.node)))
  {
    var x := Execute(create, steps);
    var output, created := OutputOf(create, x), CreatedIds(x, nodes);
    OutputNames(create, nodes, steps);
    RecordedInFull(nodes, output, created);
    if record.Some? {
      DeletedExactly(delete, output, created);
      assert forall n, id :: Deletes(delete, n, id) <==> n in created && created[n] == id;
    }
    EmptyOutput(create, nodes, steps);
  }

  lemma EmptyOutput(create: Definition, nodes: set<Node>, steps: seq<Done>)
    requires IsCreateDefinition(create, nodes) && IsRun(create, steps)
    ensures OutputOf(create, Execute(create, steps)) == map[] <==>
            forall n | n in nodes :: !Created(Execute(create, steps), n)
  {
    CreateMeaning(create, nodes, steps);
    var output := OutputOf(create, Execute(create, steps));
    if n :| n in nodes && Created(Execute(create, steps), n) {
      assert Var(MEA_ID, n) in output;
    } else {
      assert forall v :: v !in output;
    }
  }

  // ---- An MEA that is lost ----

  const NODE: Node := "MEAD1"

  // create_ns_post itself takes an MEA for created only if there is a management URL: of an output
  // with an id and no URL nothing is recorded, and the delete workflow leaves that MEA alone.
  lemma CreatedMeaLost(def: Definition)
    requires IsDeleteDefinition(def, Recorded(map[Var(MEA_ID, NODE) := "mea-1"], {NODE}))
    ensures Names(map[Var(MEA_ID, NODE) := "mea-1"], map[NODE := "mea-1"])
    ensures !Deletes(def, NODE, "mea-1") && def.tasks == map[]
  {
    var output, created := map[Var(MEA_ID, NODE) := "mea-1"], map[NODE := "mea-1"];
    assert created.Keys == {NODE} && !HasUrl(output, NODE);
    DeletedExactly(def, output, created);
    assert forall t :: t !in def.tasks;
  }
}
