// The names under which a network service asks for its MEAs
// (apmec/meo/drivers/workflow/workflow_generator.py, build_input), and the constraint on the
// names of MEAs that they meet (apmec/db/mem/mem_db.py).
module NsNames {
  import opened Wrappers
  import Workflow
  import opened MeaTable
  import opened Lifecycle
  import opened NoResurrection

  type Requests = map<Workflow.Node, Workflow.MeaRequest>

  ghost predicate DistinctNames(requests: Requests) {
    forall n, n' | n in requests && n' in requests && n != n' :: requests[n].name != requests[n'].name
  }

  // No two nodes are of the same MEAD, by the id that is printed.
  ghost predicate DistinctMeads(requests: Requests) {
    forall n, n' | n in requests && n' in requests && n != n' ::
      Workflow.IdText(requests[n].meadId) != Workflow.IdText(requests[n'].meadId)
  }

  lemma SameName(id: Option<string>, id': Option<string>, uuid: string)
    ensures Workflow.RequestName(id, uuid) == Workflow.RequestName(id', uuid)
            <==> Workflow.IdText(id) == Workflow.IdText(id')
  {
    Middle("create_mea_", Workflow.IdText(id), uuid);
    Middle("create_mea_", Workflow.IdText(id'), uuid);
  }

  lemma Middle(prefix: string, a: string, uuid: string)
    ensures var s := prefix + a + "_" + uuid;
            |s| == |prefix| + |a| + 1 + |uuid| && s[|prefix|..|s| - 1 - |uuid|] == a
  {
  }

  // The requests of a workflow have different names exactly when no two nodes are of one MEAD.
  lemma RequestNamesDifferExactly(details: Workflow.MeadDetails, vimId: string, params: map<string, Workflow.Params>,
                                  uuid: string, requests: Requests)
    requires Workflow.RequestsFor(details, vimId, params, uuid, requests)
    ensures DistinctNames(requests) <==> DistinctMeads(requests)
  {
    forall n, n' | n in requests && n' in requests
      ensures requests[n].name == requests[n'].name
              <==> Workflow.IdText(requests[n].meadId) == Workflow.IdText(requests[n'].meadId)
    {
      NamedAfterMead(details, vimId, params, uuid, requests, n);
      NamedAfterMead(details, vimId, params, uuid, requests, n');
      SameName(requests[n].meadId, requests[n'].meadId, uuid);
    }
  }

  lemma NamedAfterMead(details: Workflow.MeadDetails, vimId: string, params: map<string, Workflow.Params>, uuid: string,
                       requests: Requests, n: Workflow.Node)
    requires Workflow.RequestsFor(details, vimId, params, uuid, requests) && n in requests
    ensures requests[n].name == Workflow.RequestName(requests[n].meadId, uuid)
  {
    var m :| m in details && n in details[m].instances;
    assert requests[n] == Workflow.NewRequest(details[m], m, vimId, params, uuid);
  }

  // Nodes listed under one MEAD share their name.
  lemma OneMeadOneName(details: Workflow.MeadDetails, vimId: string, params: map<string, Workflow.Params>, uuid: string,
                       requests: Requests, mead: string, n: Workflow.Node, n': Workflow.Node)
    requires Workflow.RequestsFor(details, vimId, params, uuid, requests) && mead in details
    requires n in details[mead].instances && n' in details[mead].instances
    ensures n in requests && n' in requests && requests[n].name == requests[n'].name
  {
    assert n in Workflow.NodesOf(details) && n' in Workflow.NodesOf(details);
  }

  // As long as the MEA of the first is live, whatever runs meanwhile, the database refuses an MEA
  // for the second.
  lemma SecondNodeRefused(s: System, es: seq<Event>, first: MeaId, e: Event)
    requires first in s.tables.mea && first in Run(s, es).tables.mea && Live(Run(s, es).tables.mea[first])
    requires e.CallCreate? && e.tenant == s.tables.mea[first].tenant && e.name == s.tables.mea[first].name
    ensures CreatePre(Run(s, es).tables, e.mea, e.tenant, e.name, e.attributes) == None
    ensures Do(Run(s, es), e) == Run(s, es)
  {
    RunOnward(s, es, first);
    assert Taken(Run(s, es).tables, e.tenant, e.name);
  }

  // Two nodes of one MEAD: the first gets its MEA, the second does not.
  lemma TwoNodesOneMead(uuid: string, requests: Requests)
    requires Workflow.RequestsFor(map["MEAD1" := Workflow.MeadInfo(Some("mead-1"), ["a", "b"])], "vim", map[], uuid,
                                  requests)
    ensures "a" in requests && "b" in requests
    ensures var t := CreatePre(Tables(map[], map[]), 1, 7, requests["a"].name, map[]);
            t.Some? && CreatePre(t.value, 2, 7, requests["b"].name, map[]) == None
  {
    var details := map["MEAD1" := Workflow.MeadInfo(Some("mead-1"), ["a", "b"])];
    assert details["MEAD1"].instances == ["a", "b"];
    assert ["a", "b"][0] == "a" && ["a", "b"][1] == "b";
    OneMeadOneName(details, "vim", map[], uuid, requests, "MEAD1", "a", "b");
    var t := CreatePre(Tables(map[], map[]), 1, 7, requests["a"].name, map[]);
    assert 1 in t.value.mea && Live(t.value.mea[1]);
  }
}
