// What the unique constraint on MEA names amounts to over every run.
module UniqueNames {
  import opened MeaTable
  import opened Lifecycle
  import opened NoResurrection

  predicate SameName(a: Row, b: Row) {
    a.tenant == b.tenant && a.name == b.name
  }

  // No two live rows of a tenant share their name.
  ghost predicate Unique(mea: map<MeaId, Row>) {
    forall i, j | i in mea && j in mea && i != j && Live(mea[i]) && Live(mea[j]) :: !SameName(mea[i], mea[j])
  }

  // A row that appears does so under a name that was free.
  lemma NewNameIsFree(s: System, e: Event, id: MeaId)
    requires id !in s.tables.mea && id in Do(s, e).tables.mea
    ensures var row := Do(s, e).tables.mea[id];
            id == Target(s, e) && !Taken(s.tables, row.tenant, row.name)
  {
    Frame(s, e);
    if e.Step? && e.pid in s.workers {
      var pc := s.workers[e.pid].pc;
      StepAddsNothing(s, e, id);
    }
  }

  lemma StepAddsNothing(s: System, e: Event, id: MeaId)
    requires e.Step? && e.pid in s.workers && id !in s.tables.mea
    ensures id !in Do(s, e).tables.mea
  {
  }

  lemma StepUnique(s: System, e: Event)
    requires Unique(s.tables.mea)
    ensures Unique(Do(s, e).tables.mea)
  {
    var mea, mea' := s.tables.mea, Do(s, e).tables.mea;
    forall i, j | i in mea' && j in mea' && i != j && Live(mea'[i]) && Live(mea'[j])
      ensures !SameName(mea'[i], mea'[j])
    {
      StepOnward(s, e, i);
      StepOnward(s, e, j);
      if i !in mea {
        NewNameIsFree(s, e, i);
        Frame(s, e);
      } else if j !in mea {
        NewNameIsFree(s, e, j);
        Frame(s, e);
      }
    }
  }

  // Whatever runs, names stay unique among the live MEAs of a tenant.
  lemma {:induction false} RunUnique(s: System, es: seq<Event>)
    requires Unique(s.tables.mea)
    ensures Unique(Run(s, es).tables.mea)
    decreases |es|
  {
    if es != [] {
      StepUnique(s, es[0]);
      RunUnique(Do(s, es[0]), es[1..]);
    }
  }
}
