// The MEA tables and the transactions that change them (apmec/db/mem/mem_db.py).
// Every block run inside one session.begin is a single atomic operation on `Tables`.
// The class `MeaDb` performs the operations in place; the functions say what they amount to.
module MeaTable {
  import opened Wrappers
  import opened Text

  type MeaId = nat
  type StackId = nat
  type Attributes = map<string, string>

  datatype Status =
    | ACTIVE
    | DOWN
    | INACTIVE
    | PENDING_CREATE
    | PENDING_UPDATE
    | PENDING_DELETE
    | PENDING_SCALE_IN
    | PENDING_SCALE_OUT
    | DEAD
    | ERROR

  const ACTIVE_UPDATE: set<Status> := {ACTIVE, PENDING_UPDATE}
  const ACTIVE_UPDATE_ERROR_DEAD: set<Status> := {PENDING_CREATE, ACTIVE, PENDING_UPDATE, ERROR, DEAD}
  const CREATE_STATES: set<Status> := {PENDING_CREATE, DEAD}
  const NOT_MARKED_DEAD: set<Status> :=
    {DOWN, PENDING_CREATE, PENDING_UPDATE, PENDING_DELETE, INACTIVE, ERROR}

  // The caller's context: queries of a caller who is not an administrator see one tenant.
  datatype Context = Context(isAdmin: bool, tenant: nat)

  const ADMIN := Context(true, 0)

  // datetime.min, the deleted_at of every live row.
  const NEVER: nat := 0

  datatype Row = Row(
    tenant: nat,
    name: string,
    status: Status,
    instance: Option<StackId>,
    mgmtUrl: Option<string>,
    errorReason: Option<string>,
    deletedAt: nat)

  datatype Tables = Tables(mea: map<MeaId, Row>, attr: map<MeaId, Attributes>)

  datatype DbError = NotFound | InUse

  predicate Live(row: Row) {
    row.deletedAt == NEVER
  }

  // What _model_query lets a caller see.
  predicate Visible(ctx: Context, row: Row) {
    Live(row) && (ctx.isAdmin || row.tenant == ctx.tenant)
  }

  predicate Sees(t: Tables, ctx: Context, id: MeaId) {
    id in t.mea && Visible(ctx, t.mea[id])
  }

  predicate Matches(t: Tables, ctx: Context, id: MeaId, statuses: set<Status>) {
    Sees(t, ctx, id) && t.mea[id].status in statuses
  }

  function AttributesOf(t: Tables, id: MeaId): Attributes {
    if id in t.attr then t.attr[id] else map[]
  }

  predicate MentionsVimAuth(key: string) {
    Contains(key, "vim_auth")
  }

  // The entries of a dictionary that may be written to the attribute table.
  function Storable(dict: Attributes): Attributes {
    map k | k in dict && !MentionsVimAuth(k) :: dict[k]
  }

  function Pruned(stored: Attributes, dict: Attributes): Attributes {
    map k | k in stored && k in dict :: stored[k]
  }

  // ---- What each transaction amounts to ----

  function SetRow(t: Tables, id: MeaId, row: Row): Tables {
    t.(mea := t.mea[id := row])
  }

  function SetAttributes(t: Tables, id: MeaId, attributes: Attributes): Tables {
    t.(attr := t.attr[id := attributes])
  }

  // A live row of the tenant has the name already.
  predicate Taken(t: Tables, tenant: nat, name: string) {
    exists id | id in t.mea :: Live(t.mea[id]) && t.mea[id].tenant == tenant && t.mea[id].name == name
  }

  function NewRow(tenant: nat, name: string): Row {
    Row(tenant, name, PENDING_CREATE, None, None, None, NEVER)
  }

  // The unique constraint on tenant, name and deletion time refuses a name that is taken.
  function CreatePre(t: Tables, id: MeaId, tenant: nat, name: string, attributes: Attributes): Option<Tables> {
    if Taken(t, tenant, name) then None
    else Some(Tables(t.mea[id := NewRow(tenant, name)], t.attr[id := attributes]))
  }

  function CreatePost(t: Tables, ctx: Context, id: MeaId, instance: Option<StackId>,
                      mgmtUrl: Option<string>, dictStatus: Status, dict: Attributes): Option<Tables>
  {
    if !Matches(t, ctx, id, CREATE_STATES) then None
    else
      var row := PostedRow(t.mea[id], instance, mgmtUrl, dictStatus);
      Some(SetAttributes(SetRow(t, id, row), id, AttributesOf(t, id) + Storable(dict)))
  }

  function PostedRow(row: Row, instance: Option<StackId>, mgmtUrl: Option<string>, dictStatus: Status): Row {
    row.(instance := instance, mgmtUrl := mgmtUrl,
         status := if instance.None? || dictStatus == ERROR then ERROR else row.status)
  }

  function CreateStatus(t: Tables, ctx: Context, id: MeaId, newStatus: Status): Option<Tables> {
    if !Matches(t, ctx, id, CREATE_STATES) then None
    else Some(SetRow(t, id, t.mea[id].(status := newStatus)))
  }

  // _get_mea_db: PENDING_UPDATE is refused even where the list of statuses allows it.
  function Claim(t: Tables, ctx: Context, id: MeaId, statuses: set<Status>, newStatus: Status)
    : Result<Tables, DbError>
  {
    if !Matches(t, ctx, id, statuses) then Failure(NotFound)
    else if t.mea[id].status == PENDING_UPDATE then Failure(InUse)
    else Success(SetRow(t, id, t.mea[id].(status := newStatus)))
  }

  function UpdatePre(t: Tables, ctx: Context, id: MeaId): Result<Tables, DbError> {
    Claim(t, ctx, id, ACTIVE_UPDATE, PENDING_UPDATE)
  }

  function DeletePre(t: Tables, ctx: Context, id: MeaId): Result<Tables, DbError> {
    Claim(t, ctx, id, ACTIVE_UPDATE_ERROR_DEAD, PENDING_DELETE)
  }

  function ScalingStatus(t: Tables, ctx: Context, id: MeaId, previous: set<Status>, newStatus: Status,
                         mgmtUrl: Option<string>): Result<Tables, DbError>
  {
    match Claim(t, ctx, id, previous, newStatus)
    case Failure(e) => Failure(e)
    case Success(t') =>
      if mgmtUrl.None? then Success(t')
      else Success(SetRow(t', id, t'.mea[id].(mgmtUrl := mgmtUrl)))
  }

  // The status is guarded, the attribute rows are not.
  function UpdatePost(t: Tables, ctx: Context, id: MeaId, newStatus: Status, dict: Attributes): Tables {
    var t' := if Matches(t, ctx, id, {PENDING_UPDATE})
              then SetRow(t, id, t.mea[id].(status := newStatus)) else t;
    SetAttributes(t', id, Pruned(AttributesOf(t, id), dict) + Storable(dict))
  }

  function DeletePost(t: Tables, ctx: Context, id: MeaId, error: bool, now: nat): Tables {
    if !Matches(t, ctx, id, {PENDING_DELETE}) then t
    else if error then SetRow(t, id, t.mea[id].(status := ERROR))
    else SetRow(t, id, t.mea[id].(deletedAt := now))
  }

  function SetErrorReason(t: Tables, ctx: Context, id: MeaId, reason: string): Tables {
    if Sees(t, ctx, id) then SetRow(t, id, t.mea[id].(errorReason := Some(reason))) else t
  }

  function MarkStatus(t: Tables, id: MeaId, exclude: set<Status>, newStatus: Status): Option<Tables> {
    if Sees(t, ADMIN, id) && t.mea[id].status !in exclude
    then Some(SetRow(t, id, t.mea[id].(status := newStatus))) else None
  }

  function MarkDead(t: Tables, id: MeaId): Option<Tables> {
    MarkStatus(t, id, NOT_MARKED_DEAD, DEAD)
  }

  // ---- The transactions themselves ----

  lemma Overwrite<K, V>(m: map<K, V>, k: K, v: V, w: V)
    ensures m[k := v][k := w] == m[k := w]
  {
  }

  // The storable entries outside todo are written over the rows there were.
  ghost predicate Stored(before: Attributes, dict: Attributes, todo: set<string>, stored: Attributes) {
    && (forall k :: k in stored <==> k in before || (k in dict && k !in todo && !MentionsVimAuth(k)))
    && (forall k | k in stored ::
          stored[k] == if k in dict && k !in todo && !MentionsVimAuth(k) then dict[k] else before[k])
  }

  lemma StoreOne(before: Attributes, dict: Attributes, todo: set<string>, stored: Attributes, key: string)
    requires Stored(before, dict, todo, stored) && key in todo && key in dict
    ensures Stored(before, dict, todo - {key}, if MentionsVimAuth(key) then stored else stored[key := dict[key]])
  {
  }

  lemma StoredAll(before: Attributes, dict: Attributes, stored: Attributes)
    requires Stored(before, dict, {}, stored)
    ensures stored == before + Storable(dict)
  {
  }

  class MeaDb {
    var mea: map<MeaId, Row>
    var attr: map<MeaId, Attributes>

    function Contents(): Tables
      reads this
    {
      Tables(mea, attr)
    }

    constructor ()
      ensures Contents() == Tables(map[], map[])
    {
      mea, attr := map[], map[];
    }

    // One row of the attribute table per storable entry, in any order.
    method StoreAttributes(id: MeaId, dict: Attributes)
      modifies this`attr
      ensures Contents() == SetAttributes(old(Contents()), id, AttributesOf(old(Contents()), id) + Storable(dict))
    {
      var stored := if id in attr then attr[id] else map[];
      ghost var before := stored;
      var todo := dict.Keys;
      while todo != {}
        invariant todo <= dict.Keys && Stored(before, dict, todo, stored) && attr == old(attr)
      {
        var key :| key in todo;
        StoreOne(before, dict, todo, stored, key);
        if !MentionsVimAuth(key) {
          stored := stored[key := dict[key]];
        }
        todo := todo - {key};
      }
      StoredAll(before, dict, stored);
      attr := attr[id := stored];
    }

    // Refuses a duplicate.
    method CreateMeaPre(id: MeaId, tenant: nat, name: string, attributes: Attributes) returns (ok: bool)
      requires id !in mea && id !in attr
      modifies this
      ensures var r := CreatePre(old(Contents()), id, tenant, name, attributes);
              ok == r.Some? && Contents() == if ok then r.value else old(Contents())
    {
      if exists other | other in mea :: Live(mea[other]) && mea[other].tenant == tenant && mea[other].name == name {
        return false;
      }
      mea := mea[id := Row(tenant, name, PENDING_CREATE, None, None, None, NEVER)];
      var rows := map[];
      var todo := attributes.Keys;
      while todo != {}
        invariant todo <= attributes.Keys
        invariant rows == map k | k in attributes && k !in todo :: attributes[k]
      {
        var key :| key in todo;
        rows := rows[key := attributes[key]];
        todo := todo - {key};
      }
      assert rows == attributes;
      attr := attr[id := rows];
      return true;
    }

    method CreateMeaPost(ctx: Context, id: MeaId, instance: Option<StackId>, mgmtUrl: Option<string>,
                         dictStatus: Status, dict: Attributes) returns (ok: bool)
      modifies this
      ensures var r := CreatePost(old(Contents()), ctx, id, instance, mgmtUrl, dictStatus, dict);
              ok == r.Some? && Contents() == if ok then r.value else old(Contents())
    {
      if id !in mea || !Visible(ctx, mea[id]) || mea[id].status !in CREATE_STATES {
        return false;
      }
      mea := mea[id := mea[id].(instance := instance, mgmtUrl := mgmtUrl)];
      if instance.None? || dictStatus == ERROR {
        mea := mea[id := mea[id].(status := ERROR)];
      }
      assert mea == old(mea)[id := PostedRow(old(mea)[id], instance, mgmtUrl, dictStatus)];
      StoreAttributes(id, dict);
      return true;
    }

    method CreateMeaStatus(ctx: Context, id: MeaId, newStatus: Status) returns (ok: bool)
      modifies this
      ensures var r := CreateStatus(old(Contents()), ctx, id, newStatus);
              ok == r.Some? && Contents() == if ok then r.value else old(Contents())
    {
      if id !in mea || !Visible(ctx, mea[id]) || mea[id].status !in CREATE_STATES {
        return false;
      }
      mea := mea[id := mea[id].(status := newStatus)];
      return true;
    }

    method GetMeaDb(ctx: Context, id: MeaId, statuses: set<Status>, newStatus: Status)
      returns (error: Option<DbError>)
      modifies this`mea
      ensures var r := Claim(old(Contents()), ctx, id, statuses, newStatus);
              match error
              case None => r == Success(Contents())
              case Some(e) => r == Failure(e) && Contents() == old(Contents())
    {
      if id !in mea || !Visible(ctx, mea[id]) || mea[id].status !in statuses {
        return Some(NotFound);
      }
      if mea[id].status == PENDING_UPDATE {
        return Some(InUse);
      }
      mea := mea[id := mea[id].(status := newStatus)];
      return None;
    }

    method UpdateMeaScalingStatus(ctx: Context, id: MeaId, previous: set<Status>, newStatus: Status,
                                  mgmtUrl: Option<string>) returns (error: Option<DbError>)
      modifies this`mea
      ensures var r := ScalingStatus(old(Contents()), ctx, id, previous, newStatus, mgmtUrl);
              match error
              case None => r == Success(Contents())
              case Some(e) => r == Failure(e) && Contents() == old(Contents())
    {
      error := GetMeaDb(ctx, id, previous, newStatus);
      if error.None? && mgmtUrl.Some? {
        mea := mea[id := mea[id].(mgmtUrl := mgmtUrl)];
      }
    }

    // Deletes the attribute rows whose key the dictionary lacks.
    method PruneAttributes(id: MeaId, dict: Attributes)
      modifies this`attr
      ensures Contents() == SetAttributes(old(Contents()), id, Pruned(AttributesOf(old(Contents()), id), dict))
    {
      var before := if id in attr then attr[id] else map[];
      var kept := before;
      var todo := before.Keys;
      while todo != {}
        invariant todo <= before.Keys
        invariant kept == map k | k in before && (k in todo || k in dict) :: before[k]
      {
        var key :| key in todo;
        if key !in dict {
          kept := kept - {key};
        }
        todo := todo - {key};
      }
      assert kept == Pruned(before, dict);
      attr := attr[id := kept];
    }

    // The attribute rows are pruned and rewritten whether or not the guarded update matched.
    method UpdateMeaPost(ctx: Context, id: MeaId, newStatus: Status, dict: Attributes)
      modifies this
      ensures Contents() == UpdatePost(old(Contents()), ctx, id, newStatus, dict)
    {
      if id in mea && Visible(ctx, mea[id]) && mea[id].status == PENDING_UPDATE {
        mea := mea[id := mea[id].(status := newStatus)];
      }
      ghost var stored := old(attr);
      ghost var pruned := Pruned(AttributesOf(old(Contents()), id), dict);
      PruneAttributes(id, dict);
      ghost var between := attr;
      StoreAttributes(id, dict);
      assert attr == between[id := pruned + Storable(dict)];
      Overwrite(stored, id, pruned, pruned + Storable(dict));
    }

    method DeleteMeaPost(ctx: Context, id: MeaId, error: bool, now: nat)
      modifies this`mea
      ensures Contents() == DeletePost(old(Contents()), ctx, id, error, now)
    {
      if id in mea && Visible(ctx, mea[id]) && mea[id].status == PENDING_DELETE {
        if error {
          mea := mea[id := mea[id].(status := ERROR)];
        } else {
          mea := mea[id := mea[id].(deletedAt := now)];
        }
      }
    }

    method SetMeaErrorStatusReason(ctx: Context, id: MeaId, reason: string)
      modifies this`mea
      ensures Contents() == SetErrorReason(old(Contents()), ctx, id, reason)
    {
      if id in mea && Visible(ctx, mea[id]) {
        mea := mea[id := mea[id].(errorReason := Some(reason))];
      }
    }

    method MarkMeaStatus(id: MeaId, exclude: set<Status>, newStatus: Status) returns (marked: bool)
      modifies this`mea
      ensures var r := MarkStatus(old(Contents()), id, exclude, newStatus);
              marked == r.Some? && Contents() == if marked then r.value else old(Contents())
    {
      if id !in mea || !Visible(ADMIN, mea[id]) || mea[id].status in exclude {
        return false;
      }
      mea := mea[id := mea[id].(status := newStatus)];
      return true;
    }
  }
}
