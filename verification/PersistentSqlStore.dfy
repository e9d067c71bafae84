/** The encrypted store of SQL plans: a table of rows, each operation one transaction. Its decoded
    table behaves as the specification of the in-memory store. */
module PersistentSqlStores {
  import opened Common
  import opened WritePlans
  import opened SqlPlans
  import JavaText

  // ----------------------------------------------------------------- queries

  const MAX_SQL := 16_384
  const MAX_ROWS := 100_000

  predicate BadControl(c: char) {
    c < ' ' && c != '\n' && c != '\r' && c != '\t'
  }

  function StripText(s: string): string {
    JavaText.StripWith(s, JavaText.IsPythonSpace)
  }

  /** `DatabaseQuery.model_validate`: the text is checked and stripped. */
  function Validated(sql: string, limit: int): Option<Query> {
    var stripped := StripText(sql);
    if !(1 <= |sql| <= MAX_SQL) || !(1 <= limit <= MAX_ROWS) || stripped == []
       || exists i :: 0 <= i < |stripped| && BadControl(stripped[i])
    then None
    else Some(Query(stripped, limit))
  }

  /** A query that validation leaves as it is. */
  predicate QueryOk(q: Query) {
    Validated(q.sql, q.limit) == Some(q)
  }

  lemma {:induction false} StripTwice(s: string, space: char -> bool)
    ensures JavaText.StripWith(JavaText.StripWith(s, space), space) == JavaText.StripWith(s, space)
  {
    if s != [] {
      if space(s[0]) {
        StripTwice(s[1..], space);
      } else if space(s[|s| - 1]) {
        StripTwice(s[..|s| - 1], space);
      }
    }
  }

  /** Every validated query can be stored: validating it once more changes nothing. */
  lemma ValidationIsStable(sql: string, limit: int)
    requires Validated(sql, limit).Some?
    ensures QueryOk(Validated(sql, limit).value)
  {
    StripTwice(sql, JavaText.IsPythonSpace);
    JavaText.StripShrinks(sql, JavaText.IsPythonSpace);
  }

  /** A query passes exactly when its text has 1 to 16384 characters, not all of them white space, and no control
      character but line ends and tabs between the first and the last that is not, and its limit is 1 to 100000.
      It keeps the limit and the text without the white space at its ends. */
  lemma ValidatedExactly(sql: string, limit: int) returns (i: nat)
    ensures Validated(sql, limit).Some? <==>
              && 1 <= |sql| <= 16_384 && 1 <= limit <= 100_000
              && (exists k :: 0 <= k < |sql| && !JavaText.IsPythonSpace(sql[k]))
              && i + |StripText(sql)| <= |sql| && StripText(sql) == sql[i..i + |StripText(sql)|]
              && forall k :: i <= k < i + |StripText(sql)| ==> sql[k] as int >= 0x20 || sql[k] as int in {9, 10, 13}
    ensures Validated(sql, limit).Some? ==>
              && Validated(sql, limit).value == Query(StripText(sql), limit)
              && (forall k :: 0 <= k < i || i + |StripText(sql)| <= k < |sql| ==> JavaText.IsPythonSpace(sql[k]))
              && !JavaText.IsPythonSpace(StripText(sql)[0]) && !JavaText.IsPythonSpace(StripText(sql)[|StripText(sql)| - 1])
  {
    i := JavaText.StripTakesEnds(sql, JavaText.IsPythonSpace);
    hide JavaText.IsPythonSpace, JavaText.StripWith;
    var v := StripText(sql);
    assert v == sql[i..i + |v|];
    assert (exists k :: 0 <= k < |v| && BadControl(v[k])) <==> exists k :: i <= k < i + |v| && BadControl(sql[k]) by {
      if k :| 0 <= k < |v| && BadControl(v[k]) {
        assert sql[i + k] == v[k];
      }
      if k :| i <= k < i + |v| && BadControl(sql[k]) {
        assert v[k - i] == sql[k];
      }
    }
  }

  // -------------------------------------------------------------------- rows

  /** `parameters` is what plans of earlier versions carried besides. */
  datatype Payload = Payload(sql: string, limit: int, parameters: Option<seq<string>>)

  /** `_aad`: the columns bound to the ciphertext. */
  datatype Metadata = Metadata(planId: PlanId, digest: SqlDigest, environment: Environment, expiresAt: real, status: SqlStatus)

  /** A ciphertext opens only under the key, nonce and associated data it was made with. */
  datatype Sealed = Sealed(key: nat, nonce: nat, metadata: Metadata, payload: Payload)

  datatype Row = Row(metadata: Metadata, nonce: nat, payload: Sealed)

  function MetadataOf(p: SqlPlan): Metadata {
    Metadata(p.id, p.digest, p.environment, p.expiresAt, p.status)
  }

  /** `_encrypt`, with the columns that go beside the ciphertext. */
  function Encode(key: nat, nonce: nat, p: SqlPlan): Row {
    Row(MetadataOf(p), nonce, Sealed(key, nonce, MetadataOf(p), Payload(p.query.sql, p.query.limit, None)))
  }

  function Decode(key: nat, row: Row): Option<SqlPlan> {
    if row.payload.key != key || row.payload.nonce != row.nonce || row.payload.metadata != row.metadata then None
    else
      var m, x := row.metadata, row.payload.payload;
      var query := Validated(x.sql, x.limit);
      if query.None? || (x.parameters.Some? && x.parameters.value != []) then None
      else Some(SqlPlan(m.planId, m.digest, m.environment, query.value, m.expiresAt, m.status))
  }

  /** A row opens only under the store's key, with the nonce and the columns it was sealed with, and a valid
      query in it; parameters of earlier versions are refused unless there are none. */
  lemma RowOpensExactly(key: nat, row: Row)
    ensures Decode(key, row).Some? <==>
              && row.payload.key == key && row.payload.nonce == row.nonce && row.payload.metadata == row.metadata
              && Validated(row.payload.payload.sql, row.payload.payload.limit).Some?
              && (row.payload.payload.parameters == None || row.payload.payload.parameters == Some([]))
    ensures Decode(key, row).Some? ==>
              var p := Decode(key, row).value;
              && p.id == row.metadata.planId && p.digest == row.metadata.digest && p.environment == row.metadata.environment
              && p.expiresAt == row.metadata.expiresAt && p.status == row.metadata.status
              && Some(p.query) == Validated(row.payload.payload.sql, row.payload.payload.limit)
  {
    hide Validated;
  }

  /** A plan survives storage exactly when its query is a validated one. */
  lemma StoredSqlPlanDecodesToItself(key: nat, nonce: nat, p: SqlPlan)
    ensures Decode(key, Encode(key, nonce, p)) == Some(p) <==> QueryOk(p.query)
  {
    hide Validated;
  }

  /** Whatever decodes can be stored again unchanged: reading and rewriting a row, also one of an
      earlier version, loses nothing of the plan. */
  lemma DecodedPlanIsStorable(key: nat, nonce: nat, row: Row)
    requires Decode(key, row).Some?
    ensures Decode(key, Encode(key, nonce, Decode(key, row).value)) == Decode(key, row)
  {
    hide Validated;
    ValidationIsStable(row.payload.payload.sql, row.payload.payload.limit);
    StoredSqlPlanDecodesToItself(key, nonce, Decode(key, row).value);
  }

  // ------------------------------------------------------------------- store

  class PersistentSqlQueryPlanStore {
    const key: nat
    const ttl: real
    const maxPending: nat
    var rows: map<PlanId, Row>

    /** Every row decodes, to the plan of its id. */
    ghost predicate Valid()
      reads this
    {
      TableValid(rows)
    }

    ghost predicate TableValid(table: map<PlanId, Row>) {
      forall id :: id in table ==> RowValid(id, table[id])
    }

    ghost predicate RowValid(id: PlanId, row: Row) {
      row.metadata.planId == id && Decode(key, row).Some?
    }

    function Plans(table: map<PlanId, Row>): SqlStore
      requires TableValid(table)
    {
      map id | id in table :: Decode(key, table[id]).value
    }

    function Contents(): SqlStore
      requires Valid()
      reads this
    {
      Plans(rows)
    }

    function Unexpired(table: map<PlanId, Row>, now: real): map<PlanId, Row> {
      map id | id in table && table[id].metadata.expiresAt > now :: table[id]
    }

    /** The count over the status column. */
    function PendingRows(table: map<PlanId, Row>): nat {
      |set x | x in table && (table[x].metadata.status == SqlPending || table[x].metadata.status == Executing)|
    }

    lemma PendingRowsAgree(table: map<PlanId, Row>)
      requires TableValid(table)
      ensures PendingRows(table) == |SqlActiveIds(Plans(table))|
    {
      var active := set x | x in table && (table[x].metadata.status == SqlPending || table[x].metadata.status == Executing);
      forall x | x in table
        ensures x in active <==> x in SqlActiveIds(Plans(table))
      {
        assert RowValid(x, table[x]);
      }
      assert active == SqlActiveIds(Plans(table));
    }

    lemma UnexpiredRows(table: map<PlanId, Row>, now: real)
      requires TableValid(table)
      ensures TableValid(Unexpired(table, now)) && Plans(Unexpired(table, now)) == PurgeSql(Plans(table), now)
    {
    }

    lemma AddedRow(table: map<PlanId, Row>, id: PlanId, row: Row)
      requires TableValid(table) && RowValid(id, row)
      ensures TableValid(table[id := row]) && Plans(table[id := row]) == Plans(table)[id := Decode(key, row).value]
    {
    }

    /** The columns used in SQL conditions agree with the decoded plans, all of which can be stored. */
    lemma ColumnsAgree()
      requires Valid()
      ensures forall id :: id in rows ==>
                && Contents()[id].expiresAt == rows[id].metadata.expiresAt
                && Contents()[id].status == rows[id].metadata.status
                && Contents()[id].id == id
                && QueryOk(Contents()[id].query)
    {
      hide Validated, QueryOk;
      forall id | id in rows
        ensures QueryOk(Contents()[id].query)
      {
        ValidationIsStable(rows[id].payload.payload.sql, rows[id].payload.payload.limit);
      }
    }

    constructor (key: nat, ttl: real, maxPending: nat)
      ensures Valid() && Contents() == map[]
      ensures this.key == key && this.ttl == ttl && this.maxPending == maxPending
    {
      this.key, this.ttl, this.maxPending := key, ttl, maxPending;
      rows := map[];
    }

    /** On any error the whole transaction is undone, the purge included. */
    method Create(id: PlanId, environment: Environment, query: Query, purgeAt: real, stampAt: real, nonce: nat, available: bool)
      returns (r: Result<SqlPlan, StoreError>)
      requires Valid() && id !in rows && QueryOk(query)
      modifies this
      ensures Valid()
      ensures var spec := CreateSql(old(Contents()), id, environment, query, purgeAt, stampAt, ttl, maxPending);
              && r == (if available then spec.1 else Err(PersistenceFailed))
              && Contents() == if r.Err? then old(Contents()) else spec.0
    {
      hide Encode, Decode, QueryOk;
      if !available {
        return Err(PersistenceFailed);
      }
      var table := Unexpired(rows, purgeAt);
      UnexpiredRows(rows, purgeAt);
      PendingRowsAgree(table);
      if PendingRows(table) >= maxPending {
        return Err(CapacityReached);
      }
      var plan := SqlPlan(id, SqlDigest(environment, query), environment, query, stampAt + ttl, SqlPending);
      EncodedRowIsValid(nonce, plan);
      AddedRow(table, id, Encode(key, nonce, plan));
      rows := table[id := Encode(key, nonce, plan)];
      return Ok(plan);
    }

    lemma EncodedRowIsValid(nonce: nat, p: SqlPlan)
      requires QueryOk(p.query)
      ensures RowValid(p.id, Encode(key, nonce, p)) && Decode(key, Encode(key, nonce, p)) == Some(p)
    {
      hide QueryOk;
      StoredSqlPlanDecodesToItself(key, nonce, p);
    }

    /** `_required`; the row it drops on expiry is what gets committed. */
    method Find(id: PlanId, now: Option<real>) returns (r: Result<SqlPlan, StoreError>)
      requires Valid()
      modifies this
      ensures Valid()
      ensures now.Some? ==> (Contents(), r) == LookupSql(old(Contents()), id, now.value)
      ensures now.None? ==> rows == old(rows) && r == (if id in old(rows) then Ok(old(Contents())[id]) else Err(NotFound))
    {
      hide Validated;
      if id !in rows {
        return Err(NotFound);
      }
      var plan := Decode(key, rows[id]).value;
      if now.Some? && plan.expiresAt <= now.value {
        rows := rows - {id};
        assert Contents() == old(Contents()) - {id};
        return Err(Expired);
      }
      return Ok(plan);
    }

    /** `_update` */
    method Update(plan: SqlPlan, nonce: nat)
      requires Valid() && plan.id in rows && QueryOk(plan.query)
      modifies this
      ensures Valid() && Contents() == old(Contents())[plan.id := plan]
    {
      hide Decode, Encode, QueryOk;
      EncodedRowIsValid(nonce, plan);
      AddedRow(rows, plan.id, Encode(key, nonce, plan));
      rows := rows[plan.id := Encode(key, nonce, plan)];
    }

    method Acquire(id: PlanId, digest: SqlDigest, environment: Environment, now: real, nonce: nat, available: bool)
      returns (r: Result<SqlPlan, StoreError>)
      requires Valid()
      modifies this
      ensures Valid()
      ensures available ==> (Contents(), r) == AcquireSql(old(Contents()), id, digest, environment, now)
      ensures !available ==> rows == old(rows) && r == Err(PersistenceFailed)
    {
      hide Decode, Encode, QueryOk;
      if !available {
        return Err(PersistenceFailed);
      }
      ColumnsAgree();
      var found := Find(id, Some(now));
      if found.Err? {
        return found;
      }
      var plan := found.value;
      if plan.environment != environment || plan.digest != digest {
        return Err(Mismatch);
      }
      if plan.status != SqlPending {
        return Err(WrongState);
      }
      Update(plan.(status := Executing), nonce);
      return Ok(plan.(status := Executing));
    }

    /** `_transition`: `complete` and `fail`, which do not look at the expiry. */
    method Transition(id: PlanId, status: SqlStatus, nonce: nat, available: bool) returns (r: Result<(), StoreError>)
      requires Valid()
      modifies this
      ensures Valid()
      ensures available ==> (Contents(), r) == Leave(old(Contents()), id, status)
      ensures !available ==> rows == old(rows) && r == Err(PersistenceFailed)
    {
      hide Decode, Encode, QueryOk;
      if !available {
        return Err(PersistenceFailed);
      }
      ColumnsAgree();
      var found := Find(id, None);
      if found.Err? {
        return Err(found.error);
      }
      if found.value.status != Executing {
        return Err(WrongState);
      }
      Update(found.value.(status := status), nonce);
      return Ok(());
    }

    method Cancel(id: PlanId, environment: Environment, now: real, nonce: nat, available: bool)
      returns (r: Result<SqlPlan, StoreError>)
      requires Valid()
      modifies this
      ensures Valid()
      ensures available ==> (Contents(), r) == CancelSql(old(Contents()), id, environment, now)
      ensures !available ==> rows == old(rows) && r == Err(PersistenceFailed)
    {
      hide Decode, Encode, QueryOk;
      if !available {
        return Err(PersistenceFailed);
      }
      ColumnsAgree();
      var found := Find(id, Some(now));
      if found.Err? {
        return found;
      }
      if found.value.environment != environment {
        return Err(Mismatch);
      }
      if found.value.status != SqlPending {
        return Err(WrongState);
      }
      Update(found.value.(status := SqlCancelled), nonce);
      return Ok(found.value.(status := SqlCancelled));
    }

    /** `_initialize` on an existing database. */
    method Initialize(now: real, recover: bool, nonce: PlanId -> nat)
      requires Valid()
      modifies this
      ensures Valid() && Contents() == OpenSql(old(Contents()), now, recover)
    {
      hide Decode, Encode, QueryOk;
      UnexpiredRows(rows, now);
      rows := Unexpired(rows, now);
      if recover {
        ColumnsAgree();
        var interrupted := set id | id in rows && rows[id].metadata.status == Executing;
        ResetAll(interrupted, nonce);
      }
    }

    /** The recovery loop over the rows selected by their status column. */
    method ResetAll(ids: set<PlanId>, nonce: PlanId -> nat)
      requires Valid() && ids <= rows.Keys
      modifies this
      ensures Valid() && Contents() == ResetIn(old(Contents()), ids)
    {
      hide Decode, Encode, QueryOk;
      ghost var before := Contents();
      var rest := ids;
      while rest != {}
        invariant Valid() && rest <= ids && ids <= before.Keys
        invariant Contents() == ResetIn(before, ids - rest)
      {
        var id :| id in rest;
        ColumnsAgree();
        var plan := Decode(key, rows[id]).value;
        Update(plan.(status := SqlPending), nonce(id));
        rest := rest - {id};
      }
    }

    ghost function ResetIn(s: SqlStore, ids: set<PlanId>): SqlStore {
      map id | id in s :: if id in ids then s[id].(status := SqlPending) else s[id]
    }
  }
}
