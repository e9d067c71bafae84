/** The encrypted store: one row per plan, its payload sealed together with the row's
    other columns. Authenticated encryption is ideal, a transaction is an assignment of
    the whole table, and JSON objects are typed records written with sorted keys. */
module PersistentWriteStores {
  import opened Common
  import opened WritePolicy
  import opened WritePlans

  // ------------------------------------------------------------- sorted keys

  predicate AtMost(a: string, b: string) {
    || a == ""
    || (b != "" && (a[0] < b[0] || (a[0] == b[0] && AtMost(a[1..], b[1..]))))
  }

  lemma {:induction false} AtMostIsTotal(a: string, b: string)
    ensures AtMost(a, b) || AtMost(b, a)
  {
    if a != "" && b != "" {
      AtMostIsTotal(a[1..], b[1..]);
    }
  }

  lemma {:induction false} AtMostIsTransitive(a: string, b: string, c: string)
    requires AtMost(a, b) && AtMost(b, c)
    ensures AtMost(a, c)
  {
    if a != "" && a[0] == b[0] == c[0] {
      AtMostIsTransitive(a[1..], b[1..], c[1..]);
    }
  }

  ghost predicate Sorted(d: Dict) {
    forall i, j :: 0 <= i < j < |d| ==> AtMost(d[i].0, d[j].0)
  }

  function InsertKey(e: (string, Scalar), d: Dict): Dict {
    if d == [] || AtMost(e.0, d[0].0) then [e] + d else [d[0]] + InsertKey(e, d[1..])
  }

  function SortKeys(d: Dict): Dict {
    if d == [] then [] else InsertKey(d[0], SortKeys(d[1..]))
  }

  lemma {:induction false} InsertKeyPermutes(e: (string, Scalar), d: Dict)
    ensures multiset(InsertKey(e, d)) == multiset(d) + multiset{e}
  {
    if d != [] && !AtMost(e.0, d[0].0) {
      InsertKeyPermutes(e, d[1..]);
      assert d == [d[0]] + d[1..];
    }
  }

  /** A first key that none of the rest precedes. */
  lemma SortedCons(e: (string, Scalar), d: Dict)
    requires Sorted(d) && forall j :: 0 <= j < |d| ==> AtMost(e.0, d[j].0)
    ensures Sorted([e] + d)
  {
  }

  lemma {:induction false} InsertKeySorts(e: (string, Scalar), d: Dict)
    requires Sorted(d)
    ensures Sorted(InsertKey(e, d))
  {
    hide AtMost;
    if d == [] {
    } else if AtMost(e.0, d[0].0) {
      forall j | 0 <= j < |d|
        ensures AtMost(e.0, d[j].0)
      {
        if j > 0 {
          AtMostIsTransitive(e.0, d[0].0, d[j].0);
        }
      }
      SortedCons(e, d);
    } else {
      AtMostIsTotal(e.0, d[0].0);
      InsertKeySorts(e, d[1..]);
      InsertKeyPermutes(e, d[1..]);
      var rest := InsertKey(e, d[1..]);
      forall j | 0 <= j < |rest|
        ensures AtMost(d[0].0, rest[j].0)
      {
        assert rest[j] in multiset(rest);
        assert rest[j] == e || rest[j] in d[1..];
      }
      SortedCons(d[0], rest);
    }
  }

  /** Writing and reading a JSON object with sorted keys reorders its entries, once. */
  lemma {:induction false} SortKeysReorders(d: Dict)
    ensures Sorted(SortKeys(d)) && multiset(SortKeys(d)) == multiset(d)
  {
    if d != [] {
      SortKeysReorders(d[1..]);
      InsertKeySorts(d[0], SortKeys(d[1..]));
      InsertKeyPermutes(d[0], SortKeys(d[1..]));
      assert d == [d[0]] + d[1..];
    }
  }

  /** Sorting the keys of a dictionary keeps the mapping it denotes, and so the digest made of it. */
  lemma SortKeysKeepsMeaning(d: Dict)
    requires DistinctKeys(d)
    ensures DistinctKeys(SortKeys(d)) && Meaning(SortKeys(d)) == Meaning(d)
  {
    hide SortKeys, Meaning;
    SortKeysReorders(d);
    var plain := Text(s => s, s => s == "");
    ReorderedFoldDistinct(plain, SortKeys(d), d);
    SameEntriesSameMeaning(SortKeys(d), d);
  }

  lemma {:induction false} SortKeysOfSorted(d: Dict)
    requires Sorted(d)
    ensures SortKeys(d) == d
  {
    if d != [] {
      SortKeysOfSorted(d[1..]);
    }
  }

  // -------------------------------------------------------------------- rows

  datatype Payload = Payload(
    form: string,
    entryId: Option<string>,
    current: Option<Dict>,
    proposed: Dict,
    reason: string,
    precondition: Option<string>,
    resultStored: bool,
    resultEntryId: Option<string>)

  /** `_aad`: the columns bound to the ciphertext. */
  datatype Metadata = Metadata(
    planId: PlanId, digest: Digest, operation: Operation, environment: Environment, expiresAt: real, status: Status)

  /** A ciphertext opens only under the key, nonce and associated data it was made with. */
  datatype Sealed = Sealed(key: nat, nonce: nat, metadata: Metadata, payload: Payload)

  datatype Row = Row(metadata: Metadata, nonce: nat, payload: Sealed)

  function Decrypt(key: nat, nonce: nat, sealed: Sealed, metadata: Metadata): Option<Payload> {
    if sealed.key == key && sealed.nonce == nonce && sealed.metadata == metadata then Some(sealed.payload) else None
  }

  function SortedOption(d: Option<Dict>): Option<Dict> {
    if d.None? then None else Some(SortKeys(d.value))
  }

  function MetadataOf(p: Plan): Metadata {
    Metadata(p.id, p.digest, p.body.operation, p.body.environment, p.expiresAt, p.status)
  }

  /** `_encrypt`, with the columns that go beside the ciphertext. */
  function Encode(key: nat, nonce: nat, p: Plan): Row {
    Row(MetadataOf(p), nonce, Sealed(key, nonce, MetadataOf(p), Payload(
      p.body.form, p.body.entryId, SortedOption(p.body.current), SortKeys(p.body.proposed), p.body.reason,
      p.body.precondition, p.result.Some?, if p.result.Some? then p.result.value.entryId else None)))
  }

  predicate NamesPresent(d: Dict) {
    forall i :: 0 <= i < |d| ==> d[i].0 != ""
  }

  /** The checks `_required_string`, `_optional_string` and `_validated_values` make on a payload. */
  predicate PayloadValid(x: Payload) {
    && x.form != ""
    && x.entryId != Some("")
    && (x.current.Some? ==> NamesPresent(x.current.value))
    && NamesPresent(x.proposed)
    && x.precondition != Some("")
    && (x.resultStored ==> x.resultEntryId != Some(""))
  }

  /** The result a stored plan is read back with: everything but the entry id comes from the plan. */
  function Restored(id: PlanId, b: Body, entryId: Option<string>): ApplyResult {
    ApplyResult(id, b.operation, b.environment, b.form, Applied, entryId, false)
  }

  function Decode(key: nat, row: Row): Option<Plan> {
    var plain := Decrypt(key, row.nonce, row.payload, row.metadata);
    if plain.None? || !PayloadValid(plain.value) then None
    else
      var m, x := row.metadata, plain.value;
      var body := Body(m.operation, m.environment, x.form, x.entryId, x.current, x.proposed, x.reason, x.precondition);
      Some(Plan(m.planId, m.digest, body, m.expiresAt, m.status,
                if x.resultStored then Some(Restored(m.planId, body, x.resultEntryId)) else None))
  }

  /** The same plan with its dictionaries in key order, which Python's `==` does not distinguish. */
  function CanonicalBody(b: Body): Body {
    b.(current := SortedOption(b.current), proposed := SortKeys(b.proposed))
  }

  function Canonical(p: Plan): Plan {
    p.(body := CanonicalBody(p.body))
  }

  predicate BodyStorable(b: Body) {
    && b.form != "" && b.entryId != Some("") && b.precondition != Some("")
    && (b.current.Some? ==> NamesPresent(b.current.value))
    && NamesPresent(b.proposed)
  }

  predicate ResultStorable(p: Plan) {
    p.result.Some? ==>
      p.result.value.entryId != Some("") && p.result.value == Restored(p.id, p.body, p.result.value.entryId)
  }

  lemma NamesPresentReordered(a: Dict, b: Dict)
    requires multiset(a) == multiset(b)
    ensures NamesPresent(a) ==> NamesPresent(b)
  {
    forall i | 0 <= i < |b|
      ensures exists k :: 0 <= k < |a| && a[k] == b[i]
    {
      assert b[i] in multiset(b);
    }
  }

  /** A plan survives storage exactly when its names, form, ids and precondition are not empty
      and its result, if any, is the one its own fields describe. */
  lemma StoredPlanDecodesToItself(key: nat, nonce: nat, p: Plan)
    ensures Decode(key, Encode(key, nonce, p)) == Some(Canonical(p)) <==> BodyStorable(p.body) && ResultStorable(p)
  {
    SortKeysReorders(p.body.proposed);
    NamesPresentReordered(p.body.proposed, SortKeys(p.body.proposed));
    NamesPresentReordered(SortKeys(p.body.proposed), p.body.proposed);
    if p.body.current.Some? {
      SortKeysReorders(p.body.current.value);
      NamesPresentReordered(p.body.current.value, SortKeys(p.body.current.value));
      NamesPresentReordered(SortKeys(p.body.current.value), p.body.current.value);
    }
  }

  lemma CanonicalIsStable(p: Plan)
    ensures Canonical(Canonical(p)) == Canonical(p)
  {
    SortKeysReorders(p.body.proposed);
    SortKeysOfSorted(SortKeys(p.body.proposed));
    if p.body.current.Some? {
      SortKeysReorders(p.body.current.value);
      SortKeysOfSorted(SortKeys(p.body.current.value));
    }
  }

  /** A row opens exactly under the store's key, with the nonce and the columns it was sealed with, and a payload
      with a form, without empty ids, precondition or field names; the plan is that of columns and payload, its
      result that of its own fields. */
  lemma RowOpensExactly(key: nat, row: Row)
    ensures var x := row.payload.payload;
            Decode(key, row).Some? <==>
              && row.payload.key == key && row.payload.nonce == row.nonce && row.payload.metadata == row.metadata
              && |x.form| > 0 && x.entryId != Some("") && x.precondition != Some("")
              && (x.resultStored ==> x.resultEntryId != Some(""))
              && (forall e :: e in x.proposed ==> |e.0| > 0)
              && (x.current.Some? ==> forall e :: e in x.current.value ==> |e.0| > 0)
    ensures Decode(key, row).Some? ==>
              var p, x, m := Decode(key, row).value, row.payload.payload, row.metadata;
              && p.id == m.planId && p.digest == m.digest && p.expiresAt == m.expiresAt && p.status == m.status
              && p.body == Body(m.operation, m.environment, x.form, x.entryId, x.current, x.proposed, x.reason, x.precondition)
              && p.result == if x.resultStored then
                   Some(ApplyResult(m.planId, m.operation, m.environment, x.form, Applied, x.resultEntryId, false)) else None
  {
    NamesAreKeys(row.payload.payload.proposed);
    if row.payload.payload.current.Some? {
      NamesAreKeys(row.payload.payload.current.value);
    }
  }

  lemma NamesAreKeys(d: Dict)
    ensures NamesPresent(d) <==> forall e :: e in d ==> |e.0| > 0
  {
    if forall e :: e in d ==> |e.0| > 0 {
      assert forall i :: 0 <= i < |d| ==> d[i] in d;
    }
  }

  /** A ciphertext decodes beside one set of columns only: moving it to another row, or editing the
      status, expiry or digest column, is detected. */
  lemma ColumnsAreBoundToTheCiphertext(key: nat, a: Row, b: Row)
    requires Decode(key, a).Some? && Decode(key, b).Some? && a.payload == b.payload
    ensures a == b && Decode(key, a).value.status == a.metadata.status
  {
  }

  // ------------------------------------------------------------------- store

  class PersistentWritePlanStore {
    const key: nat
    const ttl: real
    const maxPending: nat
    var rows: map<PlanId, Row>

    /** Every row decodes, to a plan whose dictionaries are in key order. */
    ghost predicate Valid()
      reads this
    {
      TableValid(rows)
    }

    ghost predicate RowValid(id: PlanId, row: Row) {
      && row.metadata.planId == id
      && Decode(key, row).Some?
      && Canonical(Decode(key, row).value) == Decode(key, row).value
    }

    function Contents(): Store
      requires Valid()
      reads this
    {
      Plans(rows)
    }

    ghost predicate TableValid(table: map<PlanId, Row>) {
      forall id :: id in table ==> RowValid(id, table[id])
    }

    function Plans(table: map<PlanId, Row>): Store
      requires TableValid(table)
    {
      map id | id in table :: Decode(key, table[id]).value
    }

    function Unexpired(table: map<PlanId, Row>, now: real): map<PlanId, Row> {
      map id | id in table && table[id].metadata.expiresAt > now :: table[id]
    }

    /** The count over the status column. */
    function PendingRows(table: map<PlanId, Row>): nat {
      |set x | x in table && (table[x].metadata.status == Pending || table[x].metadata.status == Applying)|
    }

    lemma PendingRowsAgree(table: map<PlanId, Row>)
      requires TableValid(table)
      ensures PendingRows(table) == |ActiveIds(Plans(table))|
    {
      var active := set x | x in table && (table[x].metadata.status == Pending || table[x].metadata.status == Applying);
      forall x | x in table
        ensures x in active <==> x in ActiveIds(Plans(table))
      {
        assert RowValid(x, table[x]);
      }
      assert active == ActiveIds(Plans(table));
    }

    lemma UnexpiredRows(table: map<PlanId, Row>, now: real)
      requires TableValid(table)
      ensures TableValid(Unexpired(table, now)) && Plans(Unexpired(table, now)) == Purge(Plans(table), now)
    {
    }

    lemma AddedRow(table: map<PlanId, Row>, id: PlanId, row: Row)
      requires TableValid(table) && RowValid(id, row)
      ensures TableValid(table[id := row]) && Plans(table[id := row]) == Plans(table)[id := Decode(key, row).value]
    {
    }

    lemma EncodedRowIsValid(nonce: nat, p: Plan)
      requires BodyStorable(p.body) && ResultStorable(p)
      ensures RowValid(p.id, Encode(key, nonce, p)) && Decode(key, Encode(key, nonce, p)) == Some(Canonical(p))
    {
      StoredPlanDecodesToItself(key, nonce, p);
      CanonicalIsStable(p);
    }

    lemma DecodedIsStorable(row: Row)
      requires Decode(key, row).Some?
      ensures BodyStorable(Decode(key, row).value.body) && ResultStorable(Decode(key, row).value)
    {
    }

    lemma ClearedIsCanonical(p: Plan)
      ensures BodyStorable(p.body) ==> BodyStorable(ClearedBody(p.body))
      ensures Canonical(Cleared(p)) == Cleared(p)
    {
    }

    /** A new, empty database. */
    constructor (key: nat, ttl: real, maxPending: nat)
      ensures Valid() && Contents() == map[]
      ensures this.key == key && this.ttl == ttl && this.maxPending == maxPending
    {
      this.key, this.ttl, this.maxPending := key, ttl, maxPending;
      rows := map[];
    }

    /** On success the table gains the new plan; on any error the whole transaction is undone,
        the purge included. */
    method Create(id: PlanId, body: Body, purgeAt: real, stampAt: real, nonce: nat, available: bool)
      returns (r: Result<PublicPlan, StoreError>)
      requires Valid() && id !in rows && BodyStorable(body)
      modifies this
      ensures Valid()
      ensures var spec := WritePlans.Create(old(Contents()), id, body, purgeAt, stampAt, ttl, maxPending);
              && r == (if available then spec.1 else Err(PersistenceFailed))
              && Contents() == if r.Err? then old(Contents())
                               else spec.0[id := Canonical(spec.0[id])]
    {
      hide SortKeys, DigestOf, Encode, Decode, Canonical;
      if !available {
        return Err(PersistenceFailed);
      }
      var table := Unexpired(rows, purgeAt);
      UnexpiredRows(rows, purgeAt);
      PendingRowsAgree(table);
      if PendingRows(table) >= maxPending {
        return Err(CapacityReached);
      }
      var plan := NewPlan(id, body, stampAt + ttl);
      EncodedRowIsValid(nonce, plan);
      AddedRow(table, id, Encode(key, nonce, plan));
      rows := table[id := Encode(key, nonce, plan)];
      return Ok(Public(plan));
    }

    /** The columns used in SQL conditions agree with the decoded plans. */
    lemma ColumnsAgree()
      requires Valid()
      ensures forall id :: id in rows ==>
                && Contents()[id].expiresAt == rows[id].metadata.expiresAt
                && Contents()[id].status == rows[id].metadata.status
                && Contents()[id].id == id
                && BodyStorable(Contents()[id].body) && ResultStorable(Contents()[id])
    {
      forall id | id in rows
        ensures BodyStorable(Contents()[id].body) && ResultStorable(Contents()[id])
      {
        DecodedIsStorable(rows[id]);
      }
    }

    /** `_required` inside a transaction; the row it drops on expiry is what gets committed. */
    method Find(id: PlanId, now: Option<real>) returns (r: Result<Plan, StoreError>)
      requires Valid()
      modifies this
      ensures Valid()
      ensures now.Some? ==> (Contents(), r) == Lookup(old(Contents()), id, now.value)
      ensures now.None? ==> rows == old(rows) && r == (if id in old(rows) then Ok(old(Contents())[id]) else Err(NotFound))
    {
      hide SortKeys, DigestOf, Canonical;
      ColumnsAgree();
      if id !in rows {
        return Err(NotFound);
      }
      var plan := Decode(key, rows[id]).value;
      if now.Some? && plan.expiresAt <= now.value {
        rows := rows - {id};
        assert Contents() == old(Contents()) - {id};
        return Err(Expired);
      }
      return Ok(plan);
    }

    /** `_update`: re-encrypt a plan whose other columns did not change. */
    method Update(plan: Plan, nonce: nat)
      requires Valid() && plan.id in rows
      requires BodyStorable(plan.body) && ResultStorable(plan) && Canonical(plan) == plan
      modifies this
      ensures Valid() && Contents() == old(Contents())[plan.id := plan]
    {
      hide SortKeys, DigestOf, Canonical, Decode, Encode;
      EncodedRowIsValid(nonce, plan);
      AddedRow(rows, plan.id, Encode(key, nonce, plan));
      rows := rows[plan.id := Encode(key, nonce, plan)];
    }

    method Acquire(id: PlanId, digest: Digest, operation: Operation, environment: Environment, now: real,
                   nonce: nat, available: bool)
      returns (r: Result<Acquired, StoreError>)
      requires Valid()
      modifies this
      ensures Valid()
      ensures available ==> (Contents(), r) == WritePlans.Acquire(old(Contents()), id, digest, operation, environment, now)
      ensures !available ==> rows == old(rows) && r == Err(PersistenceFailed)
    {
      hide SortKeys, DigestOf, Canonical, Decode, Encode;
      if !available {
        return Err(PersistenceFailed);
      }
      ColumnsAgree();
      ghost var before := Contents();
      var found := Find(id, Some(now));
      if found.Err? {
        return Err(found.error);
      }
      var plan := found.value;
      if plan.body.operation != operation || plan.body.environment != environment || plan.digest != digest {
        return Err(Mismatch);
      }
      if plan.status == Applied {
        if plan.result.None? {
          return Err(PersistenceFailed);
        }
        return Ok(Replay(plan.result.value.(reused := true)));
      }
      if plan.status == OutcomeUnknown {
        return Err(UnknownOutcome);
      }
      if plan.status != Pending {
        return Err(WrongState);
      }
      var taken := plan.(status := Applying);
      StatusKeepsCanonical(plan, Applying);
      Update(taken, nonce);
      return Ok(Fresh(taken));
    }

    lemma StatusKeepsCanonical(p: Plan, status: Status)
      requires Canonical(p) == p
      ensures Canonical(p.(status := status)) == p.(status := status)
    {
    }

    /** The stored result is the one `_apply` built whenever that result is about this plan. */
    method Complete(id: PlanId, result: ApplyResult, nonce: nat, available: bool)
      returns (r: Result<ApplyResult, StoreError>)
      requires Valid() && result.entryId != Some("")
      modifies this
      ensures Valid()
      ensures available && (id in old(rows) ==> result == Restored(id, old(Contents())[id].body, result.entryId))
           ==> (Contents(), r) == WritePlans.Complete(old(Contents()), id, result)
      ensures r.Err? ==> rows == old(rows)
      ensures !available ==> r == Err(PersistenceFailed)
    {
      hide SortKeys, DigestOf, Canonical, Decode, Encode;
      if !available {
        return Err(PersistenceFailed);
      }
      ColumnsAgree();
      var found := Find(id, None);
      if found.Err? {
        return Err(found.error);
      }
      var plan := found.value;
      if plan.status != Applying {
        return Err(WrongState);
      }
      var stored := Restored(id, plan.body, result.entryId);
      var done := Cleared(plan).(status := Applied, result := Some(stored));
      ClearedIsCanonical(plan.(status := Applied, result := Some(stored)));
      Update(done, nonce);
      return Ok(result);
    }

    method Fail(id: PlanId, outcomeUnknown: bool, nonce: nat, available: bool) returns (r: Result<(), StoreError>)
      requires Valid()
      modifies this
      ensures Valid()
      ensures available ==> (Contents(), r) == WritePlans.Fail(old(Contents()), id, outcomeUnknown)
      ensures !available ==> rows == old(rows) && r == Err(PersistenceFailed)
    {
      hide SortKeys, DigestOf, Canonical, Decode, Encode;
      if !available {
        return Err(PersistenceFailed);
      }
      ColumnsAgree();
      var found := Find(id, None);
      if found.Err? {
        return Err(found.error);
      }
      var status := if outcomeUnknown then OutcomeUnknown else Failed;
      ClearedIsCanonical(found.value.(status := status));
      Update(Cleared(found.value).(status := status), nonce);
      return Ok(());
    }

    method Get(id: PlanId, environment: Environment, now: real, available: bool) returns (r: Result<PublicPlan, StoreError>)
      requires Valid()
      modifies this
      ensures Valid()
      ensures available ==> (Contents(), r) == WritePlans.Get(old(Contents()), id, environment, now)
      ensures !available ==> rows == old(rows) && r == Err(PersistenceFailed)
    {
      hide SortKeys, DigestOf, Canonical, Decode, Encode;
      if !available {
        return Err(PersistenceFailed);
      }
      var found := Find(id, Some(now));
      if found.Err? {
        return Err(found.error);
      }
      if found.value.body.environment != environment {
        return Err(Mismatch);
      }
      return Ok(Public(found.value));
    }

    method Cancel(id: PlanId, environment: Environment, now: real, nonce: nat, available: bool)
      returns (r: Result<PublicPlan, StoreError>)
      requires Valid()
      modifies this
      ensures Valid()
      ensures available ==> (Contents(), r) == WritePlans.Cancel(old(Contents()), id, environment, now)
      ensures !available ==> rows == old(rows) && r == Err(PersistenceFailed)
    {
      hide SortKeys, DigestOf, Canonical, Decode, Encode;
      if !available {
        return Err(PersistenceFailed);
      }
      ColumnsAgree();
      var found := Find(id, Some(now));
      if found.Err? {
        return Err(found.error);
      }
      var plan := found.value;
      if plan.body.environment != environment {
        return Err(Mismatch);
      }
      if plan.status != Pending {
        return Err(WrongState);
      }
      var cancelled := Cleared(plan).(status := Cancelled);
      ClearedIsCanonical(plan.(status := Cancelled));
      Update(cancelled, nonce);
      return Ok(Public(cancelled));
    }

    /** `_initialize` on an existing database. */
    method Initialize(now: real, recover: bool, nonce: PlanId -> nat)
      requires Valid()
      modifies this
      ensures Valid() && Contents() == Open(old(Contents()), now, recover)
    {
      hide SortKeys, DigestOf, Canonical, Decode, Encode, Cleared, BodyStorable, ResultStorable;
      UnexpiredRows(rows, now);
      rows := Unexpired(rows, now);
      if recover {
        ColumnsAgree();
        var interrupted := set id | id in rows && rows[id].metadata.status == Applying;
        SettleAll(interrupted, nonce);
      }
    }

    /** The recovery loop over the rows selected by their status column. */
    method SettleAll(ids: set<PlanId>, nonce: PlanId -> nat)
      requires Valid() && ids <= rows.Keys
      modifies this
      ensures Valid() && Contents() == SettledIn(old(Contents()), ids)
    {
      hide SortKeys, DigestOf, Canonical, Decode, Encode, Cleared, BodyStorable, ResultStorable;
      ghost var before := Contents();
      var rest := ids;
      while rest != {}
        invariant Valid() && rest <= ids && ids <= before.Keys
        invariant Contents() == SettledIn(before, ids - rest)
      {
        var id :| id in rest;
        ColumnsAgree();
        var plan := Decode(key, rows[id]).value;
        SettledIsStorable(plan);
        Update(Settled(plan), nonce(id));
        rest := rest - {id};
      }
    }

    ghost function SettledIn(s: Store, ids: set<PlanId>): Store {
      map id | id in s :: if id in ids then Settled(s[id]) else s[id]
    }

    function Settled(p: Plan): Plan {
      Cleared(p).(status := OutcomeUnknown)
    }

    lemma SettledIsStorable(p: Plan)
      requires BodyStorable(p.body) && ResultStorable(p)
      ensures var q := Settled(p); q.id == p.id && BodyStorable(q.body) && ResultStorable(q) && Canonical(q) == q
    {
      ClearedIsCanonical(p.(status := OutcomeUnknown));
    }
  }

  // ------------------------------------------------ where the two stores part

  /** The table the encrypted store is left with by `create`. */
  function DurableCreate(s: Store, id: PlanId, body: Body, purgeAt: real, stampAt: real, ttl: real, maxPending: nat)
    : (Store, Result<PublicPlan, StoreError>)
  {
    var spec := WritePlans.Create(s, id, body, purgeAt, stampAt, ttl, maxPending);
    if spec.1.Err? then (s, spec.1) else spec
  }

  /** Both stores answer `create` alike. They end in different states exactly when capacity is
      reached while an expired plan is listed: the rollback brings that plan back. */
  lemma CreateAgreesUnlessRolledBackPurge(
    s: Store, id: PlanId, body: Body, purgeAt: real, stampAt: real, ttl: real, maxPending: nat)
    ensures var memory := WritePlans.Create(s, id, body, purgeAt, stampAt, ttl, maxPending);
            var durable := DurableCreate(s, id, body, purgeAt, stampAt, ttl, maxPending);
            && memory.1 == durable.1
            && (memory.0 == durable.0 <==>
                  |ActiveIds(Purge(s, purgeAt))| < maxPending || forall x :: x in s ==> s[x].expiresAt > purgeAt)
  {
    hide DigestOf, ActiveIds;
    assert Purge(s, purgeAt) == s <==> forall x :: x in s ==> s[x].expiresAt > purgeAt by {
      if Purge(s, purgeAt) == s {
        forall x | x in s
          ensures s[x].expiresAt > purgeAt
        {
          assert x in Purge(s, purgeAt);
        }
      }
    }
  }

  /** The difference shows: the same later lookup is answered `expired` by one store and `not found`
      by the other. */
  lemma RolledBackPurgeIsVisible(s: Store, id: PlanId, stale: PlanId, body: Body, at: real, ttl: real, maxPending: nat,
                                 env: Environment, later: real)
    requires id != stale && stale in s && s[stale].expiresAt <= at <= later
    requires |ActiveIds(Purge(s, at))| >= maxPending
    ensures WritePlans.Get(WritePlans.Create(s, id, body, at, at, ttl, maxPending).0, stale, env, later).1 == Err(NotFound)
    ensures WritePlans.Get(DurableCreate(s, id, body, at, at, ttl, maxPending).0, stale, env, later).1 == Err(Expired)
  {
  }
}
