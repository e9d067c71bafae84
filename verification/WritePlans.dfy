/** Write plans and the operations of a plan store, on values. Both stores, the
    in-memory one and the encrypted one, are proved against these functions. */
module WritePlans {
  import opened Common
  import opened WritePolicy

  type PlanId = string

  datatype Environment = Dev | Qa | Prod

  datatype Status = Pending | Applying | Applied | Cancelled | Failed | OutcomeUnknown

  datatype Body = Body(
    operation: Operation,
    environment: Environment,
    form: string,
    entryId: Option<string>,
    current: Option<Dict>,
    proposed: Dict,
    reason: string,
    precondition: Option<string>)

  /** What canonical JSON keeps of a body: the order of dictionary keys is gone. */
  datatype Content = Content(
    operation: Operation,
    environment: Environment,
    form: string,
    entryId: Option<string>,
    current: Option<map<string, Scalar>>,
    proposed: map<string, Scalar>,
    reason: string,
    precondition: Option<string>)

  /** SHA-256 is taken to be injective, so a digest is the content it was made from. */
  datatype Digest = Digest(content: Content)

  function DigestOf(b: Body): Digest {
    Digest(Content(b.operation, b.environment, b.form, b.entryId,
                   if b.current.None? then None else Some(Meaning(b.current.value)),
                   Meaning(b.proposed), b.reason, b.precondition))
  }

  datatype ApplyResult = ApplyResult(
    planId: PlanId,
    operation: Operation,
    environment: Environment,
    form: string,
    status: Status,
    entryId: Option<string>,
    reused: bool)

  datatype Plan = Plan(
    id: PlanId,
    digest: Digest,
    body: Body,
    expiresAt: real,
    status: Status,
    result: Option<ApplyResult>)

  /** `_clear_payload`: business values, reason and precondition go, the target stays. */
  function ClearedBody(b: Body): Body {
    b.(current := if b.current.None? then None else Some([]), proposed := [], reason := "", precondition := None)
  }

  function Cleared(p: Plan): Plan {
    p.(body := ClearedBody(p.body))
  }

  /** `_public`: what is shown for review, without the precondition and the stored result. */
  datatype PublicPlan = PublicPlan(
    id: PlanId,
    digest: Digest,
    operation: Operation,
    environment: Environment,
    form: string,
    entryId: Option<string>,
    current: Option<Dict>,
    proposed: Dict,
    reason: string,
    expiresAt: real,
    status: Status)

  function Public(p: Plan): PublicPlan {
    PublicPlan(p.id, p.digest, p.body.operation, p.body.environment, p.body.form, p.body.entryId, p.body.current,
               p.body.proposed, p.body.reason, p.expiresAt, p.status)
  }

  datatype StoreError =
    | CapacityReached
    | NotFound
    | Expired
    | Mismatch
    | WrongState
    | UnknownOutcome
    | PersistenceFailed

  type Store = map<PlanId, Plan>

  datatype Acquired = Fresh(plan: Plan) | Replay(result: ApplyResult)

  predicate Active(p: Plan) {
    p.status == Pending || p.status == Applying
  }

  function ActiveIds(s: Store): set<PlanId> {
    set id | id in s && Active(s[id])
  }

  function Purge(s: Store, now: real): Store {
    map id | id in s && s[id].expiresAt > now :: s[id]
  }

  function NewPlan(id: PlanId, body: Body, expiresAt: real): Plan {
    Plan(id, DigestOf(body), body, expiresAt, Pending, None)
  }

  /** `create`: the clock is read twice, to purge and to stamp the expiry. */
  function Create(s: Store, id: PlanId, body: Body, purgeAt: real, stampAt: real, ttl: real, maxPending: nat)
    : (Store, Result<PublicPlan, StoreError>)
  {
    var kept := Purge(s, purgeAt);
    if |ActiveIds(kept)| >= maxPending then (kept, Err(CapacityReached))
    else
      var plan := NewPlan(id, body, stampAt + ttl);
      (kept[id := plan], Ok(Public(plan)))
  }

  /** `_required` followed by the expiry check: a lookup that finds an expired plan drops it. */
  function Lookup(s: Store, id: PlanId, now: real): (r: (Store, Result<Plan, StoreError>))
    ensures r.1.Ok? ==> r.0 == s && id in s && r.1.value == s[id]
  {
    if id !in s then (s, Err(NotFound))
    else if s[id].expiresAt <= now then (s - {id}, Err(Expired))
    else (s, Ok(s[id]))
  }

  function Acquire(s: Store, id: PlanId, digest: Digest, op: Operation, env: Environment, now: real)
    : (Store, Result<Acquired, StoreError>)
  {
    var (found, r) := Lookup(s, id, now);
    if r.Err? then (found, Err(r.error))
    else
      var p := r.value;
      if p.body.operation != op || p.body.environment != env || p.digest != digest then (s, Err(Mismatch))
      else if p.status == Applied then
        if p.result.None? then (s, Err(PersistenceFailed)) else (s, Ok(Replay(p.result.value.(reused := true))))
      else if p.status == OutcomeUnknown then (s, Err(UnknownOutcome))
      else if p.status != Pending then (s, Err(WrongState))
      else
        var taken := p.(status := Applying);
        (s[id := taken], Ok(Fresh(taken)))
  }

  function Complete(s: Store, id: PlanId, result: ApplyResult): (Store, Result<ApplyResult, StoreError>) {
    if id !in s then (s, Err(NotFound))
    else if s[id].status != Applying then (s, Err(WrongState))
    else (s[id := Cleared(s[id]).(status := Applied, result := Some(result))], Ok(result))
  }

  function Fail(s: Store, id: PlanId, outcomeUnknown: bool): (Store, Result<(), StoreError>) {
    if id !in s then (s, Err(NotFound))
    else (s[id := Cleared(s[id]).(status := if outcomeUnknown then OutcomeUnknown else Failed)], Ok(()))
  }

  function Get(s: Store, id: PlanId, env: Environment, now: real): (Store, Result<PublicPlan, StoreError>) {
    var (found, r) := Lookup(s, id, now);
    if r.Err? then (found, Err(r.error))
    else if r.value.body.environment != env then (s, Err(Mismatch))
    else (s, Ok(Public(r.value)))
  }

  function Cancel(s: Store, id: PlanId, env: Environment, now: real): (Store, Result<PublicPlan, StoreError>) {
    var (found, r) := Lookup(s, id, now);
    if r.Err? then (found, Err(r.error))
    else if r.value.body.environment != env then (s, Err(Mismatch))
    else if r.value.status != Pending then (s, Err(WrongState))
    else
      var p := Cleared(r.value).(status := Cancelled);
      (s[id := p], Ok(Public(p)))
  }

  /** Start-up of the encrypted store: purge, then settle what an interrupted process left applying. */
  function Open(s: Store, now: real, recover: bool): Store {
    var kept := Purge(s, now);
    map id | id in kept ::
      if recover && kept[id].status == Applying then Cleared(kept[id]).(status := OutcomeUnknown) else kept[id]
  }

  /** What every plan object holds once a new table is installed, by id: plans of the table as it says,
      plans dropped from it cleared in place, all others as before. */
  function Committed(heap: map<PlanId, Plan>, listed: set<PlanId>, table: Store): map<PlanId, Plan> {
    map id | id in heap.Keys + table.Keys ::
      if id in table then table[id] else if id in listed then Cleared(heap[id]) else heap[id]
  }

  // ------------------------------------------------- what each call answers and leaves

  /** `shown` is `p`, field by field, as a reviewer sees it. */
  ghost predicate Shows(shown: PublicPlan, p: Plan) {
    && shown.id == p.id && shown.digest == p.digest
    && shown.operation == p.body.operation && shown.environment == p.body.environment
    && shown.form == p.body.form && shown.entryId == p.body.entryId
    && shown.current == p.body.current && shown.proposed == p.body.proposed && shown.reason == p.body.reason
    && shown.expiresAt == p.expiresAt && shown.status == p.status
  }

  /** Two tables agree but at `id`. */
  ghost predicate SameElsewhere(s: Store, t: Store, id: PlanId) {
    && s.Keys - {id} == t.Keys - {id}
    && forall x :: x in s && x in t && x != id ==> s[x] == t[x]
  }

  /** The digest covers the content field by field. */
  ghost predicate Covers(d: Digest, b: Body) {
    var c := d.content;
    && c.operation == b.operation && c.environment == b.environment && c.form == b.form && c.entryId == b.entryId
    && (c.current.None? <==> b.current.None?) && (b.current.Some? ==> c.current.value == Meaning(b.current.value))
    && c.proposed == Meaning(b.proposed) && c.reason == b.reason && c.precondition == b.precondition
  }

  /** Creation fails exactly when the unexpired pending and applying plans reach the bound. Otherwise it
      stores the given body, pending, until the time to live is over, and shows the reviewer that very body
      with a digest that covers it. Of the other plans exactly the expired ones go. */
  lemma CreateShowsWhatItStores(s: Store, id: PlanId, body: Body, purgeAt: real, stampAt: real, ttl: real, maxPending: nat)
    ensures var (table, r) := Create(s, id, body, purgeAt, stampAt, ttl, maxPending);
            && (r == Err(CapacityReached) <==>
                  |set x | x in s && s[x].expiresAt > purgeAt && (s[x].status == Pending || s[x].status == Applying)| >= maxPending)
            && (r.Err? ==> r == Err(CapacityReached))
            && (forall x :: x in table && (x != id || r.Err?) <==> x in s && s[x].expiresAt > purgeAt && (x != id || r.Err?))
            && (forall x :: x in table && (x != id || r.Err?) ==> table[x] == s[x])
            && (r.Ok? ==>
                  && id in table && Shows(r.value, table[id])
                  && table[id].id == id && table[id].body == body && table[id].expiresAt == stampAt + ttl
                  && table[id].status == Pending && table[id].result == None
                  && Covers(table[id].digest, body))
  {
    hide Meaning;
    var active := set x | x in s && s[x].expiresAt > purgeAt && (s[x].status == Pending || s[x].status == Applying);
    assert active == ActiveIds(Purge(s, purgeAt));
  }

  /** The call names the plan that is listed under its id, and in time. */
  ghost predicate Names(s: Store, id: PlanId, digest: Digest, op: Operation, env: Environment, now: real) {
    id in s && s[id].expiresAt > now
    && s[id].digest == digest && s[id].body.operation == op && s[id].body.environment == env
  }

  /** Who may apply: each answer of an acquire with its exact cause. Only the first matching call finds the
      plan pending; it alone is handed the plan, and the plan is applying from then on. */
  lemma AcquireAnswers(s: Store, id: PlanId, digest: Digest, op: Operation, env: Environment, now: real)
    ensures var (table, r) := Acquire(s, id, digest, op, env, now);
            var named := Names(s, id, digest, op, env, now);
            && (r == Err(NotFound) <==> id !in s)
            && (r == Err(Expired) <==> id in s && s[id].expiresAt <= now)
            && (r == Err(Mismatch) <==> id in s && s[id].expiresAt > now && !named)
            && (r == Err(UnknownOutcome) <==> named && s[id].status == OutcomeUnknown)
            && (r == Err(WrongState) <==> named && s[id].status in {Applying, Cancelled, Failed})
            && (r == Err(PersistenceFailed) <==> named && s[id].status == Applied && s[id].result.None?)
            && (r.Ok? && r.value.Replay? <==> named && s[id].status == Applied && s[id].result.Some?)
            && (r.Ok? && r.value.Replay? ==> r.value.result.reused && r.value.result == s[id].result.value.(reused := true))
            && (r.Ok? && r.value.Fresh? <==> named && s[id].status == Pending)
            && (r.Ok? && r.value.Fresh? ==> id in table && table[id] == r.value.plan == s[id].(status := Applying))
            && SameElsewhere(s, table, id)
            && (id in table <==> id in s && s[id].expiresAt > now)
            && (id in table && !(r.Ok? && r.value.Fresh?) ==> table[id] == s[id])
  {
  }

  /** The payload is gone and the rest is as it was, but for status and result. */
  ghost predicate OnlyPayloadCleared(p: Plan, q: Plan) {
    && q.id == p.id && q.digest == p.digest && q.expiresAt == p.expiresAt
    && q.body.operation == p.body.operation && q.body.environment == p.body.environment
    && q.body.form == p.body.form && q.body.entryId == p.body.entryId
    && q.body.proposed == [] && q.body.reason == "" && q.body.precondition == None
    && (q.body.current.None? <==> p.body.current.None?) && (q.body.current.Some? ==> q.body.current.value == [])
  }

  /** The verdicts: a result only for an applying plan, failed or outcome unknown for any listed one, and
      in each case the payload is gone. */
  lemma VerdictAnswers(s: Store, id: PlanId, result: ApplyResult, outcomeUnknown: bool)
    ensures var (table, r) := Complete(s, id, result);
            && (r == Err(NotFound) <==> id !in s)
            && (r == Err(WrongState) <==> id in s && s[id].status != Applying)
            && (r.Ok? <==> id in s && s[id].status == Applying)
            && (r.Err? ==> table == s)
            && (r.Ok? ==> r.value == result && SameElsewhere(s, table, id) && id in table && OnlyPayloadCleared(s[id], table[id])
                          && table[id].status == Applied && table[id].result == Some(result))
    ensures var (table, r) := Fail(s, id, outcomeUnknown);
            && (r == Err(NotFound) <==> id !in s)
            && (r.Ok? <==> id in s)
            && (r.Err? ==> table == s)
            && (r.Ok? ==> SameElsewhere(s, table, id) && id in table && OnlyPayloadCleared(s[id], table[id])
                          && table[id].status == (if outcomeUnknown then OutcomeUnknown else Failed)
                          && table[id].result == s[id].result)
  {
  }

  /** A lookup shows a listed, unexpired plan to its own environment; cancelling needs it to be pending
      and shows it cleared. */
  lemma LookupAnswers(s: Store, id: PlanId, env: Environment, now: real)
    ensures var (table, r) := Get(s, id, env, now);
            && (r == Err(NotFound) <==> id !in s)
            && (r == Err(Expired) <==> id in s && s[id].expiresAt <= now)
            && (r == Err(Mismatch) <==> id in s && s[id].expiresAt > now && s[id].body.environment != env)
            && (r.Ok? <==> id in s && s[id].expiresAt > now && s[id].body.environment == env)
            && (r.Ok? ==> Shows(r.value, s[id]))
            && SameElsewhere(s, table, id)
            && (id in table <==> id in s && s[id].expiresAt > now)
            && (id in table ==> table[id] == s[id])
    ensures var (table, r) := Cancel(s, id, env, now);
            && (r == Err(NotFound) <==> id !in s)
            && (r == Err(Expired) <==> id in s && s[id].expiresAt <= now)
            && (r == Err(Mismatch) <==> id in s && s[id].expiresAt > now && s[id].body.environment != env)
            && (r == Err(WrongState) <==>
                  id in s && s[id].expiresAt > now && s[id].body.environment == env && s[id].status != Pending)
            && (r.Ok? <==> id in s && s[id].expiresAt > now && s[id].body.environment == env && s[id].status == Pending)
            && SameElsewhere(s, table, id)
            && (id in table <==> id in s && s[id].expiresAt > now)
            && (id in table && r.Err? ==> table[id] == s[id])
            && (r.Ok? ==> OnlyPayloadCleared(s[id], table[id]) && table[id].status == Cancelled
                          && table[id].result == s[id].result && Shows(r.value, table[id]))
  {
  }

  /** Opening the encrypted store drops exactly the expired plans; with recovery, those found applying get
      an unknown outcome, and every other plan is as it was. */
  lemma OpenSettlesApplying(s: Store, now: real, recover: bool)
    ensures var table := Open(s, now, recover);
            && (forall x :: x in table <==> x in s && s[x].expiresAt > now)
            && forall x :: x in table ==>
                 if recover && s[x].status == Applying then
                   OnlyPayloadCleared(s[x], table[x]) && table[x].status == OutcomeUnknown && table[x].result == s[x].result
                 else table[x] == s[x]
  {
  }

  // ------------------------------------------------------------ one-call facts

  /** The ways a stored plan may change other than by the verdict of an apply call. */
  ghost predicate Evolves(a: Plan, b: Plan) {
    && b.id == a.id && b.digest == a.digest && b.expiresAt == a.expiresAt && b.result == a.result
    && (b.body == a.body || b.body == ClearedBody(a.body))
    && (|| b.status == a.status
        || (a.status == Pending && (b.status == Cancelled || b.status == Applying))
        || (a.status == Applying && b.status == OutcomeUnknown))
  }

  /** No active plan appears in `next` that was not active in `prev`. */
  ghost predicate NoNewActive(prev: Store, next: Store) {
    ActiveIds(next) <= ActiveIds(prev)
  }

  /** Creation is the only operation that raises the number of active plans, and only below the bound. */
  lemma CreateStaysWithinCapacity(s: Store, id: PlanId, body: Body, purgeAt: real, stampAt: real, ttl: real, maxPending: nat)
    requires |ActiveIds(s)| <= maxPending
    ensures |ActiveIds(Create(s, id, body, purgeAt, stampAt, ttl, maxPending).0)| <= maxPending
  {
    hide DigestOf, ActiveIds, Purge;
    var kept := Purge(s, purgeAt);
    PurgeAddsNoActive(s, purgeAt);
    SubsetSize(ActiveIds(kept), ActiveIds(s));
    var plan := NewPlan(id, body, stampAt + ttl);
    AddActive(kept, plan);
    SubsetSize(ActiveIds(kept[id := plan]), ActiveIds(kept) + {id});
  }

  lemma NoNewActiveKeepsBound(prev: Store, next: Store, bound: nat)
    requires NoNewActive(prev, next) && |ActiveIds(prev)| <= bound
    ensures |ActiveIds(next)| <= bound
  {
    hide ActiveIds;
    SubsetSize(ActiveIds(next), ActiveIds(prev));
  }

  lemma AcquireAddsNoActive(s: Store, id: PlanId, digest: Digest, op: Operation, env: Environment, now: real)
    ensures NoNewActive(s, Acquire(s, id, digest, op, env, now).0)
  {
  }

  lemma CompleteAddsNoActive(s: Store, id: PlanId, result: ApplyResult)
    ensures NoNewActive(s, Complete(s, id, result).0)
  {
  }

  lemma FailAddsNoActive(s: Store, id: PlanId, outcomeUnknown: bool)
    ensures NoNewActive(s, Fail(s, id, outcomeUnknown).0)
  {
  }

  lemma GetAddsNoActive(s: Store, id: PlanId, env: Environment, now: real)
    ensures NoNewActive(s, Get(s, id, env, now).0)
  {
  }

  lemma CancelAddsNoActive(s: Store, id: PlanId, env: Environment, now: real)
    ensures NoNewActive(s, Cancel(s, id, env, now).0)
  {
  }

  lemma OpenAddsNoActive(s: Store, now: real, recover: bool)
    ensures NoNewActive(s, Open(s, now, recover))
  {
  }

  lemma PurgeAddsNoActive(s: Store, now: real)
    ensures ActiveIds(Purge(s, now)) <= ActiveIds(s)
  {
  }

  lemma AddActive(s: Store, plan: Plan)
    ensures ActiveIds(s[plan.id := plan]) <= ActiveIds(s) + {plan.id}
  {
  }

  lemma {:induction false} SubsetSize<T>(a: set<T>, b: set<T>)
    requires a <= b
    ensures |a| <= |b|
  {
    if a != {} {
      var x :| x in a;
      SubsetSize(a - {x}, b - {x});
    }
  }
}
