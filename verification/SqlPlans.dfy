/** Plans for approved SQL: the store, whose failed executions return to pending, and whole
    runs of executions, cancellations, lookups, expiries, losses and restarts with recovery. */
module SqlPlans {
  import opened Common
  import opened WritePlans

  datatype Query = Query(sql: string, limit: nat)

  datatype SqlStatus = SqlPending | Executing | Executed | SqlCancelled

  /** The digest is taken to be injective on environment, text and limit. */
  datatype SqlDigest = SqlDigest(environment: Environment, query: Query)

  datatype SqlPlan = SqlPlan(
    id: PlanId, digest: SqlDigest, environment: Environment, query: Query, expiresAt: real, status: SqlStatus)

  type SqlStore = map<PlanId, SqlPlan>

  predicate SqlActive(p: SqlPlan) {
    p.status == SqlPending || p.status == Executing
  }

  function SqlActiveIds(s: SqlStore): set<PlanId> {
    set id | id in s && SqlActive(s[id])
  }

  function PurgeSql(s: SqlStore, now: real): SqlStore {
    map id | id in s && s[id].expiresAt > now :: s[id]
  }

  function CreateSql(s: SqlStore, id: PlanId, env: Environment, query: Query, purgeAt: real, stampAt: real,
                     ttl: real, maxPending: nat): (SqlStore, Result<SqlPlan, StoreError>)
  {
    var kept := PurgeSql(s, purgeAt);
    if |SqlActiveIds(kept)| >= maxPending then (kept, Err(CapacityReached))
    else
      var p := SqlPlan(id, SqlDigest(env, query), env, query, stampAt + ttl, SqlPending);
      (kept[id := p], Ok(p))
  }

  function LookupSql(s: SqlStore, id: PlanId, now: real): (r: (SqlStore, Result<SqlPlan, StoreError>))
    ensures r.1.Ok? ==> r.0 == s && id in s && r.1.value == s[id]
    ensures r.1.Err? ==> r.0 == s || r.0 == s - {id}
  {
    if id !in s then (s, Err(NotFound))
    else if s[id].expiresAt <= now then (s - {id}, Err(Expired))
    else (s, Ok(s[id]))
  }

  function AcquireSql(s: SqlStore, id: PlanId, digest: SqlDigest, env: Environment, now: real)
    : (SqlStore, Result<SqlPlan, StoreError>)
  {
    var (found, r) := LookupSql(s, id, now);
    if r.Err? then (found, r)
    else if r.value.environment != env || r.value.digest != digest then (s, Err(Mismatch))
    else if r.value.status != SqlPending then (s, Err(WrongState))
    else (s[id := r.value.(status := Executing)], Ok(r.value.(status := Executing)))
  }

  /** `complete` and `fail`: both need an executing plan, and neither looks at the expiry. */
  function Leave(s: SqlStore, id: PlanId, status: SqlStatus): (SqlStore, Result<(), StoreError>) {
    if id !in s then (s, Err(NotFound))
    else if s[id].status != Executing then (s, Err(WrongState))
    else (s[id := s[id].(status := status)], Ok(()))
  }

  function CancelSql(s: SqlStore, id: PlanId, env: Environment, now: real): (SqlStore, Result<SqlPlan, StoreError>) {
    var (found, r) := LookupSql(s, id, now);
    if r.Err? then (found, r)
    else if r.value.environment != env then (s, Err(Mismatch))
    else if r.value.status != SqlPending then (s, Err(WrongState))
    else (s[id := r.value.(status := SqlCancelled)], Ok(r.value.(status := SqlCancelled)))
  }

  function OpenSql(s: SqlStore, now: real, recover: bool): SqlStore {
    var kept := PurgeSql(s, now);
    map id | id in kept ::
      if recover && kept[id].status == Executing then kept[id].(status := SqlPending) else kept[id]
  }

  /** Creation fails exactly when the unexpired pending and executing plans reach the bound; otherwise it
      stores and shows the given query with the digest that covers it. Of the others exactly the expired go. */
  lemma CreateSqlStores(s: SqlStore, id: PlanId, env: Environment, query: Query, purgeAt: real, stampAt: real,
                        ttl: real, maxPending: nat)
    ensures var (table, r) := CreateSql(s, id, env, query, purgeAt, stampAt, ttl, maxPending);
            && (r.Err? <==>
                  |set x | x in s && s[x].expiresAt > purgeAt && (s[x].status == SqlPending || s[x].status == Executing)| >= maxPending)
            && (r.Err? ==> r.error == CapacityReached)
            && (forall x :: x != id || r.Err? ==> (x in table <==> x in s && s[x].expiresAt > purgeAt))
            && (forall x :: x in table && (x != id || r.Err?) ==> table[x] == s[x])
            && (r.Ok? ==>
                  && id in table && table[id] == r.value && r.value.id == id && r.value.status == SqlPending
                  && r.value.environment == r.value.digest.environment == env && r.value.query == r.value.digest.query == query
                  && r.value.expiresAt == stampAt + ttl)
  {
    var active := set x | x in s && s[x].expiresAt > purgeAt && (s[x].status == SqlPending || s[x].status == Executing);
    assert active == SqlActiveIds(PurgeSql(s, purgeAt));
  }

  /** Who may execute: each answer of an acquire with its exact cause. */
  lemma AcquireSqlAnswers(s: SqlStore, id: PlanId, digest: SqlDigest, env: Environment, now: real)
    ensures var (table, r) := AcquireSql(s, id, digest, env, now);
            var timely := id in s && s[id].expiresAt > now;
            var named := timely && s[id].environment == env && s[id].digest == digest;
            && (r == Err(NotFound) <==> id !in s)
            && (r == Err(Expired) <==> id in s && s[id].expiresAt <= now)
            && (r == Err(Mismatch) <==> timely && !named)
            && (r == Err(WrongState) <==> named && s[id].status in {Executing, Executed, SqlCancelled})
            && (r.Ok? <==> named && s[id].status == SqlPending)
            && (r.Ok? ==> r.value == s[id].(status := Executing) && table == s[id := r.value])
            && (r.Err? ==> table == if r.error == Expired then s - {id} else s)
  {
  }

  /** Only a pending plan of the environment can be cancelled; only an executing one completes or fails. */
  lemma EndingSqlAnswers(s: SqlStore, id: PlanId, env: Environment, status: SqlStatus, now: real)
    ensures var (table, r) := CancelSql(s, id, env, now);
            var timely := id in s && s[id].expiresAt > now;
            && (r == Err(NotFound) <==> id !in s)
            && (r == Err(Expired) <==> id in s && s[id].expiresAt <= now)
            && (r == Err(Mismatch) <==> timely && s[id].environment != env)
            && (r == Err(WrongState) <==> timely && s[id].environment == env && s[id].status != SqlPending)
            && (r.Ok? <==> timely && s[id].environment == env && s[id].status == SqlPending)
            && (r.Ok? ==> r.value == s[id].(status := SqlCancelled) && table == s[id := r.value])
            && (r.Err? ==> table == if r.error == Expired then s - {id} else s)
    ensures var (table, r) := Leave(s, id, status);
            && (r == Err(NotFound) <==> id !in s)
            && (r == Err(WrongState) <==> id in s && s[id].status != Executing)
            && (r.Ok? <==> id in s && s[id].status == Executing)
            && table == if r.Ok? then s[id := s[id].(status := status)] else s
  {
  }

  /** Opening the encrypted store drops exactly the expired plans; with recovery, those found executing are
      pending again, and every other plan is as it was. */
  lemma OpenSqlResets(s: SqlStore, now: real, recover: bool)
    ensures var table := OpenSql(s, now, recover);
            && (forall x :: x in table <==> x in s && s[x].expiresAt > now)
            && forall x :: x in table ==>
                 table[x] == if recover && s[x].status == Executing then s[x].(status := SqlPending) else s[x]
  {
  }

  // ------------------------------------------------------------ in-memory store

  class StoredSqlQueryPlan {
    const id: PlanId
    const digest: SqlDigest
    const environment: Environment
    const query: Query
    const expiresAt: real
    var status: SqlStatus

    constructor (id: PlanId, environment: Environment, query: Query, expiresAt: real)
      ensures Value() == SqlPlan(id, SqlDigest(environment, query), environment, query, expiresAt, SqlPending)
    {
      this.id, digest, this.environment := id, SqlDigest(environment, query), environment;
      this.query, this.expiresAt, status := query, expiresAt, SqlPending;
    }

    function Value(): SqlPlan
      reads this
    {
      SqlPlan(id, digest, environment, query, expiresAt, status)
    }
  }

  class SqlQueryPlanStore {
    const ttl: real
    const maxPending: nat
    var plans: map<PlanId, StoredSqlQueryPlan>

    ghost predicate Valid()
      reads this, plans.Values
    {
      forall id :: id in plans ==> plans[id].id == id
    }

    function Contents(): SqlStore
      reads this, plans.Values
    {
      map id | id in plans :: plans[id].Value()
    }

    constructor (ttl: real, maxPending: nat)
      ensures Valid() && Contents() == map[] && this.ttl == ttl && this.maxPending == maxPending
    {
      this.ttl, this.maxPending, plans := ttl, maxPending, map[];
    }

    method Create(id: PlanId, environment: Environment, query: Query, purgeAt: real, stampAt: real)
      returns (r: Result<SqlPlan, StoreError>)
      requires Valid() && id !in plans
      modifies this
      ensures Valid()
      ensures (Contents(), r) == CreateSql(old(Contents()), id, environment, query, purgeAt, stampAt, ttl, maxPending)
    {
      hide SqlActiveIds;
      PurgeExpired(purgeAt);
      if PendingCount() >= maxPending {
        return Err(CapacityReached);
      }
      var plan := Insert(id, environment, query, stampAt + ttl);
      return Ok(plan.Value());
    }

    method PurgeExpired(now: real)
      requires Valid()
      modifies this
      ensures Valid() && plans.Keys <= old(plans.Keys) && Contents() == PurgeSql(old(Contents()), now)
    {
      plans := map x | x in plans && plans[x].expiresAt > now :: plans[x];
    }

    method Insert(id: PlanId, environment: Environment, query: Query, expiresAt: real) returns (plan: StoredSqlQueryPlan)
      requires Valid() && id !in plans
      modifies this
      ensures Valid() && plan.Value() == SqlPlan(id, SqlDigest(environment, query), environment, query, expiresAt, SqlPending)
      ensures Contents() == old(Contents())[id := plan.Value()]
    {
      plan := new StoredSqlQueryPlan(id, environment, query, expiresAt);
      plans := plans[id := plan];
    }

    function PendingCount(): (n: nat)
      reads this, plans.Values
      ensures n == |SqlActiveIds(Contents())|
    {
      var active := set x | x in plans && (plans[x].status == SqlPending || plans[x].status == Executing);
      assert active == SqlActiveIds(Contents());
      |active|
    }

    method Find(id: PlanId, now: Option<real>) returns (r: Result<StoredSqlQueryPlan, StoreError>)
      requires Valid()
      modifies this
      ensures Valid()
      ensures r.Ok? ==> id in plans && r.value == plans[id] && plans == old(plans)
      ensures now.None? ==> plans == old(plans) && (r.Ok? <==> id in plans) && (r.Err? ==> r.error == NotFound)
      ensures now.Some? ==> var spec := LookupSql(old(Contents()), id, now.value);
                            && Contents() == spec.0
                            && (if spec.1.Ok? then r.Ok? else r == Err(spec.1.error))
    {
      if id !in plans {
        return Err(NotFound);
      }
      if now.Some? && plans[id].expiresAt <= now.value {
        plans := plans - {id};
        assert Contents() == old(Contents()) - {id};
        return Err(Expired);
      }
      return Ok(plans[id]);
    }

    method SetStatus(plan: StoredSqlQueryPlan, status: SqlStatus)
      requires Valid() && plan.id in plans && plans[plan.id] == plan
      modifies plan
      ensures Valid() && Contents() == old(Contents())[plan.id := old(plan.Value()).(status := status)]
    {
      plan.status := status;
    }

    /** The returned plan carries the query that will be executed. */
    method Acquire(id: PlanId, digest: SqlDigest, environment: Environment, now: real)
      returns (r: Result<SqlPlan, StoreError>)
      requires Valid()
      modifies this, plans.Values
      ensures Valid()
      ensures (Contents(), r) == AcquireSql(old(Contents()), id, digest, environment, now)
    {
      var found := Find(id, Some(now));
      if found.Err? {
        return Err(found.error);
      }
      var plan := found.value;
      if plan.environment != environment || plan.digest != digest {
        return Err(Mismatch);
      }
      if plan.status != SqlPending {
        return Err(WrongState);
      }
      SetStatus(plan, Executing);
      return Ok(plan.Value());
    }

    /** `complete` and `fail` */
    method Finish(id: PlanId, status: SqlStatus) returns (r: Result<(), StoreError>)
      requires Valid()
      modifies this, plans.Values
      ensures Valid()
      ensures (Contents(), r) == Leave(old(Contents()), id, status)
    {
      var found := Find(id, None);
      assert Contents() == old(Contents());
      if found.Err? {
        return Err(found.error);
      }
      if found.value.status != Executing {
        return Err(WrongState);
      }
      SetStatus(found.value, status);
      return Ok(());
    }

    method Cancel(id: PlanId, environment: Environment, now: real) returns (r: Result<SqlPlan, StoreError>)
      requires Valid()
      modifies this, plans.Values
      ensures Valid()
      ensures (Contents(), r) == CancelSql(old(Contents()), id, environment, now)
    {
      var found := Find(id, Some(now));
      if found.Err? {
        return Err(found.error);
      }
      var plan := found.value;
      if plan.environment != environment {
        return Err(Mismatch);
      }
      if plan.status != SqlPending {
        return Err(WrongState);
      }
      SetStatus(plan, SqlCancelled);
      return Ok(plan.Value());
    }
  }

  // ------------------------------------------------------------------- machine

  datatype Outcome = Succeeded | Raised

  /** An execution between its acquire and its last store call; `replied` once the query returned. */
  datatype Execution = Execution(id: PlanId, query: Query, replied: Option<Outcome>)

  datatype Event =
    | Started(id: PlanId, query: Query)
    | Completed(id: PlanId)
    | CancelledEvent(id: PlanId)

  /** `created` is every id ever used; `raced` collects plans whose executing status a recovery reset
      while an execution of them was still running, `reset` all plans a recovery found executing, and
      `succeeded` those of which some query has returned. */
  datatype State = State(
    table: SqlStore, created: set<PlanId>, runs: map<nat, Execution>, log: seq<Event>, raced: set<PlanId>,
    reset: set<PlanId>, succeeded: set<PlanId>)

  datatype Config = Config(durable: bool, ttl: real, maxPending: nat)

  datatype Label =
    | PlanQuery(id: PlanId, environment: Environment, query: Query, purgeAt: real, stampAt: real)
    | Start(run: nat, id: PlanId, digest: SqlDigest, environment: Environment, now: real)
    | QueryReturns(run: nat, outcome: Outcome)
    | Settle(run: nat, databaseFails: bool)
    | Lose(run: nat)
    | CancelPlan(id: PlanId, environment: Environment, now: real)
    | GetPlan(id: PlanId, now: real)
    | Restart(now: real, recover: bool)

  ghost predicate RunningPlan(s: State, id: PlanId) {
    exists r :: r in s.runs && s.runs[r].id == id
  }

  function StepPlan(c: Config, s: State, l: Label): State
    requires l.PlanQuery?
  {
    if l.id in s.created then s
    else
      var (table, r) := CreateSql(s.table, l.id, l.environment, l.query, l.purgeAt, l.stampAt, c.ttl, c.maxPending);
      if r.Ok? then s.(table := table, created := s.created + {l.id})
      else if c.durable then s
      else s.(table := table)
  }

  function StepStart(s: State, l: Label): State
    requires l.Start?
  {
    if l.run in s.runs then s
    else
      var (table, r) := AcquireSql(s.table, l.id, l.digest, l.environment, l.now);
      if r.Err? then s.(table := table)
      else s.(table := table, runs := s.runs[l.run := Execution(l.id, r.value.query, None)],
              log := s.log + [Started(l.id, r.value.query)])
  }

  function StepReturn(s: State, l: Label): State
    requires l.QueryReturns?
  {
    if l.run in s.runs && s.runs[l.run].replied.None? then
      s.(runs := s.runs[l.run := s.runs[l.run].(replied := Some(l.outcome))],
         succeeded := if l.outcome == Succeeded then s.succeeded + {s.runs[l.run].id} else s.succeeded)
    else s
  }

  function StepSettle(c: Config, s: State, l: Label): State
    requires l.Settle?
  {
    if l.run !in s.runs || s.runs[l.run].replied.None? then s
    else
      var id := s.runs[l.run].id;
      var done := s.runs[l.run].replied.value == Succeeded;
      var (table, r) := Leave(s.table, id, if done then Executed else SqlPending);
      var gone := s.(runs := s.runs - {l.run});
      if c.durable && l.databaseFails then gone
      else gone.(table := table, log := if done && r.Ok? then s.log + [Completed(id)] else s.log)
  }

  function StepCancel(s: State, l: Label): State
    requires l.CancelPlan?
  {
    var (table, r) := CancelSql(s.table, l.id, l.environment, l.now);
    s.(table := table, log := if r.Ok? then s.log + [CancelledEvent(l.id)] else s.log)
  }

  function ExecutingIds(s: SqlStore): set<PlanId> {
    set id | id in s && s[id].status == Executing
  }

  /** A restart empties the in-memory store and ends its executions; opening the encrypted store keeps
      its rows, and executions of other processes keep running. */
  ghost function StepRestart(c: Config, s: State, l: Label): State
    requires l.Restart?
  {
    if !c.durable then s.(table := map[], runs := map[])
    else
      var opening := s.(table := OpenSql(s.table, l.now, l.recover));
      if !l.recover then opening
      else opening.(raced := s.raced + (set id | id in ExecutingIds(s.table) && RunningPlan(s, id)),
                    reset := s.reset + ExecutingIds(s.table))
  }

  ghost function Step(c: Config, s: State, l: Label): State {
    match l
    case PlanQuery(_, _, _, _, _) => StepPlan(c, s, l)
    case Start(_, _, _, _, _) => StepStart(s, l)
    case QueryReturns(_, _) => StepReturn(s, l)
    case Settle(_, _) => StepSettle(c, s, l)
    case Lose(run) => s.(runs := s.runs - {run})
    case CancelPlan(_, _, _) => StepCancel(s, l)
    case GetPlan(id, now) => s.(table := LookupSql(s.table, id, now).0)
    case Restart(_, _) => StepRestart(c, s, l)
  }

  function Initial(): State {
    State(map[], {}, map[], [], {}, {}, {})
  }

  ghost function Run(c: Config, labels: seq<Label>): State {
    if labels == [] then Initial() else Step(c, Run(c, labels[..|labels| - 1]), labels[|labels| - 1])
  }

  // ----------------------------------------------------------------- invariant

  ghost predicate Ended(s: State, id: PlanId, k: int) {
    0 <= k < |s.log| && (s.log[k] == Completed(id) || s.log[k] == CancelledEvent(id))
  }

  /** A plan ends at most once, ends only by the status it is left in, and never starts after that. */
  ghost predicate LogOk(s: State, id: PlanId) {
    && (forall k :: Ended(s, id, k) ==>
          && (id in s.table ==> s.table[id].status == if s.log[k].Completed? then Executed else SqlCancelled)
          && forall j :: k < j < |s.log| ==> !Ended(s, id, j) && !(s.log[j].Started? && s.log[j].id == id))
    && (id !in s.created ==> forall k :: 0 <= k < |s.log| ==> s.log[k].id != id)
  }

  /** Without a race, the executing status stands for the one running execution. */
  ghost predicate SoleExecution(s: State, id: PlanId) {
    && (forall r :: r in s.runs && s.runs[r].id == id && id in s.table ==> s.table[id].status == Executing)
    && (forall r, q :: r in s.runs && q in s.runs && s.runs[r].id == id && s.runs[q].id == id ==> r == q)
  }

  /** After a success, and as long as no recovery found the plan executing, it stays away from pending. */
  ghost predicate SuccessOk(s: State, id: PlanId) {
    id in s.succeeded && id !in s.reset ==>
      && (id in s.table ==> s.table[id].status == Executing || s.table[id].status == Executed)
      && (forall r :: r in s.runs && s.runs[r].id == id ==> s.runs[r].replied == Some(Succeeded))
  }

  ghost predicate RowsOk(s: State) {
    && s.table.Keys <= s.created && s.succeeded <= s.created && s.raced <= s.reset
    && (forall id :: id in s.table ==> s.table[id].id == id && s.table[id].digest == SqlDigest(s.table[id].environment, s.table[id].query))
    && (forall r :: r in s.runs ==> s.runs[r].id in s.created)
  }

  ghost predicate Inv(s: State) {
    && RowsOk(s)
    && (forall id :: LogOk(s, id))
    && (forall id :: id !in s.raced ==> SoleExecution(s, id))
    && (forall id :: SuccessOk(s, id))
  }

  /** Statuses that end a plan are kept as long as the row exists, and rows do not come back. */
  ghost predicate TableStep(s: State, s': State) {
    && s'.created == s.created
    && s'.table.Keys <= s.table.Keys
    && forall id :: id in s'.table ==>
         && s'.table[id].(status := s.table[id].status) == s.table[id]
         && (s.table[id].status == Executed || s.table[id].status == SqlCancelled ==> s'.table[id].status == s.table[id].status)
  }

  lemma TableStepKeepsLog(s: State, s': State, id: PlanId)
    requires LogOk(s, id) && TableStep(s, s') && s'.log == s.log
    ensures LogOk(s', id)
  {
    forall k | Ended(s', id, k)
      ensures Ended(s, id, k)
    {
    }
  }

  /** One more event about `e.id`, a plan that had not ended. */
  lemma NewEventKeepsLog(s: State, s': State, e: Event, id: PlanId)
    requires LogOk(s, id) && TableStep(s, s') && s'.log == s.log + [e] && e.id in s.created
    requires e.id == id ==> id in s.table && s.table[id].status != Executed && s.table[id].status != SqlCancelled
    requires e.id == id && !e.Started? && id in s'.table ==>
               s'.table[id].status == if e.Completed? then Executed else SqlCancelled
    ensures LogOk(s', id)
  {
    if e.id == id {
      forall k | Ended(s, id, k)
        ensures false
      {
      }
    }
    forall k | Ended(s', id, k)
      ensures k < |s.log| ==> Ended(s, id, k)
    {
    }
  }

  lemma PlanKeepsRows(c: Config, s: State, l: Label)
    requires RowsOk(s) && l.PlanQuery?
    ensures RowsOk(StepPlan(c, s, l))
  {
  }

  lemma StartKeepsRows(s: State, l: Label)
    requires RowsOk(s) && l.Start?
    ensures RowsOk(StepStart(s, l))
  {
  }

  lemma SettleKeepsRows(c: Config, s: State, l: Label)
    requires RowsOk(s) && l.Settle?
    ensures RowsOk(StepSettle(c, s, l))
  {
  }

  lemma RestartKeepsRows(c: Config, s: State, l: Label)
    requires RowsOk(s) && l.Restart?
    ensures RowsOk(StepRestart(c, s, l))
  {
  }

  lemma StepKeepsRows(c: Config, s: State, l: Label)
    requires RowsOk(s)
    ensures RowsOk(Step(c, s, l))
  {
    hide StepPlan, StepStart, StepSettle, StepRestart;
    match l
    case PlanQuery(_, _, _, _, _) => PlanKeepsRows(c, s, l);
    case Start(_, _, _, _, _) => StartKeepsRows(s, l);
    case Settle(_, _) => SettleKeepsRows(c, s, l);
    case Restart(_, _) => RestartKeepsRows(c, s, l);
    case _ =>
  }

  lemma StartKeepsLog(s: State, l: Label, id: PlanId)
    requires RowsOk(s) && LogOk(s, id) && l.Start?
    ensures LogOk(StepStart(s, l), id)
  {
    hide LogOk;
    if l.run !in s.runs {
      var r := AcquireSql(s.table, l.id, l.digest, l.environment, l.now).1;
      if r.Err? {
        TableStepKeepsLog(s, StepStart(s, l), id);
      } else {
        NewEventKeepsLog(s, StepStart(s, l), Started(l.id, r.value.query), id);
      }
    }
  }

  lemma SettleKeepsLog(c: Config, s: State, l: Label, id: PlanId)
    requires RowsOk(s) && LogOk(s, id) && l.Settle?
    ensures LogOk(StepSettle(c, s, l), id)
  {
    hide LogOk;
    var s' := StepSettle(c, s, l);
    if s' != s {
      if s'.log == s.log {
        TableStepKeepsLog(s, s', id);
      } else {
        NewEventKeepsLog(s, s', Completed(s.runs[l.run].id), id);
      }
    }
  }

  lemma CancelKeepsLog(s: State, l: Label, id: PlanId)
    requires RowsOk(s) && LogOk(s, id) && l.CancelPlan?
    ensures LogOk(StepCancel(s, l), id)
  {
    hide LogOk;
    var s' := StepCancel(s, l);
    if s'.log == s.log {
      TableStepKeepsLog(s, s', id);
    } else {
      NewEventKeepsLog(s, s', CancelledEvent(l.id), id);
    }
  }

  lemma PlanKeepsLog(c: Config, s: State, l: Label, id: PlanId)
    requires RowsOk(s) && LogOk(s, id) && l.PlanQuery?
    ensures LogOk(StepPlan(c, s, l), id)
  {
    var s' := StepPlan(c, s, l);
    forall k | Ended(s', id, k)
      ensures Ended(s, id, k)
    {
    }
  }

  lemma StepKeepsLog(c: Config, s: State, l: Label, id: PlanId)
    requires RowsOk(s) && LogOk(s, id)
    ensures LogOk(Step(c, s, l), id)
  {
    hide LogOk, StepPlan, StepStart, StepSettle, StepCancel;
    match l
    case PlanQuery(_, _, _, _, _) => PlanKeepsLog(c, s, l, id);
    case Start(_, _, _, _, _) => StartKeepsLog(s, l, id);
    case Settle(_, _) => SettleKeepsLog(c, s, l, id);
    case CancelPlan(_, _, _) => CancelKeepsLog(s, l, id);
    case _ => TableStepKeepsLog(s, Step(c, s, l), id);
  }

  lemma RestartKeepsSole(c: Config, s: State, l: Label, id: PlanId)
    requires l.Restart? && id !in StepRestart(c, s, l).raced && (id !in s.raced ==> SoleExecution(s, id))
    ensures SoleExecution(StepRestart(c, s, l), id)
  {
    var s' := StepRestart(c, s, l);
    forall r | r in s'.runs && s'.runs[r].id == id && id in s'.table
      ensures s'.table[id].status == Executing
    {
      assert RunningPlan(s, id);
      assert id in ExecutingIds(s.table);
    }
  }

  lemma StepKeepsSole(c: Config, s: State, l: Label, id: PlanId)
    requires RowsOk(s) && (id !in s.raced ==> SoleExecution(s, id)) && id !in Step(c, s, l).raced
    ensures SoleExecution(Step(c, s, l), id)
  {
    hide StepRestart, StepStart, StepSettle;
    match l
    case Restart(_, _) => RestartKeepsSole(c, s, l, id);
    case Start(_, _, _, _, _) => StartKeepsSole(s, l, id);
    case Settle(_, _) => SettleKeepsSole(c, s, l, id);
    case _ =>
  }

  lemma StartKeepsSole(s: State, l: Label, id: PlanId)
    requires l.Start? && id !in StepStart(s, l).raced && (id !in s.raced ==> SoleExecution(s, id))
    ensures SoleExecution(StepStart(s, l), id)
  {
  }

  lemma SettleKeepsSole(c: Config, s: State, l: Label, id: PlanId)
    requires l.Settle? && id !in StepSettle(c, s, l).raced && (id !in s.raced ==> SoleExecution(s, id))
    ensures SoleExecution(StepSettle(c, s, l), id)
  {
  }

  lemma RestartKeepsSuccess(c: Config, s: State, l: Label, id: PlanId)
    requires l.Restart? && SuccessOk(s, id)
    ensures SuccessOk(StepRestart(c, s, l), id)
  {
    if id in s.table && s.table[id].status == Executing {
      assert id in ExecutingIds(s.table);
    }
  }

  /** The one running execution of a plan returns: it is executing, and nothing else of it runs. */
  lemma ReturnKeepsSuccess(s: State, l: Label, id: PlanId)
    requires RowsOk(s) && l.QueryReturns? && SuccessOk(s, id) && (id !in s.raced ==> SoleExecution(s, id))
    ensures SuccessOk(StepReturn(s, l), id)
  {
  }

  lemma StepKeepsSuccess(c: Config, s: State, l: Label, id: PlanId)
    requires RowsOk(s) && SuccessOk(s, id) && (id !in s.raced ==> SoleExecution(s, id))
    ensures SuccessOk(Step(c, s, l), id)
  {
    hide SoleExecution;
    if l.QueryReturns? {
      hide SuccessOk;
      ReturnKeepsSuccess(s, l, id);
    } else if l.Restart? {
      hide SuccessOk;
      RestartKeepsSuccess(c, s, l, id);
    }
  }

  lemma StepKeepsInv(c: Config, s: State, l: Label)
    requires Inv(s)
    ensures Inv(Step(c, s, l))
  {
    hide Step, RowsOk, LogOk, SoleExecution, SuccessOk;
    var s' := Step(c, s, l);
    StepKeepsRows(c, s, l);
    forall id
      ensures LogOk(s', id) && SuccessOk(s', id)
    {
      assert LogOk(s, id) && SuccessOk(s, id);
      StepKeepsLog(c, s, l, id);
      StepKeepsSuccess(c, s, l, id);
    }
    forall id | id !in s'.raced
      ensures SoleExecution(s', id)
    {
      StepKeepsSole(c, s, l, id);
    }
  }

  lemma {:induction false} RunKeepsInv(c: Config, labels: seq<Label>)
    ensures Inv(Run(c, labels))
  {
    hide Step, Inv;
    if labels == [] {
      InitialInv();
    } else {
      RunKeepsInv(c, labels[..|labels| - 1]);
      StepKeepsInv(c, Run(c, labels[..|labels| - 1]), labels[|labels| - 1]);
    }
  }

  lemma InitialInv()
    ensures Inv(Initial())
  {
    forall id
      ensures LogOk(Initial(), id)
    {
    }
  }

  // -------------------------------------------------------------- main theorems

  /** In every run, recovery or not: a plan completes or is cancelled at most once in all, the two
      exclude each other, and no execution of it starts afterwards. */
  lemma PlansEndOnce(c: Config, labels: seq<Label>, id: PlanId, k: int)
    requires Ended(Run(c, labels), id, k)
    ensures var s := Run(c, labels);
            forall j :: 0 <= j < |s.log| && j != k ==>
              && !Ended(s, id, j)
              && (j > k ==> !(s.log[j].Started? && s.log[j].id == id))
  {
    hide Run;
    RunKeepsInv(c, labels);
    var s := Run(c, labels);
    assert LogOk(s, id);
    forall j | 0 <= j < k && Ended(s, id, j)
      ensures false
    {
    }
  }

  /** Executions of one plan overlap only after a recovery reset it under a running execution. */
  lemma ExecutionsDoNotOverlap(c: Config, labels: seq<Label>, r: nat, q: nat)
    requires var s := Run(c, labels); r in s.runs && q in s.runs && r != q && s.runs[r].id == s.runs[q].id
    ensures Run(c, labels).runs[r].id in Run(c, labels).raced
  {
    hide Run;
    RunKeepsInv(c, labels);
    var s := Run(c, labels);
    assert s.runs[r].id !in s.raced ==> SoleExecution(s, s.runs[r].id);
  }

  /** And every such recovery opens an overlap: from any reachable state with a running execution of an
      unexpired executing plan, recovery lets the same approved request start a second one. */
  lemma RacingRecoveryAllowsOverlap(c: Config, labels: seq<Label>, r: nat, q: nat, now: real)
    requires c.durable
    requires var s := Run(c, labels);
             && r in s.runs && q !in s.runs
             && s.runs[r].id in s.table && s.table[s.runs[r].id].status == Executing && s.table[s.runs[r].id].expiresAt > now
    ensures var s := Run(c, labels);
            var p := s.table[s.runs[r].id];
            var s' := Step(c, Step(c, s, Restart(now, true)), Start(q, p.id, p.digest, p.environment, now));
            r in s'.runs && q in s'.runs && s'.runs[r].id == s'.runs[q].id
  {
    hide Run;
    RunKeepsInv(c, labels);
    var s := Run(c, labels);
    assert s.runs[r].id in PurgeSql(s.table, now);
  }

  /** A plan some query of which has returned is executed again only after a recovery found it executing:
      as long as none did, a success is final even if its completion was lost. */
  lemma SuccessRepeatsOnlyAfterReset(c: Config, labels: seq<Label>, run: nat, id: PlanId, digest: SqlDigest,
                                     env: Environment, now: real)
    requires var s := Run(c, labels);
             id in s.succeeded && run !in s.runs && run in Step(c, s, Start(run, id, digest, env, now)).runs
    ensures id in Run(c, labels).reset
  {
    hide Run, LogOk, SoleExecution, RowsOk;
    RunKeepsInv(c, labels);
    assert SuccessOk(Run(c, labels), id);
  }

  /** And every success whose completion is lost can be repeated so: the store call fails, or the process
      dies before it, recovery follows, and the same approved request starts the query again. */
  lemma LostCompletionAllowsRepeat(c: Config, labels: seq<Label>, r: nat, lost: Label, now: real)
    requires c.durable && (lost == Settle(r, true) || lost == Lose(r))
    requires var s := Run(c, labels);
             && r in s.runs && s.runs[r].replied == Some(Succeeded)
             && s.runs[r].id in s.table && s.table[s.runs[r].id].status == Executing && s.table[s.runs[r].id].expiresAt > now
    ensures var s := Run(c, labels);
            var p := s.table[s.runs[r].id];
            var s' := Step(c, Step(c, Step(c, s, lost), Restart(now, true)), Start(r, p.id, p.digest, p.environment, now));
            r in s'.runs && s'.runs[r].query == p.query && s'.log == s.log + [Started(p.id, p.query)]
  {
    hide Run, LogOk, SoleExecution, SuccessOk;
    RunKeepsInv(c, labels);
    var s := Run(c, labels);
    var s1 := Step(c, s, lost);
    assert s1.table == s.table && r !in s1.runs && s1.log == s.log;
    var s2 := Step(c, s1, Restart(now, true));
    assert s.runs[r].id in PurgeSql(s.table, now);
    assert s2.runs == s1.runs && s2.log == s.log;
  }

  /** Every execution runs the query its digest approved. */
  lemma ApprovedQueryIsRun(c: Config, labels: seq<Label>, run: nat, id: PlanId, digest: SqlDigest, env: Environment, now: real)
    requires var s := Run(c, labels); run !in s.runs && AcquireSql(s.table, id, digest, env, now).1.Ok?
    ensures var s := Run(c, labels);
            var s' := Step(c, s, Start(run, id, digest, env, now));
            s'.log == s.log + [Started(id, digest.query)] && s'.runs[run].query == digest.query
  {
    hide Run, LogOk, SoleExecution;
    RunKeepsInv(c, labels);
  }

  ghost function Continue(c: Config, s: State, labels: seq<Label>): State {
    if labels == [] then s else Step(c, Continue(c, s, labels[..|labels| - 1]), labels[|labels| - 1])
  }

  /** The step may change the plan: it acquires or cancels it while it is pending, sees it expired, or ends
      the process that keeps it. */
  predicate MayChange(c: Config, l: Label, p: SqlPlan) {
    match l
    case PlanQuery(_, _, _, purgeAt, _) => p.expiresAt <= purgeAt
    case Start(_, id, _, _, now) => id == p.id && (p.status == SqlPending || p.expiresAt <= now)
    case CancelPlan(id, _, now) => id == p.id && (p.status == SqlPending || p.expiresAt <= now)
    case GetPlan(id, now) => id == p.id && p.expiresAt <= now
    case Restart(now, _) => !c.durable || p.expiresAt <= now
    case _ => false
  }

  ghost predicate NoneMayChange(c: Config, labels: seq<Label>, p: SqlPlan) {
    forall i :: 0 <= i < |labels| ==> !MayChange(c, labels[i], p)
  }

  /** A plan that is not executing stays as it is until such a step. */
  lemma {:induction false} IdlePlanStays(c: Config, s: State, labels: seq<Label>, id: PlanId)
    requires Inv(s) && id in s.table && s.table[id].status != Executing
    requires NoneMayChange(c, labels, s.table[id])
    ensures var s' := Continue(c, s, labels); Inv(s') && id in s'.table && s'.table[id] == s.table[id]
  {
    hide Inv, Step;
    if labels != [] {
      var before, l := labels[..|labels| - 1], labels[|labels| - 1];
      IdlePlanStays(c, s, before, id);
      assert !MayChange(c, l, s.table[id]);
      StepKeepsInv(c, Continue(c, s, before), l);
      StepLeavesIdle(c, Continue(c, s, before), l, id);
    }
  }

  lemma StepLeavesIdle(c: Config, s: State, l: Label, id: PlanId)
    requires Inv(s) && id in s.table && s.table[id].status != Executing && !MayChange(c, l, s.table[id])
    ensures id in Step(c, s, l).table && Step(c, s, l).table[id] == s.table[id]
  {
    hide LogOk, SoleExecution, SuccessOk, SqlActiveIds;
  }

  /** Only what belongs to the execution itself, or ends its process, changes an execution. */
  predicate EndsRun(c: Config, l: Label, run: nat) {
    ((l.QueryReturns? || l.Settle? || l.Lose?) && l.run == run) || (l.Restart? && !c.durable)
  }

  lemma {:induction false} ExecutionWaits(c: Config, s: State, labels: seq<Label>, run: nat)
    requires Inv(s) && run in s.runs && forall i :: 0 <= i < |labels| ==> !EndsRun(c, labels[i], run)
    ensures var s' := Continue(c, s, labels); Inv(s') && run in s'.runs && s'.runs[run] == s.runs[run]
  {
    hide Inv, Step;
    if labels != [] {
      var before, l := labels[..|labels| - 1], labels[|labels| - 1];
      ExecutionWaits(c, s, before, run);
      assert !EndsRun(c, l, run);
      StepKeepsInv(c, Continue(c, s, before), l);
      StepLeavesExecution(c, Continue(c, s, before), l, run);
    }
  }

  lemma StepLeavesExecution(c: Config, s: State, l: Label, run: nat)
    requires run in s.runs && !EndsRun(c, l, run)
    ensures run in Step(c, s, l).runs && Step(c, s, l).runs[run] == s.runs[run]
  {
    hide SqlActiveIds;
  }

  /** A returned query waits to settle with its outcome; a success is remembered. */
  lemma ReturnIsRemembered(c: Config, s: State, run: nat, outcome: Outcome)
    requires run in s.runs && s.runs[run].replied.None?
    ensures var s' := Step(c, s, QueryReturns(run, outcome));
            && run in s'.runs && s'.runs[run] == Execution(s.runs[run].id, s.runs[run].query, Some(outcome))
            && s'.table == s.table && s'.log == s.log
            && forall id :: id in s'.succeeded <==> id in s.succeeded || (id == s.runs[run].id && outcome == Succeeded)
  {
  }

  /** A planning request that meets the bound stores nothing: the encrypted store rolls its purge back, the
      in-memory store keeps it. Any other stores its plan. */
  lemma PlanningStoresOnePlan(c: Config, s: State, id: PlanId, env: Environment, query: Query, purgeAt: real, stampAt: real)
    requires Inv(s) && id !in s.created
    ensures var s' := Step(c, s, PlanQuery(id, env, query, purgeAt, stampAt));
            var full := |SqlActiveIds(PurgeSql(s.table, purgeAt))| >= c.maxPending;
            && (full ==> s'.created == s.created && s'.table == if c.durable then s.table else PurgeSql(s.table, purgeAt))
            && (!full ==> s'.created == s.created + {id} && id in s'.table && s'.table[id].query == query
                          && s'.table[id].status == SqlPending)
  {
    hide SqlActiveIds, PurgeSql, LogOk, SoleExecution, SuccessOk;
  }

  /** What becomes of an executing plan when its query has returned and the database works: a success leaves
      it executed, which is logged; a failure leaves it pending, unlogged. */
  lemma SettlingDecides(c: Config, s: State, run: nat, databaseFails: bool)
    requires Inv(s) && run in s.runs && s.runs[run].replied.Some?
    ensures var id := s.runs[run].id;
            var success := s.runs[run].replied.value == Succeeded;
            var s' := Step(c, s, Settle(run, databaseFails));
            var recorded := id in s.table && s.table[id].status == Executing && !(c.durable && databaseFails);
            && s'.runs == s.runs - {run}
            && s'.table == (if recorded then s.table[id := s.table[id].(status := if success then Executed else SqlPending)]
                            else s.table)
            && s'.log == (if recorded && success then s.log + [Completed(id)] else s.log)
  {
    hide LogOk, SoleExecution, SuccessOk;
  }

  /** A query that raised can be run again: however long its execution waits to settle, and whatever follows
      that leaves the plan alone, the same approved request starts it once more while it is not expired. */
  lemma FailedQueryRunsAgain(c: Config, s: State, run: nat, before: seq<Label>, after: seq<Label>, next: nat, now: real)
    requires Inv(s) && run in s.runs && s.runs[run].replied.None?
    requires forall i :: 0 <= i < |before| ==> !EndsRun(c, before[i], run)
    requires var id := s.runs[run].id;
             var s1 := Continue(c, Step(c, s, QueryReturns(run, Raised)), before);
             && id in s1.table && s1.table[id].status == Executing && now < s1.table[id].expiresAt
             && NoneMayChange(c, after, s1.table[id].(status := SqlPending))
             && next !in Continue(c, Step(c, s1, Settle(run, false)), after).runs
    ensures var id := s.runs[run].id;
            var p := Continue(c, Step(c, s, QueryReturns(run, Raised)), before).table[id];
            var s2 := Continue(c, Step(c, Continue(c, Step(c, s, QueryReturns(run, Raised)), before), Settle(run, false)), after);
            var s3 := Step(c, s2, Start(next, id, p.digest, p.environment, now));
            && next in s3.runs && s3.runs[next] == Execution(id, p.query, None)
            && s3.log == s2.log + [Started(id, p.query)]
            && id in s3.table && s3.table[id].status == Executing
  {
    var id := s.runs[run].id;
    var s0 := Step(c, s, QueryReturns(run, Raised));
    assert s0.runs[run] == Execution(id, s.runs[run].query, Some(Raised));
    hide Inv, Step;
    StepKeepsInv(c, s, QueryReturns(run, Raised));
    ExecutionWaits(c, s0, before, run);
    var s1 := Continue(c, s0, before);
    SettlingDecides(c, s1, run, false);
    StepKeepsInv(c, s1, Settle(run, false));
    var pending := Step(c, s1, Settle(run, false));
    IdlePlanStays(c, pending, after, id);
    PendingPlanStarts(c, Continue(c, pending, after), next, id, now);
  }

  lemma PendingPlanStarts(c: Config, s: State, run: nat, id: PlanId, now: real)
    requires Inv(s) && run !in s.runs && id in s.table && s.table[id].status == SqlPending && now < s.table[id].expiresAt
    ensures var p := s.table[id];
            var s' := Step(c, s, Start(run, id, p.digest, p.environment, now));
            && run in s'.runs && s'.runs[run] == Execution(id, p.query, None)
            && s'.log == s.log + [Started(id, p.query)]
            && id in s'.table && s'.table[id].status == Executing
  {
    hide LogOk, SoleExecution, SuccessOk;
  }

  /** A query that succeeded is done with: once its completion is recorded, requests and lookups before it
      expires leave the plan executed, and none starts it again. */
  lemma SuccessfulQueryIsFinal(c: Config, s: State, run: nat, after: seq<Label>, next: nat, digest: SqlDigest,
                               env: Environment, now: real)
    requires Inv(s) && run in s.runs && s.runs[run].replied == Some(Succeeded)
    requires var id := s.runs[run].id;
             && id in s.table && s.table[id].status == Executing
             && NoneMayChange(c, after, s.table[id].(status := Executed))
    ensures var id := s.runs[run].id;
            var s2 := Continue(c, Step(c, s, Settle(run, false)), after);
            && id in s2.table && s2.table[id].status == Executed
            && (next !in s2.runs ==> next !in Step(c, s2, Start(next, id, digest, env, now)).runs)
  {
    hide Inv, Step;
    SettlingDecides(c, s, run, false);
    StepKeepsInv(c, s, Settle(run, false));
    var id := s.runs[run].id;
    IdlePlanStays(c, Step(c, s, Settle(run, false)), after, id);
    var s2 := Continue(c, Step(c, s, Settle(run, false)), after);
    if next !in s2.runs {
      ExecutedDoesNotStart(c, s2, next, id, digest, env, now);
    }
  }

  lemma ExecutedDoesNotStart(c: Config, s: State, run: nat, id: PlanId, digest: SqlDigest, env: Environment, now: real)
    requires id in s.table && s.table[id].status == Executed && run !in s.runs
    ensures run !in Step(c, s, Start(run, id, digest, env, now)).runs
  {
  }

  /** A failed execution puts the plan back to pending any number of times; the number of active
      plans still never exceeds the bound. */
  lemma {:induction false} ActiveSqlPlansStayBounded(c: Config, labels: seq<Label>)
    ensures |SqlActiveIds(Run(c, labels).table)| <= c.maxPending
  {
    hide Step;
    if labels == [] {
      assert SqlActiveIds(Initial().table) == {};
    } else {
      var before, l := labels[..|labels| - 1], labels[|labels| - 1];
      ActiveSqlPlansStayBounded(c, before);
      StepKeepsBound(c, Run(c, before), l);
    }
  }

  lemma StepKeepsBound(c: Config, s: State, l: Label)
    requires |SqlActiveIds(s.table)| <= c.maxPending
    ensures |SqlActiveIds(Step(c, s, l).table)| <= c.maxPending
  {
    hide SqlActiveIds, Step;
    var s' := Step(c, s, l);
    if l.PlanQuery? {
      PlanningKeepsBound(c, s, l);
    } else {
      StepAddsNoActive(c, s, l);
      SubsetSize(SqlActiveIds(s'.table), SqlActiveIds(s.table));
    }
  }

  lemma StepAddsNoActive(c: Config, s: State, l: Label)
    requires !l.PlanQuery?
    ensures SqlActiveIds(Step(c, s, l).table) <= SqlActiveIds(s.table)
  {
    var s' := Step(c, s, l);
    forall id | id in s'.table && SqlActive(s'.table[id])
      ensures id in s.table && SqlActive(s.table[id])
    {
    }
  }

  lemma PlanningKeepsBound(c: Config, s: State, l: Label)
    requires |SqlActiveIds(s.table)| <= c.maxPending && l.PlanQuery?
    ensures |SqlActiveIds(Step(c, s, l).table)| <= c.maxPending
  {
    hide SqlActiveIds, PurgeSql;
    var kept := PurgeSql(s.table, l.purgeAt);
    PurgedActive(s.table, l.purgeAt);
    SubsetSize(SqlActiveIds(kept), SqlActiveIds(s.table));
    var p := SqlPlan(l.id, SqlDigest(l.environment, l.query), l.environment, l.query, l.stampAt + c.ttl, SqlPending);
    AddedActive(kept, p);
    SubsetSize(SqlActiveIds(kept[l.id := p]), SqlActiveIds(kept) + {l.id});
  }

  lemma PurgedActive(s: SqlStore, now: real)
    ensures SqlActiveIds(PurgeSql(s, now)) <= SqlActiveIds(s)
  {
  }

  lemma AddedActive(s: SqlStore, p: SqlPlan)
    ensures SqlActiveIds(s[p.id := p]) <= SqlActiveIds(s) + {p.id}
  {
  }
}
