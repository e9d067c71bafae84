/** Whole runs of the two-phase write protocol. Any number of apply calls, plan
    requests, cancellations, lookups, purges, losses of a running call (task
    cancellation or crash) and restarts interleave; each label below is what one
    task does between two suspension points. A label that does not apply to the
    current state leaves it unchanged, so a run is any sequence of labels. */
module WriteProtocol {
  import opened Common
  import opened WritePolicy
  import opened WritePlans

  datatype StoreKind = InMemory | Durable

  datatype Config = Config(kind: StoreKind, ttl: real, maxPending: nat, text: Text)

  /** The exceptions a client call can raise. */
  datatype ClientError =
    | Conflict
    | Transport
    | Protocol
    | Configuration
    | FormNotFound
    | FieldAmbiguous
    | FieldNotQueryable
    | Closed
    | AdminRequired
    | OtherException

  /** `_arapi_outcome_unknown`; a plain exception before success counts as known too. */
  predicate OutcomeIsUnknown(e: ClientError) {
    e == Transport || e == Protocol
  }

  datatype Reply = Success(entryId: Option<string>) | Refused(error: ClientError)

  predicate DefiniteRefusal(r: Reply) {
    r.Refused? && !OutcomeIsUnknown(r.error)
  }

  /** A refusal that the bridge or the server sent back. */
  predicate RefusedByServer(r: Reply) {
    r.Refused? && r.error in {Conflict, FormNotFound, FieldAmbiguous, FieldNotQueryable, AdminRequired}
  }

  /** An exception that arose in the client itself, which does not say whether anything was sent. */
  predicate RaisedLocally(r: Reply) {
    r.Refused? && r.error in {Configuration, Closed, OtherException}
  }

  /** Where an apply call is suspended: at the rate limiter, at the client, or on its way to `fail`. */
  datatype Phase =
    | Limiting(values: Dict)
    | Awaiting(reply: Reply)
    | Failing(outcomeUnknown: bool)

  datatype Apply = Apply(
    planId: PlanId, digest: Digest, operation: Operation, environment: Environment,
    policy: Policy, delivered: Dict, copy: Plan, phase: Phase)

  /** One write call handed to the backend client, and whether it took effect there. */
  datatype Call = Call(
    planId: PlanId,
    digest: Digest,
    operation: Operation,
    form: string,
    entryId: Option<string>,
    values: Dict,
    precondition: Option<string>,
    policy: Policy,
    delivered: Dict,
    reply: Reply,
    landed: bool)

  datatype ApplyError = OutcomeUnknownToCaller | WriteNotMade | StoreProblem(problem: StoreError)

  datatype Answer = Answer(planId: PlanId, replayed: bool, outcome: Result<ApplyResult, ApplyError>)

  /** `heap` holds every plan object ever created, `dict` the ids the store still lists. */
  datatype State = State(
    config: Config,
    dict: set<PlanId>,
    heap: map<PlanId, Plan>,
    applies: map<nat, Apply>,
    calls: seq<Call>,
    answers: seq<Answer>,
    reviews: map<PlanId, Review>)

  /** History: the policy and the gated values under which a plan was shown for review. */
  datatype Review = Review(policy: Policy, values: Dict)

  datatype Label =
    | PlanWrite(id: PlanId, policy: Policy, operation: Operation, environment: Environment, form: string,
                entryId: string, current: Dict, values: Dict, reason: string, precondition: string,
                purgeAt: real, stampAt: real)
    | StartApply(apply: nat, id: PlanId, digest: Digest, operation: Operation, environment: Environment,
                 now: real, policy: Policy, delivered: Dict)
    | RefuseLocally(apply: nat)
    | Send(apply: nat, reply: Reply, landed: bool)
    | Receive(apply: nat, databaseFails: bool)
    | Settle(apply: nat, databaseFails: bool)
    | Lose(apply: nat)
    | CancelPlan(id: PlanId, environment: Environment, now: real)
    | GetPlan(id: PlanId, environment: Environment, now: real)
    | Restart(now: real, recover: bool)

  function Table(s: State): Store {
    map id | id in s.dict && id in s.heap :: s.heap[id]
  }

  /** Install a new table: plans dropped from it are cleared in place, as other holders see. */
  function Commit(s: State, table: Store): State {
    s.(dict := table.Keys, heap := Committed(s.heap, s.dict, table))
  }

  /** The plan object an apply call reads: the stored object itself, or a decoded private copy. */
  function Seen(s: State, a: Apply): Plan {
    if s.config.kind == InMemory && a.planId in s.heap then s.heap[a.planId] else a.copy
  }

  function MakeBody(l: Label, proposed: Dict): Body
    requires l.PlanWrite?
  {
    match l.operation
    case CreateEntry => Body(CreateEntry, l.environment, l.form, None, None, proposed, l.reason, None)
    case UpdateEntry =>
      Body(UpdateEntry, l.environment, l.form, Some(l.entryId), Some(l.current), proposed, l.reason, Some(l.precondition))
  }

  /** `plan_create_for_form` and `plan_update`: the request model only admits names distinct up to case. */
  ghost function StepPlan(s: State, l: Label): State
    requires l.PlanWrite?
  {
    var gate := EnforceWrite(s.config.text, l.policy, l.operation, l.form, l.values, l.reason);
    if l.id in s.heap || !FoldDistinct(s.config.text, l.values) || gate.Err? then s
    else
      var (table, r) := Create(Table(s), l.id, MakeBody(l, gate.value), l.purgeAt, l.stampAt, s.config.ttl, s.config.maxPending);
      if r.Err? then
        if s.config.kind == Durable then s else Commit(s, table)
      else Commit(s, table).(reviews := s.reviews[l.id := Review(l.policy, gate.value)])
  }

  /** The order in which a store hands back proposed values: as they were put in, or, from the
      encrypted payload, whose JSON is written with sorted keys, some other order. */
  predicate MayDeliver(kind: StoreKind, stored: Dict, delivered: Dict) {
    if kind == InMemory then delivered == stored else multiset(delivered) == multiset(stored)
  }

  /** `_apply` up to its first suspension: acquire the plan and run the policy gate on it. */
  function StepStart(s: State, l: Label): State
    requires l.StartApply?
  {
    if l.apply in s.applies then s
    else
      var (table, r) := Acquire(Table(s), l.id, l.digest, l.operation, l.environment, l.now);
      var s1 := Commit(s, table);
      match r
      case Err(e) => s1.(answers := s.answers + [Answer(l.id, false, Err(StoreProblem(e)))])
      case Ok(Replay(result)) => s1.(answers := s.answers + [Answer(l.id, true, Ok(result))])
      case Ok(Fresh(plan)) =>
        if !MayDeliver(s.config.kind, plan.body.proposed, l.delivered) then s
        else
          var gate := EnforceWrite(s.config.text, l.policy, l.operation, plan.body.form, l.delivered, plan.body.reason);
          var phase := if gate.Ok? then Limiting(gate.value) else Failing(false);
          s1.(applies := s.applies[l.apply := NewApply(l, plan, phase)])
  }

  function NewApply(l: Label, plan: Plan, phase: Phase): Apply
    requires l.StartApply?
  {
    Apply(l.id, l.digest, l.operation, l.environment, l.policy, l.delivered, plan, phase)
  }

  function Move(s: State, apply: nat, phase: Phase): State
    requires apply in s.applies
  {
    s.(applies := s.applies[apply := s.applies[apply].(phase := phase)])
  }

  function Finish(s: State, apply: nat, answer: Answer): State
    requires apply in s.applies
  {
    s.(applies := s.applies - {apply}, answers := s.answers + [answer])
  }

  /** Past the limiter: an update whose entry or precondition is gone fails its assertion. */
  function StepSend(s: State, l: Label): State
    requires l.Send?
  {
    if l.apply !in s.applies || !s.applies[l.apply].phase.Limiting? then s
    else
      var a := s.applies[l.apply];
      var plan := Seen(s, a);
      if a.operation == UpdateEntry && (plan.body.entryId.None? || plan.body.precondition.None?) then
        Move(s, l.apply, Failing(false))
      else
        var call := Call(a.planId, a.digest, a.operation, plan.body.form,
                         if a.operation == UpdateEntry then plan.body.entryId else None, a.phase.values,
                         if a.operation == UpdateEntry then plan.body.precondition else None,
                         a.policy, a.delivered, l.reply, l.landed);
        Move(s, l.apply, Awaiting(l.reply)).(calls := s.calls + [call])
  }

  function ResultFor(a: Apply, plan: Plan, replied: Option<string>): ApplyResult {
    ApplyResult(plan.id, a.operation, a.environment, plan.body.form, Applied,
                if a.operation == CreateEntry then replied else plan.body.entryId, false)
  }

  function StepReceive(s: State, l: Label): State
    requires l.Receive?
  {
    if l.apply !in s.applies || !s.applies[l.apply].phase.Awaiting? then s
    else
      var a := s.applies[l.apply];
      match a.phase.reply
      case Refused(e) => Move(s, l.apply, Failing(OutcomeIsUnknown(e)))
      case Success(replied) =>
        var result := ResultFor(a, Seen(s, a), replied);
        var (table, r) := Complete(Table(s), a.planId, result);
        if (s.config.kind == Durable && l.databaseFails) || r.Err? then Move(s, l.apply, Failing(true))
        else Finish(Commit(s, table), l.apply, Answer(a.planId, false, Ok(result)))
  }

  function StepSettle(s: State, l: Label): State
    requires l.Settle?
  {
    if l.apply !in s.applies || !s.applies[l.apply].phase.Failing? then s
    else
      var a := s.applies[l.apply];
      var unknown := a.phase.outcomeUnknown;
      var (table, r) := Fail(Table(s), a.planId, unknown);
      if s.config.kind == Durable && l.databaseFails then
        Finish(s, l.apply, Answer(a.planId, false, Err(StoreProblem(PersistenceFailed))))
      else if r.Err? then Finish(s, l.apply, Answer(a.planId, false, Err(StoreProblem(r.error))))
      else
        var told := if unknown then OutcomeUnknownToCaller else WriteNotMade;
        Finish(Commit(s, table), l.apply, Answer(a.planId, false, Err(told)))
  }

  /** A restart empties the in-memory store and every call with it; opening the encrypted store
      keeps its rows, and calls of other processes keep running. */
  function StepRestart(s: State, l: Label): State
    requires l.Restart?
  {
    match s.config.kind
    case InMemory => s.(dict := {}, applies := map[])
    case Durable => Commit(s, Open(Table(s), l.now, l.recover))
  }

  ghost function Step(s: State, l: Label): State {
    match l
    case PlanWrite(_, _, _, _, _, _, _, _, _, _, _, _) => StepPlan(s, l)
    case StartApply(_, _, _, _, _, _, _, _) => StepStart(s, l)
    case RefuseLocally(apply) =>
      if apply in s.applies && s.applies[apply].phase.Limiting? then Move(s, apply, Failing(false)) else s
    case Send(_, _, _) => StepSend(s, l)
    case Receive(_, _) => StepReceive(s, l)
    case Settle(_, _) => StepSettle(s, l)
    case Lose(apply) => s.(applies := s.applies - {apply})
    case CancelPlan(id, env, now) => Commit(s, Cancel(Table(s), id, env, now).0)
    case GetPlan(id, env, now) => Commit(s, Get(Table(s), id, env, now).0)
    case Restart(_, _) => StepRestart(s, l)
  }

  function Initial(c: Config): State {
    State(c, {}, map[], map[], [], [], map[])
  }

  ghost function Run(c: Config, labels: seq<Label>): State {
    if labels == [] then Initial(c) else Step(Run(c, labels[..|labels| - 1]), labels[|labels| - 1])
  }

  // ---------------------------------------------------------------- invariant

  /** The static part of a plan still agrees with its digest; the payload is intact or cleared. */
  ghost predicate Faithful(p: Plan) {
    var c := p.digest.content;
    && p.body.operation == c.operation
    && p.body.environment == c.environment
    && p.body.form == c.form
    && p.body.entryId == c.entryId
    && (p.body.precondition == None || p.body.precondition == c.precondition)
  }

  /** The payload is the one that was reviewed. */
  ghost predicate Intact(p: Plan, r: Review) {
    DigestOf(p.body) == p.digest && p.body.proposed == r.values
  }

  /** The gate of the review's own policy leaves the reviewed values as they are. */
  ghost predicate ReviewOk(t: Text, c: Content, r: Review) {
    && c.proposed == Meaning(r.values)
    && FoldDistinct(t, r.values)
    && EnforceWrite(t, r.policy, c.operation, c.form, r.values, c.reason) == Ok(r.values)
  }

  ghost predicate CalledOnlyWith(s: State, p: PlanId, allowed: Reply -> bool) {
    forall k :: 0 <= k < |s.calls| && s.calls[k].planId == p ==> allowed(s.calls[k].reply)
  }

  ghost predicate NeverCalled(s: State, p: PlanId) {
    forall k :: 0 <= k < |s.calls| ==> s.calls[k].planId != p
  }

  ghost predicate CompletedBy(s: State, p: Plan, k: nat) {
    && k < |s.calls| && s.calls[k].planId == p.id && s.calls[k].reply.Success?
    && p.result.Some?
    && p.result.value == ApplyResult(p.id, s.calls[k].operation, p.body.environment, s.calls[k].form, Applied,
         if s.calls[k].operation == CreateEntry then s.calls[k].reply.entryId else s.calls[k].entryId, false)
  }

  ghost predicate AnsweredWith(s: State, p: Plan, k: nat) {
    k < |s.answers| && p.result.Some? && s.answers[k] == Answer(p.id, false, Ok(p.result.value))
  }

  ghost predicate PlanOk(s: State, p: Plan) {
    && Faithful(p)
    && p.id in s.reviews && ReviewOk(s.config.text, p.digest.content, s.reviews[p.id])
    && (p.status == Pending && p.id in s.dict ==> Intact(p, s.reviews[p.id]))
    && (p.status == Pending || p.status == Cancelled ==> NeverCalled(s, p.id))
    && (p.status == Failed ==> CalledOnlyWith(s, p.id, DefiniteRefusal))
    && (p.status == Applied <==> p.result.Some?)
    && (p.status == Applied ==> (exists k: nat :: CompletedBy(s, p, k)) && (exists k: nat :: AnsweredWith(s, p, k)))
  }

  /** `values` are what the gate of `policy` makes of the reviewed values, taken in some order. */
  ghost predicate Gated(s: State, id: PlanId, policy: Policy, delivered: Dict, values: Dict) {
    && id in s.heap && id in s.reviews
    && multiset(delivered) == multiset(s.reviews[id].values)
    && var c := s.heap[id].digest.content;
       EnforceWrite(s.config.text, policy, c.operation, c.form, delivered, c.reason) == Ok(values)
  }

  ghost predicate ApplyOk(s: State, a: Apply) {
    && a.planId in s.heap
    && a.digest == s.heap[a.planId].digest && a.digest == a.copy.digest
    && a.operation == a.digest.content.operation && a.environment == a.digest.content.environment
    && Faithful(a.copy) && a.copy.id == a.planId
    && StillRunning(s, a.planId)
    && match a.phase
       case Limiting(values) => NeverCalled(s, a.planId) && Gated(s, a.planId, a.policy, a.delivered, values)
       case Awaiting(reply) =>
         exists k :: 0 <= k < |s.calls| && CallOf(s.calls[k], a, reply)
       case Failing(unknown) => !unknown ==> CalledOnlyWith(s, a.planId, DefiniteRefusal)
  }

  ghost predicate CallOf(c: Call, a: Apply, reply: Reply) {
    && c.planId == a.planId && c.reply == reply && c.operation == a.operation
    && c.form == a.digest.content.form
    && (a.operation == UpdateEntry ==> c.entryId == a.digest.content.entryId)
  }

  ghost predicate CallOk(s: State, c: Call) {
    && c.planId in s.heap && s.heap[c.planId].digest == c.digest
    && c.operation == c.digest.content.operation
    && c.form == c.digest.content.form
    && (c.operation == UpdateEntry ==>
          c.entryId.Some? && c.entryId == c.digest.content.entryId
          && c.precondition.Some? && c.precondition == c.digest.content.precondition)
    && Gated(s, c.planId, c.policy, c.delivered, c.values)
  }

  ghost predicate AnswerOk(s: State, a: Answer) {
    && (a.outcome.Ok? ==>
          && a.planId in s.heap
          && s.heap[a.planId].result.Some?
          && a.outcome.value == s.heap[a.planId].result.value.(reused := a.replayed))
    && (a.outcome == Err(WriteNotMade) ==> a.planId in s.heap && s.heap[a.planId].status == Failed)
  }

  ghost predicate Inv(s: State) {
    && s.dict <= s.heap.Keys
    && (forall id :: id in s.heap ==> s.heap[id].id == id && PlanOk(s, s.heap[id]))
    && (forall a :: a in s.applies ==> ApplyOk(s, s.applies[a]))
    && (forall a, b :: a in s.applies && b in s.applies && a != b ==> s.applies[a].planId != s.applies[b].planId)
    && (forall k :: 0 <= k < |s.calls| ==> CallOk(s, s.calls[k]))
    && (forall i, j :: 0 <= i < j < |s.calls| ==> s.calls[i].planId != s.calls[j].planId)
    && (forall k :: 0 <= k < |s.answers| ==> AnswerOk(s, s.answers[k]))
  }

  // ------------------------------------------------------- every step keeps it

  /** Nothing about plan `id` was logged between the two states. */
  ghost predicate SameHistory(s: State, s': State, id: PlanId) {
    && s'.config == s.config
    && s.calls <= s'.calls && s.answers <= s'.answers
    && (forall k :: |s.calls| <= k < |s'.calls| ==> s'.calls[k].planId != id)
    && (id in s.reviews ==> id in s'.reviews && s'.reviews[id] == s.reviews[id])
  }

  lemma PlanKept(s: State, s': State, p: Plan, p': Plan)
    requires PlanOk(s, p) && Evolves(p, p') && SameHistory(s, s', p.id)
    requires p'.status == Pending && p.id in s'.dict ==> p' == p && p.id in s.dict
    ensures PlanOk(s', p')
  {
    hide EnforceWrite, Meaning;
    if p.status == Applied {
      var k: nat :| CompletedBy(s, p, k);
      assert s'.calls[k] == s.calls[k];
      assert CompletedBy(s', p', k);
      var j: nat :| AnsweredWith(s, p, j);
      assert s'.answers[j] == s.answers[j];
      assert AnsweredWith(s', p', j);
    }
    forall k | 0 <= k < |s'.calls| && s'.calls[k].planId == p.id
      ensures k < |s.calls| && s'.calls[k] == s.calls[k]
    {
    }
  }

  lemma ApplyKept(s: State, s': State, a: Apply)
    requires ApplyOk(s, a) && SameHistory(s, s', a.planId)
    requires StillRunning(s', a.planId) && s'.heap[a.planId].digest == s.heap[a.planId].digest
    ensures ApplyOk(s', a)
  {
    hide EnforceWrite, Meaning;
    forall k | 0 <= k < |s'.calls| && s'.calls[k].planId == a.planId
      ensures k < |s.calls| && s'.calls[k] == s.calls[k]
    {
    }
    if a.phase.Awaiting? {
      var k :| 0 <= k < |s.calls| && CallOf(s.calls[k], a, a.phase.reply);
      assert s'.calls[k] == s.calls[k];
    }
  }

  lemma CallKept(s: State, s': State, c: Call)
    requires CallOk(s, c) && s'.config == s.config
    requires c.planId in s'.heap && s'.heap[c.planId].digest == s.heap[c.planId].digest
    requires c.planId in s'.reviews && s'.reviews[c.planId] == s.reviews[c.planId]
    ensures CallOk(s', c)
  {
    hide EnforceWrite, Meaning;
  }

  /** All parts of the invariant except the plans, when digests and stored results stay and
      no running call loses its plan. */
  lemma LogsKept(s: State, s': State)
    requires Inv(s) && s'.config == s.config && s'.calls == s.calls && s.answers <= s'.answers
    requires s.heap.Keys <= s'.heap.Keys && s'.dict <= s'.heap.Keys
    requires forall id :: id in s.heap ==>
               && id in s.reviews && id in s'.reviews && s'.reviews[id] == s.reviews[id]
               && s'.heap[id].digest == s.heap[id].digest
               && (s.heap[id].result.Some? ==> s'.heap[id].result == s.heap[id].result)
               && (s.heap[id].status == Failed ==> s'.heap[id].status == Failed)
    requires s'.applies.Keys <= s.applies.Keys
    requires forall a :: a in s'.applies ==> s'.applies[a] == s.applies[a]
    requires forall a :: a in s'.applies ==> StillRunning(s', s'.applies[a].planId)
    requires forall id :: id in s'.heap ==> s'.heap[id].id == id && PlanOk(s', s'.heap[id])
    requires forall k :: |s.answers| <= k < |s'.answers| ==> AnswerOk(s', s'.answers[k])
    ensures Inv(s')
  {
    hide EnforceWrite, Meaning, PlanOk;
    forall a | a in s'.applies
      ensures ApplyOk(s', s'.applies[a])
    {
      assert ApplyOk(s, s.applies[a]);
      assert StillRunning(s', s'.applies[a].planId);
      ApplyKept(s, s', s.applies[a]);
    }
    forall k | 0 <= k < |s'.calls|
      ensures CallOk(s', s'.calls[k])
    {
      assert CallOk(s, s.calls[k]);
      CallKept(s, s', s.calls[k]);
    }
    forall k | 0 <= k < |s'.answers|
      ensures AnswerOk(s', s'.answers[k])
    {
      if k < |s.answers| {
        assert AnswerOk(s, s.answers[k]);
      }
    }
  }

  ghost predicate StillRunning(s: State, id: PlanId) {
    id in s.heap && (s.heap[id].status == Applying || s.heap[id].status == OutcomeUnknown)
  }

  /** Steps that no apply call makes: plans evolve, nothing is called or answered. */
  lemma UpkeepKeepsInv(s: State, s': State)
    requires Inv(s)
    requires s'.config == s.config && s'.calls == s.calls && s'.reviews == s.reviews && s'.answers == s.answers
    requires s'.applies.Keys <= s.applies.Keys && forall a :: a in s'.applies ==> s'.applies[a] == s.applies[a]
    requires s'.heap.Keys == s.heap.Keys && s'.dict <= s.dict
    requires forall id :: id in s.heap ==> Evolves(s.heap[id], s'.heap[id])
    requires forall id :: id in s'.dict && s'.heap[id].status == Pending ==> s'.heap[id] == s.heap[id]
    ensures Inv(s')
  {
    hide EnforceWrite, Meaning, PlanOk;
    forall id | id in s'.heap
      ensures s'.heap[id].id == id && PlanOk(s', s'.heap[id]) && id in s.reviews
    {
      PlanKept(s, s', s.heap[id], s'.heap[id]);
      Reviewed(s, s.heap[id]);
    }
    forall a | a in s'.applies
      ensures StillRunning(s', s'.applies[a].planId)
    {
      assert ApplyOk(s, s.applies[a]);
    }
    LogsKept(s, s');
  }

  /** A table whose rows evolved from the current ones may be installed. */
  lemma CommitKeepsInv(s: State, table: Store)
    requires Inv(s)
    requires table.Keys <= s.dict
    requires forall id :: id in table ==> Evolves(s.heap[id], table[id])
    requires forall id :: id in table && table[id].status == Pending ==> table[id] == s.heap[id]
    ensures Inv(Commit(s, table))
  {
    hide EnforceWrite, Meaning, PlanOk, ApplyOk, CallOk, AnswerOk;
    UpkeepKeepsInv(s, Commit(s, table));
  }

  lemma CommitOne(s: State, id: PlanId, plan: Plan)
    requires id in s.dict && s.dict <= s.heap.Keys
    ensures Commit(s, Table(s)[id := plan]) == s.(heap := s.heap[id := plan])
  {
    var table := Table(s)[id := plan];
    assert table.Keys == s.dict;
    assert Commit(s, table).heap == s.heap[id := plan];
  }

  lemma CommitSame(s: State)
    requires s.dict <= s.heap.Keys
    ensures Commit(s, Table(s)) == s
  {
    assert Table(s).Keys == s.dict;
    assert Commit(s, Table(s)).heap == s.heap;
  }

  lemma Reviewed(s: State, p: Plan)
    requires PlanOk(s, p)
    ensures Faithful(p) && p.id in s.reviews && ReviewOk(s.config.text, p.digest.content, s.reviews[p.id])
    ensures p.status == Pending && p.id in s.dict ==> Intact(p, s.reviews[p.id])
  {
  }

  lemma NewPlanOk(s: State, p: Plan)
    requires p.status == Pending && p.result.None? && Faithful(p)
    requires p.id in s.reviews && Intact(p, s.reviews[p.id]) && ReviewOk(s.config.text, p.digest.content, s.reviews[p.id])
    requires NeverCalled(s, p.id)
    ensures PlanOk(s, p)
  {
  }

  lemma CallsAreOfPlans(s: State, id: PlanId)
    requires Inv(s) && id !in s.heap
    ensures NeverCalled(s, id)
  {
    hide EnforceWrite, Meaning, PlanOk, ApplyOk;
    forall k | 0 <= k < |s.calls|
      ensures s.calls[k].planId != id
    {
      assert CallOk(s, s.calls[k]);
    }
  }

  lemma AddPlanKeepsInv(s: State, plan: Plan, review: Review)
    requires Inv(s) && plan.id !in s.heap
    requires plan.status == Pending && plan.result.None? && Intact(plan, review) && Faithful(plan)
    requires ReviewOk(s.config.text, plan.digest.content, review)
    ensures Inv(s.(dict := s.dict + {plan.id}, heap := s.heap[plan.id := plan], reviews := s.reviews[plan.id := review]))
  {
    hide EnforceWrite, Meaning, PlanOk, ReviewOk, Intact, Faithful, ApplyOk, CallOk, AnswerOk;
    var s' := s.(dict := s.dict + {plan.id}, heap := s.heap[plan.id := plan], reviews := s.reviews[plan.id := review]);
    CallsAreOfPlans(s, plan.id);
    NewPlanOk(s', plan);
    forall id | id in s.heap
      ensures s'.heap[id].id == id && PlanOk(s', s'.heap[id]) && id in s.reviews
    {
      PlanKept(s, s', s.heap[id], s.heap[id]);
      Reviewed(s, s.heap[id]);
    }
    forall a | a in s'.applies
      ensures StillRunning(s', s'.applies[a].planId)
    {
      RunningPlan(s, s.applies[a]);
    }
    LogsKept(s, s');
  }

  lemma RunningPlan(s: State, a: Apply)
    requires ApplyOk(s, a)
    ensures StillRunning(s, a.planId) && a.digest == s.heap[a.planId].digest
  {
  }

  lemma StepPlanKeepsInv(s: State, l: Label)
    requires Inv(s) && l.PlanWrite?
    ensures Inv(StepPlan(s, l))
  {
    hide EnforceWrite, Meaning, Inv, Commit, SameUpToSpelling, Sensitive;
    var t := s.config.text;
    var gate := EnforceWrite(t, l.policy, l.operation, l.form, l.values, l.reason);
    if l.id !in s.heap && FoldDistinct(t, l.values) && gate.Ok? {
      var body := MakeBody(l, gate.value);
      var kept := Purge(Table(s), l.purgeAt);
      var (table, r) := Create(Table(s), l.id, body, l.purgeAt, l.stampAt, s.config.ttl, s.config.maxPending);
      TableFacts(s);
      CommitKeepsInv(s, kept);
      if r.Ok? {
        var plan := NewPlan(l.id, body, l.stampAt + s.config.ttl);
        var review := Review(l.policy, gate.value);
        var s1 := Commit(s, kept);
        EnforceWriteIsIdempotent(t, l.policy, l.operation, l.form, l.values, l.reason);
        EnforceWriteKeepsFields(t, l.policy, l.operation, l.form, l.values, l.reason);
        CommitFacts(s, kept);
        AddPlanKeepsInv(s1, plan, review);
        InstallNew(s, kept, plan);
        assert StepPlan(s, l) == s1.(dict := s1.dict + {plan.id}, heap := s1.heap[plan.id := plan],
                                     reviews := s1.reviews[plan.id := review]);
      }
    }
  }

  lemma TableFacts(s: State)
    requires Inv(s)
    ensures s.dict <= s.heap.Keys
    ensures Table(s).Keys == s.dict
    ensures forall id :: id in s.dict ==> Table(s)[id] == s.heap[id] && s.heap[id].id == id
  {
    hide PlanOk, ApplyOk, CallOk, AnswerOk;
  }

  lemma CommitFacts(s: State, table: Store)
    requires table.Keys <= s.heap.Keys
    ensures var s1 := Commit(s, table);
            s1.config == s.config && s1.reviews == s.reviews && s1.heap.Keys == s.heap.Keys
  {
  }

  lemma InstallNew(s: State, kept: Store, plan: Plan)
    requires plan.id !in s.heap && s.dict <= s.heap.Keys
    requires kept.Keys <= s.dict
    ensures var s1 := Commit(s, kept);
            Commit(s, kept[plan.id := plan]) == s1.(dict := s1.dict + {plan.id}, heap := s1.heap[plan.id := plan])
  {
    var s1, s2 := Commit(s, kept), Commit(s, kept[plan.id := plan]);
    assert s2.dict == s1.dict + {plan.id};
    assert s2.heap == s1.heap[plan.id := plan];
  }

  /** Appending an answer that agrees with the stored results. */
  lemma AnswerKeepsInv(s: State, answer: Answer)
    requires Inv(s) && AnswerOk(s, answer)
    ensures Inv(s.(answers := s.answers + [answer]))
  {
    hide EnforceWrite, Meaning, PlanOk, ApplyOk, CallOk, ReviewOk, Faithful;
    var s' := s.(answers := s.answers + [answer]);
    forall id | id in s'.heap
      ensures s'.heap[id].id == id && PlanOk(s', s'.heap[id]) && id in s.reviews
    {
      PlanKept(s, s', s.heap[id], s.heap[id]);
      Reviewed(s, s.heap[id]);
    }
    forall a | a in s'.applies
      ensures StillRunning(s', s'.applies[a].planId)
    {
      RunningPlan(s, s.applies[a]);
    }
    LogsKept(s, s');
  }

  lemma AddApplyKeepsInv(s: State, n: nat, a: Apply)
    requires Inv(s) && n !in s.applies && ApplyOk(s, a)
    requires forall b :: b in s.applies ==> s.applies[b].planId != a.planId
    ensures Inv(s.(applies := s.applies[n := a]))
  {
    hide EnforceWrite, Meaning, ReviewOk, Faithful;
    var s' := s.(applies := s.applies[n := a]);
    SetApplyParts(s, s');
    forall b | b in s'.applies
      ensures ApplyOk(s', s'.applies[b])
    {
      if b == n {
        ApplyKept(s, s', a);
      } else {
        ApplyKept(s, s', s.applies[b]);
      }
    }
  }

  /** The parts of the invariant that do not mention running calls. */
  lemma SetApplyParts(s: State, s': State)
    requires Inv(s) && s' == s.(applies := s'.applies)
    ensures forall id :: id in s'.heap ==> s'.heap[id].id == id && PlanOk(s', s'.heap[id])
    ensures forall k :: 0 <= k < |s'.calls| ==> CallOk(s', s'.calls[k])
    ensures forall k :: 0 <= k < |s'.answers| ==> AnswerOk(s', s'.answers[k])
  {
    hide EnforceWrite, Meaning, PlanOk, ApplyOk, ReviewOk, Faithful;
    forall id | id in s'.heap
      ensures s'.heap[id].id == id && PlanOk(s', s'.heap[id])
    {
      PlanKept(s, s', s.heap[id], s.heap[id]);
    }
    forall k | 0 <= k < |s'.calls|
      ensures CallOk(s', s'.calls[k])
    {
      CallKept(s, s', s.calls[k]);
    }
    forall k | 0 <= k < |s'.answers|
      ensures AnswerOk(s', s'.answers[k])
    {
      assert AnswerOk(s, s.answers[k]);
    }
  }

  lemma MoveKeepsInv(s: State, n: nat, phase: Phase)
    requires Inv(s) && n in s.applies && ApplyOk(s, s.applies[n].(phase := phase))
    ensures Inv(Move(s, n, phase))
  {
    hide EnforceWrite, Meaning, ReviewOk, Faithful;
    var s' := Move(s, n, phase);
    SetApplyParts(s, s');
    forall b | b in s'.applies
      ensures ApplyOk(s', s'.applies[b])
    {
      if b == n {
        ApplyKept(s, s', s.applies[n].(phase := phase));
      } else {
        ApplyKept(s, s', s.applies[b]);
      }
    }
  }

  lemma StepStartKeepsInv(s: State, l: Label)
    requires Inv(s) && l.StartApply?
    ensures Inv(StepStart(s, l))
  {
    hide EnforceWrite, Meaning, Inv, Commit, Acquire, MayDeliver;
    if l.apply !in s.applies {
      var r := Acquire(Table(s), l.id, l.digest, l.operation, l.environment, l.now).1;
      if r.Ok? && r.value.Fresh? {
        StartFreshKeepsInv(s, l);
      } else {
        StartAnsweredKeepsInv(s, l);
      }
    }
  }

  /** Acquire only marks a plan as applying or drops it. */
  lemma AcquireEvolves(s: State, l: Label)
    requires Inv(s) && l.StartApply?
    ensures var table := Acquire(Table(s), l.id, l.digest, l.operation, l.environment, l.now).0;
            && Inv(Commit(s, table))
            && Commit(s, table).applies == s.applies && Commit(s, table).config == s.config
  {
    hide EnforceWrite, Meaning, PlanOk, ApplyOk, CallOk, AnswerOk, Commit;
    TableFacts(s);
    var table := Acquire(Table(s), l.id, l.digest, l.operation, l.environment, l.now).0;
    CommitKeepsInv(s, table);
    CommitLogs(s, table);
  }

  lemma StartAnsweredKeepsInv(s: State, l: Label)
    requires Inv(s) && l.StartApply? && l.apply !in s.applies
    requires var r := Acquire(Table(s), l.id, l.digest, l.operation, l.environment, l.now).1;
             r.Err? || r.value.Replay?
    ensures Inv(StepStart(s, l))
  {
    hide EnforceWrite, Meaning, PlanOk, ApplyOk, CallOk, Commit;
    TableFacts(s);
    AcquireEvolves(s, l);
    var (table, r) := Acquire(Table(s), l.id, l.digest, l.operation, l.environment, l.now);
    CommitLogs(s, table);
    if r.Err? {
      AnswerKeepsInv(Commit(s, table), Answer(l.id, false, Err(StoreProblem(r.error))));
    } else {
      CommitSame(s);
      AnswerKeepsInv(s, Answer(l.id, true, Ok(r.value.result)));
    }
  }

  lemma StartFreshKeepsInv(s: State, l: Label)
    requires Inv(s) && l.StartApply? && l.apply !in s.applies
    requires var r := Acquire(Table(s), l.id, l.digest, l.operation, l.environment, l.now).1;
             r.Ok? && r.value.Fresh?
    ensures Inv(StepStart(s, l))
  {
    hide EnforceWrite, Meaning, PlanOk, ApplyOk, CallOk, AnswerOk, Commit;
    TableFacts(s);
    AcquireEvolves(s, l);
    var plan := Acquire(Table(s), l.id, l.digest, l.operation, l.environment, l.now).1.value.plan;
    CommitOne(s, l.id, plan);
    forall b | b in s.applies
      ensures s.applies[b].planId != l.id
    {
      RunningPlan(s, s.applies[b]);
    }
    if MayDeliver(s.config.kind, plan.body.proposed, l.delivered) {
      var s1 := s.(heap := s.heap[l.id := plan]);
      var gate := EnforceWrite(s.config.text, l.policy, l.operation, plan.body.form, l.delivered, plan.body.reason);
      FreshApplyOk(s, s1, l, plan);
      AddApplyKeepsInv(s1, l.apply, NewApply(l, plan, if gate.Ok? then Limiting(gate.value) else Failing(false)));
    }
  }

  lemma CommitLogs(s: State, table: Store)
    ensures var s1 := Commit(s, table);
            s1.config == s.config && s1.reviews == s.reviews && s1.applies == s.applies
            && s1.calls == s.calls && s1.answers == s.answers
  {
  }

  lemma FreshApplyOk(s: State, s1: State, l: Label, plan: Plan)
    requires Inv(s) && l.StartApply? && l.id in s.dict
    requires s.heap[l.id].status == Pending && plan == s.heap[l.id].(status := Applying)
    requires plan.digest == l.digest && plan.body.operation == l.operation && plan.body.environment == l.environment
    requires s1 == s.(heap := s.heap[l.id := plan])
    requires multiset(l.delivered) == multiset(plan.body.proposed)
    ensures var gate := EnforceWrite(s.config.text, l.policy, l.operation, plan.body.form, l.delivered, plan.body.reason);
            var phase := if gate.Ok? then Limiting(gate.value) else Failing(false);
            ApplyOk(s1, NewApply(l, plan, phase))
  {
    hide EnforceWrite, Meaning, ReviewOk, CallOk, AnswerOk;
    var p := s.heap[l.id];
    assert PlanOk(s, p);
    assert plan.body.proposed == s1.reviews[l.id].values;
    assert plan.body.form == plan.digest.content.form && plan.body.reason == plan.digest.content.reason;
  }

  lemma StepSendKeepsInv(s: State, l: Label)
    requires Inv(s) && l.Send?
    ensures Inv(StepSend(s, l))
  {
    hide EnforceWrite, Meaning, ReviewOk;
    if l.apply in s.applies && s.applies[l.apply].phase.Limiting? {
      var a := s.applies[l.apply];
      assert ApplyOk(s, a);
      var plan := Seen(s, a);
      SeenIsFaithful(s, a);
      if a.operation == UpdateEntry && (plan.body.entryId.None? || plan.body.precondition.None?) {
        MoveKeepsInv(s, l.apply, Failing(false));
      } else {
        LogCallKeepsInv(s, l, StepSend(s, l).calls[|s.calls|]);
      }
    }
  }

  lemma SeenIsFaithful(s: State, a: Apply)
    requires Inv(s) && ApplyOk(s, a)
    ensures Faithful(Seen(s, a)) && Seen(s, a).digest == a.digest && Seen(s, a).id == a.planId
  {
    hide EnforceWrite, Meaning, ReviewOk, CallOk, AnswerOk;
    assert PlanOk(s, s.heap[a.planId]);
  }

  lemma LogCallKeepsPlan(s: State, s': State, call: Call, p: Plan)
    requires PlanOk(s, p) && s'.calls == s.calls + [call]
    requires s'.config == s.config && s'.reviews == s.reviews && s'.answers == s.answers && s'.dict == s.dict
    requires p.id == call.planId ==> p.status == Applying || p.status == OutcomeUnknown
    ensures PlanOk(s', p)
  {
    hide EnforceWrite, Meaning, ReviewOk, Faithful, Intact;
    if p.id != call.planId {
      PlanKept(s, s', p, p);
    }
  }

  lemma LogCallKeepsInv(s: State, l: Label, call: Call)
    requires Inv(s) && l.Send? && l.apply in s.applies
    requires ApplyOk(s, s.applies[l.apply]) && s.applies[l.apply].phase.Limiting?
    requires CallOf(call, s.applies[l.apply], l.reply) && CallOk(s, call)
    ensures Inv(Move(s, l.apply, Awaiting(l.reply)).(calls := s.calls + [call]))
  {
    hide EnforceWrite, Meaning, ReviewOk, Faithful, PlanOk;
    var a := s.applies[l.apply];
    var s' := Move(s, l.apply, Awaiting(l.reply)).(calls := s.calls + [call]);
    forall id | id in s'.heap
      ensures s'.heap[id].id == id && PlanOk(s', s'.heap[id])
    {
      LogCallKeepsPlan(s, s', call, s.heap[id]);
    }
    forall b | b in s'.applies
      ensures ApplyOk(s', s'.applies[b])
    {
      if b == l.apply {
        assert CallOf(s'.calls[|s.calls|], s'.applies[b], l.reply);
      } else {
        ApplyKept(s, s', s.applies[b]);
      }
    }
    forall k | 0 <= k < |s'.calls|
      ensures CallOk(s', s'.calls[k])
    {
      CallKept(s, s', if k < |s.calls| then s.calls[k] else call);
    }
    forall k | 0 <= k < |s'.answers|
      ensures AnswerOk(s', s'.answers[k])
    {
      assert AnswerOk(s, s.answers[k]);
    }
  }

  /** An apply call ends with a verdict on its plan: every other plan and call is untouched. */
  lemma VerdictKeepsInv(s: State, n: nat, verdict: Plan, answer: Answer)
    requires Inv(s) && n in s.applies && ApplyOk(s, s.applies[n])
    requires var id := s.applies[n].planId;
             verdict.id == id && answer.planId == id && verdict.digest == s.heap[id].digest
    requires var s' := Finish(s.(heap := s.heap[verdict.id := verdict]), n, answer);
             PlanOk(s', verdict) && AnswerOk(s', answer)
    ensures Inv(Finish(s.(heap := s.heap[verdict.id := verdict]), n, answer))
  {
    hide EnforceWrite, Meaning, ReviewOk, Faithful, PlanOk, ApplyOk, CallOk, AnswerOk;
    var s' := Finish(s.(heap := s.heap[verdict.id := verdict]), n, answer);
    RunningPlan(s, s.applies[n]);
    RunningHasNoResult(s, verdict.id);
    forall id | id in s'.heap
      ensures s'.heap[id].id == id && PlanOk(s', s'.heap[id]) && id in s.reviews
    {
      Reviewed(s, s.heap[id]);
      if id != verdict.id {
        PlanKept(s, s', s.heap[id], s.heap[id]);
      }
    }
    forall b | b in s'.applies
      ensures StillRunning(s', s'.applies[b].planId)
    {
      RunningPlan(s, s.applies[b]);
    }
    LogsKept(s, s');
  }

  lemma RunningHasNoResult(s: State, id: PlanId)
    requires StillRunning(s, id) && PlanOk(s, s.heap[id])
    ensures s.heap[id].result.None? && s.heap[id].status != Failed
  {
  }

  lemma StepReceiveKeepsInv(s: State, l: Label)
    requires Inv(s) && l.Receive?
    ensures Inv(StepReceive(s, l))
  {
    hide EnforceWrite, Meaning, ReviewOk, CallOk, AnswerOk, CallOf, Commit;
    if l.apply in s.applies && s.applies[l.apply].phase.Awaiting? {
      var a := s.applies[l.apply];
      assert ApplyOk(s, a);
      TableFacts(s);
      match a.phase.reply
      case Refused(e) =>
        OnlyReply(s, a);
        MoveKeepsInv(s, l.apply, Failing(OutcomeIsUnknown(e)));
      case Success(replied) =>
        var result := ResultFor(a, Seen(s, a), replied);
        var (table, r) := Complete(Table(s), a.planId, result);
        if (s.config.kind == Durable && l.databaseFails) || r.Err? {
          MoveKeepsInv(s, l.apply, Failing(true));
        } else {
          var done := Cleared(s.heap[a.planId]).(status := Applied, result := Some(result));
          CommitOne(s, a.planId, done);
          CompletedPlanOk(s, l.apply, result, done);
          VerdictKeepsInv(s, l.apply, done, Answer(a.planId, false, Ok(result)));
        }
    }
  }

  /** The one call of a plan carries the reply its apply call is waiting for. */
  lemma OnlyReply(s: State, a: Apply)
    requires Inv(s) && ApplyOk(s, a) && a.phase.Awaiting?
    ensures CalledOnlyWith(s, a.planId, r => r == a.phase.reply)
  {
    hide EnforceWrite, Meaning, ReviewOk, PlanOk, CallOk, AnswerOk;
    var k :| 0 <= k < |s.calls| && CallOf(s.calls[k], a, a.phase.reply);
    forall j | 0 <= j < |s.calls| && s.calls[j].planId == a.planId
      ensures s.calls[j].reply == a.phase.reply
    {
      assert j == k;
    }
  }

  lemma CompletedPlanOk(s: State, n: nat, result: ApplyResult, done: Plan)
    requires Inv(s) && n in s.applies && ApplyOk(s, s.applies[n])
    requires var a := s.applies[n];
             && a.phase.Awaiting? && a.phase.reply.Success?
             && result == ResultFor(a, Seen(s, a), a.phase.reply.entryId)
             && done == Cleared(s.heap[a.planId]).(status := Applied, result := Some(result))
    ensures var a := s.applies[n];
            var answer := Answer(a.planId, false, Ok(result));
            var s' := Finish(s.(heap := s.heap[done.id := done]), n, answer);
            done.id == a.planId && PlanOk(s', done) && AnswerOk(s', answer)
  {
    hide EnforceWrite, Meaning, ReviewOk, CallOk;
    var a := s.applies[n];
    var answer := Answer(a.planId, false, Ok(result));
    assert PlanOk(s, s.heap[a.planId]);
    SeenIsFaithful(s, a);
    var s' := Finish(s.(heap := s.heap[done.id := done]), n, answer);
    var k :| 0 <= k < |s.calls| && CallOf(s.calls[k], a, a.phase.reply);
    assert CompletedBy(s', done, k);
    assert s'.answers[|s.answers|] == answer;
    assert AnsweredWith(s', done, |s.answers|);
  }

  lemma StepSettleKeepsInv(s: State, l: Label)
    requires Inv(s) && l.Settle?
    ensures Inv(StepSettle(s, l))
  {
    hide EnforceWrite, Meaning, ReviewOk, CallOk, AnswerOk, Commit;
    if l.apply in s.applies && s.applies[l.apply].phase.Failing? {
      var a := s.applies[l.apply];
      assert ApplyOk(s, a) && PlanOk(s, s.heap[a.planId]);
      TableFacts(s);
      var unknown := a.phase.outcomeUnknown;
      var (table, r) := Fail(Table(s), a.planId, unknown);
      if (s.config.kind == Durable && l.databaseFails) || r.Err? {
        var problem := if s.config.kind == Durable && l.databaseFails then PersistenceFailed else NotFound;
        LeaveKeepsInv(s, l.apply, Answer(a.planId, false, Err(StoreProblem(problem))));
      } else {
        var done := Cleared(s.heap[a.planId]).(status := if unknown then OutcomeUnknown else Failed);
        var answer := Answer(a.planId, false, Err(if unknown then OutcomeUnknownToCaller else WriteNotMade));
        CommitOne(s, a.planId, done);
        FailedPlanOk(s, l.apply, done, answer);
        VerdictKeepsInv(s, l.apply, done, answer);
      }
    }
  }

  lemma FailedPlanOk(s: State, n: nat, done: Plan, answer: Answer)
    requires Inv(s) && n in s.applies && ApplyOk(s, s.applies[n])
    requires var a := s.applies[n];
             && a.phase.Failing? && answer.planId == a.planId
             && answer.outcome == Err(if a.phase.outcomeUnknown then OutcomeUnknownToCaller else WriteNotMade)
             && done == Cleared(s.heap[a.planId]).(status := if a.phase.outcomeUnknown then OutcomeUnknown else Failed)
    ensures var s' := Finish(s.(heap := s.heap[done.id := done]), n, answer);
            done.id == s.applies[n].planId && PlanOk(s', done) && AnswerOk(s', answer)
  {
    hide EnforceWrite, Meaning, ReviewOk, CallOk;
    assert PlanOk(s, s.heap[s.applies[n].planId]);
  }

  lemma LeaveKeepsInv(s: State, n: nat, answer: Answer)
    requires Inv(s) && n in s.applies && answer.outcome.Err? && answer.outcome.error.StoreProblem?
    ensures Inv(Finish(s, n, answer))
  {
    hide EnforceWrite, Meaning, PlanOk, ApplyOk, CallOk, ReviewOk, Faithful;
    UpkeepKeepsInv(s, s.(applies := s.applies - {n}));
    AnswerKeepsInv(s.(applies := s.applies - {n}), answer);
  }

  lemma RefusalOk(s: State, a: Apply)
    requires ApplyOk(s, a) && a.phase.Limiting?
    ensures ApplyOk(s, a.(phase := Failing(false)))
  {
    hide EnforceWrite, Meaning;
  }

  lemma RefuseKeepsInv(s: State, apply: nat)
    requires Inv(s) && apply in s.applies && s.applies[apply].phase.Limiting?
    ensures Inv(Move(s, apply, Failing(false)))
  {
    hide EnforceWrite, Meaning, PlanOk, CallOk, AnswerOk;
    RefusalOk(s, s.applies[apply]);
    MoveKeepsInv(s, apply, Failing(false));
  }

  lemma LoseKeepsInv(s: State, apply: nat)
    requires Inv(s)
    ensures Inv(s.(applies := s.applies - {apply}))
  {
    hide EnforceWrite, Meaning, PlanOk, ApplyOk, CallOk, AnswerOk;
    UpkeepKeepsInv(s, s.(applies := s.applies - {apply}));
  }

  lemma CancelKeepsInv(s: State, id: PlanId, env: Environment, now: real)
    requires Inv(s)
    ensures Inv(Commit(s, Cancel(Table(s), id, env, now).0))
  {
    hide EnforceWrite, Meaning, PlanOk, ApplyOk, CallOk, AnswerOk, Commit;
    TableFacts(s);
    CommitKeepsInv(s, Cancel(Table(s), id, env, now).0);
  }

  lemma GetKeepsInv(s: State, id: PlanId, env: Environment, now: real)
    requires Inv(s)
    ensures Inv(Commit(s, Get(Table(s), id, env, now).0))
  {
    hide EnforceWrite, Meaning, PlanOk, ApplyOk, CallOk, AnswerOk, Commit;
    TableFacts(s);
    CommitKeepsInv(s, Get(Table(s), id, env, now).0);
  }

  lemma RestartKeepsInv(s: State, l: Label)
    requires Inv(s) && l.Restart?
    ensures Inv(StepRestart(s, l))
  {
    hide EnforceWrite, Meaning, PlanOk, ApplyOk, CallOk, AnswerOk, Commit;
    TableFacts(s);
    if s.config.kind == InMemory {
      UpkeepKeepsInv(s, StepRestart(s, l));
    } else {
      CommitKeepsInv(s, Open(Table(s), l.now, l.recover));
    }
  }

  lemma StepKeepsInv(s: State, l: Label)
    requires Inv(s)
    ensures Inv(Step(s, l))
  {
    hide Inv, Commit, Cancel, Get, StepPlan, StepStart, StepSend, StepReceive, StepSettle, StepRestart, EnforceWrite;
    match l
    case PlanWrite(_, _, _, _, _, _, _, _, _, _, _, _) => StepPlanKeepsInv(s, l);
    case StartApply(_, _, _, _, _, _, _, _) => StepStartKeepsInv(s, l);
    case RefuseLocally(apply) =>
      if apply in s.applies && s.applies[apply].phase.Limiting? {
        RefuseKeepsInv(s, apply);
      }
    case Send(_, _, _) => StepSendKeepsInv(s, l);
    case Receive(_, _) => StepReceiveKeepsInv(s, l);
    case Settle(_, _) => StepSettleKeepsInv(s, l);
    case Lose(apply) => LoseKeepsInv(s, apply);
    case CancelPlan(id, env, now) => CancelKeepsInv(s, id, env, now);
    case GetPlan(id, env, now) => GetKeepsInv(s, id, env, now);
    case Restart(_, _) => RestartKeepsInv(s, l);
  }

  lemma {:induction false} RunKeepsInv(c: Config, labels: seq<Label>)
    ensures Inv(Run(c, labels)) && Run(c, labels).config == c
  {
    hide EnforceWrite, Meaning, PlanOk, ApplyOk, CallOk, ReviewOk, AnswerOk, StepPlan, StepStart;
    if labels != [] {
      RunKeepsInv(c, labels[..|labels| - 1]);
      StepKeepsInv(Run(c, labels[..|labels| - 1]), labels[|labels| - 1]);
      StepKeepsConfig(Run(c, labels[..|labels| - 1]), labels[|labels| - 1]);
    }
  }

  lemma StepKeepsConfig(s: State, l: Label)
    ensures Step(s, l).config == s.config
  {
    hide EnforceWrite, Meaning;
  }

  // ------------------------------------------------------------ main theorems

  /** A plan causes at most one backend write call, in every run. */
  lemma AtMostOneCallPerPlan(c: Config, labels: seq<Label>)
    ensures var s := Run(c, labels);
            forall i, j :: 0 <= i < j < |s.calls| ==> s.calls[i].planId != s.calls[j].planId
  {
    hide *;
    RunKeepsInv(c, labels);
    CallsAreDistinct(Run(c, labels));
  }

  lemma CallsAreDistinct(s: State)
    requires Inv(s)
    ensures forall i, j :: 0 <= i < j < |s.calls| ==> s.calls[i].planId != s.calls[j].planId
  {
  }

  /** The server is honest when it lands no write it refuses and acknowledges only landed ones. */
  ghost predicate Honest(c: Call) {
    && (c.reply.Success? ==> c.landed)
    && (RefusedByServer(c.reply) ==> !c.landed)
  }

  /** The call landed, yet the client raised an exception of its own. */
  ghost predicate RaisedAfterLanding(c: Call) {
    c.landed && RaisedLocally(c.reply)
  }

  ghost predicate LandedFor(s: State, id: PlanId, k: int) {
    0 <= k < |s.calls| && s.calls[k].planId == id && s.calls[k].landed
  }

  /** A reply is a success, an exception that leaves the outcome open, a refusal sent back by the bridge or the
      server, or an exception that arose in the client; never two of these. */
  lemma RepliesAreOfFourKinds(r: Reply)
    ensures r.Refused? && (r.error == Transport || r.error == Protocol) <==>
              !r.Success? && !RefusedByServer(r) && !RaisedLocally(r)
    ensures RefusedByServer(r) <==>
              r in {Refused(Conflict), Refused(FormNotFound), Refused(FieldAmbiguous), Refused(FieldNotQueryable),
                    Refused(AdminRequired)}
    ensures RaisedLocally(r) <==> r in {Refused(Configuration), Refused(Closed), Refused(OtherException)}
  {
  }

  /** Recorded outcomes match what happened at the backend, in every run, also for plans the
      store no longer lists. Only a server that lands what it refuses, or an exception that the client
      raises after its call has landed, can make `failed` wrong. */
  lemma OutcomesAreHonest(c: Config, labels: seq<Label>, id: PlanId)
    requires id in Run(c, labels).heap
    ensures var s := Run(c, labels);
            var p := s.heap[id];
            && (p.status == Pending || p.status == Cancelled ==> NeverCalled(s, id))
            && (p.status == Failed ==> forall k :: LandedFor(s, id, k) ==> !Honest(s.calls[k]) || RaisedAfterLanding(s.calls[k]))
            && (p.status == Applied <==> p.result.Some?)
            && (p.status == Applied ==> exists k: nat :: CompletedBy(s, p, k) && (Honest(s.calls[k]) ==> LandedFor(s, id, k)))
  {
    hide Run, EnforceWrite, Meaning, ApplyOk, ReviewOk;
    RunKeepsInv(c, labels);
    var s := Run(c, labels);
    var p := s.heap[id];
    assert PlanOk(s, p);
    if p.status == Applied {
      var k: nat :| CompletedBy(s, p, k);
      assert Honest(s.calls[k]) ==> LandedFor(s, id, k);
    }
  }

  /** A caller told that no write was made is told the truth, but for those two cases; a caller given a
      result holds the one stored result, marked as reused exactly when it was not the first to get it. */
  lemma AnswersAreHonest(c: Config, labels: seq<Label>, k: nat)
    requires k < |Run(c, labels).answers|
    ensures var s := Run(c, labels);
            var a := s.answers[k];
            && (a.outcome == Err(WriteNotMade) ==> forall j :: LandedFor(s, a.planId, j) ==> !Honest(s.calls[j]) || RaisedAfterLanding(s.calls[j]))
            && (a.outcome.Ok? ==>
                  && a.planId in s.heap && s.heap[a.planId].status == Applied
                  && a.outcome.value.reused == a.replayed
                  && s.heap[a.planId].result == Some(a.outcome.value.(reused := false)))
  {
    hide Run, EnforceWrite, Meaning, ApplyOk, ReviewOk;
    RunKeepsInv(c, labels);
    var s := Run(c, labels);
    assert AnswerOk(s, s.answers[k]);
    if s.answers[k].planId in s.heap {
      assert PlanOk(s, s.heap[s.answers[k].planId]);
    }
  }

  /** A repeated apply is answered with the result an earlier apply of the same plan was given. */
  lemma ReplayRepeatsTheFirstAnswer(c: Config, labels: seq<Label>, id: PlanId, digest: Digest, op: Operation,
                                    env: Environment, now: real)
    requires var s := Run(c, labels);
             var r := Acquire(Table(s), id, digest, op, env, now).1;
             r.Ok? && r.value.Replay?
    ensures var s := Run(c, labels);
            var replay := Acquire(Table(s), id, digest, op, env, now).1.value.result;
            replay.reused
            && exists k :: 0 <= k < |s.answers| && s.answers[k] == Answer(id, false, Ok(replay.(reused := false)))
  {
    hide Run, EnforceWrite, Meaning, ApplyOk, ReviewOk;
    RunKeepsInv(c, labels);
    var s := Run(c, labels);
    TableFacts(s);
    var p := s.heap[id];
    assert PlanOk(s, p);
    var replay := Acquire(Table(s), id, digest, op, env, now).1.value.result;
    var j: nat :| CompletedBy(s, p, j);
    var k: nat :| AnsweredWith(s, p, k);
    assert s.answers[k] == Answer(id, false, Ok(replay.(reused := false)));
  }

  /** What is sent is what the digest approved: same operation, form, entry and precondition, and
      the reviewed fields and values, in the reviewed spelling unless the policy changed in between.
      It holds even if a purge cleared the shared plan object while the call was suspended. */
  lemma SentIsWhatWasReviewed(c: Config, labels: seq<Label>, k: nat)
    requires k < |Run(c, labels).calls|
    ensures var s := Run(c, labels);
            var call := s.calls[k];
            var approved := call.digest.content;
            && call.planId in s.reviews
            && call.operation == approved.operation && call.form == approved.form
            && (call.operation == UpdateEntry ==>
                  call.entryId == approved.entryId && call.precondition == approved.precondition && call.precondition.Some?)
            && approved.proposed == Meaning(s.reviews[call.planId].values)
            && multiset(call.delivered) == multiset(s.reviews[call.planId].values)
            && SameUpToSpelling(c.text, call.values, call.delivered)
            && (call.policy == s.reviews[call.planId].policy ==> call.values == call.delivered)
            && forall i :: 0 <= i < |call.values| ==> !Sensitive(c.text, call.policy, call.values[i].0)
  {
    hide Run, EnforceWrite, Meaning, ApplyOk, Sensitive, SameUpToSpelling;
    RunKeepsInv(c, labels);
    var s := Run(c, labels);
    var call := s.calls[k];
    assert CallOk(s, call);
    assert PlanOk(s, s.heap[call.planId]);
    var approved := call.digest.content;
    var reviewed := s.reviews[call.planId].values;
    ReorderedFoldDistinct(c.text, call.delivered, reviewed);
    EnforceWriteKeepsFields(c.text, call.policy, approved.operation, approved.form, call.delivered, approved.reason);
    if call.policy == s.reviews[call.planId].policy {
      EnforceWriteOfReordered(c.text, call.policy, approved.operation, approved.form, call.delivered, reviewed, approved.reason);
    }
  }

  /** The shown plan agrees with the digest shown beside it, field by field. */
  ghost predicate AgreesWithDigest(shown: PublicPlan) {
    var c := shown.digest.content;
    && shown.operation == c.operation && shown.environment == c.environment
    && shown.form == c.form && shown.entryId == c.entryId && shown.reason == c.reason
    && Meaning(shown.proposed) == c.proposed
    && (shown.current.None? <==> c.current.None?)
    && (shown.current.Some? ==> Meaning(shown.current.value) == c.current.value)
  }

  /** Planning a write shows the caller what was asked for, with the values as the gate leaves them. */
  lemma PlanningShowsTheRequest(s: State, l: Label)
    requires l.PlanWrite? && l.id !in s.heap && FoldDistinct(s.config.text, l.values)
    requires EnforceWrite(s.config.text, l.policy, l.operation, l.form, l.values, l.reason).Ok?
    ensures var values := EnforceWrite(s.config.text, l.policy, l.operation, l.form, l.values, l.reason).value;
            var r := Create(Table(s), l.id, MakeBody(l, values), l.purgeAt, l.stampAt, s.config.ttl, s.config.maxPending).1;
            var s' := Step(s, l);
            if r.Err? then
              && l.id !in s'.heap
              && (s.config.kind == Durable ==> s' == s)
              && (s.config.kind == InMemory ==>
                    forall x :: x in s.heap ==> (x in s'.dict <==> x in s.dict && s.heap[x].expiresAt > l.purgeAt))
            else
              && AgreesWithDigest(r.value)
              && r.value.id == l.id && r.value.operation == l.operation && r.value.environment == l.environment
              && r.value.form == l.form && r.value.reason == l.reason && r.value.proposed == values
              && r.value.entryId == (if l.operation == UpdateEntry then Some(l.entryId) else None)
              && r.value.current == (if l.operation == UpdateEntry then Some(l.current) else None)
              && r.value.digest.content.precondition == (if l.operation == UpdateEntry then Some(l.precondition) else None)
              && r.value.status == Pending
              && l.id in s'.dict && l.id in s'.heap && Shows(r.value, s'.heap[l.id])
              && s'.reviews == s.reviews[l.id := Review(l.policy, values)]
  {
    hide EnforceWrite, Meaning, ActiveIds;
  }

  /** An apply request that names a pending, unexpired plan takes it: the plan is applying from then on, and the
      call goes on to the limiter with what the gate of its own policy makes of the values, or to failing. The
      in-memory store hands out the values as they were put in, the encrypted one in any order. */
  lemma StartingTakesThePlan(s: State, l: Label)
    requires l.StartApply? && l.apply !in s.applies && l.id in s.dict && l.id in s.heap
    requires Names(Table(s), l.id, l.digest, l.operation, l.environment, l.now) && s.heap[l.id].status == Pending
    ensures var p := s.heap[l.id];
            var s' := Step(s, l);
            var gate := EnforceWrite(s.config.text, l.policy, l.operation, p.body.form, l.delivered, p.body.reason);
            var delivered := if s.config.kind == InMemory then l.delivered == p.body.proposed
                             else multiset(l.delivered) == multiset(p.body.proposed);
            && (!delivered ==> s' == s)
            && (delivered ==>
                  && l.id in s'.heap && s'.heap[l.id] == p.(status := Applying)
                  && l.apply in s'.applies
                  && s'.applies[l.apply] == Apply(l.id, l.digest, l.operation, l.environment, l.policy, l.delivered,
                       p.(status := Applying), if gate.Ok? then Limiting(gate.value) else Failing(false)))
  {
    hide EnforceWrite, Meaning;
  }

  /** What a call sends is read when it sends: from the shared plan object in memory, from its own copy with the
      encrypted store. An update whose entry or precondition has been cleared meanwhile is not sent. */
  lemma SendingReadsThePlan(s: State, n: nat, reply: Reply, landed: bool)
    requires Inv(s) && n in s.applies && s.applies[n].phase.Limiting?
    ensures var a := s.applies[n];
            var s' := Step(s, Send(n, reply, landed));
            a.planId in s.heap
            && var b := if s.config.kind == InMemory then s.heap[a.planId].body else a.copy.body;
               var update := a.operation == UpdateEntry;
               if update && (b.entryId.None? || b.precondition.None?) then
                 s' == s.(applies := s.applies[n := a.(phase := Failing(false))])
               else
                 && s' == s.(calls := s'.calls, applies := s.applies[n := a.(phase := Awaiting(reply))])
                 && s'.calls == s.calls + [Call(a.planId, a.digest, a.operation, b.form, if update then b.entryId else None,
                      a.phase.values, if update then b.precondition else None, a.policy, a.delivered, reply, landed)]
  {
    hide EnforceWrite, Meaning, PlanOk, CallOk, AnswerOk;
    assert ApplyOk(s, s.applies[n]);
  }

  /** Whenever a lookup shows a pending plan, it shows what the digest beside it stands for. */
  lemma LookupShowsWhatTheDigestApproves(c: Config, labels: seq<Label>, id: PlanId, env: Environment, now: real)
    requires var r := Get(Table(Run(c, labels)), id, env, now).1; r.Ok? && r.value.status == Pending
    ensures var shown := Get(Table(Run(c, labels)), id, env, now).1.value;
            shown.id == id && AgreesWithDigest(shown)
  {
    hide Run, EnforceWrite, Meaning, ReviewOk;
    RunKeepsInv(c, labels);
    var s := Run(c, labels);
    assert PlanOk(s, s.heap[id]);
  }

  /** And whatever call of whatever run goes out under that digest, before or after, writes what was
      shown: the same operation, form and entry, and the shown fields with the shown values. */
  lemma ShownIsWhatIsSent(shown: PublicPlan, c: Config, labels: seq<Label>, k: nat)
    requires AgreesWithDigest(shown)
    requires k < |Run(c, labels).calls| && Run(c, labels).calls[k].digest == shown.digest
    ensures var s := Run(c, labels);
            var call := s.calls[k];
            && call.operation == shown.operation && call.form == shown.form
            && (call.operation == UpdateEntry ==> call.entryId == shown.entryId)
            && Meaning(call.delivered) == Meaning(shown.proposed)
            && SameUpToSpelling(c.text, call.values, call.delivered)
            && (call.planId in s.reviews && call.policy == s.reviews[call.planId].policy ==>
                  Meaning(call.values) == Meaning(shown.proposed))
  {
    SentIsWhatWasReviewed(c, labels, k);
    hide Run, EnforceWrite, Meaning, Sensitive, SameUpToSpelling, ApplyOk, AnswerOk;
    RunKeepsInv(c, labels);
    var s := Run(c, labels);
    var call := s.calls[k];
    assert CallOk(s, call);
    assert PlanOk(s, s.heap[call.planId]);
    var reviewed := s.reviews[call.planId].values;
    ReorderedFoldDistinct(c.text, call.delivered, reviewed);
    SameEntriesSameMeaning(call.delivered, reviewed);
  }

  /** The only status changes: nothing leads back to pending, and applied, cancelled and failed are final. */
  ghost predicate Transition(a: Status, b: Status) {
    || a == b
    || (a == Pending && (b == Applying || b == Cancelled))
    || (a == Applying && (b == Applied || b == Failed || b == OutcomeUnknown))
    || (a == OutcomeUnknown && b == Failed)
  }

  lemma StepFollowsLifeCycle(s: State, l: Label, id: PlanId)
    requires Inv(s) && id in s.heap
    ensures id in Step(s, l).heap
    ensures Transition(s.heap[id].status, Step(s, l).heap[id].status)
    ensures s.heap[id].result.Some? ==> Step(s, l).heap[id].result == s.heap[id].result
  {
    hide EnforceWrite, Meaning, Inv, Commit, StepPlan, StepStart, StepReceive, StepSettle, StepSend, StepRestart, Cancel, Get;
    match l
    case PlanWrite(_, _, _, _, _, _, _, _, _, _, _, _) => PlanningIsUpkeep(s, l, id);
    case StartApply(_, _, _, _, _, _, _, _) => StartingIsUpkeep(s, l, id);
    case Receive(_, _) => VerdictIsLast(s, l, id);
    case Settle(_, _) => VerdictIsLast(s, l, id);
    case Send(_, _, _) => SendKeepsHeap(s, l);
    case CancelPlan(_, _, _) => LookingIsUpkeep(s, l, id);
    case GetPlan(_, _, _) => LookingIsUpkeep(s, l, id);
    case Restart(_, _) => RestartIsUpkeep(s, l, id);
    case _ =>
  }

  lemma LookingIsUpkeep(s: State, l: Label, id: PlanId)
    requires Inv(s) && id in s.heap && (l.CancelPlan? || l.GetPlan?)
    ensures id in Step(s, l).heap
    ensures Transition(s.heap[id].status, Step(s, l).heap[id].status)
    ensures Step(s, l).heap[id].result == s.heap[id].result
  {
    hide EnforceWrite, Meaning, PlanOk, ApplyOk, CallOk, AnswerOk, Commit;
    TableFacts(s);
    var table := if l.CancelPlan? then Cancel(Table(s), l.id, l.environment, l.now).0
                 else Get(Table(s), l.id, l.environment, l.now).0;
    CommitAt(s, table, id);
  }

  lemma RestartIsUpkeep(s: State, l: Label, id: PlanId)
    requires Inv(s) && id in s.heap && l.Restart?
    ensures id in StepRestart(s, l).heap
    ensures Transition(s.heap[id].status, StepRestart(s, l).heap[id].status)
    ensures StepRestart(s, l).heap[id].result == s.heap[id].result
  {
    hide EnforceWrite, Meaning, PlanOk, ApplyOk, CallOk, AnswerOk, Commit;
    TableFacts(s);
    CommitAt(s, Open(Table(s), l.now, l.recover), id);
  }

  lemma SendKeepsHeap(s: State, l: Label)
    requires l.Send?
    ensures StepSend(s, l).heap == s.heap
  {
    hide EnforceWrite, Meaning;
  }

  lemma PlanningIsUpkeep(s: State, l: Label, id: PlanId)
    requires Inv(s) && id in s.heap && l.PlanWrite?
    ensures id in StepPlan(s, l).heap && StepPlan(s, l).heap[id].status == s.heap[id].status
    ensures StepPlan(s, l).heap[id].result == s.heap[id].result
  {
    hide EnforceWrite, Meaning, PlanOk, ApplyOk, CallOk, AnswerOk, MakeBody;
    TableFacts(s);
  }

  lemma StartingIsUpkeep(s: State, l: Label, id: PlanId)
    requires Inv(s) && id in s.heap && l.StartApply?
    ensures id in StepStart(s, l).heap
    ensures Transition(s.heap[id].status, StepStart(s, l).heap[id].status)
    ensures StepStart(s, l).heap[id].result == s.heap[id].result
  {
    hide EnforceWrite, Meaning, PlanOk, ApplyOk, CallOk, AnswerOk, Commit;
    TableFacts(s);
    var (table, r) := Acquire(Table(s), l.id, l.digest, l.operation, l.environment, l.now);
    CommitAt(s, table, id);
  }

  lemma CommitAt(s: State, table: Store, id: PlanId)
    requires id in s.heap
    ensures id in Commit(s, table).heap
    ensures Commit(s, table).heap[id] ==
            if id in table then table[id] else if id in s.dict then Cleared(s.heap[id]) else s.heap[id]
  {
  }

  lemma VerdictIsLast(s: State, l: Label, id: PlanId)
    requires Inv(s) && id in s.heap && (l.Receive? || l.Settle?)
    ensures id in Step(s, l).heap
    ensures Transition(s.heap[id].status, Step(s, l).heap[id].status)
    ensures s.heap[id].result.Some? ==> Step(s, l).heap[id].result == s.heap[id].result
  {
    hide EnforceWrite, Meaning, PlanOk, ApplyOk, CallOk, AnswerOk, Commit, Cleared, Seen, ResultFor;
    TableFacts(s);
    if l.apply in s.applies {
      var a := s.applies[l.apply];
      RunningPlan(s, a);
      RunningHasNoResult(s, a.planId);
      var table := if l.Receive? then Complete(Table(s), a.planId, ResultFor(a, Seen(s, a), if a.phase.Awaiting? && a.phase.reply.Success? then a.phase.reply.entryId else None)).0
                   else Fail(Table(s), a.planId, a.phase.Failing? && a.phase.outcomeUnknown).0;
      ClearedKeeps(s.heap[id]);
      ClearedKeeps(s.heap[a.planId]);
      CommitAt(s, table, id);
    }
  }

  lemma ClearedKeeps(p: Plan)
    ensures Cleared(p).status == p.status && Cleared(p).result == p.result
  {
  }

  /** The number of active plans never exceeds the configured bound. */
  lemma {:induction false} ActivePlansStayBounded(c: Config, labels: seq<Label>)
    ensures |ActiveIds(Table(Run(c, labels)))| <= c.maxPending
  {
    hide EnforceWrite, Meaning, PlanOk, ApplyOk, CallOk, ReviewOk, AnswerOk, Step;
    if labels == [] {
      assert ActiveIds(Table(Initial(c))) == {};
    } else {
      var before := labels[..|labels| - 1];
      ActivePlansStayBounded(c, before);
      RunKeepsInv(c, before);
      StepKeepsBound(Run(c, before), labels[|labels| - 1]);
    }
  }

  lemma StepKeepsBound(s: State, l: Label)
    requires Inv(s) && |ActiveIds(Table(s))| <= s.config.maxPending
    ensures |ActiveIds(Table(Step(s, l)))| <= s.config.maxPending
  {
    hide *;
    InvDict(s);
    if l.PlanWrite? && StepPlan(s, l) != s {
      PlanningKeepsBound(s, l);
    } else {
      StepAddsNoActive(s, l);
      NoNewActiveKeepsBound(Table(s), Table(Step(s, l)), s.config.maxPending);
    }
  }

  lemma PlanningKeepsBound(s: State, l: Label)
    requires s.dict <= s.heap.Keys && |ActiveIds(Table(s))| <= s.config.maxPending
    requires l.PlanWrite? && StepPlan(s, l) != s
    ensures |ActiveIds(Table(Step(s, l)))| <= s.config.maxPending
  {
    hide EnforceWrite, Meaning, MakeBody, FoldDistinct, ActiveIds, Create;
    var body := MakeBody(l, EnforceWrite(s.config.text, l.policy, l.operation, l.form, l.values, l.reason).value);
    CreateStaysWithinCapacity(Table(s), l.id, body, l.purgeAt, l.stampAt, s.config.ttl, s.config.maxPending);
    var table := Create(Table(s), l.id, body, l.purgeAt, l.stampAt, s.config.ttl, s.config.maxPending).0;
    CommitTable(s, table);
    assert Table(StepPlan(s, l)) == table;
  }

  lemma CommitTable(s: State, table: Store)
    ensures Table(Commit(s, table)) == table
  {
  }

  lemma InvDict(s: State)
    requires Inv(s)
    ensures s.dict <= s.heap.Keys
    ensures forall n :: n in s.applies && s.applies[n].planId in s.dict ==> StillRunning(s, s.applies[n].planId)
  {
    forall n | n in s.applies
      ensures StillRunning(s, s.applies[n].planId)
    {
      RunningPlan(s, s.applies[n]);
    }
  }

  lemma StepAddsNoActive(s: State, l: Label)
    requires s.dict <= s.heap.Keys
    requires l.PlanWrite? ==> StepPlan(s, l) == s
    ensures NoNewActive(Table(s), Table(Step(s, l)))
  {
    hide EnforceWrite, Meaning, StepPlan, StepStart, StepSend, StepReceive, StepSettle, ActiveIds, Table, Commit, Cancel, Get, Open;
    SameTable(s, s);
    match l
    case StartApply(_, _, _, _, _, _, _, _) => StartAddsNoActive(s, l);
    case RefuseLocally(apply) => SameTable(s, Step(s, l));
    case Send(_, _, _) => SendAddsNoActive(s, l);
    case Receive(_, _) => ReceiveAddsNoActive(s, l);
    case Settle(_, _) => SettleAddsNoActive(s, l);
    case Lose(_) => SameTable(s, Step(s, l));
    case CancelPlan(id, env, now) =>
      CancelAddsNoActive(Table(s), id, env, now);
      CommitTable(s, Cancel(Table(s), id, env, now).0);
    case GetPlan(id, env, now) =>
      GetAddsNoActive(Table(s), id, env, now);
      CommitTable(s, Get(Table(s), id, env, now).0);
    case Restart(now, recover) =>
      OpenAddsNoActive(Table(s), now, recover);
      CommitTable(s, Open(Table(s), now, recover));
      EmptyTable(s, Step(s, l));
    case _ =>
  }

  lemma SameTable(s: State, s': State)
    ensures s'.dict == s.dict && s'.heap == s.heap ==> NoNewActive(Table(s), Table(s'))
  {
  }

  lemma EmptyTable(s: State, s': State)
    ensures s'.dict == {} ==> NoNewActive(Table(s), Table(s'))
  {
  }

  lemma StartAddsNoActive(s: State, l: Label)
    requires l.StartApply?
    ensures NoNewActive(Table(s), Table(StepStart(s, l)))
  {
    hide EnforceWrite, Meaning, ActiveIds, Commit, Acquire, MayDeliver;
    AcquireAddsNoActive(Table(s), l.id, l.digest, l.operation, l.environment, l.now);
    CommitTable(s, Acquire(Table(s), l.id, l.digest, l.operation, l.environment, l.now).0);
  }

  lemma SendAddsNoActive(s: State, l: Label)
    requires l.Send?
    ensures NoNewActive(Table(s), Table(StepSend(s, l)))
  {
    hide EnforceWrite, Meaning, ActiveIds, Seen;
    SameTable(s, StepSend(s, l));
  }

  lemma ReceiveAddsNoActive(s: State, l: Label)
    requires l.Receive?
    ensures NoNewActive(Table(s), Table(StepReceive(s, l)))
  {
    hide EnforceWrite, Meaning, ActiveIds, Seen, ResultFor, Commit, Complete;
    if l.apply in s.applies && s.applies[l.apply].phase.Awaiting? && s.applies[l.apply].phase.reply.Success? {
      var a := s.applies[l.apply];
      var result := ResultFor(a, Seen(s, a), a.phase.reply.entryId);
      CompleteAddsNoActive(Table(s), a.planId, result);
      CommitTable(s, Complete(Table(s), a.planId, result).0);
    }
  }

  lemma SettleAddsNoActive(s: State, l: Label)
    requires l.Settle?
    ensures NoNewActive(Table(s), Table(StepSettle(s, l)))
  {
    hide EnforceWrite, Meaning, ActiveIds, Commit, Fail;
    if l.apply in s.applies && s.applies[l.apply].phase.Failing? {
      var a := s.applies[l.apply];
      FailAddsNoActive(Table(s), a.planId, a.phase.outcomeUnknown);
      CommitTable(s, Fail(Table(s), a.planId, a.phase.outcomeUnknown).0);
    }
  }

  // ------------------------------------------- what becomes of an acknowledged write

  /** The step is one of call `n` itself, or takes the process away. */
  predicate Touches(kind: StoreKind, l: Label, n: nat) {
    || ((l.RefuseLocally? || l.Send? || l.Receive? || l.Settle? || l.Lose?) && l.apply == n)
    || (l.Restart? && kind == InMemory)
  }

  ghost predicate NoneTouches(kind: StoreKind, labels: seq<Label>, n: nat) {
    forall i :: 0 <= i < |labels| ==> !Touches(kind, labels[i], n)
  }

  ghost function Continue(s: State, labels: seq<Label>): State {
    if labels == [] then s else Step(Continue(s, labels[..|labels| - 1]), labels[|labels| - 1])
  }

  /** A suspended call is changed by its own steps only. */
  lemma UntouchedCallWaits(s: State, l: Label, n: nat)
    requires n in s.applies && !Touches(s.config.kind, l, n)
    ensures n in Step(s, l).applies && Step(s, l).applies[n] == s.applies[n]
  {
    hide EnforceWrite, Meaning, Commit, StepPlan, StepStart, StepReceive, StepSettle, StepSend, Cancel, Get, Open;
    match l
    case PlanWrite(_, _, _, _, _, _, _, _, _, _, _, _) => PlanningLeavesApplies(s, l);
    case StartApply(_, _, _, _, _, _, _, _) => StartingLeavesOthers(s, l, n);
    case Send(_, _, _) => SendingLeavesOthers(s, l, n);
    case Receive(_, _) => ReceivingLeavesOthers(s, l, n);
    case Settle(_, _) => SettlingLeavesOthers(s, l, n);
    case CancelPlan(id, env, now) => CommitLogs(s, Cancel(Table(s), id, env, now).0);
    case GetPlan(id, env, now) => CommitLogs(s, Get(Table(s), id, env, now).0);
    case Restart(now, recover) => CommitLogs(s, Open(Table(s), now, recover));
    case _ =>
  }

  lemma PlanningLeavesApplies(s: State, l: Label)
    requires l.PlanWrite?
    ensures StepPlan(s, l).applies == s.applies
  {
    hide EnforceWrite, Meaning, MakeBody, Create, Commit, FoldDistinct;
    var gate := EnforceWrite(s.config.text, l.policy, l.operation, l.form, l.values, l.reason);
    if gate.Ok? {
      var body := MakeBody(l, gate.value);
      CommitLogs(s, Create(Table(s), l.id, body, l.purgeAt, l.stampAt, s.config.ttl, s.config.maxPending).0);
    }
  }

  lemma StartingLeavesOthers(s: State, l: Label, n: nat)
    requires l.StartApply? && n in s.applies
    ensures n in StepStart(s, l).applies && StepStart(s, l).applies[n] == s.applies[n]
  {
    hide EnforceWrite, Meaning, Commit, Acquire, MayDeliver;
    CommitLogs(s, Acquire(Table(s), l.id, l.digest, l.operation, l.environment, l.now).0);
  }

  lemma SendingLeavesOthers(s: State, l: Label, n: nat)
    requires l.Send? && n in s.applies && l.apply != n
    ensures n in StepSend(s, l).applies && StepSend(s, l).applies[n] == s.applies[n]
  {
    hide EnforceWrite, Meaning, Seen;
  }

  lemma ReceivingLeavesOthers(s: State, l: Label, n: nat)
    requires l.Receive? && n in s.applies && l.apply != n
    ensures n in StepReceive(s, l).applies && StepReceive(s, l).applies[n] == s.applies[n]
  {
    hide EnforceWrite, Meaning, Seen, ResultFor, Commit, Complete;
    if l.apply in s.applies && s.applies[l.apply].phase.Awaiting? && s.applies[l.apply].phase.reply.Success? {
      var a := s.applies[l.apply];
      CommitLogs(s, Complete(Table(s), a.planId, ResultFor(a, Seen(s, a), a.phase.reply.entryId)).0);
    }
  }

  lemma SettlingLeavesOthers(s: State, l: Label, n: nat)
    requires l.Settle? && n in s.applies && l.apply != n
    ensures n in StepSettle(s, l).applies && StepSettle(s, l).applies[n] == s.applies[n]
  {
    hide EnforceWrite, Meaning, Commit, Fail;
    if l.apply in s.applies && s.applies[l.apply].phase.Failing? {
      var a := s.applies[l.apply];
      CommitLogs(s, Fail(Table(s), a.planId, a.phase.outcomeUnknown).0);
    }
  }

  lemma {:induction false} UntouchedCallWaitsOn(s: State, labels: seq<Label>, n: nat)
    requires Inv(s) && n in s.applies && NoneTouches(s.config.kind, labels, n)
    ensures var s' := Continue(s, labels);
            Inv(s') && s'.config == s.config && n in s'.applies && s'.applies[n] == s.applies[n]
  {
    hide Inv, Step, Touches;
    if labels != [] {
      var before, l := labels[..|labels| - 1], labels[|labels| - 1];
      UntouchedCallWaitsOn(s, before, n);
      var s' := Continue(s, before);
      StepKeepsInv(s', l);
      StepKeepsConfig(s', l);
      UntouchedCallWaits(s', l, n);
    }
  }

  /** The store takes the result: the plan is still listed and applying, and the database works. */
  predicate Recordable(s: State, id: PlanId, databaseFails: bool) {
    id in s.dict && id in s.heap && s.heap[id].status == Applying && !(s.config.kind == Durable && databaseFails)
  }

  /** The caller of an acknowledged write is given the result exactly when the store can take it then. */
  lemma AcknowledgedWriteIsReceived(s: State, n: nat, databaseFails: bool)
    requires Inv(s) && n in s.applies && s.applies[n].phase.Awaiting? && s.applies[n].phase.reply.Success?
    ensures var a := s.applies[n];
            var s' := Step(s, Receive(n, databaseFails));
            if Recordable(s, a.planId, databaseFails) then
              && n !in s'.applies && a.planId in s'.heap && s'.heap[a.planId].status == Applied
              && s'.answers == s.answers + [Answer(a.planId, false, Ok(ResultFor(a, Seen(s, a), a.phase.reply.entryId)))]
            else
              s' == Move(s, n, Failing(true))
  {
    hide EnforceWrite, Meaning, PlanOk, ApplyOk, CallOk, AnswerOk, Seen, ResultFor;
    TableFacts(s);
  }

  /** What a call that ends without the result says to its caller, depending on the state it ends in. */
  lemma FailingCallSettles(s: State, n: nat, databaseFails: bool)
    requires Inv(s) && n in s.applies && s.applies[n].phase.Failing?
    ensures var a := s.applies[n];
            var s' := Step(s, Settle(n, databaseFails));
            && s'.answers == s.answers + [Answer(a.planId, false, Err(
              if s.config.kind == Durable && databaseFails then StoreProblem(PersistenceFailed)
              else if a.planId !in s.dict then StoreProblem(NotFound)
              else if a.phase.outcomeUnknown then OutcomeUnknownToCaller else WriteNotMade))]
            && (a.planId in s.dict && !(s.config.kind == Durable && databaseFails) ==>
                  a.planId in s'.heap && s'.heap[a.planId].status == if a.phase.outcomeUnknown then OutcomeUnknown else Failed)
  {
    hide EnforceWrite, Meaning, PlanOk, ApplyOk, CallOk, AnswerOk, Cleared;
    TableFacts(s);
  }

  /** What the caller of an acknowledged write is told, in every case, whatever runs in between: the
      result, exactly when the store can record it; otherwise that the outcome is unknown, unless at the
      end the database fails again or the plan is no longer listed, which hide the outcome. */
  lemma AcknowledgedWriteIsTold(s: State, n: nat, firstFails: bool, later: seq<Label>, thenFails: bool)
    requires Inv(s) && n in s.applies && s.applies[n].phase.Awaiting? && s.applies[n].phase.reply.Success?
    requires NoneTouches(s.config.kind, later, n)
    ensures var a := s.applies[n];
            var s1 := Step(s, Receive(n, firstFails));
            var s2 := Continue(s1, later);
            var s3 := Step(s2, Settle(n, thenFails));
            if Recordable(s, a.planId, firstFails) then
              s1.answers == s.answers + [Answer(a.planId, false, Ok(ResultFor(a, Seen(s, a), a.phase.reply.entryId)))]
            else
              && s1.answers == s.answers
              && s3.answers == s2.answers + [Answer(a.planId, false, Err(
                   if s.config.kind == Durable && thenFails then StoreProblem(PersistenceFailed)
                   else if a.planId !in s2.dict then StoreProblem(NotFound)
                   else OutcomeUnknownToCaller))]
  {
    AcknowledgedWriteIsReceived(s, n, firstFails);
    hide Inv, Step, Recordable, Seen, ResultFor;
    var s1 := Step(s, Receive(n, firstFails));
    if !Recordable(s, s.applies[n].planId, firstFails) {
      StepKeepsInv(s, Receive(n, firstFails));
      UntouchedCallWaitsOn(s1, later, n);
      FailingCallSettles(Continue(s1, later), n, thenFails);
    }
  }

  /** What a call that ended in an exception leaves behind, whatever runs in between and whether or not the
      write landed: the exception alone decides between failed and outcome unknown, and the plan and its
      caller agree, unless at the end the database fails or the plan is no longer listed. */
  lemma RefusedWriteIsTold(s: State, n: nat, firstFails: bool, later: seq<Label>, thenFails: bool)
    requires Inv(s) && n in s.applies && s.applies[n].phase.Awaiting? && s.applies[n].phase.reply.Refused?
    requires NoneTouches(s.config.kind, later, n)
    ensures var a := s.applies[n];
            var unknown := OutcomeIsUnknown(a.phase.reply.error);
            var s1 := Step(s, Receive(n, firstFails));
            var s2 := Continue(s1, later);
            var s3 := Step(s2, Settle(n, thenFails));
            && s1.answers == s.answers
            && (if s.config.kind == Durable && thenFails then
                  s3.answers == s2.answers + [Answer(a.planId, false, Err(StoreProblem(PersistenceFailed)))]
                else if a.planId !in s2.dict then
                  s3.answers == s2.answers + [Answer(a.planId, false, Err(StoreProblem(NotFound)))]
                else
                  && s3.answers == s2.answers + [Answer(a.planId, false, Err(if unknown then OutcomeUnknownToCaller else WriteNotMade))]
                  && a.planId in s3.heap && s3.heap[a.planId].status == if unknown then OutcomeUnknown else Failed)
  {
    hide Inv, Step, Seen, ResultFor;
    var s1 := Step(s, Receive(n, firstFails));
    RefusalIsReceived(s, n, firstFails);
    StepKeepsInv(s, Receive(n, firstFails));
    UntouchedCallWaitsOn(s1, later, n);
    FailingCallSettles(Continue(s1, later), n, thenFails);
  }

  /** So exactly the two exceptions that leave open whether the write arrived, a lost connection and an
      answer that cannot be read, end in an unknown outcome; any other, a conflict included, ends as failed. */
  lemma OnlyLostRepliesAreUnknown(s: State, n: nat, firstFails: bool, later: seq<Label>, thenFails: bool)
    requires Inv(s) && n in s.applies && s.applies[n].phase.Awaiting? && s.applies[n].phase.reply.Refused?
    requires NoneTouches(s.config.kind, later, n)
    requires s.applies[n].planId in Continue(Step(s, Receive(n, firstFails)), later).dict
    requires !(s.config.kind == Durable && thenFails)
    ensures var id := s.applies[n].planId;
            var error := s.applies[n].phase.reply.error;
            var s2 := Continue(Step(s, Receive(n, firstFails)), later);
            var s3 := Step(s2, Settle(n, thenFails));
            && id in s3.heap
            && (error == Transport || error == Protocol <==> s3.heap[id].status == OutcomeUnknown)
            && (error == Transport || error == Protocol <==>
                  s3.answers == s2.answers + [Answer(id, false, Err(OutcomeUnknownToCaller))])
            && (error != Transport && error != Protocol <==> s3.heap[id].status == Failed)
            && (error != Transport && error != Protocol <==>
                  s3.answers == s2.answers + [Answer(id, false, Err(WriteNotMade))])
  {
    hide Inv, Step, Continue;
    RefusedWriteIsTold(s, n, firstFails, later, thenFails);
    var answers := Continue(Step(s, Receive(n, firstFails)), later).answers;
    var id := s.applies[n].planId;
    LastAnswersDiffer(answers, Answer(id, false, Err(OutcomeUnknownToCaller)), Answer(id, false, Err(WriteNotMade)));
  }

  lemma LastAnswersDiffer(answers: seq<Answer>, a: Answer, b: Answer)
    requires a != b
    ensures answers + [a] != answers + [b]
  {
    assert (answers + [a])[|answers|] != (answers + [b])[|answers|];
  }

  lemma RefusalIsReceived(s: State, n: nat, databaseFails: bool)
    requires n in s.applies && s.applies[n].phase.Awaiting? && s.applies[n].phase.reply.Refused?
    ensures Step(s, Receive(n, databaseFails)) == Move(s, n, Failing(OutcomeIsUnknown(s.applies[n].phase.reply.error)))
  {
    hide EnforceWrite, Meaning;
  }

  /** An exception the client raises after its call has landed is taken for one before sending: whatever runs
      in between, the plan ends as failed and its caller is told that no write was made, in every case in
      which the verdict can be recorded. */
  lemma RaisedAfterLandingLooksFailed(s: State, n: nat, k: nat, firstFails: bool, later: seq<Label>, thenFails: bool)
    requires Inv(s) && n in s.applies && s.applies[n].phase.Awaiting?
    requires LandedFor(s, s.applies[n].planId, k) && RaisedAfterLanding(s.calls[k])
    requires NoneTouches(s.config.kind, later, n)
    ensures var id := s.applies[n].planId;
            var s2 := Continue(Step(s, Receive(n, firstFails)), later);
            var s3 := Step(s2, Settle(n, thenFails));
            id in s2.dict && !(s.config.kind == Durable && thenFails) ==>
              && id in s3.heap && s3.heap[id].status == Failed
              && s3.answers == s2.answers + [Answer(id, false, Err(WriteNotMade))]
  {
    var a := s.applies[n];
    assert a.phase.reply == s.calls[k].reply by {
      hide EnforceWrite, Meaning, PlanOk, CallOk, AnswerOk;
      assert ApplyOk(s, a);
      OnlyReply(s, a);
    }
    hide Inv, Step, Continue;
    RefusedWriteIsTold(s, n, firstFails, later, thenFails);
  }

  // -------------------------------------------------------------- runs that get there

  function SampleText(): Text {
    Text(s => s, s => s == "")
  }

  /** A policy open to every write with a reason. */
  function SamplePolicy(): Policy {
    var scope := FieldScope(true, [], map[]);
    Policy(true, true, [], map[], true, [], scope, scope, false, [], true, false, ReadWrite, true, true, [], [])
  }

  lemma SamplePolicyIsAccepted()
    ensures Accepted(SampleText(), SamplePolicy())
  {
  }

  function SampleConfig(kind: StoreKind): Config {
    Config(kind, 10.0, 1, SampleText())
  }

  function SampleBody(): Body {
    Body(UpdateEntry, Dev, "form", Some("1"), Some([]), [("field", Int(1))], "reason", Some("date"))
  }

  /** Plan an update, start to apply it and send it: it lands, and the client answers `reply`. */
  function SampleRun(reply: Reply): seq<Label> {
    [PlanWrite("id", SamplePolicy(), UpdateEntry, Dev, "form", "1", [], [("field", Int(1))], "reason", "date", 0.0, 0.0),
     StartApply(0, "id", DigestOf(SampleBody()), UpdateEntry, Dev, 0.0, SamplePolicy(), [("field", Int(1))]),
     Send(0, reply, true)]
  }

  ghost predicate SampleSent(s: State, kind: StoreKind, reply: Reply) {
    && s.config == SampleConfig(kind) && s.dict == {"id"} && "id" in s.heap
    && s.heap["id"].status == Applying && s.heap["id"].expiresAt == 10.0 && s.heap["id"].body.environment == Dev
    && 0 in s.applies && s.applies[0].planId == "id" && s.applies[0].phase == Awaiting(reply)
    && |s.calls| == 1 && s.calls[0].planId == "id" && s.calls[0].landed && s.calls[0].reply == reply
    && s.answers == []
  }

  lemma SampleGatePasses(op: Operation)
    ensures EnforceWrite(SampleText(), SamplePolicy(), op, "form", [("field", Int(1))], "reason") == Ok([("field", Int(1))])
  {
  }

  lemma SampleIsPlanned(kind: StoreKind, reply: Reply)
    ensures var s := Step(Initial(SampleConfig(kind)), SampleRun(reply)[0]);
            && s.config == SampleConfig(kind) && s.dict == {"id"} && s.applies == map[] && s.calls == [] && s.answers == []
            && "id" in s.heap && s.heap["id"] == NewPlan("id", SampleBody(), 10.0)
  {
    SampleGatePasses(UpdateEntry);
    hide EnforceWrite, DigestOf;
    assert ActiveIds(Purge(map[], 0.0)) == {};
    var s0 := Initial(SampleConfig(kind));
    assert Table(s0) == map[];
  }

  lemma SampleStarts(s: State, kind: StoreKind, reply: Reply)
    requires s.config == SampleConfig(kind) && s.dict == {"id"} && s.applies == map[] && s.calls == [] && s.answers == []
    requires "id" in s.heap && s.heap["id"] == NewPlan("id", SampleBody(), 10.0)
    ensures var s' := Step(s, SampleRun(reply)[1]);
            && s'.config == s.config && s'.dict == {"id"} && s'.calls == [] && s'.answers == []
            && "id" in s'.heap && s'.heap["id"] == NewPlan("id", SampleBody(), 10.0).(status := Applying)
            && 0 in s'.applies && s'.applies[0].planId == "id" && s'.applies[0].operation == UpdateEntry
            && s'.applies[0].phase == Limiting([("field", Int(1))]) && s'.applies[0].copy == s'.heap["id"]
  {
    SampleGatePasses(UpdateEntry);
    hide EnforceWrite, DigestOf;
  }

  lemma SampleSends(s: State, kind: StoreKind, reply: Reply)
    requires s.config == SampleConfig(kind) && s.dict == {"id"} && s.calls == [] && s.answers == []
    requires "id" in s.heap && s.heap["id"] == NewPlan("id", SampleBody(), 10.0).(status := Applying)
    requires 0 in s.applies && s.applies[0].planId == "id" && s.applies[0].operation == UpdateEntry
    requires s.applies[0].phase == Limiting([("field", Int(1))]) && s.applies[0].copy == s.heap["id"]
    ensures SampleSent(Step(s, SampleRun(reply)[2]), kind, reply)
  {
    hide EnforceWrite, DigestOf;
  }

  lemma {:induction false} RunOne(c: Config, labels: seq<Label>, l: Label)
    ensures Run(c, labels + [l]) == Step(Run(c, labels), l)
  {
    hide Step;
    assert (labels + [l])[..|labels|] == labels;
  }

  lemma SampleIsSent(kind: StoreKind, reply: Reply)
    ensures SampleSent(Run(SampleConfig(kind), SampleRun(reply)), kind, reply)
  {
    hide Step, SampleSent, Run;
    var c, labels := SampleConfig(kind), SampleRun(reply);
    assert Run(c, []) == Initial(c) by {
      RunNothing(c);
    }
    RunOne(c, [], labels[0]);
    RunOne(c, [labels[0]], labels[1]);
    RunOne(c, [labels[0], labels[1]], labels[2]);
    assert [] + [labels[0]] == [labels[0]] && [labels[0]] + [labels[1]] == [labels[0], labels[1]];
    assert [labels[0], labels[1]] + [labels[2]] == labels;
    SampleIsPlanned(kind, reply);
    SampleStarts(Run(c, [labels[0]]), kind, reply);
    SampleSends(Run(c, [labels[0], labels[1]]), kind, reply);
  }

  lemma RunNothing(c: Config)
    ensures Run(c, []) == Initial(c)
  {
  }

  /** An update that landed and was acknowledged, while a lookup dropped its expired plan: its caller is
      told only that the plan was not found. Both stores run into it. */
  lemma HiddenOutcomeHappens(kind: StoreKind)
    ensures var s := Run(SampleConfig(kind), SampleRun(Success(None)) + [GetPlan("id", Dev, 10.0), Receive(0, false), Settle(0, false)]);
            && |s.calls| == 1 && s.calls[0].landed && s.calls[0].reply.Success?
            && s.answers == [Answer("id", false, Err(StoreProblem(NotFound)))]
  {
    var c, labels := SampleConfig(kind), SampleRun(Success(None));
    SampleIsSent(kind, Success(None));
    var more := [GetPlan("id", Dev, 10.0), Receive(0, false), Settle(0, false)];
    ThreeMore(c, labels, more[0], more[1], more[2]);
    hide Run;
    SampleHides(Run(c, labels), kind);
  }

  lemma ThreeMore(c: Config, labels: seq<Label>, k: Label, l: Label, m: Label)
    ensures Run(c, labels + [k, l, m]) == Step(Step(Step(Run(c, labels), k), l), m)
  {
    hide Step, Run;
    RunOne(c, labels, k);
    RunOne(c, labels + [k], l);
    RunOne(c, labels + [k] + [l], m);
    assert labels + [k] + [l] + [m] == labels + [k, l, m];
  }

  lemma SampleHides(s: State, kind: StoreKind)
    requires SampleSent(s, kind, Success(None))
    ensures var s' := Step(Step(Step(s, GetPlan("id", Dev, 10.0)), Receive(0, false)), Settle(0, false));
            s'.calls == s.calls && s'.answers == [Answer("id", false, Err(StoreProblem(NotFound)))]
  {
    hide EnforceWrite, Meaning, Cleared, ResultFor, Seen;
    var s1 := Step(s, GetPlan("id", Dev, 10.0));
    assert s1.dict == {} && s1.applies == s.applies && s1.calls == s.calls && s1.answers == [] && s1.config == s.config;
    var s2 := Step(s1, Receive(0, false));
    assert s2 == Move(s1, 0, Failing(true));
  }

  /** Runs from the start of either store get there. */
  lemma RaisedAfterLandingHappens(kind: StoreKind)
    ensures var s := Run(SampleConfig(kind), SampleRun(Refused(OtherException)) + [Receive(0, false), Settle(0, false)]);
            && |s.calls| == 1 && s.calls[0].landed
            && "id" in s.heap && s.heap["id"].status == Failed
            && s.answers == [Answer("id", false, Err(WriteNotMade))]
  {
    var c, labels, reply := SampleConfig(kind), SampleRun(Refused(OtherException)), Refused(OtherException);
    SampleIsSent(kind, reply);
    hide Run;
    RunOne(c, labels, Receive(0, false));
    RunOne(c, labels + [Receive(0, false)], Settle(0, false));
    assert labels + [Receive(0, false)] + [Settle(0, false)] == labels + [Receive(0, false), Settle(0, false)];
    SampleFails(Run(c, labels), kind);
  }

  lemma SampleFails(s: State, kind: StoreKind)
    requires SampleSent(s, kind, Refused(OtherException))
    ensures var s' := Step(Step(s, Receive(0, false)), Settle(0, false));
            && s'.calls == s.calls && "id" in s'.heap && s'.heap["id"].status == Failed
            && s'.answers == [Answer("id", false, Err(WriteNotMade))]
  {
    hide EnforceWrite, Meaning, ResultFor, Seen;
    var s1 := Step(s, Receive(0, false));
    assert s1 == Move(s, 0, Failing(false));
  }

  // ------------------------------------------------------- interrupted applies

  /** The plan is applying, but no apply call works on it any more. */
  ghost predicate Interrupted(s: State, id: PlanId) {
    id in s.heap && s.heap[id].status == Applying && Unattended(s, id)
  }

  ghost predicate Unattended(s: State, id: PlanId) {
    forall a :: a in s.applies ==> s.applies[a].planId != id
  }

  /** An encrypted store is opened with recovery while the plan is still listed and not expired. */
  predicate Recovers(s: State, l: Label, id: PlanId)
    requires id in s.heap
  {
    s.config.kind == Durable && l.Restart? && l.recover && id in s.dict && s.heap[id].expiresAt > l.now
  }

  /** A restart takes the in-memory store's plans and calls away; the encrypted store keeps its rows and the calls
      of other processes, and drops what has expired. */
  lemma RestartingExactly(s: State, now: real, recover: bool)
    requires Inv(s)
    ensures var s' := Step(s, Restart(now, recover));
            && s'.calls == s.calls && s'.answers == s.answers && s'.heap.Keys == s.heap.Keys
            && (s.config.kind == InMemory ==> s'.dict == {} && s'.applies == map[] && s'.heap == s.heap)
            && (s.config.kind == Durable ==>
                  && s'.applies == s.applies
                  && forall id :: id in s'.dict <==> id in s.dict && s.heap[id].expiresAt > now)
  {
    hide EnforceWrite, Meaning, PlanOk, ApplyOk, CallOk, AnswerOk, Cleared;
  }

  /** A cancelled task or a lost process leaves its plan applying; nobody else takes it up. */
  lemma LosingACallInterrupts(s: State, n: nat)
    requires Inv(s) && n in s.applies && s.heap[s.applies[n].planId].status == Applying
    ensures Interrupted(Step(s, Lose(n)), s.applies[n].planId)
  {
    hide EnforceWrite, Meaning, PlanOk, CallOk, AnswerOk;
  }

  /** An interrupted plan becomes `outcome_unknown` exactly when an encrypted store is opened with
      recovery before the plan expires; every other step leaves it applying and unattended. */
  lemma InterruptedStaysApplying(s: State, l: Label, id: PlanId)
    requires Inv(s) && Interrupted(s, id)
    ensures var s' := Step(s, l);
            && id in s'.heap && Unattended(s', id)
            && s'.heap[id].status == (if Recovers(s, l, id) then OutcomeUnknown else Applying)
  {
    hide EnforceWrite, Meaning, PlanOk, ApplyOk, CallOk, AnswerOk, StepPlan, StepStart, StepReceive, StepSettle, StepSend,
      StepRestart, Unattended;
    TableFacts(s);
    match l
    case PlanWrite(_, _, _, _, _, _, _, _, _, _, _, _) =>
      PlanningIsUpkeep(s, l, id);
      PlanningLeavesCalls(s, l, id);
    case StartApply(_, _, _, _, _, _, _, _) => StartingElsewhere(s, l, id);
    case Receive(_, _) => VerdictElsewhere(s, l, id);
    case Settle(_, _) => VerdictElsewhere(s, l, id);
    case Send(_, _, _) =>
      SendKeepsHeap(s, l);
      SendingElsewhere(s, l, id);
    case Restart(_, _) => RestartSettles(s, l, id);
    case _ => LookingElsewhere(s, l, id);
  }

  lemma PlanningLeavesCalls(s: State, l: Label, id: PlanId)
    requires l.PlanWrite? && Unattended(s, id)
    ensures Unattended(StepPlan(s, l), id)
  {
    hide EnforceWrite, Meaning, MakeBody, Create;
  }

  lemma StartingElsewhere(s: State, l: Label, id: PlanId)
    requires Inv(s) && Interrupted(s, id) && l.StartApply?
    ensures var s' := StepStart(s, l);
            id in s'.heap && s'.heap[id].status == Applying && Unattended(s', id)
  {
    hide EnforceWrite, Meaning, PlanOk, ApplyOk, CallOk, AnswerOk, Commit;
    TableFacts(s);
    var table := Acquire(Table(s), l.id, l.digest, l.operation, l.environment, l.now).0;
    CommitAt(s, table, id);
    CommitLogs(s, table);
  }

  lemma VerdictElsewhere(s: State, l: Label, id: PlanId)
    requires Inv(s) && Interrupted(s, id) && (l.Receive? || l.Settle?)
    ensures var s' := Step(s, l);
            id in s'.heap && s'.heap[id].status == Applying && Unattended(s', id)
  {
    hide EnforceWrite, Meaning, PlanOk, ApplyOk, CallOk, AnswerOk, Commit, Cleared, Seen, ResultFor;
    TableFacts(s);
    if l.apply in s.applies {
      var a := s.applies[l.apply];
      var reply := if a.phase.Awaiting? && a.phase.reply.Success? then a.phase.reply.entryId else None;
      var table := if l.Receive? then Complete(Table(s), a.planId, ResultFor(a, Seen(s, a), reply)).0
                   else Fail(Table(s), a.planId, a.phase.Failing? && a.phase.outcomeUnknown).0;
      CommitAt(s, table, id);
      CommitLogs(s, table);
      ClearedKeeps(s.heap[id]);
    }
  }

  lemma SendingElsewhere(s: State, l: Label, id: PlanId)
    requires l.Send? && Unattended(s, id)
    ensures Unattended(StepSend(s, l), id)
  {
    hide EnforceWrite, Meaning;
  }

  lemma RestartSettles(s: State, l: Label, id: PlanId)
    requires Inv(s) && Interrupted(s, id) && l.Restart?
    ensures var s' := StepRestart(s, l);
            && id in s'.heap && Unattended(s', id)
            && s'.heap[id].status == (if Recovers(s, l, id) then OutcomeUnknown else Applying)
  {
    hide EnforceWrite, Meaning, PlanOk, ApplyOk, CallOk, AnswerOk, Commit;
    TableFacts(s);
    var table := Open(Table(s), l.now, l.recover);
    CommitAt(s, table, id);
    CommitLogs(s, table);
    ClearedKeeps(s.heap[id]);
  }

  lemma LookingElsewhere(s: State, l: Label, id: PlanId)
    requires Inv(s) && Interrupted(s, id) && (l.RefuseLocally? || l.Lose? || l.CancelPlan? || l.GetPlan?)
    ensures var s' := Step(s, l);
            id in s'.heap && s'.heap[id].status == Applying && Unattended(s', id)
  {
    hide EnforceWrite, Meaning, PlanOk, ApplyOk, CallOk, AnswerOk, Commit;
    TableFacts(s);
    var table := if l.CancelPlan? then Cancel(Table(s), l.id, l.environment, l.now).0
                 else if l.GetPlan? then Get(Table(s), l.id, l.environment, l.now).0 else Table(s);
    CommitAt(s, table, id);
    CommitLogs(s, table);
    ClearedKeeps(s.heap[id]);
  }
}
