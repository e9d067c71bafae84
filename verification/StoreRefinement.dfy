/** The whole-run protocol against the two store classes: what the protocol does to plan objects is what
    the in-memory class does to them, and the results it completes plans with are those the encrypted
    class gives back. */
module StoreRefinement {
  import opened Common
  import opened WritePolicy
  import opened WritePlans
  import opened WritePlanStores
  import opened WriteProtocol
  import PersistentWriteStores

  /** What the given plan objects hold. */
  ghost function Held(objects: map<PlanId, StoredWritePlan>): map<PlanId, Plan>
    reads objects.Values
  {
    map id | id in objects :: objects[id].Value()
  }

  /** The store and all plan objects it ever handed out, listed or not, hold what the protocol's state
      says. */
  ghost predicate Follows(store: WritePlanStore, objects: map<PlanId, StoredWritePlan>, s: State)
    reads store, store.plans.Values, objects.Values
  {
    && (forall x :: x in objects ==> objects[x].id == x)
    && (forall x :: x in store.plans ==> x in objects && objects[x] == store.plans[x])
    && s.heap == Held(objects) && s.dict == store.plans.Keys
  }

  /** An operation of the in-memory store, seen by whoever still holds its plan objects, listed or not.
      If it keeps the listed objects or leaves them cleared, lists new ones under new ids, and touches no
      others, then together they hold exactly what the protocol's `Commit` makes of its heap. */
  lemma ObjectsFollowCommit(store: WritePlanStore, objects: map<PlanId, StoredWritePlan>,
                            before: map<PlanId, StoredWritePlan>, s: State)
    requires objects.Keys == s.heap.Keys && before.Keys == s.dict
    requires forall x :: x in before ==> x in objects && objects[x] == before[x]
    requires store.Contents().Keys * objects.Keys <= before.Keys
    requires forall x :: x in before && x in store.plans ==> store.plans[x] == before[x]
    requires forall x :: x in before && x !in store.plans ==> store.Settled(before[x], s.heap[x], true)
    requires forall x :: x in objects && x !in before ==> objects[x].Value() == s.heap[x]
    requires store.Valid() && forall x :: x in objects ==> objects[x].id == x
    ensures Follows(store, objects + store.plans, Commit(s, store.Contents()))
  {
    hide Cleared, Commit, StoredWritePlan.Value;
    var after := objects + store.plans;
    CommitHolds(s, store.Contents());
    assert after.Keys == s.heap.Keys + store.Contents().Keys;
    forall x | x in after
      ensures after[x].id == x && after[x].Value() == Commit(s, store.Contents()).heap[x]
    {
    }
    assert Held(after) == Commit(s, store.Contents()).heap;
  }

  lemma CommitHolds(s: State, table: Store)
    ensures Commit(s, table).dict == table.Keys && Commit(s, table).heap.Keys == s.heap.Keys + table.Keys
    ensures forall x :: x in s.heap || x in table ==>
              Commit(s, table).heap[x]
              == if x in table then table[x] else if x in s.dict then Cleared(s.heap[x]) else s.heap[x]
  {
  }

  lemma FollowedTable(store: WritePlanStore, objects: map<PlanId, StoredWritePlan>, s: State)
    requires Follows(store, objects, s)
    ensures store.Valid() && Table(s) == store.Contents()
    ensures objects.Keys == s.heap.Keys && store.plans.Keys == s.dict
    ensures forall x :: x in store.plans ==> x in objects && objects[x] == store.plans[x] && s.heap[x] == store.Contents()[x]
    ensures forall x :: x in objects ==> objects[x].id == x
    ensures forall x :: x in objects && x !in store.plans ==>
              objects[x] !in store.plans.Values && objects[x].Value() == s.heap[x]
  {
    hide StoredWritePlan.Value;
  }

  lemma AcquiringListsNothingNew(t: Store, id: PlanId, digest: Digest, operation: Operation, environment: Environment, now: real)
    ensures WritePlans.Acquire(t, id, digest, operation, environment, now).0.Keys <= t.Keys
  {
  }

  lemma LookingListsNothingNew(t: Store, id: PlanId, environment: Environment, now: real)
    ensures WritePlans.Get(t, id, environment, now).0.Keys <= t.Keys
    ensures WritePlans.Cancel(t, id, environment, now).0.Keys <= t.Keys
  {
    hide Cleared;
  }

  lemma OneNewIsListed(t: Store, id: PlanId, body: Body, purgeAt: real, stampAt: real, ttl: real, maxPending: nat)
    ensures WritePlans.Create(t, id, body, purgeAt, stampAt, ttl, maxPending).0.Keys <= t.Keys + {id}
  {
    hide DigestOf, ActiveIds;
  }

  /** Each operation of the class keeps that agreement with the protocol's step for it, for every holder of
      every object, and gives the answer of that step. */
  method Create(store: WritePlanStore, ghost objects: map<PlanId, StoredWritePlan>, ghost s: State,
                id: PlanId, body: Body, purgeAt: real, stampAt: real) returns (r: Result<PublicPlan, StoreError>)
    requires Follows(store, objects, s) && id !in objects
    modifies store, store.plans.Values
    ensures r == WritePlans.Create(Table(s), id, body, purgeAt, stampAt, store.ttl, store.maxPending).1
    ensures Follows(store, objects + store.plans,
                    Commit(s, WritePlans.Create(Table(s), id, body, purgeAt, stampAt, store.ttl, store.maxPending).0))
  {
    hide Follows, StoredWritePlan.Value, WritePlanStore.Settled, WritePlans.Create, Commit;
    ghost var before := store.plans;
    FollowedTable(store, objects, s);
    OneNewIsListed(Table(s), id, body, purgeAt, stampAt, store.ttl, store.maxPending);
    r := store.Create(id, body, purgeAt, stampAt);
    ObjectsFollowCommit(store, objects, before, s);
  }

  method Acquire(store: WritePlanStore, ghost objects: map<PlanId, StoredWritePlan>, ghost s: State, id: PlanId,
                 digest: Digest, operation: Operation, environment: Environment, now: real)
      returns (r: Result<Acquired, StoreError>, handle: StoredWritePlan?)
    requires Follows(store, objects, s)
    modifies store, store.plans.Values
    ensures r == WritePlans.Acquire(Table(s), id, digest, operation, environment, now).1
    ensures Follows(store, objects + store.plans, Commit(s, WritePlans.Acquire(Table(s), id, digest, operation, environment, now).0))
    ensures r.Ok? && r.value.Fresh? ==> id in objects && handle == objects[id]
  {
    hide Follows, StoredWritePlan.Value, WritePlanStore.Settled, WritePlans.Acquire, Commit;
    ghost var before := store.plans;
    FollowedTable(store, objects, s);
    AcquiringListsNothingNew(Table(s), id, digest, operation, environment, now);
    r, handle := store.Acquire(id, digest, operation, environment, now);
    ObjectsFollowCommit(store, objects, before, s);
  }

  method Complete(store: WritePlanStore, ghost objects: map<PlanId, StoredWritePlan>, ghost s: State,
                  id: PlanId, result: ApplyResult) returns (r: Result<ApplyResult, StoreError>)
    requires Follows(store, objects, s)
    modifies store, store.plans.Values
    ensures r == WritePlans.Complete(Table(s), id, result).1
    ensures Follows(store, objects + store.plans, Commit(s, WritePlans.Complete(Table(s), id, result).0))
  {
    hide Follows, StoredWritePlan.Value, WritePlanStore.Settled, WritePlans.Complete, Commit;
    ghost var before := store.plans;
    FollowedTable(store, objects, s);
    r := store.Complete(id, result);
    ObjectsFollowCommit(store, objects, before, s);
  }

  method Fail(store: WritePlanStore, ghost objects: map<PlanId, StoredWritePlan>, ghost s: State,
              id: PlanId, outcomeUnknown: bool) returns (r: Result<(), StoreError>)
    requires Follows(store, objects, s)
    modifies store, store.plans.Values
    ensures r == WritePlans.Fail(Table(s), id, outcomeUnknown).1
    ensures Follows(store, objects + store.plans, Commit(s, WritePlans.Fail(Table(s), id, outcomeUnknown).0))
  {
    hide Follows, StoredWritePlan.Value, WritePlanStore.Settled, WritePlans.Fail, Commit;
    ghost var before := store.plans;
    FollowedTable(store, objects, s);
    r := store.Fail(id, outcomeUnknown);
    ObjectsFollowCommit(store, objects, before, s);
  }

  method Get(store: WritePlanStore, ghost objects: map<PlanId, StoredWritePlan>, ghost s: State,
             id: PlanId, environment: Environment, now: real) returns (r: Result<PublicPlan, StoreError>)
    requires Follows(store, objects, s)
    modifies store, store.plans.Values
    ensures r == WritePlans.Get(Table(s), id, environment, now).1
    ensures Follows(store, objects + store.plans, Step(s, GetPlan(id, environment, now)))
  {
    hide Follows, StoredWritePlan.Value, WritePlanStore.Settled, WritePlans.Get, Commit,
      StepPlan, StepStart, StepSend, StepReceive, StepSettle, StepRestart;
    ghost var before := store.plans;
    FollowedTable(store, objects, s);
    LookingListsNothingNew(Table(s), id, environment, now);
    r := store.Get(id, environment, now);
    ObjectsFollowCommit(store, objects, before, s);
  }

  method Cancel(store: WritePlanStore, ghost objects: map<PlanId, StoredWritePlan>, ghost s: State,
                id: PlanId, environment: Environment, now: real) returns (r: Result<PublicPlan, StoreError>)
    requires Follows(store, objects, s)
    modifies store, store.plans.Values
    ensures r == WritePlans.Cancel(Table(s), id, environment, now).1
    ensures Follows(store, objects + store.plans, Step(s, CancelPlan(id, environment, now)))
  {
    hide Follows, StoredWritePlan.Value, WritePlanStore.Settled, WritePlans.Cancel, Commit,
      StepPlan, StepStart, StepSend, StepReceive, StepSettle, StepRestart;
    ghost var before := store.plans;
    FollowedTable(store, objects, s);
    LookingListsNothingNew(Table(s), id, environment, now);
    r := store.Cancel(id, environment, now);
    ObjectsFollowCommit(store, objects, before, s);
  }

  /** The result `_apply` completes a plan with is the one the encrypted store restores from the plan's
      own fields, so completing refines the specification there; the order of dictionaries in the
      stored body does not matter. */
  lemma ProtocolResultIsRestored(s: State, n: nat)
    requires Inv(s) && n in s.applies && s.applies[n].phase.Awaiting? && s.applies[n].phase.reply.Success?
    ensures var a := s.applies[n];
            && a.planId in s.heap
            && var result := ResultFor(a, Seen(s, a), a.phase.reply.entryId);
               var body := s.heap[a.planId].body;
               && result == PersistentWriteStores.Restored(a.planId, body, result.entryId)
               && result == PersistentWriteStores.Restored(a.planId, PersistentWriteStores.CanonicalBody(body), result.entryId)
  {
    hide ReviewOk, CallOk, AnswerOk, Gated, PersistentWriteStores.SortKeys;
    var a := s.applies[n];
    assert ApplyOk(s, a);
    assert PlanOk(s, s.heap[a.planId]);
  }
}
