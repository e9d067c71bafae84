/** The in-memory store: plan objects on the heap, shared with the apply calls that
    acquired them, and cleared in place when they leave the store. Clock readings and
    the random plan id are arguments. */
module WritePlanStores {
  import opened Common
  import opened WritePolicy
  import opened WritePlans

  class StoredWritePlan {
    const id: PlanId
    const digest: Digest
    const operation: Operation
    const environment: Environment
    const form: string
    const entryId: Option<string>
    const expiresAt: real
    var current: Option<Dict>
    var proposed: Dict
    var reason: string
    var precondition: Option<string>
    var status: Status
    var result: Option<ApplyResult>

    constructor (id: PlanId, body: Body, expiresAt: real)
      ensures Value() == NewPlan(id, body, expiresAt)
    {
      this.id, digest, operation, environment := id, DigestOf(body), body.operation, body.environment;
      form, entryId, this.expiresAt := body.form, body.entryId, expiresAt;
      current, proposed, reason, precondition := body.current, body.proposed, body.reason, body.precondition;
      status, result := Pending, None;
    }

    function Value(): Plan
      reads this
    {
      Plan(id, digest, Body(operation, environment, form, entryId, current, proposed, reason, precondition),
           expiresAt, status, result)
    }

    /** `_clear_payload` */
    method ClearPayload()
      modifies this
      ensures Value() == Cleared(old(Value()))
    {
      if current.Some? {
        current := Some([]);
      }
      proposed := [];
      reason := "";
      precondition := None;
    }
  }

  class WritePlanStore {
    const ttl: real
    const maxPending: nat
    var plans: map<PlanId, StoredWritePlan>

    ghost predicate Valid()
      reads this, plans.Values
    {
      forall id :: id in plans ==> plans[id].id == id
    }

    /** The abstract store: what the listed plan objects currently hold. */
    function Contents(): Store
      reads this, plans.Values
    {
      map id | id in plans :: plans[id].Value()
    }

    constructor (ttl: real, maxPending: nat)
      ensures Valid() && Contents() == map[] && this.ttl == ttl && this.maxPending == maxPending
    {
      this.ttl, this.maxPending, plans := ttl, maxPending, map[];
    }

    /** Take one plan out of the dictionary and clear its object. */
    method Drop(id: PlanId)
      requires id in plans
      modifies this, plans[id]
      ensures plans == old(plans) - {id}
      ensures old(plans[id]).Value() == Cleared(old(plans[id].Value()))
    {
      var plan := plans[id];
      plans := plans - {id};
      plan.ClearPayload();
    }

    /** The loop of `_purge_expired` over the ids it collected. */
    method DropAll(ids: set<PlanId>)
      requires Valid() && ids <= plans.Keys
      modifies this, plans.Values
      ensures plans == old(plans) - ids
      ensures forall id :: id in old(plans) ==> Settled(old(plans)[id], old(Contents())[id], id in ids)
    {
      hide Cleared, StoredWritePlan.Value;
      ghost var before, was := plans, Contents();
      var rest := ids;
      while rest != {}
        invariant rest <= ids
        invariant plans == before - (ids - rest)
        invariant forall id :: id in before ==> before[id].id == id && Settled(before[id], was[id], id in ids - rest)
      {
        var id :| id in rest;
        Drop(id);
        rest := rest - {id};
      }
    }

    /** `_purge_expired`: expired plans leave the dictionary and are cleared in place, so every
        holder of such an object sees an empty payload; the other objects are not touched. */
    method PurgeExpired(now: real)
      requires Valid()
      modifies this, plans.Values
      ensures Valid()
      ensures plans == map id | id in old(plans) && old(plans)[id].expiresAt > now :: old(plans)[id]
      ensures forall id :: id in old(plans) ==>
                Settled(old(plans)[id], old(Contents())[id], old(plans)[id].expiresAt <= now)
      ensures Contents() == Purge(old(Contents()), now)
    {
      hide Cleared;
      DropAll(set id | id in plans && plans[id].expiresAt <= now);
    }

    /** Whether an object still holds `was`, or holds it cleared. */
    ghost predicate Settled(plan: StoredWritePlan, was: Plan, cleared: bool)
      reads plan
    {
      plan.Value() == if cleared then Cleared(was) else was
    }

    /** The generator sum over the listed plans. */
    function PendingCount(): (n: nat)
      requires Valid()
      reads this, plans.Values
      ensures n == |ActiveIds(Contents())|
    {
      var active := set x | x in plans && (plans[x].status == Pending || plans[x].status == Applying);
      assert active == ActiveIds(Contents());
      |active|
    }

    method Insert(id: PlanId, body: Body, expiresAt: real) returns (plan: StoredWritePlan)
      requires Valid() && id !in plans
      modifies this
      ensures Valid() && fresh(plan) && plans == old(plans)[id := plan]
      ensures plan.Value() == NewPlan(id, body, expiresAt)
      ensures Contents() == old(Contents())[id := NewPlan(id, body, expiresAt)]
    {
      hide DigestOf;
      plan := new StoredWritePlan(id, body, expiresAt);
      plans := plans[id := plan];
    }

    method Create(id: PlanId, body: Body, purgeAt: real, stampAt: real) returns (r: Result<PublicPlan, StoreError>)
      requires Valid() && id !in plans
      modifies this, plans.Values
      ensures Valid()
      ensures (Contents(), r) == WritePlans.Create(old(Contents()), id, body, purgeAt, stampAt, ttl, maxPending)
      ensures forall x :: x in old(plans) ==>
                Settled(old(plans)[x], old(Contents())[x], old(plans)[x].expiresAt <= purgeAt)
      ensures r.Ok? ==> id in plans && fresh(plans[id])
      ensures forall x :: x in plans && x in old(plans) ==> plans[x] == old(plans)[x]
      ensures forall x :: x in old(plans) && x !in plans ==> Settled(old(plans)[x], old(Contents())[x], true)
    {
      hide DigestOf, Cleared, ActiveIds, Purge, StoredWritePlan.Value;
      PurgeExpired(purgeAt);
      ghost var kept := Contents();
      var pending := PendingCount();
      if pending >= maxPending {
        return Err(CapacityReached);
      }
      var plan := Insert(id, body, stampAt + ttl);
      r := Ok(Public(plan.Value()));
    }

    /** `_required` and `_ensure_not_expired` */
    method Find(id: PlanId, now: real) returns (r: Result<StoredWritePlan, StoreError>)
      requires Valid()
      modifies this, plans.Values
      ensures Valid()
      ensures var found := Lookup(old(Contents()), id, now);
              && Contents() == found.0
              && (found.1.Err? ==> r == Err(found.1.error))
              && (found.1.Ok? ==> id in old(plans) && r == Ok(old(plans)[id]) && plans == old(plans))
      ensures forall x :: x in old(plans) ==>
                Settled(old(plans)[x], old(Contents())[x], x == id && old(plans)[x].expiresAt <= now)
      ensures forall x :: x in plans && x in old(plans) ==> plans[x] == old(plans)[x]
      ensures forall x :: x in old(plans) && x !in plans ==> Settled(old(plans)[x], old(Contents())[x], true)
    {
      if id !in plans {
        return Err(NotFound);
      }
      var plan := plans[id];
      if plan.expiresAt <= now {
        Drop(id);
        return Err(Expired);
      }
      return Ok(plan);
    }

    /** `plan.status = APPLYING` */
    method Take(id: PlanId)
      requires Valid() && id in plans
      modifies plans[id]
      ensures Valid() && Contents() == old(Contents())[id := old(Contents())[id].(status := Applying)]
    {
      ghost var before := Contents();
      plans[id].status := Applying;
      assert Contents() == before[id := before[id].(status := Applying)];
    }

    /** Hands out the stored object itself: what happens to it later, the caller sees. */
    method Acquire(id: PlanId, digest: Digest, operation: Operation, environment: Environment, now: real)
      returns (r: Result<Acquired, StoreError>, handle: StoredWritePlan?)
      requires Valid()
      modifies this, plans.Values
      ensures Valid()
      ensures (Contents(), r) == WritePlans.Acquire(old(Contents()), id, digest, operation, environment, now)
      ensures r.Ok? && r.value.Fresh? ==> id in plans && handle == plans[id] && handle.Value() == r.value.plan
      ensures r.Ok? ==> plans == old(plans)
      ensures forall x :: x in plans && x in old(plans) ==> plans[x] == old(plans)[x]
      ensures forall x :: x in old(plans) && x !in plans ==> Settled(old(plans)[x], old(Contents())[x], true)
    {
      handle := null;
      var found := Find(id, now);
      if found.Err? {
        return Err(found.error), null;
      }
      var plan := found.value;
      if plan.operation != operation || plan.environment != environment || plan.digest != digest {
        return Err(Mismatch), null;
      }
      if plan.status == Applied {
        if plan.result.None? {
          return Err(PersistenceFailed), null;
        }
        return Ok(Replay(plan.result.value.(reused := true))), null;
      }
      if plan.status == OutcomeUnknown {
        return Err(UnknownOutcome), null;
      }
      if plan.status != Pending {
        return Err(WrongState), null;
      }
      Take(id);
      return Ok(Fresh(plan.Value())), plan;
    }

    /** The end of a plan: its last status, its result if any, and the payload cleared in place. */
    method Conclude(id: PlanId, status: Status, result: Option<ApplyResult>)
      requires Valid() && id in plans
      modifies plans[id]
      ensures Valid()
      ensures Contents() == old(Contents())[id := Cleared(old(Contents())[id]).(status := status, result := result)]
    {
      ghost var before := Contents();
      var plan := plans[id];
      plan.status := status;
      plan.result := result;
      plan.ClearPayload();
      assert Contents() == before[id := Cleared(before[id]).(status := status, result := result)];
    }

    method Complete(id: PlanId, result: ApplyResult) returns (r: Result<ApplyResult, StoreError>)
      requires Valid()
      modifies this, plans.Values
      ensures Valid() && plans == old(plans)
      ensures (Contents(), r) == WritePlans.Complete(old(Contents()), id, result)
    {
      hide Cleared;
      if id !in plans {
        return Err(NotFound);
      }
      if plans[id].status != Applying {
        return Err(WrongState);
      }
      Conclude(id, Applied, Some(result));
      return Ok(result);
    }

    method Fail(id: PlanId, outcomeUnknown: bool) returns (r: Result<(), StoreError>)
      requires Valid()
      modifies this, plans.Values
      ensures Valid() && plans == old(plans)
      ensures (Contents(), r) == WritePlans.Fail(old(Contents()), id, outcomeUnknown)
    {
      if id !in plans {
        return Err(NotFound);
      }
      Conclude(id, if outcomeUnknown then OutcomeUnknown else Failed, plans[id].result);
      return Ok(());
    }

    method Get(id: PlanId, environment: Environment, now: real) returns (r: Result<PublicPlan, StoreError>)
      requires Valid()
      modifies this, plans.Values
      ensures Valid()
      ensures (Contents(), r) == WritePlans.Get(old(Contents()), id, environment, now)
      ensures forall x :: x in plans && x in old(plans) ==> plans[x] == old(plans)[x]
      ensures forall x :: x in old(plans) && x !in plans ==> Settled(old(plans)[x], old(Contents())[x], true)
    {
      var found := Find(id, now);
      if found.Err? {
        return Err(found.error);
      }
      if found.value.environment != environment {
        return Err(Mismatch);
      }
      return Ok(Public(found.value.Value()));
    }

    method Cancel(id: PlanId, environment: Environment, now: real) returns (r: Result<PublicPlan, StoreError>)
      requires Valid()
      modifies this, plans.Values
      ensures Valid()
      ensures (Contents(), r) == WritePlans.Cancel(old(Contents()), id, environment, now)
      ensures forall x :: x in plans && x in old(plans) ==> plans[x] == old(plans)[x]
      ensures forall x :: x in old(plans) && x !in plans ==> Settled(old(plans)[x], old(Contents())[x], true)
    {
      var found := Find(id, now);
      if found.Err? {
        return Err(found.error);
      }
      var plan := found.value;
      if plan.environment != environment {
        return Err(Mismatch);
      }
      if plan.status != Pending {
        return Err(WrongState);
      }
      Conclude(id, Cancelled, plan.result);
      return Ok(Public(plan.Value()));
    }
  }
}
