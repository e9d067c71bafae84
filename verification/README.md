# Verified model of the Helix MCP gateway

A Dafny model of the stateful and arithmetic parts of the gateway (Python), its ARAPI bridge (Java)
and its wheel build hook, with proofs about every input, every run or every reachable state.
`dafny verify dfyconfig.toml` checks all of it.

## What is modelled

- **Policy** (`WritePolicy`): the configuration validator, the gate that every write passes at planning
  and again at apply, and the capabilities advertised to clients.
- **Write plans** (`WritePlans`, `WritePlanStores`, `PersistentWriteStores`, `WriteProtocol`,
  `StoreRefinement`): a specification of the plan store on values; the in-memory store as a class over plan
  objects that it hands out and later clears in place; the encrypted store as a class over a table of rows;
  and runs, in which plans are created, applied by any number of suspended calls, cancelled, looked up,
  purged, expired, lost by cancelled tasks and crashes, and recovered after restarts.
- **SQL plans** (`SqlPlans`, `PersistentSqlStores`): the same for approved SQL, whose failed executions
  return to pending.
- **Bridge updates** (`BridgeUpdate`): the check-then-set of the bridge under striped locks, against a
  server with its own clock and with outside writers.
- **Wheels** (`WheelNormalizer`, `WheelWriter`): the central-directory reader and the in-place normaliser, on bytes,
  against a writer of archives.
- **Fast forms** (`RateLimit`, `MetadataCache`, `MenuExpansion`): the sliding-window limiter as a deque and
  as a table, the bounded expiring caches, and the bounded walk over a menu graph.
- **Texts** (`Qualification`, `SqlText`, `SqlVocabulary`, `MetadataQueries`, `CatalogQueries`, `CatalogMeaning`,
  `WriteValues`, `Decimal`, `JavaText`): two quote-aware scanners, the SQL literal printer with the metadata queries built
  from it, and the write-value encoding from Python to Java.

A run is a step function folded over an arbitrary sequence of labels; a label that is not enabled leaves
the state alone. Clock readings are label parameters and may move in any way unless a lemma says
otherwise. Plan ids are fresh, SHA-256 is taken to be injective (a digest is the content it was made
from), AES-GCM to be ideal (a ciphertext opens only under the key, nonce and associated data it was made
with), and an SQLite transaction to be atomic. The AR System server is taken to refuse a set when the entry
was modified after the get time of the call. Unicode case folding, lower case and letter classes are
function parameters.

## What the proofs brought out

- A plan whose task is cancelled or whose process dies stays `applying`. `docs/form-writes.md:72-73` says an
  interruption changes it to `outcome_unknown`; in the code only opening an encrypted store with recovery
  does (`WriteProtocol.InterruptedStaysApplying`).
- The caller of an acknowledged write is given the result exactly when the plan is still listed and applying and
  the database works at that moment. Otherwise it is told that the outcome is unknown, unless at the end the
  database fails or the plan is no longer listed: then only `persistence failed` or `not found` comes back
  (`WriteProtocol.AcknowledgedWriteIsTold`, with a run in `WriteProtocol.HiddenOutcomeHappens`).
- `failed`, and the answer that no write was made, are true if the server lands nothing it refuses and if every
  exception that the client raises itself (a closed client, a configuration error, anything not raised for a
  reply or for the transport) precedes sending. The code cannot tell, and takes such an exception for one before
  sending (`WriteProtocol.RaisedAfterLandingLooksFailed`).
- The encrypted store rolls the purge back when capacity is reached, the in-memory store keeps it; a later
  lookup shows the difference (`PersistentWriteStores.CreateAgreesUnlessRolledBackPurge`).
- Recovery while an execution is still running lets an approved SQL text run twice at once
  (`SqlPlans.RacingRecoveryAllowsOverlap`), and recovery after a success whose completion was lost lets it run
  again (`SqlPlans.LostCompletionAllowsRepeat`); without recovery neither happens. An execution ends here when
  its call ends: a query whose HTTP call timed out may still run at the bridge while the next one starts.
- If the server stamps a write with the very second it was based on, two updates with one precondition both
  land (`BridgeUpdate.SameSecondLosesAnUpdate`).
- The limiter reads the wall clock by default, and the table's processes read it before their transactions,
  so requests need not come in the order of their times. Both forms count the events they still hold that are
  stamped after `now - 60`, later stamps included. The table answers right for every limit exactly when as many
  events of the last 60 seconds were deleted as rows are stamped after the request
  (`RateLimit.TableIsRightExactlyWhenErrorsCancel`); the deque, which drops from its front only, exactly when as
  many were dropped as are counted although they are older or stamped later
  (`RateLimit.DequeIsRightExactlyWhenErrorsCancel`). With one limit, and no reading more than `s` seconds behind
  an earlier one, no `60 - s` seconds hold more events than the limit, and no wider window is safe: a clock that
  slips back costs exactly that much of the minute (`RateLimit.DequeGuaranteesExactly`, `RateLimit.TableGuaranteesExactly`).
- The read-only check of the bridge looks for `;`, `$`, `--`, `/*` and `*/` inside string literals too, so a
  metadata query for a name with one of them is refused (`CatalogQueries.DashedNameIsRefused`).
- The catalogue query compares in SQL's lower case, the gateway's own check in Python's case folding: an object whose
  name they treat differently can be permitted and never listed (`CatalogMeaning.FoldedNameIsNeverListed`). The
  underscores in the patterns of the system schemas stand for any character (`CatalogMeaning.ObjectsQueryLists`).
- Python counts code points and Java UTF-16 units, so some field names the gateway accepts are refused by
  the bridge (`WriteValues.AstralNameIsRefused`).

## Model

| member | source | states |
|---|---|---|
| WriteProtocol.AtMostOneCallPerPlan | src/helix_mcp/services/writes/service.py:172-255 | in every run of either store, two backend write calls never belong to the same plan |
| WriteProtocol.OutcomesAreHonest | src/helix_mcp/services/writes/service.py:219-255 | pending and cancelled plans were never sent; a failed plan has a landed write only if the server landed what it refused or the client raised an exception of its own after the landing; applied holds exactly when a result is stored, and then one acknowledged call made it |
| WriteProtocol.RepliesAreOfFourKinds | src/helix_mcp/services/writes/service.py:229-255 | every reply is a success, an open outcome, a refusal sent back or an exception of the client, and which exceptions are which |
| WriteProtocol.AnswersAreHonest | src/helix_mcp/services/writes/service.py:172-255 | a caller told that no write was made is told the truth but for those two cases; every result handed out is the one stored result, marked as reused exactly when it is a replay |
| WriteProtocol.ReplayRepeatsTheFirstAnswer | src/helix_mcp/services/writes/store.py:147-154 | whenever acquire answers a replay, some earlier apply of that plan was answered with the same result, unmarked |
| WriteProtocol.SentIsWhatWasReviewed | src/helix_mcp/services/writes/service.py:190-218 | each call carries the operation, form, entry, precondition and field values of the digest that approved it, exactly as reviewed when the policy is unchanged, never a sensitive field, and no update goes out without its precondition, even after a purge cleared the shared plan |
| WriteProtocol.PlanningShowsTheRequest | src/helix_mcp/services/writes/service.py:72-128 | planning shows the caller the operation, form, entry, reason and current values asked for, the proposed values as the gate leaves them, and a digest that covers them and the precondition; a failed one stores nothing under the id |
| WriteProtocol.LookupShowsWhatTheDigestApproves | src/helix_mcp/services/writes/store.py:192-205 | in every run, a pending plan is shown as the digest beside it says, field by field |
| WriteProtocol.ShownIsWhatIsSent | src/helix_mcp/services/writes/service.py:190-218 | whatever call of whatever run goes out under the digest of a shown plan writes the operation, form, entry, fields and values that were shown |
| WriteProtocol.StartingTakesThePlan | src/helix_mcp/services/writes/service.py:179-204 | an apply request that names a pending plan makes it applying and goes on with what the gate of its own policy makes of the values, or to failing |
| WriteProtocol.SendingReadsThePlan | src/helix_mcp/services/writes/service.py:205-218 | a call sends what the shared plan object, or the decoded copy of the encrypted store, holds when it sends; an update whose entry or precondition has been cleared is not sent |
| WriteProtocol.StepFollowsLifeCycle | src/helix_mcp/services/writes/store.py:125-190 | no step leads back to pending, applied, cancelled and failed are final, and a stored result never changes |
| WriteProtocol.ActivePlansStayBounded | src/helix_mcp/services/writes/store.py:85-123 | in every run at most `maxPending` plans are pending or applying |
| WriteProtocol.RunKeepsInv | src/helix_mcp/services/writes/service.py:172-255 | the protocol invariant (plans agree with their digests, one running apply per plan, calls and answers accounted for) holds after every run |
| WriteProtocol.InterruptedStaysApplying | src/helix_mcp/services/writes/persistent_store.py:333-343 | a plan left applying by a lost call becomes `outcome_unknown` exactly when an encrypted store is opened with recovery before it expires; every other step leaves it applying and untouched by any call |
| WriteProtocol.LosingACallInterrupts | src/helix_mcp/services/writes/service.py:190-255 | losing an apply call by task cancellation or crash leaves its plan applying without any call |
| WriteProtocol.RestartingExactly | src/helix_mcp/services/writes/persistent_store.py:303-343 | a restart takes the in-memory store's plans and calls away; the encrypted store keeps all unexpired rows and the calls of other processes |
| WriteProtocol.AcknowledgedWriteIsTold | src/helix_mcp/services/writes/service.py:219-255 | the caller of an acknowledged write gets the result exactly when the store can record it then; otherwise, whatever other steps run before the call ends, it is told `persistence failed` if the database fails at the end, `not found` if the plan is no longer listed, and `outcome unknown` in every other case |
| WriteProtocol.AcknowledgedWriteIsReceived | src/helix_mcp/services/writes/store.py:166-180 | receiving an acknowledgement ends the call with the stored result exactly when the plan is listed and applying and the database works; otherwise the call only moves on to failing |
| WriteProtocol.UntouchedCallWaitsOn | src/helix_mcp/services/writes/service.py:190-255 | a suspended call is changed by its own steps and the end of its process only, in any continuation |
| WriteProtocol.HiddenOutcomeHappens | src/helix_mcp/services/writes/store.py:234-250 | in both stores a run from the start leads to a landed, acknowledged update whose caller is told only `not found` |
| WriteProtocol.RefusedWriteIsTold | src/helix_mcp/services/writes/service.py:231-255 | a call that ended in an exception leaves its plan failed and its caller told that no write was made, or both unknown, by the kind of exception alone, whatever steps run in between, unless the database fails or the plan is no longer listed |
| WriteProtocol.OnlyLostRepliesAreUnknown | src/helix_mcp/services/writes/service.py:229-255 | of all exceptions exactly transport and protocol errors leave the plan with an unknown outcome and tell the caller so; any other, a conflict included, leaves it failed and tells that no write was made |
| WriteProtocol.RaisedAfterLandingLooksFailed | src/helix_mcp/services/writes/service.py:246-255 | from every reachable state: a call that landed before the client raised an exception of its own ends, in every case in which a verdict is recorded, with a failed plan and a caller told that no write was made |
| WriteProtocol.RaisedAfterLandingHappens | src/helix_mcp/services/writes/service.py:246-255 | in both stores a run from the start gets there |
| WriteProtocol.SamplePolicyIsAccepted | src/helix_mcp/config/models.py:235-437 | the policy of these runs is one the validator accepts |
| WritePlans.CreateStaysWithinCapacity | src/helix_mcp/services/writes/store.py:85-123 | creating either fails and adds no active plan, or adds exactly one below the bound |
| WritePlans.CreateShowsWhatItStores | src/helix_mcp/services/writes/store.py:73-123 | creation fails exactly when the unexpired active plans reach the bound; otherwise the given body is stored pending, with its expiry and a digest that covers it field by field, and shown as stored; of the others exactly the expired go |
| WritePlans.AcquireAnswers | src/helix_mcp/services/writes/store.py:125-164 | each answer of an apply request with its exact cause; only a pending plan is handed out, and nothing but its status changes |
| WritePlans.VerdictAnswers | src/helix_mcp/services/writes/store.py:166-190 | a result is stored for an applying plan only, a failure for any listed one, with the payload gone and the rest kept |
| WritePlans.LookupAnswers | src/helix_mcp/services/writes/store.py:192-226 | a lookup shows a listed, unexpired plan of the caller's environment; cancelling needs it to be pending as well; each error with its exact cause |
| WritePlans.OpenSettlesApplying | src/helix_mcp/services/writes/persistent_store.py:303-343 | opening drops exactly the expired plans and, with recovery, gives exactly the applying ones an unknown outcome |
| WritePlanStores.StoredWritePlan.ClearPayload | src/helix_mcp/services/writes/store.py:270-276 | clears business values, reason and precondition of the object and nothing else |
| WritePlanStores.WritePlanStore.Create | src/helix_mcp/services/writes/store.py:73-123 | the object store behaves as the specification's create and clears the purged objects in place |
| WritePlanStores.WritePlanStore.PurgeExpired | src/helix_mcp/services/writes/store.py:240-250 | exactly the expired plans leave the dictionary, each cleared in place; other objects are untouched |
| WritePlanStores.WritePlanStore.Find | src/helix_mcp/services/writes/store.py:228-238 | a lookup returns the stored object, or drops and clears an expired one |
| WritePlanStores.WritePlanStore.Acquire | src/helix_mcp/services/writes/store.py:125-164 | hands out the stored object itself, now applying, or a copy of the stored result, or the specified error |
| WritePlanStores.WritePlanStore.Complete | src/helix_mcp/services/writes/store.py:166-180 | stores the result, clears the payload and ends in the specification's state |
| WritePlanStores.WritePlanStore.Fail | src/helix_mcp/services/writes/store.py:182-190 | records failed or outcome unknown as the specification does |
| WritePlanStores.WritePlanStore.Get | src/helix_mcp/services/writes/store.py:192-205 | answers and drops as the specification does |
| WritePlanStores.WritePlanStore.Cancel | src/helix_mcp/services/writes/store.py:207-226 | cancels only a pending plan of the same environment, as the specification does |
| PersistentWriteStores.StoredPlanDecodesToItself | src/helix_mcp/services/writes/persistent_store.py:388-477 | a plan comes back from its row, with dictionaries in key order, exactly when its names, form, ids and precondition are not empty and its result is the one its fields describe |
| PersistentWriteStores.RowOpensExactly | src/helix_mcp/services/writes/persistent_store.py:413-477 | a row opens exactly under its key, nonce and columns with a payload whose form, ids, precondition and field names are not empty, and gives the plan of columns and payload |
| PersistentWriteStores.ColumnsAreBoundToTheCiphertext | src/helix_mcp/services/writes/persistent_store.py:516-530 | a ciphertext decodes beside one set of columns only, so a moved row or an edited status, expiry or digest is detected |
| PersistentWriteStores.SortKeysReorders | src/helix_mcp/services/writes/persistent_store.py:388-411 | writing a dictionary with sorted keys gives a sorted permutation of its entries |
| PersistentWriteStores.SortKeysKeepsMeaning | src/helix_mcp/services/writes/persistent_store.py:388-411 | which keeps its keys distinct and denotes the same mapping |
| Common.EntryIsMeaning | src/helix_mcp/services/writes/store.py:279-303 | the mapping that a digest covers holds each entry of a dictionary with distinct keys |
| StoreRefinement.ObjectsFollowCommit | src/helix_mcp/services/writes/store.py:125-250 | whoever holds plan objects of the in-memory store sees exactly what the protocol's step makes of its heap: listed objects as the table says, dropped ones cleared, others untouched |
| StoreRefinement.Create | src/helix_mcp/services/writes/store.py:73-123 | called on the object store while any holders keep its objects, it answers as the protocol's state does and leaves store and objects as the protocol commits its create |
| StoreRefinement.Acquire | src/helix_mcp/services/writes/store.py:125-164 | called on the object store while any holders keep its objects, it answers as the protocol's state does and leaves store and objects as the protocol commits its acquire, and the object handed out is the shared one |
| StoreRefinement.Complete | src/helix_mcp/services/writes/store.py:166-180 | called on the object store while any holders keep its objects, it answers as the protocol's state does and leaves store and objects as the protocol commits its complete |
| StoreRefinement.Fail | src/helix_mcp/services/writes/store.py:182-190 | called on the object store while any holders keep its objects, it answers as the protocol's state does and leaves store and objects as the protocol commits its fail |
| StoreRefinement.Get | src/helix_mcp/services/writes/store.py:192-205 | called on the object store while any holders keep its objects, it answers as the protocol's state does and leaves store and objects as the protocol commits its lookup step |
| StoreRefinement.Cancel | src/helix_mcp/services/writes/store.py:207-226 | called on the object store while any holders keep its objects, it answers as the protocol's state does and leaves store and objects as the protocol commits its cancel step |
| StoreRefinement.ProtocolResultIsRestored | src/helix_mcp/services/writes/persistent_store.py:216-237 | the result an apply call completes its plan with is the one the encrypted store restores from the plan's own fields |
| PersistentWriteStores.PersistentWritePlanStore.Create | src/helix_mcp/services/writes/persistent_store.py:88-164 | on success the specification's table with the new plan, on any error the old table unchanged |
| PersistentWriteStores.PersistentWritePlanStore.Acquire | src/helix_mcp/services/writes/persistent_store.py:166-214 | decoded table and answer are the specification's, unchanged when the transaction fails |
| PersistentWriteStores.PersistentWritePlanStore.Complete | src/helix_mcp/services/writes/persistent_store.py:216-237 | refines the specification's complete for results about the plan |
| PersistentWriteStores.PersistentWritePlanStore.Fail | src/helix_mcp/services/writes/persistent_store.py:239-254 | refines the specification's fail |
| PersistentWriteStores.PersistentWritePlanStore.Get | src/helix_mcp/services/writes/persistent_store.py:256-274 | refines the specification's get; expiry removes exactly the expired row |
| PersistentWriteStores.PersistentWritePlanStore.Cancel | src/helix_mcp/services/writes/persistent_store.py:276-301 | refines the specification's cancel |
| PersistentWriteStores.PersistentWritePlanStore.Initialize | src/helix_mcp/services/writes/persistent_store.py:303-343 | opening purges expired rows and, with recovery, settles every applying plan as outcome unknown |
| PersistentWriteStores.CreateAgreesUnlessRolledBackPurge | src/helix_mcp/services/writes/persistent_store.py:102-164 | both stores answer create alike, and differ in state exactly when capacity is reached while an expired plan is listed |
| PersistentWriteStores.RolledBackPurgeIsVisible | src/helix_mcp/services/writes/persistent_store.py:479-513 | in that case a later lookup is answered `expired` by one store and `not found` by the other |
| WritePolicy.EnforceWriteIsIdempotent | src/helix_mcp/services/writes/service.py:293-351 | the gate applied to its own output gives that output again |
| WritePolicy.EnforceWriteOfReordered | src/helix_mcp/services/writes/service.py:293-351 | the same when the entries come back from storage in another order |
| WritePolicy.EnforceWriteKeepsFields | src/helix_mcp/services/writes/service.py:293-351 | whatever the policy, the gate sends each requested field once with its value, respelled at most, and no sensitive one |
| WritePolicy.AcceptedPolicyIsExactlyEnforced | src/helix_mcp/config/models.py:235-437 | under an accepted read-write policy the gate passes exactly the writes with a reason to writable forms and writable fields |
| WritePolicy.AcceptedExactlyWhenSound | src/helix_mcp/config/models.py:235-437 | the validator accepts exactly the policies whose writes need approval and a reason, whose allow-all switches stand beside no list, whose writable forms are readable and each opened in one way, and whose field lists are not empty, distinct and free of sensitive names |
| WritePolicy.SensitiveExactly | src/helix_mcp/services/writes/service.py:317-326 | a name is sensitive exactly when it is a listed one or has a marker anywhere in it, up to case |
| WritePolicy.EnforceWriteRefusals | src/helix_mcp/services/writes/service.py:293-351 | under any policy, each refusal of the gate with its exact cause, in the order of the checks |
| WritePolicy.EveryWritableFormHasAField | src/helix_mcp/config/models.py:300-437 | every writable form of an accepted policy has a field that the write operation may set, or is open to every non-sensitive field |
| WritePolicy.DescriptorExactly | src/helix_mcp/targeting/models.py:76-128 | under any policy, validated or not: what a target says it can do, and when it calls itself read-only |
| WritePolicy.LastSpellingWins | src/helix_mcp/services/writes/service.py:343-351 | of listed names that differ in case only the last one's spelling is sent |
| WritePolicy.AdvertisedWritesAreReal | src/helix_mcp/targeting/models.py:76-128 | create and update are advertised exactly when the target is available and read-write; under an accepted policy some write passes the gate exactly in read-write mode, given a reason to state and a field name that is not sensitive |
| SqlPlans.PlansEndOnce | src/helix_mcp/services/database/plans.py:85-160 | in every run a plan completes or is cancelled at most once in all, the two exclude each other, and no execution starts afterwards |
| SqlPlans.ExecutionsDoNotOverlap | src/helix_mcp/services/database/service.py:184-210 | two executions of one plan run at once only after a recovery reset it under a running execution |
| SqlPlans.RacingRecoveryAllowsOverlap | src/helix_mcp/services/database/persistent_plans.py:258-288 | every such recovery does open an overlap |
| SqlPlans.SuccessRepeatsOnlyAfterReset | src/helix_mcp/services/database/service.py:197-205 | in every run, a plan whose query has returned successfully starts again only if a recovery found it executing |
| SqlPlans.LostCompletionAllowsRepeat | src/helix_mcp/services/database/persistent_plans.py:280-288 | from every reachable state with a success whose completion is lost, by the database or by the process, recovery lets the same request run the query again |
| SqlPlans.ApprovedQueryIsRun | src/helix_mcp/services/database/service.py:192-201 | each execution runs the query its digest approved |
| SqlPlans.ActiveSqlPlansStayBounded | src/helix_mcp/services/database/persistent_plans.py:93-135 | the number of pending and executing plans never exceeds the bound, returns to pending included |
| SqlPlans.SettlingDecides | src/helix_mcp/services/database/service.py:197-205 | from every reachable state: with the database working, a success leaves an executing plan executed, which is logged exactly then, and a failure leaves it pending |
| SqlPlans.ReturnIsRemembered | src/helix_mcp/services/database/service.py:197-205 | a returned query settles with the outcome it returned |
| SqlPlans.FailedQueryRunsAgain | src/helix_mcp/services/database/service.py:197-204 | from every reachable state: a query that raised, however long it waits to settle and whatever follows that leaves the plan alone, can be started again by the same approved request until it expires |
| SqlPlans.SuccessfulQueryIsFinal | src/helix_mcp/services/database/service.py:205 | once a success is recorded, no request or lookup before the plan expires changes it or starts it again |
| SqlPlans.CreateSqlStores | src/helix_mcp/services/database/plans.py:58-83 | creation fails exactly when the unexpired active plans reach the bound; otherwise the given query is stored pending and shown with a digest that covers it |
| SqlPlans.AcquireSqlAnswers | src/helix_mcp/services/database/plans.py:85-106 | each answer of an execution request with its exact cause |
| SqlPlans.EndingSqlAnswers | src/helix_mcp/services/database/plans.py:108-160 | only a pending plan of the caller's environment is cancelled, only an executing one completes or fails; each error with its exact cause |
| SqlPlans.PlanningStoresOnePlan | src/helix_mcp/services/database/persistent_plans.py:85-135 | planning stores one pending plan unless the bound is met; then the encrypted store rolls its purge back and the in-memory store keeps it |
| SqlPlans.OpenSqlResets | src/helix_mcp/services/database/persistent_plans.py:258-288 | opening drops exactly the expired plans and, with recovery, makes exactly the executing ones pending |
| SqlPlans.SqlQueryPlanStore.Create | src/helix_mcp/services/database/plans.py:58-83 | the object store creates as specified |
| SqlPlans.SqlQueryPlanStore.Acquire | src/helix_mcp/services/database/plans.py:85-106 | the object store starts an execution as specified and returns the plan's query |
| SqlPlans.SqlQueryPlanStore.Finish | src/helix_mcp/services/database/plans.py:108-160 | complete and fail move only an executing plan |
| SqlPlans.SqlQueryPlanStore.Cancel | src/helix_mcp/services/database/plans.py:132-149 | the object store cancels as specified |
| SqlPlans.SqlQueryPlanStore.PurgeExpired | src/helix_mcp/services/database/plans.py:176-184 | exactly the expired plans leave the store |
| PersistentSqlStores.StoredSqlPlanDecodesToItself | src/helix_mcp/services/database/persistent_plans.py:332-396 | a plan comes back from its row exactly when its query is one that validation leaves as it is |
| PersistentSqlStores.ValidationIsStable | src/helix_mcp/services/database/models.py:16-29 | every validated query is such a query |
| PersistentSqlStores.ValidatedExactly | src/helix_mcp/services/database/models.py:16-29 | exactly which texts and limits validate, and that the text loses the white space at its ends and nothing else |
| PersistentSqlStores.RowOpensExactly | src/helix_mcp/services/database/persistent_plans.py:349-396 | a row opens exactly under its key, nonce and columns, with a valid query and no old parameters, and gives the plan of its columns |
| PersistentSqlStores.DecodedPlanIsStorable | src/helix_mcp/services/database/persistent_plans.py:349-396 | any row that decodes, also one of an earlier version, can be rewritten without loss |
| PersistentSqlStores.PersistentSqlQueryPlanStore.Create | src/helix_mcp/services/database/persistent_plans.py:85-135 | the specification's table on success, the old table on any error |
| PersistentSqlStores.PersistentSqlQueryPlanStore.Find | src/helix_mcp/services/database/persistent_plans.py:290-310 | a lookup drops exactly an expired row |
| PersistentSqlStores.PersistentSqlQueryPlanStore.Acquire | src/helix_mcp/services/database/persistent_plans.py:137-165 | refines the specification's acquire, or fails and leaves the table alone |
| PersistentSqlStores.PersistentSqlQueryPlanStore.Transition | src/helix_mcp/services/database/persistent_plans.py:214-232 | refines complete and fail, which move only an executing plan, expired or not |
| PersistentSqlStores.PersistentSqlQueryPlanStore.Cancel | src/helix_mcp/services/database/persistent_plans.py:192-212 | refines the specification's cancel |
| PersistentSqlStores.PersistentSqlQueryPlanStore.Initialize | src/helix_mcp/services/database/persistent_plans.py:258-288 | opening purges expired rows and, with recovery, returns every executing plan to pending |
| BridgeUpdate.UpdatesAreSerialised | arapi-bridge/src/main/java/com/example/helix/bridge/ArapiBridge.java:753-782 | every landed update was preceded by its own date check that read its precondition, with no other bridge update of the entry in between and, at the landing, a date no later than the server time read after the check or than the second after the precondition |
| BridgeUpdate.SetLandsExactly | arapi-bridge/src/main/java/com/example/helix/bridge/ArapiBridge.java:764-780 | an update that has checked its precondition lands exactly when at its set the entry is dated no later than the server time it read or than the second after the precondition; a refused one changes nothing |
| BridgeUpdate.UpdateSucceedsExactly | arapi-bridge/src/main/java/com/example/helix/bridge/ArapiBridge.java:753-782 | a whole update with any steps of others in between, once it has its lock, succeeds exactly when its check reads the precondition and its set finds the entry so dated |
| BridgeUpdate.LocksAreReleased | arapi-bridge/src/main/java/com/example/helix/bridge/ArapiBridge.java:753-795 | in every run each held lock belongs to a thread inside its block on that stripe |
| BridgeUpdate.AbortSetsNothing | arapi-bridge/src/main/java/com/example/helix/bridge/ArapiBridge.java:760-781 | a failure inside the block sets nothing and frees the lock |
| BridgeUpdate.OutcomesAreFinal | arapi-bridge/src/main/java/com/example/helix/bridge/ArapiBridge.java:753-782 | an update that has succeeded or failed does nothing more |
| BridgeUpdate.SamePreconditionNeedsAReusedStamp | arapi-bridge/src/main/java/com/example/helix/bridge/ArapiBridge.java:760-780 | two updates of one entry with one precondition both land only if the server stamped a write with exactly that date meanwhile |
| BridgeUpdate.LaterStampsExcludeASecondUpdate | arapi-bridge/src/main/java/com/example/helix/bridge/ArapiBridge.java:760-780 | with every write stamped later than the precondition, no second update with it lands |
| BridgeUpdate.SameSecondLosesAnUpdate | arapi-bridge/src/main/java/com/example/helix/bridge/ArapiBridge.java:753-782 | the condition is needed: a run in which a reused stamp lets both land |
| BridgeUpdate.UndisturbedUpdateLands | arapi-bridge/src/main/java/com/example/helix/bridge/ArapiBridge.java:753-782 | an update that finds its lock free and its precondition current, without interference, lands |
| BridgeUpdate.StripeIsTheUnboundedHash | arapi-bridge/src/main/java/com/example/helix/bridge/ArapiBridge.java:792-795 | however the 32-bit hash over UTF-16 units overflows, the stripe is in 0..63 and is that of the unbounded hash |
| WheelNormalizer.CentralDirectoryEntries | hatch_build.py:105-173 | the reading loop returns the specified entries or error |
| WheelNormalizer.NormalizeWheelPermissions | hatch_build.py:33-46 | patching in place leaves the specified archive, or the old one when it is refused |
| WheelNormalizer.AcceptedExactlyWhenTiled | hatch_build.py:105-173 | an archive is read with given entries exactly when its end record passes the checks and the entries tile the directory, in order and disjoint, in the declared number |
| WheelWriter.WrittenIsRead | hatch_build.py:105-173 | whatever a ZIP writer prints from headers and comments, byte by byte, is accepted with exactly the offsets and names it printed |
| WheelWriter.AcceptedExactlyWhenWritten | hatch_build.py:105-173 | and the reader accepts an archive with given entries exactly when it is such a printing |
| WheelWriter.NormalizingRewritesModes | hatch_build.py:33-47 | normalising a printed archive gives, byte for byte, the archive printed with Unix as creator system, mode 755 for names that end in a slash and 644 for the others |
| WheelWriter.EndRefusals | hatch_build.py:108-144 | each refusal of an end record with its exact cause in the bytes of the last one |
| WheelWriter.NoEndNoEntries | hatch_build.py:105-107 | an archive is refused for want of an end record exactly when its signature is nowhere |
| WheelWriter.DirectoryRefusals | hatch_build.py:146-173 | a directory is refused exactly when its complete headers are followed by bytes that are no header, or by one that is cut short or has no name |
| WheelNormalizer.AttributeBytes | hatch_build.py:36-45 | the written attribute bytes are those of a regular file or a directory with fixed modes |
| WheelNormalizer.ReadingIgnoresPatchedBytes | hatch_build.py:105-173 | an archive that agrees with an accepted one outside the patched bytes is read alike, the backward search included |
| WheelNormalizer.NormalizationIsStable | hatch_build.py:33-46 | the length is kept, only byte 5 and bytes 38 to 41 of each header change, the result reads the same, and a second time changes nothing |
| WheelNormalizer.NormalizationIsReproducible | hatch_build.py:33-46 | two accepted wheels normalise to the same bytes exactly when they agree outside those bytes |
| RateLimit.SlidingWindowCounter.Acquire | src/helix_mcp/services/rate_limit.py:57-76 | the deque loop drops what has left the window and answers by what is left, for one target only |
| RateLimit.EventTable.Acquire | src/helix_mcp/services/rate_limit.py:94-122 | the rows stay what the requests so far leave; the answer goes by the events of the last 60 seconds taken for this scope and target, less those deleted, plus those stamped after the request; an accepted request adds its event to those of its own scope and target and to no others; a failed transaction changes nothing |
| RateLimit.DequeAnswersFromHistory | src/helix_mcp/services/rate_limit.py:57-76 | with nondecreasing times the answer is yes exactly when fewer than the limit of all accepted events are less than 60 seconds old |
| RateLimit.NoWindowExceedsTheLimit | src/helix_mcp/services/rate_limit.py:57-76 | for the full history, however the clock moves: no half-open window of 60 seconds, wherever it ends, holds more than the limit |
| RateLimit.TableAnswersFromHistory | src/helix_mcp/services/rate_limit.py:94-122 | the table, whose delete crosses all scopes, answers as the history of the request's own scope and target does |
| RateLimit.TableIsRightExactlyWhenErrorsCancel | src/helix_mcp/services/rate_limit.py:94-122 | for requests of all scopes and targets in any order, with any clock: the table answers right for every limit exactly when as many accepted events of the last 60 seconds were deleted as rows of the scope and target are stamped after the request |
| RateLimit.RowsAreKept | src/helix_mcp/services/rate_limit.py:100-119 | the rows of a scope and target are the events accepted for it that no later request, of whatever scope, saw out of its window, in their order |
| RateLimit.RowsAgainstTaken | src/helix_mcp/services/rate_limit.py:100-119 | the rows count every accepted event newer than a given time exactly when none of those deleted is newer |
| RateLimit.TableKeepsTheLimit | src/helix_mcp/services/rate_limit.py:94-122 | with one limit for a scope and target, in any commit order and with any clocks: if at each accepted request the deleted events are at least `60 - s` seconds old, no `60 - s` seconds hold more events than the limit |
| RateLimit.TableGuaranteesExactly | src/helix_mcp/services/rate_limit.py:94-122 | among all runs whose readings commit at most `s` seconds late, windows of a width never exceed the limit exactly when the width is at most `60 - s` |
| RateLimit.LateCommitBreaksTheLimit | src/helix_mcp/services/rate_limit.py:94-122 | with limit 2 throughout, a reading committed after one at least 60 seconds past two events lets a third event into one window with them |
| RateLimit.DequeIsRightExactlyWhenErrorsCancel | src/helix_mcp/services/rate_limit.py:57-76 | for requests at any times: the deque answers right for every limit exactly when as many events of the last 60 seconds were dropped as events are counted that are older or stamped after the request |
| RateLimit.DequeHoldsTheWindowExactly | src/helix_mcp/services/rate_limit.py:70-73 | for requests at any times: the deque counts the very events of the last 60 seconds exactly when none of them was dropped, no older event stands behind a newer one, and none is stamped after the request |
| RateLimit.DequeKeepsTheLimit | src/helix_mcp/services/rate_limit.py:57-76 | with one limit and any clock: if at each accepted request the dropped events are at least `60 - s` seconds old, no `60 - s` seconds hold more events than the limit |
| RateLimit.DequeGuaranteesExactly | src/helix_mcp/services/rate_limit.py:57-76 | among all runs whose clock is never more than `s` seconds behind an earlier reading, windows of a width never exceed the limit exactly when the width is at most `60 - s` |
| RateLimit.DequeMiscounts | src/helix_mcp/services/rate_limit.py:57-76 | by how much the deque miscounts the events of the last 60 seconds: it misses dropped ones, and counts older ones behind a newer one and those stamped after the request |
| RateLimit.TakenIsHistory | src/helix_mcp/services/rate_limit.py:57-76 | for nondecreasing times the events the deque takes are those the full history accepts |
| RateLimit.OverstayingEventRefuses | src/helix_mcp/services/rate_limit.py:71-75 | an event taken while the clock was behind is counted after it left the window, and a request is wrongly refused |
| RateLimit.LaterEventRefuses | src/helix_mcp/services/rate_limit.py:70-75 | after the clock has gone back, an event stamped later is counted, and a request is refused although the 60 seconds before it are empty |
| RateLimit.ClockGoingBackBreaksTheLimit | src/helix_mcp/services/rate_limit.py:57-76 | with limit 2 throughout, a clock that goes back after two events have left its window lets a third event into one window with them |
| MetadataCache.MetadataStore.Cached | src/helix_mcp/services/forms/service.py:368-380 | a hit changes nothing and is the last load stored for its key, less than a time-to-live old; a miss leaves the key without an entry and removes one only when its time is over; other entries stay |
| MetadataCache.MetadataStore.FindOldest | src/helix_mcp/services/forms/service.py:321-326 | the entry to evict expires no later than any other |
| MetadataCache.MetadataStore.Store | src/helix_mcp/services/forms/service.py:320-332 | a full cache loses one entry that expires first, the new load is stored with its expiry, and at most 256 entries remain |
| MetadataCache.AnswersAreRecentLoads | src/helix_mcp/services/forms/service.py:306-380 | in every run each answer is the value of a load of that key, made by this request or finished less than the time-to-live before |
| MetadataCache.CacheStaysBounded | src/helix_mcp/services/forms/catalog.py:114-148 | in every run at most 256 entries are cached and at most one request loads under the lock |
| MetadataCache.LoadsAreNeeded | src/helix_mcp/services/forms/service.py:314-320 | a request starts loading only after a second look found no live entry, and no entry for its key appears while it loads |
| MetadataCache.AskingAnswersOrWaits | src/helix_mcp/services/forms/service.py:306-316 | a request for a live entry is answered from it at once; any other waits, and only an entry that is over is dropped |
| MetadataCache.EnteringLooksAgain | src/helix_mcp/services/forms/service.py:314-320 | with the lock it looks again, and is answered or loads |
| MetadataCache.LoadingEnds | src/helix_mcp/services/forms/service.py:320-332 | a load answers its own request and is stored with its expiry; one entry that expires first goes if there are 256, and the lock is free |
| MetadataCache.FailingFreesTheLock | src/helix_mcp/services/forms/service.py:312-320 | a failed or cancelled load leaves the cache alone and frees the lock |
| MenuExpansion.Expansion.Append | arapi-bridge/src/main/java/com/example/helix/bridge/ArapiBridge.java:1800-1847 | on any item graph the recursive walk ends in the state of reading the full listing event by event until full or failed |
| MenuExpansion.ConsumeIsFirstLeaves | arapi-bridge/src/main/java/com/example/helix/bridge/ArapiBridge.java:1800-1847 | that reading yields the first leaves of the listing, and fails exactly when a fault or repeated item comes before the output is full |
| MenuExpansion.ExpandMenu | arapi-bridge/src/main/java/com/example/helix/bridge/ArapiBridge.java:1656-1692 | returns the first `limit` leaves of the full depth-first listing, `truncated` exactly when there are more, and fails exactly when a defect comes before the leaf after the last one shown |
| MenuExpansion.ListedExactlyReached | arapi-bridge/src/main/java/com/example/helix/bridge/ArapiBridge.java:1800-1847 | the listing holds exactly the values that a chain of at most 32 menus leads to, with the captions of the chain as path |
| MenuExpansion.ShownPathsAreChains | arapi-bridge/src/main/java/com/example/helix/bridge/ArapiBridge.java:1820-1840 | every value shown has a path of at most 32 captions, those of its enclosing menus |
| MenuExpansion.NormalTextExactly | arapi-bridge/src/main/java/com/example/helix/bridge/ArapiBridge.java:1849-1861 | exactly which captions and values are texts, and that they lose the white space at their ends and nothing else |
| MenuExpansion.ConsumeReportsFirst | arapi-bridge/src/main/java/com/example/helix/bridge/ArapiBridge.java:1800-1847 | a failed expansion reports the fault of the first defect in the listing |
| MenuExpansion.FaultsHaveTheirCause | arapi-bridge/src/main/java/com/example/helix/bridge/ArapiBridge.java:1807-1846 | each fault with its cause: no item, no text, a menu without items, another type, 33 menus deep |
| Qualification.ReadQuotedToken | src/helix_mcp/services/forms/qualification.py:40-64 | the loop reads one quoted token with doubled delimiters, or finds it unterminated |
| Qualification.ReferencedFields | src/helix_mcp/services/forms/qualification.py:10-37 | the loop returns what the recursive scan returns |
| Qualification.PrintThenScan | src/helix_mcp/services/forms/qualification.py:10-64 | printing any normal list of plain texts, field references and literals and scanning it gives back exactly the fields |
| Qualification.AcceptedExactlyWhenPrinted | src/helix_mcp/services/forms/qualification.py:10-64 | a text is accepted with given fields exactly when it is such a printing |
| Qualification.RefusedExactlyWhenBroken | src/helix_mcp/services/forms/qualification.py:32-35 | each refusal happens exactly when complete tokens are followed by an empty field name or by a token that never closes |
| Qualification.EveryTextDecomposes | src/helix_mcp/services/forms/qualification.py:10-64 | every text is complete tokens followed by nothing, an empty field name or an open token |
| SqlText.ScanSqlTokens | arapi-bridge/src/main/java/com/example/helix/bridge/ArapiBridge.java:1224-1267 | the scanning loop returns the specified tokens, none when a quote stays open |
| SqlText.EmbeddedLiteral | src/helix_mcp/services/database/metadata.py:363-364 | a printed literal of any value adds no token between any two texts, the first of which ends outside quotes |
| SqlText.FeedConcat | arapi-bridge/src/main/java/com/example/helix/bridge/ArapiBridge.java:1224-1267 | a text can be scanned in two parts cut anywhere, also between two quotes |
| MetadataQueries.IsReadOnlySql | arapi-bridge/src/main/java/com/example/helix/bridge/ArapiBridge.java:1173-1222 | accepts exactly texts without marks whose first token is select or with and which have no forbidden token |
| MetadataQueries.ReadOnlyExactly | arapi-bridge/src/main/java/com/example/helix/bridge/ArapiBridge.java:1173-1222 | in full: no mark anywhere, the first token select or with, and none of the 23 forbidden words among the tokens |
| MetadataQueries.ForbiddenWordIsRefused | arapi-bridge/src/main/java/com/example/helix/bridge/ArapiBridge.java:1191-1220 | any text with a forbidden word standing by itself outside quotes, in capitals or not, is refused |
| MetadataQueries.CapitalsExactly | src/helix_mcp/services/database/metadata.py:30-56 | the capitals in which fixed words are written |
| MetadataQueries.TokensIgnoreValues | src/helix_mcp/services/database/metadata.py:253-328 | the tokens of a built query are its fixed words and the offset, whatever values are embedded |
| MetadataQueries.LiteralMarks | arapi-bridge/src/main/java/com/example/helix/bridge/ArapiBridge.java:1173-1182 | an embedded literal brings exactly the marks of its value into the raw check |
| MetadataQueries.AcceptedExactlyWhenMarkFree | arapi-bridge/src/main/java/com/example/helix/bridge/ArapiBridge.java:1173-1222 | a query of harmless fixed text is accepted exactly when no embedded value has a mark |
| CatalogQueries.BuildObjectsQuery | src/helix_mcp/services/database/metadata.py:285-326 | no query exactly when the policy allows no object; otherwise all given values are embedded in order, and the bridge accepts the text exactly when none of them has a mark |
| CatalogQueries.BuildColumnsQuery | src/helix_mcp/services/database/metadata.py:247-282 | the same for the columns query |
| CatalogQueries.BuildResolveQuery | src/helix_mcp/services/database/metadata.py:227-246 | the same for the query that resolves one object |
| CatalogQueries.DashedNameIsRefused | arapi-bridge/src/main/java/com/example/helix/bridge/ArapiBridge.java:1177-1181 | any built query that embeds the name `a--b`, wherever and with or without an offset, is refused |
| CatalogMeaning.ObjectsQueryLists | src/helix_mcp/services/database/metadata.py:285-326 | read as SQL reads them, the conditions of the objects query select exactly the relations of the five kinds, outside system schemas unless asked for, that meet the given filters and the policy |
| CatalogMeaning.ResolveQueryFinds | src/helix_mcp/services/database/metadata.py:227-246 | the resolving query finds exactly a relation of that schema and name |
| CatalogMeaning.ListedExactlyWhenPermitted | src/helix_mcp/services/database/metadata.py:345-360 | where SQL's lower case and Python's case folding agree, the query lists exactly what the gateway's own check permits |
| CatalogMeaning.FoldedNameIsNeverListed | src/helix_mcp/services/database/metadata.py:345-360 | where they differ, a name the policy permits is never listed |
| CatalogMeaning.WordsOfSelects | src/helix_mcp/services/database/metadata.py:30-56 | the words of the select lists: which column is shown under which name |
| CatalogMeaning.WordsOfSources | src/helix_mcp/services/database/metadata.py:41-55 | the words of the sources and joins |
| CatalogMeaning.WordsOfParts | src/helix_mcp/services/database/metadata.py:262-325 | the words of the remaining parts: the policy's alternatives, the column conditions and the orders |
| CatalogMeaning.KindsAreNamed | src/helix_mcp/services/database/metadata.py:34-40 | each kind is shown by its name |
| WriteValues.EncodeWriteValues | src/helix_mcp/clients/arapi/client.py:1012-1047 | succeeds exactly on 1 to 32 safe names distinct under case folding with strings of bounded length and integers of at most 4300 digits, which Python prints, and fills the three texts of each value |
| WriteValues.EncodableExactly | src/helix_mcp/clients/arapi/client.py:1012-1047 | the accepted values in full, with integers of at most 4300 digits as those below that power of ten |
| WriteValues.IndexFields | arapi-bridge/src/main/java/com/example/helix/bridge/ArapiBridge.java:1015-1028 | maps each name to its only bearer, and to null when two or more fields bear it |
| WriteValues.ResolveExactly | arapi-bridge/src/main/java/com/example/helix/bridge/ArapiBridge.java:1015-1042 | a name resolves exactly to the only field that bears it; none is a bad request, several are ambiguous |
| WriteValues.ParseWriteValues | arapi-bridge/src/main/java/com/example/helix/bridge/ArapiBridge.java:797-833 | the parsing loop returns the specified values or the first error |
| WriteValues.ParsedIsCarried | arapi-bridge/src/main/java/com/example/helix/bridge/ArapiBridge.java:835-911 | printing a value and parsing it for a field type gives what that type carries of the value |
| WriteValues.NumbersCarried | arapi-bridge/src/main/java/com/example/helix/bridge/ArapiBridge.java:835-911 | the exact range of integers that each field type takes |
| WriteValues.CountIsChecked | arapi-bridge/src/main/java/com/example/helix/bridge/ArapiBridge.java:797-806 | a missing, unreadable or excessive count of values is a bad request, and no other is refused for it |
| WriteValues.EncodedValuesArrive | src/helix_mcp/clients/arapi/client.py:1012-1047 | parsing what was encoded succeeds exactly when each value alone succeeds, and then holds exactly one value for each, under the id of its field; otherwise it reports the first failure |
| WriteValues.OutcomeIsTheOnlyField | arapi-bridge/src/main/java/com/example/helix/bridge/ArapiBridge.java:1015-1042 | a value that succeeds names the only field with that name and carries itself: strings unchanged, truth values as 1 and 0, integers in range unchanged |
| WriteValues.SharedNameIsAmbiguous | arapi-bridge/src/main/java/com/example/helix/bridge/ArapiBridge.java:1030-1042 | a name shared by two or more fields is never written, and is reported as ambiguous when nothing before it fails |
| WriteValues.AstralNameIsRefused | arapi-bridge/src/main/java/com/example/helix/bridge/ArapiBridge.java:1291-1302 | a field name of 200 characters above U+FFFF passes the gateway and is refused by the bridge |
| Decimal.PrintParses | arapi-bridge/src/main/java/com/example/helix/bridge/ArapiBridge.java:1344-1358 | a printed integer parses to itself |
| Decimal.DigitCount | src/helix_mcp/clients/arapi/client.py:1033-1035 | a number prints at most that many digits exactly when it is below that power of ten |
| JavaText.StrippedByPython | src/helix_mcp/clients/arapi/client.py:1080-1086 | a text Python's strip leaves alone is left alone by Java's |
| JavaText.StripTakesEnds | arapi-bridge/src/main/java/com/example/helix/bridge/ArapiBridge.java:1291-1302 | stripping takes off exactly the white space at both ends |
| JavaText.CharacterTables | arapi-bridge/src/main/java/com/example/helix/bridge/ArapiBridge.java:1291-1302 | the code points that count as white space in Java and in Python, and as controls |
| JavaText.PairIsCodePoint | arapi-bridge/src/main/java/com/example/helix/bridge/ArapiBridge.java:792-795 | a character above U+FFFF becomes the surrogate pair of its code point |

## Left out

- Apply calls that are lost, or end with their process, before they answer: their callers are told nothing, so `WriteProtocol.AcknowledgedWriteIsTold` is about the others.
- Late effects: whether a write call takes effect is decided when it is logged, also for calls whose reply is lost; in the bridge, a set that lands after its own call has failed is not modelled.
- HTTP, subprocesses, installation, dashboard, secrets, audit and metrics: plumbing with easy claims only.
- The SQL validator built on sqlglot: its parser and tree are not part of this model.
- Real AES-GCM, SHA-256, SQLite, JSON and URL encoders, payload size limits, file permissions.
- Real numbers, decimals and dates in write values: what Java reads back of a printed float is a parameter, so nothing is claimed about its value.
- Control characters, length limit and stripping of SQL texts before the read-only check (`requiredSql`).
- The select lists, joins, order and paging of the metadata queries: stated by their words; only the conditions on relations are given a meaning.
- Filtering of loaded field metadata by the policy: a list comprehension that would add easy members.
- Reading dates out of the server's replies in the bridge: an update stopped by a missing or invalid date counts as one that failed there.
