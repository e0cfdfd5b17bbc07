# Verified model of the ObjectID integration server's protocols

This Dafny project models the parts of the integration server whose guarantees span several functions, several
processes or several awaits, and proves them for every input and every interleaving:

- **Twin cleanup** (`TwinCleanup`, `TwinDeletion`): the planner that picks one dependency-safe batch of registered
  children, the snapshot it plans on, and the bounded, resumable loop around it.
- **Digital Thread** (`ThreadVerifier`, `ThreadChecks`, `ThreadProperties`, `ThreadWalk`): the incremental chain verifier,
  what its checks on one event mean, its one-shot form, and the page walk over the sorted, filtered and cached on-chain events.
- **Catalog, devices and bindings** (`PlantCatalog`, `Devices`, `PlantBindings`, `PlantMembership`, `PlantEffects`): the
  lock-file and revision protocol shared by several processes, the device life cycle on top of it, and the rule that binds
  a Twin to a plant, with what each write changes and each lookup finds.
- **Mutation pipeline** (`GasStations`, `IngestionQueue`, `IngestionRuns`, `Idempotency`): failover between gas
  stations, retries of queued jobs, and replayed replies.
- **Sharing** (`AccessPolicy`, `PayloadFilter`, `FilterLaws`, `FilterParts`, `SharingUpdate`, `SharedDatasets`, `DatasetRuns`): rights,
  payload reconstruction, the fail-closed policy update, and capacity-bounded exports.
- **Retention, windows and signals** (`Retention`, `StatePruning`, `DatasetWindows`, `EvidenceSnapshot`, `Signals`):
  budgeted deletion and pruning, sample conservation, snapshot completeness, and signal discovery.

`Wrappers`, `Sorting`, `Text` and `JsonData` hold what several of these share.

## How the program is modelled

Code that computes a value is a function; code that loops or updates fields is a method or a class, proved against a
specification function about which the theorems are stated. Concurrency is modelled by state machines that interleave
exactly at awaits: a state, a total `Step` (an action that is not enabled changes nothing), and a `Run` over an arbitrary
sequence of actions. A crash, a failed call and a delayed reply are actions like any other. Clocks, random draws, replies
of the chain, of gas stations and of stores, and collation are parameters. The chain, the stores and the authenticated
encryption are abstract: a stored blob opens exactly under the associated data it was sealed with, and digests are
compared as what they digest.

Five edges where the code does not do what its own documentation or the obvious expectation says are kept as they are,
each with the exact condition under which the expected property holds:

- a 2xx execute reply without a digest moves on to the next gas station, so a mutation can be applied twice
  (`GasStations.AppliedOnceExactly`, `GasStations.DigestlessFailoverAppliesTwice`);
- a lookup that throws drops the job (`IngestionRuns.LostExactly`, `IngestionRuns.NothingLost`, `IngestionRuns.ThrowLosesJob`);
- two networks of one interface are noticed only once all members and indicators are gone
  (`TwinCleanup.RunFailsIffDuplicateNetwork`);
- a verification from revision 0 expects the base -1 and is never valid on a non-empty thread (`ThreadProperties.FromZeroRefuses`);
- a window's bounds are its first and last sample, so a snapshot can miss samples that arrived out of order
  (`EvidenceSnapshot.MissedExactly`, `EvidenceSnapshot.OutOfOrderIsMissed`).

Three more came up on the way. On-chain streams are grouped by a key joined with a NUL character, so the newest state of a
stream can be taken for a superseded one (`StatePruning.NewestKeptExactly`, `StatePruning.NewestSafeExactly`,
`StatePruning.NulInAspectPrunesNewest`). An export's preparation reads the policy again, so a selection that was accepted
can be refused at a sample after the grant was narrowed (`FilterLaws.MovedPolicyExactly`,
`FilterLaws.NarrowedGrantRefuses`). And a scalar payload gets the same JSON pointer as the member with the empty name
(`Signals.SourceRoundTrip`).

## Model

| member | source | states |
|---|---|---|
| TwinCleanup.PlanCleanup | src/objectid/twinCleanup.ts:16-48 | the loops compute `Plan`, the function all cleanup theorems are about, on every registry, errors included |
| TwinCleanup.PlanIsAccepted | src/objectid/twinCleanup.ts:33-47 | every call of a successful plan is one the contract takes, judged from the registry alone: a member call has its composition and a member of it, an indicator call its assessment and an indicator of it, a V2 interface call exactly an interface that has a network and that network, any other call one child of its kind |
| TwinCleanup.PlanPicks | src/objectid/twinCleanup.ts:33-47 | the first member in registry order goes alone, then the first indicator, then the first sixteen of the other children in registry order with the events behind everything else |
| TwinCleanup.PlanErrorsExactly | src/objectid/twinCleanup.ts:18-43 | each planning error exactly under its condition: the first child of unknown kind, the first without its parent, or an interface with two networks once no member or indicator is left |
| TwinCleanup.NoErrorMeansComplete | src/objectid/twinCleanup.ts:25-32 | the checks made before anything irreversible pass exactly when every child is of a known kind and finds its parent |
| TwinCleanup.EventsLastKeeps | src/objectid/twinCleanup.ts:47 | putting event removals last neither loses nor repeats a call |
| TwinCleanup.DependentBatch | src/objectid/twinCleanup.ts:33-36 | a member or indicator leaves alone, orphans nothing, and brings the registry one batch closer to empty |
| TwinCleanup.IndependentBatch | src/objectid/twinCleanup.ts:37-47 | with no member or indicator left, sixteen independent children, or all that remain, leave in one safe batch |
| TwinCleanup.PlanIsSafe | src/objectid/twinCleanup.ts:16-48 | on a well-formed non-empty registry: 1 to 16 calls over pairwise distinct registered objects, no dependent left behind, and a strictly smaller well-formed registry exactly one batch closer to empty |
| TwinCleanup.AfterBatches | src/objectid/iotaStatePublisher.ts:132-155 | n batches take exactly n off the batch count m + i + ceil(k/16), and planning never fails on the way |
| TwinCleanup.DuplicatesFailLate | src/objectid/twinCleanup.ts:33-43 | with two networks of one interface, exactly the batches for the members and indicators succeed, and the plan after them is refused |
| TwinCleanup.RunFailsIffDuplicateNetwork | src/objectid/twinCleanup.ts:33-43 | a registry that passed the checks runs into a planning error exactly when some interface has two networks |
| TwinDeletion.ListIds | src/objectid/iotaStatePublisher.ts:170-177 | the page loop lists all ids up to the last page, or fails when a page announces a successor without a cursor |
| TwinDeletion.ListedExactly | src/objectid/iotaStatePublisher.ts:170-177 | the listing holds the ids of all pages up to the one that ends it, in order, and is cut off exactly by a page that announces a successor without a cursor |
| TwinDeletion.Snapshot | src/objectid/iotaStatePublisher.ts:159-189 | a snapshot is taken exactly when the listing is complete, without repetition, as long as the table, and fully readable and owned; it then holds exactly the listed children |
| TwinDeletion.NextEventsTakesSixteen | src/objectid/iotaStatePublisher.ts:135-141 | a bulk step removes the first sixteen events in registry order and nothing else |
| TwinDeletion.AfterEventsCount | src/objectid/iotaStatePublisher.ts:132-143 | n bulk steps remove exactly the first 16n events |
| TwinDeletion.EventsInOneCall | src/objectid/iotaStatePublisher.ts:132-143 | with submissions to spare one call removes all events exactly when there are at most 4080, otherwise the first 4096, and nothing but events |
| TwinDeletion.Publisher.BatchLoop | src/objectid/iotaStatePublisher.ts:132-156 | the root goes in this call exactly when at most 255 batches are needed and enough submissions are accepted; otherwise what was removed is exactly what the accepted batches remove; with two networks of one interface the members and indicators go and the next plan is refused |
| TwinDeletion.Publisher.EventLoop | src/objectid/iotaStatePublisher.ts:132-143 | result and remaining registry for every number of accepted submissions, whether or not a refused one landed |
| TwinDeletion.Publisher.CleanupTwin | src/objectid/iotaStatePublisher.ts:107-158 | refuses a concurrent deletion, an unplannable registry and a Twin with events without touching it; otherwise the outcome of preparation and loops, and the in-progress mark is always given back |
| TwinDeletion.OutcomesExactly | src/objectid/iotaStatePublisher.ts:132-156 | each outcome of a call by the batches needed and the submissions accepted: at most 256 submissions, of which deleting the root is one |
| TwinDeletion.Publisher.DeleteEvents | src/objectid/iotaStatePublisher.ts:132-157 | repeating the call, each time with at least one submission accepted, ends with no event left and everything else kept, after at most ceil(E/16) + 2 calls; with submissions to spare exactly floor(ceil(E/16)/256) of them ask for a retry |
| TwinDeletion.Publisher.DeleteRoot | src/objectid/iotaStatePublisher.ts:132-157 | repeating the call, each time with at least one submission accepted, ends with the root gone after at most n + 1 calls; with submissions to spare exactly floor(n/256) of them ask for a retry |
| TwinDeletion.Publisher.DeleteCompletely | src/objectid/iotaStatePublisher.ts:107-158 | from any well-formed registry, the two actions repeated one after the other end with the root gone |
| ThreadVerifier.IncrementalThreadVerifier.constructor | src/thread/verifier.ts:45-56 | a new verifier has absorbed nothing |
| ThreadVerifier.IncrementalThreadVerifier.AppendPage | src/thread/verifier.ts:58-87 | appending a page absorbs its events one after the other and counts one page |
| ThreadVerifier.IncrementalThreadVerifier.Append | src/thread/verifier.ts:60-86 | one loop step is the specification's absorption of one event |
| ThreadVerifier.IncrementalThreadVerifier.FinishReport | src/thread/verifier.ts:89-108 | the report is the specification's report on what was absorbed |
| ThreadChecks.NormalizeExactly | src/thread/verifier.ts:194 | two Twin ids are taken for the same exactly when they differ at most in letter case and leading zeros |
| ThreadChecks.ValidHashExactly | src/thread/verifier.ts:188 | a hash is well formed exactly when it is one of the two prefixes followed by 64 lower-case hexadecimal digits |
| ThreadChecks.HashesMatchExactly | src/thread/verifier.ts:189-193 | a well-formed published hash matches a state hash exactly when that names the same 64 digits, in any letter case, behind either prefix or none |
| ThreadChecks.EventErrorsExactly | src/thread/verifier.ts:63-78 | an event error is reported exactly when it applies: order, Twin, type, actor, revision step, and a reference or hash on the six types that need one |
| ThreadChecks.HashErrorsExactly | src/thread/verifier.ts:74-77 | a hash error is reported exactly for a malformed hash or for a type 30 event whose state has another digest |
| ThreadChecks.AcceptableExactly | src/thread/verifier.ts:63-80 | the verifier objects to nothing in an event alone exactly when its fields are acceptable |
| ThreadProperties.FeedIsAbsorb | src/thread/verifier.ts:58-87 | feeding pages is feeding their concatenation, except for the number of pages |
| ThreadProperties.ReportIgnoresPaging | src/thread/verifier.ts:58-108 | two ways of paging the same events give the same report but for the page count |
| ThreadProperties.ValidIffChain | src/thread/verifier.ts:58-108 | a complete verification is valid exactly when event j goes from base+j to base+j+1, every event is acceptable by its own fields, and the last revision reaches the requested end |
| ThreadProperties.FindingsExact | src/thread/verifier.ts:60-86 | the report lists exactly what is wrong: each event error, hash error and absent transaction under an event that has it, and each gap with the revision expected and the one found |
| ThreadProperties.StatusExact | src/thread/verifier.ts:110-118 | the transaction status is failed as soon as one is absent, verified when all were found, partial when some were and none is absent |
| ThreadProperties.EvidenceBinds | src/thread/verifier.ts:167-180 | two threads give the same evidence exactly when they agree, event by event, in every field the evidence is about |
| ThreadProperties.ValidBounds | src/thread/verifier.ts:102-107 | the bounds of a valid full thread are the revision before its first event and the one after its last |
| ThreadProperties.FromZeroRefuses | src/thread/verifier.ts:62 | from revision 0, a non-empty thread of non-negative revisions is never valid |
| ThreadProperties.DuplicatesExact | src/thread/verifier.ts:68-69 | the duplicate revisions are exactly those occurring twice or more, each reported once |
| ThreadProperties.MissingExact | src/thread/verifier.ts:70-73 | on a sorted full thread of single steps, the missing revisions are exactly 1 to the last minus those present, each once |
| ThreadProperties.VerifyEvents | src/thread/verifier.ts:126-160 | the one-shot loop agrees with the incremental verifier on findings, counts, digest and validity |
| ThreadWalk.Indexer.FindTwinEventsOnChain | src/indexer/objectid.ts:32-66 | a page is the requested slice of the filtered, ordered thread, cached or read, with the stated errors; a successful read fills the cache, a failed one leaves no entry |
| ThreadWalk.PageExactly | src/indexer/objectid.ts:53-66 | a page is as long as asked for unless it is the last, announces a next one exactly when events remain, and each of the two errors has its exact condition |
| ThreadWalk.ServedThread | src/indexer/objectid.ts:91-101 | what is paged is sorted, holds exactly the matching events, and keeps their multiplicity |
| ThreadWalk.ServedViewsGrow | src/indexer/objectid.ts:32-66 | however the cache mixes old and new reads of a thread that only grows at its tail, what it serves from request to request only grows at its tail |
| ThreadWalk.VerifyDigitalThread | src/thread/service.ts:9-22 | the walk through the caching index terminates; when what the index serves grows only at its tail it reports on exactly the matching events of the view its last page saw, none skipped or repeated, and on a fixed thread it reads exactly the pages the limit asks for |
| ThreadWalk.WalkAgreesWithOneShot | src/thread/service.ts:9-22 | walking a whole unchanging thread agrees with verifying it in one go |
| PlantCatalog.CheckCatalog | src/plants/service.ts:138-156 | the loading loop accepts exactly the catalogs whose pointers are valid and whose keys are distinct |
| PlantCatalog.ValidPointerExactly | src/plants/service.ts:140-152 | reading the catalog back accepts exactly the pointers that puts write |
| PlantCatalog.EveryRunConsistent | src/plants/service.ts:73-117 | in every interleaving of writers with crashes at any await, the catalog file is acceptable and points to the last committed document of every key, and only the lock holder is between load and release |
| PlantCatalog.StepIsAtomic | src/plants/service.ts:82-113 | every step either changes no committed history or appends exactly one document to one key, at the revision after the one its writer named |
| PlantCatalog.RevisionsExact | src/plants/service.ts:91-111 | each key has at most one pointer and its committed revisions are exactly 1, 2, 3, ... |
| PlantCatalog.OneWinnerPerBase | src/plants/service.ts:92-94 | of the writers naming the same base revision of a key at most one commits |
| PlantCatalog.HistoryOnlyGrows | src/plants/service.ts:160-175 | a committed history is never rewritten by any later run |
| PlantCatalog.LoggedIdsValid | src/plants/service.ts:73-77 | every key that ever commits a document has a plant id that passes the input check, so that listing accepts it |
| PlantCatalog.ListReturnsLastCommitted | src/plants/service.ts:52-71 | listing a scope from a catalog read at any earlier moment returns, for each of its keys, the document committed last at that moment |
| PlantCatalog.OpensExactly | src/plants/service.ts:57-70 | a blob opens exactly under the pointer it was sealed for - key, revision and projection - and shows its own document |
| PlantCatalog.ListFailsExactly | src/plants/service.ts:52-71 | a listing fails as a whole exactly when a blob of the tenant is missing, was swapped or belongs to another revision |
| PlantCatalog.UninterruptedPut | src/plants/service.ts:73-117 | an uninterrupted put with the right revision on an unlocked catalog commits and releases the lock |
| PlantCatalog.PutCommitsExactly | src/plants/service.ts:73-117 | with the lock free an uninterrupted put is refused exactly when it is not storable, succeeds exactly when it also names the current revision, and changes nothing else |
| PlantCatalog.ShownPlacesAreReal | src/plants/service.ts:21-30 | whatever the interleaving, every place shown in the clear lies on earth, has a name that is not blank, and is its own key's |
| PlantCatalog.StaleLockStopsWriters | src/plants/service.ts:80-86 | after a crash that leaves the lock file, no run commits anything until the file is removed from outside |
| PlantCatalog.LockIsHeld | src/plants/service.ts:80-116 | while no process stops and every unlink works, the lock file is there exactly when a writer holds the lock |
| PlantCatalog.FailuresFreeLock | src/plants/service.ts:87-116 | a put that is refused, meets a conflict or fails while it holds the lock gives the lock back and commits nothing |
| PlantCatalog.WithoutLock | src/plants/service.ts:82-86 | a put that does not get the lock ends without changing anything |
| PlantCatalog.HolderFinishes | src/plants/service.ts:86-116 | whoever holds the lock can go on to the end of its put and give it back, whatever the others have done |
| PlantCatalog.PlantService.Put | src/plants/service.ts:73-117 | one sequential put: which error, which new revision, and which catalog results |
| Devices.EveryRunGood | src/devices/service.ts:52-74 | every run of several servers keeps each device's stored records moving only forward through waiting, creating and created |
| Devices.CreateAtMostOnce | src/devices/service.ts:126-158 | over every run with crashes between any two awaits, the real Twin creation is invoked at most once per device |
| Devices.WaitingMeansNoCall | src/devices/service.ts:132-150 | while a device's record says waiting, its creation has never been invoked |
| Devices.NoWriteReturnsToWaiting | src/devices/service.ts:114-158 | no write takes a device back to waiting, nor a created one to anything but created with the same Twin; what each write changes besides is `SucceededPut` |
| Devices.SucceededPut | src/devices/service.ts:52-192 | over all runs, a successful put records exactly the effect of its task's kind and turn and leaves every other field: a revocation revokes, the first rotation write sets pending and the new token, the second neither pending nor revoked, registration waits and then is configured, classification goes on to creating and created |
| Devices.RevokedExactly | src/devices/service.ts:114-192 | a record says revoked exactly while some revocation has not been followed by a finished rotation |
| Devices.NoStartWhileRevoked | src/devices/service.ts:119-131 | after a successful revocation no creation is started until a rotation has succeeded |
| Devices.TokenExactly | src/devices/service.ts:62-192 | a record holds the token drawn last, by its registration or by a rotation whose first write succeeded |
| Devices.RevokeCompletes | src/devices/service.ts:114-125 | an undisturbed revocation records the device as revoked and leaves the rest of the record alone |
| Devices.UnknownDeviceEnds | src/devices/service.ts:114-125 | a task that reads a device nobody registered is over and its mark is gone |
| Devices.RotateCompletes | src/devices/service.ts:174-195 | an undisturbed rotation leaves a device neither revoked nor pending, with the new token |
| Devices.ClassifyCompletes | src/devices/service.ts:126-158 | an undisturbed classification of a waiting, unrevoked device invokes the creation once and records its Twin |
| Devices.RegisterCompletes | src/devices/service.ts:52-74 | an undisturbed registration ends with a waiting, configured device that holds the drawn token |
| Devices.EveryRunBusy | src/devices/service.ts:115-124 | a server's busy marks are exactly the devices its running tasks work on, one task each |
| Devices.BusyRefuses | src/devices/service.ts:114-128 | revoking, classifying or rotating a device the server works on is refused at once, and changes nothing; a registration never is |
| PlantBindings.OwnerPlants | src/plants/twin-membership.ts:20-30 | the loops gather the plants of the pinned scopes and of the personal scope, or fail on one that names another owner |
| PlantBindings.ValidatePlantBindings | src/plants/association.ts:8-31 | the loops compute `Check`, whose meaning `PlantMembership.CheckPassesExactly` and `PlantEffects.CheckErrorsExactly` give |
| PlantBindings.LocateTwinPlant | src/plants/twin-membership.ts:31-52 | the loops compute `Locate`, whose meaning `PlantEffects.LocateExactly` gives |
| PlantMembership.CheckPassesExactly | src/plants/association.ts:8-31 | the check passes exactly when the owner's plants are its own and every binding names a valid Twin id and a tree node, is the first of its Twin, and is unchanged or of the owner's unassigned Twin |
| PlantMembership.StepKeeps | src/plants/association.ts:17-30 | every kind of write keeps the catalog well formed |
| PlantMembership.EveryRunOk | src/plants/association.ts:6-31 | every catalog a run can reach is well formed |
| PlantMembership.BoundOnce | src/plants/association.ts:17-30 | in every reachable catalog two bindings of one Twin among one owner's tenant plants are the same binding |
| PlantMembership.LocateAnswers | src/plants/twin-membership.ts:31-52 | in every reachable catalog the lookup of one's own Twin never conflicts: it answers with the tenant plant binding it, else the personal one, else its recorded origin, else none |
| PlantEffects.OwnedExactly | src/plants/twin-membership.ts:20-30 | the owner's plants are exactly those of its personal scope and of the scopes pinned to it |
| PlantEffects.TwinIdExactly | src/plants/association.ts:20 | a Twin id is 64 hexadecimal digits behind 0x, in any letter case |
| PlantEffects.NodesExactly | src/plants/association.ts:16-18 | a node may carry a Twin exactly when a path of child positions leads to it from the root without meeting a document |
| PlantEffects.CheckErrorsExactly | src/plants/association.ts:8-31 | the check fails because a plant of the owner names somebody else, and otherwise with the reason of the first refused binding, each reason said from the binding, the chain and the stored plants |
| PlantEffects.TenantPutExactly | src/plants/association.ts:6-31 | a supervisor's document is stored in its name exactly when the check passes, and nothing else changes |
| PlantEffects.OpenPersonalExactly | src/plants/twin-creation.ts:73-85 | an owner's personal plant is created, with nothing in it, exactly when there is none yet |
| PlantEffects.OtherPutExactly | src/plants/service.ts:73-117 | other subsystems write under scopes that are neither pinned nor personal, and nowhere else |
| PlantEffects.MigrateExactly | src/plants/twin-membership.ts:62-71 | a migration sets the Twin's node and binding in the owner's personal plant and keeps every other child, binding and plant |
| PlantEffects.LocateExactly | src/plants/twin-membership.ts:31-52 | each error of the lookup under its exact condition, on any catalog; else the answer describes the one candidate plant: a tenant's that names the Twin, else a personal one that does, else the recorded origin |
| PlantEffects.PlanExactly | src/plants/twin-membership.ts:55-62 | a migration fails as the lookup does, preserves what the lookup finds, and moves exactly the Twins nothing is claimed of |
| PlantEffects.MigratedIsFound | src/plants/twin-membership.ts:54-73 | in every reachable catalog a migration that was applied is found by the lookup, and migrating again preserves it |
| GasStations.ExecuteAtStation | src/objectid/sponsoredTransactionExecutor.ts:48-110 | one attempt's outcome and exactly what it sends: the station's own reservation written into a fresh transaction |
| GasStations.CodesExactly | src/objectid/sponsoredTransactionExecutor.ts:48-110 | each error code of an attempt exactly under its condition; only an unknown submission or confirmation says so, and none may simply be retried |
| GasStations.Execute | src/objectid/sponsoredTransactionExecutor.ts:28-46 | the failover loop's outcome and the submissions made, station by station |
| GasStations.SubmissionsExactly | src/objectid/sponsoredTransactionExecutor.ts:61-75 | each contacted station that gets as far is sent exactly one submission, paid by its own reservation, in order of station |
| GasStations.ContactedExactly | src/objectid/sponsoredTransactionExecutor.ts:28-46 | a station is contacted exactly when the call went on after each before it: no reservation or a malformed one, no build, a 4xx, or a 2xx reply without a digest |
| GasStations.EndsExactly | src/objectid/sponsoredTransactionExecutor.ts:28-46 | the call ends at the first station after which it does not go on, with that station's outcome, and is unavailable when there is none |
| GasStations.OutcomeExactly | src/objectid/sponsoredTransactionExecutor.ts:61-107 | success, transaction failure, unknown submission and unavailability, each exactly by the reply of the station the call ended at |
| GasStations.AppliedOnceExactly | src/objectid/sponsoredTransactionExecutor.ts:79-81 | the replies of a call guarantee at most one application, whatever the chain did, exactly when no station was left on a 2xx reply without a digest before one whose reply does not rule out an application |
| GasStations.DigestlessFailoverAppliesTwice | src/objectid/sponsoredTransactionExecutor.ts:79-81 | a concrete call that applies the mutation twice and reports success |
| GasStations.OutcomeIsTrue | src/objectid/sponsoredTransactionExecutor.ts:61-107 | the outcome can be trusted whatever the chain did - at most one application, success means applied, an error not flagged unknown means not applied - exactly when every 2xx reply seen carried a digest |
| IngestionQueue.MemoryQueue.Dequeue | src/queue/memoryQueue.ts:11-15 | takes the oldest item whose time has come and keeps the order of the rest |
| IngestionQueue.FirstReady | src/queue/memoryQueue.ts:13 | the position found is the first whose time has come, and none is found only when no item is ready |
| IngestionQueue.IngestionWorker.Take | src/queue/ingestionWorker.ts:55-58 | nothing is taken while the flag is set |
| IngestionQueue.IngestionWorker.HandleFailure | src/queue/ingestionWorker.ts:88-119 | exactly one of failed, requeued, forgotten or lost, with the whole new queue and failure list |
| IngestionQueue.RetryDelay | src/queue/ingestionWorker.ts:107-110 | each retry waits at least the capped exponential delay and less than its jitter on top |
| IngestionQueue.ScaledBelow | src/queue/ingestionWorker.ts:109 | a draw below one scaled by the jitter's width stays below the width |
| IngestionQueue.BackoffGrows | src/queue/ingestionWorker.ts:108 | the delay without jitter never decreases with the attempt |
| IngestionQueue.BackoffDoubles | src/queue/ingestionWorker.ts:108 | the first retry waits the base delay and each further one twice as long as the one before, all capped |
| IngestionQueue.JitterExactly | src/queue/ingestionWorker.ts:109 | the jitters that draws lead to are exactly zero and every number of milliseconds below a fifth of the delay |
| IngestionRuns.EveryRunConserves | src/queue/ingestionWorker.ts:55-119 | at every step of every interleaving each enqueued job is in exactly one of queue, flight, failed, done or lost |
| IngestionRuns.LostExactly | src/queue/ingestionWorker.ts:94-97 | over every run, an enqueued job is neither queued, in flight, failed nor done exactly when a lookup awaited for it threw |
| IngestionRuns.NothingLost | src/queue/ingestionWorker.ts:94-97 | a run keeps every enqueued job exactly when none of the lookups awaited in it throws |
| IngestionRuns.ThrowLosesJob | src/queue/ingestionWorker.ts:62-63 | a concrete run after which a job is nowhere |
| IngestionRuns.DoneExactly | src/queue/ingestionWorker.ts:81-119 | over every run a job is done exactly when an execution of it ended without error or a lookup found its mutation |
| IngestionRuns.FailedExactly | src/queue/ingestionWorker.ts:88-119 | a job is failed exactly when an execution ended in an error that must not be retried or in any error at the last attempt, or a lookup could not tell |
| IngestionRuns.FailedReason | src/queue/ingestionWorker.ts:88-106 | a job is listed as failed with the error it ended in, or with the retry that could not be made safe |
| IngestionRuns.RetriedExactly | src/queue/ingestionWorker.ts:88-113 | every other ended attempt, in particular one whose mutation the lookup did not find, puts the job back at the end of the queue with one more attempt |
| IngestionRuns.DoneIsApplied | src/queue/ingestionWorker.ts:81-97 | with success meaning applied and a truthful lookup, the mutation of each done job is on the chain |
| IngestionRuns.EnqueuedExactly | src/queue/memoryQueue.ts:10 | the jobs that count as enqueued are those the run enqueues |
| IngestionRuns.CommitsExactly | src/queue/ingestionWorker.ts:81-86 | the applications recorded for a job are the sum of what its executions report |
| IngestionRuns.ReferencesExactly | src/queue/ingestionWorker.ts:94-96 | the references a truthful lookup finds are exactly those whose mutation some execution applied |
| IngestionRuns.JobCompletes | src/queue/ingestionWorker.ts:55-86 | on an idle worker a new job that executes without error is done after one execution |
| IngestionRuns.FlagStopsTaking | src/queue/ingestionWorker.ts:55-86 | once a job has begun the worker takes nothing until a call that ended clears the flag |
| IngestionRuns.EndedClearsOnce | src/queue/ingestionWorker.ts:62-64 | a flight that ends leaves one flag to clear, whatever becomes of its job |
| IngestionRuns.NothingToClear | src/queue/ingestionWorker.ts:61-64 | no call clears the flag before some execution has ended |
| IngestionRuns.EveryRunCounts | src/queue/ingestionWorker.ts:91-92 | no job is executed more often than max(1, maxAttempts) |
| IngestionRuns.EveryRunAppliesOnce | src/queue/ingestionWorker.ts:81-113 | with a truthful lookup and definite failures that applied nothing, each job's mutation is applied at most once over all retries |
| IngestionRuns.SponsoredIsBelievable | src/objectid/sponsoredTransactionExecutor.ts:28-107 | an execution through gas stations whose 2xx replies carry a digest meets that assumption |
| IngestionRuns.SponsoredAppliesOnce | src/queue/ingestionWorker.ts:81-113 | across all retries of a job and all stations of each retry its mutation is applied at most once, when the lookup is truthful and every 2xx execute reply carries a digest |
| Idempotency.MemoryIdempotencyStore.Get | src/security/idempotency.ts:26-31 | a live entry is returned, an expired one is forgotten |
| Idempotency.MemoryIdempotencyStore.Acquire | src/security/idempotency.ts:33-39 | a live entry is handed out unchanged, otherwise the key is claimed |
| Idempotency.Handle | src/security/idempotency.ts:88-104 | the decision for a request and the store it leaves |
| Idempotency.PassesExactly | src/security/idempotency.ts:88-104 | a request passes through exactly when it does not write or names no key; any other claims its key exactly when it proceeds, and otherwise leaves the store alone |
| Idempotency.RespondJson | src/security/idempotency.ts:107-112 | a reply below 500 is recorded, a server error gives the key back |
| Idempotency.EveryRunGood | src/security/idempotency.ts:82-115 | the invariant tying the store to the history of every key, over every timely interleaving |
| Idempotency.OneHandlerPerKey | src/security/idempotency.ts:94-103 | at most one handler runs per key |
| Idempotency.OneCompletionPerWindow | src/security/idempotency.ts:107-110 | two replies below 500 on one key are at least the time to live apart |
| Idempotency.DecidedByHistory | src/security/idempotency.ts:94-104 | what a request is told depends only on its key's history: in progress or conflict while a handler runs, replay of exactly the last live reply to the same request, conflict for any other, and else it runs |
| Idempotency.ServerErrorReleases | src/security/idempotency.ts:108-110 | after a server error the key is free for any request |
| Idempotency.LogExactly | src/security/idempotency.ts:107-110 | a key's history is exactly the replies below 500 given on it, read off the run's actions |
| Idempotency.RepeatedRequest | src/security/idempotency.ts:88-113 | a request repeated within the time to live after its reply gets the same reply, another one on the key conflicts, and after a server error either runs |
| Idempotency.RunningRequest | src/security/idempotency.ts:95-103 | while a handler runs, the repetition of its request is told to wait and another request on the key conflicts |
| AccessPolicy.FindReader | src/sharing/policy.ts:67 | the first current reader with the DID, and none only when there is none |
| AccessPolicy.FindReaderExactly | src/sharing/policy.ts:67 | the reader found is the entry of the lower-cased DID whose period contains the moment: from its start, and before its end unless it has none |
| AccessPolicy.RightsExactly | src/sharing/policy.ts:65-70 | whoever is not the owner is granted a bit exactly when it is public or an entry in force for the DID has it, and may discover the Twin exactly when the policy is public or such an entry exists |
| AccessPolicy.ExpiredIsPublic | src/sharing/policy.ts:67-70 | outside the period of its entry a reader has the public scopes and nothing more |
| AccessPolicy.MeasurementExactly | src/sharing/policy.ts:72-78 | a measurement is allowed exactly to the owner, to everybody when its scope is public, and else to the DID of an entry in force that opens it at that moment |
| AccessPolicy.ReaderAcceptedExactly | src/sharing/policy.ts:26-44 | normalization accepts exactly the entries that make sense: known scopes, export only with history, admin only with everything, a moment left to be used in, a past to show, and at most 64 different plain names, some whenever measurements are granted by name |
| AccessPolicy.PolicyAcceptedExactly | src/sharing/policy.ts:45-54 | a policy is accepted exactly when at most 100 entries make sense, no two have one DID, its public scopes are those everybody may have and its mode fits its entries |
| AccessPolicy.RequestableExactly | src/sharing/datasets.ts:171-179 | a request is for at most 31 days of the past, and for all measurements or 1 to 64 different plain names |
| AccessPolicy.ExportMeansHistory | src/sharing/policy.ts:26-77 | under a normalized policy whoever may export a measurement of some moment may read it as history |
| AccessPolicy.AcceptedIsAuthorized | src/sharing/datasets.ts:48-50 | the two checks on a request pass if and only if every selected measurement of every moment of the interval is authorized |
| AccessPolicy.SameReader | src/sharing/policy.ts:65-69 | two readings of one normalized policy that both grant history or export find the same reader |
| AccessPolicy.AcceptedStaysAuthorized | src/sharing/datasets.ts:140-141 | what create accepted is authorized when the preparation reads the same policy again at another time |
| PayloadFilter.FilterPayload | src/sharing/policy.ts:83-122 | the program's copying loops compute `Filtered`, errors included |
| PayloadFilter.CopyMeasurements | src/sharing/policy.ts:98-105 | the measurement loop keeps exactly what `Measured` keeps |
| PayloadFilter.CopyPlaces | src/sharing/policy.ts:112-119 | the location loop rebuilds the three places |
| FilterLaws.RebuiltAgain | src/sharing/policy.ts:90-121 | rebuilding twice keeps the intersection of both selections and changes nothing else |
| FilterLaws.Idempotent | src/sharing/policy.ts:83-122 | filtering a filtered payload under the same rights changes nothing |
| FilterLaws.TwoPassesAreOne | src/sharing/datasets.ts:109-114 | for non-legacy rights the two passes of an export equal one filter over authorized and selected keys, errors included |
| FilterLaws.BaseFieldsExactly | src/sharing/policy.ts:91-93 | a base field leaves the filter exactly when it is a string or a number, and unchanged |
| FilterLaws.PlaceFieldsExactly | src/sharing/policy.ts:112-120 | a place leaves the filter exactly when location is granted and it is an object, and then cleaned |
| FilterLaws.FlatExactly | src/sharing/policy.ts:108-110 | a flat value leaves the filter exactly when it came in, is a known scalar name and is allowed |
| FilterLaws.NothingElseLeaves | src/sharing/policy.ts:82-121 | no other key of the payload leaves the filter, and no measurement that is not allowed |
| FilterParts.RefusedExactly | src/sharing/policy.ts:83-89 | each refusal of the filter exactly under its reason: scope, encryption mark, form of the payload, moment; and everything else is answered |
| FilterParts.OpenExactly | src/sharing/policy.ts:97-101 | a key may be a measurement's exactly when it is plain, inherited by no object, and in no letter case the name of a place or movement |
| FilterParts.CellExactly | src/sharing/policy.ts:102-104 | a measurement leaves as itself when it is simple, or as an object that keeps its value, unit, the first 128 characters of its label, and a plain semantic key |
| FilterParts.PlaceExactly | src/sharing/policy.ts:114-118 | a place keeps exactly its finite numbers of known name, and the point it is when its two or three coordinates are finite |
| FilterParts.SimulationExactly | src/sharing/policy.ts:94 | of the simulation only whether it is synthetic leaves, and only when a Boolean says so |
| FilterParts.PayloadExactly | src/sharing/policy.ts:90-121 | a field of the output is there, with exactly this value, if and only if it is one of the five heads that came in as a string or number, the simulation mark, the measurements, or without these an allowed one of the thirteen flat levels, or when location is granted a place |
| FilterLaws.MeasuredExactly | src/sharing/policy.ts:100-105 | a measurement leaves the filter exactly when it came in, is open and allowed, and has a value that survives |
| FilterLaws.NeverOutsideExactly | src/sharing/policy.ts:89 | non-legacy rights pass the interval check if and only if no sample of the selection is refused for its time, in either filter pass |
| FilterLaws.AcceptedNeverOutside | src/sharing/datasets.ts:129 | no sample of an accepted selection is refused for its time, by the access that accepted it or by a later reading of the same policy |
| FilterLaws.AcceptedExportsSelection | src/sharing/datasets.ts:105-114 | each sample of an accepted selection leaves with exactly its selected measurements: while the policy stays the same, reading it again takes none away and refuses no sample for its time |
| FilterLaws.MovedPolicyExactly | src/sharing/datasets.ts:140-141 | when the preparation reads another policy than create did, no accepted selection meets a refusal for time exactly when the second still opens all of the past the first one opened |
| FilterLaws.NarrowedGrantRefuses | src/sharing/datasets.ts:140-141 | a concrete accepted selection that is refused at a sample after the grant was narrowed |
| SharingUpdate.PolicyFile.Distinct | src/sharing/service.ts:117 | equal DIDs are kept once, in order of first occurrence |
| SharingUpdate.DedupKeepsOrder | src/sharing/service.ts:117 | distinct DIDs stay in the order in which they first occur |
| SharingUpdate.PolicyFile.Update | src/sharing/service.ts:111-138 | one uninterrupted update: refused without a write, left closed by a failed mutation, or opened with the checked policy |
| SharingUpdate.CheckedExactly | src/sharing/service.ts:114-128 | a request is accepted exactly when it is acceptable field by field; the policy it ends with has its mode, its owner, its own revision and exactly the named DIDs |
| SharingUpdate.RefusedForFirst | src/sharing/service.ts:112-121 | a refused request is refused for the first requirement it violates, in the order of the checks |
| SharingUpdate.RefusedForStorage | src/sharing/service.ts:122-128 | a request that violates none of those is refused exactly for the storage readers it names or keeps, each error under its condition |
| SharingUpdate.UpdateCompletes | src/sharing/service.ts:108-141 | nothing interrupting it, an acceptable request ends in the policy it asks for |
| SharingUpdate.UpdateStops | src/sharing/service.ts:110-141 | a refused or failing update makes way for the next one, a crash for none, and none of them touches the file |
| SharingUpdate.WrittenIsReadable | src/sharing/service.ts:41-44 | everything an update writes passes the check made when the file is read back |
| SharingUpdate.ScopesAreExact | src/sharing/service.ts:154-163 | for a readable policy a scope is granted exactly when the DID may discover the Twin and its rights hold the scope's bit |
| SharingUpdate.BitsAgree | src/sharing/service.ts:150 | the bits of the scopes are those of the on-chain policies |
| SharingUpdate.UpdateGrantsExactly | src/sharing/service.ts:112-163 | what a successful update grants, for every requester, DID and scope: nothing unless restricted on both sides; realtime to exactly the named DIDs, the owner and the steward; storage and export to exactly the owner and the named DIDs that were asked for or keep it from the same owner's policy; location and evidence to the owner alone |
| SharingUpdate.ClosedWhileUpdating | src/sharing/service.ts:130-136 | once an update has written the closed policy every restricted read is denied to everyone, through the rest of the update, its failure or crash and whatever follows, until an update succeeds |
| SharingUpdate.StaysClosed | src/sharing/service.ts:130-136 | once closed, the Twin stays closed until a later update succeeds |
| SharingUpdate.OneSuccessPerBase | src/sharing/service.ts:110-121 | no two successful updates started from the same base revision |
| SharingUpdate.AlwaysReadable | src/sharing/service.ts:41-44 | whatever a run leaves in the file can be read back |
| SharedDatasets.DatasetTable.Prune | src/sharing/datasets.ts:29 | exactly the expired jobs go |
| SharedDatasets.DatasetTable.Create | src/sharing/datasets.ts:51-56 | busy exactly at one of the three limits, otherwise one more job and one more running call |
| SharedDatasets.DatasetTable.FinishPreparation | src/sharing/datasets.ts:162-167 | the archive is exposed exactly to a live job of the same revision within the memory limit, else the job is failed |
| SharedDatasets.DatasetTable.Download | src/sharing/datasets.ts:68-83 | which archive or error a download gives and which jobs it leaves |
| DatasetRuns.LiveExactly | src/sharing/datasets.ts:29 | the jobs kept are exactly those whose end lies ahead |
| DatasetRuns.CreateExactly | src/sharing/datasets.ts:51-56 | a request is busy exactly when two calls run, 32 jobs live or four of them are the DID's; a job lives ten minutes, or as long as the session if that ends before |
| DatasetRuns.ExposeExactly | src/sharing/datasets.ts:160-168 | an archive is exposed exactly when the session still reads the policy at the job's revision, the job is there and not expired, and the archive fits; exactly that job changes |
| DatasetRuns.DownloadExactly | src/sharing/datasets.ts:68-83 | a download hands out the archive of exactly the live, prepared job of that Twin, DID, token and current revision, and tells a missing, a revoked and an unfinished job apart |
| DatasetRuns.ResidentSums | src/sharing/datasets.ts:164-165 | the resident bytes are the sum of the prepared archives |
| DatasetRuns.EveryRunCapacity | src/sharing/datasets.ts:44-67 | the capacity invariant over every interleaving |
| DatasetRuns.CapacityHolds | src/sharing/datasets.ts:52-65 | the counter equals the preparations and queries under way and is at most 2; at most 32 jobs, 4 per DID, 64 MiB of archives |
| DatasetRuns.EveryRunFiltered | src/sharing/datasets.ts:139-168 | the invariant tying each archive to the revision under which it was filtered |
| DatasetRuns.HandedUnderCurrentPolicy | src/sharing/datasets.ts:68-83 | whatever is downloaded or returned was filtered for that Twin and DID under the recorded revision |
| DatasetRuns.HandedRevisionIsCurrent | src/sharing/datasets.ts:70-74 | the recorded revision is the one current in the step that hands out |
| DatasetRuns.ExportCompletes | src/sharing/datasets.ts:44-83 | in every reachable state with room, an export that nothing disturbs hands out its archive, filtered under the revision in force |
| DatasetRuns.QueryCompletes | src/sharing/datasets.ts:124-138 | a historical query that nothing disturbs hands out what it collected and frees its place |
| DatasetRuns.PreparationsEnd | src/sharing/datasets.ts:58-65 | a preparation that fails, is denied a policy read or prepares too much gives its job up and changes no other; however it ends, its place is free again |
| DatasetRuns.QueriesEnd | src/sharing/datasets.ts:132-138 | a query that fails hands out nothing, and however it ends its place is free again |
| DatasetRuns.RequestsPrune | src/sharing/datasets.ts:51-76 | a request that reads the policy clears the expired jobs away, a download also the job it finds revoked, and no other job goes |
| DatasetRuns.StaleJobIsClosed | src/sharing/datasets.ts:68-76 | once its time is over or the policy has changed, a job of any reachable table hands out nothing any more |
| Retention.WorkSpec | src/storage/retention.ts:86-89 | what is tried is a prefix that falls short only at the cap, so eligible is done plus failed plus cap-skipped |
| Retention.TriedExactly | src/storage/retention.ts:86-89 | an item is tried exactly when fewer than the cap of those before it succeed |
| Retention.DeleteExpired | src/storage/retention.ts:74-92 | the deletion loop's attempts and counters |
| Retention.ExpiredOldestFirst | src/storage/retention.ts:79-86 | the eligible objects are exactly those, neither plants nor unscoped, whose owner is known and keeps objects for a number of days that has passed, oldest first |
| Retention.UnresolvedCounts | src/storage/retention.ts:80-83 | skipped as unresolved are exactly the managed objects whose Twin has no known owner |
| Retention.AttemptsArePrefix | src/storage/retention.ts:86-89 | attempts are a prefix of the eligible objects, short only at the cap |
| Retention.RunShrinks | src/storage/retention.ts:79-89 | a run without failures deletes as many expired objects as the cap allows and nothing else |
| Retention.RunsNeeded | src/storage/retention.ts:87 | at a fixed clock and without failures exactly ceil(E/cap) runs clear E expired objects |
| StatePruning.FirstByKey | src/storage/retention.ts:130-134 | the loop remembers the first state of each key |
| StatePruning.PruneTwin | src/storage/retention.ts:120-160 | one Twin's part of the run under the shared cap |
| StatePruning.PruneOnChainStates | src/storage/retention.ts:98-163 | the run's attempts and report over all Twins |
| StatePruning.ReceiptExactly | src/storage/retention.ts:186-199 | a state can be receipted exactly when its hash names 64 digits and its publication stored no hash, or a prefixed one of the same digits |
| StatePruning.PublicationExactly | src/storage/retention.ts:135-142 | a state's publication is the last event that publishes it |
| StatePruning.UnanchoredCounts | src/storage/retention.ts:139-147 | counted as unanchored are exactly the superseded states, published long enough ago, of which no receipt can be made |
| StatePruning.ScannedCounts | src/storage/retention.ts:120-128 | scanned are the Twins whose snapshot can be read |
| StatePruning.AllUnanchoredSums | src/storage/retention.ts:143-146 | the unanchored states of the readable snapshots are added up, Twin by Twin |
| StatePruning.PrunableOldestFirst | src/storage/retention.ts:182-184 | each Twin's prunable states are tried in the order in which they were observed |
| StatePruning.NewestKeptExactly | src/storage/retention.ts:130-141 | every stream keeps its newest state exactly when no two streams of the snapshot share a key |
| StatePruning.PlainAspectsAreFaithful | src/storage/retention.ts:132 | aspect codes without a NUL character never make two streams share a key |
| StatePruning.NewestPrunedExactly | src/storage/retention.ts:130-156 | a run asks to prune the newest state of a stream exactly when it reaches, before its cap, one that a newer state of another stream with the same key overshadows and that is old enough and receiptable |
| StatePruning.NewestSafeExactly | src/storage/retention.ts:130-156 | whatever the cap, no newest state is ever asked to be pruned exactly when no snapshot holds such a state |
| StatePruning.NulInAspectPrunesNewest | src/storage/retention.ts:132 | a concrete snapshot with a NUL in an aspect code for which every run with a cap asks to prune the newest state of a stream |
| StatePruning.PrunesAreSafe | src/storage/retention.ts:139-160 | whatever is pruned is old enough, receiptable and not the newest of its stream |
| StatePruning.PruneBudget | src/storage/retention.ts:148-156 | over all Twins at most the cap succeeds, and an eligible state is left alone only once that many did |
| DatasetWindows.DatasetWindowAggregator.Ingest | src/twin/datasetAggregator.ts:32-49 | the new map of open windows |
| DatasetWindows.DatasetWindowAggregator.Take | src/twin/datasetAggregator.ts:51-55 | the window leaves the map, once |
| DatasetWindows.DatasetWindowAggregator.Close | src/twin/datasetAggregator.ts:88 | every open window is taken once |
| DatasetWindows.SamplesConserved | src/twin/datasetAggregator.ts:32-89 | under any mix of flushes the taken windows of a key followed by its open one are exactly its samples, in order |
| DatasetWindows.NothingLost | src/twin/datasetAggregator.ts:68-85 | when stores succeed every taken window is being stored or is stored |
| DatasetWindows.EachSampleStoredOnce | src/twin/datasetAggregator.ts:51-88 | after a close whose stores have all succeeded each ingested sample is in exactly one stored window |
| DatasetWindows.HistoryExactly | src/twin/datasetAggregator.ts:32-49 | the samples counted as given to a key are those of the run's ingestions, in order |
| DatasetWindows.FlushTakesExactly | src/twin/datasetAggregator.ts:51-55 | a flush takes the open window of its key, with the bounds of its first and last sample, and touches no other key |
| DatasetWindows.FlushCompletes | src/twin/datasetAggregator.ts:51-89 | every run can be carried on until nothing of a key is open or being stored |
| DatasetWindows.OrderedWindowsCover | src/twin/datasetAggregator.ts:36-45 | with samples in time order every flushed window's bounds cover its samples |
| EvidenceSnapshot.CreateSnapshot | src/evidence/service.ts:31-63 | the selected windows are a sorted permutation of the overlapping ones with exact outer bounds, or one of the two errors under its exact condition |
| EvidenceSnapshot.OverlapsExactly | src/evidence/service.ts:39-43 | a window is selected exactly when some moment of its period lies in the selection |
| EvidenceSnapshot.PeriodExactly | src/evidence/service.ts:37-40 | a stored object is read with its usable bounds; without a usable start it counts from when it was stored, or from now, and without a usable end it ends where it starts |
| EvidenceSnapshot.BytesSum | src/evidence/service.ts:47-52 | the size of a selection is that of the windows in it |
| EvidenceSnapshot.MissedExactly | src/evidence/service.ts:39-43 | no selection misses a sample of a stored object exactly when the period it is read with covers all its samples |
| EvidenceSnapshot.BareMissedExactly | src/evidence/service.ts:37-40 | a window stored as a bare array is found by its creation time alone: no selection misses a sample exactly when all were observed at that time |
| EvidenceSnapshot.OutOfOrderIsMissed | src/twin/datasetAggregator.ts:36-45 | a concrete run and selection that miss a sample |
| EvidenceSnapshot.SnapshotHasEverySample | src/evidence/service.ts:39-54 | with samples in time order a snapshot contains every retained sample inside the selection |
| EvidenceSnapshot.EveryRunPoolOk | src/evidence/service.ts:279-291 | the invariant of the worker pool over every interleaving |
| EvidenceSnapshot.EachIndexOnce | src/evidence/service.ts:279-291 | no index is written twice, and in the end each was written once with its own item's result |
| EvidenceSnapshot.PoolFinishes | src/evidence/service.ts:279-291 | with a worker at all, every run of the pool can be carried on until all workers have returned |
| Signals.ParsePointer | src/devices/schema.ts:24 | parsing an escaped pointer gives back the path |
| Signals.SourceRoundTrip | src/devices/schema.ts:24 | a source leads back to its path exactly when the path is not empty |
| Signals.Discovery.Visit | src/devices/schema.ts:12-20 | the recursive search finds the first leaves in document order, however early it stops |
| Signals.DiscoverSignals | src/devices/schema.ts:10-29 | at most 100 rows, the first in document order |
| Signals.DiscoveredExactly | src/devices/schema.ts:10-29 | the search finds exactly the scalars that stand for themselves or are the "value" of an object, at most eight levels down and not behind a forbidden key, with name and unit; only beyond a hundred does it keep a part |
| Signals.DiscoveredInOrder | src/devices/schema.ts:12-20 | the rows are in document order |
| Signals.SourcesDiffer | src/devices/schema.ts:10-29 | all rows of a payload have different sources |
| Signals.NoRowLost | src/devices/schema.ts:32 | looking a row up by its source finds that row |
| Signals.LookupReadsPointed | src/devices/schema.ts:45-55 | in whatever payload a source is looked up, the row found holds the value the source points at |
| Signals.AtComposes | src/devices/schema.ts:24 | reading along a path composes: nothing is read behind a key that is not there |
| Signals.ClassifySignals | src/devices/schema.ts:30-43 | accepts exactly 1 to 100 good choices with distinct keys: a row of the payload, a plain key, a name with something in it and a short unit |
| Signals.ChosenExactly | src/devices/schema.ts:41 | the signal a good choice becomes has the row's source and type and the name without the blanks around it |
| Signals.MeasurementsExactly | src/devices/schema.ts:52-58 | of a later payload, in the order of the signals, each contributes the value of the row with its source if that still has the same type, and otherwise nothing |
| Signals.ReadsBackAll | src/devices/schema.ts:44-59 | read back from the payload they were chosen in, all signals are there with the values their rows had |

## Left out

- Crashes that lose a completed rename: the catalog is durable once renamed, as its directory sync intends; a policy file, whose directory is not synced, is taken to be.
- SharingUpdate: a change listener that throws after the rename; challenges, sessions and the on-chain policy branch.
- Cryptography: digests, signatures, key derivation and canonical JSON are ideal; `StripAlgorithm` and the textual digest checks are modelled.
- White space that is trimmed or makes a name blank is the ASCII white space.
- Collation: `localeCompare` is an arbitrary ranking of strings, told apart only where a theorem says so.
- Package prefixes of Move types: a child's type string is modelled by its kind, a foreign or unknown type by `Unknown`.
- TwinDeletion.Publisher.CleanupTwin: the authorization checks and the snapshot's own failures are left out of the call (`TwinDeletion.Snapshot` covers the latter), and the legacy contract is reduced to one accepted or refused submission.
- TwinDeletion.Publisher.DeleteEvents, TwinDeletion.Publisher.DeleteRoot: the caller that repeats a call as its retry error asks for is the model's; nothing else changes the Twin between its calls.
- ThreadWalk.VerifyDigitalThread: a walk in which a read fails ends with that error; an external event indexer, the Redis cache and other callers that refresh the same entry between two pages.
- PlantBindings: a personal document's tenant field is implied by its scope, display names and publication flags of a membership are not modelled, and Twin ids that differ only in letter case count as different, as they do in the code.
- PlantMembership: the supervisor pins are fixed, no pin looks like a personal scope, and each write is one step, which is what `PlantCatalog` proves of the lock; the scopes of devices and connections are not pinned.
- PlantEffects.MigratedIsFound: a migration asked for without applying it answers the same plan and writes nothing, so only applied ones are runs; names and types of nodes are not modelled.
- Devices: ingestion, export, the legacy credentials and the sample throttle; a device record keeps its life, its marks, its token and whether it is configured.
- PlantCatalog, Devices, PlantMembership, IngestionRuns, Idempotency, SharingUpdate, DatasetRuns: the interleavings are state machines over values; the classes beside them cover the same code between two awaits, without aliasing between requests.
- IngestionRuns.EveryRunAppliesOnce: a submission's effect is settled when its reply or error arrives; a transaction that lands after a truthful lookup said no is outside the assumption.
- IngestionQueue: metrics, the polling timer, `drain` and `stop`; the jitter's fifth is computed on integers.
- Idempotency.EveryRunGood: handlers reply once and within the time to live; a handler that never replies holds its key until it expires.
- Idempotency: the Redis store.
- AccessPolicy: parsing of raw policies; a policy is modelled after its fields have been read as numbers and strings, and its revision as given.
- PayloadFilter: keys that objects inherit are absent, and inputs are parsed JSON, so the only non-finite numbers are infinities.
- SharingUpdate.OneSuccessPerBase: updates are queued per process; two processes sharing the directory are not serialized by the code and not covered.
- SharedDatasets.DatasetTable.Create: the parsing of selections, the reading and size limits of sources, the archive's manifest and its signature.
- DatasetRuns: a policy read and the code after it up to the next await are one step.
- Retention: the policy resolver, the scheduling timer and the reading of owners; each Twin's owner is resolved once per run.
- StatePruning.NewestKeptExactly: object ids are kept in lower case and are told apart by the collation.
- EvidenceSnapshot.SnapshotHasEverySample: is about windows stored with their bounds; those stored as bare arrays are what `EvidenceSnapshot.BareMissedExactly` describes.
- EvidenceSnapshot: bundles, validation, the stored document and its registration on chain; a mapper that throws is not modelled.
- Signals: suggested keys and names of a row, the position block, simulation context and semantic keys.
- HTTP routing, MQTT, OPC-UA and REST connectors, login and token checks, command status, simulator and console code: plumbing or single-branch facts.
