# Kanbrick, modelled and proved in Dafny

Kanbrick runs a firm's WebAssembly guests over a graph of its people and companies. This
project models the parts of it that are hardest to get right and proves, for every input,
every run or every interleaving, what those parts are for. `dafny verify dfyconfig.toml`
checks all of it.

The model has six groups.

* **Guest registry** (`RegistryProtocol`, `RegistryExecutor`, `RegistryHistory`,
  `RegistryRace`): a control plane activates guests and an executor polls for them. Writing a policy, reading and
  setting the generation, answering a poll and loading each guest are separate steps that
  interleave freely.
* **Running guests** (`Semaphore`, `Scheduler`, `SchedulerHistory`, `SchedulerProgress`,
  `SchedulerTiming`, `Admission`): the condition variable semaphore, the task scheduler with retries and
  waiters, its backoff and deadline arithmetic, and the two-permit admission gate, each over every interleaving of its threads
  or calls. A guest call ends in success, failure or timeout.
* **Organisation chart** (`OrgChart`, `OrgSearch`, `OrgManagers`, `OrgSpan`, `OrgPaths`): the
  breadth-first searches, the manager chain, the lowest common manager and the span of
  control, over any manager function, cyclic or not.
* **Grants and loops** (`Firm`, `Grants`, `GrantHistory`, `GrantOutcomes`, `Capabilities`,
  `LoopEngine`, `LoopFloor`, `LoopRuns`, `LoopRefinement`): requests and scopes over every history of calls, invocation
  capabilities, and loop runs interleaved with grant calls.
* **Text** (`Text`, `Delimited`, `SkillMd`, `SkillDocuments`, `SkillVariants`,
  `ReadOnlyQueries`, `ReadOnlyCases`): the `SKILL.md` format and the
  scanner that admits read-only graph queries.
* **Discovery cache** (`ResultCache`, `ScopeKeys`): the shared answer cache over every
  interleaving of lookups, graph changes and invalidations, and the keys it is addressed by.

State that the code updates in place is a class or a loop, proved against a function of the
old state. Concurrency is a state machine whose runs are the interleavings.

## Where the code falls short of its description

* Bumping the registry generation reads it and sets it in two store calls. A read is timely
  if no bump that read before the last set is still to set; a lock around each bump makes
  every read timely. With timely reads no activation is lost from any state whose executor is
  behind, or level and up to date (`RegistryProtocol.SafeExactlyWhenNotAhead`). A single read that is not timely is
  enough to lose one: from every such state, and for every guest, there is a run with exactly
  one, and no failed load, after which the executor agrees with the control plane and does
  not run the activated guest (`RegistryRace.LateReadLosesActivation`).
* The span of control of a person on a management cycle is never computed: the loop does not
  end (`OrgSpan.SpanEndsExactlyOffCycles`).
* The common manager can depend on the order of the two people
  (`OrgManagers.CommonManagerAsymmetricOnCycle`). `OrgManagers.SymmetricExactly` says exactly
  when it does: they have common managers, all of them on cycles, and their climbs first meet
  a cycle at different people.
* Printing a manifest and parsing it again does not always give it back, as its comment
  claims; `SkillMd.RoundTrip` says exactly when it does.
* An answer computed before a graph change can be stored after the change has been
  invalidated, and is then served as current; `ResultCache.FreshExactlyUnlessOvertaken` says
  exactly when.
* Two scopes with one key can see different nodes when a project name holds a colon, an
  identifier a comma or an opening bracket, or the one granted identifier is empty
  (`ScopeKeys.ColonCollides` and its neighbours, each saying exactly when its two scopes
  differ). Without these, keys are faithful (`ScopeKeys.KeysAreFaithful`). That condition is
  one-way: a scope that breaks it may still have a key of its own.

## Model

| member | source | states |
|---|---|---|
| `RegistryProtocol.NoActivationIsLost` | kanbrick-api/src/executor.rs:335-382 | In every run whose bumps do not lower the generation, an idle executor level with a control plane that has no unfinished activation has loaded exactly the current policy of every registry guest whose last load succeeded. |
| `RegistryProtocol.PoliciesNeverRollBack` | kanbrick-api/src/executor.rs:390-431 | In every run, whatever the bumps do, no guest on the executor moves back to an older policy or is unloaded. |
| `RegistryProtocol.TimelyBumpsNeverLower` | kanbrick-store/src/registry_meta.rs:37-52 | From any state whose unfinished bumps are level, such as one without any, no bump lowers the generation while every read is timely. |
| `RegistryProtocol.SerialIsTimely` | kanbrick-api/src/lib.rs:808-824 | Bumps that do not overlap read in time. |
| `RegistryProtocol.OneOverlapIsTimely` | kanbrick-store/src/registry_meta.rs:37-52 | A run in which a single read overlaps another bump still has only timely reads, so it loses nothing. |
| `RegistryProtocol.SafeExactlyWhenNotAhead` | kanbrick-api/src/internal.rs:187-199 | For runs with timely reads from a quiescent state, no activation can be lost if and only if the executor is behind the control plane, or level with it and up to date; and the same for runs whose bumps do not overlap. |
| `RegistryProtocol.TimelyRunsLoseNothing` | kanbrick-api/src/executor.rs:335-382 | In every run from boot with timely reads, an idle executor level with a finished control plane runs the current policy of every guest it loaded. |
| `RegistryProtocol.AheadLosesActivation` | kanbrick-api/src/executor.rs:350-382 | From every quiescent state with the executor ahead, and for every guest, a run without overlapping bumps ends level with that guest's current policy neither applied nor loaded. |
| `RegistryHistory.RunsLastActivation` | kanbrick-api/src/executor.rs:335-382 | In every timely run from boot, when the executor is level with a finished control plane, a guest its last replay loaded runs with the asset and version of the last activation of that guest in the run. |
| `RegistryHistory.PollDecides` | kanbrick-api/src/executor.rs:350-382 | A poll that fails or is told no newer generation leaves everything as it was, and any other does not. |
| `RegistryRace.LateReadLosesActivation` | kanbrick-store/src/registry_meta.rs:26-52 | From every other quiescent state, and for every guest, a run with exactly one untimely read and no failed load ends level with that guest's current policy neither applied nor loaded. |
| `RegistryExecutor.ExecutorPod.ApplyRegistry` | kanbrick-api/src/executor.rs:390-431 | The loop over the listed guests leaves the mesh as the replay of the list. |
| `RegistryExecutor.ExecutorPod.ReconcileOnce` | kanbrick-api/src/executor.rs:350-382 | A poll that fails or brings no newer generation changes nothing; otherwise the mesh is replayed and the generation becomes the one read. |
| `RegistryExecutor.ReplaySpec` | kanbrick-api/src/executor.rs:390-431 | Each listed guest ends on its policy if it is a registry guest that loaded, and every other guest keeps what it had. |
| `RegistryExecutor.PollIsReconcile` | kanbrick-api/src/executor.rs:335-382 | An uninterrupted poll of the pod is the protocol's run of asking, receiving, loading each guest and storing the generation, with the same result. |
| `RegistryExecutor.PollCatchesUp` | kanbrick-api/src/executor.rs:335-382 | From every quiescent state with the executor behind, an uninterrupted poll with successful loads makes it level, up to date and running every registry policy, and from there no timely run loses an activation. |
| `Semaphore.NoLostWakeup` | kanbrick-mesh/src/scheduler.rs:159-185 | In every interleaving, with spurious wakeups and barging, free permits and holders add up to the capacity, and while anyone sleeps there are no more free permits than woken threads. |
| `Semaphore.SleeperIsNotStranded` | kanbrick-mesh/src/scheduler.rs:159-185 | With a free permit some woken thread takes it when it runs; without one there is a holder to release it. |
| `Semaphore.SleeperCanAcquire` | kanbrick-mesh/src/scheduler.rs:159-185 | From every reachable state there is a run, without spurious wakeups, that gives a chosen sleeper a permit. |
| `Scheduler.ConcurrencyLimit` | kanbrick-mesh/src/scheduler.rs:282-330 | In every interleaving at most as many of one guest's tasks are running as the limit asked for, or one for a limit of zero, those sleeping between attempts included. |
| `SchedulerHistory.LimitIsReached` | kanbrick-mesh/src/scheduler.rs:232-240 | For every limit and guest there is a run in which exactly that many of its tasks are running. |
| `Scheduler.StatusesNeverMoveBack` | kanbrick-mesh/src/scheduler.rs:196-213 | A status never moves back, a terminal status never changes, and between a moment a task is queued and one it is terminal there is one it is running. |
| `Scheduler.AttemptsAreExact` | kanbrick-mesh/src/scheduler.rs:282-330 | A task ends failed or timed out after exactly one attempt more than its retries, and completed after at least one and at most that many. |
| `SchedulerHistory.AttemptsAreCounted` | kanbrick-mesh/src/scheduler.rs:282-330 | A task that failed or timed out was asked for by one step of the run, and the run holds exactly one call of its guest more than the retries that step gave; a completed one has at least one call and at most that many. |
| `SchedulerHistory.StatusTellsLastCall` | kanbrick-mesh/src/scheduler.rs:304-323 | A terminal status is what the task's last call in the run came back with, response or reason included, and no call before it was answered. |
| `Scheduler.WaitReturnsFinalStatus` | kanbrick-mesh/src/scheduler.rs:421-444 | What waiting on a task returned is its terminal status from then on. |
| `SchedulerHistory.NothingMeansGaveUp` | kanbrick-mesh/src/scheduler.rs:421-444 | A wait returned nothing only because the task was unknown, or its time was over while the task had not ended. |
| `Scheduler.WaiterIsNotStranded` | kanbrick-mesh/src/scheduler.rs:421-444 | A waiter asleep on a finished task is still to be notified, and that wakes it. |
| `SchedulerProgress.EveryTaskCanFinish` | kanbrick-mesh/src/scheduler.rs:282-330 | From every state of every run, and for every task not yet terminal, there is a continuation without spurious wakeups or new tasks in which it becomes terminal. |
| `SchedulerTiming.BackoffIsExponential` | kanbrick-mesh/src/scheduler.rs:116-121 | The delay is base times factor to the power of the retry if and only if the power fits 32 bits and the product a duration, or the base is zero; it is never more than either. |
| `SchedulerTiming.BackoffStepByStep` | kanbrick-mesh/src/scheduler.rs:116-121 | The first delay is the base, and each next one the factor times the one before until something saturates. |
| `SchedulerTiming.ExactUntilSaturated` | kanbrick-mesh/src/scheduler.rs:116-121 | With a factor of at least one, a delay that is exact at one retry is exact at every retry before. |
| `SchedulerTiming.BackoffNeverShrinks` | kanbrick-mesh/src/scheduler.rs:116-121 | Delays never shrink over retries if and only if the factor is at least one or the base is zero. |
| `SchedulerTiming.DeadlineCoversBudget` | kanbrick-mesh/src/scheduler.rs:447-456 | The deadline is the least number of ticks, at least one, that covers the budget, or the largest 64-bit number where that is out of range; without a timeout it is no less than with any. |
| `SchedulerTiming.DeadlineFits` | kanbrick-mesh/src/runtime.rs:816-820 | The epoch plus the clamped deadline stays within 64 bits for every timeout if and only if the epoch is at most 2^63. |
| `SchedulerTiming.NeverInterruptedEarly` | kanbrick-mesh/src/scheduler.rs:246-253 | With increments at least a tick apart, the tick being the configured one or a millisecond if that is more, a task is never interrupted before its budget less one tick, and its deadline is the least number of ticks that covers the budget. |
| `Admission.New` | kanbrick-api/src/admission.rs:61-75 | At least one call may run, and the queue is at least as deep as the concurrency. |
| `Admission.BoundsHold` | kanbrick-api/src/admission.rs:61-99 | In every interleaving of arrivals, cancellations and the two-stage release, held concurrency permits stay within the configured concurrency, queue permits within the greater of that and the configured depth, and the gauge and the rejection counter count their calls exactly. |
| `Admission.RejectedOnlyWhenFull` | kanbrick-api/src/admission.rs:61-99 | A call is turned away only when as many queue permits are held as the greatest of one, the concurrency and the queue depth. |
| `Admission.WaitsOnlyWhenSaturated` | kanbrick-api/src/admission.rs:61-99 | A call waits only while as many concurrency permits are held as configured, or one. |
| `Admission.AllPermitsReturn` | kanbrick-api/src/admission.rs:155-176 | Once every invocation has ended or was rejected, all permits are free and the gauge is zero. |
| `Admission.SomeoneCanAdvance` | kanbrick-api/src/admission.rs:155-176 | While any invocation is unfinished, some invocation can take its next step. |
| `Admission.EveryoneCanFinish` | kanbrick-api/src/admission.rs:155-176 | From every state of every run there is a continuation without arrivals or cancellations that ends with every call ended or rejected, all permits free and the gauge at zero. |
| `OrgChart.FromStore` | kanbrick-discovery/src/graph.rs:89-151 | The two link indexes built from the rows are inverse: a person is among the direct reports of another exactly when that other is their manager, each once. |
| `OrgSearch.ReportingPath` | kanbrick-discovery/src/org.rs:38-76 | The search ends with a walk of manager and report links no longer than any other, or with none exactly when the two are not connected; an unknown person is an error, a broken path is not. |
| `OrgSearch.ReconstructPath` | kanbrick-discovery/src/org.rs:195-216 | Walking the predecessors back gives the recorded walk and never finds a gap. |
| `OrgSearch.PathLengthIsSymmetric` | kanbrick-discovery/src/org.rs:38-76 | The path from one person to another and the path back exist together and have one length. |
| `OrgSearch.OrgNeighborhood` | kanbrick-discovery/src/org.rs:118-166 | The bounded search returns exactly the people within the depth, and exactly the report-to-manager pairs among them. |
| `OrgSearch.NeighborhoodAgreesWithPaths` | kanbrick-discovery/src/org.rs:118-166 | A person is in the neighbourhood exactly when the reporting path to them exists and is no longer than the depth. |
| `OrgPaths.ShortestIsMountain` | kanbrick-discovery/src/org.rs:38-76 | On every chart a shortest path climbs managers and then descends to reports, and never turns twice. |
| `OrgPaths.ShortestIsUnique` | kanbrick-discovery/src/org.rs:38-76 | On an acyclic chart two shortest paths between the same people are the same path. |
| `OrgPaths.ReversedPath` | kanbrick-discovery/src/org.rs:38-76 | On an acyclic chart the answer for the swapped people is the reversed path. |
| `OrgPaths.PathTurnsAtCommonManager` | kanbrick-discovery/src/org.rs:171-191 | On an acyclic chart, when neither person manages the other, the one peak of the reporting path is the answer of the common-manager query. |
| `OrgManagers.Ancestors` | kanbrick-discovery/src/graph.rs:218-229 | The climb ends on every chart, cyclic ones included, and lists exactly the people reached by one or more manager steps, each once, nearest first. |
| `OrgManagers.CommonManager` | kanbrick-discovery/src/org.rs:171-191 | The first of one person's managers who also manages the other, none exactly when the chains are disjoint, and an error for an unknown person. |
| `OrgManagers.FirstCommonIsLowest` | kanbrick-discovery/src/org.rs:171-191 | On every chart, every other common manager manages the one answered. |
| `OrgManagers.CommonManagerSymmetric` | kanbrick-discovery/src/org.rs:171-191 | On an acyclic chart the answer does not depend on the order of the two people. |
| `OrgManagers.SymmetricExactly` | kanbrick-discovery/src/org.rs:171-191 | On every chart, asking in either order gives one answer if and only if the two have no common manager, or one off every cycle, or their climbs first meet a cycle at the same person. |
| `OrgManagers.CommonManagerAsymmetricOnCycle` | kanbrick-discovery/src/org.rs:171-191 | A chart where the two orders give different answers. |
| `OrgSpan.SpanOfControl` | kanbrick-discovery/src/org.rs:83-114 | For a person not on a cycle the traversal without a visited set ends, counts exactly the people whose manager chain holds that person, and its depth is the longest chain below. |
| `OrgSpan.SpanEndsExactlyOffCycles` | kanbrick-discovery/src/org.rs:95-106 | The traversal of a known person empties its queue after some number of steps if and only if the person is not on a management cycle. |
| `Grants.IdListRoundTrip` | kanbrick-discovery/src/grants.rs:676-690 | A stored list of ids reads back as submitted if and only if no id holds the separator and the list is not one empty id. |
| `Grants.StoredListIsStable` | kanbrick-discovery/src/grants.rs:676-690 | Storing a list that was read stores the same text. |
| `Grants.ScopeGrants.EligibleGrantor` | kanbrick-discovery/src/grants.rs:302-315 | A grantor may decide exactly when their clearance is at least L4 and they manage the requester at some distance, or it is L5. |
| `Grants.ScopeGrants.SubmitRequest` | kanbrick-discovery/src/grants.rs:241-275 | The request is stored as requested by this person; each id list reads back as submitted if and only if it is clean; no other request changes. |
| `Grants.ScopeGrants.ApproveRequest` | kanbrick-discovery/src/grants.rs:320-389 | The new state of the two tables after an approval, and which error leaves them unchanged. |
| `Grants.ScopeGrants.DenyRequest` | kanbrick-discovery/src/grants.rs:393-427 | The new state of the two tables after a denial, and which error leaves them unchanged. |
| `GrantOutcomes.DenialIsFinal` | kanbrick-discovery/src/grants.rs:393-427 | In every history a denied request is denied at every later moment and no scope ever comes of it. |
| `GrantOutcomes.DecisionIsFinal` | kanbrick-discovery/src/grants.rs:326-343 | In every history, once a request has been approved or denied, every later decision on it, by whoever, is invalid input. |
| `GrantOutcomes.EligibleByLevel` | kanbrick-discovery/src/grants.rs:302-315 | At L5 anyone may decide, at L4 exactly the requester's managers at any distance, below nobody. |
| `GrantHistory.RevokeMeans` | kanbrick-discovery/src/grants.rs:492-531 | In a store any history can reach, a permitted revocation revokes the scope, expires its one request, changes no other row, and the gate on the scope refuses everyone. |
| `Grants.ScopeGrants.Sweep` | kanbrick-discovery/src/grants.rs:535-561 | The loop marks and counts exactly the active scopes past their time. |
| `Grants.ScopeGrants.AddSkill` | kanbrick-discovery/src/grants.rs:566-600 | On a known scope the new skill is the one found by its name exactly if none was before; every other search finds what it found; an unknown scope is an error. |
| `Grants.ScopeGrants.AuthorizeSkill` | kanbrick-discovery/src/grants.rs:620-658 | The gate passes if and only if the scope is active, unexpired and granted to the caller, and the first skill of that name on it is at or below their clearance; it returns that skill, and otherwise the error of the first check that fails. |
| `GrantHistory.RunKeepsLinked` | kanbrick-discovery/src/grants.rs:320-389 | After every history of calls each granted request agrees with its scope, an undecided or denied one has none, and every scope has exactly one request. |
| `GrantHistory.EveryScopeWasGranted` | kanbrick-discovery/src/grants.rs:302-389 | In every history a scope has exactly one request, submitted earlier with the same requester and project, its id lists as submitted if and only if they are clean, approved later by a grantor eligible then; the request is expired exactly when the scope is revoked. |
| `GrantHistory.NoScopeReturnsToActive` | kanbrick-discovery/src/grants.rs:492-561 | No scope becomes active again, and a revoked one stays revoked. |
| `GrantOutcomes.ScopeStatusExactly` | kanbrick-discovery/src/grants.rs:492-561 | In every history, at every moment after its approval, a scope is revoked if and only if its grantor or the top level has revoked it since, else expired if and only if a sweep has found it past its days, else active. |
| `GrantOutcomes.ActiveExactly` | kanbrick-discovery/src/grants.rs:444-463 | A scope is among the active ones of a person and project at a time if and only if it was requested by that person for that project and it is not revoked, swept or past its days. |
| `GrantOutcomes.GateLastsAsGranted` | kanbrick-discovery/src/grants.rs:620-640 | The gate calls a scope inactive if and only if it has been revoked or swept since its approval, or its days are over: not before, and without days never. |
| `GrantHistory.SweepIsInvisible` | kanbrick-discovery/src/grants.rs:444-463 | A sweep changes no answer about active scopes at a time if and only if that time is not before the sweep's. |
| `GrantHistory.GateStaysShut` | kanbrick-discovery/src/grants.rs:620-658 | Once a scope is revoked or swept, the gate on it refuses everyone after any further calls. |
| `GrantHistory.GateMeans` | kanbrick-discovery/src/grants.rs:620-658 | A passed gate means an active scope granted to this caller, whose expiry is open or readable and not past, and a skill of that scope at or below the caller's clearance. |
| `Capabilities.InvocationCaps.MintCap` | kanbrick-api/src/caps.rs:49-58 | The minted capability stands for its caller until it expires, and the sweep changes no later answer about another. |
| `Capabilities.InvocationCaps.RevokeCap` | kanbrick-api/src/caps.rs:71-73 | The capability never resolves again and no other changes. |
| `Capabilities.SweepIsInvisible` | kanbrick-api/src/caps.rs:49-73 | A sweep shows in no lookup at a time if and only if that time is not before the sweep's. |
| `LoopEngine.OutcomesAreABlock` | kanbrick-api/src/loops.rs:256-458 | At every moment of a run interleaved with grant calls the outcomes are completed steps, then at most one that is running or stopped the run, then pending ones. |
| `LoopEngine.FinalStatus` | kanbrick-api/src/loops.rs:256-458 | A finished run succeeded exactly when every step completed, and its payload is then the last output. |
| `LoopEngine.EffectsAreGated` | kanbrick-api/src/loops.rs:278-333 | Every tool call, guest schedule, provider call and completion follows a passed gate of its own step; a step has at most one effect and one completion, in the order of the steps; an effect is given the output of the step before. |
| `LoopEngine.EffectsWereAuthorized` | kanbrick-api/src/loops.rs:278-333 | Behind every effect and completion there is an earlier moment of the run at which the grants, as they were then, let the caller use that step's skill on its scope. |
| `LoopEngine.GateCameFirst` | kanbrick-api/src/loops.rs:278-333 | An effect or completion on a scope that is revoked or swept at some moment of the run passed its gate before that moment. |
| `LoopEngine.GateOnRevokedScopeDenies` | kanbrick-api/src/loops.rs:278-333 | Whatever grant calls come between, a gate on a scope no longer active denies its step and stops the run. |
| `LoopFloor.GuestFloorWasMet` | kanbrick-api/src/loops.rs:336-360 | In every run, behind every effect of a guest step there is an earlier look at that step's guest policy, and it has no floor or one of at most the caller's rank. |
| `LoopFloor.BelowFloorIsDenied` | kanbrick-api/src/loops.rs:343-355 | In every run, a caller below the floor is denied the step, and an unreadable policy fails it: the run goes nowhere but to its end, stopped, and no effect of the step is ever logged. |
| `LoopFloor.FloorByLevel` | kanbrick-api/src/loops.rs:344-344 | A floor admits the levels from it upwards and no other. |
| `LoopFloor.ProviderKeyWasFound` | kanbrick-api/src/loops.rs:416-432 | In every run, behind every effect of a provider step a key of the caller was found for it. |
| `LoopFloor.NoKeyFails` | kanbrick-api/src/loops.rs:416-432 | Without a key the step fails, the run stops and nothing of the step is ever logged. |
| `LoopFloor.BegunInTime` | kanbrick-api/src/loops.rs:275-290 | In every run, a step under way was begun before the deadline. |
| `LoopFloor.SpentBudgetStops` | kanbrick-api/src/loops.rs:275-290 | A step reached at the deadline or later fails, stops the run and has no effect. |
| `LoopEngine.CapsDieWithTheirStep` | kanbrick-api/src/loops.rs:278-333 | Once its step is over, a capability minted by the run resolves at no time. |
| `LoopEngine.CapsStandForTheCaller` | kanbrick-api/src/loops.rs:278-333 | While it resolves, it stands for the run's caller and belongs to the current step. |
| `LoopFloor.CapLastsItsTime` | kanbrick-api/src/caps.rs:49-68 | In every run, whatever others mint and revoke, a capability in use resolves if and only if the time it was minted for has not passed. |
| `LoopRuns.LoopRunRegistry.Insert` | kanbrick-api/src/loops.rs:178-189 | The run is stored, a retained id keeps its place, a new one takes the last and the oldest go over the limit, and no other retained run changes. |
| `LoopRuns.KeepsTheNewest` | kanbrick-api/src/loops.rs:178-189 | After any sequence of inserts, repeated ids included, the registry holds exactly the newest places, each id once; an insert takes a place unless its id is among them. |
| `LoopRuns.DistinctKeepsTheNewest` | kanbrick-api/src/loops.rs:178-189 | After inserting distinct ids it holds exactly the newest of them, in order. |
| `LoopRuns.LoopRunRegistry.SetStep` | kanbrick-api/src/loops.rs:200-207 | The first step at the position gets the outcome and nothing else changes. |
| `LoopRuns.WithOutcomeHits` | kanbrick-api/src/loops.rs:200-207 | With distinct positions the report reaches the step it is meant for and only that one. |
| `LoopRuns.ExecuteLoop` | kanbrick-api/src/loops.rs:256-458 | The loop stops at the first step whose gate or call does not succeed; its payload is the outputs piped up to there, and the registry shows exactly that for a retained run and nothing else. |
| `LoopRefinement.LoopIsEngineRun` | kanbrick-api/src/loops.rs:256-458 | From every start, and for every possible behaviour of the steps, the interleaved engine has a run in which nothing else happens and which ends as the loop does: the same stopping step, outcomes, status and payload. |
| `LoopRefinement.ShownIsView` | kanbrick-api/src/loops.rs:200-207 | The outcomes of that run are those the registry shows, position by position. |
| `SkillMd.ParseSkillMd` | kanbrick-loops/src/lib.rs:93-157 | The loops of the parser compute the specified parse, errors and line numbers included. |
| `SkillDocuments.ParseMeans` | kanbrick-loops/src/lib.rs:93-157 | Whatever the document, parsing gives a manifest if and only if the lines say exactly that: the first line that is not blank and a later one are fences, every line between is blank, a comment or has a colon, and the last value of each key, required ones non-empty, and the body are those of the manifest. |
| `SkillDocuments.ErrorsMean` | kanbrick-loops/src/lib.rs:93-157 | Every error is true of the document: no fence first, no second fence, the number and content of the first unreadable line, the first required key that is missing or empty, or a clearance that is no level. |
| `SkillDocuments.FieldMeans` | kanbrick-loops/src/lib.rs:113-128 | A line is skipped exactly if it is blank or a comment, unreadable exactly if it has no colon then, and otherwise the small-letter key and the value around its first colon. |
| `SkillDocuments.ClearanceMeans` | kanbrick-core/src/clearance.rs:75-84 | A text is a level if and only if, white space aside, it is an L in either case and that level's digit. |
| `SkillVariants.FinalLfDoesNotMatter` | kanbrick-loops/src/lib.rs:95-95 | Every non-empty text that ends in neither a line feed nor a carriage return parses as with a line feed appended. |
| `SkillVariants.BomDoesNotMatter` | kanbrick-loops/src/lib.rs:94-94 | A leading byte order mark does not change the parse. |
| `SkillVariants.SilentLineDoesNotMatter` | kanbrick-loops/src/lib.rs:113-117 | A blank line or comment put anywhere into the frontmatter of any document does not change the parse, unless another line is unreadable. |
| `SkillVariants.KeyCaseDoesNotMatter` | kanbrick-loops/src/lib.rs:124-127 | The case of the letters of any key in the frontmatter of any document does not change the parse. |
| `SkillVariants.QuotesDoNotMatter` | kanbrick-loops/src/lib.rs:169-177 | A value in one pair of matching quotes, with any white space around, is what is between them. |
| `SkillMd.RoundTrip` | kanbrick-loops/src/lib.rs:50-55 | Parsing a printed manifest gives it back if and only if name, version and guest are non-empty, they and the description are trimmed, on one line and not wrapped in quotes, and the body is trimmed with no carriage return before a line feed. |
| `SkillMd.QuotedNameIsLost` | kanbrick-loops/src/lib.rs:169-177 | A manifest that does not survive. |
| `SkillMd.ParsedIsOneLineEach` | kanbrick-loops/src/lib.rs:93-157 | No parsed manifest has a line feed in its name, version, guest or description. |
| `SkillMd.ClearanceRoundTrip` | kanbrick-core/src/clearance.rs:51-85 | Every clearance level reads back from its printed form. |
| `ReadOnlyQueries.EnsureReadOnly` | kanbrick-auth/src/readonly.rs:51-85 | The scanner accepts a statement if and only if it has no backslash, its quoted regions are closed, it has no comment outside them, its first word opens a read and no word is a write keyword; a refusal names a true reason. |
| `ReadOnlyQueries.StripOpaqueRegions` | kanbrick-auth/src/readonly.rs:98-117 | The blanked text is that of the statement's tokens; a refusal means that every tokenization, if any, holds a comment. |
| `ReadOnlyQueries.ScanWords` | kanbrick-auth/src/readonly.rs:60-84 | The word loop accepts a text if and only if its first whole word, in capitals, opens a read and no whole word is a write keyword. |
| `ReadOnlyQueries.TokensAreUnique` | kanbrick-auth/src/readonly.rs:98-117 | A statement has at most one tokenization into closed quoted regions and other characters. |
| `ReadOnlyQueries.QuotedContentIsData` | kanbrick-auth/src/readonly.rs:98-117 | Replacing the content of a quoted region by any text free of its quote and of backslashes never changes the verdict. |
| `ReadOnlyCases.CaseDoesNotMatter` | kanbrick-auth/src/readonly.rs:62-65 | Two statements that differ only in the case of ASCII letters get the same verdict. |
| `ReadOnlyCases.CapitalsStand` | kanbrick-auth/src/readonly.rs:62-65 | A word of capitals, digits and underscores stands for itself. |
| `ReadOnlyCases.WriteIsRefused` | kanbrick-auth/src/readonly.rs:40-42 | A statement with one of the ten write keywords as a whole word outside quotes, in any case, is refused. |
| `ReadOnlyCases.OpenerDecides` | kanbrick-auth/src/readonly.rs:44-48 | With nothing else wrong, a statement is accepted if and only if its first word is one of the five read openers in some case. |
| `ReadOnlyCases.CommentIsRefused` | kanbrick-auth/src/readonly.rs:110-112 | A statement with a slash followed by a slash or a star outside quotes is refused. |
| `ReadOnlyCases.OpenQuoteIsRefused` | kanbrick-auth/src/readonly.rs:103-107 | A statement in which an opening quote of any of the three kinds is never repeated is refused. |
| `ResultCache.DiscoveryCache.GetOrCompute` | kanbrick-discovery/src/cache.rs:98-138 | An uninterrupted lookup returns a live entry or what it computes, and stores only a computation that succeeded. |
| `ResultCache.DiscoveryCache.Lookup` | kanbrick-discovery/src/cache.rs:103-121 | A lookup counts once, as a hit exactly if it finds an answer; after a miss nothing is found under the key at any time; no other answer changes at any time. |
| `ResultCache.DiscoveryCache.InvalidateAll` | kanbrick-discovery/src/cache.rs:142-146 | Nothing is found under any key at any time, and the generation has moved up unless it is at its largest value. |
| `ResultCache.DiscoveryCache.PruneExpired` | kanbrick-discovery/src/cache.rs:149-155 | Exactly the live entries stay, and the number removed is returned. |
| `ResultCache.PruneIsInvisible` | kanbrick-discovery/src/cache.rs:149-155 | Pruning changes no later answer, nor the cache after a later lookup and pruning. |
| `ResultCache.LookupsAreCounted` | kanbrick-discovery/src/cache.rs:98-138 | In every interleaving hits and misses add up to the lookups, and misses to those stored, failed and pending. |
| `ResultCache.EntriesAreStored` | kanbrick-discovery/src/cache.rs:44-48 | Every entry was stored by an insertion since the last invalidation and carries the current generation, even once the counter saturates. |
| `ResultCache.FoundExactlyWhileLive` | kanbrick-discovery/src/cache.rs:44-48 | In every interleaving, what was last stored under a key, with no invalidation since, is found if and only if its age is at most its time to live, and otherwise nothing is. |
| `ResultCache.FreshExactlyUnlessOvertaken` | kanbrick-discovery/src/cache.rs:98-146 | In every interleaving a hit made when each change has been invalidated is within its time to live and for its key, and was computed on the current graph if and only if no change and its invalidation fell between computing it and storing it. |
| `ResultCache.OvertakenAnswerIsServed` | kanbrick-discovery/src/cache.rs:122-137 | A run in which an answer from before a change is served after its invalidation. |
| `ScopeKeys.KeysAreFaithful` | kanbrick-discovery/src/scope.rs:157-172 | For scopes nested to any depth, with no colon in a project, no comma or opening bracket in an id and no list of one empty id, keys are equal if and only if the scopes are. |
| `ScopeKeys.SharedEntriesAreSafe` | kanbrick-discovery/src/cache.rs:22-24 | For such scopes, functions without an opening parenthesis and arguments without the closing mark, one cache key means one function, one list of arguments and the same visible nodes in every graph. |
| `ScopeKeys.SeenByLevel` | kanbrick-auth/src/scope.rs:62-115 | L1 and L2 see themselves, L3 also their reports, all three the companies they manage, L4 and L5 everyone and everything. |
| `ScopeKeys.HigherSeesMore` | kanbrick-auth/src/scope.rs:110-118 | A higher level never sees less, whatever projects are granted on top. |
| `ScopeKeys.GrantsOnlyAdd` | kanbrick-discovery/src/scope.rs:142-155 | Nested to any depth, a scope sees what its base sees and what its grants name, and no grant raises it to seeing all. |
| `ScopeKeys.ColonCollides` | kanbrick-discovery/src/scope.rs:157-172 | For every project, pair of emails and pair of levels around seeing all, two scopes with one key of which only one sees all. |
| `ScopeKeys.CommaCollides` | kanbrick-discovery/src/scope.rs:157-172 | Granting two ids, and granting the one id they form around a comma, give one key, and the two scopes see differently if and only if some graph hides one of the three from the base. |
| `ScopeKeys.BracketCollides` | kanbrick-discovery/src/scope.rs:157-172 | A bracket in an id lets a company pass for part of a person under one key, and the two scopes see differently if and only if some graph hides one of the three ids from the base. |
| `ScopeKeys.CompanyBracketCollides` | kanbrick-discovery/src/scope.rs:157-172 | A bracket in one company is enough: for every email and ids, the text before it passes for the end of the base's email under one key, and the two scopes see differently if and only if they do not see all. |
| `ScopeKeys.EmptyIdCollides` | kanbrick-discovery/src/scope.rs:157-172 | Granting the empty id alone and granting nothing give one key, and the two scopes see differently if and only if some graph hides the empty id from the base. |

## Left out

- RegistryProtocol.NoActivationIsLost: generations are unbounded, so the saturating 64-bit addition and its cast to a signed store value are not modelled; the control plane's own reload before the policy write is not a step.
- ScopeKeys.KeysAreFaithful: the stated condition is sufficient; which unclean scopes collide is shown by families, not characterised, because some unclean scopes have a key of their own.
- Admission.BoundsHold: permits go to any waiting call, not in the order of arrival that the runtime's semaphores keep.
- Scheduler.ConcurrencyLimit: event triggers that schedule tasks are calls like any other, and a guest that panics is not modelled.
- OrgChart.FromStore: a manager is one of the persons loaded, as the store's links join persons only; companies and segments are not modelled.
- OrgSearch.ReportingPath: people are looked up by email; matching names and nicknames, and filling in the records of the answer, are not modelled.
- OrgSearch.OrgNeighborhood: the final sort of the members and edges is not modelled; the answer is a set of people and a set of pairs.
- Grants.ScopeGrants.ApproveRequest: one call is one atomic change of the store, although it makes several writes; the audit log and cache invalidation are not modelled.
- Grants.ScopeGrants.AuthorizeSkill: a stored time is an optional instant, and one that cannot be read counts as expired.
- LoopRuns.ExecuteLoop: building tool arguments and prompts from a payload is a parameter, and grant calls between steps are in `LoopEngine` only.
- ResultCache.FreshExactlyUnlessOvertaken: an answer is identified by its key and the graph it was computed on, so decoding errors of a stored value are not modelled; a counter moves with the locked section beside it.
- The filters of discovery answers by scope (`scoped_*`) would add only easy members.
- Compiling and running WebAssembly, its memory, fuel and host imports.
- The graph store and its query language.
- Publishing, reviewing and storing skills, and the compiler from documents to loops.
- Parsing of times (section 5.6 of RFC 3339), identifiers, hashes, passwords and tokens.
- HTTP routing, the HTTP client, metrics, command line, build scripts and the Cockpit interface.
- Influence ranking, code ingest, model providers, egress rules, component listing and the event bus.
