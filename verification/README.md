# OpenAgentNet: a verified model of the platform core

This Dafny project models the protocol core of the OpenAgentNet backend (and the stream
parsers of its two SDKs) and proves properties of it. `dafny verify dfyconfig.toml` checks
everything.

Code that updates fields, dictionaries or rows step by step is modelled by methods with loops,
on a class where the source has an object or a table. Each method is proved against a
specification function or predicate on values, and what the source promises is proved about
that specification: for all inputs, over all runs of operations, or over all interleavings.
A database transaction is one step, and a call that raises leaves the tables as they were
(`backend/app/core/database.py:42-50`), except in the three models whose subject is the
interleaving: the dispatcher, the result stream and the rate limiter.

| module | what it models |
|---|---|
| `StepGraph` | dependency graphs: walks, cycles, the least closed set of steps, pigeonhole |
| `WorkflowDag` | the two worklist (Kahn) passes over a workflow definition |
| `WorkflowEngine` | one engine run: retries, cascading failure, aggregation |
| `Dispatcher` | the dispatch worker and its engines as a state machine, with stale polls, row locks, commits in the middle of a run, crashes and recovery |
| `ModArith`, `QuadraticResidues`, `Decimal`, `OutcomeProof` | the Fiat-Shamir OR proof of a binary outcome over a parametric group |
| `OutcomeVerifier` | what verification of a stored proof accepts, relabelled proofs, soundness of stored proofs |
| `OutcomeHiding` | what a published proof tells about its outcome, also for the literal group |
| `CapabilityIndex`, `Discovery` | the Redis capability index, its writers, and search with and without it |
| `Sse`, `SseFraming`, `SseLineEnds`, `SseRoundTrip`, `SseJson` | the event-stream parsers of the TypeScript and Python SDKs, their round trip with standard framing for each kind of line end, and with the objects that the platform streams |
| `Negotiation` | negotiations, contracts, and the messages bound to contracts |
| `TaskStream` | ordered append and replay of result chunks |
| `RateLimit` | the fixed-window limiter |
| `TrustScore` | the weighted trust score, outcomes and disputes |
| `Escrow` | the escrow ledger |
| `VersionDiff` | differences between agent versions |

## What does not hold

These promises of the source fail. The code is modelled as it is; each failure comes with the
condition under which the code keeps the promise, and with a concrete input or run.

- A step whose attempts all raise counts as failed if and only if the last exception has a text:
  the engine tests the recorded message for truth (`WorkflowEngine.ExhaustedRetries`,
  `WorkflowEngine.EmptyMessagePassesForSuccess`).
- A heartbeat can hide an active agent from search: an agent that was updated while inactive is
  out of the rankings, and the heartbeat makes it active without ranking it again. The index is
  transparent all along a run if and only if every heartbeat reaches an agent that the index
  shows or that has no capability names (`Discovery.TransparentIffSafe`,
  `Discovery.HeartbeatCondition`, `Discovery.HeartbeatCanLoseAnAgent`).
- Searches for other statuses lose agents too: an update that leaves an agent inactive or suspended
  takes it out of the rankings. All searches for all statuses are right all along a run if and only
  if no update leaves a live agent with names in another status than active
  (`Discovery.AllTransparentIff`, `Discovery.UpdateCanLoseAnAgent`).
- The outcome proof does not hide the outcome, as `docs/FEATURES.md:192` and the comment at
  `backend/app/core/privacy_proofs.py:37-42` want it to. A commitment can be opened to both
  outcomes if and only if the second generator is a power of the first (`OutcomeHiding.HidingIff`); with the
  generators 2 and 5 and a prime modulus like the literal one it is not, and the q-th power of
  the public commitment says which outcome it has (`OutcomeHiding.GeneratorsTwoAndFive`,
  `OutcomeHiding.LiteralCommitmentsReveal`). The honest response, which is sent unreduced, is a
  second leak (`OutcomeHiding.ResponseReveals`, `OutcomeHiding.ResponseCanReveal`): a published
  transcript also arises from the other outcome exactly under the condition of
  `OutcomeHiding.ArisesFromBothIff`, and with reduced responses always
  (`OutcomeHiding.ReducedHides`).
- A matching repeat of an escrow request returns the existing escrow if and only if the amount
  has at most eight decimals: the request is compared with the rounded stored amount
  (`Escrow.RepeatReturnsExisting`, `Escrow.NineDecimalsAreNotRepeatable`).
- The TypeScript parser returns what a standard event stream sends, for line feeds, if and only if
  no data starts with a blank and no event has empty data: it strips all leading blanks and drops
  empty events. For carriage returns with line feeds the stream must besides have at most one event
  with data, and for carriage returns alone no data or a single line; in both cases the last line
  must not be data that ends in a blank (`SseRoundTrip.FramingRoundTrip`,
  `SseRoundTrip.TwoCrlfEventsJoin`).
- The Python parser splits lines also at eight characters that end no line in the standard (vertical
  tab, form feed, U+001C to U+001E, U+0085, U+2028, U+2029). Whatever else the stream holds, it is
  wrong if any data has one of them. If comments and other fields have none, it is right, for each
  kind of line end, if and only if no data has one and no data starts with a blank
  (`SseRoundTrip.PyIff`). After the break the data is lost: a line separator between `a` and `b`
  gives `a` for Python and the whole text for TypeScript (`SseRoundTrip.BreakLosesTheRest`,
  `SseRoundTrip.LineSeparatorBreaks`).
- Both parsers deliver an event inside which a stream breaks off, in a line or behind one; the
  standard discards an event without the empty line behind it (`SseRoundTrip.CutStream`, `SseRoundTrip.CutEventIsDelivered`).
- The server ends its event lines with a backslash and the letter n, so neither parser finds an
  event in what it sends (`Sse.EmitterYieldsNoEvents`).
- The limit per window can be exceeded, but only in an interval in which a life of the counter
  starts, and by at most the limit again, a bound that is met for every limit and window
  (`RateLimit.LimitHoldsWithoutStart`, `RateLimit.AtMostTwiceTheLimit`, `RateLimit.BoundIsTight`).
- The comment at `backend/app/services/negotiation/service.py:17` reserves responses for the
  target; either participant may respond (`Negotiation.RespondSucceedsIff`), and a requester can
  accept its own proposal (`Negotiation.RequesterAcceptsOwnProposal`).
- `docs/PROTOCOL.md:299` lets the requester accept the latest counter; the contract takes the
  terms of the proposal and of the accepting response and drops those of the counters. A field of
  the last counter survives if and only if the accepting response, or failing that the proposal,
  gives the same value (`Negotiation.ContractTerms`, `Negotiation.CounterFieldKeptIff`,
  `Negotiation.CounterTermsAreDropped`).
- A workflow whose engine failed stays `running` without an engine if and only if its last recovery
  failed (`Dispatcher.StuckIffRecoveryFailed`, `Dispatcher.LostIffLastRecoveryFailed`).

Other places where text and code disagree and the code is followed: the modulus called group 14
of RFC 3526 at `backend/app/core/privacy_proofs.py:8` is the 1024-bit group of section 6.2 of
RFC 2409; the weights of `docs/ARCHITECTURE.md:121` name an endorsement component that is not
among the installed ones.

## Model

| member | source | states |
|---|---|---|
| StepGraph.EmittedIsLeast | backend/app/services/orchestration/service.py:57-65 | whatever a worklist emits dependencies-first up to closure is the least set closed under "all dependencies already emitted" |
| StepGraph.EmittedSetIsUnique | backend/app/services/orchestration/service.py:57-65 | all queue orders emit the same steps, so equally many |
| StepGraph.StuckMeansCycle | backend/app/services/orchestration/service.py:67-68 | steps missed by the worklist contain one that reaches itself along dependencies |
| StepGraph.WalkDescends | backend/app/services/orchestration/service.py:84-93 | along every dependency walk positions in the order strictly decrease |
| StepGraph.CompleteIffAcyclic | backend/app/services/orchestration/service.py:67-69 | the number of emitted steps equals the number of steps if and only if no step reaches itself |
| WorkflowDag.CollectIds | backend/app/services/orchestration/service.py:32-42 | no error exactly when ids are present and distinct; the adjacency lists hold every dependency with its multiplicity |
| WorkflowDag.FindUndefined | backend/app/services/orchestration/service.py:45-48 | no error exactly when all dependencies are known; an error names a step and its unknown dependency |
| WorkflowDag.CountInDegrees | backend/app/services/orchestration/service.py:51-55 | each in-degree is the length of the dependency list, repetitions included |
| WorkflowDag.Relax | backend/app/services/orchestration/service.py:62-65 | one unit off each child per edge; the queue keeps holding exactly the steps at zero that were not emitted, once each |
| WorkflowDag.Drain | backend/app/services/orchestration/service.py:57-65 | for any initial queue order the loop ends and emits a repeat-free, dependencies-first, closed list |
| WorkflowDag.ReadyInAnyOrder | backend/app/services/orchestration/service.py:57 | the initial queue of validation, whose ids come out of a set in any order |
| WorkflowDag.ReadyInOrder | backend/app/services/orchestration/service.py:84 | the initial queue of the execution order, in order of first appearance |
| WorkflowDag.ValidateDag | backend/app/services/orchestration/service.py:26-69 | no error if and only if ids are present and distinct, dependencies defined and no step reaches itself; each error names a real defect; when the worklist is reached, it visits exactly what any execution order emits, and all steps exactly if there is no error |
| WorkflowDag.TopologicalOrder | backend/app/services/orchestration/service.py:72-93 | no repeats; on distinct ids dependencies first and exactly the least closed set; a permutation of the steps on valid definitions |
| WorkflowDag.OrderLengthIsVisitedCount | backend/app/services/orchestration/service.py:57-93 | any execution order has the length and the steps of any list that validation can visit, whatever the queue orders |
| WorkflowEngine.Workflow.ExecuteWithRetries | backend/app/services/orchestration/service.py:272-292 | the outcome of the first returning attempt, or the message of the last raising one |
| WorkflowEngine.Workflow.DependenciesOk | backend/app/services/orchestration/service.py:257-261 | true exactly when every dependency exists and is done |
| WorkflowEngine.Workflow.RunWorkflow | backend/app/services/orchestration/service.py:208-331 | a run of a pending workflow takes every step through the specified transition in execution order and stores the aggregate; a fresh valid workflow ends in rows that depend on verdicts and graph alone; any other status leaves the workflow unchanged |
| WorkflowEngine.CompletedRun | backend/app/services/orchestration/service.py:245-313 | a step is done exactly when it and all its ancestors got a non-failed verdict, and dependency_failed exactly when some ancestor ends failed; none stays pending |
| WorkflowEngine.StartedRowsStay | backend/app/services/orchestration/service.py:245-252 | a step that is not pending when the run starts is left as it is and does not count as failed |
| WorkflowEngine.RunEndsInFinalRows | backend/app/services/orchestration/service.py:245-313 | every complete dependency-respecting order ends in the rows that verdicts and graph determine |
| WorkflowEngine.OrderDoesNotMatter | backend/app/services/orchestration/service.py:240-313 | all dependency-respecting orders end in the same step rows |
| WorkflowEngine.AggregateMeaning | backend/app/services/orchestration/service.py:315-329 | success exactly when no verdict is failed, failed exactly when there are steps and all end failed, and the completed count is the number of steps that did not fail |
| WorkflowEngine.CompletedMeaning | backend/app/services/orchestration/service.py:318-329 | the stored count is that of the steps that did not fail, and a workflow whose steps all failed stores none |
| WorkflowEngine.ExhaustedRetries | backend/app/services/orchestration/service.py:287-308 | after only raising attempts the step is failed if and only if the last message is not empty |
| WorkflowEngine.EmptyMessagePassesForSuccess | backend/app/services/orchestration/service.py:290-308 | the failing input: a step that keeps raising an error without text ends as a success |
| WorkflowEngine.FirstReturnCounts | backend/app/services/orchestration/service.py:274-286 | the first returned attempt decides the outcome whatever raised before it |
| WorkflowEngine.PolledStepsRaiseWithText | backend/app/services/orchestration/service.py:390-448 | exceptions of the step itself always carry a text, and it returns exactly for success and partial |
| WorkflowEngine.DeliveredStatus | backend/app/services/orchestration/service.py:294-308 | a step whose task ended successful or partial is failed exactly if the result has an error, and else partial exactly if the result says so, or the task is partial and the result does not deny it |
| WorkflowEngine.RaisedText | backend/app/services/orchestration/service.py:443-447 | any other ending raises the message of the result, else that of the task, else one that names the status |
| WorkflowEngine.PolledVerdict | backend/app/services/orchestration/service.py:272-308 | over the three attempts the first delivered result decides the verdict, and without one the step is failed |
| Dispatcher.Worker.LaunchPending | backend/app/core/workers.py:339-345 | one engine per polled id that is not in flight, even if the poll is stale or repeats an id |
| Dispatcher.StepKeepsInv | backend/app/core/workers.py:332-360 | every step of worker, engine or recovery keeps the invariant that ties engines, in-memory set and committed rows together |
| Dispatcher.OneEnginePerWorkflow | backend/app/core/workers.py:339-360 | in every reachable state two engine tasks of one workflow are the same task, so at most one is past the claim, and then the row is not final |
| Dispatcher.InFlightIffEngine | backend/app/core/workers.py:341-360 | in every reachable state the in-memory set holds exactly the workflows with an engine task |
| Dispatcher.StatusMovesForward | backend/app/services/orchestration/service.py:226-344 | over every run a committed status only moves from pending to running to terminal |
| Dispatcher.StatusIff | backend/app/services/orchestration/service.py:226-344 | over every run a workflow has a final status exactly if an engine of it committed that status, or for a failure if a recovery from running succeeded, and is running exactly if results were shown and nothing ended it |
| Dispatcher.TouchedIff | backend/app/services/orchestration/service.py:302-331 | over every run results of a workflow are committed exactly if an engine of it made a commit |
| Dispatcher.ClaimsAreFresh | backend/app/services/orchestration/service.py:217-235 | a claim succeeds only on a workflow without committed progress and never after running or a final status was committed |
| Dispatcher.LaunchCovers | backend/app/core/workers.py:339-345 | a launch gives every id of the list an engine, the one it has or a new one at its start, and no other workflow |
| Dispatcher.ClaimSucceedsIff | backend/app/services/orchestration/service.py:217-235 | a claim that is not blocked succeeds exactly on a pending row |
| Dispatcher.NeverBlocked | backend/app/services/orchestration/service.py:217-225 | within one process the row lock never blocks a claim |
| Dispatcher.OnlyListedRun | backend/app/core/workers.py:325-345 | over every run a poll lists at most eight workflows, and only workflows that some poll listed while they were pending wait for launch or have an engine |
| Dispatcher.WaitingCanFinish | backend/app/services/orchestration/service.py:217-331 | a pending workflow without an engine can always be polled, launched, claimed and finished with any final status, leaving nothing behind |
| Dispatcher.CrashedShowing | backend/app/services/orchestration/service.py:332-347 | an engine that crashes after showing results leaves a failed workflow or, if its recovery fails, a running one without an engine |
| Dispatcher.CrashedClaimed | backend/app/services/orchestration/service.py:332-347 | an engine that crashes before showing anything leaves the workflow waiting as before |
| Dispatcher.CrashedClosing | backend/app/services/orchestration/service.py:332-347 | a crash after the final commit changes nothing |
| Dispatcher.RecoveryIsSound | backend/app/services/orchestration/service.py:332-346 | recovery overwrites no final or pending status and no other workflow, and marks an interrupted running one failed |
| Dispatcher.StuckIffRecoveryFailed | backend/app/services/orchestration/service.py:332-347 | in every reachable state the running rows without an engine are exactly the lost ones without an engine |
| Dispatcher.LostIffLastRecoveryFailed | backend/app/services/orchestration/service.py:332-347 | a row is lost exactly if a recovery of it from running failed and none since succeeded |
| ModArith.PowPeriodic | backend/app/core/privacy_proofs.py:92 | a base of order dividing q takes exponents modulo q |
| ModArith.PowModNegate | backend/app/core/privacy_proofs.py:33 | modular powers with opposite exponents are inverse |
| ModArith.PrimeInverse | backend/app/core/privacy_proofs.py:18 | nonzero residues modulo a prime have inverses |
| QuadraticResidues.GaussLemma | backend/app/core/privacy_proofs.py:8-20 | modulo a prime 2q+1 the q-th power of a unit is the product of the signs of its first q multiples, hence 1 or -1 |
| QuadraticResidues.TwoToTheQ | backend/app/core/privacy_proofs.py:19 | the generator 2 has order dividing q modulo a prime 2q+1 that is 7 modulo 8 |
| QuadraticResidues.FiveToTheQ | backend/app/core/privacy_proofs.py:20 | the q-th power of the generator 5 is -1 modulo a prime 2q+1 that is 2 or 3 modulo 5 |
| Decimal.ParsePrinted | backend/app/core/privacy_proofs.py:74-92 | decimal text parses back to the printed number |
| OutcomeProof.TrueBranchAccepts | backend/app/core/privacy_proofs.py:55-64 | the honest branch verifies although its response is sent unreduced and reduced by the verifier |
| OutcomeProof.FalseBranchAccepts | backend/app/core/privacy_proofs.py:51-54 | the simulated branch verifies |
| OutcomeProof.TranscriptAccepted | backend/app/core/privacy_proofs.py:47-70 | every transcript built for outcome 0 or 1 passes all checks of verification for the hashed challenge |
| OutcomeProof.Completeness | backend/app/core/privacy_proofs.py:36-105 | creation succeeds exactly on a binary outcome and a long enough nonce, and what it returns verifies, through the text fields, for all draws |
| OutcomeProof.MalformedRejected | backend/app/core/privacy_proofs.py:85-105 | a missing or non-integer field is rejected |
| OutcomeVerifier.VerifiesIff | backend/app/core/privacy_proofs.py:84-105 | a proof is accepted exactly if scheme, task id and numbers are there, commitment and announcements are in range, the shares add up to the hash of its own task, and the two branch equations hold without any inverse |
| OutcomeVerifier.RelabelledIff | backend/app/core/privacy_proofs.py:87-97 | an accepted proof relabelled for another task is accepted exactly if the two hashes agree modulo q |
| OutcomeVerifier.CreatedOpens | backend/app/core/privacy_proofs.py:36-81 | a created proof is for its task and its commitment opens to the outcome it was made for |
| OutcomeVerifier.HonestRelabelledIff | backend/app/core/privacy_proofs.py:36-105 | an honest proof moved to another task is accepted exactly if the hashes agree |
| OutcomeProof.ExtractLogarithm | backend/app/core/privacy_proofs.py:98-103 | two answers of one branch with different shares yield a discrete logarithm of its value when q is prime and the value has order dividing q |
| OutcomeProof.ExtractUpToSign | backend/app/core/privacy_proofs.py:98-103 | the same for a value whose q-th power is 1 or -1, up to that sign |
| OutcomeProof.SpecialSoundness | backend/app/core/privacy_proofs.py:84-103 | two accepted transcripts with common commitment and announcements but different challenges differ in a branch that satisfies the extraction relation and, for prime q, opens the commitment to that branch's outcome: without a sign for a value of order dividing q, and up to sign for every safe prime modulus, without a hypothesis on the branch value |
| OutcomeVerifier.VerifiedSoundness | backend/app/core/privacy_proofs.py:84-105 | two proofs that verification accepts, with common commitment and announcements and different hashes, differ in a share and open the commitment to the outcome of that branch |
| OutcomeProof.EvenShareHidesSign | backend/app/core/privacy_proofs.py:100-103 | the sign cannot be dropped: with an even share the negative of a power of g is accepted like the power |
| OutcomeProof.ForkedProver | backend/app/core/privacy_proofs.py:47-70 | a prover asked twice after the same announcements produces two accepted transcripts as special soundness needs them, differing only in the branch of the committed outcome, whose value has order dividing q |
| OutcomeHiding.CommitmentReveals | backend/app/core/privacy_proofs.py:48 | if the second generator has q-th power -1, the q-th power of the commitment is 1 exactly for outcome 0 |
| OutcomeHiding.HidingIff | backend/app/core/privacy_proofs.py:36-48 | whatever the outcome and the randomness, a commitment can be opened to the other outcome if and only if h is a power of g |
| OutcomeHiding.GeneratorsTwoAndFive | backend/app/core/privacy_proofs.py:9-20 | a prime modulus that is 7 modulo 8 and 2 or 3 modulo 5 gives a group with generators 2 and 5 in which 5 is no power of 2 |
| OutcomeHiding.LiteralCommitmentsReveal | backend/app/core/privacy_proofs.py:8-20 | for the literal constants, if the modulus is prime: they form a group, no commitment can be opened both ways, and the commitment alone reveals the outcome |
| OutcomeHiding.ResponseReveals | backend/app/core/privacy_proofs.py:52-70 | a response of q or more marks the branch of the outcome |
| OutcomeHiding.ResponseCanReveal | backend/app/core/privacy_proofs.py:63-64 | a proof with such a response, modulo 23 |
| OutcomeHiding.ReducedAccepted | backend/app/core/privacy_proofs.py:92 | reducing the responses does not change what verification says |
| OutcomeHiding.ReducedHides | backend/app/core/privacy_proofs.py:36-81 | with reduced responses each second opening of the commitment has draws that publish the same numbers for the other outcome |
| OutcomeHiding.ArisesFromBothIff | backend/app/core/privacy_proofs.py:63-70 | as published, a transcript arises from a second opening if and only if its honest response is below q and its simulated one leaves a nonce |
| CapabilityIndex.RedisIndex.SyncAgent | backend/app/core/capability_index.py:23-55 | replaces the agent's entry in the directory by its current names, score and visibility |
| CapabilityIndex.RedisIndex.RemoveAgent | backend/app/core/capability_index.py:58-66 | removes the agent's entry |
| CapabilityIndex.RedisIndex.UpdateAgentScore | backend/app/core/capability_index.py:69-76 | gives an agent with names the new score everywhere and makes it visible |
| CapabilityIndex.RedisIndex.CandidateIds | backend/app/core/capability_index.py:79-103 | nothing without a requested name, otherwise exactly a scan of the directory for visible agents with all names and the minimum score |
| CapabilityIndex.RedisIndex.Perform | backend/app/core/capability_index.py:23-76 | every sequence of writes refines the same sequence on the plain directory |
| CapabilityIndex.ForwardInsideReverse | backend/app/core/capability_index.py:41-53 | forward sets stay inside the reverse index, an agent has one score in all its sets, and is in all of them or none |
| CapabilityIndex.LastSyncDecides | backend/app/core/capability_index.py:43-53 | after any history an agent's entry is what its last sync says, whatever was written for others since |
| CapabilityIndex.CandidateIff | backend/app/core/capability_index.py:23-103 | after any history that ends in a sync of an agent and updates of its score a search finds it exactly if it has all names asked for, was active or rescored, and its latest score reaches the minimum |
| CapabilityIndex.GoneUntilSynced | backend/app/core/capability_index.py:43-66 | after a removal, or a sync without names, no search finds the agent until its next sync |
| Discovery.Platform.RegisterAgent | backend/app/services/registry/service.py:57-103 | a new agent is active and indexed with the default score; a known id is refused without effect |
| Discovery.Platform.UpdateAgent | backend/app/services/registry/service.py:152-193 | a live agent is changed and re-indexed with its stored score and current status |
| Discovery.Platform.DeregisterAgent | backend/app/services/registry/service.py:287-300 | the agent is deleted and leaves the index |
| Discovery.Platform.MarkInactiveAgents | backend/app/services/messaging/service.py:67-88 | exactly the active agents past the threshold become inactive, the index is untouched, and the count is theirs |
| Discovery.Platform.SendHeartbeat | backend/app/services/messaging/service.py:31-65 | a live agent becomes active without touching the index |
| Discovery.Platform.GetTrustRecord | backend/app/services/trust/service.py:87-99 | a first read creates the record with the default score that the index already has |
| Discovery.Platform.StoreTrustScore | backend/app/services/trust/service.py:166-167 | stores a new score and updates the index with it |
| Discovery.Platform.Search | backend/app/services/discovery/service.py:28-121 | the chained filters return exactly the agents the query describes that the index admits, with their number and page; where searches agree, those of the tables alone |
| Discovery.FoundIff | backend/app/services/discovery/service.py:35-76 | an agent is found exactly if its row answers the query and, if a capability is named, the index shows it |
| Discovery.RegisteredIsFound | backend/app/services/registry/service.py:57-103 | a new agent is found exactly by queries for active agents that name only its capabilities and ask for no trust |
| Discovery.ScoredIsFound | backend/app/services/trust/service.py:87-167 | with its default or stored score it is found exactly if the score reaches the minimum |
| Discovery.UpdatedIsFound | backend/app/services/registry/service.py:152-193 | after an update the queries for its new status and capabilities find it, those that name a capability only if the status is active |
| Discovery.DeregisteredIsGone | backend/app/services/registry/service.py:287-300 | a deregistered agent is never found again |
| Discovery.LeftToSweeps | backend/app/services/messaging/service.py:67-88 | an agent left to sweeps becomes inactive exactly if it is live, active and seen, and some threshold is after that |
| Discovery.ActiveIffSeenInTime | backend/app/services/messaging/service.py:31-88 | over every run an agent left alone since a heartbeat is active exactly if no sweep had a threshold after it, and otherwise inactive |
| Discovery.NeverSeenStaysActive | backend/app/services/messaging/service.py:75-81 | a registered agent that never sent a heartbeat stays active |
| Discovery.RunKeepsNames | backend/app/services/registry/service.py:183-192 | over every run, heartbeats included, the index has the names and the stored or default score of every live agent |
| Discovery.IndexIsTransparent | backend/app/services/discovery/service.py:35-76 | over every run whose heartbeats reach agents the index shows, every active search finds the same agents as without the index, with or without a minimum score |
| Discovery.TransparentIffSafe | backend/app/services/discovery/service.py:35-76 | all active searches are right all along a run if and only if every heartbeat of the run reaches an agent that the index shows or that has no names |
| Discovery.AgreeIffShown | backend/app/services/discovery/service.py:35-48 | for every status: all searches for it agree with the tables if and only if every live agent of that status with names is shown |
| Discovery.AllTransparentIff | backend/app/services/discovery/service.py:35-76 | searches for all statuses are right all along a run if and only if no update of the run leaves a live agent with names in another status than active |
| Discovery.UpdateCanLoseAnAgent | backend/app/services/registry/service.py:183-192 | a run after which a search for inactive agents misses one |
| Discovery.HeartbeatCondition | backend/app/services/messaging/service.py:42-48 | a heartbeat keeps all active searches right if and only if the index shows the agent or it has no names |
| Discovery.HeartbeatCanLoseAnAgent | backend/app/services/messaging/service.py:47 | a run after which search misses an active agent |
| Sse.DrainBuffer | sdk/typescript/src/index.ts:230-236 | yields the events of all complete blocks and keeps the incomplete rest |
| Sse.StreamTaskChunks | sdk/typescript/src/index.ts:217-240 | whatever the reads, the events are those of the concatenated text |
| Sse.DrainAppend | sdk/typescript/src/index.ts:229-236 | draining early and going on with the rest is draining once |
| Sse.ChunkIndependence | sdk/typescript/src/index.ts:227-238 | two ways of cutting one text leave the same blocks and buffer |
| Sse.StreamLines | sdk/python/openagentnet/client.py:198-206 | the line loop yields the payload of each group of data lines, a trailing one included |
| SseFraming.BodyParses | sdk/typescript/src/index.ts:218-225 | a block of lines, ended by line feeds with or without carriage returns, parses to the data of its data lines |
| SseFraming.PyEncoded | sdk/python/openagentnet/client.py:198-206 | the lines of a standard stream in front of any others give each event's data lines without leading blanks, joined, and nothing for events without data |
| SseRoundTrip.PyLinesOfText | sdk/python/openagentnet/client.py:199 | for each line end, splitting a text of standard lines gives each line cut at Python's other line breaks |
| SseRoundTrip.PyNeverReturnsBreaks | sdk/python/openagentnet/client.py:199-206 | from no text does the Python parser return a payload with one of its line breaks other than a line feed |
| SseRoundTrip.PyIff | sdk/python/openagentnet/client.py:198-206 | the Python parser is wrong whenever some data has one of its other line breaks, and with comments and other fields free of them it is right exactly if no data has one or starts with a blank |
| SseFraming.EventsOfLines | sdk/typescript/src/index.ts:229-236 | on line feeds the parser takes complete lines, empty ones anywhere, to the events of their groups |
| SseRoundTrip.ReadOnFeeds | sdk/typescript/src/index.ts:217-240 | on line feeds each event of a standard stream is read by itself: its data without leading blanks, joined, if that is not empty |
| SseLineEnds.ReadAsIff | sdk/typescript/src/index.ts:218-225 | reading every event by itself returns what was sent exactly if no data starts with a blank and, where empty data is dropped, no event's data is empty |
| SseLineEnds.CrlfJoinsEverything | sdk/typescript/src/index.ts:218-240 | on carriage returns with line feeds all the data of a stream comes out as one event, each data without leading blanks, the last line trimmed at the end |
| SseLineEnds.CrIff | sdk/typescript/src/index.ts:218-240 | on carriage returns alone a stream is read right if and only if it has no data, or one line whose data is not empty and has no blank at either end |
| SseRoundTrip.FramingRoundTrip | sdk/typescript/src/index.ts:206-241 | for each kind of line end the TypeScript parser, however the text is cut, returns the payloads of a standard stream exactly under the stated condition, and the Python parser exactly under its own |
| SseJson.ObjectsReadBack | sdk/typescript/src/index.ts:217-241 | objects sent one per data line come back from the TypeScript parser on line feeds, however the text is cut, and from the Python parser on every line end exactly if none has one of eight listed characters |
| SseJson.ObjectsOnCrlf | sdk/typescript/src/index.ts:218-240 | on carriage returns with line feeds the TypeScript parser returns the objects exactly if there is at most one |
| SseJson.FirstCharacterKept | sdk/typescript/src/index.ts:222 | the first character of data is kept exactly if it is none of the listed white space, for each parser its own |
| SseRoundTrip.TwoCrlfEventsJoin | sdk/typescript/src/index.ts:220-235 | any two events of one plain data line each, on carriage returns with line feeds: two payloads for Python, one joined event for TypeScript |
| SseRoundTrip.BreakLosesTheRest | sdk/python/openagentnet/client.py:199-206 | data with one of Python's other line breaks in it is read up to the break by Python and whole by TypeScript |
| SseRoundTrip.LineSeparatorBreaks | sdk/python/openagentnet/client.py:199 | the stream of one event with a line separator between two letters |
| SseRoundTrip.CutStream | sdk/typescript/src/index.ts:229-240 | a stream that breaks off inside an event, its last line ended or not: both parsers read that event too, the TypeScript one after trimming its last line |
| SseRoundTrip.CutEventIsDelivered | sdk/python/openagentnet/client.py:205-206 | where both parsers read the events right, the cut event is delivered by both, so they agree with the standard, which discards it, exactly if it has no data |
| Sse.EmitterYieldsNoEvents | backend/app/api/v1/messages.py:328 | neither parser finds an event in what the server writes, so they are right exactly when nothing was sent |
| Negotiation.Services.CreateProposal | backend/app/services/negotiation/service.py:82-116 | adds the row and its first round, or refuses without effect |
| Negotiation.CreateIff | backend/app/services/negotiation/service.py:82-116 | a proposal goes through exactly between two different agents under new identifiers, and the row, its deadline and its first round are as stated |
| Negotiation.Services.ExpireOpen | backend/app/services/negotiation/service.py:128-143 | exactly the open rows past their deadline expire |
| Negotiation.Services.Respond | backend/app/services/negotiation/service.py:145-225 | row, history and contract after a response, and the error of each refusal, which changes nothing |
| Negotiation.Services.SendMessage | backend/app/services/messaging/service.py:105-239 | adds a work item bound to its contract, or the error of the first failing check |
| Negotiation.SendIff | backend/app/services/messaging/service.py:105-239 | a message goes through exactly if it is new, has time to live, goes from a known to an active agent, and is covered by the contract it names |
| Negotiation.RespondSucceedsIff | backend/app/services/negotiation/service.py:145-225 | exactly when a response takes effect: open, in time, by a participant, a known decision, below the round limit |
| Negotiation.RespondRefused | backend/app/services/negotiation/service.py:145-225 | a refusal names the first check that fails |
| Negotiation.RespondEffect | backend/app/services/negotiation/service.py:128-225 | what a response that goes through does to its row, its history, the contracts and the overdue rows |
| Negotiation.StatusIff | backend/app/services/negotiation/service.py:128-225 | over every run a status is reached exactly by an answer with that decision, or for expired by an answer elsewhere after the deadline |
| Negotiation.ResponseInTime | backend/app/services/negotiation/service.py:128-167 | a late response, or one by an outsider, leaves all tables alone, and a response that takes effect only expires other rows |
| Negotiation.CommittedNegotiation | backend/app/services/negotiation/service.py:18-225 | over every run: history proposed, countered*, at most one deciding round; round count is one plus counters and at most the maximum; a unique contract with parties, terms and token exactly if accepted |
| Negotiation.ContractTerms | backend/app/services/negotiation/service.py:182-197 | over every run the terms of a contract are those of the first round overridden by the accepting one, whatever was countered |
| Negotiation.CounterFieldKeptIff | backend/app/services/negotiation/service.py:186-187 | a field of the last counter is in the contract exactly if the accepting response, or failing that the proposal, gives its value |
| Negotiation.CounterTermsAreDropped | backend/app/services/negotiation/service.py:186-197 | a run in which a requester accepts a counter and gets a contract for its own proposal |
| Negotiation.RequesterAcceptsOwnProposal | backend/app/services/negotiation/service.py:165-197 | a run in which a requester accepts its own proposal and a contract arises |
| Negotiation.ContractBoundTask | backend/app/services/messaging/service.py:202-234 | over every run a work item with a contract matches its parties and capability, and its negotiation is accepted |
| Negotiation.ClosedIsAbsorbing | backend/app/services/negotiation/service.py:18-24 | accepted, declined and expired negotiations never change again, nor do their rounds |
| Negotiation.AcceptanceDeadline | backend/app/services/negotiation/service.py:102-205 | over every run acceptance comes no later than creation + ttl + (rounds - 1) * max(60, ttl) |
| TaskStream.StreamStore.AppendChunk | backend/app/api/v1/messages.py:236-280 | stores a new contiguous chunk and starts the work item, answers a repeat, and refuses conflicts and gaps without effect |
| TaskStream.StreamStore.ReplayRows | backend/app/api/v1/messages.py:318-331 | the inner replay loop yields exactly the awaited rows and stops at a final one |
| TaskStream.StepKeepsInv | backend/app/api/v1/messages.py:236-331 | every step of an append or a reader keeps the store contiguous and each reader on a stored prefix |
| TaskStream.StoredSequencesAreAPrefix | backend/app/api/v1/messages.py:236-273 | over every interleaving the stored sequences are exactly 0 to n-1 |
| TaskStream.AcceptedChunkStays | backend/app/api/v1/messages.py:243-273 | an accepted chunk never changes and never disappears |
| TaskStream.RetryIsIdempotent | backend/app/api/v1/messages.py:243-252 | a retry of an accepted chunk answers with it at any later time; other data is a conflict |
| TaskStream.CheckByLength | backend/app/api/v1/messages.py:243-258 | with n chunks stored an append proceeds exactly for sequence n; later ones leave a gap, earlier ones repeat or conflict |
| TaskStream.NextChunkPasses | backend/app/api/v1/messages.py:236-280 | from every reachable state the next chunk can be appended, and an aborted request leaves no trace |
| TaskStream.FirstCommitWins | backend/app/api/v1/messages.py:262-280 | of two requests that passed their checks for one sequence the first commit stays |
| TaskStream.ReaderOutput | backend/app/api/v1/messages.py:304-332 | each reader's output is a gap-free, repeat-free stored prefix with a final chunk only at its end, where the reader ends |
| TaskStream.PollCatchesUp | backend/app/api/v1/messages.py:307-331 | a poll yields every chunk stored when it asked, unless a final one ends it |
| TaskStream.QueryIff | backend/app/api/v1/messages.py:309-317 | a query returns exactly the stored rows from the awaited sequence on, in order |
| TaskStream.ReaderPasses | backend/app/api/v1/messages.py:304-331 | a reader can open, ask and close, with no effect on anything else |
| TaskStream.ReaderYields | backend/app/api/v1/messages.py:318-331 | a reader can look at its rows one by one and arrives where the replay loop arrives |
| RateLimit.Limiter.Dispatch | backend/app/core/rate_limit.py:39-96 | decision and counter after one request, for exempt, unmatched, flagged and ordinary ones |
| RateLimit.RuleIsFirstMatch | backend/app/core/rate_limit.py:111-115 | the rule is the first whose pattern starts the path, and none exactly if none does |
| RateLimit.PlatformRules | backend/app/core/rate_limit.py:15-21 | which limit and window each path prefix has; the rule for discovery searches is never reached |
| RateLimit.AtMostTwiceTheLimit | backend/app/core/rate_limit.py:49-92 | over every run at most 2 * limit requests of one key pass in any closed interval of one window, whatever the flags |
| RateLimit.LimitHoldsWithoutStart | backend/app/core/rate_limit.py:64-68 | over every run at most the limit passes in any interval in which no life of the counter starts after its beginning |
| RateLimit.PassesIff | backend/app/core/rate_limit.py:55-92 | over every run a request passes exactly if it is at most the limit of its client in the current life of the counter, refused requests counted |
| RateLimit.ExpiryGivesWindow | backend/app/core/rate_limit.py:65-66 | the expiry call gives the counter a window to live |
| RateLimit.DispatchIsHit | backend/app/core/rate_limit.py:61-92 | counter and decision of a request that runs alone are those of the steps |
| RateLimit.EffectiveLimitMeaning | backend/app/core/rate_limit.py:57-58 | a flagged client keeps a quarter of the limit, rounded down, or one request |
| RateLimit.BoundIsTight | backend/app/core/rate_limit.py:64-68 | for every limit and window a run with exactly twice the limit of passes in one closed interval of a window |
| TrustScore.Registry.Register | backend/app/services/trust/components.py:32-43 | refuses an empty name or a weight that is not positive, else installs the component |
| TrustScore.RegisteredMeaning | backend/app/services/trust/components.py:42 | registering replaces the component of that name or adds it, keeps the others, and keeps names distinct |
| TrustScore.ComputeTrustScore | backend/app/services/trust/service.py:66-85 | score, age factor and component table of a record from the components that can be computed |
| TrustScore.ScoreTableMeaning | backend/app/services/trust/service.py:71-82 | the table holds the rounded clamped value of exactly the components that were computed |
| TrustScore.ScoreBounds | backend/app/services/trust/service.py:72-85 | the score lies between the rounded least and greatest clamped surviving values, and is neutral if none survives |
| TrustScore.ScoreMonotone | backend/app/services/trust/service.py:80-85 | the score is monotone in every surviving value |
| TrustScore.ScoredMonotone | backend/app/services/trust/service.py:66-85 | a record on which no component gives more never scores higher |
| TrustScore.DefaultScore | backend/app/services/trust/components.py:69-83 | the score with the four components of the platform is the weighted mean of the clamped values to three decimals |
| TrustScore.OutcomeScore | backend/app/services/trust/service.py:136-169 | an outcome scores its own rate and reading with the penalty so far, and stores the reading to six decimals |
| TrustScore.FirstRead | backend/app/services/trust/service.py:87-99 | a record that is first read is neutral |
| TrustScore.LatencyAdherenceRange | backend/app/services/trust/service.py:101-110 | adherence is within 0 and 1, and 1 on target |
| TrustScore.LatencyAdherenceMeaning | backend/app/services/trust/service.py:101-110 | the adherence is neutral without reading or target, and else the target over the time taken, to three decimals |
| TrustScore.SuccessNotBelowFailure | backend/app/services/trust/service.py:156-166 | at one instant a success never scores below a failure |
| TrustScore.VerdictNeverRaises | backend/app/services/trust/service.py:468-478 | at one instant an extra valid verdict never raises the score |
| TrustScore.UpheldNeverHelps | backend/app/services/trust/service.py:430-480 | in every reachable state upholding a dispute leaves no higher score than dismissing it |
| TrustScore.PenaltyCountsVerdicts | backend/app/services/trust/service.py:466-469 | over every run the penalty of a record is min(1, 0.15 k) after k valid verdicts on it |
| TrustScore.RecordsOverRuns | backend/app/services/trust/service.py:87-386 | over every run who has a record, and that it counts outcomes, successes and disputes and stores the rate to three decimals |
| TrustScore.DisputeIsOpened | backend/app/services/trust/service.py:361-386 | over every run there is a dispute between two agents under an id exactly if a call opened it between these two, and the two are different |
| TrustScore.DisputeStatusIff | backend/app/services/trust/service.py:430-503 | over every run a dispute is resolved exactly by a call with that verdict, under review exactly if reviewed and never resolved, and else open |
| TrustScore.ResolutionIsFinal | backend/app/services/trust/service.py:451-459 | a resolved dispute never changes again |
| TrustScore.TrustService.GetTrustRecord | backend/app/services/trust/service.py:87-99 | reads a record, creating it with defaults |
| TrustScore.TrustService.RecordOutcome | backend/app/services/trust/service.py:136-169 | counts the outcome, recomputes the score and stores both |
| TrustScore.TrustService.FlagAgent | backend/app/services/trust/service.py:361-386 | opens a dispute and counts it without a penalty; self reports are refused |
| TrustScore.TrustService.MarkDisputeUnderReview | backend/app/services/trust/service.py:494-503 | only an open dispute goes under review |
| TrustScore.TrustService.ResolveDispute | backend/app/services/trust/service.py:430-480 | only an open or reviewed dispute is resolved; penalty only for a valid verdict; score recomputed |
| Escrow.Marketplace.LoadEscrow | backend/app/services/marketplace/service.py:438-449 | the position of the row of an id |
| Escrow.Marketplace.CreateEscrow | backend/app/services/marketplace/service.py:281-362 | a new held row at the end, the row of a repeated key, or the first failing check |
| Escrow.PrecheckIsFirstFault | backend/app/services/marketplace/service.py:293-328 | a request is refused for the first fault in the stated order, and only for a fault |
| Escrow.CreationAnswers | backend/app/services/marketplace/service.py:330-362 | without a fault: the row of a known key if it agrees, and otherwise a new held row if the table takes it |
| Escrow.StripMeaning | backend/app/services/marketplace/service.py:304 | stripping takes the blanks off both ends and nothing else |
| Escrow.Marketplace.ReleaseEscrow | backend/app/services/marketplace/service.py:368-385 | a participant releases a held row whose work succeeded; otherwise nothing changes |
| Escrow.Marketplace.DisputeEscrow | backend/app/services/marketplace/service.py:387-410 | a participant disputes a held row with a reason |
| Escrow.Marketplace.RefundEscrow | backend/app/services/marketplace/service.py:412-436 | a held or disputed row is refunded with a reason |
| Escrow.SettleRowIff | backend/app/services/marketplace/service.py:368-436 | each settlement goes through exactly under its conditions and changes exactly status, time and its metadata entries |
| Escrow.SettleRowRefused | backend/app/services/marketplace/service.py:372-425 | a refused settlement names the first check that fails |
| Escrow.SettlementAnswers | backend/app/services/marketplace/service.py:368-461 | a settlement is for the first row with its id, changes that row only, and without such a row the escrow is not found |
| Escrow.StatusIff | backend/app/services/marketplace/service.py:368-436 | over every run a row is released, refunded or disputed exactly if some call did so when the conditions held |
| Escrow.RowsOverRuns | backend/app/services/marketplace/service.py:368-436 | over every run amounts, parties, currency and key stay, a settled row never changes, and the settlement time is set exactly on released and refunded rows |
| Escrow.Conservation | backend/app/services/marketplace/service.py:281-436 | over every run the amounts by status sum to the total created, per currency |
| Escrow.KeyNamesOneEscrow | backend/app/models/marketplace.py:63 | over every run an idempotency key names at most one escrow |
| Escrow.RepeatReturnsExisting | backend/app/services/marketplace/service.py:332-345 | a repeat after anything else returns the unchanged ledger and the escrow if and only if the amount has at most eight decimals, and is refused otherwise |
| Escrow.NineDecimalsAreNotRepeatable | backend/app/services/marketplace/service.py:332-362 | a request with nine decimals creates an escrow, and the same request on the resulting ledger is refused |
| Escrow.StoredIffEightDecimals | backend/app/models/marketplace.py:59 | the column keeps an amount exactly when it has at most eight decimals |
| VersionDiff.SortNames | backend/app/services/registry/service.py:235 | the names of a set, once each, strictly sorted by code point |
| VersionDiff.LessIff | backend/app/services/registry/service.py:235 | the order of names is the lexicographic one |
| VersionDiff.ByNameIff | backend/app/services/registry/service.py:232-234 | of several entries with one name the last counts |
| VersionDiff.DiffCapabilities | backend/app/services/registry/service.py:232-248 | the sorted list of exactly the names that differ, each with what happened to it |
| VersionDiff.DiffVersions | backend/app/services/registry/service.py:214-257 | fails exactly if a revision is missing, else the difference and the three flags |
| VersionDiff.PatchGivesAfter | backend/app/services/registry/service.py:236-248 | applying the difference to the earlier capabilities gives the later ones |
| VersionDiff.EmptyIffEqual | backend/app/services/registry/service.py:235-248 | the list is empty if and only if the capabilities are equal |
| VersionDiff.DiffIsUnique | backend/app/services/registry/service.py:232-248 | the two versions determine the list |
| VersionDiff.MirrorIsDiff | backend/app/services/registry/service.py:236-248 | the mirrored list is the difference of the swapped versions |
| VersionDiff.SwapMirrorsAndUndoes | backend/app/services/registry/service.py:232-248 | swapping the revisions mirrors the list, and patching with it undoes the first |

## Left out

- SQL, Redis, NATS, HTTP, JWT, signature, hash, UUID and base58 libraries: maps, parameters or arbitrary functions stand for them; malformed identifiers are `None` where the code treats them like unknown ones.
- Redis or broker failures, an index write followed by a rollback, lost updates between overlapping sessions, several dispatcher processes, and cancellation at shutdown: the code makes no promise there.
- Event publishing, audit rows, update timestamps and the texts of error messages.
- Team membership, shared memory, marketplace listings and search, routing, embeddings, metrics, federation, user interface and command line: only easy members, or outside the properties above.
- Dispatcher.Worker.LaunchPending: the endless polling loop and its sleep are steps of the state machine, not a loop of the method.
- WorkflowEngine.Workflow.RunWorkflow: what an attempt does is a script given per step and attempt number; sending the message and polling its row are its `Poll` outcomes, and a stored step row is taken to agree with the workflow definition in `CompletedRun`; the reasons kept beside failed steps are their stored results.
- WorkflowDag.ValidateDag: identifiers are texts; definitions that are no lists of records are not modelled.
- OutcomeHiding.LiteralCommitmentsReveal: that the literal modulus is prime is a hypothesis, and so is the primality of q in the extraction.
- OutcomeHiding.ReducedHides: that the draws of the two outcomes correspond one to one, so that the numbers are equally likely, is not stated.
- Decimal.ParsePrinted: Python's `int` also admits surrounding blanks, underscores and non-ASCII digits, which printing never produces.
- CapabilityIndex.RedisIndex.CandidateIds: quoting of key names is taken to be injective, and parsing identifiers back from Redis to succeed.
- Discovery.Platform.Search: filters other than capability, status and minimum score are one arbitrary predicate; sorting and paging are one arbitrary function of the agents found.
- Discovery.IndexIsTransparent: federation writes are left out, as they do not touch the index.
- Sse.StreamTaskChunks: decoding bytes and parsing the payload as JSON are left out; events are the payload texts.
- Sse.StreamLines: the line splitting of the HTTP library is `PyLines`, applied to a whole text.
- SseRoundTrip.FramingRoundTrip: streams that mix kinds of line ends, a byte order mark, fields whose name starts with a blank, and a data field without a colon are left out; comments and other fields with one of Python's other line breaks are covered for TypeScript, and for Python only if some data has one too.
- SseRoundTrip.PyIff: with one of Python's other line breaks in a comment or other field, but in no data, nothing is said.
- SseRoundTrip.CutStream: only streams with line feeds; the line in which a stream is cut is itself a line of the cut event.
- Negotiation.Services.Respond: the clock is read once per call; that a token or identifier is unused is a check with an integrity error, as the tables' constraints give.
- Negotiation.Services.SendMessage: resolution of recipient and sender, signatures and payload schemas are parameters; duplicates are recognised by the message identifier only.
- TaskStream.StreamStore.AppendChunk: authorization of participants is left out, and so is the one-hour limit of a reader, which may be closed at any step instead; the status of the work item is not part of the interleaving.
- RateLimit.Limiter.Dispatch: response headers, the anomaly counter and the second handler call after an exception are left out; a key is a pair of client and path.
- TrustScore.ComputeTrustScore: floating point is real arithmetic with rounding to the nearest, ties to even; NaN values are left out, and the age factor of the instant is a parameter.
- TrustScore.TrustService.RecordOutcome: the latency target is a parameter, anomaly checks are left out, and repeated reports of one result count each time, as in the code.
- Escrow.Marketplace.CreateEscrow: upper case and alphanumeric tests cover ASCII, stripping covers the blank; amounts arrive as numbers.
- Escrow.RowsOverRuns: deletion of listings or agents, which removes or unlinks rows, is left out.
- Endorsements: the score they produce is not among the installed components.
