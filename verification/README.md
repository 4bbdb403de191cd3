# Queue control plane: a verified model

A Dafny model of the evidence and state machines of a queue control plane for
coding-agent runs, with proofs of what they promise. `dafny verify dfyconfig.toml`
checks everything.

| part | files |
|---|---|
| Capacity gate lifecycle replay | `GateModel`, `GateTable`, `GateLineage`, `GateEvidence`, `GateAdmission`, `GateEffects`, `GateReasons`, `GateClosure`, `GateLedger`, `GateReplay`, `BaselineCheck`, `GateExamples` |
| Pre-execution delegation receipts | `DelegationModel`, `DelegationProtocol`, `DelegationSteps`, `DelegationBarrier`, `DelegationOutlook`, `Delegation` |
| Queue mutation plans | `DependencyGraph`, `PlanModel`, `PlanDependencies`, `PlanCycles`, `ApplyPlan` |
| Target ordering and its canary | `TargetOrdering`, `CanaryCohort`, `CanaryModel`, `CanaryClaims`, `Canary` |
| Capability posterior | `BeliefDedup`, `BeliefPosterior`, `BeliefReport` |
| Line framing, durations, graph listing, column widths | `LineFraming`, `Cooldown`, `GraphListing`, `ColumnWidths` |
| Shared | `Options`, `IdOrder` |

Where the program updates state in place (`GateReplay`, `Delegation`, `ApplyPlan`,
`Canary`, `GraphListing`, `DependencyGraph`) the model is a class or a loop whose
methods are proved against a specification function or predicate; the theorems are
about that specification, for every input and every run.

## How the unseen parts are read

- A digest that serves as an identity is ideal: a decision or wake key is the tuple of
  fields it digests, a canary record is identified by its content. In the delegation
  model the digest is an arbitrary function, and `Injective` is a hypothesis of exactly
  the theorems that need it.
- Instants are integers. The delegation protocol's clock never runs backwards; the gate
  replay, whose event times are input, assumes no order beyond what its own sequence
  check establishes.
- A record that the program parses and validates is a typed datatype, and the facts the
  validators establish are predicates (`ValidRequest`, `ValidDecision`, `ValidPolicy`).
- Floating-point weights are reals.

## What the proofs turned up

1. **Reopening breaks closure.** A fresh gate may not name a predecessor, while the
   baseline validator demands one as soon as an earlier defer of the resource exists. So
   the outcome of a run is a valid baseline again exactly when nothing reopened
   (`ClosureExactlyWithoutReopening`); a baseline is enough for this to happen, a release
   is not needed, since a baseline may hold defers without an active gate.
   The evidence can also come to hold two decisions of one key: `FullClosure` says exactly
   when, `ReleaseConflictsWithBaseline` shows it.
2. **Defers are not always unique.** The wake branch appends without the duplicate check,
   and a decision key leaves out the predecessor. Over a baseline holding a defer observed
   later than the first event, a wake can record that defer's key again
   (`ReopenedRunIsNotABaseline`). `DefersUniqueUnlessResurrected` says exactly when, and
   `TimelyBaselineKeepsDefersUnique` gives a condition on the request that rules it out.
3. **A gate can open above the threshold.** A decision event with recovery evidence, which
   must measure above the threshold, and a defer action passes every check and opens a
   gate. `docs/capacity-gate-lifecycle-simulation.md` speaks of threshold-at-or-below
   evidence there; the model follows the code (`GateOpensAboveThreshold`).
   `ChangesRestOnEvidence` says what does hold: a change is measured above the threshold
   exactly when its evidence is of the recovery kind.
4. **A task can block for good.** When an attempt fails between its receipt and its
   snapshot without being recovered, or before its receipt, and the task is requeued and
   claimed again, no continuation ever opens the barrier. `CanOpenExact` says from which
   states one does; `AttemptCanBeLeftOpen` and `ReceiptCanBeMissed` give the runs. Hence the
   barrier's condition has two halves in `BarrierExact`, and one in `OrderlyBarrier` and
   `BarrierWithoutRequeue`.
5. **The dry run follows fewer writes than apply performs.** The simulation follows
   `dependency_changes` only; apply writes `fields.depends_on` for every operation.
   `CycleExact` says exactly which operations can leave a cycle behind an accepting dry
   run, `StrayDependencyMakesCycle` is a small instance, and `StrayFreePlanStaysAcyclic`
   covers every accepted plan without such an operation. `SafeOpExact` is the exact
   condition for the simulated dependencies to cover the applied ones.
6. **Ties in deduplication.** Two different records of one root equal in time, attempt and
   projection id make the report depend on the input order, even when they differ only in
   latency or token usage, which the id leaves out (`OrderFreeExact`,
   `DetailsAreNotOrdered`, `ReportOrderFreeExact`); distinct projection ids exclude it.
7. **A stream of exactly the limit.** Without an answer in it, it is reported as
   `output_limit` and not as ended, so the plain answer is promised only strictly below
   the limit (`ReadBounded`).
8. **A printed `0m` cannot be read back.** Durations under a minute print as `0m`, which the
   parser refuses; `DurationRoundTrip` covers both sides.

## Model

| member | source | states |
|---|---|---|
| `GateLineage.RunKeepsInvariant` | src/codex_batch_runner/capacity_gate_lifecycle_simulation.py:307-333 | After any number of events of any run from an accepted baseline, failed or not: one gate per resource; every active gate is the projection of the latest defer of its resource; every predecessor a defer names is the defer just before it for that resource, with a strictly smaller reset; the history extends the baseline history; the gates of all other resources are the baseline ones |
| `GateLineage.CommitKeepsInvariant` | src/codex_batch_runner/capacity_gate_lifecycle_simulation.py:583-703 | One event, whatever branch it takes, keeps that invariant |
| `GateLineage.JudgeAdmits` | src/codex_batch_runner/capacity_gate_lifecycle_simulation.py:831-891 | What each committed change rests on: scope and observation time bound; no change but a wake repeats a recorded key; a fresh gate needs an empty slot and no predecessor; a replacement names the active gate and resets later; a release revalidates exactly that gate, after the grace period, on recovery evidence above the threshold |
| `GateLineage.Lineage` | src/codex_batch_runner/capacity_gate_lifecycle_simulation.py:1034-1056 | The supersession chain of a defer stays inside the history and the resource, and starts at the defer itself |
| `GateLineage.LineageDescends` | src/codex_batch_runner/capacity_gate_lifecycle_simulation.py:1038-1054 | The chain runs back through named predecessors with strictly smaller resets to a defer with none |
| `GateLineage.ActiveGateLineage` | src/codex_batch_runner/capacity_gate_lifecycle_simulation.py:788-812 | In every state of every run the active gate of any resource heads such a chain |
| `GateLineage.GateLeavesOnlyByRelease` | src/codex_batch_runner/capacity_gate_lifecycle_simulation.py:717-758 | A slot empties only by a release whose event comes at least the grace period after every reset in the gate's whole chain, measures strictly more than the threshold, decides allow, and names that gate |
| `GateLineage.GateIsReplacedOnlyByLaterReset` | src/codex_batch_runner/capacity_gate_lifecycle_simulation.py:787-812 | A gate that is replaced belongs to the scoped resource, and its successor resets strictly later, is the event's own decision, and names the replaced one |
| `GateLineage.HistoryGrows` | src/codex_batch_runner/capacity_gate_lifecycle_simulation.py:1536-1540 | Over any stretch of a non-failing run the evidence history is append-only |
| `GateLineage.LatestDefer` | src/codex_batch_runner/capacity_gate_lifecycle_simulation.py:1055-1056 | The recorded position is the last defer of the resource, or there is none |
| `GateEvidence.LatestObservationExact` | src/codex_batch_runner/capacity_gate_lifecycle_simulation.py:894-904 | Of strictly ordered observations the one looked up is the newest not after the event |
| `GateEvidence.NamesNewestObservation` | src/codex_batch_runner/capacity_gate_lifecycle_simulation.py:502-531 | An event that is not rejected names that observation, and its status is known |
| `GateEvidence.RecordedEvidence` | src/codex_batch_runner/capacity_gate_lifecycle_simulation.py:844-858 | Over a run: every change appends exactly its decision; a hard exclusion is a defer measured at or below the threshold; an allow is recorded only above it |
| `GateAdmission.RunFailsExactly` | src/codex_batch_runner/capacity_gate_lifecycle_simulation.py:307-333 | A run fails at an event if and only if the event is not admissible in the state reached: it is not covered by a global reset no earlier than its own, and not both cleared (open newest global observation, authority, binding, evidence) and of one of the shapes its branch lets pass |
| `GateAdmission.AdmissionExact` | src/codex_batch_runner/capacity_gate_lifecycle_simulation.py:491-703 | The same for any event in any state, in terms of the fields of request, event and state alone |
| `GateAdmission.RecordedWhereConflictFree` | src/codex_batch_runner/capacity_gate_lifecycle_simulation.py:596-617 | Where no two records share a key with different content, the duplicate lookup finds the decision itself if and only if it was recorded |
| `GateEffects.RunStepEffect` | src/codex_batch_runner/capacity_gate_lifecycle_simulation.py:491-703 | Every event a run goes on after has exactly the stated effect: which gate fills or leaves the slot, what is recorded, which wake entry is added, what disposition and preview show; and is reported under its own position, id and key |
| `GateEffects.RepeatedKeyExact` | src/codex_batch_runner/capacity_gate_lifecycle_simulation.py:596-617 | A cleared decision event whose key is recorded: the very same decision passes, previews no_change and changes nothing; a different one fails the run |
| `GateReasons.ReasonTells` | src/codex_batch_runner/capacity_gate_lifecycle_simulation.py:491-891 | Every reason reported, of a passing or a failing event, holds, with every check before it passed |
| `GateReasons.SequenceTells` | src/codex_batch_runner/capacity_gate_lifecycle_simulation.py:469-488 | The sequence check passes if and only if every event is in place, and otherwise names the reason of the first that is not |
| `GateReasons.ReportTells` | src/codex_batch_runner/capacity_gate_lifecycle_simulation.py:281-333 | What a report shows without typed evaluation, out of sequence, without events, and otherwise: the preview and reason of the last event judged, all of them judged unless one failed |
| `GateClosure.ClosureExactlyWithoutReopening` | src/codex_batch_runner/capacity_gate_lifecycle_simulation.py:1026-1076 | The state a non-failing run ends in passes the binding check again if and only if no event opened a fresh gate while the history already held a defer for the resource |
| `GateClosure.FullClosure` | src/codex_batch_runner/capacity_gate_lifecycle_simulation.py:961-983 | With the two duplicate checks of request validation, it passes the key-conflict and wake-key checks of a baseline too if and only if, besides, no wake took effect whose decision conflicts with a baseline decision of the same key |
| `GateClosure.ConflictFreeExact` | src/codex_batch_runner/capacity_gate_lifecycle_simulation.py:596-617 | At every point of a run no two records share a key with different content exactly as long as no such wake took effect |
| `GateClosure.ConflictOnlyByWake` | src/codex_batch_runner/capacity_gate_lifecycle_simulation.py:743 | An event adds a conflicting record if and only if it is a wake that takes effect over a conflict with the baseline's own evidence: decision events are checked, and the events agree among themselves |
| `GateClosure.AppendsAreEvents` | src/codex_batch_runner/capacity_gate_lifecycle_simulation.py:307-333 | Every record beyond the baseline history came with an earlier event of the run |
| `GateClosure.UnbrokenUnlessReopened` | src/codex_batch_runner/capacity_gate_lifecycle_simulation.py:646-694 | At every point of a run the chain of defers is without a break exactly as long as nothing reopened |
| `GateClosure.UnbrokenResetsGrow` | src/codex_batch_runner/capacity_gate_lifecycle_simulation.py:1045-1054 | In a history the validator accepts, the resets of one resource's defers grow strictly |
| `GateClosure.DefersUniqueUnlessResurrected` | src/codex_batch_runner/capacity_gate_lifecycle_simulation.py:743-768 | Defer decisions stay unique by key exactly as long as no wake event supersedes with the key of a defer from the baseline |
| `GateClosure.TimelyBaselineKeepsDefersUnique` | src/codex_batch_runner/capacity_gate_lifecycle_simulation.py:596-617 | That never happens when no baseline defer of the resource was observed after the first event: then defers are unique in every run |
| `GateClosure.RunAppendsBefore` | src/codex_batch_runner/capacity_gate_lifecycle_simulation.py:476-487 | Everything a run appended was observed no later than the event it has reached |
| `GateExamples.ReopenedRunIsNotABaseline` | src/codex_batch_runner/capacity_gate_lifecycle_simulation.py:811-812 | A concrete run over an accepted baseline, past every check before the replay, that reopens the resource and then repeats a baseline key: the outcome is rejected as a baseline and holds a duplicate defer |
| `GateExamples.ReleaseConflictsWithBaseline` | src/codex_batch_runner/capacity_gate_lifecycle_simulation.py:743 | A concrete release whose allow repeats the key of a baseline allow with other content: nothing reopens, the bindings hold again, and the outcome is still no acceptable baseline |
| `GateExamples.GateOpensAboveThreshold` | src/codex_batch_runner/capacity_gate_lifecycle_simulation.py:856-858 | A concrete event with recovery evidence above its threshold and a defer action that opens a gate |
| `GateLedger.ReportReplays` | src/codex_batch_runner/capacity_gate_lifecycle_simulation.py:637-758 | Reading the previews in order against the register, replace and remove lists reconstructs the active decision of the resource after every event of a non-failing run; every list entry is used once and in order and equals, in every field, the entry of the gate that opens, moves or goes just then; the reading ends at the run's disposition; a fresh hard exclusion uses no entry |
| `GateLedger.ReadKeyIsWholeGate` | src/codex_batch_runner/capacity_gate_lifecycle_simulation.py:1524-1533 | The key so reconstructed determines the whole active gate |
| `GateLedger.EvidenceIsConserved` | src/codex_batch_runner/capacity_gate_lifecycle_simulation.py:1536-1540 | The final history is the baseline history followed by exactly the decisions of the events whose result says they were recorded, in event order |
| `GateLedger.FailureRestoresBaseline` | src/codex_batch_runner/capacity_gate_lifecycle_simulation.py:320-333 | Results are numbered in order, only the last can be fail_closed, and after it the state is the baseline with empty lists |
| `GateLedger.ReportIsAllOrNothing` | src/codex_batch_runner/capacity_gate_lifecycle_simulation.py:307-333 | A fail_closed report shows the untouched baseline; any other report replays to its own final gate and history |
| `GateLedger.SequenceCheckExact` | src/codex_batch_runner/capacity_gate_lifecycle_simulation.py:469-488 | The sequence check passes if and only if every event is in time order, names its predecessor and a known observation, and is not after the replay clock |
| `GateLedger.SequenceCheckOrders` | src/codex_batch_runner/capacity_gate_lifecycle_simulation.py:476-487 | After it, any two events are in time order and none is after the replay clock |
| `GateTable.SetGateLookup` | src/codex_batch_runner/capacity_gate_lifecycle_simulation.py:1509-1521 | Setting a gate replaces that resource's entry and no other, and leaves the table sorted with one gate per resource |
| `GateTable.RemoveGateLookup` | src/codex_batch_runner/capacity_gate_lifecycle_simulation.py:744 | Removing the active gate empties its slot and no other |
| `GateTable.ActiveGateIsMember` | src/codex_batch_runner/capacity_gate_lifecycle_simulation.py:1495-1506 | With one gate per resource, lookup finds a gate exactly when the table holds it |
| `GateReplay.Replay.SetActiveGate` | src/codex_batch_runner/capacity_gate_lifecycle_simulation.py:1509-1521 | The in-place update computes the table those lemmas speak about and touches nothing else |
| `GateReplay.Replay.RemoveGate` | src/codex_batch_runner/capacity_gate_lifecycle_simulation.py:744 | The in-place removal takes out the first equal gate and touches nothing else |
| `GateReplay.Replay.SupersedeActiveGate` | src/codex_batch_runner/capacity_gate_lifecycle_simulation.py:777-828 | Verdict and whole new state, for every active gate and decision |
| `GateReplay.Replay.ApplyWakeRevalidation` | src/codex_batch_runner/capacity_gate_lifecycle_simulation.py:706-774 | Verdict and whole new state of a wake event |
| `GateReplay.Replay.ApplyExhaustion` | src/codex_batch_runner/capacity_gate_lifecycle_simulation.py:619-661 | Verdict and whole new state of a hard exclusion |
| `GateReplay.Replay.ApplyDecision` | src/codex_batch_runner/capacity_gate_lifecycle_simulation.py:596-703 | Verdict and whole new state of a decision event, duplicates first; what the verdict means is the admission, effect and reason theorems |
| `GateReplay.Replay.ApplyTargetEvent` | src/codex_batch_runner/capacity_gate_lifecycle_simulation.py:568-703 | Verdict and whole new state once the global gate allows |
| `GateReplay.Replay.ApplyEvent` | src/codex_batch_runner/capacity_gate_lifecycle_simulation.py:491-703 | Verdict, reported result and whole new state of one event |
| `GateReplay.ReplayOne` | src/codex_batch_runner/capacity_gate_lifecycle_simulation.py:307-333 | One iteration of the loop is one step of the run the theorems quantify over, rollback included |
| `GateReplay.CheckSequence` | src/codex_batch_runner/capacity_gate_lifecycle_simulation.py:469-488 | The one-pass check finds the first failure in event order |
| `GateReplay.BuildReport` | src/codex_batch_runner/capacity_gate_lifecycle_simulation.py:281-333 | The imperative replay produces exactly the report those theorems, and the closure and ledger theorems, are about |
| `GateReplay.VerdictShows` | src/codex_batch_runner/capacity_gate_lifecycle_simulation.py:510-582 | An event previews fail_closed exactly when it was rejected |
| `GateReplay.FailedRunStays` | src/codex_batch_runner/capacity_gate_lifecycle_simulation.py:320-333 | Nothing after a failed event changes state or results |
| `BaselineCheck.CheckHistory` | src/codex_batch_runner/capacity_gate_lifecycle_simulation.py:1034-1056 | The one-pass history check accepts exactly the unbroken histories and otherwise names the first break, with a fault that holds of it |
| `BaselineCheck.CheckGate` | src/codex_batch_runner/capacity_gate_lifecycle_simulation.py:1057-1076 | The four gate checks pass exactly when the gate is the projection of the latest defer of its resource; a fault holds of the gate |
| `BaselineCheck.Validate` | src/codex_batch_runner/capacity_gate_lifecycle_simulation.py:1026-1076 | Accepts exactly the baselines the closure theorem speaks of, history faults first |
| `DelegationProtocol.RunKeepsSound` | src/codex_batch_runner/execution_delegation.py:273-366 | Every run of claim, append, snapshot, recover, abandon, requeue and finish steps from enqueueing keeps receipts chained, numbered and valid, one receipt phase and at most one closing phase per attempt in sequence, and the current claim bound |
| `DelegationProtocol.NextKeepsSound` | src/codex_batch_runner/execution_delegation.py:416-483 | So does each single step |
| `DelegationProtocol.AttemptCloses` | src/codex_batch_runner/execution_delegation.py:755-774 | A closing phase added to an open attempt keeps every attempt's pair |
| `DelegationBarrier.BarrierExact` | src/codex_batch_runner/execution_delegation.py:615-653 | In every reachable state the launch barrier is open if and only if the current attempt closed with its snapshot and no attempt was left without a closing phase |
| `DelegationBarrier.OrderlyBarrier` | src/codex_batch_runner/execution_delegation.py:674-752 | Unless a failed task was requeued in the middle of an attempt: exactly when the current attempt has its snapshot phase; not before its receipt, not between the two, not after a recovery that came first |
| `DelegationBarrier.BarrierWithoutRequeue` | src/codex_batch_runner/execution_delegation.py:674-752 | So in every run without a requeue, with no further condition |
| `DelegationOutlook.CanOpenExact` | src/codex_batch_runner/execution_delegation.py:282-319 | From any state that keeps the invariant some continuation opens the barrier if and only if no earlier attempt is left open, no attempt lacks its receipt but a current one still running, and no open attempt has stopped running |
| `DelegationOutlook.LostIsBlockedForever` | src/codex_batch_runner/execution_delegation.py:688-715 | Once one of these fails every continuation keeps it so and the barrier closed |
| `DelegationOutlook.LostStaysLost` | src/codex_batch_runner/execution_delegation.py:309-319 | No step brings back a missing receipt, a missing closing phase or an attempt that stopped open |
| `DelegationOutlook.ViableCanOpen` | src/codex_batch_runner/execution_delegation.py:309-366 | Otherwise claim, append and snapshot steps that open it exist, after a requeue where needed |
| `DelegationOutlook.AttemptCanBeLeftOpen` | src/codex_batch_runner/execution_delegation.py:359-365 | From any enqueued task a run leaves an attempt open: claim, append, failure, requeue, claim |
| `DelegationOutlook.ReceiptCanBeMissed` | src/codex_batch_runner/runner.py:370-399 | From any enqueued task claim, failure, requeue, claim leaves an attempt without its receipt and none open |
| `DelegationBarrier.CanonicalIsSnapshotted` | src/codex_batch_runner/execution_delegation.py:723-743 | A history the check accepts has a closing phase for every attempt and a snapshot for the current one |
| `DelegationBarrier.SnapshottedIsCanonical` | src/codex_batch_runner/execution_delegation.py:674-752 | Conversely, a reachable complete history with the current snapshot is accepted |
| `DelegationBarrier.PhasesOnlyForCurrent` | src/codex_batch_runner/execution_delegation.py:416-483 | Receipts, phases and captures are append-only, and no step touches the phases of an attempt that is over |
| `DelegationBarrier.RecoveryClosesOpen` | src/codex_batch_runner/execution_delegation.py:437-453 | Recovering an open attempt always succeeds and closes it |
| `DelegationBarrier.RecoveryAddsNothingElse` | src/codex_batch_runner/execution_delegation.py:416-453 | Recovery leaves receipts alone, and on an attempt that is not open it changes nothing at all |
| `DelegationBarrier.AppendIsIdempotent` | src/codex_batch_runner/execution_delegation.py:282-308 | Appending again for the same attempt returns the recorded receipt for the same target and is refused for any other |
| `DelegationBarrier.LastIdentityFixesHistory` | src/codex_batch_runner/execution_delegation.py:695-708 | With an injective digest, two accepted histories with the same last receipt identity have the same length and agree on every field of every receipt but the recording time; their contracts agree on all a receipt binds, the contract digest included, so that digest need not be assumed equal |
| `DelegationBarrier.EqualTipsFrom` | src/codex_batch_runner/execution_delegation.py:831-835 | The same for each receipt, walking back along the predecessors |
| `DelegationSteps.RecoverExact` | src/codex_batch_runner/execution_delegation.py:416-453 | From every reachable running state recovery makes the task runnable if and only if the attempt has its receipt, open or closed, and fails it otherwise; an open attempt gains one recovery phase naming its receipt, and a closed one keeps its histories |
| `DelegationSteps.AppendExact` | src/codex_batch_runner/execution_delegation.py:282-319 | From every reachable running state an append adds a receipt if and only if the attempt awaits its first, returns the recorded one if and only if it is for the same target, and is refused otherwise |
| `DelegationSteps.AppendBinds` | src/codex_batch_runner/execution_delegation.py:320-366 | An appended receipt binds contract, attempt, target, claim, lease, position and predecessor, and its phase comes with it; any other outcome leaves the histories alone |
| `DelegationSteps.AppendTells` | src/codex_batch_runner/execution_delegation.py:205-319 | From any state: a refusal gives a fault that holds, with every check before it passed; an answer with an existing receipt is one of the attempt bound to the claim |
| `DelegationSteps.RecoveryTells` | src/codex_batch_runner/execution_delegation.py:422-453 | A refused recovery gives a fault that holds, with every check before it passed |
| `DelegationSteps.SnapshotExact` | src/codex_batch_runner/runner.py:445-456 | A snapshot closes a running attempt that is open, with a capture of new identity, and otherwise nothing happens |
| `DelegationSteps.CanonicalExact` | src/codex_batch_runner/execution_delegation.py:674-752 | The canonical histories, clause by clause: valid receipts with different identities, an unbroken chain, numbered phases in pairs, and every attempt properly closed |
| `DelegationSteps.PhaseTells` | src/codex_batch_runner/execution_delegation.py:709-751 | An attempt has no phase fault if and only if it is properly closed; a fault holds, with every check before it passed |
| `DelegationSteps.BarrierMeans` | src/codex_batch_runner/execution_delegation.py:615-653 | The barrier lets pass an undelegated task, and otherwise exactly a canonical history whose one receipt of the attempt raises no objection of the current claim |
| `Delegation.DelegatedTask.AppendReceipt` | src/codex_batch_runner/execution_delegation.py:195-366 | Outcome and whole new state; a refusal changes nothing |
| `Delegation.DelegatedTask.RecordRecovery` | src/codex_batch_runner/execution_delegation.py:416-453 | Fault or recovery phase as specified, nothing else changed |
| `Delegation.DelegatedTask.CheckHistory` | src/codex_batch_runner/execution_delegation.py:674-752 | Accepts exactly the canonical histories and otherwise gives a fault that holds |
| `Delegation.DelegatedTask.CheckChain` | src/codex_batch_runner/execution_delegation.py:695-751 | The loop with its running predecessor passes exactly when every receipt is chained and properly closed, and otherwise names what is wrong with the first that is not |
| `Delegation.DelegatedTask.RequireReceipt` | src/codex_batch_runner/execution_delegation.py:456-464 | Raises nothing exactly when the barrier is open, and otherwise a fault that holds |
| `DependencyGraph.FindCycle` | src/codex_batch_runner/apply_plan.py:591-618 | Terminates on every finite graph, answers empty if and only if the graph between its keys is acyclic, and otherwise returns a closed walk whose consecutive nodes are edges |
| `DependencyGraph.CycleSearch.Visit` | src/codex_batch_runner/apply_plan.py:596-612 | A search from any node either returns a genuine closed walk or restores the stack and marks the node, everything marked being listed dependencies first |
| `DependencyGraph.OrderedIsAcyclic` | src/codex_batch_runner/apply_plan.py:609-612 | A listing of all keys with dependencies first leaves no closed walk |
| `DependencyGraph.SubgraphIsAcyclic` | src/codex_batch_runner/apply_plan.py:516-521 | Taking away edges and keys keeps a graph acyclic |
| `PlanModel.ApplyRefinesSimulation` | src/codex_batch_runner/apply_plan.py:223-234 | After every prefix of a safe plan each existing task's applied dependency set is contained in its simulated one |
| `PlanModel.SimulationIsExact` | src/codex_batch_runner/apply_plan.py:299-300 | The two are equal when no other operation carries `fields.depends_on` and every `dependency_changes` one leaves it out or gives a list |
| `PlanModel.AcceptedPlanStaysAcyclic` | src/codex_batch_runner/apply_plan.py:122-133 | So an accepted safe plan leaves an acyclic queue |
| `PlanModel.SafeOpExact` | src/codex_batch_runner/apply_plan.py:490-500 | An operation is covered by the simulation from every covered state if and only if it is safe: a `dependency_changes`, no targets, no object `fields`, no list there, or a list that writes no id |
| `PlanCycles.CycleExact` | src/codex_batch_runner/apply_plan.py:85-133 | Some queue accepts the operation in a dry run, has it applied, and is left with a cycle if and only if the operation is supported, can pass at all, and writes an id to a target that the dry run neither follows nor creates |
| `PlanCycles.NoStrayNoCycle` | src/codex_batch_runner/apply_plan.py:129-133 | From any queue, an accepted operation that writes no such id leaves the queue acyclic |
| `PlanCycles.StrayFreePlanStaysAcyclic` | src/codex_batch_runner/apply_plan.py:208-256 | An accepted plan, of any length, none of whose operations writes such an id leaves the queue acyclic |
| `PlanCycles.StrayFreeRefines` | src/codex_batch_runner/apply_plan.py:223-234 | Because after every prefix of it the applied dependencies between tasks are among the simulated ones |
| `PlanCycles.AcceptedIsPassable` | src/codex_batch_runner/apply_plan.py:501-513 | An accepted operation is without fault and its drafts have new, distinct ids it does not mention elsewhere |
| `PlanCycles.TrapIsAcyclic` | src/codex_batch_runner/apply_plan.py:481-513 | The witness queue, of just the ids mentioned, is acyclic in the dry run |
| `PlanCycles.TrapSprings` | src/codex_batch_runner/apply_plan.py:299-300 | and has a closed walk after the operation is applied |
| `PlanCycles.DraftsPass` | src/codex_batch_runner/apply_plan.py:501-513 | Drafts pass exactly when their ids are non-empty, new and distinct and none depends on itself |
| `DependencyGraph.RankedIsAcyclic` | src/codex_batch_runner/apply_plan.py:591-618 | A rank that falls along every edge leaves no closed walk |
| `PlanModel.StrayDependencyMakesCycle` | src/codex_batch_runner/apply_plan.py:267-268 | A concrete accepted and supported plan that leaves a cycle: a replan carrying `fields.depends_on` |
| `PlanModel.SimPlan` | src/codex_batch_runner/apply_plan.py:125-126 | A plan the simulation accepts names only existing tasks as targets, and no task drops out of the simulated graph |
| `PlanDependencies.MutateMeans` | src/codex_batch_runner/apply_plan.py:310-317 | After a change of dependencies an id is one if and only if no remove field gives it, of `fields` or of the top level, and some add field does, or the replacing list has it, or, without one, it was one before |
| `PlanDependencies.AppliedMeans` | src/codex_batch_runner/apply_plan.py:261-271 | The list left on a target: for a change of dependencies exactly the ids that remain of the updated list, each once, in order; otherwise the field update, entries turned into strings |
| `PlanDependencies.SimulatedMeans` | src/codex_batch_runner/apply_plan.py:490-500 | The dry run changes exactly the nodes of existing targets of a dependency change, in the same way, and finds fault exactly with one that then depends on itself |
| `PlanDependencies.OperationPassesExactly` | src/codex_batch_runner/apply_plan.py:170-189 | The dry run finds no fault with an operation if and only if its targets are tasks, every id it mentions is a task or was created by an earlier operation, no touched node comes to depend on itself, the drafts are new, and nothing else is at fault |
| `ApplyPlan.PlanSimulation.SimulateTargets` | src/codex_batch_runner/apply_plan.py:490-500 | Whatever the order in which the target set is walked, the graph and the fault flag come out the same |
| `ApplyPlan.PlanSimulation.SimulateDrafts` | src/codex_batch_runner/apply_plan.py:501-513 | Drafts in order: missing or taken ids and self-dependencies are faults, other drafts become graph nodes |
| `ApplyPlan.DryRun` | src/codex_batch_runner/apply_plan.py:85-133 | Accepts if and only if no operation is at fault and the simulated graph is acyclic; a reported cycle is one of that graph |
| `ApplyPlan.ApplyToTask` | src/codex_batch_runner/apply_plan.py:261-283 | The list left on a task is the one the fields of the operation ask for, id by id |
| `ApplyPlan.SortedItems` | src/codex_batch_runner/apply_plan.py:271 | A dependency set is written back as its ids, each once, in order |
| `ApplyPlan.Queue.ApplyOperation` | src/codex_batch_runner/apply_plan.py:227-233 | Every target and no other task changes, as specified |
| `ApplyPlan.Queue.ApplyPlan` | src/codex_batch_runner/apply_plan.py:208-256 | Applies if and only if the dry run accepts and every operation is supported; refused plans change nothing; an applied plan leaves every target as its operations ask, and without stray ids an acyclic queue |
| `IdOrder.SortIds` | src/codex_batch_runner/apply_plan.py:614 | The elements of a set, each once, in order |
| `TargetOrdering.MoveToFrontPermutes` | src/codex_batch_runner/capacity_target_ordering_simulation.py:219-224 | Moving an eligible target to the front is a permutation with that target first |
| `TargetOrdering.OthersKeepOrder` | src/codex_batch_runner/capacity_target_ordering_simulation.py:221-224 | Every other pair of targets keeps its order |
| `TargetOrdering.AcceptedExact` | src/codex_batch_runner/capacity_target_ordering_simulation.py:322-370 | A report passes the order checks if and only if it keeps the baseline order and target, or moves one other target of it to the front |
| `TargetOrdering.BuildOrdering` | src/codex_batch_runner/capacity_target_ordering_simulation.py:189-228 | The built ordering passes the report's order checks; an alternative is chosen if and only if all gates pass, no resume target is set and the recommendation is eligible and not the baseline |
| `CanaryModel.RunKeepsSound` | src/codex_batch_runner/capacity_target_ordering_canary.py:680-725 | From empty histories every run keeps histories that reconstruction accepts, and every canary but the last is closed by an outcome that is not adverse |
| `CanaryModel.AtMostOneUnresolved` | src/codex_batch_runner/capacity_target_ordering_canary.py:706-714 | At most one canary is ever without its outcome |
| `CanaryModel.NoCanaryAfterAdverse` | src/codex_batch_runner/capacity_target_ordering_canary.py:715-725 | After an adverse outcome no run decides another canary |
| `CanaryModel.HistoriesGrow` | src/codex_batch_runner/capacity_target_ordering_canary.py:464-489 | Both histories are append-only |
| `CanaryModel.RecordIsValid` | src/codex_batch_runner/capacity_target_ordering_canary.py:772-842 | Every decision record a claim builds passes the record validator, its assigned flag included |
| `CanaryModel.DispatchIsEligible` | src/codex_batch_runner/capacity_target_ordering_canary.py:168-194 | The dispatched target is always in the baseline order, and one other than the baseline has a recorded valid canary decision that moves it to the front |
| `CanaryModel.DispatchExact` | src/codex_batch_runner/capacity_target_ordering_canary.py:744-769 | A claim leaves the baseline target if and only if every guard agrees |
| `CanaryModel.ClaimKeepsSound` | src/codex_batch_runner/capacity_target_ordering_canary.py:125-194 | A claim keeps that invariant |
| `CanaryModel.OutcomeKeepsSound` | src/codex_batch_runner/capacity_target_ordering_canary.py:492-572 | So does recording an outcome |
| `CanaryModel.OutcomeClosesLast` | src/codex_batch_runner/capacity_target_ordering_canary.py:492-572 | An outcome closes the last decision of the attempt, or of the next one for a failed task whose own attempt has none, and is adverse with a rollback exactly when the task is not completed |
| `CanaryModel.LastOfAttempt` | src/codex_batch_runner/capacity_target_ordering_canary.py:501-519 | The decision picked is the last of its attempt in the history |
| `CanaryClaims.UnrecordedExact` | src/codex_batch_runner/capacity_target_ordering_canary.py:143-166 | A claim leaves no record if and only if it is overridden, has no valid request, or raises; it raises exactly when a valid claim under a policy that is on meets rejected histories |
| `CanaryClaims.NoRunRaises` | src/codex_batch_runner/capacity_target_ordering_canary.py:680-705 | In no run from empty histories does a claim raise |
| `CanaryClaims.RecordedExact` | src/codex_batch_runner/capacity_target_ordering_canary.py:168-194 | Every other claim records a decision whose kind, reason and every bound field are as the guards and the request say, appended unless it is there, and dispatches the target recorded |
| `CanaryClaims.StopIsRecorded` | src/codex_batch_runner/capacity_target_ordering_canary.py:751-753 | Under a canary without outcome or an adverse outcome a valid claim dispatches the baseline and leaves a stop record of the attempt |
| `CanaryClaims.RejectedExact` | src/codex_batch_runner/capacity_target_ordering_canary.py:680-705 | Histories are rejected if and only if a record is bad, a decision is repeated, an outcome names an unknown decision, or a decision is closed twice |
| `CanaryClaims.NoOutcomeExact` | src/codex_batch_runner/capacity_target_ordering_canary.py:497-530 | No outcome is recorded if and only if no decision of the attempt is found, or the last one is closed already |
| `Canary.CanaryTask.Reconstruct` | src/codex_batch_runner/capacity_target_ordering_canary.py:680-725 | Rejects exactly the unsound histories and otherwise reports the stop rule and the unresolved decisions |
| `Canary.CanaryTask.ApplyCanaryClaim` | src/codex_batch_runner/capacity_target_ordering_canary.py:125-194 | Dispatched target, whole new state and status of a claim; an error if and only if a valid claim under a policy that is on meets rejected histories |
| `Canary.CanaryTask.RecordOutcome` | src/codex_batch_runner/capacity_target_ordering_canary.py:492-572 | The outcome of the last matching decision, once |
| `CanaryCohort.AssignedByRounds` | src/codex_batch_runner/capacity_target_ordering_canary.py:924-939 | How many words below any bound are assigned, by whole rounds of the modulus and a remainder |
| `CanaryCohort.CohortShare` | src/codex_batch_runner/capacity_target_ordering_canary.py:809-815 | For every percentage up to 100 and every number of words, the count is never under the exact share and exceeds it by less than 100 words per percent |
| `CanaryCohort.CohortExcess` | src/codex_batch_runner/capacity_target_ordering_canary.py:939 | Over all 64-bit words, up to the ceiling, the excess is exactly 83.84 words per percent |
| `BeliefDedup.OrderFreeExact` | src/codex_batch_runner/capability_belief.py:253-266 | Deduplication gives every input order the same answer if and only if the input is rejected in every order or no root has two different records tied for latest, whatever they differ in |
| `BeliefDedup.DetailsAreNotOrdered` | src/codex_batch_runner/capability_belief.py:264-265 | Two records that differ only in what the order ignores, such as latency or token usage, make the answer depend on the order |
| `BeliefDedup.DistinctIdsLeaveNoTie` | src/codex_batch_runner/capability_belief.py:264-265 | Pairwise distinct projection ids rule such ties out |
| `BeliefDedup.LatestExact` | src/codex_batch_runner/capability_belief.py:254-265 | The pass rejects exactly the inputs with two records of one root that disagree, and otherwise keeps one record of every root that none of them is later than |
| `BeliefDedup.SurvivorIsNewest` | src/codex_batch_runner/capability_belief.py:264-265 | The survivor of a root is captured no earlier than any of its records, of the greatest attempt among those of that instant, and of the greatest projection id among those of that attempt |
| `BeliefDedup.FirstReadSurvives` | src/codex_batch_runner/capability_belief.py:264-265 | Of several such records the first one read survives |
| `BeliefDedup.RejectedExact` | src/codex_batch_runner/capability_belief.py:258-263 | The pass rejects an input if and only if two records of one root differ in cohort, first-pass outcome or its time |
| `BeliefDedup.ListingIsUnique` | src/codex_batch_runner/capability_belief.py:266 | A table has one listing in root order |
| `BeliefReport.Rebuild` | src/codex_batch_runner/capability_belief.py:174-201 | The report, composed of deduplication, grouping and one posterior per cohort, for every input and every decay of timestamps |
| `BeliefReport.RebuildIsOrderFree` | src/codex_batch_runner/capability_belief.py:174-201 | Every permutation of an order-free input gives the same report, or is rejected like it |
| `BeliefReport.ReportOrderFreeExact` | src/codex_batch_runner/capability_belief.py:174-201 | The report is the same for every permutation, whatever it summarizes of a cohort, if and only if the input is rejected or no root has two different records tied for latest |
| `BeliefReport.CountsAddUp` | src/codex_batch_runner/capability_belief.py:197-200 | The inputs are the independent roots plus the dropped records, and the cohort root counts sum to the independent roots, which are the distinct roots of the input |
| `BeliefReport.EntriesAccount` | src/codex_batch_runner/capability_belief.py:233-250 | Every entry of a report has a root, effective sizes between 1 and its roots, and posterior mass equal to the prior plus the comparable weight of its records |
| `BeliefReport.PosteriorMeans` | src/codex_batch_runner/capability_belief.py:219-232 | What each counter counts: available records only but for availability itself; passes for alpha, fixes and rejects for beta, each first-pass outcome, with its prior for the Dirichlet counter, and recoveries by terminal weight |
| `BeliefReport.EntriesShow` | src/codex_batch_runner/capability_belief.py:211-212 | Every entry weighs first-pass evidence by the first-pass time and everything else by the capture time, over exactly the surviving records of its cohort |
| `BeliefReport.TalliesDetermine` | src/codex_batch_runner/capability_belief.py:219-232 | Only one posterior tallies given records and weights |
| `BeliefDedup.DeduplicateRootLineage` | src/codex_batch_runner/capability_belief.py:253-266 | The dictionary pass and the sorted listing, for every input; every record has a survivor of its root that is no older |
| `BeliefPosterior.GroupByCohort` | src/codex_batch_runner/capability_belief.py:182-185 | Cohorts in order, each group the surviving records of its cohort in root order and not empty, root counts adding up |
| `BeliefPosterior.RootCountsAddUp` | src/codex_batch_runner/capability_belief.py:197-200 | Cohort root counts sum to the independent root count |
| `BeliefPosterior.Accumulate` | src/codex_batch_runner/capability_belief.py:219-232 | The accumulation loop: each counter holds its prior plus the weights of exactly the records it stands for |
| `BeliefPosterior.CohortPosterior` | src/codex_batch_runner/capability_belief.py:210-243 | The Dirichlet mass grows by the comparable weight; alpha and beta together by all of it but the indeterminate part |
| `BeliefPosterior.QualityWeightIsConserved` | src/codex_batch_runner/capability_belief.py:224-227 | Every unit of comparable weight lands in exactly one quality outcome |
| `BeliefPosterior.AvailabilityWeightIsConserved` | src/codex_batch_runner/capability_belief.py:223 | Every unit of terminal weight lands in exactly one availability outcome |
| `BeliefPosterior.CauchySchwarz` | src/codex_batch_runner/capability_belief.py:333-334 | The square of a sum of weights is at most their number times the sum of their squares |
| `BeliefPosterior.EffectiveSizeBounds` | src/codex_batch_runner/capability_belief.py:333-334 | The effective size of n positive weights lies between 1 and n |
| `BeliefPosterior.RankIsNearest` | src/codex_batch_runner/capability_belief.py:323-325 | The percentile index is in range and is the smallest rank covering the fraction |
| `LineFraming.ReadBounded` | src/codex_batch_runner/codex_app_server_capacity.py:178-212 | For every way the stream arrives in chunks: never more than limit + 1 bytes consumed; the answer is that of splitting the whole stream at newlines when it is shorter than the limit, otherwise that answer or the output limit |
| `LineFraming.ScanIsFirstDecisive` | src/codex_batch_runner/codex_app_server_capacity.py:202-209 | Scanning byte by byte is splitting the whole stream into lines and taking the first decisive one |
| `LineFraming.AnswerIsFinal` | src/codex_batch_runner/codex_app_server_capacity.py:202-209 | Once a prefix has an answer no continuation changes it |
| `LineFraming.ScanResumes` | src/codex_batch_runner/codex_app_server_capacity.py:201-203 | A prefix without an answer can be forgotten, all but its unfinished line |
| `LineFraming.SplitRebuilds` | src/codex_batch_runner/codex_app_server_capacity.py:202-203 | Lines and tail rebuild the stream |
| `LineFraming.LinesHaveNoNewline` | src/codex_batch_runner/codex_app_server_capacity.py:202-203 | No line and no tail contains a newline |
| `LineFraming.ScanPending` | src/codex_batch_runner/codex_app_server_capacity.py:202-209 | The inner loop finds the scan's answer and leaves the unfinished line |
| `Cooldown.DurationRoundTrip` | src/codex_batch_runner/cooldown.py:157-169 | For every number of seconds, parsing the printed form with its spaces removed gives the whole minutes back from 60 on and is refused below |
| `Cooldown.ReprintedReadsTheSame` | src/codex_batch_runner/cooldown.py:106-129 | Whatever the parser accepts, printing it and parsing again gives the same duration |
| `Cooldown.PartsAreCanonical` | src/codex_batch_runner/cooldown.py:157-169 | Printed units fall strictly in size, hours under 24, minutes under 60, no zero part but a lone `0m`, and they add up to the whole minutes |
| `Cooldown.NumeralRoundTrip` | src/codex_batch_runner/cooldown.py:115 | Printing and reading a number are inverse |
| `Cooldown.AcceptedExactly` | src/codex_batch_runner/cooldown.py:106-129 | A duration is accepted if and only if what follows its sign is a text of amount-unit tokens, digits and d, h or m, worth more than nothing, and then it is their worth |
| `Cooldown.ParseRelativeDuration` | src/codex_batch_runner/cooldown.py:106-129 | The token loop computes the total of a text that is nothing but tokens, and refuses every other text and a zero total |
| `Cooldown.FormatDuration` | src/codex_batch_runner/cooldown.py:157-169 | Prints the canonical parts, space-separated |
| `GraphListing.ListSources` | src/codex_batch_runner/cli.py:2140-2169 | Each id is listed exactly once, cycles or not; tasks without an id keep their order; when ids are unique and there is no cycle every dependency precedes its dependents |
| `GraphListing.Listing.Visit` | src/codex_batch_runner/cli.py:2145-2166 | A visit from any state lists the task if it was not listed, restores the visiting set, and keeps the listing property |
| `GraphListing.NoEdgeIsDropped` | src/codex_batch_runner/cli.py:2220-2226 | In such a listing the filter to positions above keeps every edge between source tasks |
| `GraphListing.DependencyRuns` | src/codex_batch_runner/cli.py:2214-2232 | A task gets a run if and only if some dependency of it is listed above it; the run is the positions of exactly those, lowest first |
| `ColumnWidths.MinimumsFor` | src/codex_batch_runner/cli.py:2971-2988 | Reaches, for every preferred pair and width, the one pair in which the detail column gives way first, then the title, then the wider one down to a cell; the sum is the preferred one or exactly the target |
| `ColumnWidths.ShrunkExact` | src/codex_batch_runner/cli.py:2973-2987 | Those priorities leave one pair only |
| `ColumnWidths.Deal` | src/codex_batch_runner/cli.py:3001-3009 | One round: each column gets its offer, or all it still wants |
| `ColumnWidths.DealtIsFair` | src/codex_batch_runner/cli.py:2999-3009 | Rounds keep the two gains within a factor of two while both columns want more |
| `ColumnWidths.Distribute` | src/codex_batch_runner/cli.py:2995-3014 | Terminates, hands out every spare cell, gives no title cell past its desired width, overflows only into the detail column, and is fair between the two |
| `ColumnWidths.CompactWidths` | src/codex_batch_runner/cli.py:2942-2968 | With at least three cells beside the fixed columns the table is exactly as wide as the terminal; the title is never wider than its content needs |

## Left out

- Gate replay: the mapping, policy, currentness and selector checks (lines 371-466 but for the revision check of the active gate) read only the request and are one given verdict, `authority`; the closed set of their codes is not modelled.
- Gate replay: schema and digest checks of requests and reports, authority flags, empty mutation arrays, and the replayed comparison in the report validator.
- Gate replay: a resource key digests four identifiers and is a natural number here; only equality and order of keys are used.
- Delegation: `resolved_execution_identity`, execution plans and configuration digests; the resolved target is an input of an append.
- PlanDependencies.OperationPassesExactly: tasks have non-empty ids, as the task table guarantees.
- Delegation: contract admission, the reporting fields of the view, the file lock and durable saves; a step of the protocol is atomic.
- DelegationProtocol.RunKeepsSound: snapshot identities are taken to be new when captured, and the runner's guard around the unguarded snapshot phase is part of the step.
- Plans: checks that do not concern dependencies (expected state, field choices, reasons, operation names) are one flag, `otherFault`; statuses, labels and the other written fields, task events and the lock are not modelled.
- PlanCycles.CycleExact: the exact condition is on the operation; whether a given plan that holds such an operation does leave a cycle also depends on the queue and on what later operations overwrite.
- Canary: scope, revision and currentness checks of a request; an invalid request is one that fails `ValidRequest`. `rollback_reason` of a decision follows from its kind and reason and is not a field.
- CanaryCohort.CohortShare: counts 64-bit words, not digests; that the digest spreads tasks evenly is not a statement about the code.
- TargetOrdering.BuildOrdering: reason codes and the shadow report behind a recommendation.
- BeliefReport.Rebuild: the weight of a timestamp is an arbitrary positive function, and the token and latency statistics, drift and epoch of a cohort are an arbitrary function of its records; their formulas and rounding are not modelled.
- LineFraming.ReadBounded: the deadline; JSON parsing is a given classification of lines.
- Cooldown.ParseRelativeDuration: decimal digits are ASCII and there is no overflow of very long durations.
- GraphListing.ListSources: child rows, layout and colours; the input is the sorted list of source tasks.
- ColumnWidths.CompactWidths: measuring the text of cells; the widths of the contents are inputs.
- The other modules (provider reports, reservation feedback, evaluation, HTTP, git, SQLite, command line, process control), which would add mostly field-by-field checks or I/O.
