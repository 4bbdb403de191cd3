/** Delegation contracts, receipts and attempt phases, with the record checks and the
    three task updates as functions of the task.

    `digest` is the receipt identity: a function of every receipt field but the
    recording time and the identity itself.  Results that need collisions to be
    impossible say `Injective(digest)`. */
module DelegationModel {
  import opened Options

  type Digest = nat
  type Time = int

  datatype Revisions = Revisions(policy: string, execution: string, review: string)

  datatype Contract = Contract(taskId: string, taskRevision: string, revisions: Revisions, digest: Digest)

  /** `plan` is the execution plan digest a version 2 receipt carries. */
  datatype Target = Target(
    workerFamily: string, worker: Digest, targetId: string,
    snapshot: Digest, config: Digest, command: Digest, plan: Option<Digest>)

  datatype Body = Body(
    taskId: string, taskRevision: string, attempt: int, contractDigest: Digest,
    target: Target, revisions: Revisions, claimId: string, leaseSequence: int,
    position: int, predecessor: Digest)

  datatype Receipt = Receipt(body: Body, recordedAt: Time, id: Digest)

  datatype PhaseKind = ReceiptAppended | SnapshotRecorded(snapshotId: Digest) | RecoveredBeforeWorker

  datatype Phase = Phase(sequence: int, taskId: string, attempt: int, receiptId: Digest, kind: PhaseKind)

  datatype Snapshot = Snapshot(id: Digest, preWorker: bool, taskId: string, attempt: int, capturedAt: Time)

  datatype Status = Runnable | Running | Failed

  datatype Task = Task(
    id: string, contract: Option<Contract>, status: Status,
    attempts: int, runCount: int, activeRun: Option<string>,
    workerTarget: Option<string>, activeTarget: Option<Digest>,
    receipts: seq<Receipt>, phases: seq<Phase>, snapshots: seq<Snapshot>)

  ghost predicate Injective(digest: Body -> Digest) {
    forall x, y :: digest(x) == digest(y) ==> x == y
  }

  predicate ValidReceipt(digest: Body -> Digest, r: Receipt, now: Time) {
    && r.recordedAt <= now
    && r.body.attempt >= 1 && r.body.leaseSequence >= 1 && r.body.position >= 1
    && r.id == digest(r.body)
  }

  predicate ValidReceipts(digest: Body -> Digest, receipts: seq<Receipt>, now: Time) {
    forall i | 0 <= i < |receipts| :: ValidReceipt(digest, receipts[i], now)
  }

  function ReceiptsOf(receipts: seq<Receipt>, attempt: int): seq<Receipt> {
    if receipts == [] then []
    else
      var n := |receipts| - 1;
      ReceiptsOf(receipts[..n], attempt) + (if receipts[n].body.attempt == attempt then [receipts[n]] else [])
  }

  function PhasesOf(phases: seq<Phase>, attempt: int): seq<Phase> {
    if phases == [] then []
    else
      var n := |phases| - 1;
      PhasesOf(phases[..n], attempt) + (if phases[n].attempt == attempt then [phases[n]] else [])
  }

  predicate Matches(s: Snapshot, id: Digest, taskId: string, attempt: int) {
    s.id == id && s.preWorker && s.taskId == taskId && s.attempt == attempt
  }

  function MatchingSnapshots(snapshots: seq<Snapshot>, id: Digest, taskId: string, attempt: int): seq<Snapshot> {
    if snapshots == [] then []
    else
      var n := |snapshots| - 1;
      MatchingSnapshots(snapshots[..n], id, taskId, attempt)
      + (if Matches(snapshots[n], id, taskId, attempt) then [snapshots[n]] else [])
  }

  function WithPhase(t: Task, attempt: int, receiptId: Digest, kind: PhaseKind, taskId: string): Task {
    t.(phases := t.phases + [Phase(|t.phases| + 1, taskId, attempt, receiptId, kind)])
  }

  // ------------------------------------------------------ canonical history

  datatype Fault =
    | TaskMismatch | MissingReceipt | InvalidReceipt | DuplicateReceipt
    | PhasesNotCanonical | PhaseSequenceDivergent | ChainDivergent
    | PhaseOrderingIncomplete | NotOrderedBeforeSnapshot | EndedBeforeSnapshot
    | InvalidTransition | SnapshotMissing | RecordedAfterSnapshot
    // append and recovery
    | BadAttempt | BadLease | TargetMismatch | DivergentReceipt | NoPriorReceipt | AttemptChainBroken
    | RecoveryNeedsOneReceipt | RecoveryDivergent
    // view
    | CurrentNeedsOneReceipt | ClaimMismatch | LeaseMismatch | WorkerTargetMismatch | TargetSnapshotMismatch
    | MissingContract

  function Predecessor(receipts: seq<Receipt>, c: Contract, i: nat): Digest
    requires i <= |receipts|
  {
    if i == 0 then c.digest else receipts[i - 1].id
  }

  /** The receipt at `i` continues the chain from its predecessor. */
  predicate Chained(receipts: seq<Receipt>, c: Contract, i: nat)
    requires i < |receipts|
  {
    var b := receipts[i].body;
    && b.taskId == c.taskId && b.taskRevision == c.taskRevision && b.contractDigest == c.digest
    && b.attempt == i + 1 && b.position == i + 1
    && b.predecessor == Predecessor(receipts, c, i)
    && b.revisions == c.revisions
  }

  /** The fault of the phases of the attempt whose receipt is at `i`, if any. */
  function PhaseFault(t: Task, i: nat): Option<Fault>
    requires i < |t.receipts|
  {
    var r := t.receipts[i];
    var own := PhasesOf(t.phases, i + 1);
    if |own| != 2 then Some(PhaseOrderingIncomplete)
    else
      var first, second := own[0], own[1];
      if first.kind != ReceiptAppended || first.receiptId != r.id || second.receiptId != r.id
         || first.sequence >= second.sequence then Some(NotOrderedBeforeSnapshot)
      else match second.kind
        case RecoveredBeforeWorker => if i + 1 == t.attempts then Some(EndedBeforeSnapshot) else None
        case ReceiptAppended => Some(InvalidTransition)
        case SnapshotRecorded(id) =>
          var found := MatchingSnapshots(t.snapshots, id, r.body.taskId, r.body.attempt);
          if |found| != 1 then Some(SnapshotMissing)
          else if r.recordedAt > found[0].capturedAt then Some(RecordedAfterSnapshot)
          else None
  }

  predicate DistinctIds(receipts: seq<Receipt>) {
    forall i, j | 0 <= i < j < |receipts| :: receipts[i].id != receipts[j].id
  }

  predicate PhasesNumbered(phases: seq<Phase>) {
    forall i | 0 <= i < |phases| :: phases[i].sequence == i + 1
  }

  /** What the canonical-history check accepts; `Delegation.CheckHistory` computes it. */
  predicate Canonical(digest: Body -> Digest, t: Task, c: Contract, now: Time) {
    && c.taskId == t.id
    && t.receipts != [] && ValidReceipts(digest, t.receipts, now) && DistinctIds(t.receipts)
    && |t.phases| == 2 * |t.receipts| && PhasesNumbered(t.phases)
    && forall i | 0 <= i < |t.receipts| :: Chained(t.receipts, c, i) && PhaseFault(t, i).None?
  }

  // ---------------------------------------------------------------- barrier

  function CurrentFault(t: Task, r: Receipt): Option<Fault> {
    if t.activeRun.Some? && r.body.claimId != t.activeRun.value then Some(ClaimMismatch)
    else if t.activeRun.Some? && r.body.leaseSequence != t.runCount then Some(LeaseMismatch)
    else if t.workerTarget.Some? && t.workerTarget.value != r.body.target.targetId then Some(WorkerTargetMismatch)
    else if t.activeTarget.Some? && r.body.target.snapshot != t.activeTarget.value then Some(TargetSnapshotMismatch)
    else None
  }

  predicate Verified(digest: Body -> Digest, t: Task, c: Contract, now: Time) {
    && Canonical(digest, t, c, now)
    && |ReceiptsOf(t.receipts, t.attempts)| == 1
    && CurrentFault(t, ReceiptsOf(t.receipts, t.attempts)[0]).None?
  }

  /** May the worker be launched?  Undelegated tasks are not restricted. */
  predicate BarrierOpen(digest: Body -> Digest, t: Task, now: Time) {
    t.contract.Some? ==> Verified(digest, t, t.contract.value, now)
  }

  // ---------------------------------------------------------------- updates

  datatype AppendOutcome =
    | NotDelegated | Appended(receipt: Receipt) | Existing(receipt: Receipt) | Refused(fault: Fault)

  predicate SameBinding(r: Receipt, t: Task, c: Contract, target: Target, runId: string) {
    && r.body.claimId == runId && r.body.leaseSequence == t.runCount
    && r.body.target == target
    && r.body.taskId == c.taskId && r.body.taskRevision == c.taskRevision
    && r.body.contractDigest == c.digest && r.body.revisions == c.revisions
  }

  function NewReceipt(digest: Body -> Digest, t: Task, c: Contract, target: Target, runId: string, now: Time): Receipt {
    var body := Body(c.taskId, c.taskRevision, t.attempts, c.digest, target, c.revisions, runId, t.runCount,
                     |t.receipts| + 1, Predecessor(t.receipts, c, |t.receipts|));
    Receipt(body, now, digest(body))
  }

  /** The fault that keeps a receipt from being appended, before duplicates are considered. */
  function AppendFault(digest: Body -> Digest, t: Task, c: Contract, target: Target, now: Time): Option<Fault> {
    if c.taskId != t.id then Some(TaskMismatch)
    else if t.attempts < 1 then Some(BadAttempt)
    else if t.runCount < 1 then Some(BadLease)
    else if t.workerTarget.Some? && t.workerTarget.value != target.targetId then Some(TargetMismatch)
    else if !ValidReceipts(digest, t.receipts, now) then Some(InvalidReceipt)
    else None
  }

  function JudgeAppend(digest: Body -> Digest, t: Task, target: Target, runId: string, now: Time): AppendOutcome {
    if t.contract.None? then NotDelegated
    else
      var c := t.contract.value;
      var fault := AppendFault(digest, t, c, target, now);
      var own := ReceiptsOf(t.receipts, t.attempts);
      if fault.Some? then Refused(fault.value)
      else if |own| > 1 then Refused(DuplicateReceipt)
      else if |own| == 1 then
        if SameBinding(own[0], t, c, target, runId) then Existing(own[0]) else Refused(DivergentReceipt)
      else if t.receipts == [] && t.attempts != 1 then Refused(NoPriorReceipt)
      else if t.receipts != [] && t.receipts[|t.receipts| - 1].body.attempt != t.attempts - 1
        then Refused(AttemptChainBroken)
      else Appended(NewReceipt(digest, t, c, target, runId, now))
  }

  function AfterAppend(t: Task, outcome: AppendOutcome): Task {
    if outcome.Appended? && t.contract.Some? then
      WithPhase(t.(receipts := t.receipts + [outcome.receipt]),
                t.attempts, outcome.receipt.id, ReceiptAppended, t.contract.value.taskId)
    else t
  }

  function RecoveryFault(digest: Body -> Digest, t: Task, now: Time): Option<Fault>
    requires t.contract.Some?
  {
    var own := ReceiptsOf(t.receipts, t.attempts);
    var phases := PhasesOf(t.phases, t.attempts);
    if t.attempts < 1 then Some(BadAttempt)
    else if !ValidReceipts(digest, own, now) then Some(InvalidReceipt)
    else if |own| != 1 then Some(RecoveryNeedsOneReceipt)
    else if |phases| == 1 && phases[0].kind == ReceiptAppended then None
    else if |phases| != 2 then Some(RecoveryDivergent)
    else None
  }

  function AfterRecovery(digest: Body -> Digest, t: Task, now: Time): Task {
    if t.contract.None? || RecoveryFault(digest, t, now).Some? then t
    else
      var phases := PhasesOf(t.phases, t.attempts);
      if |phases| == 1 then
        WithPhase(t, t.attempts, ReceiptsOf(t.receipts, t.attempts)[0].id,
                  RecoveredBeforeWorker, t.contract.value.taskId)
      else t
  }
}
