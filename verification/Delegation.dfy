/** The delegated task as the runner updates it: receipts and phases are appended to
    the task's own histories, and the barrier re-checks them before a launch. */
module Delegation {
  import opened Options
  import opened DelegationModel
  import opened DelegationSteps

  class DelegatedTask {
    const id: string
    const contract: Option<Contract>
    var status: Status
    var attempts: int
    var runCount: int
    var activeRun: Option<string>
    var workerTarget: Option<string>
    var activeTarget: Option<Digest>
    var receipts: seq<Receipt>
    var phases: seq<Phase>
    var snapshots: seq<Snapshot>

    function Now(): Task
      reads this
    {
      Task(id, contract, status, attempts, runCount, activeRun, workerTarget, activeTarget, receipts, phases, snapshots)
    }

    constructor (t: Task)
      ensures Now() == t
    {
      id, contract := t.id, t.contract;
      status, attempts, runCount := t.status, t.attempts, t.runCount;
      activeRun, workerTarget, activeTarget := t.activeRun, t.workerTarget, t.activeTarget;
      receipts, phases, snapshots := t.receipts, t.phases, t.snapshots;
    }

    method AppendPhase(taskId: string, attempt: int, receiptId: Digest, kind: PhaseKind)
      modifies `phases
      ensures Now() == WithPhase(old(Now()), attempt, receiptId, kind, taskId)
    {
      var sequence := |phases| + 1;
      phases := phases + [Phase(sequence, taskId, attempt, receiptId, kind)];
    }

    method AppendReceipt(digest: Body -> Digest, target: Target, runId: string, now: Time)
      returns (outcome: AppendOutcome)
      modifies `receipts, `phases
      ensures outcome == JudgeAppend(digest, old(Now()), target, runId, now)
      ensures Now() == AfterAppend(old(Now()), outcome)
    {
      if contract.None? { return NotDelegated; }
      var c := contract.value;
      if c.taskId != id { return Refused(TaskMismatch); }
      if attempts < 1 { return Refused(BadAttempt); }
      if runCount < 1 { return Refused(BadLease); }
      if workerTarget.Some? && workerTarget.value != target.targetId { return Refused(TargetMismatch); }
      if !ValidReceipts(digest, receipts, now) { return Refused(InvalidReceipt); }
      var sameAttempt := ReceiptsOf(receipts, attempts);
      if sameAttempt != [] {
        if |sameAttempt| != 1 { return Refused(DuplicateReceipt); }
        if !SameBinding(sameAttempt[0], Now(), c, target, runId) { return Refused(DivergentReceipt); }
        return Existing(sameAttempt[0]);
      }
      var predecessor;
      if receipts == [] {
        if attempts != 1 { return Refused(NoPriorReceipt); }
        predecessor := c.digest;
      } else {
        var previous := receipts[|receipts| - 1];
        if previous.body.attempt != attempts - 1 { return Refused(AttemptChainBroken); }
        predecessor := previous.id;
      }
      var body := Body(c.taskId, c.taskRevision, attempts, c.digest, target, c.revisions, runId, runCount,
                       |receipts| + 1, predecessor);
      var receipt := Receipt(body, now, digest(body));
      receipts := receipts + [receipt];
      AppendPhase(c.taskId, attempts, receipt.id, ReceiptAppended);
      return Appended(receipt);
    }

    method RecordRecovery(digest: Body -> Digest, now: Time) returns (fault: Option<Fault>)
      modifies `phases
      ensures contract.Some? ==> fault == RecoveryFault(digest, old(Now()), now)
      ensures contract.None? ==> fault.None?
      ensures Now() == AfterRecovery(digest, old(Now()), now)
    {
      if contract.None? { return None; }
      if attempts < 1 { return Some(BadAttempt); }
      var current := ReceiptsOf(receipts, attempts);
      if !ValidReceipts(digest, current, now) { return Some(InvalidReceipt); }
      if |current| != 1 { return Some(RecoveryNeedsOneReceipt); }
      var own := PhasesOf(phases, attempts);
      if |own| == 1 && own[0].kind == ReceiptAppended {
        AppendPhase(contract.value.taskId, attempts, current[0].id, RecoveredBeforeWorker);
      } else if |own| != 2 {
        return Some(RecoveryDivergent);
      }
      return None;
    }

    /** Appends the snapshot phase; as in the runner's helper, nothing is checked here. */
    method RecordSnapshotPhase(receiptId: Digest, snapshotId: Digest)
      requires contract.Some? && attempts >= 1
      modifies `phases
      ensures Now() == WithPhase(old(Now()), attempts, receiptId, SnapshotRecorded(snapshotId), contract.value.taskId)
    {
      AppendPhase(contract.value.taskId, attempts, receiptId, SnapshotRecorded(snapshotId));
    }

    /** The canonical-history check. */
    method CheckHistory(digest: Body -> Digest, c: Contract, now: Time) returns (fault: Option<Fault>)
      ensures fault.None? <==> Canonical(digest, Now(), c, now)
      ensures fault.Some? ==> HistoryTold(digest, Now(), c, now, fault.value)
    {
      BadReceiptExact(digest, receipts, now);
      if c.taskId != id { return Some(TaskMismatch); }
      if receipts == [] { return Some(MissingReceipt); }
      if !ValidReceipts(digest, receipts, now) { return Some(InvalidReceipt); }
      if !DistinctIds(receipts) { return Some(DuplicateReceipt); }
      if |phases| != |receipts| * 2 { return Some(PhasesNotCanonical); }
      if !PhasesNumbered(phases) { return Some(PhaseSequenceDivergent); }
      fault := CheckChain(c);
    }

    /** The loop over the receipts, with its running expected predecessor. */
    method CheckChain(c: Contract) returns (fault: Option<Fault>)
      ensures fault.None? <==> forall i | 0 <= i < |receipts| :: Chained(receipts, c, i) && PhaseFault(Now(), i).None?
      ensures fault.Some? ==> ChainTold(Now(), c, fault.value)
    {
      var expected := c.digest;
      for i := 0 to |receipts|
        invariant expected == Predecessor(receipts, c, i)
        invariant forall j | 0 <= j < i :: Chained(receipts, c, j) && PhaseFault(Now(), j).None?
        invariant forall j | 0 <= j < i :: !BreaksChain(receipts, c, j) && ProperlyClosed(Now(), j)
      {
        var b := receipts[i].body;
        if b.taskId != c.taskId || b.taskRevision != c.taskRevision || b.contractDigest != c.digest
           || b.attempt != i + 1 || b.position != i + 1 || b.predecessor != expected || b.revisions != c.revisions {
          assert !Chained(receipts, c, i) && BreaksChain(receipts, c, i);
          return Some(ChainDivergent);
        }
        expected := receipts[i].id;
        PhaseTells(Now(), i);
        fault := PhaseFault(Now(), i);
        if fault.Some? { return; }
      }
      return None;
    }

    /** The barrier in front of the worker: no fault exactly when the launch is allowed. */
    method RequireReceipt(digest: Body -> Digest, now: Time) returns (fault: Option<Fault>)
      ensures fault.None? <==> BarrierOpen(digest, Now(), now)
      ensures fault.Some? ==> contract.Some? && BarrierTold(digest, Now(), contract.value, now, fault.value)
    {
      if contract.None? { return None; }
      fault := CheckHistory(digest, contract.value, now);
      if fault.Some? { return; }
      var current := ReceiptsOf(receipts, attempts);
      if |current| != 1 { return Some(CurrentNeedsOneReceipt); }
      ClaimTells(Now(), current[0]);
      fault := CurrentFault(Now(), current[0]);
    }
  }
}
