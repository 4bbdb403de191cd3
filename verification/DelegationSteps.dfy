/** What each step of the delegation protocol does from a reachable state, what a receipt
    binds, and what every fault says. */
module DelegationSteps {
  import opened Options
  import opened DelegationModel
  import opened DelegationProtocol
  import opened DelegationBarrier

  /** The attempt in progress has its receipt. */
  predicate HasReceipt(t: Task) {
    1 <= t.attempts == |t.receipts|
  }

  ghost predicate SameHistories(t: Task, t': Task) {
    t'.receipts == t.receipts && t'.phases == t.phases && t'.snapshots == t.snapshots
  }

  ghost predicate SameClaim(t: Task, t': Task) {
    && t'.id == t.id && t'.contract == t.contract
    && t'.attempts == t.attempts && t'.runCount == t.runCount
    && t'.activeTarget == t.activeTarget && t'.workerTarget == t.workerTarget
  }

  // --------------------------------------------------------------- recovery

  lemma ReceiptsPresent(digest: Body -> Digest, w: World)
    requires Sound(digest, w)
    ensures var t := w.task;
            |ReceiptsOf(t.receipts, t.attempts)| == if HasReceipt(t) then 1 else 0
    ensures var t := w.task;
            HasReceipt(t) ==> ReceiptsOf(t.receipts, t.attempts) == [t.receipts[t.attempts - 1]]
                              && 1 <= |PhasesOf(t.phases, t.attempts)| <= 2
                              && PhasesOf(t.phases, t.attempts)[0].kind == ReceiptAppended
  {
    var t := w.task;
    ChainNumbers(t.receipts, t.contract.value);
    ReceiptByPosition(t.receipts, t.attempts);
    if HasReceipt(t) { assert PairOk(t.receipts, t.phases, t.snapshots, t.attempts - 1); }
  }

  lemma RecoveryExact(digest: Body -> Digest, w: World, now: Time)
    requires Sound(digest, w) && w.clock <= now
    ensures RecoveryFault(digest, w.task, now).None? <==> HasReceipt(w.task)
  {
    var t := w.task;
    ReceiptsPresent(digest, w);
    ClockAdvances(digest, t.receipts, w.clock, now);
    ChainNumbers(t.receipts, t.contract.value);
  }

  /** Recovering a running task makes it runnable exactly when the attempt has its receipt,
      open or closed, and fails it otherwise.  An open attempt is closed by one recovery
      phase naming its receipt; otherwise the histories stay as they are. */
  lemma {:induction false} RecoverExact(digest: Body -> Digest, w: World, now: Time)
    requires Sound(digest, w) && w.task.status == Running && w.clock <= now
    ensures var t := w.task; var w' := Next(digest, w, Recover(now)); var t' := w'.task;
            && w'.clock == now && SameClaim(t, t') && t'.receipts == t.receipts && t'.snapshots == t.snapshots
            && t'.status == (if HasReceipt(t) then Runnable else Failed)
            && t'.activeRun == (if HasReceipt(t) then None else t.activeRun)
            && t'.phases == if AttemptOpen(t)
                 then t.phases + [Phase(|t.phases| + 1, t.id, t.attempts, t.receipts[t.attempts - 1].id,
                                        RecoveredBeforeWorker)]
                 else t.phases
  {
    RecoveryExact(digest, w, now);
    ReceiptsPresent(digest, w);
  }

  // ----------------------------------------------------------------- append

  /** Everything a receipt binds. */
  predicate ReceiptBinds(digest: Body -> Digest, t: Task, target: Target, runId: string, now: Time, r: Receipt)
    requires t.contract.Some?
  {
    var b, c := r.body, t.contract.value;
    && r.recordedAt == now && r.id == digest(b)
    && b.taskId == c.taskId && b.taskRevision == c.taskRevision && b.contractDigest == c.digest
    && b.revisions == c.revisions && b.attempt == t.attempts && b.target == target
    && b.claimId == runId && b.leaseSequence == t.runCount && b.position == |t.receipts| + 1
    && b.predecessor == if t.receipts == [] then c.digest else t.receipts[|t.receipts| - 1].id
  }

  /** An appended receipt binds the claim, and its phase is recorded with it; any other
      outcome leaves the histories alone. */
  lemma AppendBinds(digest: Body -> Digest, t: Task, target: Target, runId: string, now: Time)
    ensures var outcome := JudgeAppend(digest, t, target, runId, now);
            if outcome.Appended? then
              && t.contract.Some? && ReceiptBinds(digest, t, target, runId, now, outcome.receipt)
              && AfterAppend(t, outcome) == t.(
                   receipts := t.receipts + [outcome.receipt],
                   phases := t.phases + [Phase(|t.phases| + 1, t.contract.value.taskId, t.attempts,
                                               outcome.receipt.id, ReceiptAppended)])
            else AfterAppend(t, outcome) == t
  {
  }

  /** What an append answers from a reachable running state: a new receipt for an attempt
      that awaits its first, the one it has for the same target, and a refusal otherwise. */
  lemma {:induction false} AppendExact(digest: Body -> Digest, w: World, resolved: Target, now: Time)
    requires Sound(digest, w) && w.task.status == Running && w.clock <= now
    requires w.task.activeTarget == Some(resolved.snapshot)
    ensures var t := w.task; var w' := Next(digest, w, AppendReceipt(resolved, now));
            var outcome := JudgeAppend(digest, t, resolved, t.activeRun.value, now);
            var fits := t.workerTarget.None? || t.workerTarget.value == resolved.targetId;
            && (outcome.Appended? <==> fits && t.attempts == |t.receipts| + 1)
            && (outcome.Existing? <==> fits && HasReceipt(t) && t.receipts[t.attempts - 1].body.target == resolved)
            && (outcome.Existing? ==> outcome.receipt == t.receipts[t.attempts - 1])
            && w'.clock == now && SameClaim(t, w'.task) && w'.task.activeRun == t.activeRun
            && w'.task.status == (if outcome.Refused? then Failed else Running)
            && w'.task.receipts == AfterAppend(t, outcome).receipts
            && w'.task.phases == AfterAppend(t, outcome).phases && w'.task.snapshots == t.snapshots
  {
    var t := w.task;
    ReceiptsPresent(digest, w);
    ClockAdvances(digest, t.receipts, w.clock, now);
    ChainNumbers(t.receipts, t.contract.value);
    if HasReceipt(t) { assert Chained(t.receipts, t.contract.value, t.attempts - 1); }
  }

  // ------------------------------------------------------------ other steps

  /** A claim starts the next attempt under a new run; the histories stay. */
  lemma ClaimExact(digest: Body -> Digest, w: World, runId: string, target: Digest)
    ensures var t := w.task; var t' := Next(digest, w, Claim(runId, target)).task;
            if t.status != Runnable then t' == t
            else
              && t'.status == Running && t'.attempts == t.attempts + 1 && t'.runCount == t.runCount + 1
              && t'.activeRun == Some(runId) && t'.activeTarget == Some(target)
              && t'.id == t.id && t'.contract == t.contract && t'.workerTarget == t.workerTarget
              && SameHistories(t, t')
    ensures Next(digest, w, Claim(runId, target)).clock == w.clock
  {
  }

  /** A snapshot closes an open running attempt, and nothing else does it. */
  lemma {:induction false} SnapshotExact(digest: Body -> Digest, w: World, id: Digest, now: Time)
    requires Sound(digest, w) && w.clock <= now
    ensures var t := w.task; var w' := Next(digest, w, TakeSnapshot(id, now));
            if t.status == Running && AttemptOpen(t)
               && forall i | 0 <= i < |t.snapshots| :: t.snapshots[i].id != id then
              && w'.clock == now && SameClaim(t, w'.task) && w'.task.status == Running
              && w'.task.activeRun == t.activeRun && w'.task.receipts == t.receipts
              && w'.task.snapshots == t.snapshots + [Snapshot(id, true, t.id, t.attempts, now)]
              && w'.task.phases == t.phases + [Phase(|t.phases| + 1, t.id, t.attempts,
                   t.receipts[t.attempts - 1].id, SnapshotRecorded(id))]
            else w' == w
  {
    ReceiptsPresent(digest, w);
  }

  /** A run ends well only through the barrier; failing and requeueing touch the status alone. */
  lemma EndsExact(digest: Body -> Digest, w: World)
    ensures var t := w.task; var t' := Next(digest, w, Finish).task;
            if t.status == Running && BarrierOpen(digest, t, w.clock)
            then t' == t.(status := Runnable, activeRun := None) else t' == t
    ensures var t := w.task;
            Next(digest, w, Abandon).task == if t.status == Running then t.(status := Failed) else t
    ensures var t := w.task;
            Next(digest, w, Requeue).task == if t.status == Failed then t.(status := Runnable) else t
  {
  }

  // ------------------------------------------------------------------ faults

  /** Some receipt is not valid at `now`. */
  predicate SomeBadReceipt(digest: Body -> Digest, receipts: seq<Receipt>, now: Time) {
    exists i | 0 <= i < |receipts| ::
      var r := receipts[i];
      || now < r.recordedAt || r.body.attempt < 1 || r.body.leaseSequence < 1 || r.body.position < 1
      || r.id != digest(r.body)
  }

  /** The receipt is not bound to the claim, the target and the contract. */
  predicate Diverges(r: Receipt, t: Task, c: Contract, target: Target, runId: string) {
    var b := r.body;
    || b.claimId != runId || b.leaseSequence != t.runCount || b.target != target
    || b.taskId != c.taskId || b.taskRevision != c.taskRevision
    || b.contractDigest != c.digest || b.revisions != c.revisions
  }

  /** What a refused append says; every check before it passed. */
  predicate AppendTold(digest: Body -> Digest, t: Task, target: Target, runId: string, now: Time, fault: Fault)
    requires t.contract.Some?
  {
    var c, own := t.contract.value, ReceiptsOf(t.receipts, t.attempts);
    var named := c.taskId == t.id;
    var begun := named && t.attempts >= 1;
    var leased := begun && t.runCount >= 1;
    var fits := leased && (t.workerTarget.Some? ==> t.workerTarget.value == target.targetId);
    var sound := fits && !SomeBadReceipt(digest, t.receipts, now);
    || (fault == TaskMismatch && !named)
    || (fault == BadAttempt && named && !begun)
    || (fault == BadLease && begun && !leased)
    || (fault == TargetMismatch && leased && !fits)
    || (fault == InvalidReceipt && fits && !sound)
    || (fault == DuplicateReceipt && sound && |own| > 1)
    || (fault == DivergentReceipt && sound && |own| == 1 && Diverges(own[0], t, c, target, runId))
    || (fault == NoPriorReceipt && sound && t.receipts == [] && t.attempts != 1)
    || (fault == AttemptChainBroken
        && sound && own == [] && t.receipts != [] && t.receipts[|t.receipts| - 1].body.attempt != t.attempts - 1)
  }

  lemma BadReceiptExact(digest: Body -> Digest, receipts: seq<Receipt>, now: Time)
    ensures ValidReceipts(digest, receipts, now) <==> !SomeBadReceipt(digest, receipts, now)
  {
    forall i | 0 <= i < |receipts|
      ensures ValidReceipt(digest, receipts[i], now) <==>
                var r := receipts[i];
                !(|| now < r.recordedAt || r.body.attempt < 1 || r.body.leaseSequence < 1 || r.body.position < 1
                  || r.id != digest(r.body))
    {
    }
  }

  lemma {:induction false} OwnReceipts(receipts: seq<Receipt>, attempt: int)
    ensures forall r :: r in ReceiptsOf(receipts, attempt) <==> r in receipts && r.body.attempt == attempt
  {
    if receipts != [] {
      var n := |receipts| - 1;
      OwnReceipts(receipts[..n], attempt);
      assert forall r :: r in receipts <==> r in receipts[..n] || r == receipts[n];
    }
  }

  lemma {:induction false} OwnPhases(phases: seq<Phase>, attempt: int)
    ensures forall p :: p in PhasesOf(phases, attempt) <==> p in phases && p.attempt == attempt
  {
    if phases != [] {
      var n := |phases| - 1;
      OwnPhases(phases[..n], attempt);
      assert forall p :: p in phases <==> p in phases[..n] || p == phases[n];
    }
  }

  lemma {:induction false} MatchingCaptures(snapshots: seq<Snapshot>, id: Digest, taskId: string, attempt: int)
    ensures forall s :: s in MatchingSnapshots(snapshots, id, taskId, attempt) <==>
              s in snapshots && s.id == id && s.preWorker && s.taskId == taskId && s.attempt == attempt
  {
    if snapshots != [] {
      var n := |snapshots| - 1;
      MatchingCaptures(snapshots[..n], id, taskId, attempt);
      assert forall s :: s in snapshots <==> s in snapshots[..n] || s == snapshots[n];
    }
  }

  /** An append is refused with a fault that holds, is answered with a receipt of the
      attempt bound to the claim, or adds the first receipt of the next attempt. */
  lemma AppendTells(digest: Body -> Digest, t: Task, target: Target, runId: string, now: Time)
    ensures var outcome := JudgeAppend(digest, t, target, runId, now);
            && (outcome.NotDelegated? <==> t.contract.None?)
            && (outcome.Refused? ==> AppendTold(digest, t, target, runId, now, outcome.fault))
            && (outcome.Existing? ==>
                  && outcome.receipt in t.receipts && outcome.receipt.body.attempt == t.attempts
                  && !Diverges(outcome.receipt, t, t.contract.value, target, runId))
            && (outcome.Appended? ==>
                  && (forall r | r in t.receipts :: r.body.attempt != t.attempts)
                  && t.attempts == if t.receipts == [] then 1 else t.receipts[|t.receipts| - 1].body.attempt + 1)
  {
    BadReceiptExact(digest, t.receipts, now);
    OwnReceipts(t.receipts, t.attempts);
    var own := ReceiptsOf(t.receipts, t.attempts);
    if own != [] { assert own[0] in own; }
    forall r | r in t.receipts && own == [] ensures r.body.attempt != t.attempts {
      assert r !in own;
    }
  }

  /** What a refused recovery says. */
  predicate RecoveryTold(digest: Body -> Digest, t: Task, now: Time, fault: Fault) {
    var own, phases := ReceiptsOf(t.receipts, t.attempts), PhasesOf(t.phases, t.attempts);
    var sound := t.attempts >= 1 && !SomeBadReceipt(digest, own, now);
    || (fault == BadAttempt && t.attempts < 1)
    || (fault == InvalidReceipt && t.attempts >= 1 && !sound)
    || (fault == RecoveryNeedsOneReceipt && sound && |own| != 1)
    || (fault == RecoveryDivergent && sound && |own| == 1
        && |phases| != 2 && !(|phases| == 1 && phases[0].kind == ReceiptAppended))
  }

  lemma RecoveryTells(digest: Body -> Digest, t: Task, now: Time)
    requires t.contract.Some?
    ensures RecoveryFault(digest, t, now).Some? ==> RecoveryTold(digest, t, now, RecoveryFault(digest, t, now).value)
  {
    BadReceiptExact(digest, ReceiptsOf(t.receipts, t.attempts), now);
  }

  // ------------------------------------------------------- canonical history

  /** The receipt at `i` breaks the chain. */
  predicate BreaksChain(receipts: seq<Receipt>, c: Contract, i: nat)
    requires i < |receipts|
  {
    var b := receipts[i].body;
    || b.taskId != c.taskId || b.taskRevision != c.taskRevision || b.contractDigest != c.digest
    || b.revisions != c.revisions || b.attempt != i + 1 || b.position != i + 1
    || b.predecessor != if i == 0 then c.digest else receipts[i - 1].id
  }

  /** What a fault says of the phases of the attempt whose receipt is at `i`. */
  predicate PhaseTold(t: Task, i: nat, fault: Fault)
    requires i < |t.receipts|
  {
    var r, own := t.receipts[i], PhasesOf(t.phases, i + 1);
    if |own| != 2 then fault == PhaseOrderingIncomplete
    else
      var ordered := own[0].kind == ReceiptAppended && own[0].receiptId == r.id == own[1].receiptId
                     && own[0].sequence < own[1].sequence;
      || (fault == NotOrderedBeforeSnapshot && !ordered)
      || (fault == EndedBeforeSnapshot && ordered && own[1].kind == RecoveredBeforeWorker && t.attempts == i + 1)
      || (fault == InvalidTransition && ordered && own[1].kind == ReceiptAppended)
      || (own[1].kind.SnapshotRecorded? && ordered
          && var found := MatchingSnapshots(t.snapshots, own[1].kind.snapshotId, r.body.taskId, r.body.attempt);
             if |found| != 1 then fault == SnapshotMissing
             else fault == RecordedAfterSnapshot && found[0].capturedAt < r.recordedAt)
  }

  /** The attempt whose receipt is at `i` was closed by a recovery, and is not the current
      one, or by the one pre-worker capture its closing phase names, taken no earlier than
      the receipt was recorded. */
  predicate ProperlyClosed(t: Task, i: nat)
    requires i < |t.receipts|
  {
    var r, own := t.receipts[i], PhasesOf(t.phases, i + 1);
    && |own| == 2
    && own[0].kind == ReceiptAppended && own[0].receiptId == r.id == own[1].receiptId
    && own[0].sequence < own[1].sequence
    && (|| (own[1].kind == RecoveredBeforeWorker && t.attempts != i + 1)
        || (own[1].kind.SnapshotRecorded?
            && var found := MatchingSnapshots(t.snapshots, own[1].kind.snapshotId, r.body.taskId, r.body.attempt);
               |found| == 1 && r.recordedAt <= found[0].capturedAt))
  }

  lemma PhaseTells(t: Task, i: nat)
    requires i < |t.receipts|
    ensures PhaseFault(t, i).None? <==> ProperlyClosed(t, i)
    ensures PhaseFault(t, i).Some? ==> PhaseTold(t, i, PhaseFault(t, i).value)
  {
  }

  /** A history is canonical exactly when it is the contract's own, not empty, of valid
      receipts with different identities in an unbroken chain, of numbered phases, two to
      a receipt, and properly closed throughout. */
  lemma CanonicalExact(digest: Body -> Digest, t: Task, c: Contract, now: Time)
    ensures Canonical(digest, t, c, now) <==>
              && c.taskId == t.id && |t.receipts| > 0 && !SomeBadReceipt(digest, t.receipts, now)
              && (forall i, j | 0 <= i < j < |t.receipts| :: t.receipts[i].id != t.receipts[j].id)
              && |t.phases| == |t.receipts| + |t.receipts|
              && (forall i | 0 <= i < |t.phases| :: t.phases[i].sequence == i + 1)
              && (forall i | 0 <= i < |t.receipts| :: !BreaksChain(t.receipts, c, i) && ProperlyClosed(t, i))
  {
    BadReceiptExact(digest, t.receipts, now);
    forall i | 0 <= i < |t.receipts|
      ensures Chained(t.receipts, c, i) <==> !BreaksChain(t.receipts, c, i)
      ensures PhaseFault(t, i).None? <==> ProperlyClosed(t, i)
    {
      PhaseTells(t, i);
    }
  }

  /** What the first receipt out of place is told. */
  predicate ChainTold(t: Task, c: Contract, fault: Fault) {
    exists i | 0 <= i < |t.receipts| ::
      && (forall j | 0 <= j < i :: !BreaksChain(t.receipts, c, j) && ProperlyClosed(t, j))
      && if BreaksChain(t.receipts, c, i) then fault == ChainDivergent else PhaseTold(t, i, fault)
  }

  /** What a rejected history is told. */
  predicate HistoryTold(digest: Body -> Digest, t: Task, c: Contract, now: Time, fault: Fault) {
    var named := c.taskId == t.id;
    var begun := named && t.receipts != [];
    var valid := begun && !SomeBadReceipt(digest, t.receipts, now);
    var distinct := valid && forall i, j | 0 <= i < j < |t.receipts| :: t.receipts[i].id != t.receipts[j].id;
    var paired := distinct && |t.phases| == 2 * |t.receipts|;
    var numbered := paired && forall i | 0 <= i < |t.phases| :: t.phases[i].sequence == i + 1;
    || (fault == TaskMismatch && !named)
    || (fault == MissingReceipt && named && !begun)
    || (fault == InvalidReceipt && begun && !valid)
    || (fault == DuplicateReceipt && valid && !distinct)
    || (fault == PhasesNotCanonical && distinct && !paired)
    || (fault == PhaseSequenceDivergent && paired && !numbered)
    || (numbered && ChainTold(t, c, fault))
  }

  /** What the view says of the current claim. */
  predicate ClaimTold(t: Task, r: Receipt, fault: Fault) {
    var sameRun := t.activeRun.Some? ==> t.activeRun.value == r.body.claimId;
    var sameLease := sameRun && (t.activeRun.Some? ==> t.runCount == r.body.leaseSequence);
    var sameWorker := sameLease && (t.workerTarget.Some? ==> t.workerTarget.value == r.body.target.targetId);
    var sameTarget := sameWorker && (t.activeTarget.Some? ==> t.activeTarget.value == r.body.target.snapshot);
    || (fault == ClaimMismatch && !sameRun)
    || (fault == LeaseMismatch && sameRun && !sameLease)
    || (fault == WorkerTargetMismatch && sameLease && !sameWorker)
    || (fault == TargetSnapshotMismatch && sameWorker && !sameTarget)
  }

  lemma ClaimTells(t: Task, r: Receipt)
    ensures CurrentFault(t, r).Some? ==> ClaimTold(t, r, CurrentFault(t, r).value)
    ensures CurrentFault(t, r).None? <==>
              && (t.activeRun.Some? ==> r.body.claimId == t.activeRun.value && r.body.leaseSequence == t.runCount)
              && (t.workerTarget.Some? ==> r.body.target.targetId == t.workerTarget.value)
              && (t.activeTarget.Some? ==> r.body.target.snapshot == t.activeTarget.value)
  {
  }

  /** The barrier lets an undelegated task pass, and otherwise exactly a canonical history
      whose one receipt of the current attempt is the current claim's. */
  lemma BarrierMeans(digest: Body -> Digest, t: Task, now: Time)
    ensures BarrierOpen(digest, t, now) <==>
              t.contract.Some? ==>
                && Canonical(digest, t, t.contract.value, now)
                && |ReceiptsOf(t.receipts, t.attempts)| == 1
                && forall fault :: !ClaimTold(t, ReceiptsOf(t.receipts, t.attempts)[0], fault)
  {
    if t.contract.Some? && |ReceiptsOf(t.receipts, t.attempts)| == 1 {
      var r := ReceiptsOf(t.receipts, t.attempts)[0];
      ClaimTells(t, r);
      if forall fault :: !ClaimTold(t, r, fault) {
        assert !ClaimTold(t, r, ClaimMismatch) && !ClaimTold(t, r, LeaseMismatch);
        assert !ClaimTold(t, r, WorkerTargetMismatch) && !ClaimTold(t, r, TargetSnapshotMismatch);
      }
    }
  }

  /** What the barrier says when it holds the worker back. */
  predicate BarrierTold(digest: Body -> Digest, t: Task, c: Contract, now: Time, fault: Fault) {
    var own := ReceiptsOf(t.receipts, t.attempts);
    || HistoryTold(digest, t, c, now, fault)
    || (Canonical(digest, t, c, now)
        && if |own| != 1 then fault == CurrentNeedsOneReceipt else ClaimTold(t, own[0], fault))
  }
}
