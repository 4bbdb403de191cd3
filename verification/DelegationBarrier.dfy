/** What the launch barrier decides in every state a run can reach, and what an
    accepted receipt chain proves about its own past. */
module DelegationBarrier {
  import opened Options
  import opened DelegationModel
  import opened DelegationProtocol

  // --------------------------------------------------------------- counting

  function PhaseCount(phases: seq<Phase>, n: nat): nat {
    if n == 0 then 0 else PhaseCount(phases, n - 1) + |PhasesOf(phases, n)|
  }

  lemma {:induction false} PhaseCountAppend(phases: seq<Phase>, p: Phase, n: nat)
    ensures PhaseCount(phases + [p], n) == PhaseCount(phases, n) + (if 1 <= p.attempt <= n then 1 else 0)
  {
    if n > 0 {
      PhaseCountAppend(phases, p, n - 1);
      PhasesOfAppend(phases, p, n);
    }
  }

  lemma {:induction false} NothingToCount(n: nat)
    ensures PhaseCount([], n) == 0
  {
    if n > 0 { NothingToCount(n - 1); }
  }

  lemma {:induction false} EveryPhaseIsCounted(phases: seq<Phase>, n: nat)
    requires forall i | 0 <= i < |phases| :: 1 <= phases[i].attempt <= n
    ensures PhaseCount(phases, n) == |phases|
  {
    if phases == [] {
      NothingToCount(n);
    } else {
      var m := |phases| - 1;
      EveryPhaseIsCounted(phases[..m], n);
      PhaseCountAppend(phases[..m], phases[m], n);
      assert phases == phases[..m] + [phases[m]];
    }
  }

  lemma {:induction false} PairsAddUp(phases: seq<Phase>, n: nat)
    requires forall a | 1 <= a <= n :: |PhasesOf(phases, a)| == 2
    ensures PhaseCount(phases, n) == 2 * n
  {
    if n > 0 { PairsAddUp(phases, n - 1); }
  }

  // ---------------------------------------------------------------- barrier

  /** Every attempt with a receipt has its closing phase. */
  ghost predicate Complete(t: Task) {
    forall a | 1 <= a <= |t.receipts| :: |PhasesOf(t.phases, a)| == 2
  }

  /** The current attempt has its receipt and closed with a snapshot. */
  ghost predicate CurrentSnapshotted(t: Task) {
    && 1 <= t.attempts == |t.receipts|
    && |PhasesOf(t.phases, t.attempts)| == 2 && PhasesOf(t.phases, t.attempts)[1].kind.SnapshotRecorded?
  }

  lemma ChainedIdsDistinct(digest: Body -> Digest, receipts: seq<Receipt>, c: Contract, clock: Time)
    requires Injective(digest) && ChainSound(digest, receipts, c, clock)
    ensures DistinctIds(receipts)
  {
    forall i, j | 0 <= i < j < |receipts| ensures receipts[i].id != receipts[j].id {
      assert Chained(receipts, c, i) && Chained(receipts, c, j);
      assert ValidReceipt(digest, receipts[i], clock) && ValidReceipt(digest, receipts[j], clock);
    }
  }

  lemma SnapshottedIsCanonical(digest: Body -> Digest, w: World)
    requires Injective(digest) && Sound(digest, w)
    requires Complete(w.task) && CurrentSnapshotted(w.task)
    ensures Canonical(digest, w.task, w.task.contract.value, w.clock)
  {
    var t := w.task;
    ChainedIdsDistinct(digest, t.receipts, t.contract.value, w.clock);
    EveryPhaseIsCounted(t.phases, |t.receipts|);
    PairsAddUp(t.phases, |t.receipts|);
    forall i | 0 <= i < |t.receipts| ensures PhaseFault(t, i).None? {
      assert PairOk(t.receipts, t.phases, t.snapshots, i);
    }
  }

  lemma CanonicalIsSnapshotted(digest: Body -> Digest, w: World)
    requires Sound(digest, w)
    requires Verified(digest, w.task, w.task.contract.value, w.clock)
    ensures Complete(w.task) && CurrentSnapshotted(w.task)
  {
    var t := w.task;
    ChainNumbers(t.receipts, t.contract.value);
    ReceiptByPosition(t.receipts, t.attempts);
    forall a | 1 <= a <= |t.receipts| ensures |PhasesOf(t.phases, a)| == 2 {
      assert PhaseFault(t, a - 1).None?;
    }
    assert PhaseFault(t, t.attempts - 1).None?;
  }

  lemma SoundBarrierExact(digest: Body -> Digest, w: World)
    requires Injective(digest) && Sound(digest, w)
    ensures BarrierOpen(digest, w.task, w.clock) <==> Complete(w.task) && CurrentSnapshotted(w.task)
  {
    var t := w.task;
    if Complete(t) && CurrentSnapshotted(t) {
      SnapshottedIsCanonical(digest, w);
      ChainNumbers(t.receipts, t.contract.value);
      ReceiptByPosition(t.receipts, t.attempts);
    }
    if BarrierOpen(digest, t, w.clock) {
      CanonicalIsSnapshotted(digest, w);
    }
  }

  /** In every reachable state the barrier is open exactly when the current attempt
      closed with its snapshot and no earlier attempt was left without a closing phase. */
  lemma {:induction false} BarrierExact(digest: Body -> Digest, w0: World, steps: seq<Step>)
    requires Injective(digest) && Enqueued(w0)
    ensures var w := Run(digest, w0, steps);
            BarrierOpen(digest, w.task, w.clock) <==> Complete(w.task) && CurrentSnapshotted(w.task)
  {
    RunKeepsSound(digest, w0, steps);
    SoundBarrierExact(digest, Run(digest, w0, steps));
  }

  // ----------------------------------------------------------- orderly runs

  /** The current attempt has its receipt but no closing phase yet. */
  ghost predicate AttemptOpen(t: Task) {
    1 <= t.attempts == |t.receipts| && |PhasesOf(t.phases, t.attempts)| == 1
  }

  /** The step makes a failed task runnable although its attempt is still open. */
  ghost predicate RevivesOpen(w: World, s: Step) {
    s.Requeue? && w.task.status == Failed && AttemptOpen(w.task)
  }

  ghost predicate Orderly(digest: Body -> Digest, w0: World, steps: seq<Step>) {
    forall k | 0 <= k < |steps| :: !RevivesOpen(Run(digest, w0, steps[..k]), steps[k])
  }

  /** Attempts before the current one are complete, and an open one is not up for a claim. */
  ghost predicate PastComplete(t: Task) {
    && (forall a | 1 <= a <= |t.receipts| && a < t.attempts :: |PhasesOf(t.phases, a)| == 2)
    && (AttemptOpen(t) ==> t.status != Runnable)
  }

  lemma PairSizes(digest: Body -> Digest, w: World, a: nat)
    requires Sound(digest, w) && 1 <= a <= |w.task.receipts|
    ensures 1 <= |PhasesOf(w.task.phases, a)| <= 2
  {
    assert PairOk(w.task.receipts, w.task.phases, w.task.snapshots, a - 1);
  }

  /** No step touches the phases of an attempt that is over. */
  lemma PhasesOnlyForCurrent(digest: Body -> Digest, w: World, s: Step)
    requires Sound(digest, w)
    ensures var t := w.task; var t' := Next(digest, w, s).task;
            && t.attempts <= t'.attempts
            && t.receipts <= t'.receipts && t.phases <= t'.phases && t.snapshots <= t'.snapshots
            && forall a | 1 <= a <= |t.receipts| && a < t.attempts :: PhasesOf(t'.phases, a) == PhasesOf(t.phases, a)
  {
    var t := w.task;
    var t' := Next(digest, w, s).task;
    if t'.phases != t.phases {
      var p := t'.phases[|t.phases|];
      assert t'.phases == t.phases + [p] && p.attempt == t.attempts;
      forall a | 1 <= a <= |t.receipts| && a < t.attempts ensures PhasesOf(t'.phases, a) == PhasesOf(t.phases, a) {
        PhasesOfAppend(t.phases, p, a);
      }
    }
  }

  lemma ClaimKeepsPast(digest: Body -> Digest, w: World, runId: string, target: Digest)
    requires Sound(digest, w) && PastComplete(w.task) && w.task.status == Runnable
    ensures PastComplete(Next(digest, w, Claim(runId, target)).task)
  {
    var t := w.task;
    if 1 <= t.attempts == |t.receipts| { PairSizes(digest, w, t.attempts); }
  }

  /** Recovering an open attempt closes it. */
  lemma RecoveryClosesOpen(digest: Body -> Digest, w: World, now: Time)
    requires Sound(digest, w) && AttemptOpen(w.task) && w.clock <= now
    ensures RecoveryFault(digest, w.task, now).None?
    ensures |PhasesOf(AfterRecovery(digest, w.task, now).phases, w.task.attempts)| == 2
  {
    var t := w.task;
    ClockAdvances(digest, t.receipts, w.clock, now);
    ChainNumbers(t.receipts, t.contract.value);
    ReceiptByPosition(t.receipts, t.attempts);
    assert PairOk(t.receipts, t.phases, t.snapshots, t.attempts - 1);
    PhasesOfAppend(t.phases, Phase(|t.phases| + 1, t.contract.value.taskId, t.attempts,
                                   t.receipts[t.attempts - 1].id, RecoveredBeforeWorker), t.attempts);
  }

  lemma RecoveryAddsNothingElse(digest: Body -> Digest, t: Task, now: Time)
    ensures AfterRecovery(digest, t, now).receipts == t.receipts && AfterRecovery(digest, t, now).attempts == t.attempts
    ensures |PhasesOf(t.phases, t.attempts)| != 1 ==> AfterRecovery(digest, t, now) == t
  {
  }

  lemma RecoverKeepsPast(digest: Body -> Digest, w: World, now: Time)
    requires Sound(digest, w) && PastComplete(w.task) && w.task.status == Running && w.clock <= now
    ensures PastComplete(Next(digest, w, Recover(now)).task)
  {
    PhasesOnlyForCurrent(digest, w, Recover(now));
    RecoveryAddsNothingElse(digest, w.task, now);
    if AttemptOpen(w.task) { RecoveryClosesOpen(digest, w, now); }
  }

  lemma FinishKeepsPast(digest: Body -> Digest, w: World)
    requires Sound(digest, w) && PastComplete(w.task) && BarrierOpen(digest, w.task, w.clock)
    ensures PastComplete(Next(digest, w, Finish).task)
  {
    CanonicalIsSnapshotted(digest, w);
  }

  lemma AppendKeepsPast(digest: Body -> Digest, w: World, resolved: Target, now: Time)
    requires Sound(digest, w) && PastComplete(w.task)
    ensures PastComplete(Next(digest, w, AppendReceipt(resolved, now)).task)
  {
    var t := w.task;
    PhasesOnlyForCurrent(digest, w, AppendReceipt(resolved, now));
    ChainNumbers(t.receipts, t.contract.value);
    ReceiptByPosition(t.receipts, t.attempts);
  }

  lemma SnapshotKeepsPast(digest: Body -> Digest, w: World, id: Digest, now: Time)
    requires Sound(digest, w) && PastComplete(w.task)
    ensures PastComplete(Next(digest, w, TakeSnapshot(id, now)).task)
  {
    PhasesOnlyForCurrent(digest, w, TakeSnapshot(id, now));
  }

  lemma NextKeepsPast(digest: Body -> Digest, w: World, s: Step)
    requires Sound(digest, w) && PastComplete(w.task) && !RevivesOpen(w, s)
    ensures PastComplete(Next(digest, w, s).task)
  {
    match s
    case Claim(runId, target) => if w.task.status == Runnable { ClaimKeepsPast(digest, w, runId, target); }
    case AppendReceipt(resolved, now) => AppendKeepsPast(digest, w, resolved, now);
    case TakeSnapshot(id, now) => SnapshotKeepsPast(digest, w, id, now);
    case Recover(now) => if w.task.status == Running && w.clock <= now { RecoverKeepsPast(digest, w, now); }
    case Finish => if BarrierOpen(digest, w.task, w.clock) { FinishKeepsPast(digest, w); }
    case Abandon =>
    case Requeue =>
  }

  lemma {:induction false} OrderlyKeepsPast(digest: Body -> Digest, w0: World, steps: seq<Step>)
    requires Enqueued(w0) && Orderly(digest, w0, steps)
    ensures PastComplete(Run(digest, w0, steps).task)
  {
    if steps != [] {
      var n := |steps| - 1;
      var before := steps[..n];
      assert Orderly(digest, w0, before) by {
        forall k | 0 <= k < |before| ensures !RevivesOpen(Run(digest, w0, before[..k]), before[k]) {
          assert before[..k] == steps[..k];
          assert !RevivesOpen(Run(digest, w0, steps[..k]), steps[k]);
        }
      }
      OrderlyKeepsPast(digest, w0, before);
      RunKeepsSound(digest, w0, before);
      assert !RevivesOpen(Run(digest, w0, steps[..n]), steps[n]);
      NextKeepsPast(digest, Run(digest, w0, before), steps[n]);
    }
  }

  /** Unless a task was requeued in the middle of an attempt, the barrier is open exactly
      when the current attempt closed with its snapshot: not before its receipt, not
      between receipt and snapshot, and not after a recovery that came first. */
  lemma {:induction false} OrderlyBarrier(digest: Body -> Digest, w0: World, steps: seq<Step>)
    requires Injective(digest) && Enqueued(w0) && Orderly(digest, w0, steps)
    ensures var w := Run(digest, w0, steps);
            BarrierOpen(digest, w.task, w.clock) <==> CurrentSnapshotted(w.task)
  {
    BarrierExact(digest, w0, steps);
    OrderlyKeepsPast(digest, w0, steps);
    var t := Run(digest, w0, steps).task;
    if CurrentSnapshotted(t) { PastCompletes(t); }
  }

  lemma PastCompletes(t: Task)
    requires PastComplete(t) && CurrentSnapshotted(t)
    ensures Complete(t)
  {
  }

  /** So in every run in which nothing is requeued. */
  lemma {:induction false} BarrierWithoutRequeue(digest: Body -> Digest, w0: World, steps: seq<Step>)
    requires Injective(digest) && Enqueued(w0)
    requires forall k | 0 <= k < |steps| :: !steps[k].Requeue?
    ensures var w := Run(digest, w0, steps);
            BarrierOpen(digest, w.task, w.clock) <==> CurrentSnapshotted(w.task)
  {
    OrderlyBarrier(digest, w0, steps);
  }

  // ---------------------------------------------------------- idempotence

  lemma AppendedIsNew(digest: Body -> Digest, t: Task, target: Target, runId: string, now: Time)
    requires JudgeAppend(digest, t, target, runId, now).Appended?
    ensures t.contract.Some? && AppendFault(digest, t, t.contract.value, target, now).None?
    ensures ReceiptsOf(t.receipts, t.attempts) == []
    ensures JudgeAppend(digest, t, target, runId, now).receipt
            == NewReceipt(digest, t, t.contract.value, target, runId, now)
  {
  }

  /** After an append the attempt has exactly the new receipt, and every receipt is valid. */
  lemma {:induction false} AfterAppended(
    digest: Body -> Digest, t: Task, target: Target, runId: string, now: Time, later: Time)
    requires JudgeAppend(digest, t, target, runId, now).Appended? && now <= later
    ensures var r := JudgeAppend(digest, t, target, runId, now).receipt;
            var t' := AfterAppend(t, Appended(r));
            && ReceiptsOf(t'.receipts, t.attempts) == [r] && ValidReceipts(digest, t'.receipts, later)
            && r == NewReceipt(digest, t, t.contract.value, target, runId, now)
  {
    AppendedIsNew(digest, t, target, runId, now);
    var r := NewReceipt(digest, t, t.contract.value, target, runId, now);
    ReceiptsOfAppend(t.receipts, r, t.attempts);
    ClockAdvances(digest, t.receipts, now, later);
    assert ValidReceipt(digest, r, later);
  }

  /** Appending again for the same attempt, target and claim returns the receipt already
      there; for any other target it is refused. */
  lemma AppendIsIdempotent(digest: Body -> Digest, t: Task, target: Target, other: Target,
                           runId: string, now: Time, later: Time)
    requires JudgeAppend(digest, t, target, runId, now).Appended? && now <= later
    ensures var first := JudgeAppend(digest, t, target, runId, now);
            var again := JudgeAppend(digest, AfterAppend(t, first), other, runId, later);
            if other == target then again == Existing(first.receipt) else again.Refused?
  {
    AfterAppended(digest, t, target, runId, now, later);
  }

  // -------------------------------------------------------- tamper evidence

  /** Receipts agree on everything the identity covers. */
  ghost predicate SameButTime(a: seq<Receipt>, b: seq<Receipt>) {
    && |a| == |b|
    && forall i | 0 <= i < |a| :: a[i].body == b[i].body && a[i].id == b[i].id
  }

  lemma {:induction false} EqualTipsFrom(
    digest: Body -> Digest, a: seq<Receipt>, b: seq<Receipt>, c: Contract, d: Contract, nowA: Time, nowB: Time, k: nat)
    requires Injective(digest)
    requires ChainSound(digest, a, c, nowA) && ChainSound(digest, b, d, nowB)
    requires k < |a| == |b| && a[|a| - 1].id == b[|b| - 1].id
    ensures a[k].body == b[k].body && a[k].id == b[k].id
    decreases |a| - k
  {
    assert ValidReceipt(digest, a[k], nowA) && ValidReceipt(digest, b[k], nowB);
    if k < |a| - 1 {
      EqualTipsFrom(digest, a, b, c, d, nowA, nowB, k + 1);
      assert Chained(a, c, k + 1) && Chained(b, d, k + 1);
    }
  }

  lemma CanonicalChain(digest: Body -> Digest, t: Task, c: Contract, now: Time)
    requires Canonical(digest, t, c, now)
    ensures ChainSound(digest, t.receipts, c, now)
  {
  }

  /** Two accepted histories with the same last identity have the same length and
      agree on every receipt, recording times apart.  Their contracts then agree on
      everything a receipt binds. */
  lemma LastIdentityFixesHistory(
    digest: Body -> Digest, t: Task, u: Task, c: Contract, d: Contract, nowT: Time, nowU: Time)
    requires Injective(digest)
    requires Canonical(digest, t, c, nowT) && Canonical(digest, u, d, nowU)
    requires t.receipts[|t.receipts| - 1].id == u.receipts[|u.receipts| - 1].id
    ensures SameButTime(t.receipts, u.receipts)
    ensures c.digest == d.digest && c.taskId == d.taskId && c.taskRevision == d.taskRevision
            && c.revisions == d.revisions
  {
    var a, b := t.receipts, u.receipts;
    CanonicalChain(digest, t, c, nowT);
    CanonicalChain(digest, u, d, nowU);
    assert Chained(a, c, |a| - 1) && Chained(b, d, |b| - 1);
    assert ValidReceipt(digest, a[|a| - 1], nowT) && ValidReceipt(digest, b[|b| - 1], nowU);
    forall k | 0 <= k < |a| ensures a[k].body == b[k].body && a[k].id == b[k].id {
      EqualTipsFrom(digest, a, b, c, d, nowT, nowU, k);
    }
  }
}
