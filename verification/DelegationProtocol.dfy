/** The claim protocol of a delegated task as a state machine over its steps, the
    invariant every run keeps, and what the launch barrier then decides. */
module DelegationProtocol {
  import opened Options
  import opened DelegationModel

  datatype World = World(task: Task, clock: Time)

  /** `Abandon` stands for any failure between claim and launch that is not a
      stale-run recovery; `Requeue` for an operator making a failed task runnable. */
  datatype Step =
    | Claim(runId: string, target: Digest)
    | AppendReceipt(resolved: Target, now: Time)
    | TakeSnapshot(id: Digest, now: Time)
    | Recover(now: Time)
    | Abandon
    | Requeue
    | Finish

  predicate NewSnapshotId(snapshots: seq<Snapshot>, id: Digest) {
    forall i | 0 <= i < |snapshots| :: snapshots[i].id != id
  }

  /** The runner's guard around the unguarded snapshot phase: once per attempt, after
      the receipt, with a capture whose identity is new. */
  predicate MayTakeSnapshot(t: Task, id: Digest) {
    && t.contract.Some? && t.status == Running
    && |ReceiptsOf(t.receipts, t.attempts)| == 1 && |PhasesOf(t.phases, t.attempts)| == 1
    && NewSnapshotId(t.snapshots, id)
  }

  function WithSnapshot(t: Task, id: Digest, now: Time): Task
    requires MayTakeSnapshot(t, id)
  {
    WithPhase(t.(snapshots := t.snapshots + [Snapshot(id, true, t.id, t.attempts, now)]),
              t.attempts, ReceiptsOf(t.receipts, t.attempts)[0].id, SnapshotRecorded(id), t.contract.value.taskId)
  }

  function Next(digest: Body -> Digest, w: World, s: Step): World {
    var t := w.task;
    match s
    case Claim(runId, target) =>
      if t.status != Runnable then w
      else w.(task := t.(status := Running, attempts := t.attempts + 1, runCount := t.runCount + 1,
                         activeRun := Some(runId), activeTarget := Some(target)))
    case AppendReceipt(resolved, now) =>
      if t.status != Running || now < w.clock || t.activeRun.None? || t.activeTarget != Some(resolved.snapshot) then w
      else
        var outcome := JudgeAppend(digest, t, resolved, t.activeRun.value, now);
        if outcome.Refused? then World(t.(status := Failed), now) else World(AfterAppend(t, outcome), now)
    case TakeSnapshot(id, now) =>
      if now < w.clock || !MayTakeSnapshot(t, id) then w else World(WithSnapshot(t, id, now), now)
    case Recover(now) =>
      if t.status != Running || now < w.clock then w
      else if t.contract.Some? && RecoveryFault(digest, t, now).Some? then World(t.(status := Failed), now)
      else World(AfterRecovery(digest, t, now).(status := Runnable, activeRun := None), now)
    case Abandon => if t.status == Running then w.(task := t.(status := Failed)) else w
    case Requeue => if t.status == Failed then w.(task := t.(status := Runnable)) else w
    case Finish =>
      if t.status == Running && BarrierOpen(digest, t, w.clock)
      then w.(task := t.(status := Runnable, activeRun := None)) else w
  }

  function Run(digest: Body -> Digest, w: World, steps: seq<Step>): World {
    if steps == [] then w else Next(digest, Run(digest, w, steps[..|steps| - 1]), steps[|steps| - 1])
  }

  /** A task just enqueued with its contract. */
  predicate Enqueued(w: World) {
    var t := w.task;
    && t.contract.Some? && t.contract.value.taskId == t.id
    && t.status == Runnable && t.attempts == 0 && t.runCount == 0
    && t.activeRun.None? && t.activeTarget.None?
    && t.receipts == [] && t.phases == [] && t.snapshots == []
  }

  // ---------------------------------------------------------------- filters

  lemma PhasesOfAppend(phases: seq<Phase>, p: Phase, attempt: int)
    ensures PhasesOf(phases + [p], attempt)
            == PhasesOf(phases, attempt) + (if p.attempt == attempt then [p] else [])
  {
    assert (phases + [p])[..|phases|] == phases;
  }

  lemma ReceiptsOfAppend(receipts: seq<Receipt>, r: Receipt, attempt: int)
    ensures ReceiptsOf(receipts + [r], attempt)
            == ReceiptsOf(receipts, attempt) + (if r.body.attempt == attempt then [r] else [])
  {
    assert (receipts + [r])[..|receipts|] == receipts;
  }

  lemma MatchingAppend(snapshots: seq<Snapshot>, s: Snapshot, id: Digest, taskId: string, attempt: int)
    ensures MatchingSnapshots(snapshots + [s], id, taskId, attempt)
            == MatchingSnapshots(snapshots, id, taskId, attempt)
               + (if Matches(s, id, taskId, attempt) then [s] else [])
  {
    assert (snapshots + [s])[..|snapshots|] == snapshots;
  }

  lemma {:induction false} NewIdMatchesNothing(snapshots: seq<Snapshot>, id: Digest, taskId: string, attempt: int)
    requires NewSnapshotId(snapshots, id)
    ensures MatchingSnapshots(snapshots, id, taskId, attempt) == []
  {
    if snapshots != [] { NewIdMatchesNothing(snapshots[..|snapshots| - 1], id, taskId, attempt); }
  }

  ghost predicate NumberedAttempts(receipts: seq<Receipt>) {
    forall i | 0 <= i < |receipts| :: receipts[i].body.attempt == i + 1
  }

  /** With one receipt per attempt in order, an attempt's receipt is found by position. */
  lemma {:induction false} ReceiptByPosition(receipts: seq<Receipt>, attempt: int)
    requires NumberedAttempts(receipts)
    ensures ReceiptsOf(receipts, attempt)
            == if 1 <= attempt <= |receipts| then [receipts[attempt - 1]] else []
  {
    if receipts != [] { ReceiptByPosition(receipts[..|receipts| - 1], attempt); }
  }

  lemma {:induction false} NoPhases(phases: seq<Phase>, attempt: int)
    requires forall i | 0 <= i < |phases| :: phases[i].attempt != attempt
    ensures PhasesOf(phases, attempt) == []
  {
    if phases != [] { NoPhases(phases[..|phases| - 1], attempt); }
  }

  // -------------------------------------------------------------- invariant

  /** Attempt `i + 1` has its receipt phase and at most one closing phase. */
  ghost predicate PairOk(receipts: seq<Receipt>, phases: seq<Phase>, snapshots: seq<Snapshot>, i: nat)
    requires i < |receipts|
  {
    var own := PhasesOf(phases, i + 1);
    && 1 <= |own| <= 2
    && own[0].kind == ReceiptAppended && own[0].receiptId == receipts[i].id && own[0].sequence <= |phases|
    && (|own| == 2 ==> own[0].sequence < own[1].sequence && ClosesOk(receipts[i], own[1], snapshots))
  }

  /** A closing phase names the receipt; a snapshot phase has its one capture, no
      earlier than the receipt. */
  ghost predicate ClosesOk(r: Receipt, p: Phase, snapshots: seq<Snapshot>) {
    && p.receiptId == r.id && p.kind != ReceiptAppended
    && (p.kind.SnapshotRecorded? ==>
          var found := MatchingSnapshots(snapshots, p.kind.snapshotId, r.body.taskId, r.body.attempt);
          |found| == 1 && r.recordedAt <= found[0].capturedAt)
  }

  ghost predicate ChainSound(digest: Body -> Digest, receipts: seq<Receipt>, c: Contract, clock: Time) {
    && ValidReceipts(digest, receipts, clock)
    && forall i | 0 <= i < |receipts| :: Chained(receipts, c, i)
  }

  ghost predicate PhasesSound(receipts: seq<Receipt>, phases: seq<Phase>, snapshots: seq<Snapshot>) {
    && PhasesNumbered(phases)
    && (forall i | 0 <= i < |phases| :: 1 <= phases[i].attempt <= |receipts|)
    && (forall i | 0 <= i < |receipts| :: PairOk(receipts, phases, snapshots, i))
  }

  ghost predicate CurrentSound(t: Task) {
    && |t.receipts| <= t.attempts <= t.runCount
    && (t.status == Running ==> t.activeRun.Some? && t.activeTarget.Some?)
    && (|t.receipts| > 0 && |t.receipts| == t.attempts ==>
          CurrentFault(t, t.receipts[|t.receipts| - 1]).None?)
  }

  ghost predicate Sound(digest: Body -> Digest, w: World) {
    var t := w.task;
    && t.contract.Some? && t.contract.value.taskId == t.id
    && ChainSound(digest, t.receipts, t.contract.value, w.clock)
    && PhasesSound(t.receipts, t.phases, t.snapshots)
    && CurrentSound(t)
  }

  lemma ChainNumbers(receipts: seq<Receipt>, c: Contract)
    requires forall i | 0 <= i < |receipts| :: Chained(receipts, c, i)
    ensures NumberedAttempts(receipts)
    ensures forall i | 0 <= i < |receipts| :: receipts[i].body.taskId == c.taskId
  {
    forall i | 0 <= i < |receipts|
      ensures receipts[i].body.attempt == i + 1 && receipts[i].body.taskId == c.taskId
    {
      assert Chained(receipts, c, i);
    }
  }

  lemma ClockAdvances(digest: Body -> Digest, receipts: seq<Receipt>, clock: Time, now: Time)
    requires ValidReceipts(digest, receipts, clock) && clock <= now
    ensures ValidReceipts(digest, receipts, now)
  {
    forall i | 0 <= i < |receipts| ensures ValidReceipt(digest, receipts[i], now) {
      assert ValidReceipt(digest, receipts[i], clock);
    }
  }

  lemma ChainExtends(digest: Body -> Digest, receipts: seq<Receipt>, r: Receipt, c: Contract, now: Time)
    requires ChainSound(digest, receipts, c, now) && ValidReceipt(digest, r, now)
    requires Chained(receipts + [r], c, |receipts|)
    ensures ChainSound(digest, receipts + [r], c, now)
  {
    forall i | 0 <= i < |receipts| ensures Chained(receipts + [r], c, i) {
      assert Chained(receipts, c, i);
    }
  }

  /** A new receipt opens its attempt. */
  lemma AttemptOpens(receipts: seq<Receipt>, phases: seq<Phase>, snapshots: seq<Snapshot>, r: Receipt, p: Phase)
    requires PhasesSound(receipts, phases, snapshots)
    requires p.sequence == |phases| + 1 && p.attempt == |receipts| + 1
    requires p.kind == ReceiptAppended && p.receiptId == r.id
    ensures PhasesSound(receipts + [r], phases + [p], snapshots)
  {
    NoPhases(phases, |receipts| + 1);
    forall i | 0 <= i <= |receipts| ensures PairOk(receipts + [r], phases + [p], snapshots, i) {
      PhasesOfAppend(phases, p, i + 1);
      if i < |receipts| { assert PairOk(receipts, phases, snapshots, i); }
    }
  }

  /** A closing phase of an open attempt, with any capture it needs, keeps every pair. */
  lemma AttemptCloses(receipts: seq<Receipt>, phases: seq<Phase>, before: seq<Snapshot>, after: seq<Snapshot>, p: Phase)
    requires PhasesSound(receipts, phases, before)
    requires 1 <= p.attempt <= |receipts| && |PhasesOf(phases, p.attempt)| == 1
    requires p.sequence == |phases| + 1 && ClosesOk(receipts[p.attempt - 1], p, after)
    requires forall r: Receipt, q: Phase :: ClosesOk(r, q, before) ==> ClosesOk(r, q, after)
    ensures PhasesSound(receipts, phases + [p], after)
  {
    forall i | 0 <= i < |receipts| ensures PairOk(receipts, phases + [p], after, i) {
      assert PairOk(receipts, phases, before, i);
      PhasesOfAppend(phases, p, i + 1);
    }
  }

  /** A capture with a new identity changes no earlier match. */
  lemma CaptureKeepsMatches(snapshots: seq<Snapshot>, s: Snapshot)
    requires NewSnapshotId(snapshots, s.id)
    ensures forall r: Receipt, q: Phase :: ClosesOk(r, q, snapshots) ==> ClosesOk(r, q, snapshots + [s])
  {
    forall r: Receipt, q: Phase | ClosesOk(r, q, snapshots) ensures ClosesOk(r, q, snapshots + [s]) {
      if q.kind.SnapshotRecorded? {
        MatchingAppend(snapshots, s, q.kind.snapshotId, r.body.taskId, r.body.attempt);
        NewIdMatchesNothing(snapshots, s.id, r.body.taskId, r.body.attempt);
      }
    }
  }

  lemma {:induction false} AppendKeepsSound(digest: Body -> Digest, w: World, resolved: Target, now: Time)
    requires Sound(digest, w)
    ensures Sound(digest, Next(digest, w, AppendReceipt(resolved, now)))
  {
    var t := w.task;
    if t.status == Running && w.clock <= now && t.activeRun.Some? && t.activeTarget == Some(resolved.snapshot) {
      var c := t.contract.value;
      ClockAdvances(digest, t.receipts, w.clock, now);
      ChainNumbers(t.receipts, c);
      ReceiptByPosition(t.receipts, t.attempts);
      var outcome := JudgeAppend(digest, t, resolved, t.activeRun.value, now);
      if outcome.Appended? {
        var r := outcome.receipt;
        assert t.attempts == |t.receipts| + 1;
        ChainExtends(digest, t.receipts, r, c, now);
        AttemptOpens(t.receipts, t.phases, t.snapshots, r,
                     Phase(|t.phases| + 1, c.taskId, t.attempts, r.id, ReceiptAppended));
      }
    }
  }

  lemma {:induction false} SnapshotKeepsSound(digest: Body -> Digest, w: World, id: Digest, now: Time)
    requires Sound(digest, w) && w.clock <= now && MayTakeSnapshot(w.task, id)
    ensures Sound(digest, World(WithSnapshot(w.task, id, now), now))
  {
    var t := w.task;
    var c := t.contract.value;
    ClockAdvances(digest, t.receipts, w.clock, now);
    ChainNumbers(t.receipts, c);
    ReceiptByPosition(t.receipts, t.attempts);
    var r := t.receipts[t.attempts - 1];
    var s := Snapshot(id, true, t.id, t.attempts, now);
    var p := Phase(|t.phases| + 1, c.taskId, t.attempts, r.id, SnapshotRecorded(id));
    assert ValidReceipt(digest, r, w.clock);
    NewIdMatchesNothing(t.snapshots, id, t.id, t.attempts);
    MatchingAppend(t.snapshots, s, id, t.id, t.attempts);
    CaptureKeepsMatches(t.snapshots, s);
    AttemptCloses(t.receipts, t.phases, t.snapshots, t.snapshots + [s], p);
  }

  lemma {:induction false} RecoverKeepsSound(digest: Body -> Digest, w: World, now: Time)
    requires Sound(digest, w)
    ensures Sound(digest, Next(digest, w, Recover(now)))
  {
    var t := w.task;
    if t.status == Running && w.clock <= now {
      var c := t.contract.value;
      ClockAdvances(digest, t.receipts, w.clock, now);
      ChainNumbers(t.receipts, c);
      ReceiptByPosition(t.receipts, t.attempts);
      if RecoveryFault(digest, t, now).None? && |PhasesOf(t.phases, t.attempts)| == 1 {
        var p := Phase(|t.phases| + 1, c.taskId, t.attempts, t.receipts[t.attempts - 1].id, RecoveredBeforeWorker);
        AttemptCloses(t.receipts, t.phases, t.snapshots, t.snapshots, p);
      }
    }
  }

  lemma {:induction false} NextKeepsSound(digest: Body -> Digest, w: World, s: Step)
    requires Sound(digest, w)
    ensures Sound(digest, Next(digest, w, s))
  {
    match s
    case AppendReceipt(resolved, now) => AppendKeepsSound(digest, w, resolved, now);
    case TakeSnapshot(id, now) =>
      if w.clock <= now && MayTakeSnapshot(w.task, id) { SnapshotKeepsSound(digest, w, id, now); }
    case Recover(now) => RecoverKeepsSound(digest, w, now);
    case _ =>
  }

  /** Every run from enqueueing keeps the receipts chained, numbered and valid, gives
      every attempt one receipt phase and at most one closing phase, and binds the
      current claim. */
  lemma {:induction false} RunKeepsSound(digest: Body -> Digest, w: World, steps: seq<Step>)
    requires Enqueued(w)
    ensures Sound(digest, Run(digest, w, steps))
  {
    if steps != [] {
      RunKeepsSound(digest, w, steps[..|steps| - 1]);
      NextKeepsSound(digest, Run(digest, w, steps[..|steps| - 1]), steps[|steps| - 1]);
    }
  }
}
