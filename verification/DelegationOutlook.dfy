/** Whether a delegated task can still reach its worker: which states leave a way to open
    the launch barrier, which close it for good, and how the latter come about. */
module DelegationOutlook {
  import opened Options
  import opened DelegationModel
  import opened DelegationProtocol
  import opened DelegationBarrier

  /** Some earlier attempt was left without a closing phase. */
  ghost predicate LeftOpen(t: Task, a: nat) {
    1 <= a <= |t.receipts| && a < t.attempts && |PhasesOf(t.phases, a)| == 1
  }

  /** Some attempt has no receipt, other than a current one that is still running. */
  ghost predicate LacksReceipt(t: Task) {
    |t.receipts| < t.attempts && !(t.status == Running && t.attempts == |t.receipts| + 1)
  }

  /** Nothing is lost yet: no earlier attempt is left open, none lacks its receipt, and an
      open attempt is still running. */
  ghost predicate Viable(t: Task) {
    && (forall a: nat :: !LeftOpen(t, a))
    && !LacksReceipt(t)
    && (AttemptOpen(t) ==> t.status == Running)
  }

  // ------------------------------------------------------- lost for good

  lemma ReceiptsLag(digest: Body -> Digest, w: World, resolved: Target, now: Time)
    requires Sound(digest, w) && |w.task.receipts| + 1 < w.task.attempts
    ensures Next(digest, w, AppendReceipt(resolved, now)).task.receipts == w.task.receipts
  {
    var t := w.task;
    ChainNumbers(t.receipts, t.contract.value);
  }

  lemma {:induction false} LostStaysLost(digest: Body -> Digest, w: World, s: Step)
    requires Sound(digest, w) && !Viable(w.task)
    ensures !Viable(Next(digest, w, s).task)
  {
    var t := w.task;
    var t' := Next(digest, w, s).task;
    PhasesOnlyForCurrent(digest, w, s);
    if a: nat :| LeftOpen(t, a) {
      assert LeftOpen(t', a);
    } else if LacksReceipt(t) {
      if s.AppendReceipt? && |t.receipts| + 1 < t.attempts { ReceiptsLag(digest, w, s.resolved, s.now); }
    } else if s.Claim? && t.status == Runnable {
      assert LeftOpen(t', t.attempts);
    }
  }

  lemma OpenIsViable(digest: Body -> Digest, w: World)
    requires Sound(digest, w) && BarrierOpen(digest, w.task, w.clock)
    ensures Viable(w.task)
  {
    CanonicalIsSnapshotted(digest, w);
  }

  /** Once something is lost no continuation opens the barrier. */
  lemma {:induction false} LostIsBlockedForever(digest: Body -> Digest, w: World, steps: seq<Step>)
    requires Sound(digest, w) && !Viable(w.task)
    ensures var w' := Run(digest, w, steps);
            Sound(digest, w') && !Viable(w'.task) && !BarrierOpen(digest, w'.task, w'.clock)
  {
    if steps != [] {
      var n := |steps| - 1;
      LostIsBlockedForever(digest, w, steps[..n]);
      NextKeepsSound(digest, Run(digest, w, steps[..n]), steps[n]);
      LostStaysLost(digest, Run(digest, w, steps[..n]), steps[n]);
    }
    var w' := Run(digest, w, steps);
    if BarrierOpen(digest, w'.task, w'.clock) { OpenIsViable(digest, w'); }
  }

  // --------------------------------------------------------- still a way

  lemma OneMoreStep(digest: Body -> Digest, w: World, steps: seq<Step>, s: Step)
    ensures Run(digest, w, steps + [s]) == Next(digest, Run(digest, w, steps), s)
  {
    assert (steps + [s])[..|steps|] == steps;
  }

  lemma {:induction false} UnusedSnapshotId(snapshots: seq<Snapshot>) returns (id: Digest)
    ensures forall i | 0 <= i < |snapshots| :: snapshots[i].id < id
    ensures NewSnapshotId(snapshots, id)
  {
    if snapshots == [] { return 0; }
    var n := |snapshots| - 1;
    var before := UnusedSnapshotId(snapshots[..n]);
    id := if snapshots[n].id < before then before else snapshots[n].id + 1;
  }

  /** The current attempt is running and has not got its receipt yet. */
  ghost predicate AwaitsReceipt(t: Task) {
    t.status == Running && t.attempts == |t.receipts| + 1 && forall a: nat :: !LeftOpen(t, a)
  }

  lemma AppendIsAccepted(digest: Body -> Digest, w: World, resolved: Target)
    requires Sound(digest, w) && AwaitsReceipt(w.task)
    requires w.task.workerTarget.Some? ==> resolved.targetId == w.task.workerTarget.value
    ensures w.task.activeRun.Some?
    ensures JudgeAppend(digest, w.task, resolved, w.task.activeRun.value, w.clock).Appended?
  {
    ChainNumbers(w.task.receipts, w.task.contract.value);
    ReceiptByPosition(w.task.receipts, w.task.attempts);
  }

  /** The next append of a running attempt succeeds for some target. */
  lemma {:induction false} ReceiptCanBeAppended(digest: Body -> Digest, w: World) returns (s: Step)
    requires Sound(digest, w) && AwaitsReceipt(w.task)
    ensures Sound(digest, Next(digest, w, s)) && Viable(Next(digest, w, s).task)
    ensures AttemptOpen(Next(digest, w, s).task) && Next(digest, w, s).task.status == Running
  {
    var t := w.task;
    var name := if t.workerTarget.Some? then t.workerTarget.value else "";
    var resolved := Target("", 0, name, t.activeTarget.value, 0, 0, None);
    s := AppendReceipt(resolved, w.clock);
    AppendIsAccepted(digest, w, resolved);
    var p := Phase(|t.phases| + 1, t.contract.value.taskId, t.attempts,
                   JudgeAppend(digest, t, resolved, t.activeRun.value, w.clock).receipt.id, ReceiptAppended);
    var t' := Next(digest, w, s).task;
    assert t'.phases == t.phases + [p] && |t'.receipts| == |t.receipts| + 1;
    NextKeepsSound(digest, w, s);
    NoPhases(t.phases, t.attempts);
    forall a: nat ensures !LeftOpen(t', a) {
      assert !LeftOpen(t, a);
      PhasesOfAppend(t.phases, p, a);
    }
    PhasesOfAppend(t.phases, p, t.attempts);
  }

  lemma {:induction false} SnapshotCanBeTaken(digest: Body -> Digest, w: World) returns (s: Step)
    requires Injective(digest) && Sound(digest, w) && Viable(w.task) && AttemptOpen(w.task)
    ensures BarrierOpen(digest, Next(digest, w, s).task, Next(digest, w, s).clock)
  {
    var t := w.task;
    var id := UnusedSnapshotId(t.snapshots);
    s := TakeSnapshot(id, w.clock);
    ChainNumbers(t.receipts, t.contract.value);
    ReceiptByPosition(t.receipts, t.attempts);
    NextKeepsSound(digest, w, s);
    var w' := Next(digest, w, s);
    PhasesOfAppend(t.phases, w'.task.phases[|t.phases|], t.attempts);
    PhasesOnlyForCurrent(digest, w, s);
    forall a | 1 <= a <= |w'.task.receipts| ensures |PhasesOf(w'.task.phases, a)| == 2 {
      PairSizes(digest, w, a);
      assert !LeftOpen(t, a);
    }
    SoundBarrierExact(digest, w');
  }

  /** From a running attempt that awaits its receipt two steps open the barrier. */
  lemma {:induction false} ReceiptThenSnapshot(digest: Body -> Digest, w: World, before: seq<Step>)
    returns (steps: seq<Step>)
    requires Injective(digest)
    requires Sound(digest, Run(digest, w, before)) && AwaitsReceipt(Run(digest, w, before).task)
    ensures BarrierOpen(digest, Run(digest, w, steps).task, Run(digest, w, steps).clock)
  {
    var at := Run(digest, w, before);
    var append := ReceiptCanBeAppended(digest, at);
    OneMoreStep(digest, w, before, append);
    var snapshot := SnapshotCanBeTaken(digest, Next(digest, at, append));
    OneMoreStep(digest, w, before + [append], snapshot);
    steps := before + [append] + [snapshot];
  }

  /** A claim of a runnable task with nothing lost awaits its receipt. */
  lemma ClaimAwaitsReceipt(digest: Body -> Digest, w: World)
    requires Sound(digest, w) && Viable(w.task) && w.task.status == Runnable
    ensures Sound(digest, Next(digest, w, Claim("", 0))) && AwaitsReceipt(Next(digest, w, Claim("", 0)).task)
  {
    var t := w.task;
    NextKeepsSound(digest, w, Claim("", 0));
    forall a: nat ensures !LeftOpen(Next(digest, w, Claim("", 0)).task, a) { assert !LeftOpen(t, a); }
  }

  /** A task with nothing lost and no attempt in progress can be made runnable. */
  lemma {:induction false} CanBeMadeRunnable(digest: Body -> Digest, w: World) returns (steps: seq<Step>)
    requires Sound(digest, w) && Viable(w.task) && w.task.attempts == |w.task.receipts| && !AttemptOpen(w.task)
    ensures var w' := Run(digest, w, steps);
            Sound(digest, w') && Viable(w'.task) && w'.task.status == Runnable
  {
    assert Run(digest, w, []) == w;
    steps := [];
    if w.task.status == Running {
      OneMoreStep(digest, w, steps, Abandon);
      NextKeepsSound(digest, w, Abandon);
      steps := steps + [Abandon];
      forall a: nat ensures !LeftOpen(Run(digest, w, steps).task, a) { assert !LeftOpen(w.task, a); }
    }
    var at := Run(digest, w, steps);
    if at.task.status == Failed {
      OneMoreStep(digest, w, steps, Requeue);
      NextKeepsSound(digest, at, Requeue);
      steps := steps + [Requeue];
      forall a: nat ensures !LeftOpen(Run(digest, w, steps).task, a) { assert !LeftOpen(at.task, a); }
    }
  }

  lemma {:induction false} ViableCanOpen(digest: Body -> Digest, w: World) returns (steps: seq<Step>)
    requires Injective(digest) && Sound(digest, w) && Viable(w.task)
    ensures BarrierOpen(digest, Run(digest, w, steps).task, Run(digest, w, steps).clock)
  {
    assert Run(digest, w, []) == w;
    if |w.task.receipts| < w.task.attempts {
      steps := ReceiptThenSnapshot(digest, w, []);
    } else if AttemptOpen(w.task) {
      var snapshot := SnapshotCanBeTaken(digest, w);
      OneMoreStep(digest, w, [], snapshot);
      steps := [] + [snapshot];
    } else {
      steps := CanBeMadeRunnable(digest, w);
      ClaimAwaitsReceipt(digest, Run(digest, w, steps));
      OneMoreStep(digest, w, steps, Claim("", 0));
      steps := ReceiptThenSnapshot(digest, w, steps + [Claim("", 0)]);
    }
  }

  ghost predicate CanOpen(digest: Body -> Digest, w: World) {
    exists steps :: BarrierOpen(digest, Run(digest, w, steps).task, Run(digest, w, steps).clock)
  }

  /** Some continuation opens the barrier exactly when nothing is lost yet. */
  lemma {:induction false} CanOpenExact(digest: Body -> Digest, w: World)
    requires Injective(digest) && Sound(digest, w)
    ensures CanOpen(digest, w) <==> Viable(w.task)
  {
    if Viable(w.task) {
      var steps := ViableCanOpen(digest, w);
    } else {
      forall steps ensures !BarrierOpen(digest, Run(digest, w, steps).task, Run(digest, w, steps).clock) {
        LostIsBlockedForever(digest, w, steps);
      }
    }
  }

  // ------------------------------------------------------ how it is lost

  lemma {:induction false} StartIsViable(digest: Body -> Digest, w0: World)
    requires Enqueued(w0)
    ensures Sound(digest, w0) && Viable(w0.task)
  {
    assert Run(digest, w0, []) == w0;
    RunKeepsSound(digest, w0, []);
  }

  /** From any enqueued task: failing an attempt between receipt and snapshot, then
      requeueing and claiming again, leaves it open. */
  lemma {:induction false} AttemptCanBeLeftOpen(digest: Body -> Digest, w0: World) returns (steps: seq<Step>)
    requires Enqueued(w0)
    ensures Sound(digest, Run(digest, w0, steps)) && LeftOpen(Run(digest, w0, steps).task, 1)
  {
    StartIsViable(digest, w0);
    ClaimAwaitsReceipt(digest, w0);
    var claimed := Next(digest, w0, Claim("", 0));
    var append := ReceiptCanBeAppended(digest, claimed);
    var receipted := Next(digest, claimed, append);
    var failed := Next(digest, receipted, Abandon);
    var requeued := Next(digest, failed, Requeue);
    var again := Next(digest, requeued, Claim("", 0));
    assert Run(digest, w0, []) == w0;
    OneMoreStep(digest, w0, [], Claim("", 0));
    OneMoreStep(digest, w0, [] + [Claim("", 0)], append);
    OneMoreStep(digest, w0, [] + [Claim("", 0)] + [append], Abandon);
    OneMoreStep(digest, w0, [] + [Claim("", 0)] + [append] + [Abandon], Requeue);
    steps := [] + [Claim("", 0)] + [append] + [Abandon] + [Requeue];
    OneMoreStep(digest, w0, steps, Claim("", 0));
    steps := steps + [Claim("", 0)];
    assert Run(digest, w0, steps) == again;
    RunKeepsSound(digest, w0, steps);
  }

  /** From any enqueued task: an attempt that fails before its receipt, requeued and
      claimed again, lacks that receipt, and no attempt is left open. */
  lemma ReceiptCanBeMissed(digest: Body -> Digest, w0: World)
    requires Enqueued(w0)
    ensures var w := Run(digest, w0, [Claim("", 0), Abandon, Requeue, Claim("", 0)]);
            Sound(digest, w) && LacksReceipt(w.task) && forall a: nat :: !LeftOpen(w.task, a)
  {
    assert Run(digest, w0, []) == w0;
    var c := Claim("", 0);
    OneMoreStep(digest, w0, [], c);
    OneMoreStep(digest, w0, [] + [c], Abandon);
    OneMoreStep(digest, w0, [] + [c] + [Abandon], Requeue);
    OneMoreStep(digest, w0, [] + [c] + [Abandon] + [Requeue], c);
    assert [] + [c] + [Abandon] + [Requeue] + [c] == [c, Abandon, Requeue, c];
    RunKeepsSound(digest, w0, [c, Abandon, Requeue, c]);
  }
}
