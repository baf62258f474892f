/**
 The pipeline while it serves: every batch a collector takes up can reach the end, what the
 pipeline can hold, and what timeouts and a cancelled parent context can do to it.
 */
module PipelineService {
  import opened Int64
  import opened Pipeline

  // ---------------------------------------------------------------- delivery in service

  /** A step that only moves batches along: no tick, no part of the shutdown, nobody leaves. */
  predicate Moves(a: Action) {
    || a.RuntimeSend? || a.SystemSend? || a.TransferReceive? || a.TransferSend?
    || a.SubmitterReceive? || a.SubmitterSend? || a.WorkerTake? || a.WorkerFinish?
  }

  predicate OnlyMoves(run: seq<Action>) {
    forall i :: 0 <= i < |run| ==> Moves(run[i])
  }

  /** The collectors' channel is open, the parent context live, and there is a worker. */
  predicate InService(s: State) {
    Inv(s) && s.crash.NoCrash? && !s.collected.closed && s.parentLive && |s.workers| >= 1
  }

  function HeldBy(c: Collector): multiset<Batch> {
    if c.Holding? then multiset{c.batch} else multiset{}
  }

  predicate SomeoneRuns(s: State) {
    exists w :: 0 <= w < |s.workers| && s.workers[w].Running?
  }

  /** A batch is held by a collector, waiting or running. */
  predicate Busy(s: State) {
    s.runtime.Holding? || s.system.Holding? || Waiting(s) != [] || SomeoneRuns(s)
  }

  /** As long as a batch is on its way some step takes it further: the last stage that has one
      finds room ahead. */
  lemma NextMove(s: State) returns (a: Action)
    requires InService(s) && Busy(s)
    ensures Moves(a) && Enabled(s, a)
  {
    if SomeoneRuns(s) {
      var w :| 0 <= w < |s.workers| && s.workers[w].Running?;
      a := WorkerFinish(w);
    } else if s.tasks.buf != [] {
      a := WorkerTake(0);
    } else if s.submitter.Submitting? {
      a := SubmitterSend;
    } else if s.outbox.buf != [] {
      a := SubmitterReceive;
    } else if s.transfer.Carrying? {
      a := TransferSend;
    } else if s.collected.buf != [] {
      a := TransferReceive;
    } else {
      a := if s.runtime.Holding? then RuntimeSend else SystemSend;
    }
  }

  /** What moving batches leaves alone. */
  predicate Undisturbed(s: State, t: State) {
    && t.stage == s.stage && t.poolStop == s.poolStop && t.timedOut == s.timedOut && t.pollCount == s.pollCount
    && (t.runtime.Gone? <==> s.runtime.Gone?) && (t.system.Gone? <==> s.system.Gone?)
  }

  /** All batches that were ever taken up by the collectors. */
  function TakenUp(s: State): multiset<Batch> {
    multiset(s.sent) + HeldBy(s.runtime) + HeldBy(s.system)
  }

  function HandWeight(c: Collector): nat {
    if c.Holding? then 9 else 0
  }

  function ServiceMeasure(s: State): nat {
    HandWeight(s.runtime) + HandWeight(s.system) + Measure(s)
  }

  lemma SendMoves(s: State, a: Action)
    requires InService(s) && (a.RuntimeSend? || a.SystemSend?) && Enabled(s, a)
    ensures
      var t := Apply(s, a);
      && t.crash.NoCrash? && t.parentLive && !t.collected.closed && t.workers == s.workers
      && Undisturbed(s, t) && ServiceMeasure(t) < ServiceMeasure(s)
  {
  }

  lemma MovedBatch<T>(sent: seq<T>, b: T, x: multiset<T>, y: multiset<T>)
    ensures x == multiset{b} ==> multiset(sent + [b]) + multiset{} + y == multiset(sent) + x + y
    ensures y == multiset{b} ==> multiset(sent + [b]) + x + multiset{} == multiset(sent) + x + y
  {
  }

  lemma SendKeepsTakenUp(s: State, a: Action)
    requires InService(s) && (a.RuntimeSend? || a.SystemSend?) && Enabled(s, a)
    ensures TakenUp(Apply(s, a)) == TakenUp(s)
  {
    var b := if a.RuntimeSend? then s.runtime.batch else s.system.batch;
    assert Apply(s, a).sent == s.sent + [b];
    MovedBatch(s.sent, b, HeldBy(s.runtime), HeldBy(s.system));
  }

  lemma LaterMoves(s: State, a: Action)
    requires InService(s) && Moves(a) && !a.RuntimeSend? && !a.SystemSend? && Enabled(s, a)
    ensures
      var t := Apply(s, a);
      && t.crash.NoCrash? && t.parentLive && !t.collected.closed && |t.workers| == |s.workers|
      && Undisturbed(s, t) && TakenUp(t) == TakenUp(s) && t.runtime == s.runtime && t.system == s.system
  {
    CollectorsUntouched(s, a);
  }

  lemma LaterMovesDecrease(s: State, a: Action)
    requires InService(s) && Moves(a) && !a.RuntimeSend? && !a.SystemSend? && Enabled(s, a)
    ensures Measure(Apply(s, a)) < Measure(s)
  {
    if a.WorkerTake? {
      TakeMeasureDecreases(s, a.w);
    } else if a.WorkerFinish? {
      WorkerMeasureDecreases(s, a.w, Ready);
    } else if a.SubmitterReceive? || a.SubmitterSend? {
      SubmitterMeasureDecreases(s, a);
    } else {
      TransferMeasureDecreases(s, a);
    }
  }

  /** Still in service, undisturbed, and no batch more or less. */
  predicate Kept(s: State, t: State) {
    InService(t) && Undisturbed(s, t) && TakenUp(t) == TakenUp(s)
  }

  lemma MoveKeeps(s: State, a: Action)
    requires InService(s) && Moves(a) && Enabled(s, a)
    ensures Kept(s, Apply(s, a)) && ServiceMeasure(Apply(s, a)) < ServiceMeasure(s)
  {
    assert Inv(Apply(s, a)) by { InvStep(s, a); }
    if a.RuntimeSend? || a.SystemSend? {
      SendMoves(s, a);
      SendKeepsTakenUp(s, a);
    } else {
      LaterMoves(s, a);
      LaterMovesDecrease(s, a);
    }
  }

  lemma KeptTransitive(s: State, t: State, u: State)
    requires Kept(s, t) && Kept(t, u)
    ensures Kept(s, u)
  {
  }

  lemma FirstThen(s: State, a: Action, rest: seq<Action>)
    requires Enabled(s, a) && IsRun(Apply(s, a), rest)
    ensures IsRun(s, [a] + rest) && After(s, [a] + rest) == After(Apply(s, a), rest)
    ensures Moves(a) && OnlyMoves(rest) ==> OnlyMoves([a] + rest)
  {
    assert ([a] + rest)[1..] == rest;
  }

  /** Moving batches alone empties the pipeline. */
  lemma {:induction false} QuietDown(s: State) returns (run: seq<Action>)
    requires InService(s)
    ensures IsRun(s, run) && OnlyMoves(run)
    ensures Kept(s, After(s, run)) && !Busy(After(s, run))
    decreases ServiceMeasure(s)
  {
    if !Busy(s) {
      run := [];
    } else {
      var a := NextMove(s);
      MoveKeeps(s, a);
      var rest := QuietDown(Apply(s, a));
      KeptTransitive(s, Apply(s, a), After(Apply(s, a), rest));
      FirstThen(s, a, rest);
      run := [a] + rest;
    }
  }

  lemma QuietIsExecuted(s: State)
    requires Inv(s) && !Busy(s)
    ensures s.executed == TakenUp(s) == multiset(s.sent)
  {
    InvAccounts(s);
    InFlightBound(s.workers);
  }

  /** While the agent serves under a live parent context, with at least one worker: without a
      tick, a signal, a timeout or anybody leaving, everything that was sent or is held by the
      collectors can be executed, and both collectors can poll again. */
  lemma EverythingIsExecuted(s: State) returns (run: seq<Action>)
    requires Inv(s) && s.crash.NoCrash? && s.stage.Serving? && s.parentLive && |s.workers| >= 1
    ensures IsRun(s, run) && OnlyMoves(run)
    ensures
      var t := After(s, run);
      && t.stage.Serving? && t.crash.NoCrash? && t.runtime.Polling? && t.system.Polling? && Waiting(t) == []
      && t.executed == multiset(s.sent) + HeldBy(s.runtime) + HeldBy(s.system)
  {
    run := QuietDown(s);
    QuietIsExecuted(After(s, run));
  }

  /** No step but a tick or one of the shutdown is ever needed to go on. */
  lemma ServiceNeverStuck(s: State)
    requires Inv(s) && s.crash.NoCrash? && s.stage.Serving? && s.parentLive && |s.workers| >= 1 && Busy(s)
    ensures exists a :: Moves(a) && Enabled(s, a)
  {
    var a := NextMove(s);
  }

  // ---------------------------------------------------------------- collectors

  /** A collector that polls can always tick, and what it read is what it sends, with the next
      PollCount. */
  lemma TickAndSend(s: State, readings: int)
    requires s.crash.NoCrash? && !s.collected.closed && |s.collected.buf| < CAPACITY
    ensures s.runtime.Polling? ==>
              && IsRun(s, [RuntimeTick(readings), RuntimeSend])
              && After(s, [RuntimeTick(readings), RuntimeSend]).sent
                 == s.sent + [Runtime(Wrap(s.pollCount + 1), readings)]
    ensures s.system.Polling? ==>
              && IsRun(s, [SystemTick(readings), SystemSend])
              && After(s, [SystemTick(readings), SystemSend]).sent == s.sent + [System(readings)]
  {
    if s.runtime.Polling? {
      OneAction(Apply(s, RuntimeTick(readings)), RuntimeSend);
      assert [RuntimeTick(readings), RuntimeSend][1..] == [RuntimeSend];
    }
    if s.system.Polling? {
      OneAction(Apply(s, SystemTick(readings)), SystemSend);
      assert [SystemTick(readings), SystemSend][1..] == [SystemSend];
    }
  }

  /** Nothing is under way, and the runtime collector polls. */
  predicate Resting(s: State) {
    InService(s) && s.runtime.Polling? && !Busy(s)
  }

  /** `n` runtime batches later. */
  predicate RoundsLater(s: State, t: State, n: nat) {
    Resting(t) && t.stage == s.stage && t.timedOut == s.timedOut && |t.sent| == |s.sent| + n
  }

  /** One runtime batch after the other, each executed before the next tick. */
  lemma {:induction false} Rounds(s: State, n: nat) returns (run: seq<Action>)
    requires Resting(s)
    ensures IsRun(s, run) && RoundsLater(s, After(s, run), n)
    decreases n
  {
    if n == 0 {
      run := [];
    } else {
      var first := OneRound(s);
      var rest := Rounds(After(s, first), n - 1);
      RunConcat(s, first, rest);
      RoundsAddUp(s, After(s, first), After(After(s, first), rest), n - 1);
      run := first + rest;
    }
  }

  lemma RoundsAddUp(s: State, t: State, u: State, n: nat)
    requires RoundsLater(s, t, 1) && RoundsLater(t, u, n)
    ensures RoundsLater(s, u, n + 1)
  {
  }

  lemma OneRound(s: State) returns (run: seq<Action>)
    requires Resting(s)
    ensures IsRun(s, run) && RoundsLater(s, After(s, run), 1)
  {
    var t := Apply(s, RuntimeTick(0));
    assert InService(t) by { InvStep(s, RuntimeTick(0)); }
    var rest := QuietDown(t);
    FirstThen(s, RuntimeTick(0), rest);
    RoundCounts(s, After(t, rest));
    run := [RuntimeTick(0)] + rest;
  }

  lemma RoundCounts(s: State, u: State)
    requires Resting(s) && Kept(Apply(s, RuntimeTick(0)), u) && !Busy(u)
    ensures RoundsLater(s, u, 1)
  {
    var t := Apply(s, RuntimeTick(0));
    QuietIsExecuted(u);
    assert |multiset(u.sent)| == |TakenUp(t)| == |multiset(s.sent)| + 1;
  }

  /** A cancelled collector may pick its ticker again and again: before the collectors are gone,
      no number bounds the batches that can still be sent and executed after the signal. */
  lemma ShutdownCanBePutOff(poolSize: nat, n: nat) returns (run: seq<Action>)
    requires poolSize >= 1
    ensures IsRun(Init(poolSize), [Signal] + run)
    ensures
      var t := After(Init(poolSize), [Signal] + run);
      t.stage.StoppingCollectors? && !t.timedOut && |t.sent| == n && t.executed == multiset(t.sent)
  {
    var s := Init(poolSize);
    var t := Apply(s, Signal);
    InitInv(poolSize);
    InvStep(s, Signal);
    run := Rounds(t, n);
    FirstThen(s, Signal, run);
    QuietIsExecuted(After(t, run));
  }

  // ---------------------------------------------------------------- what the pipeline holds

  /** Three channels of 100 and two hands. */
  lemma AtMost302Wait(poolSize: nat, run: seq<Action>)
    requires IsRun(Init(poolSize), run)
    ensures |Waiting(After(Init(poolSize), run))| <= 302
  {
    InitInv(poolSize);
    InvRun(Init(poolSize), run);
  }

  /** Serving, the system collector polling, and no worker has taken anything. */
  predicate Filling(s: State) {
    && Inv(s) && s.crash.NoCrash? && s.stage.Serving? && s.parentLive && s.system.Polling? && s.taken == []
  }

  lemma {:induction false} OneMoreWaits(s: State) returns (run: seq<Action>)
    requires Filling(s) && |Waiting(s)| < 302
    ensures IsRun(s, run) && Filling(After(s, run)) && |Waiting(After(s, run))| == |Waiting(s)| + 1
    decreases Measure(s)
  {
    if |s.collected.buf| < 100 {
      run := [SystemTick(0), SystemSend];
      TickAndSend(s, 0);
      InvRun(s, run);
      assert run[1..] == [SystemSend] && run[1..][1..] == [];
    } else {
      var a := Forward(s);
      assert Inv(Apply(s, a)) by { InvStep(s, a); }
      var rest := OneMoreWaits(Apply(s, a));
      run := [a] + rest;
      assert run[1..] == rest;
    }
  }

  /** With the first channel full, the transfer goroutine or the submitter can go on unless
      everything is full. */
  lemma Forward(s: State) returns (a: Action)
    requires Filling(s) && |Waiting(s)| < 302 && |s.collected.buf| >= 100
    ensures Enabled(s, a) && Measure(Apply(s, a)) < Measure(s)
    ensures
      var t := Apply(s, a);
      && t.crash.NoCrash? && t.stage.Serving? && t.parentLive && t.system.Polling? && t.taken == []
      && |Waiting(t)| == |Waiting(s)|
  {
    if s.submitter.Submitting? && |s.tasks.buf| < 100 {
      a := SubmitterSend;
      SubmitterMeasureDecreases(s, a);
    } else if s.submitter.Idle? && s.outbox.buf != [] {
      a := SubmitterReceive;
      SubmitterMeasureDecreases(s, a);
    } else {
      a := if s.transfer.Carrying? then TransferSend else TransferReceive;
      TransferMeasureDecreases(s, a);
    }
  }

  /** And as many do, if the workers take nothing. */
  lemma {:induction false} Wait302(poolSize: nat, n: nat) returns (run: seq<Action>)
    requires n <= 302
    ensures IsRun(Init(poolSize), run) && Filling(After(Init(poolSize), run))
    ensures |Waiting(After(Init(poolSize), run))| == n
    decreases n
  {
    if n == 0 {
      run := [];
      InitInv(poolSize);
    } else {
      var before := Wait302(poolSize, n - 1);
      var more := OneMoreWaits(After(Init(poolSize), before));
      RunConcat(Init(poolSize), before, more);
      run := before + more;
    }
  }

  /** The pipeline holds exactly 302 batches: a run without a worker fills it, none goes beyond. */
  lemma Holds302(poolSize: nat, n: nat)
    ensures (exists run :: IsRun(Init(poolSize), run) && |Waiting(After(Init(poolSize), run))| == n) <==> n <= 302
  {
    if n <= 302 {
      var run := Wait302(poolSize, n);
    }
    forall run | IsRun(Init(poolSize), run)
      ensures |Waiting(After(Init(poolSize), run))| <= 302
    {
      AtMost302Wait(poolSize, run);
    }
  }

  // ---------------------------------------------------------------- timeouts and cancellation

  lemma {:induction false} NilTaskNeedsWorker(s: State, run: seq<Action>)
    requires IsRun(s, run) && |s.workers| == 0 && !s.crash.WorkerRanNilTask?
    ensures !After(s, run).crash.WorkerRanNilTask?
    decreases |run|
  {
    if run != [] {
      StepKeeps(s, run[0]);
      NilTaskNeedsWorker(Apply(s, run[0]), run[1..]);
    }
  }

  /** A collector that overstays its three seconds panics. */
  lemma LateCollectorCrashes(poolSize: nat) returns (run: seq<Action>)
    ensures IsRun(Init(poolSize), run) && After(Init(poolSize), run).crash.CollectorSentOnClosed?
  {
    var s := Init(poolSize);
    run := Extend(s, [], SystemTick(0));
    run := Extend(s, run, Signal);
    run := Extend(s, run, CollectorsTimeout);
    run := Extend(s, run, SystemSend);
  }

  /** A worker that overstays its five seconds runs a nil task. */
  lemma LateWorkerCrashes(poolSize: nat) returns (run: seq<Action>)
    requires poolSize >= 1
    ensures IsRun(Init(poolSize), run) && After(Init(poolSize), run).crash.WorkerRanNilTask?
  {
    var s := Init(poolSize);
    run := StopBegins(s, []);
    run := Extend(s, run, PoolTimeout);
    run := Extend(s, run, WorkerTake(0));
  }

  /** The panics that can happen at all: no channel is ever closed twice, and the transfer
      goroutine never sends on a closed one. */
  lemma PossibleCrashes(poolSize: nat, crash: Crash)
    ensures (exists run :: IsRun(Init(poolSize), run) && After(Init(poolSize), run).crash == crash) <==>
              || crash.NoCrash? || crash.CollectorSentOnClosed? || crash.SubmitterSentOnClosed?
              || (crash.WorkerRanNilTask? && poolSize >= 1)
  {
    forall run | IsRun(Init(poolSize), run)
      ensures
        var c := After(Init(poolSize), run).crash;
        !c.TransferSentOnClosed? && !c.ChannelClosedTwice? && (c.WorkerRanNilTask? ==> poolSize >= 1)
    {
      InitInv(poolSize);
      InvRun(Init(poolSize), run);
      if poolSize == 0 {
        NilTaskNeedsWorker(Init(poolSize), run);
      }
    }
    if !crash.TransferSentOnClosed? && !crash.ChannelClosedTwice? && (crash.WorkerRanNilTask? ==> poolSize >= 1) {
      var run := CrashReached(poolSize, crash);
    }
  }

  lemma CrashReached(poolSize: nat, crash: Crash) returns (run: seq<Action>)
    requires || crash.NoCrash? || crash.CollectorSentOnClosed? || crash.SubmitterSentOnClosed?
             || (crash.WorkerRanNilTask? && poolSize >= 1)
    ensures IsRun(Init(poolSize), run) && After(Init(poolSize), run).crash == crash
  {
    match crash
    case CollectorSentOnClosed =>
      run := LateCollectorCrashes(poolSize);
    case SubmitterSentOnClosed =>
      GracefulShutdownCanCrash(poolSize);
      run :| CrashesWhileStopping(Init(poolSize), run) && After(Init(poolSize), run).crash.SubmitterSentOnClosed?;
    case WorkerRanNilTask =>
      run := LateWorkerCrashes(poolSize);
    case NoCrash =>
      run := [];
  }

  /** At any time the parent context can end, and the transfer goroutine then drops the batch it
      carries, even where it could have delivered it. */
  lemma CarriedBatchCanBeLost(s: State)
    requires s.crash.NoCrash? && s.transfer.Carrying? && s.parentLive
    ensures IsRun(s, [ParentCancel, TransferAbort])
    ensures After(s, [ParentCancel, TransferAbort]) == s.(parentLive := false, transfer := Aborted(s.transfer.batch))
  {
    OneAction(Apply(s, ParentCancel), TransferAbort);
    assert [ParentCancel, TransferAbort][1..] == [TransferAbort];
  }

  lemma TransferCancelled(poolSize: nat) returns (run: seq<Action>)
    ensures IsRun(Init(poolSize), run)
    ensures
      After(Init(poolSize), run)
      == Init(poolSize).(transfer := Aborted(System(0)), parentLive := false, sent := [System(0)])
  {
    var s := Init(poolSize);
    run := Extend(s, [], SystemTick(0));
    run := Extend(s, run, SystemSend);
    run := Extend(s, run, TransferReceive);
    run := Extend(s, run, ParentCancel);
    run := Extend(s, run, TransferAbort);
  }

  /** When the parent context ends, a batch can be lost without a timeout or a panic: it was
      sent, and the sender is stopped without having got it. */
  lemma CancelledParentLosesABatch(poolSize: nat) returns (run: seq<Action>)
    ensures IsRun(Init(poolSize), run)
    ensures
      var t := After(Init(poolSize), run);
      SenderCancelled(t) && t.crash.NoCrash? && !t.timedOut && t.accepted < t.sent
  {
    var s := Init(poolSize);
    var cancelled := TransferCancelled(poolSize);
    var stop := CollectorsStop(After(s, cancelled));
    RunConcat(s, cancelled, stop);
    run := Extend(s, cancelled + stop, TransferJoined);
  }

  /** A task that does not end in three seconds is left running when the stop returns. */
  lemma SlowTaskIsLeftRunning(poolSize: nat) returns (run: seq<Action>)
    requires poolSize >= 1
    ensures IsRun(Init(poolSize), run)
    ensures
      var t := After(Init(poolSize), run);
      t.stage.Stopped? && t.poolStop.AwaitingWorkers? && t.crash.NoCrash? && |t.workers| >= 1 && t.workers[0].Running?
  {
    var s := Init(poolSize);
    run := OneBatchAccepted(poolSize);
    run := Extend(s, run, SubmitterReceive);
    run := Extend(s, run, SubmitterSend);
    run := Extend(s, run, WorkerTake(0));
    run := StopBegins(s, run);
    run := Extend(s, run, SenderTimeout);
  }
}
