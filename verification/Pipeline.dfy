/**
 The agent's delivery pipeline as a labelled transition system.

 Two collector goroutines feed a bounded channel; a transfer goroutine moves batches
 to the sender's channel; a submitter turns each batch into a task; `poolSize` workers
 run the tasks. A shutdown goroutine stops the stages one after the other. One action is
 one atomic step of one goroutine; a run is any sequence of enabled actions.
 */
module Pipeline {
  import opened Int64

  /** All three channels are made with room for 100 items. */
  const CAPACITY: nat := 100

  /** A batch as far as the pipeline can tell batches apart: the PollCount it carries
      (runtime batches only) and whatever was read from the machine. */
  datatype Batch = Runtime(pollCount: int64, readings: int) | System(readings: int)

  datatype Channel = Channel(buf: seq<Batch>, closed: bool) {
    /** A send is ready when it can complete or, on a closed channel, when it panics. */
    predicate SendReady() {
      closed || |buf| < CAPACITY
    }
  }

  datatype Collector = Polling | Holding(batch: Batch) | Gone
  datatype Transfer = Receiving | Carrying(batch: Batch) | Finished | Aborted(lost: Batch)
  datatype Submitter = Idle | Submitting(batch: Batch) | Left
  datatype Worker = Ready | Running(batch: Batch) | Quit

  /** Where the shutdown goroutine of `App.Run` is. */
  datatype Stage = Serving | StoppingCollectors | AwaitingTransfer | StoppingSender | Stopped

  /** Where the goroutine running `WorkerPool.Stop` is. */
  datatype PoolStop = NotCalled | AwaitingWorkers | PoolStopped

  datatype Crash =
    | NoCrash
    | CollectorSentOnClosed
    | TransferSentOnClosed
    | SubmitterSentOnClosed
    | WorkerRanNilTask
    | ChannelClosedTwice

  /** `sent`, `accepted` and `taken` are the histories of the batches put on the collector's
      channel, put on the sender's channel and received by workers; `executed` collects the
      batches whose task has run to its end. */
  datatype State = State(
    runtime: Collector,
    system: Collector,
    pollCount: int64,
    collected: Channel,
    transfer: Transfer,
    outbox: Channel,
    submitter: Submitter,
    tasks: Channel,
    workers: seq<Worker>,
    stage: Stage,
    poolStop: PoolStop,
    parentLive: bool,
    timedOut: bool,
    crash: Crash,
    sent: seq<Batch>,
    accepted: seq<Batch>,
    taken: seq<Batch>,
    executed: multiset<Batch>)

  datatype Action =
    | RuntimeTick(readings: int) | RuntimeSend | RuntimeLeave
    | SystemTick(readings: int) | SystemSend | SystemLeave
    | TransferReceive | TransferSend | TransferFinish | TransferAbort
    | SubmitterReceive | SubmitterSend | SubmitterLeave
    | WorkerTake(w: nat) | WorkerFinish(w: nat) | WorkerQuit(w: nat)
    | Signal | CollectorsJoined | TransferJoined | PoolJoined | SenderJoined
    | CollectorsTimeout | PoolTimeout | SenderTimeout | ParentCancel

  function Init(poolSize: nat): State {
    State(Polling, Polling, 0, Channel([], false), Receiving, Channel([], false), Idle, Channel([], false),
          seq(poolSize, _ => Ready), Serving, NotCalled, true, false, NoCrash, [], [], [], multiset{})
  }

  predicate CollectorsCancelled(s: State) {
    !s.stage.Serving?
  }

  predicate SenderCancelled(s: State) {
    s.stage.StoppingSender? || s.stage.Stopped?
  }

  predicate CollectorsGone(s: State) {
    s.runtime.Gone? && s.system.Gone?
  }

  predicate WorkersQuit(s: State) {
    forall w :: 0 <= w < |s.workers| ==> s.workers[w].Quit?
  }

  /** Whether an action can be taken. A `select` with several ready cases may pick any of
      them, so a cancelled collector or worker may still take its other branch. */
  predicate Enabled(s: State, a: Action) {
    && s.crash.NoCrash?
    && match a
       case RuntimeTick(_) => s.runtime.Polling?
       case RuntimeSend => s.runtime.Holding? && s.collected.SendReady()
       case RuntimeLeave => CollectorsCancelled(s) && !s.runtime.Gone?
       case SystemTick(_) => s.system.Polling?
       case SystemSend => s.system.Holding? && s.collected.SendReady()
       case SystemLeave => CollectorsCancelled(s) && !s.system.Gone?
       case TransferReceive => s.transfer.Receiving? && s.collected.buf != []
       case TransferSend => s.transfer.Carrying? && s.outbox.SendReady()
       case TransferFinish => s.transfer.Receiving? && s.collected == Channel([], true)
       case TransferAbort => s.transfer.Carrying? && !s.parentLive
       case SubmitterReceive => s.submitter.Idle? && s.outbox.buf != []
       case SubmitterSend => s.submitter.Submitting? && s.tasks.SendReady()
       case SubmitterLeave => s.submitter.Idle? && s.outbox == Channel([], true)
       case WorkerTake(w) => w < |s.workers| && s.workers[w].Ready? && (s.tasks.buf != [] || s.tasks.closed)
       case WorkerFinish(w) => w < |s.workers| && s.workers[w].Running?
       case WorkerQuit(w) => w < |s.workers| && s.workers[w].Ready? && SenderCancelled(s)
       case Signal => s.stage.Serving?
       case CollectorsJoined => s.stage.StoppingCollectors? && CollectorsGone(s)
       case TransferJoined => s.stage.AwaitingTransfer? && (s.transfer.Finished? || s.transfer.Aborted?)
       case PoolJoined => s.poolStop.AwaitingWorkers? && WorkersQuit(s)
       case SenderJoined => s.stage.StoppingSender? && s.poolStop.PoolStopped?
       case CollectorsTimeout => s.stage.StoppingCollectors?
       case PoolTimeout => s.poolStop.AwaitingWorkers?
       case SenderTimeout => s.stage.StoppingSender?
       case ParentCancel => s.parentLive
  }

  function PushCollected(s: State, batch: Batch): State {
    s.(collected := Channel(s.collected.buf + [batch], false), sent := s.sent + [batch])
  }

  function CloseCollected(s: State): State {
    if s.collected.closed then s.(crash := ChannelClosedTwice)
    else s.(collected := s.collected.(closed := true), stage := AwaitingTransfer)
  }

  function CloseTasks(s: State): State {
    if s.tasks.closed then s.(crash := ChannelClosedTwice)
    else s.(tasks := s.tasks.(closed := true), poolStop := PoolStopped)
  }

  function CloseOutbox(s: State): State {
    if s.outbox.closed then s.(crash := ChannelClosedTwice)
    else s.(outbox := s.outbox.(closed := true), stage := Stopped)
  }

  function Apply(s: State, a: Action): State
    requires Enabled(s, a)
  {
    match a
    case RuntimeTick(readings) =>
      var polls := Wrap(s.pollCount + 1);
      s.(pollCount := polls, runtime := Holding(Runtime(polls, readings)))
    case RuntimeSend =>
      if s.collected.closed then s.(crash := CollectorSentOnClosed)
      else PushCollected(s, s.runtime.batch).(runtime := Polling)
    case RuntimeLeave => s.(runtime := Gone)
    case SystemTick(readings) => s.(system := Holding(System(readings)))
    case SystemSend =>
      if s.collected.closed then s.(crash := CollectorSentOnClosed)
      else PushCollected(s, s.system.batch).(system := Polling)
    case SystemLeave => s.(system := Gone)
    case TransferReceive =>
      s.(transfer := Carrying(s.collected.buf[0]), collected := s.collected.(buf := s.collected.buf[1..]))
    case TransferSend =>
      if s.outbox.closed then s.(crash := TransferSentOnClosed)
      else
        var b := s.transfer.batch;
        s.(transfer := Receiving, outbox := Channel(s.outbox.buf + [b], false), accepted := s.accepted + [b])
    case TransferFinish => s.(transfer := Finished)
    case TransferAbort => s.(transfer := Aborted(s.transfer.batch))
    case SubmitterReceive =>
      s.(submitter := Submitting(s.outbox.buf[0]), outbox := s.outbox.(buf := s.outbox.buf[1..]))
    case SubmitterSend =>
      if s.tasks.closed then s.(crash := SubmitterSentOnClosed)
      else s.(submitter := Idle, tasks := Channel(s.tasks.buf + [s.submitter.batch], false))
    case SubmitterLeave => s.(submitter := Left)
    case WorkerTake(w) =>
      if s.tasks.buf == [] then s.(crash := WorkerRanNilTask)
      else
        var b := s.tasks.buf[0];
        s.(workers := s.workers[w := Running(b)], tasks := s.tasks.(buf := s.tasks.buf[1..]), taken := s.taken + [b])
    case WorkerFinish(w) =>
      s.(workers := s.workers[w := Ready], executed := s.executed + multiset{s.workers[w].batch})
    case WorkerQuit(w) => s.(workers := s.workers[w := Quit])
    case Signal => s.(stage := StoppingCollectors)
    case CollectorsJoined => CloseCollected(s)
    case TransferJoined => s.(stage := StoppingSender, poolStop := AwaitingWorkers)
    case PoolJoined => CloseTasks(s)
    case SenderJoined => CloseOutbox(s)
    case CollectorsTimeout => CloseCollected(s).(timedOut := true)
    case PoolTimeout => CloseTasks(s).(timedOut := true)
    case SenderTimeout => CloseOutbox(s).(timedOut := true)
    case ParentCancel => s.(parentLive := false)
  }

  /** Every action of `run` is enabled when its turn comes. */
  predicate IsRun(s: State, run: seq<Action>)
    decreases |run|
  {
    run == [] || (Enabled(s, run[0]) && IsRun(Apply(s, run[0]), run[1..]))
  }

  /** The state a run ends in. */
  function After(s: State, run: seq<Action>): State
    requires IsRun(s, run)
    decreases |run|
  {
    if run == [] then s else After(Apply(s, run[0]), run[1..])
  }

  // ---------------------------------------------------------------- invariants

  function TransferHand(t: Transfer): seq<Batch> {
    match t
    case Carrying(b) => [b]
    case Aborted(b) => [b]
    case _ => []
  }

  function SubmitterHand(t: Submitter): seq<Batch> {
    if t.Submitting? then [t.batch] else []
  }

  function WorkerHand(w: Worker): multiset<Batch> {
    if w.Running? then multiset{w.batch} else multiset{}
  }

  /** The batches whose tasks are running now. */
  function InFlight(workers: seq<Worker>): multiset<Batch> {
    if workers == [] then multiset{}
    else InFlight(workers[..|workers| - 1]) + WorkerHand(workers[|workers| - 1])
  }

  /** Replacing what one worker holds changes the sum by exactly that. */
  lemma SwapInSum<T>(a: multiset<T>, x: multiset<T>, b: multiset<T>, y: multiset<T>, rest: multiset<T>)
    requires a + x == b + y
    ensures (a + rest) + x == (b + rest) + y
    ensures (rest + a) + x == (rest + b) + y
  {
    assert (a + rest) + x == (a + x) + rest;
    assert rest + a == a + rest && rest + b == b + rest;
  }

  lemma {:induction false} InFlightUpdate(workers: seq<Worker>, w: nat, x: Worker)
    requires w < |workers|
    ensures InFlight(workers[w := x]) + WorkerHand(workers[w]) == InFlight(workers) + WorkerHand(x)
  {
    var n := |workers| - 1;
    var front, last := workers[..n], workers[n];
    InFlightLast(workers, front, last);
    if w == n {
      InFlightLast(workers[w := x], front, x);
      SwapInSum(WorkerHand(x), WorkerHand(last), WorkerHand(last), WorkerHand(x), InFlight(front));
    } else {
      InFlightLast(workers[w := x], front[w := x], last);
      InFlightUpdate(front, w, x);
      SwapInSum(InFlight(front[w := x]), WorkerHand(front[w]), InFlight(front), WorkerHand(x), WorkerHand(last));
    }
  }

  lemma InFlightLast(workers: seq<Worker>, front: seq<Worker>, last: Worker)
    requires workers == front + [last]
    ensures InFlight(workers) == InFlight(front) + WorkerHand(last)
  {
    assert workers[..|workers| - 1] == front;
  }

  /** At most one task per worker runs at a time, and none once no worker is running. */
  lemma {:induction false} InFlightBound(workers: seq<Worker>)
    ensures |InFlight(workers)| <= |workers|
    ensures (forall w :: 0 <= w < |workers| ==> !workers[w].Running?) ==> InFlight(workers) == multiset{}
  {
    if workers != [] {
      InFlightBound(workers[..|workers| - 1]);
    }
  }

  /** The PollCount values of the runtime batches of a history, in order. */
  function PollCounts(history: seq<Batch>): seq<int64> {
    if history == [] then []
    else
      var b := history[|history| - 1];
      PollCounts(history[..|history| - 1]) + if b.Runtime? then [b.pollCount] else []
  }

  /** 1, 2, .. k, as int64 values. */
  function UpTo(k: nat): seq<int64> {
    if k == 0 then [] else UpTo(k - 1) + [Wrap(k)]
  }

  predicate SentConserved(s: State) {
    s.sent == s.accepted + TransferHand(s.transfer) + s.collected.buf
  }

  predicate AcceptedConserved(s: State) {
    s.accepted == s.taken + s.tasks.buf + SubmitterHand(s.submitter) + s.outbox.buf
  }

  predicate TakenConserved(s: State) {
    multiset(s.taken) == s.executed + InFlight(s.workers)
  }

  /** Nothing is lost, duplicated or reordered on the way to the workers. */
  predicate Conserved(s: State) {
    SentConserved(s) && AcceptedConserved(s) && TakenConserved(s)
  }

  /** The runtime batches sent so far carry 1..k, and the collector is about to send k + 1. */
  predicate PollsCounted(s: State) {
    var k := |PollCounts(s.sent)|;
    && PollCounts(s.sent) == UpTo(k)
    && (s.runtime.Polling? ==> s.pollCount == Wrap(k))
    && (s.runtime.Holding? ==> s.pollCount == Wrap(k + 1) && s.runtime.batch.Runtime?
                               && s.runtime.batch.pollCount == s.pollCount)
    && (s.system.Holding? ==> s.system.batch.System?)
  }

  /** What the shutdown stage says about the channels and the goroutines. */
  predicate Staged(s: State) {
    && (s.collected.closed <==> !s.stage.Serving? && !s.stage.StoppingCollectors?)
    && (s.outbox.closed <==> s.stage.Stopped?)
    && (s.tasks.closed <==> s.poolStop.PoolStopped?)
    && (s.poolStop.NotCalled? <==> !SenderCancelled(s))
    && (SenderCancelled(s) ==> s.transfer.Finished? || s.transfer.Aborted?)
    && (s.transfer.Finished? ==> s.collected == Channel([], true))
    && (s.transfer.Aborted? ==> !s.parentLive)
    && (s.submitter.Left? ==> s.outbox == Channel([], true))
    && (s.stage.Serving? ==> !s.runtime.Gone? && !s.system.Gone?)
    && (!SenderCancelled(s) ==> forall w :: 0 <= w < |s.workers| ==> !s.workers[w].Quit?)
    && |s.collected.buf| <= CAPACITY && |s.outbox.buf| <= CAPACITY && |s.tasks.buf| <= CAPACITY
  }

  /** Without timeouts a channel is closed only after its users were waited for. */
  predicate Joined(s: State) {
    !s.timedOut ==>
      && (s.collected.closed ==> CollectorsGone(s))
      && (s.tasks.closed ==> WorkersQuit(s))
      && (s.outbox.closed ==> s.tasks.closed)
  }

  /** Which panics a run can end in. */
  predicate CrashesExplained(s: State) {
    && !s.crash.TransferSentOnClosed? && !s.crash.ChannelClosedTwice?
    && (s.crash.CollectorSentOnClosed? || s.crash.WorkerRanNilTask? ==> s.timedOut)
    && (s.crash.SubmitterSentOnClosed? ==> s.tasks.closed && s.submitter.Submitting?)
  }

  predicate Inv(s: State) {
    Conserved(s) && PollsCounted(s) && Staged(s) && Joined(s) && CrashesExplained(s)
  }

  lemma InitInv(poolSize: nat)
    ensures Inv(Init(poolSize))
  {
    InFlightBound(Init(poolSize).workers);
  }

  predicate OfShutdown(a: Action) {
    || a.Signal? || a.CollectorsJoined? || a.TransferJoined? || a.PoolJoined? || a.SenderJoined?
    || a.CollectorsTimeout? || a.PoolTimeout? || a.SenderTimeout? || a.ParentCancel?
  }

  /** The steps that close a channel. */
  predicate Closes(a: Action) {
    || a.CollectorsJoined? || a.PoolJoined? || a.SenderJoined?
    || a.CollectorsTimeout? || a.PoolTimeout? || a.SenderTimeout?
  }

  /** The goroutines and the batches they hold, the contents of the channels and the histories. */
  predicate SameContents(s: State, t: State) {
    && t.runtime == s.runtime && t.system == s.system && t.pollCount == s.pollCount
    && t.transfer == s.transfer && t.submitter == s.submitter && t.workers == s.workers
    && t.collected.buf == s.collected.buf && t.outbox.buf == s.outbox.buf && t.tasks.buf == s.tasks.buf
    && t.sent == s.sent && t.accepted == s.accepted && t.taken == s.taken && t.executed == s.executed
  }

  /** The shutdown moves no batch. */
  lemma ShutdownKeepsContents(s: State, a: Action)
    requires Enabled(s, a) && OfShutdown(a)
    ensures SameContents(s, Apply(s, a))
  {
    if Closes(a) {
      ClosingKeepsContents(s, a);
    }
  }

  lemma ClosingKeepsContents(s: State, a: Action)
    requires Enabled(s, a) && Closes(a)
    ensures SameContents(s, Apply(s, a))
  {
    CloseKeepsContents(s);
  }

  lemma CloseKeepsContents(s: State)
    ensures SameContents(s, CloseCollected(s)) && SameContents(s, CloseTasks(s)) && SameContents(s, CloseOutbox(s))
  {
  }

  lemma SentConservedStep(s: State, a: Action)
    requires Enabled(s, a) && SentConserved(s)
    ensures SentConserved(Apply(s, a))
  {
    if a.RuntimeSend? || a.SystemSend? {
      SentConservedSend(s, a);
    } else if a.TransferReceive? || a.TransferSend? {
      SentConservedTransfer(s, a);
    } else {
      SentUntouched(s, a);
    }
  }

  lemma SentConservedSend(s: State, a: Action)
    requires Enabled(s, a) && (a.RuntimeSend? || a.SystemSend?) && SentConserved(s)
    ensures SentConserved(Apply(s, a))
  {
    var t := Apply(s, a);
    assert t.sent == t.accepted + TransferHand(t.transfer) + t.collected.buf;
  }

  lemma SentConservedTransfer(s: State, a: Action)
    requires Enabled(s, a) && (a.TransferReceive? || a.TransferSend?) && SentConserved(s)
    ensures SentConserved(Apply(s, a))
  {
    var t := Apply(s, a);
    assert t.sent == t.accepted + TransferHand(t.transfer) + t.collected.buf;
  }

  lemma SentUntouched(s: State, a: Action)
    requires Enabled(s, a) && !a.RuntimeSend? && !a.SystemSend? && !a.TransferReceive? && !a.TransferSend?
    ensures
      var t := Apply(s, a);
      && t.sent == s.sent && t.accepted == s.accepted && t.collected.buf == s.collected.buf
      && TransferHand(t.transfer) == TransferHand(s.transfer)
  {
    if OfShutdown(a) {
      ShutdownKeepsContents(s, a);
    }
  }

  /** The transfer goroutine adds at the end; the submitter and the workers move the borders
      between the places. */
  lemma AcceptedAtEnd(taken: seq<Batch>, tasks: seq<Batch>, hand: seq<Batch>, outbox: seq<Batch>, b: Batch)
    ensures taken + tasks + hand + (outbox + [b]) == taken + tasks + hand + outbox + [b]
    ensures taken + tasks + [] + ([b] + outbox) == taken + tasks + [b] + outbox
    ensures taken + (tasks + [b]) + [] + outbox == taken + tasks + [b] + outbox
    ensures (taken + [b]) + tasks + hand + outbox == taken + ([b] + tasks) + hand + outbox
  {
  }

  lemma AcceptedConservedStep(s: State, a: Action)
    requires Enabled(s, a) && AcceptedConserved(s)
    ensures AcceptedConserved(Apply(s, a))
  {
    var t := Apply(s, a);
    if a.TransferSend? {
      AcceptedAtEnd(s.taken, s.tasks.buf, SubmitterHand(s.submitter), s.outbox.buf, s.transfer.batch);
    } else if a.SubmitterReceive? {
      assert s.outbox.buf == [s.outbox.buf[0]] + t.outbox.buf;
      AcceptedAtEnd(s.taken, s.tasks.buf, [], t.outbox.buf, s.outbox.buf[0]);
    } else if a.SubmitterSend? {
      AcceptedAtEnd(s.taken, s.tasks.buf, [], s.outbox.buf, s.submitter.batch);
    } else if a.WorkerTake? && s.tasks.buf != [] {
      assert s.tasks.buf == [s.tasks.buf[0]] + t.tasks.buf;
      AcceptedAtEnd(s.taken, t.tasks.buf, SubmitterHand(s.submitter), s.outbox.buf, s.tasks.buf[0]);
    } else {
      AcceptedUntouched(s, a);
    }
  }

  lemma AcceptedUntouched(s: State, a: Action)
    requires Enabled(s, a) && !a.TransferSend? && !a.SubmitterReceive? && !a.SubmitterSend?
    requires a.WorkerTake? ==> s.tasks.buf == []
    ensures
      var t := Apply(s, a);
      && t.accepted == s.accepted && t.taken == s.taken && t.tasks.buf == s.tasks.buf && t.outbox.buf == s.outbox.buf
      && SubmitterHand(t.submitter) == SubmitterHand(s.submitter)
  {
    if OfShutdown(a) {
      ShutdownKeepsContents(s, a);
    }
  }

  lemma HandOver<T>(taken: multiset<T>, executed: multiset<T>, before: multiset<T>, after: multiset<T>,
                    given: multiset<T>, got: multiset<T>)
    requires taken == executed + before && after + given == before + got
    ensures taken + got == (executed + given) + after
  {
    assert (executed + given) + after == executed + (after + given);
  }

  lemma TakenConservedTake(s: State, w: nat)
    requires Enabled(s, WorkerTake(w)) && s.tasks.buf != [] && TakenConserved(s)
    ensures TakenConserved(Apply(s, WorkerTake(w)))
  {
    var b := s.tasks.buf[0];
    var workers := s.workers[w := Running(b)];
    InFlightUpdate(s.workers, w, Running(b));
    HandOver(multiset(s.taken), s.executed, InFlight(s.workers), InFlight(workers), multiset{}, multiset{b});
  }

  lemma TakenConservedFinish(s: State, w: nat)
    requires Enabled(s, WorkerFinish(w)) && TakenConserved(s)
    ensures TakenConserved(Apply(s, WorkerFinish(w)))
  {
    var b := s.workers[w].batch;
    InFlightUpdate(s.workers, w, Ready);
    HandOver(multiset(s.taken), s.executed, InFlight(s.workers), InFlight(s.workers[w := Ready]),
             multiset{b}, multiset{});
  }

  lemma TakenConservedQuit(s: State, w: nat)
    requires Enabled(s, WorkerQuit(w)) && TakenConserved(s)
    ensures TakenConserved(Apply(s, WorkerQuit(w)))
  {
    var workers := s.workers[w := Quit];
    InFlightUpdate(s.workers, w, Quit);
    assert InFlight(workers) == InFlight(workers) + WorkerHand(s.workers[w]);
    assert InFlight(s.workers) == InFlight(s.workers) + WorkerHand(Quit);
  }

  lemma TakenConservedStep(s: State, a: Action)
    requires Enabled(s, a) && TakenConserved(s)
    ensures TakenConserved(Apply(s, a))
  {
    if a.WorkerTake? && s.tasks.buf != [] {
      TakenConservedTake(s, a.w);
    } else if a.WorkerFinish? {
      TakenConservedFinish(s, a.w);
    } else if a.WorkerQuit? {
      TakenConservedQuit(s, a.w);
    } else {
      var t := Apply(s, a);
      assert t.workers == s.workers && t.taken == s.taken && t.executed == s.executed;
    }
  }

  lemma PollCountsSnoc(history: seq<Batch>, b: Batch)
    ensures PollCounts(history + [b]) == PollCounts(history) + if b.Runtime? then [b.pollCount] else []
  {
    assert (history + [b])[..|history|] == history;
  }

  lemma PollsCountedTick(s: State, readings: int)
    requires Enabled(s, RuntimeTick(readings)) && PollsCounted(s)
    ensures PollsCounted(Apply(s, RuntimeTick(readings)))
  {
    WrapAdd(|PollCounts(s.sent)|, 1);
  }

  lemma PollsCountedRuntimeSend(s: State)
    requires Enabled(s, RuntimeSend) && !s.collected.closed && PollsCounted(s)
    ensures PollsCounted(Apply(s, RuntimeSend))
  {
    var k := |PollCounts(s.sent)|;
    var t := Apply(s, RuntimeSend);
    PollCountsSnoc(s.sent, s.runtime.batch);
    assert PollCounts(t.sent) == UpTo(k) + [Wrap(k + 1)] == UpTo(k + 1);
    assert |PollCounts(t.sent)| == k + 1;
  }

  predicate OfCollectors(a: Action) {
    a.RuntimeTick? || a.RuntimeSend? || a.RuntimeLeave? || a.SystemTick? || a.SystemSend? || a.SystemLeave?
  }

  lemma CollectorsUntouched(s: State, a: Action)
    requires Enabled(s, a) && !OfCollectors(a)
    ensures
      var t := Apply(s, a);
      t.runtime == s.runtime && t.system == s.system && t.pollCount == s.pollCount && t.sent == s.sent
  {
    if OfShutdown(a) {
      ShutdownKeepsContents(s, a);
    }
  }

  lemma PollsCountedStep(s: State, a: Action)
    requires Enabled(s, a) && PollsCounted(s)
    ensures PollsCounted(Apply(s, a))
  {
    if !OfCollectors(a) {
      CollectorsUntouched(s, a);
    } else {
      PollsCountedCollectorStep(s, a);
    }
  }

  lemma PollsCountedCollectorStep(s: State, a: Action)
    requires Enabled(s, a) && OfCollectors(a) && PollsCounted(s)
    ensures PollsCounted(Apply(s, a))
  {
    if a.RuntimeTick? {
      PollsCountedTick(s, a.readings);
    } else if a.RuntimeSend? && !s.collected.closed {
      PollsCountedRuntimeSend(s);
    } else if a.SystemSend? && !s.collected.closed {
      PollCountsSnoc(s.sent, s.system.batch);
    }
  }

  lemma StagedStep(s: State, a: Action)
    requires Enabled(s, a) && Staged(s)
    ensures Staged(Apply(s, a))
  {
    if OfShutdown(a) {
      StagedShutdownStep(s, a);
    } else if OfCollectors(a) {
      StagedCollectorStep(s, a);
    }
  }

  lemma StagedShutdownStep(s: State, a: Action)
    requires Enabled(s, a) && Staged(s) && OfShutdown(a)
    ensures Staged(Apply(s, a))
  {
    if Closes(a) {
      StagedClosingStep(s, a);
    }
  }

  lemma StagedClosingStep(s: State, a: Action)
    requires Enabled(s, a) && Staged(s) && Closes(a)
    ensures Staged(Apply(s, a))
  {
  }

  lemma StagedCollectorStep(s: State, a: Action)
    requires Enabled(s, a) && Staged(s) && OfCollectors(a)
    ensures Staged(Apply(s, a))
  {
  }

  lemma JoinedStep(s: State, a: Action)
    requires Enabled(s, a) && Staged(s) && Joined(s)
    ensures Joined(Apply(s, a))
  {
    if OfShutdown(a) {
      JoinedShutdownStep(s, a);
    }
  }

  lemma JoinedShutdownStep(s: State, a: Action)
    requires Enabled(s, a) && Staged(s) && Joined(s) && OfShutdown(a)
    ensures Joined(Apply(s, a))
  {
    if Closes(a) {
      JoinedClosingStep(s, a);
    }
  }

  lemma JoinedClosingStep(s: State, a: Action)
    requires Enabled(s, a) && Staged(s) && Joined(s) && Closes(a)
    ensures Joined(Apply(s, a))
  {
  }

  lemma CrashesExplainedStep(s: State, a: Action)
    requires Enabled(s, a) && Staged(s) && Joined(s) && CrashesExplained(s)
    ensures CrashesExplained(Apply(s, a))
  {
    if OfShutdown(a) {
      CrashesExplainedShutdownStep(s, a);
    }
  }

  lemma CrashesExplainedShutdownStep(s: State, a: Action)
    requires Enabled(s, a) && Staged(s) && CrashesExplained(s) && OfShutdown(a)
    ensures CrashesExplained(Apply(s, a))
  {
  }

  lemma InvStep(s: State, a: Action)
    requires Enabled(s, a) && Inv(s)
    ensures Inv(Apply(s, a))
  {
    SentConservedStep(s, a);
    AcceptedConservedStep(s, a);
    TakenConservedStep(s, a);
    PollsCountedStep(s, a);
    StagedStep(s, a);
    JoinedStep(s, a);
    CrashesExplainedStep(s, a);
  }

  lemma {:induction false} InvRun(s: State, run: seq<Action>)
    requires IsRun(s, run) && Inv(s)
    ensures Inv(After(s, run))
    decreases |run|
  {
    if run != [] {
      var t := Apply(s, run[0]);
      assert Inv(t) by { InvStep(s, run[0]); }
      InvRun(t, run[1..]);
    }
  }

  /** What no step takes back. */
  predicate Keeps(s: State, t: State) {
    && (!s.stage.Serving? ==> !t.stage.Serving?)
    && (SenderCancelled(s) ==> SenderCancelled(t))
    && (s.timedOut ==> t.timedOut)
    && |t.workers| == |s.workers|
  }

  lemma StepKeeps(s: State, a: Action)
    requires Enabled(s, a)
    ensures Keeps(s, Apply(s, a))
  {
    if Closes(a) {
      ClosingStepKeeps(s, a);
    } else if OfShutdown(a) {
      ShutdownStepKeeps(s, a);
    }
  }

  lemma ClosingStepKeeps(s: State, a: Action)
    requires Enabled(s, a) && Closes(a)
    ensures Keeps(s, Apply(s, a))
  {
  }

  lemma ShutdownStepKeeps(s: State, a: Action)
    requires Enabled(s, a) && OfShutdown(a) && !Closes(a)
    ensures Keeps(s, Apply(s, a))
  {
  }

  lemma {:induction false} RunKeeps(s: State, run: seq<Action>)
    requires IsRun(s, run)
    ensures Keeps(s, After(s, run))
    decreases |run|
  {
    if run != [] {
      var t := Apply(s, run[0]);
      assert Keeps(s, t) by { StepKeeps(s, run[0]); }
      RunKeeps(t, run[1..]);
    }
  }

  // ---------------------------------------------------------------- safety of every run

  /** In every reachable state: every batch ever enqueued is in exactly one place, in order;
      at most `poolSize` tasks run; the PollCounts sent are 1..k; and once the sender is
      being stopped under a live parent context, everything enqueued has been accepted. */
  lemma {:induction false} EveryRunDelivers(poolSize: nat, run: seq<Action>)
    requires IsRun(Init(poolSize), run)
    ensures
      var s := After(Init(poolSize), run);
      && s.sent == s.taken + s.tasks.buf + SubmitterHand(s.submitter) + s.outbox.buf
                   + TransferHand(s.transfer) + s.collected.buf
      && multiset(s.taken) == s.executed + InFlight(s.workers)
      && |InFlight(s.workers)| <= poolSize
      && PollCounts(s.sent) == UpTo(|PollCounts(s.sent)|)
      && (SenderCancelled(s) && s.parentLive ==>
            s.transfer.Finished? && s.collected == Channel([], true) && s.sent == s.accepted)
  {
    InitInv(poolSize);
    InvRun(Init(poolSize), run);
    RunKeeps(Init(poolSize), run);
    InvDelivers(After(Init(poolSize), run));
  }

  lemma InvDelivers(s: State)
    requires Inv(s)
    ensures s.sent == s.taken + s.tasks.buf + SubmitterHand(s.submitter) + s.outbox.buf
                      + TransferHand(s.transfer) + s.collected.buf
    ensures |InFlight(s.workers)| <= |s.workers|
    ensures SenderCancelled(s) && s.parentLive ==>
              s.transfer.Finished? && s.collected == Channel([], true) && s.sent == s.accepted
  {
    InFlightBound(s.workers);
    if SenderCancelled(s) && s.parentLive {
      assert s.accepted + [] + [] == s.accepted;
    }
  }

  lemma SentCountsUp(poolSize: nat, run: seq<Action>)
    requires IsRun(Init(poolSize), run)
    ensures PollCounts(After(Init(poolSize), run).sent) == UpTo(|PollCounts(After(Init(poolSize), run).sent)|)
  {
    EveryRunDelivers(poolSize, run);
  }

  /** The batches sent that no worker has taken yet. */
  function Waiting(s: State): seq<Batch> {
    s.tasks.buf + SubmitterHand(s.submitter) + s.outbox.buf + TransferHand(s.transfer) + s.collected.buf
  }

  /** Every batch sent has been executed, is running, or is waiting in the pipeline. */
  lemma InvAccounts(s: State)
    requires Inv(s)
    ensures multiset(s.sent) == s.executed + (InFlight(s.workers) + multiset(Waiting(s)))
  {
    InvDelivers(s);
    assert s.sent == s.taken + Waiting(s) by {
      Regroup(s.taken, s.tasks.buf, SubmitterHand(s.submitter), s.outbox.buf, TransferHand(s.transfer),
              s.collected.buf);
    }
    AddUp(s.sent, s.taken, Waiting(s), s.executed, InFlight(s.workers));
  }

  lemma SentIsExecutedOrMissing(poolSize: nat, run: seq<Action>)
    requires IsRun(Init(poolSize), run)
    ensures
      var s := After(Init(poolSize), run);
      multiset(s.sent) == s.executed + (InFlight(s.workers) + multiset(Waiting(s)))
  {
    InitInv(poolSize);
    InvRun(Init(poolSize), run);
    InvAccounts(After(Init(poolSize), run));
  }

  lemma Regroup<T>(a: seq<T>, b: seq<T>, c: seq<T>, d: seq<T>, e: seq<T>, f: seq<T>)
    ensures a + b + c + d + e + f == a + (b + c + d + e + f)
  {
  }

  lemma AddUp<T>(all: seq<T>, first: seq<T>, second: seq<T>, x: multiset<T>, y: multiset<T>)
    requires all == first + second && multiset(first) == x + y
    ensures multiset(all) == x + (y + multiset(second))
  {
  }

  /** Without timeouts no collector sends on its closed channel, no worker reads a closed
      `tasks`, and no channel is closed twice: the only panic left is the submitter's. */
  lemma EveryCrashExplained(poolSize: nat, run: seq<Action>)
    requires IsRun(Init(poolSize), run)
    ensures
      var s := After(Init(poolSize), run);
      && (!s.timedOut && !s.crash.NoCrash? ==> s.crash.SubmitterSentOnClosed?)
      && (s.crash.SubmitterSentOnClosed? ==> s.poolStop.PoolStopped? && SenderCancelled(s))
      && (!s.timedOut && s.collected.closed ==> CollectorsGone(s))
      && (!s.timedOut && s.tasks.closed ==> WorkersQuit(s))
  {
    InitInv(poolSize);
    InvRun(Init(poolSize), run);
  }

  // ---------------------------------------------------------------- termination and progress

  function WorkerWeight(w: Worker): nat {
    match w
    case Ready => 1
    case Running(_) => 3
    case Quit => 0
  }

  function WorkersWeight(workers: seq<Worker>): nat {
    if workers == [] then 0
    else WorkersWeight(workers[..|workers| - 1]) + WorkerWeight(workers[|workers| - 1])
  }

  lemma {:induction false} WorkersWeightUpdate(workers: seq<Worker>, w: nat, x: Worker)
    requires w < |workers|
    ensures WorkersWeight(workers[w := x]) + WorkerWeight(workers[w]) == WorkersWeight(workers) + WorkerWeight(x)
  {
    var n := |workers| - 1;
    if w == n {
      assert workers[w := x][..n] == workers[..n];
    } else {
      assert workers[w := x][..n] == workers[..n][w := x];
      WorkersWeightUpdate(workers[..n], w, x);
    }
  }

  function StageWeight(s: State): nat {
    (match s.stage case Serving => 4 case StoppingCollectors => 3 case AwaitingTransfer => 2
     case StoppingSender => 1 case Stopped => 0)
    + (match s.poolStop case NotCalled => 2 case AwaitingWorkers => 1 case PoolStopped => 0)
    + (if s.parentLive then 1 else 0)
    + (if s.crash.NoCrash? then 1 else 0)
  }

  /** A batch weighs less the further it has come. */
  function Measure(s: State): nat {
    8 * |s.collected.buf| + TransferWeight(s.transfer)
    + 6 * |s.outbox.buf| + SubmitterWeight(s.submitter)
    + 4 * |s.tasks.buf| + WorkersWeight(s.workers)
    + StageWeight(s)
  }

  function TransferWeight(t: Transfer): nat {
    match t
    case Receiving => 1
    case Carrying(_) => 8
    case _ => 0
  }

  function SubmitterWeight(t: Submitter): nat {
    match t
    case Idle => 1
    case Submitting(_) => 6
    case Left => 0
  }

  lemma WorkerMeasureDecreases(s: State, w: nat, x: Worker)
    requires w < |s.workers| && WorkerWeight(x) < WorkerWeight(s.workers[w])
    ensures Measure(s.(workers := s.workers[w := x])) < Measure(s)
  {
    var t := s.(workers := s.workers[w := x]);
    assert WorkersWeight(t.workers) < WorkersWeight(s.workers) by { WorkersWeightUpdate(s.workers, w, x); }
    assert StageWeight(t) == StageWeight(s);
  }

  lemma TakeMeasureDecreases(s: State, w: nat)
    requires Enabled(s, WorkerTake(w))
    ensures Measure(Apply(s, WorkerTake(w))) < Measure(s)
  {
    if s.tasks.buf != [] {
      WorkersWeightUpdate(s.workers, w, Running(s.tasks.buf[0]));
    }
  }

  lemma ShutdownMeasureDecreases(s: State, a: Action)
    requires Enabled(s, a) && OfShutdown(a) && Staged(s)
    ensures Measure(Apply(s, a)) < Measure(s)
  {
    assert Apply(s, a).workers == s.workers;
  }

  lemma {:induction false} MeasureDecreases(s: State, a: Action)
    requires Enabled(s, a) && CollectorsGone(s) && Staged(s)
    ensures Measure(Apply(s, a)) < Measure(s) && CollectorsGone(Apply(s, a))
  {
    CollectorsUntouched(s, a);
    if OfShutdown(a) {
      ShutdownMeasureDecreases(s, a);
    } else if a.WorkerTake? {
      TakeMeasureDecreases(s, a.w);
    } else if a.WorkerFinish? {
      WorkerMeasureDecreases(s, a.w, Ready);
    } else if a.WorkerQuit? {
      WorkerMeasureDecreases(s, a.w, Quit);
    } else if a.SubmitterReceive? || a.SubmitterSend? || a.SubmitterLeave? {
      SubmitterMeasureDecreases(s, a);
    } else {
      TransferMeasureDecreases(s, a);
    }
  }

  lemma TransferMeasureDecreases(s: State, a: Action)
    requires Enabled(s, a) && (a.TransferReceive? || a.TransferSend? || a.TransferFinish? || a.TransferAbort?)
    ensures Measure(Apply(s, a)) < Measure(s)
  {
    var t := Apply(s, a);
    assert t.workers == s.workers && t.submitter == s.submitter && t.tasks == s.tasks;
    assert StageWeight(t) <= StageWeight(s);
  }

  lemma SubmitterMeasureDecreases(s: State, a: Action)
    requires Enabled(s, a) && (a.SubmitterReceive? || a.SubmitterSend? || a.SubmitterLeave?)
    ensures Measure(Apply(s, a)) < Measure(s)
  {
    var t := Apply(s, a);
    assert t.workers == s.workers && t.transfer == s.transfer && t.collected == s.collected;
    assert StageWeight(t) <= StageWeight(s);
  }

  /** Once both collectors are gone every run is finite. */
  lemma {:induction false} RunsAreBounded(s: State, run: seq<Action>)
    requires IsRun(s, run) && CollectorsGone(s) && Inv(s)
    ensures |run| <= Measure(s)
    decreases |run|
  {
    if run != [] {
      MeasureDecreases(s, run[0]);
      InvStep(s, run[0]);
      RunsAreBounded(Apply(s, run[0]), run[1..]);
    }
  }

  /** The actions the shutdown can count on: everything but timeouts and the parent's end. */
  predicate Ordinary(a: Action) {
    !a.CollectorsTimeout? && !a.PoolTimeout? && !a.SenderTimeout? && !a.ParentCancel?
  }

  predicate ShutDown(s: State) {
    && s.stage.Stopped? && s.poolStop.PoolStopped?
    && s.collected.closed && s.outbox.closed && s.tasks.closed
    && CollectorsGone(s) && (s.transfer.Finished? || s.transfer.Aborted?) && s.submitter.Left? && WorkersQuit(s)
  }

  /** With at least one worker the three bounded channels cannot block each other: after the
      signal some ordinary action is enabled until everything has exited. */
  lemma NeverStuck(s: State)
    requires Inv(s) && s.crash.NoCrash? && !s.stage.Serving? && |s.workers| >= 1 && !ShutDown(s)
    ensures exists a :: Ordinary(a) && Enabled(s, a)
  {
    if !s.runtime.Gone? {
      assert Enabled(s, RuntimeLeave);
    } else if !s.system.Gone? {
      assert Enabled(s, SystemLeave);
    } else if s.stage.StoppingCollectors? {
      assert Enabled(s, CollectorsJoined);
    } else if s.stage.AwaitingTransfer? {
      TransferNeverStuck(s);
    } else {
      SenderNeverStuck(s);
    }
  }

  lemma TransferNeverStuck(s: State)
    requires Inv(s) && s.crash.NoCrash? && s.stage.AwaitingTransfer? && |s.workers| >= 1
    ensures exists a :: Ordinary(a) && Enabled(s, a)
  {
    if s.transfer.Finished? || s.transfer.Aborted? {
      assert Enabled(s, TransferJoined);
    } else if s.transfer.Receiving? {
      assert Enabled(s, if s.collected.buf == [] then TransferFinish else TransferReceive);
    } else if |s.outbox.buf| < CAPACITY {
      assert Enabled(s, TransferSend);
    } else if s.submitter.Idle? {
      assert Enabled(s, SubmitterReceive);
    } else if |s.tasks.buf| < CAPACITY {
      assert Enabled(s, SubmitterSend);
    } else {
      assert Enabled(s, if s.workers[0].Ready? then WorkerTake(0) else WorkerFinish(0));
    }
  }

  lemma WorkerNeverStuck(s: State)
    requires s.crash.NoCrash? && SenderCancelled(s) && !WorkersQuit(s)
    ensures exists a :: Ordinary(a) && Enabled(s, a)
  {
    var w :| 0 <= w < |s.workers| && !s.workers[w].Quit?;
    assert Enabled(s, if s.workers[w].Running? then WorkerFinish(w) else WorkerQuit(w));
  }

  lemma SenderNeverStuck(s: State)
    requires Inv(s) && s.crash.NoCrash? && SenderCancelled(s) && CollectorsGone(s) && !ShutDown(s)
    ensures exists a :: Ordinary(a) && Enabled(s, a)
  {
    if !WorkersQuit(s) {
      WorkerNeverStuck(s);
    } else if s.poolStop.AwaitingWorkers? {
      assert Enabled(s, PoolJoined);
    } else if s.stage.StoppingSender? {
      assert Enabled(s, SenderJoined);
    } else if s.submitter.Idle? {
      assert Enabled(s, if s.outbox.buf == [] then SubmitterLeave else SubmitterReceive);
    } else {
      assert Enabled(s, SubmitterSend);
    }
  }

  /** After the signal, with the collectors gone: a run has at most `Measure(s)` steps, and
      one that has neither panicked nor shut everything down can always go on. */
  lemma {:induction false} ShutdownTerminates(s: State, run: seq<Action>)
    requires Inv(s) && !s.stage.Serving? && CollectorsGone(s) && |s.workers| >= 1 && IsRun(s, run)
    ensures |run| <= Measure(s)
    ensures
      var t := After(s, run);
      t.crash.NoCrash? && !ShutDown(t) ==> exists a :: Ordinary(a) && Enabled(t, a)
  {
    var t := After(s, run);
    RunsAreBounded(s, run);
    InvRun(s, run);
    RunKeeps(s, run);
    if t.crash.NoCrash? && !ShutDown(t) {
      NeverStuck(t);
    }
  }

  // ---------------------------------------------------------------- stopping the sender

  /** No batch is left between the transfer goroutine and `tasks`. */
  predicate Drained(s: State) {
    s.outbox.buf == [] && !s.submitter.Submitting?
  }

  /** `MetricsSender.Stop` is in progress and the pool is waiting for its workers. */
  predicate StopInProgress(s: State) {
    Inv(s) && s.crash.NoCrash? && !s.timedOut && s.stage.StoppingSender? && s.poolStop.AwaitingWorkers?
  }

  lemma DrainedStep(s: State, a: Action)
    requires Staged(s) && Joined(s) && CrashesExplained(s) && s.crash.NoCrash? && SenderCancelled(s) && Drained(s)
    requires Enabled(s, a) && !Apply(s, a).timedOut
    ensures Apply(s, a).crash.NoCrash? && Drained(Apply(s, a)) && Apply(s, a).accepted == s.accepted
  {
  }

  /** `MetricsSender.Stop` on a drained sender: without timeouts no run panics, and nothing
      more is accepted. */
  lemma {:induction false} DrainedStopIsSafe(s: State, run: seq<Action>)
    requires Inv(s) && s.crash.NoCrash? && SenderCancelled(s) && Drained(s)
    requires IsRun(s, run) && !After(s, run).timedOut
    ensures After(s, run).crash.NoCrash? && Drained(After(s, run)) && After(s, run).accepted == s.accepted
    decreases |run|
  {
    if run != [] {
      var t := Apply(s, run[0]);
      assert !t.timedOut by { RunKeeps(t, run[1..]); }
      assert SenderCancelled(t) by { StepKeeps(s, run[0]); }
      assert Inv(t) by { InvStep(s, run[0]); }
      DrainedStep(s, run[0]);
      DrainedStopIsSafe(t, run[1..]);
    }
  }

  /** When such a stop is over and the process exits, the accepted batches are exactly the executed ones plus those
      abandoned in `tasks`. */
  lemma {:induction false} DrainedStopAccounts(s: State, run: seq<Action>)
    requires Inv(s) && s.crash.NoCrash? && SenderCancelled(s) && Drained(s)
    requires IsRun(s, run) && !After(s, run).timedOut && After(s, run).stage.Stopped?
    ensures multiset(s.accepted) == After(s, run).executed + multiset(After(s, run).tasks.buf)
  {
    DrainedStopIsSafe(s, run);
    InvRun(s, run);
    DrainedAccounts(After(s, run));
  }

  lemma DrainedAccounts(t: State)
    requires Conserved(t) && Drained(t) && WorkersQuit(t)
    ensures multiset(t.accepted) == t.executed + multiset(t.tasks.buf)
  {
    InFlightBound(t.workers);
    assert t.accepted == t.taken + t.tasks.buf;
    assert multiset(t.accepted) == multiset(t.taken) + multiset(t.tasks.buf);
    assert multiset(t.taken) == t.executed;
  }

  lemma {:induction false} RunConcat(s: State, first: seq<Action>, second: seq<Action>)
    requires IsRun(s, first) && IsRun(After(s, first), second)
    ensures IsRun(s, first + second) && After(s, first + second) == After(After(s, first), second)
    decreases |first|
  {
    if first == [] {
      assert first + second == second;
    } else {
      assert (first + second)[1..] == first[1..] + second;
      RunConcat(Apply(s, first[0]), first[1..], second);
    }
  }

  lemma OneAction(s: State, a: Action)
    requires Enabled(s, a)
    ensures IsRun(s, [a]) && After(s, [a]) == Apply(s, a)
  {
    var one := [a];
    assert one[0] == a && one[1..] == [];
    assert IsRun(Apply(s, a), one[1..]) && After(Apply(s, a), one[1..]) == Apply(s, a);
  }

  lemma RunSnoc(s: State, run: seq<Action>, a: Action)
    requires IsRun(s, run) && Enabled(After(s, run), a)
    ensures IsRun(s, run + [a]) && After(s, run + [a]) == Apply(After(s, run), a)
  {
    OneAction(After(s, run), a);
    RunConcat(s, run, [a]);
  }

  lemma Extend(s: State, run: seq<Action>, a: Action) returns (longer: seq<Action>)
    requires IsRun(s, run) && Enabled(After(s, run), a)
    ensures IsRun(s, longer) && After(s, longer) == Apply(After(s, run), a)
  {
    RunSnoc(s, run, a);
    longer := run + [a];
  }

  /** The states are alike in everything that matters once the workers are to quit. */
  predicate OnlyWorkersMoved(s: State, t: State) {
    t == s.(workers := t.workers, executed := t.executed) && |t.workers| == |s.workers|
  }

  /** A worker can finish what it runs and quit. */
  lemma WorkerCanQuit(s: State, w: nat) returns (run: seq<Action>)
    requires s.crash.NoCrash? && SenderCancelled(s) && w < |s.workers|
    ensures IsRun(s, run) && OnlyWorkersMoved(s, After(s, run)) && After(s, run).workers == s.workers[w := Quit]
  {
    match s.workers[w]
    case Quit =>
      run := [];
    case Ready =>
      run := Extend(s, [], WorkerQuit(w));
    case Running(_) =>
      run := Extend(s, [], WorkerFinish(w));
      run := Extend(s, run, WorkerQuit(w));
  }

  /** So can the first `n` of them, one after the other. */
  lemma {:induction false} WorkersCanQuit(s: State, n: nat) returns (run: seq<Action>)
    requires s.crash.NoCrash? && SenderCancelled(s) && n <= |s.workers|
    requires forall w :: n <= w < |s.workers| ==> s.workers[w].Quit?
    ensures IsRun(s, run) && OnlyWorkersMoved(s, After(s, run)) && WorkersQuit(After(s, run))
    decreases n
  {
    if n == 0 {
      run := [];
    } else {
      var one := WorkerCanQuit(s, n - 1);
      var rest := WorkersCanQuit(After(s, one), n - 1);
      RunConcat(s, one, rest);
      run := one + rest;
    }
  }

  /** The run ends in a panic, without a timeout and before the process is done stopping. */
  predicate CrashesWhileStopping(s: State, run: seq<Action>) {
    && IsRun(s, run) && !After(s, run).timedOut && !After(s, run).crash.NoCrash?
    && After(s, run).stage.StoppingSender?
  }

  /** `MetricsSender.Stop` can panic without any timeout exactly when, as it begins, a batch
      is still between the transfer goroutine and `tasks`. */
  lemma StopCanCrashIff(s: State)
    requires StopInProgress(s)
    ensures !Drained(s) <==> exists run :: CrashesWhileStopping(s, run)
    ensures Drained(s) ==>
              forall run :: IsRun(s, run) && !After(s, run).timedOut ==> After(s, run).crash.NoCrash?
  {
    if Drained(s) {
      forall run | IsRun(s, run) && !After(s, run).timedOut
        ensures After(s, run).crash.NoCrash?
      {
        DrainedStopIsSafe(s, run);
      }
    } else {
      var run := UndrainedStopCrashes(s);
      assert CrashesWhileStopping(s, run);
    }
  }

  lemma {:induction false} UndrainedStopCrashes(s: State) returns (run: seq<Action>)
    requires StopInProgress(s) && !Drained(s)
    ensures IsRun(s, run) && !After(s, run).timedOut && After(s, run).crash.SubmitterSentOnClosed?
    ensures After(s, run).parentLive == s.parentLive && After(s, run).stage.StoppingSender?
  {
    var quitting := WorkersCanQuit(s, |s.workers|);
    RunSnoc(s, quitting, PoolJoined);
    run := quitting + [PoolJoined];
    if s.submitter.Idle? {
      RunSnoc(s, run, SubmitterReceive);
      run := run + [SubmitterReceive];
    }
    RunSnoc(s, run, SubmitterSend);
    run := run + [SubmitterSend];
  }

  lemma OneBatchAccepted(poolSize: nat) returns (run: seq<Action>)
    ensures IsRun(Init(poolSize), run)
    ensures After(Init(poolSize), run)
         == Init(poolSize).(outbox := Channel([System(0)], false), sent := [System(0)], accepted := [System(0)])
  {
    var s := Init(poolSize);
    run := Extend(s, [], SystemTick(0));
    run := Extend(s, run, SystemSend);
    run := Extend(s, run, TransferReceive);
    run := Extend(s, run, TransferSend);
  }

  lemma CollectorsStop(s: State) returns (run: seq<Action>)
    requires s.crash.NoCrash? && s.stage.Serving? && s.runtime.Polling? && s.system.Polling?
    requires s.collected == Channel([], false)
    ensures IsRun(s, run)
    ensures
      After(s, run)
      == s.(runtime := Gone, system := Gone, stage := AwaitingTransfer, collected := Channel([], true))
  {
    run := Extend(s, [], Signal);
    run := Extend(s, run, RuntimeLeave);
    run := Extend(s, run, SystemLeave);
    run := Extend(s, run, CollectorsJoined);
  }

  /** One batch collected just before the signal is enough: the graceful shutdown of any agent
      can end in a panic although no timeout fires and the parent context is live. */
  lemma GracefulShutdownCanCrash(poolSize: nat)
    ensures exists run :: CrashesWhileStopping(Init(poolSize), run)
                          && After(Init(poolSize), run).parentLive
                          && After(Init(poolSize), run).crash.SubmitterSentOnClosed?
  {
    var s := Init(poolSize);
    var run := OneBatchAccepted(poolSize);
    run := StopBegins(s, run);
    InitInv(poolSize);
    InvRun(s, run);
    var crash := UndrainedStopCrashes(After(s, run));
    RunConcat(s, run, crash);
    assert CrashesWhileStopping(s, run + crash);
  }

  /** From a quiet pipeline the signal leads to the beginning of `MetricsSender.Stop`. */
  lemma StopBegins(s: State, run: seq<Action>) returns (longer: seq<Action>)
    requires IsRun(s, run)
    requires
      var t := After(s, run);
      && t.crash.NoCrash? && t.stage.Serving? && t.runtime.Polling? && t.system.Polling?
      && t.collected == Channel([], false) && t.transfer.Receiving?
    ensures IsRun(s, longer)
    ensures
      var t := After(s, run);
      After(s, longer) == t.(runtime := Gone, system := Gone, collected := Channel([], true), transfer := Finished,
                             stage := StoppingSender, poolStop := AwaitingWorkers)
  {
    var stop := CollectorsStop(After(s, run));
    RunConcat(s, run, stop);
    longer := Extend(s, run + stop, TransferFinish);
    longer := Extend(s, longer, TransferJoined);
  }

  // ---------------------------------------------------------------- abandoned batches

  /** The run ends, without a timeout or a panic, where `MetricsSender.Stop` has returned and the
      process exits, with some accepted batch not executed. */
  predicate Abandons(s: State, run: seq<Action>) {
    && IsRun(s, run) && !After(s, run).timedOut && After(s, run).crash.NoCrash? && After(s, run).stage.Stopped?
    && After(s, run).executed != multiset(After(s, run).accepted)
  }

  /** The same, even after every goroutine has exited by itself. */
  predicate AbandonsAtRest(s: State, run: seq<Action>) {
    Abandons(s, run) && ShutDown(After(s, run))
  }

  /** Nobody refills an empty `tasks` of a drained sender. */
  lemma {:induction false} EmptyTasksStayEmpty(s: State, run: seq<Action>)
    requires IsRun(s, run) && !After(s, run).timedOut
    requires Inv(s) && s.crash.NoCrash? && SenderCancelled(s) && Drained(s) && s.tasks.buf == []
    ensures After(s, run).tasks.buf == []
    decreases |run|
  {
    if run != [] {
      var t := Apply(s, run[0]);
      assert !t.timedOut by { RunKeeps(t, run[1..]); }
      assert SenderCancelled(t) by { StepKeeps(s, run[0]); }
      assert Inv(t) by { InvStep(s, run[0]); }
      DrainedStep(s, run[0]);
      EmptyTasksStep(s, run[0]);
      EmptyTasksStayEmpty(t, run[1..]);
    }
  }

  lemma EmptyTasksStep(s: State, a: Action)
    requires Enabled(s, a) && Drained(s) && s.tasks.buf == []
    ensures Apply(s, a).tasks.buf == []
  {
    if OfShutdown(a) {
      ShutdownKeepsContents(s, a);
    }
  }

  /** The number of batches accepted that no worker has taken. */
  function Untaken(s: State): nat {
    |s.tasks.buf| + |SubmitterHand(s.submitter)| + |s.outbox.buf|
  }

  /** The stop of a sender can abandon accepted batches exactly when one is untaken as it begins:
      the workers may see the cancelled context first. */
  lemma StopAbandonsIff(s: State)
    requires StopInProgress(s)
    ensures Untaken(s) > 0 <==> exists run :: Abandons(s, run)
  {
    if Untaken(s) > 0 {
      var run := ExitingRun(s);
    } else {
      forall run | IsRun(s, run) && !After(s, run).timedOut && After(s, run).stage.Stopped?
        ensures After(s, run).executed == multiset(After(s, run).accepted)
      {
        AllExecuted(s, run);
      }
    }
  }

  /** With nothing untaken, all accepted batches are executed before the process exits. */
  lemma AllExecuted(s: State, run: seq<Action>)
    requires StopInProgress(s) && Untaken(s) == 0
    requires IsRun(s, run) && !After(s, run).timedOut && After(s, run).stage.Stopped?
    ensures After(s, run).executed == multiset(After(s, run).accepted)
  {
    EmptyTasksStayEmpty(s, run);
    DrainedStopAccounts(s, run);
    DrainedStopIsSafe(s, run);
  }

  /** All workers quit, the pool and the sender stop, and the process exits. */
  lemma ExitingRun(s: State) returns (run: seq<Action>)
    requires StopInProgress(s) && Untaken(s) > 0
    ensures Abandons(s, run) && After(s, run).parentLive == s.parentLive
  {
    var quitting := WorkersCanQuit(s, |s.workers|);
    run := Extend(s, quitting, PoolJoined);
    run := Extend(s, run, SenderJoined);
    InvRun(s, run);
    UntakenIsNotExecuted(After(s, run));
  }

  lemma UntakenIsNotExecuted(t: State)
    requires Conserved(t) && WorkersQuit(t) && Untaken(t) > 0
    ensures t.executed != multiset(t.accepted)
  {
    InFlightBound(t.workers);
    assert t.executed == multiset(t.taken);
    assert |multiset(t.taken)| == |t.taken| < |t.accepted| == |multiset(t.accepted)|;
  }

  /** Some batch is untaken, and either all untaken batches fit into `tasks` or some worker is
      left to make room. */
  predicate Abandonable(s: State) {
    Untaken(s) > 0 && (Untaken(s) <= CAPACITY || !WorkersQuit(s))
  }

  /** If the process stayed, every goroutine could exit by itself and a batch still be abandoned,
      except when there are too many for `tasks` and no worker is left: then the submitter panics. */
  lemma AbandonsAtRestIff(s: State)
    requires StopInProgress(s)
    ensures Abandonable(s) <==> exists run :: AbandonsAtRest(s, run)
  {
    if Abandonable(s) {
      var settling := Settle(s);
      var rest := AbandoningRun(After(s, settling));
      RunConcat(s, settling, rest);
      assert AbandonsAtRest(s, settling + rest);
    } else {
      forall run | IsRun(s, run) && !After(s, run).timedOut && ShutDown(After(s, run))
        ensures After(s, run).executed == multiset(After(s, run).accepted)
      {
        if Untaken(s) == 0 {
          AllExecuted(s, run);
        } else {
          OverfullStays(s, run);
          assert Inv(After(s, run)) by { InvRun(s, run); }
          assert false;
        }
      }
    }
  }

  /** Too many batches for `tasks` and nobody to take one: so it stays, and nothing shuts down. */
  predicate Overfull(s: State) {
    SenderCancelled(s) && WorkersQuit(s) && Untaken(s) > CAPACITY
  }

  lemma OverfullStep(s: State, a: Action)
    requires Enabled(s, a) && Staged(s) && Overfull(s)
    ensures Overfull(Apply(s, a))
  {
    if OfShutdown(a) {
      ShutdownKeepsContents(s, a);
    }
  }

  lemma {:induction false} OverfullStays(s: State, run: seq<Action>)
    requires IsRun(s, run) && Inv(s) && Overfull(s)
    ensures Overfull(After(s, run))
    decreases |run|
  {
    if run != [] {
      assert Overfull(Apply(s, run[0])) by { OverfullStep(s, run[0]); }
      assert Inv(Apply(s, run[0])) by { InvStep(s, run[0]); }
      OverfullStays(Apply(s, run[0]), run[1..]);
    }
  }

  /** A next step on the way to a drained sender: the submitter goes on, or a worker makes room. */
  lemma SettlingStep(s: State) returns (a: Action)
    requires StopInProgress(s) && Abandonable(s) && !Drained(s)
    ensures Enabled(s, a) && !OfShutdown(a)
    ensures
      var t := Apply(s, a);
      t.crash.NoCrash? && t.stage == s.stage && t.poolStop == s.poolStop && t.timedOut == s.timedOut
      && t.parentLive == s.parentLive && Abandonable(t)
  {
    if s.submitter.Idle? {
      a := SubmitterReceive;
    } else if |s.tasks.buf| < CAPACITY {
      a := SubmitterSend;
    } else {
      a := MakeRoom(s);
    }
  }

  lemma MakeRoom(s: State) returns (a: Action)
    requires s.crash.NoCrash? && s.submitter.Submitting? && s.tasks.buf != [] && !WorkersQuit(s)
    ensures Enabled(s, a) && !OfShutdown(a)
    ensures
      var t := Apply(s, a);
      t == s.(workers := t.workers, tasks := t.tasks, taken := t.taken, executed := t.executed)
      && Untaken(t) > 0 && !WorkersQuit(t)
  {
    var w :| 0 <= w < |s.workers| && !s.workers[w].Quit?;
    a := if s.workers[w].Running? then WorkerFinish(w) else WorkerTake(w);
    assert !Apply(s, a).workers[w].Quit?;
  }

  /** So the sender can be drained with a batch left in `tasks`. */
  lemma {:induction false} Settle(s: State) returns (run: seq<Action>)
    requires StopInProgress(s) && Abandonable(s)
    ensures IsRun(s, run) && StopInProgress(After(s, run)) && After(s, run).parentLive == s.parentLive
    ensures Drained(After(s, run)) && After(s, run).tasks.buf != []
    decreases Measure(s)
  {
    if Drained(s) {
      run := [];
    } else {
      var a := SettlingStep(s);
      var t := Apply(s, a);
      assert Inv(t) by { InvStep(s, a); }
      MeasureDecreases(s, a);
      var rest := Settle(t);
      run := [a] + rest;
      assert run[1..] == rest;
    }
  }

  /** All workers quit, the pool and the sender stop, the submitter leaves; nobody takes a task. */
  lemma AbandoningRun(s: State) returns (run: seq<Action>)
    requires StopInProgress(s) && Drained(s) && s.tasks.buf != []
    ensures AbandonsAtRest(s, run) && After(s, run).parentLive == s.parentLive
    ensures After(s, run).tasks.buf == s.tasks.buf
  {
    var quitting := WorkersCanQuit(s, |s.workers|);
    InvRun(s, quitting);
    var rest := StopWithoutWorkers(After(s, quitting));
    RunConcat(s, quitting, rest);
    run := quitting + rest;
    DrainedStopAccounts(s, run);
    DrainedStopIsSafe(s, run);
  }

  lemma StopWithoutWorkers(s: State) returns (run: seq<Action>)
    requires StopInProgress(s) && Drained(s) && WorkersQuit(s)
    ensures IsRun(s, run) && ShutDown(After(s, run)) && !After(s, run).timedOut
    ensures After(s, run).tasks.buf == s.tasks.buf && After(s, run).parentLive == s.parentLive
  {
    run := Extend(s, [], PoolJoined);
    run := Extend(s, run, SenderJoined);
    run := Extend(s, run, SubmitterLeave);
  }

  /** One batch that reached `tasks` just before the signal is enough: the graceful shutdown of
      any agent can end in good order, every goroutine having exited, with a batch that was
      accepted and never sent. */
  lemma GracefulShutdownCanAbandon(poolSize: nat)
    ensures exists run :: AbandonsAtRest(Init(poolSize), run) && After(Init(poolSize), run).parentLive
  {
    var s := Init(poolSize);
    var run := OneBatchAccepted(poolSize);
    run := Extend(s, run, SubmitterReceive);
    run := Extend(s, run, SubmitterSend);
    run := StopBegins(s, run);
    InitInv(poolSize);
    InvRun(s, run);
    var abandon := AbandoningRun(After(s, run));
    RunConcat(s, run, abandon);
    assert AbandonsAtRest(s, run + abandon);
  }
}
