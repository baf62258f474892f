/**
 `MemStorage` under its read-write lock, step by step: writers apply a batch item by item
 while they hold the lock, savers copy the maps entry by entry while they hold it for
 reading, and the JSON counter handler updates and reads in two separate critical sections.
 Any interleaving of the threads' steps is a run.
 */
module LockedStore {
  import opened Wrappers
  import opened Int64
  import opened Metrics
  import opened MemStorage

  /** A write operation; single updates are batches of one. */
  datatype Op = Batch(ms: seq<Metric>) | Load(dump: Store)

  function Effect(st: Store, op: Op): Store {
    match op
    case Batch(ms) => Replay(st, ms[..GoodPrefix(ms)])
    case Load(dump) => dump
  }

  /** The number of steps an operation takes under the lock. */
  function Steps(op: Op): nat {
    match op
    case Batch(ms) => GoodPrefix(ms)
    case Load(_) => 2
  }

  /** Step `i` of an operation: the next item, or one of the two maps replaced. */
  function Step(st: Store, op: Op, i: nat): Store
    requires i < Steps(op)
  {
    match op
    case Batch(ms) => Update(st, ms[i])
    case Load(dump) => if i == 0 then st.(gauges := dump.gauges) else st.(counters := dump.counters)
  }

  /** The store after the first `i` steps. */
  function Partial(st: Store, op: Op, i: nat): Store
    requires i <= Steps(op)
  {
    if i == 0 then st else Step(Partial(st, op, i - 1), op, i - 1)
  }

  /** Whole operations, one after the other. */
  function RunLog(base: Store, log: seq<Op>): Store {
    if log == [] then base else Effect(RunLog(base, log[..|log| - 1]), log[|log| - 1])
  }

  /** The steps of an operation add up to its effect. */
  lemma {:induction false} PartialBatch(st: Store, ms: seq<Metric>, i: nat)
    requires i <= GoodPrefix(ms)
    ensures Partial(st, Batch(ms), i) == Replay(st, ms[..i])
  {
    if i > 0 {
      PartialBatch(st, ms, i - 1);
      assert ms[..i] == ms[..i - 1] + [ms[i - 1]];
      ReplaySnoc(st, ms[..i - 1], ms[i - 1]);
    }
  }

  lemma PartialIsEffect(st: Store, op: Op)
    ensures Partial(st, op, Steps(op)) == Effect(st, op)
  {
    match op
    case Batch(ms) => PartialBatch(st, ms, GoodPrefix(ms));
    case Load(dump) =>
      assert Partial(st, op, 1) == Step(Partial(st, op, 0), op, 0);
      assert Partial(st, op, 2) == Step(Partial(st, op, 1), op, 1);
  }

  /** What the JSON handler was asked: add `delta` to the counter `name`. */
  datatype Request = Request(name: string, delta: int64)

  /** Where a thread is. `own` is the position in the log of the JSON handler's update;
      `unlocked` counts the operations whose lock had been released when the copy began. */
  datatype Thread =
    | Idle
    | Writing(op: Op, i: nat, own: nat, json: Option<Request>)
    | Copying(dump: Store, gaugesLeft: set<string>, countersLeft: set<string>, unlocked: nat)
    | Copied(dump: Store)
    | Updated(request: Request, own: nat)
    | Reading(request: Request, own: nat)

  /** What `SaveToFile` copied: the store after `at` operations, of which `unlocked` had been
      released before the copy began. */
  datatype DumpTaken = DumpTaken(dump: Store, unlocked: nat, at: nat)

  /** What the JSON handler read back; None is its error path. */
  datatype Answer = Answer(request: Request, own: nat, value: Option<int64>, at: nat)

  /** `log` lists the operations in the order in which they took the lock. */
  datatype State = State(
    mem: Store,
    writer: Option<nat>,
    readers: set<nat>,
    threads: seq<Thread>,
    log: seq<Op>,
    dumps: seq<DumpTaken>,
    answers: seq<Answer>)

  datatype Action =
    | Lock(t: nat, op: Op)
    | LockForJSON(t: nat, request: Request)
    | WriteStep(t: nat)
    | Unlock(t: nat)
    | StartCopy(t: nat)
    | CopyGauge(t: nat, name: string)
    | CopyCounter(t: nat, name: string)
    | EndCopy(t: nat)
    | WriteFile(t: nat)
    | StartRead(t: nat)
    | EndRead(t: nat)

  function Init(base: Store, threads: nat): State {
    State(base, None, {}, seq(threads, _ => Idle), [], [], [])
  }

  function CounterOp(request: Request): Op {
    Batch([Metric(request.name, COUNTER, Some(request.delta), None, "")])
  }

  predicate Enabled(s: State, a: Action) {
    && a.t < |s.threads|
    && var th := s.threads[a.t];
    match a
    case Lock(_, _) => th.Idle? && s.writer.None? && s.readers == {}
    case LockForJSON(_, _) => th.Idle? && s.writer.None? && s.readers == {}
    case WriteStep(_) => th.Writing? && th.i < Steps(th.op)
    case Unlock(_) => th.Writing? && th.i == Steps(th.op)
    case StartCopy(_) => th.Idle? && s.writer.None?
    case CopyGauge(_, name) => th.Copying? && name in th.gaugesLeft && name in s.mem.gauges
    case CopyCounter(_, name) => th.Copying? && th.gaugesLeft == {} && name in th.countersLeft && name in s.mem.counters
    case EndCopy(_) => th.Copying? && th.gaugesLeft == {} && th.countersLeft == {}
    case WriteFile(_) => th.Copied?
    case StartRead(_) => th.Updated? && s.writer.None?
    case EndRead(_) => th.Reading?
  }

  function Acquire(s: State, t: nat, op: Op, json: Option<Request>): State
    requires t < |s.threads|
  {
    s.(writer := Some(t), threads := s.threads[t := Writing(op, 0, |s.log|, json)], log := s.log + [op])
  }

  function Apply(s: State, a: Action): State
    requires Enabled(s, a)
  {
    var th := s.threads[a.t];
    match a
    case Lock(t, op) => Acquire(s, t, op, None)
    case LockForJSON(t, request) => Acquire(s, t, CounterOp(request), Some(request))
    case WriteStep(t) => s.(mem := Step(s.mem, th.op, th.i), threads := s.threads[t := th.(i := th.i + 1)])
    case Unlock(t) =>
      var next := if th.json.Some? then Updated(th.json.value, th.own) else Idle;
      s.(writer := None, threads := s.threads[t := next])
    case StartCopy(t) =>
      var copying := Copying(EMPTY, s.mem.gauges.Keys, s.mem.counters.Keys, |s.log|);
      s.(readers := s.readers + {t}, threads := s.threads[t := copying])
    case CopyGauge(t, name) =>
      var dump := PutGauge(th.dump, name, s.mem.gauges[name]);
      s.(threads := s.threads[t := th.(dump := dump, gaugesLeft := th.gaugesLeft - {name})])
    case CopyCounter(t, name) =>
      var dump := th.dump.(counters := th.dump.counters[name := s.mem.counters[name]]);
      s.(threads := s.threads[t := th.(dump := dump, countersLeft := th.countersLeft - {name})])
    case EndCopy(t) =>
      s.(readers := s.readers - {t}, threads := s.threads[t := Copied(th.dump)],
         dumps := s.dumps + [DumpTaken(th.dump, th.unlocked, |s.log|)])
    case WriteFile(t) => s.(threads := s.threads[t := Idle])
    case StartRead(t) => s.(readers := s.readers + {t}, threads := s.threads[t := Reading(th.request, th.own)])
    case EndRead(t) =>
      var name := th.request.name;
      var value := if name in s.mem.counters then Some(s.mem.counters[name]) else None;
      s.(readers := s.readers - {t}, threads := s.threads[t := Idle],
         answers := s.answers + [Answer(th.request, th.own, value, |s.log|)])
  }

  predicate IsRun(s: State, run: seq<Action>)
    decreases |run|
  {
    run == [] || (Enabled(s, run[0]) && IsRun(Apply(s, run[0]), run[1..]))
  }

  function After(s: State, run: seq<Action>): State
    requires IsRun(s, run)
    decreases |run|
  {
    if run == [] then s else After(Apply(s, run[0]), run[1..])
  }

  // ---------------------------------------------------------------- invariants

  /** One writer alone, or any number of readers. */
  predicate LockHeld(s: State) {
    && (s.writer.Some? ==>
          s.readers == {} && s.writer.value < |s.threads| && s.threads[s.writer.value].Writing? && s.log != [])
    && (forall t :: 0 <= t < |s.threads| && s.threads[t].Writing? ==> s.writer == Some(t))
    && (forall t :: 0 <= t < |s.threads| && (s.threads[t].Copying? || s.threads[t].Reading?) ==> t in s.readers)
    && (forall t :: 0 <= t < |s.threads| && s.threads[t].Copying? ==> s.threads[t].unlocked == |s.log|)
  }

  /** The memory is what whole operations make of it, plus the writer's steps so far. */
  predicate MemoryIsLog(base: Store, s: State) {
    if s.writer.None? then s.mem == RunLog(base, s.log)
    else
      && s.writer.value < |s.threads| && s.threads[s.writer.value].Writing? && s.log != []
      && var th := s.threads[s.writer.value];
      && th.op == s.log[|s.log| - 1] && th.i <= Steps(th.op)
      && s.mem == Partial(RunLog(base, s.log[..|s.log| - 1]), th.op, th.i)
      && (th.json.Some? ==> OwnUpdate(s.log, th.json.value, th.own))
  }

  /** A half-made copy agrees with the memory on what was copied. */
  predicate CopyOf(th: Thread, mem: Store)
    requires th.Copying?
  {
    && th.gaugesLeft <= mem.gauges.Keys && th.countersLeft <= mem.counters.Keys
    && th.dump.gauges == mem.gauges - th.gaugesLeft
    && th.dump.counters == mem.counters - th.countersLeft
  }

  predicate CopiesMatch(s: State) {
    forall t :: 0 <= t < |s.threads| && s.threads[t].Copying? ==> CopyOf(s.threads[t], s.mem)
  }

  predicate OwnUpdate(log: seq<Op>, request: Request, own: nat) {
    own < |log| && log[own] == CounterOp(request)
  }

  predicate DumpFaithful(base: Store, log: seq<Op>, d: DumpTaken) {
    d.unlocked <= d.at <= |log| && d.dump == RunLog(base, log[..d.at])
  }

  predicate AnswerFaithful(base: Store, log: seq<Op>, r: Answer) {
    && r.own < r.at <= |log| && OwnUpdate(log, r.request, r.own)
    && var st := RunLog(base, log[..r.at]);
    r.value == if r.request.name in st.counters then Some(st.counters[r.request.name]) else None
  }

  /** The position of the update a thread is still going to answer for. */
  function Pending(th: Thread): Option<nat> {
    match th
    case Writing(_, _, own, json) => if json.Some? then Some(own) else None
    case Updated(_, own) => Some(own)
    case Reading(_, own) => Some(own)
    case _ => None
  }

  /** Answers given and answers still due are for different updates. */
  predicate OwnersDistinct(s: State) {
    && (forall i, j :: 0 <= i < j < |s.answers| ==> s.answers[i].own != s.answers[j].own)
    && (forall i, t :: 0 <= i < |s.answers| && 0 <= t < |s.threads| ==> Pending(s.threads[t]) != Some(s.answers[i].own))
    && (forall t, u :: 0 <= t < u < |s.threads| && Pending(s.threads[t]).Some? ==>
          Pending(s.threads[t]) != Pending(s.threads[u]))
  }

  predicate Observed(base: Store, s: State) {
    && (forall i :: 0 <= i < |s.dumps| ==> DumpFaithful(base, s.log, s.dumps[i]))
    && (forall i :: 0 <= i < |s.answers| ==> AnswerFaithful(base, s.log, s.answers[i]))
    && (forall t :: 0 <= t < |s.threads| && (s.threads[t].Updated? || s.threads[t].Reading?) ==>
          OwnUpdate(s.log, s.threads[t].request, s.threads[t].own))
  }

  predicate Inv(base: Store, s: State) {
    LockHeld(s) && MemoryIsLog(base, s) && CopiesMatch(s) && Observed(base, s) && OwnersDistinct(s)
  }

  lemma LockHeldStep(s: State, a: Action)
    requires Enabled(s, a) && LockHeld(s)
    ensures LockHeld(Apply(s, a))
  {
  }

  lemma MemoryStep(base: Store, s: State, a: Action)
    requires Enabled(s, a) && LockHeld(s) && MemoryIsLog(base, s)
    ensures MemoryIsLog(base, Apply(s, a))
  {
    var t := Apply(s, a);
    if a.Lock? || a.LockForJSON? {
      assert t.log[..|t.log| - 1] == s.log;
    } else if a.Unlock? {
      PartialIsEffect(RunLog(base, s.log[..|s.log| - 1]), s.threads[a.t].op);
    }
  }

  lemma CopiesStep(s: State, a: Action)
    requires Enabled(s, a) && LockHeld(s) && CopiesMatch(s)
    ensures CopiesMatch(Apply(s, a))
  {
    var u := Apply(s, a);
    forall t | 0 <= t < |u.threads| && u.threads[t].Copying?
      ensures CopyOf(u.threads[t], u.mem)
    {
      if t != a.t {
        assert u.threads[t] == s.threads[t] && t in s.readers;
      } else if a.CopyGauge? {
        assert u.threads[t].dump.gauges == s.mem.gauges - u.threads[t].gaugesLeft;
      } else if a.CopyCounter? {
        assert u.threads[t].dump.counters == s.mem.counters - u.threads[t].countersLeft;
      }
    }
  }

  /** What was observed stays true of a longer log. */
  lemma LongerLog(log: seq<Op>, op: Op, n: nat)
    requires n <= |log|
    ensures (log + [op])[..n] == log[..n]
  {
  }

  lemma ObservedLock(base: Store, s: State, t: nat, op: Op, json: Option<Request>)
    requires t < |s.threads| && Observed(base, s)
    ensures Observed(base, Acquire(s, t, op, json))
  {
    var u := Acquire(s, t, op, json);
    forall i | 0 <= i < |u.dumps|
      ensures DumpFaithful(base, u.log, u.dumps[i])
    {
      assert DumpFaithful(base, s.log, s.dumps[i]);
      LongerLog(s.log, op, s.dumps[i].at);
    }
    forall i | 0 <= i < |u.answers|
      ensures AnswerFaithful(base, u.log, u.answers[i])
    {
      assert AnswerFaithful(base, s.log, s.answers[i]);
      LongerLog(s.log, op, s.answers[i].at);
    }
  }

  lemma ObservedStep(base: Store, s: State, a: Action)
    requires Enabled(s, a) && Inv(base, s)
    ensures Observed(base, Apply(s, a))
  {
    if a.Lock? {
      ObservedLock(base, s, a.t, a.op, None);
    } else if a.LockForJSON? {
      ObservedLock(base, s, a.t, CounterOp(a.request), Some(a.request));
    } else if a.EndCopy? || a.EndRead? {
      assert s.writer.None?;
      assert s.log[..|s.log|] == s.log;
      if a.EndCopy? {
        assert s.threads[a.t].dump == s.mem;
      }
    }
  }

  /** The owner of every due answer is in the log, so the next update gets a new position. */
  lemma PendingInLog(base: Store, s: State, t: nat)
    requires LockHeld(s) && MemoryIsLog(base, s) && Observed(base, s)
    requires t < |s.threads| && Pending(s.threads[t]).Some?
    ensures Pending(s.threads[t]).value < |s.log|
  {
  }

  lemma OwnersDistinctStep(base: Store, s: State, a: Action)
    requires Enabled(s, a) && Inv(base, s)
    ensures OwnersDistinct(Apply(s, a))
  {
    if a.LockForJSON? {
      OwnersDistinctLock(base, s, a.t, a.request);
    } else if a.EndRead? {
      OwnersDistinctEndRead(s, a.t);
    } else {
      PendingKept(s, a);
    }
  }

  lemma PendingKept(s: State, a: Action)
    requires Enabled(s, a) && !a.LockForJSON? && !a.EndRead?
    ensures
      var u := Apply(s, a);
      && |u.threads| == |s.threads| && u.answers == s.answers
      && forall t :: 0 <= t < |u.threads| && Pending(u.threads[t]).Some? ==>
           Pending(u.threads[t]) == Pending(s.threads[t])
  {
  }

  lemma OwnersDistinctEndRead(s: State, t: nat)
    requires Enabled(s, EndRead(t)) && OwnersDistinct(s)
    ensures OwnersDistinct(Apply(s, EndRead(t)))
  {
    assert Pending(s.threads[t]) == Some(s.threads[t].own);
  }

  lemma OwnersDistinctLock(base: Store, s: State, t: nat, request: Request)
    requires t < |s.threads| && s.threads[t].Idle? && Inv(base, s)
    ensures OwnersDistinct(Acquire(s, t, CounterOp(request), Some(request)))
  {
    forall u | 0 <= u < |s.threads| && Pending(s.threads[u]).Some?
      ensures Pending(s.threads[u]).value < |s.log|
    {
      PendingInLog(base, s, u);
    }
    forall i | 0 <= i < |s.answers|
      ensures s.answers[i].own < |s.log|
    {
      assert AnswerFaithful(base, s.log, s.answers[i]);
    }
  }

  lemma InvStep(base: Store, s: State, a: Action)
    requires Enabled(s, a) && Inv(base, s)
    ensures Inv(base, Apply(s, a))
  {
    LockHeldStep(s, a);
    MemoryStep(base, s, a);
    CopiesStep(s, a);
    ObservedStep(base, s, a);
    OwnersDistinctStep(base, s, a);
  }

  lemma {:induction false} InvRun(base: Store, s: State, run: seq<Action>)
    requires IsRun(s, run) && Inv(base, s)
    ensures Inv(base, After(s, run))
    decreases |run|
  {
    if run != [] {
      InvStep(base, s, run[0]);
      InvRun(base, Apply(s, run[0]), run[1..]);
    }
  }

  // ---------------------------------------------------------------- what every run shows

  /** Every dump is the store after a whole prefix of the operations, never the middle of one,
      and the prefix includes every operation whose lock was released before the copy began;
      whenever nobody writes, the memory is the store after all operations. */
  lemma DumpsArePrefixes(base: Store, threads: nat, run: seq<Action>)
    requires IsRun(Init(base, threads), run)
    ensures
      var s := After(Init(base, threads), run);
      && (forall i :: 0 <= i < |s.dumps| ==> DumpFaithful(base, s.log, s.dumps[i]))
      && (s.writer.None? ==> s.mem == RunLog(base, s.log))
  {
    InvRun(base, Init(base, threads), run);
  }

  /** The deltas of `name` in the operations from `from` to `to`, added up. */
  function Added(log: seq<Op>, from: nat, to: nat, name: string): int
    requires from <= to <= |log|
  {
    if from == to then 0
    else
      Added(log, from, to - 1, name) + Share(log, to, name)
  }

  /** What operation `at - 1` adds to the counter. */
  function Share(log: seq<Op>, at: nat, name: string): int
    requires 0 < at <= |log|
  {
    if log[at - 1].Load? then 0
    else CounterSum(log[at - 1].ms[..GoodPrefix(log[at - 1].ms)], name).GetOr(0)
  }

  /** The counter before the update, plus the update's own delta, plus everything added since. */
  function Expected(base: Store, log: seq<Op>, request: Request, own: nat, at: nat): int
    requires own < at <= |log|
  {
    Count(RunLog(base, log[..own]), request.name) + request.delta + Added(log, own + 1, at, request.name)
  }

  /** One more operation that is not a load adds its share. */
  lemma OneMoreOperation(base: Store, log: seq<Op>, at: nat, name: string)
    requires 0 < at <= |log| && log[at - 1].Batch?
    ensures
      var before, st := RunLog(base, log[..at - 1]), RunLog(base, log[..at]);
      && Count(st, name) == Wrap(Count(before, name) + Share(log, at, name))
      && (name in before.counters ==> name in st.counters)
  {
    assert log[..at][..at - 1] == log[..at - 1];
    var ms := log[at - 1].ms;
    ReplayCounter(RunLog(base, log[..at - 1]), ms[..GoodPrefix(ms)], name);
  }

  lemma OwnDelta(base: Store, log: seq<Op>, request: Request, own: nat)
    requires OwnUpdate(log, request, own)
    ensures
      var before, st := RunLog(base, log[..own]), RunLog(base, log[..own + 1]);
      request.name in st.counters && Count(st, request.name) == Wrap(Count(before, request.name) + request.delta)
  {
    var ms := CounterOp(request).ms;
    assert ms[..1] == ms && ms[..0] == [] && GoodPrefix(ms) == 1;
    assert log[..own + 1][..own] == log[..own];
    ReplayCounter(RunLog(base, log[..own]), ms, request.name);
    assert CounterSum(ms[..0], request.name) == None;
  }

  /** The counter is known and is what is expected. */
  predicate Stays(base: Store, log: seq<Op>, request: Request, own: nat, at: nat)
    requires own < at <= |log|
  {
    var st := RunLog(base, log[..at]);
    request.name in st.counters && Count(st, request.name) == Wrap(Expected(base, log, request, own, at))
  }

  lemma ExpectedNext(base: Store, log: seq<Op>, request: Request, own: nat, at: nat)
    requires own + 1 < at <= |log|
    ensures Expected(base, log, request, own, at)
         == Expected(base, log, request, own, at - 1) + Share(log, at, request.name)
  {
  }

  lemma StaysStep(base: Store, log: seq<Op>, request: Request, own: nat, at: nat)
    requires own + 1 < at <= |log| && log[at - 1].Batch? && Stays(base, log, request, own, at - 1)
    ensures Stays(base, log, request, own, at)
  {
    var count := Count(RunLog(base, log[..at - 1]), request.name);
    OneMoreOperation(base, log, at, request.name);
    ExpectedNext(base, log, request, own, at);
    Chained(count, Expected(base, log, request, own, at - 1), Share(log, at, request.name));
  }

  /** As long as nothing is loaded an updated counter stays. */
  lemma {:induction false} CounterStays(base: Store, log: seq<Op>, request: Request, own: nat, at: nat)
    requires own < at <= |log| && OwnUpdate(log, request, own)
    requires forall i :: own < i < at ==> !log[i].Load?
    ensures Stays(base, log, request, own, at)
  {
    if own == at - 1 {
      OwnDelta(base, log, request, own);
    } else {
      CounterStays(base, log, request, own, at - 1);
      StaysStep(base, log, request, own, at);
    }
  }

  lemma Chained(count: int64, expected: int, share: int)
    requires count == Wrap(expected)
    ensures Wrap(count + share) == Wrap(expected + share)
  {
    WrapAdd(expected, share);
  }

  /** The JSON handler answers with the counter after a whole prefix of the operations that
      includes its own update; unless something was loaded in between, the answer is the value
      before its update plus its own delta plus what was added since. No two answers, given or
      still due, are for the same update. */
  lemma AnswersIncludeOwnUpdate(base: Store, threads: nat, run: seq<Action>, i: nat)
    requires IsRun(Init(base, threads), run) && i < |After(Init(base, threads), run).answers|
    ensures
      var s := After(Init(base, threads), run);
      var r := s.answers[i];
      && AnswerFaithful(base, s.log, r) && OwnersDistinct(s)
      && ((forall k :: r.own < k < r.at ==> !s.log[k].Load?) ==>
            r.value == Some(Wrap(Expected(base, s.log, r.request, r.own, r.at))))
  {
    InvRun(base, Init(base, threads), run);
    var s := After(Init(base, threads), run);
    AnswerExpected(base, s.log, s.answers[i]);
  }

  lemma AnswerExpected(base: Store, log: seq<Op>, r: Answer)
    requires AnswerFaithful(base, log, r)
    ensures (forall k :: r.own < k < r.at ==> !log[k].Load?) ==>
              r.value == Some(Wrap(Expected(base, log, r.request, r.own, r.at)))
  {
    if forall k :: r.own < k < r.at ==> !log[k].Load? {
      CounterStays(base, log, r.request, r.own, r.at);
    }
  }

  // ---------------------------------------------------------------- what can be done

  lemma {:induction false} Concat(s: State, first: seq<Action>, second: seq<Action>)
    requires IsRun(s, first) && IsRun(After(s, first), second)
    ensures IsRun(s, first + second) && After(s, first + second) == After(After(s, first), second)
    decreases |first|
  {
    if first == [] {
      assert first + second == second;
    } else {
      assert (first + second)[1..] == first[1..] + second;
      Concat(Apply(s, first[0]), first[1..], second);
    }
  }

  lemma Extend(s: State, run: seq<Action>, a: Action) returns (longer: seq<Action>)
    requires IsRun(s, run) && Enabled(After(s, run), a)
    ensures IsRun(s, longer) && After(s, longer) == Apply(After(s, run), a)
  {
    OneAction(After(s, run), a);
    Concat(s, run, [a]);
    longer := run + [a];
  }

  lemma OneAction(s: State, a: Action)
    requires Enabled(s, a)
    ensures IsRun(s, [a]) && After(s, [a]) == Apply(s, a)
  {
    var one, none := [a], [];
    assert one[0] == a && one[1..] == none;
    assert IsRun(Apply(s, a), none) && After(Apply(s, a), none) == Apply(s, a);
  }

  /** A thread that is in the middle of something, or another one, can always go on: the lock never
      blocks everybody. */
  lemma SomeoneGoesOn(base: Store, s: State, t: nat) returns (a: Action)
    requires Inv(base, s) && t < |s.threads| && !s.threads[t].Idle?
    ensures Enabled(s, a) && !s.threads[a.t].Idle?
  {
    if s.writer.Some? {
      var w := s.writer.value;
      a := if s.threads[w].i < Steps(s.threads[w].op) then WriteStep(w) else Unlock(w);
    } else {
      match s.threads[t]
      case Copying(_, gauges, counters, _) =>
        assert CopyOf(s.threads[t], s.mem);
        if gauges != {} {
          var name :| name in gauges;
          a := CopyGauge(t, name);
        } else if counters != {} {
          var name :| name in counters;
          a := CopyCounter(t, name);
        } else {
          a := EndCopy(t);
        }
      case Copied(_) =>
        a := WriteFile(t);
      case Updated(_, _) =>
        a := StartRead(t);
      case Reading(_, _) =>
        a := EndRead(t);
    }
  }

  /** Thread `t` writes the rest of its operation. */
  lemma {:induction false} WritesOn(st: Store, s: State, t: nat) returns (run: seq<Action>)
    requires t < |s.threads| && s.threads[t].Writing? && s.threads[t].i <= Steps(s.threads[t].op)
    requires s.mem == Partial(st, s.threads[t].op, s.threads[t].i)
    ensures IsRun(s, run)
    ensures
      var th := s.threads[t];
      After(s, run) == s.(mem := Effect(st, th.op), threads := s.threads[t := th.(i := Steps(th.op))])
    decreases Steps(s.threads[t].op) - s.threads[t].i
  {
    var th := s.threads[t];
    if th.i == Steps(th.op) {
      run := [];
      PartialIsEffect(st, th.op);
      assert s.threads[t := th] == s.threads;
    } else {
      var u := Apply(s, WriteStep(t));
      var rest := WritesOn(st, u, t);
      run := [WriteStep(t)] + rest;
      assert run[1..] == rest;
      assert u.threads[t := th.(i := Steps(th.op))] == s.threads[t := th.(i := Steps(th.op))];
    }
  }

  /** When nobody holds the lock, an idle thread can carry out any operation. */
  lemma OperationCompletes(s: State, t: nat, op: Op) returns (run: seq<Action>)
    requires t < |s.threads| && s.threads[t].Idle? && s.writer.None? && s.readers == {}
    ensures IsRun(s, run) && After(s, run) == s.(mem := Effect(s.mem, op), log := s.log + [op])
  {
    run := Extend(s, [], Lock(t, op));
    var rest := WritesOn(s.mem, After(s, run), t);
    Concat(s, run, rest);
    run := Extend(s, run + rest, Unlock(t));
    assert After(s, run).threads == s.threads;
  }

  /** A thread that has made its update can read the counter back, whoever else is reading. */
  lemma ReadsBack(s: State, t: nat) returns (run: seq<Action>)
    requires t < |s.threads| && s.threads[t].Updated? && s.writer.None? && t !in s.readers
    requires s.threads[t].request.name in s.mem.counters
    ensures IsRun(s, run)
    ensures
      var th := s.threads[t];
      var answer := Answer(th.request, th.own, Some(s.mem.counters[th.request.name]), |s.log|);
      After(s, run) == s.(threads := s.threads[t := Idle], answers := s.answers + [answer])
  {
    run := Extend(s, [], StartRead(t));
    run := Extend(s, run, EndRead(t));
    assert After(s, run).readers == s.readers;
  }

  /** When nobody holds the lock, an idle thread can make the update of a JSON request. */
  lemma RequestUpdates(s: State, t: nat, request: Request) returns (run: seq<Action>)
    requires t < |s.threads| && s.threads[t].Idle? && s.writer.None? && s.readers == {}
    ensures IsRun(s, run)
    ensures
      After(s, run)
      == s.(mem := AddCounter(s.mem, request.name, request.delta), log := s.log + [CounterOp(request)],
            threads := s.threads[t := Updated(request, |s.log|)])
  {
    OneCounter(s.mem, request);
    run := Extend(s, [], LockForJSON(t, request));
    var rest := WritesOn(s.mem, After(s, run), t);
    Concat(s, run, rest);
    run := Extend(s, run + rest, Unlock(t));
  }

  /** And it can answer with the counter it has just updated. */
  lemma RequestCompletes(s: State, t: nat, request: Request) returns (run: seq<Action>)
    requires t < |s.threads| && s.threads[t].Idle? && s.writer.None? && s.readers == {}
    ensures IsRun(s, run)
    ensures
      var mem := AddCounter(s.mem, request.name, request.delta);
      var answer := Answer(request, |s.log|, Some(Count(mem, request.name)), |s.log| + 1);
      && Count(mem, request.name) == Wrap(Count(s.mem, request.name) + request.delta)
      && After(s, run) == s.(mem := mem, log := s.log + [CounterOp(request)], answers := s.answers + [answer])
  {
    var update := RequestUpdates(s, t, request);
    var u := After(s, update);
    var back := ReadsBack(u, t);
    Concat(s, update, back);
    run := update + back;
    assert u.threads[t := Idle] == s.threads;
  }

  lemma OneCounter(st: Store, request: Request)
    ensures Effect(st, CounterOp(request)) == AddCounter(st, request.name, request.delta)
  {
    var ms := CounterOp(request).ms;
    assert ms[..1] == ms && ms[..0] == [] && GoodPrefix(ms) == 1;
    assert Replay(st, ms) == Update(Replay(st, ms[..0]), ms[0]);
  }

  lemma {:induction false} CopiesOn(s: State, t: nat) returns (run: seq<Action>)
    requires t < |s.threads| && s.threads[t].Copying? && CopyOf(s.threads[t], s.mem)
    ensures IsRun(s, run)
    ensures
      var unlocked := s.threads[t].unlocked;
      After(s, run) == s.(threads := s.threads[t := Copying(s.mem, {}, {}, unlocked)])
    decreases |s.threads[t].gaugesLeft| + |s.threads[t].countersLeft|
  {
    var th := s.threads[t];
    if th.gaugesLeft == {} && th.countersLeft == {} {
      run := [];
      assert th.dump.gauges == s.mem.gauges && th.dump.counters == s.mem.counters;
      assert s.threads[t := th] == s.threads;
    } else {
      var a := NextCopy(s, t);
      var rest := CopiesOn(Apply(s, a), t);
      run := [a] + rest;
      assert run[1..] == rest;
    }
  }

  lemma NextCopy(s: State, t: nat) returns (a: Action)
    requires t < |s.threads| && s.threads[t].Copying? && CopyOf(s.threads[t], s.mem)
    requires s.threads[t].gaugesLeft != {} || s.threads[t].countersLeft != {}
    ensures Enabled(s, a) && (a.CopyGauge? || a.CopyCounter?) && a.t == t
    ensures
      var th, u := s.threads[t], Apply(s, a).threads[t];
      && u.Copying? && CopyOf(u, s.mem) && u.unlocked == th.unlocked
      && |u.gaugesLeft| + |u.countersLeft| < |th.gaugesLeft| + |th.countersLeft|
  {
    var th := s.threads[t];
    if th.gaugesLeft != {} {
      var name :| name in th.gaugesLeft;
      a := CopyGauge(t, name);
      assert Apply(s, a).threads[t].dump.gauges == s.mem.gauges - (th.gaugesLeft - {name});
    } else {
      var name :| name in th.countersLeft;
      a := CopyCounter(t, name);
      assert Apply(s, a).threads[t].dump.counters == s.mem.counters - (th.countersLeft - {name});
    }
  }

  /** When nobody writes, an idle thread can save, whoever else is reading: it copies the memory. */
  lemma SaveCompletes(s: State, t: nat) returns (run: seq<Action>)
    requires t < |s.threads| && s.threads[t].Idle? && s.writer.None? && t !in s.readers
    ensures IsRun(s, run)
    ensures After(s, run) == s.(dumps := s.dumps + [DumpTaken(s.mem, |s.log|, |s.log|)])
  {
    run := Extend(s, [], StartCopy(t));
    var begun := After(s, run);
    assert begun.threads[t].dump.gauges == s.mem.gauges - begun.threads[t].gaugesLeft;
    assert begun.threads[t].dump.counters == s.mem.counters - begun.threads[t].countersLeft;
    var rest := CopiesOn(begun, t);
    Concat(s, run, rest);
    run := Extend(s, run + rest, EndCopy(t));
    run := Extend(s, run, WriteFile(t));
    assert After(s, run).threads == s.threads && After(s, run).readers == s.readers;
  }
}
