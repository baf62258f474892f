/**
 Server lifetimes: boot with two loads, periodic saves beside the traffic, an ordered
 shutdown with a final save, and boot again. One action is one atomic step of the main
 goroutine, of the periodic saver or of the world (a write request, a kill).
 */
module Durability {
  import opened Wrappers
  import opened Int64
  import opened Metrics
  import opened MemStorage

  /** `hasPath`: the storage path is not empty; `periodic`: the store interval is positive. */
  datatype Config = Config(restore: bool, hasPath: bool, periodic: bool)

  /** The periodic saver. It copies the store under the lock and writes the file afterwards. */
  datatype Saver = Off | Waiting | Holding(dump: Store) | Gone

  /** The main goroutine. */
  datatype Phase =
    | Down
    | Initialized
    | Serving
    | Drained                    // HTTP server shut down
    | Stopping                   // stopped set, context cancelled, waiting for the saver
    | StopDone
    | FinalSave(dump: Store)

  /** `base` and `live` say what the memory is made of: the store the server line started from
      and the updates applied since. `savedBase`, `savedLive` say the same of the file, and
      `copied` how many updates the saver's copy contains. `accepted` counts every update ever
      applied. `killed` and `failedFinal` record kills and failed final saves. */
  datatype State = State(
    phase: Phase,
    mem: Store,
    file: FileContent,
    saver: Saver,
    base: Store,
    live: seq<Metric>,
    savedBase: Store,
    savedLive: seq<Metric>,
    copied: nat,
    accepted: seq<Metric>,
    killed: bool,
    failedFinal: bool)

  datatype Action =
    | Boot
    | StartManager
    | Write(m: Metric)
    | SaverCopy
    | SaverWrite(createFails: bool)
    | SaverExit
    | ShutdownHTTP
    | SignalStop
    | SaverJoined
    | FinalCopy
    | FinalWrite(createFails: bool)
    | Kill

  /** Before the first boot: a file holding `saved`, or no usable file (then `saved` is empty). */
  function Init(file: FileContent): State {
    var saved := Decoded(file, EMPTY);
    State(Down, EMPTY, file, Off, saved, [], saved, [], 0, [], false, false)
  }

  predicate Enabled(c: Config, s: State, a: Action) {
    match a
    case Boot => s.phase.Down?
    case StartManager => s.phase.Initialized?
    case Write(m) => s.phase.Serving? && WellFormed(m)
    case SaverCopy => s.saver.Waiting? && !s.phase.Down?
    case SaverWrite(_) => s.saver.Holding? && !s.phase.Down?
    case SaverExit => s.saver.Waiting? && s.phase.Stopping?
    case ShutdownHTTP => s.phase.Serving?
    case SignalStop => s.phase.Drained?
    case SaverJoined => s.phase.Stopping? && (s.saver.Off? || s.saver.Gone?)
    case FinalCopy => s.phase.StopDone?
    case FinalWrite(_) => s.phase.FinalSave?
    case Kill => !s.phase.Down?
  }

  /** The store after an attempt to restore it from the file. */
  function Loaded(c: Config, content: FileContent, current: Store): Store {
    if c.restore && c.hasPath then Decoded(content, current) else current
  }

  /** The file after an attempt to save the store. */
  function Saved(c: Config, content: FileContent, st: Store, createFails: bool): FileContent {
    if c.hasPath && !createFails then Encoded(st) else content
  }

  /** Loading into a store that holds what `s` holds. */
  function LoadInto(c: Config, s: State): State {
    var t := s.(mem := Loaded(c, s.file, s.mem));
    if c.restore && c.hasPath && s.file.Dump? then t.(base := s.savedBase, live := s.savedLive) else t
  }

  /** `dump`, made of `base` and `live`, is written to the file. */
  function SaveTo(c: Config, s: State, dump: Store, live: seq<Metric>, createFails: bool): State {
    var t := s.(file := Saved(c, s.file, dump, createFails));
    if c.hasPath && !createFails then t.(savedBase := s.base, savedLive := live) else t
  }

  function Apply(c: Config, s: State, a: Action): State
    requires Enabled(c, s, a)
  {
    match a
    case Boot => LoadInto(c, s.(phase := Initialized, mem := EMPTY, base := EMPTY, live := [], saver := Off))
    case StartManager => LoadInto(c, s.(phase := Serving, saver := if c.periodic then Waiting else Off))
    case Write(m) => s.(mem := Update(s.mem, m), live := s.live + [m], accepted := s.accepted + [m])
    case SaverCopy => s.(saver := Holding(s.mem), copied := |s.live|)
    case SaverWrite(createFails) =>
      var live := if s.copied <= |s.live| then s.live[..s.copied] else [];
      SaveTo(c, s, s.saver.dump, live, createFails).(saver := Waiting)
    case SaverExit => s.(saver := Gone)
    case ShutdownHTTP => s.(phase := Drained)
    case SignalStop => s.(phase := Stopping)
    case SaverJoined => s.(phase := StopDone)
    case FinalCopy => s.(phase := FinalSave(s.mem))
    case FinalWrite(createFails) =>
      SaveTo(c, s, s.phase.dump, s.live, createFails).(phase := Down, failedFinal := s.failedFinal || createFails)
    case Kill => s.(phase := Down, killed := true)
  }

  predicate IsRun(c: Config, s: State, run: seq<Action>)
    decreases |run|
  {
    run == [] || (Enabled(c, s, run[0]) && IsRun(c, Apply(c, s, run[0]), run[1..]))
  }

  function After(c: Config, s: State, run: seq<Action>): State
    requires IsRun(c, s, run)
    decreases |run|
  {
    if run == [] then s else After(c, Apply(c, s, run[0]), run[1..])
  }

  predicate AllGaugesFinite(ms: seq<Metric>) {
    forall i :: 0 <= i < |ms| && IsGauge(ms[i]) ==> ms[i].value.value.Finite?
  }

  // ---------------------------------------------------------------- invariants

  /** The memory, the saver's copy and the file are what their histories say. */
  predicate Recorded(c: Config, s: State) {
    && (!s.phase.Down? ==> s.mem == Replay(s.base, s.live))
    && (s.file.Dump? ==> s.file.store == Replay(s.savedBase, s.savedLive))
    && (!s.phase.Down? && s.saver.Holding? ==>
          s.copied <= |s.live| && s.saver.dump == Replay(s.base, s.live[..s.copied]))
    && (s.phase.FinalSave? ==> s.phase.dump == s.mem)
    && (s.phase.StopDone? || s.phase.FinalSave? ==> s.saver.Off? || s.saver.Gone?)
    && (s.phase.Initialized? ==> s.saver.Off? && LoadInto(c, s) == s)
  }

  /** With restore on, the file is never ahead of the memory: what it holds is a prefix. */
  predicate FileBehind(c: Config, s: State) {
    c.restore && c.hasPath && !s.phase.Down? && s.file.Dump? ==> s.savedBase == s.base && s.savedLive <= s.live
  }

  /** Nothing was ever lost. */
  predicate Clean(s: State, start: Store) {
    && !s.killed && !s.failedFinal
    && (!s.phase.Down? ==> s.base == start && s.live == s.accepted)
    && (s.phase.Down? || s.phase.Initialized? ==>
          if s.file.Dump? then s.savedBase == start && s.savedLive == s.accepted
          else start == EMPTY && s.accepted == [])
  }

  lemma RecordedStep(c: Config, s: State, a: Action)
    requires Enabled(c, s, a) && Recorded(c, s)
    ensures Recorded(c, Apply(c, s, a))
  {
    if a.Write? {
      ReplaySnoc(s.base, s.live, a.m);
      if s.saver.Holding? {
        assert (s.live + [a.m])[..s.copied] == s.live[..s.copied];
      }
    } else if a.SaverCopy? {
      assert s.live[..|s.live|] == s.live;
    }
  }

  lemma FileBehindStep(c: Config, s: State, a: Action)
    requires Enabled(c, s, a) && Recorded(c, s) && FileBehind(c, s)
    ensures FileBehind(c, Apply(c, s, a))
  {
  }

  predicate Inv(c: Config, s: State) {
    Recorded(c, s) && FileBehind(c, s)
  }

  lemma {:induction false} InvRun(c: Config, s: State, run: seq<Action>)
    requires IsRun(c, s, run) && Inv(c, s)
    ensures Inv(c, After(c, s, run))
    decreases |run|
  {
    if run != [] {
      RecordedStep(c, s, run[0]);
      FileBehindStep(c, s, run[0]);
      InvRun(c, Apply(c, s, run[0]), run[1..]);
    }
  }

  // ---------------------------------------------------------------- clean lifetimes

  lemma {:induction false} ReplayFinite(st: Store, ms: seq<Metric>)
    requires AllFinite(st) && AllGaugesFinite(ms)
    ensures AllFinite(Replay(st, ms))
  {
    if ms != [] {
      ReplayFinite(st, ms[..|ms| - 1]);
    }
  }

  lemma CleanStep(c: Config, s: State, a: Action, start: Store)
    requires Enabled(c, s, a) && Recorded(c, s) && Clean(s, start)
    requires c.restore && c.hasPath && AllFinite(start) && AllGaugesFinite(s.accepted)
    requires !Apply(c, s, a).killed && !Apply(c, s, a).failedFinal
    ensures Clean(Apply(c, s, a), start)
  {
    if a.FinalWrite? {
      ReplayFinite(start, s.accepted);
    }
  }

  /** Histories only grow. */
  lemma {:induction false} RunGrows(c: Config, s: State, run: seq<Action>)
    requires IsRun(c, s, run)
    ensures
      var t := After(c, s, run);
      s.accepted <= t.accepted && (s.killed ==> t.killed) && (s.failedFinal ==> t.failedFinal)
    decreases |run|
  {
    if run != [] {
      RunGrows(c, Apply(c, s, run[0]), run[1..]);
    }
  }

  lemma {:induction false} CleanRun(c: Config, s: State, run: seq<Action>, start: Store)
    requires IsRun(c, s, run) && Inv(c, s) && Clean(s, start)
    requires c.restore && c.hasPath && AllFinite(start) && AllGaugesFinite(After(c, s, run).accepted)
    requires !After(c, s, run).killed && !After(c, s, run).failedFinal
    ensures Clean(After(c, s, run), start)
    decreases |run|
  {
    RunGrows(c, s, run);
    if run != [] {
      var t := Apply(c, s, run[0]);
      RunGrows(c, t, run[1..]);
      assert AllGaugesFinite(s.accepted);
      CleanStep(c, s, run[0], start);
      RecordedStep(c, s, run[0]);
      FileBehindStep(c, s, run[0]);
      CleanRun(c, t, run[1..], start);
    }
  }

  /** Over any number of lifetimes that nobody kills and whose final saves find their file,
      with restore on, a storage path and finite gauges: the server holds exactly the updates
      it ever accepted, on top of what the first file held, and between lifetimes the file
      does. Every counter is the wrapped sum of all its deltas and every gauge its last value.
      Periodic saves may fail as they like. */
  lemma LifetimesKeepEverything(c: Config, file: FileContent, run: seq<Action>, name: string)
    requires IsRun(c, Init(file), run) && c.restore && c.hasPath
    requires AllFinite(Decoded(file, EMPTY)) && AllGaugesFinite(After(c, Init(file), run).accepted)
    requires !After(c, Init(file), run).killed && !After(c, Init(file), run).failedFinal
    ensures
      var s := After(c, Init(file), run);
      var start := Decoded(file, EMPTY);
      var held := if s.phase.Down? then Decoded(s.file, EMPTY) else s.mem;
      && held == Replay(start, s.accepted)
      && Count(held, name) == Wrap(Count(start, name) + CounterSum(s.accepted, name).GetOr(0))
      && (LastGauge(s.accepted, name).Some? ==>
            name in held.gauges && held.gauges[name] == LastGauge(s.accepted, name).value)
  {
    var s := After(c, Init(file), run);
    var start := Decoded(file, EMPTY);
    InvRun(c, Init(file), run);
    CleanRun(c, Init(file), run, start);
    ReplayCounter(start, s.accepted, name);
    ReplayGauge(start, s.accepted, name);
  }

  // ---------------------------------------------------------------- single steps of a lifetime

  /** The second load of a boot finds what the first one found. */
  lemma SecondLoadChangesNothing(c: Config, file: FileContent, run: seq<Action>)
    requires IsRun(c, Init(file), run) && After(c, Init(file), run).phase.Initialized?
    ensures
      var s := After(c, Init(file), run);
      Apply(c, s, StartManager) == s.(phase := Serving, saver := if c.periodic then Waiting else Off)
  {
    InvRun(c, Init(file), run);
  }

  /** Once `Stop` has returned, no periodic save can start or finish, so nothing overwrites
      the final save with an older copy. */
  lemma NoSaveAfterStop(c: Config, file: FileContent, run: seq<Action>, a: Action)
    requires IsRun(c, Init(file), run)
    requires After(c, Init(file), run).phase.StopDone? || After(c, Init(file), run).phase.FinalSave?
    requires Enabled(c, After(c, Init(file), run), a)
    ensures !a.SaverCopy? && !a.SaverWrite?
    ensures a.FinalWrite? && !a.createFails && c.hasPath ==>
              Apply(c, After(c, Init(file), run), a).file == Encoded(After(c, Init(file), run).mem)
  {
    InvRun(c, Init(file), run);
  }

  /** A shutdown and restart bring the memory back exactly when every gauge is finite: a NaN or
      an infinity makes the final save leave an unreadable file. */
  lemma RestartRestoresIff(c: Config, file: FileContent, run: seq<Action>)
    requires IsRun(c, Init(file), run) && c.restore && c.hasPath
    requires After(c, Init(file), run).phase.FinalSave?
    ensures
      var s := After(c, Init(file), run);
      Apply(c, Apply(c, s, FinalWrite(false)), Boot).mem == s.mem <==> AllFinite(s.mem)
  {
    InvRun(c, Init(file), run);
    var s := After(c, Init(file), run);
    if !AllFinite(s.mem) {
      var name :| name in s.mem.gauges && !s.mem.gauges[name].Finite?;
      assert name !in EMPTY.gauges;
    }
  }

  lemma {:induction false} Extend(c: Config, s: State, run: seq<Action>, a: Action) returns (longer: seq<Action>)
    requires IsRun(c, s, run) && Enabled(c, After(c, s, run), a)
    ensures IsRun(c, s, longer) && After(c, s, longer) == Apply(c, After(c, s, run), a)
    decreases |run|
  {
    if run == [] {
      longer := [a];
      assert longer[1..] == [];
    } else {
      var rest := Extend(c, Apply(c, s, run[0]), run[1..], a);
      longer := [run[0]] + rest;
      assert longer[1..] == rest;
    }
  }

  /** One NaN is enough: a server started without a file that accepts it does not come back with
      what it held, although every save finds its file. */
  lemma NaNIsLost(c: Config, name: string, bits: nat) returns (run: seq<Action>)
    requires c.restore && c.hasPath
    ensures IsRun(c, Init(Missing), run) && After(c, Init(Missing), run).phase.FinalSave?
    ensures
      var s := After(c, Init(Missing), run);
      !s.killed && Apply(c, Apply(c, s, FinalWrite(false)), Boot).mem != s.mem
  {
    var s := Init(Missing);
    var nan := Metric(name, GAUGE, None, Some(NotFinite(bits)), "");
    run := Extend(c, s, [], Boot);
    run := Extend(c, s, run, StartManager);
    run := Extend(c, s, run, Write(nan));
    var served := After(c, s, run);
    assert name in served.mem.gauges && !served.mem.gauges[name].Finite?;
    run := Extend(c, s, run, ShutdownHTTP);
    run := Extend(c, s, run, SignalStop);
    if c.periodic {
      run := Extend(c, s, run, SaverExit);
    }
    run := Extend(c, s, run, SaverJoined);
    run := Extend(c, s, run, FinalCopy);
    assert After(c, s, run).mem == served.mem;
    RestartRestoresIff(c, Missing, run);
  }

  /** A kill between file writes loses a suffix of the updates at most: with a readable file the
      next boot holds the store after a prefix of them. */
  lemma KillLosesASuffix(c: Config, file: FileContent, run: seq<Action>)
    requires IsRun(c, Init(file), run) && c.restore && c.hasPath
    requires !After(c, Init(file), run).phase.Down? && After(c, Init(file), run).file.Dump?
    ensures
      var s := After(c, Init(file), run);
      && s.mem == Replay(s.base, s.live) && s.savedLive <= s.live
      && Apply(c, Apply(c, s, Kill), Boot).mem == Replay(s.base, s.savedLive)
  {
    InvRun(c, Init(file), run);
  }

  // ---------------------------------------------------------------- what a server can do

  lemma {:induction false} Concat(c: Config, s: State, first: seq<Action>, second: seq<Action>)
    requires IsRun(c, s, first) && IsRun(c, After(c, s, first), second)
    ensures IsRun(c, s, first + second) && After(c, s, first + second) == After(c, After(c, s, first), second)
    decreases |first|
  {
    if first == [] {
      assert first + second == second;
    } else {
      assert (first + second)[1..] == first[1..] + second;
      Concat(c, Apply(c, s, first[0]), first[1..], second);
    }
  }

  /** Whenever the server serves, or waits for its saver to stop, a saver that waits for its ticker
      can save, and the file then holds the memory. */
  lemma SaveNow(c: Config, s: State)
    requires s.saver.Waiting? && (s.phase.Serving? || s.phase.Stopping?) && c.hasPath
    ensures IsRun(c, s, [SaverCopy, SaverWrite(false)])
    ensures
      var t := After(c, s, [SaverCopy, SaverWrite(false)]);
      && t.file == Encoded(s.mem) && t.savedBase == s.base && t.savedLive == s.live
      && t.saver.Waiting? && t.phase == s.phase && t.mem == s.mem
  {
    assert [SaverCopy, SaverWrite(false)][1..] == [SaverWrite(false)] && [SaverWrite(false)][1..] == [];
    assert s.live[..|s.live|] == s.live;
  }

  /** While it serves, the server takes any well-formed updates. */
  lemma {:induction false} Served(c: Config, s: State, ms: seq<Metric>) returns (run: seq<Action>)
    requires s.phase.Serving? && AllWellFormed(ms)
    ensures IsRun(c, s, run)
    ensures After(c, s, run) == s.(mem := Replay(s.mem, ms), live := s.live + ms, accepted := s.accepted + ms)
  {
    if ms == [] {
      run := [];
      assert s.live + ms == s.live && s.accepted + ms == s.accepted;
    } else {
      var before := Served(c, s, ms[..|ms| - 1]);
      run := Extend(c, s, before, Write(ms[|ms| - 1]));
      assert ms == ms[..|ms| - 1] + [ms[|ms| - 1]];
      assert s.live + ms[..|ms| - 1] + [ms[|ms| - 1]] == s.live + ms;
      assert s.accepted + ms[..|ms| - 1] + [ms[|ms| - 1]] == s.accepted + ms;
    }
  }

  /** A server that serves can be shut down, and its memory is then in the file. */
  lemma ShutsDown(c: Config, s: State) returns (run: seq<Action>)
    requires s.phase.Serving? && (s.saver.Off? || s.saver.Waiting?)
    ensures IsRun(c, s, run)
    ensures
      var t := After(c, s, run);
      && t.phase.Down? && t.file == Saved(c, s.file, s.mem, false) && t.accepted == s.accepted
      && t.killed == s.killed && t.failedFinal == s.failedFinal
  {
    run := Extend(c, s, [], ShutdownHTTP);
    run := Extend(c, s, run, SignalStop);
    if s.saver.Waiting? {
      run := Extend(c, s, run, SaverExit);
    }
    run := Extend(c, s, run, SaverJoined);
    run := Extend(c, s, run, FinalCopy);
    run := Extend(c, s, run, FinalWrite(false));
  }

  /** From any point between two lifetimes the server can be started, take any well-formed updates
      and be shut down; the file then holds what was loaded with the updates on top. */
  lemma LifetimeCompletes(c: Config, s: State, ms: seq<Metric>) returns (run: seq<Action>)
    requires s.phase.Down? && AllWellFormed(ms)
    ensures IsRun(c, s, run)
    ensures
      var t := After(c, s, run);
      && t.phase.Down? && t.accepted == s.accepted + ms
      && t.file == Saved(c, s.file, Replay(Loaded(c, s.file, EMPTY), ms), false)
  {
    run := Extend(c, s, [], Boot);
    run := Extend(c, s, run, StartManager);
    var served := Served(c, After(c, s, run), ms);
    Concat(c, s, run, served);
    run := run + served;
    var stop := ShutsDown(c, After(c, s, run));
    Concat(c, s, run, stop);
    run := run + stop;
  }
}
