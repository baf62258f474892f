/**
 The PostgreSQL store: one table with a unique key (name, type), upserts, transactions,
 and the retries around them.
 */
module Database {
  import opened Wrappers
  import opened Int64
  import opened Metrics
  import opened MemStorage
  import Retry

  datatype Row = Row(name: string, mtype: string, value: Option<Float64>, delta: Option<int64>)

  type Table = seq<Row>

  datatype DbError =
    | Connection(code: int)        // the attempt failed outside the statements
    | NameRejected(name: string)   // longer than VARCHAR(255), or holding a zero character
    | OutOfRange(name: string)     // the sum does not fit a BIGINT
    | UnknownMetric(mtype: string)
    | NotFound(name: string)

  predicate NameAccepted(name: string) {
    |name| <= 255 && '\0' !in name
  }

  predicate RowAt(t: Table, i: nat, name: string, mtype: string) {
    i < |t| && t[i].name == name && t[i].mtype == mtype
  }

  /** The position of the first row with this key at or after `from`, or the table's length. */
  function Find(t: Table, name: string, mtype: string, from: nat := 0): (i: nat)
    requires from <= |t|
    ensures from <= i <= |t|
    ensures i < |t| ==> RowAt(t, i, name, mtype)
    ensures forall j :: from <= j < i ==> !RowAt(t, j, name, mtype)
    decreases |t| - from
  {
    if from == |t| || RowAt(t, from, name, mtype) then from else Find(t, name, mtype, from + 1)
  }

  /** INSERT .. ON CONFLICT (name, type) DO UPDATE SET value. */
  function UpsertGauge(t: Table, name: string, value: Float64): Result<Table, DbError> {
    if !NameAccepted(name) then Failure(NameRejected(name))
    else
      var i := Find(t, name, GAUGE);
      Success(if i < |t| then t[i := t[i].(value := Some(value))] else t + [Row(name, GAUGE, Some(value), None)])
  }

  /** INSERT .. ON CONFLICT (name, type) DO UPDATE SET delta = metrics.delta + delta; adding to
      NULL gives NULL, and a sum outside BIGINT is an error. */
  function UpsertCounter(t: Table, name: string, delta: int64): Result<Table, DbError> {
    if !NameAccepted(name) then Failure(NameRejected(name))
    else
      var i := Find(t, name, COUNTER);
      if i == |t| then Success(t + [Row(name, COUNTER, None, Some(delta))])
      else if t[i].delta.None? then Success(t)
      else if !InRange(t[i].delta.value + delta) then Failure(OutOfRange(name))
      else Success(t[i := t[i].(delta := Some(t[i].delta.value + delta))])
  }

  /** One iteration of the transaction's loop: metrics without their value are skipped. */
  function ExecMetric(t: Table, m: Metric): Result<Table, DbError> {
    if m.mtype == GAUGE then
      if m.value.None? then Success(t) else UpsertGauge(t, m.id, m.value.value)
    else if m.mtype == COUNTER then
      if m.delta.None? then Success(t) else UpsertCounter(t, m.id, m.delta.value)
    else Failure(UnknownMetric(m.mtype))
  }

  /** The whole transaction; a failed statement rolls it back. */
  function ExecBatch(t: Table, ms: seq<Metric>): Result<Table, DbError> {
    if ms == [] then Success(t)
    else
      var before := ExecBatch(t, ms[..|ms| - 1]);
      if before.Failure? then before else ExecMetric(before.value, ms[|ms| - 1])
  }

  /** The first failing statement decides. */
  lemma {:induction false} FailureSticks(t: Table, ms: seq<Metric>, n: nat)
    requires n <= |ms| && ExecBatch(t, ms[..n]).Failure?
    ensures ExecBatch(t, ms) == ExecBatch(t, ms[..n])
  {
    if n == |ms| {
      assert ms[..n] == ms;
    } else {
      assert ms[..|ms| - 1][..n] == ms[..n];
      FailureSticks(t, ms[..|ms| - 1], n);
    }
  }

  /** The transaction's loop on its own copy of the table; returning early drops the copy. */
  method Transaction(t: Table, metrics: seq<Metric>) returns (r: Result<Table, DbError>)
    ensures r == ExecBatch(t, metrics)
  {
    var tx := t;
    for i := 0 to |metrics|
      invariant ExecBatch(t, metrics[..i]) == Success(tx)
    {
      var m := metrics[i];
      assert metrics[..i + 1][..i] == metrics[..i];
      var step: Result<Table, DbError>;
      if m.mtype == GAUGE {
        if m.value.None? {
          continue;
        }
        step := UpsertGauge(tx, m.id, m.value.value);
      } else if m.mtype == COUNTER {
        if m.delta.None? {
          continue;
        }
        step := UpsertCounter(tx, m.id, m.delta.value);
      } else {
        step := Failure(UnknownMetric(m.mtype));
      }
      if step.Failure? {
        FailureSticks(t, metrics, i + 1);
        return step;
      }
      tx := step.value;
    }
    assert metrics[..|metrics|] == metrics;
    r := Success(tx);
  }

  // ---------------------------------------------------------------- reachable tables

  /** One row per (name, type), and the column its type needs is not null. */
  predicate Consistent(t: Table) {
    && (forall i, j :: 0 <= i < j < |t| ==> t[i].name != t[j].name || t[i].mtype != t[j].mtype)
    && (forall i :: 0 <= i < |t| ==>
          || (t[i].mtype == GAUGE && t[i].value.Some?)
          || (t[i].mtype == COUNTER && t[i].delta.Some?))
  }

  ghost function GaugesOf(t: Table): map<string, Float64>
    requires Consistent(t)
  {
    map r | r in t && r.mtype == GAUGE :: r.name := r.value.value
  }

  ghost function CountersOf(t: Table): map<string, int64>
    requires Consistent(t)
  {
    map r | r in t && r.mtype == COUNTER :: r.name := r.delta.value
  }

  /** The two maps a table stands for. */
  ghost function Abstract(t: Table): Store
    requires Consistent(t)
  {
    Store(GaugesOf(t), CountersOf(t))
  }

  lemma GaugeRows(t: Table)
    requires Consistent(t)
    ensures forall i :: 0 <= i < |t| && t[i].mtype == GAUGE ==>
              t[i].name in GaugesOf(t) && GaugesOf(t)[t[i].name] == t[i].value.value
    ensures forall n :: n in GaugesOf(t) ==> exists i: nat :: RowAt(t, i, n, GAUGE)
  {
    forall n | n in GaugesOf(t)
      ensures exists i: nat :: RowAt(t, i, n, GAUGE)
    {
      var i :| 0 <= i < |t| && t[i].name == n && t[i].mtype == GAUGE;
      assert RowAt(t, i, n, GAUGE);
    }
    forall i | 0 <= i < |t| && t[i].mtype == GAUGE
      ensures t[i].name in GaugesOf(t) && GaugesOf(t)[t[i].name] == t[i].value.value
    {
      assert t[i] in t;
    }
  }

  lemma CounterRows(t: Table)
    requires Consistent(t)
    ensures forall i :: 0 <= i < |t| && t[i].mtype == COUNTER ==>
              t[i].name in CountersOf(t) && CountersOf(t)[t[i].name] == t[i].delta.value
    ensures forall n :: n in CountersOf(t) ==> exists i: nat :: RowAt(t, i, n, COUNTER)
  {
    forall n | n in CountersOf(t)
      ensures exists i: nat :: RowAt(t, i, n, COUNTER)
    {
      var i :| 0 <= i < |t| && t[i].name == n && t[i].mtype == COUNTER;
      assert RowAt(t, i, n, COUNTER);
    }
    forall i | 0 <= i < |t| && t[i].mtype == COUNTER
      ensures t[i].name in CountersOf(t) && CountersOf(t)[t[i].name] == t[i].delta.value
    {
      assert t[i] in t;
    }
  }

  /** `u` is `t` with row `i` replaced, or added at the end, keeping its key new. */
  predicate OneRowSet(t: Table, u: Table, i: nat) {
    && i <= |t| && i < |u| && |u| == (if i < |t| then |t| else |t| + 1)
    && (forall j :: 0 <= j < |t| && j != i ==> u[j] == t[j])
    && (if i < |t| then u[i].name == t[i].name && u[i].mtype == t[i].mtype
        else forall j :: 0 <= j < |t| ==> !RowAt(t, j, u[i].name, u[i].mtype))
  }

  lemma StaysConsistent(t: Table, u: Table, i: nat)
    requires Consistent(t) && OneRowSet(t, u, i)
    requires (u[i].mtype == GAUGE && u[i].value.Some?) || (u[i].mtype == COUNTER && u[i].delta.Some?)
    ensures Consistent(u)
  {
    forall j, k | 0 <= j < k < |u|
      ensures u[j].name != u[k].name || u[j].mtype != u[k].mtype
    {
      assert j == i || u[j] == t[j];
      assert k == i || u[k] == t[k];
      assert i == |t| && k == i ==> !RowAt(t, j, u[i].name, u[i].mtype);
    }
  }

  lemma GaugeOfRow(t: Table, i: nat)
    requires Consistent(t) && i < |t| && t[i].mtype == GAUGE
    ensures t[i].name in GaugesOf(t) && GaugesOf(t)[t[i].name] == t[i].value.value
  {
    GaugeRows(t);
  }

  lemma RowOfGauge(t: Table, n: string) returns (i: nat)
    requires Consistent(t) && n in GaugesOf(t)
    ensures RowAt(t, i, n, GAUGE) && GaugesOf(t)[n] == t[i].value.value
  {
    GaugeRows(t);
    i :| RowAt(t, i, n, GAUGE);
  }

  /** Setting a gauge row sets that gauge; setting a counter row leaves the gauges alone. */
  lemma GaugesAfter(t: Table, u: Table, i: nat)
    requires Consistent(t) && Consistent(u) && OneRowSet(t, u, i)
    ensures
      GaugesOf(u)
      == if u[i].mtype == GAUGE then GaugesOf(t)[u[i].name := u[i].value.value] else GaugesOf(t)
  {
    var x := GaugesOf(u);
    var y := if u[i].mtype == GAUGE then GaugesOf(t)[u[i].name := u[i].value.value] else GaugesOf(t);
    forall n | n in x
      ensures n in y && x[n] == y[n]
    {
      var j := RowOfGauge(u, n);
      if j != i {
        GaugeOfRow(t, j);
      }
    }
    forall n | n in y
      ensures n in x
    {
      if n in GaugesOf(t) {
        var j := RowOfGauge(t, n);
        GaugeOfRow(u, j);
      } else {
        GaugeOfRow(u, i);
      }
    }
  }

  lemma CounterOfRow(t: Table, i: nat)
    requires Consistent(t) && i < |t| && t[i].mtype == COUNTER
    ensures t[i].name in CountersOf(t) && CountersOf(t)[t[i].name] == t[i].delta.value
  {
    CounterRows(t);
  }

  lemma RowOfCounter(t: Table, n: string) returns (i: nat)
    requires Consistent(t) && n in CountersOf(t)
    ensures RowAt(t, i, n, COUNTER) && CountersOf(t)[n] == t[i].delta.value
  {
    CounterRows(t);
    i :| RowAt(t, i, n, COUNTER);
  }

  lemma CountersAfter(t: Table, u: Table, i: nat)
    requires Consistent(t) && Consistent(u) && OneRowSet(t, u, i)
    ensures
      CountersOf(u)
      == if u[i].mtype == COUNTER then CountersOf(t)[u[i].name := u[i].delta.value] else CountersOf(t)
  {
    var x := CountersOf(u);
    var y := if u[i].mtype == COUNTER then CountersOf(t)[u[i].name := u[i].delta.value] else CountersOf(t);
    forall n | n in x
      ensures n in y && x[n] == y[n]
    {
      var j := RowOfCounter(u, n);
      if j != i {
        CounterOfRow(t, j);
      }
    }
    forall n | n in y
      ensures n in x
    {
      if n in CountersOf(t) {
        var j := RowOfCounter(t, n);
        CounterOfRow(u, j);
      } else {
        CounterOfRow(u, i);
      }
    }
  }

  lemma UpsertGaugeSimulates(t: Table, name: string, value: Float64)
    requires Consistent(t) && NameAccepted(name)
    ensures
      var u := UpsertGauge(t, name, value);
      u.Success? && Consistent(u.value) && Abstract(u.value) == PutGauge(Abstract(t), name, value)
  {
    var u := UpsertGauge(t, name, value).value;
    var i := Find(t, name, GAUGE);
    StaysConsistent(t, u, i);
    GaugesAfter(t, u, i);
    CountersAfter(t, u, i);
  }

  /** On any table, consistent or not, an upsert of a known key sets one cell and no other; NULL
      plus a delta is NULL. */
  lemma UpsertSetsOneCell(t: Table, name: string, value: Float64, delta: int64)
    requires NameAccepted(name)
    ensures
      var i := Find(t, name, "gauge");
      UpsertGauge(t, name, value)
      == Success(if i < |t| then t[i := t[i].(value := Some(value))] else t + [Row(name, "gauge", Some(value), None)])
    ensures
      var i := Find(t, name, "counter");
      && (i < |t| && t[i].delta.None? ==> UpsertCounter(t, name, delta) == Success(t))
      && (i < |t| && t[i].delta.Some? && InRange(t[i].delta.value + delta) ==>
            UpsertCounter(t, name, delta) == Success(t[i := t[i].(delta := Some(t[i].delta.value + delta))]))
  {
  }

  /** The upsert of a counter succeeds exactly when the exact sum fits. */
  lemma UpsertCounterSucceedsIff(t: Table, name: string, delta: int64)
    requires Consistent(t) && NameAccepted(name)
    ensures UpsertCounter(t, name, delta).Success? <==> InRange(Count(Abstract(t), name) + delta)
  {
    CounterRows(t);
    var i := Find(t, name, COUNTER);
    assert i == |t| <==> name !in CountersOf(t);
  }

  /** A successful upsert of a counter is the in-memory update. */
  lemma UpsertCounterSimulates(t: Table, name: string, delta: int64)
    requires Consistent(t) && UpsertCounter(t, name, delta).Success?
    ensures
      var u := UpsertCounter(t, name, delta).value;
      Consistent(u) && Abstract(u) == AddCounter(Abstract(t), name, delta)
  {
    var u := UpsertCounter(t, name, delta).value;
    var i := Find(t, name, COUNTER);
    StaysConsistent(t, u, i);
    GaugesAfter(t, u, i);
    CountersAfter(t, u, i);
    CounterRows(t);
    assert i == |t| <==> name !in CountersOf(t);
    assert u[i].delta == Some(Count(Abstract(t), name) + delta);
    WrapMeans(Count(Abstract(t), name) + delta);
    assert CountersOf(u) == CountersOf(t)[name := Wrap(Count(Abstract(t), name) + delta)];
  }

  predicate KnownType(m: Metric) {
    m.mtype == GAUGE || m.mtype == COUNTER
  }

  /** When the statement for `m` succeeds on a table standing for `st`. */
  predicate Acceptable(st: Store, m: Metric) {
    && KnownType(m)
    && (WellFormed(m) ==> NameAccepted(m.id))
    && (IsCounter(m) ==> InRange(Count(st, m.id) + m.delta.value))
  }

  lemma ExecMetricSimulates(t: Table, m: Metric)
    requires Consistent(t)
    ensures ExecMetric(t, m).Success? <==> Acceptable(Abstract(t), m)
    ensures ExecMetric(t, m).Success? ==>
              Consistent(ExecMetric(t, m).value) && Abstract(ExecMetric(t, m).value) == Update(Abstract(t), m)
  {
    if IsGauge(m) && NameAccepted(m.id) {
      UpsertGaugeSimulates(t, m.id, m.value.value);
    } else if IsCounter(m) && NameAccepted(m.id) {
      UpsertCounterSucceedsIff(t, m.id, m.delta.value);
      if ExecMetric(t, m).Success? {
        UpsertCounterSimulates(t, m.id, m.delta.value);
      }
    }
  }

  /** Why a metric is refused by a database that stands for `st`, if it is. */
  function Refusal(st: Store, m: Metric): Option<DbError> {
    if m.mtype != "gauge" && m.mtype != "counter" then Some(UnknownMetric(m.mtype))
    else if !WellFormed(m) then None
    else if |m.id| > 255 || '\0' in m.id then Some(NameRejected(m.id))
    else if IsCounter(m) && !(-0x8000_0000_0000_0000 <= Count(st, m.id) + m.delta.value < 0x8000_0000_0000_0000)
    then Some(OutOfRange(m.id))
    else None
  }

  lemma ExecMetricRefusal(t: Table, m: Metric)
    requires Consistent(t)
    ensures ExecMetric(t, m).Failure? <==> Refusal(Abstract(t), m).Some?
    ensures ExecMetric(t, m).Failure? ==> Refusal(Abstract(t), m) == Some(ExecMetric(t, m).error)
  {
    if IsCounter(m) && NameAccepted(m.id) {
      UpsertCounterSucceedsIff(t, m.id, m.delta.value);
    }
  }

  /** Every metric of the batch is acceptable where the in-memory replay would apply it. */
  predicate AllAcceptable(st: Store, ms: seq<Metric>) {
    ms == [] || (AllAcceptable(st, ms[..|ms| - 1]) && Acceptable(Replay(st, ms[..|ms| - 1]), ms[|ms| - 1]))
  }

  /** A transaction commits exactly when all its metrics are acceptable, and then it does what
      the in-memory replay does (which, like the loop, passes over metrics without a value). */
  lemma {:induction false} ExecBatchSimulates(t: Table, ms: seq<Metric>)
    requires Consistent(t)
    ensures ExecBatch(t, ms).Success? <==> AllAcceptable(Abstract(t), ms)
    ensures ExecBatch(t, ms).Success? ==>
              Consistent(ExecBatch(t, ms).value) && Abstract(ExecBatch(t, ms).value) == Replay(Abstract(t), ms)
  {
    if ms != [] {
      var before := ExecBatch(t, ms[..|ms| - 1]);
      ExecBatchSimulates(t, ms[..|ms| - 1]);
      if before.Success? {
        ExecMetricSimulates(before.value, ms[|ms| - 1]);
      }
    }
  }

  /** A transaction that does not commit reports the refusal of its first metric that is not
      acceptable when its turn comes. */
  lemma {:induction false} FirstRefusal(t: Table, ms: seq<Metric>) returns (i: nat)
    requires Consistent(t) && ExecBatch(t, ms).Failure?
    ensures i < |ms| && AllAcceptable(Abstract(t), ms[..i])
    ensures Refusal(Replay(Abstract(t), ms[..i]), ms[i]) == Some(ExecBatch(t, ms).error)
  {
    i := |ms| - 1;
    var before := ExecBatch(t, ms[..i]);
    if before.Failure? {
      var j := FirstRefusal(t, ms[..i]);
      assert ms[..i][..j] == ms[..j];
      i := j;
    } else {
      ExecBatchSimulates(t, ms[..i]);
      ExecMetricRefusal(before.value, ms[i]);
    }
  }

  /** The column a row's type does not use is NULL. */
  predicate UnusedAreNull(t: Table) {
    forall i :: 0 <= i < |t| ==>
      (t[i].mtype == "gauge" ==> t[i].delta.None?) && (t[i].mtype == "counter" ==> t[i].value.None?)
  }

  lemma {:induction false} BatchKeepsColumns(t: Table, ms: seq<Metric>)
    requires UnusedAreNull(t) && ExecBatch(t, ms).Success?
    ensures UnusedAreNull(ExecBatch(t, ms).value)
  {
    if ms != [] {
      BatchKeepsColumns(t, ms[..|ms| - 1]);
    }
  }

  /** The tables left by a sequence of batches (a single update is a batch of one), each of
      which may fail and then leaves its table as it was. */
  function Run(t: Table, batches: seq<seq<Metric>>): Table {
    if batches == [] then t
    else
      var before := Run(t, batches[..|batches| - 1]);
      var r := ExecBatch(before, batches[|batches| - 1]);
      if r.Success? then r.value else before
  }

  function Flatten(batches: seq<seq<Metric>>): seq<Metric> {
    if batches == [] then [] else Flatten(batches[..|batches| - 1]) + batches[|batches| - 1]
  }

  /** Every table reachable from the empty one keeps one row per key and no NULL where a value
      is needed; and while all batches succeed it stands for what memory would hold. */
  lemma {:induction false} RunSimulatesMemory(batches: seq<seq<Metric>>)
    ensures Consistent(Run([], batches)) && UnusedAreNull(Run([], batches))
    ensures (forall i :: 0 <= i < |batches| ==> ExecBatch(Run([], batches[..i]), batches[i]).Success?) ==>
              Abstract(Run([], batches)) == Replay(EMPTY, Flatten(batches))
  {
    if batches == [] {
      assert Abstract([]) == EMPTY;
    } else {
      var n := |batches| - 1;
      var before, last := batches[..n], batches[n];
      RunSimulatesMemory(before);
      ExecBatchSimulates(Run([], before), last);
      if ExecBatch(Run([], before), last).Success? {
        BatchKeepsColumns(Run([], before), last);
      }
      assert forall i :: 0 <= i < n ==> batches[i] == before[i] && batches[..i] == before[..i];
      ReplayConcat(EMPTY, Flatten(before), last);
    }
  }

  // ---------------------------------------------------------------- retried transactions

  /** What the outside world does to one attempt. `LostAnswer` is a commit that takes effect
      although the client sees an error. */
  datatype Fate = Undisturbed | NoEffect(code: int) | LostAnswer(code: int)

  /** One call of the retried function. */
  function Attempt(t: Table, ms: seq<Metric>, fate: Fate): (Table, Option<DbError>) {
    if fate.NoEffect? then (t, Some(Connection(fate.code)))
    else
      match ExecBatch(t, ms)
      case Failure(e) => (t, Some(e))
      case Success(u) => (u, if fate.LostAnswer? then Some(Connection(fate.code)) else None)
  }

  function AttemptOf(ms: seq<Metric>, fates: nat -> Fate): (Table, nat) -> (Table, Option<DbError>) {
    (t: Table, i: nat) => Attempt(t, ms, fates(i))
  }

  /** The batch committed `j` times in a row. */
  function Times(t: Table, ms: seq<Metric>, j: nat): Result<Table, DbError> {
    if j == 0 then Success(t)
    else
      var before := Times(t, ms, j - 1);
      if before.Failure? then before else ExecBatch(before.value, ms)
  }

  /** How many of the first `n` attempts took effect. */
  function Commits(t: Table, ms: seq<Metric>, fates: nat -> Fate, n: nat): nat {
    if n == 0 then 0
    else
      var u := Retry.Iterate(AttemptOf(ms, fates), t, n - 1);
      Commits(t, ms, fates, n - 1) + (if fates(n - 1).NoEffect? || ExecBatch(u, ms).Failure? then 0 else 1)
  }

  /** After `n` attempts the table is the old one with the batch committed `Commits` times. */
  lemma {:induction false} AttemptsCommit(t: Table, ms: seq<Metric>, fates: nat -> Fate, n: nat)
    ensures Commits(t, ms, fates, n) <= n
    ensures Times(t, ms, Commits(t, ms, fates, n)) == Success(Retry.Iterate(AttemptOf(ms, fates), t, n))
    ensures n >= 1 && Retry.Outcome(AttemptOf(ms, fates), t, n - 1).None? ==> Commits(t, ms, fates, n) >= 1
  {
    if n > 0 {
      AttemptsCommit(t, ms, fates, n - 1);
    }
  }

  /** How many of the first `n` attempts reached the database. */
  function Reached(fates: nat -> Fate, n: nat): nat {
    if n == 0 then 0 else Reached(fates, n - 1) + if fates(n - 1).NoEffect? then 0 else 1
  }

  /** Fewer commits follow from more. */
  lemma {:induction false} TimesDown(t: Table, ms: seq<Metric>, j: nat, k: nat)
    requires j <= k && Times(t, ms, k).Success?
    ensures Times(t, ms, j).Success?
  {
    if j < k {
      TimesDown(t, ms, j, k - 1);
    }
  }

  /** Every attempt that reached the database took effect, until the batch no longer fits. */
  lemma {:induction false} CommitsAre(t: Table, ms: seq<Metric>, fates: nat -> Fate, n: nat)
    ensures Commits(t, ms, fates, n) <= Reached(fates, n)
    ensures Commits(t, ms, fates, n) < Reached(fates, n) ==> Times(t, ms, Commits(t, ms, fates, n) + 1).Failure?
  {
    if n > 0 {
      CommitsAre(t, ms, fates, n - 1);
      AttemptsCommit(t, ms, fates, n - 1);
    }
  }

  /** All attempts that reached the database took effect exactly when the batch fits that often. */
  lemma AllTookEffectIff(t: Table, ms: seq<Metric>, fates: nat -> Fate, n: nat)
    ensures Commits(t, ms, fates, n) == Reached(fates, n) <==> Times(t, ms, Reached(fates, n)).Success?
  {
    CommitsAre(t, ms, fates, n);
    AttemptsCommit(t, ms, fates, n);
    if Commits(t, ms, fates, n) < Reached(fates, n) && Times(t, ms, Reached(fates, n)).Success? {
      TimesDown(t, ms, Commits(t, ms, fates, n) + 1, Reached(fates, n));
    }
  }

  /** A retried batch is applied exactly once if and only if it fits once and either exactly one
      attempt reached the database, or more did and the batch does not fit twice. */
  lemma AppliedOnceIff(t: Table, ms: seq<Metric>, fates: nat -> Fate, n: nat)
    ensures Commits(t, ms, fates, n) == 1 <==>
            && ExecBatch(t, ms).Success?
            && (Reached(fates, n) == 1 || (Reached(fates, n) > 1 && Times(t, ms, 2).Failure?))
  {
    CommitsAre(t, ms, fates, n);
    AttemptsCommit(t, ms, fates, n);
    var commits := Commits(t, ms, fates, n);
    assert Times(t, ms, 0) == Success(t) && Times(t, ms, 1) == ExecBatch(t, ms);
    if commits >= 1 {
      TimesDown(t, ms, 1, commits);
    }
    if commits >= 2 {
      TimesDown(t, ms, 2, commits);
    }
  }

  /** When no answer is lost, only an attempt that returned nil took effect. */
  lemma {:induction false} NothingLost(t: Table, ms: seq<Metric>, fates: nat -> Fate, n: nat)
    requires forall i: nat :: !fates(i).LostAnswer?
    requires forall i: nat :: i < n - 1 ==> Retry.Outcome(AttemptOf(ms, fates), t, i).Some?
    ensures Commits(t, ms, fates, n) == if n >= 1 && Retry.Outcome(AttemptOf(ms, fates), t, n - 1).None? then 1 else 0
  {
    if n > 0 {
      NothingLost(t, ms, fates, n - 1);
    }
  }

  /** The batch replayed `j` times in a row. */
  function ReplayTimes(st: Store, ms: seq<Metric>, j: nat): Store {
    if j == 0 then st else Replay(ReplayTimes(st, ms, j - 1), ms)
  }

  lemma {:induction false} TimesSimulates(t: Table, ms: seq<Metric>, j: nat)
    requires Consistent(t) && Times(t, ms, j).Success?
    ensures Consistent(Times(t, ms, j).value)
    ensures Abstract(Times(t, ms, j).value) == ReplayTimes(Abstract(t), ms, j)
  {
    if j > 0 {
      TimesSimulates(t, ms, j - 1);
      ExecBatchSimulates(Times(t, ms, j - 1).value, ms);
    }
  }

  /** `j` replays of a batch add `j` times its total to a counter. */
  lemma {:induction false} ReplayTimesCounter(st: Store, ms: seq<Metric>, j: nat, name: string)
    ensures Count(ReplayTimes(st, ms, j), name) == Wrap(Count(st, name) + j * CounterSum(ms, name).GetOr(0))
  {
    var sum := CounterSum(ms, name).GetOr(0);
    if j == 0 {
      NoneYet(Count(st, name), sum);
    } else {
      ReplayTimesCounter(st, ms, j - 1, name);
      ReplayTimesNext(st, ms, j, name);
      OneMore(Count(st, name), j, sum, Count(ReplayTimes(st, ms, j - 1), name));
    }
  }

  lemma ReplayTimesNext(st: Store, ms: seq<Metric>, j: nat, name: string)
    requires j > 0
    ensures Count(ReplayTimes(st, ms, j), name)
         == Wrap(Count(ReplayTimes(st, ms, j - 1), name) + CounterSum(ms, name).GetOr(0))
  {
    ReplayCounter(ReplayTimes(st, ms, j - 1), ms, name);
  }

  lemma NoneYet(count: int64, sum: int)
    ensures Wrap(count + 0 * sum) == count
  {
    WrapMeans(count);
  }

  lemma OneMore(count: int, j: nat, sum: int, before: int64)
    requires j > 0 && before == Wrap(count + (j - 1) * sum)
    ensures Wrap(before + sum) == Wrap(count + j * sum)
  {
    assert (j - 1) * sum + sum == j * sum;
    WrapAdd(count + (j - 1) * sum, sum);
  }

  /** However often a batch is replayed, the gauges end as after the first time. */
  lemma {:induction false} ReplayTimesGauges(st: Store, ms: seq<Metric>, j: nat)
    requires j >= 1
    ensures ReplayTimes(st, ms, j).gauges == Replay(st, ms).gauges
  {
    if j == 1 {
      assert ReplayTimes(st, ms, 0) == st;
    } else {
      ReplayTimesGauges(st, ms, j - 1);
      var again := ReplayTimes(st, ms, j - 1);
      forall name: string
        ensures name in Replay(again, ms).gauges <==> name in again.gauges
        ensures name in again.gauges ==> Replay(again, ms).gauges[name] == again.gauges[name]
      {
        ReplayGauge(st, ms, name);
        ReplayGauge(again, ms, name);
      }
    }
  }

  /** What `j` commits of one batch leave of a table, for a counter and for all gauges. */
  lemma {:induction false} TimesMeans(t: Table, ms: seq<Metric>, j: nat, name: string)
    requires Consistent(t) && Times(t, ms, j).Success?
    ensures Consistent(Times(t, ms, j).value)
    ensures Count(Abstract(Times(t, ms, j).value), name)
         == Wrap(Count(Abstract(t), name) + j * CounterSum(ms, name).GetOr(0))
    ensures
      Abstract(Times(t, ms, j).value).gauges
      == if j == 0 then Abstract(t).gauges else Replay(Abstract(t), ms).gauges
  {
    TimesSimulates(t, ms, j);
    ReplayTimesCounter(Abstract(t), ms, j, name);
    if j > 0 {
      ReplayTimesGauges(Abstract(t), ms, j);
    }
  }

  /** One call of `UpdateBatch` under the default configuration: `calls` attempts were made, and
      the retry ended with `verdict`. */
  ghost predicate BatchRetried(t: Table, ms: seq<Metric>, retriable: DbError -> bool, done: nat -> bool,
                               interrupted: nat -> bool, fates: nat -> Fate, calls: nat,
                               verdict: Retry.Verdict<DbError>)
  {
    exists waits :: BatchRetriedWith(t, ms, retriable, done, interrupted, fates, calls, waits, verdict)
  }

  ghost predicate BatchRetriedWith(t: Table, ms: seq<Metric>, retriable: DbError -> bool, done: nat -> bool,
                                   interrupted: nat -> bool, fates: nat -> Fate, calls: nat, waits: seq<int64>,
                                   verdict: Retry.Verdict<DbError>)
  {
    Retry.Retries(Retry.DEFAULT_CONFIG, retriable, done, interrupted, Retry.Outcomes(AttemptOf(ms, fates), t),
                  calls, waits, verdict)
  }

  function FateError(fate: Fate): Option<DbError> {
    if fate.Undisturbed? then None else Some(Connection(fate.code))
  }

  /** What the first attempts on a batch that fits `j` times return is decided by their fates alone. */
  lemma OutcomeByFate(t: Table, ms: seq<Metric>, fates: nat -> Fate, i: nat, j: nat)
    requires fates(i).NoEffect? || (i < j && Times(t, ms, j).Success?)
    ensures Retry.Outcomes(AttemptOf(ms, fates), t)(i) == FateError(fates(i))
  {
    if !fates(i).NoEffect? {
      AttemptsCommit(t, ms, fates, i);
      TimesDown(t, ms, Commits(t, ms, fates, i) + 1, j);
    }
  }

  function EveryError(): DbError -> bool {
    _ => true
  }

  function Never(): nat -> bool {
    _ => false
  }

  /** Some call that nobody cancels, with every error retriable, commits the batch `j` times. */
  ghost predicate Possible(t: Table, ms: seq<Metric>, j: nat, error: bool) {
    exists fates, calls, verdict ::
      && BatchRetried(t, ms, EveryError(), Never(), Never(), fates, calls, verdict)
      && (error <==> verdict != Retry.Succeeded) && Commits(t, ms, fates, calls) == j
  }

  /** The numbers of commits that can happen are exactly 1 to 4 when `UpdateBatch` returns nil
      and 0 to 4 when it returns an error, as far as the batch fits that often. */
  lemma PossibleCommits(t: Table, ms: seq<Metric>, j: nat, error: bool)
    ensures Possible(t, ms, j, error) <==> (if error then 0 else 1) <= j <= 4 && Times(t, ms, j).Success?
  {
    forall fates, calls, verdict |
      && BatchRetried(t, ms, EveryError(), Never(), Never(), fates, calls, verdict)
      && (error <==> verdict != Retry.Succeeded)
      ensures (if error then 0 else 1) <= Commits(t, ms, fates, calls) <= 4
      ensures Times(t, ms, Commits(t, ms, fates, calls)).Success?
    {
      AttemptsCommit(t, ms, fates, calls);
    }
    if Times(t, ms, j).Success? {
      if error && j <= 4 {
        ErrorWithCommits(t, ms, j);
      } else if !error && 1 <= j <= 4 {
        NilWithCommits(t, ms, j);
      }
    }
  }

  lemma ThisIsPossible(t: Table, ms: seq<Metric>, fates: nat -> Fate, calls: nat, waits: seq<int64>,
                       verdict: Retry.Verdict<DbError>)
    requires BatchRetriedWith(t, ms, EveryError(), Never(), Never(), fates, calls, waits, verdict)
    ensures Possible(t, ms, Commits(t, ms, fates, calls), verdict != Retry.Succeeded)
  {
    assert BatchRetried(t, ms, EveryError(), Never(), Never(), fates, calls, verdict);
  }

  /** `j` commits whose answers are lost, then only attempts that reach nobody. */
  lemma ErrorWithCommits(t: Table, ms: seq<Metric>, j: nat)
    requires Times(t, ms, j).Success? && j <= 4
    ensures Possible(t, ms, j, true)
  {
    var fates: nat -> Fate := (i: nat) => if i < j then LostAnswer(0) else NoEffect(0);
    forall i: nat | i < 4
      ensures Retry.Outcomes(AttemptOf(ms, fates), t)(i) == Some(Connection(0))
    {
      OutcomeByFate(t, ms, fates, i, j);
    }
    assert Commits(t, ms, fates, 4) == j by {
      ReachedFirst(fates, j, 4);
      AllTookEffectIff(t, ms, fates, 4);
    }
    ThisIsPossible(t, ms, fates, 4, Retry.DEFAULT_CONFIG.delays, Retry.GaveUp(Connection(0)));
  }

  lemma RetriedUntilNil(t: Table, ms: seq<Metric>, fates: nat -> Fate, j: nat) returns (waits: seq<int64>)
    requires 1 <= j <= 4 && Retry.Outcomes(AttemptOf(ms, fates), t)(j - 1) == None
    requires forall i: nat :: i < j - 1 ==> Retry.Outcomes(AttemptOf(ms, fates), t)(i).Some?
    ensures BatchRetriedWith(t, ms, EveryError(), Never(), Never(), fates, j, waits, Retry.Succeeded)
  {
    waits := Retry.DEFAULT_CONFIG.delays[..j - 1];
  }

  /** `j - 1` commits whose answers are lost, then one that is answered. */
  lemma NilWithCommits(t: Table, ms: seq<Metric>, j: nat)
    requires Times(t, ms, j).Success? && 1 <= j <= 4
    ensures Possible(t, ms, j, false)
  {
    var fates: nat -> Fate := (i: nat) => if i < j - 1 then LostAnswer(0) else Undisturbed;
    forall i: nat | i < j
      ensures Retry.Outcomes(AttemptOf(ms, fates), t)(i) == FateError(fates(i))
    {
      OutcomeByFate(t, ms, fates, i, j);
    }
    var waits := RetriedUntilNil(t, ms, fates, j);
    assert Commits(t, ms, fates, j) == j by {
      ReachedFirst(fates, j, j);
      AllTookEffectIff(t, ms, fates, j);
    }
    ThisIsPossible(t, ms, fates, j, waits, Retry.Succeeded);
  }

  lemma {:induction false} ReachedFirst(fates: nat -> Fate, j: nat, n: nat)
    requires forall i: nat :: i < n ==> (fates(i).NoEffect? <==> i >= j)
    ensures Reached(fates, n) == if n < j then n else j
  {
    if n > 0 {
      ReachedFirst(fates, j, n - 1);
    }
  }

  /** Nobody cancels, every answer is lost, and the errors are retriable. */
  ghost predicate EveryAnswerLost(retriable: DbError -> bool, done: nat -> bool, interrupted: nat -> bool,
                                  fates: nat -> Fate)
  {
    forall i: nat :: !done(i) && !interrupted(i) && fates(i).LostAnswer? && retriable(Connection(fates(i).code))
  }

  /** Then a batch that fits four times is committed four times and reported as failed. */
  lemma FourCommitsAndAnError(t: Table, ms: seq<Metric>, retriable: DbError -> bool, done: nat -> bool,
                              interrupted: nat -> bool, fates: nat -> Fate, calls: nat,
                              verdict: Retry.Verdict<DbError>)
    requires Times(t, ms, 4).Success? && EveryAnswerLost(retriable, done, interrupted, fates)
    requires BatchRetried(t, ms, retriable, done, interrupted, fates, calls, verdict)
    ensures verdict == Retry.GaveUp(Connection(fates(3).code)) && Commits(t, ms, fates, calls) == 4
  {
    forall i: nat | i < 4
      ensures Retry.Outcomes(AttemptOf(ms, fates), t)(i) == FateError(fates(i))
    {
      OutcomeByFate(t, ms, fates, i, 4);
    }
    BatchEnds(t, ms, retriable, done, interrupted, fates, calls, verdict, 3);
    ReachedFirst(fates, 4, 4);
    AllTookEffectIff(t, ms, fates, 4);
  }

  /** `Retry.RetryEnds` for a batch. */
  lemma BatchEnds(t: Table, ms: seq<Metric>, retriable: DbError -> bool, done: nat -> bool, interrupted: nat -> bool,
                  fates: nat -> Fate, calls: nat, verdict: Retry.Verdict<DbError>, n: nat)
    requires BatchRetried(t, ms, retriable, done, interrupted, fates, calls, verdict) && n < 4 && !done(n)
    requires forall i: nat :: i < n ==>
               && !done(i) && !interrupted(i)
               && Retry.FailedRetriably(retriable, Retry.Outcomes(AttemptOf(ms, fates), t), i)
    ensures
      var outcome := Retry.Outcomes(AttemptOf(ms, fates), t)(n);
      && (outcome.None? ==> verdict == Retry.Succeeded && calls == n + 1)
      && (outcome.Some? && !retriable(outcome.value) ==>
            verdict == Retry.NonRetriable(outcome.value) && calls == n + 1)
      && (outcome.Some? && retriable(outcome.value) && n == 3 ==>
            verdict == Retry.GaveUp(outcome.value) && calls == n + 1)
  {
    var waits :| BatchRetriedWith(t, ms, retriable, done, interrupted, fates, calls, waits, verdict);
    Retry.RetryEnds(Retry.DEFAULT_CONFIG, retriable, done, interrupted, Retry.Outcomes(AttemptOf(ms, fates), t),
                    calls, waits, verdict, n);
  }

  /** Up to attempt `n` nobody cancels, and the connection is lost in every attempt before it
      with a retriable error. */
  ghost predicate LostBefore(retriable: DbError -> bool, done: nat -> bool, interrupted: nat -> bool,
                             fates: nat -> Fate, n: nat)
  {
    && !done(n)
    && forall i: nat :: i < n ==>
         !done(i) && !interrupted(i) && !fates(i).Undisturbed? && retriable(Connection(fates(i).code))
  }

  /** A batch that fits is committed by the first undisturbed attempt, on top of the attempts
      whose answers were lost. */
  lemma FittingBatchEnds(t: Table, ms: seq<Metric>, retriable: DbError -> bool, done: nat -> bool,
                         interrupted: nat -> bool, fates: nat -> Fate, calls: nat,
                         verdict: Retry.Verdict<DbError>, n: nat)
    requires n < 4 && Times(t, ms, n + 1).Success? && LostBefore(retriable, done, interrupted, fates, n)
    requires fates(n).Undisturbed?
    requires BatchRetried(t, ms, retriable, done, interrupted, fates, calls, verdict)
    ensures verdict == Retry.Succeeded && calls == n + 1 && Commits(t, ms, fates, calls) == Reached(fates, n) + 1
  {
    forall i: nat | i <= n
      ensures Retry.Outcomes(AttemptOf(ms, fates), t)(i) == FateError(fates(i))
    {
      OutcomeByFate(t, ms, fates, i, n + 1);
    }
    BatchEnds(t, ms, retriable, done, interrupted, fates, calls, verdict, n);
    ReachedAtMost(fates, n + 1);
    TimesDown(t, ms, Reached(fates, n + 1), n + 1);
    AllTookEffectIff(t, ms, fates, n + 1);
  }

  lemma {:induction false} ReachedAtMost(fates: nat -> Fate, n: nat)
    ensures Reached(fates, n) <= n
  {
    if n > 0 {
      ReachedAtMost(fates, n - 1);
    }
  }

  /** A batch that is refused stays without effect, and an error that is not retriable ends the
      call at the first attempt that reaches the database. */
  lemma RefusedBatchEnds(t: Table, ms: seq<Metric>, retriable: DbError -> bool, done: nat -> bool,
                         interrupted: nat -> bool, fates: nat -> Fate, calls: nat,
                         verdict: Retry.Verdict<DbError>, n: nat)
    requires n < 4 && ExecBatch(t, ms).Failure? && LostBefore(retriable, done, interrupted, fates, n)
    requires (forall i: nat :: i < n ==> fates(i).NoEffect?) && !fates(n).NoEffect?
    requires BatchRetried(t, ms, retriable, done, interrupted, fates, calls, verdict)
    ensures Commits(t, ms, fates, calls) == 0
    ensures !retriable(ExecBatch(t, ms).error) ==>
              verdict == Retry.NonRetriable(ExecBatch(t, ms).error) && calls == n + 1
  {
    NeverCommitted(t, ms, fates, calls);
    forall i: nat | i <= n
      ensures Retry.Outcomes(AttemptOf(ms, fates), t)(i)
           == Some(if i < n then Connection(fates(i).code) else ExecBatch(t, ms).error)
    {
      NeverCommitted(t, ms, fates, i);
    }
    BatchEnds(t, ms, retriable, done, interrupted, fates, calls, verdict, n);
  }

  lemma {:induction false} NeverCommitted(t: Table, ms: seq<Metric>, fates: nat -> Fate, n: nat)
    requires ExecBatch(t, ms).Failure?
    ensures Commits(t, ms, fates, n) == 0 && Retry.Iterate(AttemptOf(ms, fates), t, n) == t
  {
    if n > 0 {
      NeverCommitted(t, ms, fates, n - 1);
    }
  }

  // ---------------------------------------------------------------- reads

  /** One call of the retried query: the value found, no row, or a lost connection. */
  function ReadOf<V>(found: Option<V>, name: string, fates: nat -> Fate)
    : (Option<V>, nat) -> (Option<V>, Option<DbError>)
  {
    (read: Option<V>, i: nat) =>
      if !fates(i).Undisturbed? then (read, Some(Connection(fates(i).code)))
      else if found.None? then (read, Some(NotFound(name)))
      else (found, None)
  }

  /** `value` is what retrying the query gives; a failure carries the reason. */
  ghost predicate Answered<V>(found: Option<V>, name: string, retriable: DbError -> bool, done: nat -> bool,
                              interrupted: nat -> bool, fates: nat -> Fate, value: Result<V, Retry.Verdict<DbError>>)
  {
    exists calls, waits, verdict ::
      AnsweredWith(found, name, retriable, done, interrupted, fates, value, calls, waits, verdict)
  }

  ghost predicate AnsweredWith<V>(found: Option<V>, name: string, retriable: DbError -> bool, done: nat -> bool,
                                  interrupted: nat -> bool, fates: nat -> Fate,
                                  value: Result<V, Retry.Verdict<DbError>>, calls: nat, waits: seq<int64>,
                                  verdict: Retry.Verdict<DbError>)
  {
    && Retry.Retries(Retry.DEFAULT_CONFIG, retriable, done, interrupted,
                     Retry.Outcomes(ReadOf(found, name, fates), None), calls, waits, verdict)
    && if verdict.Succeeded? then found.Some? && value == Success(found.value) else value == Failure(verdict)
  }

  /** What one query answers. */
  lemma ReadOutcome<V>(found: Option<V>, name: string, fates: nat -> Fate, i: nat)
    ensures
      var outcome := Retry.Outcomes(ReadOf(found, name, fates), None)(i);
      && (!fates(i).Undisturbed? ==> outcome == Some(Connection(fates(i).code)))
      && (fates(i).Undisturbed? && found.None? ==> outcome == Some(NotFound(name)))
      && (fates(i).Undisturbed? && found.Some? ==> outcome == None)
  {
  }

  /** How a read ends: after lost connections that are worth a retry, the first attempt that gets
      through decides, or a connection error that is not retriable, or the fourth loss, or the
      context. */
  lemma ReadEnds<V>(found: Option<V>, name: string, retriable: DbError -> bool, done: nat -> bool,
                    interrupted: nat -> bool, fates: nat -> Fate, value: Result<V, Retry.Verdict<DbError>>, n: nat)
    requires Answered(found, name, retriable, done, interrupted, fates, value)
    requires n < 4
    requires forall i: nat :: i < n ==>
               !done(i) && !interrupted(i) && !fates(i).Undisturbed? && retriable(Connection(fates(i).code))
    ensures done(n) ==> value == Failure(Retry.ContextCancelled)
    ensures !done(n) && fates(n).Undisturbed? && found.Some? ==> value == Success(found.value)
    ensures !done(n) && fates(n).Undisturbed? && found.None? && !retriable(NotFound(name)) ==>
              value == Failure(Retry.NonRetriable(NotFound(name)))
    ensures !done(n) && !fates(n).Undisturbed? && !retriable(Connection(fates(n).code)) ==>
              value == Failure(Retry.NonRetriable(Connection(fates(n).code)))
    ensures !done(n) && !fates(n).Undisturbed? && retriable(Connection(fates(n).code)) && n == 3 ==>
              value == Failure(Retry.GaveUp(Connection(fates(3).code)))
    ensures !done(n) && !fates(n).Undisturbed? && retriable(Connection(fates(n).code)) && n < 3 && interrupted(n) ==>
              value == Failure(Retry.CancelledInDelay)
  {
    var outcome := Retry.Outcomes(ReadOf(found, name, fates), None);
    forall i: nat | i < n
      ensures Retry.FailedRetriably(retriable, outcome, i)
    {
      ReadOutcome(found, name, fates, i);
    }
    ReadOutcome(found, name, fates, n);
    var calls, waits, verdict :| AnsweredWith(found, name, retriable, done, interrupted, fates, value,
                                              calls, waits, verdict);
    Retry.RetryEnds(Retry.DEFAULT_CONFIG, retriable, done, interrupted, outcome, calls, waits, verdict, n);
  }

  method Query<V>(found: Option<V>, name: string, retriable: DbError -> bool, done: nat -> bool,
                  interrupted: nat -> bool, fates: nat -> Fate)
    returns (value: Result<V, Retry.Verdict<DbError>>)
    ensures Answered(found, name, retriable, done, interrupted, fates, value)
    ensures !done(0) && fates(0).Undisturbed? && found.Some? ==> value == Success(found.value)
    ensures !done(0) && fates(0).Undisturbed? && found.None? && !retriable(NotFound(name)) ==>
              value == Failure(Retry.NonRetriable(NotFound(name)))
  {
    var read, verdict, calls, waits :=
      Retry.Retry(Retry.DEFAULT_CONFIG, retriable, done, interrupted, ReadOf(found, name, fates), None);
    ghost var outcome := Retry.Outcomes(ReadOf(found, name, fates), None);
    assert outcome(0) == ReadOf(found, name, fates)(None, 0).1;
    assert calls >= 2 ==> Retry.FailedRetriably(retriable, outcome, 0);
    value := if verdict.Succeeded? then Success(read.value) else Failure(verdict);
    assert AnsweredWith(found, name, retriable, done, interrupted, fates, value, calls, waits, verdict);
  }

  // ---------------------------------------------------------------- the class

  class DatabaseStorage {
    var table: Table

    constructor ()
      ensures table == [] && Consistent(table)
    {
      table := [];
    }

    /** `retriable`, `done`, `interrupted` and `fates` are the answers of the error
        classification, the context and the connection during the call. */
    method UpdateBatch(metrics: seq<Metric>, retriable: DbError -> bool, done: nat -> bool, interrupted: nat -> bool,
                       fates: nat -> Fate)
      returns (verdict: Retry.Verdict<DbError>, ghost calls: nat, ghost commits: nat)
      requires Consistent(table)
      modifies this
      ensures Consistent(table)
      ensures metrics == [] ==> verdict.Succeeded? && calls == 0 && table == old(table)
      ensures metrics != [] ==>
                BatchRetried(old(table), metrics, retriable, done, interrupted, fates, calls, verdict)
      ensures commits == Commits(old(table), metrics, fates, calls)
      ensures Times(old(table), metrics, commits) == Success(table)
      ensures metrics != [] ==> (if verdict.Succeeded? then 1 else 0) <= commits <= 4
      ensures metrics != [] && (forall i: nat :: !fates(i).LostAnswer?) ==>
                commits == if verdict.Succeeded? then 1 else 0
      ensures metrics != [] && !done(0) && fates(0).Undisturbed? && ExecBatch(old(table), metrics).Success? ==>
                verdict.Succeeded? && commits == 1
      ensures (&& metrics != [] && Times(old(table), metrics, 4).Success?
               && EveryAnswerLost(retriable, done, interrupted, fates)) ==>
                !verdict.Succeeded? && commits == 4
    {
      if metrics == [] {
        return Retry.Succeeded, 0, 0;
      }
      var end, answer, attempts, waits :=
        Retry.Retry(Retry.DEFAULT_CONFIG, retriable, done, interrupted, AttemptOf(metrics, fates), table);
      assert Retry.Outcome(AttemptOf(metrics, fates), table, 0) == Attempt(table, metrics, fates(0)).1;
      verdict, calls := answer, attempts;
      commits := Commits(table, metrics, fates, calls);
      AttemptsCommit(table, metrics, fates, calls);
      TimesSimulates(table, metrics, commits);
      assert BatchRetriedWith(table, metrics, retriable, done, interrupted, fates, calls, waits, verdict);
      if forall i: nat :: !fates(i).LostAnswer? {
        NothingLost(table, metrics, fates, calls);
      }
      if Times(table, metrics, 4).Success? && EveryAnswerLost(retriable, done, interrupted, fates) {
        FourCommitsAndAnError(table, metrics, retriable, done, interrupted, fates, calls, verdict);
      }
      table := end;
    }

    /** A failed single update is only logged. */
    method UpdateGauge(name: string, value: Float64, retriable: DbError -> bool, done: nat -> bool,
                       interrupted: nat -> bool, fates: nat -> Fate)
      returns (ghost commits: nat)
      requires Consistent(table)
      modifies this
      ensures Consistent(table) && commits <= 4
      ensures
        Abstract(table)
        == if commits == 0 then old(Abstract(table)) else PutGauge(old(Abstract(table)), name, value)
      ensures !done(0) && fates(0).Undisturbed? && NameAccepted(name) ==> commits == 1
    {
      var m := Metric(name, GAUGE, None, Some(value), "");
      ghost var before := table;
      ExecOne(table, m);
      var verdict;
      ghost var calls;
      verdict, calls, commits := UpdateBatch([m], retriable, done, interrupted, fates);
      RepeatedGauge(before, m, commits);
    }

    method UpdateCounter(name: string, value: int64, retriable: DbError -> bool, done: nat -> bool,
                         interrupted: nat -> bool, fates: nat -> Fate)
      returns (ghost commits: nat)
      requires Consistent(table)
      modifies this
      ensures Consistent(table) && commits <= 4
      ensures
        var m := Metric(name, COUNTER, Some(value), None, "");
        Abstract(table) == ReplayTimes(old(Abstract(table)), [m], commits)
      ensures !done(0) && fates(0).Undisturbed? ==>
                (commits == 1 <==> NameAccepted(name) && InRange(old(Count(Abstract(table), name)) + value))
    {
      var m := Metric(name, COUNTER, Some(value), None, "");
      ghost var before := table;
      ExecOne(table, m);
      var verdict;
      ghost var calls;
      verdict, calls, commits := UpdateBatch([m], retriable, done, interrupted, fates);
      TimesSimulates(before, [m], commits);
    }

    /** SELECT value .. LIMIT 1: some row with this key, or no row. */
    method GetGauge(name: string, retriable: DbError -> bool, done: nat -> bool, interrupted: nat -> bool,
                    fates: nat -> Fate)
      returns (value: Result<Float64, Retry.Verdict<DbError>>)
      requires Consistent(table)
      ensures
        var gauges := Abstract(table).gauges;
        var found := if name in gauges then Some(gauges[name]) else None;
        && Answered(found, name, retriable, done, interrupted, fates, value)
        && (value.Success? ==> found == Some(value.value))
        && (!done(0) && fates(0).Undisturbed? && found.Some? ==> value == Success(found.value))
        && (!done(0) && fates(0).Undisturbed? && found.None? && !retriable(NotFound(name)) ==>
              value == Failure(Retry.NonRetriable(NotFound(name))))
    {
      GaugeRows(table);
      var found: Option<Float64> := None;
      if i :| 0 <= i < |table| && RowAt(table, i, name, GAUGE) {
        found := Some(table[i].value.value);
      }
      value := Query(found, name, retriable, done, interrupted, fates);
    }

    method GetCounter(name: string, retriable: DbError -> bool, done: nat -> bool, interrupted: nat -> bool,
                      fates: nat -> Fate)
      returns (value: Result<int64, Retry.Verdict<DbError>>)
      requires Consistent(table)
      ensures
        var counters := Abstract(table).counters;
        var found := if name in counters then Some(counters[name]) else None;
        && Answered(found, name, retriable, done, interrupted, fates, value)
        && (value.Success? ==> found == Some(value.value))
        && (!done(0) && fates(0).Undisturbed? && found.Some? ==> value == Success(found.value))
        && (!done(0) && fates(0).Undisturbed? && found.None? && !retriable(NotFound(name)) ==>
              value == Failure(Retry.NonRetriable(NotFound(name))))
    {
      CounterRows(table);
      var found: Option<int64> := None;
      if i :| 0 <= i < |table| && RowAt(table, i, name, COUNTER) {
        found := Some(table[i].delta.value);
      }
      value := Query(found, name, retriable, done, interrupted, fates);
    }

    /** `rows` is the table in the order in which the query returns it, `scans` says which rows
        can be read; a row that cannot is passed over, and a failed query gives an empty map. */
    method GetAllCounters(rows: seq<Row>, queryFails: bool, scans: Row -> bool) returns (counters: map<string, int64>)
      requires Consistent(table) && multiset(rows) == multiset(table)
      ensures queryFails ==> counters == map[]
      ensures forall n :: n in counters ==>
                n in Abstract(table).counters && counters[n] == Abstract(table).counters[n]
      ensures !queryFails ==>
                forall r :: r in table && r.mtype == COUNTER ==> (r.name in counters <==> scans(r))
      ensures !queryFails && (forall r :: r in table ==> scans(r)) ==> counters == Abstract(table).counters
    {
      counters := map[];
      if queryFails {
        return;
      }
      SameRows(rows, table);
      for i := 0 to |rows|
        invariant forall j :: 0 <= j < i && rows[j].mtype == COUNTER && scans(rows[j]) ==> rows[j].name in counters
        invariant forall n :: n in counters ==> CounterRead(table, n, counters[n], scans)
      {
        if rows[i].mtype == COUNTER && scans(rows[i]) {
          assert rows[i] in table;
          counters := counters[rows[i].name := rows[i].delta.value];
          assert CounterRead(table, rows[i].name, rows[i].delta.value, scans);
        }
      }
      CountersRead(table, counters, scans);
    }
  }

  lemma SameRows(rows: seq<Row>, t: Table)
    requires multiset(rows) == multiset(t)
    ensures forall r :: r in rows <==> r in t
  {
    forall r
      ensures r in rows <==> r in t
    {
      assert r in rows <==> r in multiset(rows);
      assert r in t <==> r in multiset(t);
    }
  }

  /** A row of the table that can be read has this counter. */
  ghost predicate CounterRead(t: Table, n: string, value: int64, scans: Row -> bool) {
    exists r :: r in t && r.mtype == COUNTER && r.name == n && scans(r) && r.delta == Some(value)
  }

  lemma CountersRead(t: Table, counters: map<string, int64>, scans: Row -> bool)
    requires Consistent(t)
    requires forall r :: r in t && r.mtype == COUNTER && scans(r) ==> r.name in counters
    requires forall n :: n in counters ==> CounterRead(t, n, counters[n], scans)
    ensures forall n :: n in counters ==> n in CountersOf(t) && counters[n] == CountersOf(t)[n]
    ensures forall r :: r in t && r.mtype == COUNTER ==> (r.name in counters <==> scans(r))
    ensures (forall r :: r in t ==> scans(r)) ==> counters == CountersOf(t)
  {
    CounterRows(t);
    forall r | r in t && r.mtype == COUNTER && r.name in counters
      ensures scans(r)
    {
      var q :| q in t && q.mtype == COUNTER && q.name == r.name && scans(q);
      assert q == r;
    }
  }

  lemma ExecOne(t: Table, m: Metric)
    requires Consistent(t)
    ensures ExecBatch(t, [m]).Success? <==> Acceptable(Abstract(t), m)
  {
    assert [m][..0] == [];
    assert ExecBatch(t, [m]) == ExecMetric(t, m);
    ExecMetricSimulates(t, m);
  }

  lemma RepeatedGauge(t: Table, m: Metric, j: nat)
    requires Consistent(t) && IsGauge(m) && Times(t, [m], j).Success?
    ensures Consistent(Times(t, [m], j).value)
    ensures
      Abstract(Times(t, [m], j).value)
      == if j == 0 then Abstract(t) else PutGauge(Abstract(t), m.id, m.value.value)
  {
    TimesSimulates(t, [m], j);
    ReplayTimesOneGauge(Abstract(t), m, j);
  }

  lemma {:induction false} ReplayTimesOneGauge(st: Store, m: Metric, j: nat)
    requires IsGauge(m)
    ensures ReplayTimes(st, [m], j) == if j == 0 then st else PutGauge(st, m.id, m.value.value)
  {
    if j > 0 {
      ReplayTimesOneGauge(st, m, j - 1);
      var before := ReplayTimes(st, [m], j - 1);
      assert [m][..0] == [];
      assert Replay(before, [m]) == PutGauge(before, m.id, m.value.value);
    }
  }

}
