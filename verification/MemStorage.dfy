/**
 The in-memory store: two maps, updated in place one metric or one batch at a time.
 */
module MemStorage {
  import opened Wrappers
  import opened Int64
  import opened Metrics

  /** What a store holds. */
  datatype Store = Store(gauges: map<string, Float64>, counters: map<string, int64>)

  const EMPTY: Store := Store(map[], map[])

  datatype BatchError = GaugeWithoutValue(id: string) | CounterWithoutDelta(id: string) | UnknownType(mtype: string)

  function PutGauge(st: Store, name: string, value: Float64): Store {
    st.(gauges := st.gauges[name := value])
  }

  /** `counters[name]`: an absent counter reads as 0. */
  function Count(st: Store, name: string): int64 {
    if name in st.counters then st.counters[name] else 0
  }

  function AddCounter(st: Store, name: string, delta: int64): Store {
    st.(counters := st.counters[name := Wrap(Count(st, name) + delta)])
  }

  /** What `UpdateGauge` or `UpdateCounter` does with one metric. */
  function Update(st: Store, m: Metric): Store {
    if IsGauge(m) then PutGauge(st, m.id, m.value.value)
    else if IsCounter(m) then AddCounter(st, m.id, m.delta.value)
    else st
  }

  /** The metrics applied one by one. */
  function Replay(st: Store, ms: seq<Metric>): Store {
    if ms == [] then st else Update(Replay(st, ms[..|ms| - 1]), ms[|ms| - 1])
  }

  /** Why `UpdateBatch` stops at `m`, if it does. */
  function Complaint(m: Metric): (e: Option<BatchError>)
    ensures e.None? <==> WellFormed(m)
  {
    if m.mtype == GAUGE then (if m.value.Some? then None else Some(GaugeWithoutValue(m.id)))
    else if m.mtype == COUNTER then (if m.delta.Some? then None else Some(CounterWithoutDelta(m.id)))
    else Some(UnknownType(m.mtype))
  }

  /** The number of metrics before the first malformed one. */
  function GoodPrefix(ms: seq<Metric>): (n: nat)
    ensures n <= |ms|
    ensures forall i :: 0 <= i < n ==> WellFormed(ms[i])
    ensures n < |ms| ==> !WellFormed(ms[n])
  {
    if ms == [] || !WellFormed(ms[0]) then 0 else 1 + GoodPrefix(ms[1..])
  }

  // ---------------------------------------------------------------- what replaying means

  lemma {:induction false} ReplayConcat(st: Store, first: seq<Metric>, second: seq<Metric>)
    ensures Replay(st, first + second) == Replay(Replay(st, first), second)
  {
    if second == [] {
      assert first + second == first;
    } else {
      var n := |second| - 1;
      assert (first + second)[..|first| + n] == first + second[..n];
      ReplayConcat(st, first, second[..n]);
    }
  }

  lemma ReplaySnoc(st: Store, ms: seq<Metric>, m: Metric)
    ensures Replay(st, ms + [m]) == Update(Replay(st, ms), m)
  {
    assert (ms + [m])[..|ms|] == ms;
  }

  lemma ReplayNext(st: Store, ms: seq<Metric>, i: nat)
    requires i < |ms|
    ensures Replay(st, ms[..i + 1]) == Update(Replay(st, ms[..i]), ms[i])
  {
    assert ms[..i + 1] == ms[..i] + [ms[i]];
    ReplaySnoc(st, ms[..i], ms[i]);
  }

  /** A gauge ends as the last value written; a gauge nobody wrote keeps its old state. */
  lemma {:induction false} ReplayGauge(st: Store, ms: seq<Metric>, name: string)
    ensures
      var end := Replay(st, ms).gauges;
      match LastGauge(ms, name)
      case Some(v) => name in end && end[name] == v
      case None => (name in end <==> name in st.gauges) && (name in end ==> end[name] == st.gauges[name])
  {
    if ms != [] {
      ReplayGauge(st, ms[..|ms| - 1], name);
    }
  }

  lemma UpdateCount(st: Store, m: Metric, name: string)
    ensures Count(Update(st, m), name)
         == if IsCounter(m) && m.id == name then Wrap(Count(st, name) + m.delta.value) else Count(st, name)
    ensures name in Update(st, m).counters <==> name in st.counters || (IsCounter(m) && m.id == name)
  {
  }

  /** A counter ends as its old value plus the sum of all its deltas, wrapped once. */
  lemma {:induction false} ReplayCounter(st: Store, ms: seq<Metric>, name: string)
    ensures name in Replay(st, ms).counters <==> name in st.counters || CounterSum(ms, name).Some?
    ensures Count(Replay(st, ms), name) == Wrap(Count(st, name) + CounterSum(ms, name).GetOr(0))
  {
    if ms != [] {
      var m := ms[|ms| - 1];
      var before := ms[..|ms| - 1];
      ReplayCounter(st, before, name);
      UpdateCount(Replay(st, before), m, name);
      if IsCounter(m) && m.id == name {
        assert CounterSum(ms, name) == Some(CounterSum(before, name).GetOr(0) + m.delta.value);
        WrapAdd(Count(st, name) + CounterSum(before, name).GetOr(0), m.delta.value);
      } else {
        assert CounterSum(ms, name) == CounterSum(before, name);
      }
    }
  }

  /** The two lists agree on every gauge's last value and on every counter's sum modulo 2^64. */
  ghost predicate SameTotals(a: seq<Metric>, b: seq<Metric>) {
    && (forall name :: LastGauge(a, name) == LastGauge(b, name))
    && (forall name :: SameSum(CounterSum(a, name), CounterSum(b, name)))
  }

  predicate SameSum(x: Option<int>, y: Option<int>) {
    x.Some? == y.Some? && (x.GetOr(0) - y.GetOr(0)) % TWO_64 == 0
  }

  lemma {:induction false} SameCounter(st: Store, a: seq<Metric>, b: seq<Metric>, name: string)
    requires SameSum(CounterSum(a, name), CounterSum(b, name))
    ensures name in Replay(st, a).counters <==> name in Replay(st, b).counters
    ensures Count(Replay(st, a), name) == Count(Replay(st, b), name)
  {
    ReplayCounter(st, a, name);
    ReplayCounter(st, b, name);
    WrapIsCongruence(Count(st, name) + CounterSum(a, name).GetOr(0), Count(st, name) + CounterSum(b, name).GetOr(0));
  }

  /** Lists with the same totals have the same effect on every store. */
  lemma {:induction false} SameEffect(st: Store, a: seq<Metric>, b: seq<Metric>)
    requires SameTotals(a, b)
    ensures Replay(st, a) == Replay(st, b)
  {
    var x, y := Replay(st, a), Replay(st, b);
    forall name: string
      ensures name in x.gauges <==> name in y.gauges
      ensures name in x.gauges ==> x.gauges[name] == y.gauges[name]
    {
      ReplayGauge(st, a, name);
      ReplayGauge(st, b, name);
    }
    assert x.gauges == y.gauges;
    forall name: string
      ensures name in x.counters <==> name in y.counters
      ensures name in x.counters ==> x.counters[name] == y.counters[name]
    {
      SameCounter(st, a, b, name);
    }
    assert x.counters == y.counters;
  }

  // ---------------------------------------------------------------- the file

  /** What the operating system holds under the storage path. */
  datatype FileContent = Missing | Unreadable | Dump(store: Store)

  class File {
    var content: FileContent
  }

  predicate AllFinite(st: Store) {
    forall name :: name in st.gauges ==> st.gauges[name].Finite?
  }

  /** JSON has no NaN or infinity: encoding such a store fails after the file was truncated. */
  function Encoded(st: Store): FileContent {
    if AllFinite(st) then Dump(st) else Unreadable
  }

  /** The store after trying to load `content` into `current`. */
  function Decoded(content: FileContent, current: Store): Store {
    if content.Dump? then content.store else current
  }

  // ---------------------------------------------------------------- the class

  /** The entry-by-entry copies made under the read lock, in whatever order a map is ranged over. */
  method CopyOut<V>(m: map<string, V>) returns (copy: map<string, V>)
    ensures copy == m
  {
    copy := map[];
    var rest := m.Keys;
    while rest != {}
      invariant rest <= m.Keys
      invariant copy.Keys == m.Keys - rest
      invariant forall k :: k in copy ==> copy[k] == m[k]
      decreases |rest|
    {
      var k :| k in rest;
      copy := copy[k := m[k]];
      rest := rest - {k};
    }
  }

  class MemStorage {
    var gauges: map<string, Float64>
    var counters: map<string, int64>

    function Contents(): Store
      reads this
    {
      Store(gauges, counters)
    }

    constructor ()
      ensures Contents() == EMPTY
    {
      gauges, counters := map[], map[];
    }

    method UpdateGauge(name: string, value: Float64)
      modifies this
      ensures Contents() == PutGauge(old(Contents()), name, value)
    {
      gauges := gauges[name := value];
    }

    method UpdateCounter(name: string, value: int64)
      modifies this
      ensures Contents() == AddCounter(old(Contents()), name, value)
    {
      counters := counters[name := Wrap((if name in counters then counters[name] else 0) + value)];
    }

    method GetGauge(name: string) returns (value: Option<Float64>)
      ensures value.Some? <==> name in gauges
      ensures value.Some? ==> value.value == gauges[name]
    {
      value := if name in gauges then Some(gauges[name]) else None;
    }

    method GetCounter(name: string) returns (value: Option<int64>)
      ensures value.Some? <==> name in counters
      ensures value.Some? ==> value.value == counters[name]
    {
      value := if name in counters then Some(counters[name]) else None;
    }

    /** Applies the longest prefix of well-formed metrics and reports the first bad one. */
    method UpdateBatch(metrics: seq<Metric>) returns (error: Option<BatchError>)
      modifies this
      ensures Contents() == Replay(old(Contents()), metrics[..GoodPrefix(metrics)])
      ensures error == if GoodPrefix(metrics) < |metrics| then Complaint(metrics[GoodPrefix(metrics)]) else None
      ensures error.None? <==> AllWellFormed(metrics)
      ensures error.Some? ==>
                var m := metrics[GoodPrefix(metrics)];
                && (m.mtype == "gauge" ==> error.value == GaugeWithoutValue(m.id))
                && (m.mtype == "counter" ==> error.value == CounterWithoutDelta(m.id))
                && (m.mtype != "gauge" && m.mtype != "counter" ==> error.value == UnknownType(m.mtype))
    {
      if metrics == [] {
        return None;
      }
      ghost var start := Contents();
      for i := 0 to |metrics|
        invariant i <= GoodPrefix(metrics)
        invariant Contents() == Replay(start, metrics[..i])
      {
        var m := metrics[i];
        ghost var before := Contents();
        if m.mtype == GAUGE {
          if m.value.None? {
            return Some(GaugeWithoutValue(m.id));
          }
          gauges := gauges[m.id := m.value.value];
        } else if m.mtype == COUNTER {
          if m.delta.None? {
            return Some(CounterWithoutDelta(m.id));
          }
          counters := counters[m.id := Wrap((if m.id in counters then counters[m.id] else 0) + m.delta.value)];
        } else {
          return Some(UnknownType(m.mtype));
        }
        assert Contents() == Update(before, m);
        ReplayNext(start, metrics, i);
      }
      assert metrics[..|metrics|] == metrics;
      error := None;
    }

    /** Copies both maps under the read lock, then creates the file and encodes the copy.
        `createFails` is the operating system's answer to `os.Create`, which truncates. */
    method SaveToFile(file: File, createFails: bool) returns (failed: bool)
      modifies file
      ensures file.content == if createFails then old(file.content) else Encoded(Contents())
      ensures failed <==> createFails || !AllFinite(Contents())
    {
      var dumpGauges := CopyOut(gauges);
      var dumpCounters := CopyOut(counters);
      if createFails {
        return true;
      }
      var dump := Store(dumpGauges, dumpCounters);
      file.content := Encoded(dump);
      failed := file.content.Unreadable?;
    }

    /** Replaces the contents by those of the file; a missing or unreadable file changes nothing. */
    method LoadFromFile(file: File) returns (failed: bool)
      modifies this
      ensures Contents() == Decoded(file.content, old(Contents()))
      ensures failed <==> !file.content.Dump?
    {
      match file.content
      case Dump(dump) =>
        gauges, counters := dump.gauges, dump.counters;
        failed := false;
      case _ =>
        failed := true;
    }
  }
}
