/**
 The `Metrics` record exchanged by agent and server, and what a list of records means.
 */
module Metrics {
  import opened Wrappers
  import opened Int64

  /** A float64 by its IEEE 754 bits, sorted into the values JSON can represent and the
      infinities and NaNs it cannot. The code only copies gauge values. */
  datatype Float64 = Finite(bits: nat) | NotFinite(bits: nat)

  datatype Metric = Metric(id: string, mtype: string, delta: Option<int64>, value: Option<Float64>, hash: string)

  const GAUGE: string := "gauge"
  const COUNTER: string := "counter"

  predicate IsGauge(m: Metric) {
    m.mtype == GAUGE && m.value.Some?
  }

  predicate IsCounter(m: Metric) {
    m.mtype == COUNTER && m.delta.Some?
  }

  predicate WellFormed(m: Metric) {
    IsGauge(m) || IsCounter(m)
  }

  predicate AllWellFormed(ms: seq<Metric>) {
    forall i :: 0 <= i < |ms| ==> WellFormed(ms[i])
  }

  /** The value of the last gauge called `name`. */
  function LastGauge(ms: seq<Metric>, name: string): Option<Float64> {
    if ms == [] then None
    else
      var m := ms[|ms| - 1];
      if IsGauge(m) && m.id == name then m.value else LastGauge(ms[..|ms| - 1], name)
  }

  /** The exact sum of the deltas of the counters called `name`; None without one. */
  function CounterSum(ms: seq<Metric>, name: string): Option<int> {
    if ms == [] then None
    else
      var m := ms[|ms| - 1];
      var before := CounterSum(ms[..|ms| - 1], name);
      if IsCounter(m) && m.id == name then Some(before.GetOr(0) + m.delta.value) else before
  }
}
