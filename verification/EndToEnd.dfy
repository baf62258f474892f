/**
 From agent to server: what the server's PollCount counter becomes when batches of an agent
 arrive in any order.
 */
module EndToEnd {
  import opened Wrappers
  import opened Int64
  import opened Metrics
  import opened MemStorage
  import Pipeline
  import Handlers

  const POLL_COUNT: string := "PollCount"

  /** The metrics of a batch: gauges read from the machine, and PollCount in runtime batches. */
  function BatchMetrics(gaugesOf: Pipeline.Batch -> seq<Metric>, b: Pipeline.Batch): seq<Metric> {
    gaugesOf(b) + if b.Runtime? then [Metric(POLL_COUNT, COUNTER, Some(b.pollCount), None, "")] else []
  }

  function Arrivals(gaugesOf: Pipeline.Batch -> seq<Metric>, batches: seq<Pipeline.Batch>): seq<Metric> {
    if batches == [] then []
    else Arrivals(gaugesOf, batches[..|batches| - 1]) + BatchMetrics(gaugesOf, batches[|batches| - 1])
  }

  ghost predicate OnlyGauges(gaugesOf: Pipeline.Batch -> seq<Metric>) {
    forall b, i :: 0 <= i < |gaugesOf(b)| ==> IsGauge(gaugesOf(b)[i])
  }

  function Polls(b: Pipeline.Batch): int {
    if b.Runtime? then b.pollCount else 0
  }

  function PollSum(batches: seq<Pipeline.Batch>): int {
    if batches == [] then 0 else PollSum(batches[..|batches| - 1]) + Polls(batches[|batches| - 1])
  }

  lemma {:induction false} CounterSumConcat(a: seq<Metric>, b: seq<Metric>, name: string)
    ensures CounterSum(a + b, name).GetOr(0) == CounterSum(a, name).GetOr(0) + CounterSum(b, name).GetOr(0)
  {
    if b == [] {
      assert a + b == a;
    } else {
      assert (a + b)[..|a + b| - 1] == a + b[..|b| - 1];
      CounterSumConcat(a, b[..|b| - 1], name);
    }
  }

  lemma {:induction false} GaugesDoNotCount(ms: seq<Metric>, name: string)
    requires forall i :: 0 <= i < |ms| ==> IsGauge(ms[i])
    ensures CounterSum(ms, name) == None
  {
    if ms != [] {
      GaugesDoNotCount(ms[..|ms| - 1], name);
    }
  }

  /** The metrics of a batch are well-formed, and its PollCount counts once in them. */
  lemma BatchCounts(gaugesOf: Pipeline.Batch -> seq<Metric>, b: Pipeline.Batch)
    requires OnlyGauges(gaugesOf)
    ensures AllWellFormed(BatchMetrics(gaugesOf, b))
    ensures CounterSum(BatchMetrics(gaugesOf, b), POLL_COUNT).GetOr(0) == Polls(b)
  {
    var ms := BatchMetrics(gaugesOf, b);
    GaugesDoNotCount(gaugesOf(b), POLL_COUNT);
    if b.Runtime? {
      assert ms[..|ms| - 1] == gaugesOf(b);
    } else {
      assert ms == gaugesOf(b);
    }
  }

  /** Every batch arrives as one request: its metrics are grouped, the groups taken in some order. */
  ghost predicate GroupedBatches(gaugesOf: Pipeline.Batch -> seq<Metric>, batches: seq<Pipeline.Batch>,
                                 requests: seq<seq<Metric>>)
  {
    && |requests| == |batches|
    && forall i :: 0 <= i < |batches| ==>
         Handlers.Enumerates(requests[i], Handlers.Grouped(BatchMetrics(gaugesOf, batches[i])))
  }

  /** The store after one request after the other. */
  function Serve(st: Store, requests: seq<seq<Metric>>): Store {
    if requests == [] then st else Replay(Serve(st, requests[..|requests| - 1]), requests[|requests| - 1])
  }

  /** Grouped requests have the effect of all the metrics one by one. */
  lemma {:induction false} ServeIsReplay(gaugesOf: Pipeline.Batch -> seq<Metric>, batches: seq<Pipeline.Batch>,
                                         requests: seq<seq<Metric>>, st: Store)
    requires OnlyGauges(gaugesOf) && GroupedBatches(gaugesOf, batches, requests)
    ensures Serve(st, requests) == Replay(st, Arrivals(gaugesOf, batches))
  {
    if batches != [] {
      var n := |batches| - 1;
      ServeIsReplay(gaugesOf, batches[..n], requests[..n], st);
      var before := Serve(st, requests[..n]);
      var ms := BatchMetrics(gaugesOf, batches[n]);
      assert Replay(before, requests[n]) == Replay(before, ms) by {
        BatchCounts(gaugesOf, batches[n]);
        Handlers.CoalescingPreservesMeaning(before, ms, requests[n]);
      }
      ReplayConcat(st, Arrivals(gaugesOf, batches[..n]), ms);
    }
  }

  lemma {:induction false} ArrivalsSum(gaugesOf: Pipeline.Batch -> seq<Metric>, batches: seq<Pipeline.Batch>)
    requires OnlyGauges(gaugesOf)
    ensures CounterSum(Arrivals(gaugesOf, batches), POLL_COUNT).GetOr(0) == PollSum(batches)
  {
    if batches != [] {
      var b, front := batches[|batches| - 1], batches[..|batches| - 1];
      ArrivalsSum(gaugesOf, front);
      BatchCounts(gaugesOf, b);
      CounterSumConcat(Arrivals(gaugesOf, front), BatchMetrics(gaugesOf, b), POLL_COUNT);
    }
  }

  /** PollCount has grown by `polls`, in int64 arithmetic. */
  predicate GrewBy(before: Store, after: Store, polls: int) {
    Count(after, "PollCount") == Wrap(Count(before, "PollCount") + polls)
  }

  /** A sequence of grouped requests adds up their PollCounts. */
  lemma RequestsAdd(gaugesOf: Pipeline.Batch -> seq<Metric>, batches: seq<Pipeline.Batch>,
                    requests: seq<seq<Metric>>, st: Store)
    requires OnlyGauges(gaugesOf) && GroupedBatches(gaugesOf, batches, requests)
    ensures GrewBy(st, Serve(st, requests), PollSum(batches))
  {
    ServeIsReplay(gaugesOf, batches, requests, st);
    ArrivalsSum(gaugesOf, batches);
    CountAfter(st, Serve(st, requests), Arrivals(gaugesOf, batches), PollSum(batches));
  }

  lemma CountAfter(st: Store, end: Store, ms: seq<Metric>, sum: int)
    requires end == Replay(st, ms) && CounterSum(ms, POLL_COUNT).GetOr(0) == sum
    ensures GrewBy(st, end, sum)
  {
    ReplayCounter(st, ms, POLL_COUNT);
  }

  lemma {:induction false} PollSumRemove(batches: seq<Pipeline.Batch>, i: nat)
    requires i < |batches|
    ensures PollSum(batches[..i] + batches[i + 1..]) + Polls(batches[i]) == PollSum(batches)
  {
    var n := |batches| - 1;
    if i == n {
      assert batches[..i] + batches[i + 1..] == batches[..n];
    } else {
      var front := batches[..n];
      assert (batches[..i] + batches[i + 1..])[..n - 1] == front[..i] + front[i + 1..];
      PollSumRemove(front, i);
    }
  }

  lemma RemoveAt<T>(s: seq<T>, i: nat)
    requires i < |s|
    ensures multiset(s) == multiset(s[..i] + s[i + 1..]) + multiset{s[i]}
  {
    assert s == s[..i] + [s[i]] + s[i + 1..];
  }

  lemma CancelOne<T>(a: multiset<T>, b: multiset<T>, x: T)
    requires a + multiset{x} == b + multiset{x}
    ensures a == b
  {
    assert a == (a + multiset{x}) - multiset{x};
  }

  /** The sum does not depend on the order. */
  lemma {:induction false} PollSumPermutation(a: seq<Pipeline.Batch>, b: seq<Pipeline.Batch>)
    requires multiset(a) == multiset(b)
    ensures PollSum(a) == PollSum(b)
    decreases |a|
  {
    if a == [] {
      assert |multiset(b)| == 0;
    } else {
      var n := |a| - 1;
      assert a == a[..n] + [a[n]];
      assert a[n] in multiset(b);
      var i :| 0 <= i < |b| && b[i] == a[n];
      var rest := b[..i] + b[i + 1..];
      RemoveAt(b, i);
      CancelOne(multiset(a[..n]), multiset(rest), a[n]);
      PollSumPermutation(a[..n], b[..i] + b[i + 1..]);
      PollSumRemove(b, i);
    }
  }

  /** 1 + 2 + .. + k. */
  function Triangle(k: nat): nat {
    if k == 0 then 0 else Triangle(k - 1) + k
  }

  lemma {:induction false} TriangleIs(k: nat)
    ensures Triangle(k) == k * (k + 1) / 2
  {
    if k > 0 {
      TriangleIs(k - 1);
      assert k * (k + 1) == (k - 1) * k + 2 * k;
    }
  }

  /** A history whose runtime batches carry 1..k sums up to the k-th triangle number, give or
      take multiples of 2^64. */
  lemma {:induction false} HistorySum(history: seq<Pipeline.Batch>) returns (q: int)
    requires Pipeline.PollCounts(history) == Pipeline.UpTo(|Pipeline.PollCounts(history)|)
    ensures PollSum(history) == Triangle(|Pipeline.PollCounts(history)|) + TWO_64 * q
  {
    if history == [] {
      q := 0;
    } else {
      var n := |history| - 1;
      var k := |Pipeline.PollCounts(history)|;
      var b := history[n];
      var front := history[..n];
      if b.Runtime? {
        assert Pipeline.PollCounts(front) == Pipeline.UpTo(k - 1) && b.pollCount == Wrap(k) by {
          UpToPrefix(Pipeline.PollCounts(front), b.pollCount, k);
        }
      }
      q := HistorySum(front);
      if b.Runtime? {
        WrapMeans(k);
        q := q - (k + TWO_63) / TWO_64;
      }
    }
  }

  lemma UpToPrefix(front: seq<int64>, last: int64, k: nat)
    requires k > 0 && front + [last] == Pipeline.UpTo(k)
    ensures front == Pipeline.UpTo(k - 1) && last == Wrap(k) && |front| == k - 1
  {
    UpToLength(k);
    UpToLength(k - 1);
    assert (front + [last])[..k - 1] == front && Pipeline.UpTo(k)[..k - 1] == Pipeline.UpTo(k - 1);
  }

  lemma {:induction false} UpToLength(k: nat)
    ensures |Pipeline.UpTo(k)| == k
  {
    if k > 0 {
      UpToLength(k - 1);
    }
  }

  lemma {:induction false} PollSumConcat(a: seq<Pipeline.Batch>, b: seq<Pipeline.Batch>)
    ensures PollSum(a + b) == PollSum(a) + PollSum(b)
  {
    if b == [] {
      assert a + b == a;
    } else {
      assert (a + b)[..|a + b| - 1] == a + b[..|b| - 1];
      PollSumConcat(a, b[..|b| - 1]);
    }
  }

  /** The batches delivered and the missing ones together are those sent. */
  predicate Split(sent: seq<Pipeline.Batch>, delivered: seq<Pipeline.Batch>, missing: seq<Pipeline.Batch>) {
    multiset(delivered) + multiset(missing) == multiset(sent)
  }

  /** What PollCount has grown by, when all but `missing` of `sent` was delivered. */
  function Growth(sent: seq<Pipeline.Batch>, missing: seq<Pipeline.Batch>): int {
    Triangle(|Pipeline.PollCounts(sent)|) - PollSum(missing)
  }

  lemma SplitSum(sent: seq<Pipeline.Batch>, delivered: seq<Pipeline.Batch>, missing: seq<Pipeline.Batch>)
    requires Split(sent, delivered, missing)
    ensures PollSum(delivered) == PollSum(sent) - PollSum(missing)
  {
    assert multiset(delivered + missing) == multiset(sent);
    PollSumPermutation(delivered + missing, sent);
    PollSumConcat(delivered, missing);
  }

  lemma DeliveredSum(sent: seq<Pipeline.Batch>, delivered: seq<Pipeline.Batch>, missing: seq<Pipeline.Batch>, x: int)
    requires Split(sent, delivered, missing)
    requires Pipeline.PollCounts(sent) == Pipeline.UpTo(|Pipeline.PollCounts(sent)|)
    ensures Wrap(x + PollSum(delivered)) == Wrap(x + Growth(sent, missing))
  {
    SplitSum(sent, delivered, missing);
    var q := HistorySum(sent);
    WrapShifted(x + PollSum(delivered), x + Growth(sent, missing), q);
  }

  lemma GrownByHistory(before: Store, after: Store, sent: seq<Pipeline.Batch>, delivered: seq<Pipeline.Batch>,
                       missing: seq<Pipeline.Batch>)
    requires GrewBy(before, after, PollSum(delivered)) && Split(sent, delivered, missing)
    requires Pipeline.PollCounts(sent) == Pipeline.UpTo(|Pipeline.PollCounts(sent)|)
    ensures GrewBy(before, after, Growth(sent, missing))
  {
    DeliveredSum(sent, delivered, missing, Count(before, POLL_COUNT));
  }

  /** Whatever part of what an agent sent by any run of its pipeline is delivered, in any order,
      each batch as one grouped request to any store: PollCount grows by 1 + .. + k less the
      PollCounts of the missing batches, where k is the number of runtime batches sent, because
      every batch carries the running total. */
  lemma PollCountOnServer(poolSize: nat, run: seq<Pipeline.Action>, delivered: seq<Pipeline.Batch>,
                          missing: seq<Pipeline.Batch>, requests: seq<seq<Metric>>,
                          gaugesOf: Pipeline.Batch -> seq<Metric>, st: Store)
    requires Pipeline.IsRun(Pipeline.Init(poolSize), run) && OnlyGauges(gaugesOf)
    requires Split(Pipeline.After(Pipeline.Init(poolSize), run).sent, delivered, missing)
    requires GroupedBatches(gaugesOf, delivered, requests)
    ensures GrewBy(st, Serve(st, requests), Growth(Pipeline.After(Pipeline.Init(poolSize), run).sent, missing))
  {
    Pipeline.SentCountsUp(poolSize, run);
    RequestsAdd(gaugesOf, delivered, requests, st);
    GrownByHistory(st, Serve(st, requests), Pipeline.After(Pipeline.Init(poolSize), run).sent, delivered, missing);
  }

  /** In particular for the batches whose tasks have been executed; the missing ones are then
      those still in the pipeline or running. */
  lemma {:induction false} PollCountOfExecuted(poolSize: nat, run: seq<Pipeline.Action>, executed: seq<Pipeline.Batch>,
                            requests: seq<seq<Metric>>, gaugesOf: Pipeline.Batch -> seq<Metric>, st: Store)
    returns (missing: seq<Pipeline.Batch>)
    requires Pipeline.IsRun(Pipeline.Init(poolSize), run) && OnlyGauges(gaugesOf)
    requires multiset(executed) == Pipeline.After(Pipeline.Init(poolSize), run).executed
    requires GroupedBatches(gaugesOf, executed, requests)
    ensures
      var s := Pipeline.After(Pipeline.Init(poolSize), run);
      && multiset(missing) == Pipeline.InFlight(s.workers) + multiset(Pipeline.Waiting(s))
      && GrewBy(st, Serve(st, requests), Growth(s.sent, missing))
  {
    var s := Pipeline.After(Pipeline.Init(poolSize), run);
    missing := Listed(Pipeline.InFlight(s.workers) + multiset(Pipeline.Waiting(s)));
    Pipeline.SentIsExecutedOrMissing(poolSize, run);
    PollCountOnServer(poolSize, run, executed, missing, requests, gaugesOf, st);
  }

  /** A finite multiset can be listed. */
  lemma {:induction false} Listed<T>(m: multiset<T>) returns (s: seq<T>)
    ensures multiset(s) == m
    decreases |m|
  {
    if |m| == 0 {
      s := [];
    } else {
      var x :| x in m;
      s := Listed(m - multiset{x});
      s := s + [x];
    }
  }
}
