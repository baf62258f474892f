/**
 The bounded retry loop and its exponential variant.

 The retried function is a state transformer: it gets the state and the number of the
 attempt (so the outside world may answer each attempt differently) and returns the new
 state and an error, if any. The context is given by what its two observers see:
 `done(i)` by the check before attempt `i`, `interrupted(i)` by the `select` after it.
 */
module Retry {
  import opened Wrappers
  import opened Int64

  const SECOND: int := 1_000_000_000

  /** Delays are durations in nanoseconds. */
  datatype Config = Config(maxAttempts: int, delays: seq<int64>)

  const DEFAULT_CONFIG: Config := Config(4, [1 * SECOND, 3 * SECOND, 5 * SECOND])

  datatype Verdict<E> =
    | Succeeded
    | ContextCancelled
    | NonRetriable(error: E)
    | GaveUp(error: E)
    | CancelledInDelay
    | IndexPanic

  /** The state after the first `n` attempts. */
  function Iterate<S, E>(fn: (S, nat) -> (S, Option<E>), start: S, n: nat): S {
    if n == 0 then start else fn(Iterate(fn, start, n - 1), n - 1).0
  }

  /** What attempt `i` returned. */
  function Outcome<S, E>(fn: (S, nat) -> (S, Option<E>), start: S, i: nat): Option<E> {
    fn(Iterate(fn, start, i), i).1
  }

  function Outcomes<S, E>(fn: (S, nat) -> (S, Option<E>), start: S): nat -> Option<E> {
    (i: nat) => Outcome(fn, start, i)
  }

  /** The loop made `calls` calls, whose outcomes were `outcome`, entered the selects with the
      delays `waits`, and returned `verdict`. */
  ghost predicate Retries<E>(config: Config, retriable: E -> bool, done: nat -> bool, interrupted: nat -> bool,
                             outcome: nat -> Option<E>, calls: nat, waits: seq<int64>, verdict: Verdict<E>)
  {
    && calls <= (if config.maxAttempts < 0 then 0 else config.maxAttempts)
    && (forall i: nat :: i < calls ==> !done(i))
    && (forall i: nat :: i < calls - 1 ==> FailedRetriably(retriable, outcome, i))
    && waits <= config.delays
    && (forall i: nat :: i < |waits| ==> (interrupted(i) <==> verdict.CancelledInDelay? && i == |waits| - 1))
    && match verdict
       case Succeeded =>
         if config.maxAttempts <= 0 then calls == 0 && waits == []
         else calls >= 1 && outcome(calls - 1).None? && |waits| == calls - 1
       case ContextCancelled =>
         && calls < config.maxAttempts && done(calls) && |waits| == calls
         && (calls >= 1 ==> FailedRetriably(retriable, outcome, calls - 1))
       case NonRetriable(e) =>
         calls >= 1 && outcome(calls - 1) == Some(e) && !retriable(e) && |waits| == calls - 1
       case GaveUp(e) =>
         && calls >= 1 && calls == config.maxAttempts && |waits| == calls - 1
         && outcome(calls - 1) == Some(e) && retriable(e)
       case CancelledInDelay =>
         1 <= calls < config.maxAttempts && FailedRetriably(retriable, outcome, calls - 1) && |waits| == calls
       case IndexPanic =>
         && 1 <= calls < config.maxAttempts && FailedRetriably(retriable, outcome, calls - 1)
         && |waits| == calls - 1 == |config.delays|
  }

  ghost predicate FailedRetriably<E>(retriable: E -> bool, outcome: nat -> Option<E>, i: nat) {
    outcome(i).Some? && retriable(outcome(i).value)
  }

  method Retry<S, E>(config: Config, retriable: E -> bool, done: nat -> bool, interrupted: nat -> bool,
                     fn: (S, nat) -> (S, Option<E>), start: S)
    returns (end: S, verdict: Verdict<E>, calls: nat, waits: seq<int64>)
    ensures Retries(config, retriable, done, interrupted, Outcomes(fn, start), calls, waits, verdict)
    ensures end == Iterate(fn, start, calls)
    ensures forall i: nat :: i < calls - 1 ==> Outcome(fn, start, i).Some?
    ensures |config.delays| >= config.maxAttempts - 1 ==> !verdict.IndexPanic?
  {
    end, calls, waits := start, 0, [];
    ghost var outcome := Outcomes(fn, start);
    while calls < config.maxAttempts
      invariant calls == 0 || calls < config.maxAttempts
      invariant end == Iterate(fn, start, calls)
      invariant forall i: nat :: i < calls ==> !done(i)
      invariant forall i: nat :: i < calls ==> FailedRetriably(retriable, outcome, i)
      invariant forall i: nat :: i < calls ==> Outcome(fn, start, i).Some?
      invariant |waits| == calls && waits <= config.delays
      invariant forall i: nat :: i < calls ==> !interrupted(i)
    {
      if done(calls) {
        return end, ContextCancelled, calls, waits;
      }
      var attempt := calls;
      var result := fn(end, attempt);
      end, calls := result.0, calls + 1;
      if result.1.None? {
        return end, Succeeded, calls, waits;
      }
      if !retriable(result.1.value) {
        return end, NonRetriable(result.1.value), calls, waits;
      }
      if attempt == config.maxAttempts - 1 {
        return end, GaveUp(result.1.value), calls, waits;
      }
      if attempt >= |config.delays| {
        return end, IndexPanic, calls, waits;
      }
      waits := waits + [config.delays[attempt]];
      if interrupted(attempt) {
        return end, CancelledInDelay, calls, waits;
      }
    }
    verdict := Succeeded;
  }

  /** The relation leaves the loop no choice: two ways to retry under the same circumstances
      make the same calls, wait the same delays and return the same. */
  lemma RetriesDeterministic<E>(config: Config, retriable: E -> bool, done: nat -> bool, interrupted: nat -> bool,
                                outcome: nat -> Option<E>, c1: nat, w1: seq<int64>, v1: Verdict<E>,
                                c2: nat, w2: seq<int64>, v2: Verdict<E>)
    requires Retries(config, retriable, done, interrupted, outcome, c1, w1, v1)
    requires Retries(config, retriable, done, interrupted, outcome, c2, w2, v2)
    ensures c1 == c2 && w1 == w2 && v1 == v2
  {
    CallsAgree(config, retriable, done, interrupted, outcome, c1, w1, v1, c2, w2, v2);
    CallsAgree(config, retriable, done, interrupted, outcome, c2, w2, v2, c1, w1, v1);
    assert w1 == config.delays[..|w1|] && w2 == config.delays[..|w2|];
    if w1 != [] {
      assert interrupted(|w1| - 1) <==> v1.CancelledInDelay?;
      assert interrupted(|w2| - 1) <==> v2.CancelledInDelay?;
    }
  }

  lemma CallsAgree<E>(config: Config, retriable: E -> bool, done: nat -> bool, interrupted: nat -> bool,
                      outcome: nat -> Option<E>, c1: nat, w1: seq<int64>, v1: Verdict<E>,
                      c2: nat, w2: seq<int64>, v2: Verdict<E>)
    requires Retries(config, retriable, done, interrupted, outcome, c1, w1, v1)
    requires Retries(config, retriable, done, interrupted, outcome, c2, w2, v2)
    ensures c1 >= c2 && |w1| >= |w2|
  {
    assert c1 < c2 ==> !done(c1);
    assert 1 <= c1 < c2 ==> FailedRetriably(retriable, outcome, c1 - 1);
    assert 1 <= |w1| ==> (interrupted(|w1| - 1) <==> v1.CancelledInDelay?);
  }

  /** How a retry ends is decided by the first attempt that does not fail retriably under a live
      context: `n` attempts did, and the next thing that happens ends it. */
  lemma RetryEnds<E>(config: Config, retriable: E -> bool, done: nat -> bool, interrupted: nat -> bool,
                     outcome: nat -> Option<E>, calls: nat, waits: seq<int64>, verdict: Verdict<E>, n: nat)
    requires Retries(config, retriable, done, interrupted, outcome, calls, waits, verdict)
    requires n < config.maxAttempts <= |config.delays| + 1
    requires forall i: nat :: i < n ==> !done(i) && !interrupted(i) && FailedRetriably(retriable, outcome, i)
    ensures done(n) ==> verdict == ContextCancelled && calls == n
    ensures !done(n) && outcome(n).None? ==> verdict == Succeeded && calls == n + 1
    ensures !done(n) && outcome(n).Some? && !retriable(outcome(n).value) ==>
              verdict == NonRetriable(outcome(n).value) && calls == n + 1
    ensures !done(n) && FailedRetriably(retriable, outcome, n) && n == config.maxAttempts - 1 ==>
              verdict == GaveUp(outcome(n).value) && calls == n + 1
    ensures !done(n) && FailedRetriably(retriable, outcome, n) && n < config.maxAttempts - 1 && interrupted(n) ==>
              verdict == CancelledInDelay && calls == n + 1
  {
    var longest := config.delays[..n];
    if done(n) {
      RetriesDeterministic(config, retriable, done, interrupted, outcome, calls, waits, verdict,
                           n, longest, ContextCancelled);
    } else if outcome(n).None? {
      RetriesDeterministic(config, retriable, done, interrupted, outcome, calls, waits, verdict,
                           n + 1, longest, Succeeded);
    } else if !retriable(outcome(n).value) {
      RetriesDeterministic(config, retriable, done, interrupted, outcome, calls, waits, verdict,
                           n + 1, longest, NonRetriable(outcome(n).value));
    } else if n == config.maxAttempts - 1 {
      RetriesDeterministic(config, retriable, done, interrupted, outcome, calls, waits, verdict,
                           n + 1, longest, GaveUp(outcome(n).value));
    } else if interrupted(n) {
      RetriesDeterministic(config, retriable, done, interrupted, outcome, calls, waits, verdict,
                           n + 1, config.delays[..n + 1], CancelledInDelay);
    }
  }

  /** Under the default configuration giving up means four calls, with pauses of one, three and
      five seconds. */
  lemma DefaultGivesUp<E>(retriable: E -> bool, done: nat -> bool, interrupted: nat -> bool,
                          outcome: nat -> Option<E>, calls: nat, waits: seq<int64>, e: E)
    requires Retries(DEFAULT_CONFIG, retriable, done, interrupted, outcome, calls, waits, GaveUp(e))
    ensures calls == 4 && waits == [1_000_000_000, 3_000_000_000, 5_000_000_000]
  {
    assert waits == DEFAULT_CONFIG.delays;
  }

  /** `config.Delays[attempt]` can be out of range exactly when there are fewer delays than
      pauses between attempts. */
  lemma IndexPanicPossibleIff(config: Config)
    ensures (exists outcome: nat -> Option<()>, calls: nat, waits: seq<int64> :: Panics(config, outcome, calls, waits))
            <==> |config.delays| < config.maxAttempts - 1
  {
    if |config.delays| < config.maxAttempts - 1 {
      assert Panics(config, _ => Some(()), |config.delays| + 1, config.delays);
    }
  }

  /** Never cancelled, every error retriable, and out of delays. */
  ghost predicate Panics(config: Config, outcome: nat -> Option<()>, calls: nat, waits: seq<int64>) {
    Retries(config, _ => true, _ => false, _ => false, outcome, calls, waits, IndexPanic)
  }

  // ---------------------------------------------------------------- exponential backoff

  function Pow2(n: nat): (p: nat)
    ensures p >= 1
  {
    if n == 0 then 1 else 2 * Pow2(n - 1)
  }

  function Total(delays: seq<int64>): int {
    if delays == [] then 0 else Total(delays[..|delays| - 1]) + delays[|delays| - 1]
  }

  /** The delays `RetryWithBackoff` puts in its configuration: doubling, in int64 arithmetic. */
  ghost predicate Backoff(base: int64, delays: seq<int64>) {
    forall i :: 0 <= i < |delays| ==> delays[i] == Wrap(base * Pow2(i))
  }

  lemma {:induction false} WrapMul(x: int, y: int)
    ensures Wrap(x * Wrap(y)) == Wrap(x * y)
  {
    var k := (y + TWO_63) / TWO_64;
    assert Wrap(y) == y - TWO_64 * k by { WrapMeans(y); }
    assert x * Wrap(y) == x * y + TWO_64 * (x * -k) by {
      assert x * (y - TWO_64 * k) == x * y - x * (TWO_64 * k);
    }
    WrapShift(x * y, x * -k);
  }

  /** None stands for the panic of `make` with a length that is negative or more than `longest`,
      the longest slice of delays the machine has addresses for. */
  method RetryWithBackoff<S, E>(maxAttempts: int, base: int64, longest: nat, retriable: E -> bool, done: nat -> bool,
                                interrupted: nat -> bool, fn: (S, nat) -> (S, Option<E>), start: S)
    returns (end: S, verdict: Option<Verdict<E>>, calls: nat, waits: seq<int64>)
    ensures verdict.None? <==> maxAttempts < 1 || maxAttempts - 1 > longest
    ensures verdict.None? ==> end == start && calls == 0
    ensures verdict.Some? ==>
              && end == Iterate(fn, start, calls) && !verdict.value.IndexPanic?
              && exists delays: seq<int64> :: |delays| == maxAttempts - 1 && Backoff(base, delays)
                   && Retries(Config(maxAttempts, delays), retriable, done, interrupted,
                              Outcomes(fn, start), calls, waits, verdict.value)
  {
    if maxAttempts < 1 || maxAttempts - 1 > longest {
      return start, None, 0, [];
    }
    var delays := new int64[maxAttempts - 1];
    for i := 0 to maxAttempts - 1
      invariant forall j :: 0 <= j < i ==> delays[j] == Wrap(base * Pow2(j))
    {
      WrapMul(base, Pow2(i));
      delays[i] := Wrap(base * Wrap(Pow2(i)));
    }
    var v;
    end, v, calls, waits := Retry(Config(maxAttempts, delays[..]), retriable, done, interrupted, fn, start);
    verdict := Some(v);
  }

  lemma {:induction false} Pow2Monotone(i: nat, j: nat)
    requires i <= j
    ensures Pow2(i) <= Pow2(j)
  {
    if i < j {
      Pow2Monotone(i, j - 1);
    }
  }

  /** No delay overflows exactly when the longest one fits. */
  lemma BackoffExactIff(base: int64, delays: seq<int64>)
    requires base >= 0 && Backoff(base, delays) && delays != []
    ensures (forall i :: 0 <= i < |delays| ==> delays[i] == base * Pow2(i)) <==> base * Pow2(|delays| - 1) < TWO_63
  {
    var longest := |delays| - 1;
    assert delays[longest] == base * Pow2(longest) <==> base * Pow2(longest) < TWO_63 by {
      FitsIff(base, longest, longest);
    }
    if base * Pow2(longest) < TWO_63 {
      forall i | 0 <= i < |delays|
        ensures delays[i] == base * Pow2(i)
      {
        FitsIff(base, i, longest);
      }
    }
  }

  lemma FitsIff(base: int64, i: nat, longest: nat)
    requires base >= 0 && i <= longest
    ensures Wrap(base * Pow2(i)) == base * Pow2(i) <==> base * Pow2(i) < TWO_63
    ensures base * Pow2(i) <= base * Pow2(longest)
  {
    Pow2Monotone(i, longest);
    MulMonotone(base, 0, Pow2(i));
    MulMonotone(base, Pow2(i), Pow2(longest));
    WrapFitsIff(base * Pow2(i));
  }

  lemma WrapFitsIff(x: int)
    requires x >= 0
    ensures Wrap(x) == x <==> x < TWO_63
  {
  }

  lemma MulMonotone(x: int, y: int, z: int)
    requires x >= 0 && y <= z
    ensures x * y <= x * z
  {
  }

  /** The exact delays add up to a geometric sum. */
  lemma {:induction false} BackoffTotal(base: int64, delays: seq<int64>)
    requires forall i :: 0 <= i < |delays| ==> delays[i] == base * Pow2(i)
    ensures Total(delays) == base * (Pow2(|delays|) - 1)
  {
    if delays != [] {
      var n := |delays| - 1;
      BackoffTotal(base, delays[..n]);
      assert base * (Pow2(n) - 1) + base * Pow2(n) == base * (Pow2(n + 1) - 1);
    }
  }

  /** Giving up after all attempts has waited `base * (2^(maxAttempts - 1) - 1)` in all, when
      no delay overflows. */
  lemma GivingUpWaits<E>(maxAttempts: int, base: int64, delays: seq<int64>, retriable: E -> bool, done: nat -> bool,
                         interrupted: nat -> bool, outcome: nat -> Option<E>, calls: nat, waits: seq<int64>, e: E)
    requires maxAttempts >= 1 && base >= 0 && |delays| == maxAttempts - 1 && Backoff(base, delays)
    requires maxAttempts >= 2 ==> base * Pow2(maxAttempts - 2) < TWO_63
    requires Retries(Config(maxAttempts, delays), retriable, done, interrupted, outcome, calls, waits, GaveUp(e))
    ensures calls == maxAttempts && Total(waits) == base * (Pow2(maxAttempts - 1) - 1)
  {
    assert waits == delays;
    if delays != [] {
      BackoffExactIff(base, delays);
    }
    BackoffTotal(base, delays);
  }
}
