/**
 The batch handler's grouping in front of the database: what a grouped transaction does, and
 when it commits although the items would not, or the other way round. Grouping adds deltas
 with wrap-around, PostgreSQL adds them exactly.
 */
module GroupedTransactions {
  import opened Wrappers
  import opened Int64
  import opened Metrics
  import opened MemStorage
  import opened Handlers
  import opened Database

  /** A well-formed batch, grouped and committed as one transaction, leaves the database as the
      original items would leave memory. */
  lemma GroupedTransaction(t: Table, ms: seq<Metric>, unique: seq<Metric>)
    requires Consistent(t) && AllWellFormed(ms) && Enumerates(unique, Grouped(ms))
    requires ExecBatch(t, unique).Success?
    ensures
      var u := ExecBatch(t, unique).value;
      Consistent(u) && Abstract(u) == Replay(Abstract(t), ms)
  {
    ExecBatchSimulates(t, unique);
    CoalescingPreservesMeaning(Abstract(t), ms, unique);
  }

  predicate NamesAccepted(ms: seq<Metric>) {
    forall i :: 0 <= i < |ms| ==> NameAccepted(ms[i].id)
  }

  // ---------------------------------------------------------------- one by one

  /** No step of the batch has wrapped: every counter is its old value plus the exact sum. */
  lemma {:induction false} ExactReplay(st: Store, ms: seq<Metric>, name: string)
    requires AllAcceptable(st, ms)
    ensures Count(Replay(st, ms), name) == Count(st, name) + CounterSum(ms, name).GetOr(0)
  {
    if ms != [] {
      var before, m := ms[..|ms| - 1], ms[|ms| - 1];
      ExactReplay(st, before, name);
      UpdateCount(Replay(st, before), m, name);
      if IsCounter(m) && m.id == name {
        WrapMeans(Count(Replay(st, before), name) + m.delta.value);
      }
    }
  }

  /** The counter fits after the first `n` items. */
  predicate SumFits(st: Store, ms: seq<Metric>, n: nat, name: string)
    requires n <= |ms|
  {
    InRange(Count(st, name) + CounterSum(ms[..n], name).GetOr(0))
  }

  /** After each item every counter fits. */
  ghost predicate PartialSumsFit(st: Store, ms: seq<Metric>) {
    forall n: nat, name :: n <= |ms| ==> SumFits(st, ms, n, name)
  }

  lemma PartialSumsFitDown(st: Store, ms: seq<Metric>)
    requires ms != [] && PartialSumsFit(st, ms)
    ensures PartialSumsFit(st, ms[..|ms| - 1])
  {
    var before := ms[..|ms| - 1];
    forall n: nat, name: string | n <= |before|
      ensures SumFits(st, before, n, name)
    {
      assert SumFits(st, ms, n, name);
      assert before[..n] == ms[..n];
    }
  }

  /** The items of a well-formed batch are acceptable one after the other exactly when all names
      are accepted and all partial sums fit. */
  lemma {:induction false} AcceptableIff(st: Store, ms: seq<Metric>)
    requires AllWellFormed(ms)
    ensures AllAcceptable(st, ms) <==> NamesAccepted(ms) && PartialSumsFit(st, ms)
  {
    if ms == [] {
      forall n: nat, name: string | n <= |ms|
        ensures SumFits(st, ms, n, name)
      {
      }
    } else {
      var before := ms[..|ms| - 1];
      AcceptableIff(st, before);
      if AllAcceptable(st, ms) {
        AcceptableFits(st, ms);
      }
      if NamesAccepted(ms) && PartialSumsFit(st, ms) {
        PartialSumsFitDown(st, ms);
        FitsAcceptable(st, ms);
      }
    }
  }

  lemma AcceptableFits(st: Store, ms: seq<Metric>)
    requires ms != [] && AllAcceptable(st, ms) && AllWellFormed(ms)
    requires NamesAccepted(ms[..|ms| - 1]) && PartialSumsFit(st, ms[..|ms| - 1])
    ensures NamesAccepted(ms) && PartialSumsFit(st, ms)
  {
    forall n: nat, name: string | n <= |ms|
      ensures SumFits(st, ms, n, name)
    {
      if n == |ms| {
        assert ms[..n] == ms;
        ExactReplay(st, ms, name);
      } else {
        assert SumFits(st, ms[..|ms| - 1], n, name);
        assert ms[..n] == ms[..|ms| - 1][..n];
      }
    }
  }

  lemma FitsAcceptable(st: Store, ms: seq<Metric>)
    requires ms != [] && AllWellFormed(ms) && NamesAccepted(ms) && PartialSumsFit(st, ms)
    requires AllAcceptable(st, ms[..|ms| - 1])
    ensures AllAcceptable(st, ms)
  {
    var m := ms[|ms| - 1];
    if IsCounter(m) {
      ExactReplay(st, ms[..|ms| - 1], m.id);
      assert ms[..|ms|] == ms;
      assert SumFits(st, ms, |ms|, m.id);
    }
  }

  /** When the transaction of the single items commits. */
  lemma ItemsCommitIff(t: Table, ms: seq<Metric>)
    requires Consistent(t) && AllWellFormed(ms)
    ensures ExecBatch(t, ms).Success? <==> NamesAccepted(ms) && PartialSumsFit(Abstract(t), ms)
  {
    ExecBatchSimulates(t, ms);
    AcceptableIff(Abstract(t), ms);
  }

  // ---------------------------------------------------------------- grouped

  /** Every group is acceptable on its own. */
  predicate EachAcceptable(st: Store, unique: seq<Metric>) {
    forall i :: 0 <= i < |unique| ==> Acceptable(st, unique[i])
  }

  /** Metrics with different keys do not get into each other's way. */
  lemma {:induction false} DistinctAcceptableIff(st: Store, unique: seq<Metric>)
    requires AllWellFormed(unique)
    requires forall i, j :: 0 <= i < j < |unique| ==> Key(unique[i]) != Key(unique[j])
    ensures AllAcceptable(st, unique) <==> EachAcceptable(st, unique)
  {
    if unique != [] {
      var n := |unique| - 1;
      var front, m := unique[..n], unique[n];
      DistinctAcceptableIff(st, front);
      if IsCounter(m) {
        OthersDoNotCount(st, front, m);
      }
    }
  }

  lemma OthersDoNotCount(st: Store, front: seq<Metric>, m: Metric)
    requires AllWellFormed(front) && IsCounter(m)
    requires forall i :: 0 <= i < |front| ==> Key(front[i]) != Key(m)
    ensures Count(Replay(st, front), m.id) == Count(st, m.id)
  {
    forall i | 0 <= i < |front|
      ensures !(IsCounter(front[i]) && front[i].id == m.id)
    {
      KeyInjective(front[i], m);
    }
    OnlyCounter(front, m.id, |front|);
    ReplayCounter(st, front, m.id);
    WrapMeans(Count(st, m.id));
  }

  /** The delta of a group is the wrapped sum of the deltas of its items. */
  lemma GroupDelta(ms: seq<Metric>, unique: seq<Metric>, i: nat)
    requires AllWellFormed(ms) && Enumerates(unique, Grouped(ms)) && i < |unique| && IsCounter(unique[i])
    ensures CounterSum(ms, unique[i].id).Some?
    ensures unique[i].delta.value == Wrap(CounterSum(ms, unique[i].id).value)
  {
    var name := unique[i].id;
    GroupsKeepTotals(ms, unique);
    forall j | 0 <= j < |unique| && j != i
      ensures !(IsCounter(unique[j]) && unique[j].id == name)
    {
      KeyInjective(unique[j], unique[i]);
    }
    OnlyCounter(unique, name, i);
    DeltaIsWrapped(unique[i].delta.value, CounterSum(unique, name), CounterSum(ms, name));
  }

  lemma DeltaIsWrapped(delta: int64, x: Option<int>, y: Option<int>)
    requires SameSum(x, y) && x == Some(delta)
    ensures y.Some? && delta == Wrap(y.value)
  {
    WrapIsCongruence(delta, y.value);
    WrapMeans(delta);
  }

  /** Every counter of the batch has its group. */
  lemma GroupOfCounter(ms: seq<Metric>, unique: seq<Metric>, name: string) returns (i: nat)
    requires AllWellFormed(ms) && Enumerates(unique, Grouped(ms)) && CounterSum(ms, name).Some?
    ensures i < |unique| && IsCounter(unique[i]) && unique[i].id == name
  {
    GroupsKeepTotals(ms, unique);
    assert SameSum(CounterSum(unique, name), CounterSum(ms, name));
    if forall j :: 0 <= j < |unique| ==> !(IsCounter(unique[j]) && unique[j].id == name) {
      OnlyCounter(unique, name, |unique|);
      assert false;
    }
    i :| 0 <= i < |unique| && IsCounter(unique[i]) && unique[i].id == name;
  }

  lemma ItemOfGroup(ms: seq<Metric>, unique: seq<Metric>, i: nat) returns (j: nat)
    requires Enumerates(unique, Grouped(ms)) && i < |unique|
    ensures j < |ms| && ms[j].id == unique[i].id
  {
    j := GroupIsLast(ms, Key(unique[i]));
  }

  lemma GroupOfItem(ms: seq<Metric>, unique: seq<Metric>, j: nat) returns (i: nat)
    requires AllWellFormed(ms) && AllWellFormed(unique) && Enumerates(unique, Grouped(ms)) && j < |ms|
    ensures i < |unique| && unique[i].id == ms[j].id
  {
    KeysGrouped(ms, j);
    i :| 0 <= i < |unique| && Key(unique[i]) == Key(ms[j]);
    KeyInjective(unique[i], ms[j]);
  }

  /** The groups have the names of the items. */
  lemma SameNames(ms: seq<Metric>, unique: seq<Metric>)
    requires AllWellFormed(ms) && AllWellFormed(unique) && Enumerates(unique, Grouped(ms))
    ensures NamesAccepted(unique) <==> NamesAccepted(ms)
  {
    if NamesAccepted(ms) {
      forall i | 0 <= i < |unique|
        ensures NameAccepted(unique[i].id)
      {
        var j := ItemOfGroup(ms, unique, i);
      }
    }
    if NamesAccepted(unique) {
      forall j | 0 <= j < |ms|
        ensures NameAccepted(ms[j].id)
      {
        var i := GroupOfItem(ms, unique, j);
      }
    }
  }

  /** What a counter gets from its group, added to what the table has, fits. */
  predicate WrappedFits(st: Store, ms: seq<Metric>, name: string) {
    CounterSum(ms, name).Some? ==> InRange(Count(st, name) + Wrap(CounterSum(ms, name).value))
  }

  ghost predicate AllWrappedFit(st: Store, ms: seq<Metric>) {
    forall name :: WrappedFits(st, ms, name)
  }

  lemma EachAcceptableIff(st: Store, ms: seq<Metric>, unique: seq<Metric>)
    requires AllWellFormed(ms) && Enumerates(unique, Grouped(ms))
    ensures EachAcceptable(st, unique) <==> NamesAccepted(unique) && AllWrappedFit(st, ms)
  {
    GroupsKeepTotals(ms, unique);
    if EachAcceptable(st, unique) {
      forall name: string
        ensures WrappedFits(st, ms, name)
      {
        if CounterSum(ms, name).Some? {
          var i := GroupOfCounter(ms, unique, name);
          GroupDelta(ms, unique, i);
          assert Acceptable(st, unique[i]);
        }
      }
    }
    if NamesAccepted(unique) && AllWrappedFit(st, ms) {
      forall i | 0 <= i < |unique|
        ensures Acceptable(st, unique[i])
      {
        if IsCounter(unique[i]) {
          GroupDelta(ms, unique, i);
          assert WrappedFits(st, ms, unique[i].id);
        }
      }
    }
  }

  /** A grouped transaction commits exactly when the names are accepted and the wrapped sum of
      each counter fits, so the order of the map does not matter. */
  lemma GroupedCommitsIff(t: Table, ms: seq<Metric>, unique: seq<Metric>)
    requires Consistent(t) && AllWellFormed(ms) && Enumerates(unique, Grouped(ms))
    ensures ExecBatch(t, unique).Success? <==> NamesAccepted(ms) && AllWrappedFit(Abstract(t), ms)
  {
    GroupsKeepTotals(ms, unique);
    ExecBatchSimulates(t, unique);
    DistinctAcceptableIff(Abstract(t), unique);
    EachAcceptableIff(Abstract(t), ms, unique);
    SameNames(ms, unique);
  }

  // ---------------------------------------------------------------- the one against the other

  lemma WrappedFitsIff(st: Store, ms: seq<Metric>, name: string)
    requires SumFits(st, ms, |ms|, name)
    ensures WrappedFits(st, ms, name) <==> InRange(CounterSum(ms, name).GetOr(0))
  {
    assert ms[..|ms|] == ms;
    WrapMeans(CounterSum(ms, name).GetOr(0));
  }

  /** When the items would commit, grouping them keeps them from it exactly when the deltas of
      some counter add up to more than an int64 can hold. */
  lemma {:induction false} GroupingKeepsAcceptanceIff(t: Table, ms: seq<Metric>, unique: seq<Metric>)
    requires Consistent(t) && AllWellFormed(ms) && Enumerates(unique, Grouped(ms))
    requires ExecBatch(t, ms).Success?
    ensures ExecBatch(t, unique).Success? <==> SumsInRange(ms)
  {
    ItemsCommitIff(t, ms);
    GroupedCommitsIff(t, ms, unique);
    AllWrappedFitIff(Abstract(t), ms);
  }

  /** Every counter's exact sum is in range. */
  ghost predicate SumsInRange(ms: seq<Metric>) {
    forall name :: InRange(CounterSum(ms, name).GetOr(0))
  }

  lemma AllWrappedFitIff(st: Store, ms: seq<Metric>)
    requires PartialSumsFit(st, ms)
    ensures AllWrappedFit(st, ms) <==> SumsInRange(ms)
  {
    if AllWrappedFit(st, ms) {
      forall name: string
        ensures InRange(CounterSum(ms, name).GetOr(0))
      {
        assert WrappedFits(st, ms, name) && SumFits(st, ms, |ms|, name);
        WrappedFitsIff(st, ms, name);
      }
    }
    if SumsInRange(ms) {
      forall name: string
        ensures WrappedFits(st, ms, name)
      {
        assert InRange(CounterSum(ms, name).GetOr(0)) && SumFits(st, ms, |ms|, name);
        WrappedFitsIff(st, ms, name);
      }
    }
  }

  /** When the grouped transaction commits, the items would exactly when all partial sums fit. */
  lemma {:induction false} GroupingAddsAcceptanceIff(t: Table, ms: seq<Metric>, unique: seq<Metric>)
    requires Consistent(t) && AllWellFormed(ms) && Enumerates(unique, Grouped(ms))
    requires ExecBatch(t, unique).Success?
    ensures ExecBatch(t, ms).Success? <==> PartialSumsFit(Abstract(t), ms)
  {
    ItemsCommitIff(t, ms);
    GroupedCommitsIff(t, ms, unique);
  }

  // ---------------------------------------------------------------- both ways, by example

  const MAX: int64 := TWO_63 - 1
  const MIN: int64 := -TWO_63

  function Delta(d: int64): Metric {
    Metric("c", COUNTER, Some(d), None, "")
  }

  lemma DeltaSums(x: int64, y: int64, z: int64, name: string)
    ensures CounterSum([Delta(x)], name) == if name == "c" then Some(x) else None
    ensures CounterSum([Delta(x), Delta(y)], name) == if name == "c" then Some(x + y) else None
    ensures CounterSum([Delta(x), Delta(y), Delta(z)], name) == if name == "c" then Some(x + y + z) else None
  {
    assert [Delta(x)][..0] == [];
    assert [Delta(x), Delta(y)][..1] == [Delta(x)];
    assert [Delta(x), Delta(y), Delta(z)][..2] == [Delta(x), Delta(y)];
  }

  lemma TwiceMaxAndOneFit(st: Store)
    requires Count(st, "c") == MIN
    ensures PartialSumsFit(st, [Delta(MAX), Delta(MAX), Delta(1)])
  {
    var ms := [Delta(MAX), Delta(MAX), Delta(1)];
    forall n: nat, name: string | n <= |ms|
      ensures SumFits(st, ms, n, name)
    {
      DeltaSums(MAX, MAX, 1, name);
      assert ms[..1] == [Delta(MAX)] && ms[..2] == [Delta(MAX), Delta(MAX)] && ms[..3] == ms;
    }
  }

  lemma RejectedOrder(t: Table, ms: seq<Metric>) returns (unique: seq<Metric>)
    requires Consistent(t) && AllWellFormed(ms) && ExecBatch(t, ms).Success? && !SumsInRange(ms)
    ensures Enumerates(unique, Grouped(ms)) && ExecBatch(t, unique).Failure?
  {
    unique := OrderStartingWith(ms, []);
    GroupingKeepsAcceptanceIff(t, ms, unique);
  }

  /** A counter at the least int64 takes the deltas max, max and 1 one by one, but not their
      wrapped sum, -1. */
  lemma GroupingCanReject() returns (t: Table, ms: seq<Metric>, unique: seq<Metric>)
    ensures Consistent(t) && AllWellFormed(ms) && Enumerates(unique, Grouped(ms))
    ensures ExecBatch(t, ms).Success? && ExecBatch(t, unique).Failure?
  {
    t, ms := [Row("c", COUNTER, None, Some(MIN))], [Delta(MAX), Delta(MAX), Delta(1)];
    assert ExecBatch(t, ms).Success? by {
      assert t[0].name in CountersOf(t) && CountersOf(t)["c"] == MIN by { CounterRows(t); }
      TwiceMaxAndOneFit(Abstract(t));
      ItemsCommitIff(t, ms);
    }
    assert !SumsInRange(ms) by {
      DeltaSums(MAX, MAX, 1, "c");
      assert !InRange(CounterSum(ms, "c").GetOr(0));
    }
    unique := RejectedOrder(t, ms);
  }

  lemma MaxAndOneWrappedFit()
    ensures AllWrappedFit(EMPTY, [Delta(MAX), Delta(1)])
  {
    forall name: string
      ensures WrappedFits(EMPTY, [Delta(MAX), Delta(1)], name)
    {
      DeltaSums(MAX, 1, 0, name);
    }
  }

  lemma MaxAndOneDoNotFit()
    ensures !PartialSumsFit(EMPTY, [Delta(MAX), Delta(1)])
  {
    var ms := [Delta(MAX), Delta(1)];
    DeltaSums(MAX, 1, 0, "c");
    assert ms[..2] == ms;
    assert !SumFits(EMPTY, ms, 2, "c");
  }

  lemma AcceptedOrder(t: Table, ms: seq<Metric>) returns (unique: seq<Metric>)
    requires Consistent(t) && AllWellFormed(ms) && NamesAccepted(ms) && AllWrappedFit(Abstract(t), ms)
    ensures Enumerates(unique, Grouped(ms)) && ExecBatch(t, unique).Success?
  {
    unique := OrderStartingWith(ms, []);
    GroupedCommitsIff(t, ms, unique);
  }

  /** An empty table takes the wrapped sum of max and 1, but not the two deltas. */
  lemma GroupingCanAccept() returns (t: Table, ms: seq<Metric>, unique: seq<Metric>)
    ensures Consistent(t) && AllWellFormed(ms) && Enumerates(unique, Grouped(ms))
    ensures ExecBatch(t, ms).Failure? && ExecBatch(t, unique).Success?
  {
    t, ms := [], [Delta(MAX), Delta(1)];
    assert Abstract(t) == EMPTY;
    assert ExecBatch(t, ms).Failure? by {
      MaxAndOneDoNotFit();
      ItemsCommitIff(t, ms);
    }
    MaxAndOneWrappedFit();
    unique := AcceptedOrder(t, ms);
  }
}
