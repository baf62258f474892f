/**
 The batch handler: verify every item, group the batch by `ID_type`, apply the groups in
 whatever order the map is ranged over.
 */
module Handlers {
  import opened Http
  import opened Wrappers
  import opened Int64
  import opened Metrics
  import opened MemStorage
  import opened Signing

  /** The grouping key made of an ID and a type. */
  function KeyOf(id: string, mtype: string): string {
    id + "_" + mtype
  }

  function Key(m: Metric): string {
    KeyOf(m.id, m.mtype)
  }

  function Combine(existing: Metric, m: Metric): Metric {
    if m.mtype == COUNTER && m.delta.Some? && existing.delta.Some?
    then m.(delta := Some(Wrap(existing.delta.value + m.delta.value)))
    else m
  }

  /** The map the grouping loop has built after the metrics `ms`. */
  function Grouped(ms: seq<Metric>): map<string, Metric> {
    if ms == [] then map[]
    else
      var m := ms[|ms| - 1];
      var before := Grouped(ms[..|ms| - 1]);
      before[Key(m) := if Key(m) in before then Combine(before[Key(m)], m) else m]
  }

  /** `unique` lists the values of `groups`, each key once, in some order. */
  ghost predicate Enumerates(unique: seq<Metric>, groups: map<string, Metric>) {
    && (forall i :: 0 <= i < |unique| ==> Key(unique[i]) in groups && groups[Key(unique[i])] == unique[i])
    && (forall i, j :: 0 <= i < j < |unique| ==> Key(unique[i]) != Key(unique[j]))
    && (forall k :: k in groups ==> exists i :: 0 <= i < |unique| && Key(unique[i]) == k)
  }

  /** The last metric of each key is well-formed. */
  ghost predicate LastsWellFormed(ms: seq<Metric>) {
    forall i :: 0 <= i < |ms| && (forall j :: i < j < |ms| ==> Key(ms[j]) != Key(ms[i])) ==> WellFormed(ms[i])
  }

  // ---------------------------------------------------------------- keys

  lemma GaugeKeyEnd(m: Metric)
    requires m.mtype == GAUGE
    ensures Key(m) == m.id + "_gauge" && |Key(m)| == |m.id| + 6 && Key(m)[|Key(m)| - 1] == 'e'
    ensures Key(m)[..|m.id|] == m.id
  {
  }

  lemma CounterKeyEnd(m: Metric)
    requires m.mtype == COUNTER
    ensures Key(m) == m.id + "_counter" && |Key(m)| == |m.id| + 8 && Key(m)[|Key(m)| - 1] == 'r'
    ensures Key(m)[..|m.id|] == m.id
  {
  }

  /** On the two valid types the key determines ID and type. */
  lemma KeyInjective(a: Metric, b: Metric)
    requires WellFormed(a) && WellFormed(b)
    ensures Key(a) == Key(b) <==> a.id == b.id && a.mtype == b.mtype
  {
    if IsGauge(a) { GaugeKeyEnd(a); } else { CounterKeyEnd(a); }
    if IsGauge(b) { GaugeKeyEnd(b); } else { CounterKeyEnd(b); }
  }

  predicate EndsWith(s: string, end: string) {
    |s| >= |end| && s[|s| - |end|..] == end
  }

  /** Metrics of two different types can share a key exactly when one type ends with an
      underscore and the other type; with an unknown type such as `load_gauge` they can, and a
      bad metric then pushes a good one out of its group. */
  lemma KeysCollideIff(x: string, y: string)
    ensures (exists a, b :: KeyOf(a, x) == KeyOf(b, y) && a != b)
            <==> x != y && (EndsWith(x, "_" + y) || EndsWith(y, "_" + x))
  {
    forall a: string, b: string | KeyOf(a, x) == KeyOf(b, y) && a != b
      ensures x != y && (EndsWith(x, "_" + y) || EndsWith(y, "_" + x))
    {
      if |x| >= |y| {
        SharedKey(a, x, b, y);
      } else {
        SharedKey(b, y, a, x);
      }
    }
    if x != y && EndsWith(x, "_" + y) {
      Collision(x, y);
    } else if x != y && EndsWith(y, "_" + x) {
      Collision(y, x);
    }
  }

  lemma SharedKey(a: string, x: string, b: string, y: string)
    requires KeyOf(a, x) == KeyOf(b, y) && a != b && |x| >= |y|
    ensures x != y && EndsWith(x, "_" + y)
  {
    var key := KeyOf(a, x);
    assert key == (a + "_") + x && key[|a| + 1..] == x;
    assert key == b + ("_" + y) && key[|b|..] == "_" + y;
    assert key[..|a|] == a && key[..|b|] == b;
    assert x[|x| - |y| - 1..] == key[|b|..];
  }

  lemma Collision(x: string, y: string)
    requires EndsWith(x, "_" + y)
    ensures exists a, b :: KeyOf(a, x) == KeyOf(b, y) && a != b
    ensures exists a, b :: KeyOf(a, y) == KeyOf(b, x) && a != b
  {
    var front := x[..|x| - |y| - 1];
    assert x == front + ("_" + y);
    assert KeyOf("", x) == KeyOf("_" + front, y);
  }

  // ---------------------------------------------------------------- grouping keeps the totals

  /** The groups of a well-formed batch, read back per gauge and per counter. */
  ghost predicate Totals(groups: map<string, Metric>, ms: seq<Metric>) {
    && (forall k :: k in groups ==> WellFormed(groups[k]) && Key(groups[k]) == k)
    && (forall name: string :: LastGauge(ms, name)
          == if name + "_gauge" in groups then groups[name + "_gauge"].value else None)
    && (forall name: string ::
          SameSum(if name + "_counter" in groups then groups[name + "_counter"].delta else None, CounterSum(ms, name)))
  }

  lemma NameOfKey(name: string, m: Metric)
    requires WellFormed(m)
    ensures name + "_gauge" == Key(m) <==> IsGauge(m) && m.id == name
    ensures name + "_counter" == Key(m) <==> IsCounter(m) && m.id == name
  {
    KeyInjective(Metric(name, GAUGE, None, Some(Finite(0)), ""), m);
    KeyInjective(Metric(name, COUNTER, Some(0), None, ""), m);
  }

  lemma {:induction false} GroupedTotals(ms: seq<Metric>)
    requires AllWellFormed(ms)
    ensures Totals(Grouped(ms), ms)
  {
    if ms != [] {
      var before, m := ms[..|ms| - 1], ms[|ms| - 1];
      GroupedTotals(before);
      var earlier, groups := Grouped(before), Grouped(ms);
      forall name: string
        ensures LastGauge(ms, name) == if name + "_gauge" in groups then groups[name + "_gauge"].value else None
        ensures SameSum(if name + "_counter" in groups then groups[name + "_counter"].delta else None,
                        CounterSum(ms, name))
      {
        NameOfKey(name, m);
        if Key(m) in earlier {
          KeyInjective(earlier[Key(m)], m);
        }
      }
      if Key(m) in earlier {
        KeyInjective(earlier[Key(m)], m);
      }
    }
  }

  lemma {:induction false} OnlyGauge(ms: seq<Metric>, name: string, i: nat)
    requires i <= |ms|
    requires i < |ms| ==> IsGauge(ms[i]) && ms[i].id == name
    requires forall j :: 0 <= j < |ms| && j != i ==> !(IsGauge(ms[j]) && ms[j].id == name)
    ensures LastGauge(ms, name) == if i < |ms| then ms[i].value else None
  {
    if ms != [] {
      OnlyGauge(ms[..|ms| - 1], name, if i < |ms| then i else |ms| - 1);
    }
  }

  lemma {:induction false} OnlyCounter(ms: seq<Metric>, name: string, i: nat)
    requires i <= |ms|
    requires i < |ms| ==> IsCounter(ms[i]) && ms[i].id == name
    requires forall j :: 0 <= j < |ms| && j != i ==> !(IsCounter(ms[j]) && ms[j].id == name)
    ensures CounterSum(ms, name) == if i < |ms| then Some(ms[i].delta.value) else None
  {
    if ms != [] {
      OnlyCounter(ms[..|ms| - 1], name, if i < |ms| then i else |ms| - 1);
    }
  }

  lemma EnumerationGauge(unique: seq<Metric>, groups: map<string, Metric>, name: string)
    requires Enumerates(unique, groups)
    requires forall k :: k in groups ==> WellFormed(groups[k])
    ensures LastGauge(unique, name) == if name + "_gauge" in groups then groups[name + "_gauge"].value else None
  {
    var k := name + "_gauge";
    forall j | 0 <= j < |unique|
      ensures k == Key(unique[j]) <==> IsGauge(unique[j]) && unique[j].id == name
    {
      NameOfKey(name, unique[j]);
    }
    var i := |unique|;
    if k in groups {
      i :| 0 <= i < |unique| && Key(unique[i]) == k;
    }
    OnlyGauge(unique, name, i);
  }

  lemma EnumerationCounter(unique: seq<Metric>, groups: map<string, Metric>, name: string)
    requires Enumerates(unique, groups)
    requires forall k :: k in groups ==> WellFormed(groups[k])
    ensures CounterSum(unique, name) == if name + "_counter" in groups then groups[name + "_counter"].delta else None
  {
    var k := name + "_counter";
    forall j | 0 <= j < |unique|
      ensures k == Key(unique[j]) <==> IsCounter(unique[j]) && unique[j].id == name
    {
      NameOfKey(name, unique[j]);
    }
    var i := |unique|;
    if k in groups {
      i :| 0 <= i < |unique| && Key(unique[i]) == k;
    }
    OnlyCounter(unique, name, i);
  }

  lemma GroupsKeepTotals(ms: seq<Metric>, unique: seq<Metric>)
    requires AllWellFormed(ms) && Enumerates(unique, Grouped(ms))
    ensures AllWellFormed(unique) && SameTotals(unique, ms)
  {
    GroupedTotals(ms);
    forall name: string
      ensures LastGauge(unique, name) == LastGauge(ms, name)
    {
      GaugeTotal(Grouped(ms), ms, unique, name);
    }
    forall name: string
      ensures SameSum(CounterSum(unique, name), CounterSum(ms, name))
    {
      CounterTotal(Grouped(ms), ms, unique, name);
    }
  }

  lemma GaugeTotal(groups: map<string, Metric>, ms: seq<Metric>, unique: seq<Metric>, name: string)
    requires Totals(groups, ms) && Enumerates(unique, groups)
    ensures LastGauge(unique, name) == LastGauge(ms, name)
  {
    EnumerationGauge(unique, groups, name);
  }

  lemma CounterTotal(groups: map<string, Metric>, ms: seq<Metric>, unique: seq<Metric>, name: string)
    requires Totals(groups, ms) && Enumerates(unique, groups)
    ensures SameSum(CounterSum(unique, name), CounterSum(ms, name))
  {
    EnumerationCounter(unique, groups, name);
  }

  /** Coalescing preserves meaning: for every store and every order of the groups, applying
      the groups is applying the original batch item by item. */
  lemma {:induction false} CoalescingPreservesMeaning(st: Store, ms: seq<Metric>, unique: seq<Metric>)
    requires AllWellFormed(ms) && Enumerates(unique, Grouped(ms))
    ensures AllWellFormed(unique)
    ensures Replay(st, unique) == Replay(st, ms)
  {
    GroupsKeepTotals(ms, unique);
    SameEffect(st, unique, ms);
  }

  /** Of each group, everything but a counter's delta comes from the last metric of its key. */
  lemma {:induction false} GroupIsLast(ms: seq<Metric>, k: string) returns (i: nat)
    requires k in Grouped(ms)
    ensures i < |ms| && Key(ms[i]) == k && (forall j :: i < j < |ms| ==> Key(ms[j]) != k)
    ensures Grouped(ms)[k] == ms[i].(delta := Grouped(ms)[k].delta)
    ensures Grouped(ms)[k].delta.Some? == ms[i].delta.Some?
    ensures ms[i].mtype != "counter" ==> Grouped(ms)[k] == ms[i]
  {
    i := |ms| - 1;
    if Key(ms[i]) != k {
      i := GroupIsLast(ms[..i], k);
    }
  }

  /** The exact sum of the deltas of the metrics with this key, back to the last one without. */
  function TrailingSum(ms: seq<Metric>, k: string): Option<int> {
    if ms == [] then None
    else
      var m, before := ms[|ms| - 1], TrailingSum(ms[..|ms| - 1], k);
      if Key(m) != k then before
      else if m.delta.None? then None
      else Some(before.GetOr(0) + m.delta.value)
  }

  /** For any batch, well-formed or not: the delta of a counter group is the wrapped sum of the
      deltas that came after the last metric of its key without one. */
  lemma {:induction false} GroupDeltaIs(ms: seq<Metric>, id: string)
    ensures
      var k := KeyOf(id, "counter");
      k in Grouped(ms) && (forall i :: 0 <= i < |ms| && Key(ms[i]) == k ==> ms[i].mtype == "counter") ==>
        match TrailingSum(ms, k)
        case None => Grouped(ms)[k].delta == None
        case Some(sum) => Grouped(ms)[k].delta == Some(Wrap(sum))
  {
    var k := KeyOf(id, "counter");
    if ms != [] {
      var before, m := ms[..|ms| - 1], ms[|ms| - 1];
      GroupDeltaIs(before, id);
      if Key(m) == k && m.delta.Some? {
        WrapMeans(m.delta.value);
        WrapAdd(TrailingSum(before, k).GetOr(0), m.delta.value);
        if k !in Grouped(before) {
          NoTrailingSum(before, k);
        }
      }
    }
  }

  lemma {:induction false} NoTrailingSum(ms: seq<Metric>, k: string)
    requires k !in Grouped(ms)
    ensures TrailingSum(ms, k) == None
  {
    if ms != [] {
      NoTrailingSum(ms[..|ms| - 1], k);
    }
  }

  lemma {:induction false} KeysGrouped(ms: seq<Metric>, i: nat)
    requires i < |ms|
    ensures Key(ms[i]) in Grouped(ms)
  {
    if i < |ms| - 1 {
      KeysGrouped(ms[..|ms| - 1], i);
    }
  }

  /** Every group is well-formed exactly when the last metric of every key is. */
  lemma GroupsWellFormedIff(ms: seq<Metric>, unique: seq<Metric>)
    requires Enumerates(unique, Grouped(ms))
    ensures AllWellFormed(unique) <==> LastsWellFormed(ms)
  {
    if AllWellFormed(unique) {
      forall i | 0 <= i < |ms| && (forall j :: i < j < |ms| ==> Key(ms[j]) != Key(ms[i]))
        ensures WellFormed(ms[i])
      {
        LastWellFormed(ms, unique, i);
      }
    }
    if LastsWellFormed(ms) {
      forall u | 0 <= u < |unique|
        ensures WellFormed(unique[u])
      {
        var last := GroupIsLast(ms, Key(unique[u]));
      }
    }
  }

  lemma LastWellFormed(ms: seq<Metric>, unique: seq<Metric>, i: nat)
    requires Enumerates(unique, Grouped(ms)) && AllWellFormed(unique)
    requires i < |ms| && (forall j :: i < j < |ms| ==> Key(ms[j]) != Key(ms[i]))
    ensures WellFormed(ms[i])
  {
    KeysGrouped(ms, i);
    var last := GroupIsLast(ms, Key(ms[i]));
    assert last == i;
    var u :| 0 <= u < |unique| && Key(unique[u]) == Key(ms[i]);
  }

  // ---------------------------------------------------------------- the handler

  /** The grouping loop. */
  method GroupByKey(metrics: seq<Metric>) returns (groups: map<string, Metric>)
    ensures groups == Grouped(metrics)
  {
    groups := map[];
    for i := 0 to |metrics|
      invariant groups == Grouped(metrics[..i])
    {
      var m := metrics[i];
      assert metrics[..i + 1][..i] == metrics[..i];
      if Key(m) in groups {
        m := Combine(groups[Key(m)], m);
      }
      groups := groups[Key(m) := m];
    }
    assert metrics[..|metrics|] == metrics;
  }

  /** The loop over the map, which Go ranges over in an arbitrary order. */
  method Coalesce(metrics: seq<Metric>) returns (unique: seq<Metric>)
    ensures Enumerates(unique, Grouped(metrics))
  {
    var groups := GroupByKey(metrics);
    GroupedKeys(metrics);
    unique := [];
    var rest := groups.Keys;
    while rest != {}
      invariant rest <= groups.Keys
      invariant Enumerates(unique, groups - rest)
      decreases |rest|
    {
      var k :| k in rest;
      TakeOut(groups, unique, rest, k);
      unique, rest := unique + [groups[k]], rest - {k};
    }
    assert groups - {} == groups;
  }

  lemma EnumeratesOneMore(unique: seq<Metric>, groups: map<string, Metric>, m: Metric)
    requires Enumerates(unique, groups) && Key(m) !in groups
    ensures Enumerates(unique + [m], groups[Key(m) := m])
  {
    var more, longer := groups[Key(m) := m], unique + [m];
    forall k | k in more
      ensures exists i :: 0 <= i < |longer| && Key(longer[i]) == k
    {
      if k == Key(m) {
        assert Key(longer[|unique|]) == k;
      } else {
        var i :| 0 <= i < |unique| && Key(unique[i]) == k;
        assert Key(longer[i]) == k;
      }
    }
  }

  /** One group moves from the rest to the list. */
  lemma TakeOut(groups: map<string, Metric>, front: seq<Metric>, rest: set<string>, k: string)
    requires k in rest && rest <= groups.Keys && Key(groups[k]) == k && Enumerates(front, groups - rest)
    ensures Enumerates(front + [groups[k]], groups - (rest - {k}))
  {
    EnumeratesOneMore(front, groups - rest, groups[k]);
    assert groups - (rest - {k}) == (groups - rest)[k := groups[k]];
  }

  lemma {:induction false} GroupedKeys(ms: seq<Metric>)
    ensures forall k :: k in Grouped(ms) ==> Key(Grouped(ms)[k]) == k
  {
    if ms != [] {
      GroupedKeys(ms[..|ms| - 1]);
    }
  }

  class Handlers {
    const storage: MemStorage
    const key: string

    constructor (storage: MemStorage, key: string)
      ensures this.storage == storage && this.key == key
    {
      this.storage, this.key := storage, key;
    }

    /** `metrics` is the decoded body, None when decoding failed. */
    method UpdatesHandler(lib: Library, isJSON: bool, metrics: Option<seq<Metric>>) returns (status: int)
      requires Sound(lib)
      modifies storage
      ensures status == 200 <==>
                && isJSON && metrics.Some? && metrics.value != [] && LastsWellFormed(metrics.value)
                && forall i :: 0 <= i < |metrics.value| ==> VerifyMetricHash(lib, key, metrics.value[i])
      // A well-formed batch has the effect of its items one by one, and with a key nothing
      // else has any effect.
      ensures status == 200 && AllWellFormed(metrics.value) ==>
                storage.Contents() == Replay(old(storage.Contents()), metrics.value)
      ensures status == 200 && key != "" ==> AllWellFormed(metrics.value)
      ensures status == 400 ==> storage.Contents() == old(storage.Contents())
      ensures status == 200 || status == 400 || (status == 500 && key == "")
      ensures status == 400 <==>
                || !isJSON || metrics.None? || metrics.value == []
                || (key != "" && exists i :: 0 <= i < |metrics.value| && !VerifyMetricHash(lib, key, metrics.value[i]))
      // Without one, some order of the groups is applied up to its first malformed group.
      ensures status != 400 ==>
                && metrics.Some?
                && exists unique: seq<Metric> :: (
                    && Enumerates(unique, Grouped(metrics.value))
                    && (status == 500 <==> GoodPrefix(unique) < |unique|)
                    && storage.Contents() == Replay(old(storage.Contents()), unique[..GoodPrefix(unique)]))
    {
      if !isJSON {
        return BAD_REQUEST;
      }
      if metrics.None? || metrics.value == [] {
        return BAD_REQUEST;
      }
      var batch := metrics.value;
      if key != "" {
        for i := 0 to |batch|
          invariant forall j :: 0 <= j < i ==> VerifyMetricHash(lib, key, batch[j]) && WellFormed(batch[j])
          invariant storage.Contents() == old(storage.Contents())
        {
          if !VerifyMetricHash(lib, key, batch[i]) {
            return BAD_REQUEST;
          }
          VerifiedIff(lib, key, batch[i]);
        }
      }
      var unique := Coalesce(batch);
      GroupsWellFormedIff(batch, unique);
      ghost var before := storage.Contents();
      if AllWellFormed(batch) {
        CoalescingPreservesMeaning(before, batch, unique);
      }
      var error := storage.UpdateBatch(unique);
      assert error.None? ==> unique[..GoodPrefix(unique)] == unique;
      status := if error.Some? then INTERNAL_ERROR else OK;
    }
  }

  // ---------------------------------------------------------------- batches that are not all-or-nothing

  /** The groups in the order of `unique` fail, and what was applied before changed the store. */
  ghost predicate AppliedInPart(st: Store, ms: seq<Metric>, unique: seq<Metric>) {
    && Enumerates(unique, Grouped(ms)) && GoodPrefix(unique) < |unique|
    && Replay(st, unique[..GoodPrefix(unique)]) != st
  }

  /** Some group is well-formed and changes the store. */
  ghost predicate SomeGroupMatters(st: Store, ms: seq<Metric>) {
    exists k :: k in Grouped(ms) && WellFormed(Grouped(ms)[k]) && Update(st, Grouped(ms)[k]) != st
  }

  /** Without a key a batch can fail and still change the store, depending on the map order,
      exactly when some last metric is malformed and some well-formed group changes the store. */
  lemma PartialBatchIff(st: Store, ms: seq<Metric>)
    ensures (exists unique :: AppliedInPart(st, ms, unique)) <==> !LastsWellFormed(ms) && SomeGroupMatters(st, ms)
  {
    forall unique | AppliedInPart(st, ms, unique)
      ensures !LastsWellFormed(ms) && SomeGroupMatters(st, ms)
    {
      GroupsWellFormedIff(ms, unique);
      var i := FirstChange(st, unique[..GoodPrefix(unique)]);
      assert Key(unique[i]) in Grouped(ms);
    }
    if !LastsWellFormed(ms) && SomeGroupMatters(st, ms) {
      var k :| k in Grouped(ms) && WellFormed(Grouped(ms)[k]) && Update(st, Grouped(ms)[k]) != st;
      var good := Grouped(ms)[k];
      var bad := MalformedGroup(ms);
      GroupedKeys(ms);
      var unique := OrderStartingWith(ms, [good, bad]);
      assert unique[0] == good && unique[1] == bad;
      assert GoodPrefix(unique) == 1 by {
        assert unique[1..][0] == bad;
      }
      assert unique[..1] == [good] && [good][..0] == [];
      assert Replay(st, [good]) == Update(st, good);
      assert AppliedInPart(st, ms, unique);
    }
  }

  /** A good and a bad metric are enough, on the empty store. */
  lemma TwoItemsAppliedInPart() returns (ms: seq<Metric>, unique: seq<Metric>)
    ensures |ms| == 2 && AppliedInPart(EMPTY, ms, unique)
  {
    var good, bad := Metric("good", GAUGE, None, Some(Finite(0)), ""), Metric("bad", GAUGE, None, None, "");
    ms := [good, bad];
    KeysDiffer(good, bad);
    assert ms[..1] == [good] && [good][..0] == [];
    assert Grouped([good]) == map[Key(good) := good];
    assert Grouped(ms) == map[Key(good) := good, Key(bad) := bad];
    assert !LastsWellFormed(ms) by { assert !WellFormed(ms[1]); }
    assert SomeGroupMatters(EMPTY, ms) by {
      assert "good" in Update(EMPTY, good).gauges;
      assert Key(good) in Grouped(ms);
    }
    PartialBatchIff(EMPTY, ms);
    unique :| AppliedInPart(EMPTY, ms, unique);
  }

  lemma KeysDiffer(a: Metric, b: Metric)
    requires a.mtype == b.mtype && a.id != b.id
    ensures Key(a) != Key(b)
  {
    if |a.id| == |b.id| {
      assert Key(a)[..|a.id|] == a.id && Key(b)[..|b.id|] == b.id;
    }
  }

  /** Every such batch also has an order in which it fails and changes nothing. */
  lemma {:induction false} SomeOrderChangesNothing(st: Store, ms: seq<Metric>) returns (unique: seq<Metric>)
    requires !LastsWellFormed(ms)
    ensures Enumerates(unique, Grouped(ms)) && GoodPrefix(unique) < |unique|
    ensures Replay(st, unique[..GoodPrefix(unique)]) == st
  {
    var bad := MalformedGroup(ms);
    unique := OrderStartingWith(ms, [bad]);
    assert unique[..0] == [];
  }

  lemma MalformedGroup(ms: seq<Metric>) returns (m: Metric)
    requires !LastsWellFormed(ms)
    ensures !WellFormed(m) && Key(m) in Grouped(ms) && Grouped(ms)[Key(m)] == m
  {
    var i :| 0 <= i < |ms| && (forall j :: i < j < |ms| ==> Key(ms[j]) != Key(ms[i])) && !WellFormed(ms[i]);
    KeysGrouped(ms, i);
    GroupedKeys(ms);
    var last := GroupIsLast(ms, Key(ms[i]));
    assert last == i;
    m := Grouped(ms)[Key(ms[i])];
  }

  /** A list of updates that changes a store holds one that changes it. */
  lemma {:induction false} FirstChange(st: Store, ms: seq<Metric>) returns (i: nat)
    requires Replay(st, ms) != st
    ensures i < |ms| && Update(st, ms[i]) != st
  {
    i := |ms| - 1;
    if Replay(st, ms[..i]) != st {
      i := FirstChange(st, ms[..i]);
    }
  }

  /** Any groups with different keys can come first. */
  lemma OrderStartingWith(ms: seq<Metric>, first: seq<Metric>) returns (unique: seq<Metric>)
    requires forall i :: 0 <= i < |first| ==> Key(first[i]) in Grouped(ms) && Grouped(ms)[Key(first[i])] == first[i]
    requires forall i, j :: 0 <= i < j < |first| ==> Key(first[i]) != Key(first[j])
    ensures Enumerates(unique, Grouped(ms)) && first <= unique
  {
    var groups := Grouped(ms);
    var seen := set i | 0 <= i < |first| :: Key(first[i]);
    GroupedKeys(ms);
    assert Enumerates(first, groups - (groups.Keys - seen)) by {
      forall k | k in groups - (groups.Keys - seen)
        ensures exists i :: 0 <= i < |first| && Key(first[i]) == k
      {
      }
    }
    unique := CompleteOrder(groups, first, groups.Keys - seen);
  }

  /** An order of some groups can be completed. */
  lemma {:induction false} CompleteOrder(groups: map<string, Metric>, front: seq<Metric>, rest: set<string>)
    returns (unique: seq<Metric>)
    requires forall k :: k in groups ==> Key(groups[k]) == k
    requires rest <= groups.Keys && Enumerates(front, groups - rest)
    ensures Enumerates(unique, groups) && front <= unique
    decreases |rest|
  {
    if rest == {} {
      assert groups - rest == groups;
      unique := front;
    } else {
      var k :| k in rest;
      TakeOut(groups, front, rest, k);
      unique := CompleteOrder(groups, front + [groups[k]], rest - {k});
    }
  }
}
