/**
 Signatures of single metrics: the canonical text, who stamps it and who checks it.
 */
module Signing {
  import opened Wrappers
  import opened Int64
  import opened Metrics
  import Decimal

  /** The two library functions the signatures rest on: hex HMAC-SHA256 of a text under a
      key, and the `%f` form of a float. */
  datatype Library = Library(mac: (string, string) -> string, floatText: Float64 -> string)

  /** A MAC is never the empty string, and `%f` prints no colon. */
  ghost predicate Sound(lib: Library) {
    && (forall data, key :: lib.mac(data, key) != "")
    && (forall v :: ':' !in lib.floatText(v))
  }

  function CalculateHash(lib: Library, data: string, key: string): string {
    if key == "" then "" else lib.mac(data, key)
  }

  predicate VerifyHash(lib: Library, data: string, key: string, expected: string) {
    key == "" || expected == "" || CalculateHash(lib, data, key) == expected
  }

  /** A hash verifies exactly when there is no key, none is expected, or it is the MAC. */
  lemma HashVerifiesIff(lib: Library, data: string, key: string, expected: string)
    requires Sound(lib)
    ensures VerifyHash(lib, data, key, expected) <==> key == "" || expected == "" || expected == lib.mac(data, key)
    ensures VerifyHash(lib, data, key, CalculateHash(lib, data, key))
    ensures CalculateHash(lib, data, key) == "" <==> key == ""
  {
  }

  /** `id:type:value`, the signed text of a well-formed metric. */
  function Canonical(lib: Library, m: Metric): string
    requires WellFormed(m)
  {
    m.id + ":" + m.mtype + ":" + (if IsGauge(m) then lib.floatText(m.value.value) else Decimal.Print(m.delta.value))
  }

  /** The agent's constructor. A malformed metric is stamped too, over the empty text. */
  function NewMetric(lib: Library, id: string, mtype: string, value: Option<Float64>, delta: Option<int64>, key: string)
    : Metric
  {
    var m := Metric(id, mtype, delta, value, "");
    if key == "" then m
    else
      var data := if WellFormed(m) then Canonical(lib, m) else "";
      m.(hash := CalculateHash(lib, data, key))
  }

  /** The server's stamp on its answers. */
  function AddHashToMetrics(lib: Library, key: string, m: Metric): Metric {
    if key == "" || !WellFormed(m) then m else m.(hash := CalculateHash(lib, Canonical(lib, m), key))
  }

  /** The check of one item of a batch. */
  predicate VerifyMetricHash(lib: Library, key: string, m: Metric) {
    if key == "" then true
    else if m.hash == "" then false
    else if m.mtype == COUNTER then
      m.delta.Some? && m.hash == CalculateHash(lib, m.id + ":" + m.mtype + ":" + Decimal.Print(m.delta.value), key)
    else if m.mtype == GAUGE then
      m.value.Some? && m.hash == CalculateHash(lib, m.id + ":" + m.mtype + ":" + lib.floatText(m.value.value), key)
    else false
  }

  /** The check of a single-metric request: `header` is the hash header ("" when absent) and
      `parsed` the metric in the body, None when the body is not one. */
  predicate CheckJSONHash(lib: Library, key: string, body: string, header: string, parsed: Option<Metric>) {
    if key == "" then true
    else if header == "none" then true
    else if parsed.None? then false
    else if parsed.value.hash == "" && header == "" then true
    else if header != "" then VerifyHash(lib, body, key, header)
    else
      WellFormed(parsed.value) && VerifyHash(lib, Canonical(lib, parsed.value), key, parsed.value.hash)
  }

  /** An item passes exactly when it is well-formed and carries the MAC of its canonical text. */
  lemma VerifiedIff(lib: Library, key: string, m: Metric)
    requires Sound(lib) && key != ""
    ensures VerifyMetricHash(lib, key, m) <==> WellFormed(m) && m.hash == lib.mac(Canonical(lib, m), key)
  {
    if WellFormed(m) {
      assert lib.mac(Canonical(lib, m), key) != "";
    }
  }

  /** The parts of a metric the agent is about to build make up a gauge or a counter. */
  predicate Complete(mtype: string, value: Option<Float64>, delta: Option<int64>) {
    (mtype == "gauge" && value.Some?) || (mtype == "counter" && delta.Some?)
  }

  /** The agent's metric carries what it was given; its hash is empty without a key, the MAC of
      `id:type:value` for a complete metric, and the MAC of the empty text for any other. */
  lemma NewMetricIs(lib: Library, id: string, mtype: string, value: Option<Float64>, delta: Option<int64>, key: string)
    ensures
      var m := NewMetric(lib, id, mtype, value, delta, key);
      && m.id == id && m.mtype == mtype && m.value == value && m.delta == delta
      && (key == "" ==> m.hash == "")
      && (key != "" && mtype == "gauge" && value.Some? ==>
            m.hash == lib.mac(id + ":gauge:" + lib.floatText(value.value), key))
      && (key != "" && mtype == "counter" && delta.Some? ==>
            m.hash == lib.mac(id + ":counter:" + Decimal.Print(delta.value), key))
      && (key != "" && !Complete(mtype, value, delta) ==> m.hash == lib.mac("", key))
  {
    assert id + ":" + mtype + ":" == id + (":" + mtype + ":");
    assert id + ":gauge:" == id + (":" + "gauge" + ":") && id + ":counter:" == id + (":" + "counter" + ":");
  }

  /** What the agent builds passes the server's checks under the same key exactly when it was
      given a complete metric. */
  lemma NewMetricVerifies(lib: Library, id: string, mtype: string, value: Option<Float64>, delta: Option<int64>,
                          key: string, body: string)
    requires Sound(lib) && key != ""
    ensures
      var m := NewMetric(lib, id, mtype, value, delta, key);
      && (VerifyMetricHash(lib, key, m) <==> Complete(mtype, value, delta))
      && (CheckJSONHash(lib, key, body, "", Some(m)) <==> Complete(mtype, value, delta))
  {
    var m := NewMetric(lib, id, mtype, value, delta, key);
    VerifiedIff(lib, key, m);
    assert m.hash != "";
  }

  /** When a single-metric request passes: without a key, with the hash header "none", or with a
      body that is a metric and has no hash anywhere, or whose header is the MAC of the body, or
      that is well-formed and carries the MAC of its canonical text. */
  lemma RequestPassesIff(lib: Library, key: string, body: string, header: string, parsed: Option<Metric>)
    requires Sound(lib)
    ensures CheckJSONHash(lib, key, body, header, parsed) <==>
              || key == "" || header == "none"
              || (&& parsed.Some?
                  && if header != "" then header == lib.mac(body, key)
                     else parsed.value.hash == ""
                          || (WellFormed(parsed.value)
                              && parsed.value.hash == lib.mac(Canonical(lib, parsed.value), key)))
  {
  }

  /** What the server stamps passes the same checks, whatever hash the metric carried before;
      stamping changes nothing but the hash, and nothing at all without a key or a value. */
  lemma StampedMetricVerifies(lib: Library, key: string, m: Metric, body: string)
    requires Sound(lib)
    ensures
      var stamped := AddHashToMetrics(lib, key, m);
      && stamped == m.(hash := stamped.hash)
      && (key == "" || !WellFormed(m) ==> stamped == m)
      && (key != "" && WellFormed(m) ==> stamped.hash == lib.mac(Canonical(lib, m), key))
      && (WellFormed(m) ==> VerifyMetricHash(lib, key, stamped))
      && (WellFormed(m) ==> CheckJSONHash(lib, key, body, "", Some(stamped)))
      && (key != "" && !WellFormed(m) ==> !VerifyMetricHash(lib, key, stamped))
  {
    if key != "" {
      VerifiedIff(lib, key, AddHashToMetrics(lib, key, m));
    }
  }

  /** The last colon splits a text in only one way. */
  lemma LastColon(a: string, x: string, b: string, y: string)
    requires ':' !in x && ':' !in y
    requires a + ":" + x == b + ":" + y
    ensures a == b && x == y
  {
    var text := a + ":" + x;
    assert text[|a|] == ':' && text[|b|] == ':';
    assert forall i :: |a| < i < |text| ==> text[i] == x[i - |a| - 1];
    assert forall i :: |b| < i < |text| ==> text[i] == y[i - |b| - 1];
    assert text[..|a|] == a && text[..|a|] == b;
    assert text[|a| + 1..] == x && text[|a| + 1..] == y;
  }

  /** The signed text determines what is signed, even when the ID contains colons: the ID, the
      type, a counter's delta and a gauge's printed value. */
  lemma CanonicalDetermines(lib: Library, a: Metric, b: Metric)
    requires Sound(lib) && WellFormed(a) && WellFormed(b)
    requires Canonical(lib, a) == Canonical(lib, b)
    ensures a.id == b.id && a.mtype == b.mtype
    ensures IsCounter(a) ==> a.delta == b.delta
    ensures IsGauge(a) ==> lib.floatText(a.value.value) == lib.floatText(b.value.value)
  {
    var x := if IsGauge(a) then lib.floatText(a.value.value) else Decimal.Print(a.delta.value);
    var y := if IsGauge(b) then lib.floatText(b.value.value) else Decimal.Print(b.delta.value);
    if IsCounter(a) { Decimal.PrintHasOnlyDigitsAndSign(a.delta.value, ':'); }
    if IsCounter(b) { Decimal.PrintHasOnlyDigitsAndSign(b.delta.value, ':'); }
    LastColon(a.id + ":" + a.mtype, x, b.id + ":" + b.mtype, y);
    LastColon(a.id, a.mtype, b.id, b.mtype);
    if IsCounter(a) {
      Decimal.PrintInjective(a.delta.value, b.delta.value);
    }
  }
}
