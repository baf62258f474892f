/**
 Interval settings: a flag, an environment variable or a JSON text, turned into a duration
 text and parsed to whole seconds.
 */
module Durations {
  import opened Wrappers
  import opened Int64
  import opened Decimal

  const SECOND: int := 1_000_000_000

  datatype DurationError = Invalid | Fractional

  /** The number of digits `s` begins with. */
  function LeadingDigits(s: string): (n: nat)
    ensures n <= |s| && AllDigits(s[..n])
    ensures n < |s| ==> !IsDigit(s[n])
  {
    if s == "" || !IsDigit(s[0]) then 0
    else
      var n := LeadingDigits(s[1..]);
      assert forall i :: 0 < i <= n ==> s[i] == s[1..][..n][i - 1];
      n + 1
  }

  /** The number of characters before the next digit or dot. */
  function UnitLength(s: string): (n: nat)
    ensures n <= |s|
  {
    if s == "" || IsDigit(s[0]) || s[0] == '.' then 0 else 1 + UnitLength(s[1..])
  }

  /** The nanoseconds in a unit of `time.ParseDuration`. */
  function Unit(u: string): Option<nat> {
    if u == "ns" then Some(1)
    else if u == "us" || u == "\U{b5}s" || u == "\U{3bc}s" then Some(1_000)
    else if u == "ms" then Some(1_000_000)
    else if u == "s" then Some(SECOND)
    else if u == "m" then Some(60 * SECOND)
    else if u == "h" then Some(3600 * SECOND)
    else None
  }

  /** The sum of two uint64 values. */
  function AddUint64(x: int, y: int): int {
    if x + y < TWO_64 then x + y else x + y - TWO_64
  }

  /** The loop of `time.ParseDuration` over number-unit pairs, with its overflow checks against
      2^63; `d` is the sum so far, a uint64 that wraps around when both terms are 2^63. */
  function ParseTerms(s: string, d: int): Result<int, DurationError>
    decreases |s|
  {
    if s == "" then Success(d)
    else
      var n := LeadingDigits(s);
      if n < |s| && s[n] == '.' then Failure(Fractional)
      else if n == 0 || Value(s[..n]) > TWO_63 then Failure(Invalid)
      else
        var rest := s[n..];
        var k := UnitLength(rest);
        var unit := Unit(rest[..k]);
        if k == 0 || unit.None? then Failure(Invalid)
        else if Value(s[..n]) > TWO_63 / unit.value then Failure(Invalid)
        else
          var sum := AddUint64(d, Value(s[..n]) * unit.value);
          if sum > TWO_63 then Failure(Invalid) else ParseTerms(rest[k..], sum)
  }

  /** `time.ParseDuration` on texts without a fraction, in nanoseconds. */
  function ParseDuration(s: string): Result<int, DurationError> {
    var negative := s != "" && s[0] == '-';
    var body := if s != "" && (s[0] == '-' || s[0] == '+') then s[1..] else s;
    if body == "0" then Success(0)
    else if body == "" then Failure(Invalid)
    else Signed(ParseTerms(body, 0), negative)
  }

  /** The sign applied to the sum of the terms; 2^63 itself fits only when negated. */
  function Signed(sum: Result<int, DurationError>, negative: bool): Result<int, DurationError> {
    if sum.Failure? then sum
    else if negative then Success(-sum.value)
    else if sum.value > TWO_63 - 1 then Failure(Invalid)
    else sum
  }

  /** Go's division of integers truncates toward zero. */
  function TruncatedQuotient(x: int, y: int): int
    requires y > 0
  {
    if x < 0 then -(-x / y) else x / y
  }

  function ParseDurationToSeconds(s: string): Result<int, DurationError> {
    if s == "" then Failure(Invalid)
    else
      match ParseDuration(s)
      case Failure(e) => Failure(e)
      case Success(d) =>
        var seconds := TruncatedQuotient(d, SECOND);
        if seconds <= 0 then Failure(Invalid) else Success(seconds)
  }

  /** `strconv.Atoi`. */
  function Atoi(s: string): Option<int> {
    var digits := if s != "" && (s[0] == '-' || s[0] == '+') then s[1..] else s;
    if digits == "" || LeadingDigits(digits) < |digits| then None
    else
      var value: int := Value(digits[..|digits|]);
      var n := if s[0] == '-' then -value else value;
      if InRange(n) then Some(n) else None
  }

  /** The text the flag contributes: none when it has its default value. */
  function FromFlag(flag: int, default: int): Option<string> {
    if flag != default then Some(Print(flag) + "s") else None
  }

  /** The text the environment contributes: a bare number counts seconds. */
  function FromEnvironment(env: string): Option<string> {
    if env == "" then None
    else if Atoi(env).Some? then Some(env + "s")
    else Some(env)
  }

  /** The setting in seconds: flag before environment before JSON before default. */
  function Configured(flag: int, default: int, env: string, json: Option<string>): Result<int, DurationError> {
    var text := if FromFlag(flag, default).Some? then FromFlag(flag, default)
                else if FromEnvironment(env).Some? then FromEnvironment(env)
                else json;
    if text.None? then Success(default) else ParseDurationToSeconds(text.value)
  }

  // ---------------------------------------------------------------- print and parse

  lemma {:induction false} LeadingDigitsOf(digits: string, rest: string)
    requires AllDigits(digits) && (rest == "" || !IsDigit(rest[0]))
    ensures LeadingDigits(digits + rest) == |digits|
  {
    if digits == "" {
      assert digits + rest == rest;
    } else {
      assert (digits + rest)[1..] == digits[1..] + rest;
      LeadingDigitsOf(digits[1..], rest);
    }
  }

  /** The largest number of seconds whose nanoseconds fit an int64. */
  const MAX_SECONDS: int := 9223372036

  lemma SecondsTerm(n: nat)
    ensures ParseTerms(Digits(n) + "s", 0) == if n <= MAX_SECONDS then Success(n * SECOND) else Failure(Invalid)
  {
    var s := Digits(n) + "s";
    LeadingDigitsOf(Digits(n), "s");
    ValueOfDigits(n);
    assert s[..|Digits(n)|] == Digits(n) && s[|Digits(n)|..] == "s";
    assert UnitLength("s") == 1 by { assert "s"[1..] == ""; }
    assert "s"[..1] == "s" && "s"[1..] == "";
    assert TWO_63 / SECOND == MAX_SECONDS;
    assert n <= MAX_SECONDS ==> AddUint64(0, n * SECOND) == n * SECOND <= TWO_63;
  }

  lemma MinusInFront(body: string)
    requires |body| >= 2
    ensures ParseDuration("-" + body) == Signed(ParseTerms(body, 0), true)
  {
    var signed := "-" + body;
    assert signed[0] == '-' && signed[1..] == body;
  }

  lemma PrintedSecondsDuration(n: int)
    ensures ParseDuration(Print(n) + "s")
         == if -MAX_SECONDS <= n <= MAX_SECONDS then Success(n * SECOND) else Failure(Invalid)
  {
    var m := if n < 0 then -n else n;
    var body := Digits(m) + "s";
    assert body[0] == Digits(m)[0];
    var sum := ParseTerms(body, 0);
    assert sum == if m <= MAX_SECONDS then Success(m * SECOND) else Failure(Invalid) by { SecondsTerm(m); }
    if n < 0 {
      assert Print(n) + "s" == "-" + body;
      assert ParseDuration("-" + body) == Signed(sum, true) by { MinusInFront(body); }
    } else {
      assert ParseDuration(body) == Signed(sum, false);
    }
  }

  /** Printing `n` seconds and parsing them back gives `n` exactly when 1 <= n <= 9223372036;
      everything else is rejected. */
  lemma PrintedSecondsParse(n: int)
    ensures ParseDurationToSeconds(Print(n) + "s")
         == if 1 <= n <= MAX_SECONDS then Success(n) else Failure(Invalid)
  {
    PrintedSecondsDuration(n);
    WholeSeconds(n);
  }

  lemma WholeSeconds(n: int)
    ensures TruncatedQuotient(n * SECOND, SECOND) == n
  {
  }

  lemma AtoiPrint(n: int)
    ensures Atoi(Print(n)) == if InRange(n) then Some(n) else None
  {
    var digits := Digits(if n < 0 then -n else n);
    LeadingDigitsOf(digits, "");
    assert digits + "" == digits && digits[..|digits|] == digits;
    ValueOfDigits(if n < 0 then -n else n);
    if n < 0 {
      assert Print(n)[0] == '-' && Print(n)[1..] == digits;
    } else {
      assert IsDigit(Print(n)[0]);
    }
  }

  /** A number without a unit is no duration, except zero. */
  lemma BareNumberRejected(n: int)
    ensures ParseDurationToSeconds(Print(n)) == Failure(Invalid)
  {
    var digits := Digits(if n < 0 then -n else n);
    LeadingDigitsOf(digits, "");
    assert digits + "" == digits;
    assert IsDigit(digits[0]);
    if n < 0 {
      assert Print(n)[0] == '-' && Print(n)[1..] == digits;
    }
    assert digits[|digits|..] == "";
  }

  /** Whatever way an integer setting comes in - a flag that differs from the default, the
      environment, or the JSON text with its unit - it is taken as exactly that many seconds
      when its nanoseconds fit an int64 and it is positive, and rejected otherwise. */
  lemma IntegerSettings(n: int, default: int, env: string, json: Option<string>)
    ensures n != default ==>
              Configured(n, default, env, json) == if 1 <= n <= MAX_SECONDS then Success(n) else Failure(Invalid)
    ensures Configured(default, default, Print(n), json)
         == if 1 <= n <= MAX_SECONDS then Success(n) else Failure(Invalid)
    ensures Configured(default, default, "", Some(Print(n) + "s"))
         == if 1 <= n <= MAX_SECONDS then Success(n) else Failure(Invalid)
  {
    PrintedSecondsParse(n);
    AtoiPrint(n);
    BareNumberRejected(n);
  }

  /** A text that is no number, from the environment or from JSON, is parsed as it is; without any
      text the default stands. */
  lemma TextSettings(default: int, text: string, json: Option<string>)
    ensures text != "" && Atoi(text).None? ==>
              Configured(default, default, text, json) == ParseDurationToSeconds(text)
    ensures Configured(default, default, "", Some(text)) == ParseDurationToSeconds(text)
    ensures Configured(default, default, "", None) == Success(default)
  {
  }

  function IfFits(n: int): Option<int> {
    if InRange(n) then Some(n) else None
  }

  lemma UnsignedAtoi(digits: string)
    requires digits != "" && AllDigits(digits)
    ensures Atoi(digits) == IfFits(Value(digits))
  {
    assert IsDigit(digits[0]);
    LeadingDigitsOf(digits, "");
    assert digits + "" == digits && digits[..|digits|] == digits;
  }

  lemma SignedAtoi(sign: char, digits: string)
    requires digits != "" && AllDigits(digits) && (sign == '-' || sign == '+')
    ensures Atoi([sign] + digits) == IfFits(if sign == '-' then 0 - Value(digits) else Value(digits))
  {
    var s := [sign] + digits;
    assert s[0] == sign && s[1..] == digits;
    assert LeadingDigits(digits) == |digits| && digits[..|digits|] == digits by {
      LeadingDigitsOf(digits, "");
      assert digits + "" == digits;
    }
  }

  /** `strconv.Atoi` takes one sign and then digits only. */
  lemma AtoiSigned(digits: string)
    requires digits != "" && AllDigits(digits)
    ensures Atoi(digits) == Atoi("+" + digits) == IfFits(Value(digits))
    ensures Atoi("-" + digits) == IfFits(0 - Value(digits))
  {
    UnsignedAtoi(digits);
    SignedAtoi('+', digits);
    SignedAtoi('-', digits);
  }

  lemma AtoiRejects(s: string, i: nat)
    requires i < |s| && !IsDigit(s[i]) && (i > 0 || (s[0] != '-' && s[0] != '+'))
    ensures Atoi(s) == None
  {
    var digits := if s[0] == '-' || s[0] == '+' then s[1..] else s;
    var j := if digits == s then i else i - 1;
    assert digits[j] == s[i];
    assert digits[..|digits|] == digits;
  }

  // ---------------------------------------------------------------- sums of terms

  datatype TimeUnit = Hours | Minutes | Seconds | Milliseconds | Microseconds | Nanoseconds

  datatype Term = Term(n: nat, unit: TimeUnit)

  function UnitText(u: TimeUnit): string {
    match u
    case Hours => "h"
    case Minutes => "m"
    case Seconds => "s"
    case Milliseconds => "ms"
    case Microseconds => "us"
    case Nanoseconds => "ns"
  }

  /** The nanoseconds in a unit. */
  function Nanos(u: TimeUnit): nat {
    TermNanos(Term(1, u))
  }

  function TermText(term: Term): string {
    Print(term.n) + UnitText(term.unit)
  }

  function Text(terms: seq<Term>): string {
    if terms == [] then "" else TermText(terms[0]) + Text(terms[1..])
  }

  function TermNanos(term: Term): (v: int)
    ensures v >= 0
  {
    match term.unit
    case Hours => term.n * 3_600_000_000_000
    case Minutes => term.n * 60_000_000_000
    case Seconds => term.n * 1_000_000_000
    case Milliseconds => term.n * 1_000_000
    case Microseconds => term.n * 1_000
    case Nanoseconds => term.n
  }

  function Sum(terms: seq<Term>): (sum: int)
    ensures sum >= 0
  {
    if terms == [] then 0 else TermNanos(terms[0]) + Sum(terms[1..])
  }

  /** Where a unit ends. */
  predicate EndsUnit(rest: string) {
    rest == "" || IsDigit(rest[0]) || rest[0] == '.'
  }

  lemma {:induction false} UnitLengthOf(u: string, rest: string)
    requires forall i :: 0 <= i < |u| ==> !IsDigit(u[i]) && u[i] != '.'
    requires EndsUnit(rest)
    ensures UnitLength(u + rest) == |u|
  {
    if u == "" {
      assert u + rest == rest;
    } else {
      assert (u + rest)[1..] == u[1..] + rest;
      UnitLengthOf(u[1..], rest);
    }
  }

  lemma MulMonotone(x: int, y: int, k: nat)
    requires x <= y
    ensures x * k <= y * k
  {
  }

  lemma TimesFits(n: nat, k: nat)
    requires k > 0
    ensures n > TWO_63 / k <==> n * k > TWO_63
    ensures n > TWO_63 ==> n * k > TWO_63
  {
    var q := TWO_63 / k;
    assert q * k <= TWO_63 < q * k + k;
    assert (q + 1) * k == q * k + k;
    if n > q {
      MulMonotone(q + 1, n, k);
    } else {
      MulMonotone(n, q, k);
    }
    if n > TWO_63 {
      MulMonotone(1, k, n);
    }
  }

  /** What a reader makes of the rest after a term worth `v`. */
  function Next(p: (string, int) -> Result<int, DurationError>, rest: string, d: int, v: int)
    : Result<int, DurationError>
  {
    var sum := AddUint64(d, v);
    if v > TWO_63 || sum > TWO_63 then Failure(Invalid) else p(rest, sum)
  }

  lemma OneNumber(n: nat, u: string, k: nat, rest: string, d: int)
    requires u != "" && forall i :: 0 <= i < |u| ==> !IsDigit(u[i]) && u[i] != '.'
    requires Unit(u) == Some(k) && k > 0 && EndsUnit(rest)
    ensures ParseTerms(Digits(n) + u + rest, d) == Next(ParseTerms, rest, d, n * k)
  {
    var digits, tail := Digits(n), u + rest;
    var s := digits + u + rest;
    assert s == digits + tail;
    UnitLengthOf(u, rest);
    LeadingDigitsOf(digits, tail);
    ValueOfDigits(n);
    assert s[..|digits|] == digits && s[|digits|..] == tail && tail[..|u|] == u && tail[|u|..] == rest;
    TimesFits(n, k);
  }

  /** A reader of number-unit terms with Go's overflow checks. */
  ghost predicate ReadsTerms(p: (string, int) -> Result<int, DurationError>) {
    && (forall d :: p("", d) == Success(d))
    && (forall x, d :: p("." + x, d) == Failure(Fractional))
    && forall term, rest, d :: EndsUnit(rest) ==>
         p(TermText(term) + rest, d) == Next(p, rest, d, TermNanos(term))
  }

  lemma OneTerm(term: Term, rest: string, d: int)
    requires EndsUnit(rest)
    ensures ParseTerms(TermText(term) + rest, d) == Next(ParseTerms, rest, d, TermNanos(term))
  {
    OneNumber(term.n, UnitText(term.unit), Nanos(term.unit), rest, d);
    assert term.n * Nanos(term.unit) == TermNanos(term);
  }

  lemma TheLoopReadsTerms()
    ensures ReadsTerms(ParseTerms)
  {
    forall x: string, d: int
      ensures ParseTerms("." + x, d) == Failure(Fractional)
    {
      assert ("." + x)[0] == '.';
    }
    forall term: Term, rest: string, d: int | EndsUnit(rest)
      ensures ParseTerms(TermText(term) + rest, d) == Next(ParseTerms, rest, d, TermNanos(term))
    {
      OneTerm(term, rest, d);
    }
  }

  lemma TextBegins(terms: seq<Term>)
    ensures Text(terms) == "" || IsDigit(Text(terms)[0])
    ensures terms != [] ==> |Text(terms)| >= 2
  {
    if terms != [] {
      assert IsDigit(Digits(terms[0].n)[0]);
    }
  }

  lemma {:induction false} TermsFit(p: (string, int) -> Result<int, DurationError>, terms: seq<Term>, d: nat)
    requires ReadsTerms(p) && d + Sum(terms) <= TWO_63
    ensures p(Text(terms), d) == Success(d + Sum(terms))
  {
    if terms != [] {
      TextBegins(terms[1..]);
      TermsFit(p, terms[1..], d + TermNanos(terms[0]));
    }
  }

  lemma TextThen(terms: seq<Term>, rest: string)
    requires terms != []
    ensures Text(terms) + rest == TermText(terms[0]) + (Text(terms[1..]) + rest)
  {
  }

  lemma {:induction false} TermsThenDot(p: (string, int) -> Result<int, DurationError>, terms: seq<Term>, x: string,
                                        d: nat)
    requires ReadsTerms(p) && d + Sum(terms) <= TWO_63
    ensures p(Text(terms) + "." + x, d) == Failure(Fractional)
  {
    if terms == [] {
      assert Text(terms) + "." + x == "." + x;
    } else {
      TextThen(terms, "." + x);
      assert Text(terms) + "." + x == Text(terms) + ("." + x);
      assert Text(terms[1..]) + "." + x == Text(terms[1..]) + ("." + x);
      TextBegins(terms[1..]);
      TermsThenDot(p, terms[1..], x, d + TermNanos(terms[0]));
    }
  }

  /** A number that begins with its fraction, alone or after terms that fit, is told apart from an
      error. */
  lemma FractionIsTold(terms: seq<Term>, x: string)
    requires terms != [] && Sum(terms) <= TWO_63
    ensures ParseDuration(Text(terms) + "." + x) == Failure(Fractional)
  {
    TheLoopReadsTerms();
    var p := ParseTerms;
    TermsThenDot(p, terms, x, 0);
    TextBegins(terms);
    assert p(Text(terms) + "." + x, 0) == ParseTerms(Text(terms) + "." + x, 0);
    WithSign(Text(terms) + "." + x);
  }

  /** No unit smaller than a microsecond. */
  predicate NoNanoseconds(terms: seq<Term>) {
    forall i :: 0 <= i < |terms| ==> !terms[i].unit.Nanoseconds?
  }

  lemma WholeMicroseconds(term: Term) returns (q: nat)
    requires !term.unit.Nanoseconds?
    ensures TermNanos(term) == 1_000 * q
  {
    match term.unit
    case Hours => q := term.n * 3_600_000_000;
    case Minutes => q := term.n * 60_000_000;
    case Seconds => q := term.n * 1_000_000;
    case Milliseconds => q := term.n * 1_000;
    case Microseconds => q := term.n;
  }

  lemma {:induction false} TermsOverflow(p: (string, int) -> Result<int, DurationError>, terms: seq<Term>, d: nat,
                                         q: nat)
    requires ReadsTerms(p) && NoNanoseconds(terms) && d == 1_000 * q && d <= TWO_63 < d + Sum(terms)
    ensures p(Text(terms), d) == Failure(Invalid)
  {
    if terms != [] {
      TextBegins(terms[1..]);
      var r := WholeMicroseconds(terms[0]);
      if TermNanos(terms[0]) <= TWO_63 && d + TermNanos(terms[0]) <= TWO_63 {
        TermsOverflow(p, terms[1..], d + TermNanos(terms[0]), q + r);
      }
    }
  }

  lemma {:induction false} SumIsWhole(terms: seq<Term>) returns (q: nat)
    requires NoNanoseconds(terms)
    ensures Sum(terms) == 1_000 * q
  {
    if terms == [] {
      q := 0;
    } else {
      var x := WholeMicroseconds(terms[0]);
      var y := SumIsWhole(terms[1..]);
      q := x + y;
    }
  }

  /** Number-unit terms that fit together parse to the sum of what they mean, with either sign;
      with units of a microsecond or more, terms that do not fit are rejected. */
  lemma TermsParse(terms: seq<Term>)
    requires terms != []
    ensures Sum(terms) < TWO_63 ==> ParseDuration(Text(terms)) == Success(Sum(terms))
    ensures Sum(terms) < TWO_63 ==> ParseDuration("+" + Text(terms)) == Success(Sum(terms))
    ensures Sum(terms) <= TWO_63 ==> ParseDuration("-" + Text(terms)) == Success(-Sum(terms))
    ensures NoNanoseconds(terms) && Sum(terms) >= TWO_63 ==> ParseDuration(Text(terms)) == Failure(Invalid)
  {
    TextBegins(terms);
    TermsSum(terms);
    WithSign(Text(terms));
    if NoNanoseconds(terms) {
      var q := SumIsWhole(terms);
    }
  }

  lemma TermsSum(terms: seq<Term>)
    ensures Sum(terms) <= TWO_63 ==> ParseTerms(Text(terms), 0) == Success(Sum(terms))
    ensures NoNanoseconds(terms) && Sum(terms) > TWO_63 ==> ParseTerms(Text(terms), 0) == Failure(Invalid)
  {
    var p := ParseTerms;
    assert p(Text(terms), 0) == ParseTerms(Text(terms), 0);
    TheLoopReadsTerms();
    TermsSumOf(p, terms);
  }

  lemma TermsSumOf(p: (string, int) -> Result<int, DurationError>, terms: seq<Term>)
    requires ReadsTerms(p)
    ensures Sum(terms) <= TWO_63 ==> p(Text(terms), 0) == Success(Sum(terms))
    ensures NoNanoseconds(terms) && Sum(terms) > TWO_63 ==> p(Text(terms), 0) == Failure(Invalid)
  {
    if Sum(terms) <= TWO_63 {
      TermsFit(p, terms, 0);
    } else if NoNanoseconds(terms) {
      TermsOverflow(p, terms, 0, 0);
    }
  }

  lemma WithSign(body: string)
    requires |body| >= 2 && IsDigit(body[0])
    ensures ParseDuration(body) == ParseDuration("+" + body) == Signed(ParseTerms(body, 0), false)
    ensures ParseDuration("-" + body) == Signed(ParseTerms(body, 0), true)
  {
    assert ("+" + body)[1..] == body && ("-" + body)[1..] == body;
  }

  /** One number with a unit. */
  lemma OneUnitParses(n: nat, u: TimeUnit)
    ensures ParseDuration(Print(n) + UnitText(u))
         == if n * Nanos(u) < TWO_63 then Success(n * Nanos(u)) else Failure(Invalid)
  {
    var s := Print(n) + UnitText(u);
    assert TermText(Term(n, u)) + "" == s;
    assert IsDigit(Digits(n)[0]);
    assert n * Nanos(u) == TermNanos(Term(n, u));
    assert ParseTerms(s, 0) == Next(ParseTerms, "", 0, n * Nanos(u)) by { OneTerm(Term(n, u), "", 0); }
    EndOfText(n * Nanos(u));
    WithSign(s);
  }

  lemma EndOfText(v: int)
    requires v >= 0
    ensures Next(ParseTerms, "", 0, v) == if v > TWO_63 then Failure(Invalid) else Success(v)
  {
  }

  /** Hours, minutes and seconds come out as their number of seconds when their nanoseconds fit
      an int64 and they are not all zero, and are rejected otherwise. */
  lemma HoursMinutesSeconds(h: nat, m: nat, s: nat)
    ensures
      var seconds := 3600 * h + 60 * m + s;
      ParseDurationToSeconds(Print(h) + "h" + Print(m) + "m" + Print(s) + "s")
      == if 1 <= seconds <= MAX_SECONDS then Success(seconds) else Failure(Invalid)
  {
    var terms := [Term(h, Hours), Term(m, Minutes), Term(s, Seconds)];
    ThreeTerms(terms[0], terms[1], terms[2]);
    assert Text(terms) == Print(h) + "h" + Print(m) + "m" + Print(s) + "s";
    SecondsOfTerms(terms, 3600 * h + 60 * m + s);
  }

  lemma SecondsOfTerms(terms: seq<Term>, seconds: nat)
    requires terms != [] && NoNanoseconds(terms) && Sum(terms) == seconds * 1_000_000_000
    ensures ParseDurationToSeconds(Text(terms))
         == if 1 <= seconds <= MAX_SECONDS then Success(seconds) else Failure(Invalid)
  {
    TermsParse(terms);
    TextBegins(terms);
    WholeSeconds(seconds);
  }

  lemma FromTheLeft(a: string, b: string, c: string, d: string, e: string, f: string)
    ensures a + b + (c + d + (e + f + "")) == a + b + c + d + e + f
  {
  }

  lemma ThreeTerms(x: Term, y: Term, z: Term)
    ensures Text([x, y, z])
         == Print(x.n) + UnitText(x.unit) + Print(y.n) + UnitText(y.unit) + Print(z.n) + UnitText(z.unit)
    ensures Sum([x, y, z]) == TermNanos(x) + TermNanos(y) + TermNanos(z)
  {
    assert Sum([z]) == TermNanos(z) && Sum([y, z]) == TermNanos(y) + Sum([z]) by {
      assert [y, z][1..] == [z] && [z][1..] == [];
    }
    assert [x, y, z][1..] == [y, z] && [y, z][1..] == [z] && [z][1..] == [];
    assert Text([z]) == TermText(z) + "" && Text([y, z]) == TermText(y) + Text([z]);
    FromTheLeft(Print(x.n), UnitText(x.unit), Print(y.n), UnitText(y.unit), Print(z.n), UnitText(z.unit));
  }

  /** A duration of any terms counts as its whole seconds; less than one is rejected. */
  lemma WholeSecondsCount(terms: seq<Term>)
    requires terms != [] && Sum(terms) < TWO_63
    ensures ParseDurationToSeconds(Text(terms))
         == if Sum(terms) >= 1_000_000_000 then Success(Sum(terms) / 1_000_000_000) else Failure(Invalid)
  {
    TermsParse(terms);
    TextBegins(terms);
  }

  /** A unit that is none of the eight is rejected. */
  lemma UnknownUnit(n: nat, u: string)
    requires u != "" && forall i :: 0 <= i < |u| ==> !IsDigit(u[i]) && u[i] != '.'
    requires u !in ["h", "m", "s", "ms", "us", "\U{b5}s", "\U{3bc}s", "ns"]
    ensures ParseDuration(Print(n) + u) == Failure(Invalid)
  {
    var s := Digits(n) + u;
    LeadingDigitsOf(Digits(n), u);
    UnitLengthOf(u, "");
    assert u + "" == u;
    assert s[..|Digits(n)|] == Digits(n) && s[|Digits(n)|..] == u && u[..|u|] == u;
    assert s[0] == Digits(n)[0] && |s| >= 2;
    assert Unit(u) == None;
  }

  /** Microseconds may be spelled with the micro sign or the Greek letter. */
  lemma MicroSpellings(n: nat)
    ensures ParseDuration(Print(n) + "us") == ParseDuration(Print(n) + "\U{b5}s")
    ensures ParseDuration(Print(n) + "us") == ParseDuration(Print(n) + "\U{3bc}s")
  {
    OneSpelling(n, "us");
    OneSpelling(n, "\U{b5}s");
    OneSpelling(n, "\U{3bc}s");
  }

  lemma OneSpelling(n: nat, u: string)
    requires u in ["us", "\U{b5}s", "\U{3bc}s"]
    ensures ParseDuration(Print(n) + u) == Signed(Next(ParseTerms, "", 0, n * 1_000), false)
  {
    assert Digits(n) + u + "" == Print(n) + u && IsDigit(Digits(n)[0]);
    OneNumber(n, u, 1_000, "", 0);
    WithSign(Print(n) + u);
  }
}
