/**
 Base64 with padding (section 4 of RFC 4648), on bytes: a text is the bytes of its characters.
 */
module Base64 {
  import opened Wrappers
  import opened Crypto

  const PAD: Byte := 61  // =

  /** The character for a 6-bit value (Table 1 of RFC 4648). */
  function Symbol(v: nat): (c: Byte)
    requires v < 64
    ensures SymbolValue(c) == Some(v)
    ensures c != PAD && c != 10 && c != 13 && c != 91
  {
    if v < 26 then 65 + v
    else if v < 52 then 97 + v - 26
    else if v < 62 then 48 + v - 52
    else if v == 62 then 43 else 47
  }

  function SymbolValue(c: Byte): (v: Option<nat>)
    ensures v.Some? ==> v.value < 64
  {
    if 65 <= c < 91 then Some(c - 65)
    else if 97 <= c < 123 then Some(c - 97 + 26)
    else if 48 <= c < 58 then Some(c - 48 + 52)
    else if c == 43 then Some(62)
    else if c == 47 then Some(63)
    else None
  }

  /** The four characters of three bytes. */
  function Quantum(a: Byte, b: Byte, c: Byte): seq<Byte> {
    [Symbol(a / 4), Symbol(a % 4 * 16 + b / 16), Symbol(b % 16 * 4 + c / 64), Symbol(c % 64)]
  }

  function Encode(data: seq<Byte>): seq<Byte> {
    if data == [] then []
    else if |data| == 1 then Quantum(data[0], 0, 0)[..2] + [PAD, PAD]
    else if |data| == 2 then Quantum(data[0], data[1], 0)[..3] + [PAD]
    else Quantum(data[0], data[1], data[2]) + Encode(data[3..])
  }

  /** Three bytes out of four 6-bit values. */
  function Assemble(v0: nat, v1: nat, v2: nat, v3: nat): (bytes: seq<Byte>)
    requires v0 < 64 && v1 < 64 && v2 < 64 && v3 < 64
    ensures |bytes| == 3
  {
    [v0 * 4 + v1 / 16, v1 % 16 * 16 + v2 / 4, v2 % 4 * 64 + v3]
  }

  /** The bytes of four characters, of which the last `pads` are padding. */
  function DecodeQuantum(q: seq<Byte>, pads: nat): Option<seq<Byte>>
    requires |q| == 4 && pads <= 2
  {
    var v0, v1 := SymbolValue(q[0]), SymbolValue(q[1]);
    var v2 := if pads == 2 then Some(0) else SymbolValue(q[2]);
    var v3 := if pads >= 1 then Some(0) else SymbolValue(q[3]);
    if v0.None? || v1.None? || v2.None? || v3.None? then None
    else Some(Assemble(v0.value, v1.value, v2.value, v3.value)[..3 - pads])
  }

  function DecodeClean(text: seq<Byte>): Option<seq<Byte>> {
    if text == [] then Some([])
    else if |text| < 4 then None
    else if text[3] != PAD then
      var head, tail := DecodeQuantum(text[..4], 0), DecodeClean(text[4..]);
      if head.None? || tail.None? then None else Some(head.value + tail.value)
    else if |text| > 4 then None
    else DecodeQuantum(text, if text[2] == PAD then 2 else 1)
  }

  /** Line breaks are skipped wherever they are. */
  function Strip(text: seq<Byte>): seq<Byte> {
    if text == [] then []
    else (if text[0] == 10 || text[0] == 13 then [] else [text[0]]) + Strip(text[1..])
  }

  function Decode(text: seq<Byte>): Option<seq<Byte>> {
    DecodeClean(Strip(text))
  }

  /** Three bytes cut into four 6-bit values and put together again. */
  lemma Reassembled(a: Byte, b: Byte, c: Byte)
    ensures Assemble(a / 4, a % 4 * 16 + b / 16, b % 16 * 4 + c / 64, c % 64) == [a, b, c]
  {
    var v1, v2 := a % 4 * 16 + b / 16, b % 16 * 4 + c / 64;
    assert v1 / 16 == a % 4 && v1 % 16 == b / 16;
    assert v2 / 4 == b % 16 && v2 % 4 == c / 64;
  }

  /** Characters are read back as the values they stand for; the last `pads` stand for zero. */
  lemma CharactersDecode(v0: nat, v1: nat, v2: nat, v3: nat, q: seq<Byte>, pads: nat)
    requires v0 < 64 && v1 < 64 && v2 < 64 && v3 < 64 && pads <= 2
    requires (pads >= 1 ==> v3 == 0) && (pads == 2 ==> v2 == 0)
    requires |q| == 4 && q[0] == Symbol(v0) && q[1] == Symbol(v1)
    requires (pads <= 1 ==> q[2] == Symbol(v2)) && (pads == 0 ==> q[3] == Symbol(v3))
    ensures DecodeQuantum(q, pads) == Some(Assemble(v0, v1, v2, v3)[..3 - pads])
  {
  }

  /** The characters of a quantum, with its last `pads` replaced by padding. */
  lemma QuantumRoundTrip(a: Byte, b: Byte, c: Byte, q: seq<Byte>, pads: nat)
    requires pads <= 2 && (pads >= 1 ==> c == 0) && (pads == 2 ==> b == 0)
    requires |q| == 4 && q[..4 - pads] == Quantum(a, b, c)[..4 - pads]
    ensures DecodeQuantum(q, pads) == Some([a, b, c][..3 - pads])
  {
    var v0, v1, v2, v3 := SixBits(a, b, c);
    assert Quantum(a, b, c) == [Symbol(v0), Symbol(v1), Symbol(v2), Symbol(v3)];
    FirstCharacters(q, [Symbol(v0), Symbol(v1), Symbol(v2), Symbol(v3)], 4 - pads);
    CharactersDecode(v0, v1, v2, v3, q, pads);
  }

  lemma FirstCharacters(q: seq<Byte>, full: seq<Byte>, n: nat)
    requires n <= |q| && n <= |full| && q[..n] == full[..n]
    ensures forall i :: 0 <= i < n ==> q[i] == full[i]
  {
    forall i | 0 <= i < n
      ensures q[i] == full[i]
    {
      assert q[..n][i] == full[..n][i];
    }
  }

  /** The four 6-bit values of three bytes. */
  lemma SixBits(a: Byte, b: Byte, c: Byte) returns (v0: nat, v1: nat, v2: nat, v3: nat)
    ensures v0 == a / 4 < 64 && v1 == a % 4 * 16 + b / 16 < 64 && v2 == b % 16 * 4 + c / 64 < 64 && v3 == c % 64 < 64
    ensures Assemble(v0, v1, v2, v3) == [a, b, c]
    ensures c == 0 ==> v3 == 0 && (b == 0 ==> v2 == 0)
  {
    v0, v1, v2, v3 := a / 4, a % 4 * 16 + b / 16, b % 16 * 4 + c / 64, c % 64;
    Reassembled(a, b, c);
  }

  lemma {:induction false} StripClean(text: seq<Byte>)
    requires forall i :: 0 <= i < |text| ==> text[i] != 10 && text[i] != 13
    ensures Strip(text) == text
  {
    if text != [] {
      StripClean(text[1..]);
    }
  }

  /** Encoded text holds no line break and does not begin with a bracket. */
  lemma {:induction false} EncodeIsClean(data: seq<Byte>)
    ensures forall i :: 0 <= i < |Encode(data)| ==> Encode(data)[i] != 10 && Encode(data)[i] != 13
    ensures data != [] ==> |Encode(data)| >= 4 && Encode(data)[0] != 91
  {
    if |data| > 2 {
      EncodeIsClean(data[3..]);
    }
  }

  lemma DecodeThree(a: Byte, b: Byte, c: Byte, tail: seq<Byte>)
    requires DecodeClean(tail).Some?
    ensures DecodeClean(Quantum(a, b, c) + tail) == Some([a, b, c] + DecodeClean(tail).value)
  {
    var q := Quantum(a, b, c);
    QuantumRoundTrip(a, b, c, q, 0);
    assert q[..4 - 0] == q && [a, b, c][..3] == [a, b, c];
    assert (q + tail)[..4] == q && (q + tail)[4..] == tail && (q + tail)[3] == q[3] != PAD;
  }

  lemma OneByte(a: Byte)
    ensures DecodeClean(Encode([a])) == Some([a])
  {
    var text := Quantum(a, 0, 0)[..2] + [PAD, PAD];
    assert Encode([a]) == text;
    QuantumRoundTrip(a, 0, 0, text, 2);
    assert text[2] == PAD && text[3] == PAD;
    assert [a, 0, 0][..1] == [a];
  }

  lemma TwoBytes(a: Byte, b: Byte)
    ensures DecodeClean(Encode([a, b])) == Some([a, b])
  {
    var text := Quantum(a, b, 0)[..3] + [PAD];
    assert Encode([a, b]) == text;
    QuantumRoundTrip(a, b, 0, text, 1);
    assert text[2] != PAD && text[3] == PAD;
    assert [a, b, 0][..2] == [a, b];
  }

  lemma {:induction false} CleanRoundTrip(data: seq<Byte>)
    ensures DecodeClean(Encode(data)) == Some(data)
  {
    if |data| == 1 {
      OneByte(data[0]);
      assert [data[0]] == data;
    } else if |data| == 2 {
      TwoBytes(data[0], data[1]);
      assert [data[0], data[1]] == data;
    } else if |data| > 2 {
      CleanRoundTrip(data[3..]);
      DecodeThree(data[0], data[1], data[2], Encode(data[3..]));
      assert [data[0], data[1], data[2]] + data[3..] == data;
    }
  }

  // ---------------------------------------------------------------- what is not Base64

  predicate Alphabet(c: Byte) {
    65 <= c <= 90 || 97 <= c <= 122 || 48 <= c <= 57 || c == 43 || c == 47
  }

  /** The number of padding characters at the end, two at most. */
  function Pads(text: seq<Byte>): nat {
    if text == [] || text[|text| - 1] != 61 then 0
    else if |text| == 1 || text[|text| - 2] != 61 then 1
    else 2
  }

  predicate Valid(text: seq<Byte>) {
    |text| % 4 == 0 && forall i :: 0 <= i < |text| - Pads(text) ==> Alphabet(text[i])
  }

  lemma QuantumSucceedsIff(q: seq<Byte>, pads: nat)
    requires |q| == 4 && pads <= 2
    ensures DecodeQuantum(q, pads).Some? <==> forall i :: 0 <= i < 4 - pads ==> Alphabet(q[i])
    ensures DecodeQuantum(q, pads).Some? ==> |DecodeQuantum(q, pads).value| == 3 - pads
  {
  }

  lemma ValidTail(text: seq<Byte>)
    requires |text| >= 4 && text[3] != PAD
    ensures Valid(text) <==> (forall i :: 0 <= i < 4 ==> Alphabet(text[i])) && Valid(text[4..])
    ensures |text| > 4 ==> Pads(text) == Pads(text[4..])
  {
    var tail := text[4..];
    if |text| == 4 {
      assert Pads(text) == 0;
    } else {
      assert forall i :: 0 <= i < |tail| ==> tail[i] == text[i + 4];
      if Valid(text) {
        forall i | 0 <= i < |tail| - Pads(tail)
          ensures Alphabet(tail[i])
        {
          assert tail[i] == text[i + 4];
        }
      }
      if (forall i :: 0 <= i < 4 ==> Alphabet(text[i])) && Valid(tail) {
        forall i | 0 <= i < |text| - Pads(text)
          ensures Alphabet(text[i])
        {
          assert i >= 4 ==> text[i] == tail[i - 4];
        }
      }
    }
  }

  /** Text without line breaks decodes exactly when its length is a multiple of four and it has
      only characters of the alphabet before at most two padding characters. */
  lemma {:induction false} DecodesIff(text: seq<Byte>)
    ensures DecodeClean(text).Some? <==> Valid(text)
    ensures DecodeClean(text).Some? ==> |DecodeClean(text).value| == |text| / 4 * 3 - Pads(text)
  {
    if |text| >= 4 {
      if text[3] != PAD {
        assert DecodeQuantum(text[..4], 0).Some? <==> forall i :: 0 <= i < 4 ==> Alphabet(text[i]) by {
          QuantumSucceedsIff(text[..4], 0);
        }
        assert DecodeQuantum(text[..4], 0).Some? ==> |DecodeQuantum(text[..4], 0).value| == 3 by {
          QuantumSucceedsIff(text[..4], 0);
        }
        ValidTail(text);
        DecodesIff(text[4..]);
      } else if |text| > 4 {
        assert !Alphabet(text[3]);
      } else {
        QuantumSucceedsIff(text, if text[2] == PAD then 2 else 1);
      }
    }
  }

  /** A line break anywhere makes no difference. */
  lemma {:induction false} BreaksIgnored(a: seq<Byte>, c: Byte, b: seq<Byte>)
    requires c == 10 || c == 13
    ensures Decode(a + [c] + b) == Decode(a + b)
  {
    StripBreak(a, c, b);
  }

  lemma {:induction false} StripBreak(a: seq<Byte>, c: Byte, b: seq<Byte>)
    requires c == 10 || c == 13
    ensures Strip(a + [c] + b) == Strip(a + b)
  {
    if a == [] {
      assert a + [c] + b == [c] + b && a + b == b && ([c] + b)[1..] == b;
    } else {
      assert (a + [c] + b)[1..] == a[1..] + [c] + b && (a + b)[1..] == a[1..] + b;
      StripBreak(a[1..], c, b);
    }
  }

  lemma EncodesThree(a: Byte, b: Byte, c: Byte)
    ensures Encode([a, b, c]) == Quantum(a, b, c)
  {
    assert [a, b, c][3..] == [];
    assert Quantum(a, b, c) + [] == Quantum(a, b, c);
  }

  lemma FooQuantum()
    ensures Quantum(102, 111, 111) == [90, 109, 57, 118]
  {
    assert Symbol(25) == 90 && Symbol(38) == 109 && Symbol(61) == 57 && Symbol(47) == 118;
  }

  lemma LastSymbols()
    ensures Quantum(251, 239, 255) == [43, 43, 47, 47]
  {
    assert Symbol(62) == 43 && Symbol(63) == 47;
  }

  /** "foo", a test vector of section 10 of RFC 4648, and the last two characters of the alphabet. */
  lemma TestVectors()
    ensures Encode([102, 111, 111]) == [90, 109, 57, 118]
    ensures Encode([251, 239, 255]) == [43, 43, 47, 47]
  {
    assert Encode([102, 111, 111]) == [90, 109, 57, 118] by {
      EncodesThree(102, 111, 111);
      FooQuantum();
    }
    assert Encode([251, 239, 255]) == [43, 43, 47, 47] by {
      EncodesThree(251, 239, 255);
      LastSymbols();
    }
  }

  /** Decoding undoes encoding for every byte string. */
  lemma RoundTrip(data: seq<Byte>)
    ensures Decode(Encode(data)) == Some(data)
  {
    EncodeIsClean(data);
    StripClean(Encode(data));
    CleanRoundTrip(data);
  }
}
