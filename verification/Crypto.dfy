/**
 Encryption of byte strings of any length, block by block, with RSAES-PKCS1-v1_5
 (section 7.2 of RFC 8017). The padding is modelled byte by byte; the RSA primitive itself
 is a pair of functions that undo each other.
 */
module Crypto {
  import opened Wrappers

  type Byte = b: int | 0 <= b < 256

  /** A key: the length of its modulus in bytes, whether the RSA library is willing to use it
      (it may refuse short keys), and the RSA primitive. */
  datatype PublicKey = PublicKey(size: nat, usable: bool, encrypt: seq<Byte> -> seq<Byte>)
  datatype PrivateKey = PrivateKey(size: nat, usable: bool, decrypt: seq<Byte> -> seq<Byte>)

  /** The keys are a pair: decryption undoes encryption on every encoded message (they start
      with a zero byte, so they are smaller than the modulus), and ciphertexts are as long as
      the modulus. */
  ghost predicate Matching(pub: PublicKey, priv: PrivateKey) {
    && pub.size == priv.size && pub.usable && priv.usable
    && forall em: seq<Byte> :: |em| == pub.size && |em| > 0 && em[0] == 0 ==>
         |pub.encrypt(em)| == pub.size && priv.decrypt(pub.encrypt(em)) == em
  }

  /** The padding bytes drawn for block `i` of a message, given how many are needed. */
  type Randomness = (nat, nat) -> seq<Byte>

  ghost predicate NonZero(random: Randomness) {
    forall i, n :: |random(i, n)| == n && forall k :: 0 <= k < n ==> random(i, n)[k] != 0
  }

  /** The last two are no error values: the source panics, or never returns. */
  datatype CryptoError = KeyRefused | MessageTooLong | BadLength | BadBlock | NegativeSlice | EndlessLoop

  /** EM = 0x00 || 0x02 || PS || 0x00 || M (section 7.2.1, step 2). */
  function Pad(ps: seq<Byte>, m: seq<Byte>): seq<Byte> {
    [0, 2] + ps + [0] + m
  }

  /** The position of the first zero byte at or after `i`, or the length. */
  function FirstZero(em: seq<Byte>, i: nat): (z: nat)
    requires i <= |em|
    ensures i <= z <= |em|
    ensures forall k :: i <= k < z ==> em[k] != 0
    ensures z < |em| ==> em[z] == 0
    decreases |em| - i
  {
    if i == |em| || em[i] == 0 then i else FirstZero(em, i + 1)
  }

  /** Section 7.2.2, step 3: at least eight padding bytes, ended by a zero. */
  function Unpad(em: seq<Byte>): Option<seq<Byte>> {
    if |em| < 11 || em[0] != 0 || em[1] != 2 then None
    else
      var z := FirstZero(em, 2);
      if z == |em| || z < 10 then None else Some(em[z + 1..])
  }

  function EncryptData(key: PublicKey, random: Randomness, i: nat, m: seq<Byte>): Result<seq<Byte>, CryptoError> {
    if !key.usable then Failure(KeyRefused)
    else if |m| > key.size - 11 then Failure(MessageTooLong)
    else Success(key.encrypt(Pad(random(i, key.size - |m| - 3), m)))
  }

  function DecryptData(key: PrivateKey, c: seq<Byte>): Result<seq<Byte>, CryptoError> {
    if !key.usable then Failure(KeyRefused)
    else
      match Unpad(key.decrypt(c))
      case None => Failure(BadBlock)
      case Some(m) => Success(m)
  }

  lemma UnpadUndoesPad(ps: seq<Byte>, m: seq<Byte>)
    requires |ps| >= 8 && forall k :: 0 <= k < |ps| ==> ps[k] != 0
    ensures Unpad(Pad(ps, m)) == Some(m)
  {
    var em := Pad(ps, m);
    var z := FirstZero(em, 2);
    assert forall k :: 2 <= k < 2 + |ps| ==> em[k] == ps[k - 2];
    assert em[2 + |ps|] == 0;
    assert z == 2 + |ps|;
    assert em[z + 1..] == m;
  }

  ghost predicate Encodes(ps: seq<Byte>, m: seq<Byte>, em: seq<Byte>) {
    |ps| >= 8 && (forall k :: 0 <= k < |ps| ==> ps[k] != 0) && em == [0, 2] + ps + [0] + m
  }

  /** A block is accepted exactly when it is 00 02, at least eight non-zero bytes, 00 and the message. */
  lemma UnpadIff(em: seq<Byte>, m: seq<Byte>)
    ensures Unpad(em) == Some(m) <==> exists ps :: Encodes(ps, m, em)
  {
    forall ps | Encodes(ps, m, em)
      ensures Unpad(em) == Some(m)
    {
      UnpadUndoesPad(ps, m);
    }
    if Unpad(em) == Some(m) {
      var z := FirstZero(em, 2);
      assert em == [0, 2] + em[2..z] + [0] + em[z + 1..];
      assert Encodes(em[2..z], m, em);
    }
  }

  /** The limit of section 7.2.1, step 1. */
  lemma EncryptDataSucceedsIff(key: PublicKey, random: Randomness, i: nat, m: seq<Byte>)
    ensures EncryptData(key, random, i, m).Success? <==> key.usable && |m| + 11 <= key.size
    ensures EncryptData(key, random, i, m).Failure? ==>
              EncryptData(key, random, i, m) == Failure(if key.usable then MessageTooLong else KeyRefused)
  {
  }

  lemma BlockRoundTrip(key: PublicKey, priv: PrivateKey, random: Randomness, i: nat, m: seq<Byte>)
    requires Matching(key, priv) && NonZero(random) && |m| <= key.size - 11
    ensures EncryptData(key, random, i, m).Success?
    ensures |EncryptData(key, random, i, m).value| == key.size
    ensures DecryptData(priv, EncryptData(key, random, i, m).value) == Success(m)
  {
    var ps := random(i, key.size - |m| - 3);
    assert |ps| == key.size - |m| - 3;
    var em := Pad(ps, m);
    assert |em| == key.size && em[0] == 0;
    UnpadUndoesPad(ps, m);
  }

  // ---------------------------------------------------------------- many blocks

  function Prepend(head: seq<Byte>, tail: Result<seq<Byte>, CryptoError>): Result<seq<Byte>, CryptoError> {
    if tail.Failure? then tail else Success(head + tail.value)
  }

  /** The blocks of `data` from number `i` on, encrypted one after the other. */
  function EncryptBlocks(key: PublicKey, random: Randomness, data: seq<Byte>, i: nat): Result<seq<Byte>, CryptoError>
    requires key.size > 11
    decreases |data|
  {
    if data == [] then Success([])
    else
      var n := if |data| < key.size - 11 then |data| else key.size - 11;
      var head := EncryptData(key, random, i, data[..n]);
      if head.Failure? then head
      else Prepend(head.value, EncryptBlocks(key, random, data[n..], i + 1))
  }

  /** The concatenated plaintexts of the blocks of `data`. */
  function DecryptBlocks(key: PrivateKey, data: seq<Byte>): Result<seq<Byte>, CryptoError>
    requires key.size > 0
    decreases |data|
  {
    if data == [] then Success([])
    else if |data| < key.size then Failure(BadLength)
    else
      var head := DecryptData(key, data[..key.size]);
      if head.Failure? then head
      else Prepend(head.value, DecryptBlocks(key, data[key.size..]))
  }

  /** The number of blocks `length` bytes are cut into: one, and one more for every full block
      in front of the last. */
  function BlockCount(length: nat, blockSize: nat): (n: nat)
    requires blockSize > 0
    ensures n >= 1
    decreases length
  {
    if length <= blockSize then 1 else 1 + BlockCount(length - blockSize, blockSize)
  }

  lemma MulSuccessor(x: int, n: int)
    ensures x * (n + 1) == x * n + x
  {
  }

  /** It is the least number of blocks, at least one, that has room for `length` bytes. */
  lemma {:induction false} BlockCountIsCeiling(length: nat, blockSize: nat)
    requires blockSize > 0
    ensures
      var n := BlockCount(length, blockSize);
      length <= blockSize * n && (n == 1 || blockSize * (n - 1) < length)
    decreases length
  {
    var n := BlockCount(length, blockSize);
    MulSuccessor(blockSize, n - 1);
    if length > blockSize {
      BlockCountIsCeiling(length - blockSize, blockSize);
      MulSuccessor(blockSize, n - 2);
    } else {
      assert blockSize * (n - 1) == 0;
    }
  }

  /** The loop of `EncryptLargeData` always succeeds and puts out one key length per block. */
  lemma {:induction false} BlocksLength(key: PublicKey, priv: PrivateKey, random: Randomness, data: seq<Byte>, i: nat)
    requires Matching(key, priv) && NonZero(random) && key.size > 11
    ensures EncryptBlocks(key, random, data, i).Success?
    ensures data != [] ==>
              |EncryptBlocks(key, random, data, i).value| == key.size * BlockCount(|data|, key.size - 11)
    decreases |data|
  {
    if data != [] {
      var blockSize := key.size - 11;
      var n := if |data| < blockSize then |data| else blockSize;
      BlockRoundTrip(key, priv, random, i, data[..n]);
      BlocksLength(key, priv, random, data[n..], i + 1);
      OneLengthMore(key.size, |data|, blockSize);
    }
  }

  /** One block more takes one key length more. */
  lemma OneLengthMore(size: nat, length: nat, blockSize: nat)
    requires blockSize > 0
    ensures length <= blockSize ==> size * BlockCount(length, blockSize) == size
    ensures length > blockSize ==>
              size * BlockCount(length, blockSize) == size + size * BlockCount(length - blockSize, blockSize)
  {
    if length > blockSize {
      MulSuccessor(size, BlockCount(length - blockSize, blockSize));
    }
  }

  lemma DecryptOneMore(key: PrivateKey, head: seq<Byte>, tail: seq<Byte>, m: seq<Byte>, rest: seq<Byte>)
    requires |head| == key.size > 0
    requires DecryptData(key, head) == Success(m) && DecryptBlocks(key, tail) == Success(rest)
    ensures DecryptBlocks(key, head + tail) == Success(m + rest)
  {
    assert (head + tail)[..key.size] == head && (head + tail)[key.size..] == tail;
  }

  /** The first block and the others come back, so the whole does. */
  lemma JoinBlocks(key: PublicKey, priv: PrivateKey, random: Randomness, data: seq<Byte>, n: nat, i: nat)
    requires key.size == priv.size > 11 && data != []
    requires n == if |data| < key.size - 11 then |data| else key.size - 11
    requires
      var head := EncryptData(key, random, i, data[..n]);
      head.Success? && |head.value| == key.size && DecryptData(priv, head.value) == Success(data[..n])
    requires
      var tail := EncryptBlocks(key, random, data[n..], i + 1);
      tail.Success? && DecryptBlocks(priv, tail.value) == Success(data[n..])
    ensures EncryptBlocks(key, random, data, i).Success?
    ensures DecryptBlocks(priv, EncryptBlocks(key, random, data, i).value) == Success(data)
  {
    var head, tail := EncryptData(key, random, i, data[..n]).value, EncryptBlocks(key, random, data[n..], i + 1).value;
    assert EncryptBlocks(key, random, data, i) == Success(head + tail);
    DecryptOneMore(priv, head, tail, data[..n], data[n..]);
    assert data[..n] + data[n..] == data;
  }

  /** The loop of `DecryptLargeData` undoes it. */
  lemma {:induction false} BlocksRoundTrip(key: PublicKey, priv: PrivateKey, random: Randomness, data: seq<Byte>,
                                           i: nat)
    requires Matching(key, priv) && NonZero(random) && key.size > 11
    ensures EncryptBlocks(key, random, data, i).Success?
    ensures DecryptBlocks(priv, EncryptBlocks(key, random, data, i).value) == Success(data)
    decreases |data|
  {
    if data != [] {
      var n := if |data| < key.size - 11 then |data| else key.size - 11;
      BlockRoundTrip(key, priv, random, i, data[..n]);
      BlocksRoundTrip(key, priv, random, data[n..], i + 1);
      JoinBlocks(key, priv, random, data, n, i);
    }
  }

  /** What `EncryptLargeData` returns: short data, the empty string included, is one block. A
      key of 11 bytes leaves no room in a block, and the loop does not advance; with a shorter
      one the block size is negative. */
  function EncryptLarge(key: PublicKey, random: Randomness, data: seq<Byte>): Result<seq<Byte>, CryptoError> {
    if |data| <= key.size - 11 then EncryptData(key, random, 0, data)
    else if data == [] then Success([])
    else if key.size < 11 then Failure(NegativeSlice)
    else if key.size == 11 then Failure(if key.usable then EndlessLoop else KeyRefused)
    else EncryptBlocks(key, random, data, 0)
  }

  /** The shortcut for one block agrees with the loop on non-empty data. */
  lemma ShortcutAgrees(key: PublicKey, random: Randomness, data: seq<Byte>)
    requires key.size > 11 && data != []
    ensures EncryptLarge(key, random, data) == EncryptBlocks(key, random, data, 0)
  {
    if |data| <= key.size - 11 {
      assert data[..|data|] == data && data[|data|..] == [];
      var c := EncryptData(key, random, 0, data);
      assert c.Success? ==> c.value + [] == c.value;
    }
  }

  /** What `DecryptLargeData` returns. */
  function DecryptLarge(key: PrivateKey, data: seq<Byte>): Result<seq<Byte>, CryptoError>
    requires key.size > 0
  {
    if |data| % key.size != 0 then Failure(BadLength) else DecryptBlocks(key, data)
  }

  lemma EmptyRoundTrip(key: PublicKey, priv: PrivateKey, random: Randomness)
    requires Matching(key, priv) && NonZero(random) && key.size >= 11
    ensures EncryptLarge(key, random, []).Success?
    ensures |EncryptLarge(key, random, []).value| == key.size
    ensures DecryptBlocks(priv, EncryptLarge(key, random, []).value) == Success([])
  {
    BlockRoundTrip(key, priv, random, 0, []);
    var c := EncryptLarge(key, random, []).value;
    var none: seq<Byte> := [];
    assert c[..key.size] == c && c[key.size..] == none;
    assert DecryptBlocks(priv, none) == Success(none) && none + none == none;
  }

  /** Decryption undoes encryption for every byte string, every pair of keys longer than the
      padding and every choice of padding bytes, and the ciphertext has one key length per block. */
  lemma {:induction false} LargeRoundTrip(key: PublicKey, priv: PrivateKey, random: Randomness, data: seq<Byte>)
    requires Matching(key, priv) && NonZero(random) && key.size > 11
    ensures EncryptLarge(key, random, data).Success?
    ensures |EncryptLarge(key, random, data).value| == key.size * BlockCount(|data|, key.size - 11)
    ensures DecryptLarge(priv, EncryptLarge(key, random, data).value) == Success(data)
  {
    if data == [] {
      EmptyRoundTrip(key, priv, random);
    } else {
      ShortcutAgrees(key, random, data);
      BlocksLength(key, priv, random, data, 0);
      BlocksRoundTrip(key, priv, random, data, 0);
    }
    MultipleHasNoRemainder(key.size, BlockCount(|data|, key.size - 11));
  }

  /** The data is made of blocks that each decrypt to an encoded message. */
  predicate AllBlocksGood(key: PrivateKey, data: seq<Byte>)
    requires key.size > 0
    decreases |data|
  {
    data == [] || (&& |data| >= key.size && Unpad(key.decrypt(data[..key.size])).Some?
                   && AllBlocksGood(key, data[key.size..]))
  }

  lemma {:induction false} BlocksDecryptIff(key: PrivateKey, data: seq<Byte>)
    requires key.size > 0 && key.usable && |data| % key.size == 0
    ensures DecryptBlocks(key, data).Success? <==> AllBlocksGood(key, data)
    ensures DecryptBlocks(key, data).Failure? ==> DecryptBlocks(key, data) == Failure(BadBlock)
    decreases |data|
  {
    if data != [] {
      MultipleLeft(|data|, key.size);
      BlocksDecryptIff(key, data[key.size..]);
    }
  }

  /** Data decrypts exactly when it is made of whole blocks that are all good; a length that is no
      multiple of the key's and a bad block are told apart. */
  lemma DecryptsIff(key: PrivateKey, data: seq<Byte>)
    requires key.size > 0 && key.usable
    ensures DecryptLarge(key, data).Success? <==> |data| % key.size == 0 && AllBlocksGood(key, data)
    ensures DecryptLarge(key, data).Failure? ==>
              DecryptLarge(key, data) == Failure(if |data| % key.size != 0 then BadLength else BadBlock)
  {
    if |data| % key.size == 0 {
      BlocksDecryptIff(key, data);
    }
  }

  /** A key the library refuses decrypts nothing but the empty text. */
  lemma RefusedKeyDecryptsNothing(key: PrivateKey, data: seq<Byte>)
    requires key.size > 0 && !key.usable
    ensures DecryptLarge(key, data).Success? <==> data == []
  {
  }

  /** Over all pairs of keys, short ones included, encryption succeeds and comes back exactly
      when the key is longer than the padding or there is nothing to encrypt. */
  lemma {:induction false} RoundTripIff(key: PublicKey, priv: PrivateKey, random: Randomness, data: seq<Byte>)
    requires Matching(key, priv) && NonZero(random) && key.size > 0
    ensures (exists c :: EncryptLarge(key, random, data) == Success(c) && DecryptLarge(priv, c) == Success(data))
            <==> key.size > 11 || data == []
  {
    if key.size > 11 {
      LargeRoundTrip(key, priv, random, data);
    } else if data == [] {
      if key.size == 11 {
        EmptyRoundTrip(key, priv, random);
      } else {
        assert DecryptLarge(priv, []) == Success([]);
      }
    }
  }

  lemma SmallMultiple(d: int, k: int)
    requires d > 0
    ensures k >= 1 ==> d * k >= d
    ensures k <= -1 ==> d * k <= -d
  {
  }

  lemma DivisionUnique(d: nat, q: nat, r: nat)
    requires d > 0 && r < d
    ensures (d * q + r) % d == r
  {
    var n := d * q + r;
    var q', r' := n / d, n % d;
    assert n == d * q' + r' && r' < d;
    assert d * (q - q') == d * q - d * q';
    SmallMultiple(d, q - q');
  }

  lemma MultipleHasNoRemainder(d: nat, n: nat)
    requires d > 0
    ensures (d * n) % d == 0
  {
    DivisionUnique(d, n, 0);
  }

  /** What is left of a multiple after one length is a multiple again. */
  lemma MultipleLeft(n: nat, d: nat)
    requires d > 0 && n > 0 && n % d == 0
    ensures n >= d && (n - d) % d == 0
  {
    var q := n / d;
    assert n == d * q;
    assert q > 0;
    MulSuccessor(d, q - 1);
    MultipleHasNoRemainder(d, q - 1);
  }

  // ---------------------------------------------------------------- the loops

  /** `encrypted` is what the blocks before number `block`, the bytes before `i`, have become. */
  predicate Encrypted(key: PublicKey, random: Randomness, data: seq<Byte>, encrypted: seq<Byte>, i: nat, block: nat)
    requires key.size > 11 && i <= |data|
  {
    EncryptBlocks(key, random, data, 0) == Prepend(encrypted, EncryptBlocks(key, random, data[i..], block))
  }

  /** The next block, from `i` to `end`, takes the loop one step on, or ends it with its error. */
  lemma EncryptedNext(key: PublicKey, random: Randomness, data: seq<Byte>, encrypted: seq<Byte>, i: nat, end: nat,
                      block: nat)
    requires key.size > 11 && i < |data| && Encrypted(key, random, data, encrypted, i, block)
    requires end == if i + key.size - 11 > |data| then |data| else i + key.size - 11
    ensures
      var head := EncryptData(key, random, block, data[i..end]);
      if head.Failure? then EncryptBlocks(key, random, data, 0) == head
      else Encrypted(key, random, data, encrypted + head.value, end, block + 1)
  {
    assert data[i..][..end - i] == data[i..end] && data[i..][end - i..] == data[end..];
    var head := EncryptData(key, random, block, data[i..end]);
    if head.Success? {
      PrependTwice(encrypted, head.value, EncryptBlocks(key, random, data[end..], block + 1));
    }
  }

  method EncryptLargeData(key: PublicKey, random: Randomness, data: seq<Byte>)
    returns (r: Result<seq<Byte>, CryptoError>)
    ensures r == EncryptLarge(key, random, data)
  {
    var blockSize := key.size - 11;
    if |data| <= blockSize {
      return EncryptData(key, random, 0, data);
    }
    var encrypted: seq<Byte> := [];
    var i, block := 0, 0;
    assert data[0..] == data;
    if blockSize > 0 {
      PrependNothing(EncryptBlocks(key, random, data, 0));
    }
    while i < |data|
      invariant 0 <= i && (blockSize <= 0 ==> i == 0 && encrypted == [] && block == 0)
      invariant blockSize > 0 ==> Encrypted(key, random, data, encrypted, if i < |data| then i else |data|, block)
      decreases |data| - i
    {
      var end := i + blockSize;
      if end > |data| {
        end := |data|;
      }
      if end < i {
        return Failure(NegativeSlice);
      }
      var encryptedBlock := EncryptData(key, random, block, data[i..end]);
      if blockSize > 0 {
        EncryptedNext(key, random, data, encrypted, i, end, block);
      }
      if encryptedBlock.Failure? {
        return Failure(encryptedBlock.error);
      }
      if blockSize == 0 {
        // The next iteration begins where this one did.
        return Failure(EndlessLoop);
      }
      encrypted := encrypted + encryptedBlock.value;
      i, block := i + blockSize, block + 1;
    }
    assert encrypted + [] == encrypted;
    r := Success(encrypted);
  }

  method DecryptLargeData(key: PrivateKey, data: seq<Byte>) returns (r: Result<seq<Byte>, CryptoError>)
    requires key.size > 0
    ensures r == DecryptLarge(key, data)
  {
    if |data| % key.size != 0 {
      return Failure(BadLength);
    }
    var decrypted: seq<Byte> := [];
    var i := 0;
    PrependNothing(DecryptBlocks(key, data));
    assert data[0..] == data;
    while i < |data|
      invariant 0 <= i <= |data| && (|data| - i) % key.size == 0
      invariant DecryptBlocks(key, data) == Prepend(decrypted, DecryptBlocks(key, data[i..]))
      decreases |data| - i
    {
      MultipleLeft(|data| - i, key.size);
      var decryptedBlock := DecryptData(key, data[i..i + key.size]);
      assert data[i..][..key.size] == data[i..i + key.size] && data[i..][key.size..] == data[i + key.size..];
      if decryptedBlock.Failure? {
        return decryptedBlock;
      }
      PrependTwice(decrypted, decryptedBlock.value, DecryptBlocks(key, data[i + key.size..]));
      decrypted := decrypted + decryptedBlock.value;
      i := i + key.size;
    }
    assert decrypted + [] == decrypted;
    r := Success(decrypted);
  }

  lemma PrependNothing(tail: Result<seq<Byte>, CryptoError>)
    ensures Prepend([], tail) == tail
  {
    if tail.Success? {
      assert [] + tail.value == tail.value;
    }
  }

  lemma PrependTwice(a: seq<Byte>, b: seq<Byte>, tail: Result<seq<Byte>, CryptoError>)
    ensures Prepend(a, Prepend(b, tail)) == Prepend(a + b, tail)
  {
    if tail.Success? {
      assert a + (b + tail.value) == a + b + tail.value;
    }
  }
}
