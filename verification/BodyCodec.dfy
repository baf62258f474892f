/**
 How a batch travels: the agent compresses it and may encrypt it; the server's two
 middlewares undo this before the handler reads the body.
 */
module BodyCodec {
  import opened Wrappers
  import opened Crypto
  import opened Http
  import Base64

  /** The gzip library: `headerOk` is what opening a reader checks, `inflate` what reading it
      to the end gives. */
  datatype Gzip = Gzip(compress: seq<Byte> -> seq<Byte>, headerOk: seq<Byte> -> bool,
                       inflate: seq<Byte> -> Option<seq<Byte>>)

  /** Compressed data is never empty: it begins with a header. */
  ghost predicate Lossless(gz: Gzip) {
    forall x :: gz.compress(x) != [] && gz.headerOk(gz.compress(x)) && gz.inflate(gz.compress(x)) == Some(x)
  }

  /** A request as the next handler would see it. `broken` says that reading the body ends in an
      error after these bytes, `inflating` that it is read through a gzip reader. */
  datatype Message = Message(body: seq<Byte>, broken: bool, contentLength: int, encoding: string, inflating: bool)

  predicate Contains(s: string, sub: string) {
    |s| >= |sub| && (s[..|sub|] == sub || (s != "" && Contains(s[1..], sub)))
  }

  predicate At(s: string, sub: string, i: nat)
    requires i + |sub| <= |s|
  {
    s[i..i + |sub|] == sub
  }

  lemma {:induction false} ContainsIff(s: string, sub: string)
    ensures Contains(s, sub) <==> exists i: nat :: i + |sub| <= |s| && At(s, sub, i)
  {
    if |s| >= |sub| {
      if s[..|sub|] == sub {
        assert At(s, sub, 0);
      } else if s != "" {
        var rest := s[1..];
        ContainsIff(rest, sub);
        if Contains(rest, sub) {
          var i: nat :| i + |sub| <= |rest| && At(rest, sub, i);
          assert s[i + 1..i + 1 + |sub|] == rest[i..i + |sub|];
          assert At(s, sub, i + 1);
        }
        forall i: nat | i + |sub| <= |s| && At(s, sub, i)
          ensures Contains(rest, sub)
        {
          assert i > 0;
          assert rest[i - 1..i - 1 + |sub|] == s[i..i + |sub|];
          assert At(rest, sub, i - 1);
        }
      }
    }
  }

  // ---------------------------------------------------------------- the agent

  function AgentMessage(gz: Gzip, publicKey: Option<PublicKey>, random: Randomness, json: seq<Byte>)
    : Result<Message, CryptoError>
  {
    var compressed := gz.compress(json);
    if publicKey.None? then Success(Message(compressed, false, |compressed|, "gzip", false))
    else
      match EncryptLarge(publicKey.value, random, compressed)
      case Failure(e) => Failure(e)
      case Success(c) =>
        var text := Base64.Encode(c);
        Success(Message(text, false, |text|, "encrypted", false))
  }

  /** Without a key the agent sends the compressed text as gzip, with one the Base64 of the
      ciphertext as encrypted; either with its length. */
  lemma AgentSends(gz: Gzip, publicKey: Option<PublicKey>, random: Randomness, json: seq<Byte>)
    ensures
      var r := AgentMessage(gz, publicKey, random, json);
      match publicKey
      case None => r == Success(Message(gz.compress(json), false, |gz.compress(json)|, "gzip", false))
      case Some(key) =>
        match EncryptLarge(key, random, gz.compress(json))
        case Failure(e) => r == Failure(e)
        case Success(c) =>
          && r.Success? && Base64.Decode(r.value.body) == Some(c) && r.value.contentLength == |r.value.body|
          && r.value.encoding == "encrypted" && !r.value.broken && !r.value.inflating
  {
    if publicKey.Some? {
      var c := EncryptLarge(publicKey.value, random, gz.compress(json));
      if c.Success? {
        Base64.RoundTrip(c.value);
      }
    }
  }

  // ---------------------------------------------------------------- the server

  /** What `DecryptMiddleware` hands on, or the status it answers with. */
  function DecryptStage(privateKey: Option<PrivateKey>, m: Message): Result<Message, int>
    requires privateKey.Some? ==> privateKey.value.size > 0
  {
    if privateKey.None? || m.encoding != "encrypted" then Success(m)
    else if m.broken then Failure(BAD_REQUEST)
    else
      match Base64.Decode(m.body)
      case None => Failure(BAD_REQUEST)
      case Some(c) =>
        match DecryptLarge(privateKey.value, c)
        case Failure(_) => Failure(BAD_REQUEST)
        case Success(d) => Success(Message(d, false, |d|, "gzip", m.inflating))
  }

  function GzipStage(gz: Gzip, m: Message): Result<Message, int> {
    if !Contains(m.encoding, "gzip") then Success(m)
    else if !gz.headerOk(m.body) then Failure(BAD_REQUEST)
    else Success(m.(inflating := true))
  }

  /** What reading the body to the end gives. */
  function ReadAll(gz: Gzip, m: Message): Option<seq<Byte>> {
    if m.broken then None else if m.inflating then gz.inflate(m.body) else Some(m.body)
  }

  /** What the handler reads; None when it is not called or reading fails. */
  function HandlerReads(gz: Gzip, privateKey: Option<PrivateKey>, m: Message): Option<seq<Byte>>
    requires privateKey.Some? ==> privateKey.value.size > 0
  {
    match DecryptStage(privateKey, m)
    case Failure(_) => None
    case Success(d) =>
      match GzipStage(gz, d)
      case Failure(_) => None
      case Success(u) => ReadAll(gz, u)
  }

  lemma {:induction false} ContainedCharacters(s: string, sub: string)
    requires Contains(s, sub) && sub != ""
    ensures sub[0] in s
  {
    if s[..|sub|] == sub {
      assert s[0] == s[..|sub|][0];
    } else {
      ContainedCharacters(s[1..], sub);
    }
  }

  /** The two headers the agent sets. */
  lemma Headers()
    ensures Contains("gzip", "gzip") && !Contains("encrypted", "gzip")
  {
    assert "gzip"[0] == 'g';
    assert 'g' !in "encrypted";
    if Contains("encrypted", "gzip") {
      ContainedCharacters("encrypted", "gzip");
    }
  }

  /** Encrypted bodies come back as the compressed ones when the server has the key. */
  lemma DecryptedIsCompressed(gz: Gzip, pub: PublicKey, priv: PrivateKey, random: Randomness, json: seq<Byte>)
    requires NonZero(random) && Matching(pub, priv) && pub.size > 11
    ensures AgentMessage(gz, Some(pub), random, json).Success?
    ensures
      var m := AgentMessage(gz, Some(pub), random, json).value;
      var compressed := gz.compress(json);
      && m.encoding == "encrypted" && !m.inflating && m.contentLength == |m.body|
      && DecryptStage(Some(priv), m) == Success(Message(compressed, false, |compressed|, "gzip", false))
  {
    var compressed := gz.compress(json);
    LargeRoundTrip(pub, priv, random, compressed);
    Base64.RoundTrip(EncryptLarge(pub, random, compressed).value);
  }

  /** The handler reads exactly what the agent marshalled. */
  predicate Delivered(gz: Gzip, publicKey: Option<PublicKey>, privateKey: Option<PrivateKey>, random: Randomness,
                      json: seq<Byte>)
    requires privateKey.Some? ==> privateKey.value.size > 0
  {
    var m := AgentMessage(gz, publicKey, random, json);
    m.Success? && HandlerReads(gz, privateKey, m.value) == Some(json)
  }

  /** The private key belongs to another public key and fails on what the agent sends. */
  predicate Rejects(gz: Gzip, pub: PublicKey, priv: PrivateKey, random: Randomness, json: seq<Byte>)
    requires priv.size > 0
  {
    var c := EncryptLarge(pub, random, gz.compress(json));
    c.Success? ==> DecryptLarge(priv, c.value).Failure?
  }

  /** A JSON array is delivered exactly when the agent does not encrypt, or encrypts with a key
      longer than the padding and the server has its partner: for every body, every padding and
      every two keys that are a pair or of which the private one rejects this message. */
  lemma DeliveredIff(gz: Gzip, publicKey: Option<PublicKey>, privateKey: Option<PrivateKey>, random: Randomness,
                     json: seq<Byte>)
    requires Lossless(gz) && NonZero(random)
    requires privateKey.Some? ==> privateKey.value.size > 0
    requires publicKey.Some? && privateKey.Some? ==>
               || Matching(publicKey.value, privateKey.value)
               || Rejects(gz, publicKey.value, privateKey.value, random, json)
    requires json != [] && json[0] == 91
    ensures Delivered(gz, publicKey, privateKey, random, json) <==>
              || publicKey.None?
              || (&& privateKey.Some? && publicKey.value.size > 11
                  && Matching(publicKey.value, privateKey.value))
  {
    if publicKey.None? {
      Headers();
    } else if privateKey.None? {
      UndecryptedIsNotDelivered(gz, publicKey.value, random, json);
    } else if Matching(publicKey.value, privateKey.value) {
      PairDelivers(gz, publicKey.value, privateKey.value, random, json);
    } else {
      StrangerRejects(gz, publicKey.value, privateKey.value, random, json);
    }
  }

  lemma UndecryptedIsNotDelivered(gz: Gzip, pub: PublicKey, random: Randomness, json: seq<Byte>)
    requires json != [] && json[0] == 91
    ensures !Delivered(gz, Some(pub), None, random, json)
  {
    Headers();
    var c := EncryptLarge(pub, random, gz.compress(json));
    if c.Success? {
      Base64.EncodeIsClean(c.value);
    }
  }

  lemma PairDelivers(gz: Gzip, pub: PublicKey, priv: PrivateKey, random: Randomness, json: seq<Byte>)
    requires Lossless(gz) && NonZero(random) && Matching(pub, priv) && priv.size > 0
    ensures Delivered(gz, Some(pub), Some(priv), random, json) <==> pub.size > 11
  {
    if pub.size > 11 {
      var compressed := gz.compress(json);
      DecryptedIsCompressed(gz, pub, priv, random, json);
      assert HandlerReads(gz, Some(priv), AgentMessage(gz, Some(pub), random, json).value)
          == ReadAll(gz, Message(compressed, false, |compressed|, "gzip", true)) by { Headers(); }
    }
  }

  lemma StrangerRejects(gz: Gzip, pub: PublicKey, priv: PrivateKey, random: Randomness, json: seq<Byte>)
    requires priv.size > 0 && Rejects(gz, pub, priv, random, json)
    ensures !Delivered(gz, Some(pub), Some(priv), random, json)
  {
    var c := EncryptLarge(pub, random, gz.compress(json));
    if c.Success? {
      Base64.RoundTrip(c.value);
    }
  }

  // ---------------------------------------------------------------- the request object

  class Request {
    var body: seq<Byte>
    var broken: bool
    var contentLength: int
    var contentEncoding: string
    var inflating: bool

    function View(): Message
      reads this
    {
      Message(body, broken, contentLength, contentEncoding, inflating)
    }

    constructor (m: Message)
      ensures View() == m
    {
      body, broken, contentLength := m.body, m.broken, m.contentLength;
      contentEncoding, inflating := m.encoding, m.inflating;
    }
  }

  /** The request is encrypted for a server that has a key. */
  predicate ToDecrypt(privateKey: Option<PrivateKey>, m: Message) {
    privateKey.Some? && m.encoding == "encrypted"
  }

  /** The bytes in an encrypted body, None when it breaks off, is no Base64 or does not decrypt. */
  function Decrypted(key: PrivateKey, m: Message): Option<seq<Byte>>
    requires key.size > 0
  {
    if m.broken then None
    else
      match Base64.Decode(m.body)
      case None => None
      case Some(c) =>
        match DecryptLarge(key, c)
        case Failure(_) => None
        case Success(d) => Some(d)
  }

  /** Rewrites body, length and header in place; a status means the request was answered. */
  method DecryptMiddleware(privateKey: Option<PrivateKey>, r: Request) returns (status: Option<int>)
    requires privateKey.Some? ==> privateKey.value.size > 0
    modifies r
    ensures match DecryptStage(privateKey, old(r.View()))
            case Success(m) => status == None && r.View() == m
            case Failure(code) => status == Some(code) && r.View() == old(r.View())
    ensures !ToDecrypt(privateKey, old(r.View())) ==> status == None && r.View() == old(r.View())
    ensures ToDecrypt(privateKey, old(r.View())) ==>
              match Decrypted(privateKey.value, old(r.View()))
              case None => status == Some(400) && r.View() == old(r.View())
              case Some(d) => status == None && r.View() == Message(d, false, |d|, "gzip", old(r.inflating))
  {
    if privateKey.None? {
      return None;
    }
    if r.contentEncoding != "encrypted" {
      return None;
    }
    if r.broken {
      return Some(BAD_REQUEST);
    }
    var encryptedData := Base64.Decode(r.body);
    if encryptedData.None? {
      return Some(BAD_REQUEST);
    }
    var decryptedData := DecryptLargeData(privateKey.value, encryptedData.value);
    if decryptedData.Failure? {
      return Some(BAD_REQUEST);
    }
    r.body := decryptedData.value;
    r.contentLength := |decryptedData.value|;
    r.contentEncoding := "gzip";
    status := None;
  }

  method GzipMiddleware(gz: Gzip, r: Request) returns (status: Option<int>)
    modifies r
    ensures match GzipStage(gz, old(r.View()))
            case Success(m) => status == None && r.View() == m
            case Failure(code) => status == Some(code) && r.View() == old(r.View())
    ensures !Contains(old(r.contentEncoding), "gzip") ==> status == None && r.View() == old(r.View())
    ensures Contains(old(r.contentEncoding), "gzip") && !gz.headerOk(old(r.body)) ==>
              status == Some(400) && r.View() == old(r.View())
    ensures Contains(old(r.contentEncoding), "gzip") && gz.headerOk(old(r.body)) ==>
              status == None && r.View() == old(r.View()).(inflating := true)
  {
    if Contains(r.contentEncoding, "gzip") {
      if !gz.headerOk(r.body) {
        return Some(BAD_REQUEST);
      }
      r.inflating := true;
    }
    status := None;
  }

  /** The router's order: decryption first, then decompression, then the handler's read. A plain
      body is read as it is, a compressed one inflated, an encrypted one decrypted and inflated;
      what cannot be decrypted or does not begin like gzip is answered with 400. */
  method Serve(gz: Gzip, privateKey: Option<PrivateKey>, r: Request)
    returns (status: Option<int>, read: Option<seq<Byte>>)
    requires privateKey.Some? ==> privateKey.value.size > 0
    modifies r
    ensures read == HandlerReads(gz, privateKey, old(r.View()))
    ensures status.Some? ==> status == Some(400) && read == None
    ensures
      var m := old(r.View());
      !ToDecrypt(privateKey, m) && !Contains(m.encoding, "gzip") ==>
        status == None && read == if m.broken then None else if m.inflating then gz.inflate(m.body) else Some(m.body)
    ensures
      var m := old(r.View());
      !ToDecrypt(privateKey, m) && Contains(m.encoding, "gzip") ==>
        && (status == None <==> gz.headerOk(m.body))
        && (status == None ==> read == if m.broken then None else gz.inflate(m.body))
    ensures
      var m := old(r.View());
      ToDecrypt(privateKey, m) ==>
        match Decrypted(privateKey.value, m)
        case None => status == Some(400) && r.View() == m
        case Some(d) => (status == None <==> gz.headerOk(d)) && (status == None ==> read == gz.inflate(d))
  {
    Headers();
    status := DecryptMiddleware(privateKey, r);
    if status.Some? {
      return status, None;
    }
    status := GzipMiddleware(gz, r);
    if status.Some? {
      return status, None;
    }
    read := ReadAll(gz, r.View());
  }
}
