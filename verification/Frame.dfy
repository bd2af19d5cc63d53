/** Wire formats: the data frame and the handshake frame. */
module Frame {
  import opened Bytes
  import opened Crypto
  import Bits

  type Flags = byte

  const FLAG_OPEN: Flags := 0x01
  const FLAG_DATA: Flags := 0x02
  const FLAG_KEY_CONFIRMED: Flags := 0x80

  const DATA_HEADER_SIZE := 17
  const NONCE_COUNTER_SIZE := 4
  const DATA_FRAME_OVERHEAD := NONCE_COUNTER_SIZE + DATA_HEADER_SIZE + AUTH_TAG_SIZE
  const HANDSHAKE_PLAINTEXT_SIZE := 13
  const HANDSHAKE_WIRE_SIZE := X25519_KEY_SIZE + 8 + HANDSHAKE_PLAINTEXT_SIZE + AUTH_TAG_SIZE

  type Wire = seq<Octet>

  /** flags | FlagData */
  function WithData(flags: Flags): Flags {
    ByteOr(flags, FLAG_DATA);
    Bits.Or(flags, FLAG_DATA)
  }

  lemma ByteOr(x: byte, y: byte)
    ensures Bits.Or(x, y) < 0x100
  {
    assert Bits.Pow2(8) == 0x100 by { assert Bits.Pow2(4) == 16; }
    Bits.OrBound(x, y, 8);
  }

  /** The data bit is set and every other bit stays as it was. */
  lemma DataFlag(flags: Flags)
    ensures forall i: nat :: Bits.Bit(WithData(flags), i) <==> i == 1 || Bits.Bit(flags, i)
  {
    forall i: nat ensures Bits.Bit(WithData(flags), i) <==> i == 1 || Bits.Bit(flags, i) {
      ByteOr(flags, FLAG_DATA);
      Bits.OrBits(flags, FLAG_DATA, i);
      if i > 0 { Bits.OneBits(i - 1); }
    }
  }

  // ----- Data frame plaintext -----

  datatype DataFrame = DataFrame(
    connectionID: uint32, streamID: uint16, sequence: uint32, ack: uint32, flags: Flags, payload: seq<byte>)

  /** The 16-bit length field silently drops the high bits of a longer payload. */
  function Header(f: DataFrame): (bs: seq<byte>)
    ensures |bs| == DATA_HEADER_SIZE
  {
    BigEndian(f.connectionID, 4) + BigEndian(f.streamID, 2) + BigEndian(f.sequence, 4)
    + BigEndian(f.ack, 4) + [f.flags] + BigEndian(|f.payload| % 0x1_0000, 2)
  }

  function PrintData(f: DataFrame): (bs: seq<byte>)
    ensures |bs| == DATA_HEADER_SIZE + |f.payload|
  {
    Header(f) + f.payload
  }

  function ParseData(buf: seq<byte>): Result<DataFrame, Error> {
    if |buf| < DATA_HEADER_SIZE then Err(ShortBuffer)
    else
      var payloadLen := FromBigEndian(buf[15..17]);
      if |buf| != DATA_HEADER_SIZE + payloadLen then Err(ShortBuffer)
      else
        FieldBounds(buf);
        Ok(DataFrame(
          FromBigEndian(buf[0..4]), FromBigEndian(buf[4..6]), FromBigEndian(buf[6..10]),
          FromBigEndian(buf[10..14]), buf[14], buf[17..]))
  }

  lemma FieldBounds(buf: seq<byte>)
    requires |buf| >= DATA_HEADER_SIZE
    ensures FromBigEndian(buf[0..4]) < 0x1_0000_0000 && FromBigEndian(buf[4..6]) < 0x1_0000
    ensures FromBigEndian(buf[6..10]) < 0x1_0000_0000 && FromBigEndian(buf[10..14]) < 0x1_0000_0000
    ensures FromBigEndian(buf[15..17]) < 0x1_0000
  {
    Widths();
    FromBigEndianBound(buf[0..4]);
    FromBigEndianBound(buf[4..6]);
    FromBigEndianBound(buf[6..10]);
    FromBigEndianBound(buf[10..14]);
    FromBigEndianBound(buf[15..17]);
  }

  /** Fills a buffer of the right size in place. */
  method EncodePlaintext(f: DataFrame) returns (buf: array<byte>)
    ensures fresh(buf) && buf[..] == PrintData(f)
  {
    buf := new byte[DATA_HEADER_SIZE + |f.payload|](_ => 0);
    PutBigEndian(buf, 0, 4, f.connectionID);
    PutBigEndian(buf, 4, 2, f.streamID);
    assert buf[..6] == buf[..4] + buf[4..6];
    PutBigEndian(buf, 6, 4, f.sequence);
    assert buf[..10] == buf[..6] + buf[6..10];
    PutBigEndian(buf, 10, 4, f.ack);
    assert buf[..14] == buf[..10] + buf[10..14];
    buf[14] := f.flags;
    assert buf[..15] == buf[..14] + [f.flags];
    PutBigEndian(buf, 15, 2, |f.payload| % 0x1_0000);
    assert buf[..17] == buf[..15] + buf[15..17];
    FillPayload(buf, f.payload);
    assert buf[..] == buf[..17] + buf[17..];
  }

  /** Copies the payload behind the header. */
  method FillPayload(buf: array<byte>, payload: seq<byte>)
    requires buf.Length == DATA_HEADER_SIZE + |payload|
    modifies buf
    ensures buf[..17] == old(buf[..17]) && buf[17..] == payload
  {
    forall i | 0 <= i < |payload| {
      buf[17 + i] := payload[i];
    }
  }

  lemma HeaderSlices(f: DataFrame)
    ensures var bs := PrintData(f);
            && bs[0..4] == BigEndian(f.connectionID, 4) && bs[4..6] == BigEndian(f.streamID, 2)
            && bs[6..10] == BigEndian(f.sequence, 4) && bs[10..14] == BigEndian(f.ack, 4)
            && bs[14] == f.flags && bs[15..17] == BigEndian(|f.payload| % 0x1_0000, 2) && bs[17..] == f.payload
  {
  }

  /** Parsing gives the frame back exactly when its length fits the length field;
      every longer payload is refused. */
  lemma ParsePrinted(f: DataFrame)
    ensures |f.payload| <= 0xFFFF ==> ParseData(PrintData(f)) == Ok(f)
    ensures |f.payload| > 0xFFFF ==> ParseData(PrintData(f)) == Err(ShortBuffer)
  {
    Widths();
    HeaderSlices(f);
    BigEndianRead(f.connectionID, 4);
    BigEndianRead(f.streamID, 2);
    BigEndianRead(f.sequence, 4);
    BigEndianRead(f.ack, 4);
    BigEndianRead(|f.payload| % 0x1_0000, 2);
  }

  /** The other direction: a buffer is accepted exactly when its length field
      agrees with its size, and then it is the print of what was parsed. */
  lemma PrintParsed(buf: seq<byte>)
    ensures ParseData(buf).Ok? <==>
      |buf| >= DATA_HEADER_SIZE && |buf| == DATA_HEADER_SIZE + FromBigEndian(buf[15..17])
    ensures ParseData(buf).Ok? ==> PrintData(ParseData(buf).value) == buf
    ensures ParseData(buf).Ok? ==> |ParseData(buf).value.payload| <= 0xFFFF
  {
    hide FromBigEndian, BigEndian;
    if |buf| >= DATA_HEADER_SIZE {
      FieldBounds(buf);
      ReassembleHeader(buf);
      assert buf == buf[..17] + buf[17..];
    }
  }

  lemma ReassembleHeader(buf: seq<byte>)
    requires |buf| >= DATA_HEADER_SIZE
    ensures BigEndian(FromBigEndian(buf[0..4]), 4) + BigEndian(FromBigEndian(buf[4..6]), 2)
            + BigEndian(FromBigEndian(buf[6..10]), 4) + BigEndian(FromBigEndian(buf[10..14]), 4)
            + [buf[14]] + BigEndian(FromBigEndian(buf[15..17]), 2) == buf[..17]
  {
    BigEndianWrite(buf[0..4]);
    BigEndianWrite(buf[4..6]);
    BigEndianWrite(buf[6..10]);
    BigEndianWrite(buf[10..14]);
    BigEndianWrite(buf[15..17]);
    assert buf[0..4] + buf[4..6] + buf[6..10] + buf[10..14] + [buf[14]] + buf[15..17] == buf[..17];
  }

  // ----- Data frame on the wire -----

  function EncodeDataFrame(key: seq<byte>, counter: uint32, f: DataFrame): Result<Wire, Error> {
    match Seal(key, BuildNonce(f.connectionID, counter), PrintData(f))
    case Err(e) => Err(e)
    case Ok(c) => Ok(Lift(BigEndian(counter, 4)) + c)
  }

  function DecodeDataFrame(key: seq<byte>, connectionID: uint32, wire: Wire): Result<(DataFrame, uint32), Error> {
    if |wire| < NONCE_COUNTER_SIZE then Err(ShortBuffer)
    else
      CounterBound(wire);
      var counter: uint32 := FromBigEndian(Read(wire[..4]));
      match Open(key, BuildNonce(connectionID, counter), wire[4..])
      case Err(e) => Err(e)
      case Ok(plain) =>
        match ParseData(plain)
        case Err(e) => Err(e)
        case Ok(f) => Ok((f, counter))
  }

  lemma CounterBound(wire: Wire)
    requires |wire| >= NONCE_COUNTER_SIZE
    ensures FromBigEndian(Read(wire[..4])) < 0x1_0000_0000
  {
    Widths();
    FromBigEndianBound(Read(wire[..4]));
  }

  lemma ReadLift(bs: seq<byte>)
    ensures Read(Lift(bs)) == bs
  {
  }

  /** Decoding an encoded frame under the same key and connection. */
  lemma DecodeEncoded(key: seq<byte>, counter: uint32, f: DataFrame)
    requires ValidKey(key)
    ensures var r := EncodeDataFrame(key, counter, f);
            && r.Ok? && |r.value| == DATA_FRAME_OVERHEAD + |f.payload|
            && DecodeDataFrame(key, f.connectionID, r.value)
               == if |f.payload| <= 0xFFFF then Ok((f, counter)) else Err(ShortBuffer)
  {
    var w := EncodeDataFrame(key, counter, f).value;
    var box := Box(key, BuildNonce(f.connectionID, counter), PrintData(f));
    assert w[..4] == Lift(BigEndian(counter, 4)) && w[4..] == Ciphertext(box);
    ReadLift(BigEndian(counter, 4));
    Widths();
    BigEndianRead(counter, 4);
    OpenIff(key, box.nonce, w[4..], box.plain);
    ParsePrinted(f);
  }

  /** A wire is accepted exactly when it is a counter followed by one whole box
      sealed under the receiver's key, for the receiver's connection id and that
      counter, around a plaintext that parses. */
  lemma DecodeAccepts(key: seq<byte>, connectionID: uint32, wire: Wire, f: DataFrame, counter: uint32)
    ensures DecodeDataFrame(key, connectionID, wire) == Ok((f, counter)) <==>
      && ValidKey(key) && |f.payload| <= 0xFFFF && |wire| >= NONCE_COUNTER_SIZE
      && Read(wire[..4]) == BigEndian(counter, 4)
      && wire[4..] == Ciphertext(Box(key, BuildNonce(connectionID, counter), PrintData(f)))
  {
    if |wire| >= NONCE_COUNTER_SIZE {
      Widths();
      CounterBound(wire);
      BigEndianWrite(Read(wire[..4]));
      BigEndianRead(counter, 4);
      var n: uint32 := FromBigEndian(Read(wire[..4]));
      var nonce := BuildNonce(connectionID, n);
      var result := Open(key, nonce, wire[4..]);
      if result.Ok? {
        OpenIff(key, nonce, wire[4..], result.value);
        PrintParsed(result.value);
      }
      OpenIff(key, BuildNonce(connectionID, counter), wire[4..], PrintData(f));
      ParsePrinted(f);
    }
  }

  /** What opens is the frame that was sealed, for the receiver's own connection:
      even with another cleartext counter in front, a sealed frame decodes only
      under its own key, connection id and counter. */
  lemma OpensOnlyOwn(key: seq<byte>, connectionID: uint32, wire: Wire, key': seq<byte>, counter': uint32, f': DataFrame)
    requires |wire| >= NONCE_COUNTER_SIZE && ValidKey(key')
    requires wire[4..] == EncodeDataFrame(key', counter', f').value[4..]
    ensures var r := DecodeDataFrame(key, connectionID, wire);
            r.Ok? <==>
              && key == key' && connectionID == f'.connectionID && |f'.payload| <= 0xFFFF
              && FromBigEndian(Read(wire[..4])) == counter'
    ensures var r := DecodeDataFrame(key, connectionID, wire);
            r.Ok? ==> r.value == (f', counter') && r.value.0.connectionID == connectionID
  {
    CounterBound(wire);
    var n: uint32 := FromBigEndian(Read(wire[..4]));
    var box := Box(key', BuildNonce(f'.connectionID, counter'), PrintData(f'));
    assert wire[4..] == Ciphertext(box) && wire[4..][0] == Sealed(box, 0);
    NonceInjective(connectionID, n, f'.connectionID, counter');
    ParsePrinted(f');
  }

  // ----- Handshake frame -----

  datatype Hello = Hello(deviceID: uint64, connectionID: uint32, flags: Flags)

  function PrintHello(h: Hello): (bs: seq<byte>)
    ensures |bs| == HANDSHAKE_PLAINTEXT_SIZE
  {
    BigEndian(h.deviceID, 8) + BigEndian(h.connectionID, 4) + [h.flags]
  }

  function ParseHello(buf: seq<byte>): Result<Hello, Error> {
    if |buf| != HANDSHAKE_PLAINTEXT_SIZE then Err(ShortBuffer)
    else
      Widths();
      FromBigEndianBound(buf[0..8]);
      FromBigEndianBound(buf[8..12]);
      Ok(Hello(FromBigEndian(buf[0..8]), FromBigEndian(buf[8..12]), buf[12]))
  }

  method EncodeHello(h: Hello) returns (buf: array<byte>)
    ensures fresh(buf) && buf[..] == PrintHello(h)
  {
    buf := new byte[HANDSHAKE_PLAINTEXT_SIZE](_ => 0);
    PutBigEndian(buf, 0, 8, h.deviceID);
    PutBigEndian(buf, 8, 4, h.connectionID);
    buf[12] := h.flags;
  }

  lemma HelloSlices(h: Hello)
    ensures var bs := PrintHello(h);
            bs[0..8] == BigEndian(h.deviceID, 8) && bs[8..12] == BigEndian(h.connectionID, 4) && bs[12] == h.flags
  {
  }

  lemma ParsePrintedHello(h: Hello)
    ensures ParseHello(PrintHello(h)) == Ok(h)
  {
    Widths();
    HelloSlices(h);
    BigEndianRead(h.deviceID, 8);
    BigEndianRead(h.connectionID, 4);
  }

  /** Every 13 bytes are a handshake plaintext, and the print of what was parsed. */
  lemma PrintParsedHello(buf: seq<byte>)
    ensures ParseHello(buf).Ok? <==> |buf| == 13
    ensures ParseHello(buf).Ok? ==> PrintHello(ParseHello(buf).value) == buf
  {
    if |buf| == HANDSHAKE_PLAINTEXT_SIZE {
      BigEndianWrite(buf[0..8]);
      BigEndianWrite(buf[8..12]);
      assert buf == buf[0..8] + buf[8..12] + [buf[12]];
    }
  }

  /** The seal uses connection id 0 in its nonce, whatever id the plaintext asks for. */
  function EncodeHandshake(p: Primitives, ephPriv: seq<byte>, peerPub: seq<byte>, counter: uint64, h: Hello,
                           info: seq<byte>)
    : Result<(Wire, seq<byte>), Error>
  {
    match p.ecdh(ephPriv, peerPub)
    case None => Err(KeyAgreement)
    case Some(shared) =>
      var ephPub := p.pub(ephPriv);
      match DeriveSessionKey(p, shared, ephPub, info)
      case Err(e) => Err(e)
      case Ok(sessionKey) =>
        match Seal(sessionKey, BuildNonce(0, counter), PrintHello(h))
        case Err(e) => Err(e)
        case Ok(c) => Ok((Lift(ephPub) + Lift(BigEndian(counter, 8)) + c, sessionKey))
  }

  datatype Opened = Opened(hello: Hello, sessionKey: seq<byte>, ephPub: seq<byte>)

  function LoadPublicKey(raw: seq<byte>): Result<seq<byte>, Error> {
    if |raw| == X25519_KEY_SIZE then Ok(raw) else Err(BadPublicKey)
  }

  function DecodeHandshake(p: Primitives, wire: Wire, localPriv: seq<byte>, info: seq<byte>): Result<Opened, Error> {
    if |wire| != HANDSHAKE_WIRE_SIZE then Err(ShortBuffer)
    else
      Widths();
      FromBigEndianBound(Read(wire[32..40]));
      var raw := Read(wire[0..32]);
      var counter: uint64 := FromBigEndian(Read(wire[32..40]));
      match LoadPublicKey(raw)
      case Err(e) => Err(e)
      case Ok(ephPub) =>
        match p.ecdh(localPriv, ephPub)
        case None => Err(KeyAgreement)
        case Some(shared) =>
          match DeriveSessionKey(p, shared, raw, info)
          case Err(e) => Err(e)
          case Ok(sessionKey) =>
            match Open(sessionKey, BuildNonce(0, counter), wire[40..])
            case Err(e) => Err(e)
            case Ok(plain) =>
              match ParseHello(plain)
              case Err(e) => Err(e)
              case Ok(h) => Ok(Opened(h, sessionKey, ephPub))
  }

  /** Whatever the plaintext, the counter and the two key pairs: if the two keys
      agree at all, the wire has 69 bytes, the session key is derived from the shared
      secret, and the peer recovers the plaintext, that key and the sender's
      ephemeral public key. */
  lemma HandshakeAgreement(p: Primitives, ephPriv: seq<byte>, localPriv: seq<byte>, counter: uint64, h: Hello,
                           info: seq<byte>)
    ensures var sent := EncodeHandshake(p, ephPriv, p.pub(localPriv), counter, h, info);
            && (sent.Ok? <==> p.ecdh(ephPriv, p.pub(localPriv)).Some?)
            && (sent.Ok? ==>
                  && |sent.value.0| == 69 && |sent.value.1| == 32
                  && sent.value.1
                     == p.hmac(p.hmac(p.pub(ephPriv), p.ecdh(ephPriv, p.pub(localPriv)).value), info + [1])
                  && DecodeHandshake(p, sent.value.0, localPriv, info) == Ok(Opened(h, sent.value.1, p.pub(ephPriv))))
  {
    var shared := p.ecdh(ephPriv, p.pub(localPriv));
    if shared.Some? {
      var ephPub := p.pub(ephPriv);
      SessionKeyShape(p, shared.value, ephPub, info);
      var key := DeriveSessionKey(p, shared.value, ephPub, info).value;
      var box := Box(key, BuildNonce(0, counter), PrintHello(h));
      var w := EncodeHandshake(p, ephPriv, p.pub(localPriv), counter, h, info).value.0;
      assert w == Lift(ephPub) + Lift(BigEndian(counter, 8)) + Ciphertext(box);
      assert w[0..32] == Lift(ephPub) && w[32..40] == Lift(BigEndian(counter, 8)) && w[40..] == Ciphertext(box);
      ReadLift(ephPub);
      ReadLift(BigEndian(counter, 8));
      Widths();
      BigEndianRead(counter, 8);
      OpenIff(key, box.nonce, w[40..], box.plain);
      ParsePrintedHello(h);
    }
  }

  /** A wire is accepted exactly when it is an ephemeral key, a counter and one box
      that holds the plaintext, sealed for connection 0 and that counter under the key
      derived from the secret shared with that ephemeral key. */
  lemma HandshakeAccepts(p: Primitives, wire: Wire, localPriv: seq<byte>, info: seq<byte>, o: Opened)
    ensures DecodeHandshake(p, wire, localPriv, info) == Ok(o) <==>
      && |wire| == 69 && Read(wire[0..32]) == o.ephPub && p.ecdh(localPriv, o.ephPub).Some?
      && o.sessionKey == p.hmac(p.hmac(o.ephPub, p.ecdh(localPriv, o.ephPub).value), info + [1])
      && wire[40..] == Ciphertext(Box(o.sessionKey, [0, 0, 0, 0] + Read(wire[32..40]), PrintHello(o.hello)))
  {
    if |wire| == HANDSHAKE_WIRE_SIZE {
      var raw := Read(wire[0..32]);
      var shared := p.ecdh(localPriv, raw);
      ZeroNonce(wire);
      if shared.Some? {
        SessionKeyShape(p, shared.value, raw, info);
        var key := DeriveSessionKey(p, shared.value, raw, info).value;
        var nonce := [0, 0, 0, 0] + Read(wire[32..40]);
        var result := Open(key, nonce, wire[40..]);
        if result.Ok? {
          OpenIff(key, nonce, wire[40..], result.value);
          PrintParsedHello(result.value);
        }
        OpenIff(key, nonce, wire[40..], PrintHello(o.hello));
        ParsePrintedHello(o.hello);
      }
    }
  }

  lemma ZeroNonce(wire: Wire)
    requires |wire| == HANDSHAKE_WIRE_SIZE
    ensures FromBigEndian(Read(wire[32..40])) < 0x1_0000_0000_0000_0000
    ensures BuildNonce(0, FromBigEndian(Read(wire[32..40]))) == [0, 0, 0, 0] + Read(wire[32..40])
  {
    Widths();
    FromBigEndianBound(Read(wire[32..40]));
    BigEndianWrite(Read(wire[32..40]));
    assert BigEndian(0, 1) == [0] && BigEndian(0, 2) == [0, 0] && BigEndian(0, 3) == [0, 0, 0];
  }

  /** A handshake box can never pass for a data frame: it is too short. */
  lemma HelloIsNotData(h: Hello)
    ensures ParseData(PrintHello(h)).Err?
  {
  }
}
