/** The client's half of the exchange, and what both halves achieve together. */
module Client {
  import opened Bytes
  import opened Crypto
  import opened Frame
  import opened Session
  import Batch
  import Bits
  import Completeness
  import Reorder
  import Server
  import T = SessionTable
  import Tokens

  function Greeting(p: Primitives, ephPriv: seq<byte>, serverPub: seq<byte>, deviceID: uint64, connectionID: uint32)
    : Result<(Wire, seq<byte>), Error>
  {
    EncodeHandshake(p, ephPriv, serverPub, 0, Hello(deviceID, connectionID, FLAG_OPEN), Server.HKDF_INFO)
  }

  /** What a greeting is for: it exists exactly when the keys agree, it has 69 bytes,
      and whoever holds the private half of serverPub decodes it to this hello, the
      session key that the client keeps, and the client's ephemeral public key. */
  ghost predicate Understood(p: Primitives, ephPriv: seq<byte>, serverPub: seq<byte>, h: Hello,
                             r: Result<(Wire, seq<byte>), Error>)
  {
    && (r.Ok? <==> p.ecdh(ephPriv, serverPub).Some?)
    && (r.Ok? ==>
          && |r.value.0| == 69
          && forall staticPriv | p.pub(staticPriv) == serverPub ::
               DecodeHandshake(p, r.value.0, staticPriv, Server.HKDF_INFO) == Ok(Opened(h, r.value.1, p.pub(ephPriv))))
  }

  lemma GreetingUnderstood(p: Primitives, ephPriv: seq<byte>, serverPub: seq<byte>, deviceID: uint64,
                           connectionID: uint32)
    ensures Understood(p, ephPriv, serverPub, Hello(deviceID, connectionID, FLAG_OPEN),
                       Greeting(p, ephPriv, serverPub, deviceID, connectionID))
  {
    var h := Hello(deviceID, connectionID, FLAG_OPEN);
    var shared := p.ecdh(ephPriv, serverPub);
    if shared.Some? {
      SessionKeyShape(p, shared.value, p.pub(ephPriv), Server.HKDF_INFO);
    }
    forall staticPriv | p.pub(staticPriv) == serverPub && shared.Some?
      ensures var r := Greeting(p, ephPriv, serverPub, deviceID, connectionID).value;
              DecodeHandshake(p, r.0, staticPriv, Server.HKDF_INFO) == Ok(Opened(h, r.1, p.pub(ephPriv)))
    {
      HandshakeAgreement(p, ephPriv, staticPriv, 0, h, Server.HKDF_INFO);
    }
  }

  /** The first five bytes of the response: the assigned id and the flags. */
  function Finish(s: SessionState, key: seq<byte>, resp: seq<byte>): Option<(SessionState, bool)> {
    var body := if |resp| <= 5 then resp else resp[..5];
    if |body| != 5 then None
    else
      Widths();
      FromBigEndianBound(body[..4]);
      Some((Rekey(s, FromBigEndian(body[..4]), key), body[4] >= FLAG_KEY_CONFIRMED))
  }

  /** A response is taken exactly if it has five bytes; what follows them is ignored.
      The client then holds the id of the first four and the new key, its numbering
      goes on, and bit 7 of the fifth tells whether it was resumed. */
  lemma FinishIff(s: SessionState, key: seq<byte>, resp: seq<byte>)
    ensures Finish(s, key, resp).Some? <==> |resp| >= 5
    ensures Finish(s, key, resp).Some? ==>
      var (t, confirmed) := Finish(s, key, resp).value;
      && t.connectionID == FromBigEndian(resp[..4]) && t.key == key && t.phase == Active
      && t.sendCounter == 0 && t.accepted == {}
      && t.sendSequence == s.sendSequence && t.buffer == s.buffer && t.deviceID == s.deviceID
      && (confirmed <==> Bits.Bit(resp[4], 7))
  {
    if |resp| >= 5 {
      assert resp[..5][..4] == resp[..4];
      TopBit(resp[4]);
    }
  }

  lemma TopBit(x: byte)
    ensures Bits.Bit(x, 7) <==> x >= 0x80
  {
    var y := x / 2 / 2 / 2 / 2;
    assert Bits.Bit(x, 7) == Bits.Bit(x / 2, 6) == Bits.Bit(x / 2 / 2, 5) == Bits.Bit(y, 3);
    assert Bits.Bit(y, 3) == Bits.Bit(y / 2, 2) == Bits.Bit(y / 2 / 2 / 2, 0);
  }

  class Client {
    const primitives: Primitives
    const serverPub: seq<byte>
    const deviceID: uint64
    const session: Session

    ghost predicate Valid()
      reads session, session.replay
    {
      session.Valid()
    }

    constructor (primitives: Primitives, serverPub: seq<byte>, deviceID: uint64)
      ensures Valid() && fresh(session) && session.State() == Fresh(deviceID)
      ensures this.primitives == primitives && this.serverPub == serverPub && this.deviceID == deviceID
    {
      this.primitives, this.serverPub, this.deviceID := primitives, serverPub, deviceID;
      session := new Session(deviceID);
    }

    /** The request of Open; ephPriv is the freshly generated key. */
    method Open(ephPriv: seq<byte>) returns (r: Result<(Wire, seq<byte>), Error>)
      ensures r == Greeting(primitives, ephPriv, serverPub, deviceID, 0)
      ensures Understood(primitives, ephPriv, serverPub, Hello(deviceID, 0, 0x01), r)
    {
      GreetingUnderstood(primitives, ephPriv, serverPub, deviceID, 0);
      r := Greeting(primitives, ephPriv, serverPub, deviceID, 0);
    }

    /** The request of Reconnect, which is refused before the first Open. */
    method Reconnect(ephPriv: seq<byte>) returns (r: Option<Result<(Wire, seq<byte>), Error>>)
      ensures r.None? <==> session.connectionID == 0
      ensures r.Some? ==> r.value == Greeting(primitives, ephPriv, serverPub, deviceID, session.connectionID)
      ensures r.Some? ==>
        Understood(primitives, ephPriv, serverPub, Hello(deviceID, session.connectionID, 0x01), r.value)
    {
      if session.connectionID == 0 {
        return None;
      }
      GreetingUnderstood(primitives, ephPriv, serverPub, deviceID, session.connectionID);
      r := Some(Greeting(primitives, ephPriv, serverPub, deviceID, session.connectionID));
    }

    /** The response to either of them; confirmed tells whether the key was. */
    method HandleResponse(key: seq<byte>, resp: seq<byte>) returns (ok: bool, confirmed: bool)
      requires Valid()
      modifies session, session.replay
      ensures Valid()
      ensures match Finish(old(session.State()), key, resp)
              case None => !ok && !confirmed && session.State() == old(session.State())
              case Some((s, c)) => ok && confirmed == c && session.State() == s
    {
      var body := if |resp| <= 5 then resp else resp[..5];
      if |body| != 5 {
        return false, false;
      }
      Widths();
      FromBigEndianBound(body[..4]);
      session.CompleteHandshake(FromBigEndian(body[..4]), key);
      return true, body[4] >= FLAG_KEY_CONFIRMED;
    }

    /** The body of one upload. */
    method Push(payload: Payload) returns (r: Result<Wire, Error>)
      requires Valid()
      modifies session
      ensures Valid()
      ensures var e := Encode(old(session.State()), payload, 0);
              session.State() == e.0 && r == if e.1.Ok? then Ok(Batch.Print([e.1.value])) else Err(e.1.error)
    {
      var wire := session.EncodeOutgoing(payload, 0);
      if wire.Err? {
        return Err(wire.error);
      }
      var body := Batch.PrintLoop([wire.value]);
      return Ok(body);
    }

    method Pull(body: Wire) returns (out: seq<Payload>)
      requires Valid()
      modifies session.replay, session.reorder
      ensures Valid()
      ensures var r := ReceiveAll(old(session.State()), Batch.Parse(body));
              session.State() == r.0 && out == Delivered(r.1)
    {
      out := ReceiveBody(session, body);
    }
  }

  // ----- Both halves together -----

  lemma FinishReadsResponse(s: SessionState, key: seq<byte>, a: T.Answer)
    ensures Finish(s, key, Server.Response(a)) == Some((Rekey(s, a.connectionID, key), a.keyConfirmed))
  {
    var resp := Server.Response(a);
    assert resp[..4] == BigEndian(a.connectionID, 4);
    Widths();
    BigEndianRead(a.connectionID, 4);
  }

  /** The session the server keeps when it resumes, or starts when it does not. */
  function Base(t: T.Table, r: T.Request): SessionState {
    if T.Resumable(t, r) then t.conns[r.requested] else Fresh(r.deviceID)
  }

  /** A handshake with an acceptable token, from the client's greeting through the
      server's answer to the client's reaction: both sides end with the same fresh
      key and the same connection id and have only rekeyed, and the client is told
      whether it was resumed. So a direction with nothing in flight, whose receiver
      waits for the sender's next sequence, is ready for everything that Completeness
      promises, also right after a reconnect. */
  lemma HandshakePairs(p: Primitives, ephPriv: seq<byte>, staticPriv: seq<byte>, m: Tokens.Bindings, ttl: int,
                       t: T.Table, token: string, now: int, client: SessionState, requested: uint32)
    requires token != "" && Tokens.Bind(m, ttl, token, client.deviceID, now).1 == Tokens.BindAccepted
    requires Greeting(p, ephPriv, p.pub(staticPriv), client.deviceID, requested).Ok?
    ensures var sent := Greeting(p, ephPriv, p.pub(staticPriv), client.deviceID, requested).value;
            var c := Server.CheckOpen(p, staticPriv, m, ttl, token, sent.0, now);
            && c.Opening? && c.request == T.Request(client.deviceID, requested, sent.1)
            && var a := T.Admit(t, c.request);
               var base := Base(t, c.request);
               var client' := Rekey(client, a.1.connectionID, sent.1);
               var server' := a.0.conns[a.1.connectionID];
               && Finish(client, sent.1, Server.Response(a.1)) == Some((client', T.Resumable(t, c.request)))
               && server' == Rekey(base, a.1.connectionID, sent.1)
               && (base.buffer == Reorder.Buffer(client.sendSequence, map[], true)
                   ==> Completeness.Paired(client', server'))
               && (client.buffer == Reorder.Buffer(base.sendSequence, map[], true)
                   ==> Completeness.Paired(server', client'))
  {
    var h := Hello(client.deviceID, requested, FLAG_OPEN);
    HandshakeAgreement(p, ephPriv, staticPriv, 0, h, Server.HKDF_INFO);
    hide DecodeHandshake, EncodeHandshake;
    var sent := Greeting(p, ephPriv, p.pub(staticPriv), client.deviceID, requested).value;
    var r := T.Request(client.deviceID, requested, sent.1);
    FinishReadsResponse(client, sent.1, T.Admit(t, r).1);
  }

  /** What the server makes of a client's greeting for the id it holds. */
  function Greet(p: Primitives, ephPriv: seq<byte>, staticPriv: seq<byte>, m: Tokens.Bindings, ttl: int,
                 token: string, now: int, client: SessionState): Server.Opening
  {
    match Greeting(p, ephPriv, p.pub(staticPriv), client.deviceID, client.connectionID)
    case Err(_) => Server.Refused
    case Ok(sent) => Server.CheckOpen(p, staticPriv, m, ttl, token, sent.0, now)
  }

  /** A client took the answer to request i and greets again later, when the allocator
      has not wrapped and the server opens: it is understood as asking for the answered
      id, whatever else the server did in between; it is resumed and told so, keeps the
      id, and has only rekeyed. */
  lemma ReconnectResumes(p: Primitives, ephPriv: seq<byte>, staticPriv: seq<byte>, m: Tokens.Bindings, ttl: int,
                         token: string, now: int, client: SessionState, key: seq<byte>,
                         rs: seq<T.Request>, i: nat, k: nat)
    requires i < k < |rs| && T.Allocated(rs, k) < 0x1_0000_0000 && rs[i].deviceID == client.deviceID
    requires var taken := Finish(client, key, Server.Response(T.AnswerTo(rs, i)));
             && taken.Some?
             && var c := Greet(p, ephPriv, staticPriv, m, ttl, token, now, taken.value.0);
                c.Opening? && rs[k] == c.request
    ensures var taken := Finish(client, key, Server.Response(T.AnswerTo(rs, i))).value.0;
            && rs[k].requested == taken.connectionID == T.AnswerTo(rs, i).connectionID
            && T.AnswerTo(rs, k) == T.Answer(taken.connectionID, true)
            && Finish(taken, rs[k].key, Server.Response(T.AnswerTo(rs, k)))
               == Some((taken.(key := rs[k].key, sendCounter := 0, accepted := {}, phase := Active), true))
  {
    var a := T.AnswerTo(rs, i);
    FinishReadsResponse(client, key, a);
    var taken := Finish(client, key, Server.Response(a)).value.0;
    HandshakeAgreement(p, ephPriv, staticPriv, 0, Hello(client.deviceID, taken.connectionID, FLAG_OPEN),
                       Server.HKDF_INFO);
    hide DecodeHandshake, EncodeHandshake;
    T.AnswerCanBeResumed(rs, i, k);
    FinishReadsResponse(taken, rs[k].key, T.AnswerTo(rs, k));
  }

  /** One push of up to 65498 bytes into a paired session: the server's handler
      delivers exactly that payload and waits for the next one. */
  lemma PushDelivers(tx: SessionState, rx: SessionState, payload: Payload)
    requires Completeness.Paired(tx, rx) && tx.sendSequence < MAX_UINT32 && |payload| <= 65498
    ensures var e := Encode(tx, payload, 0).1;
            && e.Ok?
            && var r := ReceiveAll(rx, Batch.Parse(Server.Limit(Batch.Print([e.value]), Server.BODY_LIMIT)));
               Delivered(r.1) == [payload] && r.0.buffer == Reorder.Buffer(tx.sendSequence + 1, map[], true)
  {
    var ps := [payload];
    var ws := Completeness.Wires(tx, ps, 0);
    Completeness.EncodeNext(tx, ps, 0, 0);
    assert tx.(sendSequence := tx.sendSequence + 0, sendCounter := 0) == tx;
    var w := Encode(tx, payload, 0).1.value;
    assert ws == [w];
    var body := Batch.Print(ws);
    Completeness.TruncatedBody(tx, rx, ps, 0, |body|);
    Batch.WholeOfAll(ws);
    Completeness.WiresFit(tx, ps, 0);
    assert body[..|body|] == body && ps[..1] == ps;
    assert body == Batch.Entry(w) + Batch.Print([]);
    assert |ws[0]| <= Batch.MAX_FRAME;
  }
}
