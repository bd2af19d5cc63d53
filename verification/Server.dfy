/** The request handlers of the origin server, over the live session objects. */
module Server {
  import opened Bytes
  import opened Crypto
  import opened Frame
  import opened Session
  import Batch
  import Outbound
  import Outbox
  import T = SessionTable
  import Tokens

  const BODY_LIMIT := 0x80_0000

  const HKDF_INFO: seq<byte> := [0x74, 0x75, 0x72, 0x62, 0x6f, 0x66, 0x6c, 0x61, 0x72, 0x65, 0x2d, 0x74,
                                 0x72, 0x61, 0x6e, 0x73, 0x70, 0x6f, 0x72, 0x74, 0x2d, 0x76, 0x31]

  /** A reader that stops after n bytes. */
  function Limit(body: Wire, n: nat): Wire {
    if |body| <= n then body else body[..n]
  }

  function Response(a: T.Answer): (bs: seq<byte>)
    ensures |bs| == 5
  {
    BigEndian(a.connectionID, 4) + [if a.keyConfirmed then FLAG_KEY_CONFIRMED else 0]
  }

  /** The five bytes of an answer: the id, then 0x80 for a resumed session or 0. */
  lemma ResponseBytes(a: T.Answer)
    ensures FromBigEndian(Response(a)[..4]) == a.connectionID
    ensures Response(a)[4] == if a.keyConfirmed then 0x80 else 0
  {
    Widths();
    BigEndianRead(a.connectionID, 4);
    assert Response(a)[..4] == BigEndian(a.connectionID, 4);
  }

  datatype Opening = Refused | Opening(request: T.Request, bindings: Tokens.Bindings)

  /** Everything /open checks before it touches the session table, with the
      bindings it leaves behind. */
  function CheckOpen(p: Primitives, staticPriv: seq<byte>, m: Tokens.Bindings, ttl: int,
                     token: string, body: Wire, now: int): Opening
  {
    if token == "" then Refused
    else
      match DecodeHandshake(p, Limit(body, HANDSHAKE_WIRE_SIZE), staticPriv, HKDF_INFO)
      case Err(_) => Refused
      case Ok(o) =>
        var bound := Tokens.Bind(m, ttl, token, o.hello.deviceID, now);
        if bound.1 != Tokens.BindAccepted then Refused
        else Opening(T.Request(o.hello.deviceID, o.hello.connectionID, o.sessionKey),
                     Tokens.Touched(bound.0, token, now))
  }

  /** Whether a device may have the token: it is known, and free, already the device's
      own, or silent for longer than the timeout. */
  predicate Available(m: Tokens.Bindings, ttl: int, token: string, deviceID: uint64, now: int) {
    token in m
    && (m[token].None? || m[token].value.deviceID == deviceID || now - m[token].value.lastSeen > ttl)
  }

  /** When /open is answered, and what for: a token, at least 69 bytes of which the
      first 69 decode, and the token available to the decoded device, which then holds
      it and was seen just now. No other token is touched. */
  lemma OpeningIff(p: Primitives, staticPriv: seq<byte>, m: Tokens.Bindings, ttl: int,
                   token: string, body: Wire, now: int)
    ensures var c := CheckOpen(p, staticPriv, m, ttl, token, body, now);
            && (c.Opening? <==>
                  token != "" && |body| >= 69
                  && var o := DecodeHandshake(p, body[..69], staticPriv, HKDF_INFO);
                     o.Ok? && Available(m, ttl, token, o.value.hello.deviceID, now))
            && (c.Opening? ==>
                  var o := DecodeHandshake(p, body[..69], staticPriv, HKDF_INFO).value;
                  && c.request == T.Request(o.hello.deviceID, o.hello.connectionID, o.sessionKey)
                  && token in c.bindings && c.bindings[token].Some?
                  && c.bindings[token].value.deviceID == c.request.deviceID
                  && c.bindings[token].value.lastSeen == now
                  && c.bindings.Keys == m.Keys && forall t | t in m && t != token :: c.bindings[t] == m[t])
  {
    ShortHandshake(p, body, staticPriv);
    hide DecodeHandshake;
    assert |body| >= 69 ==> Limit(body, HANDSHAKE_WIRE_SIZE) == body[..69];
  }

  lemma ShortHandshake(p: Primitives, body: Wire, staticPriv: seq<byte>)
    ensures |body| < 69 ==> DecodeHandshake(p, Limit(body, HANDSHAKE_WIRE_SIZE), staticPriv, HKDF_INFO).Err?
  {
  }

  /** Over every trace of the token store: once a device was accepted on a token and
      last seen at event l, an otherwise sound /open of a device is answered exactly
      if it is the same one, or l is more than the timeout ago. */
  lemma OpenWhileHeld(p: Primitives, staticPriv: seq<byte>, ttl: int, es: seq<Tokens.Event>, i: nat, l: nat,
                      token: string, body: Wire, now: int)
    requires i <= l < |es| && Tokens.Accepts(ttl, es, i, token)
    requires forall x | i < x < |es| :: !Tokens.Revokes(es, x, token) && !Tokens.Accepts(ttl, es, x, token)
    requires Tokens.Sees(ttl, es, l, token) && forall x | l < x < |es| :: !Tokens.Sees(ttl, es, x, token)
    requires token != "" && |body| >= 69
    ensures var o := DecodeHandshake(p, body[..69], staticPriv, HKDF_INFO);
            var c := CheckOpen(p, staticPriv, Tokens.Before(ttl, es, |es|), ttl, token, body, now);
            o.Ok? ==>
              (c.Opening? <==> o.value.hello.deviceID == es[i].call.deviceID || now - es[l].at > ttl)
  {
    hide DecodeHandshake, CheckOpen, Tokens.Before, Tokens.Accepts;
    var l' := Tokens.HolderStays(ttl, es, i, |es|, token);
    assert l == l';
    OpeningIff(p, staticPriv, Tokens.Before(ttl, es, |es|), ttl, token, body, now);
  }

  /** An answered /open extends that trace by a bind, which is accepted, and a touch. */
  lemma OpenExtendsTrace(p: Primitives, staticPriv: seq<byte>, ttl: int, es: seq<Tokens.Event>,
                         token: string, body: Wire, now: int)
    ensures var m := Tokens.Before(ttl, es, |es|);
            var c := CheckOpen(p, staticPriv, m, ttl, token, body, now);
            c.Opening? ==>
              var es' := es + [Tokens.Event(now, Tokens.DoBind(token, c.request.deviceID)),
                               Tokens.Event(now, Tokens.DoTouch(token))];
              Tokens.Before(ttl, es', |es'|) == c.bindings && Tokens.Accepts(ttl, es', |es|, token)
  {
    hide DecodeHandshake;
    var c := CheckOpen(p, staticPriv, Tokens.Before(ttl, es, |es|), ttl, token, body, now);
    if c.Opening? {
      var es' := es + [Tokens.Event(now, Tokens.DoBind(token, c.request.deviceID)),
                       Tokens.Event(now, Tokens.DoTouch(token))];
      Tokens.SamePrefix(ttl, es, es', |es|);
      assert Tokens.Before(ttl, es', |es| + 2)
             == Tokens.After(Tokens.Before(ttl, es', |es| + 1), ttl, es'[|es| + 1]);
    }
  }

  class Server {
    const primitives: Primitives
    const staticPriv: seq<byte>
    const tokens: Tokens.TokenStore
    var conns: map<uint32, Session>
    var outbox: Outbox.Queues
    var nextConnID: uint32

    /** No two connections share a session or any part of one. */
    ghost predicate Valid()
      reads this`conns, conns.Values, set s | s in conns.Values :: s.replay
    {
      && (forall id | id in conns :: conns[id].Valid())
      && forall i, j | i in conns && j in conns && i != j ::
           conns[i] != conns[j] && conns[i].replay != conns[j].replay && conns[i].reorder != conns[j].reorder
    }

    ghost function Table(): T.Table
      reads this`conns, this`nextConnID, conns.Values
      reads (set s | s in conns.Values :: s.replay), (set s | s in conns.Values :: s.reorder)
    {
      T.Table(map id | id in conns :: conns[id].State(), nextConnID)
    }

    constructor (primitives: Primitives, staticPriv: seq<byte>, tokens: Tokens.TokenStore)
      ensures Valid() && Table() == T.Empty() && outbox == map[]
      ensures this.primitives == primitives && this.staticPriv == staticPriv && this.tokens == tokens
    {
      this.primitives, this.staticPriv, this.tokens := primitives, staticPriv, tokens;
      conns, outbox, nextConnID := map[], map[], 1;
    }

    method HandleOpen(token: string, body: Wire, now: int) returns (resp: Option<seq<byte>>)
      requires Valid()
      modifies this, tokens, conns.Values, set s | s in conns.Values :: s.replay
      ensures Valid() && outbox == old(outbox)
      ensures var c := CheckOpen(primitives, staticPriv, old(tokens.bindings), tokens.inactivityTTL, token, body, now);
              if c.Refused? then resp == None && tokens.bindings == old(tokens.bindings) && Table() == old(Table())
              else
                var a := T.Admit(old(Table()), c.request);
                resp == Some(Response(a.1)) && tokens.bindings == c.bindings && Table() == a.0
    {
      var request := Authorize(token, body, now);
      if request.None? {
        return None;
      }
      var a := AdmitSession(request.value);
      resp := Some(Response(a));
    }

    /** The checks in front of the session table: header, size, seal, token. */
    method Authorize(token: string, body: Wire, now: int) returns (request: Option<T.Request>)
      requires Valid()
      modifies tokens
      ensures Valid() && Table() == old(Table())
      ensures var c := CheckOpen(primitives, staticPriv, old(tokens.bindings), tokens.inactivityTTL, token, body, now);
              if c.Refused? then request == None && tokens.bindings == old(tokens.bindings)
              else request == Some(c.request) && tokens.bindings == c.bindings
    {
      hide DecodeHandshake, Session.State, Limit;
      if token == "" {
        return None;
      }
      var wire := Limit(body, HANDSHAKE_WIRE_SIZE);
      var decoded := DecodeHandshake(primitives, wire, staticPriv, HKDF_INFO);
      if decoded.Err? {
        return None;
      }
      var hello, key := decoded.value.hello, decoded.value.sessionKey;
      var bindResult := tokens.TryBind(token, hello.deviceID, now);
      if bindResult != Tokens.BindAccepted {
        return None;
      }
      tokens.Touch(token, now);
      request := Some(T.Request(hello.deviceID, hello.connectionID, key));
    }

    /** The session a handshake is for: the one it asks for, if that belongs to the
        same device, or else a new one under the next id. */
    method FindOrCreate(r: T.Request) returns (cs: Session, a: T.Answer)
      requires Valid()
      modifies this`conns, this`nextConnID
      ensures Valid() && a.connectionID in conns && conns[a.connectionID] == cs
      ensures if T.Resumable(old(Table()), r)
              then a == T.Answer(r.requested, true) && conns == old(conns) && Table() == old(Table())
              else
                && a == T.Answer(old(nextConnID), false) && conns == old(conns)[a.connectionID := cs]
                && fresh(cs) && fresh(cs.replay) && fresh(cs.reorder)
                && Table() == T.Table(old(Table()).conns[a.connectionID := Fresh(r.deviceID)], Succ32(a.connectionID))
    {
      hide Fresh, Session.State;
      if r.requested != 0 && r.requested in conns && conns[r.requested].deviceID == r.deviceID {
        return conns[r.requested], T.Answer(r.requested, true);
      }
      var id;
      id, cs := CreateSession(r.deviceID);
      a := T.Answer(id, false);
    }

    method CreateSession(deviceID: uint64) returns (id: uint32, cs: Session)
      requires Valid()
      modifies this`conns, this`nextConnID
      ensures Valid() && id == old(nextConnID) && conns == old(conns)[id := cs]
      ensures fresh(cs) && fresh(cs.replay) && fresh(cs.reorder)
      ensures Table() == T.Table(old(Table()).conns[id := Fresh(deviceID)], Succ32(id))
    {
      hide Fresh, Session.State;
      cs := Allocate(deviceID);
      id := Register(cs);
    }

    method Allocate(deviceID: uint64) returns (cs: Session)
      requires Valid()
      ensures Valid() && Table() == old(Table())
      ensures fresh(cs) && fresh(cs.replay) && fresh(cs.reorder) && cs.Valid() && cs.State() == Fresh(deviceID)
    {
      hide Fresh, Session.State;
      cs := new Session(deviceID);
    }

    /** Gives the next id to a session that shares nothing with the others. */
    method Register(cs: Session) returns (id: uint32)
      requires Valid() && cs.Valid()
      requires forall j | j in conns :: conns[j] != cs && conns[j].replay != cs.replay && conns[j].reorder != cs.reorder
      modifies this`conns, this`nextConnID
      ensures Valid() && id == old(nextConnID) && conns == old(conns)[id := cs]
      ensures Table() == T.Table(old(Table()).conns[id := cs.State()], Succ32(id))
    {
      hide Session.State;
      ghost var before := Table();
      id := nextConnID;
      nextConnID := Succ32(nextConnID);
      conns := conns[id := cs];
      assert Table().conns == before.conns[id := cs.State()];
    }

    /** Finds or makes the session, then installs the key. */
    method AdmitSession(r: T.Request) returns (a: T.Answer)
      requires Valid()
      modifies this`conns, this`nextConnID, conns.Values, set s | s in conns.Values :: s.replay
      ensures Valid() && (Table(), a) == T.Admit(old(Table()), r)
    {
      var cs;
      cs, a := FindOrCreate(r);
      ghost var found := Table();
      InstallKey(cs, a.connectionID, r.key);
      Overwritten(old(Table()).conns, a.connectionID, Fresh(r.deviceID),
                  Rekey(Fresh(r.deviceID), a.connectionID, r.key));
    }

    static lemma Overwritten(m: map<uint32, SessionState>, id: uint32, s: SessionState, s': SessionState)
      ensures m[id := s][id := s'] == m[id := s']
    {
    }

    method InstallKey(cs: Session, id: uint32, key: seq<byte>)
      requires Valid() && id in conns && conns[id] == cs
      modifies cs, cs.replay
      ensures Valid()
      ensures Table() == old(Table()).(conns := old(Table()).conns[id := Rekey(old(Table()).conns[id], id, key)])
    {
      hide Rekey, Session.State;
      ghost var before := Table();
      cs.CompleteHandshake(id, key);
      assert Table().conns == before.conns[id := Rekey(before.conns[id], id, key)];
    }

    /** Decodes the frames of a push into the session of that id and forwards what
        becomes ready. The outbound half of the connection and the outcomes of writes
        to its socket are parameters; an unknown connection is refused. */
    method HandlePush(id: uint32, body: Wire, slot: Outbound.ConnState, writes: nat -> bool)
      returns (r: Option<(seq<Payload>, seq<Outbound.Action>)>)
      requires Valid()
      modifies slot, (set s | s in conns.Values :: s.replay), (set s | s in conns.Values :: s.reorder)
      ensures Valid()
      ensures id !in conns ==> r == None && Table() == old(Table()) && slot.State() == old(slot.State())
      ensures id in conns ==>
        var received := ReceiveAll(old(Table()).conns[id], Batch.Parse(Limit(body, 0x80_0000)));
        var payloads := Delivered(received.1);
        var forwarded := Outbound.ForwardMany(old(slot.State()), |payloads|, writes);
        && Table() == old(Table()).(conns := old(Table()).conns[id := received.0])
        && r == Some((payloads, forwarded.1)) && slot.State() == forwarded.0
    {
      if id !in conns {
        return None;
      }
      var delivered := Deliver(id, body);
      var actions := Outbound.ForwardBatch(slot, delivered, writes);
      return Some((delivered, actions));
    }

    method Deliver(id: uint32, body: Wire) returns (delivered: seq<Payload>)
      requires Valid() && id in conns
      modifies (set s | s in conns.Values :: s.replay), (set s | s in conns.Values :: s.reorder)
      ensures Valid()
      ensures var r := ReceiveAll(old(Table()).conns[id], Batch.Parse(Limit(body, BODY_LIMIT)));
              delivered == Delivered(r.1) && Table() == old(Table()).(conns := old(Table()).conns[id := r.0])
    {
      hide ReceiveAll, Delivered, Session.State, Batch.Parse;
      ghost var before := Table();
      var capped := Limit(body, BODY_LIMIT);
      var sess := conns[id];
      delivered := ReceiveBody(sess, capped);
      ghost var after := ReceiveAll(before.conns[id], Batch.Parse(capped)).0;
      assert Table().conns == before.conns[id := after];
    }

    /** Seals a payload for a connection and queues the frame. */
    method QueueOutgoing(id: uint32, payload: Payload)
      requires Valid() && id in conns
      modifies this`outbox, conns.Values
      ensures Valid()
      ensures var e := Encode(old(Table()).conns[id], payload, 0);
              && Table() == old(Table()).(conns := old(Table()).conns[id := e.0])
              && outbox == (if e.1.Ok? then Outbox.Append(old(outbox), id, e.1.value) else old(outbox))
    {
      hide Encode, Session.State;
      var wire := EncodeFor(id, payload);
      if wire.Err? {
        return;
      }
      outbox := outbox[id := Outbox.Queued(outbox, id) + [wire.value]];
    }

    method EncodeFor(id: uint32, payload: Payload) returns (r: Result<Wire, Error>)
      requires Valid() && id in conns
      modifies conns.Values
      ensures Valid()
      ensures var e := Encode(old(Table()).conns[id], payload, 0);
              r == e.1 && Table() == old(Table()).(conns := old(Table()).conns[id := e.0])
    {
      hide Encode, Session.State;
      ghost var before := Table();
      var sess := conns[id];
      r := sess.EncodeOutgoing(payload, 0);
      assert Table().conns == before.conns[id := Encode(before.conns[id], payload, 0).0];
    }

    /** Empties the queue of a connection into a response body. */
    method HandlePull(id: uint32) returns (body: Option<Wire>)
      requires Valid()
      modifies this`outbox
      ensures Valid() && Table() == old(Table())
      ensures id !in conns ==> body == None && outbox == old(outbox)
      ensures id in conns ==>
        body == Some(Batch.Print(Outbox.Queued(old(outbox), id))) && outbox == Outbox.Clear(old(outbox), id)
    {
      hide Session.State;
      if id !in conns {
        return None;
      }
      var frames := Outbox.Queued(outbox, id);
      outbox := outbox[id := []];
      var printed := Batch.PrintLoop(frames);
      body := Some(printed);
    }
  }
}
