/** One end of a connection: numbering and sealing outgoing payloads, and filtering
    incoming frames through the replay window and the reorder buffer. */
module Session {
  import opened Bytes
  import opened Crypto
  import opened Frame
  import Batch
  import Bits
  import Replay
  import Reorder

  type Payload = Reorder.Payload

  datatype Phase = New | Handshaking | Active | Reconnecting | Closed

  datatype SessionState = SessionState(
    deviceID: uint64,
    connectionID: uint32,
    key: seq<byte>,
    phase: Phase,
    sendCounter: uint32,         // numbers frames for the nonce, restarts with every key
    sendSequence: uint32,        // numbers payloads for delivery, never restarts
    accepted: set<uint32>,       // counters accepted under the current key
    buffer: Reorder.Buffer)

  datatype Incoming =
    | Malformed(error: Error)
    | Replayed(frame: DataFrame)
    | Accepted(frame: DataFrame, ready: seq<Payload>)

  function Fresh(deviceID: uint64): SessionState {
    SessionState(deviceID, 0, [], New, 0, 0, {}, Reorder.Buffer(0, map[], true))
  }

  function Rekey(s: SessionState, connectionID: uint32, key: seq<byte>): SessionState {
    s.(connectionID := connectionID, key := key, sendCounter := 0, accepted := {}, phase := Active)
  }

  function OutgoingFrame(connectionID: uint32, sequence: uint32, flags: Flags, payload: Payload): DataFrame {
    DataFrame(connectionID, 0, sequence, 0, WithData(flags), payload)
  }

  /** Both numbers are used up even when sealing fails. */
  function Encode(s: SessionState, payload: Payload, flags: Flags): (SessionState, Result<Wire, Error>) {
    var f := OutgoingFrame(s.connectionID, s.sendSequence, flags, payload);
    (s.(sendSequence := Succ32(s.sendSequence), sendCounter := Succ32(s.sendCounter)),
     EncodeDataFrame(s.key, s.sendCounter, f))
  }

  ghost function Decode(s: SessionState, wire: Wire): (SessionState, Incoming) {
    match DecodeDataFrame(s.key, s.connectionID, wire)
    case Err(e) => (s, Malformed(e))
    case Ok((f, counter)) =>
      if !Replay.Admits(s.accepted, counter) then (s, Replayed(f))
      else
        var r := Reorder.Absorb(s.buffer, f.sequence, f.payload);
        (s.(accepted := s.accepted + {counter}, buffer := r.0), Accepted(f, r.1))
  }

  class Session {
    const deviceID: uint64
    var connectionID: uint32
    var sessionKey: seq<byte>
    var phase: Phase
    var sendCounter: uint32
    var sendSequence: uint32
    const replay: Replay.ReplayWindow
    const reorder: Reorder.ReorderBuffer

    ghost predicate Valid()
      reads this, replay
    {
      replay.Valid()
    }

    ghost function State(): (s: SessionState)
      reads this, replay, reorder
      ensures s.deviceID == deviceID
    {
      SessionState(deviceID, connectionID, sessionKey, phase, sendCounter, sendSequence,
                   replay.accepted, reorder.Contents())
    }

    constructor (deviceID: uint64)
      ensures Valid() && State() == Fresh(deviceID)
      ensures connectionID == 0 && sessionKey == [] && phase == New && sendCounter == 0 && sendSequence == 0
      ensures replay.accepted == {} && reorder.Contents() == Reorder.Buffer(0, map[], true)
      ensures fresh(replay) && fresh(reorder)
    {
      this.deviceID := deviceID;
      connectionID, sessionKey, phase, sendCounter, sendSequence := 0, [], New, 0, 0;
      replay := new Replay.ReplayWindow();
      reorder := new Reorder.ReorderBuffer(0);
    }

    method CompleteHandshake(connectionID: uint32, sessionKey: seq<byte>)
      requires Valid()
      modifies this, replay
      ensures Valid() && State() == Rekey(old(State()), connectionID, sessionKey)
      ensures this.connectionID == connectionID && this.sessionKey == sessionKey && phase == Active
      ensures sendCounter == 0 && replay.accepted == {}
      ensures sendSequence == old(sendSequence) && reorder.Contents() == old(reorder.Contents())
    {
      this.connectionID := connectionID;
      this.sessionKey := sessionKey;
      sendCounter := 0;
      replay.Reset();
      phase := Active;
    }

    method NextSendCounter() returns (c: uint32)
      modifies this`sendCounter
      ensures c == old(sendCounter) && sendCounter == Succ32(c)
    {
      sendCounter := Succ32(sendCounter);
      c := (sendCounter - 1) % 0x1_0000_0000;
    }

    method NextSendSequence() returns (q: uint32)
      modifies this`sendSequence
      ensures q == old(sendSequence) && sendSequence == Succ32(q)
    {
      sendSequence := Succ32(sendSequence);
      q := (sendSequence - 1) % 0x1_0000_0000;
    }

    method EncodeOutgoing(payload: Payload, flags: Flags) returns (r: Result<Wire, Error>)
      requires Valid()
      modifies this`sendCounter, this`sendSequence
      ensures Valid() && (State(), r) == Encode(old(State()), payload, flags)
    {
      var key, connID := sessionKey, connectionID;
      var seqNo := NextSendSequence();
      var ctr := NextSendCounter();
      var f := DataFrame(connID, 0, seqNo, 0, WithData(flags), payload);
      r := EncodeDataFrame(key, ctr, f);
    }

    method DecodeIncoming(wire: Wire) returns (r: Incoming)
      requires Valid()
      modifies replay, reorder
      ensures Valid() && (State(), r) == Decode(old(State()), wire)
    {
      var key, connID := sessionKey, connectionID;
      var decoded := DecodeDataFrame(key, connID, wire);
      match decoded
      case Err(e) =>
        r := Malformed(e);
      case Ok((f, counter)) =>
        var novel := replay.CheckAndMark(counter);
        if !novel {
          return Replayed(f);
        }
        var ready := reorder.Insert(f.sequence, f.payload);
        r := Accepted(f, ready);
    }
  }

  /** What a peer under the same key reads in a frame sent: this session's id and
      numbers, stream and acknowledgement 0, the caller's flags with the data bit. */
  lemma SentFrameReads(s: SessionState, payload: Payload, flags: Flags)
    requires ValidKey(s.key) && |payload| <= 0xFFFF
    ensures var wire := Encode(s, payload, flags).1;
            && wire.Ok?
            && var r := DecodeDataFrame(s.key, s.connectionID, wire.value);
               && r.Ok? && r.value.1 == s.sendCounter
               && var f := r.value.0;
                  && f.connectionID == s.connectionID && f.sequence == s.sendSequence && f.payload == payload
                  && f.streamID == 0 && f.ack == 0
                  && forall i: nat :: Bits.Bit(f.flags, i) <==> i == 1 || Bits.Bit(flags, i)
  {
    DataFlag(flags);
    DecodeEncoded(s.key, s.sendCounter, OutgoingFrame(s.connectionID, s.sendSequence, flags, payload));
  }

  // ----- Bursts of sends and of arrivals -----

  /** The state after sending ps one by one, and what each send returned. */
  function SendAll(s: SessionState, ps: seq<Payload>, flags: Flags): (SessionState, seq<Result<Wire, Error>>) {
    if ps == [] then (s, [])
    else
      var before := SendAll(s, ps[..|ps| - 1], flags);
      var last := Encode(before.0, ps[|ps| - 1], flags);
      (last.0, before.1 + [last.1])
  }

  /** The state after the arrivals ws, and what each of them led to. */
  ghost function ReceiveAll(s: SessionState, ws: seq<Wire>): (r: (SessionState, seq<Incoming>))
    ensures |r.1| == |ws|
  {
    if ws == [] then (s, [])
    else
      var before := ReceiveAll(s, ws[..|ws| - 1]);
      var last := Decode(before.0, ws[|ws| - 1]);
      (last.0, before.1 + [last.1])
  }

  /** Everything handed to the application. */
  function Delivered(rs: seq<Incoming>): seq<Payload> {
    if rs == [] then []
    else Delivered(rs[..|rs| - 1]) + (if rs[|rs| - 1].Accepted? then rs[|rs| - 1].ready else [])
  }

  lemma ReceiveOneMore(s: SessionState, ws: seq<Wire>, w: Wire)
    ensures var before := ReceiveAll(s, ws);
            var last := Decode(before.0, w);
            ReceiveAll(s, ws + [w]) == (last.0, before.1 + [last.1])
  {
    assert (ws + [w])[..|ws|] == ws;
  }

  lemma DeliveredOneMore(rs: seq<Incoming>, r: Incoming)
    ensures Delivered(rs + [r]) == if r.Accepted? then Delivered(rs) + r.ready else Delivered(rs)
  {
    assert (rs + [r])[..|rs|] == rs;
    assert Delivered(rs) + [] == Delivered(rs);
  }

  /** The loop below has the frames done behind it and stands at offset. */
  ghost predicate At(body: Wire, done: seq<Wire>, offset: int) {
    0 <= offset <= |body| && Batch.Parse(body) == done + Batch.Parse(body[offset..])
  }

  lemma AtStart(body: Wire)
    ensures At(body, [], 0)
  {
    assert body[0..] == body && [] + Batch.Parse(body) == Batch.Parse(body);
  }

  lemma AtEnd(body: Wire, done: seq<Wire>, offset: nat)
    requires At(body, done, offset)
    ensures offset + 2 > |body| ==> Batch.Parse(body) == done
  {
    assert done + [] == done;
  }

  /** One turn: the length in front of a frame decides whether there is another one. */
  lemma AtNext(body: Wire, done: seq<Wire>, offset: nat)
    requires At(body, done, offset) && offset + 2 <= |body|
    ensures var n := Batch.Length16(body[offset..offset + 2]);
            if offset + 2 + n > |body| then Batch.Parse(body) == done
            else At(body, done + [body[offset + 2..offset + 2 + n]], offset + 2 + n)
  {
    Batch.ParseTurn(body, offset);
    var n := Batch.Length16(body[offset..offset + 2]);
    if offset + 2 + n > |body| {
      Shift(done, [], []);
    } else {
      Shift(done, body[offset + 2..offset + 2 + n], Batch.Parse(body[offset + 2 + n..]));
    }
  }

  lemma Shift<A>(xs: seq<A>, x: A, ys: seq<A>)
    ensures xs + ([x] + ys) == (xs + [x]) + ys
    ensures xs + [] == xs
  {
  }

  /** Everything after the arrivals done: the session's state and the output. */
  ghost predicate Handled(start: SessionState, done: seq<Wire>, s: SessionState,
                          results: seq<Incoming>, out: seq<Payload>)
  {
    (s, results) == ReceiveAll(start, done) && out == Delivered(results)
  }

  lemma HandledStart(start: SessionState)
    ensures Handled(start, [], start, [], [])
  {
  }

  lemma HandledNext(start: SessionState, done: seq<Wire>, s: SessionState,
                    results: seq<Incoming>, out: seq<Payload>, wire: Wire)
    requires Handled(start, done, s, results, out)
    ensures var d := Decode(s, wire);
            Handled(start, done + [wire], d.0, results + [d.1], if d.1.Accepted? then out + d.1.ready else out)
  {
    ReceiveOneMore(start, done, wire);
    DeliveredOneMore(results, Decode(s, wire).1);
  }

  /** The receive loop that the client's Pull and the server's handlePush share:
      a moving offset over the body, one decode for every whole frame. */
  method ReceiveBody(s: Session, body: Wire) returns (out: seq<Payload>)
    requires s.Valid()
    modifies s.replay, s.reorder
    ensures s.Valid()
    ensures var r := ReceiveAll(old(s.State()), Batch.Parse(body));
            s.State() == r.0 && out == Delivered(r.1)
  {
    hide DecodeDataFrame, Batch.Parse, Batch.Length16, ReceiveAll;
    out := [];
    var offset := 0;
    ghost var start := s.State();
    ghost var done: seq<Wire>, results: seq<Incoming> := [], [];
    AtStart(body);
    HandledStart(start);
    while offset + 2 <= |body|
      invariant At(body, done, offset)
      invariant s.Valid() && Handled(start, done, s.State(), results, out)
    {
      AtNext(body, done, offset);
      var frameLen := Batch.Length16(body[offset..offset + 2]);
      offset := offset + 2;
      if offset + frameLen > |body| {
        break;
      }
      var wire := body[offset..offset + frameLen];
      offset := offset + frameLen;
      HandledNext(start, done, s.State(), results, out, wire);
      done := done + [wire];
      var result := s.DecodeIncoming(wire);
      results := results + [result];
      if result.Accepted? {
        out := out + result.ready;
      }
    }
    if At(body, done, offset) { AtEnd(body, done, offset); }
  }
}
