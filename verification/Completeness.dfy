/** What one key's worth of frames delivers, for every order of arrival. */
module Completeness {
  import opened Bytes
  import opened Crypto
  import opened Frame
  import opened Session
  import Batch
  import Replay
  import Reorder

  /** Both sides hold the same key and connection id, nothing was sent or accepted
      under that key yet, and the receiver waits for the sender's next sequence. */
  ghost predicate Paired(tx: SessionState, rx: SessionState) {
    && tx.key == rx.key && ValidKey(tx.key) && tx.connectionID == rx.connectionID
    && tx.sendCounter == 0 && rx.accepted == {}
    && rx.buffer == Reorder.Buffer(tx.sendSequence, map[], true)
  }

  predicate Sendable(tx: SessionState, ps: seq<Payload>) {
    tx.sendSequence + |ps| < 0x1_0000_0000 && forall i | 0 <= i < |ps| :: |ps[i]| <= 0xFFFF
  }

  /** The i-th frame sent after a rekey. */
  function SentFrame(tx: SessionState, ps: seq<Payload>, flags: Flags, i: nat): DataFrame
    requires Sendable(tx, ps) && i < |ps|
  {
    OutgoingFrame(tx.connectionID, tx.sendSequence + i, flags, ps[i])
  }

  function Wires(tx: SessionState, ps: seq<Payload>, flags: Flags): (ws: seq<Wire>)
    requires Sendable(tx, ps) && ValidKey(tx.key)
    ensures |ws| == |ps|
  {
    seq(|ps|, i requires 0 <= i < |ps| => EncodeDataFrame(tx.key, i, SentFrame(tx, ps, flags, i)).value)
  }

  /** Wires is what a burst of EncodeOutgoing calls returns. */
  lemma {:induction false} SendAllWires(tx: SessionState, ps: seq<Payload>, flags: Flags)
    requires Sendable(tx, ps) && ValidKey(tx.key) && tx.sendCounter == 0
    ensures var r := SendAll(tx, ps, flags);
            && r.0 == tx.(sendSequence := tx.sendSequence + |ps|, sendCounter := |ps|)
            && r.1 == Results(Wires(tx, ps, flags))
  {
    hide EncodeDataFrame, Encode;
    if ps != [] {
      var n := |ps| - 1;
      SendAllWires(tx, ps[..n], flags);
      EncodeNext(tx, ps, flags, n);
      WiresPrefix(tx, ps, flags, n);
      var ws := Wires(tx, ps, flags);
      assert Results(ws) == Results(ws[..n]) + [Ok(ws[n])];
    }
  }

  function Results(ws: seq<Wire>): (rs: seq<Result<Wire, Error>>)
    ensures |rs| == |ws|
  {
    seq(|ws|, i requires 0 <= i < |ws| => Ok(ws[i]))
  }

  lemma EncodeSucceeds(key: seq<byte>, counter: uint32, f: DataFrame)
    requires ValidKey(key)
    ensures EncodeDataFrame(key, counter, f).Ok?
  {
  }

  lemma WireAt(tx: SessionState, ps: seq<Payload>, flags: Flags, n: nat)
    requires Sendable(tx, ps) && ValidKey(tx.key) && n < |ps|
    ensures EncodeDataFrame(tx.key, n, SentFrame(tx, ps, flags, n)) == Ok(Wires(tx, ps, flags)[n])
  {
    EncodeSucceeds(tx.key, n, SentFrame(tx, ps, flags, n));
  }

  lemma EncodeNext(tx: SessionState, ps: seq<Payload>, flags: Flags, n: nat)
    requires Sendable(tx, ps) && ValidKey(tx.key) && n < |ps|
    ensures Encode(tx.(sendSequence := tx.sendSequence + n, sendCounter := n), ps[n], flags)
            == (tx.(sendSequence := tx.sendSequence + n + 1, sendCounter := n + 1), Ok(Wires(tx, ps, flags)[n]))
  {
    hide EncodeDataFrame, WithData, Wires, ValidKey;
    WireAt(tx, ps, flags, n);
    var s := tx.(sendSequence := tx.sendSequence + n, sendCounter := n);
    assert OutgoingFrame(s.connectionID, s.sendSequence, flags, ps[n]) == SentFrame(tx, ps, flags, n);
  }

  lemma WiresPrefix(tx: SessionState, ps: seq<Payload>, flags: Flags, m: nat)
    requires Sendable(tx, ps) && ValidKey(tx.key) && m <= |ps|
    ensures Wires(tx, ps[..m], flags) == Wires(tx, ps, flags)[..m]
  {
  }

  /** The k-th arrival is frame number order[k]. */
  ghost predicate Orders(order: seq<uint32>, n: nat) {
    forall j | 0 <= j < |order| :: order[j] < n
  }

  function Arrivals(ws: seq<Wire>, order: seq<uint32>): (ws': seq<Wire>)
    requires Orders(order, |ws|)
    ensures |ws'| == |order|
  {
    seq(|order|, j requires 0 <= j < |order| => ws[order[j]])
  }

  ghost predicate Arrived(q: uint32, n: nat, accepted: set<uint32>, s: uint32) {
    q <= s < q + n && s - q in accepted
  }

  /** The payloads of the accepted counters, under their sequence numbers. */
  ghost function Got(q: uint32, ps: seq<Payload>, accepted: set<uint32>): map<uint32, Payload> {
    map s: uint32 | Arrived(q, |ps|, accepted, s) :: ps[s - q]
  }

  lemma GotOneMore(q: uint32, ps: seq<Payload>, accepted: set<uint32>, c: uint32)
    requires q + |ps| < 0x1_0000_0000 && c < |ps| && c !in accepted
    ensures var got := Reorder.Keep(q, Got(q, ps, accepted), Reorder.Item(q + c, ps[c]));
            got == Got(q, ps, accepted + {c}) && Reorder.ShortOfWrap(q, got)
  {
    var got := Reorder.Keep(q, Got(q, ps, accepted), Reorder.Item(q + c, ps[c]));
    assert got == Got(q, ps, accepted + {c});
    var m: uint32 := q + |ps|;
    assert m !in got;
  }

  ghost predicate FirstArrival(order: seq<uint32>, j: nat)
    requires j < |order|
  {
    forall i | 0 <= i < j :: order[i] != order[j]
  }

  /** No frame first arrives after a frame whose counter is 64 or more higher. */
  ghost predicate BoundedReordering(order: seq<uint32>) {
    forall i, j | 0 <= i < j < |order| && FirstArrival(order, j) :: order[i] as int < order[j] as int + 64
  }

  lemma OneArrival(tx: SessionState, rx: SessionState, ps: seq<Payload>, flags: Flags, c: uint32)
    requires tx.key == rx.key && ValidKey(tx.key) && tx.connectionID == rx.connectionID
    requires Sendable(tx, ps) && c < |ps|
    ensures var r := Decode(rx, Wires(tx, ps, flags)[c]);
            var f := SentFrame(tx, ps, flags, c);
            if Replay.Admits(rx.accepted, c) then
              var b := Reorder.Absorb(rx.buffer, tx.sendSequence + c, ps[c]);
              r == (rx.(accepted := rx.accepted + {c}, buffer := b.0), Accepted(f, b.1))
            else r == (rx, Replayed(f))
  {
    DecodeEncoded(tx.key, c, SentFrame(tx, ps, flags, c));
  }

  /** After any arrivals: the accepted counters are those of the replay rule alone,
      and the stream is reassembled from exactly their payloads. */
  lemma {:induction false} Progress(tx: SessionState, rx: SessionState, ps: seq<Payload>, flags: Flags,
                                    order: seq<uint32>)
    requires Paired(tx, rx) && Sendable(tx, ps) && Orders(order, |ps|)
    ensures var r := ReceiveAll(rx, Arrivals(Wires(tx, ps, flags), order));
            && r.0 == rx.(accepted := Replay.Accepted(order), buffer := r.0.buffer)
            && Reorder.Reassembled(tx.sendSequence, Got(tx.sendSequence, ps, Replay.Accepted(order)),
                                   r.0.buffer, Delivered(r.1))
  {
    hide DecodeDataFrame, EncodeDataFrame, Reorder.Absorb;
    var q, ws := tx.sendSequence, Wires(tx, ps, flags);
    if order != [] {
      var n := |order| - 1;
      var init, c := order[..n], order[n];
      Progress(tx, rx, ps, flags, init);
      var before := ReceiveAll(rx, Arrivals(ws, init));
      assert Arrivals(ws, order) == Arrivals(ws, init) + [ws[c]];
      ReceiveOneMore(rx, Arrivals(ws, init), ws[c]);
      OneArrival(tx, before.0, ps, flags, c);
      DeliveredOneMore(before.1, Decode(before.0, ws[c]).1);
      var accepted := Replay.Accepted(init);
      if Replay.Admits(accepted, c) {
        GotOneMore(q, ps, accepted, c);
        Reorder.InsertReassembles(q, Got(q, ps, accepted), before.0.buffer, Delivered(before.1),
                                  Reorder.Item(q + c, ps[c]));
      }
    } else {
      assert Got(q, ps, {}) == map[];
    }
  }

  /** What the j-th arrival led to. */
  lemma ArrivalOutcome(tx: SessionState, rx: SessionState, ps: seq<Payload>, flags: Flags, order: seq<uint32>, j: nat)
    requires Paired(tx, rx) && Sendable(tx, ps) && Orders(order, |ps|) && j < |order|
    ensures var r := ReceiveAll(rx, Arrivals(Wires(tx, ps, flags), order)).1[j];
            !r.Malformed? && r.frame == SentFrame(tx, ps, flags, order[j])
            && if FirstArrival(order, j) && forall i | 0 <= i < j :: order[i] < order[j] + Replay.WINDOW_SIZE
               then r.Accepted? else r.Replayed?
  {
    var ws := Wires(tx, ps, flags);
    Progress(tx, rx, ps, flags, order[..j]);
    ReceivePrefix(rx, Arrivals(ws, order), j);
    assert Arrivals(ws, order)[..j] == Arrivals(ws, order[..j]);
    OneArrival(tx, ReceiveAll(rx, Arrivals(ws, order[..j])).0, ps, flags, order[j]);
    AdmitsIff(order, j);
  }

  lemma {:induction false} ReceivePrefix(s: SessionState, ws: seq<Wire>, j: nat)
    requires j < |ws|
    ensures ReceiveAll(s, ws).1[j] == Decode(ReceiveAll(s, ws[..j]).0, ws[j]).1
  {
    var n := |ws| - 1;
    if j < n {
      ReceivePrefix(s, ws[..n], j);
      assert ws[..n][..j] == ws[..j];
    }
  }

  lemma AdmitsIff(order: seq<uint32>, j: nat)
    requires j < |order|
    ensures Replay.Admits(Replay.Accepted(order[..j]), order[j])
            <==> FirstArrival(order, j) && forall i | 0 <= i < j :: order[i] < order[j] + Replay.WINDOW_SIZE
  {
    Replay.AdmitsByArrivals(order[..j], order[j]);
    forall i | 0 <= i < j ensures order[i] in order[..j] { assert order[..j][i] == order[i]; }
  }

  lemma FirstArrivalOf(order: seq<uint32>, c: uint32) returns (j: nat)
    requires c in order
    ensures j < |order| && order[j] == c && FirstArrival(order, j)
  {
    j := 0;
    while order[j] != c
      invariant j < |order| && c in order[j..] && forall i | 0 <= i < j :: order[i] != c
      decreases |order| - j
    {
      j := j + 1;
    }
  }

  /** A counter is accepted over the whole run exactly when its first arrival was in time. */
  lemma AcceptedIff(order: seq<uint32>, j: nat)
    requires j < |order| && FirstArrival(order, j)
    ensures order[j] in Replay.Accepted(order) <==> forall i | 0 <= i < j :: order[i] < order[j] + Replay.WINDOW_SIZE
  {
    var c := order[j];
    Replay.AcceptedAtSomeArrival(order, c);
    AdmitsIff(order, j);
    if c in Replay.Accepted(order) {
      var k :| 0 <= k < |order| && order[k] == c && Replay.Admits(Replay.Accepted(order[..k]), c);
      AdmitsIff(order, k);
      assert j == k;
    }
  }

  /** Under one key, from a reset window and an empty buffer: if every frame arrives
      at least once, then the payloads come out complete and in order exactly when
      no frame first arrives after one whose counter is 64 or more higher. In that
      case nothing is left pending. */
  lemma DeliveryIff(tx: SessionState, rx: SessionState, ps: seq<Payload>, flags: Flags, order: seq<uint32>)
    requires Paired(tx, rx) && Sendable(tx, ps)
    requires Orders(order, |ps|) && forall c: uint32 | c < |ps| :: c in order
    ensures var r := ReceiveAll(rx, Arrivals(Wires(tx, ps, flags), order));
            && (BoundedReordering(order) <==> Delivered(r.1) == ps)
            && (BoundedReordering(order) ==> r.0.buffer == Reorder.Buffer(tx.sendSequence + |ps|, map[], true))
  {
    Progress(tx, rx, ps, flags, order);
    var q := tx.sendSequence;
    var r := ReceiveAll(rx, Arrivals(Wires(tx, ps, flags), order));
    if BoundedReordering(order) {
      forall c: uint32 | c < |ps| ensures c in Replay.Accepted(order) {
        var j := FirstArrivalOf(order, c);
        AcceptedIff(order, j);
      }
      EverythingGot(q, ps, Replay.Accepted(order), r.0.buffer, Delivered(r.1));
    } else {
      var i, j :| 0 <= i < j < |order| && FirstArrival(order, j) && order[i] >= order[j] + Replay.WINDOW_SIZE;
      AcceptedIff(order, j);
      GapHolds(q, ps, Replay.Accepted(order), r.0.buffer, Delivered(r.1), order[j]);
    }
  }

  /** With bounded reordering each frame is accepted at its first arrival and
      absorbed as a replay at every later one. */
  lemma AcceptedOnce(tx: SessionState, rx: SessionState, ps: seq<Payload>, flags: Flags, order: seq<uint32>, j: nat)
    requires Paired(tx, rx) && Sendable(tx, ps) && Orders(order, |ps|) && j < |order| && BoundedReordering(order)
    ensures var r := ReceiveAll(rx, Arrivals(Wires(tx, ps, flags), order)).1[j];
            !r.Malformed? && r.frame == SentFrame(tx, ps, flags, order[j])
            && if FirstArrival(order, j) then r.Accepted? else r.Replayed?
  {
    ArrivalOutcome(tx, rx, ps, flags, order, j);
  }

  /** A counter that was never accepted stops the stream in front of its payload. */
  lemma GapHolds(q: uint32, ps: seq<Payload>, accepted: set<uint32>, b: Reorder.Buffer, out: seq<Payload>, c: uint32)
    requires q + |ps| < 0x1_0000_0000 && c < |ps| && c !in accepted
    requires Reorder.Reassembled(q, Got(q, ps, accepted), b, out)
    ensures |out| <= c
  {
    assert q + c !in Got(q, ps, accepted);
    var s: uint32 := q + c;
    assert b.next <= s;
  }

  lemma EverythingGot(q: uint32, ps: seq<Payload>, accepted: set<uint32>, b: Reorder.Buffer, out: seq<Payload>)
    requires q + |ps| < 0x1_0000_0000 && forall c: uint32 | c < |ps| :: c in accepted
    requires Reorder.Reassembled(q, Got(q, ps, accepted), b, out)
    ensures out == ps && b == Reorder.Buffer(q + |ps|, map[], true)
  {
    var got := Got(q, ps, accepted);
    var m: uint32 := q + |ps|;
    assert m !in got;
    forall s: uint32 | q <= s < m ensures s in got && got[s] == ps[s - q] {
      var c: uint32 := s - q;
      assert c in accepted && Arrived(q, |ps|, accepted, s);
    }
    assert b.next == m;
  }

  // ----- One key after another -----

  /** Both sides install a key, the payloads are sent, and the frames arrive in this order. */
  datatype Epoch = Epoch(connectionID: uint32, key: seq<byte>, ps: seq<Payload>, order: seq<uint32>)

  /** Every frame fits, arrives at least once, and not more than 63 counters late. */
  ghost predicate Orderly(e: Epoch) {
    && ValidKey(e.key) && |e.ps| < 0x1_0000_0000 && (forall i | 0 <= i < |e.ps| :: |e.ps[i]| <= 0xFFFF)
    && (forall c: uint32 | c < |e.ps| :: c in e.order) && BoundedReordering(e.order)
  }

  function AllPayloads(es: seq<Epoch>): seq<Payload> {
    if es == [] then [] else es[0].ps + AllPayloads(es[1..])
  }

  function Frames(rs: seq<Result<Wire, Error>>): (ws: seq<Wire>)
    ensures |ws| == |rs|
  {
    seq(|rs|, i requires 0 <= i < |rs| => if rs[i].Ok? then rs[i].value else [])
  }

  /** Sender, receiver and everything delivered after the epochs. */
  ghost function Transfer(tx: SessionState, rx: SessionState, es: seq<Epoch>, flags: Flags)
    : (SessionState, SessionState, seq<Payload>)
    requires forall i | 0 <= i < |es| :: Orders(es[i].order, |es[i].ps|)
    decreases |es|
  {
    if es == [] then (tx, rx, [])
    else
      var e := es[0];
      var sent := SendAll(Rekey(tx, e.connectionID, e.key), e.ps, flags);
      SendAllLength(Rekey(tx, e.connectionID, e.key), e.ps, flags);
      var r := ReceiveAll(Rekey(rx, e.connectionID, e.key), Arrivals(Frames(sent.1), e.order));
      var rest := Transfer(sent.0, r.0, es[1..], flags);
      (rest.0, rest.1, Delivered(r.1) + rest.2)
  }

  lemma {:induction false} SendAllLength(s: SessionState, ps: seq<Payload>, flags: Flags)
    ensures |SendAll(s, ps, flags).1| == |ps|
  {
    if ps != [] {
      SendAllLength(s, ps[..|ps| - 1], flags);
    }
  }

  /** One epoch between sides that agree on the next sequence. */
  lemma EpochDelivers(tx: SessionState, rx: SessionState, e: Epoch, flags: Flags)
    requires Orders(e.order, |e.ps|) && Orderly(e) && rx.buffer == Reorder.Buffer(tx.sendSequence, map[], true)
    requires tx.sendSequence + |e.ps| < 0x1_0000_0000
    ensures var sent := SendAll(Rekey(tx, e.connectionID, e.key), e.ps, flags);
            && |sent.1| == |e.ps| && sent.0.sendSequence == tx.sendSequence + |e.ps|
            && var r := ReceiveAll(Rekey(rx, e.connectionID, e.key), Arrivals(Frames(sent.1), e.order));
               Delivered(r.1) == e.ps && r.0.buffer == Reorder.Buffer(sent.0.sendSequence, map[], true)
  {
    hide SendAll, ReceiveAll, Delivered;
    var tx1, rx1 := Rekey(tx, e.connectionID, e.key), Rekey(rx, e.connectionID, e.key);
    var ws := Wires(tx1, e.ps, flags);
    SendAllWires(tx1, e.ps, flags);
    assert Frames(Results(ws)) == ws;
    DeliveryIff(tx1, rx1, e.ps, flags, e.order);
  }

  /** Over any number of keys, each installed when nothing is in flight: the stream
      runs on across the rekeys, complete and in order. */
  lemma {:induction false} EpochsDeliver(tx: SessionState, rx: SessionState, es: seq<Epoch>, flags: Flags)
    requires forall i | 0 <= i < |es| :: Orders(es[i].order, |es[i].ps|) && Orderly(es[i])
    requires rx.buffer == Reorder.Buffer(tx.sendSequence, map[], true)
    requires tx.sendSequence + |AllPayloads(es)| < 0x1_0000_0000
    ensures var r := Transfer(tx, rx, es, flags);
            && r.2 == AllPayloads(es) && r.0.sendSequence == tx.sendSequence + |AllPayloads(es)|
            && r.1.buffer == Reorder.Buffer(r.0.sendSequence, map[], true)
    decreases |es|
  {
    hide SendAll, ReceiveAll, Delivered, BoundedReordering;
    if es != [] {
      var e := es[0];
      EpochDelivers(tx, rx, e, flags);
      var sent := SendAll(Rekey(tx, e.connectionID, e.key), e.ps, flags);
      var r := ReceiveAll(Rekey(rx, e.connectionID, e.key), Arrivals(Frames(sent.1), e.order));
      EpochsDeliver(sent.0, r.0, es[1..], flags);
    }
  }

  // ----- One pull, cut off anywhere -----

  function InOrder(n: nat): (order: seq<uint32>)
    requires n < 0x1_0000_0000
  {
    seq(n, i requires 0 <= i < n => i)
  }

  lemma InOrderArrivals(ws: seq<Wire>)
    requires |ws| < 0x1_0000_0000
    ensures Arrivals(ws, InOrder(|ws|)) == ws && BoundedReordering(InOrder(|ws|))
    ensures forall c: uint32 | c < |ws| :: c in InOrder(|ws|)
  {
    forall c: uint32 | c < |ws| ensures c in InOrder(|ws|) { assert InOrder(|ws|)[c] == c; }
  }

  lemma WiresFit(tx: SessionState, ps: seq<Payload>, flags: Flags)
    requires Sendable(tx, ps) && ValidKey(tx.key) && forall i | 0 <= i < |ps| :: |ps[i]| <= 65498
    ensures Batch.Fitting(Wires(tx, ps, flags))
  {
    forall i | 0 <= i < |ps| ensures |Wires(tx, ps, flags)[i]| <= Batch.MAX_FRAME {
      DecodeEncoded(tx.key, i, SentFrame(tx, ps, flags, i));
    }
  }

  /** The sender's frames printed into one body, and the body cut off after k bytes:
      the receive loop delivers exactly the payloads of the frames it still contains
      whole, and is ready for the next one. */
  lemma TruncatedBody(tx: SessionState, rx: SessionState, ps: seq<Payload>, flags: Flags, k: nat)
    requires Paired(tx, rx) && Sendable(tx, ps) && forall i | 0 <= i < |ps| :: |ps[i]| <= 65498
    requires k <= |Batch.Print(Wires(tx, ps, flags))|
    ensures var ws := Wires(tx, ps, flags);
            var m := Batch.Whole(ws, k);
            var r := ReceiveAll(rx, Batch.Parse(Batch.Print(ws)[..k]));
            && m <= |ps| && Delivered(r.1) == ps[..m]
            && r.0.buffer == Reorder.Buffer(tx.sendSequence + m, map[], true)
  {
    var ws := Wires(tx, ps, flags);
    WiresFit(tx, ps, flags);
    Batch.TruncatedParse(ws, k);
    var m := Batch.Whole(ws, k);
    var qs := ps[..m];
    WiresPrefix(tx, ps, flags, m);
    InOrderArrivals(ws[..m]);
    DeliveryIff(tx, rx, qs, flags, InOrder(m));
  }
}
