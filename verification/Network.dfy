/** Two sessions joined by a network that may reorder, duplicate, drop, cut, splice
    and tamper with what they send, while either side rekeys at any moment.
    Sending and receiving are split into the steps between which the session's
    locks are free, so that any number of calls may be under way at once. */
module Network {
  import opened Bytes
  import opened Crypto
  import opened Frame
  import opened Session
  import Replay
  import Reorder

  /** An EncodeOutgoing call: key snapshot, then sequence, then counter, then seal. */
  datatype Sending =
    | Started(key: seq<byte>, connectionID: uint32, payload: Payload, flags: Flags)
    | Numbered(key: seq<byte>, connectionID: uint32, payload: Payload, flags: Flags, sequence: uint32)
    | Counted(key: seq<byte>, connectionID: uint32, payload: Payload, flags: Flags, sequence: uint32, counter: uint32)

  /** A DecodeIncoming call: key snapshot, then open, then replay check, then reorder. */
  datatype Receiving =
    | Taken(key: seq<byte>, connectionID: uint32, wire: Wire)
    | Unsealed(frame: DataFrame, counter: uint32)
    | Marked(frame: DataFrame)

  datatype Node = Node(
    s: SessionState,
    sending: map<nat, Sending>,
    receiving: map<nat, Receiving>,
    numbered: seq<Payload>,        // payload i was given the (i+1)-th sequence number
    sealed: set<Box>,              // everything this side ever sealed
    delivered: seq<Payload>)       // everything this side's application was handed

  datatype Event =
    | Rekeyed(connectionID: uint32, key: seq<byte>)
    | Greeted(key: seq<byte>, counter: uint64, hello: Hello)
    | Start(t: nat, payload: Payload, flags: Flags)
    | Number(t: nat)
    | Count(t: nat)
    | SealUp(t: nat)
    | Take(t: nat, wire: Wire)
    | Unseal(t: nat)
    | Mark(t: nat)
    | Release(t: nat)

  function FreshNode(deviceID: uint64): Node {
    Node(Fresh(deviceID), map[], map[], [], {}, [])
  }

  /** Ciphertext can be rearranged freely, but every ciphertext octet stems from a
      box that the peer sealed. */
  ghost predicate Authentic(wire: Wire, sealed: set<Box>) {
    forall i | 0 <= i < |wire| && wire[i].Sealed? :: wire[i].box in sealed
  }

  ghost predicate Enabled(n: Node, peerSealed: set<Box>, e: Event) {
    match e
    case Rekeyed(_, _) => true
    case Greeted(_, _, _) => true
    case Start(t, _, _) => t !in n.sending
    case Number(t) => t in n.sending && n.sending[t].Started?
    case Count(t) => t in n.sending && n.sending[t].Numbered?
    case SealUp(t) => t in n.sending && n.sending[t].Counted?
    case Take(t, wire) => t !in n.receiving && Authentic(wire, peerSealed)
    case Unseal(t) => t in n.receiving && n.receiving[t].Taken?
    case Mark(t) => t in n.receiving && n.receiving[t].Unsealed?
    case Release(t) => t in n.receiving && n.receiving[t].Marked?
  }

  function DataBox(key: seq<byte>, counter: uint32, f: DataFrame): Box {
    Box(key, BuildNonce(f.connectionID, counter), PrintData(f))
  }

  ghost function Next(n: Node, peerSealed: set<Box>, e: Event): Node
    requires Enabled(n, peerSealed, e)
  {
    match e
    case Rekeyed(c, key) => n.(s := Rekey(n.s, c, key))
    case Greeted(key, counter, hello) => n.(sealed := n.sealed + {Box(key, BuildNonce(0, counter), PrintHello(hello))})
    case Start(t, payload, flags) =>
      n.(sending := n.sending[t := Started(n.s.key, n.s.connectionID, payload, flags)])
    case Number(t) =>
      var x := n.sending[t];
      n.(s := n.s.(sendSequence := Succ32(n.s.sendSequence)), numbered := n.numbered + [x.payload],
         sending := n.sending[t := Numbered(x.key, x.connectionID, x.payload, x.flags, n.s.sendSequence)])
    case Count(t) =>
      var x := n.sending[t];
      n.(s := n.s.(sendCounter := Succ32(n.s.sendCounter)),
         sending := n.sending[t := Counted(x.key, x.connectionID, x.payload, x.flags, x.sequence, n.s.sendCounter)])
    case SealUp(t) =>
      var x := n.sending[t];
      var f := OutgoingFrame(x.connectionID, x.sequence, x.flags, x.payload);
      n.(sending := n.sending - {t},
         sealed := if ValidKey(x.key) then n.sealed + {DataBox(x.key, x.counter, f)} else n.sealed)
    case Take(t, wire) =>
      n.(receiving := n.receiving[t := Taken(n.s.key, n.s.connectionID, wire)])
    case Unseal(t) =>
      (match DecodeDataFrame(n.receiving[t].key, n.receiving[t].connectionID, n.receiving[t].wire)
       case Ok((f, counter)) => n.(receiving := n.receiving[t := Unsealed(f, counter)])
       case Err(_) => n.(receiving := n.receiving - {t}))
    case Mark(t) =>
      if Replay.Admits(n.s.accepted, n.receiving[t].counter)
      then n.(s := n.s.(accepted := n.s.accepted + {n.receiving[t].counter}),
              receiving := n.receiving[t := Marked(n.receiving[t].frame)])
      else n.(receiving := n.receiving - {t})
    case Release(t) =>
      var f := n.receiving[t].frame;
      var r := Reorder.Absorb(n.s.buffer, f.sequence, f.payload);
      n.(s := n.s.(buffer := r.0), delivered := n.delivered + r.1, receiving := n.receiving - {t})
  }

  // ----- Both sides -----

  datatype World = World(a: Node, b: Node)

  datatype Step = Step(atA: bool, event: Event)

  ghost predicate CanStep(w: World, st: Step) {
    if st.atA then Enabled(w.a, w.b.sealed, st.event) else Enabled(w.b, w.a.sealed, st.event)
  }

  ghost function After(w: World, st: Step): World
    requires CanStep(w, st)
  {
    if st.atA then w.(a := Next(w.a, w.b.sealed, st.event)) else w.(b := Next(w.b, w.a.sealed, st.event))
  }

  /** w' is reached from w by the given steps, each enabled where it is taken. */
  ghost predicate Reaches(w: World, steps: seq<Step>, w': World)
    decreases |steps|
  {
    if steps == [] then w == w'
    else CanStep(w, steps[0]) && Reaches(After(w, steps[0]), steps[1..], w')
  }

  // ----- What every step keeps -----

  /** What a receiver took in from an earlier peer: the stream it delivered, and the
      payloads it still holds back under their sequence numbers. */
  datatype Past = Past(delivered: seq<Payload>, held: map<uint32, Payload>)

  const NO_PAST: Past := Past([], map[])

  /** p is what comes at position i of the stream: what is left of the past there, or
      else what the present peer numbered with i. */
  ghost predicate Holds(past: Past, src: seq<Payload>, i: nat, p: Payload) {
    if i < |past.delivered| then p == past.delivered[i]
    else if i in past.held then p == past.held[i]
    else i < |src| && p == src[i]
  }

  /** A frame of the present peer, unless the past has taken its place in the stream. */
  ghost predicate Matches(f: DataFrame, past: Past, src: seq<Payload>) {
    f.sequence < |past.delivered| || f.sequence in past.held || (f.sequence < |src| && f.payload == src[f.sequence])
  }

  ghost predicate SenderInv(n: Node) {
    && n.s.sendSequence == |n.numbered| % 0x1_0000_0000
    && (forall t | t in n.sending && !n.sending[t].Started? ::
          n.sending[t].sequence < |n.numbered| && n.sending[t].payload == n.numbered[n.sending[t].sequence])
    && (forall box | box in n.sealed :: BoxInv(box, n.numbered))
  }

  /** A sealed box that parses as a data frame holds the payload of its number. */
  ghost predicate BoxInv(box: Box, src: seq<Payload>) {
    ParseData(box.plain).Ok? ==> Matches(ParseData(box.plain).value, NO_PAST, src)
  }

  ghost predicate Received(r: Receiving, past: Past, peer: Node) {
    if r.Taken? then Authentic(r.wire, peer.sealed) else Matches(r.frame, past, peer.numbered)
  }

  ghost predicate StreamInv(b: Reorder.Buffer, out: seq<Payload>, past: Past, src: seq<Payload>) {
    Draining(b, out, past, src) && b.next !in b.pending
  }

  ghost predicate Draining(b: Reorder.Buffer, out: seq<Payload>, past: Past, src: seq<Payload>) {
    && b.started && b.next == |out| && past.delivered <= out
    && (forall i | 0 <= i < |out| :: Holds(past, src, i, out[i]))
    && (forall s | s in b.pending :: b.next <= s < MAX_UINT32 && Holds(past, src, s, b.pending[s]))
    && (forall s | s in past.held :: Has(b, s))
  }

  /** The buffer has released the sequence or holds it back. */
  predicate Has(b: Reorder.Buffer, s: uint32) {
    s < b.next || s in b.pending
  }

  ghost predicate ReceiverInv(n: Node, past: Past, peer: Node) {
    && StreamInv(n.s.buffer, n.delivered, past, peer.numbered)
    && forall t | t in n.receiving :: Received(n.receiving[t], past, peer)
  }

  ghost predicate Inv(w: World, pastA: Past, pastB: Past) {
    SenderInv(w.a) && SenderInv(w.b) && ReceiverInv(w.a, pastA, w.b) && ReceiverInv(w.b, pastB, w.a)
  }

  ghost predicate Short(w: World) {
    |w.a.numbered| < 0x1_0000_0000 && |w.b.numbered| < 0x1_0000_0000
  }

  lemma ExtendStream(b: Reorder.Buffer, out: seq<Payload>, past: Past, src: seq<Payload>)
    requires Draining(b, out, past, src) && b.next in b.pending
    ensures Draining(b.(next := Succ32(b.next), pending := b.pending - {b.next}), out + [b.pending[b.next]], past, src)
  {
    assert past.delivered <= out + [b.pending[b.next]];
  }

  lemma {:induction false} DrainKeepsStream(b: Reorder.Buffer, out: seq<Payload>, past: Past, src: seq<Payload>)
    requires Draining(b, out, past, src)
    ensures StreamInv(Reorder.Drain(b).0, out + Reorder.Drain(b).1, past, src)
    ensures forall s | Has(b, s) :: Has(Reorder.Drain(b).0, s)
    decreases |b.pending|
  {
    hide Holds;
    if b.next in b.pending {
      var b' := b.(next := Succ32(b.next), pending := b.pending - {b.next});
      var out' := out + [b.pending[b.next]];
      ExtendStream(b, out, past, src);
      DrainKeepsStream(b', out', past, src);
      assert out + Reorder.Drain(b).1 == out' + Reorder.Drain(b').1;
      forall s | Has(b, s) ensures Has(Reorder.Drain(b).0, s) { assert Has(b', s); }
    } else {
      assert out + Reorder.Drain(b).1 == out;
    }
  }

  lemma AbsorbKeepsStream(b: Reorder.Buffer, out: seq<Payload>, past: Past, src: seq<Payload>, f: DataFrame)
    requires StreamInv(b, out, past, src) && |src| < 0x1_0000_0000 && Matches(f, past, src)
    ensures var r := Reorder.Absorb(b, f.sequence, f.payload);
            && StreamInv(r.0, out + r.1, past, src)
            && Has(r.0, f.sequence) && forall s | Has(b, s) :: Has(r.0, s)
  {
    if f.sequence < b.next || f.sequence in b.pending {
      assert out + [] == out;
    } else {
      assert !Has(b, f.sequence);
      var filled := b.(pending := b.pending[f.sequence := f.payload]);
      assert forall s | Has(b, s) :: Has(filled, s);
      DrainKeepsStream(filled, out, past, src);
      assert Has(filled, f.sequence);
    }
  }

  lemma OpenedMatches(key: seq<byte>, connectionID: uint32, wire: Wire, past: Past, peer: Node)
    requires SenderInv(peer) && Authentic(wire, peer.sealed)
    ensures var r := DecodeDataFrame(key, connectionID, wire); r.Ok? ==> Matches(r.value.0, past, peer.numbered)
  {
    if DecodeDataFrame(key, connectionID, wire).Ok? {
      assert wire[4].Sealed? && wire[4..][0] == wire[4];
      assert BoxInv(wire[4].box, peer.numbered);
    }
  }

  lemma SealedBoxInv(key: seq<byte>, counter: uint32, f: DataFrame, src: seq<Payload>)
    requires f.sequence < |src| && f.payload == src[f.sequence]
    ensures BoxInv(DataBox(key, counter, f), src)
  {
    ParsePrinted(f);
  }

  /** The stepping side stays a correct sender, and its history only grows. */
  lemma SenderStep(n: Node, peerSealed: set<Box>, e: Event)
    requires SenderInv(n) && Enabled(n, peerSealed, e) && |Next(n, peerSealed, e).numbered| < 0x1_0000_0000
    ensures var n' := Next(n, peerSealed, e);
            SenderInv(n') && n.numbered <= n'.numbered && n.sealed <= n'.sealed
  {
    hide DecodeDataFrame, Reorder.Absorb, PrintData, BuildNonce, ParseData, WithData;
    var n' := Next(n, peerSealed, e);
    match e
    case SealUp(t) =>
      var x := n.sending[t];
      SealedBoxInv(x.key, x.counter, OutgoingFrame(x.connectionID, x.sequence, x.flags, x.payload), n.numbered);
    case Number(t) =>
      forall box | box in n.sealed ensures BoxInv(box, n'.numbered) { assert BoxInv(box, n.numbered); }
    case Greeted(_, _, hello) =>
      HelloIsNotData(hello);
    case _ =>
  }

  /** The stepping side stays a correct receiver. */
  lemma ReceiverStep(n: Node, peer: Node, e: Event, past: Past)
    requires ReceiverInv(n, past, peer) && SenderInv(peer) && Enabled(n, peer.sealed, e)
    requires |peer.numbered| < 0x1_0000_0000
    ensures ReceiverInv(Next(n, peer.sealed, e), past, peer)
  {
    match e
    case Unseal(t) =>
      OpenedMatches(n.receiving[t].key, n.receiving[t].connectionID, n.receiving[t].wire, past, peer);
    case Release(t) =>
      AbsorbKeepsStream(n.s.buffer, n.delivered, past, peer.numbered, n.receiving[t].frame);
    case _ =>
  }

  /** The waiting side is not disturbed when the other one sends more. */
  lemma PeerGrows(n: Node, peer: Node, peer': Node, past: Past)
    requires ReceiverInv(n, past, peer) && peer.numbered <= peer'.numbered && peer.sealed <= peer'.sealed
    ensures ReceiverInv(n, past, peer')
  {
  }

  lemma StepKeepsInv(w: World, st: Step, pastA: Past, pastB: Past)
    requires Inv(w, pastA, pastB) && CanStep(w, st) && Short(After(w, st))
    ensures Inv(After(w, st), pastA, pastB)
  {
    var w' := After(w, st);
    if st.atA {
      SenderStep(w.a, w.b.sealed, st.event);
      ReceiverStep(w.a, w.b, st.event, pastA);
      PeerGrows(w.b, w.a, w'.a, pastB);
    } else {
      SenderStep(w.b, w.a.sealed, st.event);
      ReceiverStep(w.b, w.a, st.event, pastB);
      PeerGrows(w.a, w.b, w'.b, pastA);
    }
  }

  lemma {:induction false} NumberedGrows(w: World, steps: seq<Step>, w': World)
    requires Reaches(w, steps, w')
    ensures |w.a.numbered| <= |w'.a.numbered| && |w.b.numbered| <= |w'.b.numbered|
    decreases |steps|
  {
    if steps != [] {
      NumberedGrows(After(w, steps[0]), steps[1..], w');
    }
  }

  lemma {:induction false} RunKeepsInv(w: World, steps: seq<Step>, w': World, pastA: Past, pastB: Past)
    requires Inv(w, pastA, pastB) && Reaches(w, steps, w') && Short(w')
    ensures Inv(w', pastA, pastB)
    decreases |steps|
  {
    if steps != [] {
      NumberedGrows(After(w, steps[0]), steps[1..], w');
      StepKeepsInv(w, steps[0], pastA, pastB);
      RunKeepsInv(After(w, steps[0]), steps[1..], w', pastA, pastB);
    }
  }

  // ----- Main results -----

  /** Whatever the two sides and the network do, and however often either side
      installs whatever key: as long as each numbered fewer than 2^32 payloads, the
      stream delivered on each side is a prefix of the stream the other numbered. */
  lemma PrefixSafety(deviceA: uint64, deviceB: uint64, steps: seq<Step>, w: World)
    requires Reaches(World(FreshNode(deviceA), FreshNode(deviceB)), steps, w) && Short(w)
    ensures w.a.delivered <= w.b.numbered && w.b.delivered <= w.a.numbered
    ensures w.a.s.buffer.next == |w.a.delivered| && w.b.s.buffer.next == |w.b.delivered|
  {
    RunKeepsInv(World(FreshNode(deviceA), FreshNode(deviceB)), steps, w, NO_PAST, NO_PAST);
    NoPastIsPrefix(w.a.s.buffer, w.a.delivered, w.b.numbered);
    NoPastIsPrefix(w.b.s.buffer, w.b.delivered, w.a.numbered);
  }

  lemma NoPastIsPrefix(b: Reorder.Buffer, out: seq<Payload>, src: seq<Payload>)
    requires StreamInv(b, out, NO_PAST, src)
    ensures out <= src
  {
    if out != [] {
      assert Holds(NO_PAST, src, |out| - 1, out[|out| - 1]);
    }
    forall i | 0 <= i < |out| ensures i < |src| && out[i] == src[i] { assert Holds(NO_PAST, src, i, out[i]); }
  }

  // ----- The class methods are runs of these steps -----

  /** EncodeOutgoing taken in one piece is the four sending steps in a row. */
  lemma AtomicSend(n: Node, peerSealed: set<Box>, t: nat, payload: Payload, flags: Flags)
    requires t !in n.sending
    ensures var n1 := Next(n, peerSealed, Start(t, payload, flags));
            var n2 := Next(n1, peerSealed, Number(t));
            var n3 := Next(n2, peerSealed, Count(t));
            var n4 := Next(n3, peerSealed, SealUp(t));
            var r := Encode(n.s, payload, flags);
            && n4.s == r.0 && n4.sending == n.sending && n4.numbered == n.numbered + [payload]
            && n4.receiving == n.receiving && n4.delivered == n.delivered && n.sealed <= n4.sealed
            && (r.1.Ok? ==> Authentic(r.1.value, n4.sealed))
            && (r.1.Err? ==> n4.sealed == n.sealed)
  {
    var n1 := Next(n, peerSealed, Start(t, payload, flags));
    var n2 := Next(n1, peerSealed, Number(t));
    var n3 := Next(n2, peerSealed, Count(t));
    var n4 := Next(n3, peerSealed, SealUp(t));
    assert n4.sending == n.sending;
    var r := Encode(n.s, payload, flags);
    if r.1.Ok? {
      var f := OutgoingFrame(n.s.connectionID, n.s.sendSequence, flags, payload);
      assert n4.sealed == n.sealed + {DataBox(n.s.key, n.s.sendCounter, f)};
      var w := r.1.value;
      assert w == Lift(BigEndian(n.s.sendCounter, 4)) + Ciphertext(DataBox(n.s.key, n.s.sendCounter, f));
      forall i | 0 <= i < |w| && w[i].Sealed? ensures w[i].box in n4.sealed {
        assert i >= 4 && w[i] == Ciphertext(DataBox(n.s.key, n.s.sendCounter, f))[i - 4];
      }
    }
  }

  /** The receiving steps in a row, stopping where a frame is dropped. */
  ghost function ReceiveSteps(n: Node, peerSealed: set<Box>, t: nat, wire: Wire): Node
    requires t !in n.receiving && Authentic(wire, peerSealed)
  {
    var n1 := Next(n, peerSealed, Take(t, wire));
    var n2 := Next(n1, peerSealed, Unseal(t));
    if t !in n2.receiving then n2 else
    var n3 := Next(n2, peerSealed, Mark(t));
    if t !in n3.receiving then n3 else Next(n3, peerSealed, Release(t))
  }

  /** DecodeIncoming taken in one piece is the receiving steps in a row. */
  lemma AtomicReceive(n: Node, peerSealed: set<Box>, t: nat, wire: Wire)
    requires t !in n.receiving && Authentic(wire, peerSealed)
    ensures var r := Decode(n.s, wire);
            ReceiveSteps(n, peerSealed, t, wire)
            == n.(s := r.0, delivered := n.delivered + (if r.1.Accepted? then r.1.ready else []))
  {
    hide DecodeDataFrame, Reorder.Absorb, Replay.Admits;
    var n' := ReceiveSteps(n, peerSealed, t, wire);
    assert n'.receiving == n.receiving;
    assert n.delivered + [] == n.delivered;
  }
}
