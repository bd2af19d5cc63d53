/** What becomes of the stream when the server does not resume a session but answers
    a reconnect with a fresh one. */
module Fallback {
  import opened Bytes
  import opened Crypto
  import opened Frame
  import opened Session
  import opened Network
  import opened Runs
  import Reorder

  function Joined(deviceA: uint64, deviceB: uint64): World {
    World(FreshNode(deviceA), FreshNode(deviceB))
  }

  /** The old server session gives way to a fresh one; the client stays as it is. */
  function Replaced(w0: World, deviceA: uint64): World {
    World(FreshNode(deviceA), w0.b)
  }

  /** What the client keeps of the old session. */
  function Kept(w0: World): Past {
    Past(w0.b.delivered, w0.b.s.buffer.pending)
  }

  lemma ReplacedInv(deviceA: uint64, deviceB: uint64, w0: World)
    requires Reachable(Joined(deviceA, deviceB), w0) && Short(w0) && w0.b.receiving == map[]
    ensures Inv(Replaced(w0, deviceA), NO_PAST, Kept(w0))
  {
    var before :| Reaches(Joined(deviceA, deviceB), before, w0);
    RunKeepsInv(Joined(deviceA, deviceB), before, w0, NO_PAST, NO_PAST);
  }

  lemma ReachedInv(deviceA: uint64, deviceB: uint64, w0: World, w: World)
    requires Reachable(Joined(deviceA, deviceB), w0) && Short(w0) && w0.b.receiving == map[]
    requires Reachable(Replaced(w0, deviceA), w) && Short(w)
    ensures Inv(w, NO_PAST, Kept(w0))
  {
    ReplacedInv(deviceA, deviceB, w0);
    var steps :| Reaches(Replaced(w0, deviceA), steps, w);
    RunKeepsInv(Replaced(w0, deviceA), steps, w, NO_PAST, Kept(w0));
  }

  // ----- The download -----

  /** Over every run after the fallback, the client, with nothing in flight when it
      happened, keeps what it had delivered; beyond that, each position of its stream
      holds the old payload it had pending there, or else what the fresh session
      numbered with that position. */
  lemma FreshSessionSplices(deviceA: uint64, deviceB: uint64, w0: World, w: World)
    requires Reachable(Joined(deviceA, deviceB), w0) && Short(w0) && w0.b.receiving == map[]
    requires Reachable(Replaced(w0, deviceA), w) && Short(w)
    ensures w0.b.delivered <= w.b.delivered
    ensures forall i | |w0.b.delivered| <= i < |w.b.delivered| ::
      if i in w0.b.s.buffer.pending then w.b.delivered[i] == w0.b.s.buffer.pending[i]
      else i < |w.a.numbered| && w.b.delivered[i] == w.a.numbered[i]
  {
    ReachedInv(deviceA, deviceB, w0, w);
    forall i | |w0.b.delivered| <= i < |w.b.delivered|
      ensures if i in w0.b.s.buffer.pending then w.b.delivered[i] == w0.b.s.buffer.pending[i]
              else i < |w.a.numbered| && w.b.delivered[i] == w.a.numbered[i]
    {
      assert Holds(Kept(w0), w.a.numbered, i, w.b.delivered[i]);
    }
  }

  /** Prefix safety of the download, for all runs after the fallback. */
  ghost predicate SafeAfter(start: World) {
    forall w | Reachable(start, w) && Short(w) :: w.b.delivered <= w.a.numbered
  }

  /** The same, looking only where the new stream has come as far as the client has. */
  ghost predicate SafeWhenCaughtUp(start: World) {
    forall w | Reachable(start, w) && Short(w) && |w.b.delivered| <= |w.a.numbered| :: w.b.delivered <= w.a.numbered
  }

  /** A fallback is harmless exactly for a client that has neither delivered nor
      pending payloads of the old session when it happens; for every other one there
      is a run that breaks the stream, even with a new stream as long as the client's. */
  lemma FallbackSafeIff(deviceA: uint64, deviceB: uint64, w0: World)
    requires Reachable(Joined(deviceA, deviceB), w0) && Short(w0) && w0.b.receiving == map[]
    ensures SafeAfter(Replaced(w0, deviceA)) <==> Kept(w0) == NO_PAST
    ensures SafeWhenCaughtUp(Replaced(w0, deviceA)) <==> Kept(w0) == NO_PAST
  {
    hide Reachable, Inv;
    if Kept(w0) == NO_PAST {
      forall w | Reachable(Replaced(w0, deviceA), w) && Short(w) ensures w.b.delivered <= w.a.numbered {
        ReachedInv(deviceA, deviceB, w0, w);
        InvIsPrefix(w);
      }
    } else if w0.b.delivered != [] {
      var w := BreakDelivered(deviceA, deviceB, w0);
    } else {
      var w := BreakPending(deviceA, deviceB, w0);
    }
  }

  lemma InvIsPrefix(w: World)
    requires Inv(w, NO_PAST, NO_PAST)
    ensures w.b.delivered <= w.a.numbered
  {
    NoPastIsPrefix(w.b.s.buffer, w.b.delivered, w.a.numbered);
  }

  function Other(p: Payload): (q: Payload)
    ensures q != p && |q| <= 0xFFFF
  {
    if p == [] then [0] else []
  }

  /** The new stream starts with something else than the old one did. */
  lemma BreakDelivered(deviceA: uint64, deviceB: uint64, w0: World) returns (w: World)
    requires Reachable(Joined(deviceA, deviceB), w0) && Short(w0) && w0.b.receiving == map[] && w0.b.delivered != []
    ensures Reachable(Replaced(w0, deviceA), w) && Short(w)
    ensures |w.b.delivered| <= |w.a.numbered| && !(w.b.delivered <= w.a.numbered)
  {
    ReplacedInv(deviceA, deviceB, w0);
    Stay(Replaced(w0, deviceA));
    var y := Other(w0.b.delivered[0]);
    w := SendMore(Replaced(w0, deviceA), Replaced(w0, deviceA), y, |w0.b.delivered|);
    assert w.a.numbered[0] == y;
  }

  lemma LeastKey(m: map<uint32, Payload>) returns (k: uint32)
    requires m != map[]
    ensures k in m && forall x | x in m :: k <= x
  {
    var x :| x in m;
    k := 0;
    while k !in m
      invariant k <= x && forall y: uint32 | y < k :: y !in m
      decreases x - k
    {
      k := k + 1;
    }
  }

  /** The first i frames of the fresh session arrived, in order, at a client that had
      delivered nothing. */
  ghost predicate Arriving(w0: World, w: World, q: Payload, i: nat) {
    && ValidKey(w.a.s.key) && w.b.s.key == w.a.s.key && w.b.s.connectionID == w.a.s.connectionID
    && w.a.s.sendSequence == i && w.a.s.sendCounter == i
    && w.a.sending == map[] && w.b.receiving == map[] && w.a.numbered == Copies(q, i)
    && w.b.numbered == w0.b.numbered
    && (forall c | c in w.b.s.accepted :: c < i) && (forall s: uint32 | s < i :: Has(w.b.s.buffer, s))
  }

  lemma ArriveOne(deviceA: uint64, deviceB: uint64, w0: World, w: World, q: Payload, i: uint32) returns (w': World)
    requires Reachable(Joined(deviceA, deviceB), w0) && Short(w0) && w0.b.receiving == map[]
    requires Reachable(Replaced(w0, deviceA), w) && Arriving(w0, w, q, i) && |q| <= 0xFFFF && i < MAX_UINT32
    ensures Reachable(Replaced(w0, deviceA), w') && Arriving(w0, w', q, i + 1)
  {
    hide Reachable, Encode, Decode, EncodeDataFrame, Reorder.Absorb, Inv;
    var f := OutgoingFrame(w.a.s.connectionID, i, 0, q);
    EncodesNow(w.a.s, q);
    var wire := Encode(w.a.s, q, 0).1.value;
    w' := SendAtA(Replaced(w0, deviceA), w, q);
    ReachedInv(deviceA, deviceB, w0, w');
    DecodesNow(w.b.s, i, f);
    AbsorbHas(w', Kept(w0), f);
    w' := ReceiveAtB(Replaced(w0, deviceA), w', wire);
    assert Copies(q, i + 1) == Copies(q, i) + [q];
  }

  lemma AbsorbHas(w: World, past: Past, f: DataFrame)
    requires Inv(w, NO_PAST, past) && Short(w) && f.sequence < |w.a.numbered| && f.payload == w.a.numbered[f.sequence]
    ensures var b := Reorder.Absorb(w.b.s.buffer, f.sequence, f.payload).0;
            Has(b, f.sequence) && forall s | Has(w.b.s.buffer, s) :: Has(b, s)
  {
    AbsorbKeepsStream(w.b.s.buffer, w.b.delivered, past, w.a.numbered, f);
  }

  lemma {:induction false} ArriveMany(deviceA: uint64, deviceB: uint64, w0: World, q: Payload, i: uint32)
    returns (w: World)
    requires Reachable(Joined(deviceA, deviceB), w0) && Short(w0) && w0.b.receiving == map[]
    requires |q| <= 0xFFFF
    ensures Reachable(Replaced(w0, deviceA), w) && Arriving(w0, w, q, i)
    decreases i
  {
    hide Reachable;
    if i == 0 {
      Stay(Replaced(w0, deviceA));
      w := RekeyBoth(Replaced(w0, deviceA), Replaced(w0, deviceA), 1, Zeros(32));
    } else {
      w := ArriveMany(deviceA, deviceB, w0, q, i - 1);
      w := ArriveOne(deviceA, deviceB, w0, w, q, i - 1);
    }
  }

  /** The new stream runs up to the first payload that the client still holds. */
  lemma BreakPending(deviceA: uint64, deviceB: uint64, w0: World) returns (w: World)
    requires Reachable(Joined(deviceA, deviceB), w0) && Short(w0) && w0.b.receiving == map[]
    requires w0.b.delivered == [] && w0.b.s.buffer.pending != map[]
    ensures Reachable(Replaced(w0, deviceA), w) && Short(w)
    ensures |w.b.delivered| <= |w.a.numbered| && !(w.b.delivered <= w.a.numbered)
  {
    hide Reachable;
    var held := w0.b.s.buffer.pending;
    var k := LeastKey(held);
    var q := Other(held[k]);
    w := ArriveMany(deviceA, deviceB, w0, q, k);
    ReachedInv(deviceA, deviceB, w0, w);
    assert Has(w.b.s.buffer, k);
    assert !Has(w.b.s.buffer, w.b.s.buffer.next);
    assert w.b.s.buffer.next > k;
    assert Holds(Kept(w0), w.a.numbered, k, w.b.delivered[k]);
    w := SendMore(Replaced(w0, deviceA), w, q, |w.b.delivered| - k);
    assert w.a.numbered[k] == q;
  }

  /** And the splice does happen: a client that had delivered x ends with [x, z]
      while the fresh session numbered [y, z]. */
  lemma SpliceHappens(deviceA: uint64, deviceB: uint64, x: Payload, y: Payload, z: Payload)
    returns (w0: World, w: World)
    requires |x| <= 0xFFFF && |z| <= 0xFFFF
    ensures Reachable(World(FreshNode(deviceA), FreshNode(deviceB)), w0)
    ensures w0.b.receiving == map[] && w0.b.s.buffer.pending == map[]
    ensures Reachable(World(FreshNode(deviceA), w0.b), w)
    ensures w.a.numbered == [y, z] && w.b.delivered == [x, z]
  {
    hide Next, Reachable, Encode, Decode, EncodeDataFrame, Reorder.Absorb;
    var start := World(FreshNode(deviceA), FreshNode(deviceB));
    Stay(start);
    w0 := RekeyBoth(start, start, 1, Zeros(32));
    EncodesNow(w0.a.s, x);
    var wire := Encode(w0.a.s, x, 0).1.value;
    w0 := SendAtA(start, w0, x);
    Delivers(w0.b.s, 0, OutgoingFrame(1, 0, 0, x));
    w0 := ReceiveAtB(start, w0, wire);
    var restart := World(FreshNode(deviceA), w0.b);
    Stay(restart);
    w := RekeyBoth(restart, restart, 2, Zeros(32));
    EncodesNow(w.a.s, y);
    w := SendAtA(restart, w, y);
    EncodesNow(w.a.s, z);
    wire := Encode(w.a.s, z, 0).1.value;
    w := SendAtA(restart, w, z);
    Delivers(w.b.s, 1, OutgoingFrame(2, 1, 0, z));
    w := ReceiveAtB(restart, w, wire);
  }

  // ----- The upload -----

  /** The keys under which the client ever sealed, or is about to seal. */
  ghost function UsedKeys(n: Node): set<seq<byte>> {
    (set box | box in n.sealed :: box.key) + (set t | t in n.sending :: n.sending[t].key)
  }

  /** The server's new session only ever gets keys that the client did not use before. */
  ghost predicate FreshKeys(steps: seq<Step>, used: set<seq<byte>>) {
    forall i | 0 <= i < |steps| && steps[i].atA && steps[i].event.Rekeyed? :: steps[i].event.key !in used
  }

  /** What the client numbered before the fallback stays sealed under used keys. */
  ghost predicate OldUnderOldKeys(n: Node, count: nat, used: set<seq<byte>>) {
    && SenderInv(n) && count <= |n.numbered|
    && (forall box | box in n.sealed :: OldBox(box, count, used))
    && (forall t | t in n.sending && !n.sending[t].Started? && n.sending[t].sequence < count ::
          n.sending[t].key in used)
  }

  ghost predicate OldBox(box: Box, count: nat, used: set<seq<byte>>) {
    ParseData(box.plain).Ok? && ParseData(box.plain).value.sequence < count ==> box.key in used
  }

  /** The fresh session waits for sequence 0 and has nothing older than count in hand. */
  ghost predicate Stalled(n: Node, clientSealed: set<Box>, count: nat, used: set<seq<byte>>) {
    && (ValidKey(n.s.key) ==> n.s.key !in used)
    && n.delivered == [] && n.s.buffer.started && n.s.buffer.next == 0 && 0 !in n.s.buffer.pending
    && (forall t | t in n.receiving :: StalledReceive(n.receiving[t], clientSealed, count, used))
  }

  ghost predicate StalledReceive(r: Receiving, clientSealed: set<Box>, count: nat, used: set<seq<byte>>) {
    if r.Taken? then (ValidKey(r.key) ==> r.key !in used) && Authentic(r.wire, clientSealed)
    else r.frame.sequence >= count
  }

  lemma ClientStep(n: Node, peerSealed: set<Box>, e: Event, count: nat, used: set<seq<byte>>)
    requires OldUnderOldKeys(n, count, used) && Enabled(n, peerSealed, e)
    requires |Next(n, peerSealed, e).numbered| < 0x1_0000_0000
    ensures OldUnderOldKeys(Next(n, peerSealed, e), count, used) && n.sealed <= Next(n, peerSealed, e).sealed
  {
    SenderStep(n, peerSealed, e);
    hide DecodeDataFrame, Reorder.Absorb, PrintData, BuildNonce, ParseData, WithData, SenderInv;
    match e
    case SealUp(t) =>
      var x := n.sending[t];
      ParsePrinted(OutgoingFrame(x.connectionID, x.sequence, x.flags, x.payload));
    case Number(t) => NextNumber(n);
    case Greeted(_, _, hello) => HelloIsNotData(hello);
    case _ =>
  }

  lemma NextNumber(n: Node)
    requires SenderInv(n) && |n.numbered| < 0x1_0000_0000
    ensures n.s.sendSequence == |n.numbered|
  {
  }

  lemma ServerStep(n: Node, client: Node, e: Event, count: nat, used: set<seq<byte>>)
    requires Stalled(n, client.sealed, count, used) && OldUnderOldKeys(client, count, used) && count > 0
    requires Enabled(n, client.sealed, e) && (e.Rekeyed? ==> e.key !in used)
    ensures Stalled(Next(n, client.sealed, e), client.sealed, count, used)
  {
    hide SenderInv, ParseData, BuildNonce;
    match e
    case Unseal(t) => OpensRecent(n.receiving[t], client.sealed, count, used);
    case Release(t) =>
      var f := n.receiving[t].frame;
      assert Reorder.Absorb(n.s.buffer, f.sequence, f.payload).1 == [];
    case _ =>
  }

  lemma OpensRecent(r: Receiving, clientSealed: set<Box>, count: nat, used: set<seq<byte>>)
    requires r.Taken? && StalledReceive(r, clientSealed, count, used)
    requires forall box | box in clientSealed :: OldBox(box, count, used)
    ensures var d := DecodeDataFrame(r.key, r.connectionID, r.wire); d.Ok? ==> d.value.0.sequence >= count
  {
    if DecodeDataFrame(r.key, r.connectionID, r.wire).Ok? {
      assert r.wire[4].Sealed? && r.wire[4..][0] == r.wire[4];
      assert OldBox(r.wire[4].box, count, used);
    }
  }

  lemma {:induction false} StallPersists(w: World, steps: seq<Step>, w': World, count: nat, used: set<seq<byte>>)
    requires Stalled(w.a, w.b.sealed, count, used) && OldUnderOldKeys(w.b, count, used) && count > 0
    requires Reaches(w, steps, w') && Short(w') && FreshKeys(steps, used)
    ensures Stalled(w'.a, w'.b.sealed, count, used)
    decreases |steps|
  {
    hide Next, OldUnderOldKeys;
    if steps != [] {
      var st, w1 := steps[0], After(w, steps[0]);
      NumberedGrows(w1, steps[1..], w');
      assert FreshKeys(steps[1..], used) by {
        forall i | 0 <= i < |steps| - 1 && steps[1..][i].atA && steps[1..][i].event.Rekeyed?
          ensures steps[1..][i].event.key !in used
        {
          assert steps[1..][i] == steps[i + 1];
        }
      }
      if st.atA {
        ServerStep(w.a, w.b, st.event, count, used);
      } else {
        ClientStep(w.b, w.a.sealed, st.event, count, used);
        MoreSealed(w.a, w.b.sealed, w1.b.sealed, count, used);
      }
      StallPersists(w1, steps[1..], w', count, used);
    }
  }

  lemma MoreSealed(n: Node, clientSealed: set<Box>, more: set<Box>, count: nat, used: set<seq<byte>>)
    requires Stalled(n, clientSealed, count, used) && clientSealed <= more
    ensures Stalled(n, more, count, used)
  {
  }

  /** A fresh session under fresh keys waits for sequence 0, while the client's
      numbering runs on: once the client had numbered a payload, nothing that it ever
      uploads is delivered any more, on any run. */
  lemma FreshSessionStalls(deviceA: uint64, deviceB: uint64, w0: World, steps: seq<Step>, w: World)
    requires Reachable(Joined(deviceA, deviceB), w0) && w0.b.numbered != [] && Short(w0)
    requires Reaches(Replaced(w0, deviceA), steps, w) && Short(w) && FreshKeys(steps, UsedKeys(w0.b))
    ensures w.a.delivered == []
  {
    var before :| Reaches(Joined(deviceA, deviceB), before, w0);
    RunKeepsInv(Joined(deviceA, deviceB), before, w0, NO_PAST, NO_PAST);
    StallPersists(Replaced(w0, deviceA), steps, w, |w0.b.numbered|, UsedKeys(w0.b));
  }
}
