/** How many payloads one connection may number: the bound of PrefixSafety is exact. */
module SequenceBudget {
  import opened Bytes
  import opened Crypto
  import opened Frame
  import opened Session
  import opened Network
  import opened Runs
  import Reorder

  const WRAP: nat := 0x1_0000_0000

  function Start0(deviceA: uint64, deviceB: uint64): World {
    World(FreshNode(deviceA), FreshNode(deviceB))
  }

  /** Every run in which neither side numbers more than limit payloads is prefix-safe. */
  ghost predicate SafeUpTo(deviceA: uint64, deviceB: uint64, limit: nat) {
    forall w | Reachable(Start0(deviceA, deviceB), w) && |w.a.numbered| <= limit && |w.b.numbered| <= limit ::
      w.a.delivered <= w.b.numbered && w.b.delivered <= w.a.numbered
  }

  // ----- A run of WRAP payloads, each delivered at once -----

  function FirstFrame(p: Payload): DataFrame {
    OutgoingFrame(7, 0, 0, p)
  }

  ghost predicate Lockstep(w: World, key: seq<byte>, p: Payload, n: nat) {
    && ValidKey(key) && w.a.s.key == key && w.b.s.key == key && w.a.s.connectionID == 7 && w.b.s.connectionID == 7
    && w.a.sending == map[] && w.b.receiving == map[]
    && w.a.s.sendSequence == n % WRAP && w.a.s.sendCounter == n % WRAP
    && w.a.numbered == Copies(p, n) && w.b.numbered == [] && w.b.delivered == Copies(p, n)
    && w.b.s.buffer == Reorder.Buffer(n % WRAP, map[], true)
    && (forall c | c in w.b.s.accepted :: c < n)
    && (n > 0 ==> Authentic(EncodeDataFrame(key, 0, FirstFrame(p)).value, w.a.sealed))
  }

  lemma Round(dA: uint64, dB: uint64, w: World, key: seq<byte>, p: Payload, n: nat) returns (w': World)
    requires Reachable(Start0(dA, dB), w) && Lockstep(w, key, p, n) && n < WRAP && |p| <= 0xFFFF
    ensures Reachable(Start0(dA, dB), w') && Lockstep(w', key, p, n + 1)
  {
    hide Reachable, Encode, Decode, EncodeDataFrame, Reorder.Absorb;
    EncodesNow(w.a.s, p);
    var wire := Encode(w.a.s, p, 0).1.value;
    w' := SendAtA(Start0(dA, dB), w, p);
    Delivers(w.b.s, n, OutgoingFrame(7, n, 0, p));
    w' := ReceiveAtB(Start0(dA, dB), w', wire);
    assert Copies(p, n + 1) == Copies(p, n) + [p];
  }

  lemma {:induction false} Rounds(dA: uint64, dB: uint64, key: seq<byte>, p: Payload, n: nat) returns (w: World)
    requires ValidKey(key) && |p| <= 0xFFFF && n <= WRAP
    ensures Reachable(Start0(dA, dB), w) && Lockstep(w, key, p, n)
  {
    if n == 0 {
      w := Start0(dA, dB);
      Stay(w);
      w := OneStep(Start0(dA, dB), w, Step(true, Rekeyed(7, key)));
      w := OneStep(Start0(dA, dB), w, Step(false, Rekeyed(7, key)));
      assert Copies(p, 0) == [];
    } else {
      w := Rounds(dA, dB, key, p, n - 1);
      w := Round(dA, dB, w, key, p, n - 1);
    }
  }

  /** After 2^32 payloads the receiver waits for sequence 0 again, so that once the
      same key is installed anew, a replay of the very first frame is delivered again. */
  lemma Overrun(dA: uint64, dB: uint64, p: Payload) returns (w: World)
    requires |p| <= 0xFFFF
    ensures Reachable(Start0(dA, dB), w) && |w.a.numbered| == WRAP && |w.b.numbered| == 0 && |w.b.delivered| == WRAP + 1
  {
    var key := Zeros(32);
    w := Rounds(dA, dB, key, p, WRAP);
    w := OneStep(Start0(dA, dB), w, Step(false, Rekeyed(7, key)));
    Delivers(w.b.s, 0, FirstFrame(p));
    w := ReceiveAtB(Start0(dA, dB), w, EncodeDataFrame(key, 0, FirstFrame(p)).value);
  }

  /** Prefix safety over all runs of a given length budget holds exactly below 2^32. */
  lemma BudgetIff(dA: uint64, dB: uint64, limit: nat)
    ensures SafeUpTo(dA, dB, limit) <==> limit < WRAP
  {
    if limit < WRAP {
      forall w | Reachable(Start0(dA, dB), w) && |w.a.numbered| <= limit && |w.b.numbered| <= limit
        ensures w.a.delivered <= w.b.numbered && w.b.delivered <= w.a.numbered
      {
        var steps :| Reaches(Start0(dA, dB), steps, w);
        PrefixSafety(dA, dB, steps, w);
      }
    } else {
      var w := Overrun(dA, dB, []);
      assert !(w.b.delivered <= w.a.numbered);
    }
  }
}
