/** Building runs of the network piece by piece: undisturbed calls on either side. */
module Runs {
  import opened Bytes
  import opened Crypto
  import opened Frame
  import opened Session
  import opened Network
  import Replay
  import Reorder

  ghost predicate Reachable(w0: World, w: World) {
    exists steps :: Reaches(w0, steps, w)
  }

  lemma Stay(w: World)
    ensures Reachable(w, w)
  {
    assert Reaches(w, [], w);
  }

  lemma {:induction false} ReachesOneMore(w0: World, steps: seq<Step>, w: World, st: Step)
    requires Reaches(w0, steps, w) && CanStep(w, st)
    ensures Reaches(w0, steps + [st], After(w, st))
    decreases |steps|
  {
    if steps == [] {
      assert ([] + [st])[1..] == [];
    } else {
      ReachesOneMore(After(w0, steps[0]), steps[1..], w, st);
      assert (steps + [st])[1..] == steps[1..] + [st];
    }
  }

  lemma OneStep(w0: World, w: World, st: Step) returns (w': World)
    requires Reachable(w0, w) && CanStep(w, st)
    ensures w' == After(w, st) && Reachable(w0, w')
  {
    var steps :| Reaches(w0, steps, w);
    ReachesOneMore(w0, steps, w, st);
    w' := After(w, st);
  }

  /** One undisturbed EncodeOutgoing at a. */
  lemma SendAtA(w0: World, w: World, p: Payload) returns (w': World)
    requires Reachable(w0, w) && w.a.sending == map[]
    ensures Reachable(w0, w') && w'.b == w.b && w'.a.sending == map[]
    ensures w'.a.s == Encode(w.a.s, p, 0).0 && w'.a.numbered == w.a.numbered + [p] && w.a.sealed <= w'.a.sealed
    ensures var r := Encode(w.a.s, p, 0).1; r.Ok? ==> Authentic(r.value, w'.a.sealed)
  {
    hide Next;
    AtomicSend(w.a, w.b.sealed, 0, p, 0);
    SendEnabled(w.a, w.b.sealed, p);
    w' := OneStep(w0, w, Step(true, Start(0, p, 0)));
    w' := OneStep(w0, w', Step(true, Number(0)));
    w' := OneStep(w0, w', Step(true, Count(0)));
    w' := OneStep(w0, w', Step(true, SealUp(0)));
  }

  lemma SendEnabled(n: Node, peerSealed: set<Box>, p: Payload)
    requires 0 !in n.sending
    ensures Enabled(n, peerSealed, Start(0, p, 0))
    ensures var n1 := Next(n, peerSealed, Start(0, p, 0));
            Enabled(n1, peerSealed, Number(0))
            && var n2 := Next(n1, peerSealed, Number(0));
               Enabled(n2, peerSealed, Count(0)) && Enabled(Next(n2, peerSealed, Count(0)), peerSealed, SealUp(0))
  {
  }

  /** One undisturbed DecodeIncoming at b. */
  lemma ReceiveAtB(w0: World, w: World, wire: Wire) returns (w': World)
    requires Reachable(w0, w) && w.b.receiving == map[] && Authentic(wire, w.a.sealed)
    ensures Reachable(w0, w')
    ensures var r := Decode(w.b.s, wire);
            w' == w.(b := w.b.(s := r.0, delivered := w.b.delivered + (if r.1.Accepted? then r.1.ready else [])))
  {
    hide Decode, DecodeDataFrame, Reorder.Absorb, Replay.Admits;
    AtomicReceive(w.b, w.a.sealed, 0, wire);
    w' := OneStep(w0, w, Step(false, Take(0, wire)));
    w' := OneStep(w0, w', Step(false, Unseal(0)));
    if 0 in w'.b.receiving {
      w' := OneStep(w0, w', Step(false, Mark(0)));
      if 0 in w'.b.receiving {
        w' := OneStep(w0, w', Step(false, Release(0)));
      }
    }
  }

  /** A fresh frame for this session goes straight to the reorder buffer. */
  lemma DecodesNow(s: SessionState, counter: uint32, f: DataFrame)
    requires ValidKey(s.key) && f.connectionID == s.connectionID && |f.payload| <= 0xFFFF
    requires Replay.Admits(s.accepted, counter)
    ensures var b := Reorder.Absorb(s.buffer, f.sequence, f.payload);
            Decode(s, EncodeDataFrame(s.key, counter, f).value)
            == (s.(accepted := s.accepted + {counter}, buffer := b.0), Accepted(f, b.1))
  {
    DecodeEncoded(s.key, counter, f);
  }

  lemma Delivers(s: SessionState, counter: uint32, f: DataFrame)
    requires ValidKey(s.key) && f.connectionID == s.connectionID && |f.payload| <= 0xFFFF
    requires Replay.Admits(s.accepted, counter)
    requires s.buffer == Reorder.Buffer(f.sequence, map[], true)
    ensures var r := Decode(s, EncodeDataFrame(s.key, counter, f).value);
            r.1 == Accepted(f, [f.payload])
            && r.0 == s.(accepted := s.accepted + {counter}, buffer := Reorder.Buffer(Succ32(f.sequence), map[], true))
  {
    hide Decode, Reorder.Absorb, EncodeDataFrame;
    DecodesNow(s, counter, f);
    Reorder.AbsorbNext(s.buffer, f.payload);
  }

  lemma EncodesNow(s: SessionState, p: Payload)
    requires ValidKey(s.key)
    ensures var r := Encode(s, p, 0);
            && r.1.Ok?
            && r.1 == EncodeDataFrame(s.key, s.sendCounter, OutgoingFrame(s.connectionID, s.sendSequence, 0, p))
            && r.0 == s.(sendSequence := Succ32(s.sendSequence), sendCounter := Succ32(s.sendCounter))
  {
  }

  lemma RekeyBoth(w0: World, w: World, connectionID: uint32, key: seq<byte>) returns (w': World)
    requires Reachable(w0, w)
    ensures Reachable(w0, w')
    ensures w' == World(w.a.(s := Rekey(w.a.s, connectionID, key)), w.b.(s := Rekey(w.b.s, connectionID, key)))
  {
    hide Reachable;
    w' := OneStep(w0, w, Step(true, Rekeyed(connectionID, key)));
    w' := OneStep(w0, w', Step(false, Rekeyed(connectionID, key)));
  }

  function Copies(p: Payload, n: nat): (ps: seq<Payload>)
    ensures |ps| == n
  {
    seq(n, _ => p)
  }

  /** a numbers n more payloads, none of which arrives. */
  lemma {:induction false} SendMore(w0: World, w: World, p: Payload, n: nat) returns (w': World)
    requires Reachable(w0, w) && w.a.sending == map[]
    ensures Reachable(w0, w') && w'.b == w.b && w'.a.sending == map[] && w'.a.numbered == w.a.numbered + Copies(p, n)
  {
    hide Reachable, Encode;
    w' := w;
    if n > 0 {
      w' := SendMore(w0, w, p, n - 1);
      w' := SendAtA(w0, w', p);
      assert Copies(p, n) == Copies(p, n - 1) + [p];
    } else {
      assert w.a.numbered + Copies(p, 0) == w.a.numbered;
    }
  }
}
