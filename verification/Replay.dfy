/** The anti-replay filter: a 64-bit bitmap that slides along the received nonce
    counters, proved against the plain set of counters accepted since the last
    reset. */
module Replay {
  import opened Bytes
  import opened Bits

  const WINDOW_SIZE: uint32 := 64

  // ----- Reference: a set of counters instead of a bitmap -----

  /** A counter is fresh when it was not accepted before and no accepted counter
      is WINDOW_SIZE or more above it. */
  ghost predicate Admits(accepted: set<uint32>, c: uint32) {
    c !in accepted && forall a | a in accepted :: a < c + WINDOW_SIZE
  }

  ghost function Mark(accepted: set<uint32>, c: uint32): set<uint32> {
    if Admits(accepted, c) then accepted + {c} else accepted
  }

  // ----- The bitmap -----

  /** The bitmap after its window has moved up by shift counters. */
  ghost function Slid(seen: uint64, shift: nat): uint64 {
    if shift >= 64 then 0 else Shl64(seen, shift)
  }

  class ReplayWindow {
    var size: uint32
    var highest: uint32
    var seen: uint64
    var initiated: bool

    /** The counters accepted since the last Reset. */
    ghost var accepted: set<uint32>

    /** Bit i of the bitmap is set exactly when highest - i was accepted. */
    ghost predicate Valid()
      reads this
    {
      && size == WINDOW_SIZE
      && (!initiated ==> accepted == {})
      && (initiated ==>
            && highest in accepted
            && (forall a | a in accepted :: a <= highest)
            && forall i: nat :: i < 64 ==> (Bit(seen, i) <==> i <= highest && highest - i in accepted))
    }

    constructor ()
      ensures Valid() && accepted == {}
    {
      size := WINDOW_SIZE;
      highest, seen, initiated := 0, 0, false;
      accepted := {};
    }

    method CheckAndMark(counter: uint32) returns (ok: bool)
      requires Valid()
      modifies this
      ensures Valid()
      ensures ok <==> Admits(old(accepted), counter)
      ensures accepted == Mark(old(accepted), counter)
    {
      if !initiated {
        initiated, highest, seen := true, counter, 1;
        accepted := {counter};
        forall i: nat | i < 64 ensures Bit(1, i) <==> i == 0 { OneBits(i); }
        return true;
      }
      if counter > highest {
        AdvanceBits(counter - highest);
        var shift := counter - highest;
        if shift >= 64 {
          seen := 0;
        } else {
          seen := Shl64(seen, shift);
        }
        assert seen == Slid(old(seen), shift);
        seen := Or(seen, 1);
        highest := counter;
        accepted := accepted + {counter};
        return true;
      } else if counter == highest {
        return false;
      } else {
        var diff := highest - counter;
        if diff >= size || diff >= 64 {
          return false;
        }
        var bit := Shl64(1, diff);
        MarkBits(diff);
        if And(seen, bit) != 0 {
          return false;
        }
        seen := Or(seen, bit);
        accepted := accepted + {counter};
        return true;
      }
    }

    /** What the bitmap holds once it has slid forward by shift positions and
        the new highest counter is marked. */
    lemma AdvanceBits(shift: nat)
      requires Valid() && initiated && shift > 0
      ensures Or(Slid(seen, shift), 1) < 0x1_0000_0000_0000_0000
      ensures forall i: nat :: i < 64 ==>
        (Bit(Or(Slid(seen, shift), 1), i)
         <==> i == 0 || (i <= highest + shift && highest + shift - i in accepted))
    {
      var slid := Slid(seen, shift);
      Pow2Of64();
      OrBound(slid, 1, 64);
      forall i: nat | i < 64
        ensures Bit(Or(slid, 1), i) <==> i == 0 || (i <= highest + shift && highest + shift - i in accepted)
      {
        OrBits(slid, 1, i);
        OneBits(i);
        if shift >= 64 {
          ZeroBits(i);
        } else {
          ShlBits(seen, shift, i);
        }
      }
    }

    /** What the mask of one position tests, and what the bitmap holds once it is set. */
    lemma MarkBits(diff: nat)
      requires Valid() && diff < 64
      ensures And(seen, Shl64(1, diff)) != 0 <==> Bit(seen, diff)
      ensures Or(seen, Shl64(1, diff)) < 0x1_0000_0000_0000_0000
      ensures forall i: nat :: i < 64 ==> (Bit(Or(seen, Shl64(1, diff)), i) <==> i == diff || Bit(seen, i))
    {
      var bit := Shl64(1, diff);
      forall i: nat ensures Bit(bit, i) <==> i == diff { MaskBits(diff, i); }
      AndTests(seen, bit, diff);
      Pow2Of64();
      OrBound(seen, bit, 64);
      forall i: nat | i < 64
        ensures Bit(Or(seen, bit), i) <==> i == diff || Bit(seen, i)
      {
        OrBits(seen, bit, i);
      }
    }

    method Reset()
      requires Valid()
      modifies this
      ensures Valid() && accepted == {}
    {
      initiated, highest, seen := false, 0, 0;
      accepted := {};
    }
  }

  // ----- Whole runs since a reset -----

  /** The counters accepted while h arrives. */
  ghost function Accepted(h: seq<uint32>): set<uint32> {
    if h == [] then {} else Mark(Accepted(h[..|h| - 1]), h[|h| - 1])
  }

  /** Every arrival is either accepted or too far below an accepted counter. */
  lemma {:induction false} ArrivalsSettled(h: seq<uint32>)
    ensures forall a | a in Accepted(h) :: a in h
    ensures forall x | x in h :: x in Accepted(h) || exists a :: a in Accepted(h) && a >= x + WINDOW_SIZE
  {
    if h != [] {
      var init, last := h[..|h| - 1], h[|h| - 1];
      ArrivalsSettled(init);
      assert h == init + [last];
      forall x | x in h
        ensures x in Accepted(h) || exists a :: a in Accepted(h) && a >= x + WINDOW_SIZE
      {
        if x in init && x !in Accepted(init) {
          var a :| a in Accepted(init) && a >= x + WINDOW_SIZE;
          assert a in Accepted(h);
        }
      }
    }
  }

  /** Freshness in terms of the arrivals alone: after any history h, counter c is
      accepted exactly when it never arrived and nothing 64 or more above it did. */
  lemma AdmitsByArrivals(h: seq<uint32>, c: uint32)
    ensures Admits(Accepted(h), c) <==> c !in h && forall x | x in h :: x < c + 64
  {
    ArrivalsSettled(h);
    if Admits(Accepted(h), c) {
      forall x | x in h ensures x != c && x < c + WINDOW_SIZE {
        if x !in Accepted(h) {
          var a :| a in Accepted(h) && a >= x + WINDOW_SIZE;
        }
      }
    }
  }

  /** Over any run no counter is accepted at two different arrivals. */
  lemma NeverAcceptedTwice(h: seq<uint32>, i: nat, j: nat)
    requires i < j < |h| && h[i] == h[j]
    ensures !Admits(Accepted(h[..j]), h[j])
  {
    AdmitsByArrivals(h[..j], h[j]);
    assert h[..j][i] == h[j];
  }

  /** A counter ends up accepted exactly when some arrival of it was admitted. */
  lemma {:induction false} AcceptedAtSomeArrival(h: seq<uint32>, c: uint32)
    ensures c in Accepted(h) <==> exists j :: 0 <= j < |h| && h[j] == c && Admits(Accepted(h[..j]), c)
  {
    if h != [] {
      var n := |h| - 1;
      AcceptedAtSomeArrival(h[..n], c);
      if c in Accepted(h[..n]) {
        var j :| 0 <= j < n && h[..n][j] == c && Admits(Accepted(h[..n][..j]), c);
        assert h[..n][..j] == h[..j];
      }
      if j :| 0 <= j < |h| && h[j] == c && Admits(Accepted(h[..j]), c) {
        if j < n {
          assert h[..n][..j] == h[..j] && h[..n][j] == c;
        }
      }
    }
  }
}
