/** Unsigned 64-bit words as bitmaps: Go's <<, | and & on uint64, and what each
    of them does to the individual bits. */
module Bits {
  import opened Bytes

  predicate Bit(x: nat, i: nat) {
    if i == 0 then x % 2 == 1 else Bit(x / 2, i - 1)
  }

  /** x << s on an unsigned 64-bit integer: bits pushed past the top are lost. */
  function Shl64(x: uint64, s: nat): uint64
    decreases s
  {
    if s == 0 then x else Shl64(x * 2 % 0x1_0000_0000_0000_0000, s - 1)
  }

  function Or(x: nat, y: nat): nat {
    if x == 0 && y == 0 then 0
    else 2 * Or(x / 2, y / 2) + (if x % 2 == 1 || y % 2 == 1 then 1 else 0)
  }

  function And(x: nat, y: nat): nat {
    if x == 0 || y == 0 then 0
    else 2 * And(x / 2, y / 2) + (if x % 2 == 1 && y % 2 == 1 then 1 else 0)
  }

  function Pow2(n: nat): (p: nat)
    ensures p > 0
  {
    if n == 0 then 1 else 2 * Pow2(n - 1)
  }

  lemma {:induction false} Pow2Add(a: nat, b: nat)
    ensures Pow2(a + b) == Pow2(a) * Pow2(b)
  {
    if a > 0 {
      Pow2Add(a - 1, b);
    }
  }

  lemma Pow2Of64()
    ensures Pow2(64) == 0x1_0000_0000_0000_0000
  {
    Pow2Add(32, 32);
    Pow2Of32();
  }

  lemma Pow2Of32()
    ensures Pow2(32) == 0x1_0000_0000
  {
    Pow2Add(16, 16);
    Pow2Of16();
  }

  lemma Pow2Of16()
    ensures Pow2(16) == 0x1_0000
  {
    assert Pow2(4) == 16 by { assert Pow2(2) == 4; }
    assert Pow2(8) == 0x100 by { Pow2Add(4, 4); }
    Pow2Add(8, 8);
  }

  lemma {:induction false} OrBound(x: nat, y: nat, n: nat)
    requires x < Pow2(n) && y < Pow2(n)
    ensures Or(x, y) < Pow2(n)
  {
    if n > 0 {
      OrBound(x / 2, y / 2, n - 1);
    }
  }

  lemma {:induction false} ZeroBits(i: nat)
    ensures !Bit(0, i)
  {
    if i > 0 { ZeroBits(i - 1); }
  }

  lemma {:induction false} OneBits(i: nat)
    ensures Bit(1, i) <==> i == 0
  {
    if i > 0 { ZeroBits(i - 1); }
  }

  lemma {:induction false} OrBits(x: nat, y: nat, i: nat)
    ensures Bit(Or(x, y), i) <==> Bit(x, i) || Bit(y, i)
  {
    if x == 0 && y == 0 {
      ZeroBits(i);
    } else if i > 0 {
      OrBits(x / 2, y / 2, i - 1);
    }
  }

  /** Masking with a single bit tests that bit. */
  lemma {:induction false} AndTests(x: nat, y: nat, d: nat)
    requires forall i: nat :: Bit(y, i) <==> i == d
    ensures And(x, y) != 0 <==> Bit(x, d)
  {
    if x == 0 {
      ZeroBits(d);
    } else {
      assert Bit(y, d);
      if y == 0 { ZeroBits(d); }
      assert Bit(y, 0) <==> d == 0;
      if d == 0 {
        forall i: nat ensures !Bit(y / 2, i) { assert Bit(y, i + 1) == Bit(y / 2, i); }
        NoBits(y / 2);
      } else {
        forall i: nat ensures Bit(y / 2, i) <==> i == d - 1 { assert Bit(y, i + 1) == Bit(y / 2, i); }
        AndTests(x / 2, y / 2, d - 1);
      }
    }
  }

  lemma {:induction false} NoBits(y: nat)
    requires forall i: nat :: !Bit(y, i)
    ensures y == 0
  {
    if y != 0 {
      assert !Bit(y, 0);
      forall i: nat ensures !Bit(y / 2, i) { assert Bit(y, i + 1) == Bit(y / 2, i); }
      NoBits(y / 2);
    }
  }

  /** Reducing modulo 2^n keeps exactly the bits below n. */
  lemma {:induction false} ModBits(x: nat, n: nat, i: nat)
    ensures Bit(x % Pow2(n), i) <==> i < n && Bit(x, i)
  {
    if n == 0 {
      ZeroBits(i);
    } else {
      var y := x / 2 % Pow2(n - 1);
      HalfMod(x, Pow2(n - 1));
      assert x % Pow2(n) == 2 * y + x % 2;
      if i > 0 {
        ModBits(x / 2, n - 1, i - 1);
        HalfOf(y, x % 2);
      }
    }
  }

  lemma HalfOf(y: nat, r: nat)
    requires r < 2
    ensures (2 * y + r) / 2 == y && (2 * y + r) % 2 == r
  {
  }

  lemma HalfMod(x: nat, m: nat)
    requires m > 0
    ensures x % (2 * m) == 2 * (x / 2 % m) + x % 2
  {
    var q := x / 2 / m;
    assert x / 2 == m * q + x / 2 % m;
    assert x == (2 * m) * q + (2 * (x / 2 % m) + x % 2) by {
      assert (2 * m) * q == 2 * (m * q);
    }
    DivModUnique(x, 2 * m, q, 2 * (x / 2 % m) + x % 2);
  }

  lemma {:induction false} ShlBits(x: uint64, s: nat, i: nat)
    requires i < 64
    ensures Bit(Shl64(x, s), i) <==> s <= i && Bit(x, i - s)
    decreases s
  {
    if s > 0 {
      var y := x * 2 % 0x1_0000_0000_0000_0000;
      ShlBits(y, s - 1, i);
      if s <= i + 1 {
        Pow2Of64();
        ModBits(x * 2, 64, i - (s - 1));
        if s <= i { assert Bit(x * 2, i - s + 1) == Bit(x * 2 / 2, i - s); }
      }
    }
  }

  lemma NoHighBits(x: uint64, i: nat)
    requires i >= 64
    ensures !Bit(x, i)
  {
    hide Pow2, Bit;
    Pow2Of64();
    ModBits(x, 64, i);
    assert x % Pow2(64) == x;
  }

  /** The single-bit mask 1 << d. */
  lemma MaskBits(d: nat, i: nat)
    requires d < 64
    ensures Bit(Shl64(1, d), i) <==> i == d
  {
    hide Shl64;
    if i < 64 {
      ShlBits(1, d, i);
      if d <= i { OneBits(i - d); }
    } else {
      NoHighBits(Shl64(1, d), i);
    }
  }
}
