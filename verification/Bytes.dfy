/** Fixed-width unsigned integers, byte strings and the big-endian layout that
    every header of the protocol uses. */
module Bytes {
  type byte = x: int | 0 <= x < 0x100
  type uint16 = x: int | 0 <= x < 0x1_0000
  type uint32 = x: int | 0 <= x < 0x1_0000_0000
  type uint64 = x: int | 0 <= x < 0x1_0000_0000_0000_0000

  const MAX_UINT32: uint32 := 0xFFFF_FFFF

  datatype Option<+T> = None | Some(value: T)

  datatype Result<+T, +E> = Ok(value: T) | Err(error: E)

  /** The wrap-around of an unsigned 32-bit increment. */
  function Succ32(x: uint32): uint32 {
    (x + 1) % 0x1_0000_0000
  }

  function Pow256(n: nat): (p: nat)
    ensures p > 0
  {
    if n == 0 then 1 else 256 * Pow256(n - 1)
  }

  lemma Widths()
    ensures Pow256(1) == 0x100 && Pow256(2) == 0x1_0000 && Pow256(4) == 0x1_0000_0000
    ensures Pow256(8) == 0x1_0000_0000_0000_0000
  {
    assert Pow256(3) == 0x100_0000;
    assert Pow256(5) == 0x100_0000_0000;
    assert Pow256(6) == 0x1_0000_0000_0000;
    assert Pow256(7) == 0x100_0000_0000_0000;
  }

  /** The low n bytes of v, most significant first. */
  function BigEndian(v: nat, n: nat): (bs: seq<byte>)
    ensures |bs| == n
  {
    if n == 0 then [] else BigEndian(v / 256, n - 1) + [v % 256]
  }

  function FromBigEndian(bs: seq<byte>): nat {
    if bs == [] then 0 else FromBigEndian(bs[..|bs| - 1]) * 256 + bs[|bs| - 1]
  }

  lemma {:induction false} FromBigEndianBound(bs: seq<byte>)
    ensures FromBigEndian(bs) < Pow256(|bs|)
  {
    if bs != [] {
      FromBigEndianBound(bs[..|bs| - 1]);
    }
  }

  lemma {:induction false} BigEndianRead(v: nat, n: nat)
    requires v < Pow256(n)
    ensures FromBigEndian(BigEndian(v, n)) == v
  {
    if n > 0 {
      var bs := BigEndian(v, n);
      assert bs[..n - 1] == BigEndian(v / 256, n - 1);
      BigEndianRead(v / 256, n - 1);
    }
  }

  lemma {:induction false} BigEndianWrite(bs: seq<byte>)
    ensures BigEndian(FromBigEndian(bs), |bs|) == bs
  {
    if bs != [] {
      BigEndianWrite(bs[..|bs| - 1]);
      assert bs == bs[..|bs| - 1] + [bs[|bs| - 1]];
    }
  }

  /** Byte i is the digit of v with weight 256^(n - 1 - i). */
  lemma {:induction false} BigEndianDigit(v: nat, n: nat, i: nat)
    requires i < n
    ensures BigEndian(v, n)[i] == v / Pow256(n - 1 - i) % 256
  {
    if i < n - 1 {
      BigEndianDigit(v / 256, n - 1, i);
      DivTwice(v, Pow256(n - 2 - i));
    }
  }

  lemma DivTwice(v: nat, b: nat)
    requires b > 0
    ensures v / 256 / b == v / (256 * b)
  {
    var q, r := v / 256 / b, v / 256 % b;
    assert v == 256 * (b * q) + (256 * r + v % 256);
    assert 256 * (b * q) == (256 * b) * q;
    DivModUnique(v, 256 * b, q, 256 * r + v % 256);
  }

  lemma DivModUnique(x: nat, m: nat, q: nat, r: nat)
    requires 0 <= r < m && x == m * q + r
    ensures x / m == q && x % m == r
  {
    var k, t := x / m, x % m;
    assert x == m * k + t;
    MulGap(m, k, q);
    MulGap(m, q, k);
  }

  lemma {:induction false} MulGap(m: nat, a: nat, b: nat)
    ensures a > b ==> m * a >= m * b + m
  {
    if a > b {
      assert m * a == m * (a - 1) + m;
      MulGap(m, a - 1, b);
    }
  }

  /** Writes v into n bytes of a starting at off, as binary.BigEndian.PutUint does. */
  method PutBigEndian(a: array<byte>, off: nat, n: nat, v: nat)
    requires off + n <= a.Length
    modifies a
    ensures a[..off] == old(a[..off])
    ensures a[off..off + n] == BigEndian(v, n)
    ensures a[off + n..] == old(a[off + n..])
  {
    var k, rest: nat := n, v;
    while k > 0
      invariant 0 <= k <= n <= a.Length - off
      invariant a[..off + k] == old(a[..off + k])
      invariant BigEndian(v, n) == BigEndian(rest, k) + a[off + k..off + n]
      invariant a[off + n..] == old(a[off + n..])
    {
      k := k - 1;
      ghost var tail := a[off + k + 1..off + n];
      a[off + k] := rest % 256;
      assert a[off + k..off + n] == [rest % 256] + tail;
      assert BigEndian(rest, k + 1) + tail == BigEndian(rest / 256, k) + ([rest % 256] + tail);
      rest := rest / 256;
    }
  }
}
