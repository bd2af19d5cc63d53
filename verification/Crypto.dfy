/** The cryptographic layer, with the primitives kept symbolic. A sealed byte
    carries the box it was cut from, so ciphertext can be cut, copied, spliced and
    truncated byte by byte, yet opens only as the whole of one box under the key
    and the nonce that sealed it. */
module Crypto {
  import opened Bytes

  const X25519_KEY_SIZE := 32
  const AUTH_TAG_SIZE := 16
  const HASH_SIZE := 32

  datatype Error = ShortBuffer | DecryptFailed | KeySize | BadPublicKey | KeyAgreement | ExpandTooLong

  // ----- AEAD -----

  datatype Box = Box(key: seq<byte>, nonce: seq<byte>, plain: seq<byte>)

  datatype Octet = Clear(value: byte) | Sealed(box: Box, at: nat)

  /** The number a reader sees in an octet. Nothing rests on the value of a
      ciphertext octet, and the model reads every one of them as 0. */
  function Value(o: Octet): byte {
    if o.Clear? then o.value else 0
  }

  function Read(os: seq<Octet>): (bs: seq<byte>)
    ensures |bs| == |os|
  {
    seq(|os|, i requires 0 <= i < |os| => Value(os[i]))
  }

  function Lift(bs: seq<byte>): (os: seq<Octet>)
    ensures |os| == |bs|
  {
    seq(|bs|, i requires 0 <= i < |bs| => Clear(bs[i]))
  }

  function Ciphertext(box: Box): (c: seq<Octet>)
    ensures |c| == |box.plain| + AUTH_TAG_SIZE
  {
    seq(|box.plain| + AUTH_TAG_SIZE, i requires 0 <= i < |box.plain| + AUTH_TAG_SIZE => Sealed(box, i))
  }

  /** The key lengths an AES cipher accepts. */
  predicate ValidKey(key: seq<byte>) {
    |key| == 16 || |key| == 24 || |key| == 32
  }

  function Seal(key: seq<byte>, nonce: seq<byte>, plain: seq<byte>): Result<seq<Octet>, Error> {
    if !ValidKey(key) then Err(KeySize) else Ok(Ciphertext(Box(key, nonce, plain)))
  }

  function Open(key: seq<byte>, nonce: seq<byte>, c: seq<Octet>): Result<seq<byte>, Error> {
    if !ValidKey(key) then Err(KeySize)
    else if c != [] && c[0].Sealed? && c == Ciphertext(c[0].box) && c[0].box.key == key && c[0].box.nonce == nonce
    then Ok(c[0].box.plain)
    else Err(DecryptFailed)
  }

  /** Open succeeds exactly on what Seal produced under the same key and nonce. */
  lemma OpenIff(key: seq<byte>, nonce: seq<byte>, c: seq<Octet>, plain: seq<byte>)
    ensures Open(key, nonce, c) == Ok(plain) <==> Seal(key, nonce, plain) == Ok(c)
    ensures Seal(key, nonce, plain).Ok? <==> |key| in {16, 24, 32}
  {
    var box := Box(key, nonce, plain);
    assert Ciphertext(box)[0] == Sealed(box, 0);
  }

  // ----- Nonces -----

  /** connection_id (4 bytes) || counter (8 bytes). */
  function BuildNonce(connectionID: uint32, counter: uint64): (nonce: seq<byte>)
    ensures |nonce| == 12
  {
    BigEndian(connectionID, 4) + BigEndian(counter, 8)
  }

  /** The first four bytes are the connection id, the last eight the counter. */
  lemma NonceFields(connectionID: uint32, counter: uint64)
    ensures var nonce := BuildNonce(connectionID, counter);
            FromBigEndian(nonce[..4]) == connectionID && FromBigEndian(nonce[4..]) == counter
  {
    Widths();
    BigEndianRead(connectionID, 4);
    BigEndianRead(counter, 8);
    var nonce := BuildNonce(connectionID, counter);
    assert nonce[..4] == BigEndian(connectionID, 4) && nonce[4..] == BigEndian(counter, 8);
  }

  lemma NonceInjective(c: uint32, n: uint64, c': uint32, n': uint64)
    ensures BuildNonce(c, n) == BuildNonce(c', n') <==> c == c' && n == n'
  {
    NonceFields(c, n);
    NonceFields(c', n');
  }

  method FillNonce(connectionID: uint32, counter: uint64) returns (nonce: array<byte>)
    ensures fresh(nonce) && nonce[..] == BuildNonce(connectionID, counter)
  {
    nonce := new byte[12](_ => 0);
    PutBigEndian(nonce, 0, 4, connectionID);
    PutBigEndian(nonce, 4, 8, counter);
    assert nonce[..] == nonce[..4] + nonce[4..12];
  }

  // ----- Key agreement and HMAC -----

  /** Every choice of functions with these laws is allowed. */
  datatype Algebra = Algebra(
    hmac: (seq<byte>, seq<byte>) -> seq<byte>,
    pub: seq<byte> -> seq<byte>,
    ecdh: (seq<byte>, seq<byte>) -> Option<seq<byte>>)
  {
    ghost predicate Lawful() {
      && (forall k, m :: |hmac(k, m)| == HASH_SIZE)
      && (forall a :: |pub(a)| == X25519_KEY_SIZE)
      && (forall a, b :: ecdh(a, pub(b)) == ecdh(b, pub(a)))
    }
  }

  function Zeros(n: nat): (z: seq<byte>)
    ensures |z| == n && forall i | 0 <= i < n :: z[i] == 0
  {
    seq(n, _ => 0)
  }

  ghost const TRIVIAL: Algebra := Algebra((_, _) => Zeros(32), _ => Zeros(32), (_, _) => None)

  type Primitives = a: Algebra | a.Lawful() ghost witness TRIVIAL

  // ----- HKDF, RFC 5869 -----

  function HkdfExtract(p: Primitives, salt: seq<byte>, ikm: seq<byte>): seq<byte> {
    p.hmac(if salt == [] then Zeros(HASH_SIZE) else salt, ikm)
  }

  /** T(n) of section 2.3 of RFC 5869. */
  function T(p: Primitives, prk: seq<byte>, info: seq<byte>, n: nat): seq<byte>
    requires n <= 255
  {
    if n == 0 then [] else p.hmac(prk, T(p, prk, info, n - 1) + info + [n])
  }

  /** T(1) | T(2) | ... | T(n). */
  function Blocks(p: Primitives, prk: seq<byte>, info: seq<byte>, n: nat): (t: seq<byte>)
    requires n <= 255
    ensures |t| == n * HASH_SIZE
  {
    if n == 0 then [] else Blocks(p, prk, info, n - 1) + T(p, prk, info, n)
  }

  /** N = ceil(L / HashLen). */
  function BlockCount(length: nat): nat {
    (length + HASH_SIZE - 1) / HASH_SIZE
  }

  /** OKM of section 2.3 of RFC 5869: the first length octets of T(1) | ... | T(N). */
  function Okm(p: Primitives, prk: seq<byte>, info: seq<byte>, length: nat): Result<seq<byte>, Error> {
    if length > 255 * HASH_SIZE then Err(ExpandTooLong)
    else Ok(Blocks(p, prk, info, BlockCount(length))[..length])
  }

  /** The expand loop with its one-byte block counter. */
  method HkdfExpand(p: Primitives, prk: seq<byte>, info: seq<byte>, length: nat) returns (r: Result<seq<byte>, Error>)
    ensures r == Okm(p, prk, info, length)
  {
    var hashLen := HASH_SIZE;
    if length > 255 * hashLen {
      return Err(ExpandTooLong);
    }
    var out: seq<byte>, prev: seq<byte>, i: byte := [], [], 1;
    ghost var n: nat := 0;
    while |out| < length
      invariant n <= 255 && n <= BlockCount(length)
      invariant i == (n + 1) % 0x100
      invariant prev == T(p, prk, info, n)
      invariant out == Blocks(p, prk, info, n)
      decreases length - |out|
    {
      n := n + 1;
      prev := p.hmac(prk, prev + info + [i]);
      out := out + prev;
      i := (i + 1) % 0x100;
    }
    BlocksPrefix(p, prk, info, n, BlockCount(length));
    return Ok(out[..length]);
  }

  lemma {:induction false} BlocksPrefix(p: Primitives, prk: seq<byte>, info: seq<byte>, m: nat, n: nat)
    requires m <= n <= 255
    ensures Blocks(p, prk, info, m) <= Blocks(p, prk, info, n)
    decreases n - m
  {
    if m < n {
      BlocksPrefix(p, prk, info, m, n - 1);
    }
  }

  /** A shorter output is a prefix of a longer one. */
  lemma OkmPrefix(p: Primitives, prk: seq<byte>, info: seq<byte>, short: nat, long: nat)
    requires short <= long <= 255 * HASH_SIZE
    ensures |Okm(p, prk, info, short).value| == short
    ensures Okm(p, prk, info, short).value <= Okm(p, prk, info, long).value
  {
    BlocksPrefix(p, prk, info, BlockCount(short), BlockCount(long));
  }

  /** Block k of the output, counted from 0. */
  function BlockOf(okm: seq<byte>, k: nat): seq<byte>
    requires HASH_SIZE * (k + 1) <= |okm|
  {
    okm[HASH_SIZE * k..HASH_SIZE * k + HASH_SIZE]
  }

  lemma {:induction false} BlocksChain(p: Primitives, prk: seq<byte>, info: seq<byte>, n: nat, k: nat)
    requires k < n <= 255
    ensures BlockOf(Blocks(p, prk, info, n), k) == T(p, prk, info, k + 1)
  {
    var before := Blocks(p, prk, info, n - 1);
    if k < n - 1 {
      BlocksChain(p, prk, info, n - 1, k);
      assert BlockOf(before + T(p, prk, info, n), k) == BlockOf(before, k);
    } else {
      assert BlockOf(before + T(p, prk, info, n), k) == T(p, prk, info, n);
    }
  }

  /** The output read as a chain: the first block is the MAC of info and 1, and each
      later one the MAC of its predecessor, info and its number. */
  lemma OkmChain(p: Primitives, prk: seq<byte>, info: seq<byte>, length: nat, k: nat)
    requires length <= 255 * HASH_SIZE && HASH_SIZE * (k + 1) <= length
    ensures var okm := Okm(p, prk, info, length).value;
            && |okm| == length
            && BlockOf(okm, k) == if k == 0 then p.hmac(prk, info + [1])
                                  else p.hmac(prk, BlockOf(okm, k - 1) + info + [k + 1])
  {
    var n := BlockCount(length);
    var okm := Okm(p, prk, info, length).value;
    BlocksChain(p, prk, info, n, k);
    assert BlockOf(okm, k) == BlockOf(Blocks(p, prk, info, n), k);
    if k == 0 {
      assert T(p, prk, info, 0) + info + [1] == info + [1];
    } else {
      BlocksChain(p, prk, info, n, k - 1);
      assert BlockOf(okm, k - 1) == BlockOf(Blocks(p, prk, info, n), k - 1);
    }
  }

  function DeriveSessionKey(p: Primitives, sharedSecret: seq<byte>, salt: seq<byte>, info: seq<byte>)
    : Result<seq<byte>, Error>
  {
    Okm(p, HkdfExtract(p, salt, sharedSecret), info, 32)
  }

  /** A session key is two HMACs over the shared secret, so it is always a valid
      AES-256 key; an absent salt stands for 32 zeros. */
  lemma SessionKeyShape(p: Primitives, sharedSecret: seq<byte>, salt: seq<byte>, info: seq<byte>)
    ensures var r := DeriveSessionKey(p, sharedSecret, salt, info);
            && r.Ok? && |r.value| == 32
            && (salt != [] ==> r.value == p.hmac(p.hmac(salt, sharedSecret), info + [1]))
            && (salt == [] ==> r.value == p.hmac(p.hmac(Zeros(32), sharedSecret), info + [1]))
  {
    var prk := HkdfExtract(p, salt, sharedSecret);
    var t := T(p, prk, info, 1);
    assert T(p, prk, info, 0) + info + [1] == info + [1];
    assert Blocks(p, prk, info, 1) == t && t[..32] == t;
  }
}
