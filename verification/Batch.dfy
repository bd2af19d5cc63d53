/** Request and response bodies: a sequence of frames, each behind a 16-bit length. */
module Batch {
  import opened Bytes
  import opened Crypto
  import opened Frame

  const MAX_FRAME := 0xFFFF

  function Entry(f: Wire): (e: Wire)
    ensures |e| == 2 + |f|
  {
    Lift(BigEndian(|f| % 0x1_0000, 2)) + f
  }

  function Print(fs: seq<Wire>): Wire {
    if fs == [] then [] else Entry(fs[0]) + Print(fs[1..])
  }

  function Length16(prefix: Wire): (n: nat)
    requires |prefix| == 2
    ensures n < 0x1_0000
  {
    Widths();
    FromBigEndianBound(Read(prefix));
    FromBigEndian(Read(prefix))
  }

  /** The frames a receiver finds in a body; it stops at the first one cut short. */
  function Parse(body: Wire): seq<Wire>
    decreases |body|
  {
    if |body| < 2 then []
    else
      var n := Length16(body[..2]);
      if 2 + n > |body| then [] else [body[2..2 + n]] + Parse(body[2 + n..])
  }

  /** Parsing from an offset: the length in front of the frame there decides
      whether there is another one. */
  lemma ParseTurn(body: Wire, offset: nat)
    requires offset + 2 <= |body|
    ensures var n := Length16(body[offset..offset + 2]);
            Parse(body[offset..])
            == if offset + 2 + n > |body| then []
               else [body[offset + 2..offset + 2 + n]] + Parse(body[offset + 2 + n..])
  {
    var rest := body[offset..];
    Slices(body, offset, 0, 2);
    var n := Length16(rest[..2]);
    if offset + 2 + n <= |body| {
      Slices(body, offset, 2, 2 + n);
    }
  }

  lemma Slices(body: Wire, offset: nat, i: nat, j: nat)
    requires i <= j && offset + j <= |body|
    ensures body[offset..][i..j] == body[offset + i..offset + j]
    ensures body[offset..][j..] == body[offset + j..]
    ensures body[offset..][..j] == body[offset..][0..j]
  {
  }

  method PrintLoop(frames: seq<Wire>) returns (body: Wire)
    ensures body == Print(frames)
  {
    body := [];
    for i := 0 to |frames|
      invariant body + Print(frames[i..]) == Print(frames)
    {
      assert body + Print(frames[i..]) == body + Entry(frames[i]) + Print(frames[i + 1..]) by {
        assert frames[i..][1..] == frames[i + 1..];
      }
      body := body + Lift(BigEndian(|frames[i]| % 0x1_0000, 2));
      body := body + frames[i];
      assert body + Print(frames[i + 1..]) == Print(frames);
    }
  }

  lemma EntryLengthOf(f: Wire, rest: Wire)
    ensures Length16((Entry(f) + rest)[..2]) == |f| % 0x1_0000
  {
    var bs := BigEndian(|f| % 0x1_0000, 2);
    assert (Entry(f) + rest)[..2] == Lift(bs);
    ReadLift(bs);
    Widths();
    BigEndianRead(|f| % 0x1_0000, 2);
  }

  lemma EntryCut(f: Wire, rest: Wire, k: nat)
    requires |f| <= MAX_FRAME && k <= 2 + |f| + |rest|
    ensures Parse((Entry(f) + rest)[..k])
            == if k < 2 + |f| then [] else [f] + Parse(rest[..k - 2 - |f|])
  {
    var body := (Entry(f) + rest)[..k];
    if k >= 2 {
      EntryLengthOf(f, (Entry(f) + rest)[2 + |f|..]);
      EntryLengthOf(f, rest);
      assert body[..2] == (Entry(f) + rest)[..2];
      if k >= 2 + |f| {
        assert body[2..2 + |f|] == f;
        assert body[2 + |f|..] == rest[..k - 2 - |f|];
      }
    }
  }

  predicate Fitting(fs: seq<Wire>) {
    forall i | 0 <= i < |fs| :: |fs[i]| <= MAX_FRAME
  }

  /** The number of frames wholly contained in the first k bytes of the print. */
  function Whole(fs: seq<Wire>, k: nat): nat {
    if fs == [] || k < 2 + |fs[0]| then 0 else 1 + Whole(fs[1..], k - 2 - |fs[0]|)
  }

  lemma {:induction false} WholeIsGreatest(fs: seq<Wire>, k: nat)
    ensures Whole(fs, k) <= |fs| && |Print(fs[..Whole(fs, k)])| <= k
    ensures Whole(fs, k) < |fs| ==> |Print(fs[..Whole(fs, k) + 1])| > k
  {
    if fs != [] {
      var m := Whole(fs, k);
      if k < 2 + |fs[0]| {
        assert fs[..1] == [fs[0]] && Print(fs[..1]) == Entry(fs[0]) + Print([]);
      } else {
        WholeIsGreatest(fs[1..], k - 2 - |fs[0]|);
        assert fs[..m][1..] == fs[1..][..m - 1];
        if m < |fs| { assert fs[..m + 1][1..] == fs[1..][..m]; }
      }
    }
  }

  /** A body cut off after any number of bytes yields exactly the frames it still
      contains whole, in order. */
  lemma {:induction false} TruncatedParse(fs: seq<Wire>, k: nat)
    requires Fitting(fs) && k <= |Print(fs)|
    ensures Whole(fs, k) <= |fs| && Parse(Print(fs)[..k]) == fs[..Whole(fs, k)]
  {
    hide Parse, Entry, Length16;
    WholeIsGreatest(fs, k);
    if fs == [] {
      NothingToParse(Print(fs)[..k]);
    } else {
      var f, rest := fs[0], Print(fs[1..]);
      EntryCut(f, rest, k);
      if k >= 2 + |f| {
        TruncatedParse(fs[1..], k - 2 - |f|);
        assert fs[..Whole(fs, k)] == [f] + fs[1..][..Whole(fs, k) - 1];
      }
    }
  }

  lemma NothingToParse(body: Wire)
    requires |body| < 2
    ensures Parse(body) == []
  {
  }

  lemma {:induction false} WholeOfAll(fs: seq<Wire>)
    ensures Whole(fs, |Print(fs)|) == |fs|
  {
    if fs != [] {
      WholeOfAll(fs[1..]);
    }
  }

  lemma {:induction false} ParsedFits(body: Wire)
    ensures Fitting(Parse(body))
    decreases |body|
  {
    if |body| >= 2 && 2 + Length16(body[..2]) <= |body| {
      ParsedFits(body[2 + Length16(body[..2])..]);
    }
  }

  /** The whole body gives the list back exactly when every frame fits its
      length field. */
  lemma ParsePrintIff(fs: seq<Wire>)
    ensures Parse(Print(fs)) == fs <==> Fitting(fs)
  {
    ParsedFits(Print(fs));
    if Fitting(fs) {
      TruncatedParse(fs, |Print(fs)|);
      WholeOfAll(fs);
      assert Print(fs)[..|Print(fs)|] == Print(fs) && fs[..|fs|] == fs;
    }
  }

  /** A pushed payload survives its own batch exactly up to 65498 bytes. */
  lemma PushFits(key: seq<byte>, counter: uint32, f: DataFrame)
    requires ValidKey(key)
    ensures var w := EncodeDataFrame(key, counter, f).value;
            Parse(Print([w])) == [w] <==> |f.payload| <= 65498
  {
    var w := EncodeDataFrame(key, counter, f).value;
    DecodeEncoded(key, counter, f);
    ParsePrintIff([w]);
    assert Fitting([w]) <==> |[w][0]| <= MAX_FRAME;
  }
}
