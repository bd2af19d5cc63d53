/** The gap-filling reorder buffer: payloads arrive under their sequence numbers
    in any order and leave as one contiguous run. */
module Reorder {
  import opened Bytes

  type Payload = seq<byte>

  datatype Buffer = Buffer(next: uint32, pending: map<uint32, Payload>, started: bool)

  // ----- One insertion -----

  /** Removes the contiguous run that starts at next. */
  function Drain(b: Buffer): (r: (Buffer, seq<Payload>))
    decreases |b.pending|
  {
    if b.next in b.pending then
      var rest := Drain(b.(next := Succ32(b.next), pending := b.pending - {b.next}));
      (rest.0, [b.pending[b.next]] + rest.1)
    else
      (b, [])
  }

  function Absorb(b: Buffer, s: uint32, p: Payload): (Buffer, seq<Payload>) {
    var b := if b.started then b else b.(next := s, started := true);
    if s < b.next || s in b.pending then (b, []) else Drain(b.(pending := b.pending[s := p]))
  }

  class ReorderBuffer {
    var nextExpected: uint32
    var pending: map<uint32, Payload>
    var started: bool

    function Contents(): Buffer
      reads this
    {
      Buffer(nextExpected, pending, started)
    }

    constructor (startSequence: uint32)
      ensures Contents() == Buffer(startSequence, map[], true)
    {
      nextExpected, pending, started := startSequence, map[], true;
    }

    method Insert(sequence: uint32, payload: Payload) returns (ready: seq<Payload>)
      modifies this
      ensures (Contents(), ready) == Absorb(old(Contents()), sequence, payload)
    {
      if !started {
        nextExpected, started := sequence, true;
      }
      if sequence < nextExpected {
        return [];
      }
      if sequence in pending {
        return [];
      }
      pending := pending[sequence := payload];
      ready := [];
      ghost var whole := Drain(Contents());
      assert whole.1 == ready + whole.1;
      while nextExpected in pending
        invariant whole == (Drain(Contents()).0, ready + Drain(Contents()).1)
        decreases |pending|
      {
        ghost var rest := Drain(Contents().(next := Succ32(nextExpected), pending := pending - {nextExpected}));
        assert ready + Drain(Contents()).1 == (ready + [pending[nextExpected]]) + rest.1;
        ready := ready + [pending[nextExpected]];
        pending := pending - {nextExpected};
        nextExpected := Succ32(nextExpected);
      }
      assert ready + Drain(Contents()).1 == ready;
    }
  }

  // ----- Whole histories -----

  datatype Item = Item(s: uint32, p: Payload)

  /** The state after the history h, and everything it released. */
  function Run(b: Buffer, h: seq<Item>): (Buffer, seq<Payload>) {
    if h == [] then (b, [])
    else
      var before := Run(b, h[..|h| - 1]);
      var last := Absorb(before.0, h[|h| - 1].s, h[|h| - 1].p);
      (last.0, before.1 + last.1)
  }

  /** The payload each sequence from start on was first inserted with. */
  function FirstInserted(start: uint32, h: seq<Item>): map<uint32, Payload> {
    if h == [] then map[]
    else Keep(start, FirstInserted(start, h[..|h| - 1]), h[|h| - 1])
  }

  function Keep(start: uint32, got: map<uint32, Payload>, i: Item): map<uint32, Payload> {
    if i.s < start || i.s in got then got else got[i.s := i.p]
  }

  /** The payloads of the sequences from..to-1, in order. */
  function Stretch(got: map<uint32, Payload>, from: uint32, to: uint32): seq<Payload>
    requires from <= to
    requires forall s: uint32 | from <= s < to :: s in got
  {
    seq(to - from, i requires 0 <= i < to - from => got[from + i])
  }

  /** m is the least sequence from start on that was not inserted. */
  ghost predicate LeastMissing(start: uint32, got: map<uint32, Payload>, m: uint32) {
    start <= m && m !in got && forall s: uint32 | start <= s < m :: s in got
  }

  /** What a buffer that started at start must look like after taking in got:
      released everything below the least missing sequence m, kept everything above. */
  ghost predicate Reassembled(start: uint32, got: map<uint32, Payload>, b: Buffer, out: seq<Payload>) {
    && b.started
    && LeastMissing(start, got, b.next)
    && out == Stretch(got, start, b.next)
    && b.pending == map s: uint32 | s in got && b.next < s :: got[s]
  }

  /** Some sequence from start on never arrives, so the counter does not wrap. */
  ghost predicate ShortOfWrap(start: uint32, got: map<uint32, Payload>) {
    exists m: uint32 :: start <= m && m !in got
  }

  lemma {:induction false} DrainReassembles(start: uint32, got: map<uint32, Payload>, b: Buffer, out: seq<Payload>)
    requires ShortOfWrap(start, got) && b.started
    requires start <= b.next && forall s: uint32 | start <= s < b.next :: s in got
    requires out == Stretch(got, start, b.next)
    requires b.pending == map s: uint32 | s in got && b.next <= s :: got[s]
    ensures Reassembled(start, got, Drain(b).0, out + Drain(b).1)
    decreases |b.pending|
  {
    if b.next in b.pending {
      var m: uint32 :| start <= m && m !in got;
      assert b.next < m;
      var b' := b.(next := Succ32(b.next), pending := b.pending - {b.next});
      var out' := out + [b.pending[b.next]];
      assert out' == Stretch(got, start, b'.next);
      DrainReassembles(start, got, b', out');
      assert out + Drain(b).1 == out' + Drain(b').1;
    } else {
      assert out + Drain(b).1 == out;
      assert b.next !in got;
    }
  }

  lemma InsertReassembles(start: uint32, got: map<uint32, Payload>, b: Buffer, out: seq<Payload>, i: Item)
    requires Reassembled(start, got, b, out)
    requires ShortOfWrap(start, Keep(start, got, i))
    ensures var r := Absorb(b, i.s, i.p); Reassembled(start, Keep(start, got, i), r.0, out + r.1)
  {
    var got' := Keep(start, got, i);
    if i.s < b.next || i.s in b.pending {
      assert got' == got;
      assert out + [] == out;
    } else {
      assert got' == got[i.s := i.p];
      assert out == Stretch(got', start, b.next);
      DrainReassembles(start, got', b.(pending := b.pending[i.s := i.p]), out);
    }
  }

  lemma {:induction false} WrapMonotone(start: uint32, h: seq<Item>, k: nat)
    requires k <= |h| && ShortOfWrap(start, FirstInserted(start, h))
    ensures ShortOfWrap(start, FirstInserted(start, h[..k]))
  {
    if k < |h| {
      assert h[..|h| - 1][..k] == h[..k];
      var m: uint32 :| start <= m && m !in FirstInserted(start, h);
      assert m !in FirstInserted(start, h[..|h| - 1]);
      WrapMonotone(start, h[..|h| - 1], k);
    } else {
      assert h[..k] == h;
    }
  }

  /** Closed form of every history: out come the first-inserted payloads of
      start..m-1, held back is exactly what was inserted above m. */
  lemma {:induction false} RunReassembles(start: uint32, h: seq<Item>)
    requires ShortOfWrap(start, FirstInserted(start, h))
    ensures var r := Run(Buffer(start, map[], true), h); Reassembled(start, FirstInserted(start, h), r.0, r.1)
  {
    if h != [] {
      var init := h[..|h| - 1];
      WrapMonotone(start, h, |h| - 1);
      RunReassembles(start, init);
      var r := Run(Buffer(start, map[], true), init);
      InsertReassembles(start, FirstInserted(start, init), r.0, r.1, h[|h| - 1]);
    }
  }

  lemma ReassembledUnique(start: uint32, got: map<uint32, Payload>, b: Buffer, out: seq<Payload>,
                          b': Buffer, out': seq<Payload>)
    requires Reassembled(start, got, b, out) && Reassembled(start, got, b', out')
    ensures b == b' && out == out'
  {
  }

  /** Same payload under the same sequence, wherever it occurs. */
  ghost predicate Consistent(h: seq<Item>) {
    forall i, j | 0 <= i < |h| && 0 <= j < |h| && h[i].s == h[j].s :: h[i].p == h[j].p
  }

  lemma {:induction false} FirstInsertedFrom(start: uint32, h: seq<Item>)
    ensures forall s: uint32 :: s in FirstInserted(start, h) <==> start <= s && exists j :: 0 <= j < |h| && h[j].s == s
    ensures forall s: uint32 | s in FirstInserted(start, h) ::
      exists j :: 0 <= j < |h| && h[j] == Item(s, FirstInserted(start, h)[s])
  {
    if h != [] {
      var n := |h| - 1;
      FirstInsertedFrom(start, h[..n]);
      var got, got' := FirstInserted(start, h[..n]), FirstInserted(start, h);
      forall s: uint32 | s in got'
        ensures start <= s && exists j :: 0 <= j < |h| && h[j] == Item(s, got'[s])
      {
        if s in got {
          var j :| 0 <= j < n && h[..n][j] == Item(s, got[s]);
          assert h[j] == Item(s, got'[s]);
        } else {
          assert h[n] == Item(s, got'[s]);
        }
      }
      forall s: uint32, j | start <= s && 0 <= j < |h| && h[j].s == s
        ensures s in got'
      {
        if j < n { assert h[..n][j].s == s; }
      }
    }
  }

  /** Two histories that insert the same items, in whatever order and however
      often, release the same stream and hold back the same payloads. */
  lemma OrderIndependence(start: uint32, h: seq<Item>, h': seq<Item>)
    requires Consistent(h + h')
    requires forall i :: i in h <==> i in h'
    requires ShortOfWrap(start, FirstInserted(start, h))
    ensures Run(Buffer(start, map[], true), h) == Run(Buffer(start, map[], true), h')
  {
    var got, got' := FirstInserted(start, h), FirstInserted(start, h');
    FirstInsertedFrom(start, h);
    FirstInsertedFrom(start, h');
    SameFirst(start, h, h');
    SameFirst(start, h', h);
    assert got == got';
    RunReassembles(start, h);
    RunReassembles(start, h');
    var r, r' := Run(Buffer(start, map[], true), h), Run(Buffer(start, map[], true), h');
    ReassembledUnique(start, got, r.0, r.1, r'.0, r'.1);
  }

  lemma SameFirst(start: uint32, h: seq<Item>, h': seq<Item>)
    requires Consistent(h + h') || Consistent(h' + h)
    requires forall i :: i in h <==> i in h'
    ensures forall s: uint32 | s in FirstInserted(start, h) ::
      s in FirstInserted(start, h') && FirstInserted(start, h)[s] == FirstInserted(start, h')[s]
  {
    var got, got' := FirstInserted(start, h), FirstInserted(start, h');
    FirstInsertedFrom(start, h);
    FirstInsertedFrom(start, h');
    forall s: uint32 | s in got
      ensures s in got' && got[s] == got'[s]
    {
      var j :| 0 <= j < |h| && h[j] == Item(s, got[s]);
      assert h[j] in h';
      var k :| 0 <= k < |h'| && h'[k] == h[j];
      var k' :| 0 <= k' < |h'| && h'[k'] == Item(s, got'[s]);
      if Consistent(h + h') {
        assert (h + h')[|h| + k] == h[j] && (h + h')[|h| + k'] == h'[k'];
      } else {
        assert (h' + h)[k] == h[j] && (h' + h)[k'] == h'[k'];
      }
    }
  }

  /** The bound in RunReassembles is needed: at the last sequence number the
      counter wraps to 0 and a stale duplicate is released a second time. */
  lemma WrapRedelivers(p: Payload, q: Payload)
    ensures var b := Buffer(MAX_UINT32, map[], true);
            var r := Run(b, [Item(MAX_UINT32, p), Item(0, q)]);
            r.0.next == 1 && r.1 == [p, q]
    ensures !ShortOfWrap(MAX_UINT32, FirstInserted(MAX_UINT32, [Item(MAX_UINT32, p), Item(0, q)]))
  {
    var b := Buffer(MAX_UINT32, map[], true);
    var h := [Item(MAX_UINT32, p), Item(0, q)];
    assert h[..1] == [Item(MAX_UINT32, p)] && h[..1][..0] == [];
    AbsorbNext(b, p);
    AbsorbNext(Buffer(0, map[], true), q);
    assert Run(b, []) == (b, []);
    assert Run(b, h[..1]) == (Buffer(0, map[], true), [] + [p]);
    assert MAX_UINT32 in FirstInserted(MAX_UINT32, h[..1]);
  }

  lemma AbsorbNext(b: Buffer, p: Payload)
    requires b.started && b.pending == map[]
    ensures Absorb(b, b.next, p) == (b.(next := Succ32(b.next)), [p])
  {
    var filled := b.(pending := b.pending[b.next := p]);
    var emptied := b.(next := Succ32(b.next), pending := filled.pending - {b.next});
    assert emptied == b.(next := Succ32(b.next));
    assert Drain(emptied) == (emptied, []);
    assert Drain(filled) == (emptied, [p] + []);
    assert [p] + [] == [p];
    assert Absorb(b, b.next, p) == Drain(filled);
  }

  /** A buffer that was not told where to start takes its first item for the start. */
  lemma UnstartedAdopts(next: uint32, s: uint32, p: Payload)
    ensures Absorb(Buffer(next, map[], false), s, p) == (Buffer(Succ32(s), map[], true), [p])
  {
    AbsorbNext(Buffer(s, map[], true), p);
  }
}
