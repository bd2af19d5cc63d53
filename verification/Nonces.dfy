/** Nonce discipline of one sender over many keys, with each Session method as one step. */
module Nonces {
  import opened Bytes
  import opened Crypto
  import opened Frame
  import opened Session
  import T = SessionTable

  /** The client seals a handshake under the key it has just derived, with counter 0;
      either side later installs the key and seals data frames. */
  datatype Event =
    | Greet(key: seq<byte>, hello: Hello)
    | Install(connectionID: uint32, key: seq<byte>)
    | Send(payload: Payload, flags: Flags)

  datatype Sender = Sender(
    s: SessionState,
    boxes: seq<Box>,               // everything sealed so far, in order
    uses: seq<Use>,                // the key, connection id and counter behind each box
    greeted: set<seq<byte>>,
    installed: set<seq<byte>>,
    sends: nat)                    // sends since the last Install

  datatype Use = Use(key: seq<byte>, connectionID: uint32, counter: uint64)

  function FreshSender(deviceID: uint64): Sender {
    Sender(Fresh(deviceID), [], [], {}, {}, 0)
  }

  /** Every handshake derives a new key, and one key serves at most 2^32 frames. */
  predicate Allowed(x: Sender, e: Event) {
    match e
    case Greet(key, _) => key !in x.greeted && key !in x.installed
    case Install(_, key) => key !in x.installed
    case Send(_, _) => x.sends < 0x1_0000_0000
  }

  function After(x: Sender, e: Event): Sender {
    match e
    case Greet(key, hello) =>
      x.(boxes := x.boxes + [Box(key, BuildNonce(0, 0), PrintHello(hello))], uses := x.uses + [Use(key, 0, 0)],
         greeted := x.greeted + {key})
    case Install(connectionID, key) =>
      x.(s := Rekey(x.s, connectionID, key), installed := x.installed + {key}, sends := 0)
    case Send(payload, flags) =>
      var r := Encode(x.s, payload, flags);
      var y := x.(s := r.0, sends := x.sends + 1);
      if r.1.Err? then y else
        SealedBox(x.s, payload, flags);
        y.(boxes := x.boxes + [r.1.value[4].box], uses := x.uses + [Use(x.s.key, x.s.connectionID, x.s.sendCounter)])
  }

  lemma SealedBox(s: SessionState, payload: Payload, flags: Flags)
    ensures var r := Encode(s, payload, flags).1;
            && (r.Ok? <==> ValidKey(s.key))
            && (r.Ok? ==>
                  && |r.value| > 4 && r.value[4].Sealed? && r.value[4].box.key == s.key
                  && r.value[4].box.nonce == BuildNonce(s.connectionID, s.sendCounter))
  {
  }

  /** The handshake seal that Greet stands for. */
  lemma GreetSeals(p: Primitives, ephPriv: seq<byte>, peerPub: seq<byte>, h: Hello, info: seq<byte>)
    ensures var r := EncodeHandshake(p, ephPriv, peerPub, 0, h, info);
            r.Ok? ==>
              |r.value.0| == 69 && r.value.0[40..] == Ciphertext(Box(r.value.1, BuildNonce(0, 0), PrintHello(h)))
  {
  }

  ghost predicate Feasible(x: Sender, es: seq<Event>)
    decreases |es|
  {
    es == [] || (Allowed(x, es[0]) && Feasible(After(x, es[0]), es[1..]))
  }

  function Run(x: Sender, es: seq<Event>): Sender
    decreases |es|
  {
    if es == [] then x else Run(After(x, es[0]), es[1..])
  }

  ghost predicate Distinct(boxes: seq<Box>) {
    forall i, j | 0 <= i < j < |boxes| :: boxes[i].key != boxes[j].key || boxes[i].nonce != boxes[j].nonce
  }

  ghost predicate UseInv(u: Use, x: Sender) {
    if u.connectionID == 0 then u.counter == 0 && u.key in x.greeted
    else u.key in x.installed && (u.key == x.s.key ==> u.connectionID == x.s.connectionID && u.counter < x.sends)
  }

  ghost predicate Inv(x: Sender) {
    && |x.uses| == |x.boxes|
    && (forall i | 0 <= i < |x.boxes| ::
          x.boxes[i].key == x.uses[i].key && x.boxes[i].nonce == BuildNonce(x.uses[i].connectionID, x.uses[i].counter))
    && (forall i | 0 <= i < |x.uses| :: UseInv(x.uses[i], x))
    && (forall i, j | 0 <= i < j < |x.uses| :: x.uses[i] != x.uses[j])
    && x.s.sendCounter == x.sends % 0x1_0000_0000
    && (if x.s.connectionID == 0 then !ValidKey(x.s.key) else x.s.key in x.installed)
  }

  lemma StepKeepsInv(x: Sender, e: Event)
    requires Inv(x) && Allowed(x, e) && (e.Install? ==> e.connectionID != 0)
    ensures Inv(After(x, e))
  {
    hide Encode, BuildNonce, PrintHello;
    var y := After(x, e);
    match e
    case Greet(key, _) =>
      forall i | 0 <= i < |x.uses| ensures x.uses[i] != Use(key, 0, 0) { assert UseInv(x.uses[i], x); }
    case Install(connectionID, key) =>
      forall i | 0 <= i < |y.uses| ensures UseInv(y.uses[i], y) { assert UseInv(x.uses[i], x); }
    case Send(payload, flags) =>
      SealedBox(x.s, payload, flags);
      EncodeCounts(x.s, payload, flags);
      forall i | 0 <= i < |x.uses|
        ensures UseInv(x.uses[i], y)
        ensures ValidKey(x.s.key) ==> x.uses[i] != Use(x.s.key, x.s.connectionID, x.s.sendCounter)
      {
        assert UseInv(x.uses[i], x);
      }
  }

  lemma EncodeCounts(s: SessionState, payload: Payload, flags: Flags)
    ensures var t := Encode(s, payload, flags).0;
            t.key == s.key && t.connectionID == s.connectionID && t.sendCounter == Succ32(s.sendCounter)
  {
  }

  lemma InvDistinct(x: Sender)
    requires Inv(x)
    ensures Distinct(x.boxes)
  {
    forall i, j | 0 <= i < j < |x.boxes|
      ensures x.boxes[i].key != x.boxes[j].key || x.boxes[i].nonce != x.boxes[j].nonce
    {
      NonceInjective(x.uses[i].connectionID, x.uses[i].counter, x.uses[j].connectionID, x.uses[j].counter);
    }
  }

  lemma {:induction false} RunKeepsInv(x: Sender, es: seq<Event>)
    requires Inv(x) && Feasible(x, es)
    requires forall i | 0 <= i < |es| && es[i].Install? :: es[i].connectionID != 0
    ensures Inv(Run(x, es))
    decreases |es|
  {
    if es != [] {
      StepKeepsInv(x, es[0]);
      RunKeepsInv(After(x, es[0]), es[1..]);
    }
  }

  /** Every id that this sender installs is an answer of the server's allocator. */
  ghost predicate Served(es: seq<Event>, rs: seq<T.Request>) {
    forall i | 0 <= i < |es| && es[i].Install? ::
      exists k :: 0 <= k < |rs| && T.AnswerTo(rs, k).connectionID == es[i].connectionID
  }

  lemma ServedNonzero(es: seq<Event>, rs: seq<T.Request>)
    requires Served(es, rs) && T.Allocated(rs, |rs|) < 0x1_0000_0000
    ensures forall i | 0 <= i < |es| && es[i].Install? :: es[i].connectionID != 0
  {
    hide T.AnswerTo, T.Allocated;
    forall i | 0 <= i < |es| && es[i].Install? ensures es[i].connectionID != 0 {
      var k :| 0 <= k < |rs| && T.AnswerTo(rs, k).connectionID == es[i].connectionID;
      T.AllocatedGrows(rs, k + 1, |rs|);
      T.AnswersNonzero(rs, k);
    }
  }

  lemma NothingSealed(deviceID: uint64)
    ensures Inv(FreshSender(deviceID))
  {
  }

  /** Over any run with a fresh key at every handshake, on ids that the server handed
      out before its allocator wraps: no two boxes of one sender, data or handshake,
      share both key and nonce. */
  lemma NonceUniqueness(deviceID: uint64, es: seq<Event>, rs: seq<T.Request>)
    requires Feasible(FreshSender(deviceID), es)
    requires Served(es, rs) && T.Allocated(rs, |rs|) < 0x1_0000_0000
    ensures Distinct(Run(FreshSender(deviceID), es).boxes)
  {
    hide Feasible, Run;
    ServedNonzero(es, rs);
    NothingSealed(deviceID);
    RunKeepsInv(FreshSender(deviceID), es);
    InvDistinct(Run(FreshSender(deviceID), es));
  }

  // ----- How many frames one key may serve -----

  lemma {:induction false} SendAllCounts(s: SessionState, ps: seq<Payload>, flags: Flags)
    requires s.sendCounter == 0
    ensures var r := SendAll(s, ps, flags);
            && |r.1| == |ps| && r.0.key == s.key && r.0.connectionID == s.connectionID
            && r.0.sendCounter == |ps| % 0x1_0000_0000
  {
    hide Encode;
    if ps != [] {
      var n := |ps| - 1;
      SendAllCounts(s, ps[..n], flags);
      EncodeCounts(SendAll(s, ps[..n], flags).0, ps[n], flags);
    }
  }

  lemma {:induction false} NonceOf(s: SessionState, ps: seq<Payload>, flags: Flags, i: nat)
    requires s.sendCounter == 0 && ValidKey(s.key) && i < |ps|
    ensures |SendAll(s, ps, flags).1| == |ps|
    ensures var r := SendAll(s, ps, flags).1[i];
            r.Ok? && |r.value| > 4 && r.value[4].Sealed?
            && r.value[4].box.nonce == BuildNonce(s.connectionID, i % 0x1_0000_0000)
  {
    var n := |ps| - 1;
    SendAllCounts(s, ps, flags);
    SendAllCounts(s, ps[..n], flags);
    if i < n {
      NonceOf(s, ps[..n], flags, i);
    } else {
      SealedBox(SendAll(s, ps[..n], flags).0, ps[n], flags);
    }
  }

  function FrameNonce(r: Result<Wire, Error>): seq<byte> {
    if r.Ok? && |r.value| > 4 && r.value[4].Sealed? then r.value[4].box.nonce else []
  }

  /** Under one key the frames of a burst carry pairwise different nonces exactly
      when there are at most 2^32 of them. */
  lemma KeyBudgetIff(s: SessionState, ps: seq<Payload>, flags: Flags)
    requires s.sendCounter == 0 && ValidKey(s.key)
    ensures var rs := SendAll(s, ps, flags).1;
            (forall i, j | 0 <= i < j < |rs| :: FrameNonce(rs[i]) != FrameNonce(rs[j])) <==> |ps| <= 0x1_0000_0000
  {
    hide SendAll, BuildNonce;
    var rs := SendAll(s, ps, flags).1;
    SendAllCounts(s, ps, flags);
    if |ps| <= 0x1_0000_0000 {
      forall i, j | 0 <= i < j < |rs| ensures FrameNonce(rs[i]) != FrameNonce(rs[j]) {
        NonceOf(s, ps, flags, i);
        NonceOf(s, ps, flags, j);
        NonceInjective(s.connectionID, i, s.connectionID, j);
      }
    } else {
      NonceOf(s, ps, flags, 0);
      NonceOf(s, ps, flags, 0x1_0000_0000);
      assert FrameNonce(rs[0]) == FrameNonce(rs[0x1_0000_0000]);
    }
  }
}
