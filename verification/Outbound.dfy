/** The outbound socket of one connection: dialled by the first payload, written by
    the next ones, and closed by whoever sees it fail. Every region between two
    acquisitions of the lock is one step, and any number of forwarders, dials and
    pumps may be between two of their steps. */
module Outbound {
  import opened Bytes

  type Socket = nat

  datatype Slot = Slot(outbound: Option<Socket>, connecting: bool)

  datatype Action = Drop | Dial | Send(socket: Socket)

  // ----- The regions under the lock -----

  function Enter(s: Slot): (Slot, Action) {
    match s.outbound
    case Some(c) => (s, Send(c))
    case None => if s.connecting then (s, Drop) else (s.(connecting := true), Dial)
  }

  function Store(s: Slot, c: Socket): Slot {
    Slot(Some(c), false)
  }

  function GiveUpDial(s: Slot): Slot {
    s.(connecting := false)
  }

  class ConnState {
    var outbound: Option<Socket>
    var connecting: bool

    function State(): Slot
      reads this
    {
      Slot(outbound, connecting)
    }

    constructor ()
      ensures State() == Slot(None, false)
    {
      outbound, connecting := None, false;
    }

    /** The head of forwardPayload. */
    method EnterForward() returns (a: Action)
      modifies this
      ensures (State(), a) == Enter(old(State()))
    {
      if outbound.None? {
        if connecting {
          return Drop;
        }
        connecting := true;
        return Dial;
      }
      return Send(outbound.value);
    }

    method StoreDialled(c: Socket)
      modifies this
      ensures State() == Store(old(State()), c)
    {
      outbound := Some(c);
      connecting := false;
    }

    method AbandonDial()
      modifies this
      ensures State() == GiveUpDial(old(State()))
    {
      connecting := false;
    }

    /** The head of closeOutbound: what the caller must close. */
    method TakeOutbound() returns (c: Option<Socket>)
      modifies this
      ensures c == old(outbound) && State() == Slot(None, old(connecting))
    {
      c := outbound;
      outbound := None;
    }
  }

  // ----- One batch of payloads, with no other thread in between -----

  /** One payload; ok tells whether a write succeeds, and a failed one closes the socket. */
  function ForwardOne(s: Slot, ok: bool): (Slot, Action) {
    var r := Enter(s);
    if r.1.Send? && !ok then (r.0.(outbound := None), r.1) else r
  }

  function ForwardMany(s: Slot, n: nat, writes: nat -> bool): (Slot, seq<Action>) {
    if n == 0 then (s, [])
    else
      var before := ForwardMany(s, n - 1, writes);
      var last := ForwardOne(before.0, writes(n - 1));
      (last.0, before.1 + [last.1])
  }

  /** The loop over the payloads that one push made ready. */
  method ForwardBatch(cs: ConnState, payloads: seq<seq<byte>>, writes: nat -> bool) returns (actions: seq<Action>)
    modifies cs
    ensures (cs.State(), actions) == ForwardMany(old(cs.State()), |payloads|, writes)
  {
    actions := [];
    for i := 0 to |payloads|
      invariant (cs.State(), actions) == ForwardMany(old(cs.State()), i, writes)
    {
      var a := cs.EnterForward();
      if a.Send? && !writes(i) {
        var closed := cs.TakeOutbound();
      }
      actions := actions + [a];
    }
  }

  /** The first of n writes that fails, or n. */
  function FirstFailure(n: nat, writes: nat -> bool): (k: nat)
    ensures k <= n
  {
    if n == 0 then 0
    else
      var k := FirstFailure(n - 1, writes);
      if k < n - 1 || !writes(n - 1) then k else n
  }

  /** What becomes of each payload of a batch. With a socket stored they are written
      to it up to the first failure, the one behind the failure is taken for a new
      CONNECT, and the rest is dropped. With none stored the first is the CONNECT and
      everything pushed along with it is dropped; with a dial under way all of it is. */
  lemma {:induction false} BatchOutcome(s: Slot, n: nat, writes: nat -> bool)
    requires s.connecting ==> s.outbound == None
    ensures var actions, k := ForwardMany(s, n, writes).1, FirstFailure(n, writes);
            && |actions| == n
            && forall i | 0 <= i < n ::
                 actions[i] == if s.outbound.Some? then
                                 (if i <= k then Send(s.outbound.value) else if i == k + 1 then Dial else Drop)
                               else if i == 0 && !s.connecting then Dial else Drop
    ensures var t, k := ForwardMany(s, n, writes).0, FirstFailure(n, writes);
            t == if s.outbound.Some? then (if k == n then s else Slot(None, k + 1 < n))
                 else Slot(None, s.connecting || n > 0)
  {
    if n > 0 {
      BatchOutcome(s, n - 1, writes);
    }
  }

  // ----- All threads together -----

  datatype Forwarder = Writing(socket: Socket, payload: seq<byte>) | Broken

  datatype Machine = Machine(
    slot: Slot,
    forwarders: map<nat, Forwarder>,   // between entering and leaving forwardPayload
    dials: map<nat, bool>,             // dials in flight; true once the error was reported
    announcing: set<Socket>,           // stored, "OK CONNECTED" not queued yet
    pumps: set<Socket>,
    closing: set<Socket>,              // taken out of the slot, not closed yet
    closed: seq<Socket>,
    sockets: nat,                      // sockets stored so far, numbered from 0
    awaiting: bool,                    // the client waits for the answer to a CONNECT
    announced: bool,                   // "OK CONNECTED" was queued for the first socket
    data: seq<byte>,                   // what was forwarded since then
    written: seq<byte>)                // what was written to the first socket

  datatype Event =
    | Forward(t: nat, payload: seq<byte>)
    | Write(t: nat, n: nat, ok: bool)
    | Abandon(t: nat)
    | Connected(d: nat)
    | Announce(c: Socket)
    | Report(d: nat)
    | GiveUp(d: nat)
    | PumpEnd(c: Socket)
    | Close(c: Socket)

  function Initial(): Machine {
    Machine(Slot(None, false), map[], map[], {}, {}, {}, [], 0, false, false, [], [])
  }

  predicate Enabled(m: Machine, e: Event) {
    match e
    case Forward(t, _) => t !in m.forwarders && t !in m.dials
    case Write(t, n, ok) =>
      t in m.forwarders && m.forwarders[t].Writing? && n <= |m.forwarders[t].payload|
      && (ok ==> n == |m.forwarders[t].payload|)
    case Abandon(t) => t in m.forwarders && m.forwarders[t].Broken?
    case Connected(d) => d in m.dials && !m.dials[d]
    case Announce(c) => c in m.announcing
    case Report(d) => d in m.dials && !m.dials[d]
    case GiveUp(d) => d in m.dials && m.dials[d]
    case PumpEnd(c) => c in m.pumps
    case Close(c) => c in m.closing
  }

  function CloseOutbound(m: Machine): Machine {
    m.(slot := m.slot.(outbound := None),
       closing := m.closing + (if m.slot.outbound.Some? then {m.slot.outbound.value} else {}))
  }

  function Next(m: Machine, e: Event): Machine
    requires Enabled(m, e)
  {
    match e
    case Forward(t, payload) =>
      var r := Enter(m.slot);
      var m' := m.(slot := r.0, data := if m.announced then m.data + payload else m.data, awaiting := !m.announced);
      (match r.1
       case Drop => m'
       case Dial => m'.(dials := m.dials[t := false])
       case Send(c) => m'.(forwarders := m.forwarders[t := Writing(c, payload)]))
    case Write(t, n, ok) =>
      var w := m.forwarders[t];
      m.(written := if w.socket == 0 then m.written + w.payload[..n] else m.written,
         forwarders := if ok then m.forwarders - {t} else m.forwarders[t := Broken])
    case Abandon(t) => CloseOutbound(m).(forwarders := m.forwarders - {t})
    case Connected(d) =>
      m.(slot := Store(m.slot, m.sockets), dials := m.dials - {d},
         announcing := m.announcing + {m.sockets}, sockets := m.sockets + 1)
    case Announce(c) =>
      m.(announcing := m.announcing - {c}, pumps := m.pumps + {c}, announced := true, awaiting := false)
    case Report(d) => m.(dials := m.dials[d := true], awaiting := false)
    case GiveUp(d) => m.(slot := GiveUpDial(m.slot), dials := m.dials - {d})
    case PumpEnd(c) => CloseOutbound(m).(pumps := m.pumps - {c})
    case Close(c) => m.(closing := m.closing - {c}, closed := m.closed + [c])
  }

  predicate Feasible(m: Machine, es: seq<Event>)
    decreases |es|
  {
    es == [] || (Enabled(m, es[0]) && Feasible(Next(m, es[0]), es[1..]))
  }

  function Run(m: Machine, es: seq<Event>): Machine
    requires Feasible(m, es)
    decreases |es|
  {
    if es == [] then m else Run(Next(m, es[0]), es[1..])
  }

  // ----- One dial, one socket, one close -----

  ghost predicate Inv(m: Machine) {
    && (m.slot.connecting <==> m.dials != map[])
    && (forall d, d' | d in m.dials && d' in m.dials :: d == d')
    && (m.slot.connecting ==> m.slot.outbound == None)
    && (m.slot.outbound.Some? ==> m.slot.outbound.value == m.sockets - 1 && m.slot.outbound.value !in m.closing
                                  && m.slot.outbound.value !in m.closed)
    && (forall c | c in m.closing :: c < m.sockets && c !in m.closed)
    && (forall c | c in m.closed :: c < m.sockets)
    && (forall i, j | 0 <= i < j < |m.closed| :: m.closed[i] != m.closed[j])
    && (forall c | c in m.announcing || c in m.pumps :: c < m.sockets)
    && (forall t | t in m.forwarders && m.forwarders[t].Writing? :: m.forwarders[t].socket < m.sockets)
  }

  lemma StepKeepsInv(m: Machine, e: Event)
    requires Inv(m) && Enabled(m, e)
    ensures Inv(Next(m, e))
  {
    var m' := Next(m, e);
    match e
    case Forward(t, _) =>
      if Enter(m.slot).1.Dial? { assert t in m'.dials; }
    case Connected(d) => assert m'.dials == map[];
    case GiveUp(d) => assert m'.dials == map[];
    case Report(d) => assert d in m'.dials;
    case _ =>
  }

  lemma {:induction false} RunKeepsInv(m: Machine, es: seq<Event>)
    requires Inv(m) && Feasible(m, es)
    ensures Inv(Run(m, es))
    decreases |es|
  {
    if es != [] {
      StepKeepsInv(m, es[0]);
      RunKeepsInv(Next(m, es[0]), es[1..]);
    }
  }

  /** Over all interleavings: at most one dial is in flight, and none while a socket
      is stored, so that storing never overwrites a socket; and no socket is closed
      twice, nor closed while it is stored. */
  lemma OneDialOneClose(es: seq<Event>)
    requires Feasible(Initial(), es)
    ensures var m := Run(Initial(), es);
            && |m.dials| <= 1
            && (m.slot.connecting ==> m.slot.outbound == None)
            && (forall d | Enabled(m, Connected(d)) :: m.slot.outbound == None)
            && (forall i, j | 0 <= i < j < |m.closed| :: m.closed[i] != m.closed[j])
            && (m.slot.outbound.Some? ==> m.slot.outbound.value !in m.closed)
  {
    RunKeepsInv(Initial(), es);
    var m := Run(Initial(), es);
    if m.dials != map[] {
      var d :| d in m.dials;
      assert m.dials.Keys == {d};
    }
  }

  /** Every socket stored so far is still stored, about to be closed, or closed. */
  ghost predicate NoLeak(m: Machine) {
    forall c | 0 <= c < m.sockets :: m.slot.outbound == Some(c) || c in m.closing || c in m.closed
  }

  lemma {:induction false} NothingLeaks(m: Machine, es: seq<Event>)
    requires Inv(m) && NoLeak(m) && Feasible(m, es)
    ensures NoLeak(Run(m, es))
    decreases |es|
  {
    if es != [] {
      StepKeepsInv(m, es[0]);
      StepLeaksNothing(m, es[0]);
      NothingLeaks(Next(m, es[0]), es[1..]);
    }
  }

  lemma StepLeaksNothing(m: Machine, e: Event)
    requires Inv(m) && NoLeak(m) && Enabled(m, e)
    ensures NoLeak(Next(m, e))
  {
    if e.Close? { assert e.c in Next(m, e).closed; }
  }

  /** Over all interleavings no socket is ever lost: once no caller is about to close
      one, every socket but the stored one was closed, and exactly once. */
  lemma EverySocketIsClosed(es: seq<Event>, c: Socket)
    requires Feasible(Initial(), es) && Run(Initial(), es).closing == {} && c < Run(Initial(), es).sockets
    ensures var m := Run(Initial(), es); m.slot.outbound != Some(c) <==> multiset(m.closed)[c] == 1
    ensures multiset(Run(Initial(), es).closed)[c] <= 1
  {
    RunKeepsInv(Initial(), es);
    NothingLeaks(Initial(), es);
    CountsOnce(Run(Initial(), es).closed, c);
  }

  lemma {:induction false} CountsOnce(cs: seq<Socket>, c: Socket)
    requires forall i, j | 0 <= i < j < |cs| :: cs[i] != cs[j]
    ensures multiset(cs)[c] == if c in cs then 1 else 0
  {
    if cs != [] {
      var n := |cs| - 1;
      CountsOnce(cs[..n], c);
      assert cs == cs[..n] + [cs[n]];
    }
  }

  // ----- What reaches the first socket -----

  /** One push at a time, and a client that waits for the answer to its CONNECT. */
  predicate Patient(m: Machine, e: Event) {
    e.Forward? ==> m.forwarders == map[] && !m.awaiting
  }

  predicate PatientRun(m: Machine, es: seq<Event>)
    requires Feasible(m, es)
    decreases |es|
  {
    es == [] || (Patient(m, es[0]) && PatientRun(Next(m, es[0]), es[1..]))
  }

  ghost predicate StreamInv(m: Machine) {
    && (forall t, t' | t in m.forwarders && t' in m.forwarders :: t == t')
    && m.written <= m.data && (m.announced ==> m.sockets >= 1)
    && (!m.announced ==> m.data == [] && m.forwarders == map[] && m.sockets <= 1
                         && (m.sockets == 1 ==> m.awaiting && 0 in m.announcing && m.dials == map[]))
    && (!m.announced && !m.awaiting ==> forall d | d in m.dials :: m.dials[d])
    && (m.slot.outbound == Some(0) && m.forwarders == map[] ==> m.written == m.data)
    && (forall t | t in m.forwarders && m.forwarders[t].Writing? && m.forwarders[t].socket == 0 ::
          m.data == m.written + m.forwarders[t].payload)
  }

  lemma StepKeepsStream(m: Machine, e: Event)
    requires Inv(m) && StreamInv(m) && Enabled(m, e) && Patient(m, e)
    ensures StreamInv(Next(m, e))
  {
    var m' := Next(m, e);
    match e
    case Forward(t, payload) => assert m.data <= m.data + payload;
    case Write(t, n, ok) =>
      assert m'.forwarders == if ok then map[] else map[t := Broken];
    case Abandon(t) => assert m'.forwarders == map[];
    case Connected(d) => assert m'.dials == map[];
    case Report(d) => assert forall d' | d' in m'.dials :: d' == d;
    case _ =>
  }

  lemma {:induction false} RunKeepsStream(m: Machine, es: seq<Event>)
    requires Inv(m) && StreamInv(m) && Feasible(m, es) && PatientRun(m, es)
    ensures StreamInv(Run(m, es))
    decreases |es|
  {
    if es != [] {
      StepKeepsInv(m, es[0]);
      StepKeepsStream(m, es[0]);
      RunKeepsStream(Next(m, es[0]), es[1..]);
    }
  }

  /** With one push at a time and a client that waits, the bytes written to the first
      socket are always a prefix of the bytes pushed since "OK CONNECTED", and all of
      them whenever that socket is stored and no write is under way. */
  lemma FirstSocketGetsPrefix(es: seq<Event>)
    requires Feasible(Initial(), es) && PatientRun(Initial(), es)
    ensures var m := Run(Initial(), es);
            m.written <= m.data && (m.slot.outbound == Some(0) && m.forwarders == map[] ==> m.written == m.data)
  {
    RunKeepsStream(Initial(), es);
  }

  // ----- A CONNECT that nobody answers -----

  /** A payload is dropped exactly while a dial is in flight. */
  lemma DroppedIff(es: seq<Event>, t: nat, payload: seq<byte>)
    requires Feasible(Initial(), es) && Enabled(Run(Initial(), es), Forward(t, payload))
    ensures var m := Run(Initial(), es); Enter(m.slot).1.Drop? <==> m.dials != map[]
  {
    RunKeepsInv(Initial(), es);
  }

  /** So the CONNECT of a client that waits is dropped exactly when it falls between
      the report of an error and the clearing of the flag. */
  lemma RetryDroppedIff(es: seq<Event>, t: nat, payload: seq<byte>)
    requires Feasible(Initial(), es) && PatientRun(Initial(), es) && !Run(Initial(), es).announced
    requires Enabled(Run(Initial(), es), Forward(t, payload)) && Patient(Run(Initial(), es), Forward(t, payload))
    ensures var m := Run(Initial(), es); Enter(m.slot).1.Drop? <==> exists d :: d in m.dials && m.dials[d]
  {
    DroppedIff(es, t, payload);
    RunKeepsInv(Initial(), es);
    RunKeepsStream(Initial(), es);
    var m := Run(Initial(), es);
    if m.dials != map[] {
      var d :| d in m.dials;
      assert m.dials[d];
    }
  }

  /** The client waits, and no thread is left that could answer it. */
  ghost predicate Stranded(m: Machine) {
    && m.awaiting && !m.announced && m.announcing == {} && m.forwarders == map[]
    && forall d | d in m.dials :: m.dials[d]
  }

  /** Sending a CONNECT strands the client exactly when the CONNECT is dropped. */
  lemma StrandedIff(es: seq<Event>, t: nat, payload: seq<byte>)
    requires Feasible(Initial(), es) && PatientRun(Initial(), es) && !Run(Initial(), es).announced
    requires Enabled(Run(Initial(), es), Forward(t, payload)) && Patient(Run(Initial(), es), Forward(t, payload))
    ensures var m := Run(Initial(), es); Stranded(Next(m, Forward(t, payload))) <==> Enter(m.slot).1.Drop?
  {
    RunKeepsInv(Initial(), es);
    RunKeepsStream(Initial(), es);
    var m := Run(Initial(), es);
    var m' := Next(m, Forward(t, payload));
    if Enter(m.slot).1.Dial? { assert t in m'.dials && !m'.dials[t]; }
  }

  /** And from then on it waits for ever, whatever else happens. */
  lemma {:induction false} StrandedForEver(m: Machine, es: seq<Event>)
    requires Stranded(m) && Feasible(m, es) && PatientRun(m, es)
    ensures Stranded(Run(m, es))
    decreases |es|
  {
    if es != [] {
      assert Stranded(Next(m, es[0]));
      StrandedForEver(Next(m, es[0]), es[1..]);
    }
  }

  ghost predicate PatientlyReaches(es: seq<Event>, m: Machine) {
    Feasible(Initial(), es) && PatientRun(Initial(), es) && m == Run(Initial(), es)
  }

  lemma Extend(es: seq<Event>, m: Machine, e: Event) returns (es': seq<Event>, m': Machine)
    requires PatientlyReaches(es, m) && Enabled(m, e) && Patient(m, e)
    ensures PatientlyReaches(es', m') && es' == es + [e] && m' == Next(m, e)
  {
    es', m' := es + [e], Next(m, e);
    RunOneMore(Initial(), es, e);
  }

  lemma {:induction false} RunOneMore(m: Machine, es: seq<Event>, e: Event)
    requires Feasible(m, es) && PatientRun(m, es) && Enabled(Run(m, es), e) && Patient(Run(m, es), e)
    ensures Feasible(m, es + [e]) && PatientRun(m, es + [e]) && Run(m, es + [e]) == Next(Run(m, es), e)
    decreases |es|
  {
    if es == [] {
      assert ([] + [e])[1..] == [];
    } else {
      assert (es + [e])[1..] == es[1..] + [e];
      RunOneMore(Next(m, es[0]), es[1..], e);
    }
  }

  /** It does happen: the error is queued before the flag is cleared, and the client
      retries in between. */
  lemma RetryCanBeDropped(first: seq<byte>, retry: seq<byte>) returns (es: seq<Event>, m: Machine)
    ensures es == [Forward(0, first), Report(0), Forward(1, retry), GiveUp(0)]
    ensures PatientlyReaches(es, m) && m.slot == Slot(None, false) && m.dials == map[] && Stranded(m)
  {
    hide Feasible, PatientRun, Run;
    es, m := FromStart();
    es, m := Extend(es, m, Forward(0, first));
    es, m := Extend(es, m, Report(0));
    es, m := Extend(es, m, Forward(1, retry));
    es, m := Extend(es, m, GiveUp(0));
    assert m.dials == map[];
  }

  lemma FromStart() returns (es: seq<Event>, m: Machine)
    ensures es == [] && m == Initial() && PatientlyReaches(es, m)
  {
    es, m := [], Initial();
  }

  // ----- A pump that closes a socket not its own -----

  function Connects(es: seq<Event>): nat {
    if es == [] then 0 else (if es[0].Connected? then 1 else 0) + Connects(es[1..])
  }

  lemma {:induction false} SocketsAreConnects(m: Machine, es: seq<Event>)
    requires Feasible(m, es)
    ensures Run(m, es).sockets == m.sockets + Connects(es)
    decreases |es|
  {
    if es != [] {
      SocketsAreConnects(Next(m, es[0]), es[1..]);
    }
  }

  /** A pump that ends while a socket is stored closes that socket; over every run it
      is a socket other than the pump's own exactly when a dial connected since. */
  lemma PumpClosesForeignIff(es: seq<Event>, c: Socket)
    requires Feasible(Initial(), es) && Enabled(Run(Initial(), es), PumpEnd(c))
    requires Run(Initial(), es).slot.outbound.Some?
    ensures var m := Run(Initial(), es);
            var m' := Next(m, PumpEnd(c));
            && m'.slot.outbound == None && m'.closing == m.closing + {m.slot.outbound.value}
            && (m.slot.outbound.value != c <==> c + 1 < Connects(es))
  {
    RunKeepsInv(Initial(), es);
    SocketsAreConnects(Initial(), es);
  }

  /** It does happen, to a client that waits: after a failed write and a second
      CONNECT the pump of socket 0 ends and closes socket 1. */
  lemma PumpClosesForeign(first: seq<byte>, lost: seq<byte>, again: seq<byte>) returns (es: seq<Event>, m: Machine)
    ensures PatientlyReaches(es, m) && Connects(es) == 2
    ensures m.slot.outbound == Some(1) && Enabled(m, PumpEnd(0))
    ensures Next(m, PumpEnd(0)).slot.outbound == None && 1 in Next(m, PumpEnd(0)).closing
  {
    hide Feasible, PatientRun, Run;
    es, m := FromStart();
    es, m := Extend(es, m, Forward(0, first));
    es, m := Extend(es, m, Connected(0));
    assert m.dials == map[];
    es, m := Extend(es, m, Announce(0));
    es, m := Extend(es, m, Forward(0, lost));
    es, m := Extend(es, m, Write(0, 0, false));
    es, m := Extend(es, m, Abandon(0));
    assert m.forwarders == map[];
    es, m := Extend(es, m, Forward(1, again));
    es, m := Extend(es, m, Connected(1));
    TwoSockets(es, m);
  }

  lemma TwoSockets(es: seq<Event>, m: Machine)
    requires PatientlyReaches(es, m)
    ensures Connects(es) == m.sockets
  {
    SocketsAreConnects(Initial(), es);
  }
}
