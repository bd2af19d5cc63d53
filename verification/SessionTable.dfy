/** The server's connection ids: who gets a new one and who resumes an old one. */
module SessionTable {
  import opened Bytes
  import opened Session

  datatype Table = Table(conns: map<uint32, SessionState>, nextConnID: uint32)

  datatype Request = Request(deviceID: uint64, requested: uint32, key: seq<byte>)

  datatype Answer = Answer(connectionID: uint32, keyConfirmed: bool)

  /** connection id 0 is reserved for "no connection yet". */
  function Empty(): Table {
    Table(map[], 1)
  }

  predicate Resumable(t: Table, r: Request) {
    r.requested != 0 && r.requested in t.conns && t.conns[r.requested].deviceID == r.deviceID
  }

  /** A handshake that passed the token check. */
  function Admit(t: Table, r: Request): (Table, Answer) {
    if Resumable(t, r) then
      (t.(conns := t.conns[r.requested := Rekey(t.conns[r.requested], r.requested, r.key)]), Answer(r.requested, true))
    else
      var id := t.nextConnID;
      (Table(t.conns[id := Rekey(Fresh(r.deviceID), id, r.key)], Succ32(id)), Answer(id, false))
  }

  // ----- Whole runs -----

  function Before(rs: seq<Request>, k: nat): Table
    requires k <= |rs|
  {
    if k == 0 then Empty() else Admit(Before(rs, k - 1), rs[k - 1]).0
  }

  function AnswerTo(rs: seq<Request>, k: nat): Answer
    requires k < |rs|
  {
    Admit(Before(rs, k), rs[k]).1
  }

  /** How many ids the first k requests used up. */
  function Allocated(rs: seq<Request>, k: nat): nat
    requires k <= |rs|
  {
    if k == 0 then 0 else Allocated(rs, k - 1) + (if AnswerTo(rs, k - 1).keyConfirmed then 0 else 1)
  }

  /** The ids 1..n are in use and n + 1 is next. */
  ghost predicate Counts(t: Table, n: nat) {
    && t.nextConnID == (n + 1) % 0x1_0000_0000
    && forall id: uint32 :: id in t.conns <==> 1 <= id <= n
  }

  lemma AdmitCounts(t: Table, r: Request, n: nat)
    requires Counts(t, n)
    ensures var a := Admit(t, r);
            if a.1.keyConfirmed then Counts(a.0, n) else n + 1 < 0x1_0000_0000 ==> Counts(a.0, n + 1)
  {
    hide Rekey, Fresh;
  }

  /** Until the 32-bit id wraps, the ids in use are 1, 2, ..., in order of allocation. */
  lemma {:induction false} IdsInUse(rs: seq<Request>, k: nat)
    requires k <= |rs| && Allocated(rs, k) < 0x1_0000_0000
    ensures Counts(Before(rs, k), Allocated(rs, k))
  {
    hide Admit, Counts;
    if k > 0 {
      IdsInUse(rs, k - 1);
      AdmitCounts(Before(rs, k - 1), rs[k - 1], Allocated(rs, k - 1));
    } else {
      NoneInUse();
    }
  }

  lemma NoneInUse()
    ensures Counts(Empty(), 0)
  {
  }

  lemma {:induction false} AllocatedGrows(rs: seq<Request>, i: nat, k: nat)
    requires i <= k <= |rs|
    ensures Allocated(rs, i) <= Allocated(rs, k)
    decreases k
  {
    if i < k {
      AllocatedGrows(rs, i, k - 1);
    }
  }

  /** Before the wrap every new id is nonzero and was not in use. */
  lemma NewIdIsNew(rs: seq<Request>, k: nat)
    requires k < |rs| && Allocated(rs, k + 1) < 0x1_0000_0000 && !AnswerTo(rs, k).keyConfirmed
    ensures AnswerTo(rs, k).connectionID == Allocated(rs, k) + 1
    ensures AnswerTo(rs, k).connectionID != 0 && AnswerTo(rs, k).connectionID !in Before(rs, k).conns
  {
    IdsInUse(rs, k);
  }

  /** Before the wrap no handshake is ever answered with id 0. */
  lemma AnswersNonzero(rs: seq<Request>, k: nat)
    requires k < |rs| && Allocated(rs, k + 1) < 0x1_0000_0000
    ensures AnswerTo(rs, k).connectionID != 0
  {
    if !AnswerTo(rs, k).keyConfirmed {
      NewIdIsNew(rs, k);
    }
  }

  /** Two new ids of one run are different and nonzero. */
  lemma NewIdsDistinct(rs: seq<Request>, i: nat, k: nat)
    requires i < k < |rs| && Allocated(rs, k + 1) < 0x1_0000_0000
    requires !AnswerTo(rs, i).keyConfirmed && !AnswerTo(rs, k).keyConfirmed
    ensures AnswerTo(rs, i).connectionID != AnswerTo(rs, k).connectionID
    ensures AnswerTo(rs, i).connectionID != 0 && AnswerTo(rs, k).connectionID != 0
  {
    AllocatedGrows(rs, i + 1, k);
    NewIdIsNew(rs, i);
    NewIdIsNew(rs, k);
  }

  /** A connection stays in the table and never changes its device. */
  lemma {:induction false} DeviceNeverChanges(rs: seq<Request>, i: nat, k: nat, id: uint32)
    requires i <= k <= |rs| && Allocated(rs, k) < 0x1_0000_0000 && id in Before(rs, i).conns
    ensures id in Before(rs, k).conns && Before(rs, k).conns[id].deviceID == Before(rs, i).conns[id].deviceID
    decreases k
  {
    if i < k {
      DeviceNeverChanges(rs, i, k - 1, id);
      if !AnswerTo(rs, k - 1).keyConfirmed {
        NewIdIsNew(rs, k - 1);
      }
    }
  }

  /** The id was handed to the device as a new one at request i. */
  predicate Issued(rs: seq<Request>, i: nat, id: uint32, deviceID: uint64)
    requires i < |rs|
  {
    AnswerTo(rs, i) == Answer(id, false) && rs[i].deviceID == deviceID
  }

  lemma {:induction false} EveryIdWasIssued(rs: seq<Request>, k: nat, id: uint32)
    requires k <= |rs| && Allocated(rs, k) < 0x1_0000_0000 && id in Before(rs, k).conns
    ensures exists i :: 0 <= i < k && Issued(rs, i, id, Before(rs, k).conns[id].deviceID)
  {
    if id in Before(rs, k - 1).conns {
      EveryIdWasIssued(rs, k - 1, id);
      DeviceNeverChanges(rs, k - 1, k, id);
    } else {
      assert Issued(rs, k - 1, id, rs[k - 1].deviceID);
    }
  }

  lemma IssuedStays(rs: seq<Request>, i: nat, k: nat, id: uint32, deviceID: uint64)
    requires i < k <= |rs| && Allocated(rs, k) < 0x1_0000_0000 && Issued(rs, i, id, deviceID)
    ensures id != 0 && id in Before(rs, k).conns && Before(rs, k).conns[id].deviceID == deviceID
  {
    AllocatedGrows(rs, i + 1, k);
    NewIdIsNew(rs, i);
    DeviceNeverChanges(rs, i + 1, k, id);
  }

  lemma ConfirmedIff(rs: seq<Request>, k: nat)
    requires k < |rs|
    ensures AnswerTo(rs, k).keyConfirmed <==> Resumable(Before(rs, k), rs[k])
    ensures AnswerTo(rs, k).keyConfirmed ==> AnswerTo(rs, k).connectionID == rs[k].requested
  {
  }

  /** A request is resumed, and told so, exactly when the id it asks for was issued
      to the same device earlier in the run. */
  lemma ResumedIff(rs: seq<Request>, k: nat)
    requires k < |rs| && Allocated(rs, k) < 0x1_0000_0000
    ensures AnswerTo(rs, k).keyConfirmed <==> exists i :: 0 <= i < k && Issued(rs, i, rs[k].requested, rs[k].deviceID)
    ensures AnswerTo(rs, k).keyConfirmed ==> AnswerTo(rs, k).connectionID == rs[k].requested
  {
    hide Before, AnswerTo, Allocated, Issued;
    ConfirmedIff(rs, k);
    if AnswerTo(rs, k).keyConfirmed {
      EveryIdWasIssued(rs, k, rs[k].requested);
    }
    if i :| 0 <= i < k && Issued(rs, i, rs[k].requested, rs[k].deviceID) {
      IssuedStays(rs, i, k, rs[k].requested, rs[k].deviceID);
    }
  }

  // ----- What a handshake leaves in its session -----

  /** The session that request k was answered with, field by field: the answered id,
      the request's device and key, both restarted; the stream runs on exactly when
      the request was resumed. */
  lemma HandshakeEffect(rs: seq<Request>, k: nat)
    requires k < |rs|
    ensures var a, before, after := AnswerTo(rs, k), Before(rs, k).conns, Before(rs, k + 1).conns;
            && a.connectionID in after && (a.keyConfirmed ==> a.connectionID in before)
            && var s := after[a.connectionID];
               && s.connectionID == a.connectionID && s.deviceID == rs[k].deviceID && s.key == rs[k].key
               && s.phase == Active && s.sendCounter == 0 && s.accepted == {}
               && (if a.keyConfirmed
                   then s.sendSequence == before[a.connectionID].sendSequence
                        && s.buffer == before[a.connectionID].buffer
                   else s.sendSequence == 0 && s.buffer.next == 0 && s.buffer.pending == map[] && s.buffer.started)
  {
  }

  /** A session sits under its own id, holds the key of the last handshake that was
      answered with that id, and has not been touched by any other one since. */
  lemma {:induction false} SessionHoldsItsId(rs: seq<Request>, k: nat, id: uint32) returns (i: nat)
    requires k <= |rs| && id in Before(rs, k).conns
    ensures i < k && AnswerTo(rs, i).connectionID == id
    ensures forall x | i < x < k :: AnswerTo(rs, x).connectionID != id
    ensures var s := Before(rs, k).conns[id];
            && s.connectionID == id && s.deviceID == rs[i].deviceID && s.key == rs[i].key && s.phase == Active
            && id in Before(rs, i + 1).conns && s == Before(rs, i + 1).conns[id]
  {
    hide Rekey, Fresh;
    if AnswerTo(rs, k - 1).connectionID == id {
      i := k - 1;
      HandshakeEffect(rs, k - 1);
    } else {
      i := SessionHoldsItsId(rs, k - 1, id);
    }
  }

  /** Even after the wrap, a request without an id never resumes anything. */
  lemma OpenNeverResumes(rs: seq<Request>, k: nat)
    requires k < |rs| && rs[k].requested == 0
    ensures !AnswerTo(rs, k).keyConfirmed && AnswerTo(rs, k).connectionID == Before(rs, k).nextConnID
  {
  }

  /** Before the wrap, a device that asks for an id it was answered with, as a new one
      or as a resumed one, is resumed. */
  lemma AnswerCanBeResumed(rs: seq<Request>, i: nat, k: nat)
    requires i < k < |rs| && Allocated(rs, k) < 0x1_0000_0000
    requires rs[k].deviceID == rs[i].deviceID && rs[k].requested == AnswerTo(rs, i).connectionID
    ensures AnswerTo(rs, k) == Answer(AnswerTo(rs, i).connectionID, true)
  {
    hide Rekey, Fresh;
    AllocatedGrows(rs, i + 1, k);
    AnswersNonzero(rs, i);
    HandshakeEffect(rs, i);
    DeviceNeverChanges(rs, i + 1, k, AnswerTo(rs, i).connectionID);
  }

  // ----- The wrap -----

  predicate AllNew(rs: seq<Request>) {
    forall i | 0 <= i < |rs| :: rs[i].requested == 0
  }

  lemma {:induction false} NewIdsCount(rs: seq<Request>, k: nat)
    requires k <= |rs| && AllNew(rs)
    ensures Before(rs, k).nextConnID == (k + 1) % 0x1_0000_0000
  {
    hide Rekey, Fresh;
    if k > 0 {
      NewIdsCount(rs, k - 1);
    }
  }

  /** In a run of opens the ids are pairwise different and nonzero exactly when
      there are fewer than 2^32 of them; the next one is the reserved id 0. */
  lemma WrapIff(rs: seq<Request>)
    requires AllNew(rs)
    ensures (forall i | 0 <= i < |rs| :: AnswerTo(rs, i).connectionID != 0)
            && (forall i, j | 0 <= i < j < |rs| :: AnswerTo(rs, i).connectionID != AnswerTo(rs, j).connectionID)
            <==> |rs| < 0x1_0000_0000
  {
    forall i | 0 <= i < |rs| ensures AnswerTo(rs, i).connectionID == (i + 1) % 0x1_0000_0000 {
      NewIdsCount(rs, i);
    }
    if |rs| >= 0x1_0000_0000 {
      assert AnswerTo(rs, 0xFFFF_FFFF).connectionID == 0;
    }
  }
}
