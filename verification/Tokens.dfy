/** Which device holds a provisioning token, with an inactivity timeout. */
module Tokens {
  import opened Bytes

  const DEFAULT_INACTIVITY_TTL: int := 30 * 24 * 3600 * 1_000_000_000

  datatype Binding = Binding(deviceID: uint64, boundAt: int, lastSeen: int)

  datatype BindResult = BindAccepted | BindRejected | BindUnknownToken

  /** Known tokens, each with the binding it has, if any. */
  type Bindings = map<string, Option<Binding>>

  // ----- Each call, with the clock as a parameter -----

  function Register(m: Bindings, token: string): Bindings {
    if token in m then m else m[token := None]
  }

  function Bind(m: Bindings, ttl: int, token: string, deviceID: uint64, now: int): (Bindings, BindResult) {
    if token !in m then (m, BindUnknownToken)
    else
      match m[token]
      case None => (m[token := Some(Binding(deviceID, now, now))], BindAccepted)
      case Some(b) =>
        if b.deviceID == deviceID then (m[token := Some(b.(lastSeen := now))], BindAccepted)
        else if now - b.lastSeen > ttl then (m[token := Some(Binding(deviceID, now, now))], BindAccepted)
        else (m, BindRejected)
  }

  function Touched(m: Bindings, token: string, now: int): Bindings {
    if token in m && m[token].Some? then m[token := Some(m[token].value.(lastSeen := now))] else m
  }

  function Revoked(m: Bindings, token: string): Bindings {
    if token in m then m[token := None] else m
  }

  class TokenStore {
    var bindings: Bindings
    const inactivityTTL: int

    constructor (ttl: int)
      ensures bindings == map[] && inactivityTTL == ttl
    {
      bindings := map[];
      inactivityTTL := ttl;
    }

    method RegisterToken(token: string)
      modifies this
      ensures bindings == Register(old(bindings), token)
    {
      if token !in bindings {
        bindings := bindings[token := None];
      }
    }

    method TryBind(token: string, deviceID: uint64, now: int) returns (r: BindResult)
      modifies this
      ensures (bindings, r) == Bind(old(bindings), inactivityTTL, token, deviceID, now)
    {
      if token !in bindings {
        return BindUnknownToken;
      }
      var existing := bindings[token];
      if existing.None? {
        bindings := bindings[token := Some(Binding(deviceID, now, now))];
        return BindAccepted;
      }
      if existing.value.deviceID == deviceID {
        bindings := bindings[token := Some(existing.value.(lastSeen := now))];
        return BindAccepted;
      }
      if now - existing.value.lastSeen > inactivityTTL {
        bindings := bindings[token := Some(Binding(deviceID, now, now))];
        return BindAccepted;
      }
      return BindRejected;
    }

    method Touch(token: string, now: int)
      modifies this
      ensures bindings == Touched(old(bindings), token, now)
    {
      if token in bindings && bindings[token].Some? {
        bindings := bindings[token := Some(bindings[token].value.(lastSeen := now))];
      }
    }

    method Revoke(token: string)
      modifies this
      ensures bindings == Revoked(old(bindings), token)
    {
      if token in bindings {
        bindings := bindings[token := None];
      }
    }
  }

  // ----- Traces -----

  datatype Call =
    | DoRegister(token: string)
    | DoBind(token: string, deviceID: uint64)
    | DoTouch(token: string)
    | DoRevoke(token: string)

  datatype Event = Event(at: int, call: Call)

  function After(m: Bindings, ttl: int, e: Event): Bindings {
    match e.call
    case DoRegister(t) => Register(m, t)
    case DoBind(t, d) => Bind(m, ttl, t, d, e.at).0
    case DoTouch(t) => Touched(m, t, e.at)
    case DoRevoke(t) => Revoked(m, t)
  }

  /** The store before event k of the trace. */
  function Before(ttl: int, es: seq<Event>, k: nat): Bindings
    requires k <= |es|
  {
    if k == 0 then map[] else After(Before(ttl, es, k - 1), ttl, es[k - 1])
  }

  /** Event k is a bind of this token that was accepted. */
  predicate Accepts(ttl: int, es: seq<Event>, k: nat, token: string)
    requires k < |es|
  {
    && es[k].call.DoBind? && es[k].call.token == token
    && Bind(Before(ttl, es, k), ttl, token, es[k].call.deviceID, es[k].at).1 == BindAccepted
  }

  predicate Revokes(es: seq<Event>, k: nat, token: string)
    requires k < |es|
  {
    es[k].call == DoRevoke(token)
  }

  /** The holder of the token was seen at event k: accepted, or touched. */
  predicate Sees(ttl: int, es: seq<Event>, k: nat, token: string)
    requires k < |es|
  {
    es[k].call == DoTouch(token) || Accepts(ttl, es, k, token)
  }

  /** Between an acceptance at i and position k with no revoke and no other
      acceptance in between, the token stays with the device of i, last seen at
      some event from i on. */
  lemma {:induction false} HolderStays(ttl: int, es: seq<Event>, i: nat, k: nat, token: string) returns (l: nat)
    requires i < k <= |es| && Accepts(ttl, es, i, token)
    requires forall x | i < x < k :: !Revokes(es, x, token) && !Accepts(ttl, es, x, token)
    ensures i <= l < k && Sees(ttl, es, l, token)
    ensures forall x | l < x < k :: !Sees(ttl, es, x, token)
    ensures var m := Before(ttl, es, k);
            token in m && m[token].Some?
            && m[token].value.deviceID == es[i].call.deviceID && m[token].value.lastSeen == es[l].at
    decreases k
  {
    if k == i + 1 {
      l := i;
    } else {
      l := HolderStays(ttl, es, i, k - 1, token);
      assert !Revokes(es, k - 1, token) && !Accepts(ttl, es, k - 1, token);
      if es[k - 1].call == DoTouch(token) {
        l := k - 1;
      }
    }
  }

  /** Whatever the clock does: if two acceptances on one token, with none in between,
      are for different devices, then the token was revoked in between, or the
      first device was last accepted or touched more than the timeout ago. */
  lemma Exclusivity(ttl: int, es: seq<Event>, i: nat, j: nat, token: string)
    requires i < j < |es| && Accepts(ttl, es, i, token) && Accepts(ttl, es, j, token)
    requires es[i].call.deviceID != es[j].call.deviceID
    requires forall x | i < x < j :: !Accepts(ttl, es, x, token)
    ensures (exists x :: i < x < j && Revokes(es, x, token))
            || (exists l :: i <= l < j && Sees(ttl, es, l, token) && es[j].at - es[l].at > ttl
                  && forall x | l < x < j :: !Sees(ttl, es, x, token))
  {
    if forall x | i < x < j :: !Revokes(es, x, token) {
      var l := HolderStays(ttl, es, i, j, token);
    }
  }

  /** With a clock that never runs back, nobody else takes a token whose holder was
      seen at any time within the timeout, unless it is revoked. */
  lemma ActiveHolderKeeps(ttl: int, es: seq<Event>, i: nat, l: nat, j: nat, token: string)
    requires i <= l < j < |es| && Accepts(ttl, es, i, token)
    requires forall x | i < x < j :: !Revokes(es, x, token) && !Accepts(ttl, es, x, token)
    requires Sees(ttl, es, l, token) && es[j].at - es[l].at <= ttl
    requires forall x, y | 0 <= x <= y < |es| :: es[x].at <= es[y].at
    requires es[j].call.DoBind? && es[j].call.token == token
    ensures Accepts(ttl, es, j, token) <==> es[j].call.deviceID == es[i].call.deviceID
  {
    var l' := HolderStays(ttl, es, i, j, token);
    assert l <= l';
  }

  /** Whether a bind is accepted, once a device was: exactly when it comes from that
      device, or the device was last seen more than the timeout ago. So a token that
      fell silent can be taken over by any device. */
  lemma TakeoverIff(ttl: int, es: seq<Event>, i: nat, l: nat, j: nat, token: string)
    requires i <= l < j < |es| && Accepts(ttl, es, i, token)
    requires forall x | i < x < j :: !Revokes(es, x, token) && !Accepts(ttl, es, x, token)
    requires Sees(ttl, es, l, token) && forall x | l < x < j :: !Sees(ttl, es, x, token)
    requires es[j].call.DoBind? && es[j].call.token == token
    ensures Accepts(ttl, es, j, token) <==>
            es[j].call.deviceID == es[i].call.deviceID || es[j].at - es[l].at > ttl
  {
    var l' := HolderStays(ttl, es, i, j, token);
    assert l == l';
  }

  /** Since s, the beginning or a revoke, no bind was accepted. */
  predicate FreeSince(ttl: int, es: seq<Event>, s: nat, j: nat, token: string)
    requires s <= j <= |es|
  {
    (s == 0 || Revokes(es, s - 1, token)) && forall x | s <= x < j :: !Accepts(ttl, es, x, token)
  }

  lemma {:induction false} FreeIsUnbound(ttl: int, es: seq<Event>, s: nat, j: nat, token: string)
    requires s <= j <= |es| && FreeSince(ttl, es, s, j, token)
    ensures var m := Before(ttl, es, j); token in m ==> m[token] == None
    decreases j
  {
    if s < j {
      FreeIsUnbound(ttl, es, s, j - 1, token);
      assert !Accepts(ttl, es, j - 1, token);
    }
  }

  /** And as long as no device was: every device is accepted, exactly if the token was
      registered. */
  lemma FreeTokenIff(ttl: int, es: seq<Event>, s: nat, j: nat, token: string)
    requires s <= j < |es| && FreeSince(ttl, es, s, j, token)
    requires es[j].call.DoBind? && es[j].call.token == token
    ensures Accepts(ttl, es, j, token) <==> exists r :: 0 <= r < j && es[r].call == DoRegister(token)
  {
    FreeIsUnbound(ttl, es, s, j, token);
    KnownIffRegistered(ttl, es, j, token);
  }

  /** The time a binding remembers is that of the acceptance at which its device got
      the token: since then it was neither revoked nor accepted for another device,
      and just before it the device did not hold it. */
  lemma {:induction false} BoundSince(ttl: int, es: seq<Event>, k: nat, token: string) returns (i: nat)
    requires k <= |es| && token in Before(ttl, es, k) && Before(ttl, es, k)[token].Some?
    ensures i < k && Accepts(ttl, es, i, token)
    ensures var b := Before(ttl, es, k)[token].value;
            && b.boundAt == es[i].at && b.deviceID == es[i].call.deviceID
            && (forall x | i < x < k && Accepts(ttl, es, x, token) :: es[x].call.deviceID == b.deviceID)
            && var m := Before(ttl, es, i);
               token in m && (m[token].Some? ==> m[token].value.deviceID != b.deviceID)
    ensures forall x | i < x < k :: !Revokes(es, x, token)
  {
    var m := Before(ttl, es, k - 1);
    if Accepts(ttl, es, k - 1, token) && (m[token].None? || m[token].value.deviceID != es[k - 1].call.deviceID) {
      i := k - 1;
    } else {
      i := BoundSince(ttl, es, k - 1, token);
    }
  }

  /** A token is known exactly once it was registered, and stays so. */
  lemma {:induction false} KnownIffRegistered(ttl: int, es: seq<Event>, k: nat, token: string)
    requires k <= |es|
    ensures token in Before(ttl, es, k) <==> exists i :: 0 <= i < k && es[i].call == DoRegister(token)
  {
    if k > 0 {
      KnownIffRegistered(ttl, es, k - 1, token);
      assert es[k - 1].call == DoRegister(token) ==> token in Before(ttl, es, k);
    }
  }

  function Without(es: seq<Event>, k: nat): seq<Event>
    requires k < |es|
  {
    es[..k] + es[k + 1..]
  }

  lemma {:induction false} SamePrefix(ttl: int, es: seq<Event>, es': seq<Event>, k: nat)
    requires k <= |es| && k <= |es'| && es[..k] == es'[..k]
    ensures Before(ttl, es, k) == Before(ttl, es', k)
  {
    if k > 0 {
      assert es[..k - 1] == es[..k][..k - 1] == es'[..k][..k - 1] == es'[..k - 1];
      assert es[k - 1] == es[..k][k - 1] == es'[..k][k - 1] == es'[k - 1];
      SamePrefix(ttl, es, es', k - 1);
    }
  }

  /** Registering a token again can be struck from a trace without a trace: every
      later state of the store, for every token, stays the same. */
  lemma {:induction false} ReRegistrationInvisible(ttl: int, es: seq<Event>, i: nat, k: nat, n: nat, token: string)
    requires i < k < n <= |es| && es[i].call == DoRegister(token) && es[k].call == DoRegister(token)
    ensures Before(ttl, es, n) == Before(ttl, Without(es, k), n - 1)
    decreases n
  {
    if n == k + 1 {
      SamePrefix(ttl, es, Without(es, k), k);
      KnownIffRegistered(ttl, es, k, token);
    } else {
      ReRegistrationInvisible(ttl, es, i, k, n - 1, token);
      assert Without(es, k)[n - 2] == es[n - 1];
    }
  }
}
