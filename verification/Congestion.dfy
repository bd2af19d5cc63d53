/** The burst/baseline congestion controller: window, burst penalty, block size and
    timeout. The floating-point penalty and growth factors are exact reals. */
module Congestion {
  import Rtt

  const W_BASELINE := 2
  const W_BURST_TARGET := 8
  const W_BURST_ABS_MAX := 10
  const BURST_TIMEOUT := 1_500_000_000

  const BLOCK_MIN := 4096
  const BLOCK_SOFT_TARGET := 16384
  const BLOCK_SOFT_MAX := 24576
  const BLOCK_SHRINK_STEP := 4096

  const MIN_TIMEOUT := 500_000_000
  const MAX_TIMEOUT := 10_000_000_000

  const CEILING_PENALTY_FACTOR := 0.8
  const CEILING_RECOVERY_STEP := 0.05
  const PENALTY_FLOOR := 0.2
  const CLEAN_BURSTS_TO_RECOVER := 4
  const CLEAN_TX_STREAK_FOR_GROWTH := 25
  const BLOCK_GROWTH_FACTOR := 1.1

  datatype Control = Control(
    window: nat, inBurst: bool, burstStarted: int, penalty: real, cleanBursts: nat,
    block: nat, cleanTx: nat, rtt: Rtt.Estimate)

  datatype Event =
    | QueueNonEmpty(now: int)
    | QueueEmpty
    | BurstPoll(now: int)
    | TimeoutOrServerError
    | IncompleteResponse
    | Success(rtt: int)

  // ----- Each event -----

  function Initial(): (c: Control)
    ensures Safe(c)
  {
    Control(W_BASELINE, false, 0, 1.0, 0, BLOCK_SOFT_TARGET, 0, Rtt.Unset)
  }

  /** The window a burst jumps to, uint32(float) truncating. */
  function BurstWindow(penalty: real): nat
    requires penalty >= 0.0
  {
    var w := ((W_BURST_TARGET as real) * penalty).Floor;
    if w < W_BASELINE then W_BASELINE else if w > W_BURST_ABS_MAX then W_BURST_ABS_MAX else w
  }

  function EndBurst(c: Control, clean: bool): Control {
    var d := c.(inBurst := false, window := W_BASELINE);
    if !clean then d
    else if c.cleanBursts + 1 >= CLEAN_BURSTS_TO_RECOVER && c.penalty < 1.0 then
      var p := c.penalty + CEILING_RECOVERY_STEP;
      d.(penalty := if p > 1.0 then 1.0 else p, cleanBursts := 0)
    else d.(cleanBursts := c.cleanBursts + 1)
  }

  function Fail(c: Control): Control {
    var d :=
      if !c.inBurst then c
      else
        var e := EndBurst(c, false);
        var p := e.penalty * CEILING_PENALTY_FACTOR;
        e.(penalty := if p < PENALTY_FLOOR then PENALTY_FLOOR else p, cleanBursts := 0);
    d.(cleanTx := 0)
  }

  function Grow(block: nat): nat {
    var grown := ((block as real) * BLOCK_GROWTH_FACTOR).Floor;
    if grown > BLOCK_SOFT_MAX then BLOCK_SOFT_MAX else grown
  }

  function Succeed(c: Control, sample: int): Control {
    var d := c.(rtt := Rtt.Update(c.rtt, sample));
    if c.cleanTx + 1 >= CLEAN_TX_STREAK_FOR_GROWTH
    then d.(cleanTx := 0, block := Grow(c.block))
    else d.(cleanTx := c.cleanTx + 1)
  }

  function After(c: Control, e: Event): Control
    requires c.penalty >= 0.0
  {
    match e
    case QueueNonEmpty(now) =>
      if c.inBurst then c else c.(inBurst := true, burstStarted := now, window := BurstWindow(c.penalty))
    case QueueEmpty => if !c.inBurst then c else EndBurst(c, true)
    case BurstPoll(now) => if c.inBurst && now - c.burstStarted >= BURST_TIMEOUT then EndBurst(c, true) else c
    case TimeoutOrServerError =>
      var d := Fail(c);
      if d.window > W_BASELINE then d.(window := d.window - 1) else d
    case IncompleteResponse =>
      var d := Fail(c);
      d.(block := if d.block > BLOCK_MIN + BLOCK_SHRINK_STEP then d.block - BLOCK_SHRINK_STEP else BLOCK_MIN)
    case Success(sample) => Succeed(c, sample)
  }

  predicate WithinLimits(t: int) {
    500_000_000 <= t <= 10_000_000_000
  }

  function Clamp(t: int): int {
    if t < MIN_TIMEOUT then MIN_TIMEOUT else if t > MAX_TIMEOUT then MAX_TIMEOUT else t
  }

  function Timeout(c: Control): int {
    if c.rtt.Unset? then MIN_TIMEOUT else Clamp(c.rtt.avg + 4 * c.rtt.dev)
  }

  class CongestionController {
    var currentWindow: nat
    var inBurst: bool
    var burstStarted: int
    var burstCeilingPenalty: real
    var cleanBurstStreak: nat
    var currentBlockSize: nat
    var cleanTxStreak: nat
    var rttAvg: int
    var rttVar: int
    var rttSet: bool

    function State(): Control
      reads this
    {
      Control(currentWindow, inBurst, burstStarted, burstCeilingPenalty, cleanBurstStreak,
              currentBlockSize, cleanTxStreak, if rttSet then Rtt.Estimate(rttAvg, rttVar) else Rtt.Unset)
    }

    /** All that the conversion of the burst ceiling to an integer needs. */
    predicate Valid()
      reads this
    {
      burstCeilingPenalty >= 0.0
    }

    constructor ()
      ensures Valid() && State() == Initial()
      ensures currentWindow == 2 && !inBurst && burstCeilingPenalty == 1.0 && currentBlockSize == 16384 && !rttSet
    {
      currentWindow, inBurst, burstStarted := W_BASELINE, false, 0;
      burstCeilingPenalty, cleanBurstStreak := 1.0, 0;
      currentBlockSize, cleanTxStreak := BLOCK_SOFT_TARGET, 0;
      rttAvg, rttVar, rttSet := 0, 0, false;
    }

    method OnQueueNonEmpty(now: int)
      requires Valid()
      modifies this
      ensures Valid() && State() == After(old(State()), QueueNonEmpty(now))
    {
      if inBurst {
        return;
      }
      inBurst := true;
      burstStarted := now;
      var ceiling := (W_BURST_TARGET as real) * burstCeilingPenalty;
      var w := ceiling.Floor;
      if w < W_BASELINE {
        w := W_BASELINE;
      }
      if w > W_BURST_ABS_MAX {
        w := W_BURST_ABS_MAX;
      }
      currentWindow := w;
    }

    method OnQueueEmpty()
      requires Valid()
      modifies this
      ensures Valid() && State() == After(old(State()), QueueEmpty)
    {
      if !inBurst {
        return;
      }
      EndBurstLocked(true);
    }

    method CheckBurstTimeout(now: int)
      requires Valid()
      modifies this
      ensures Valid() && State() == After(old(State()), BurstPoll(now))
    {
      if !inBurst {
        return;
      }
      if now - burstStarted >= BURST_TIMEOUT {
        EndBurstLocked(true);
      }
    }

    method EndBurstLocked(clean: bool)
      modifies this
      ensures State() == EndBurst(old(State()), clean)
    {
      inBurst := false;
      currentWindow := W_BASELINE;
      if clean {
        cleanBurstStreak := cleanBurstStreak + 1;
        if cleanBurstStreak >= CLEAN_BURSTS_TO_RECOVER && burstCeilingPenalty < 1.0 {
          burstCeilingPenalty := burstCeilingPenalty + CEILING_RECOVERY_STEP;
          if burstCeilingPenalty > 1.0 {
            burstCeilingPenalty := 1.0;
          }
          cleanBurstStreak := 0;
        }
      }
    }

    method OnErrorLocked()
      modifies this
      ensures State() == Fail(old(State()))
    {
      if inBurst {
        EndBurstLocked(false);
        burstCeilingPenalty := burstCeilingPenalty * CEILING_PENALTY_FACTOR;
        if burstCeilingPenalty < PENALTY_FLOOR {
          burstCeilingPenalty := PENALTY_FLOOR;
        }
        cleanBurstStreak := 0;
      }
      cleanTxStreak := 0;
    }

    method OnTimeoutOrServerError()
      requires Valid()
      modifies this
      ensures Valid() && State() == After(old(State()), TimeoutOrServerError)
    {
      OnErrorLocked();
      if currentWindow > W_BASELINE {
        currentWindow := currentWindow - 1;
      }
    }

    method OnIncompleteResponse()
      requires Valid()
      modifies this
      ensures Valid() && State() == After(old(State()), IncompleteResponse)
    {
      OnErrorLocked();
      if currentBlockSize > BLOCK_MIN + BLOCK_SHRINK_STEP {
        currentBlockSize := currentBlockSize - BLOCK_SHRINK_STEP;
      } else {
        currentBlockSize := BLOCK_MIN;
      }
    }

    method OnSuccess(rtt: int)
      requires Valid()
      modifies this
      ensures Valid() && State() == After(old(State()), Success(rtt))
    {
      UpdateRTTLocked(rtt);
      cleanTxStreak := cleanTxStreak + 1;
      if cleanTxStreak >= CLEAN_TX_STREAK_FOR_GROWTH {
        cleanTxStreak := 0;
        var grown := ((currentBlockSize as real) * BLOCK_GROWTH_FACTOR).Floor;
        if grown > BLOCK_SOFT_MAX {
          grown := BLOCK_SOFT_MAX;
        }
        currentBlockSize := grown;
      }
    }

    method UpdateRTTLocked(sample: int)
      modifies this`rttAvg, this`rttVar, this`rttSet
      ensures rttSet && Rtt.Estimate(rttAvg, rttVar) == Rtt.Update(old(State()).rtt, sample)
    {
      if !rttSet {
        rttAvg := sample;
        rttVar := Rtt.Quot(sample, 2);
        rttSet := true;
        return;
      }
      var diff := sample - rttAvg;
      if diff < 0 {
        diff := -diff;
      }
      rttAvg := rttAvg + Rtt.Quot(sample - rttAvg, 8);
      rttVar := rttVar + Rtt.Quot(diff - rttVar, 4);
    }

    /** The allowed timeout that is nearest to RTT_avg + 4 RTT_var, and the smallest
        one as long as nothing was measured. */
    method CurrentTimeout() returns (t: int)
      ensures t == Timeout(State()) && WithinLimits(t)
      ensures forall u | WithinLimits(u) ::
        if rttSet then Rtt.Abs(t - rttAvg - 4 * rttVar) <= Rtt.Abs(u - rttAvg - 4 * rttVar) else t <= u
    {
      if !rttSet {
        return MIN_TIMEOUT;
      }
      t := rttAvg + 4 * rttVar;
      if t < MIN_TIMEOUT {
        return MIN_TIMEOUT;
      }
      if t > MAX_TIMEOUT {
        return MAX_TIMEOUT;
      }
    }
  }

  // ----- What every run keeps -----

  predicate Safe(c: Control) {
    && PENALTY_FLOOR <= c.penalty <= 1.0
    && (c.penalty < 1.0 ==> c.cleanBursts < CLEAN_BURSTS_TO_RECOVER)
    && W_BASELINE <= c.window <= W_BURST_ABS_MAX
    && (!c.inBurst ==> c.window == W_BASELINE)
    && BLOCK_MIN <= c.block <= BLOCK_SOFT_MAX
    && c.cleanTx < CLEAN_TX_STREAK_FOR_GROWTH
  }

  /** The state after a run of events; each event is one locked method call. */
  function Run(c: Control, es: seq<Event>): Control
    requires Safe(c)
    ensures Safe(Run(c, es))
    decreases |es|
  {
    if es == [] then c
    else
      StepIsSafe(c, es[0]);
      Run(After(c, es[0]), es[1..])
  }

  lemma StepIsSafe(c: Control, e: Event)
    requires Safe(c)
    ensures Safe(After(c, e))
  {
  }

  lemma GrowBounds(b: nat)
    requires BLOCK_MIN <= b <= BLOCK_SOFT_MAX
    ensures b <= Grow(b) <= BLOCK_SOFT_MAX
  {
  }

  /** The guarded decrement after a timeout or a server error is dead code: by then
      the aborted burst has already put the window back to the baseline. */
  lemma DecrementNeverFires(es: seq<Event>)
    ensures var c := Run(Initial(), es);
            Fail(c).window == W_BASELINE && After(c, TimeoutOrServerError) == Fail(c)
  {
  }

  /** So the documented reaction, one transaction less in flight but never below the
      baseline, is what happens exactly when the window is at most 3. */
  lemma LinearDecreaseIff(es: seq<Event>)
    ensures var c := Run(Initial(), es);
            After(c, TimeoutOrServerError).window == (if c.window > W_BASELINE then c.window - 1 else c.window)
            <==> c.window <= W_BASELINE + 1
  {
  }

  /** A truncated response leaves the window alone exactly outside a burst, or in a
      burst so penalised that its window is the baseline. */
  lemma TruncationKeepsWindowIff(es: seq<Event>)
    ensures var c := Run(Initial(), es);
            After(c, IncompleteResponse).window == c.window <==> !c.inBurst || c.window == W_BASELINE
  {
  }

  /** The first burst shows both differences: its window of 8 falls to 2 at once. */
  lemma FirstBurstCollapses(now: int)
    ensures var c := Run(Initial(), [QueueNonEmpty(now)]);
            && c.inBurst && c.window == 8
            && After(c, TimeoutOrServerError).window == 2 && After(c, IncompleteResponse).window == 2
  {
    assert [QueueNonEmpty(now)][1..] == [];
  }

  // ----- How bursts begin and end -----

  predicate IsError(e: Event) {
    e.TimeoutOrServerError? || e.IncompleteResponse?
  }

  /** Whether this event aborts a burst. */
  predicate Aborting(c: Control, e: Event) {
    c.inBurst && IsError(e)
  }

  /** Whether this event ends a burst without an error: the queue has drained, or a
      poll finds that the burst has lasted 1.5 s. */
  predicate EndingCleanly(c: Control, e: Event) {
    c.inBurst && (e.QueueEmpty? || (e.BurstPoll? && e.now - c.burstStarted >= 1_500_000_000))
  }

  function Aborts(c: Control, es: seq<Event>): nat
    requires Safe(c)
    decreases |es|
  {
    if es == [] then 0
    else
      StepIsSafe(c, es[0]);
      (if Aborting(c, es[0]) then 1 else 0) + Aborts(After(c, es[0]), es[1..])
  }

  function CleanEnds(c: Control, es: seq<Event>): nat
    requires Safe(c)
    decreases |es|
  {
    if es == [] then 0
    else
      StepIsSafe(c, es[0]);
      (if EndingCleanly(c, es[0]) then 1 else 0) + CleanEnds(After(c, es[0]), es[1..])
  }

  lemma {:induction false} RunOneMore(c: Control, es: seq<Event>, e: Event)
    requires Safe(c)
    ensures Run(c, es + [e]) == After(Run(c, es), e)
    decreases |es|
  {
    hide After;
    StepIsSafe(Run(c, es), e);
    if es == [] {
      assert ([] + [e])[1..] == [];
    } else {
      StepIsSafe(c, es[0]);
      RunOneMore(After(c, es[0]), es[1..], e);
      assert (es + [e])[1..] == es[1..] + [e];
    }
  }

  /** A drained queue, an error, or a poll 1.5 s or more after the start. */
  predicate Ends(start: int, e: Event) {
    e.QueueEmpty? || IsError(e) || (e.BurstPoll? && e.now - start >= 1_500_000_000)
  }

  /** Event i finds a filled queue while no earlier burst goes on. */
  predicate Opens(es: seq<Event>, i: nat)
    requires i < |es|
    decreases i, 0
  {
    es[i].QueueNonEmpty? && forall j | 0 <= j < i :: !Bursting(es, j, i)
  }

  /** The burst that event i opened goes on before event k. */
  predicate Bursting(es: seq<Event>, i: nat, k: nat)
    requires i < k <= |es|
    decreases i, 1
  {
    Opens(es, i) && forall x | i < x < k :: !Ends(es[i].now, es[x])
  }

  /** The exact life of a burst, told by the events alone: it goes on from the first
      filled queue until the first drained queue, error, or poll 1.5 s or more after
      its start. All through it the window is the whole part of 8 times the penalty,
      but at least 2, and outside bursts it is 2. */
  lemma {:induction false} BurstLife(es: seq<Event>, k: nat)
    requires k <= |es|
    ensures var c := Run(Initial(), es[..k]);
            && (c.inBurst <==> exists i :: 0 <= i < k && Bursting(es, i, k))
            && (forall i | 0 <= i < k && Bursting(es, i, k) :: es[i].QueueNonEmpty? && c.burstStarted == es[i].now)
            && (if c.inBurst
                then c.window >= 2 && (c.window as real <= 8.0 * c.penalty || c.window == 2)
                     && 8.0 * c.penalty < (c.window + 1) as real
                else c.window == 2)
  {
    hide Run, Bursting, After;
    if k > 0 {
      var n := k - 1;
      var c, e := Run(Initial(), es[..n]), es[n];
      BurstLife(es, n);
      assert es[..k] == es[..n] + [e];
      RunOneMore(Initial(), es[..n], e);
      BurstingStep(es, n, k);
      StepOfBurst(c, e);
      var d := Run(Initial(), es[..k]);
      forall i | 0 <= i < k && Bursting(es, i, k)
        ensures d.inBurst && es[i].QueueNonEmpty? && d.burstStarted == es[i].now
      {
        if i < n { assert Bursting(es, i, n); }
      }
      if d.inBurst {
        if c.inBurst {
          var i :| 0 <= i < n && Bursting(es, i, n);
          assert Bursting(es, i, k);
        } else {
          assert Bursting(es, n, k);
        }
      }
    } else {
      StartsIdle();
      assert es[..0] == [];
    }
  }

  lemma StartsIdle()
    ensures Run(Initial(), []) == Initial()
  {
  }

  /** How the bursts that go on before event n and after it differ. */
  lemma BurstingStep(es: seq<Event>, n: nat, k: nat)
    requires k == n + 1 <= |es|
    ensures forall i | 0 <= i < n ::
              Bursting(es, i, k) <==> Bursting(es, i, n) && es[i].QueueNonEmpty? && !Ends(es[i].now, es[n])
    ensures Bursting(es, n, k) <==> es[n].QueueNonEmpty? && forall i | 0 <= i < n :: !Bursting(es, i, n)
  {
    assert Bursting(es, n, k) <==> Opens(es, n);
  }

  lemma StepOfBurst(c: Control, e: Event)
    requires Safe(c)
    ensures var d := After(c, e);
            if !c.inBurst && e.QueueNonEmpty?
            then d.inBurst && d.burstStarted == e.now && d.penalty == c.penalty && d.window == BurstWindow(c.penalty)
            else if c.inBurst && !Ends(c.burstStarted, e)
            then d.inBurst && d.burstStarted == c.burstStarted && d.penalty == c.penalty && d.window == c.window
            else !d.inBurst && d.window == 2
  {
  }

  // ----- Penalty recovery -----

  function Recovered(penalty: real, steps: nat): real {
    var p := penalty + (steps as real) * CEILING_RECOVERY_STEP;
    if p > 1.0 then 1.0 else p
  }

  lemma {:induction false} StaysFull(c: Control, es: seq<Event>)
    requires Safe(c) && c.penalty == 1.0 && Aborts(c, es) == 0
    ensures Run(c, es).penalty == 1.0
    decreases |es|
  {
    if es != [] {
      StepIsSafe(c, es[0]);
      StaysFull(After(c, es[0]), es[1..]);
    }
  }

  lemma CleanStep(c: Control, e: Event)
    requires Safe(c) && c.penalty < 1.0 && !Aborting(c, e)
    ensures var d := After(c, e);
            if !EndingCleanly(c, e) then d.penalty == c.penalty && d.cleanBursts == c.cleanBursts
            else if c.cleanBursts + 1 == CLEAN_BURSTS_TO_RECOVER
            then d.penalty == Recovered(c.penalty, 1) && d.cleanBursts == 0
            else d.penalty == c.penalty && d.cleanBursts == c.cleanBursts + 1
  {
  }

  /** The exact rate, over every run that aborts no burst, whatever else happens in
      and between the bursts: one recovery step for every four bursts ended cleanly. */
  lemma {:induction false} RecoveryRate(c: Control, es: seq<Event>)
    requires Safe(c) && c.penalty < 1.0 && Aborts(c, es) == 0
    ensures var d, n := Run(c, es), c.cleanBursts + CleanEnds(c, es);
            && d.penalty == Recovered(c.penalty, n / CLEAN_BURSTS_TO_RECOVER)
            && (d.penalty < 1.0 ==> d.cleanBursts == n % CLEAN_BURSTS_TO_RECOVER)
    decreases |es|
  {
    hide After, EndingCleanly;
    if es != [] {
      var d := After(c, es[0]);
      StepIsSafe(c, es[0]);
      CleanStep(c, es[0]);
      if d.penalty < 1.0 {
        RecoveryRate(d, es[1..]);
      } else {
        StaysFull(d, es[1..]);
      }
    }
  }

  /** ceil((1 - p) / 0.05) */
  function StepsToFull(penalty: real): nat
    requires penalty <= 1.0
  {
    -((penalty - 1.0) * 20.0).Floor
  }

  /** After any run that aborts no burst the penalty is gone exactly when the clean
      bursts make up 4 ceil((1 - p) / 0.05), which is never more than 64. */
  lemma FullRecoveryIff(c: Control, es: seq<Event>)
    requires Safe(c) && c.penalty < 1.0 && Aborts(c, es) == 0
    ensures CLEAN_BURSTS_TO_RECOVER * StepsToFull(c.penalty) <= 64
    ensures Run(c, es).penalty == 1.0 <==>
            c.cleanBursts + CleanEnds(c, es) >= CLEAN_BURSTS_TO_RECOVER * StepsToFull(c.penalty)
  {
    RecoveryRate(c, es);
    var k := (c.cleanBursts + CleanEnds(c, es)) / 4;
    var f := ((c.penalty - 1.0) * 20.0).Floor;
    assert k >= -f <==> k as real >= (1.0 - c.penalty) * 20.0;
  }

  /** From any reachable state, 64 clean bursts with no aborted one among them bring
      back the full burst window. */
  lemma FullBurstReturns(before: seq<Event>, es: seq<Event>, now: int)
    requires Aborts(Run(Initial(), before), es) == 0 && CleanEnds(Run(Initial(), before), es) >= 64
    ensures var d := Run(Run(Initial(), before), es);
            d.penalty == 1.0 && (!d.inBurst ==> After(d, QueueNonEmpty(now)).window == W_BURST_TARGET)
  {
    var c := Run(Initial(), before);
    if c.penalty < 1.0 {
      FullRecoveryIff(c, es);
    } else {
      StaysFull(c, es);
    }
  }

  // ----- Penalty and block after errors -----

  function Decayed(penalty: real, n: nat): real {
    if n == 0 then penalty else Decayed(penalty, n - 1) * CEILING_PENALTY_FACTOR
  }

  function Floored(penalty: real): real {
    if penalty < PENALTY_FLOOR then PENALTY_FLOOR else penalty
  }

  lemma {:induction false} DecayFirst(penalty: real, n: nat)
    ensures Decayed(penalty * CEILING_PENALTY_FACTOR, n) == Decayed(penalty, n + 1)
  {
    if n > 0 {
      DecayFirst(penalty, n - 1);
    }
  }

  lemma {:induction false} DecayFloored(penalty: real, n: nat)
    ensures Floored(Decayed(Floored(penalty), n)) == Floored(Decayed(penalty, n))
    ensures Decayed(penalty, n) >= PENALTY_FLOOR ==> penalty >= PENALTY_FLOOR
    ensures penalty >= 0.0 ==> 0.0 <= Decayed(penalty, n) <= penalty
  {
    if n > 0 {
      DecayFloored(penalty, n - 1);
    }
  }

  /** Over every run in which no burst ends cleanly: each burst aborted, by either
      error and after whatever came before, multiplies the penalty by 0.8, down to
      the floor of 0.2. */
  lemma {:induction false} PenaltyRate(c: Control, es: seq<Event>)
    requires Safe(c) && CleanEnds(c, es) == 0
    ensures Run(c, es).penalty == Floored(Decayed(c.penalty, Aborts(c, es)))
    decreases |es|
  {
    if es != [] {
      var d := After(c, es[0]);
      StepIsSafe(c, es[0]);
      PenaltyRate(d, es[1..]);
      if Aborting(c, es[0]) {
        AbortStep(c, es[0]);
        DecayFloored(c.penalty * CEILING_PENALTY_FACTOR, Aborts(d, es[1..]));
        DecayFirst(c.penalty, Aborts(d, es[1..]));
      }
    }
  }

  lemma AbortStep(c: Control, e: Event)
    requires Safe(c) && Aborting(c, e)
    ensures var d := After(c, e);
            && d.penalty == Floored(c.penalty * CEILING_PENALTY_FACTOR) && d.cleanBursts == 0
            && !d.inBurst && d.window == W_BASELINE
  {
  }

  /** From a full penalty of 1.0 the floor is reached exactly with the eighth aborted
      burst; bursts then stay at the baseline window. */
  lemma EightAbortsToFloor(c: Control, es: seq<Event>, now: int)
    requires Safe(c) && c.penalty == 1.0 && CleanEnds(c, es) == 0
    ensures var d := Run(c, es);
            && (d.penalty == PENALTY_FLOOR <==> Aborts(c, es) >= 8)
            && (d.penalty == PENALTY_FLOOR && !d.inBurst ==> After(d, QueueNonEmpty(now)).window == W_BASELINE)
  {
    PenaltyRate(c, es);
    assert Decayed(1.0, 2) == 0.64;
    assert Decayed(1.0, 4) == 0.4096;
    assert Decayed(1.0, 6) == 0.262144;
    assert Decayed(1.0, 7) == 0.2097152;
    assert Decayed(1.0, 8) < 0.17;
    if Aborts(c, es) >= 8 {
      DecayMonotone(1.0, 8, Aborts(c, es));
    } else {
      DecayMonotone(1.0, Aborts(c, es), 7);
    }
  }

  /** An abort throws away the clean bursts counted so far: after it, as long as no
      other burst is aborted, the penalty recovers by one step for every four bursts
      ended cleanly since. */
  lemma AbortRestartsRecovery(c: Control, es: seq<Event>)
    requires Safe(c) && es != [] && Aborting(c, es[0]) && Aborts(c, es) == 1
    ensures Run(c, es).penalty == Recovered(Floored(c.penalty * 0.8), CleanEnds(c, es) / 4)
  {
    AbortStep(c, es[0]);
    RecoveryRate(After(c, es[0]), es[1..]);
  }

  lemma {:induction false} DecayMonotone(penalty: real, m: nat, n: nat)
    requires m <= n && penalty >= 0.0
    ensures Decayed(penalty, n) <= Decayed(penalty, m)
    decreases n
  {
    if m < n {
      DecayMonotone(penalty, m, n - 1);
      DecayFloored(penalty, n - 1);
    }
  }

  function Truncations(es: seq<Event>): nat {
    if es == [] then 0 else (if es[0].IncompleteResponse? then 1 else 0) + Truncations(es[1..])
  }

  /** Over every run without a success: each truncated response takes 4 KiB off the
      block, down to the minimum. */
  lemma {:induction false} ShrinkRate(c: Control, es: seq<Event>)
    requires Safe(c) && forall i | 0 <= i < |es| :: !es[i].Success?
    ensures var n := Truncations(es);
            Run(c, es).block ==
              if c.block < BLOCK_MIN + n * BLOCK_SHRINK_STEP then BLOCK_MIN else c.block - n * BLOCK_SHRINK_STEP
    decreases |es|
  {
    if es != [] {
      StepIsSafe(c, es[0]);
      ShrinkRate(After(c, es[0]), es[1..]);
    }
  }

  // ----- Block growth -----

  predicate NoErrors(es: seq<Event>) {
    forall i | 0 <= i < |es| :: !IsError(es[i])
  }

  function Successes(es: seq<Event>): nat {
    if es == [] then 0 else (if es[0].Success? then 1 else 0) + Successes(es[1..])
  }

  function GrowTimes(b: nat, k: nat): nat {
    if k == 0 then b else Grow(GrowTimes(b, k - 1))
  }

  lemma {:induction false} GrowFirst(b: nat, k: nat)
    ensures GrowTimes(Grow(b), k) == GrowTimes(b, k + 1)
  {
    if k > 0 {
      GrowFirst(b, k - 1);
    }
  }

  /** The block over every run without an error, however the successes are spread over
      bursts: one growth step for every 25. */
  lemma {:induction false} GrowthRate(c: Control, es: seq<Event>)
    requires Safe(c) && NoErrors(es)
    ensures var d, n := Run(c, es), c.cleanTx + Successes(es);
            && d.block == GrowTimes(c.block, n / CLEAN_TX_STREAK_FOR_GROWTH)
            && d.cleanTx == n % CLEAN_TX_STREAK_FOR_GROWTH
    decreases |es|
  {
    hide Grow, GrowTimes;
    if es == [] {
      NoGrowth(c.block);
    } else {
      var d := After(c, es[0]);
      StepIsSafe(c, es[0]);
      SuccessStep(c, es[0]);
      GrowthRate(d, es[1..]);
      GrowFirst(c.block, (d.cleanTx + Successes(es[1..])) / CLEAN_TX_STREAK_FOR_GROWTH);
    }
  }

  lemma NoGrowth(b: nat)
    ensures GrowTimes(b, 0) == b
  {
  }

  lemma SuccessStep(c: Control, e: Event)
    requires Safe(c) && !IsError(e)
    ensures var d := After(c, e);
            if !e.Success? then d.block == c.block && d.cleanTx == c.cleanTx
            else if c.cleanTx + 1 == CLEAN_TX_STREAK_FOR_GROWTH then d.block == Grow(c.block) && d.cleanTx == 0
            else d.block == c.block && d.cleanTx == c.cleanTx + 1
  {
  }

  /** The successes since the last error. */
  function SinceError(es: seq<Event>): nat {
    if es == [] then 0
    else
      var n := |es| - 1;
      if IsError(es[n]) then 0 else SinceError(es[..n]) + (if es[n].Success? then 1 else 0)
  }

  lemma {:induction false} StreakCounts(es: seq<Event>)
    ensures Run(Initial(), es).cleanTx == SinceError(es) % 25
  {
    hide After;
    if es != [] {
      var n := |es| - 1;
      StreakCounts(es[..n]);
      assert es == es[..n] + [es[n]];
      RunOneMore(Initial(), es[..n], es[n]);
      StreakStep(Run(Initial(), es[..n]), es[n]);
    }
  }

  lemma StreakStep(c: Control, e: Event)
    requires Safe(c)
    ensures After(c, e).cleanTx == if IsError(e) then 0 else if e.Success? then (c.cleanTx + 1) % 25 else c.cleanTx
  {
  }

  /** In every reachable state a success grows the block by a tenth, rounded down and
      up to the soft maximum, exactly if it is the 25th, 50th, ... since the last error. */
  lemma GrowsIff(es: seq<Event>, sample: int)
    ensures var c := Run(Initial(), es);
            var grown := 11 * c.block / 10;
            After(c, Success(sample)).block
            == if (SinceError(es) + 1) % 25 != 0 then c.block else if grown > 24576 then 24576 else grown
  {
    StreakCounts(es);
    var c := Run(Initial(), es);
    TenthMore(c.block);
  }

  lemma TenthMore(b: nat)
    ensures ((b as real) * BLOCK_GROWTH_FACTOR).Floor == 11 * b / 10
  {
    var f := ((b as real) * BLOCK_GROWTH_FACTOR).Floor;
    assert f as real <= (b as real) * 1.1 < (f + 1) as real;
    assert (10 * f) as real <= (11 * b) as real < (10 * f + 10) as real;
  }

  lemma GrowMonotone(a: nat, b: nat)
    requires a <= b
    ensures Grow(a) <= Grow(b)
  {
  }

  lemma {:induction false} GrowTimesMonotone(a: nat, b: nat, k: nat)
    requires a <= b
    ensures GrowTimes(a, k) <= GrowTimes(b, k)
  {
    if k > 0 {
      GrowTimesMonotone(a, b, k - 1);
      GrowMonotone(GrowTimes(a, k - 1), GrowTimes(b, k - 1));
    }
  }

  lemma {:induction false} GrowTimesBounded(b: nat, k: nat, m: nat)
    requires BLOCK_MIN <= b <= BLOCK_SOFT_MAX && k <= m
    ensures BLOCK_MIN <= GrowTimes(b, k) <= GrowTimes(b, m) <= BLOCK_SOFT_MAX
    decreases m
  {
    if k < m {
      GrowTimesBounded(b, k, m - 1);
      GrowBounds(GrowTimes(b, m - 1));
    } else if m > 0 {
      GrowTimesBounded(b, m - 1, m - 1);
      GrowBounds(GrowTimes(b, m - 1));
    }
  }

  /** The slowest climb, from the smallest block: not there after 18 growth steps,
      there after 19. */
  lemma NineteenSteps()
    ensures GrowTimes(BLOCK_MIN, 18) < BLOCK_SOFT_MAX && GrowTimes(BLOCK_MIN, 19) == BLOCK_SOFT_MAX
  {
    assert GrowTimes(BLOCK_MIN, 1) == 4505;
    assert GrowTimes(BLOCK_MIN, 2) == 4955;
    assert GrowTimes(BLOCK_MIN, 3) == 5450;
    assert GrowTimes(BLOCK_MIN, 4) == 5995;
    assert GrowTimes(BLOCK_MIN, 5) == 6594;
    assert GrowTimes(BLOCK_MIN, 6) == 7253;
    assert GrowTimes(BLOCK_MIN, 7) == 7978;
    assert GrowTimes(BLOCK_MIN, 8) == 8775;
    assert GrowTimes(BLOCK_MIN, 9) == 9652;
    assert GrowTimes(BLOCK_MIN, 10) == 10617;
    assert GrowTimes(BLOCK_MIN, 11) == 11678;
    assert GrowTimes(BLOCK_MIN, 12) == 12845;
    assert GrowTimes(BLOCK_MIN, 13) == 14129;
    assert GrowTimes(BLOCK_MIN, 14) == 15541;
    assert GrowTimes(BLOCK_MIN, 15) == 17095;
    assert GrowTimes(BLOCK_MIN, 16) == 18804;
    assert GrowTimes(BLOCK_MIN, 17) == 20684;
    assert GrowTimes(BLOCK_MIN, 18) == 22752;
  }

  /** From any reachable state, a run without errors whose successes bring the streak
      to 475 reaches the soft maximum; from the smallest block nothing less does. */
  lemma BlockRecovery(before: seq<Event>, es: seq<Event>)
    requires NoErrors(es)
    ensures var c := Run(Initial(), before);
            var d := Run(c, es);
            && (c.cleanTx + Successes(es) >= 475 ==> d.block == BLOCK_SOFT_MAX)
            && (c.block == BLOCK_MIN && d.block == BLOCK_SOFT_MAX ==> c.cleanTx + Successes(es) >= 475)
  {
    hide GrowTimes;
    var c := Run(Initial(), before);
    var k := (c.cleanTx + Successes(es)) / CLEAN_TX_STREAK_FOR_GROWTH;
    GrowthRate(c, es);
    NineteenSteps();
    if k >= 19 {
      GrowTimesMonotone(BLOCK_MIN, c.block, 19);
      GrowTimesBounded(c.block, 19, k);
    } else {
      GrowTimesBounded(BLOCK_MIN, k, 18);
    }
  }

  // ----- Timeout -----

  /** Only successes move the estimator, and each of them does. */
  lemma {:induction false} EstimateFollowsSuccesses(c: Control, es: seq<Event>, r: int)
    requires Safe(c) && forall i | 0 <= i < |es| && es[i].Success? :: es[i].rtt == r
    ensures Run(c, es).rtt == Rtt.Repeat(c.rtt, r, Successes(es))
    decreases |es|
  {
    hide Rtt.Update;
    if es != [] {
      var d := After(c, es[0]);
      StepIsSafe(c, es[0]);
      EstimateFollowsSuccesses(d, es[1..], r);
      if es[0].Success? {
        RepeatOnce(c.rtt, r);
        Rtt.RepeatSplit(c.rtt, r, 1, Successes(es[1..]));
      }
    }
  }

  lemma RepeatOnce(e: Rtt.Estimate, r: int)
    ensures Rtt.Repeat(e, r, 1) == Rtt.Update(e, r)
  {
    assert Rtt.Repeat(e, r, 0) == e;
  }

  /** Over any events, errors included, once enough successes had round-trip time r
      and none another one, the timeout is r, give or take what truncation leaves,
      brought into the clamps. */
  lemma TimeoutSettles(c: Control, r: int, es: seq<Event>)
    requires Safe(c) && c.rtt.Estimate? && c.rtt.dev >= 0
    requires forall i | 0 <= i < |es| && es[i].Success? :: es[i].rtt == r
    requires Successes(es) >= Rtt.SettlingTime(c.rtt, r)
    ensures Clamp(r - 7) <= Timeout(Run(c, es)) <= Clamp(r + 47)
  {
    EstimateFollowsSuccesses(c, es, r);
    Rtt.Converges(c.rtt, r, Successes(es));
  }
}
