/**
 * The per-agent cap: the rolling total the program and the SDK read back from an agent's
 * 24 hourly slots, and the limit it enforces.
 */
module AgentCap {
  import opened Common
  import opened SpendTracker
  import opened SpendIntervals
  import AgentOverlay

  type Overlay = AgentOverlay.Overlay

  const HOUR := AgentOverlay.HOUR_SECONDS
  const HOURS := AgentOverlay.HOURS

  function HourOf(t: int): int { AgentOverlay.HourOf(t) }

  // ---- The rolling total ------------------------------------------------------------------------

  function Scaled(usd: nat, overlap: nat): nat { usd * overlap / HOUR }

  /** What a slot that ends after the window starts adds to the total. */
  function SlotShare(usd: nat, e: int, windowStart: int): nat
    requires windowStart < (e + 1) * HOUR
  {
    if e * HOUR >= windowStart then usd else Scaled(usd, (e + 1) * HOUR - windowStart)
  }

  /** What the backward walk adds from iteration `k` on. */
  function Walk(o: Overlay, current: int, windowStart: int, k: nat): nat
    requires |o.contributions| == HOURS
    decreases HOURS - k
  {
    var e := o.lastWriteEpoch - k;
    if k >= HOURS || e < 0 || (e + 1) * HOUR <= windowStart then 0
    else
      var rest := Walk(o, current, windowStart, k + 1);
      if e > current then rest else SlotShare(o.contributions[e % HOURS], e, windowStart) + rest
  }

  /** `get_agent_rolling_24h_usd`. */
  function OnChainRolling(o: Overlay, now: int): nat
    requires |o.contributions| == HOURS
  {
    if now <= 0 || HourOf(now) - o.lastWriteEpoch > HOURS then 0
    else Clamp(Walk(o, HourOf(now), now - DAY_SECONDS, 0))
  }

  lemma WalkStep(o: Overlay, current: int, windowStart: int, k: nat)
    requires |o.contributions| == HOURS && k < HOURS
    requires o.lastWriteEpoch - k >= 0 && windowStart < (o.lastWriteEpoch - k + 1) * HOUR
    ensures var e := o.lastWriteEpoch - k;
            var c := o.contributions[e % HOURS];
            && (c == 0 ==> SlotShare(c, e, windowStart) == 0)
            && Walk(o, current, windowStart, k)
               == (if e > current then 0 else SlotShare(c, e, windowStart)) + Walk(o, current, windowStart, k + 1)
  {
    Whole(0);
  }

  /** `getAgentRolling24hUsd`, whose window never starts before zero. */
  method GetAgentRolling24hUsd(o: Overlay, now: int) returns (r: nat)
    requires |o.contributions| == HOURS
    ensures r == OnChainRolling(o, now)
  {
    if now <= 0 {
      return 0;
    }
    var currentEpoch := now / HOUR;
    if currentEpoch - o.lastWriteEpoch > HOURS {
      return 0;
    }
    var windowStart := if now > DAY_SECONDS then now - DAY_SECONDS else 0;
    var total := 0;
    ghost var goal := Walk(o, currentEpoch, windowStart, 0);
    var k := 0;
    while k < HOURS
      invariant 0 <= k <= HOURS && total + Walk(o, currentEpoch, windowStart, k) == goal
    {
      var e := o.lastWriteEpoch - k;
      if e < 0 || (e + 1) * HOUR <= windowStart {
        break;
      }
      WalkStep(o, currentEpoch, windowStart, k);
      var contribution := o.contributions[e % HOURS];
      if e <= currentEpoch && contribution != 0 {
        total := total + SlotShare(contribution, e, windowStart);
      }
      k := k + 1;
    }
    SameWindow(o, now, 0);
    r := if total > U64_MAX then U64_MAX else total;
  }

  /** A window that starts before zero counts what one starting at zero counts. */
  lemma {:induction false} SameWindow(o: Overlay, now: int, k: nat)
    requires |o.contributions| == HOURS && k <= HOURS
    ensures Walk(o, HourOf(now), if now > DAY_SECONDS then now - DAY_SECONDS else 0, k)
         == Walk(o, HourOf(now), now - DAY_SECONDS, k)
    decreases HOURS - k
  {
    if k < HOURS && o.lastWriteEpoch - k >= 0 {
      SameWindow(o, now, k + 1);
    }
  }

  // ---- The total is the ledger's ----------------------------------------------------------------

  /** An hour is six of the tracker's epochs. */
  lemma {:induction false} HourIsSixEpochs(log: seq<Spend>, h: int)
    ensures AgentOverlay.HourTotal(log, h) == SumEpochs(log, 6 * h, 6)
  {
    if log == [] {
      FutureOrEmpty(6 * h, 6);
    } else {
      var init, s := log[..|log| - 1], log[|log| - 1];
      HourIsSixEpochs(init, h);
      assert log == init + [s];
      SumSnoc(init, s, 6 * h, 6);
    }
  }

  /** What `n` whole hours from `h` hold. */
  function SumHours(log: seq<Spend>, h: int, n: nat): nat { SumEpochs(log, 6 * h, 6 * n) }

  lemma SumHoursNext(log: seq<Spend>, h: int, n: nat)
    ensures SumHours(log, h, 0) == 0
    ensures SumHours(log, h, n + 1) == SumHours(log, h, n) + AgentOverlay.HourTotal(log, h + n)
  {
    SumSplit(log, 6 * h, 6 * n, 6);
    HourIsSixEpochs(log, h + n);
  }

  /** The part of the straddling hour still counted: only until the current hour is written. */
  function Straddling(log: seq<Spend>, now: int): nat {
    if HourOf(LastTime(log)) == HourOf(now) then 0
    else Scaled(AgentOverlay.HourTotal(log, HourOf(now) - HOURS), HOUR - now % HOUR)
  }

  lemma Whole(usd: nat)
    ensures Scaled(usd, HOUR) == usd && forall n: nat :: Scaled(0, n) == 0
  {
  }

  lemma StraddlingShare(usd: nat, now: int)
    requires now > 0
    ensures SlotShare(usd, HourOf(now) - HOURS, now - DAY_SECONDS) == Scaled(usd, HOUR - now % HOUR)
  {
    assert now == HourOf(now) * HOUR + now % HOUR;
    Whole(usd);
  }

  /** What the walk still has to add when it stands at hour `e`. */
  function Remaining(log: seq<Spend>, now: int, e: int): nat {
    var first := HourOf(now) - HOURS + 1;
    if e < first - 1 then 0 else Straddling(log, now) + SumHours(log, first, e - first + 1)
  }

  lemma {:induction false} NothingBeforeZero(log: seq<Spend>, h: int, n: nat)
    requires Chronological(log) && h + n <= 0
    ensures SumHours(log, h, n) == 0
  {
    if n == 0 {
    } else {
      NothingBeforeZero(log, h, n - 1);
      SumHoursNext(log, h, n - 1);
      AgentOverlay.OutsideIsZero(log, h + n - 1);
    }
  }

  lemma {:induction false} NothingLater(log: seq<Spend>, h: int, n: nat, m: nat)
    requires Chronological(log) && HourOf(LastTime(log)) < h + n
    ensures SumHours(log, h, n + m) == SumHours(log, h, n)
  {
    if m == 0 {
    } else {
      NothingLater(log, h, n, m - 1);
      SumHoursNext(log, h, n + m - 1);
      AgentOverlay.OutsideIsZero(log, h + n + m - 1);
    }
  }

  lemma RemainingNegative(log: seq<Spend>, now: int, e: int)
    requires Chronological(log) && e < 0
    ensures Remaining(log, now, e) == 0
  {
    var first := HourOf(now) - HOURS + 1;
    if e >= first - 1 {
      NothingBeforeZero(log, first, e - first + 1);
      AgentOverlay.OutsideIsZero(log, first - 1);
      Whole(0);
    }
  }

  /** One iteration of the walk, inside the window or at its straddling hour. */
  lemma RemainingStep(log: seq<Spend>, now: int, e: int)
    requires now > 0 && HourOf(now) - HOURS <= e <= HourOf(now)
    requires e == HourOf(now) - HOURS ==> HourOf(LastTime(log)) != HourOf(now)
    ensures now - DAY_SECONDS < (e + 1) * HOUR
    ensures Remaining(log, now, e)
         == SlotShare(AgentOverlay.HourTotal(log, e), e, now - DAY_SECONDS) + Remaining(log, now, e - 1)
  {
    var first := HourOf(now) - HOURS + 1;
    assert now == HourOf(now) * HOUR + now % HOUR;
    if e < first {
      StraddlingShare(AgentOverlay.HourTotal(log, e), now);
      SumHoursNext(log, first, 0);
    } else {
      SumHoursNext(log, first, e - first);
    }
  }

  lemma {:induction false} WalkIsRemaining(o: Overlay, log: seq<Spend>, now: int, k: nat)
    requires AgentOverlay.Reflects(o, log) && LastTime(log) <= now && now > 0 && k <= HOURS
    ensures Walk(o, HourOf(now), now - DAY_SECONDS, k) == Remaining(log, now, o.lastWriteEpoch - k)
    decreases HOURS - k
  {
    var e := o.lastWriteEpoch - k;
    if e < 0 {
      RemainingNegative(log, now, e);
    } else if e < HourOf(now) - HOURS {
      assert now == HourOf(now) * HOUR + now % HOUR;
    } else if k == HOURS {
      SumHoursNext(log, HourOf(now) - HOURS + 1, 0);
    } else {
      WalkIsRemaining(o, log, now, k + 1);
      RemainingStep(log, now, e);
      assert o.contributions[e % HOURS] == AgentOverlay.HourTotal(log, e);
    }
  }

  /**
   * The rolling total is exactly what the agent spent in the last 24 hours of the clock, plus the
   * proportional part of the hour before them until the current hour is written.
   */
  lemma AgentRollingIsExact(o: Overlay, log: seq<Spend>, now: int)
    requires AgentOverlay.Reflects(o, log) && LastTime(log) <= now && now > 0
    ensures OnChainRolling(o, now) == Clamp(SumHours(log, HourOf(now) - HOURS + 1, HOURS) + Straddling(log, now))
  {
    var first, last := HourOf(now) - HOURS + 1, o.lastWriteEpoch;
    WalkIsRemaining(o, log, now, 0);
    if last < first - 1 {
      NothingLater(log, first, 0, HOURS);
      AgentOverlay.OutsideIsZero(log, first - 1);
      SumHoursNext(log, first, 0);
      Whole(0);
    } else {
      NothingLater(log, first, last - first + 1, HOURS - (last - first + 1));
    }
  }

  // ---- The limit over every run -----------------------------------------------------------------

  /** The agent's part of the gate; a limit of zero is no limit. */
  function Permit(o: Overlay, limit: nat, now: int, amount: nat): (r: Result<Overlay, Error>)
    requires |o.contributions| == HOURS
    ensures r.Ok? ==> |r.value.contributions| == HOURS
  {
    if amount == 0 then Err(TransactionTooLarge)
    else if limit > 0 && OnChainRolling(o, now) + amount > U64_MAX then Err(Overflow)
    else if limit > 0 && OnChainRolling(o, now) + amount > limit then Err(AgentSpendLimitExceeded)
    else AgentOverlay.Contribute(o, now, amount)
  }

  /** Any 24 consecutive hours hold at most the limit. */
  ghost predicate LimitHolds(log: seq<Spend>, limit: nat) {
    limit > 0 ==> forall h :: SumHours(log, h, HOURS) <= limit
  }

  lemma PermittedKeepsLimit(o: Overlay, log: seq<Spend>, limit: nat, s: Spend)
    requires AgentOverlay.Reflects(o, log) && LimitHolds(log, limit) && LastTime(log) <= s.at && limit <= U64_MAX
    requires Permit(o, limit, s.at, s.amount).Ok?
    ensures LimitHolds(log + [s], limit)
  {
    if limit > 0 {
      var day := HourOf(s.at) - HOURS + 1;
      AgentRollingIsExact(o, log, s.at);
      assert SumHours(log, day, HOURS) <= limit;
      forall h ensures SumHours(log + [s], h, HOURS) <= limit {
        SumSnoc(log, s, 6 * h, EPOCHS);
        assert SumHours(log, h, HOURS) <= limit;
        if h <= HourOf(s.at) < h + HOURS {
          LaterWindowSmaller(log, 6 * day, 6 * (h - day), EPOCHS);
        }
      }
    }
  }

  // ---- Runs of one agent ------------------------------------------------------------------------

  /** One agent under one limit: rejected attempts leave no trace. */
  datatype Agent = Agent(overlay: Overlay, log: seq<Spend>)

  function Unspent(): (o: Overlay)
    ensures |o.contributions| == HOURS
  {
    AgentOverlay.Overlay(0, seq(HOURS, _ => 0))
  }

  function Try(a: Agent, limit: nat, s: Spend): (r: Agent)
    requires |a.overlay.contributions| == HOURS
    ensures |r.overlay.contributions| == HOURS
  {
    match Permit(a.overlay, limit, s.at, s.amount)
    case Err(_) => a
    case Ok(o) => Agent(o, a.log + [s])
  }

  function TryAll(limit: nat, attempts: seq<Spend>): (r: Agent)
    ensures |r.overlay.contributions| == HOURS
  {
    if attempts == [] then Agent(Unspent(), [])
    else Try(TryAll(limit, attempts[..|attempts| - 1]), limit, attempts[|attempts| - 1])
  }

  lemma UnspentReflects()
    ensures AgentOverlay.Reflects(Unspent(), [])
  {
    forall e | -HOURS < e <= 0 ensures Unspent().contributions[e % HOURS] == AgentOverlay.HourTotal([], e) {
    }
  }

  lemma NothingSpent(limit: nat)
    ensures LimitHolds([], limit)
  {
    forall h ensures SumHours([], h, HOURS) == 0 {
      FutureOrEmpty(6 * h, EPOCHS);
    }
  }

  lemma {:induction false} LimitInvariant(limit: nat, attempts: seq<Spend>)
    requires ClockRuns(attempts) && limit <= U64_MAX
    ensures var a := TryAll(limit, attempts);
            && AgentOverlay.Reflects(a.overlay, a.log) && LimitHolds(a.log, limit)
            && (a.log != [] ==> attempts != [] && LastTime(a.log) <= attempts[|attempts| - 1].at)
  {
    if attempts == [] {
      UnspentReflects();
      NothingSpent(limit);
    } else {
      var init, s := attempts[..|attempts| - 1], attempts[|attempts| - 1];
      LimitInvariant(limit, init);
      var a := TryAll(limit, init);
      if Permit(a.overlay, limit, s.at, s.amount).Ok? {
        PermittedKeepsLimit(a.overlay, a.log, limit, s);
        AgentOverlay.ContributeReflects(a.overlay, a.log, s.at, s.amount);
        assert s == Spend(s.at, s.amount);
      }
    }
  }

  // ---- Intervals of seconds ---------------------------------------------------------------------

  /** In every run, every interval of this length holds at most the limit. */
  ghost predicate LimitBounds(limit: nat, length: nat) {
    forall attempts: seq<Spend>, from: int :: ClockRuns(attempts) ==>
      Within(TryAll(limit, attempts).log, from, length) <= limit
  }

  /** The longest interval that can touch only 24 hours of the clock. */
  const SAFE_HOURS: nat := 23 * 3600

  lemma ShortIntervalsHold(limit: nat, attempts: seq<Spend>, from: int, length: nat)
    requires ClockRuns(attempts) && 0 < limit <= U64_MAX && length <= SAFE_HOURS
    ensures Within(TryAll(limit, attempts).log, from, length) <= limit
  {
    var log, h := TryAll(limit, attempts).log, HourOf(from);
    LimitInvariant(limit, attempts);
    WithinEpochs(log, from, length, 6 * h, EPOCHS);
    assert SumHours(log, h, HOURS) <= limit;
  }

  /** A spend is accepted when the agent's own rolling total leaves room for it. */
  lemma Accepted(a: Agent, limit: nat, s: Spend)
    requires AgentOverlay.Reflects(a.overlay, a.log) && LastTime(a.log) <= s.at && s.at > 0 && s.amount > 0
    requires 0 < limit <= U64_MAX
    requires SumHours(a.log, HourOf(s.at) - HOURS + 1, HOURS) + Straddling(a.log, s.at) + s.amount <= limit
    ensures Try(a, limit, s).log == a.log + [s] && AgentOverlay.Reflects(Try(a, limit, s).overlay, a.log + [s])
  {
    var e := HourOf(s.at);
    AgentRollingIsExact(a.overlay, a.log, s.at);
    SumHoursNext(a.log, e - HOURS + 1, HOURS - 1);
    AgentOverlay.GapReflects(a.overlay, a.log, e, e);
    AgentOverlay.ContributeReflects(a.overlay, a.log, s.at, s.amount);
    assert s == Spend(s.at, s.amount);
  }

  /** Spend late in an hour, write the hour 24 later, then spend as much again. */
  function ReuseRun(a: nat): seq<Spend> { [Spend(3599, a), Spend(86_400, 1), Spend(86_400, a)] }

  lemma FirstRoom(now: int)
    requires 0 < now < HOUR
    ensures SumHours([], HourOf(now) - HOURS + 1, HOURS) + Straddling([], now) == 0
  {
    FutureOrEmpty(6 * (HourOf(now) - HOURS + 1), EPOCHS);
  }

  lemma SecondRoom(a: nat, now: int)
    requires 86_400 <= now < 86_400 + HOUR
    ensures SumHours([Spend(3599, a)], HourOf(now) - HOURS + 1, HOURS) == 0
    ensures Straddling([Spend(3599, a)], now) == Scaled(a, HOUR - now % HOUR)
  {
    var s := Spend(3599, a);
    assert [] + [s] == [s] && [s][..0] == [];
    SumSnoc([], s, 6, EPOCHS);
    FutureOrEmpty(6, EPOCHS);
    assert AgentOverlay.HourTotal([s], 0) == a;
  }

  lemma ThirdRoom(a: nat)
    ensures var log := [Spend(3599, a), Spend(86_400, 1)];
            SumHours(log, HourOf(86_400) - HOURS + 1, HOURS) + Straddling(log, 86_400) == 1
  {
    var s, t := Spend(3599, a), Spend(86_400, 1);
    assert [s] + [t] == [s, t];
    SecondRoom(a, 86_400);
    SumSnoc([s], t, 6, EPOCHS);
  }

  lemma StartsEmpty(limit: nat, s: Spend)
    requires 0 < s.at < HOUR && 0 < s.amount <= limit <= U64_MAX
    ensures TryAll(limit, [s]).log == [s] && AgentOverlay.Reflects(TryAll(limit, [s]).overlay, [s])
  {
    assert [s][..0] == [] && [] + [s] == [s];
    UnspentReflects();
    FirstRoom(s.at);
    Accepted(TryAll(limit, []), limit, s);
  }

  lemma ReuseAccepted(limit: nat)
    requires 2 <= limit <= U64_MAX
    ensures TryAll(limit, ReuseRun(limit - 1)).log == ReuseRun(limit - 1)
  {
    var a := limit - 1;
    var s, t, u := Spend(3599, a), Spend(86_400, 1), Spend(86_400, a);
    assert ReuseRun(a)[..2] == [s, t] && [s, t][..1] == [s];
    assert [s] + [t] == [s, t] && [s, t] + [u] == ReuseRun(a);
    StartsEmpty(limit, s);
    SecondRoom(a, 86_400);
    Whole(a);
    Accepted(TryAll(limit, [s]), limit, t);
    ThirdRoom(a);
    Accepted(TryAll(limit, [s, t]), limit, u);
  }

  lemma ReuseTotal(a: nat, length: nat)
    requires length > SAFE_HOURS
    ensures ClockRuns(ReuseRun(a)) && Within(ReuseRun(a), 3599, length) == 2 * a + 1
  {
    var s, t, u := Spend(3599, a), Spend(86_400, 1), Spend(86_400, a);
    assert [] + [s] == [s] && [s] + [t] == [s, t] && [s, t] + [u] == ReuseRun(a);
    WithinSnoc([], s, 3599, length);
    WithinSnoc([s], t, 3599, length);
    WithinSnoc([s, t], u, 3599, length);
  }

  // ---- A limit of one unit ----------------------------------------------------------------------

  const UNIT_GAP: nat := SAFE_HOURS + 2

  lemma UnitReuse(length: nat)
    requires length >= UNIT_GAP
    ensures var run := [Spend(3599, 1), Spend(86_401, 1)];
            ClockRuns(run) && Within(TryAll(1, run).log, 3599, length) == 2
  {
    var s, t := Spend(3599, 1), Spend(86_401, 1);
    assert [s, t][..1] == [s] && [] + [s] == [s] && [s] + [t] == [s, t];
    StartsEmpty(1, s);
    SecondRoom(1, 86_401);
    Accepted(TryAll(1, [s]), 1, t);
    WithinSnoc([], s, 3599, length);
    WithinSnoc([s], t, 3599, length);
  }

  lemma {:induction false} HourInSum(log: seq<Spend>, h: int, n: nat, e: int)
    requires h <= e < h + n
    ensures AgentOverlay.HourTotal(log, e) <= SumHours(log, h, n)
  {
    SumHoursNext(log, h, n - 1);
    if e < h + n - 1 {
      HourInSum(log, h, n - 1, e);
    }
  }

  lemma PermittedSpaced(o: Overlay, log: seq<Spend>, s: Spend)
    requires AgentOverlay.Reflects(o, log) && LastTime(log) <= s.at && Spaced(log, UNIT_GAP)
    requires Permit(o, 1, s.at, s.amount).Ok?
    ensures Spaced(log + [s], UNIT_GAP)
  {
    assert (log + [s])[..|log|] == log;
    AgentRollingIsExact(o, log, s.at);
    if log != [] {
      var e, f := HourOf(s.at), HourOf(LastTime(log));
      assert AgentOverlay.HourTotal(log, f) >= 1;
      if f > e - HOURS {
        HourInSum(log, e - HOURS + 1, HOURS, f);
        assert false;
      } else if f == e - HOURS {
        Whole(AgentOverlay.HourTotal(log, f));
        assert s.at % HOUR != 0;
      }
    }
  }

  lemma {:induction false} UnitsSpaced(attempts: seq<Spend>)
    requires ClockRuns(attempts)
    ensures Spaced(TryAll(1, attempts).log, UNIT_GAP)
  {
    if attempts == [] {
    } else {
      var init, s := attempts[..|attempts| - 1], attempts[|attempts| - 1];
      UnitsSpaced(init);
      LimitInvariant(1, init);
      LimitInvariant(1, attempts);
      var a := TryAll(1, init);
      if Permit(a.overlay, 1, s.at, s.amount).Ok? {
        PermittedSpaced(a.overlay, a.log, s);
      }
    }
  }

  // ---- The exact lengths ------------------------------------------------------------------------

  lemma FirstUnlimited()
    ensures Permit(Unspent(), 0, 1, 1).Ok?
  {
    assert AgentOverlay.ZeroGap(Unspent(), 0) == Unspent().contributions;
  }

  lemma UnlimitedRun(s: Spend)
    requires Permit(Unspent(), 0, s.at, s.amount).Ok?
    ensures TryAll(0, [s]).log == [s]
  {
    assert [s][..0] == [] && [] + [s] == [s];
    assert TryAll(0, []) == Agent(Unspent(), []);
  }

  lemma Unlimited(length: nat)
    ensures !LimitBounds(0, length)
  {
    var s := Spend(1, 1);
    FirstUnlimited();
    UnlimitedRun(s);
    assert [] + [s] == [s];
    WithinSnoc([], s, 1, length);
    assert ClockRuns([s]) && Within(TryAll(0, [s]).log, 1, length) > 0;
  }

  /** 82,800 seconds, or one second more where the limit is a single unit. */
  function SafeHours(limit: nat): nat { if limit == 1 then SAFE_HOURS + 1 else SAFE_HOURS }

  /**
   * The limit bounds every interval of a length in every run if and only if there is one and the
   * length is at most 82,800 seconds, or one second more where the limit is a single unit.
   */
  lemma LimitBoundsExactly(limit: nat, length: nat)
    requires limit <= U64_MAX
    ensures LimitBounds(limit, length) <==> limit > 0 && length <= SafeHours(limit)
  {
    if limit == 0 {
      Unlimited(length);
    } else if length <= SafeHours(limit) {
      forall attempts: seq<Spend>, from: int | ClockRuns(attempts)
        ensures Within(TryAll(limit, attempts).log, from, length) <= limit
      {
        if limit == 1 {
          UnitsSpaced(attempts);
          SpacedWithin(TryAll(1, attempts).log, UNIT_GAP, from, length);
        } else {
          ShortIntervalsHold(limit, attempts, from, length);
        }
      }
    } else if limit == 1 {
      UnitReuse(length);
      assert Within(TryAll(1, [Spend(3599, 1), Spend(86_401, 1)]).log, 3599, length) > 1;
    } else {
      ReuseAccepted(limit);
      ReuseTotal(limit - 1, length);
      assert Within(TryAll(limit, ReuseRun(limit - 1)).log, 3599, length) > limit;
    }
  }
}
