/**
 * The daily cap measured in seconds. The tracker bounds blocks of whole epochs; this module
 * settles which intervals of seconds it bounds, and by how much a day can exceed the cap.
 */
module SpendIntervals {
  import opened Common
  import opened SpendTracker

  /** Everything spent within `length` seconds from `from`, both ends included. */
  function Within(log: seq<Spend>, from: int, length: nat): nat {
    if log == [] then 0 else
      var s := log[|log| - 1];
      Within(log[..|log| - 1], from, length) + if from <= s.at <= from + length then s.amount else 0
  }

  lemma WithinSnoc(log: seq<Spend>, s: Spend, from: int, length: nat)
    ensures Within(log + [s], from, length)
         == Within(log, from, length) + if from <= s.at <= from + length then s.amount else 0
  {
    assert (log + [s])[..|log|] == log;
  }

  /** In every run, every interval of this length holds at most the cap. */
  ghost predicate IntervalsBounded(cap: nat, length: nat) {
    forall attempts: seq<Spend>, from: int :: ClockRuns(attempts) ==>
      Within(TryAll(cap, attempts).log, from, length) <= cap
  }

  /** The longest interval that can touch only 144 epochs. */
  const SAFE_SECONDS: nat := 143 * 600

  lemma {:induction false} WithinEpochs(log: seq<Spend>, from: int, length: nat, e: int, n: nat)
    requires e <= EpochOf(from) && EpochOf(from + length) < e + n
    ensures Within(log, from, length) <= SumEpochs(log, e, n)
  {
    if log == [] {
    } else {
      var init, s := log[..|log| - 1], log[|log| - 1];
      WithinEpochs(init, from, length, e, n);
      assert log == init + [s];
      SumSnoc(init, s, e, n);
    }
  }

  lemma {:induction false} SumSplit(log: seq<Spend>, from: int, n: nat, k: nat)
    ensures SumEpochs(log, from, n + k) == SumEpochs(log, from, n) + SumEpochs(log, from + n, k)
  {
    if k == 0 {
    } else {
      SumSplit(log, from, n, k - 1);
    }
  }

  /** In every run, intervals of up to 85,800 seconds hold at most the cap. */
  lemma ShortIntervalsHold(cap: nat, attempts: seq<Spend>, from: int, length: nat)
    requires ClockRuns(attempts) && cap <= U64_MAX && length <= SAFE_SECONDS
    ensures Within(TryAll(cap, attempts).log, from, length) <= cap
  {
    WithinEpochs(TryAll(cap, attempts).log, from, length, EpochOf(from), EPOCHS);
    DailyCapHolds(cap, attempts, EpochOf(from));
  }

  /** In every run, no 24 hours hold more than twice the cap. */
  lemma DayWithinTwiceCap(cap: nat, attempts: seq<Spend>, from: int)
    requires ClockRuns(attempts) && cap <= U64_MAX
    ensures Within(TryAll(cap, attempts).log, from, DAY_SECONDS) <= 2 * cap
  {
    var log, e := TryAll(cap, attempts).log, EpochOf(from);
    WithinEpochs(log, from, DAY_SECONDS, e, EPOCHS + EPOCHS);
    SumSplit(log, e, EPOCHS, EPOCHS);
    DailyCapHolds(cap, attempts, e);
    DailyCapHolds(cap, attempts, e + EPOCHS);
  }

  // ---- Reusing the straddling slot ------------------------------------------------------------

  /** A spend is accepted when the ledger's own rolling total leaves room for it. */
  lemma Accepted(v: Vault, cap: nat, s: Spend)
    requires Reflects(v.tracker, v.log) && LastTime(v.log) <= s.at && s.at > 0 && s.amount > 0 && cap <= U64_MAX
    requires SumEpochs(v.log, EpochOf(s.at) - EPOCHS + 1, EPOCHS) + Boundary(v.log, s.at) + s.amount <= cap
    ensures Try(v, cap, s).log == v.log + [s] && Reflects(Try(v, cap, s).tracker, v.log + [s])
  {
    var e := EpochOf(s.at);
    RollingIsExact(v.tracker, v.log, s.at);
    SdkMirrorsChain(v.tracker, v.log, s.at);
    assert SumEpochs(v.log, e - EPOCHS + 1, EPOCHS) == SumEpochs(v.log, e - EPOCHS + 1, EPOCHS - 1) + Total(v.log, e);
    assert v.tracker.buckets[e % EPOCHS] == Expected(v.log, e % EPOCHS);
    RecordReflects(v.tracker, v.log, s.at, s.amount);
  }

  /** The last second of an epoch and the first of the epoch 144 later, on any day. */
  function Late(day: nat): int { DAY_SECONDS * day + 599 }

  function Early(day: nat): int { DAY_SECONDS * (day + 1) }

  lemma SlotTimes(day: nat)
    ensures EpochOf(Late(day)) == EPOCHS * day && EpochOf(Early(day)) == EPOCHS * day + EPOCHS
    ensures EpochOf(Late(day)) % EPOCHS == EpochOf(Early(day)) % EPOCHS
    ensures Early(day) % EPOCH == 0 && 0 < Late(day) && Early(day) == Late(day) + SAFE_SECONDS + 1
  {
  }

  /** Spend in the old epoch, write its slot again 144 epochs later, then spend as much again. */
  function ReuseRun(a: nat, b: nat, day: nat): seq<Spend> {
    [Spend(Late(day), a), Spend(Early(day), b), Spend(Early(day), a)]
  }

  lemma FirstRoom(day: nat)
    ensures SumEpochs([], EpochOf(Late(day)) - EPOCHS + 1, EPOCHS) + Boundary([], Late(day)) == 0
  {
    FutureOrEmpty(EpochOf(Late(day)) - EPOCHS + 1, EPOCHS);
    ScaledWhole(0);
  }

  lemma SecondRoom(a: nat, day: nat)
    ensures var log := [Spend(Late(day), a)];
            SumEpochs(log, EpochOf(Early(day)) - EPOCHS + 1, EPOCHS) + Boundary(log, Early(day)) == a
  {
    var s := Spend(Late(day), a);
    SlotTimes(day);
    var from := EpochOf(Early(day)) - EPOCHS + 1;
    assert [] + [s] == [s];
    SumSnoc([], s, from, EPOCHS);
    FutureOrEmpty(from, EPOCHS);
    Snoc([], s, EpochOf(Late(day)), EpochOf(Early(day)) % EPOCHS);
    ScaledWhole(a);
  }

  lemma ThirdRoom(a: nat, b: nat, day: nat)
    ensures var log := [Spend(Late(day), a), Spend(Early(day), b)];
            SumEpochs(log, EpochOf(Early(day)) - EPOCHS + 1, EPOCHS) + Boundary(log, Early(day)) == b
  {
    var s, t := Spend(Late(day), a), Spend(Early(day), b);
    SlotTimes(day);
    var from := EpochOf(Early(day)) - EPOCHS + 1;
    assert [] + [s] == [s] && [s] + [t] == [s, t];
    SumSnoc([], s, from, EPOCHS);
    SumSnoc([s], t, from, EPOCHS);
    FutureOrEmpty(from, EPOCHS);
    Snoc([s], t, from, EpochOf(Early(day)) % EPOCHS);
  }

  /** The whole run is accepted, on any day, whenever the cap has room for `a + b`. */
  lemma ReuseAccepted(cap: nat, a: nat, b: nat, day: nat)
    requires 0 < a && 0 < b && a + b <= cap <= U64_MAX
    ensures ClockRuns(ReuseRun(a, b, day)) && TryAll(cap, ReuseRun(a, b, day)).log == ReuseRun(a, b, day)
  {
    var s, t, u := Spend(Late(day), a), Spend(Early(day), b), Spend(Early(day), a);
    SlotTimes(day);
    assert ReuseRun(a, b, day)[..2] == [s, t] && [s, t][..1] == [s] && [s][..0] == [];
    var v0 := Vault(Zeroed(), []);
    assert TryAll(cap, []) == v0;
    ZeroedReflects();
    FirstRoom(day);
    Accepted(v0, cap, s);
    var v1 := TryAll(cap, [s]);
    assert v1 == Try(v0, cap, s) && v1.log == [s];
    SecondRoom(a, day);
    Accepted(v1, cap, t);
    var v2 := TryAll(cap, [s, t]);
    assert v2 == Try(v1, cap, t) && v2.log == [s, t];
    ThirdRoom(a, b, day);
    Accepted(v2, cap, u);
  }

  lemma ReuseTotal(a: nat, b: nat, day: nat, length: nat)
    requires length > SAFE_SECONDS
    ensures Within(ReuseRun(a, b, day), Late(day), length) == 2 * a + b
  {
    var s, t, u := Spend(Late(day), a), Spend(Early(day), b), Spend(Early(day), a);
    SlotTimes(day);
    assert [] + [s] == [s] && [s] + [t] == [s, t] && [s, t] + [u] == ReuseRun(a, b, day);
    WithinSnoc([], s, Late(day), length);
    WithinSnoc([s], t, Late(day), length);
    WithinSnoc([s, t], u, Late(day), length);
  }

  /**
   * A day is not bounded by the cap: three accepted positive spends put one unit less than
   * twice the cap into 85,801 seconds, on any day and under any cap of at least two.
   */
  lemma DayExceedsCap(cap: nat, day: nat)
    requires 2 <= cap <= U64_MAX
    ensures var run := ReuseRun(cap - 1, 1, day);
            && ClockRuns(run) && TryAll(cap, run).log == run
            && Within(run, Late(day), SAFE_SECONDS + 1) == 2 * cap - 1
  {
    ReuseAccepted(cap, cap - 1, 1, day);
    ReuseTotal(cap - 1, 1, day, SAFE_SECONDS + 1);
  }

  // ---- A cap of one unit ----------------------------------------------------------------------

  /** The shortest time between two spends under a cap of one unit. */
  const UNIT_GAP: nat := SAFE_SECONDS + 2

  /** Single units, at least `gap` seconds apart. */
  predicate Spaced(log: seq<Spend>, gap: nat) {
    log == [] ||
    (var init, s := log[..|log| - 1], log[|log| - 1];
     s.amount == 1 && (init != [] ==> LastTime(init) + gap <= s.at) && Spaced(init, gap))
  }

  lemma {:induction false} TotalInSum(log: seq<Spend>, from: int, n: nat, e: int)
    requires from <= e < from + n
    ensures Total(log, e) <= SumEpochs(log, from, n)
  {
    if e < from + n - 1 {
      TotalInSum(log, from, n - 1, e);
    }
  }

  /** Under a cap of one unit a spend is accepted only long after the one before. */
  lemma AcceptedSpaced(v: Vault, s: Spend)
    requires Reflects(v.tracker, v.log) && LastTime(v.log) <= s.at && Spaced(v.log, UNIT_GAP)
    requires Attempt(v.tracker, 1, s.at, s.amount).Ok?
    ensures Spaced(v.log + [s], UNIT_GAP)
  {
    assert (v.log + [s])[..|v.log|] == v.log;
    RollingIsExact(v.tracker, v.log, s.at);
    SdkMirrorsChain(v.tracker, v.log, s.at);
    if v.log != [] {
      var e, f := EpochOf(s.at), EpochOf(LastTime(v.log));
      assert Total(v.log, f) >= 1;
      if f > e - EPOCHS {
        TotalInSum(v.log, e - EPOCHS + 1, EPOCHS, f);
        assert false;
      } else if f == e - EPOCHS {
        LastInFacts(v.log, e % EPOCHS);
        LateRefused(v.log, s.at);
      }
    }
  }

  /** In the first second of an epoch the straddling one still counts in full. */
  lemma LateRefused(log: seq<Spend>, now: int)
    requires now > 0 && LastIn(log, EpochOf(now) % EPOCHS) != Some(EpochOf(now))
    ensures now % EPOCH == 0 ==> Boundary(log, now) == Total(log, EpochOf(now) - EPOCHS)
  {
    ScaledWhole(Total(log, EpochOf(now) - EPOCHS));
  }

  lemma {:induction false} UnitsSpaced(attempts: seq<Spend>)
    requires ClockRuns(attempts)
    ensures Spaced(TryAll(1, attempts).log, UNIT_GAP)
  {
    if attempts == [] {
    } else {
      var init, s := attempts[..|attempts| - 1], attempts[|attempts| - 1];
      UnitsSpaced(init);
      CapInvariant(1, init);
      CapInvariant(1, attempts);
      var v := TryAll(1, init);
      if Attempt(v.tracker, 1, s.at, s.amount).Ok? {
        AcceptedSpaced(v, s);
      }
    }
  }

  lemma {:induction false} NothingAfterLast(log: seq<Spend>, gap: nat, from: int, length: nat)
    requires Spaced(log, gap) && (log != [] ==> LastTime(log) < from)
    ensures Within(log, from, length) == 0
  {
    if log == [] {
    } else {
      NothingAfterLast(log[..|log| - 1], gap, from, length);
    }
  }

  lemma {:induction false} SpacedWithin(log: seq<Spend>, gap: nat, from: int, length: nat)
    requires Spaced(log, gap) && length < gap
    ensures Within(log, from, length) <= 1
  {
    if log == [] {
    } else {
      var init, s := log[..|log| - 1], log[|log| - 1];
      SpacedWithin(init, gap, from, length);
      if from <= s.at <= from + length {
        NothingAfterLast(init, gap, from, length);
      }
    }
  }

  /** One unit late in an epoch, and one in the second second of the epoch 144 later. */
  lemma UnitReuse(length: nat)
    requires length >= UNIT_GAP
    ensures var run := [Spend(Late(0), 1), Spend(Early(0) + 1, 1)];
            ClockRuns(run) && Within(TryAll(1, run).log, Late(0), length) == 2
  {
    var s, t := Spend(Late(0), 1), Spend(Early(0) + 1, 1);
    assert [s, t][..1] == [s] && [s][..0] == [] && [] + [s] == [s] && [s] + [t] == [s, t];
    var v0 := Vault(Zeroed(), []);
    assert TryAll(1, []) == v0;
    ZeroedReflects();
    FirstRoom(0);
    Accepted(v0, 1, s);
    var v1 := TryAll(1, [s]);
    assert v1 == Try(v0, 1, s) && v1.log == [s];
    UnitRoom();
    Accepted(v1, 1, t);
    WithinSnoc([], s, Late(0), length);
    WithinSnoc([s], t, Late(0), length);
  }

  lemma UnitRoom()
    ensures var log := [Spend(Late(0), 1)];
            SumEpochs(log, EpochOf(Early(0) + 1) - EPOCHS + 1, EPOCHS) + Boundary(log, Early(0) + 1) == 0
  {
    var s := Spend(Late(0), 1);
    assert [] + [s] == [s];
    SumSnoc([], s, 1, EPOCHS);
    FutureOrEmpty(1, EPOCHS);
    Snoc([], s, 0, 0);
    assert Total([s], 0) == 1 && Scaled(1, 599) == 0;
  }

  // ---- The exact lengths ------------------------------------------------------------------------

  lemma {:induction false} NothingUnderZero(attempts: seq<Spend>)
    ensures TryAll(0, attempts).log == []
  {
    if attempts == [] {
    } else {
      NothingUnderZero(attempts[..|attempts| - 1]);
    }
  }

  /** 85,800 seconds, or one second more where the cap is a single unit. */
  function SafeSeconds(cap: nat): nat { if cap == 1 then SAFE_SECONDS + 1 else SAFE_SECONDS }

  /** The cap bounds every interval of a length in every run if and only if it is zero or the length is safe. */
  lemma IntervalsBoundedExactly(cap: nat, length: nat)
    requires cap <= U64_MAX
    ensures IntervalsBounded(cap, length) <==> cap == 0 || length <= SafeSeconds(cap)
  {
    if cap == 0 || length <= SafeSeconds(cap) {
      forall attempts: seq<Spend>, from: int | ClockRuns(attempts)
        ensures Within(TryAll(cap, attempts).log, from, length) <= cap
      {
        if cap == 0 {
          NothingUnderZero(attempts);
        } else if cap == 1 {
          UnitsSpaced(attempts);
          SpacedWithin(TryAll(1, attempts).log, UNIT_GAP, from, length);
        } else {
          ShortIntervalsHold(cap, attempts, from, length);
        }
      }
    } else if cap == 1 {
      UnitReuse(length);
      var run := [Spend(Late(0), 1), Spend(Early(0) + 1, 1)];
      assert Within(TryAll(1, run).log, Late(0), length) > 1;
    } else {
      var run := ReuseRun(cap - 1, 1, 0);
      ReuseAccepted(cap, cap - 1, 1, 0);
      ReuseTotal(cap - 1, 1, 0, length);
      assert Within(TryAll(cap, run).log, Late(0), length) > cap;
    }
  }
}
