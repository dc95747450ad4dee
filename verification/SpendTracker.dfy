/**
 * The on-chain spend tracker: 144 ten-minute buckets reused every day, the rolling
 * 24-hour total the SDK recomputes from them, and the daily cap that total enforces.
 */
module SpendTracker {
  import opened Common

  const EPOCH := 600
  const EPOCHS := 144
  const DAY_SECONDS := 86_400
  const U64_MAX: nat := 0xFFFF_FFFF_FFFF_FFFF

  datatype Bucket = Bucket(epochId: int, usd: nat)

  datatype Tracker = Tracker(buckets: seq<Bucket>, lastWriteEpoch: int)

  datatype Error = InvalidSession | Overflow | SpendingCapExceeded | TransactionTooLarge | AgentSpendLimitExceeded

  /** One recorded spend. */
  datatype Spend = Spend(at: int, amount: nat)

  function EpochOf(t: int): int { t / EPOCH }

  /** `SpendTracker::record_spend`. */
  function RecordSpend(t: Tracker, now: int, amount: nat): (r: Result<Tracker, Error>)
    requires |t.buckets| == EPOCHS
    ensures r.Ok? ==> |r.value.buckets| == EPOCHS
  {
    if now <= 0 then Err(InvalidSession) else
      var e := EpochOf(now);
      var b := t.buckets[e % EPOCHS];
      var kept := if b.epochId != e then 0 else b.usd;
      if kept + amount > U64_MAX then Err(Overflow)
      else Ok(Tracker(t.buckets[e % EPOCHS := Bucket(e, kept + amount)], e))
  }

  function Zeroed(): (t: Tracker)
    ensures |t.buckets| == EPOCHS && forall i :: 0 <= i < EPOCHS ==> t.buckets[i] == Bucket(0, 0)
  {
    Tracker(seq(EPOCHS, _ => Bucket(0, 0)), 0)
  }

  /** What one bucket adds to the rolling total at `now`, for a window from `windowStart`. */
  function ShareFrom(b: Bucket, now: int, windowStart: int): nat {
    var bucketStart := b.epochId * EPOCH;
    var bucketEnd := bucketStart + EPOCH;
    if b.usd == 0 || bucketEnd <= windowStart || b.epochId > EpochOf(now) then 0
    else if bucketStart >= windowStart then b.usd
    else Scaled(b.usd, bucketEnd - windowStart)
  }

  /** The SDK starts the window at zero where a day before `now` would be negative. */
  function Share(b: Bucket, now: int): nat {
    ShareFrom(b, now, if now > DAY_SECONDS then now - DAY_SECONDS else 0)
  }

  function Scaled(usd: nat, overlap: nat): nat {
    usd * overlap / EPOCH
  }

  function Shares(bs: seq<Bucket>, now: int, n: nat): nat
    requires n <= |bs|
  {
    if n == 0 then 0 else Shares(bs, now, n - 1) + Share(bs[n - 1], now)
  }

  function Clamp(n: nat): nat { if n > U64_MAX then U64_MAX else n }

  function Rolling(t: Tracker, now: int): nat {
    if now <= 0 || EpochOf(now) - t.lastWriteEpoch > EPOCHS then 0 else Clamp(Shares(t.buckets, now, |t.buckets|))
  }

  function OnChainShares(bs: seq<Bucket>, now: int, n: nat): nat
    requires n <= |bs|
  {
    if n == 0 then 0 else OnChainShares(bs, now, n - 1) + ShareFrom(bs[n - 1], now, now - DAY_SECONDS)
  }

  /** `SpendTracker::get_rolling_24h_usd`, which lets the window start before zero. */
  function OnChainRolling(t: Tracker, now: int): nat {
    if now <= 0 || EpochOf(now) - t.lastWriteEpoch > EPOCHS then 0
    else Clamp(OnChainShares(t.buckets, now, |t.buckets|))
  }

  /** `getRolling24hUsd`. */
  method GetRolling24hUsd(t: Tracker, now: int) returns (r: nat)
    ensures r == Rolling(t, now)
  {
    if now <= 0 {
      return 0;
    }
    var currentEpoch := now / EPOCH;
    if currentEpoch - t.lastWriteEpoch > EPOCHS {
      return 0;
    }
    var windowStart := if now > DAY_SECONDS then now - DAY_SECONDS else 0;
    var total := 0;
    for n := 0 to |t.buckets|
      invariant total == Shares(t.buckets, now, n)
    {
      var b := t.buckets[n];
      if b.usd == 0 {
        continue;
      }
      var bucketStart := b.epochId * EPOCH;
      var bucketEnd := bucketStart + EPOCH;
      if bucketEnd <= windowStart || b.epochId > currentEpoch {
        continue;
      }
      if bucketStart >= windowStart {
        total := total + b.usd;
      } else {
        var overlap := bucketEnd - windowStart;
        total := total + Scaled(b.usd, overlap);
      }
    }
    r := if total > U64_MAX then U64_MAX else total;
  }

  /** The account the program updates in place. */
  class TrackerAccount {
    const buckets: array<Bucket>
    var lastWriteEpoch: int

    function View(): Tracker
      reads this, buckets
    {
      Tracker(buckets[..], lastWriteEpoch)
    }

    constructor ()
      ensures fresh(buckets) && View() == Zeroed()
    {
      buckets := new Bucket[EPOCHS](_ => Bucket(0, 0));
      lastWriteEpoch := 0;
      new;
      assert buckets[..] == Zeroed().buckets;
    }

    /** A failed call leaves the account as it was. */
    method Record(now: int, amount: nat) returns (r: Result<int, Error>)
      requires buckets.Length == EPOCHS
      modifies this, buckets
      ensures match RecordSpend(old(View()), now, amount)
              case Ok(t) => r == Ok(EpochOf(now)) && View() == t
              case Err(e) => r == Err(e) && View() == old(View())
    {
      if now <= 0 {
        return Err(InvalidSession);
      }
      var currentEpoch := now / EPOCH;
      var idx := currentEpoch % EPOCHS;
      var kept := if buckets[idx].epochId != currentEpoch then 0 else buckets[idx].usd;
      if kept + amount > U64_MAX {
        return Err(Overflow);
      }
      buckets[idx] := Bucket(currentEpoch, kept + amount);
      lastWriteEpoch := currentEpoch;
      return Ok(currentEpoch);
    }
  }

  // ---- The unbounded ledger -----------------------------------------------------------------

  /** Everything spent in an epoch. */
  function Total(log: seq<Spend>, e: int): nat {
    if log == [] then 0 else
      var s := log[|log| - 1];
      Total(log[..|log| - 1], e) + if EpochOf(s.at) == e then s.amount else 0
  }

  /** The most recent epoch with a record in bucket slot `i`. */
  function LastIn(log: seq<Spend>, i: int): Option<int> {
    if log == [] then None else
      var e := EpochOf(log[|log| - 1].at);
      if e % EPOCHS == i then Some(e) else LastIn(log[..|log| - 1], i)
  }

  function LastTime(log: seq<Spend>): int {
    if log == [] then 0 else log[|log| - 1].at
  }

  /** Times are positive and never go back. */
  predicate Chronological(log: seq<Spend>) {
    log == [] ||
    (var s := log[|log| - 1];
     s.at > 0 && LastTime(log[..|log| - 1]) <= s.at && Chronological(log[..|log| - 1]))
  }

  /** What slot `i` must hold. */
  function Expected(log: seq<Spend>, i: int): Bucket {
    var e := LastIn(log, i);
    if e.None? then Bucket(0, 0) else Bucket(e.value, Total(log, e.value))
  }

  /** The ring is the ledger, as far as 144 slots can tell. */
  predicate Reflects(t: Tracker, log: seq<Spend>) {
    && |t.buckets| == EPOCHS && Chronological(log)
    && t.lastWriteEpoch == (if log == [] then 0 else EpochOf(LastTime(log)))
    && forall i :: 0 <= i < EPOCHS ==> t.buckets[i] == Expected(log, i)
  }

  lemma {:induction false} LastInFacts(log: seq<Spend>, i: int)
    requires Chronological(log)
    ensures LastIn(log, i).Some? ==>
              LastIn(log, i).value % EPOCHS == i && 0 <= LastIn(log, i).value <= EpochOf(LastTime(log))
    ensures 0 <= LastTime(log)
  {
    if log == [] {
    } else {
      LastInFacts(log[..|log| - 1], i);
    }
  }

  /** An epoch that its slot has not seen, or has not reached yet, has no spend. */
  lemma {:induction false} UnseenIsZero(log: seq<Spend>, e: int)
    requires Chronological(log)
    requires LastIn(log, e % EPOCHS).None? || LastIn(log, e % EPOCHS).value < e
    ensures Total(log, e) == 0
  {
    if log == [] {
    } else {
      var init, f := log[..|log| - 1], EpochOf(log[|log| - 1].at);
      if f % EPOCHS == e % EPOCHS {
        LastInFacts(init, e % EPOCHS);
      }
      UnseenIsZero(init, e);
    }
  }

  /** Nothing is spent in an epoch after the last record. */
  lemma {:induction false} FutureIsZero(log: seq<Spend>, e: int)
    requires Chronological(log) && EpochOf(LastTime(log)) < e
    ensures Total(log, e) == 0
  {
    if log == [] {
    } else {
      FutureIsZero(log[..|log| - 1], e);
    }
  }

  lemma Snoc(log: seq<Spend>, s: Spend, e: int, i: int)
    ensures Total(log + [s], e) == Total(log, e) + if EpochOf(s.at) == e then s.amount else 0
    ensures LastIn(log + [s], i) == if EpochOf(s.at) % EPOCHS == i then Some(EpochOf(s.at)) else LastIn(log, i)
  {
    assert (log + [s])[..|log|] == log;
  }

  lemma RecordSlot(t: Tracker, log: seq<Spend>, now: int, amount: nat, i: nat)
    requires Reflects(t, log) && LastTime(log) <= now && i < EPOCHS && RecordSpend(t, now, amount).Ok?
    ensures RecordSpend(t, now, amount).value.buckets[i] == Expected(log + [Spend(now, amount)], i)
  {
    var e, s := EpochOf(now), Spend(now, amount);
    Snoc(log, s, e, i);
    LastInFacts(log, i);
    if i == e % EPOCHS {
      assert t.buckets[i] == Expected(log, i);
      var last := LastIn(log, i);
      if last.None? || last.value != e {
        UnseenIsZero(log, e);
      }
    } else {
      assert t.buckets[i] == Expected(log, i);
      if LastIn(log, i).Some? {
        Snoc(log, s, LastIn(log, i).value, i);
      }
    }
  }

  lemma RecordReflects(t: Tracker, log: seq<Spend>, now: int, amount: nat)
    requires Reflects(t, log) && LastTime(log) <= now && RecordSpend(t, now, amount).Ok?
    ensures Reflects(RecordSpend(t, now, amount).value, log + [Spend(now, amount)])
  {
    assert (log + [Spend(now, amount)])[..|log|] == log;
    forall i | 0 <= i < EPOCHS
      ensures RecordSpend(t, now, amount).value.buckets[i] == Expected(log + [Spend(now, amount)], i)
    {
      RecordSlot(t, log, now, amount, i);
    }
  }

  // ---- The rolling total --------------------------------------------------------------------

  /** Ledger total of `n` consecutive epochs. */
  function SumEpochs(log: seq<Spend>, from: int, n: nat): nat {
    if n == 0 then 0 else SumEpochs(log, from, n - 1) + Total(log, from + n - 1)
  }

  /** The part of the oldest, straddling epoch that is still counted: only until its slot is reused. */
  function Boundary(log: seq<Spend>, now: int): nat {
    var e := EpochOf(now);
    if LastIn(log, e % EPOCHS) == Some(e) then 0 else Scaled(Total(log, e - EPOCHS), EPOCH - now % EPOCH)
  }

  lemma ScaledWhole(usd: nat)
    ensures Scaled(usd, EPOCH) == usd
    ensures forall overlap: nat :: Scaled(0, overlap) == 0
  {
  }

  lemma ShareInside(b: Bucket, now: int)
    requires now > 0 && 0 <= b.epochId && EpochOf(now) - EPOCHS < b.epochId <= EpochOf(now)
    ensures Share(b, now) == b.usd
  {
  }

  lemma ShareStraddling(b: Bucket, now: int)
    requires now > 0 && 0 <= b.epochId == EpochOf(now) - EPOCHS
    ensures Share(b, now) == Scaled(b.usd, EPOCH - now % EPOCH)
  {
    assert now == EpochOf(now) * EPOCH + now % EPOCH;
    ScaledWhole(b.usd);
  }

  lemma ShareOutside(b: Bucket, now: int)
    requires now > 0 && (b.usd == 0 || 0 <= b.epochId < EpochOf(now) - EPOCHS)
    ensures Share(b, now) == 0
  {
  }

  lemma SameSlot(e: int, f: int)
    requires e % EPOCHS == f % EPOCHS && f <= e
    ensures f == e || f == e - EPOCHS || f < e - EPOCHS
    ensures (e - EPOCHS) % EPOCHS == e % EPOCHS
  {
  }

  /** Each slot adds its epoch of the last day, and the current epoch's slot also the straddling one. */
  lemma SlotShare(t: Tracker, log: seq<Spend>, now: int, e: int)
    requires Reflects(t, log) && LastTime(log) <= now && now > 0
    requires EpochOf(now) - EPOCHS < e <= EpochOf(now)
    ensures Share(t.buckets[e % EPOCHS], now) == Total(log, e) + if e == EpochOf(now) then Boundary(log, now) else 0
  {
    var b, last := t.buckets[e % EPOCHS], LastIn(log, e % EPOCHS);
    assert b == Expected(log, e % EPOCHS);
    LastInFacts(log, e % EPOCHS);
    SameSlot(e, e);
    ScaledWhole(0);
    if last.None? {
      UnseenIsZero(log, e);
      UnseenIsZero(log, e - EPOCHS);
      ShareOutside(b, now);
    } else {
      LastBefore(log, now, e);
      SameSlot(e, last.value);
      if last.value == e {
        ShareInside(b, now);
      } else {
        UnseenIsZero(log, e);
        if last.value == e - EPOCHS && e == EpochOf(now) {
          ShareStraddling(b, now);
        } else {
          if e == EpochOf(now) {
            UnseenIsZero(log, e - EPOCHS);
          }
          ShareOutside(b, now);
        }
      }
    }
  }

  /** The last epoch written in a slot is not after the epoch the slot stands for now. */
  lemma LastBefore(log: seq<Spend>, now: int, e: int)
    requires Chronological(log) && LastTime(log) <= now && EpochOf(now) - EPOCHS < e <= EpochOf(now)
    requires LastIn(log, e % EPOCHS).Some?
    ensures LastIn(log, e % EPOCHS).value <= e
  {
    LastInFacts(log, e % EPOCHS);
  }

  /** Sum over slots, met in the order of `n` epochs from `from`. */
  function SlotSum(bs: seq<Bucket>, now: int, from: int, n: nat): nat
    requires |bs| == EPOCHS
  {
    if n == 0 then 0 else SlotSum(bs, now, from, n - 1) + Share(bs[(from + n - 1) % EPOCHS], now)
  }

  lemma {:induction false} SlotSumHead(bs: seq<Bucket>, now: int, from: int, n: nat)
    requires |bs| == EPOCHS
    ensures SlotSum(bs, now, from, n + 1) == Share(bs[from % EPOCHS], now) + SlotSum(bs, now, from + 1, n)
  {
    if n == 0 {
    } else {
      SlotSumHead(bs, now, from, n - 1);
    }
  }

  /** A full lap meets every slot once, wherever it starts. */
  lemma SlotSumShift(bs: seq<Bucket>, now: int, from: int)
    requires |bs| == EPOCHS
    ensures SlotSum(bs, now, from, EPOCHS) == SlotSum(bs, now, from + 1, EPOCHS)
  {
    SlotSumHead(bs, now, from, EPOCHS - 1);
    var last := from + 1 + EPOCHS - 1;
    SameSlot(last, last);
    assert SlotSum(bs, now, from + 1, EPOCHS) == SlotSum(bs, now, from + 1, EPOCHS - 1) + Share(bs[last % EPOCHS], now);
  }

  lemma {:induction false} SlotSumAnywhere(bs: seq<Bucket>, now: int, from: int)
    requires |bs| == EPOCHS
    ensures SlotSum(bs, now, from, EPOCHS) == Shares(bs, now, EPOCHS)
    decreases if from < 0 then -from else from
  {
    if from == 0 {
      SlotSumFromZero(bs, now, EPOCHS);
    } else if from > 0 {
      SlotSumAnywhere(bs, now, from - 1);
      SlotSumShift(bs, now, from - 1);
    } else {
      SlotSumAnywhere(bs, now, from + 1);
      SlotSumShift(bs, now, from);
    }
  }

  lemma OwnSlot(i: nat)
    requires i < EPOCHS
    ensures (0 + i) % EPOCHS == i
  {
  }

  lemma {:induction false} SlotSumFromZero(bs: seq<Bucket>, now: int, n: nat)
    requires |bs| == EPOCHS && n <= EPOCHS
    ensures SlotSum(bs, now, 0, n) == Shares(bs, now, n)
  {
    if n == 0 {
    } else {
      SlotSumFromZero(bs, now, n - 1);
      OwnSlot(n - 1);
      assert SlotSum(bs, now, 0, n) == SlotSum(bs, now, 0, n - 1) + Share(bs[(0 + n - 1) % EPOCHS], now);
    }
  }

  lemma {:induction false} SlotSumIsEpochSum(t: Tracker, log: seq<Spend>, now: int, n: nat)
    requires Reflects(t, log) && LastTime(log) <= now && now > 0 && n <= EPOCHS
    ensures SlotSum(t.buckets, now, EpochOf(now) - EPOCHS + 1, n)
            == SumEpochs(log, EpochOf(now) - EPOCHS + 1, n) + if n == EPOCHS then Boundary(log, now) else 0
  {
    if n == 0 {
    } else {
      SlotSumIsEpochSum(t, log, now, n - 1);
      SlotShare(t, log, now, EpochOf(now) - EPOCHS + n);
    }
  }

  lemma {:induction false} FutureSumIsZero(log: seq<Spend>, from: int, n: nat)
    requires Chronological(log) && EpochOf(LastTime(log)) < from
    ensures SumEpochs(log, from, n) == 0
  {
    if n == 0 {
    } else {
      FutureSumIsZero(log, from, n - 1);
      FutureIsZero(log, from + n - 1);
    }
  }

  /**
   * The rolling total is exactly the ledger total of the last 144 epochs, plus the
   * proportional part of the epoch before them until its slot is written again.
   */
  lemma RollingIsExact(t: Tracker, log: seq<Spend>, now: int)
    requires Reflects(t, log) && LastTime(log) <= now && now > 0
    ensures Rolling(t, now) == Clamp(SumEpochs(log, EpochOf(now) - EPOCHS + 1, EPOCHS) + Boundary(log, now))
  {
    var c := EpochOf(now);
    if c - t.lastWriteEpoch > EPOCHS {
      FutureSumIsZero(log, c - EPOCHS + 1, EPOCHS);
      FutureIsZero(log, c - EPOCHS);
      ScaledWhole(0);
    } else {
      SlotSumIsEpochSum(t, log, now, EPOCHS);
      SlotSumAnywhere(t.buckets, now, c - EPOCHS + 1);
    }
  }

  lemma {:induction false} SharesAgree(t: Tracker, log: seq<Spend>, now: int, n: nat)
    requires Reflects(t, log) && n <= EPOCHS
    ensures OnChainShares(t.buckets, now, n) == Shares(t.buckets, now, n)
  {
    if n == 0 {
    } else {
      SharesAgree(t, log, now, n - 1);
      assert t.buckets[n - 1] == Expected(log, n - 1);
      LastInFacts(log, n - 1);
    }
  }

  /** The SDK's total is the program's own, for every state the program can be in. */
  lemma SdkMirrorsChain(t: Tracker, log: seq<Spend>, now: int)
    requires Reflects(t, log)
    ensures Rolling(t, now) == OnChainRolling(t, now)
  {
    SharesAgree(t, log, now, EPOCHS);
  }

  // ---- The daily cap ------------------------------------------------------------------------

  /**
   * The gate of `agent_transfer` and `finalize_session`: check the rolling total, then record.
   * The first refuses an amount of zero and the second records none.
   */
  function Attempt(t: Tracker, cap: nat, now: int, amount: nat): Result<Tracker, Error>
    requires |t.buckets| == EPOCHS
  {
    if amount == 0 then Err(TransactionTooLarge)
    else if OnChainRolling(t, now) + amount > U64_MAX then Err(Overflow)
    else if OnChainRolling(t, now) + amount > cap then Err(SpendingCapExceeded)
    else RecordSpend(t, now, amount)
  }

  /** A vault under one cap: rejected attempts leave no trace. */
  datatype Vault = Vault(tracker: Tracker, log: seq<Spend>)

  function Try(v: Vault, cap: nat, s: Spend): (r: Vault)
    requires |v.tracker.buckets| == EPOCHS
    ensures |r.tracker.buckets| == EPOCHS
  {
    match Attempt(v.tracker, cap, s.at, s.amount)
    case Err(_) => v
    case Ok(t) => Vault(t, v.log + [s])
  }

  function TryAll(cap: nat, attempts: seq<Spend>): (r: Vault)
    ensures |r.tracker.buckets| == EPOCHS
  {
    if attempts == [] then Vault(Zeroed(), [])
    else Try(TryAll(cap, attempts[..|attempts| - 1]), cap, attempts[|attempts| - 1])
  }

  predicate ClockRuns(attempts: seq<Spend>) {
    forall i, j :: 0 <= i < j < |attempts| ==> attempts[i].at <= attempts[j].at
  }

  ghost predicate CapHolds(log: seq<Spend>, cap: nat) {
    forall e :: SumEpochs(log, e, EPOCHS) <= cap
  }

  lemma {:induction false} SumSnoc(log: seq<Spend>, s: Spend, from: int, n: nat)
    ensures SumEpochs(log + [s], from, n)
            == SumEpochs(log, from, n) + if from <= EpochOf(s.at) < from + n then s.amount else 0
  {
    if n == 0 {
    } else {
      SumSnoc(log, s, from, n - 1);
      Snoc(log, s, from + n - 1, 0);
    }
  }

  /** Moving the window forward past the last record only loses spend. */
  lemma {:induction false} LaterWindowSmaller(log: seq<Spend>, from: int, k: nat, n: nat)
    requires Chronological(log) && EpochOf(LastTime(log)) < from + n
    ensures SumEpochs(log, from + k, n) <= SumEpochs(log, from, n)
  {
    if k == 0 {
    } else {
      LaterWindowSmaller(log, from, k - 1, n);
      SumHead(log, from + k - 1, n);
      FutureIsZero(log, from + k - 1 + n);
    }
  }

  lemma {:induction false} SumHead(log: seq<Spend>, from: int, n: nat)
    ensures SumEpochs(log, from, n) + Total(log, from + n) == Total(log, from) + SumEpochs(log, from + 1, n)
  {
    if n == 0 {
    } else {
      SumHead(log, from, n - 1);
    }
  }

  lemma AcceptedKeepsCap(v: Vault, cap: nat, s: Spend)
    requires Reflects(v.tracker, v.log) && CapHolds(v.log, cap) && LastTime(v.log) <= s.at && cap <= U64_MAX
    requires Attempt(v.tracker, cap, s.at, s.amount).Ok?
    ensures CapHolds(v.log + [s], cap)
  {
    var c := EpochOf(s.at);
    var day := c - EPOCHS + 1;
    RollingIsExact(v.tracker, v.log, s.at);
    SdkMirrorsChain(v.tracker, v.log, s.at);
    assert SumEpochs(v.log, day, EPOCHS) <= cap;
    forall e ensures SumEpochs(v.log + [s], e, EPOCHS) <= cap {
      SumSnoc(v.log, s, e, EPOCHS);
      assert SumEpochs(v.log, e, EPOCHS) <= cap;
      if e <= c < e + EPOCHS {
        LaterWindowSmaller(v.log, day, e - day, EPOCHS);
      }
    }
  }

  lemma ZeroedReflects()
    ensures Reflects(Zeroed(), [])
  {
  }

  lemma {:induction false} CapInvariant(cap: nat, attempts: seq<Spend>)
    requires ClockRuns(attempts) && cap <= U64_MAX
    ensures var v := TryAll(cap, attempts);
            && Reflects(v.tracker, v.log) && CapHolds(v.log, cap)
            && (v.log != [] ==> attempts != [] && LastTime(v.log) <= attempts[|attempts| - 1].at)
  {
    if attempts == [] {
      ZeroedReflects();
      forall e ensures SumEpochs([], e, EPOCHS) == 0 {
        FutureOrEmpty(e, EPOCHS);
      }
    } else {
      var init, s := attempts[..|attempts| - 1], attempts[|attempts| - 1];
      CapInvariant(cap, init);
      var v := TryAll(cap, init);
      if Attempt(v.tracker, cap, s.at, s.amount).Ok? {
        AcceptedKeepsCap(v, cap, s);
        RecordReflects(v.tracker, v.log, s.at, s.amount);
      }
    }
  }

  lemma {:induction false} FutureOrEmpty(e: int, n: nat)
    ensures SumEpochs([], e, n) == 0
  {
    if n == 0 {
    } else {
      FutureOrEmpty(e, n - 1);
    }
  }

  /** In every run of spending attempts, any 144 consecutive epochs hold at most the daily cap. */
  lemma DailyCapHolds(cap: nat, attempts: seq<Spend>, from: int)
    requires ClockRuns(attempts) && cap <= U64_MAX
    ensures SumEpochs(TryAll(cap, attempts).log, from, EPOCHS) <= cap
  {
    CapInvariant(cap, attempts);
  }
}
