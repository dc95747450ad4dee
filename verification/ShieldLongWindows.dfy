/**
 * Windows of more than a day. Pruning drops entries and stamps older than a day once more than
 * 10,000 are kept, so a longer window forgets what it should still count.
 */
module ShieldLongWindows {
  import opened Common
  import opened Addresses
  import opened Inspector
  import opened ShieldWindows
  import opened Shield
  import opened ShieldRuns
  import opened ShieldRates
  import opened ShieldScenarios

  /** In every run of every context with this limit, every interval of its window holds at most the limit. */
  ghost predicate AlwaysBounded(limit: SpendLimit) {
    forall c: Config, steps: seq<Step>, from: int :: limit in c.policy.spendLimits && IsRun(c, Initial(0), steps) ==>
      SpentWindow(Run(c, Initial(0), steps).history.spends, limit.mint, from, WindowOf(limit)) <= Ceiling(limit.amount)
  }

  /** In every run of every context with this rate limit, every interval of its window holds at most its maximum. */
  ghost predicate RateAlwaysBounded(rate: RateLimit) {
    forall c: Config, steps: seq<Step>, from: int :: c.policy.rateLimit == rate && IsRun(c, Initial(0), steps) ==>
      CountWindow(Run(c, Initial(0), steps).history.txs, from, rate.windowMs) <= Ceiling(rate.maxTransactions)
  }

  // ---- Times one window apart -----------------------------------------------------------------

  /** Longer than the rate window. */
  function Gap(rate: RateLimit): nat { if rate.windowMs < 0 then 1 else rate.windowMs + 1 }

  function Spaced(gap: nat, n: nat): (at: seq<int>)
    ensures |at| == n && forall i :: 0 <= i < n ==> at[i] == i * gap
  {
    seq(n, i => i * gap)
  }

  lemma SpacedOrdered(gap: nat, n: nat)
    ensures Ordered(Spaced(gap, n))
  {
    forall i, j | 0 <= i <= j < n ensures 0 <= i * gap <= j * gap {
      ScaleOrder(i, j, gap);
    }
  }

  /** None of them is within the rate window of a later one. */
  lemma SpacedApart(rate: RateLimit, n: nat, now: int)
    requires n * Gap(rate) <= now
    ensures forall i :: 0 <= i < n ==> Spaced(Gap(rate), n)[i] < now - rate.windowMs
  {
    forall i | 0 <= i < n ensures i * Gap(rate) < now - rate.windowMs {
      ScaleOrder(i, n, Gap(rate));
    }
  }

  lemma SpacedPrefix(gap: nat, n: nat, i: nat)
    requires i <= n
    ensures Spaced(gap, n)[..i] == Spaced(gap, i)
  {
  }

  lemma SpacedInRate(rate: RateLimit, n: nat, now: int)
    requires n * Gap(rate) <= now && rate.maxTransactions >= 1
    ensures InRate(rate, Spaced(Gap(rate), n), now)
  {
    SpacedApart(rate, n, now);
    NoneRecent(Spaced(Gap(rate), n), now - rate.windowMs);
  }

  // ---- Forgetting spends ----------------------------------------------------------------------

  lemma {:induction false} ZeroMarks(mint: Address, at: seq<int>)
    ensures Spent(AllMarks(Payments(Some(mint), 0), at), mint) == 0
    ensures |AllMarks(Payments(Some(mint), 0), at)| == |at|
  {
    var ts := Payments(Some(mint), 0);
    if at == [] {
    } else {
      var n := |at| - 1;
      ZeroMarks(mint, at[..n]);
      assert Marks(ts, at[n]) == [Spend(mint, 0, at[n])];
      Snoc(AllMarks(ts, at[..n]), Spend(mint, 0, at[n]), 0, 0, mint);
    }
  }

  lemma {:induction false} SinceSpentLess(s: seq<Spend>, cutoff: int, mint: Address)
    ensures Spent(Since(s, cutoff), mint) <= Spent(s, mint)
  {
    if s == [] {
    } else {
      var init, e := s[..|s| - 1], s[|s| - 1];
      SinceSpentLess(init, cutoff, mint);
      Snoc(Since(init, cutoff), e, cutoff, cutoff, mint);
    }
  }

  lemma PaidMarks(mint: Address, amount: nat, now: int)
    ensures Spent(Marks(Payments(Some(mint), amount), now), mint) == amount
  {
    PaymentsTotal(Some(mint), amount, mint);
    MarksWeigh(Payments(Some(mint), amount), now, mint);
  }

  lemma Affords(limit: SpendLimit, s: seq<Spend>, amount: nat, now: int)
    requires Spent(s, limit.mint) + amount <= limit.amount
    ensures Affordable([limit], s, Payments(Some(limit.mint), amount), now)
  {
    PaymentsTotal(Some(limit.mint), amount, limit.mint);
    SinceSpentLess(s, now - WindowOf(limit), limit.mint);
  }

  /** How many empty entries it takes to be one short of pruning once `n` more come. */
  function Filler(n: nat): nat { if n < PRUNE_THRESHOLD then PRUNE_THRESHOLD - n else 0 }

  lemma FillerRepeatable(limit: SpendLimit, rate: RateLimit, n: nat)
    requires limit.amount >= 0 && rate.maxTransactions >= 1
    ensures Repeatable([limit], rate, Payments(Some(limit.mint), 0), Spaced(Gap(rate), n))
  {
    var at, ts := Spaced(Gap(rate), n), Payments(Some(limit.mint), 0);
    forall i | 0 <= i < n
      ensures Affordable([limit], AllMarks(ts, at[..i]), ts, at[i]) && InRate(rate, at[..i], at[i])
    {
      ZeroMarks(limit.mint, at[..i]);
      Affords(limit, AllMarks(ts, at[..i]), 0, at[i]);
      SpacedPrefix(Gap(rate), n, i);
      SpacedInRate(rate, i, at[i]);
    }
  }

  lemma OneMoreStamp(txs: seq<int>, now: int, cutoff: int)
    ensures |Recent(KeptStamps(txs, now), cutoff)| <= |Recent(txs, cutoff)| + 1
  {
    var past := Recent(txs, now - DAY);
    assert (txs + [now])[..|txs|] == txs && (past + [now])[..|past|] == past;
    RecentOfRecent(txs, now - DAY, cutoff);
  }

  lemma {:induction false} RecentOfRecent(txs: seq<int>, c: int, d: int)
    ensures |Recent(Recent(txs, c), d)| <= |Recent(txs, d)|
  {
    if txs == [] {
    } else {
      var init, t := txs[..|txs| - 1], txs[|txs| - 1];
      RecentOfRecent(init, c, d);
      assert (Recent(init, c) + [t])[..|Recent(init, c)|] == Recent(init, c);
    }
  }

  lemma {:induction false} NoneSince(s: seq<Spend>, cutoff: int)
    requires forall i :: 0 <= i < |s| ==> s[i].at < cutoff
    ensures Since(s, cutoff) == []
  {
    if s == [] {
    } else {
      NoneSince(s[..|s| - 1], cutoff);
    }
  }

  lemma {:induction false} MarkedBy(ts: seq<Transfer>, at: seq<int>, to: int)
    requires forall i :: 0 <= i < |at| ==> at[i] <= to
    ensures forall i :: 0 <= i < |AllMarks(ts, at)| ==> AllMarks(ts, at)[i].at <= to
  {
    if at == [] {
    } else {
      MarkedBy(ts, at[..|at| - 1], to);
    }
  }

  lemma SpacedEnd(gap: nat, n: nat)
    ensures forall i :: 0 <= i < n ==> Spaced(gap, n)[i] <= n * gap
    ensures LastOf(Spaced(gap, n)) <= n * gap
  {
    forall i | 0 <= i < n ensures i * gap <= n * gap {
      ScaleOrder(i, n, gap);
    }
  }

  /** The entries kept once the filler and the whole amount are recorded. */
  function Loaded(limit: SpendLimit, n: nat, gap: nat): seq<Spend>
    requires limit.amount >= 0
  {
    AllMarks(Payments(Some(limit.mint), 0), Spaced(gap, n)) + Marks(Payments(Some(limit.mint), limit.amount), n * gap)
  }

  lemma LoadedSpent(limit: SpendLimit, n: nat, gap: nat)
    requires limit.amount >= 0
    ensures Spent(Loaded(limit, n, gap), limit.mint) == limit.amount
    ensures Since(Loaded(limit, n, gap), n * gap + 1) == []
  {
    var zero, full := AllMarks(Payments(Some(limit.mint), 0), Spaced(gap, n)), Payments(Some(limit.mint), limit.amount);
    ZeroMarks(limit.mint, Spaced(gap, n));
    PaidMarks(limit.mint, limit.amount, n * gap);
    SpentConcat(zero, Marks(full, n * gap), limit.mint);
    SpacedEnd(gap, n);
    MarkedBy(Payments(Some(limit.mint), 0), Spaced(gap, n), n * gap);
    NoneSince(Loaded(limit, n, gap), n * gap + 1);
  }

  lemma LoadedKept(limit: SpendLimit, n: nat, gap: nat)
    requires limit.amount >= 0 && n == Filler(|Payments(Some(limit.mint), limit.amount)|)
    ensures |Loaded(limit, n, gap)| >= PRUNE_THRESHOLD
    ensures KeptSpends(AllMarks(Payments(Some(limit.mint), 0), Spaced(gap, n)),
                       Marks(Payments(Some(limit.mint), limit.amount), n * gap), n * gap) == Loaded(limit, n, gap)
  {
    ZeroMarks(limit.mint, Spaced(gap, n));
    KeptAll(AllMarks(Payments(Some(limit.mint), 0), Spaced(gap, n)),
            Marks(Payments(Some(limit.mint), limit.amount), n * gap), n * gap);
  }

  /** From `from` on, at most `k` of the stamps are within the rate window. */
  ghost predicate Quiet(rate: RateLimit, txs: seq<int>, from: int, k: nat) {
    forall now :: from <= now ==> Visible(rate, txs, now) <= k
  }

  lemma QuietNext(rate: RateLimit, txs: seq<int>, from: int, k: nat, now: int)
    requires Quiet(rate, txs, from, k)
    ensures Quiet(rate, KeptStamps(txs, now), from, k + 1)
  {
    forall t | from <= t ensures Visible(rate, KeptStamps(txs, now), t) <= k + 1 {
      assert Visible(rate, txs, t) <= k;
      OneMoreStamp(txs, now, t - rate.windowMs);
    }
  }

  lemma SpacedQuiet(rate: RateLimit, n: nat)
    ensures Quiet(rate, Spaced(Gap(rate), n), n * Gap(rate), 0)
  {
    forall t | n * Gap(rate) <= t ensures Visible(rate, Spaced(Gap(rate), n), t) <= 0 {
      SpacedApart(rate, n, t);
      NoneRecent(Spaced(Gap(rate), n), t - rate.windowMs);
    }
  }

  /** Empty payments a rate window apart. */
  lemma Fill(limit: SpendLimit, rate: RateLimit, n: nat) returns (steps: seq<Step>, m: Machine)
    requires limit.amount >= 0 && rate.maxTransactions >= 1 && n <= PRUNE_THRESHOLD
    ensures Reaches(Context([limit], rate), steps, m)
    ensures Repeated(m, Payments(Some(limit.mint), 0), Spaced(Gap(rate), n))
  {
    var at, zero := Spaced(Gap(rate), n), Payments(Some(limit.mint), 0);
    PaymentsMade(Some(limit.mint), 0);
    SpacedOrdered(Gap(rate), n);
    ZeroMarks(limit.mint, at);
    FillerRepeatable(limit, rate, n);
    steps, m := Repeat([limit], rate, Batch(zero, 0), zero, at);
  }

  /** Filler, then the whole amount at once. */
  lemma Load(limit: SpendLimit, rate: RateLimit, n: nat)
    returns (steps: seq<Step>, m: Machine, txs: seq<int>, stamps: seq<int>)
    requires limit.amount >= 0 && rate.maxTransactions >= 1 && n == Filler(|Payments(Some(limit.mint), limit.amount)|)
    ensures Reaches(Context([limit], rate), steps, m)
    ensures var all, from := Loaded(limit, n, Gap(rate)), n * Gap(rate);
            Holds(m, all, txs, all, stamps, from) && Quiet(rate, txs, from, 1)
  {
    var at, from := Spaced(Gap(rate), n), n * Gap(rate);
    var full, marks := Payments(Some(limit.mint), limit.amount), AllMarks(Payments(Some(limit.mint), 0), at);
    steps, m := Fill(limit, rate, n);
    PaymentsMade(Some(limit.mint), limit.amount);
    ZeroMarks(limit.mint, at);
    Affords(limit, marks, limit.amount, from);
    SpacedInRate(rate, n, from);
    SpacedEnd(Gap(rate), n);
    LoadedKept(limit, n, Gap(rate));
    steps, m := PayNext([limit], rate, steps, m, Batch(full, 0), full, from, marks, at, marks, at, LastOf(at));
    SpacedQuiet(rate, n);
    QuietNext(rate, at, from, 0, from);
    txs, stamps := KeptStamps(at, from), at + [from];
  }

  /** A day after everything, an empty payment is accepted and everything is forgotten. */
  lemma Forget(
    limit: SpendLimit, rate: RateLimit, before: seq<Step>, m: Machine, all: seq<Spend>, txs: seq<int>, stamps: seq<int>,
    from: int)
    returns (steps: seq<Step>, r: Machine)
    requires limit.amount >= 0 && rate.maxTransactions >= 2 && Quiet(rate, txs, from, 1)
    requires Reaches(Context([limit], rate), before, m) && Holds(m, all, txs, all, stamps, from)
    requires Spent(all, limit.mint) <= limit.amount && |all| >= PRUNE_THRESHOLD && Since(all, from + 1) == []
    ensures Reaches(Context([limit], rate), steps, r)
    ensures var zero, later := Marks(Payments(Some(limit.mint), 0), from + DAY + 1), from + DAY + 1;
            Holds(r, zero, KeptStamps(txs, later), all + zero, stamps + [later], later)
  {
    var zero, later := Payments(Some(limit.mint), 0), from + DAY + 1;
    PaymentsMade(Some(limit.mint), 0);
    Affords(limit, all, 0, later);
    assert Visible(rate, txs, later) <= 1;
    Forgotten(limit, all, from);
    steps, r := PayNext([limit], rate, before, m, Batch(zero, 0), zero, later, all, txs, all, stamps, from);
  }

  /**
   * Under every longer window, positive amount and rate limit of at least three transactions,
   * some run spends more than the limit within the window: one empty payment a day after the
   * amount was spent makes the limit forget it.
   */
  lemma LongWindowForgets(limit: SpendLimit, rate: RateLimit) returns (steps: seq<Step>, m: Machine, from: int)
    requires limit.amount >= 1 && WindowOf(limit) > DAY && rate.maxTransactions >= 3
    ensures Reaches(Context([limit], rate), steps, m)
    ensures SpentWindow(m.history.spends, limit.mint, from, WindowOf(limit)) == limit.amount + 1
  {
    var all: seq<Spend>, txs: seq<int>, stamps: seq<int>;
    steps, m, all, txs, stamps, from := LoadedRun(limit, rate);
    var later := from + DAY + 1;
    steps, m := Forget(limit, rate, steps, m, all, txs, stamps, from);
    QuietNext(rate, txs, from, 1, later);
    steps, m := SpendAgain(limit, rate, steps, m, all, KeptStamps(txs, later), stamps + [later], later);
    SpentTogether(limit, all, from, later);
  }

  /** The loaded run without its details. */
  lemma LoadedRun(limit: SpendLimit, rate: RateLimit)
    returns (steps: seq<Step>, m: Machine, all: seq<Spend>, txs: seq<int>, stamps: seq<int>, from: int)
    requires limit.amount >= 0 && rate.maxTransactions >= 1 && WindowOf(limit) >= 0
    ensures Reaches(Context([limit], rate), steps, m) && Holds(m, all, txs, all, stamps, from)
    ensures Quiet(rate, txs, from, 1) && |all| >= PRUNE_THRESHOLD && Since(all, from + 1) == []
    ensures Spent(all, limit.mint) == limit.amount == SpentWindow(all, limit.mint, from, WindowOf(limit))
  {
    var n := Filler(|Payments(Some(limit.mint), limit.amount)|);
    steps, m, txs, stamps := Load(limit, rate, n);
    all, from := LoadedFacts(limit, n, Gap(rate));
  }

  lemma SpendAgain(
    limit: SpendLimit, rate: RateLimit, before: seq<Step>, m: Machine, all: seq<Spend>, txs: seq<int>, stamps: seq<int>,
    now: int)
    returns (steps: seq<Step>, r: Machine)
    requires limit.amount >= 1 && InRate(rate, txs, now) && Reaches(Context([limit], rate), before, m)
    requires var zero := Marks(Payments(Some(limit.mint), 0), now); Holds(m, zero, txs, all + zero, stamps, now)
    ensures Reaches(Context([limit], rate), steps, r)
    ensures r.history.spends
         == all + Marks(Payments(Some(limit.mint), 0), now) + Marks(Payments(Some(limit.mint), 1), now)
  {
    var zero, one := Marks(Payments(Some(limit.mint), 0), now), Payments(Some(limit.mint), 1);
    PaymentsMade(Some(limit.mint), 1);
    PaidMarks(limit.mint, 0, now);
    Affords(limit, zero, 1, now);
    steps, r := PayNext([limit], rate, before, m, Batch(one, 0), one, now, zero, txs, all + zero, stamps, now);
  }

  lemma Forgotten(limit: SpendLimit, all: seq<Spend>, from: int)
    requires |all| >= PRUNE_THRESHOLD && Since(all, from + 1) == []
    ensures var zero, later := Payments(Some(limit.mint), 0), from + DAY + 1;
            KeptSpends(all, Marks(zero, later), later) == Marks(zero, later)
  {
    var zero, later := Payments(Some(limit.mint), 0), from + DAY + 1;
    assert [] + Marks(zero, later) == Marks(zero, later);
  }

  lemma SpentThree(a: seq<Spend>, b: seq<Spend>, c: seq<Spend>, from: int, window: int, mint: Address)
    ensures SpentWindow(a + b + c, mint, from, window)
         == SpentWindow(a, mint, from, window) + SpentWindow(b, mint, from, window) + SpentWindow(c, mint, from, window)
  {
    BetweenConcat(a + b, c, from, from + window, mint);
    BetweenConcat(a, b, from, from + window, mint);
  }

  predicate AllAt(s: seq<Spend>, now: int) {
    forall i :: 0 <= i < |s| ==> s[i].at == now
  }

  lemma WithinAt(s: seq<Spend>, now: int, from: int, window: int, mint: Address)
    requires AllAt(s, now) && from <= now <= from + window
    ensures SpentWindow(s, mint, from, window) == Spent(s, mint)
  {
    AllBetween(s, from, from + window);
  }

  lemma PaidWithin(mint: Address, amount: nat, now: int, from: int, window: int)
    requires from <= now <= from + window
    ensures SpentWindow(Marks(Payments(Some(mint), amount), now), mint, from, window) == amount
  {
    PaidMarks(mint, amount, now);
    WithinAt(Marks(Payments(Some(mint), amount), now), now, from, window, mint);
  }

  lemma SpentTwo(a: seq<Spend>, b: seq<Spend>, from: int, window: int, mint: Address)
    requires Spent(a, mint) == 0
    ensures SpentWindow(a + b, mint, from, window) == SpentWindow(b, mint, from, window)
  {
    BetweenConcat(a, b, from, from + window, mint);
    BetweenWithinAll(a, from, from + window, mint);
  }

  lemma LoadedWithin(limit: SpendLimit, n: nat, gap: nat, window: nat)
    requires limit.amount >= 0
    ensures SpentWindow(Loaded(limit, n, gap), limit.mint, n * gap, window) == limit.amount
  {
    ZeroMarks(limit.mint, Spaced(gap, n));
    SpentTwo(AllMarks(Payments(Some(limit.mint), 0), Spaced(gap, n)),
             Marks(Payments(Some(limit.mint), limit.amount), n * gap), n * gap, window, limit.mint);
    PaidWithin(limit.mint, limit.amount, n * gap, n * gap, window);
  }

  lemma LoadedFacts(limit: SpendLimit, n: nat, gap: nat) returns (all: seq<Spend>, from: int)
    requires limit.amount >= 0 && WindowOf(limit) >= 0 && n == Filler(|Payments(Some(limit.mint), limit.amount)|)
    ensures all == Loaded(limit, n, gap) && from == n * gap
    ensures |all| >= PRUNE_THRESHOLD && Since(all, from + 1) == []
    ensures Spent(all, limit.mint) == limit.amount == SpentWindow(all, limit.mint, from, WindowOf(limit))
  {
    all, from := Loaded(limit, n, gap), n * gap;
    LoadedSpent(limit, n, gap);
    LoadedKept(limit, n, gap);
    LoadedWithin(limit, n, gap, WindowOf(limit));
  }

  lemma SpentTogether(limit: SpendLimit, all: seq<Spend>, from: int, later: int)
    requires from <= later <= from + WindowOf(limit)
    ensures var zero, one := Marks(Payments(Some(limit.mint), 0), later), Marks(Payments(Some(limit.mint), 1), later);
            SpentWindow(all + zero + one, limit.mint, from, WindowOf(limit))
            == SpentWindow(all, limit.mint, from, WindowOf(limit)) + 1
  {
    var zero, one := Marks(Payments(Some(limit.mint), 0), later), Marks(Payments(Some(limit.mint), 1), later);
    SpentThree(all, zero, one, from, WindowOf(limit), limit.mint);
    PaidWithin(limit.mint, 0, later, from, WindowOf(limit));
    PaidWithin(limit.mint, 1, later, from, WindowOf(limit));
  }

  // ---- A limit that admits nothing ------------------------------------------------------------

  lemma {:induction false} NothingSpent(c: Config, m: Machine, steps: seq<Step>, k: nat)
    requires IsRun(c, m, steps) && k < |c.policy.spendLimits| && c.policy.spendLimits[k].amount <= 0
    requires Spent(m.history.spends, c.policy.spendLimits[k].mint) == 0
    ensures Spent(Run(c, m, steps).history.spends, c.policy.spendLimits[k].mint) == 0
    decreases |steps|
  {
    if steps == [] {
    } else {
      NothingSpentStep(c, m, steps[0], k);
      NothingSpent(c, Apply(c, m, steps[0]), steps[1..], k);
    }
  }

  lemma NothingSpentStep(c: Config, m: Machine, s: Step, k: nat)
    requires Enabled(c, m, s) && k < |c.policy.spendLimits| && c.policy.spendLimits[k].amount <= 0
    requires Spent(m.history.spends, c.policy.spendLimits[k].mint) == 0
    ensures Spent(Apply(c, m, s).history.spends, c.policy.spendLimits[k].mint) == 0
  {
    var e, limits := EffectOf(c, m, s), c.policy.spendLimits;
    StepEffect(c, m, s);
    if e.Recorded? {
      var a := Analyze(e.instructions, e.signer);
      var ticks := e.times.ticks[..|a.transfers|];
      NothingReported(m.ledger, c.policy, a, e.signer, c.sync, e.times.checks);
      LimitsAccepted(m.ledger, limits, a.transfers, e.signer, e.times.checks[..|limits|]);
      assert Projected(m.ledger, limits[k], a.transfers, e.signer, e.times.checks[..|limits|][k]) <= limits[k].amount;
      RecordedWithinChecked(a.transfers, e.signer, ticks, limits[k].mint);
      SpentConcat(m.history.spends, Entries(a.transfers, e.signer, ticks), limits[k].mint);
    }
  }

  lemma LimitHeld(c: Config, steps: seq<Step>, limit: SpendLimit, from: int)
    requires limit in c.policy.spendLimits && IsRun(c, Initial(0), steps)
    requires limit.amount <= 0 || WindowOf(limit) <= DAY
    ensures SpentWindow(Run(c, Initial(0), steps).history.spends, limit.mint, from, WindowOf(limit))
         <= Ceiling(limit.amount)
  {
    var k :| 0 <= k < |c.policy.spendLimits| && c.policy.spendLimits[k] == limit;
    if WindowOf(limit) <= DAY {
      EveryWindowWithinLimit(c, 0, steps, k, from);
    } else {
      NothingSpent(c, Initial(0), steps, k);
      BetweenWithinAll(Run(c, Initial(0), steps).history.spends, from, from + WindowOf(limit), limit.mint);
    }
  }

  /**
   * A limit bounds every interval of its window in every run of every context if and only if its
   * window is at most a day or it admits nothing.
   */
  lemma BoundedExactlyToADay(limit: SpendLimit)
    ensures AlwaysBounded(limit) <==> limit.amount <= 0 || WindowOf(limit) <= DAY
  {
    if limit.amount <= 0 || WindowOf(limit) <= DAY {
      forall c: Config, steps: seq<Step>, from: int | limit in c.policy.spendLimits && IsRun(c, Initial(0), steps)
        ensures SpentWindow(Run(c, Initial(0), steps).history.spends, limit.mint, from, WindowOf(limit))
                <= Ceiling(limit.amount)
      {
        LimitHeld(c, steps, limit, from);
      }
    } else {
      var rate := RateLimit(60, HOUR);
      var steps, m, from := LongWindowForgets(limit, rate);
      var c := Context([limit], rate);
      assert limit in c.policy.spendLimits;
      assert SpentWindow(Run(c, Initial(0), steps).history.spends, limit.mint, from, WindowOf(limit))
           > Ceiling(limit.amount);
    }
  }

  // ---- Forgetting stamps ----------------------------------------------------------------------

  /** Stamps a window apart, then all but one of a ration at once. */
  function Rationing(rate: RateLimit, n: nat): (at: seq<int>)
    requires rate.maxTransactions >= 1
    ensures |at| == n + rate.maxTransactions - 1
  {
    Spaced(Gap(rate), n) + Checks(n * Gap(rate), rate.maxTransactions - 1)
  }

  lemma RationingOrdered(rate: RateLimit, n: nat)
    requires rate.maxTransactions >= 1
    ensures Ordered(Rationing(rate, n)) && LastOf(Rationing(rate, n)) <= n * Gap(rate)
    ensures forall i :: 0 <= i < |Rationing(rate, n)| ==> Rationing(rate, n)[i] <= n * Gap(rate)
  {
    SpacedOrdered(Gap(rate), n);
    SpacedEnd(Gap(rate), n);
    ScaleOrder(0, n, Gap(rate));
  }

  /** At the last of these times and later, within the rate window there are only those at the end. */
  lemma RationingRecent(rate: RateLimit, n: nat, i: nat, now: int)
    requires rate.maxTransactions >= 1 && n <= i <= |Rationing(rate, n)| && n * Gap(rate) <= now
    ensures |Recent(Rationing(rate, n)[..i], now - rate.windowMs)| <= i - n
  {
    var at := Rationing(rate, n)[..i];
    SpacedApart(rate, n, now);
    assert forall j :: 0 <= j < n ==> at[j] == Spaced(Gap(rate), n)[j];
    RecentTail(at, n, now - rate.windowMs);
  }

  lemma RationingRepeatable(rate: RateLimit, n: nat)
    requires rate.maxTransactions >= 1
    ensures Repeatable([], rate, [], Rationing(rate, n))
  {
    var at := Rationing(rate, n);
    forall i | 0 <= i < |at| ensures InRate(rate, at[..i], at[i]) {
      if i < n {
        SpacedPrefix(Gap(rate), n, i);
        assert at[..i] == Spaced(Gap(rate), i);
        SpacedInRate(rate, i, at[i]);
      } else {
        RationingRecent(rate, n, i, at[i]);
      }
    }
  }

  lemma {:induction false} NoMarks(at: seq<int>)
    ensures AllMarks([], at) == []
  {
    if at == [] {
    } else {
      NoMarks(at[..|at| - 1]);
    }
  }

  lemma RationingRun(rate: RateLimit, n: nat) returns (steps: seq<Step>, m: Machine)
    requires rate.maxTransactions >= 1 && n == Filler(rate.maxTransactions - 1)
    ensures Reaches(Context([], rate), steps, m)
    ensures var at := Rationing(rate, n); Holds(m, [], at, [], at, LastOf(at))
  {
    var at := Rationing(rate, n);
    RationingOrdered(rate, n);
    RationingRepeatable(rate, n);
    NoMarks(at);
    ScaleOrder(0, n, Gap(rate));
    assert Lossless([], at);
    steps, m := Repeat([], rate, [], [], at);
  }

  /** Full of stamps up to `from`. */
  predicate Full(at: seq<int>, from: int) {
    |at| >= PRUNE_THRESHOLD && forall i :: 0 <= i < |at| ==> at[i] <= from
  }

  lemma RationingFull(rate: RateLimit, n: nat, now: int)
    requires rate.maxTransactions >= 1 && n == Filler(rate.maxTransactions - 1) && n * Gap(rate) <= now
    ensures var at := Rationing(rate, n);
            Full(at, n * Gap(rate)) && LastOf(at) <= n * Gap(rate) && InRate(rate, at, now)
  {
    var at := Rationing(rate, n);
    RationingOrdered(rate, n);
    RationingRecent(rate, n, |at|, now);
    assert at[..|at|] == at;
  }

  lemma JustOne(rate: RateLimit, now: int)
    requires rate.maxTransactions >= 2
    ensures InRate(rate, [now], now)
  {
    RecentTail([now], 0, now - rate.windowMs);
  }

  lemma TwoMore(rate: RateLimit, before: seq<Step>, m: Machine, at: seq<int>, from: int)
    returns (steps: seq<Step>, r: Machine)
    requires rate.maxTransactions >= 2 && Full(at, from) && LastOf(at) <= from && InRate(rate, at, from + DAY + 1)
    requires Reaches(Context([], rate), before, m) && Holds(m, [], at, [], at, LastOf(at))
    ensures Reaches(Context([], rate), steps, r)
    ensures r.history.txs == at + [from + DAY + 1] + [from + DAY + 1]
  {
    var later := from + DAY + 1;
    steps, r := PassAgain(rate, before, m, at, at, LastOf(at), later);
    StampsForgotten(at, from);
    JustOne(rate, later);
    steps, r := PassAgain(rate, steps, r, [later], at + [later], later, later);
  }

  /** A run that fills the stamps up to `from`, with all but one of a ration there. */
  lemma Prepare(rate: RateLimit) returns (steps: seq<Step>, m: Machine, at: seq<int>, from: int)
    requires rate.maxTransactions >= 1 && rate.windowMs >= 0
    ensures Reaches(Context([], rate), steps, m) && Holds(m, [], at, [], at, LastOf(at))
    ensures Full(at, from) && LastOf(at) <= from && InRate(rate, at, from) && InRate(rate, at, from + DAY + 1)
    ensures CountWindow(at, from, rate.windowMs) >= rate.maxTransactions - 1
  {
    var n := Filler(rate.maxTransactions - 1);
    steps, m := RationingRun(rate, n);
    at, from := RationingFacts(rate, n);
  }

  lemma RationingFacts(rate: RateLimit, n: nat) returns (at: seq<int>, from: int)
    requires rate.maxTransactions >= 1 && rate.windowMs >= 0 && n == Filler(rate.maxTransactions - 1)
    ensures at == Rationing(rate, n)
    ensures Full(at, from) && LastOf(at) <= from && InRate(rate, at, from) && InRate(rate, at, from + DAY + 1)
    ensures CountWindow(at, from, rate.windowMs) >= rate.maxTransactions - 1
  {
    at, from := Rationing(rate, n), n * Gap(rate);
    RationingFull(rate, n, from);
    RationingFull(rate, n, from + DAY + 1);
    RationingCount(rate, n);
  }

  lemma RationingCount(rate: RateLimit, n: nat)
    requires rate.maxTransactions >= 1 && rate.windowMs >= 0
    ensures CountWindow(Rationing(rate, n), n * Gap(rate), rate.windowMs) >= rate.maxTransactions - 1
  {
    var from := n * Gap(rate);
    CountTail(Spaced(Gap(rate), n), from, rate.maxTransactions - 1, from + rate.windowMs);
  }

  lemma CountTwoMore(at: seq<int>, s: int, t: int, from: int, window: int, k: int)
    requires CountWindow(at, from, window) >= k && from <= s <= from + window && from <= t <= from + window
    ensures CountWindow(at + [s] + [t], from, window) >= k + 2
  {
    CountSnoc(at, s, from, from + window);
    CountSnoc(at + [s], t, from, from + window);
  }

  /** The filler and the rest of a ration, then two more a day later. */
  lemma RateForgets(rate: RateLimit) returns (steps: seq<Step>, m: Machine, from: int)
    requires rate.maxTransactions >= 2 && rate.windowMs > DAY
    ensures Reaches(Context([], rate), steps, m)
    ensures CountWindow(m.history.txs, from, rate.windowMs) >= rate.maxTransactions + 1
  {
    var at: seq<int>;
    steps, m, at, from := Prepare(rate);
    steps, m := TwoMore(rate, steps, m, at, from);
    CountTwoMore(at, from + DAY + 1, from + DAY + 1, from, rate.windowMs, rate.maxTransactions - 1);
  }

  /** One more transaction without transfers. */
  lemma PassAgain(
    rate: RateLimit, before: seq<Step>, m: Machine, txs: seq<int>, stamps: seq<int>, clock: int, now: int)
    returns (steps: seq<Step>, r: Machine)
    requires Reaches(Context([], rate), before, m) && Holds(m, [], txs, [], stamps, clock)
    requires clock <= now && InRate(rate, txs, now)
    ensures Reaches(Context([], rate), steps, r) && Holds(r, [], KeptStamps(txs, now), [], stamps + [now], now)
  {
    assert Marks([], now) == [];
    steps, r := PayNext([], rate, before, m, [], [], now, [], txs, [], stamps, clock);
    assert [] + Marks([], now) == [];
  }

  lemma StampsForgotten(at: seq<int>, from: int)
    requires Full(at, from)
    ensures KeptStamps(at, from + DAY + 1) == [from + DAY + 1]
  {
    NoneRecent(at, from + 1);
    assert [] + [from + DAY + 1] == [from + DAY + 1];
  }

  lemma {:induction false} CountSnoc(txs: seq<int>, t: int, a: int, b: int)
    ensures CountBetween(txs + [t], a, b) == CountBetween(txs, a, b) + if a <= t <= b then 1 else 0
  {
    assert (txs + [t])[..|txs|] == txs;
  }

  lemma {:induction false} CountTail(s: seq<int>, now: int, n: nat, to: int)
    requires now <= to
    ensures CountBetween(s + Checks(now, n), now, to) >= n
  {
    if n == 0 {
    } else {
      assert s + Checks(now, n) == s + Checks(now, n - 1) + [now];
      CountTail(s, now, n - 1, to);
      CountSnoc(s + Checks(now, n - 1), now, now, to);
    }
  }

  // ---- One transaction per window -------------------------------------------------------------

  /** A transaction whose recording is cut short for more than a day between stamp and pruning. */
  function Interrupted(now: int): Step {
    Step.Enforce([], AGENT, Times([now], [Tick(now, now, now + DAY + 1)]))
  }

  lemma InterruptedCommit(l: Ledger, now: int)
    requires Unsynced(l) && l.spends == [] && |l.txs| >= PRUNE_THRESHOLD
    requires forall i :: 0 <= i < |l.txs| ==> l.txs[i] <= now
    ensures Commit(l, [], AGENT, None, [Tick(now, now, now + DAY + 1)]) == l.(txs := [])
  {
    var tick := Tick(now, now, now + DAY + 1);
    assert [tick][..0] == [];
    NoneRecent(l.txs + [now], now + 1);
    assert RecordTransfers(l, [], AGENT, []) == l;
  }

  lemma InterruptedTimed(rate: RateLimit, clock: int, now: int)
    requires clock <= now
    ensures var times := Times([now], [Tick(now, now, now + DAY + 1)]);
            Timed(Context([], rate), clock, Analyze([], AGENT), times) && End(clock, times) == now + DAY + 1
  {
    var tick := Tick(now, now, now + DAY + 1);
    assert [tick][..0] == [] && TicksAfter(now, []) && LastTick(now, []) == now;
    assert TicksAfter(now, [tick]);
  }

  lemma InterruptedForgets(rate: RateLimit, m: Machine, at: seq<int>, now: int)
    requires Holds(m, [], at, [], at, LastOf(at)) && LastOf(at) <= now && InRate(rate, at, now) && Full(at, now)
    ensures Enabled(Context([], rate), m, Interrupted(now))
    ensures Holds(Apply(Context([], rate), m, Interrupted(now)), [], [], [], at + [now], now + DAY + 1)
  {
    var c, times := Context([], rate), Times([now], [Tick(now, now, now + DAY + 1)]);
    InterruptedTimed(rate, m.clock, now);
    Admitted([], rate, m, [], [], now);
    assert Checks(now, 1) == [now];
    assert Admits(c, m, Analyze([], AGENT), AGENT, times);
    InterruptedCommit(m.ledger, now);
    assert times.ticks[..0] == [] && Entries([], AGENT, []) == [] && m.history.spends + [] == [];
  }

  lemma OneInterrupted(rate: RateLimit, before: seq<Step>, m: Machine, at: seq<int>, from: int)
    returns (steps: seq<Step>, r: Machine)
    requires rate.maxTransactions >= 1 && Full(at, from) && LastOf(at) <= from && InRate(rate, at, from)
    requires Reaches(Context([], rate), before, m) && Holds(m, [], at, [], at, LastOf(at))
    ensures Reaches(Context([], rate), steps, r) && r.history.txs == at + [from] + [from + DAY + 1]
  {
    var c, s := Context([], rate), Interrupted(from);
    InterruptedForgets(rate, m, at, from);
    ReachesNext(c, before, m, s);
    var later := from + DAY + 1;
    steps, r := PassAgain(rate, before + [s], Apply(c, m, s), [], at + [from], later, later);
  }

  /** With one transaction per window it takes an interruption of a day to forget it. */
  lemma SingleForgets(rate: RateLimit) returns (steps: seq<Step>, m: Machine, from: int)
    requires rate.maxTransactions == 1 && rate.windowMs > DAY
    ensures Reaches(Context([], rate), steps, m) && CountWindow(m.history.txs, from, rate.windowMs) >= 2
  {
    var at: seq<int>;
    steps, m, at, from := Prepare(rate);
    steps, m := OneInterrupted(rate, steps, m, at, from);
    CountTwoMore(at, from, from + DAY + 1, from, rate.windowMs, 0);
  }

  /**
   * A rate limit bounds every interval of its window in every run of every context if and only if
   * its window is at most a day or it admits nothing.
   */
  lemma RateBoundedExactlyToADay(rate: RateLimit)
    ensures RateAlwaysBounded(rate) <==> rate.maxTransactions <= 0 || rate.windowMs <= DAY
  {
    if rate.maxTransactions <= 0 || rate.windowMs <= DAY {
      forall c: Config, steps: seq<Step>, from: int | c.policy.rateLimit == rate && IsRun(c, Initial(0), steps)
        ensures CountWindow(Run(c, Initial(0), steps).history.txs, from, rate.windowMs) <= Ceiling(rate.maxTransactions)
      {
        if rate.maxTransactions <= 0 {
          NothingAdmitted(c, Initial(0), steps);
        } else {
          EveryWindowWithinRate(c, 0, steps, from);
        }
      }
    } else {
      var c, steps, m, from := Context([], rate), [], Initial(0), 0;
      if rate.maxTransactions == 1 {
        steps, m, from := SingleForgets(rate);
      } else {
        steps, m, from := RateForgets(rate);
      }
      assert CountWindow(Run(c, Initial(0), steps).history.txs, from, rate.windowMs) > Ceiling(rate.maxTransactions);
    }
  }
}
