/**
 * Plain transfers name no mint. A check counts them against every spend limit, but they are
 * recorded under the empty mint, so no later check of a limit sees them again. What then bounds
 * them is the rate limit.
 */
module ShieldUnknownMints {
  import opened Common
  import opened Addresses
  import opened Inspector
  import opened ShieldWindows
  import opened Shield
  import opened ShieldRuns
  import opened ShieldRates
  import opened ShieldScenarios

  /** Outflow that may have been of `mint`: its own and that of unknown mint. */
  function Possibly(mint: Address): Spend -> nat {
    (e: Spend) => if e.mint == mint || e.mint == Blank then e.amount else 0
  }

  /** No transfer names the empty text as its mint, which is no account's address. */
  predicate RealMints(ixs: seq<Instruction>) {
    forall i :: 0 <= i < |Transfers(ixs)| ==> Transfers(ixs)[i].mint != Some(Blank)
  }

  /** Every transfer names its mint. */
  predicate AllNamed(ixs: seq<Instruction>) {
    RealMints(ixs) && forall i :: 0 <= i < |Transfers(ixs)| ==> Transfers(ixs)[i].mint.Some?
  }

  // ---- Per transaction ------------------------------------------------------------------------

  lemma {:induction false} RecordedIsMatched(ts: seq<Transfer>, signer: Address, ticks: seq<Tick>, mint: Address)
    requires |ticks| == |ts| && forall i :: 0 <= i < |ts| ==> ts[i].mint != Some(Blank)
    ensures Weigh(Possibly(mint), Entries(ts, signer, ticks)) <= Matching(ts, signer, mint)
  {
    if ts == [] {
    } else {
      var n := |ts| - 1;
      RecordedIsMatched(ts[..n], signer, ticks[..n], mint);
      WeighSnoc(Possibly(mint), Entries(ts[..n], signer, ticks[..n]),
                Spend(MintKey(ts[n]), ts[n].amount, ticks[n].push));
    }
  }

  /** One admitted transaction moves at most the amount of a limit in its mint and unknown mints together. */
  lemma OneWithinLimit(c: Config, m: Machine, ixs: seq<Instruction>, signer: Address, from: int, times: Times, k: nat)
    requires Timed(c, from, Analyze(ixs, signer), times) && Admits(c, m, Analyze(ixs, signer), signer, times)
    requires k < |c.policy.spendLimits| && RealMints(ixs)
    ensures var ts, limit := Transfers(ixs), c.policy.spendLimits[k];
            Weigh(Possibly(limit.mint), Entries(ts, signer, times.ticks[..|ts|])) <= Ceiling(limit.amount)
  {
    var a, limits := Analyze(ixs, signer), c.policy.spendLimits;
    NothingReported(m.ledger, c.policy, a, signer, c.sync, times.checks);
    LimitsAccepted(m.ledger, limits, a.transfers, signer, times.checks[..|limits|]);
    assert Projected(m.ledger, limits[k], a.transfers, signer, times.checks[..|limits|][k]) <= limits[k].amount;
    RecordedIsMatched(a.transfers, signer, times.ticks[..|a.transfers|], limits[k].mint);
  }

  // ---- The bound ------------------------------------------------------------------------------

  ghost predicate Bounded(c: Config, m: Machine, k: nat)
    requires k < |c.policy.spendLimits|
  {
    var limit, rate := c.policy.spendLimits[k], c.policy.rateLimit;
    Rationed(Possibly(limit.mint), Ceiling(limit.amount), Kept(rate), Ceiling(rate.maxTransactions),
             m.history.spends, m.history.txs)
  }

  lemma BoundedStep(c: Config, m: Machine, s: Step, k: nat)
    requires Enabled(c, m, s) && PruningInvisible(m) && k < |c.policy.spendLimits| && Bounded(c, m, k)
    requires Pending(RealMints, m) && StepSubmits(RealMints, s)
    ensures Bounded(c, Apply(c, m, s), k) && Pending(RealMints, Apply(c, m, s))
  {
    var limit, e := c.policy.spendLimits[k], EffectOf(c, m, s);
    StepEffect(c, m, s);
    SubmittedStep(RealMints, c, m, s);
    if e.Recorded? {
      OneWithinLimit(c, m, e.instructions, e.signer, e.from, e.times, k);
      RecordRationed(Possibly(limit.mint), Ceiling(limit.amount), c, m, e.instructions, e.signer, e.from, e.times);
    }
  }

  lemma {:induction false} BoundedRun(c: Config, m: Machine, steps: seq<Step>, k: nat)
    requires IsRun(c, m, steps) && Inv(c, m) && k < |c.policy.spendLimits| && Bounded(c, m, k)
    requires Pending(RealMints, m) && Submitted(RealMints, steps)
    ensures Bounded(c, Run(c, m, steps), k)
    decreases |steps|
  {
    if steps == [] {
    } else {
      StepKeepsInv(c, m, steps[0]);
      BoundedStep(c, m, steps[0], k);
      BoundedRun(c, Apply(c, m, steps[0]), steps[1..], k);
    }
  }

  /**
   * In every run of every context, every interval as long as the rate window (or a day) holds at
   * most `maxTransactions` times the amount of a limit in its mint and unknown mints together.
   */
  lemma UnknownMintsRationed(c: Config, clock: int, steps: seq<Step>, k: nat, from: int)
    requires IsRun(c, Initial(clock), steps) && Submitted(RealMints, steps) && k < |c.policy.spendLimits|
    ensures var limit, rate := c.policy.spendLimits[k], c.policy.rateLimit;
            InWindow(Possibly(limit.mint), Run(c, Initial(clock), steps).history.spends, from, Kept(rate))
            <= Ceiling(limit.amount) * Ceiling(rate.maxTransactions)
  {
    var limit, rate := c.policy.spendLimits[k], c.policy.rateLimit;
    InitialInv(c, clock);
    NothingRationed(Possibly(limit.mint), Ceiling(limit.amount), Kept(rate), Ceiling(rate.maxTransactions));
    BoundedRun(c, Initial(clock), steps, k);
  }

  // ---- Named transfers ------------------------------------------------------------------------

  predicate NoneUnknown(s: seq<Spend>) {
    forall i :: 0 <= i < |s| ==> s[i].mint != Blank
  }

  lemma {:induction false} NamedEntries(ts: seq<Transfer>, signer: Address, ticks: seq<Tick>)
    requires |ticks| == |ts| && forall i :: 0 <= i < |ts| ==> ts[i].mint.Some? && ts[i].mint != Some(Blank)
    ensures NoneUnknown(Entries(ts, signer, ticks))
  {
    if ts == [] {
    } else {
      NamedEntries(ts[..|ts| - 1], signer, ticks[..|ts| - 1]);
    }
  }

  lemma {:induction false} NamedRun(c: Config, m: Machine, steps: seq<Step>)
    requires IsRun(c, m, steps) && NoneUnknown(m.history.spends)
    requires Pending(AllNamed, m) && Submitted(AllNamed, steps)
    ensures NoneUnknown(Run(c, m, steps).history.spends)
    decreases |steps|
  {
    if steps == [] {
    } else {
      var e := EffectOf(c, m, steps[0]);
      StepEffect(c, m, steps[0]);
      SubmittedStep(AllNamed, c, m, steps[0]);
      if e.Recorded? {
        var ts := Transfers(e.instructions);
        NamedEntries(ts, e.signer, e.times.ticks[..|ts|]);
      }
      NamedRun(c, Apply(c, m, steps[0]), steps[1..]);
    }
  }

  lemma {:induction false} KnownWeigh(s: seq<Spend>, a: int, b: int, mint: Address)
    requires NoneUnknown(s)
    ensures Weigh(Possibly(mint), Between(s, a, b)) == Spent(Between(s, a, b), mint)
  {
    if s == [] {
    } else {
      var init, e := s[..|s| - 1], s[|s| - 1];
      KnownWeigh(init, a, b, mint);
      WeighSnoc(Possibly(mint), Between(init, a, b), e);
      Snoc(Between(init, a, b), e, a, b, mint);
    }
  }

  /** Where every submitted transfer names its mint, a limit also bounds all that may have been of its mint. */
  lemma NamedTransfersCovered(c: Config, clock: int, steps: seq<Step>, k: nat, from: int)
    requires IsRun(c, Initial(clock), steps) && Submitted(AllNamed, steps)
    requires k < |c.policy.spendLimits| && WindowOf(c.policy.spendLimits[k]) <= DAY
    ensures var limit := c.policy.spendLimits[k];
            InWindow(Possibly(limit.mint), Run(c, Initial(clock), steps).history.spends, from, WindowOf(limit))
            <= Ceiling(limit.amount)
  {
    var limit, h := c.policy.spendLimits[k], Run(c, Initial(clock), steps).history;
    EveryWindowWithinLimit(c, clock, steps, k, from);
    NamedRun(c, Initial(clock), steps);
    KnownWeigh(h.spends, from, from + WindowOf(limit), limit.mint);
  }

  // ---- Plain transfers ------------------------------------------------------------------------

  /** In every context with this rate limit, every run keeps within the limit all that may have been of its mint. */
  ghost predicate Covers(limit: SpendLimit, rate: RateLimit) {
    forall c: Config, steps: seq<Step>, from: int ::
      c.policy.rateLimit == rate && limit in c.policy.spendLimits && IsRun(c, Initial(0), steps)
      && Submitted(RealMints, steps) ==>
        InWindow(Possibly(limit.mint), Run(c, Initial(0), steps).history.spends, from, WindowOf(limit))
        <= Ceiling(limit.amount)
  }

  lemma CoveredOneAtATime(c: Config, steps: seq<Step>, k: nat, from: int)
    requires IsRun(c, Initial(0), steps) && Submitted(RealMints, steps) && k < |c.policy.spendLimits|
    requires 0 <= WindowOf(c.policy.spendLimits[k]) <= DAY
    requires BurstAtMost(c.policy.rateLimit, WindowOf(c.policy.spendLimits[k]), 1)
    ensures var limit := c.policy.spendLimits[k];
            InWindow(Possibly(limit.mint), Run(c, Initial(0), steps).history.spends, from, WindowOf(limit))
            <= Ceiling(limit.amount)
  {
    var limit, rate := c.policy.spendLimits[k], c.policy.rateLimit;
    if rate.maxTransactions <= 0 {
      NothingAdmitted(c, Initial(0), steps);
    } else {
      var spends := Run(c, Initial(0), steps).history.spends;
      OneAtATime(rate, WindowOf(limit));
      UnknownMintsRationed(c, 0, steps, k, from);
      OneRation(Possibly(limit.mint), spends, from, WindowOf(limit), Kept(rate),
                Ceiling(limit.amount), Ceiling(rate.maxTransactions));
    }
  }

  lemma {:induction false} UnknownWeigh(s: seq<Spend>, mint: Address)
    requires forall i :: 0 <= i < |s| ==> s[i].mint == Blank
    ensures Weigh(Possibly(mint), s) == Total(s)
  {
    if s == [] {
    } else {
      UnknownWeigh(s[..|s| - 1], mint);
    }
  }

  lemma {:induction false} UnseenMarks(ts: seq<Transfer>, at: seq<int>, cutoff: int, mint: Address)
    requires mint != Blank && forall i :: 0 <= i < |ts| ==> ts[i].mint == None
    ensures Spent(Since(AllMarks(ts, at), cutoff), mint) == 0
  {
    if at == [] {
    } else {
      var n := |at| - 1;
      UnseenMarks(ts, at[..n], cutoff, mint);
      SinceConcat(AllMarks(ts, at[..n]), Marks(ts, at[n]), cutoff);
      SpentConcat(Since(AllMarks(ts, at[..n]), cutoff), Since(Marks(ts, at[n]), cutoff), mint);
      Elsewhere(Marks(ts, at[n]), cutoff, mint);
    }
  }

  lemma {:induction false} Elsewhere(s: seq<Spend>, cutoff: int, mint: Address)
    requires forall i :: 0 <= i < |s| ==> s[i].mint != mint
    ensures Spent(Since(s, cutoff), mint) == 0
  {
    if s == [] {
    } else {
      var init, e := s[..|s| - 1], s[|s| - 1];
      Elsewhere(init, cutoff, mint);
      Snoc(Since(init, cutoff), e, cutoff, cutoff, mint);
    }
  }

  lemma PlainWeighs(amount: nat, mint: Address, at: seq<int>)
    ensures Weigh(Possibly(mint), AllMarks(Payments(None, amount), at)) == |at| * amount
  {
    var ts := Payments(None, amount);
    PaymentsTotal(None, amount, mint);
    forall t ensures Weigh(Possibly(mint), Marks(ts, t)) == amount {
      UnknownWeigh(Marks(ts, t), mint);
      MarksWeigh(ts, t, mint);
    }
    AllMarksWeigh(Possibly(mint), ts, at, amount);
  }

  lemma PlainRepeatable(limit: SpendLimit, rate: RateLimit, at: seq<int>)
    requires limit.amount >= 0 && limit.mint != Blank
    requires forall i :: 0 <= i < |at| ==> InRate(rate, at[..i], at[i])
    ensures Repeatable([limit], rate, Payments(None, limit.amount), at)
  {
    var ts := Payments(None, limit.amount);
    PaymentsTotal(None, limit.amount, limit.mint);
    forall i | 0 <= i < |at| ensures Affordable([limit], AllMarks(ts, at[..i]), ts, at[i]) {
      UnseenMarks(ts, at[..i], at[i] - WindowOf(limit), limit.mint);
    }
  }

  /** Plain transactions of the whole amount, at times the rate limit allows, are all accepted. */
  lemma PlainRun(limit: SpendLimit, rate: RateLimit, at: seq<int>, to: int) returns (steps: seq<Step>)
    requires limit.amount >= 0 && limit.mint != Blank && Ordered(at) && to <= DAY
    requires forall i :: 0 <= i < |at| ==> at[i] <= to && InRate(rate, at[..i], at[i])
    ensures IsRun(Context([limit], rate), Initial(0), steps) && Submitted(RealMints, steps)
    ensures InWindow(Possibly(limit.mint), Run(Context([limit], rate), Initial(0), steps).history.spends, 0, to)
         == |at| * limit.amount
  {
    var ts := Payments(None, limit.amount);
    PaymentsMade(None, limit.amount);
    assert RealMints(Batch(ts, 0));
    PlainRepeatable(limit, rate, at);
    var m: Machine;
    steps, m := Repeat([limit], rate, Batch(ts, 0), ts, at);
    PlainWeighs(limit.amount, limit.mint, at);
    MarksBetween(ts, at, to);
    assert 0 + to == to;
  }

  /** The ration is reached: at one instant, `maxTransactions` times the amount of the limit. */
  lemma UnknownMintsReachRation(limit: SpendLimit, rate: RateLimit) returns (steps: seq<Step>)
    requires limit.amount >= 0 && limit.mint != Blank && rate.maxTransactions >= 0
    ensures IsRun(Context([limit], rate), Initial(0), steps) && Submitted(RealMints, steps)
    ensures InWindow(Possibly(limit.mint), Run(Context([limit], rate), Initial(0), steps).history.spends, 0, 0)
         == rate.maxTransactions * limit.amount
  {
    var at := Checks(0, rate.maxTransactions);
    forall i | 0 <= i < |at| ensures InRate(rate, at[..i], at[i]) {
      RecentTail(at[..i], 0, at[i] - rate.windowMs);
    }
    steps := PlainRun(limit, rate, at, 0);
  }

  lemma TwoPlain(limit: SpendLimit, rate: RateLimit) returns (steps: seq<Step>)
    requires limit.amount >= 0 && limit.mint != Blank && 0 <= WindowOf(limit) <= DAY
    requires !BurstAtMost(rate, WindowOf(limit), 1)
    ensures IsRun(Context([limit], rate), Initial(0), steps) && Submitted(RealMints, steps)
    ensures InWindow(Possibly(limit.mint), Run(Context([limit], rate), Initial(0), steps).history.spends, 0,
                     WindowOf(limit)) == 2 * limit.amount
  {
    var at := Burst(rate, 2);
    BurstOrdered(rate, 2);
    forall i | 0 <= i < 2 ensures at[i] <= WindowOf(limit) && InRate(rate, at[..i], at[i]) {
      BurstFits(rate, WindowOf(limit), 1, i);
      BurstPrefix(rate, 2, i);
      BurstInRate(rate, i);
    }
    steps := PlainRun(limit, rate, at, WindowOf(limit));
  }

  /**
   * A limit of positive amount covers unknown mints in every run of every context with a rate
   * limit if and only if that rate limit lets at most one transaction into the limit's window.
   */
  lemma CoversExactly(limit: SpendLimit, rate: RateLimit)
    requires limit.amount >= 1 && limit.mint != Blank && 0 <= WindowOf(limit) <= DAY
    ensures Covers(limit, rate) <==> BurstAtMost(rate, WindowOf(limit), 1)
  {
    if BurstAtMost(rate, WindowOf(limit), 1) {
      forall c: Config, steps: seq<Step>, from: int |
        c.policy.rateLimit == rate && limit in c.policy.spendLimits && IsRun(c, Initial(0), steps)
        && Submitted(RealMints, steps)
        ensures InWindow(Possibly(limit.mint), Run(c, Initial(0), steps).history.spends, from, WindowOf(limit))
                <= Ceiling(limit.amount)
      {
        var k :| 0 <= k < |c.policy.spendLimits| && c.policy.spendLimits[k] == limit;
        CoveredOneAtATime(c, steps, k, from);
      }
    } else {
      var steps := TwoPlain(limit, rate);
      var c := Context([limit], rate);
      assert limit in c.policy.spendLimits;
      assert InWindow(Possibly(limit.mint), Run(c, Initial(0), steps).history.spends, 0, WindowOf(limit))
             > Ceiling(limit.amount);
    }
  }
}
