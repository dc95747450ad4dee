/**
 * What the rate limit bounds beyond the number of transactions. Every context has one, and it
 * is checked in the same uninterrupted step that records, so it caps any outflow of which a
 * single transaction can only carry so much.
 */
module ShieldRates {
  import opened Addresses
  import opened Inspector
  import opened ShieldWindows
  import opened Shield
  import opened ShieldRuns

  // ---- What a step records --------------------------------------------------------------------

  /** A step records nothing, or one admitted transaction checked from `from` on. */
  datatype Effect = Silent | Recorded(instructions: seq<Instruction>, signer: Address, from: int, times: Times)

  function FinishEffect(c: Config, m: Machine, i: nat, ixs: seq<Instruction>, sessionBound: bool, times: Times): Effect
    requires i < |m.calls| && Timed(c, m.clock, Analyze(ixs, m.calls[i].options.signer), times)
  {
    var signer := m.calls[i].options.signer;
    if Admits(c, m, Analyze(ixs, signer), signer, times) && sessionBound then Recorded(ixs, signer, m.clock, times)
    else Silent
  }

  function EffectOf(c: Config, m: Machine, s: Step): Effect
    requires Enabled(c, m, s)
  {
    match s
    case Enforce(ixs, signer, times) =>
      if Admits(c, m, Analyze(ixs, signer), signer, times) then Recorded(ixs, signer, m.clock, times) else Silent
    case Proceed(i, checks, sessionBound, times) =>
      var call := m.calls[i];
      var ixs, o := call.queue[0], call.options;
      if o.simulates
         || (o.velocity.Some? && !VelocityAllows(m.ledger, o.velocity.value, Analyze(ixs, o.signer), checks))
      then Silent
      else FinishEffect(c, m.(clock := checks.1), i, ixs, sessionBound, times)
    case SimulationDone(i, success, sessionBound, times) =>
      if success then FinishEffect(c, m, i, m.calls[i].phase.instructions, sessionBound, times) else Silent
    case _ => Silent
  }

  /** A step changes what was recorded exactly by its effect, which the policy admitted. */
  lemma StepEffect(c: Config, m: Machine, s: Step)
    requires Enabled(c, m, s)
    ensures var h, e := Apply(c, m, s).history, EffectOf(c, m, s);
            match e
            case Silent => h.spends == m.history.spends && h.txs == m.history.txs
            case Recorded(ixs, signer, from, times) =>
              var a := Analyze(ixs, signer);
              && m.clock <= from && Timed(c, from, a, times) && Admits(c, m, a, signer, times)
              && h.spends == Remember(m.history, a.transfers, signer, times.ticks).spends
              && h.txs == Remember(m.history, a.transfers, signer, times.ticks).txs
  {
  }

  // ---- Submitted transactions -----------------------------------------------------------------

  /** Every transaction submitted in the run has the property. */
  predicate Submitted(good: seq<Instruction> -> bool, steps: seq<Step>) {
    forall k :: 0 <= k < |steps| ==> StepSubmits(good, steps[k])
  }

  predicate StepSubmits(good: seq<Instruction> -> bool, s: Step) {
    && (s.Enforce? ==> good(s.instructions))
    && (s.Open? ==> AllGood(good, s.transactions))
  }

  predicate AllGood(good: seq<Instruction> -> bool, txs: seq<seq<Instruction>>) {
    forall i :: 0 <= i < |txs| ==> good(txs[i])
  }

  predicate Pending(good: seq<Instruction> -> bool, m: Machine) {
    forall k :: 0 <= k < |m.calls| ==>
      && AllGood(good, m.calls[k].queue)
      && (m.calls[k].phase.Simulating? ==> good(m.calls[k].phase.instructions))
  }

  /** So every recorded one has it, and every one still pending. */
  lemma SubmittedStep(good: seq<Instruction> -> bool, c: Config, m: Machine, s: Step)
    requires Enabled(c, m, s) && Pending(good, m) && StepSubmits(good, s)
    ensures Pending(good, Apply(c, m, s))
    ensures EffectOf(c, m, s).Recorded? ==> good(EffectOf(c, m, s).instructions)
  {
    if s.Proceed? {
      assert good(m.calls[s.call].queue[0]) && AllGood(good, m.calls[s.call].queue[1..]);
    }
  }

  // ---- Weights --------------------------------------------------------------------------------

  /** The sum of a measure of spends. */
  function Weigh(f: Spend -> nat, s: seq<Spend>): nat {
    if s == [] then 0 else Weigh(f, s[..|s| - 1]) + f(s[|s| - 1])
  }

  function InWindow(f: Spend -> nat, s: seq<Spend>, from: int, window: int): nat {
    Weigh(f, Between(s, from, from + window))
  }

  lemma {:induction false} WeighConcat(f: Spend -> nat, s: seq<Spend>, u: seq<Spend>)
    ensures Weigh(f, s + u) == Weigh(f, s) + Weigh(f, u)
  {
    if u == [] {
      assert s + u == s;
    } else {
      assert (s + u)[..|s + u| - 1] == s + u[..|u| - 1];
      WeighConcat(f, s, u[..|u| - 1]);
    }
  }

  lemma WeighSnoc(f: Spend -> nat, s: seq<Spend>, e: Spend)
    ensures Weigh(f, s + [e]) == Weigh(f, s) + f(e)
  {
    assert (s + [e])[..|s|] == s;
  }

  lemma Regroup(s: seq<Spend>, u: seq<Spend>, e: Spend)
    ensures s + (u + [e]) == s + u + [e]
  {
  }

  lemma {:induction false} SinceConcat(s: seq<Spend>, u: seq<Spend>, a: int)
    ensures Since(s + u, a) == Since(s, a) + Since(u, a)
  {
    if u == [] {
      assert s + u == s;
    } else {
      var init, e := u[..|u| - 1], u[|u| - 1];
      SinceConcat(s, init, a);
      assert u == init + [e];
      Regroup(s, init, e);
      Snoc(s + init, e, a, a, e.mint);
      Regroup(Since(s, a), Since(init, a), e);
    }
  }

  lemma {:induction false} BetweenSplit(s: seq<Spend>, u: seq<Spend>, a: int, b: int)
    ensures Between(s + u, a, b) == Between(s, a, b) + Between(u, a, b)
  {
    if u == [] {
      assert s + u == s;
    } else {
      var init, e := u[..|u| - 1], u[|u| - 1];
      BetweenSplit(s, init, a, b);
      assert u == init + [e];
      Regroup(s, init, e);
      Snoc(s + init, e, a, b, e.mint);
      Regroup(Between(s, a, b), Between(init, a, b), e);
    }
  }

  lemma {:induction false} SinceWeighsLess(f: Spend -> nat, s: seq<Spend>, a: int)
    ensures Weigh(f, Since(s, a)) <= Weigh(f, s)
    ensures (forall e :: e in s ==> e.at < a) ==> Since(s, a) == []
  {
    if s == [] {
    } else {
      var init, e := s[..|s| - 1], s[|s| - 1];
      SinceWeighsLess(f, init, a);
      WeighSnoc(f, Since(init, a), e);
    }
  }

  lemma {:induction false} BetweenWeighsLess(f: Spend -> nat, s: seq<Spend>, a: int, b: int)
    ensures Weigh(f, Between(s, a, b)) <= Weigh(f, Since(s, a))
    ensures (forall e :: e in s ==> e.at > b) ==> Between(s, a, b) == []
  {
    if s == [] {
    } else {
      var init, e := s[..|s| - 1], s[|s| - 1];
      BetweenWeighsLess(f, init, a, b);
      WeighSnoc(f, Since(init, a), e);
      WeighSnoc(f, Between(init, a, b), e);
    }
  }

  // ---- The bound ------------------------------------------------------------------------------

  function Owed(f: Spend -> nat, s: seq<Spend>, from: int): nat { Weigh(f, Since(s, from)) }

  function Allowance(k: nat, txs: seq<int>, from: int): nat { k * |Recent(txs, from)| }

  /**
   * Spends since any moment weigh at most `k` per transaction stamped since, and every interval
   * of `window` at most `k` per transaction of the limit.
   */
  ghost predicate Rationed(f: Spend -> nat, k: nat, window: int, max: nat, s: seq<Spend>, txs: seq<int>) {
    && (forall a :: Owed(f, s, a) <= Allowance(k, txs, a))
    && (forall a :: InWindow(f, s, a, window) <= k * max)
  }

  lemma OwedStep(f: Spend -> nat, k: nat, s: seq<Spend>, txs: seq<int>, added: seq<Spend>, stamp: int, a: int)
    requires Owed(f, s, a) <= Allowance(k, txs, a)
    requires Weigh(f, added) <= k && forall e :: e in added ==> e.at <= stamp
    ensures Owed(f, s + added, a) <= Allowance(k, txs + [stamp], a)
  {
    SinceConcat(s, added, a);
    WeighConcat(f, Since(s, a), Since(added, a));
    SinceWeighsLess(f, added, a);
    assert (txs + [stamp])[..|txs|] == txs;
    if stamp < a {
      assert Since(added, a) == [];
    } else {
      assert k * (|Recent(txs, a)| + 1) == k * |Recent(txs, a)| + k;
    }
  }

  lemma WindowRationed(
    f: Spend -> nat, k: nat, window: int, max: nat, s: seq<Spend>, txs: seq<int>, added: seq<Spend>, check: int, a: int)
    requires InWindow(f, s, a, window) <= k * max && Owed(f, s, a) <= Allowance(k, txs, a)
    requires Weigh(f, added) <= k && forall e :: e in added ==> check <= e.at
    requires |Recent(txs, check - window)| < max
    ensures InWindow(f, s + added, a, window) <= k * max
  {
    var b := a + window;
    BetweenSplit(s, added, a, b);
    WeighConcat(f, Between(s, a, b), Between(added, a, b));
    BetweenWeighsLess(f, added, a, b);
    SinceWeighsLess(f, added, a);
    if check > b {
      assert Between(added, a, b) == [];
    } else {
      BetweenWeighsLess(f, s, a, b);
      RecentFewer(txs, check - window, a);
      Product(k, |Recent(txs, a)|, max);
    }
  }

  lemma Product(k: nat, n: nat, max: nat)
    requires n < max
    ensures k * n + k <= k * max
  {
    assert k * (max - n - 1) >= 0;
  }

  lemma RationedStep(
    f: Spend -> nat, k: nat, window: int, max: nat, s: seq<Spend>, txs: seq<int>,
    added: seq<Spend>, stamp: int, check: int)
    requires Rationed(f, k, window, max, s, txs)
    requires Weigh(f, added) <= k && forall e :: e in added ==> check <= e.at <= stamp
    requires |Recent(txs, check - window)| < max
    ensures Rationed(f, k, window, max, s + added, txs + [stamp])
  {
    forall a
      ensures Owed(f, s + added, a) <= Allowance(k, txs + [stamp], a) && InWindow(f, s + added, a, window) <= k * max
    {
      assert Owed(f, s, a) <= Allowance(k, txs, a) && InWindow(f, s, a, window) <= k * max;
      OwedStep(f, k, s, txs, added, stamp, a);
      WindowRationed(f, k, window, max, s, txs, added, check, a);
    }
  }

  lemma NothingRationed(f: Spend -> nat, k: nat, window: int, max: nat)
    ensures Rationed(f, k, window, max, [], [])
  {
    assert forall a :: Owed(f, [], a) == 0 && InWindow(f, [], a, window) == 0;
  }

  lemma {:induction false} EntriesBefore(ts: seq<Transfer>, signer: Address, from: int, ticks: seq<Tick>)
    requires |ticks| == |ts| && TicksAfter(from, ticks)
    ensures forall e :: e in Entries(ts, signer, ticks) ==> e.at <= LastTick(from, ticks)
  {
    if ts == [] {
    } else {
      EntriesBefore(ts[..|ts| - 1], signer, from, ticks[..|ts| - 1]);
    }
  }

  /** Recording an admitted transaction of weight at most `k` keeps the ration of the context's rate limit. */
  lemma RecordRationed(
    f: Spend -> nat, k: nat, c: Config, m: Machine, ixs: seq<Instruction>, signer: Address, from: int, times: Times)
    requires PruningInvisible(m) && m.clock <= from && Timed(c, from, Analyze(ixs, signer), times)
    requires Admits(c, m, Analyze(ixs, signer), signer, times)
    requires var a := Analyze(ixs, signer); Weigh(f, Entries(a.transfers, signer, times.ticks[..|a.transfers|])) <= k
    requires Rationed(f, k, Kept(c.policy.rateLimit), Ceiling(c.policy.rateLimit.maxTransactions),
                      m.history.spends, m.history.txs)
    ensures var h := Remember(m.history, Analyze(ixs, signer).transfers, signer, times.ticks);
            Rationed(f, k, Kept(c.policy.rateLimit), Ceiling(c.policy.rateLimit.maxTransactions), h.spends, h.txs)
  {
    var a, rate, n := Analyze(ixs, signer), c.policy.rateLimit, |c.policy.spendLimits|;
    var t, start := |a.transfers|, Last(from, times.checks);
    NothingReported(m.ledger, c.policy, a, signer, c.sync, times.checks);
    ChecksBeforeTicks(from, times, n);
    FewInWindow(m.ledger, m.history, m.clock, rate, times.checks[n]);
    EntriesAfter(a.transfers, signer, start, times.ticks[..t]);
    EntriesBefore(a.transfers, signer, start, times.ticks[..t]);
    RationedStep(f, k, Kept(rate), Ceiling(rate.maxTransactions), m.history.spends, m.history.txs,
                 Entries(a.transfers, signer, times.ticks[..t]), times.ticks[t].push, times.checks[n]);
  }

  // ---- A rate limit that admits nothing -------------------------------------------------------

  lemma {:induction false} NothingAdmitted(c: Config, m: Machine, steps: seq<Step>)
    requires IsRun(c, m, steps) && c.policy.rateLimit.maxTransactions <= 0
    ensures var h := Run(c, m, steps).history; h.spends == m.history.spends && h.txs == m.history.txs
    decreases |steps|
  {
    if steps == [] {
    } else {
      StepEffect(c, m, steps[0]);
      NothingAdmitted(c, Apply(c, m, steps[0]), steps[1..]);
    }
  }

  // ---- Bursts ---------------------------------------------------------------------------------

  /** How many transactions fit into an interval: a full ration in every lap of the rate window. */
  function Laps(window: int, length: nat): nat
    requires window >= 0
  {
    length / (window + 1) + 1
  }

  /** In any interval of this length the rate limit lets at most `n` transactions through. */
  predicate BurstAtMost(rate: RateLimit, length: nat, n: nat) {
    rate.maxTransactions <= 0
    || (rate.windowMs >= 0 && rate.maxTransactions * Laps(rate.windowMs, length) <= n)
  }

  lemma {:induction false} CountSplit(txs: seq<int>, a: int, b: int, c: int)
    requires a - 1 <= b <= c
    ensures CountBetween(txs, a, c) == CountBetween(txs, a, b) + CountBetween(txs, b + 1, c)
  {
    if txs == [] {
    } else {
      CountSplit(txs[..|txs| - 1], a, b, c);
    }
  }

  lemma {:induction false} CountWider(txs: seq<int>, a: int, b: int, c: int)
    requires b <= c
    ensures CountBetween(txs, a, b) <= CountBetween(txs, a, c)
  {
    if txs == [] {
    } else {
      CountWider(txs[..|txs| - 1], a, b, c);
    }
  }

  /** Lap by lap, an interval of `n` laps holds at most `n` rations. */
  lemma {:induction false} CountLaps(txs: seq<int>, window: nat, max: int, a: int, n: nat)
    requires CountBounded(txs, window, max)
    ensures CountBetween(txs, a, a + n * (window + 1) - 1) <= Ceiling(max) * n
  {
    if n == 0 {
      EmptyCount(txs, a);
    } else {
      var b := a + (n - 1) * (window + 1);
      LapEnd(window, n);
      CountLaps(txs, window, max, a, n - 1);
      CountSplit(txs, a, b - 1, b + window);
      assert CountWindow(txs, b, window) <= Ceiling(max);
      assert Ceiling(max) * (n - 1) + Ceiling(max) == Ceiling(max) * n;
    }
  }

  lemma LapEnd(window: nat, n: nat)
    requires n > 0
    ensures (n - 1) * (window + 1) + window == n * (window + 1) - 1 && (n - 1) * (window + 1) >= 0
  {
  }

  lemma {:induction false} EmptyCount(txs: seq<int>, a: int)
    ensures CountBetween(txs, a, a - 1) == 0
  {
    if txs == [] {
    } else {
      EmptyCount(txs[..|txs| - 1], a);
    }
  }

  lemma LapsCover(window: nat, length: nat)
    ensures length <= Laps(window, length) * (window + 1) - 1
    ensures length <= window ==> Laps(window, length) == 1
  {
    assert length / (window + 1) * (window + 1) + length % (window + 1) == length;
  }

  lemma BurstCount(txs: seq<int>, rate: RateLimit, from: int, length: nat)
    requires rate.maxTransactions > 0 && rate.windowMs >= 0 && length <= DAY
    requires CountBounded(txs, Kept(rate), rate.maxTransactions)
    ensures CountWindow(txs, from, length) <= rate.maxTransactions * Laps(rate.windowMs, length)
  {
    var window: nat := Kept(rate);
    var laps := Laps(window, length);
    LapsCover(window, length);
    LapsCover(rate.windowMs, length);
    CountLaps(txs, window, rate.maxTransactions, from, laps);
    CountWider(txs, from, from + length, from + laps * (window + 1) - 1);
  }

  /** In every run, no interval of up to a day holds more transactions than the bursts its rate limit allows. */
  lemma BurstsBounded(c: Config, clock: int, steps: seq<Step>, from: int, length: nat, n: nat)
    requires IsRun(c, Initial(clock), steps) && length <= DAY && BurstAtMost(c.policy.rateLimit, length, n)
    ensures CountWindow(Run(c, Initial(clock), steps).history.txs, from, length) <= n
  {
    var txs, rate := Run(c, Initial(clock), steps).history.txs, c.policy.rateLimit;
    if rate.maxTransactions <= 0 {
      NothingAdmitted(c, Initial(clock), steps);
    } else {
      InitialInv(c, clock);
      RunKeepsInv(c, Initial(clock), steps);
      BurstCount(txs, rate, from, length);
    }
  }

  lemma OneAtATime(rate: RateLimit, length: nat)
    requires BurstAtMost(rate, length, 1) && length <= DAY && rate.maxTransactions > 0
    ensures rate.maxTransactions == 1 && length <= Kept(rate)
  {
    var laps := Laps(rate.windowMs, length);
    assert rate.maxTransactions * laps >= laps && rate.maxTransactions * laps >= rate.maxTransactions;
    LapsCover(rate.windowMs, length);
  }

  lemma {:induction false} WiderWeighs(f: Spend -> nat, s: seq<Spend>, a: int, b: int, c: int)
    requires b <= c
    ensures Weigh(f, Between(s, a, b)) <= Weigh(f, Between(s, a, c))
  {
    if s == [] {
    } else {
      var init, e := s[..|s| - 1], s[|s| - 1];
      WiderWeighs(f, init, a, b, c);
      WeighSnoc(f, Between(init, a, b), e);
      WeighSnoc(f, Between(init, a, c), e);
    }
  }

  lemma OneRation(f: Spend -> nat, s: seq<Spend>, from: int, window: int, kept: int, k: nat, n: nat)
    requires InWindow(f, s, from, kept) <= k * n && n == 1 && window <= kept
    ensures InWindow(f, s, from, window) <= k
  {
    WiderWeighs(f, s, from, from + window, from + kept);
    assert k * 1 == k;
  }
}
