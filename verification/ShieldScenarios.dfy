/**
 * Building blocks for runs that reach a bound: transactions made of given transfers, each
 * checked and recorded at one instant, under a given rate limit and spend limits.
 */
module ShieldScenarios {
  import opened Common
  import opened Numerals
  import opened Addresses
  import opened Inspector
  import opened ShieldWindows
  import opened Shield
  import opened ShieldRuns
  import opened ShieldRates

  const AGENT := Other(0)

  /** Only spend limits and a rate limit. */
  function Context(limits: seq<SpendLimit>, rate: RateLimit): Config {
    Config(Policy(false, None, limits, rate, None), None)
  }

  // ---- Transactions ---------------------------------------------------------------------------

  function Payment(mint: Option<Address>, amount: nat): Transfer {
    Transfer(mint, amount, Other(1), Other(2), AGENT)
  }

  const MAX_TRANSFER: nat := 0xFFFF_FFFF_FFFF_FFFF

  /** One payment, or several where an amount does not fit into one. */
  function Payments(mint: Option<Address>, amount: nat): (ts: seq<Transfer>)
    ensures ts != []
    ensures forall i :: 0 <= i < |ts| ==> ts[i].amount <= MAX_TRANSFER && ts[i] == Payment(mint, ts[i].amount)
  {
    if amount <= MAX_TRANSFER then [Payment(mint, amount)]
    else Payments(mint, amount - MAX_TRANSFER) + [Payment(mint, MAX_TRANSFER)]
  }

  /** The instructions make exactly these transfers, all on the agent's authority. */
  predicate Makes(ixs: seq<Instruction>, ts: seq<Transfer>) {
    Transfers(ixs) == ts && forall i :: 0 <= i < |ts| ==> ts[i].authority == AGENT
  }

  lemma PaymentsMade(mint: Option<Address>, amount: nat)
    ensures Makes(Batch(Payments(mint, amount), 0), Payments(mint, amount))
  {
    assert Pow256(8) == 0x1_0000_0000_0000_0000 by {
      assert Pow256(4) == 0x1_0000_0000;
    }
    BatchRecovered(Payments(mint, amount), 0);
  }

  lemma {:induction false} PaymentsTotal(mint: Option<Address>, amount: nat, limit: Address)
    ensures Outgoing(Payments(mint, amount), AGENT) == amount
    ensures Matching(Payments(mint, amount), AGENT, limit) == if mint == None || mint == Some(limit) then amount else 0
    decreases amount
  {
    var ts := Payments(mint, amount);
    assert ts[..|ts| - 1] == if amount <= MAX_TRANSFER then [] else Payments(mint, amount - MAX_TRANSFER);
    if amount > MAX_TRANSFER {
      PaymentsTotal(mint, amount - MAX_TRANSFER, limit);
    }
  }

  /** The entries the transfers leave at one instant. */
  function Marks(ts: seq<Transfer>, now: int): (es: seq<Spend>)
    ensures |es| == |ts| && forall i :: 0 <= i < |ts| ==> es[i] == Spend(MintKey(ts[i]), ts[i].amount, now)
  {
    seq(|ts|, i requires 0 <= i < |ts| => Spend(MintKey(ts[i]), ts[i].amount, now))
  }

  lemma {:induction false} MarksWeigh(ts: seq<Transfer>, now: int, mint: Address)
    requires forall i :: 0 <= i < |ts| ==> ts[i].authority == AGENT
    ensures Total(Marks(ts, now)) == Outgoing(ts, AGENT)
    ensures (forall i :: 0 <= i < |ts| ==> MintKey(ts[i]) != mint) ==> Spent(Marks(ts, now), mint) == 0
    ensures (forall i :: 0 <= i < |ts| ==> MintKey(ts[i]) == mint) ==>
              Spent(Marks(ts, now), mint) == Outgoing(ts, AGENT)
  {
    if ts == [] {
    } else {
      var n := |ts| - 1;
      MarksWeigh(ts[..n], now, mint);
      assert Marks(ts, now)[..n] == Marks(ts[..n], now);
    }
  }

  // ---- One instant ----------------------------------------------------------------------------

  function Same(now: int, n: nat): (ticks: seq<Tick>)
    ensures |ticks| == n && forall i :: 0 <= i < n ==> ticks[i] == Tick(now, now, now)
  {
    seq(n, _ => Tick(now, now, now))
  }

  function Checks(now: int, n: nat): (cs: seq<int>)
    ensures |cs| == n && forall i :: 0 <= i < n ==> cs[i] == now
  {
    seq(n, _ => now)
  }

  /** All readings of a check-and-record step at once. */
  function Instant(limits: seq<SpendLimit>, ts: seq<Transfer>, now: int): Times {
    Times(Checks(now, |limits| + 1), Same(now, |ts| + 1))
  }

  lemma {:induction false} SameTicks(now: int, n: nat)
    ensures TicksAfter(now, Same(now, n)) && LastTick(now, Same(now, n)) == now
  {
    if n == 0 {
    } else {
      assert Same(now, n)[..n - 1] == Same(now, n - 1);
      SameTicks(now, n - 1);
    }
  }

  lemma InstantTimed(
    limits: seq<SpendLimit>, rate: RateLimit, from: int, now: int, ixs: seq<Instruction>, ts: seq<Transfer>)
    requires Makes(ixs, ts) && from <= now
    ensures Timed(Context(limits, rate), from, Analyze(ixs, AGENT), Instant(limits, ts, now))
    ensures End(from, Instant(limits, ts, now)) == now
  {
    SameTicks(now, |ts| + 1);
  }

  lemma {:induction false} EntriesAreMarks(ts: seq<Transfer>, now: int)
    requires forall i :: 0 <= i < |ts| ==> ts[i].authority == AGENT
    ensures Entries(ts, AGENT, Same(now, |ts|)) == Marks(ts, now)
  {
    if ts == [] {
    } else {
      var n := |ts| - 1;
      assert Same(now, |ts|)[..n] == Same(now, n);
      EntriesAreMarks(ts[..n], now);
      assert Marks(ts, now) == Marks(ts[..n], now) + [Spend(MintKey(ts[n]), ts[n].amount, now)];
    }
  }

  /** The kept entries after recording at one instant: pruned once if they became too many. */
  function KeptSpends(s: seq<Spend>, added: seq<Spend>, now: int): seq<Spend> {
    if |s| + |added| > PRUNE_THRESHOLD then Since(s, now - DAY) + added else s + added
  }

  function KeptStamps(txs: seq<int>, now: int): seq<int> {
    if |txs| + 1 > PRUNE_THRESHOLD then Recent(txs, now - DAY) + [now] else txs + [now]
  }

  predicate AllSince(s: seq<Spend>, cutoff: int) {
    forall i :: 0 <= i < |s| ==> s[i].at >= cutoff
  }

  lemma {:induction false} SinceAll(s: seq<Spend>, cutoff: int)
    ensures AllSince(s, cutoff) ==> Since(s, cutoff) == s
    ensures AllSince(Since(s, cutoff), cutoff)
  {
    if s == [] {
    } else {
      SinceAll(s[..|s| - 1], cutoff);
      assert s == s[..|s| - 1] + [s[|s| - 1]];
    }
  }

  lemma {:induction false} RecentAll(txs: seq<int>, cutoff: int)
    ensures (forall i :: 0 <= i < |txs| ==> txs[i] >= cutoff) ==> Recent(txs, cutoff) == txs
    ensures forall i :: 0 <= i < |Recent(txs, cutoff)| ==> Recent(txs, cutoff)[i] >= cutoff
  {
    if txs == [] {
    } else {
      RecentAll(txs[..|txs| - 1], cutoff);
      assert txs == txs[..|txs| - 1] + [txs[|txs| - 1]];
    }
  }

  lemma PruneAll(s: seq<Spend>, now: int)
    requires AllSince(s, now - DAY)
    ensures PruneSpends(s, now) == s
  {
    SinceAll(s, now - DAY);
  }

  lemma PushFirst(s: seq<Spend>, e: Spend, now: int)
    requires e.at >= now - DAY
    ensures PruneSpends(s + [e], now) == KeptSpends(s, [e], now)
  {
    Snoc(s, e, now - DAY, now, e.mint);
  }

  lemma PushNext(s: seq<Spend>, added: seq<Spend>, e: Spend, now: int)
    requires AllSince(added + [e], now - DAY)
    ensures PruneSpends(KeptSpends(s, added, now) + [e], now) == KeptSpends(s, added + [e], now)
  {
    if |s| + |added| > PRUNE_THRESHOLD {
      var past := Since(s, now - DAY);
      SinceAll(s, now - DAY);
      assert past + added + [e] == past + (added + [e]);
      PruneAll(past + (added + [e]), now);
    } else {
      assert s + added + [e] == s + (added + [e]);
      SinceConcat(s, added + [e], now - DAY);
      SinceAll(added + [e], now - DAY);
    }
  }

  lemma PruneKept(s: seq<Spend>, added: seq<Spend>, now: int)
    requires AllSince(added, now - DAY)
    ensures PruneSpends(if added == [] then s else KeptSpends(s, added, now), now) == KeptSpends(s, added, now)
  {
    SinceConcat(s, added, now - DAY);
    SinceAll(s, now - DAY);
    SinceAll(added, now - DAY);
    SinceAll(KeptSpends(s, added, now), now - DAY);
    assert s + [] == s && Since(s, now - DAY) + [] == Since(s, now - DAY);
  }

  function MaybePruned(txs: seq<int>, n: nat, now: int): seq<int> {
    if n == 0 then txs else PruneTxs(txs, now)
  }

  lemma PruneTwice(txs: seq<int>, now: int)
    ensures PruneTxs(PruneTxs(txs, now), now) == PruneTxs(txs, now)
  {
    RecentRecent(txs, now - DAY, now - DAY);
  }

  lemma {:induction false} TransfersKept(l: Ledger, ts: seq<Transfer>, now: int)
    requires forall i :: 0 <= i < |ts| ==> ts[i].authority == AGENT
    ensures RecordTransfers(l, ts, AGENT, Same(now, |ts|))
         == l.(spends := if ts == [] then l.spends else KeptSpends(l.spends, Marks(ts, now), now),
               txs := MaybePruned(l.txs, |ts|, now))
  {
    if ts == [] {
    } else {
      var n := |ts| - 1;
      var init, e := ts[..n], Spend(MintKey(ts[n]), ts[n].amount, now);
      assert Same(now, |ts|)[..n] == Same(now, n);
      TransfersKept(l, init, now);
      assert Marks(ts, now) == Marks(init, now) + [e];
      assert init == [] <==> Marks(init, now) == [];
      if init == [] {
        PushFirst(l.spends, e, now);
        assert Marks(ts, now) == [e];
      } else {
        PushNext(l.spends, Marks(init, now), e, now);
      }
      PruneTwice(l.txs, now);
    }
  }

  lemma StampKept(txs: seq<int>, n: nat, now: int)
    ensures PruneTxs(MaybePruned(txs, n, now) + [now], now) == KeptStamps(txs, now)
  {
    if n > 0 && |txs| > PRUNE_THRESHOLD {
      RecentAll(txs, now - DAY);
      RecentAll(Recent(txs, now - DAY) + [now], now - DAY);
    } else {
      assert (txs + [now])[..|txs|] == txs;
    }
  }

  /** A ledger with nothing synced. */
  predicate Unsynced(l: Ledger) { l.vault.None? && l.network.None? }

  lemma CommitKept(l: Ledger, ts: seq<Transfer>, now: int)
    requires Unsynced(l) && forall i :: 0 <= i < |ts| ==> ts[i].authority == AGENT
    ensures Commit(l, ts, AGENT, None, Same(now, |ts| + 1))
         == l.(spends := KeptSpends(l.spends, Marks(ts, now), now), txs := KeptStamps(l.txs, now))
  {
    assert Same(now, |ts| + 1)[..|ts|] == Same(now, |ts|);
    TransfersKept(l, ts, now);
    assert ts == [] <==> Marks(ts, now) == [];
    PruneKept(l.spends, Marks(ts, now), now);
    StampKept(l.txs, |ts|, now);
  }

  // ---- Acceptance -----------------------------------------------------------------------------

  predicate Affordable(limits: seq<SpendLimit>, s: seq<Spend>, ts: seq<Transfer>, now: int) {
    forall k :: 0 <= k < |limits| ==>
      Spent(Since(s, now - WindowOf(limits[k])), limits[k].mint) + Matching(ts, AGENT, limits[k].mint)
      <= limits[k].amount
  }

  /** What the rate check counts. */
  function Visible(rate: RateLimit, txs: seq<int>, now: int): nat { |Recent(txs, now - rate.windowMs)| }

  predicate InRate(rate: RateLimit, txs: seq<int>, now: int) {
    Visible(rate, txs, now) < rate.maxTransactions
  }

  lemma Admitted(
    limits: seq<SpendLimit>, rate: RateLimit, m: Machine, ixs: seq<Instruction>, ts: seq<Transfer>, now: int)
    requires Makes(ixs, ts) && Unsynced(m.ledger) && !m.paused
    requires Affordable(limits, m.ledger.spends, ts, now) && InRate(rate, m.ledger.txs, now)
    ensures Admits(Context(limits, rate), m, Analyze(ixs, AGENT), AGENT, Instant(limits, ts, now))
  {
    var c, checks := Context(limits, rate), Checks(now, |limits| + 1);
    EvaluateAccepts(m.ledger, c.policy, ixs, AGENT, None, checks);
  }

  lemma RememberMarks(h: History, ts: seq<Transfer>, now: int)
    requires forall i :: 0 <= i < |ts| ==> ts[i].authority == AGENT
    ensures var r := Remember(h, ts, AGENT, Same(now, |ts| + 1));
            r.spends == h.spends + Marks(ts, now) && r.txs == h.txs + [now]
  {
    assert Same(now, |ts| + 1)[..|ts|] == Same(now, |ts|);
    EntriesAreMarks(ts, now);
  }

  // ---- Enforcing one transaction after another ------------------------------------------------

  /** The machine with these kept and recorded entries and stamps. */
  predicate Holds(m: Machine, spends: seq<Spend>, txs: seq<int>, all: seq<Spend>, stamps: seq<int>, clock: int) {
    && Unsynced(m.ledger) && !m.paused && m.clock == clock
    && m.ledger.spends == spends && m.ledger.txs == txs && m.history.spends == all && m.history.txs == stamps
  }

  function Pay(limits: seq<SpendLimit>, ixs: seq<Instruction>, ts: seq<Transfer>, now: int): Step {
    Step.Enforce(ixs, AGENT, Instant(limits, ts, now))
  }

  lemma PayOnce(
    limits: seq<SpendLimit>, rate: RateLimit, m: Machine, ixs: seq<Instruction>, ts: seq<Transfer>, now: int,
    spends: seq<Spend>, txs: seq<int>, all: seq<Spend>, stamps: seq<int>, clock: int)
    requires Holds(m, spends, txs, all, stamps, clock) && Makes(ixs, ts) && clock <= now
    requires Affordable(limits, spends, ts, now) && InRate(rate, txs, now)
    ensures Enabled(Context(limits, rate), m, Pay(limits, ixs, ts, now))
    ensures Holds(Apply(Context(limits, rate), m, Pay(limits, ixs, ts, now)),
                  KeptSpends(spends, Marks(ts, now), now), KeptStamps(txs, now),
                  all + Marks(ts, now), stamps + [now], now)
  {
    InstantTimed(limits, rate, m.clock, now, ixs, ts);
    Admitted(limits, rate, m, ixs, ts, now);
    CommitKept(m.ledger, ts, now);
    RememberMarks(m.history, ts, now);
  }

  lemma {:induction false} RunSnoc(c: Config, m: Machine, steps: seq<Step>, s: Step)
    requires IsRun(c, m, steps) && Enabled(c, Run(c, m, steps), s)
    ensures IsRun(c, m, steps + [s])
    ensures Run(c, m, steps + [s]) == Apply(c, Run(c, m, steps), s)
    decreases |steps|
  {
    if steps == [] {
      assert [s][1..] == [] && steps + [s] == [s];
    } else {
      assert (steps + [s])[0] == steps[0] && (steps + [s])[1..] == steps[1..] + [s];
      RunSnoc(c, Apply(c, m, steps[0]), steps[1..], s);
    }
  }

  /** The entries of the same transfers at each of these times. */
  function AllMarks(ts: seq<Transfer>, at: seq<int>): seq<Spend> {
    if at == [] then [] else AllMarks(ts, at[..|at| - 1]) + Marks(ts, at[|at| - 1])
  }

  lemma {:induction false} AllMarksLength(ts: seq<Transfer>, at: seq<int>)
    requires |ts| == 1
    ensures |AllMarks(ts, at)| == |at|
  {
    if at == [] {
    } else {
      AllMarksLength(ts, at[..|at| - 1]);
    }
  }

  predicate Ordered(at: seq<int>) {
    (forall i :: 0 <= i < |at| ==> at[i] >= 0) && forall i, j :: 0 <= i < j < |at| ==> at[i] <= at[j]
  }

  /** Nothing is pruned: all within a day, or never too many. */
  predicate Lossless(ts: seq<Transfer>, at: seq<int>) {
    (forall i :: 0 <= i < |at| ==> at[i] <= DAY) || (|AllMarks(ts, at)| <= PRUNE_THRESHOLD && |at| <= PRUNE_THRESHOLD)
  }

  /** Every repetition is within the limits at its time. */
  predicate Repeatable(limits: seq<SpendLimit>, rate: RateLimit, ts: seq<Transfer>, at: seq<int>) {
    forall i :: 0 <= i < |at| ==> Affordable(limits, AllMarks(ts, at[..i]), ts, at[i]) && InRate(rate, at[..i], at[i])
  }

  lemma StampsKept(at: seq<int>)
    requires at != [] && Ordered(at) && (at[|at| - 1] <= DAY || |at| <= PRUNE_THRESHOLD)
    ensures KeptStamps(at[..|at| - 1], at[|at| - 1]) == at
  {
    var n := |at| - 1;
    assert at == at[..n] + [at[n]];
    if at[n] <= DAY {
      RecentAll(at[..n], at[n] - DAY);
    }
  }

  lemma {:induction false} MarkedLater(ts: seq<Transfer>, at: seq<int>, cutoff: int)
    requires forall i :: 0 <= i < |at| ==> at[i] >= cutoff
    ensures AllSince(AllMarks(ts, at), cutoff)
  {
    if at == [] {
    } else {
      MarkedLater(ts, at[..|at| - 1], cutoff);
    }
  }

  lemma KeptAll(s: seq<Spend>, added: seq<Spend>, now: int)
    requires AllSince(s, now - DAY) || |s| + |added| <= PRUNE_THRESHOLD
    ensures KeptSpends(s, added, now) == s + added
  {
    SinceAll(s, now - DAY);
  }

  lemma MarksKept(ts: seq<Transfer>, at: seq<int>)
    requires at != [] && Ordered(at) && (at[|at| - 1] <= DAY || |AllMarks(ts, at)| <= PRUNE_THRESHOLD)
    ensures KeptSpends(AllMarks(ts, at[..|at| - 1]), Marks(ts, at[|at| - 1]), at[|at| - 1]) == AllMarks(ts, at)
  {
    var n := |at| - 1;
    if at[n] <= DAY {
      MarkedLater(ts, at[..n], at[n] - DAY);
    }
    KeptAll(AllMarks(ts, at[..n]), Marks(ts, at[n]), at[n]);
  }

  lemma LosslessKept(ts: seq<Transfer>, at: seq<int>)
    requires at != [] && Ordered(at) && Lossless(ts, at)
    ensures var n := |at| - 1;
            && KeptSpends(AllMarks(ts, at[..n]), Marks(ts, at[n]), at[n]) == AllMarks(ts, at)
            && KeptStamps(at[..n], at[n]) == at
  {
    StampsKept(at);
    MarksKept(ts, at);
  }

  lemma LosslessInit(ts: seq<Transfer>, at: seq<int>)
    requires at != [] && Lossless(ts, at)
    ensures Lossless(ts, at[..|at| - 1])
  {
  }

  function LastOf(at: seq<int>): int { if at == [] then 0 else at[|at| - 1] }

  /** All entries and stamps of the repetitions are recorded and kept. */
  predicate Repeated(m: Machine, ts: seq<Transfer>, at: seq<int>) {
    Holds(m, AllMarks(ts, at), at, AllMarks(ts, at), at, LastOf(at))
  }

  predicate Enforces(steps: seq<Step>, ixs: seq<Instruction>) {
    forall k :: 0 <= k < |steps| ==> steps[k].Enforce? && steps[k].instructions == ixs
  }

  predicate Reaches(c: Config, steps: seq<Step>, m: Machine) {
    IsRun(c, Initial(0), steps) && Run(c, Initial(0), steps) == m
  }

  lemma ReachesNext(c: Config, steps: seq<Step>, m: Machine, s: Step)
    requires Reaches(c, steps, m) && Enabled(c, m, s)
    ensures Reaches(c, steps + [s], Apply(c, m, s))
  {
    RunSnoc(c, Initial(0), steps, s);
  }

  /** One more transaction at the end of a run. */
  lemma PayNext(
    limits: seq<SpendLimit>, rate: RateLimit, before: seq<Step>, m: Machine, ixs: seq<Instruction>, ts: seq<Transfer>,
    now: int, spends: seq<Spend>, txs: seq<int>, all: seq<Spend>, stamps: seq<int>, clock: int)
    returns (steps: seq<Step>, r: Machine)
    requires Reaches(Context(limits, rate), before, m) && Holds(m, spends, txs, all, stamps, clock)
    requires Makes(ixs, ts) && clock <= now && Affordable(limits, spends, ts, now) && InRate(rate, txs, now)
    ensures Reaches(Context(limits, rate), steps, r)
    ensures Holds(r, KeptSpends(spends, Marks(ts, now), now), KeptStamps(txs, now),
                  all + Marks(ts, now), stamps + [now], now)
  {
    var s := Pay(limits, ixs, ts, now);
    PayOnce(limits, rate, m, ixs, ts, now, spends, txs, all, stamps, clock);
    ReachesNext(Context(limits, rate), before, m, s);
    steps, r := before + [s], Apply(Context(limits, rate), m, s);
  }

  lemma StartsRepeated(limits: seq<SpendLimit>, rate: RateLimit, ts: seq<Transfer>)
    ensures Reaches(Context(limits, rate), [], Initial(0)) && Repeated(Initial(0), ts, [])
  {
  }

  /** The same transaction at each of the given times. */
  lemma {:induction false} Repeat(
    limits: seq<SpendLimit>, rate: RateLimit, ixs: seq<Instruction>, ts: seq<Transfer>, at: seq<int>)
    returns (steps: seq<Step>, m: Machine)
    requires Makes(ixs, ts) && Ordered(at) && Lossless(ts, at) && Repeatable(limits, rate, ts, at)
    ensures Reaches(Context(limits, rate), steps, m) && Repeated(m, ts, at) && Enforces(steps, ixs)
    decreases |at|
  {
    if at == [] {
      steps, m := [], Initial(0);
      StartsRepeated(limits, rate, ts);
    } else {
      var n := |at| - 1;
      LosslessInit(ts, at);
      RepeatableInit(limits, rate, ts, at);
      steps, m := Repeat(limits, rate, ixs, ts, at[..n]);
      steps, m := RepeatNext(limits, rate, ixs, ts, at, steps, m);
    }
  }

  lemma RepeatableInit(limits: seq<SpendLimit>, rate: RateLimit, ts: seq<Transfer>, at: seq<int>)
    requires at != [] && Repeatable(limits, rate, ts, at)
    ensures Repeatable(limits, rate, ts, at[..|at| - 1])
  {
    var init := at[..|at| - 1];
    forall i | 0 <= i < |init|
      ensures Affordable(limits, AllMarks(ts, init[..i]), ts, init[i]) && InRate(rate, init[..i], init[i])
    {
      assert init[..i] == at[..i];
    }
  }

  lemma RepeatNext(
    limits: seq<SpendLimit>, rate: RateLimit, ixs: seq<Instruction>, ts: seq<Transfer>, at: seq<int>,
    before: seq<Step>, m: Machine)
    returns (steps: seq<Step>, r: Machine)
    requires at != [] && Makes(ixs, ts) && Ordered(at) && Lossless(ts, at) && Repeatable(limits, rate, ts, at)
    requires Reaches(Context(limits, rate), before, m) && Repeated(m, ts, at[..|at| - 1]) && Enforces(before, ixs)
    ensures Reaches(Context(limits, rate), steps, r) && Repeated(r, ts, at) && Enforces(steps, ixs)
  {
    var n := |at| - 1;
    var init, s := at[..n], Pay(limits, ixs, ts, at[n]);
    PayOnce(limits, rate, m, ixs, ts, at[n], AllMarks(ts, init), init, AllMarks(ts, init), init, LastOf(init));
    ReachesNext(Context(limits, rate), before, m, s);
    LosslessKept(ts, at);
    assert init + [at[n]] == at;
    steps, r := before + [s], Apply(Context(limits, rate), m, s);
  }

  lemma {:induction false} MarksBetween(ts: seq<Transfer>, at: seq<int>, to: int)
    requires forall i :: 0 <= i < |at| ==> 0 <= at[i] <= to
    ensures Between(AllMarks(ts, at), 0, to) == AllMarks(ts, at)
  {
    if at == [] {
    } else {
      var n := |at| - 1;
      MarksBetween(ts, at[..n], to);
      BetweenSplit(AllMarks(ts, at[..n]), Marks(ts, at[n]), 0, to);
      AllBetween(Marks(ts, at[n]), 0, to);
    }
  }

  lemma {:induction false} AllBetween(s: seq<Spend>, from: int, to: int)
    requires forall i :: 0 <= i < |s| ==> from <= s[i].at <= to
    ensures Between(s, from, to) == s
  {
    if s == [] {
    } else {
      AllBetween(s[..|s| - 1], from, to);
      assert s == s[..|s| - 1] + [s[|s| - 1]];
    }
  }

  lemma {:induction false} AllMarksWeigh(f: Spend -> nat, ts: seq<Transfer>, at: seq<int>, w: nat)
    requires forall t :: Weigh(f, Marks(ts, t)) == w
    ensures Weigh(f, AllMarks(ts, at)) == |at| * w
  {
    if at == [] {
    } else {
      var n := |at| - 1;
      AllMarksWeigh(f, ts, at[..n], w);
      WeighConcat(f, AllMarks(ts, at[..n]), Marks(ts, at[n]));
      OneMore(n, w);
    }
  }

  lemma OneMore(n: nat, w: nat)
    ensures n * w + w == (n + 1) * w
  {
  }

  // ---- Bursts under a rate limit --------------------------------------------------------------

  /** The earliest times the rate limit allows: a full ration at the start of every lap. */
  function BurstTime(rate: RateLimit, i: nat): int
    requires rate.maxTransactions >= 1
  {
    if rate.windowMs < 0 then 0 else i / rate.maxTransactions * (rate.windowMs + 1)
  }

  function Burst(rate: RateLimit, n: nat): (at: seq<int>)
    requires rate.maxTransactions >= 1
    ensures |at| == n && forall i :: 0 <= i < n ==> at[i] == BurstTime(rate, i)
  {
    seq(n, i requires 0 <= i < n => BurstTime(rate, i))
  }

  lemma ScaleOrder(a: nat, b: nat, g: nat)
    requires a <= b
    ensures 0 <= a * g <= b * g
    ensures a < b ==> a * g + g <= b * g
  {
    assert (b - a) * g >= 0;
    MulAtLeast(b - a, g);
  }

  lemma LapOrder(m: nat, g: nat, i: nat, j: nat)
    requires m >= 1 && i <= j
    ensures 0 <= i / m * g <= j / m * g
    ensures i / m < j / m ==> i / m * g + g <= j / m * g
  {
    DivOrder(m, i, j);
    ScaleOrder(i / m, j / m, g);
  }

  lemma DivOrder(m: nat, i: nat, j: nat)
    requires m >= 1 && i <= j
    ensures i / m <= j / m
  {
    Fundamental(i, m);
    Fundamental(j, m);
    MulAtLeast(i / m - j / m, m);
  }

  lemma BurstOrdered(rate: RateLimit, n: nat)
    requires rate.maxTransactions >= 1
    ensures Ordered(Burst(rate, n))
  {
    var at := Burst(rate, n);
    forall i, j | 0 <= i <= j < n ensures 0 <= at[i] <= at[j] {
      if rate.windowMs >= 0 {
        LapOrder(rate.maxTransactions, rate.windowMs + 1, i, j);
      }
    }
  }

  lemma {:induction false} RecentTail(txs: seq<int>, k: nat, cutoff: int)
    requires k <= |txs| && forall i :: 0 <= i < k ==> txs[i] < cutoff
    ensures |Recent(txs, cutoff)| <= |txs| - k
  {
    if |txs| == k {
      NoneRecent(txs, cutoff);
    } else {
      RecentTail(txs[..|txs| - 1], k, cutoff);
    }
  }

  lemma {:induction false} NoneRecent(txs: seq<int>, cutoff: int)
    requires forall i :: 0 <= i < |txs| ==> txs[i] < cutoff
    ensures Recent(txs, cutoff) == []
  {
    if txs == [] {
    } else {
      NoneRecent(txs[..|txs| - 1], cutoff);
    }
  }

  lemma LapOf(m: nat, i: nat) returns (k: nat)
    requires m >= 1
    ensures k <= i < k + m
    ensures forall j: nat :: j < k ==> j / m < i / m
  {
    Fundamental(i, m);
    k := i / m * m;
    forall j: nat | j < k ensures j / m < i / m {
      Fundamental(j, m);
      MulAtLeast(i / m - j / m, m);
      SmallerLap(i / m, j / m, m, j);
    }
  }

  lemma SmallerLap(a: nat, b: nat, m: nat, j: nat)
    requires b * m <= j < a * m
    ensures b < a
  {
    if a <= b {
      ScaleOrder(a, b, m);
    }
  }

  /** Each transaction of a burst meets fewer than the ration. */
  lemma BurstInRate(rate: RateLimit, i: nat)
    requires rate.maxTransactions >= 1
    ensures InRate(rate, Burst(rate, i), BurstTime(rate, i))
  {
    var at, now, m := Burst(rate, i), BurstTime(rate, i), rate.maxTransactions;
    if rate.windowMs < 0 {
      NoneRecent(at, now - rate.windowMs);
    } else {
      var k := LapOf(m, i);
      forall j | 0 <= j < k ensures at[j] < now - rate.windowMs {
        LapOrder(m, rate.windowMs + 1, j, i);
      }
      RecentTail(at, k, now - rate.windowMs);
    }
  }

  lemma BurstPrefix(rate: RateLimit, n: nat, i: nat)
    requires rate.maxTransactions >= 1 && i <= n
    ensures Burst(rate, n)[..i] == Burst(rate, i)
  {
  }

  /** Bursts that exceed a count come that soon. */
  lemma BurstFits(rate: RateLimit, length: nat, n: nat, i: nat)
    requires !BurstAtMost(rate, length, n) && i <= n
    ensures 0 <= BurstTime(rate, i) <= length
  {
    if rate.windowMs >= 0 {
      var m, g, laps := rate.maxTransactions, rate.windowMs + 1, length / (rate.windowMs + 1);
      Fundamental(i, m);
      Fundamental(length, g);
      SmallerLap(laps + 1, i / m, m, i);
      ScaleOrder(i / m, laps, g);
    }
  }
}
