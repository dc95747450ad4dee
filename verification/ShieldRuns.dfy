/**
 * One Shield context shared by `enforce()` and any number of concurrent signing
 * calls. A signing call runs up to the `await` on the simulation, is suspended there,
 * and later checks and records in one uninterrupted step, so a run of the system is a
 * sequence of such steps in any order.
 */
module ShieldRuns {
  import opened Common
  import opened Addresses
  import opened Inspector
  import opened ShieldWindows
  import opened Shield

  datatype Velocity = Velocity(maxTxPerHour: Option<int>, maxUsdPerHour: Option<int>)

  /** `simulates` is `options.rpc && !options.skipSimulation`: the call has an `await` before the check. */
  datatype SignerOptions = SignerOptions(signer: Address, velocity: Option<Velocity>, simulates: bool)

  datatype Phase =
    | Ready
    | Simulating(instructions: seq<Instruction>)
    | Denied

  /** A call of `modifyAndSignTransactions`: the transactions still to process and where it stands. */
  datatype Call = Call(options: SignerOptions, queue: seq<seq<Instruction>>, phase: Phase)

  /** Policies and `onChainSync` are fixed for the run. */
  datatype Config = Config(policy: Policy, sync: Option<Network>)

  /** An accepted transaction's transfers and who signed it. */
  datatype Accepted = Accepted(transfers: seq<Transfer>, signer: Address)

  /** Everything ever recorded, and the transactions accepted since the last sync. */
  datatype History = History(spends: seq<Spend>, txs: seq<int>, accepted: seq<Accepted>)

  /** Stablecoin USD that a list of accepted transactions moved out. */
  function AcceptedUsd(accepted: seq<Accepted>, network: Network): nat {
    if accepted == [] then 0 else
      var t := accepted[|accepted| - 1];
      AcceptedUsd(accepted[..|accepted| - 1], network) + StablecoinUsd(t.transfers, t.signer, network)
  }

  datatype Machine = Machine(ledger: Ledger, history: History, clock: int, paused: bool, calls: seq<Call>)

  /** Clock readings of a check-and-record step. */
  datatype Times = Times(checks: seq<int>, ticks: seq<Tick>)

  datatype Step =
    | Enforce(instructions: seq<Instruction>, signer: Address, times: Times)
    | Open(options: SignerOptions, transactions: seq<seq<Instruction>>)
    | Proceed(call: nat, velocityChecks: (int, int), sessionBound: bool, times: Times)
    | SimulationDone(call: nat, success: bool, sessionBound: bool, times: Times)
    | Pause
    | Resume
    | Sync(vault: VaultState)

  const EMPTY := Ledger([], [], None, 0, None, false)

  function Initial(clock: int): Machine {
    Machine(EMPTY, History([], [], []), clock, false, [])
  }

  // ---- Clock readings -------------------------------------------------------------

  predicate Nondecreasing(from: int, ts: seq<int>) {
    (forall i :: 0 <= i < |ts| ==> from <= ts[i]) && forall i, j :: 0 <= i < j < |ts| ==> ts[i] <= ts[j]
  }

  function Last(from: int, ts: seq<int>): int {
    if ts == [] then from else ts[|ts| - 1]
  }

  function LastTick(from: int, ticks: seq<Tick>): int {
    if ticks == [] then from else ticks[|ticks| - 1].txCut
  }

  predicate TicksAfter(from: int, ticks: seq<Tick>) {
    ticks == [] ||
    var n := |ticks| - 1;
    TicksAfter(from, ticks[..n]) &&
    LastTick(from, ticks[..n]) <= ticks[n].push <= ticks[n].spendCut <= ticks[n].txCut
  }

  /** The readings of a step never go back, before or during the step. */
  predicate Orderly(clock: int, times: Times) {
    Nondecreasing(clock, times.checks) && TicksAfter(Last(clock, times.checks), times.ticks)
  }

  function End(clock: int, times: Times): int {
    LastTick(Last(clock, times.checks), times.ticks)
  }

  predicate Timed(c: Config, from: int, a: Analysis, times: Times) {
    && |times.checks| == |c.policy.spendLimits| + 1
    && |times.ticks| == |a.transfers| + 1
    && Orderly(from, times)
  }

  // ---- Steps ----------------------------------------------------------------------

  /** The entries a transfer list adds to the history. */
  function Entries(ts: seq<Transfer>, signer: Address, ticks: seq<Tick>): (es: seq<Spend>)
    requires |ticks| == |ts|
  {
    if ts == [] then [] else
      var n := |ts| - 1;
      var es := Entries(ts[..n], signer, ticks[..n]);
      if ts[n].authority == signer then es + [Spend(MintKey(ts[n]), ts[n].amount, ticks[n].push)] else es
  }

  function Remember(h: History, ts: seq<Transfer>, signer: Address, ticks: seq<Tick>): History
    requires |ticks| == |ts| + 1
  {
    var n := |ts|;
    History(h.spends + Entries(ts, signer, ticks[..n]), h.txs + [ticks[n].push], h.accepted + [Accepted(ts, signer)])
  }

  /** Check, then record if nothing was violated: the uninterrupted part of both paths. */
  predicate Admits(c: Config, m: Machine, a: Analysis, signer: Address, times: Times)
    requires |times.checks| == |c.policy.spendLimits| + 1
  {
    !m.paused && Evaluate(m.ledger, c.policy, a, signer, c.sync, times.checks) == []
  }

  function Record(m: Machine, ts: seq<Transfer>, signer: Address, network: Option<Network>, ticks: seq<Tick>): Machine
    requires |ticks| == |ts| + 1
  {
    m.(ledger := Commit(m.ledger, ts, signer, network, ticks),
       history := Remember(m.history, ts, signer, ticks))
  }

  function Stop(m: Machine, i: nat): Machine
    requires i < |m.calls|
  {
    m.(calls := m.calls[i := m.calls[i].(phase := Denied)])
  }

  /** After the check: record and move to the next transaction, or stop the call. */
  function Finish(c: Config, m: Machine, i: nat, ixs: seq<Instruction>, sessionBound: bool, times: Times): Machine
    requires i < |m.calls| && Timed(c, m.clock, Analyze(ixs, m.calls[i].options.signer), times)
  {
    var call, m' := m.calls[i], m.(clock := End(m.clock, times));
    var signer := call.options.signer;
    var a := Analyze(ixs, signer);
    if Admits(c, m, a, signer, times) && sessionBound then
      Record(m', a.transfers, signer, m.ledger.network, times.ticks)
        .(calls := m.calls[i := call.(phase := Ready)])
    else Stop(m', i)
  }

  predicate VelocityAllows(l: Ledger, v: Velocity, a: Analysis, checks: (int, int)) {
    && (v.maxTxPerHour.Some? ==> CountInWindow(l, HOUR, checks.0) < v.maxTxPerHour.value)
    && (v.maxUsdPerHour.Some? ==> TotalInWindow(l, HOUR, checks.1) + a.estimatedValue <= v.maxUsdPerHour.value)
  }

  predicate Enabled(c: Config, m: Machine, s: Step) {
    match s
    case Enforce(ixs, signer, times) => Timed(c, m.clock, Analyze(ixs, signer), times)
    case Proceed(i, checks, _, times) =>
      && i < |m.calls| && m.calls[i].phase == Ready && m.calls[i].queue != []
      && m.clock <= checks.0 <= checks.1
      && Timed(c, checks.1, Analyze(m.calls[i].queue[0], m.calls[i].options.signer), times)
    case SimulationDone(i, _, _, times) =>
      && i < |m.calls| && m.calls[i].phase.Simulating?
      && Timed(c, m.clock, Analyze(m.calls[i].phase.instructions, m.calls[i].options.signer), times)
    case Sync(_) => c.sync.Some?
    case _ => true
  }

  function Apply(c: Config, m: Machine, s: Step): Machine
    requires Enabled(c, m, s)
  {
    match s
    case Enforce(ixs, signer, times) =>
      var a, m' := Analyze(ixs, signer), m.(clock := End(m.clock, times));
      if Admits(c, m, a, signer, times) then
        var r := Record(m', a.transfers, signer, c.sync, times.ticks);
        r.(ledger := r.ledger.(enforceUsed := true))
      else m'
    case Open(options, txs) => m.(calls := m.calls + [Call(options, txs, Ready)])
    case Proceed(i, checks, sessionBound, times) =>
      var call := m.calls[i];
      var ixs, o := call.queue[0], call.options;
      var m' := m.(clock := checks.1);
      if o.velocity.Some? && !VelocityAllows(m.ledger, o.velocity.value, Analyze(ixs, o.signer), checks)
        then Stop(m', i)
      else
        var next := call.(queue := call.queue[1..]);
        if o.simulates then m'.(calls := m.calls[i := next.(phase := Simulating(ixs))])
        else Finish(c, m'.(calls := m.calls[i := next]), i, ixs, sessionBound, times)
    case SimulationDone(i, success, sessionBound, times) =>
      if success then Finish(c, m, i, m.calls[i].phase.instructions, sessionBound, times) else Stop(m, i)
    case Pause => m.(paused := true)
    case Resume => m.(paused := false)
    case Sync(vault) =>
      m.(ledger := m.ledger.(vault := Some(vault), usd := 0, network := c.sync), history := m.history.(accepted := []))
  }

  /** A run: every step is possible where it is taken. */
  predicate IsRun(c: Config, m: Machine, steps: seq<Step>)
    decreases |steps|
  {
    steps == [] || (Enabled(c, m, steps[0]) && IsRun(c, Apply(c, m, steps[0]), steps[1..]))
  }

  function Run(c: Config, m: Machine, steps: seq<Step>): Machine
    requires IsRun(c, m, steps)
    decreases |steps|
  {
    if steps == [] then m else Run(c, Apply(c, m, steps[0]), steps[1..])
  }

  // ---- Invariant --------------------------------------------------------------------

  predicate WithinBudget(b: Budget, usd: nat) {
    usd > 0 ==> b.spent24h + usd <= b.cap
  }

  /** Local additions are exactly the accepted stablecoin amounts and respect both caps. */
  predicate CapsRespected(c: Config, m: Machine) {
    && (m.ledger.vault.None? ==> m.ledger.usd == 0)
    && (m.ledger.vault.Some? ==>
          && c.sync.Some? && m.ledger.network == c.sync
          && m.ledger.usd == AcceptedUsd(m.history.accepted, c.sync.value)
          && WithinBudget(m.ledger.vault.value.global, m.ledger.usd)
          && (m.ledger.vault.value.agent.Some? ==> WithinBudget(m.ledger.vault.value.agent.value, m.ledger.usd)))
  }

  ghost predicate LimitHolds(limit: SpendLimit, h: History) {
    WindowOf(limit) <= DAY ==> Bounded(h.spends, limit.mint, WindowOf(limit), limit.amount)
  }

  /** The rate window as far as pruning keeps stamps: at most a day. */
  function Kept(rate: RateLimit): int {
    if rate.windowMs <= DAY then rate.windowMs else DAY
  }

  ghost predicate RateHolds(rate: RateLimit, h: History) {
    CountBounded(h.txs, Kept(rate), rate.maxTransactions)
  }

  predicate PruningInvisible(m: Machine) {
    Stands(m.ledger, m.history.spends, m.history.txs, m.clock)
  }

  ghost predicate Inv(c: Config, m: Machine) {
    && PruningInvisible(m)
    && (forall k :: 0 <= k < |c.policy.spendLimits| ==> LimitHolds(c.policy.spendLimits[k], m.history))
    && RateHolds(c.policy.rateLimit, m.history)
    && CapsRespected(c, m)
  }

  // ---- Recording keeps it -------------------------------------------------------------

  /** The kept arrays stand for the full ones at `clock`. */
  predicate Stands(l: Ledger, spends: seq<Spend>, txs: seq<int>, clock: int) {
    Faithful(l.spends, spends, clock) && FaithfulTxs(l.txs, txs, clock)
  }

  lemma SpendStands(l: Ledger, spends: seq<Spend>, txs: seq<int>, clock: int, mint: Address, amount: nat, k: Tick)
    requires Stands(l, spends, txs, clock) && clock <= k.push <= k.spendCut <= k.txCut
    ensures Stands(RecordSpend(l, mint, amount, k), spends + [Spend(mint, amount, k.push)], txs, k.txCut)
  {
    var e := Spend(mint, amount, k.push);
    FaithfulPush(l.spends, spends, clock, e, k.push);
    FaithfulPrune(l.spends + [e], spends + [e], k.push, k.spendCut);
    LaterClock(PruneSpends(l.spends + [e], k.spendCut), spends + [e], k.spendCut, k.txCut);
    FaithfulPruneTxs(l.txs, txs, clock, k.txCut);
  }

  lemma TransactionStands(l: Ledger, spends: seq<Spend>, txs: seq<int>, clock: int, k: Tick)
    requires Stands(l, spends, txs, clock) && clock <= k.push <= k.spendCut <= k.txCut
    ensures Stands(RecordTransaction(l, k), spends, txs + [k.push], k.txCut)
  {
    FaithfulPrune(l.spends, spends, clock, k.spendCut);
    LaterClock(PruneSpends(l.spends, k.spendCut), spends, k.spendCut, k.txCut);
    FaithfulPushTx(l.txs, txs, clock, k.push, k.push);
    FaithfulPruneTxs(l.txs + [k.push], txs + [k.push], k.push, k.txCut);
  }

  lemma LaterStands(l: Ledger, spends: seq<Spend>, txs: seq<int>, clock: int, now: int)
    requires Stands(l, spends, txs, clock) && clock <= now
    ensures Stands(l, spends, txs, now)
  {
    LaterClock(l.spends, spends, clock, now);
    LaterClockTxs(l.txs, txs, clock, now);
  }

  lemma {:induction false} RecordFaithful(
    l: Ledger, spends: seq<Spend>, txs: seq<int>, from: int, ts: seq<Transfer>, signer: Address, ticks: seq<Tick>)
    requires |ticks| == |ts| && TicksAfter(from, ticks) && Stands(l, spends, txs, from)
    ensures Stands(RecordTransfers(l, ts, signer, ticks),
                   spends + Entries(ts, signer, ticks), txs, LastTick(from, ticks))
  {
    if ts == [] {
      assert spends + [] == spends;
    } else {
      var n := |ts| - 1;
      RecordFaithful(l, spends, txs, from, ts[..n], signer, ticks[..n]);
      var l', mid := RecordTransfers(l, ts[..n], signer, ticks[..n]), LastTick(from, ticks[..n]);
      var es := Entries(ts[..n], signer, ticks[..n]);
      if ts[n].authority == signer {
        var e := Spend(MintKey(ts[n]), ts[n].amount, ticks[n].push);
        SpendStands(l', spends + es, txs, mid, e.mint, e.amount, ticks[n]);
        assert (spends + es) + [e] == spends + (es + [e]);
      } else {
        LaterStands(l', spends + es, txs, mid, ticks[n].txCut);
      }
    }
  }

  lemma {:induction false} RecordKeepsRest(l: Ledger, ts: seq<Transfer>, signer: Address, ticks: seq<Tick>)
    requires |ticks| == |ts|
    ensures RecordTransfers(l, ts, signer, ticks).(spends := l.spends, txs := l.txs) == l
  {
    if ts == [] {
    } else {
      var n := |ts| - 1;
      RecordKeepsRest(l, ts[..n], signer, ticks[..n]);
    }
  }

  lemma LaterClock(kept: seq<Spend>, full: seq<Spend>, clock: int, now: int)
    requires Faithful(kept, full, clock) && clock <= now
    ensures Faithful(kept, full, now)
  {
    FaithfulLater(kept, full, clock, now - DAY);
  }

  lemma LaterClockTxs(kept: seq<int>, full: seq<int>, clock: int, now: int)
    requires FaithfulTxs(kept, full, clock) && clock <= now
    ensures FaithfulTxs(kept, full, now)
  {
    FaithfulTxsLater(kept, full, clock, now - DAY);
  }

  /** What is recorded under a mint never exceeds what the check counted against it. */
  lemma {:induction false} RecordedWithinChecked(ts: seq<Transfer>, signer: Address, ticks: seq<Tick>, m: Address)
    requires |ticks| == |ts|
    ensures Spent(Entries(ts, signer, ticks), m) <= Matching(ts, signer, m)
    ensures Total(Entries(ts, signer, ticks)) == Outgoing(ts, signer)
  {
    if ts == [] {
    } else {
      var n := |ts| - 1;
      RecordedWithinChecked(ts[..n], signer, ticks[..n], m);
      Snoc(Entries(ts[..n], signer, ticks[..n]), Spend(MintKey(ts[n]), ts[n].amount, ticks[n].push), 0, 0, m);
    }
  }

  lemma ChecksBeforeTicks(from: int, times: Times, k: nat)
    requires Orderly(from, times) && k < |times.checks|
    ensures from <= times.checks[k] <= Last(from, times.checks)
  {
  }

  lemma LimitKept(
    c: Config, m: Machine, from: int, a: Analysis, signer: Address, times: Times, network: Option<Network>, k: nat)
    requires Timed(c, from, a, times) && m.clock <= from && Admits(c, m, a, signer, times)
    requires k < |c.policy.spendLimits| && PruningInvisible(m) && LimitHolds(c.policy.spendLimits[k], m.history)
    ensures LimitHolds(c.policy.spendLimits[k], Record(m, a.transfers, signer, network, times.ticks).history)
  {
    var limit, n := c.policy.spendLimits[k], |c.policy.spendLimits|;
    var ticks, now := times.ticks[..|a.transfers|], times.checks[k];
    if WindowOf(limit) <= DAY {
      NothingReported(m.ledger, c.policy, a, signer, c.sync, times.checks);
      LimitsAccepted(m.ledger, c.policy.spendLimits, a.transfers, signer, times.checks[..n]);
      assert Projected(m.ledger, limit, a.transfers, signer, times.checks[..n][k]) <= limit.amount;
      ChecksBeforeTicks(from, times, k);
      FaithfulLater(m.ledger.spends, m.history.spends, m.clock, now - WindowOf(limit));
      RecordedWithinChecked(a.transfers, signer, ticks, limit.mint);
      EntriesAfter(a.transfers, signer, Last(from, times.checks), ticks);
      WindowStep(m.history.spends, Entries(a.transfers, signer, ticks), limit.mint, WindowOf(limit), limit.amount, now);
    }
  }

  lemma {:induction false} EntriesAfter(ts: seq<Transfer>, signer: Address, from: int, ticks: seq<Tick>)
    requires |ticks| == |ts| && TicksAfter(from, ticks)
    ensures from <= LastTick(from, ticks)
    ensures forall e :: e in Entries(ts, signer, ticks) ==> from <= e.at
  {
    if ts == [] {
    } else {
      var n := |ts| - 1;
      EntriesAfter(ts[..n], signer, from, ticks[..n]);
    }
  }

  /** What the rate check saw holds of the full history, as far back as pruning leaves it. */
  lemma FewInWindow(l: Ledger, h: History, clock: int, rate: RateLimit, now: int)
    requires Stands(l, h.spends, h.txs, clock) && clock <= now
    requires RateViolations(l, rate, now) == []
    ensures |Recent(h.txs, now - Kept(rate))| < rate.maxTransactions
  {
    FaithfulTxsLater(l.txs, h.txs, clock, now - Kept(rate));
    RecentFewer(l.txs, now - rate.windowMs, now - Kept(rate));
  }

  lemma RateKept(
    c: Config, m: Machine, from: int, a: Analysis, signer: Address, times: Times, network: Option<Network>)
    requires Timed(c, from, a, times) && m.clock <= from && Admits(c, m, a, signer, times)
    requires PruningInvisible(m) && RateHolds(c.policy.rateLimit, m.history)
    ensures RateHolds(c.policy.rateLimit, Record(m, a.transfers, signer, network, times.ticks).history)
  {
    var rate, n := c.policy.rateLimit, |c.policy.spendLimits|;
    var ticks, now := times.ticks[..|a.transfers|], times.checks[n];
    NothingReported(m.ledger, c.policy, a, signer, c.sync, times.checks);
    ChecksBeforeTicks(from, times, n);
    FewInWindow(m.ledger, m.history, m.clock, rate, now);
    EntriesAfter(a.transfers, signer, Last(from, times.checks), ticks);
    CountStep(m.history.txs, times.ticks[|a.transfers|].push, Kept(rate), rate.maxTransactions, now);
  }

  lemma RestKept(l: Ledger, ts: seq<Transfer>, signer: Address, network: Option<Network>, ticks: seq<Tick>)
    requires |ticks| == |ts| + 1
    ensures var r := Commit(l, ts, signer, network, ticks);
            r.vault == l.vault && r.network == l.network && r.usd == RecordUsd(l, ts, signer, network).usd
  {
    RecordKeepsRest(l, ts, signer, ticks[..|ts|]);
  }

  lemma PruningKept(
    c: Config, m: Machine, from: int, a: Analysis, signer: Address, times: Times, network: Option<Network>)
    requires Timed(c, from, a, times) && m.clock <= from && PruningInvisible(m)
    ensures from <= End(from, times)
    ensures PruningInvisible(Record(m, a.transfers, signer, network, times.ticks).(clock := End(from, times)))
  {
    var ts, n, start := a.transfers, |a.transfers|, Last(from, times.checks);
    var ticks := times.ticks[..n];
    LaterStands(m.ledger, m.history.spends, m.history.txs, m.clock, start);
    RecordFaithful(m.ledger, m.history.spends, m.history.txs, start, ts, signer, ticks);
    EntriesAfter(ts, signer, start, ticks);
    var l, spends := RecordTransfers(m.ledger, ts, signer, ticks), m.history.spends + Entries(ts, signer, ticks);
    TransactionStands(l, spends, m.history.txs, LastTick(start, ticks), times.ticks[n]);
    UsdStands(RecordTransaction(l, times.ticks[n]), spends, m.history.txs + [times.ticks[n].push],
              End(from, times), ts, signer, network);
  }

  lemma UsdStands(
    l: Ledger, spends: seq<Spend>, txs: seq<int>, clock: int,
    ts: seq<Transfer>, signer: Address, network: Option<Network>)
    requires Stands(l, spends, txs, clock)
    ensures Stands(RecordUsd(l, ts, signer, network), spends, txs, clock)
  {
  }

  lemma CapsKept(
    c: Config, m: Machine, from: int, a: Analysis, signer: Address, times: Times, network: Option<Network>)
    requires Timed(c, from, a, times) && m.clock <= from && Admits(c, m, a, signer, times)
    requires PruningInvisible(m) && CapsRespected(c, m)
    requires m.ledger.vault.Some? ==> network == c.sync
    ensures CapsRespected(c, Record(m, a.transfers, signer, network, times.ticks))
  {
    RestKept(m.ledger, a.transfers, signer, network, times.ticks);
    assert (m.history.accepted + [Accepted(a.transfers, signer)])[..|m.history.accepted|] == m.history.accepted;
    NothingReported(m.ledger, c.policy, a, signer, c.sync, times.checks);
    assert CapViolations(m.ledger, a.transfers, signer, EffectiveNetwork(m.ledger, c.sync)) == [];
  }

  lemma RecordKeepsInv(
    c: Config, m: Machine, from: int, a: Analysis, signer: Address, times: Times, network: Option<Network>)
    requires Timed(c, from, a, times) && m.clock <= from && Admits(c, m, a, signer, times)
    requires Inv(c, m) && (m.ledger.vault.Some? ==> network == c.sync)
    ensures Inv(c, Record(m, a.transfers, signer, network, times.ticks).(clock := End(from, times)))
  {
    forall k | 0 <= k < |c.policy.spendLimits|
      ensures LimitHolds(c.policy.spendLimits[k], Record(m, a.transfers, signer, network, times.ticks).history)
    {
      LimitKept(c, m, from, a, signer, times, network, k);
    }
    RateKept(c, m, from, a, signer, times, network);
    PruningKept(c, m, from, a, signer, times, network);
    CapsKept(c, m, from, a, signer, times, network);
  }

  lemma ClockKeepsInv(c: Config, m: Machine, now: int)
    requires Inv(c, m) && m.clock <= now
    ensures Inv(c, m.(clock := now))
  {
    LaterClock(m.ledger.spends, m.history.spends, m.clock, now);
    LaterClockTxs(m.ledger.txs, m.history.txs, m.clock, now);
  }

  lemma FinishKeepsInv(c: Config, m: Machine, i: nat, ixs: seq<Instruction>, sessionBound: bool, times: Times)
    requires i < |m.calls| && Timed(c, m.clock, Analyze(ixs, m.calls[i].options.signer), times) && Inv(c, m)
    ensures Inv(c, Finish(c, m, i, ixs, sessionBound, times))
  {
    var signer := m.calls[i].options.signer;
    var a := Analyze(ixs, signer);
    PruningKept(c, m, m.clock, a, signer, times, m.ledger.network);
    ClockKeepsInv(c, m, End(m.clock, times));
    if Admits(c, m, a, signer, times) {
      RecordKeepsInv(c, m, m.clock, a, signer, times, m.ledger.network);
    }
  }

  lemma EnforceKeepsInv(c: Config, m: Machine, ixs: seq<Instruction>, signer: Address, times: Times)
    requires Timed(c, m.clock, Analyze(ixs, signer), times) && Inv(c, m)
    ensures Inv(c, Apply(c, m, Enforce(ixs, signer, times)))
  {
    var a := Analyze(ixs, signer);
    PruningKept(c, m, m.clock, a, signer, times, c.sync);
    ClockKeepsInv(c, m, End(m.clock, times));
    if Admits(c, m, a, signer, times) {
      RecordKeepsInv(c, m, m.clock, a, signer, times, c.sync);
    }
  }

  lemma StepKeepsInv(c: Config, m: Machine, s: Step)
    requires Inv(c, m) && Enabled(c, m, s)
    ensures Inv(c, Apply(c, m, s))
  {
    match s
    case Enforce(ixs, signer, times) => EnforceKeepsInv(c, m, ixs, signer, times);
    case Proceed(i, checks, sessionBound, times) =>
      ClockKeepsInv(c, m, checks.1);
      var call := m.calls[i];
      var m' := m.(clock := checks.1, calls := m.calls[i := call.(queue := call.queue[1..])]);
      FinishKeepsInv(c, m', i, call.queue[0], sessionBound, times);
    case SimulationDone(i, _, sessionBound, times) =>
      FinishKeepsInv(c, m, i, m.calls[i].phase.instructions, sessionBound, times);
    case _ =>
  }

  lemma {:induction false} RunKeepsInv(c: Config, m: Machine, steps: seq<Step>)
    requires IsRun(c, m, steps) && Inv(c, m)
    ensures Inv(c, Run(c, m, steps))
    decreases |steps|
  {
    if steps == [] {
    } else {
      StepKeepsInv(c, m, steps[0]);
      RunKeepsInv(c, Apply(c, m, steps[0]), steps[1..]);
    }
  }

  lemma InitialInv(c: Config, clock: int)
    ensures Inv(c, Initial(clock))
  {
    var h := Initial(clock).history;
    forall k | 0 <= k < |c.policy.spendLimits| ensures LimitHolds(c.policy.spendLimits[k], h) {
      var limit := c.policy.spendLimits[k];
      assert forall a :: SpentWindow([], limit.mint, a, WindowOf(limit)) == 0;
    }
    assert forall a :: CountWindow([], a, Kept(c.policy.rateLimit)) == 0;
  }

  // ---- Main results -------------------------------------------------------------------

  /** In every run, every interval as long as a limit's window holds at most the limit of its mint. */
  lemma EveryWindowWithinLimit(c: Config, clock: int, steps: seq<Step>, k: nat, from: int)
    requires IsRun(c, Initial(clock), steps)
    requires k < |c.policy.spendLimits| && WindowOf(c.policy.spendLimits[k]) <= DAY
    ensures var limit := c.policy.spendLimits[k];
            SpentWindow(Run(c, Initial(clock), steps).history.spends, limit.mint, from, WindowOf(limit))
              <= Ceiling(limit.amount)
  {
    InitialInv(c, clock);
    RunKeepsInv(c, Initial(clock), steps);
    assert LimitHolds(c.policy.spendLimits[k], Run(c, Initial(clock), steps).history);
  }

  /**
   * In every run, every interval as long as the rate window, or a day if that is shorter, holds
   * at most `maxTransactions`.
   */
  lemma EveryWindowWithinRate(c: Config, clock: int, steps: seq<Step>, from: int)
    requires IsRun(c, Initial(clock), steps)
    ensures var rate := c.policy.rateLimit;
            CountWindow(Run(c, Initial(clock), steps).history.txs, from, Kept(rate)) <= Ceiling(rate.maxTransactions)
  {
    InitialInv(c, clock);
    RunKeepsInv(c, Initial(clock), steps);
  }

  /** In every run, window queries on the pruned arrays answer as the full history would. */
  lemma PruningNeverObserved(c: Config, clock: int, steps: seq<Step>, mint: Address, window: int, now: int)
    requires IsRun(c, Initial(clock), steps) && window <= DAY
    requires Run(c, Initial(clock), steps).clock <= now
    ensures var m := Run(c, Initial(clock), steps);
            && SpentInWindow(m.ledger, mint, window, now) == Spent(Since(m.history.spends, now - window), mint)
            && TotalInWindow(m.ledger, window, now) == Total(Since(m.history.spends, now - window))
            && CountInWindow(m.ledger, window, now) == |Recent(m.history.txs, now - window)|
  {
    InitialInv(c, clock);
    RunKeepsInv(c, Initial(clock), steps);
    var m := Run(c, Initial(clock), steps);
    FaithfulLater(m.ledger.spends, m.history.spends, m.clock, now - window);
    FaithfulTxsLater(m.ledger.txs, m.history.txs, m.clock, now - window);
  }

  /** `getEffectiveGlobalSpent24h` and the remaining amounts derived from a budget. */
  function EffectiveSpent(b: Budget, usd: nat): nat { b.spent24h + usd }

  function EffectiveRemaining(b: Budget, usd: nat): nat {
    if EffectiveSpent(b, usd) < b.cap then b.cap - EffectiveSpent(b, usd) else 0
  }

  /**
   * In every run, before the first sync nothing is added locally; afterwards local additions
   * are the stablecoin USD, on the configured network, of all transactions accepted since the
   * last sync through either path. Once positive, spent and remaining add up to the cap of the
   * vault and of the agent.
   */
  lemma CapsNeverExceeded(c: Config, clock: int, steps: seq<Step>)
    requires IsRun(c, Initial(clock), steps)
    ensures var m := Run(c, Initial(clock), steps);
            && (m.ledger.vault.None? ==> m.ledger.usd == 0)
            && (m.ledger.vault.Some? ==>
                  c.sync.Some? && m.ledger.usd == AcceptedUsd(m.history.accepted, c.sync.value))
            && (m.ledger.vault.Some? && m.ledger.usd > 0 ==>
                  var v := m.ledger.vault.value;
                  && EffectiveSpent(v.global, m.ledger.usd) + EffectiveRemaining(v.global, m.ledger.usd) == v.global.cap
                  && (v.agent.Some? ==>
                        EffectiveSpent(v.agent.value, m.ledger.usd) + EffectiveRemaining(v.agent.value, m.ledger.usd)
                        == v.agent.value.cap))
  {
    InitialInv(c, clock);
    RunKeepsInv(c, Initial(clock), steps);
  }
}
