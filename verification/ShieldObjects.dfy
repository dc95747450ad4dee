/**
 * `ShieldState` and the context `shield()` returns, as objects that update their
 * fields in place. `Enforce`, `BeginSigning` and `SignAfterSimulation` are each proved
 * to be one step of `ShieldRuns`, so the results about runs are results about these
 * objects; the other methods are their parts.
 */
module ShieldObjects {
  import opened Common
  import opened Addresses
  import opened Inspector
  import opened ShieldWindows
  import opened Shield
  import opened ShieldRuns

  /** `Date.now()`: any two readings are in order, nothing else is known. */
  class Clock {
    var now: int

    constructor (start: int)
      ensures now == start
    {
      now := start;
    }

    method Read() returns (t: int)
      modifies this
      ensures old(now) <= now && t == now
    {
      t :| t >= now;
      now := t;
    }
  }

  /** One more entry under a filter and the two sums over it. */
  lemma NextEntry(s: seq<Spend>, i: nat, cutoff: int, mint: Address)
    requires i < |s|
    ensures var kept, e := Since(s[..i], cutoff), s[i];
            && Since(s[..i + 1], cutoff) == (if e.at >= cutoff then kept + [e] else kept)
            && Spent(Since(s[..i + 1], cutoff), mint)
               == Spent(kept, mint) + (if e.at >= cutoff && e.mint == mint then e.amount else 0)
            && Total(Since(s[..i + 1], cutoff)) == Total(kept) + if e.at >= cutoff then e.amount else 0
  {
    assert s[..i + 1] == s[..i] + [s[i]];
    Snoc(s[..i], s[i], cutoff, cutoff, mint);
    Snoc(Since(s[..i], cutoff), s[i], cutoff, cutoff, mint);
  }

  /** The filter over the spend entries. */
  method KeepSpends(s: seq<Spend>, cutoff: int) returns (kept: seq<Spend>)
    ensures kept == Since(s, cutoff)
  {
    kept := [];
    for i := 0 to |s|
      invariant kept == Since(s[..i], cutoff)
    {
      NextEntry(s, i, cutoff, Blank);
      if s[i].at >= cutoff {
        kept := kept + [s[i]];
      }
    }
    assert s[..|s|] == s;
  }

  /** The filter over the transaction stamps. */
  method KeepTransactions(txs: seq<int>, cutoff: int) returns (kept: seq<int>)
    ensures kept == Recent(txs, cutoff)
  {
    kept := [];
    for i := 0 to |txs|
      invariant kept == Recent(txs[..i], cutoff)
    {
      assert txs[..i + 1][..i] == txs[..i];
      if txs[i] >= cutoff {
        kept := kept + [txs[i]];
      }
    }
    assert txs[..|txs|] == txs;
  }

  class ShieldState {
    const clock: Clock
    var spendEntries: seq<Spend>
    var txEntries: seq<int>
    var resolvedState: Option<VaultState>
    var localUsdAdditions: nat
    var network: Option<Network>
    var enforceUsed: bool

    function View(): Ledger
      reads this
    {
      Ledger(spendEntries, txEntries, resolvedState, localUsdAdditions, network, enforceUsed)
    }

    constructor (clock: Clock)
      ensures this.clock == clock && View() == EMPTY
    {
      this.clock := clock;
      spendEntries, txEntries, resolvedState, localUsdAdditions, network, enforceUsed := [], [], None, 0, None, false;
    }

    method GetSpendInWindow(mint: Address, windowMs: int) returns (spent: nat)
      modifies clock
      ensures old(clock.now) <= clock.now
      ensures spent == SpentInWindow(View(), mint, windowMs, clock.now)
    {
      var t := clock.Read();
      var cutoff := t - windowMs;
      spent := 0;
      for i := 0 to |spendEntries|
        invariant spent == Spent(Since(spendEntries[..i], cutoff), mint) && clock.now == t
      {
        var e := spendEntries[i];
        NextEntry(spendEntries, i, cutoff, mint);
        if e.mint == mint && e.at >= cutoff {
          spent := spent + e.amount;
        }
      }
      assert spendEntries[..|spendEntries|] == spendEntries;
    }

    method GetTotalSpendInWindow(windowMs: int) returns (spent: nat)
      modifies clock
      ensures old(clock.now) <= clock.now
      ensures spent == TotalInWindow(View(), windowMs, clock.now)
    {
      var t := clock.Read();
      var cutoff := t - windowMs;
      spent := 0;
      for i := 0 to |spendEntries|
        invariant spent == Total(Since(spendEntries[..i], cutoff)) && clock.now == t
      {
        var e := spendEntries[i];
        NextEntry(spendEntries, i, cutoff, Blank);
        if e.at >= cutoff {
          spent := spent + e.amount;
        }
      }
      assert spendEntries[..|spendEntries|] == spendEntries;
    }

    method GetTransactionCountInWindow(windowMs: int) returns (count: nat)
      modifies clock
      ensures old(clock.now) <= clock.now
      ensures count == CountInWindow(View(), windowMs, clock.now)
    {
      var t := clock.Read();
      var cutoff := t - windowMs;
      count := 0;
      for i := 0 to |txEntries|
        invariant count == |Recent(txEntries[..i], cutoff)| && clock.now == t
      {
        assert txEntries[..i + 1][..i] == txEntries[..i];
        if txEntries[i] >= cutoff {
          count := count + 1;
        }
      }
      assert txEntries[..|txEntries|] == txEntries;
    }

    method Prune() returns (ghost spendCut: int, ghost txCut: int)
      modifies this`spendEntries, this`txEntries, clock
      ensures old(clock.now) <= spendCut <= txCut == clock.now
      ensures spendEntries == PruneSpends(old(spendEntries), spendCut)
      ensures txEntries == PruneTxs(old(txEntries), txCut)
    {
      spendCut := clock.now;
      if |spendEntries| > PRUNE_THRESHOLD {
        var t := clock.Read();
        spendCut := t;
        spendEntries := KeepSpends(spendEntries, t - DAY);
      }
      if |txEntries| > PRUNE_THRESHOLD {
        var t := clock.Read();
        txEntries := KeepTransactions(txEntries, t - DAY);
      }
      txCut := clock.now;
    }

    method RecordSpend(mint: Address, amount: nat) returns (ghost k: Tick)
      modifies this`spendEntries, this`txEntries, clock
      ensures old(clock.now) <= k.push <= k.spendCut <= k.txCut == clock.now
      ensures View() == Shield.RecordSpend(old(View()), mint, amount, k)
    {
      var t := clock.Read();
      spendEntries := spendEntries + [Spend(mint, amount, t)];
      ghost var a, b := Prune();
      k := Tick(t, a, b);
    }

    method RecordTransaction() returns (ghost k: Tick)
      modifies this`spendEntries, this`txEntries, clock
      ensures old(clock.now) <= k.push <= k.spendCut <= k.txCut == clock.now
      ensures View() == Shield.RecordTransaction(old(View()), k)
    {
      var t := clock.Read();
      txEntries := txEntries + [t];
      ghost var a, b := Prune();
      k := Tick(t, a, b);
    }

    /** The optimistic USD addition shared by both recording paths. */
    method RecordStablecoins(ts: seq<Transfer>, signer: Address, net: Option<Network>)
      modifies this`localUsdAdditions
      ensures View() == RecordUsd(old(View()), ts, signer, net)
    {
      if resolvedState.Some? && net.Some? {
        var usd := StablecoinUsd(ts, signer, net.value);
        if usd > 0 {
          localUsdAdditions := localUsdAdditions + usd;
        }
      }
    }

    method SyncFromOnChain(vault: VaultState, net: Option<Network>)
      modifies this`resolvedState, this`localUsdAdditions, this`network
      ensures View() == old(View()).(vault := Some(vault), usd := 0, network := if net.Some? then net else old(network))
    {
      resolvedState := Some(vault);
      localUsdAdditions := 0;
      if net.Some? {
        network := net;
      }
    }

    method RecordOutgoing(ts: seq<Transfer>, signer: Address) returns (ghost ticks: seq<Tick>)
      modifies this`spendEntries, this`txEntries, clock
      ensures |ticks| == |ts| && TicksAfter(old(clock.now), ticks)
      ensures LastTick(old(clock.now), ticks) == clock.now
      ensures View() == RecordTransfers(old(View()), ts, signer, ticks)
    {
      ticks := [];
      ghost var before := View();
      for i := 0 to |ts|
        invariant |ticks| == i && TicksAfter(old(clock.now), ticks)
        invariant LastTick(old(clock.now), ticks) == clock.now
        invariant View() == RecordTransfers(before, ts[..i], signer, ticks)
      {
        ghost var k := Tick(clock.now, clock.now, clock.now);
        if ts[i].authority == signer {
          k := RecordSpend(MintKey(ts[i]), ts[i].amount);
        }
        RecordNext(before, ts, i, signer, ticks, k);
        TickNext(old(clock.now), ticks, k);
        ticks := ticks + [k];
      }
      assert ts[..|ts|] == ts;
    }

    /** Records every outgoing transfer, then the transaction, then the USD total. */
    method RecordAll(ts: seq<Transfer>, signer: Address, net: Option<Network>) returns (ghost ticks: seq<Tick>)
      modifies this, clock
      ensures |ticks| == |ts| + 1 && TicksAfter(old(clock.now), ticks)
      ensures LastTick(old(clock.now), ticks) == clock.now
      ensures View() == Commit(old(View()), ts, signer, net, ticks)
    {
      ticks := RecordOutgoing(ts, signer);
      ghost var k := RecordTransaction();
      TickNext(old(clock.now), ticks, k);
      assert (ticks + [k])[..|ts|] == ticks;
      ticks := ticks + [k];
      RecordStablecoins(ts, signer, net);
    }
  }

  lemma RecordNext(l: Ledger, ts: seq<Transfer>, i: nat, signer: Address, ticks: seq<Tick>, k: Tick)
    requires i < |ts| && |ticks| == i
    ensures var l' := RecordTransfers(l, ts[..i], signer, ticks);
            RecordTransfers(l, ts[..i + 1], signer, ticks + [k])
            == if ts[i].authority == signer then Shield.RecordSpend(l', MintKey(ts[i]), ts[i].amount, k) else l'
  {
    assert ts[..i + 1][..i] == ts[..i] && (ticks + [k])[..i] == ticks;
  }

  lemma TickNext(from: int, ticks: seq<Tick>, k: Tick)
    requires TicksAfter(from, ticks) && LastTick(from, ticks) <= k.push <= k.spendCut <= k.txCut
    ensures TicksAfter(from, ticks + [k])
  {
    assert (ticks + [k])[..|ticks|] == ticks;
  }

  lemma CheckNext(from: int, checks: seq<int>, now: int)
    requires Nondecreasing(from, checks) && Last(from, checks) <= now
    ensures Nondecreasing(from, checks + [now])
  {
  }

  lemma LimitNext(
    l: Ledger, limits: seq<SpendLimit>, i: nat, ts: seq<Transfer>, signer: Address, checks: seq<int>, now: int)
    requires i < |limits| && |checks| == i
    ensures var v := SpendViolations(l, limits[..i], ts, signer, checks);
            var projected := Projected(l, limits[i], ts, signer, now);
            SpendViolations(l, limits[..i + 1], ts, signer, checks + [now])
            == if projected > limits[i].amount
               then v + [SpendLimitExceeded(limits[i].mint, projected, limits[i].amount)] else v
  {
    assert limits[..i + 1][..i] == limits[..i] && (checks + [now])[..i] == checks;
  }

  class ShieldContext {
    const policy: Policy
    const sync: Option<Network>
    const clock: Clock
    const state: ShieldState
    var paused: bool

    ghost predicate Valid() {
      state.clock == clock
    }

    ghost function Settings(): Config {
      Config(policy, sync)
    }

    /** The shared state, with one signing call suspended on `ixs`. */
    ghost function Snapshot(signer: Address, ixs: seq<Instruction>): Machine
      reads this, clock, state
    {
      Machine(state.View(), History([], [], []), clock.now, paused,
              [Call(SignerOptions(signer, None, true), [], Simulating(ixs))])
    }

    constructor (policy: Policy, sync: Option<Network>, clock: Clock)
      ensures Valid() && fresh(state) && this.clock == clock && state.View() == EMPTY && !paused
      ensures this.policy == policy && this.sync == sync
    {
      this.policy, this.sync, this.clock, paused := policy, sync, clock, false;
      state := new ShieldState(clock);
    }

    method CheckPrograms(a: Analysis) returns (v: seq<Violation>)
      ensures v == ProgramViolations(policy, a.programIds)
    {
      v := [];
      if policy.blockUnknownPrograms && policy.allowedProtocols.Some? {
        for i := 0 to |a.programIds|
          invariant v == ProgramViolations(policy, a.programIds[..i])
        {
          var pid := a.programIds[i];
          assert a.programIds[..i + 1][..i] == a.programIds[..i];
          if !IsSystemProgram(pid) && pid !in policy.allowedProtocols.value {
            v := v + [ProgramNotAllowed(pid)];
          }
        }
        assert a.programIds[..|a.programIds|] == a.programIds;
      }
    }

    method CheckLimits(a: Analysis, signer: Address) returns (v: seq<Violation>, ghost checks: seq<int>)
      requires Valid()
      modifies clock
      ensures |checks| == |policy.spendLimits| && Nondecreasing(old(clock.now), checks)
      ensures Last(old(clock.now), checks) == clock.now
      ensures v == SpendViolations(state.View(), policy.spendLimits, a.transfers, signer, checks)
    {
      v, checks := [], [];
      ghost var limits, l, start := policy.spendLimits, state.View(), clock.now;
      for i := 0 to |policy.spendLimits|
        invariant |checks| == i && Nondecreasing(start, checks) && Last(start, checks) == clock.now
        invariant state.View() == l && v == SpendViolations(l, limits[..i], a.transfers, signer, checks)
      {
        var limit := policy.spendLimits[i];
        var spent := state.GetSpendInWindow(limit.mint, WindowOf(limit));
        var projected := spent + Matching(a.transfers, signer, limit.mint);
        assert projected == Projected(l, limit, a.transfers, signer, clock.now);
        LimitNext(l, limits, i, a.transfers, signer, checks, clock.now);
        CheckNext(start, checks, clock.now);
        checks := checks + [clock.now];
        if projected > limit.amount {
          v := v + [SpendLimitExceeded(limit.mint, projected, limit.amount)];
        }
      }
      assert limits[..|limits|] == limits;
    }

    method CheckCaps(a: Analysis, signer: Address, network: Option<Network>) returns (v: seq<Violation>)
      ensures v == CapViolations(state.View(), a.transfers, signer, EffectiveNetwork(state.View(), network))
    {
      v := [];
      var net := if network.Some? then network else state.network;
      if state.resolvedState.Some? && net.Some? {
        var rs := state.resolvedState.value;
        var usd := StablecoinUsd(a.transfers, signer, net.value);
        if usd > 0 {
          if usd > rs.maxTransactionUsd {
            v := v + [TransactionTooLarge(usd, rs.maxTransactionUsd)];
          }
          var global := rs.global.spent24h + state.localUsdAdditions;
          if global + usd > rs.global.cap {
            v := v + [VaultCapExceeded(global + usd, rs.global.cap)];
          }
          if rs.agent.Some? {
            var agent := rs.agent.value.spent24h + state.localUsdAdditions;
            if agent + usd > rs.agent.value.cap {
              v := v + [AgentCapExceeded(agent + usd, rs.agent.value.cap)];
            }
          }
        }
      }
    }

    method EvaluateInstructions(ixs: seq<Instruction>, signer: Address)
      returns (v: seq<Violation>, a: Analysis, ghost checks: seq<int>)
      requires Valid()
      modifies clock
      ensures a == Analyze(ixs, signer)
      ensures |checks| == |policy.spendLimits| + 1 && Nondecreasing(old(clock.now), checks)
      ensures Last(old(clock.now), checks) == clock.now
      ensures v == Evaluate(state.View(), policy, a, signer, sync, checks)
    {
      a := AnalyzeInstructions(ixs, signer);
      var programs := CheckPrograms(a);
      var limits: seq<Violation>;
      limits, checks := CheckLimits(a, signer);
      var rate: seq<Violation> := [];
      var count := state.GetTransactionCountInWindow(policy.rateLimit.windowMs);
      if count >= policy.rateLimit.maxTransactions {
        rate := [RateLimitExceeded(count, policy.rateLimit.maxTransactions)];
      }
      assert (checks + [clock.now])[..|checks|] == checks;
      CheckNext(old(clock.now), checks, clock.now);
      checks := checks + [clock.now];
      var custom := CustomViolations(policy, a, signer);
      var caps := CheckCaps(a, signer, sync);
      v := programs + limits + rate + custom + caps;
    }

    /** `check()`: no recording; what it answers is what a recording step would decide. */
    method Check(ixs: seq<Instruction>, signer: Address)
      returns (v: seq<Violation>, a: Analysis, ghost checks: seq<int>)
      requires Valid()
      modifies clock
      ensures a == Analyze(ixs, signer)
      ensures |checks| == |policy.spendLimits| + 1 && Nondecreasing(old(clock.now), checks)
      ensures Last(old(clock.now), checks) == clock.now
      ensures v == if paused then [ShieldPaused] else Evaluate(state.View(), policy, a, signer, sync, checks)
    {
      if paused {
        a := AnalyzeInstructions(ixs, signer);
        ghost var t := clock.now;
        return [ShieldPaused], a, seq(|policy.spendLimits| + 1, _ => t);
      }
      v, a, checks := EvaluateInstructions(ixs, signer);
    }

    /** `enforce()` is the `Enforce` step: it records exactly when nothing is violated. */
    method Enforce(ixs: seq<Instruction>, signer: Address) returns (v: seq<Violation>, ghost times: Times)
      requires Valid()
      modifies state, clock
      ensures Enabled(Settings(), old(Snapshot(signer, ixs)), Step.Enforce(ixs, signer, times))
      ensures var m := Apply(Settings(), old(Snapshot(signer, ixs)), Step.Enforce(ixs, signer, times));
              state.View() == m.ledger && clock.now == m.clock
      ensures v == [] <==> Admits(Settings(), old(Snapshot(signer, ixs)), Analyze(ixs, signer), signer, times)
    {
      var a: Analysis;
      ghost var checks: seq<int>;
      v, a, checks := Check(ixs, signer);
      if v != [] {
        times := Times(checks, Idle(clock.now, |a.transfers| + 1));
        return;
      }
      ghost var ticks := state.RecordAll(a.transfers, signer, sync);
      state.enforceUsed := true;
      times := Times(checks, ticks);
    }

    /** `checkVelocityCeiling`, which a signing call runs before its simulation. */
    method CheckVelocity(ixs: seq<Instruction>, signer: Address, v: Velocity)
      returns (allowed: bool, ghost checks: (int, int))
      requires Valid()
      modifies clock
      ensures old(clock.now) <= checks.0 <= checks.1 == clock.now
      ensures allowed <==> VelocityAllows(state.View(), v, Analyze(ixs, signer), checks)
    {
      ghost var first := clock.now;
      if v.maxTxPerHour.Some? {
        var count := state.GetTransactionCountInWindow(HOUR);
        first := clock.now;
        if count >= v.maxTxPerHour.value {
          return false, (first, first);
        }
      }
      if v.maxUsdPerHour.Some? {
        var a := AnalyzeInstructions(ixs, signer);
        var spent := state.GetTotalSpendInWindow(HOUR);
        if spent + a.estimatedValue > v.maxUsdPerHour.value {
          return false, (first, clock.now);
        }
      }
      return true, (first, clock.now);
    }

    /** The shared state, with one signing call about to take up `ixs`. */
    ghost function Queued(o: SignerOptions, ixs: seq<Instruction>): Machine
      reads this, clock, state
    {
      Machine(state.View(), History([], [], []), clock.now, paused, [Call(o, [ixs], Ready)])
    }

    /**
     * What a signing call does with its next transaction up to the simulation, or all of it
     * where nothing is simulated: the `Proceed` step.
     */
    method BeginSigning(ixs: seq<Instruction>, o: SignerOptions, sessionBound: bool)
      returns (phase: Phase, ghost checks: (int, int), ghost times: Times)
      requires Valid()
      modifies state, clock
      ensures Enabled(Settings(), old(Queued(o, ixs)), Step.Proceed(0, checks, sessionBound, times))
      ensures var m := Apply(Settings(), old(Queued(o, ixs)), Step.Proceed(0, checks, sessionBound, times));
              state.View() == m.ledger && clock.now == m.clock && phase == m.calls[0].phase
    {
      checks := (clock.now, clock.now);
      if o.velocity.Some? {
        var allowed: bool;
        allowed, checks := CheckVelocity(ixs, o.signer, o.velocity.value);
        if !allowed {
          times := Unread(clock.now, |policy.spendLimits| + 1, |Analyze(ixs, o.signer).transfers| + 1);
          return Denied, checks, times;
        }
      }
      if o.simulates {
        times := Unread(clock.now, |policy.spendLimits| + 1, |Analyze(ixs, o.signer).transfers| + 1);
        return Simulating(ixs), checks, times;
      }
      var signed: bool;
      signed, times := SignAfterSimulation(ixs, o.signer, sessionBound);
      phase := if signed then Ready else Denied;
    }

    /** What a signing call does once its simulation has succeeded: the `SimulationDone` step. */
    method SignAfterSimulation(ixs: seq<Instruction>, signer: Address, sessionBound: bool)
      returns (signed: bool, ghost times: Times)
      requires Valid()
      modifies state, clock
      ensures Enabled(Settings(), old(Snapshot(signer, ixs)), SimulationDone(0, true, sessionBound, times))
      ensures var m := Apply(Settings(), old(Snapshot(signer, ixs)), SimulationDone(0, true, sessionBound, times));
              state.View() == m.ledger && clock.now == m.clock && (signed <==> m.calls[0].phase == Ready)
    {
      var v: seq<Violation>, a: Analysis;
      ghost var checks: seq<int>;
      v, a, checks := Check(ixs, signer);
      if v != [] || !sessionBound {
        times := Times(checks, Idle(clock.now, |a.transfers| + 1));
        return false, times;
      }
      ghost var ticks := state.RecordAll(a.transfers, signer, state.network);
      times := Times(checks, ticks);
      signed := true;
    }
  }

  /** Readings of a step that stops before its check. */
  ghost function Unread(now: int, checks: nat, ticks: nat): (times: Times)
    ensures |times.checks| == checks && |times.ticks| == ticks
    ensures checks > 0 ==> Orderly(now, times)
  {
    Times(seq(checks, _ => now), Idle(now, ticks))
  }

  /** Readings of a step that records nothing. */
  ghost function Idle(now: int, n: nat): (ticks: seq<Tick>)
    ensures |ticks| == n && TicksAfter(now, ticks) && LastTick(now, ticks) == now
  {
    if n == 0 then [] else
      var rest := Idle(now, n - 1);
      assert (rest + [Tick(now, now, now)])[..n - 1] == rest;
      rest + [Tick(now, now, now)]
  }
}
