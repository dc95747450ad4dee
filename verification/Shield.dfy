/** The client-side policy engine of `shield.ts`: what it checks and what it records. */
module Shield {
  import opened Common
  import opened Addresses
  import opened Inspector
  import opened ShieldWindows

  datatype Network = Devnet | MainnetBeta

  datatype Budget = Budget(spent24h: nat, cap: nat)

  /** The part of the resolved on-chain state that Shield consults. */
  datatype VaultState = VaultState(global: Budget, agent: Option<Budget>, maxTransactionUsd: nat)

  datatype SpendLimit = SpendLimit(mint: Address, amount: int, windowMs: Option<int>)

  datatype RateLimit = RateLimit(maxTransactions: int, windowMs: int)

  /** Resolved policies: spend limits may be empty, a rate limit is always there. */
  datatype Policy = Policy(
    blockUnknownPrograms: bool, allowedProtocols: Option<set<Address>>,
    spendLimits: seq<SpendLimit>, rateLimit: RateLimit,
    customCheck: Option<(Analysis, Address) -> bool>)

  datatype Violation =
    | ShieldPaused
    | ProgramNotAllowed(program: Address)
    | SpendLimitExceeded(mint: Address, projected: int, limit: int)
    | RateLimitExceeded(count: nat, limit: int)
    | CustomDenied
    | TransactionTooLarge(projected: int, limit: int)
    | VaultCapExceeded(projected: int, cap: nat)
    | AgentCapExceeded(projected: int, cap: nat)

  /** What `ShieldState` holds. */
  datatype Ledger = Ledger(
    spends: seq<Spend>, txs: seq<int>, vault: Option<VaultState>, usd: nat,
    network: Option<Network>, enforceUsed: bool)

  predicate IsStablecoin(mint: Address, network: Network) {
    match network
    case Devnet => mint == UsdcDevnet || mint == UsdtDevnet
    case MainnetBeta => mint == UsdcMainnet || mint == UsdtMainnet
  }

  predicate IsSystemProgram(p: Address) {
    p == SystemProgram || p == ComputeBudgetProgram || p == AtaProgram
  }

  function WindowOf(limit: SpendLimit): int {
    if limit.windowMs.Some? then limit.windowMs.value else DAY
  }

  /** What a transfer list would add to a limit: transfers of unknown mint count against every limit. */
  function Matching(ts: seq<Transfer>, signer: Address, mint: Address): nat {
    if ts == [] then 0 else
      var t := ts[|ts| - 1];
      Matching(ts[..|ts| - 1], signer, mint) +
      if t.authority == signer && (t.mint == Some(mint) || t.mint == None) then t.amount else 0
  }

  /** USD value of the outgoing stablecoin transfers. */
  function StablecoinUsd(ts: seq<Transfer>, signer: Address, network: Network): nat {
    if ts == [] then 0 else
      var t := ts[|ts| - 1];
      StablecoinUsd(ts[..|ts| - 1], signer, network) +
      if t.authority == signer && t.mint.Some? && IsStablecoin(t.mint.value, network) then t.amount else 0
  }

  function SpentInWindow(l: Ledger, mint: Address, window: int, now: int): nat {
    Spent(Since(l.spends, now - window), mint)
  }

  function TotalInWindow(l: Ledger, window: int, now: int): nat {
    Total(Since(l.spends, now - window))
  }

  function CountInWindow(l: Ledger, window: int, now: int): nat {
    |Recent(l.txs, now - window)|
  }

  // ---- Policy evaluation --------------------------------------------------------

  function ProgramViolations(p: Policy, programs: seq<Address>): seq<Violation> {
    if programs == [] || !p.blockUnknownPrograms || p.allowedProtocols.None? then [] else
      var program := programs[|programs| - 1];
      var rest := ProgramViolations(p, programs[..|programs| - 1]);
      if IsSystemProgram(program) || program in p.allowedProtocols.value then rest
      else rest + [ProgramNotAllowed(program)]
  }

  /** What a limit would stand at after the transfers, judged at `now`. */
  function Projected(l: Ledger, limit: SpendLimit, ts: seq<Transfer>, signer: Address, now: int): int {
    SpentInWindow(l, limit.mint, WindowOf(limit), now) + Matching(ts, signer, limit.mint)
  }

  /** One clock reading per limit, as the code reads the clock anew for each. */
  function SpendViolations(
    l: Ledger, limits: seq<SpendLimit>, ts: seq<Transfer>, signer: Address, checks: seq<int>): seq<Violation>
    requires |checks| == |limits|
  {
    if limits == [] then [] else
      var n := |limits| - 1;
      var limit := limits[n];
      var rest := SpendViolations(l, limits[..n], ts, signer, checks[..n]);
      var projected := Projected(l, limit, ts, signer, checks[n]);
      if projected > limit.amount then rest + [SpendLimitExceeded(limit.mint, projected, limit.amount)] else rest
  }

  function RateViolations(l: Ledger, rate: RateLimit, now: int): seq<Violation> {
    var count := CountInWindow(l, rate.windowMs, now);
    if count >= rate.maxTransactions then [RateLimitExceeded(count, rate.maxTransactions)] else []
  }

  function CustomViolations(p: Policy, a: Analysis, signer: Address): seq<Violation> {
    if p.customCheck.Some? && !p.customCheck.value(a, signer) then [CustomDenied] else []
  }

  function CapViolations(l: Ledger, ts: seq<Transfer>, signer: Address, network: Option<Network>): seq<Violation> {
    if l.vault.None? || network.None? then [] else
      var v, usd := l.vault.value, StablecoinUsd(ts, signer, network.value);
      if usd == 0 then [] else
        (if usd > v.maxTransactionUsd then [TransactionTooLarge(usd, v.maxTransactionUsd)] else []) +
        (if v.global.spent24h + l.usd + usd > v.global.cap
         then [VaultCapExceeded(v.global.spent24h + l.usd + usd, v.global.cap)] else []) +
        (if v.agent.Some? && v.agent.value.spent24h + l.usd + usd > v.agent.value.cap
         then [AgentCapExceeded(v.agent.value.spent24h + l.usd + usd, v.agent.value.cap)] else [])
  }

  /** `network ?? state.network`. */
  function EffectiveNetwork(l: Ledger, network: Option<Network>): Option<Network> {
    if network.Some? then network else l.network
  }

  /** `evaluateInstructions`; `checks` holds a clock reading per spend limit and one for the rate limit. */
  function Evaluate(
    l: Ledger, p: Policy, a: Analysis, signer: Address, network: Option<Network>, checks: seq<int>): seq<Violation>
    requires |checks| == |p.spendLimits| + 1
  {
    var n := |p.spendLimits|;
    ProgramViolations(p, a.programIds)
    + SpendViolations(l, p.spendLimits, a.transfers, signer, checks[..n])
    + RateViolations(l, p.rateLimit, checks[n])
    + CustomViolations(p, a, signer)
    + CapViolations(l, a.transfers, signer, EffectiveNetwork(l, network))
  }

  // ---- Recording ----------------------------------------------------------------

  /** The clock readings of one record: the stamp, then the two cutoffs pruning computes. */
  datatype Tick = Tick(push: int, spendCut: int, txCut: int)

  function RecordSpend(l: Ledger, mint: Address, amount: nat, k: Tick): Ledger {
    l.(spends := PruneSpends(l.spends + [Spend(mint, amount, k.push)], k.spendCut),
       txs := PruneTxs(l.txs, k.txCut))
  }

  function RecordTransaction(l: Ledger, k: Tick): Ledger {
    l.(spends := PruneSpends(l.spends, k.spendCut), txs := PruneTxs(l.txs + [k.push], k.txCut))
  }

  function MintKey(t: Transfer): Address {
    if t.mint.Some? then t.mint.value else Blank
  }

  function RecordTransfers(l: Ledger, ts: seq<Transfer>, signer: Address, ticks: seq<Tick>): Ledger
    requires |ticks| == |ts|
  {
    if ts == [] then l else
      var n := |ts| - 1;
      var l' := RecordTransfers(l, ts[..n], signer, ticks[..n]);
      if ts[n].authority == signer then RecordSpend(l', MintKey(ts[n]), ts[n].amount, ticks[n]) else l'
  }

  function RecordUsd(l: Ledger, ts: seq<Transfer>, signer: Address, network: Option<Network>): Ledger {
    if l.vault.Some? && network.Some? then l.(usd := l.usd + StablecoinUsd(ts, signer, network.value)) else l
  }

  /** Everything recorded for an accepted transaction, through either path. */
  function Commit(l: Ledger, ts: seq<Transfer>, signer: Address, network: Option<Network>, ticks: seq<Tick>): Ledger
    requires |ticks| == |ts| + 1
  {
    var n := |ts|;
    RecordUsd(RecordTransaction(RecordTransfers(l, ts, signer, ticks[..n]), ticks[n]), ts, signer, network)
  }

  // ---- Acceptance, declaratively --------------------------------------------------

  predicate ProgramAllowed(p: Policy, program: Address) {
    p.blockUnknownPrograms && p.allowedProtocols.Some? ==>
      IsSystemProgram(program) || program in p.allowedProtocols.value
  }

  predicate WithinCaps(l: Ledger, usd: nat) {
    l.vault.Some? && usd > 0 ==>
      var v := l.vault.value;
      && usd <= v.maxTransactionUsd
      && v.global.spent24h + l.usd + usd <= v.global.cap
      && (v.agent.Some? ==> v.agent.value.spent24h + l.usd + usd <= v.agent.value.cap)
  }

  predicate WithinLimits(l: Ledger, limits: seq<SpendLimit>, ts: seq<Transfer>, signer: Address, checks: seq<int>)
    requires |checks| == |limits|
  {
    forall k :: 0 <= k < |limits| ==> Projected(l, limits[k], ts, signer, checks[k]) <= limits[k].amount
  }

  /** What the rules demand of the instructions, without reference to violations. */
  predicate Accepts(
    l: Ledger, p: Policy, ixs: seq<Instruction>, signer: Address, network: Option<Network>, checks: seq<int>)
    requires |checks| == |p.spendLimits| + 1
  {
    var n, ts := |p.spendLimits|, Transfers(ixs);
    && (forall i :: 0 <= i < |ixs| ==> ProgramAllowed(p, ixs[i].program))
    && WithinLimits(l, p.spendLimits, ts, signer, checks[..n])
    && CountInWindow(l, p.rateLimit.windowMs, checks[n]) < p.rateLimit.maxTransactions
    && (p.customCheck.Some? ==> p.customCheck.value(Analyze(ixs, signer), signer))
    && (EffectiveNetwork(l, network).Some? ==>
          WithinCaps(l, StablecoinUsd(ts, signer, EffectiveNetwork(l, network).value)))
  }

  lemma {:induction false} ProgramsAccepted(p: Policy, programs: seq<Address>)
    ensures ProgramViolations(p, programs) == [] <==>
              forall i :: 0 <= i < |programs| ==> ProgramAllowed(p, programs[i])
  {
    if programs == [] {
    } else {
      ProgramsAccepted(p, programs[..|programs| - 1]);
    }
  }

  lemma ProgramsAcceptedIn(p: Policy, ixs: seq<Instruction>)
    ensures ProgramViolations(p, Programs(ixs)) == [] <==>
              forall i :: 0 <= i < |ixs| ==> ProgramAllowed(p, ixs[i].program)
  {
    var ps := Programs(ixs);
    ProgramsAccepted(p, ps);
    forall i | 0 <= i < |ixs| ensures ixs[i].program in ps {
      ProgramsAreAll(ixs, ixs[i].program);
    }
    forall k | 0 <= k < |ps| ensures exists i :: 0 <= i < |ixs| && ixs[i].program == ps[k] {
      ProgramsAreAll(ixs, ps[k]);
    }
  }

  lemma {:induction false} LimitsAccepted(
    l: Ledger, limits: seq<SpendLimit>, ts: seq<Transfer>, signer: Address, checks: seq<int>)
    requires |checks| == |limits|
    ensures SpendViolations(l, limits, ts, signer, checks) == [] <==> WithinLimits(l, limits, ts, signer, checks)
  {
    if limits == [] {
    } else {
      var n := |limits| - 1;
      LimitsAccepted(l, limits[..n], ts, signer, checks[..n]);
      assert WithinLimits(l, limits, ts, signer, checks) <==>
             WithinLimits(l, limits[..n], ts, signer, checks[..n])
             && Projected(l, limits[n], ts, signer, checks[n]) <= limits[n].amount;
    }
  }

  lemma CapsAccepted(l: Ledger, ts: seq<Transfer>, signer: Address, network: Option<Network>)
    ensures CapViolations(l, ts, signer, network) == [] <==>
              (network.Some? ==> WithinCaps(l, StablecoinUsd(ts, signer, network.value)))
  {
  }

  lemma NothingReported(l: Ledger, p: Policy, a: Analysis, signer: Address, network: Option<Network>, checks: seq<int>)
    requires |checks| == |p.spendLimits| + 1
    ensures Evaluate(l, p, a, signer, network, checks) == [] <==>
              && ProgramViolations(p, a.programIds) == []
              && SpendViolations(l, p.spendLimits, a.transfers, signer, checks[..|p.spendLimits|]) == []
              && RateViolations(l, p.rateLimit, checks[|p.spendLimits|]) == []
              && CustomViolations(p, a, signer) == []
              && CapViolations(l, a.transfers, signer, EffectiveNetwork(l, network)) == []
  {
    assert |Evaluate(l, p, a, signer, network, checks)|
        == |ProgramViolations(p, a.programIds)|
           + |SpendViolations(l, p.spendLimits, a.transfers, signer, checks[..|p.spendLimits|])|
           + |RateViolations(l, p.rateLimit, checks[|p.spendLimits|])|
           + |CustomViolations(p, a, signer)|
           + |CapViolations(l, a.transfers, signer, EffectiveNetwork(l, network))|;
  }

  /** Evaluation reports nothing if and only if every rule is met by the instructions themselves. */
  lemma EvaluateAccepts(
    l: Ledger, p: Policy, ixs: seq<Instruction>, signer: Address, network: Option<Network>, checks: seq<int>)
    requires |checks| == |p.spendLimits| + 1
    ensures Evaluate(l, p, Analyze(ixs, signer), signer, network, checks) == [] <==>
              Accepts(l, p, ixs, signer, network, checks)
  {
    var n, a := |p.spendLimits|, Analyze(ixs, signer);
    ProgramsAcceptedIn(p, ixs);
    LimitsAccepted(l, p.spendLimits, a.transfers, signer, checks[..n]);
    CapsAccepted(l, a.transfers, signer, EffectiveNetwork(l, network));
    NothingReported(l, p, a, signer, network, checks);
  }
}
