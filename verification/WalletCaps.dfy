/**
 * A wallet and its agents: every transfer passes the vault's gate and its agent's, and is
 * recorded in the tracker and in the agent's overlay entry, or leaves no trace at all.
 */
module WalletCaps {
  import opened Common
  import opened SpendTracker
  import AgentCap
  import AgentOverlay

  /** An agent the owner registered; `tracked` if it holds an overlay slot. */
  datatype Agent = Agent(limit: nat, tracked: bool, overlay: AgentCap.Overlay, log: seq<Spend>)

  datatype Wallet = Wallet(vault: Vault, agents: seq<Agent>)

  datatype Attempted = Attempted(agent: nat, spend: Spend)

  predicate Sized(w: Wallet) {
    && |w.vault.tracker.buckets| == EPOCHS
    && forall i :: 0 <= i < |w.agents| ==> |w.agents[i].overlay.contributions| == AgentCap.HOURS
  }

  /** The agent's side of a transfer. Without a slot it may spend only if it has no limit. */
  function Charge(a: Agent, s: Spend): (r: Option<Agent>)
    requires |a.overlay.contributions| == AgentCap.HOURS
    ensures r.Some? ==> |r.value.overlay.contributions| == AgentCap.HOURS
  {
    if a.tracked then
      match AgentCap.Permit(a.overlay, a.limit, s.at, s.amount)
      case Err(_) => None
      case Ok(o) => Some(a.(overlay := o, log := a.log + [s]))
    else if a.limit > 0 then None
    else Some(a.(log := a.log + [s]))
  }

  function Transfer(w: Wallet, cap: nat, t: Attempted): (r: Wallet)
    requires Sized(w)
    ensures Sized(r)
  {
    if t.agent >= |w.agents| then w else
      match Attempt(w.vault.tracker, cap, t.spend.at, t.spend.amount)
      case Err(_) => w
      case Ok(tracker) =>
        var a := Charge(w.agents[t.agent], t.spend);
        if a.None? then w
        else Wallet(Vault(tracker, w.vault.log + [t.spend]), w.agents[t.agent := a.value])
  }

  /** Registered agents that have not spent yet. */
  predicate Unspent(agents: seq<Agent>) {
    forall i :: 0 <= i < |agents| ==> agents[i].overlay == AgentCap.Unspent() && agents[i].log == []
  }

  function Run(agents: seq<Agent>, cap: nat, ts: seq<Attempted>): (w: Wallet)
    requires Unspent(agents)
    ensures Sized(w)
  {
    if ts == [] then Wallet(Vault(Zeroed(), []), agents)
    else Transfer(Run(agents, cap, ts[..|ts| - 1]), cap, ts[|ts| - 1])
  }

  predicate ClockRuns(ts: seq<Attempted>) {
    forall i, j :: 0 <= i < j < |ts| ==> ts[i].spend.at <= ts[j].spend.at
  }

  // ---- Conservation -----------------------------------------------------------------------------

  /** What the first `n` agents spent in an epoch. */
  function AgentsTotal(agents: seq<Agent>, e: int, n: nat): nat
    requires n <= |agents|
  {
    if n == 0 then 0 else AgentsTotal(agents, e, n - 1) + Total(agents[n - 1].log, e)
  }

  /** The vault's ledger is its agents' ledgers together, epoch by epoch. */
  ghost predicate Conserved(w: Wallet) {
    forall e :: Total(w.vault.log, e) == AgentsTotal(w.agents, e, |w.agents|)
  }

  lemma {:induction false} ChargedTotal(agents: seq<Agent>, i: nat, a: Agent, s: Spend, e: int, n: nat)
    requires i < |agents| && n <= |agents| && a.log == agents[i].log + [s]
    ensures AgentsTotal(agents[i := a], e, n)
         == AgentsTotal(agents, e, n) + if i < n && EpochOf(s.at) == e then s.amount else 0
  {
    if n == 0 {
    } else {
      ChargedTotal(agents, i, a, s, e, n - 1);
      Snoc(agents[i].log, s, e, 0);
    }
  }

  lemma {:induction false} UnspentTotal(agents: seq<Agent>, e: int, n: nat)
    requires Unspent(agents) && n <= |agents|
    ensures AgentsTotal(agents, e, n) == 0
  {
    if n == 0 {
    } else {
      UnspentTotal(agents, e, n - 1);
    }
  }

  lemma {:induction false} OneOfMany(agents: seq<Agent>, i: nat, e: int, n: nat)
    requires i < n <= |agents|
    ensures Total(agents[i].log, e) <= AgentsTotal(agents, e, n)
  {
    if i < n - 1 {
      OneOfMany(agents, i, e, n - 1);
    }
  }

  lemma {:induction false} AgentWithinVault(w: Wallet, i: nat, from: int, n: nat)
    requires Conserved(w) && i < |w.agents|
    ensures SumEpochs(w.agents[i].log, from, n) <= SumEpochs(w.vault.log, from, n)
  {
    if n == 0 {
    } else {
      AgentWithinVault(w, i, from, n - 1);
      OneOfMany(w.agents, i, from + n - 1, |w.agents|);
    }
  }

  // ---- The invariant ------------------------------------------------------------------------------

  /** An agent's entry reflects its ledger, which never passes the limit or the vault's last record. */
  ghost predicate AgentGood(a: Agent, last: int) {
    && Chronological(a.log) && LastTime(a.log) <= last
    && (a.tracked ==> AgentOverlay.Reflects(a.overlay, a.log))
    && AgentCap.LimitHolds(a.log, a.limit)
  }

  ghost predicate Good(w: Wallet, cap: nat) {
    && Reflects(w.vault.tracker, w.vault.log) && CapHolds(w.vault.log, cap)
    && (forall i :: 0 <= i < |w.agents| ==> AgentGood(w.agents[i], LastTime(w.vault.log)))
    && Conserved(w)
  }

  lemma ChargeKeepsGood(a: Agent, last: int, s: Spend)
    requires AgentGood(a, last) && last <= s.at && s.at > 0 && a.limit <= U64_MAX
    requires |a.overlay.contributions| == AgentCap.HOURS && Charge(a, s).Some?
    ensures AgentGood(Charge(a, s).value, s.at)
  {
    assert (a.log + [s])[..|a.log|] == a.log;
    if a.tracked {
      AgentCap.PermittedKeepsLimit(a.overlay, a.log, a.limit, s);
      AgentOverlay.ContributeReflects(a.overlay, a.log, s.at, s.amount);
      assert s == Spend(s.at, s.amount);
    }
  }

  lemma TransferConserves(w: Wallet, i: nat, a: Agent, t: Tracker, s: Spend)
    requires Conserved(w) && i < |w.agents| && a.log == w.agents[i].log + [s]
    ensures Conserved(Wallet(Vault(t, w.vault.log + [s]), w.agents[i := a]))
  {
    var r := Wallet(Vault(t, w.vault.log + [s]), w.agents[i := a]);
    forall e ensures Total(r.vault.log, e) == AgentsTotal(r.agents, e, |r.agents|) {
      Snoc(w.vault.log, s, e, 0);
      ChargedTotal(w.agents, i, a, s, e, |w.agents|);
    }
  }

  lemma TransferKeepsGood(w: Wallet, cap: nat, t: Attempted)
    requires Sized(w) && Good(w, cap) && cap <= U64_MAX && LastTime(w.vault.log) <= t.spend.at
    requires forall i :: 0 <= i < |w.agents| ==> w.agents[i].limit <= U64_MAX
    ensures Good(Transfer(w, cap, t), cap)
  {
    var s, r := t.spend, Transfer(w, cap, t);
    if t.agent < |w.agents| && Attempt(w.vault.tracker, cap, s.at, s.amount).Ok?
       && Charge(w.agents[t.agent], s).Some? {
      var a := Charge(w.agents[t.agent], s).value;
      AcceptedKeepsCap(w.vault, cap, s);
      RecordReflects(w.vault.tracker, w.vault.log, s.at, s.amount);
      assert s == Spend(s.at, s.amount);
      ChargeKeepsGood(w.agents[t.agent], LastTime(w.vault.log), s);
      TransferConserves(w, t.agent, a, r.vault.tracker, s);
    }
  }

  /** Who the agents are, and their limits, never change. */
  predicate SameAgents(agents: seq<Agent>, others: seq<Agent>) {
    && |agents| == |others|
    && forall i :: 0 <= i < |agents| ==> agents[i].limit == others[i].limit && agents[i].tracked == others[i].tracked
  }

  lemma StartsGood(agents: seq<Agent>, cap: nat)
    requires Unspent(agents)
    ensures Good(Wallet(Vault(Zeroed(), []), agents), cap)
  {
    ZeroedReflects();
    AgentCap.UnspentReflects();
    forall e ensures SumEpochs([], e, EPOCHS) == 0 {
      FutureOrEmpty(e, EPOCHS);
    }
    forall i | 0 <= i < |agents| ensures AgentGood(agents[i], 0) {
      AgentCap.NothingSpent(agents[i].limit);
    }
    forall e ensures AgentsTotal(agents, e, |agents|) == 0 {
      UnspentTotal(agents, e, |agents|);
    }
  }

  lemma {:induction false} RunsGood(agents: seq<Agent>, cap: nat, ts: seq<Attempted>)
    requires Unspent(agents) && ClockRuns(ts) && cap <= U64_MAX
    requires forall i :: 0 <= i < |agents| ==> agents[i].limit <= U64_MAX
    ensures var w := Run(agents, cap, ts);
            && Good(w, cap) && SameAgents(agents, w.agents)
            && (w.vault.log != [] ==> ts != [] && LastTime(w.vault.log) <= ts[|ts| - 1].spend.at)
  {
    if ts == [] {
      StartsGood(agents, cap);
    } else {
      var init, t := ts[..|ts| - 1], ts[|ts| - 1];
      RunsGood(agents, cap, init);
      var w := Run(agents, cap, init);
      if w.vault.log == [] && t.spend.at < 0 {
        assert Attempt(w.vault.tracker, cap, t.spend.at, t.spend.amount).Err?;
      } else {
        TransferKeepsGood(w, cap, t);
      }
    }
  }

  /**
   * In every run of transfers by any agents, any 144 consecutive epochs hold at most the daily cap,
   * any 24 consecutive hours hold at most each agent's limit and the cap, and what the agents spent
   * in an epoch is together what the vault recorded.
   */
  lemma BothCapsHold(agents: seq<Agent>, cap: nat, ts: seq<Attempted>, i: nat, from: int, h: int)
    requires Unspent(agents) && ClockRuns(ts) && cap <= U64_MAX && i < |agents|
    requires forall j :: 0 <= j < |agents| ==> agents[j].limit <= U64_MAX
    ensures var w := Run(agents, cap, ts);
            && |w.agents| == |agents|
            && SumEpochs(w.vault.log, from, EPOCHS) <= cap
            && (agents[i].limit > 0 ==> AgentCap.SumHours(w.agents[i].log, h, AgentCap.HOURS) <= agents[i].limit)
            && AgentCap.SumHours(w.agents[i].log, h, AgentCap.HOURS) <= cap
            && Total(w.vault.log, from) == AgentsTotal(w.agents, from, |w.agents|)
  {
    RunsGood(agents, cap, ts);
    var w := Run(agents, cap, ts);
    assert AgentGood(w.agents[i], LastTime(w.vault.log));
    AgentWithinVault(w, i, 6 * h, EPOCHS);
  }
}
