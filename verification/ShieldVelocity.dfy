/**
 * The hourly velocity ceilings of a shielded signer. They are checked before the `await` on the
 * simulation. They bound every run in which no call is checked while another is suspended there,
 * whatever the settings; for overlapping calls the rate limit, checked when recording, decides,
 * and the module settles for which settings and rate limits the ceilings hold.
 */
module ShieldVelocity {
  import opened Common
  import opened Addresses
  import opened Inspector
  import opened ShieldWindows
  import opened Shield
  import opened ShieldRuns
  import opened ShieldRates
  import opened ShieldScenarios

  /** Only signing calls record, all under the ceilings `v`. */
  predicate UnderVelocity(steps: seq<Step>, v: Velocity) {
    forall k :: 0 <= k < |steps| ==>
      !steps[k].Enforce? && (steps[k].Open? ==> steps[k].options.velocity == Some(v))
  }

  /** The same, all with one simulation setting. */
  predicate OnlySigners(steps: seq<Step>, v: Velocity, simulates: bool) {
    UnderVelocity(steps, v) &&
    forall k :: 0 <= k < |steps| ==> (steps[k].Open? ==> steps[k].options.simulates == simulates)
  }

  ghost predicate CeilingsHold(v: Velocity, h: History) {
    && (v.maxTxPerHour.Some? ==> CountBounded(h.txs, HOUR, v.maxTxPerHour.value))
    && (v.maxUsdPerHour.Some? ==> TotalBounded(h.spends, HOUR, v.maxUsdPerHour.value))
  }

  /** Neither ceiling is exceeded in the hour from `from`. */
  predicate UnderCeilings(v: Velocity, h: History, from: int) {
    && (v.maxTxPerHour.Some? ==> CountWindow(h.txs, from, HOUR) <= Ceiling(v.maxTxPerHour.value))
    && (v.maxUsdPerHour.Some? ==> TotalWindow(h.spends, from, HOUR) <= Ceiling(v.maxUsdPerHour.value))
  }

  lemma NothingRecorded(v: Velocity, clock: int)
    ensures CeilingsHold(v, Initial(clock).history)
  {
    assert forall a :: CountWindow([], a, HOUR) == 0;
    assert forall a :: TotalWindow([], a, HOUR) == 0;
  }

  // ---- Calls that do not overlap ------------------------------------------------------

  predicate Suspended(call: Call) { call.phase.Simulating? }

  predicate NoneSuspended(m: Machine) {
    forall k :: 0 <= k < |m.calls| ==> !Suspended(m.calls[k])
  }

  /** No call runs its velocity check while another is suspended. */
  predicate Serial(c: Config, m: Machine, steps: seq<Step>)
    requires IsRun(c, m, steps)
    decreases |steps|
  {
    steps == [] || ((steps[0].Proceed? ==> NoneSuspended(m)) && Serial(c, Apply(c, m, steps[0]), steps[1..]))
  }

  /** At readings `checks`, a transaction of this value fits under the ceilings on top of the history. */
  predicate Fits(h: History, v: Velocity, value: nat, checks: (int, int)) {
    && (v.maxTxPerHour.Some? ==> |Recent(h.txs, checks.0 - HOUR)| < v.maxTxPerHour.value)
    && (v.maxUsdPerHour.Some? ==> Total(Since(h.spends, checks.1 - HOUR)) + value <= v.maxUsdPerHour.value)
  }

  function ValueOf(ixs: seq<Instruction>, signer: Address): nat {
    Analyze(ixs, signer).estimatedValue
  }

  /** A suspended call's check, made at some past moment, still fits. */
  ghost predicate StillFits(m: Machine, v: Velocity, call: Call)
    requires Suspended(call)
  {
    exists checks: (int, int) :: checks.0 <= checks.1 <= m.clock
      && Fits(m.history, v, ValueOf(call.phase.instructions, call.options.signer), checks)
  }

  ghost predicate SerialInv(m: Machine, v: Velocity) {
    && CeilingsHold(v, m.history)
    && (forall k :: 0 <= k < |m.calls| ==> m.calls[k].options.velocity == Some(v))
    && (forall k :: 0 <= k < |m.calls| && Suspended(m.calls[k]) ==> StillFits(m, v, m.calls[k]))
    && (forall j, k :: 0 <= j < k < |m.calls| ==> !Suspended(m.calls[j]) || !Suspended(m.calls[k]))
  }

  /** What the check saw on the pruned arrays is true of the full history. */
  lemma CheckFits(m: Machine, v: Velocity, a: Analysis, checks: (int, int))
    requires PruningInvisible(m) && m.clock <= checks.0 <= checks.1 && VelocityAllows(m.ledger, v, a, checks)
    ensures Fits(m.history, v, a.estimatedValue, checks)
  {
    FaithfulTxsLater(m.ledger.txs, m.history.txs, m.clock, checks.0 - HOUR);
    FaithfulLater(m.ledger.spends, m.history.spends, m.clock, checks.1 - HOUR);
  }

  /** Recording what fitted, stamped after the check, keeps the ceilings. */
  lemma RecordKeepsCeilings(
    c: Config, h: History, v: Velocity, checks: (int, int), from: int, a: Analysis, signer: Address, times: Times)
    requires CeilingsHold(v, h) && Fits(h, v, a.estimatedValue, checks) && checks.0 <= checks.1 <= from
    requires Timed(c, from, a, times) && a.estimatedValue == Outgoing(a.transfers, signer)
    ensures CeilingsHold(v, Remember(h, a.transfers, signer, times.ticks))
  {
    var n := |a.transfers|;
    var ticks := times.ticks[..n];
    ChecksBeforeTicks(from, times, 0);
    EntriesAfter(a.transfers, signer, Last(from, times.checks), ticks);
    RecordedWithinChecked(a.transfers, signer, ticks, Blank);
    if v.maxTxPerHour.Some? {
      CountStep(h.txs, times.ticks[n].push, HOUR, v.maxTxPerHour.value, checks.0);
    }
    if v.maxUsdPerHour.Some? {
      TotalStep(h.spends, Entries(a.transfers, signer, ticks), HOUR, v.maxUsdPerHour.value, checks.1);
    }
  }

  /** Only call `i` may be suspended. */
  predicate OthersIdle(m: Machine, v: Velocity, i: nat) {
    forall k :: 0 <= k < |m.calls| ==> m.calls[k].options.velocity == Some(v) && (k == i || !Suspended(m.calls[k]))
  }

  lemma IdleSerial(m: Machine, v: Velocity)
    requires CeilingsHold(v, m.history) && OthersIdle(m, v, |m.calls|)
    ensures SerialInv(m, v)
  {
  }

  lemma FinishSerial(
    c: Config, m: Machine, v: Velocity, i: nat, ixs: seq<Instruction>,
    sessionBound: bool, times: Times, checks: (int, int))
    requires i < |m.calls| && Timed(c, m.clock, Analyze(ixs, m.calls[i].options.signer), times)
    requires checks.0 <= checks.1 <= m.clock && CeilingsHold(v, m.history) && OthersIdle(m, v, i)
    requires Fits(m.history, v, ValueOf(ixs, m.calls[i].options.signer), checks)
    ensures SerialInv(Finish(c, m, i, ixs, sessionBound, times), v)
  {
    var signer := m.calls[i].options.signer;
    RecordKeepsCeilings(c, m.history, v, checks, m.clock, Analyze(ixs, signer), signer, times);
    IdleSerial(Finish(c, m, i, ixs, sessionBound, times), v);
  }

  lemma SerialProceed(c: Config, m: Machine, s: Step, v: Velocity)
    requires s.Proceed? && Enabled(c, m, s) && NoneSuspended(m) && PruningInvisible(m) && SerialInv(m, v)
    ensures SerialInv(Apply(c, m, s), v)
  {
    var i, call, checks := s.call, m.calls[s.call], s.velocityChecks;
    var ixs, o := call.queue[0], call.options;
    if !VelocityAllows(m.ledger, v, Analyze(ixs, o.signer), checks) {
      IdleSerial(Apply(c, m, s), v);
    } else {
      CheckFits(m, v, Analyze(ixs, o.signer), checks);
      if o.simulates {
        var r := Apply(c, m, s);
        assert StillFits(r, v, r.calls[i]);
      } else {
        var m' := m.(clock := checks.1, calls := m.calls[i := call.(queue := call.queue[1..])]);
        FinishSerial(c, m', v, i, ixs, s.sessionBound, s.times, checks);
      }
    }
  }

  lemma SerialDone(c: Config, m: Machine, s: Step, v: Velocity)
    requires s.SimulationDone? && Enabled(c, m, s) && SerialInv(m, v)
    ensures SerialInv(Apply(c, m, s), v)
  {
    var call := m.calls[s.call];
    assert OthersIdle(m, v, s.call);
    if s.success {
      assert StillFits(m, v, call);
      var checks: (int, int) :| checks.0 <= checks.1 <= m.clock
        && Fits(m.history, v, ValueOf(call.phase.instructions, call.options.signer), checks);
      FinishSerial(c, m, v, s.call, call.phase.instructions, s.sessionBound, s.times, checks);
    } else {
      IdleSerial(Stop(m, s.call), v);
    }
  }

  lemma SerialStep(c: Config, m: Machine, s: Step, v: Velocity)
    requires Enabled(c, m, s) && UnderVelocity([s], v) && PruningInvisible(m) && SerialInv(m, v)
    requires s.Proceed? ==> NoneSuspended(m)
    ensures SerialInv(Apply(c, m, s), v)
  {
    assert [s][0] == s;
    if s.Proceed? {
      SerialProceed(c, m, s, v);
    } else if s.SimulationDone? {
      SerialDone(c, m, s, v);
    } else {
      forall k | 0 <= k < |m.calls| && Suspended(m.calls[k]) ensures StillFits(Apply(c, m, s), v, m.calls[k]) {
        assert StillFits(m, v, m.calls[k]);
      }
    }
  }

  lemma {:induction false} SerialRun(c: Config, m: Machine, steps: seq<Step>, v: Velocity)
    requires IsRun(c, m, steps) && UnderVelocity(steps, v) && Serial(c, m, steps)
    requires Inv(c, m) && SerialInv(m, v)
    ensures CeilingsHold(v, Run(c, m, steps).history)
    decreases |steps|
  {
    if steps == [] {
    } else {
      StepKeepsInv(c, m, steps[0]);
      SerialStep(c, m, steps[0], v);
      SerialRun(c, Apply(c, m, steps[0]), steps[1..], v);
    }
  }

  /**
   * Under every setting, simulated or not, both ceilings hold over every hour of every run
   * whose calls do not overlap.
   */
  lemma CeilingsHoldInSerialRuns(c: Config, clock: int, steps: seq<Step>, v: Velocity, from: int)
    requires IsRun(c, Initial(clock), steps) && UnderVelocity(steps, v) && Serial(c, Initial(clock), steps)
    ensures UnderCeilings(v, Run(c, Initial(clock), steps).history, from)
  {
    InitialInv(c, clock);
    NothingRecorded(v, clock);
    SerialRun(c, Initial(clock), steps, v);
  }

  // ---- Settings that hold for overlapping calls too -------------------------------------

  /** With nothing recorded yet, a transaction of this value passes the check. */
  predicate Passes(v: Velocity, value: nat) {
    (v.maxTxPerHour.Some? ==> v.maxTxPerHour.value >= 1) && (v.maxUsdPerHour.Some? ==> value <= v.maxUsdPerHour.value)
  }

  /** Settings under which no call is ever suspended past its velocity check. */
  predicate NeverSuspends(v: Velocity, simulates: bool) {
    !simulates || !Passes(v, 0)
  }

  /** The rate limit keeps bursts within the transaction ceiling. */
  predicate TransactionsEnforced(v: Velocity, rate: RateLimit) {
    v.maxTxPerHour.Some? ==> BurstAtMost(rate, HOUR, Ceiling(v.maxTxPerHour.value))
  }

  /** The spend ceiling is zero, or the rate limit lets at most one transaction through in an hour. */
  predicate SpendEnforced(v: Velocity, rate: RateLimit) {
    v.maxUsdPerHour.Some? ==> v.maxUsdPerHour.value == 0 || BurstAtMost(rate, HOUR, 1)
  }

  /** Exactly the settings and rate limits whose ceilings hold in every run, however its calls overlap. */
  predicate Enforced(v: Velocity, simulates: bool, rate: RateLimit) {
    NeverSuspends(v, simulates) || (TransactionsEnforced(v, rate) && SpendEnforced(v, rate))
  }

  predicate CallsUnder(m: Machine, v: Velocity, simulates: bool) {
    NoneSuspended(m) && forall k :: 0 <= k < |m.calls| ==>
      m.calls[k].options.velocity == Some(v) && m.calls[k].options.simulates == simulates
  }

  lemma CallsStayUnder(c: Config, m: Machine, s: Step, v: Velocity, simulates: bool)
    requires Enabled(c, m, s) && OnlySigners([s], v, simulates) && NeverSuspends(v, simulates)
    requires CallsUnder(m, v, simulates)
    ensures CallsUnder(Apply(c, m, s), v, simulates)
  {
    assert [s][0] == s;
  }

  lemma {:induction false} NeverSuspendedIsSerial(c: Config, m: Machine, steps: seq<Step>, v: Velocity, simulates: bool)
    requires IsRun(c, m, steps) && OnlySigners(steps, v, simulates) && NeverSuspends(v, simulates)
    requires CallsUnder(m, v, simulates)
    ensures Serial(c, m, steps)
    decreases |steps|
  {
    if steps == [] {
    } else {
      CallsStayUnder(c, m, steps[0], v, simulates);
      NeverSuspendedIsSerial(c, Apply(c, m, steps[0]), steps[1..], v, simulates);
    }
  }

  // ---- A ceiling of zero ------------------------------------------------------------

  /** Calls suspended under a spend ceiling of zero move nothing. */
  predicate MovesNothing(m: Machine, v: Velocity) {
    forall k :: 0 <= k < |m.calls| ==>
      && m.calls[k].options.velocity == Some(v) && m.calls[k].options.simulates
      && (Suspended(m.calls[k]) ==> ValueOf(m.calls[k].phase.instructions, m.calls[k].options.signer) == 0)
  }

  lemma RecordsNothing(c: Config, m: Machine, i: nat, ixs: seq<Instruction>, sessionBound: bool, times: Times)
    requires i < |m.calls| && Timed(c, m.clock, Analyze(ixs, m.calls[i].options.signer), times)
    requires ValueOf(ixs, m.calls[i].options.signer) == 0
    ensures Total(Finish(c, m, i, ixs, sessionBound, times).history.spends) == Total(m.history.spends)
  {
    var signer := m.calls[i].options.signer;
    var ts := Analyze(ixs, signer).transfers;
    RecordedWithinChecked(ts, signer, times.ticks[..|ts|], Blank);
    TotalConcat(m.history.spends, Entries(ts, signer, times.ticks[..|ts|]));
  }

  lemma ZeroProceed(c: Config, m: Machine, s: Step, v: Velocity)
    requires s.Proceed? && Enabled(c, m, s) && v.maxUsdPerHour == Some(0) && MovesNothing(m, v)
    ensures MovesNothing(Apply(c, m, s), v) && Apply(c, m, s).history == m.history
  {
    var call := m.calls[s.call];
    var a := Analyze(call.queue[0], call.options.signer);
    assert VelocityAllows(m.ledger, v, a, s.velocityChecks) ==> a.estimatedValue == 0;
  }

  lemma ZeroStep(c: Config, m: Machine, s: Step, v: Velocity)
    requires Enabled(c, m, s) && OnlySigners([s], v, true) && v.maxUsdPerHour == Some(0)
    requires MovesNothing(m, v)
    ensures MovesNothing(Apply(c, m, s), v)
    ensures Total(Apply(c, m, s).history.spends) == Total(m.history.spends)
  {
    assert [s][0] == s;
    if s.Proceed? {
      ZeroProceed(c, m, s, v);
    } else if s.SimulationDone? && s.success {
      RecordsNothing(c, m, s.call, m.calls[s.call].phase.instructions, s.sessionBound, s.times);
    }
  }

  lemma {:induction false} ZeroRun(c: Config, m: Machine, steps: seq<Step>, v: Velocity)
    requires IsRun(c, m, steps) && OnlySigners(steps, v, true) && v.maxUsdPerHour == Some(0)
    requires MovesNothing(m, v)
    ensures Total(Run(c, m, steps).history.spends) == Total(m.history.spends)
    decreases |steps|
  {
    if steps == [] {
    } else {
      ZeroStep(c, m, steps[0], v);
      ZeroRun(c, Apply(c, m, steps[0]), steps[1..], v);
    }
  }

  // ---- A spend ceiling under the rate limit -------------------------------------------------

  function Amount(e: Spend): nat { e.amount }

  lemma {:induction false} AmountIsTotal(s: seq<Spend>)
    ensures Weigh(Amount, s) == Total(s)
  {
    if s == [] {
    } else {
      AmountIsTotal(s[..|s| - 1]);
    }
  }

  /** Suspended calls carry at most `k` each. */
  predicate Carries(m: Machine, v: Velocity, k: nat) {
    forall i :: 0 <= i < |m.calls| ==>
      && m.calls[i].options.velocity == Some(v)
      && (Suspended(m.calls[i]) ==> ValueOf(m.calls[i].phase.instructions, m.calls[i].options.signer) <= k)
  }

  lemma CarriesStep(c: Config, m: Machine, s: Step, v: Velocity, k: nat)
    requires Enabled(c, m, s) && UnderVelocity([s], v) && v.maxUsdPerHour == Some(k) && Carries(m, v, k)
    ensures Carries(Apply(c, m, s), v, k)
    ensures EffectOf(c, m, s).Recorded? ==> ValueOf(EffectOf(c, m, s).instructions, EffectOf(c, m, s).signer) <= k
  {
    assert [s][0] == s;
    if s.Proceed? {
      var call := m.calls[s.call];
      var a := Analyze(call.queue[0], call.options.signer);
      assert VelocityAllows(m.ledger, v, a, s.velocityChecks) ==> a.estimatedValue <= k;
    }
  }

  ghost predicate SpendRationed(c: Config, m: Machine, k: nat) {
    Rationed(Amount, k, Kept(c.policy.rateLimit), Ceiling(c.policy.rateLimit.maxTransactions),
             m.history.spends, m.history.txs)
  }

  lemma SpendStep(c: Config, m: Machine, s: Step, v: Velocity, k: nat)
    requires Enabled(c, m, s) && UnderVelocity([s], v) && v.maxUsdPerHour == Some(k) && Carries(m, v, k)
    requires PruningInvisible(m) && SpendRationed(c, m, k)
    ensures SpendRationed(c, Apply(c, m, s), k)
  {
    var e := EffectOf(c, m, s);
    StepEffect(c, m, s);
    CarriesStep(c, m, s, v, k);
    if e.Recorded? {
      var ts := Transfers(e.instructions);
      RecordedWithinChecked(ts, e.signer, e.times.ticks[..|ts|], Blank);
      AmountIsTotal(Entries(ts, e.signer, e.times.ticks[..|ts|]));
      RecordRationed(Amount, k, c, m, e.instructions, e.signer, e.from, e.times);
    }
  }

  lemma {:induction false} SpendRun(c: Config, m: Machine, steps: seq<Step>, v: Velocity, k: nat)
    requires IsRun(c, m, steps) && UnderVelocity(steps, v) && v.maxUsdPerHour == Some(k) && Carries(m, v, k)
    requires Inv(c, m) && SpendRationed(c, m, k)
    ensures SpendRationed(c, Run(c, m, steps), k)
    decreases |steps|
  {
    if steps == [] {
    } else {
      StepKeepsInv(c, m, steps[0]);
      CarriesStep(c, m, steps[0], v, k);
      SpendStep(c, m, steps[0], v, k);
      SpendRun(c, Apply(c, m, steps[0]), steps[1..], v, k);
    }
  }

  /**
   * However calls overlap, every interval as long as the rate window (or a day) holds at most
   * `maxTransactions` times the spend ceiling.
   */
  lemma OverlappingSpendRationed(c: Config, clock: int, steps: seq<Step>, v: Velocity, k: nat, from: int)
    requires IsRun(c, Initial(clock), steps) && UnderVelocity(steps, v) && v.maxUsdPerHour == Some(k)
    ensures TotalWindow(Run(c, Initial(clock), steps).history.spends, from, Kept(c.policy.rateLimit))
         <= k * Ceiling(c.policy.rateLimit.maxTransactions)
  {
    var rate, h := c.policy.rateLimit, Run(c, Initial(clock), steps).history;
    InitialInv(c, clock);
    NothingRationed(Amount, k, Kept(rate), Ceiling(rate.maxTransactions));
    SpendRun(c, Initial(clock), steps, v, k);
    assert InWindow(Amount, h.spends, from, Kept(rate)) <= k * Ceiling(rate.maxTransactions);
    AmountIsTotal(Between(h.spends, from, from + Kept(rate)));
  }

  lemma SpendHeld(c: Config, steps: seq<Step>, v: Velocity, from: int)
    requires IsRun(c, Initial(0), steps) && OnlySigners(steps, v, true) && Passes(v, 0)
    requires v.maxUsdPerHour.Some? && SpendEnforced(v, c.policy.rateLimit)
    ensures TotalWindow(Run(c, Initial(0), steps).history.spends, from, HOUR) <= Ceiling(v.maxUsdPerHour.value)
  {
    var rate, k, s := c.policy.rateLimit, v.maxUsdPerHour.value, Run(c, Initial(0), steps).history.spends;
    if k == 0 {
      ZeroRun(c, Initial(0), steps, v);
      BetweenWithinAll(s, from, from + HOUR, Blank);
    } else if rate.maxTransactions <= 0 {
      NothingAdmitted(c, Initial(0), steps);
    } else {
      OneAtATime(rate, HOUR);
      OverlappingSpendRationed(c, 0, steps, v, k, from);
      AmountIsTotal(Between(s, from, from + Kept(rate)));
      AmountIsTotal(Between(s, from, from + HOUR));
      OneRation(Amount, s, from, HOUR, Kept(rate), k, Ceiling(rate.maxTransactions));
    }
  }

  lemma CeilingsHeld(c: Config, steps: seq<Step>, v: Velocity, simulates: bool, from: int)
    requires IsRun(c, Initial(0), steps) && OnlySigners(steps, v, simulates)
    requires Enforced(v, simulates, c.policy.rateLimit)
    ensures UnderCeilings(v, Run(c, Initial(0), steps).history, from)
  {
    if NeverSuspends(v, simulates) {
      NeverSuspendedIsSerial(c, Initial(0), steps, v, simulates);
      CeilingsHoldInSerialRuns(c, 0, steps, v, from);
    } else {
      if v.maxTxPerHour.Some? {
        BurstsBounded(c, 0, steps, from, HOUR, Ceiling(v.maxTxPerHour.value));
      }
      if v.maxUsdPerHour.Some? {
        SpendHeld(c, steps, v, from);
      }
    }
  }

  // ---- Every other setting ------------------------------------------------------------

  function Suspendable(v: Velocity): SignerOptions {
    SignerOptions(AGENT, Some(v), true)
  }

  function CallsAt(v: Velocity, count: nat, phase: Phase, queue: seq<seq<Instruction>>): (cs: seq<Call>)
    ensures |cs| == count && forall i :: 0 <= i < count ==> cs[i] == Call(Suspendable(v), queue, phase)
  {
    seq(count, _ => Call(Suspendable(v), queue, phase))
  }

  /** `total` calls waiting, of which the first `suspended` have passed the velocity check. */
  function Waiting(v: Velocity, ixs: seq<Instruction>, total: nat, suspended: nat): Machine
    requires suspended <= total
  {
    Initial(0).(calls := CallsAt(v, suspended, Simulating(ixs), []) + CallsAt(v, total - suspended, Ready, [ixs]))
  }

  /** The first of `total` suspended calls have recorded their transaction at the given times. */
  predicate Resumed(m: Machine, v: Velocity, ixs: seq<Instruction>, ts: seq<Transfer>, total: nat, at: seq<int>) {
    && Repeated(m, ts, at) && |at| <= total
    && m.calls == CallsAt(v, |at|, Ready, []) + CallsAt(v, total - |at|, Simulating(ixs), [])
  }

  /** A run of signers under the ceilings that reaches the machine. */
  predicate SignersReach(rate: RateLimit, v: Velocity, steps: seq<Step>, m: Machine) {
    Reaches(Context([], rate), steps, m) && OnlySigners(steps, v, true)
  }

  lemma SignersNext(rate: RateLimit, v: Velocity, before: seq<Step>, m: Machine, s: Step) returns (steps: seq<Step>)
    requires SignersReach(rate, v, before, m) && Enabled(Context([], rate), m, s) && OnlySigners([s], v, true)
    ensures SignersReach(rate, v, steps, Apply(Context([], rate), m, s))
  {
    ReachesNext(Context([], rate), before, m, s);
    steps := before + [s];
    assert [s][0] == s;
  }

  lemma {:induction false} OpenAll(rate: RateLimit, v: Velocity, ixs: seq<Instruction>, total: nat)
    returns (steps: seq<Step>)
    ensures SignersReach(rate, v, steps, Waiting(v, ixs, total, 0))
  {
    if total == 0 {
      steps := [];
      assert Waiting(v, ixs, 0, 0).calls == [];
    } else {
      var before := OpenAll(rate, v, ixs, total - 1);
      var s := Open(Suspendable(v), [ixs]);
      steps := SignersNext(rate, v, before, Waiting(v, ixs, total - 1, 0), s);
      assert Waiting(v, ixs, total, 0).calls
          == Waiting(v, ixs, total - 1, 0).calls + [Call(Suspendable(v), [ixs], Ready)];
    }
  }

  lemma SuspendOne(rate: RateLimit, v: Velocity, ixs: seq<Instruction>, ts: seq<Transfer>, total: nat, suspended: nat)
    requires suspended < total && Makes(ixs, ts) && Passes(v, ValueOf(ixs, AGENT))
    ensures var c, s := Context([], rate), Proceed(suspended, (0, 0), true, Instant([], ts, 0));
            Enabled(c, Waiting(v, ixs, total, suspended), s)
            && Apply(c, Waiting(v, ixs, total, suspended), s) == Waiting(v, ixs, total, suspended + 1)
  {
    var c, m := Context([], rate), Waiting(v, ixs, total, suspended);
    var s := Proceed(suspended, (0, 0), true, Instant([], ts, 0));
    assert m.calls[suspended] == Call(Suspendable(v), [ixs], Ready);
    InstantTimed([], rate, 0, 0, ixs, ts);
    assert Enabled(c, m, s);
    assert CountInWindow(m.ledger, HOUR, 0) == 0 && TotalInWindow(m.ledger, HOUR, 0) == 0;
    assert m.calls[suspended].queue[1..] == [];
    assert Apply(c, m, s).calls == Waiting(v, ixs, total, suspended + 1).calls;
  }

  lemma {:induction false} SuspendAll(
    rate: RateLimit, v: Velocity, ixs: seq<Instruction>, ts: seq<Transfer>, total: nat, suspended: nat)
    returns (steps: seq<Step>)
    requires suspended <= total && Makes(ixs, ts) && Passes(v, ValueOf(ixs, AGENT))
    ensures SignersReach(rate, v, steps, Waiting(v, ixs, total, suspended))
    decreases suspended
  {
    if suspended == 0 {
      steps := OpenAll(rate, v, ixs, total);
    } else {
      var before := SuspendAll(rate, v, ixs, ts, total, suspended - 1);
      SuspendOne(rate, v, ixs, ts, total, suspended - 1);
      var s := Proceed(suspended - 1, (0, 0), true, Instant([], ts, 0));
      steps := SignersNext(rate, v, before, Waiting(v, ixs, total, suspended - 1), s);
    }
  }

  lemma ResumeOne(
    rate: RateLimit, v: Velocity, ixs: seq<Instruction>, ts: seq<Transfer>, total: nat, at: seq<int>, m: Machine)
    requires at != [] && |at| <= total && Resumed(m, v, ixs, ts, total, at[..|at| - 1]) && Makes(ixs, ts)
    requires Ordered(at) && Lossless(ts, at) && InRate(rate, at[..|at| - 1], at[|at| - 1])
    ensures var c, s := Context([], rate), SimulationDone(|at| - 1, true, true, Instant([], ts, at[|at| - 1]));
            Enabled(c, m, s) && Resumed(Apply(c, m, s), v, ixs, ts, total, at)
  {
    var n := |at| - 1;
    var c, now, init := Context([], rate), at[n], at[..n];
    var s := SimulationDone(n, true, true, Instant([], ts, now));
    assert m.calls[n] == Call(Suspendable(v), [], Simulating(ixs));
    InstantTimed([], rate, m.clock, now, ixs, ts);
    Admitted([], rate, m, ixs, ts, now);
    CommitKept(m.ledger, ts, now);
    RememberMarks(m.history, ts, now);
    LosslessKept(ts, at);
    assert init + [now] == at;
    assert Enabled(c, m, s) && Apply(c, m, s) == Finish(c, m, n, ixs, true, Instant([], ts, now));
    assert Repeated(Apply(c, m, s), ts, at);
    assert Apply(c, m, s).calls == CallsAt(v, |at|, Ready, []) + CallsAt(v, total - |at|, Simulating(ixs), []);
  }

  lemma NoneResumed(v: Velocity, ixs: seq<Instruction>, ts: seq<Transfer>, total: nat)
    ensures Resumed(Waiting(v, ixs, total, total), v, ixs, ts, total, [])
  {
    assert Waiting(v, ixs, total, total).calls == CallsAt(v, 0, Ready, []) + CallsAt(v, total, Simulating(ixs), []);
  }

  /** All calls pass the velocity check before any records; the rate limit lets them record at these times. */
  lemma {:induction false} ResumeAll(
    rate: RateLimit, v: Velocity, ixs: seq<Instruction>, ts: seq<Transfer>, total: nat, at: seq<int>)
    returns (steps: seq<Step>, m: Machine)
    requires |at| <= total && Makes(ixs, ts) && Passes(v, ValueOf(ixs, AGENT)) && Ordered(at) && Lossless(ts, at)
    requires forall i :: 0 <= i < |at| ==> InRate(rate, at[..i], at[i])
    ensures SignersReach(rate, v, steps, m) && Resumed(m, v, ixs, ts, total, at)
    decreases |at|
  {
    if at == [] {
      steps := SuspendAll(rate, v, ixs, ts, total, total);
      m := Waiting(v, ixs, total, total);
      NoneResumed(v, ixs, ts, total);
    } else {
      var n := |at| - 1;
      LosslessInit(ts, at);
      assert forall i :: 0 <= i < n ==> at[..n][..i] == at[..i];
      steps, m := ResumeAll(rate, v, ixs, ts, total, at[..n]);
      ResumeOne(rate, v, ixs, ts, total, at, m);
      var s := SimulationDone(n, true, true, Instant([], ts, at[n]));
      steps := SignersNext(rate, v, steps, m, s);
      m := Apply(Context([], rate), m, s);
    }
  }

  /** As many calls as the rate limit lets through within the hour. */
  lemma BurstOfCalls(rate: RateLimit, v: Velocity, ixs: seq<Instruction>, ts: seq<Transfer>, n: nat)
    returns (steps: seq<Step>, m: Machine)
    requires Makes(ixs, ts) && Passes(v, ValueOf(ixs, AGENT)) && !BurstAtMost(rate, HOUR, n)
    ensures SignersReach(rate, v, steps, m)
    ensures m.history.txs == Burst(rate, n + 1) && m.history.spends == AllMarks(ts, Burst(rate, n + 1))
    ensures var at := Burst(rate, n + 1); forall i :: 0 <= i < |at| ==> 0 <= at[i] <= HOUR
  {
    var at := Burst(rate, n + 1);
    BurstOrdered(rate, n + 1);
    forall i | 0 <= i <= n ensures 0 <= at[i] <= HOUR && InRate(rate, at[..i], at[i]) {
      BurstFits(rate, HOUR, n, i);
      BurstPrefix(rate, n + 1, i);
      BurstInRate(rate, i);
    }
    steps, m := ResumeAll(rate, v, ixs, ts, n + 1, at);
  }

  lemma {:induction false} CountAll(txs: seq<int>, to: int)
    requires forall i :: 0 <= i < |txs| ==> 0 <= txs[i] <= to
    ensures CountBetween(txs, 0, to) == |txs|
  {
    if txs == [] {
    } else {
      CountAll(txs[..|txs| - 1], to);
    }
  }

  lemma TransactionsExceeded(rate: RateLimit, v: Velocity) returns (steps: seq<Step>, m: Machine)
    requires Passes(v, 0) && !TransactionsEnforced(v, rate)
    ensures SignersReach(rate, v, steps, m) && !UnderCeilings(v, m.history, 0)
  {
    var n := v.maxTxPerHour.value;
    steps, m := BurstOfCalls(rate, v, [], [], n);
    CountAll(Burst(rate, n + 1), HOUR);
  }

  lemma SpendExceeded(rate: RateLimit, v: Velocity) returns (steps: seq<Step>, m: Machine)
    requires Passes(v, 0) && !SpendEnforced(v, rate)
    ensures SignersReach(rate, v, steps, m) && !UnderCeilings(v, m.history, 0)
  {
    var k := v.maxUsdPerHour.value;
    var ts, at := Payments(None, k), Burst(rate, 2);
    PaymentsMade(None, k);
    PaymentsTotal(None, k, Blank);
    steps, m := BurstOfCalls(rate, v, Batch(ts, 0), ts, 1);
    forall t ensures Weigh(Amount, Marks(ts, t)) == k {
      AmountIsTotal(Marks(ts, t));
      MarksWeigh(ts, t, Blank);
    }
    AllMarksWeigh(Amount, ts, at, k);
    AmountIsTotal(AllMarks(ts, at));
    MarksBetween(ts, at, HOUR);
  }

  /** In every context with this rate limit, the ceilings hold over every hour of every run of such signers. */
  ghost predicate AlwaysUnder(v: Velocity, simulates: bool, rate: RateLimit) {
    forall c: Config, steps: seq<Step>, from: int ::
      c.policy.rateLimit == rate && IsRun(c, Initial(0), steps) && OnlySigners(steps, v, simulates) ==>
        UnderCeilings(v, Run(c, Initial(0), steps).history, from)
  }

  /**
   * The ceilings hold in every run, however its calls overlap, if and only if no call is ever
   * suspended past its check or the rate limit enforces each ceiling.
   */
  lemma CeilingsHoldExactly(v: Velocity, simulates: bool, rate: RateLimit)
    ensures AlwaysUnder(v, simulates, rate) <==> Enforced(v, simulates, rate)
  {
    if Enforced(v, simulates, rate) {
      forall c: Config, steps: seq<Step>, from: int |
        c.policy.rateLimit == rate && IsRun(c, Initial(0), steps) && OnlySigners(steps, v, simulates)
        ensures UnderCeilings(v, Run(c, Initial(0), steps).history, from)
      {
        CeilingsHeld(c, steps, v, simulates, from);
      }
    } else {
      var c, steps, m := Context([], rate), [], Initial(0);
      if TransactionsEnforced(v, rate) {
        steps, m := SpendExceeded(rate, v);
      } else {
        steps, m := TransactionsExceeded(rate, v);
      }
      assert !UnderCeilings(v, Run(c, Initial(0), steps).history, 0);
    }
  }
}
