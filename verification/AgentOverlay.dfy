/**
 * The per-agent spend overlay: 24 hourly slots the program clears and reuses, and the
 * history `spending-analytics.ts` reads back from them.
 */
module AgentOverlay {
  import opened Common
  import opened Modular
  import opened Numerals
  import opened Sorting
  import opened SpendTracker

  const HOUR_SECONDS := 3600
  const HOURS := 24
  const MAX_AGENTS: int := 10

  /** One agent's entry. */
  datatype Overlay = Overlay(lastWriteEpoch: int, contributions: seq<nat>)

  function HourOf(t: int): int { t / HOUR_SECONDS }

  /** Slots of the hours after `last` up to `last + gap`, set to zero. */
  function Cleared(cs: seq<nat>, last: int, gap: nat): (r: seq<nat>)
    requires |cs| == HOURS
    ensures |r| == HOURS
  {
    if gap == 0 then cs else Cleared(cs, last, gap - 1)[(last + gap) % HOURS := 0]
  }

  /** `zero_gap_buckets`. */
  function ZeroGap(o: Overlay, epoch: int): (r: seq<nat>)
    requires |o.contributions| == HOURS
    ensures |r| == HOURS
  {
    var gap := epoch - o.lastWriteEpoch;
    if gap <= 0 then o.contributions
    else if gap >= HOURS then seq(HOURS, _ => 0)
    else Cleared(o.contributions, o.lastWriteEpoch, gap)
  }

  /** `record_agent_contribution`. */
  function Contribute(o: Overlay, now: int, amount: nat): (r: Result<Overlay, Error>)
    requires |o.contributions| == HOURS
    ensures r.Ok? ==> |r.value.contributions| == HOURS
  {
    if now <= 0 then Err(InvalidSession) else
      var e := HourOf(now);
      var cs := ZeroGap(o, e);
      if cs[e % HOURS] + amount > U64_MAX then Err(Overflow)
      else Ok(Overlay(e, cs[e % HOURS := cs[e % HOURS] + amount]))
  }

  /** The entry the program updates in place; a failed call is rolled back with its transaction. */
  class AgentEntry {
    var lastWriteEpoch: int
    const contributions: array<nat>

    function View(): Overlay
      reads this, contributions
    {
      Overlay(lastWriteEpoch, contributions[..])
    }

    constructor ()
      ensures fresh(contributions) && View() == Overlay(0, seq(HOURS, _ => 0))
    {
      lastWriteEpoch := 0;
      contributions := new nat[HOURS](_ => 0);
      new;
      assert contributions[..] == seq(HOURS, _ => 0);
    }

    method ZeroGapBuckets(epoch: int)
      requires contributions.Length == HOURS
      modifies contributions
      ensures contributions[..] == ZeroGap(old(View()), epoch)
    {
      var gap := epoch - lastWriteEpoch;
      if gap <= 0 {
        return;
      }
      if gap >= HOURS {
        for i := 0 to HOURS
          invariant forall k :: 0 <= k < i ==> contributions[k] == 0
        {
          contributions[i] := 0;
        }
      } else {
        ghost var before := contributions[..];
        for offset := 1 to gap + 1
          invariant contributions[..] == Cleared(before, lastWriteEpoch, offset - 1)
        {
          contributions[(lastWriteEpoch + offset) % HOURS] := 0;
        }
      }
    }

    method RecordContribution(now: int, amount: nat) returns (r: Result<int, Error>)
      requires contributions.Length == HOURS
      modifies this, contributions
      ensures match Contribute(old(View()), now, amount)
              case Ok(o) => r == Ok(HourOf(now)) && View() == o
              case Err(e) => r == Err(e)
    {
      if now <= 0 {
        return Err(InvalidSession);
      }
      var currentEpoch := now / HOUR_SECONDS;
      ZeroGapBuckets(currentEpoch);
      var idx := currentEpoch % HOURS;
      if contributions[idx] + amount > U64_MAX {
        return Err(Overflow);
      }
      contributions[idx] := contributions[idx] + amount;
      lastWriteEpoch := currentEpoch;
      return Ok(currentEpoch);
    }
  }

  // ---- Reading ----------------------------------------------------------------------------

  datatype SpendingEpoch = SpendingEpoch(epochId: int, timestamp: int, usdAmount: nat)

  function Item(e: int, usd: nat): SpendingEpoch { SpendingEpoch(e, e * HOUR_SECONDS, usd) }

  function ByTime(s: SpendingEpoch): int { s.timestamp }

  /** What the backward loop pushes from iteration `k` on. */
  function Collect(o: Overlay, current: int, k: nat): seq<SpendingEpoch>
    requires |o.contributions| == HOURS
    decreases HOURS - k
  {
    var e := o.lastWriteEpoch - k;
    if k >= HOURS || e < 0 || e <= current - HOURS then []
    else
      var rest, c := Collect(o, current, k + 1), o.contributions[e % HOURS];
      if e > current || c == 0 then rest else [Item(e, c)] + rest
  }

  /** `getAgentSpendingHistory`; `None` where the overlay account is missing. */
  function History(entries: Option<seq<Overlay>>, slot: int, now: int): seq<SpendingEpoch>
    requires entries.Some? ==> forall i :: 0 <= i < |entries.value| ==> |entries.value[i].contributions| == HOURS
  {
    if entries.None? || slot < 0 || slot >= MAX_AGENTS || now <= 0 || slot >= |entries.value|
       || entries.value[slot].lastWriteEpoch == 0 then []
    else Sort(ByTime, Collect(entries.value[slot], HourOf(now), 0))
  }

  method GetAgentSpendingHistory(entries: Option<seq<Overlay>>, slot: int, now: int) returns (r: seq<SpendingEpoch>)
    requires entries.Some? ==> forall i :: 0 <= i < |entries.value| ==> |entries.value[i].contributions| == HOURS
    ensures r == History(entries, slot, now)
  {
    if entries.None? || slot < 0 || slot >= MAX_AGENTS || now <= 0 || slot >= |entries.value| {
      return [];
    }
    var entry := entries.value[slot];
    if entry.lastWriteEpoch == 0 {
      return [];
    }
    var currentEpoch := now / HOUR_SECONDS;
    var results: seq<SpendingEpoch> := [];
    ghost var goal := Collect(entry, currentEpoch, 0);
    var k := 0;
    while k < HOURS
      invariant 0 <= k <= HOURS && results + Collect(entry, currentEpoch, k) == goal
    {
      var e := entry.lastWriteEpoch - k;
      if e < 0 || e <= currentEpoch - HOURS {
        break;
      }
      var c := entry.contributions[e % HOURS];
      if e <= currentEpoch && c != 0 {
        results := results + [Item(e, c)];
      }
      k := k + 1;
    }
    assert results == goal;
    r := Sort(ByTime, results);
  }

  // ---- The ring reflects the ledger ---------------------------------------------------------

  /** Everything one agent spent in an hour. */
  function HourTotal(log: seq<Spend>, e: int): nat {
    if log == [] then 0 else
      var s := log[|log| - 1];
      HourTotal(log[..|log| - 1], e) + if HourOf(s.at) == e then s.amount else 0
  }

  /** Slot `e % 24` holds hour `e`, for the 24 hours up to the last write. */
  ghost predicate Reflects(o: Overlay, log: seq<Spend>) {
    && |o.contributions| == HOURS && Chronological(log)
    && o.lastWriteEpoch == HourOf(LastTime(log))
    && forall e :: o.lastWriteEpoch - HOURS < e <= o.lastWriteEpoch ==> o.contributions[e % HOURS] == HourTotal(log, e)
  }

  lemma {:induction false} OutsideIsZero(log: seq<Spend>, e: int)
    requires Chronological(log) && (e < 0 || e > HourOf(LastTime(log)))
    ensures HourTotal(log, e) == 0
  {
    if log == [] {
    } else {
      OutsideIsZero(log[..|log| - 1], e);
    }
  }

  lemma {:induction false} ClearedHit(cs: seq<nat>, last: int, gap: nat, e: int)
    requires |cs| == HOURS && last < e <= last + gap < last + HOURS
    ensures Cleared(cs, last, gap)[e % HOURS] == 0
  {
    if e < last + gap {
      ClearedHit(cs, last, gap - 1, e);
    }
  }

  lemma {:induction false} ClearedMiss(cs: seq<nat>, last: int, gap: nat, e: int)
    requires |cs| == HOURS && last + gap - HOURS < e <= last
    ensures Cleared(cs, last, gap)[e % HOURS] == cs[e % HOURS]
  {
    if gap == 0 {
    } else {
      ClearedMiss(cs, last, gap - 1, e);
      SlotsDiffer(e, last + gap, HOURS);
    }
  }

  /** Clearing the gap leaves exactly the ledger of the day that ends at the new epoch. */
  lemma GapReflects(o: Overlay, log: seq<Spend>, epoch: int, e: int)
    requires Reflects(o, log) && o.lastWriteEpoch <= epoch && epoch - HOURS < e <= epoch
    ensures ZeroGap(o, epoch)[e % HOURS] == HourTotal(log, e)
  {
    var last, gap := o.lastWriteEpoch, epoch - o.lastWriteEpoch;
    if e > last {
      OutsideIsZero(log, e);
      if gap < HOURS {
        ClearedHit(o.contributions, last, gap, e);
      }
    } else if gap > 0 {
      ClearedMiss(o.contributions, last, gap, e);
    }
  }

  lemma ContributeReflects(o: Overlay, log: seq<Spend>, now: int, amount: nat)
    requires Reflects(o, log) && LastTime(log) <= now && Contribute(o, now, amount).Ok?
    ensures Reflects(Contribute(o, now, amount).value, log + [Spend(now, amount)])
  {
    var epoch, log', o' := HourOf(now), log + [Spend(now, amount)], Contribute(o, now, amount).value;
    assert log'[..|log|] == log;
    forall e | epoch - HOURS < e <= epoch ensures o'.contributions[e % HOURS] == HourTotal(log', e) {
      GapReflects(o, log, epoch, e);
      if e < epoch {
        SlotsDiffer(e, epoch, HOURS);
      }
    }
  }

  // ---- The history is the ledger's last day ---------------------------------------------------

  /** The nonzero hours of the ledger, latest first, from `e` down to `from`. */
  function LatestFirst(log: seq<Spend>, e: int, from: int): seq<SpendingEpoch>
    decreases e - from
  {
    if e < from then [] else
      var rest := LatestFirst(log, e - 1, from);
      if HourTotal(log, e) == 0 then rest else [Item(e, HourTotal(log, e))] + rest
  }

  /** The nonzero hours of the ledger in order. */
  function InOrder(log: seq<Spend>, from: int, e: int): seq<SpendingEpoch>
    decreases e - from
  {
    if e < from then [] else
      var rest := InOrder(log, from, e - 1);
      if HourTotal(log, e) == 0 then rest else rest + [Item(e, HourTotal(log, e))]
  }

  lemma {:induction false} NothingBelowZero(log: seq<Spend>, e: int, from: int)
    requires Chronological(log) && e < 0
    ensures LatestFirst(log, e, from) == []
    decreases e - from
  {
    if e >= from {
      OutsideIsZero(log, e);
      NothingBelowZero(log, e - 1, from);
    }
  }

  lemma {:induction false} NothingAfterLast(log: seq<Spend>, e: int, from: int)
    requires Chronological(log) && HourOf(LastTime(log)) <= e
    ensures LatestFirst(log, e, from) == LatestFirst(log, HourOf(LastTime(log)), from)
    decreases e
  {
    var last := HourOf(LastTime(log));
    LastTimeNonnegative(log);
    if e > last {
      OutsideIsZero(log, e);
      NothingAfterLast(log, e - 1, from);
    }
  }

  lemma {:induction false} LastTimeNonnegative(log: seq<Spend>)
    requires Chronological(log)
    ensures LastTime(log) >= 0
  {
  }

  lemma {:induction false} CollectIsLatestFirst(o: Overlay, log: seq<Spend>, current: int, k: nat)
    requires Reflects(o, log) && o.lastWriteEpoch <= current && k <= HOURS
    ensures Collect(o, current, k) == LatestFirst(log, o.lastWriteEpoch - k, current - HOURS + 1)
    decreases HOURS - k
  {
    var e := o.lastWriteEpoch - k;
    if e < 0 {
      NothingBelowZero(log, e, current - HOURS + 1);
    } else if k < HOURS && e > current - HOURS {
      CollectIsLatestFirst(o, log, current, k + 1);
      assert o.contributions[e % HOURS] == HourTotal(log, e);
    }
  }

  lemma {:induction false} LatestFirstDescends(log: seq<Spend>, e: int, from: int)
    ensures Descending(ByTime, LatestFirst(log, e, from))
    ensures forall i :: 0 <= i < |LatestFirst(log, e, from)| ==>
              ByTime(LatestFirst(log, e, from)[i]) <= e * HOUR_SECONDS
    decreases e - from
  {
    if e >= from {
      LatestFirstDescends(log, e - 1, from);
    }
  }

  lemma {:induction false} ReverseIsInOrder(log: seq<Spend>, e: int, from: int)
    ensures Reverse(LatestFirst(log, e, from)) == InOrder(log, from, e)
    decreases e - from
  {
    if e >= from {
      ReverseIsInOrder(log, e - 1, from);
      var rest, x := LatestFirst(log, e - 1, from), Item(e, HourTotal(log, e));
      assert Reverse([x] + rest) == Reverse(rest) + [x];
    }
  }

  lemma SortedIsLastDay(o: Overlay, log: seq<Spend>, now: int)
    requires Reflects(o, log) && now > 0 && LastTime(log) <= now
    ensures Sort(ByTime, Collect(o, HourOf(now), 0)) == InOrder(log, HourOf(now) - HOURS + 1, HourOf(now))
  {
    var current := HourOf(now);
    var from := current - HOURS + 1;
    CollectIsLatestFirst(o, log, current, 0);
    NothingAfterLast(log, current, from);
    LatestFirstDescends(log, current, from);
    SortReverses(ByTime, LatestFirst(log, current, from));
    ReverseIsInOrder(log, current, from);
  }

  /**
   * The history is exactly the nonzero hours of the last day of the ledger, in order, except
   * that an entry last written in hour zero reads as one never written.
   */
  lemma HistoryIsLastDay(entries: seq<Overlay>, slot: nat, log: seq<Spend>, now: int)
    requires forall i :: 0 <= i < |entries| ==> |entries[i].contributions| == HOURS
    requires slot < |entries| && slot < MAX_AGENTS && Reflects(entries[slot], log)
    requires now > 0 && LastTime(log) <= now
    ensures History(Some(entries), slot, now)
         == if HourOf(LastTime(log)) == 0 then [] else InOrder(log, HourOf(now) - HOURS + 1, HourOf(now))
  {
    SortedIsLastDay(entries[slot], log, now);
  }

  // ---- Runs -------------------------------------------------------------------------------------

  function ContributeAll(spends: seq<Spend>): (r: Result<Overlay, Error>)
    ensures r.Ok? ==> |r.value.contributions| == HOURS
  {
    if spends == [] then Ok(Overlay(0, seq(HOURS, _ => 0))) else
      match ContributeAll(spends[..|spends| - 1])
      case Err(e) => Err(e)
      case Ok(o) => Contribute(o, spends[|spends| - 1].at, spends[|spends| - 1].amount)
  }

  /** The slot layout holds after any successful sequence of contributions. */
  lemma {:induction false} LayoutHolds(spends: seq<Spend>)
    requires Chronological(spends) && ContributeAll(spends).Ok?
    ensures Reflects(ContributeAll(spends).value, spends)
  {
    if spends == [] {
      forall e | -HOURS < e <= 0 ensures ContributeAll(spends).value.contributions[e % HOURS] == HourTotal(spends, e) {
      }
    } else {
      var init, s := spends[..|spends| - 1], spends[|spends| - 1];
      LayoutHolds(init);
      ContributeReflects(ContributeAll(init).value, init, s.at, s.amount);
      assert spends == init + [Spend(s.at, s.amount)];
    }
  }
}
