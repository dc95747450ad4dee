/**
 * Rolling windows over timestamped entries, as `ShieldState` keeps them, and the two
 * facts everything else rests on: pruning cannot be observed, and admitting only what
 * fits the current window keeps every window of that length within the limit.
 */
module ShieldWindows {
  import opened Addresses

  const DAY := 86_400_000
  const HOUR := 3_600_000
  const PRUNE_THRESHOLD: nat := 10_000

  datatype Spend = Spend(mint: Address, amount: nat, at: int)

  /** Entries stamped at or after `cutoff`. */
  function Since(s: seq<Spend>, cutoff: int): seq<Spend> {
    if s == [] then [] else
      var e := s[|s| - 1];
      if e.at >= cutoff then Since(s[..|s| - 1], cutoff) + [e] else Since(s[..|s| - 1], cutoff)
  }

  /** Entries stamped within `[from, to]`. */
  function Between(s: seq<Spend>, from: int, to: int): seq<Spend> {
    if s == [] then [] else
      var e := s[|s| - 1];
      if from <= e.at <= to then Between(s[..|s| - 1], from, to) + [e] else Between(s[..|s| - 1], from, to)
  }

  /** Amount spent in one mint. */
  function Spent(s: seq<Spend>, mint: Address): nat {
    if s == [] then 0 else
      Spent(s[..|s| - 1], mint) + if s[|s| - 1].mint == mint then s[|s| - 1].amount else 0
  }

  /** Amount spent over all mints. */
  function Total(s: seq<Spend>): nat {
    if s == [] then 0 else Total(s[..|s| - 1]) + s[|s| - 1].amount
  }

  /** Transactions stamped at or after `cutoff`. */
  function Recent(txs: seq<int>, cutoff: int): seq<int> {
    if txs == [] then [] else
      var t := txs[|txs| - 1];
      if t >= cutoff then Recent(txs[..|txs| - 1], cutoff) + [t] else Recent(txs[..|txs| - 1], cutoff)
  }

  /** Number of transactions stamped within `[from, to]`. */
  function CountBetween(txs: seq<int>, from: int, to: int): nat {
    if txs == [] then 0 else
      CountBetween(txs[..|txs| - 1], from, to) + if from <= txs[|txs| - 1] <= to then 1 else 0
  }

  // ---- Snoc and concatenation --------------------------------------------------

  lemma Snoc(s: seq<Spend>, e: Spend, c: int, b: int, m: Address)
    ensures Since(s + [e], c) == if e.at >= c then Since(s, c) + [e] else Since(s, c)
    ensures Between(s + [e], c, b) == if c <= e.at <= b then Between(s, c, b) + [e] else Between(s, c, b)
    ensures Spent(s + [e], m) == Spent(s, m) + if e.mint == m then e.amount else 0
    ensures Total(s + [e]) == Total(s) + e.amount
  {
    assert (s + [e])[..|s|] == s;
  }

  lemma {:induction false} BetweenConcat(s: seq<Spend>, u: seq<Spend>, a: int, b: int, m: Address)
    ensures Spent(Between(s + u, a, b), m) == Spent(Between(s, a, b), m) + Spent(Between(u, a, b), m)
    ensures Total(Between(s + u, a, b)) == Total(Between(s, a, b)) + Total(Between(u, a, b))
  {
    if u == [] {
      assert s + u == s;
    } else {
      var init, e := u[..|u| - 1], u[|u| - 1];
      BetweenConcat(s, init, a, b, m);
      assert s + u == (s + init) + [e] && u == init + [e];
      Snoc(s + init, e, a, b, m);
      Snoc(init, e, a, b, m);
      Snoc(Between(s + init, a, b), e, a, b, m);
      Snoc(Between(init, a, b), e, a, b, m);
    }
  }

  lemma {:induction false} SpentConcat(s: seq<Spend>, u: seq<Spend>, mint: Address)
    ensures Spent(s + u, mint) == Spent(s, mint) + Spent(u, mint)
  {
    if u == [] {
      assert s + u == s;
    } else {
      assert (s + u)[..|s + u| - 1] == s + u[..|u| - 1];
      SpentConcat(s, u[..|u| - 1], mint);
    }
  }

  lemma {:induction false} TotalConcat(s: seq<Spend>, u: seq<Spend>)
    ensures Total(s + u) == Total(s) + Total(u)
  {
    if u == [] {
      assert s + u == s;
    } else {
      assert (s + u)[..|s + u| - 1] == s + u[..|u| - 1];
      TotalConcat(s, u[..|u| - 1]);
    }
  }

  // ---- Pruning -----------------------------------------------------------------

  lemma {:induction false} SinceSince(s: seq<Spend>, c: int, d: int)
    requires c <= d
    ensures Since(Since(s, c), d) == Since(s, d)
  {
    if s == [] {
    } else {
      var init, e := s[..|s| - 1], s[|s| - 1];
      SinceSince(init, c, d);
      Snoc(Since(init, c), e, d, d, e.mint);
    }
  }

  lemma {:induction false} RecentRecent(txs: seq<int>, c: int, d: int)
    requires c <= d
    ensures Recent(Recent(txs, c), d) == Recent(txs, d)
  {
    if txs == [] {
    } else {
      var init, t := txs[..|txs| - 1], txs[|txs| - 1];
      RecentRecent(init, c, d);
      assert (Recent(init, c) + [t])[..|Recent(init, c)|] == Recent(init, c);
    }
  }

  /** A later cutoff leaves no more stamps. */
  lemma {:induction false} RecentFewer(txs: seq<int>, c: int, d: int)
    requires c <= d
    ensures |Recent(txs, d)| <= |Recent(txs, c)|
  {
    if txs == [] {
    } else {
      RecentFewer(txs[..|txs| - 1], c, d);
    }
  }

  function PruneSpends(s: seq<Spend>, now: int): seq<Spend> {
    if |s| > PRUNE_THRESHOLD then Since(s, now - DAY) else s
  }

  function PruneTxs(txs: seq<int>, now: int): seq<int> {
    if |txs| > PRUNE_THRESHOLD then Recent(txs, now - DAY) else txs
  }

  /** The kept entries answer every question about the last day as the full history does. */
  predicate Faithful(kept: seq<Spend>, full: seq<Spend>, clock: int) {
    Since(kept, clock - DAY) == Since(full, clock - DAY)
  }

  predicate FaithfulTxs(kept: seq<int>, full: seq<int>, clock: int) {
    Recent(kept, clock - DAY) == Recent(full, clock - DAY)
  }

  /** Faithfulness covers every window of at most a day, now and at every later time. */
  lemma FaithfulLater(kept: seq<Spend>, full: seq<Spend>, clock: int, cutoff: int)
    requires Faithful(kept, full, clock) && clock - DAY <= cutoff
    ensures Since(kept, cutoff) == Since(full, cutoff)
  {
    SinceSince(kept, clock - DAY, cutoff);
    SinceSince(full, clock - DAY, cutoff);
  }

  lemma FaithfulTxsLater(kept: seq<int>, full: seq<int>, clock: int, cutoff: int)
    requires FaithfulTxs(kept, full, clock) && clock - DAY <= cutoff
    ensures Recent(kept, cutoff) == Recent(full, cutoff)
  {
    RecentRecent(kept, clock - DAY, cutoff);
    RecentRecent(full, clock - DAY, cutoff);
  }

  lemma FaithfulPush(kept: seq<Spend>, full: seq<Spend>, clock: int, e: Spend, now: int)
    requires Faithful(kept, full, clock) && clock <= now
    ensures Faithful(kept + [e], full + [e], now)
  {
    FaithfulLater(kept, full, clock, now - DAY);
    Snoc(kept, e, now - DAY, now, e.mint);
    Snoc(full, e, now - DAY, now, e.mint);
  }

  lemma FaithfulPushTx(kept: seq<int>, full: seq<int>, clock: int, t: int, now: int)
    requires FaithfulTxs(kept, full, clock) && clock <= now
    ensures FaithfulTxs(kept + [t], full + [t], now)
  {
    FaithfulTxsLater(kept, full, clock, now - DAY);
    assert (kept + [t])[..|kept|] == kept && (full + [t])[..|full|] == full;
  }

  lemma FaithfulPrune(kept: seq<Spend>, full: seq<Spend>, clock: int, now: int)
    requires Faithful(kept, full, clock) && clock <= now
    ensures Faithful(PruneSpends(kept, now), full, now)
  {
    FaithfulLater(kept, full, clock, now - DAY);
    SinceSince(kept, now - DAY, now - DAY);
  }

  lemma FaithfulPruneTxs(kept: seq<int>, full: seq<int>, clock: int, now: int)
    requires FaithfulTxs(kept, full, clock) && clock <= now
    ensures FaithfulTxs(PruneTxs(kept, now), full, now)
  {
    FaithfulTxsLater(kept, full, clock, now - DAY);
    RecentRecent(kept, now - DAY, now - DAY);
  }

  // ---- Window limits -----------------------------------------------------------

  /** A limit below zero admits nothing, so it bounds spending by zero. */
  function Ceiling(limit: int): nat {
    if limit < 0 then 0 else limit
  }

  function SpentWindow(s: seq<Spend>, mint: Address, from: int, window: int): nat {
    Spent(Between(s, from, from + window), mint)
  }

  function TotalWindow(s: seq<Spend>, from: int, window: int): nat {
    Total(Between(s, from, from + window))
  }

  function CountWindow(txs: seq<int>, from: int, window: int): nat {
    CountBetween(txs, from, from + window)
  }

  /** Every interval of length `window` holds at most `limit` of `mint`. */
  ghost predicate Bounded(s: seq<Spend>, mint: Address, window: int, limit: int) {
    forall a :: SpentWindow(s, mint, a, window) <= Ceiling(limit)
  }

  ghost predicate TotalBounded(s: seq<Spend>, window: int, limit: int) {
    forall a :: TotalWindow(s, a, window) <= Ceiling(limit)
  }

  ghost predicate CountBounded(txs: seq<int>, window: int, limit: int) {
    forall a :: CountWindow(txs, a, window) <= Ceiling(limit)
  }

  lemma {:induction false} BetweenWithinSince(s: seq<Spend>, a: int, b: int, c: int, m: Address)
    requires c <= a
    ensures Spent(Between(s, a, b), m) <= Spent(Since(s, c), m)
    ensures Total(Between(s, a, b)) <= Total(Since(s, c))
  {
    if s == [] {
    } else {
      var init, e := s[..|s| - 1], s[|s| - 1];
      BetweenWithinSince(init, a, b, c, m);
      Snoc(Between(init, a, b), e, a, b, m);
      Snoc(Since(init, c), e, a, b, m);
    }
  }

  lemma {:induction false} BetweenWithinAll(s: seq<Spend>, a: int, b: int, m: Address)
    ensures Spent(Between(s, a, b), m) <= Spent(s, m)
    ensures Total(Between(s, a, b)) <= Total(s)
    ensures (forall e :: e in s ==> e.at < a || e.at > b) ==> Between(s, a, b) == []
  {
    if s == [] {
    } else {
      var init, e := s[..|s| - 1], s[|s| - 1];
      BetweenWithinAll(init, a, b, m);
      Snoc(Between(init, a, b), e, a, b, m);
    }
  }

  /**
   * The heart of the window argument: entries stamped no earlier than the check at
   * `now`, and fitting what that check saw, leave every interval within the limit.
   */
  lemma WindowStep(s: seq<Spend>, added: seq<Spend>, m: Address, window: int, limit: int, now: int)
    requires Bounded(s, m, window, limit)
    requires forall e :: e in added ==> now <= e.at
    requires Spent(Since(s, now - window), m) + Spent(added, m) <= limit
    ensures Bounded(s + added, m, window, limit)
  {
    forall a ensures SpentWindow(s + added, m, a, window) <= Ceiling(limit) {
      assert SpentWindow(s, m, a, window) <= Ceiling(limit);
      BetweenConcat(s, added, a, a + window, m);
      BetweenWithinAll(added, a, a + window, m);
      if a >= now - window {
        BetweenWithinSince(s, a, a + window, now - window, m);
      }
    }
  }

  lemma TotalStep(s: seq<Spend>, added: seq<Spend>, window: int, limit: int, now: int)
    requires TotalBounded(s, window, limit)
    requires forall e :: e in added ==> now <= e.at
    requires Total(Since(s, now - window)) + Total(added) <= limit
    ensures TotalBounded(s + added, window, limit)
  {
    forall a ensures TotalWindow(s + added, a, window) <= Ceiling(limit) {
      assert TotalWindow(s, a, window) <= Ceiling(limit);
      BetweenConcat(s, added, a, a + window, Blank);
      BetweenWithinAll(added, a, a + window, Blank);
      if a >= now - window {
        BetweenWithinSince(s, a, a + window, now - window, Blank);
      }
    }
  }

  lemma {:induction false} CountWithinRecent(txs: seq<int>, a: int, b: int, c: int)
    requires c <= a
    ensures CountBetween(txs, a, b) <= |Recent(txs, c)|
  {
    if txs == [] {
    } else {
      CountWithinRecent(txs[..|txs| - 1], a, b, c);
    }
  }

  lemma CountStep(txs: seq<int>, t: int, window: int, limit: int, now: int)
    requires CountBounded(txs, window, limit) && now <= t
    requires |Recent(txs, now - window)| < limit
    ensures CountBounded(txs + [t], window, limit)
  {
    forall a ensures CountWindow(txs + [t], a, window) <= Ceiling(limit) {
      assert CountWindow(txs, a, window) <= Ceiling(limit);
      assert (txs + [t])[..|txs|] == txs;
      if a >= now - window {
        CountWithinRecent(txs, a, a + window, now - window);
      }
    }
  }
}
