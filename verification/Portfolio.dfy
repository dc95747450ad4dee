/** The portfolio time series of `portfolio-analytics.ts`: vault histories merged by epoch. */
module Portfolio {
  import opened Common
  import opened JsMaps
  import opened Addresses
  import opened Sorting

  datatype Epoch = Epoch(timestamp: int, usd: nat)

  /** A vault's budget and its spending history; `None` where it has no tracker. */
  datatype Vault = Vault(address: Address, spent24h: nat, cap: nat, history: Option<seq<Epoch>>)

  type Breakdown = seq<Entry<Address, nat>>

  datatype Row = Row(total: nat, breakdown: Breakdown)

  datatype Point = Point(timestamp: int, total: nat, breakdown: Breakdown)

  function OrEmpty(row: Option<Row>): Row {
    if row.Some? then row.value else Row(0, [])
  }

  function OrZero(usd: Option<nat>): nat {
    if usd.Some? then usd.value else 0
  }

  /** One pass of the inner loop. */
  function AddEpoch(m: seq<Entry<int, Row>>, address: Address, e: Epoch): seq<Entry<int, Row>> {
    Set(m, e.timestamp, Credit(OrEmpty(Get(m, e.timestamp)), address, e.usd))
  }

  function Credit(row: Row, address: Address, usd: nat): Row {
    Row(row.total + usd, CreditTo(row.breakdown, address, usd))
  }

  // ---- The plain ledger of all spends ---------------------------------------------------------

  datatype Spend = Spend(address: Address, epoch: Epoch)

  function Spends(address: Address, history: seq<Epoch>): seq<Spend> {
    if history == [] then []
    else Spends(address, history[..|history| - 1]) + [Spend(address, history[|history| - 1])]
  }

  function VaultSpends(v: Vault): seq<Spend> {
    if v.history.None? then [] else Spends(v.address, v.history.value)
  }

  function AllSpends(vs: seq<Vault>): seq<Spend> {
    if vs == [] then [] else AllSpends(vs[..|vs| - 1]) + VaultSpends(vs[|vs| - 1])
  }

  function Usd(s: Spend): int { s.epoch.usd }

  function UsdAt(ts: int): Spend -> int {
    (s: Spend) => if s.epoch.timestamp == ts then s.epoch.usd else 0
  }

  function UsdBy(address: Address, ts: int): Spend -> int {
    (s: Spend) => if s.address == address && s.epoch.timestamp == ts then s.epoch.usd else 0
  }

  predicate Mentions(log: seq<Spend>, ts: int) {
    exists i :: 0 <= i < |log| && log[i].epoch.timestamp == ts
  }

  function Merge(log: seq<Spend>): seq<Entry<int, Row>> {
    if log == [] then []
    else AddEpoch(Merge(log[..|log| - 1]), log[|log| - 1].address, log[|log| - 1].epoch)
  }

  lemma MergeSnoc(log: seq<Spend>, s: Spend)
    ensures Merge(log + [s]) == AddEpoch(Merge(log), s.address, s.epoch)
  {
    assert (log + [s])[..|log|] == log;
  }

  function ToPoint(e: Entry<int, Row>): Point {
    Point(e.key, e.value.total, e.value.breakdown)
  }

  function TimeOf(p: Point): int { p.timestamp }

  function PointTotal(p: Point): int { p.total }

  function Series(log: seq<Spend>): seq<Point> {
    Sort(TimeOf, Map(ToPoint, Merge(log)))
  }

  function Spent24h(v: Vault): int { v.spent24h }

  function Cap(v: Vault): int { v.cap }

  /** The inner loop: one vault's history enters the map. */
  method AddHistory(m: seq<Entry<int, Row>>, address: Address, history: seq<Epoch>, ghost before: seq<Spend>)
    returns (epochMap: seq<Entry<int, Row>>)
    requires m == Merge(before)
    ensures epochMap == Merge(before + Spends(address, history))
  {
    epochMap := m;
    assert before + Spends(address, history[..0]) == before;
    for j := 0 to |history|
      invariant epochMap == Merge(before + Spends(address, history[..j]))
    {
      var e := history[j];
      var row := OrEmpty(Get(epochMap, e.timestamp));
      row := Credit(row, address, e.usd);
      MergeStep(before, address, history, j);
      epochMap := Set(epochMap, e.timestamp, row);
    }
    assert history[..|history|] == history;
  }

  /** `getPortfolioTimeSeries`, without the utilization percentage. */
  method GetPortfolioTimeSeries(vs: seq<Vault>) returns (points: seq<Point>, totalSpend: int, totalCap: int)
    ensures points == Series(AllSpends(vs))
    ensures totalSpend == SumBy(Spent24h, vs) && totalCap == SumBy(Cap, vs)
  {
    var epochMap: seq<Entry<int, Row>> := [];
    totalSpend, totalCap := 0, 0;
    for i := 0 to |vs|
      invariant epochMap == Merge(AllSpends(vs[..i]))
      invariant totalSpend == SumBy(Spent24h, vs[..i]) && totalCap == SumBy(Cap, vs[..i])
    {
      var v := vs[i];
      assert vs[..i + 1][..i] == vs[..i];
      totalSpend, totalCap := totalSpend + v.spent24h, totalCap + v.cap;
      if v.history.None? {
        assert AllSpends(vs[..i + 1]) == AllSpends(vs[..i]);
        continue;
      }
      epochMap := AddHistory(epochMap, v.address, v.history.value, AllSpends(vs[..i]));
    }
    assert vs[..|vs|] == vs;
    points := Sort(TimeOf, Map(ToPoint, epochMap));
  }

  lemma MergeStep(before: seq<Spend>, address: Address, history: seq<Epoch>, j: nat)
    requires j < |history|
    ensures Merge(before + Spends(address, history[..j + 1]))
         == AddEpoch(Merge(before + Spends(address, history[..j])), address, history[j])
  {
    assert history[..j + 1][..j] == history[..j];
    var done := Spends(address, history[..j]);
    MergeSnoc(before + done, Spend(address, history[j]));
    assert before + (done + [Spend(address, history[j])]) == (before + done) + [Spend(address, history[j])];
  }

  // ---- What a row holds -----------------------------------------------------------------------

  function Held(e: Entry<Address, nat>): int { e.value }

  /** The row of one timestamp agrees with the ledger. */
  ghost predicate Agrees(log: seq<Spend>, ts: int, row: Row) {
    && row.total == SumBy(UsdAt(ts), log)
    && row.total == SumBy(Held, row.breakdown)
    && Distinct(row.breakdown)
    && forall a :: OrZero(Get(row.breakdown, a)) == SumBy(UsdBy(a, ts), log)
  }

  ghost predicate MapAgrees(log: seq<Spend>, m: seq<Entry<int, Row>>) {
    && Distinct(m)
    && forall ts :: Agrees(log, ts, OrEmpty(Get(m, ts))) && (Get(m, ts).Some? <==> Mentions(log, ts))
  }

  lemma CreditAgrees(log: seq<Spend>, row: Row, s: Spend)
    requires Agrees(log, s.epoch.timestamp, row)
    ensures Agrees(log + [s], s.epoch.timestamp, Credit(row, s.address, s.epoch.usd))
  {
    var ts, usd := s.epoch.timestamp, s.epoch.usd;
    SumBySnoc(UsdAt(ts), log, s);
    CreditSum(row.breakdown, s.address, usd);
    forall a ensures OrZero(Get(Credit(row, s.address, usd).breakdown, a)) == SumBy(UsdBy(a, ts), log + [s]) {
      SumBySnoc(UsdBy(a, ts), log, s);
      CreditGet(row.breakdown, s.address, usd, a);
    }
  }

  function CreditTo(b: Breakdown, address: Address, usd: nat): Breakdown {
    Set(b, address, OrZero(Get(b, address)) + usd)
  }

  lemma CreditSum(b: Breakdown, address: Address, usd: nat)
    requires Distinct(b)
    ensures Distinct(CreditTo(b, address, usd))
    ensures SumBy(Held, CreditTo(b, address, usd)) == SumBy(Held, b) + usd
  {
    SetSum(Held, b, address, OrZero(Get(b, address)) + usd);
  }

  lemma CreditGet(b: Breakdown, address: Address, usd: nat, a: Address)
    requires Distinct(b)
    ensures OrZero(Get(CreditTo(b, address, usd), a)) == OrZero(Get(b, a)) + if a == address then usd else 0
  {
    GetSet(b, address, OrZero(Get(b, address)) + usd, a);
  }

  lemma OtherAgrees(log: seq<Spend>, ts: int, row: Row, s: Spend)
    requires Agrees(log, ts, row) && s.epoch.timestamp != ts
    ensures Agrees(log + [s], ts, row)
  {
    SumBySnoc(UsdAt(ts), log, s);
    forall a ensures OrZero(Get(row.breakdown, a)) == SumBy(UsdBy(a, ts), log + [s]) {
      SumBySnoc(UsdBy(a, ts), log, s);
    }
  }

  lemma MentionsSnoc(log: seq<Spend>, s: Spend, ts: int)
    ensures Mentions(log + [s], ts) <==> Mentions(log, ts) || s.epoch.timestamp == ts
  {
    if Mentions(log, ts) {
      var i :| 0 <= i < |log| && log[i].epoch.timestamp == ts;
      assert (log + [s])[i].epoch.timestamp == ts;
    }
    assert (log + [s])[|log|] == s;
  }

  lemma AddAgrees(log: seq<Spend>, m: seq<Entry<int, Row>>, s: Spend)
    requires MapAgrees(log, m)
    ensures MapAgrees(log + [s], AddEpoch(m, s.address, s.epoch))
  {
    var key := s.epoch.timestamp;
    var row := Credit(OrEmpty(Get(m, key)), s.address, s.epoch.usd);
    var r := AddEpoch(m, s.address, s.epoch);
    forall ts
      ensures Agrees(log + [s], ts, OrEmpty(Get(r, ts))) && (Get(r, ts).Some? <==> Mentions(log + [s], ts))
    {
      GetSet(m, key, row, ts);
      MentionsSnoc(log, s, ts);
      if ts == key {
        CreditAgrees(log, OrEmpty(Get(m, key)), s);
      } else {
        OtherAgrees(log, ts, OrEmpty(Get(m, ts)), s);
      }
    }
  }

  lemma {:induction false} MergeAgrees(log: seq<Spend>)
    ensures MapAgrees(log, Merge(log))
  {
    if log == [] {
    } else {
      var init, s := log[..|log| - 1], log[|log| - 1];
      MergeAgrees(init);
      AddAgrees(init, Merge(init), s);
      assert log == init + [s];
    }
  }

  // ---- Conservation ---------------------------------------------------------------------------

  function RowTotal(e: Entry<int, Row>): int { e.value.total }

  lemma {:induction false} MergeConserves(log: seq<Spend>)
    ensures SumBy(RowTotal, Merge(log)) == SumBy(Usd, log)
  {
    if log == [] {
    } else {
      var init, s := log[..|log| - 1], log[|log| - 1];
      MergeConserves(init);
      var m, key := Merge(init), s.epoch.timestamp;
      SetSum(RowTotal, m, key, Credit(OrEmpty(Get(m, key)), s.address, s.epoch.usd));
    }
  }

  lemma {:induction false} PointTotals(m: seq<Entry<int, Row>>)
    ensures SumBy(PointTotal, Map(ToPoint, m)) == SumBy(RowTotal, m)
  {
    if m == [] {
    } else {
      PointTotals(m[..|m| - 1]);
      assert Map(ToPoint, m)[..|m| - 1] == Map(ToPoint, m[..|m| - 1]);
    }
  }

  /** The points' totals add up to everything the vaults spent. */
  lemma SeriesConserves(vs: seq<Vault>)
    ensures SumBy(PointTotal, Series(AllSpends(vs))) == SumBy(Usd, AllSpends(vs))
  {
    var log := AllSpends(vs);
    MergeConserves(log);
    PointTotals(Merge(log));
    SortSum(TimeOf, PointTotal, Map(ToPoint, Merge(log)));
  }

  lemma SeriesPoints(log: seq<Spend>)
    ensures Ascending(TimeOf, Series(log))
    ensures forall p :: p in Series(log) <==> p in Map(ToPoint, Merge(log))
  {
    MergeAgrees(log);
    var points := Map(ToPoint, Merge(log));
    assert DistinctKeys(TimeOf, points);
    SortAscending(TimeOf, points);
    SortPermutes(TimeOf, points);
    assert forall p :: p in Series(log) <==> p in multiset(Series(log));
  }

  /**
   * Timestamps come out unique and ascending; every point agrees with the ledger, in total and
   * vault by vault; and exactly the timestamps some vault reports appear.
   */
  lemma SeriesAgrees(vs: seq<Vault>)
    ensures Ascending(TimeOf, Series(AllSpends(vs)))
    ensures forall p :: p in Series(AllSpends(vs)) ==> Agrees(AllSpends(vs), p.timestamp, Row(p.total, p.breakdown))
    ensures forall ts :: Mentions(AllSpends(vs), ts) <==> exists p :: p in Series(AllSpends(vs)) && p.timestamp == ts
  {
    var log := AllSpends(vs);
    var m := Merge(log);
    MergeAgrees(log);
    SeriesPoints(log);
    forall p | p in Series(log)
      ensures Agrees(log, p.timestamp, Row(p.total, p.breakdown)) && Mentions(log, p.timestamp) {
      var i :| 0 <= i < |m| && p == ToPoint(m[i]);
      GetAt(m, i);
      assert Agrees(log, m[i].key, OrEmpty(Get(m, m[i].key)));
    }
    forall ts | Mentions(log, ts) ensures exists p :: p in Series(log) && p.timestamp == ts {
      assert Agrees(log, ts, OrEmpty(Get(m, ts)));
      var i := IndexOf(m, ts);
      assert Map(ToPoint, m)[i] in Series(log);
    }
  }
}
