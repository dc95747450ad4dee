/** The snapshot store of `balance-tracker.ts` and its JSON form. */
module BalanceStore {
  import opened Common
  import opened JsMaps
  import opened Addresses
  import opened Decimal

  datatype TokenBalance = TokenBalance(mint: Address, balance: int, symbol: string, decimals: nat)

  type Balances = seq<TokenBalance>

  datatype Snap = Snap(timestamp: int, balances: Balances)

  type Snapshots = seq<Entry<int, Balances>>

  /** The fields of a store. */
  datatype Contents = Contents(baseline: Option<Snap>, maxEntries: nat, snapshots: Snapshots, ordered: seq<int>)

  function Delete(m: Snapshots, k: int): Snapshots {
    var i := IndexOf(m, k);
    if i < |m| then m[..i] + m[i + 1..] else m
  }

  /** Shift timestamps off the front, deleting their snapshots, until `max` remain. */
  function Trim(m: Snapshots, ordered: seq<int>, max: nat): (Snapshots, seq<int>)
    decreases |ordered|
  {
    if |ordered| > max then Trim(Delete(m, ordered[0]), ordered[1..], max) else (m, ordered)
  }

  function Empty(max: nat): Contents {
    Contents(None, max, [], [])
  }

  function Take(c: Contents, ts: int, balances: Balances): Contents {
    var c' := if c.baseline.None? then c.(baseline := Some(Snap(ts, balances))) else c;
    var m := Set(c.snapshots, ts, balances);
    if Has(c.snapshots, ts) then c'.(snapshots := m) else
      var (m', ordered) := Trim(m, c.ordered + [ts], c.maxEntries);
      c'.(snapshots := m', ordered := ordered)
  }

  /** `getFirst` and `getLatest`: `None` for null, an inner `None` where the map has lost the timestamp. */
  function First(c: Contents): Option<(int, Option<Balances>)> {
    if c.ordered == [] then None else Some((c.ordered[0], Get(c.snapshots, c.ordered[0])))
  }

  function Latest(c: Contents): Option<(int, Option<Balances>)> {
    if c.ordered == [] then None else
      var ts := c.ordered[|c.ordered| - 1];
      Some((ts, Get(c.snapshots, ts)))
  }

  // ---- JSON ---------------------------------------------------------------------------

  datatype JsonBalance = JsonBalance(mint: Address, balance: string, symbol: string, decimals: nat)
  datatype JsonSnap = JsonSnap(timestamp: string, balances: seq<JsonBalance>)
  datatype Json = Json(baseline: Option<JsonSnap>, snapshots: seq<JsonSnap>, maxEntries: Option<nat>)

  function SafeBigInt(s: string): int {
    if Read(s).Some? then Read(s).value else 0
  }

  function WriteBalance(b: TokenBalance): JsonBalance {
    JsonBalance(b.mint, Show(b.balance), b.symbol, b.decimals)
  }

  function ReadBalance(j: JsonBalance): TokenBalance {
    TokenBalance(j.mint, SafeBigInt(j.balance), j.symbol, j.decimals)
  }

  function WriteSnap(ts: int, balances: Balances): JsonSnap {
    JsonSnap(Show(ts), Map(b => WriteBalance(b), balances))
  }

  function ReadSnap(j: JsonSnap): Snap {
    Snap(SafeBigInt(j.timestamp), Map(b => ReadBalance(b), j.balances))
  }

  function WriteSnaps(m: Snapshots): (js: seq<JsonSnap>)
    ensures |js| == |m| && forall i :: 0 <= i < |m| ==> js[i] == WriteSnap(m[i].key, m[i].value)
  {
    seq(|m|, i requires 0 <= i < |m| => WriteSnap(m[i].key, m[i].value))
  }

  function ReadSnaps(js: seq<JsonSnap>): (ss: seq<Snap>)
    ensures |ss| == |js| && forall i :: 0 <= i < |js| ==> ss[i] == ReadSnap(js[i])
  {
    seq(|js|, i requires 0 <= i < |js| => ReadSnap(js[i]))
  }

  function Timestamps(ss: seq<Snap>): (ts: seq<int>)
    ensures |ts| == |ss| && forall i :: 0 <= i < |ss| ==> ts[i] == ss[i].timestamp
  {
    seq(|ss|, i requires 0 <= i < |ss| => ss[i].timestamp)
  }

  /** `toJSON`: the snapshots in the order of the map, not of the timestamp list. */
  function ToJson(c: Contents): Json {
    Json(if c.baseline.Some? then Some(WriteSnap(c.baseline.value.timestamp, c.baseline.value.balances)) else None,
         WriteSnaps(c.snapshots),
         Some(c.maxEntries))
  }

  function SetAll(ss: seq<Snap>): Snapshots {
    if ss == [] then [] else
      Set(SetAll(ss[..|ss| - 1]), ss[|ss| - 1].timestamp, ss[|ss| - 1].balances)
  }

  function FromJson(j: Json): Contents {
    var ss := ReadSnaps(j.snapshots);
    Contents(if j.baseline.Some? then Some(ReadSnap(j.baseline.value)) else None,
             if j.maxEntries.Some? then j.maxEntries.value else 144,
             SetAll(ss), Timestamps(ss))
  }

  // ---- The object -----------------------------------------------------------------------

  class BalanceSnapshotStore {
    var baseline: Option<Snap>
    const maxEntries: nat
    var snapshots: Snapshots
    var orderedTimestamps: seq<int>

    function View(): Contents
      reads this
    {
      Contents(baseline, maxEntries, snapshots, orderedTimestamps)
    }

    constructor (maxEntries: nat)
      ensures View() == Empty(maxEntries)
    {
      baseline, this.maxEntries, snapshots, orderedTimestamps := None, maxEntries, [], [];
    }

    /** `fromJSON` restores entry by entry, without evicting. */
    constructor FromJSON(j: Json)
      ensures View() == FromJson(j)
    {
      maxEntries := if j.maxEntries.Some? then j.maxEntries.value else 144;
      baseline := if j.baseline.Some? then Some(ReadSnap(j.baseline.value)) else None;
      snapshots, orderedTimestamps := [], [];
      new;
      ghost var first, ss := baseline, ReadSnaps(j.snapshots);
      for i := 0 to |j.snapshots|
        invariant baseline == first
        invariant snapshots == SetAll(ss[..i]) && orderedTimestamps == Timestamps(ss[..i])
      {
        var s := ReadSnap(j.snapshots[i]);
        assert ss[i] == s && ss[..i + 1][..i] == ss[..i];
        assert Timestamps(ss[..i + 1]) == Timestamps(ss[..i]) + [s.timestamp];
        snapshots := Set(snapshots, s.timestamp, s.balances);
        orderedTimestamps := orderedTimestamps + [s.timestamp];
      }
      assert ss[..|j.snapshots|] == ss;
    }

    method Snapshot(ts: int, balances: Balances)
      modifies this
      ensures View() == Take(old(View()), ts, balances)
    {
      if baseline.None? {
        baseline := Some(Snap(ts, balances));
      }
      if Has(snapshots, ts) {
        snapshots := Set(snapshots, ts, balances);
        return;
      }
      snapshots := Set(snapshots, ts, balances);
      orderedTimestamps := orderedTimestamps + [ts];
      ghost var goal, kept := Trim(snapshots, orderedTimestamps, maxEntries), baseline;
      while |orderedTimestamps| > maxEntries
        invariant Trim(snapshots, orderedTimestamps, maxEntries) == goal && baseline == kept
        decreases |orderedTimestamps|
      {
        var oldest := orderedTimestamps[0];
        orderedTimestamps := orderedTimestamps[1..];
        snapshots := Delete(snapshots, oldest);
      }
    }

    method Clear()
      modifies this
      ensures View() == Empty(maxEntries)
    {
      baseline, snapshots, orderedTimestamps := None, [], [];
    }

    /** `toJSON`; restoring the result gives this store back if its map and timestamp list agree. */
    method ToJSON() returns (j: Json)
      ensures j == ToJson(View())
      ensures Consistent(View()) ==> FromJson(j) == View()
    {
      var first := None;
      if baseline.Some? {
        var snap := WriteOne(baseline.value.timestamp, baseline.value.balances);
        first := Some(snap);
      }
      var written := WriteAll(snapshots);
      j := Json(first, written, Some(maxEntries));
      if Consistent(View()) {
        RestoresConsistent(View());
      }
    }
  }

  /** The mapping of the map's entries. */
  method WriteAll(m: Snapshots) returns (written: seq<JsonSnap>)
    ensures written == WriteSnaps(m)
  {
    written := [];
    for i := 0 to |m|
      invariant |written| == i && forall k :: 0 <= k < i ==> written[k] == WriteSnap(m[k].key, m[k].value)
    {
      var snap := WriteOne(m[i].key, m[i].value);
      written := written + [snap];
    }
  }

  /** The inner mapping of one snapshot's balances. */
  method WriteOne(ts: int, balances: Balances) returns (snap: JsonSnap)
    ensures snap == WriteSnap(ts, balances)
  {
    var written: seq<JsonBalance> := [];
    for i := 0 to |balances|
      invariant |written| == i && forall k :: 0 <= k < i ==> written[k] == WriteBalance(balances[k])
    {
      written := written + [WriteBalance(balances[i])];
    }
    snap := JsonSnap(Show(ts), written);
    assert written == WriteSnap(ts, balances).balances;
  }

  // ---- Runs -------------------------------------------------------------------------------

  datatype Op = Snapshot(timestamp: int, balances: Balances) | Clear

  function Step(c: Contents, op: Op): Contents {
    match op
    case Snapshot(ts, b) => Take(c, ts, b)
    case Clear => Empty(c.maxEntries)
  }

  function Run(max: nat, ops: seq<Op>): Contents {
    if ops == [] then Empty(max) else Step(Run(max, ops[..|ops| - 1]), ops[|ops| - 1])
  }

  /**
   * The unbounded reference: the first snapshot ever, every fresh insertion in order,
   * and the newest balances of every timestamp. Nothing is ever dropped from it.
   */
  datatype Log = Log(first: Option<Snap>, inserted: seq<int>, newest: map<int, Balances>)

  function Suffix(s: seq<int>, n: nat): seq<int> {
    if |s| <= n then s else s[|s| - n..]
  }

  /** A timestamp is fresh when it is not among the last `max` fresh ones. */
  function LogStep(l: Log, max: nat, op: Op): Log {
    match op
    case Clear => Log(None, [], map[])
    case Snapshot(ts, b) =>
      Log(if l.first.None? then Some(Snap(ts, b)) else l.first,
          if ts in Suffix(l.inserted, max) then l.inserted else l.inserted + [ts],
          l.newest[ts := b])
  }

  function RunLog(max: nat, ops: seq<Op>): Log {
    if ops == [] then Log(None, [], map[]) else LogStep(RunLog(max, ops[..|ops| - 1]), max, ops[|ops| - 1])
  }

  /** The store is the window of the log: same order in both structures, newest values. */
  predicate Reflects(c: Contents, l: Log, max: nat) {
    && c.maxEntries == max && c.baseline == l.first
    && Distinct(c.snapshots) && Keys(c.snapshots) == c.ordered
    && c.ordered == Suffix(l.inserted, max)
    && forall i :: 0 <= i < |c.snapshots| ==>
         c.snapshots[i].key in l.newest && c.snapshots[i].value == l.newest[c.snapshots[i].key]
  }

  lemma DeleteFirst(m: Snapshots)
    requires m != [] && Distinct(m)
    ensures Delete(m, m[0].key) == m[1..]
  {
    GetAt(m, 0);
    assert m[..0] + m[1..] == m[1..];
  }

  lemma TrimOne(m: Snapshots, ordered: seq<int>, max: nat)
    requires Distinct(m) && Keys(m) == ordered && |ordered| <= max + 1
    ensures Trim(m, ordered, max) == if |ordered| > max then (m[1..], ordered[1..]) else (m, ordered)
  {
    if |ordered| > max {
      DeleteFirst(m);
      assert ordered[0] == m[0].key;
    }
  }

  lemma KeyPresent(m: Snapshots, ts: int)
    ensures Has(m, ts) <==> ts in Keys(m)
  {
    if Has(m, ts) {
      assert Keys(m)[IndexOf(m, ts)] == ts;
    } else {
      assert forall i :: 0 <= i < |m| ==> Keys(m)[i] != ts;
    }
  }

  lemma UpdateReflects(c: Contents, l: Log, max: nat, ts: int, b: Balances)
    requires Reflects(c, l, max) && Has(c.snapshots, ts)
    ensures Reflects(Take(c, ts, b), LogStep(l, max, Snapshot(ts, b)), max)
  {
    KeyPresent(c.snapshots, ts);
    var i, m := IndexOf(c.snapshots, ts), Set(c.snapshots, ts, b);
    assert m[i] == Entry(ts, b) && Keys(m) == c.ordered;
    forall k | 0 <= k < |m| && k != i ensures m[k] == c.snapshots[k] && m[k].key != ts {
      GetAt(c.snapshots, k);
    }
  }

  /** What a fresh insertion does to a consistent store: append, then drop the oldest if full. */
  lemma TakeFresh(c: Contents, ts: int, b: Balances)
    requires Distinct(c.snapshots) && Keys(c.snapshots) == c.ordered && |c.ordered| <= c.maxEntries
    requires !Has(c.snapshots, ts)
    ensures var d := if |c.ordered| == c.maxEntries then 1 else 0;
            && Take(c, ts, b).snapshots == (c.snapshots + [Entry(ts, b)])[d..]
            && Take(c, ts, b).ordered == (c.ordered + [ts])[d..]
  {
    var m := c.snapshots + [Entry(ts, b)];
    assert Set(c.snapshots, ts, b) == m && Keys(m) == c.ordered + [ts];
    TrimOne(m, c.ordered + [ts], c.maxEntries);
  }

  lemma DropReflects(m: Snapshots, d: nat)
    requires Distinct(m) && d <= |m|
    ensures Distinct(m[d..]) && Keys(m[d..]) == Keys(m)[d..]
  {
  }

  lemma FreshReflects(c: Contents, l: Log, max: nat, ts: int, b: Balances)
    requires Reflects(c, l, max) && !Has(c.snapshots, ts)
    ensures Reflects(Take(c, ts, b), LogStep(l, max, Snapshot(ts, b)), max)
  {
    KeyPresent(c.snapshots, ts);
    TakeFresh(c, ts, b);
    SuffixSnoc(l.inserted, ts, max);
    var m := c.snapshots + [Entry(ts, b)];
    assert Keys(m) == c.ordered + [ts];
    DropReflects(m, if |c.ordered| == max then 1 else 0);
  }

  lemma SuffixSnoc(s: seq<int>, x: int, n: nat)
    ensures |Suffix(s, n)| <= n
    ensures Suffix(s + [x], n) == (Suffix(s, n) + [x])[if |Suffix(s, n)| == n then 1 else 0..]
  {
  }

  /** After every run of operations the store shows exactly the log's window. */
  lemma {:induction false} RunReflectsLog(max: nat, ops: seq<Op>)
    ensures Reflects(Run(max, ops), RunLog(max, ops), max)
  {
    if ops == [] {
    } else {
      var init, op := ops[..|ops| - 1], ops[|ops| - 1];
      RunReflectsLog(max, init);
      var c, l := Run(max, init), RunLog(max, init);
      match op
      case Clear =>
      case Snapshot(ts, b) =>
        if Has(c.snapshots, ts) {
          UpdateReflects(c, l, max, ts, b);
        } else {
          FreshReflects(c, l, max, ts, b);
        }
    }
  }

  // ---- Round trip ---------------------------------------------------------------------------

  lemma BalancesRoundTrip(balances: Balances)
    ensures Map(j => ReadBalance(j), Map(b => WriteBalance(b), balances)) == balances
  {
    forall i | 0 <= i < |balances| ensures ReadBalance(WriteBalance(balances[i])) == balances[i] {
      ReadShow(balances[i].balance);
    }
  }

  lemma SnapRoundTrip(ts: int, balances: Balances)
    ensures ReadSnap(WriteSnap(ts, balances)) == Snap(ts, balances)
  {
    ReadShow(ts);
    BalancesRoundTrip(balances);
  }

  function AsSnaps(m: Snapshots): (ss: seq<Snap>)
    ensures |ss| == |m| && forall i :: 0 <= i < |m| ==> ss[i] == Snap(m[i].key, m[i].value)
  {
    seq(|m|, i requires 0 <= i < |m| => Snap(m[i].key, m[i].value))
  }

  lemma SnapsRoundTrip(m: Snapshots)
    ensures ReadSnaps(WriteSnaps(m)) == AsSnaps(m)
  {
    forall i | 0 <= i < |m| ensures ReadSnaps(WriteSnaps(m))[i] == AsSnaps(m)[i] {
      SnapRoundTrip(m[i].key, m[i].value);
    }
  }

  lemma {:induction false} SetAllRestores(m: Snapshots)
    requires Distinct(m)
    ensures SetAll(AsSnaps(m)) == m
  {
    if m == [] {
    } else {
      var n := |m| - 1;
      assert AsSnaps(m)[..n] == AsSnaps(m[..n]);
      SetAllRestores(m[..n]);
      assert !Has(m[..n], m[n].key);
      assert m == m[..n] + [m[n]];
    }
  }

  /**
   * The readers never find a hole: the latest snapshot is the last fresh timestamp and the first
   * one the oldest still in the window, each with its newest balances.
   */
  lemma ReadersSeeWindow(max: nat, ops: seq<Op>)
    ensures var c, l := Run(max, ops), RunLog(max, ops);
            var window := Suffix(l.inserted, max);
            && (window == [] ==> First(c).None? && Latest(c).None?)
            && (window != [] ==>
                  && window[0] in l.newest && window[|window| - 1] in l.newest
                  && First(c) == Some((window[0], Some(l.newest[window[0]])))
                  && Latest(c) == Some((window[|window| - 1], Some(l.newest[window[|window| - 1]]))))
  {
    RunReflectsLog(max, ops);
    var c := Run(max, ops);
    if c.ordered != [] {
      GetAt(c.snapshots, 0);
      GetAt(c.snapshots, |c.snapshots| - 1);
      assert Keys(c.snapshots)[0] == c.ordered[0] && Keys(c.snapshots)[|c.ordered| - 1] == c.ordered[|c.ordered| - 1];
    }
  }

  /** The map and the timestamp list hold the same timestamps in the same order. */
  predicate Consistent(c: Contents) {
    Distinct(c.snapshots) && Keys(c.snapshots) == c.ordered
  }

  lemma RestoresConsistent(c: Contents)
    requires Consistent(c)
    ensures FromJson(ToJson(c)) == c
  {
    SnapsRoundTrip(c.snapshots);
    SetAllRestores(c.snapshots);
    assert Timestamps(AsSnaps(c.snapshots)) == Keys(c.snapshots);
    if c.baseline.Some? {
      SnapRoundTrip(c.baseline.value.timestamp, c.baseline.value.balances);
    }
  }

  /** Serialising and restoring after any run gives the same store, so the same future. */
  lemma JsonRoundTrip(max: nat, ops: seq<Op>)
    ensures FromJson(ToJson(Run(max, ops))) == Run(max, ops)
  {
    RunReflectsLog(max, ops);
    RestoresConsistent(Run(max, ops));
  }

  function RunFrom(c: Contents, ops: seq<Op>): Contents {
    if ops == [] then c else Step(RunFrom(c, ops[..|ops| - 1]), ops[|ops| - 1])
  }

  /** Restoring between two runs is the same as not having stopped. */
  lemma {:induction false} RestoreThenContinue(max: nat, before: seq<Op>, after: seq<Op>)
    ensures RunFrom(FromJson(ToJson(Run(max, before))), after) == Run(max, before + after)
  {
    if after == [] {
      assert before + after == before;
      JsonRoundTrip(max, before);
    } else {
      var init := after[..|after| - 1];
      RestoreThenContinue(max, before, init);
      assert (before + after)[..|before + after| - 1] == before + init;
    }
  }
}
