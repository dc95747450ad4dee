/**
 * The lookup-table cache of `alt-loader.ts`. `resolve` is suspended while the chain is
 * asked, so calls overlap; a run interleaves the parts before and after that `await`
 * with reads and invalidations in any order.
 */
module AltCache {
  import opened Common
  import opened JsMaps
  import opened Addresses

  type Table = seq<Address>

  /** A cached table, as the one-entry object the source stores. */
  datatype CacheEntry = CacheEntry(data: map<Address, Table>, expiresAt: int)

  type Cache = seq<Entry<Address, CacheEntry>>

  function AsMap(fetched: seq<Entry<Address, Table>>): map<Address, Table> {
    if fetched == [] then map[] else
      AsMap(fetched[..|fetched| - 1])[fetched[|fetched| - 1].key := fetched[|fetched| - 1].value]
  }

  predicate Live(e: Option<CacheEntry>, now: int) {
    e.Some? && e.value.expiresAt > now
  }

  /** What the cache answers at once. */
  function Cached(cache: Cache, addrs: seq<Address>, now: int): map<Address, Table> {
    if addrs == [] then map[] else
      var rest, e := Cached(cache, addrs[..|addrs| - 1], now), Get(cache, addrs[|addrs| - 1]);
      if Live(e, now) then rest + e.value.data else rest
  }

  /** What has to be fetched. */
  function Uncached(cache: Cache, addrs: seq<Address>, now: int): seq<Address> {
    if addrs == [] then [] else
      var rest, a := Uncached(cache, addrs[..|addrs| - 1], now), addrs[|addrs| - 1];
      if Live(Get(cache, a), now) then rest else rest + [a]
  }

  function Store(cache: Cache, fetched: seq<Entry<Address, Table>>, expiresAt: int): Cache {
    if fetched == [] then cache else
      var f := fetched[|fetched| - 1];
      Set(Store(cache, fetched[..|fetched| - 1], expiresAt), f.key, CacheEntry(map[f.key := f.value], expiresAt))
  }

  /** Drop entries from the front until `maxSize` remain. */
  function Evict(cache: Cache, maxSize: int): Cache
    decreases |cache|
  {
    if |cache| > maxSize && |cache| > 0 then Evict(cache[1..], maxSize) else cache
  }

  /** `getCachedAddresses`. */
  function Read(cache: Cache, a: Address, now: int): Option<Table> {
    var e := Get(cache, a);
    if Live(e, now) && a in e.value.data then Some(e.value.data[a]) else None
  }

  // ---- The object -------------------------------------------------------------------

  class Loader {
    var cache: Cache
    const ttlMs: int
    const maxSize: int

    constructor (ttlMs: Option<int>, maxSize: Option<int>)
      ensures cache == []
      ensures this.ttlMs == (if ttlMs.Some? then ttlMs.value else 300_000)
      ensures this.maxSize == (if maxSize.Some? then maxSize.value else 50)
    {
      cache := [];
      this.ttlMs := if ttlMs.Some? then ttlMs.value else 300_000;
      this.maxSize := if maxSize.Some? then maxSize.value else 50;
    }

    /** `resolve` up to the `await`. */
    method Begin(addrs: seq<Address>, now: int) returns (result: map<Address, Table>, uncached: seq<Address>)
      ensures result == Cached(cache, addrs, now) && uncached == Uncached(cache, addrs, now)
    {
      result, uncached := map[], [];
      for i := 0 to |addrs|
        invariant result == Cached(cache, addrs[..i], now)
        invariant uncached == Uncached(cache, addrs[..i], now)
      {
        assert addrs[..i + 1][..i] == addrs[..i];
        var e := Get(cache, addrs[i]);
        if e.Some? && e.value.expiresAt > now {
          result := result + e.value.data;
        } else {
          uncached := uncached + [addrs[i]];
        }
      }
      assert addrs[..|addrs|] == addrs;
    }

    /** `resolve` after a successful fetch that started at `now`. */
    method Finish(result: map<Address, Table>, fetched: seq<Entry<Address, Table>>, now: int)
      returns (r: map<Address, Table>)
      modifies this
      ensures cache == Evict(Store(old(cache), fetched, now + ttlMs), maxSize)
      ensures r == result + AsMap(fetched)
    {
      var merged: map<Address, Table> := map[];
      for i := 0 to |fetched|
        invariant cache == Store(old(cache), fetched[..i], now + ttlMs)
        invariant merged == AsMap(fetched[..i])
      {
        assert fetched[..i + 1][..i] == fetched[..i];
        var f := fetched[i];
        cache := Set(cache, f.key, CacheEntry(map[f.key := f.value], now + ttlMs));
        merged := merged[f.key := f.value];
      }
      assert fetched[..|fetched|] == fetched;
      ghost var stored := cache;
      while |cache| > maxSize && |cache| > 0
        invariant Evict(cache, maxSize) == Evict(stored, maxSize)
        decreases |cache|
      {
        cache := cache[1..];
      }
      r := result + merged;
    }

    method GetCachedAddresses(a: Address, now: int) returns (r: Option<Table>)
      ensures r == Read(cache, a, now)
    {
      var e := Get(cache, a);
      if e.None? || e.value.expiresAt <= now {
        return None;
      }
      return if a in e.value.data then Some(e.value.data[a]) else None;
    }

    method Invalidate()
      modifies this
      ensures cache == []
    {
      cache := [];
    }
  }

  // ---- Runs ---------------------------------------------------------------------------

  /** The contents of a table on chain at a moment. */
  type Chain = (Address, int) -> Table

  datatype Call =
    | Waiting(startedAt: int, requested: seq<Address>, result: map<Address, Table>, uncached: seq<Address>)
    | Returned(startedAt: int, requested: seq<Address>, result: map<Address, Table>, returnedAt: int)

  datatype Machine = Machine(cache: Cache, clock: int, calls: seq<Call>)

  datatype Settings = Settings(ttlMs: int, maxSize: int)

  datatype Step =
    | Resolve(requested: seq<Address>, now: int)
    | Fetched(call: nat, response: seq<Entry<Address, Table>>, now: int)
    | FetchFailed(call: nat, now: int)
    | Invalidate

  /** `v` was table `k` on chain at some moment of `[from, to]`. */
  ghost predicate Seen(chain: Chain, k: Address, v: Table, from: int, to: int) {
    exists t: int :: SeenAt(chain, k, v, t) && from <= t <= to
  }

  predicate SeenAt(chain: Chain, k: Address, v: Table, t: int) {
    chain(k, t) == v
  }

  /** A response holds distinct requested tables, each as the chain had it while it was being asked. */
  ghost predicate Genuine(chain: Chain, call: Call, response: seq<Entry<Address, Table>>, now: int)
    requires call.Waiting?
  {
    && Distinct(response)
    && forall i :: 0 <= i < |response| ==>
         response[i].key in call.uncached && Seen(chain, response[i].key, response[i].value, call.startedAt, now)
  }

  ghost predicate Enabled(chain: Chain, m: Machine, s: Step) {
    match s
    case Resolve(_, now) => m.clock <= now
    case Fetched(i, response, now) =>
      m.clock <= now && i < |m.calls| && m.calls[i].Waiting? && Genuine(chain, m.calls[i], response, now)
    case FetchFailed(i, now) => m.clock <= now && i < |m.calls| && m.calls[i].Waiting?
    case Invalidate => true
  }

  function Answer(m: Machine, requested: seq<Address>, now: int): Call {
    var result, uncached := Cached(m.cache, requested, now), Uncached(m.cache, requested, now);
    if uncached == [] then Returned(now, requested, result, now) else Waiting(now, requested, result, uncached)
  }

  function Apply(o: Settings, m: Machine, s: Step): Machine
    requires (s.Fetched? || s.FetchFailed?) ==> s.call < |m.calls| && m.calls[s.call].Waiting?
  {
    match s
    case Resolve(requested, now) => m.(clock := now, calls := m.calls + [Answer(m, requested, now)])
    case Fetched(i, response, now) =>
      var c := m.calls[i];
      Machine(Evict(Store(m.cache, response, c.startedAt + o.ttlMs), o.maxSize), now,
              m.calls[i := Returned(c.startedAt, c.requested, c.result + AsMap(response), now)])
    case FetchFailed(i, now) =>
      var c := m.calls[i];
      m.(clock := now, calls := m.calls[i := Returned(c.startedAt, c.requested, c.result, now)])
    case Invalidate => m.(cache := [])
  }

  ghost predicate IsRun(chain: Chain, o: Settings, m: Machine, steps: seq<Step>)
    decreases |steps|
  {
    steps == [] || (Enabled(chain, m, steps[0]) && IsRun(chain, o, Apply(o, m, steps[0]), steps[1..]))
  }

  ghost function Run(chain: Chain, o: Settings, m: Machine, steps: seq<Step>): Machine
    requires IsRun(chain, o, m, steps)
    decreases |steps|
  {
    if steps == [] then m else Run(chain, o, Apply(o, m, steps[0]), steps[1..])
  }

  // ---- Invariant ------------------------------------------------------------------------

  function Age(o: Settings): nat { if o.ttlMs < 0 then 0 else o.ttlMs }

  /** An entry holds its own key's table and nothing else, as it was within its lifetime. */
  ghost predicate EntryGood(chain: Chain, o: Settings, clock: int, e: Entry<Address, CacheEntry>) {
    && e.value.data.Keys == {e.key}
    && Seen(chain, e.key, e.value.data[e.key], e.value.expiresAt - o.ttlMs, clock)
  }

  ghost predicate CacheGood(chain: Chain, o: Settings, clock: int, cache: Cache) {
    && Distinct(cache)
    && forall i :: 0 <= i < |cache| ==> EntryGood(chain, o, clock, cache[i])
  }

  /** Every returned table was asked for and was on chain at most the lifetime before the call. */
  ghost predicate ResultGood(chain: Chain, o: Settings, c: Call, clock: int) {
    forall k :: k in c.result ==> k in c.requested && Seen(chain, k, c.result[k], c.startedAt - Age(o), clock)
  }

  ghost predicate CallGood(chain: Chain, o: Settings, c: Call, clock: int) {
    && ResultGood(chain, o, c, if c.Returned? then c.returnedAt else clock)
    && (c.Waiting? ==> forall k :: k in c.uncached ==> k in c.requested)
    && (c.Waiting? ==> forall k :: k in c.requested ==> k in c.result || k in c.uncached)
  }

  ghost predicate Inv(chain: Chain, o: Settings, m: Machine) {
    && CacheGood(chain, o, m.clock, m.cache)
    && |m.cache| <= (if o.maxSize < 0 then 0 else o.maxSize)
    && forall i :: 0 <= i < |m.calls| ==> CallGood(chain, o, m.calls[i], m.clock)
  }

  lemma SeenLater(chain: Chain, k: Address, v: Table, from: int, to: int, from': int, to': int)
    requires Seen(chain, k, v, from, to) && from' <= from && to <= to'
    ensures Seen(chain, k, v, from', to')
  {
    var t :| SeenAt(chain, k, v, t) && from <= t <= to;
    assert SeenAt(chain, k, v, t);
  }

  lemma CacheLater(chain: Chain, o: Settings, clock: int, cache: Cache, now: int)
    requires CacheGood(chain, o, clock, cache) && clock <= now
    ensures CacheGood(chain, o, now, cache)
  {
    forall i | 0 <= i < |cache| ensures EntryGood(chain, o, now, cache[i]) {
      var e := cache[i];
      assert EntryGood(chain, o, clock, e);
      SeenLater(chain, e.key, e.value.data[e.key], e.value.expiresAt - o.ttlMs, clock,
                e.value.expiresAt - o.ttlMs, now);
    }
  }

  lemma CallLater(chain: Chain, o: Settings, c: Call, clock: int, now: int)
    requires CallGood(chain, o, c, clock) && clock <= now
    ensures CallGood(chain, o, c, now)
  {
    if c.Waiting? {
      forall k | k in c.result ensures k in c.requested && Seen(chain, k, c.result[k], c.startedAt - Age(o), now) {
        SeenLater(chain, k, c.result[k], c.startedAt - Age(o), clock, c.startedAt - Age(o), now);
      }
    }
  }

  /** A live entry's table was on chain no longer ago than the lifetime. */
  lemma LiveEntry(chain: Chain, o: Settings, clock: int, cache: Cache, a: Address, now: int)
    requires CacheGood(chain, o, clock, cache) && clock <= now && Live(Get(cache, a), now)
    ensures Get(cache, a).value.data.Keys == {a}
    ensures Seen(chain, a, Get(cache, a).value.data[a], now - Age(o), now)
  {
    var i := IndexOf(cache, a);
    var e := cache[i];
    assert EntryGood(chain, o, clock, e);
    SeenLater(chain, a, e.value.data[a], e.value.expiresAt - o.ttlMs, clock, now - Age(o), now);
  }

  lemma {:induction false} CachedGood(
    chain: Chain, o: Settings, clock: int, cache: Cache, addrs: seq<Address>, now: int)
    requires CacheGood(chain, o, clock, cache) && clock <= now
    ensures forall k :: k in Cached(cache, addrs, now) ==>
              k in addrs && Seen(chain, k, Cached(cache, addrs, now)[k], now - Age(o), now)
    ensures forall k :: k in Uncached(cache, addrs, now) ==> k in addrs
    ensures forall k :: k in addrs ==> k in Cached(cache, addrs, now) || k in Uncached(cache, addrs, now)
  {
    if addrs == [] {
    } else {
      var init, a := addrs[..|addrs| - 1], addrs[|addrs| - 1];
      CachedGood(chain, o, clock, cache, init, now);
      assert addrs == init + [a];
      if Live(Get(cache, a), now) {
        LiveEntry(chain, o, clock, cache, a, now);
      }
    }
  }

  /** Where a key of the response object comes from. */
  lemma {:induction false} AsMapIndex(fetched: seq<Entry<Address, Table>>, k: Address) returns (i: nat)
    requires k in AsMap(fetched)
    ensures i < |fetched| && fetched[i] == Entry(k, AsMap(fetched)[k])
  {
    i := |fetched| - 1;
    if k != fetched[i].key {
      i := AsMapIndex(fetched[..i], k);
    }
  }

  lemma {:induction false} AsMapHas(fetched: seq<Entry<Address, Table>>, i: nat)
    requires i < |fetched|
    ensures fetched[i].key in AsMap(fetched)
  {
    if i < |fetched| - 1 {
      AsMapHas(fetched[..|fetched| - 1], i);
    }
  }

  lemma {:induction false} StoreGood(
    chain: Chain, o: Settings, clock: int, cache: Cache, fetched: seq<Entry<Address, Table>>, startedAt: int)
    requires CacheGood(chain, o, clock, cache)
    requires forall i :: 0 <= i < |fetched| ==> Seen(chain, fetched[i].key, fetched[i].value, startedAt, clock)
    ensures CacheGood(chain, o, clock, Store(cache, fetched, startedAt + o.ttlMs))
  {
    if fetched == [] {
    } else {
      var f, init := fetched[|fetched| - 1], fetched[..|fetched| - 1];
      StoreGood(chain, o, clock, cache, init, startedAt);
      var before, e := Store(cache, init, startedAt + o.ttlMs), CacheEntry(map[f.key := f.value], startedAt + o.ttlMs);
      assert EntryGood(chain, o, clock, Entry(f.key, e));
      var after := Set(before, f.key, e);
      forall i | 0 <= i < |after| ensures EntryGood(chain, o, clock, after[i]) {
        assert after[i] == Entry(f.key, e) || (i < |before| && after[i] == before[i]);
      }
    }
  }

  lemma {:induction false} EvictSuffix(cache: Cache, maxSize: int) returns (d: nat)
    ensures |Evict(cache, maxSize)| <= if maxSize < 0 then 0 else maxSize
    ensures |cache| == d + |Evict(cache, maxSize)|
    ensures forall i :: 0 <= i < |Evict(cache, maxSize)| ==> Evict(cache, maxSize)[i] == cache[d + i]
    decreases |cache|
  {
    d := 0;
    if |cache| > maxSize && |cache| > 0 {
      d := EvictSuffix(cache[1..], maxSize);
      d := d + 1;
    }
  }

  lemma EvictGood(chain: Chain, o: Settings, clock: int, cache: Cache)
    requires CacheGood(chain, o, clock, cache)
    ensures CacheGood(chain, o, clock, Evict(cache, o.maxSize))
    ensures |Evict(cache, o.maxSize)| <= if o.maxSize < 0 then 0 else o.maxSize
  {
    var r := Evict(cache, o.maxSize);
    var d := EvictSuffix(cache, o.maxSize);
    forall i | 0 <= i < |r| ensures EntryGood(chain, o, clock, r[i]) {
      assert r[i] == cache[d + i];
    }
    forall i, j | 0 <= i < j < |r| ensures r[i].key != r[j].key {
      assert r[i] == cache[d + i] && r[j] == cache[d + j];
    }
  }

  lemma FetchedGood(chain: Chain, o: Settings, c: Call, clock: int, response: seq<Entry<Address, Table>>, now: int)
    requires c.Waiting? && CallGood(chain, o, c, clock) && clock <= now && Genuine(chain, c, response, now)
    ensures CallGood(chain, o, Returned(c.startedAt, c.requested, c.result + AsMap(response), now), now)
  {
    CallLater(chain, o, c, clock, now);
    var r := c.result + AsMap(response);
    forall k | k in r ensures k in c.requested && Seen(chain, k, r[k], c.startedAt - Age(o), now) {
      if k in AsMap(response) {
        var i := AsMapIndex(response, k);
        SeenLater(chain, k, r[k], c.startedAt, now, c.startedAt - Age(o), now);
      }
    }
  }

  lemma CallsLater(chain: Chain, o: Settings, m: Machine, now: int)
    requires Inv(chain, o, m) && m.clock <= now
    ensures forall i :: 0 <= i < |m.calls| ==> CallGood(chain, o, m.calls[i], now)
  {
    forall i | 0 <= i < |m.calls| ensures CallGood(chain, o, m.calls[i], now) {
      CallLater(chain, o, m.calls[i], m.clock, now);
    }
  }

  lemma ResolveKeepsInv(chain: Chain, o: Settings, m: Machine, requested: seq<Address>, now: int)
    requires Inv(chain, o, m) && m.clock <= now
    ensures Inv(chain, o, Apply(o, m, Resolve(requested, now)))
  {
    CacheLater(chain, o, m.clock, m.cache, now);
    CallsLater(chain, o, m, now);
    CachedGood(chain, o, m.clock, m.cache, requested, now);
    assert CallGood(chain, o, Answer(m, requested, now), now);
  }

  lemma FetchedKeepsInv(chain: Chain, o: Settings, m: Machine, i: nat, response: seq<Entry<Address, Table>>, now: int)
    requires Inv(chain, o, m) && Enabled(chain, m, Fetched(i, response, now))
    ensures Inv(chain, o, Apply(o, m, Fetched(i, response, now)))
  {
    var c := m.calls[i];
    CacheLater(chain, o, m.clock, m.cache, now);
    CallsLater(chain, o, m, now);
    FetchedGood(chain, o, c, m.clock, response, now);
    StoreGood(chain, o, now, m.cache, response, c.startedAt);
    EvictGood(chain, o, now, Store(m.cache, response, c.startedAt + o.ttlMs));
  }

  lemma FailedKeepsInv(chain: Chain, o: Settings, m: Machine, i: nat, now: int)
    requires Inv(chain, o, m) && Enabled(chain, m, FetchFailed(i, now))
    ensures Inv(chain, o, Apply(o, m, FetchFailed(i, now)))
  {
    var c := m.calls[i];
    CacheLater(chain, o, m.clock, m.cache, now);
    CallsLater(chain, o, m, now);
    assert CallGood(chain, o, c, now);
    assert CallGood(chain, o, Returned(c.startedAt, c.requested, c.result, now), now);
  }

  lemma StepKeepsInv(chain: Chain, o: Settings, m: Machine, s: Step)
    requires Inv(chain, o, m) && Enabled(chain, m, s)
    ensures Inv(chain, o, Apply(o, m, s))
  {
    match s
    case Resolve(requested, now) => ResolveKeepsInv(chain, o, m, requested, now);
    case Fetched(i, response, now) => FetchedKeepsInv(chain, o, m, i, response, now);
    case FetchFailed(i, now) => FailedKeepsInv(chain, o, m, i, now);
    case Invalidate =>
  }

  lemma {:induction false} RunKeepsInv(chain: Chain, o: Settings, m: Machine, steps: seq<Step>)
    requires Inv(chain, o, m) && IsRun(chain, o, m, steps)
    ensures Inv(chain, o, Run(chain, o, m, steps))
    decreases |steps|
  {
    if steps == [] {
    } else {
      StepKeepsInv(chain, o, m, steps[0]);
      RunKeepsInv(chain, o, Apply(o, m, steps[0]), steps[1..]);
    }
  }

  // ---- Main results -----------------------------------------------------------------------

  /**
   * In every run, every table a `resolve` returned was asked for by that call and was on
   * chain at a moment at most the lifetime before the call, whether or not its fetch failed.
   */
  lemma ResolveReturnsFreshTables(chain: Chain, o: Settings, clock: int, steps: seq<Step>, i: nat, k: Address)
    requires IsRun(chain, o, Machine([], clock, []), steps)
    requires var m := Run(chain, o, Machine([], clock, []), steps);
             i < |m.calls| && m.calls[i].Returned? && k in m.calls[i].result
    ensures var c := Run(chain, o, Machine([], clock, []), steps).calls[i];
            k in c.requested && Seen(chain, k, c.result[k], c.startedAt - Age(o), c.returnedAt)
  {
    RunKeepsInv(chain, o, Machine([], clock, []), steps);
    assert CallGood(chain, o, Run(chain, o, Machine([], clock, []), steps).calls[i],
                    Run(chain, o, Machine([], clock, []), steps).clock);
  }

  /** In every run, a synchronous read returns the key's own table, on chain within the lifetime. */
  lemma ReadReturnsFreshTable(chain: Chain, o: Settings, clock: int, steps: seq<Step>, k: Address, now: int)
    requires IsRun(chain, o, Machine([], clock, []), steps)
    requires var m := Run(chain, o, Machine([], clock, []), steps); m.clock <= now && Read(m.cache, k, now).Some?
    ensures Seen(chain, k, Read(Run(chain, o, Machine([], clock, []), steps).cache, k, now).value, now - Age(o), now)
  {
    RunKeepsInv(chain, o, Machine([], clock, []), steps);
    var m := Run(chain, o, Machine([], clock, []), steps);
    LiveEntry(chain, o, m.clock, m.cache, k, now);
  }

  /** In every run, the cache never holds more than `maxSize` entries (none for a negative size) nor one key twice. */
  lemma CacheStaysSmall(chain: Chain, o: Settings, clock: int, steps: seq<Step>)
    requires IsRun(chain, o, Machine([], clock, []), steps)
    ensures |Run(chain, o, Machine([], clock, []), steps).cache| <= if o.maxSize < 0 then 0 else o.maxSize
    ensures Distinct(Run(chain, o, Machine([], clock, []), steps).cache)
  {
    RunKeepsInv(chain, o, Machine([], clock, []), steps);
  }

  /** A fetch that answers everything it was asked makes the call complete. */
  lemma CompleteFetchIsComplete(chain: Chain, o: Settings, m: Machine, s: Step)
    requires Inv(chain, o, m) && s.Fetched? && Enabled(chain, m, s)
    requires forall k :: k in m.calls[s.call].uncached ==> Has(s.response, k)
    ensures var c := Apply(o, m, s).calls[s.call];
            forall k :: k in c.requested <==> k in c.result
  {
    var c, c' := m.calls[s.call], Apply(o, m, s).calls[s.call];
    StepKeepsInv(chain, o, m, s);
    assert CallGood(chain, o, c, m.clock) && CallGood(chain, o, c', s.now);
    forall k | k in c'.requested ensures k in c'.result {
      if k !in c.result {
        AsMapHas(s.response, IndexOf(s.response, k));
      }
    }
  }
}
