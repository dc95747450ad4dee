/** The activity feed of `event-analytics.ts`: one cursor page, and following cursors to the end. */
module ActivityPager {
  import opened Common
  import opened Numerals
  import opened Sorting

  /** A transaction signature as the RPC lists it. */
  datatype Signature = Signature(id: nat, blockTime: int)

  datatype Item = Item(timestamp: int, signature: nat, index: nat)

  const CONCURRENCY: nat := 5

  predicate DistinctIds(h: seq<Signature>) {
    forall i, j :: 0 <= i < j < |h| ==> h[i].id != h[j].id
  }

  function Find(h: seq<Signature>, id: nat): (i: nat)
    ensures i <= |h| && (i < |h| ==> h[i].id == id) && forall k :: 0 <= k < i ==> h[k].id != id
  {
    if h == [] || h[0].id == id then 0 else 1 + Find(h[1..], id)
  }

  /** Where a listing starts: after `before`. */
  function Start(h: seq<Signature>, before: Option<nat>): (s: nat)
    ensures s <= |h|
  {
    if before.None? then 0 else
      var i := Find(h, before.value);
      if i < |h| then i + 1 else |h|
  }

  /** Where it stops: at `until`, or the end of history. */
  function Stop(h: seq<Signature>, until: Option<nat>): (e: nat)
    ensures e <= |h|
  {
    if until.None? then |h| else Find(h, until.value)
  }

  /** `getSignaturesForAddress` on a fixed history, newest first. */
  function List(h: seq<Signature>, limit: nat, before: Option<nat>, until: Option<nat>): seq<Signature> {
    var s, e := Start(h, before), Stop(h, until);
    if s >= e then [] else if s + limit <= e then h[s..s + limit] else h[s..e]
  }

  function NextCursor(page: seq<Signature>, limit: nat): Option<nat> {
    if page == [] || |page| < limit then None else Some(page[|page| - 1].id)
  }

  function Newest(i: Item): int { -i.timestamp }

  function Feed(build: Signature -> seq<Item>, page: seq<Signature>): seq<Item> {
    Sort(Newest, Flatten(Map(build, page)))
  }

  /** One page: chunked fetching keeps signature order, then the items are sorted newest first. */
  method GetVaultActivityPage(
    h: seq<Signature>, build: Signature -> seq<Item>, limit: nat, before: Option<nat>, until: Option<nat>)
    returns (items: seq<Item>, nextCursor: Option<nat>)
    ensures items == Feed(build, List(h, limit, before, until))
    ensures nextCursor == NextCursor(List(h, limit, before, until), limit)
  {
    var signatures := List(h, limit, before, until);
    if |signatures| == 0 {
      return [], None;
    }
    nextCursor := if |signatures| < limit then None else Some(signatures[|signatures| - 1].id);
    var perSignature: seq<seq<Item>> := [];
    var i := 0;
    while i < |signatures|
      invariant perSignature == Map(build, signatures[..if i < |signatures| then i else |signatures|])
      decreases |signatures| - i
    {
      var end := if i + CONCURRENCY < |signatures| then i + CONCURRENCY else |signatures|;
      var chunk := signatures[i..end];
      perSignature := perSignature + Map(build, chunk);
      MapConcat(build, signatures[..i], chunk);
      assert signatures[..end] == signatures[..i] + chunk;
      i := i + CONCURRENCY;
    }
    assert signatures[..|signatures|] == signatures;
    items := Sort(Newest, Flatten(perSignature));
  }

  predicate NewestFirst(items: seq<Item>) {
    forall i, j :: 0 <= i < j < |items| ==> items[i].timestamp >= items[j].timestamp
  }

  lemma SortedIsNewestFirst(items: seq<Item>)
    requires Sorted(Newest, items)
    ensures NewestFirst(items)
  {
    forall i, j | 0 <= i < j < |items| ensures items[i].timestamp >= items[j].timestamp {
      assert Newest(items[i]) <= Newest(items[j]);
    }
  }

  /** The page is a newest-first permutation of the per-signature items; ties keep history order. */
  lemma FeedPermutes(build: Signature -> seq<Item>, page: seq<Signature>, timestamp: int)
    ensures multiset(Feed(build, page)) == multiset(Flatten(Map(build, page)))
    ensures NewestFirst(Feed(build, page))
    ensures WithKey(Newest, Feed(build, page), -timestamp) == WithKey(Newest, Flatten(Map(build, page)), -timestamp)
  {
    SortPermutes(Newest, Flatten(Map(build, page)));
    SortStable(Newest, Flatten(Map(build, page)), -timestamp);
    SortedIsNewestFirst(Feed(build, page));
  }

  // ---- Following the cursor ---------------------------------------------------------------

  lemma FindAt(h: seq<Signature>, i: nat)
    requires DistinctIds(h) && i < |h|
    ensures Find(h, h[i].id) == i
  {
    assert forall j :: 0 <= j < i ==> h[j].id != h[i].id;
  }

  /** A returned cursor continues right after the page it came with. */
  lemma CursorAdvances(h: seq<Signature>, limit: nat, before: Option<nat>, until: Option<nat>)
    requires DistinctIds(h) && limit >= 1
    ensures var page := List(h, limit, before, until);
            && (NextCursor(page, limit).Some? ==>
                  |page| == limit && Start(h, NextCursor(page, limit)) == Start(h, before) + limit <= Stop(h, until))
            && (NextCursor(page, limit).None? ==>
                  page == if Start(h, before) < Stop(h, until) then h[Start(h, before)..Stop(h, until)] else [])
  {
    var s, e, page := Start(h, before), Stop(h, until), List(h, limit, before, until);
    if s < e && s + limit <= e {
      assert page[|page| - 1] == h[s + limit - 1];
      FindAt(h, s + limit - 1);
    }
  }

  /** The pages a reader gets by passing each `nextCursor` on until it is null. */
  function Pages(h: seq<Signature>, limit: nat, before: Option<nat>, until: Option<nat>): seq<seq<Signature>>
    requires DistinctIds(h) && limit >= 1
    decreases |h| - Start(h, before)
  {
    CursorAdvances(h, limit, before, until);
    var page := List(h, limit, before, until);
    var cursor := NextCursor(page, limit);
    if cursor.None? then [page] else [page] + Pages(h, limit, cursor, until)
  }

  lemma Join<T>(page: seq<T>, rest: seq<seq<T>>, h: seq<T>, s: nat, m: nat, e: nat)
    requires s <= m <= e <= |h| && page == h[s..m] && Flatten(rest) == h[m..e]
    ensures Flatten([page] + rest) == h[s..e]
  {
    FlattenCons(page, rest);
  }

  lemma {:induction false} PagesCover(h: seq<Signature>, limit: nat, before: Option<nat>, until: Option<nat>)
    requires DistinctIds(h) && limit >= 1 && Start(h, before) <= Stop(h, until)
    ensures Flatten(Pages(h, limit, before, until)) == h[Start(h, before)..Stop(h, until)]
    decreases |h| - Start(h, before)
  {
    CursorAdvances(h, limit, before, until);
    var s, e, page := Start(h, before), Stop(h, until), List(h, limit, before, until);
    var cursor := NextCursor(page, limit);
    if cursor.None? {
      assert page == h[s..e];
      FlattenCons(page, []);
    } else {
      PagesCover(h, limit, cursor, until);
      var rest := Pages(h, limit, cursor, until);
      assert page == h[s..s + limit] && Flatten(rest) == h[s + limit..e];
      Join(page, rest, h, s, s + limit, e);
    }
  }

  lemma {:induction false} PagesCount(h: seq<Signature>, limit: nat, before: Option<nat>, until: Option<nat>)
    requires DistinctIds(h) && limit >= 1 && Start(h, before) <= Stop(h, until)
    ensures |Pages(h, limit, before, until)| == (Stop(h, until) - Start(h, before)) / limit + 1
    decreases |h| - Start(h, before)
  {
    CursorAdvances(h, limit, before, until);
    var n, page := Stop(h, until) - Start(h, before), List(h, limit, before, until);
    var cursor := NextCursor(page, limit);
    if cursor.None? {
      assert n < limit;
      ShortPage(n, limit);
    } else {
      PagesCount(h, limit, cursor, until);
      FullPage(n, limit);
    }
  }

  lemma ShortPage(n: int, limit: nat)
    requires limit >= 1
    ensures 0 <= n < limit ==> n / limit == 0
  {
  }

  lemma FullPage(n: nat, limit: nat)
    requires limit >= 1 && n >= limit
    ensures n / limit == (n - limit) / limit + 1
  {
    var q, r := (n - limit) / limit, (n - limit) % limit;
    assert n == (q + 1) * limit + r;
    DivModUnique(q + 1, r, limit);
  }

  /**
   * Following cursors over a fixed history visits every signature exactly once, in order,
   * for every page size, exact multiples included, in `|h| / limit + 1` requests.
   */
  lemma EverySignatureOnce(h: seq<Signature>, limit: nat)
    requires DistinctIds(h) && limit >= 1
    ensures Flatten(Pages(h, limit, None, None)) == h
    ensures |Pages(h, limit, None, None)| == |h| / limit + 1
  {
    PagesCover(h, limit, None, None);
    PagesCount(h, limit, None, None);
    assert h[0..|h|] == h;
  }

  function Feeds(build: Signature -> seq<Item>, pages: seq<seq<Signature>>): (fs: seq<seq<Item>>)
    ensures |fs| == |pages| && forall i :: 0 <= i < |pages| ==> fs[i] == Feed(build, pages[i])
  {
    seq(|pages|, i requires 0 <= i < |pages| => Feed(build, pages[i]))
  }

  lemma {:induction false} FeedsPermute(build: Signature -> seq<Item>, pages: seq<seq<Signature>>)
    ensures multiset(Flatten(Feeds(build, pages))) == multiset(Flatten(Map(build, Flatten(pages))))
  {
    if pages == [] {
      assert Map(build, Flatten(pages)) == [];
    } else {
      var page, rest := pages[0], pages[1..];
      FeedsPermute(build, rest);
      FeedPermutes(build, page, 0);
      assert Feeds(build, pages)[1..] == Feeds(build, rest);
      MapConcat(build, page, Flatten(rest));
      FlattenConcat(Map(build, page), Map(build, Flatten(rest)));
    }
  }

  /** The feeds of all pages together hold exactly the items of the whole history. */
  lemma WholeFeedComplete(h: seq<Signature>, build: Signature -> seq<Item>, limit: nat)
    requires DistinctIds(h) && limit >= 1
    ensures multiset(Flatten(Feeds(build, Pages(h, limit, None, None)))) == multiset(Flatten(Map(build, h)))
  {
    EverySignatureOnce(h, limit);
    FeedsPermute(build, Pages(h, limit, None, None));
  }
}
