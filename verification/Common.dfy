/** Option and Result values, and the ordered map that JavaScript's `Map` is. */
module Common {

  datatype Option<+T> = None | Some(value: T)

  datatype Result<+T, +E> = Ok(value: T) | Err(error: E)

  /** Sum of a measure over a sequence. */
  function SumBy<T>(f: T -> int, xs: seq<T>): int {
    if xs == [] then 0 else SumBy(f, xs[..|xs| - 1]) + f(xs[|xs| - 1])
  }

  lemma SumBySnoc<T>(f: T -> int, xs: seq<T>, x: T)
    ensures SumBy(f, xs + [x]) == SumBy(f, xs) + f(x)
  {
    assert (xs + [x])[..|xs|] == xs;
  }

  lemma {:induction false} SumByUpdate<T>(f: T -> int, xs: seq<T>, i: nat, x: T)
    requires i < |xs|
    ensures SumBy(f, xs[i := x]) == SumBy(f, xs) + f(x) - f(xs[i])
  {
    var n := |xs| - 1;
    if i == n {
      assert xs[i := x][..n] == xs[..n];
    } else {
      assert xs[i := x][..n] == xs[..n][i := x];
      SumByUpdate(f, xs[..n], i, x);
    }
  }

  /** Concatenation of a sequence of sequences, as `Array.prototype.flat`. */
  function Flatten<T>(xss: seq<seq<T>>): seq<T> {
    if xss == [] then [] else xss[0] + Flatten(xss[1..])
  }

  lemma FlattenCons<T>(xs: seq<T>, xss: seq<seq<T>>)
    ensures Flatten([xs] + xss) == xs + Flatten(xss)
    ensures Flatten([xs]) == xs
  {
    assert ([xs] + xss)[1..] == xss;
    assert [xs][1..] == [];
  }

  lemma {:induction false} FlattenConcat<T>(xss: seq<seq<T>>, yss: seq<seq<T>>)
    ensures Flatten(xss + yss) == Flatten(xss) + Flatten(yss)
  {
    if xss == [] {
      assert xss + yss == yss;
    } else {
      assert (xss + yss)[0] == xss[0] && (xss + yss)[1..] == xss[1..] + yss;
      FlattenConcat(xss[1..], yss);
    }
  }

  function Map<A, B>(f: A -> B, xs: seq<A>): (ys: seq<B>)
    ensures |ys| == |xs| && forall i :: 0 <= i < |xs| ==> ys[i] == f(xs[i])
  {
    seq(|xs|, i requires 0 <= i < |xs| => f(xs[i]))
  }

  lemma MapConcat<A, B>(f: A -> B, xs: seq<A>, ys: seq<A>)
    ensures Map(f, xs + ys) == Map(f, xs) + Map(f, ys)
  {
  }
}

/**
 * JavaScript's `Map`: entries in insertion order, keys pairwise distinct. `set`
 * on a present key keeps its position.
 */
module JsMaps {
  import opened Common

  datatype Entry<K, V> = Entry(key: K, value: V)

  predicate Distinct<K(==), V>(m: seq<Entry<K, V>>) {
    forall i, j :: 0 <= i < j < |m| ==> m[i].key != m[j].key
  }

  function IndexOf<K(==), V>(m: seq<Entry<K, V>>, k: K): (r: nat)
    ensures r <= |m|
    ensures r < |m| ==> m[r].key == k
    ensures forall i :: 0 <= i < r ==> m[i].key != k
  {
    if m == [] then 0 else if m[0].key == k then 0 else 1 + IndexOf(m[1..], k)
  }

  predicate Has<K(==), V>(m: seq<Entry<K, V>>, k: K) {
    IndexOf(m, k) < |m|
  }

  function Get<K(==), V>(m: seq<Entry<K, V>>, k: K): Option<V> {
    var i := IndexOf(m, k);
    if i < |m| then Some(m[i].value) else None
  }

  function Set<K(==), V>(m: seq<Entry<K, V>>, k: K, v: V): (r: seq<Entry<K, V>>)
    ensures Distinct(m) ==> Distinct(r)
    ensures |r| == |m| + if Has(m, k) then 0 else 1
  {
    var i := IndexOf(m, k);
    if i < |m| then m[i := Entry(k, v)] else m + [Entry(k, v)]
  }

  function Keys<K, V>(m: seq<Entry<K, V>>): (ks: seq<K>)
    ensures |ks| == |m| && forall i :: 0 <= i < |m| ==> ks[i] == m[i].key
  {
    seq(|m|, i requires 0 <= i < |m| => m[i].key)
  }

  /** In a map with distinct keys, an entry is found under its own key. */
  lemma GetAt<K, V>(m: seq<Entry<K, V>>, i: nat)
    requires Distinct(m) && i < |m|
    ensures IndexOf(m, m[i].key) == i && Get(m, m[i].key) == Some(m[i].value)
  {
    assert forall j :: 0 <= j < i ==> m[j].key != m[i].key;
  }

  /** `get` after `set`. */
  lemma GetSet<K, V>(m: seq<Entry<K, V>>, k: K, v: V, k': K)
    requires Distinct(m)
    ensures Get(Set(m, k, v), k') == if k' == k then Some(v) else Get(m, k')
  {
    var r := Set(m, k, v);
    var i := IndexOf(m, k);
    assert r[i] == Entry(k, v);
    if k' == k {
      GetAt(r, i);
    } else {
      var j := IndexOf(m, k');
      if j < |m| {
        assert r[j] == m[j];
        GetAt(r, j);
      } else {
        assert forall l :: 0 <= l < |r| ==> r[l].key == if l == i then k else m[l].key;
      }
    }
  }

  /** How `set` changes a sum over the entries. */
  lemma SetSum<K, V>(f: Entry<K, V> -> int, m: seq<Entry<K, V>>, k: K, v: V)
    ensures SumBy(f, Set(m, k, v))
         == SumBy(f, m) + f(Entry(k, v)) - if Has(m, k) then f(m[IndexOf(m, k)]) else 0
  {
    var i := IndexOf(m, k);
    if i < |m| {
      SumByUpdate(f, m, i, Entry(k, v));
    } else {
      SumBySnoc(f, m, Entry(k, v));
    }
  }
}
