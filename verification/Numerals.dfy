/** Positional numerals in any base: values, minimal digit strings, base conversion. */
module Numerals {

  predicate InBase(base: nat, ds: seq<nat>) {
    forall i :: 0 <= i < |ds| ==> ds[i] < base
  }

  /** Value of a big-endian digit sequence. */
  function Value(base: nat, ds: seq<nat>): nat {
    if ds == [] then 0 else Value(base, ds[..|ds| - 1]) * base + ds[|ds| - 1]
  }

  /** Value of a little-endian digit sequence. */
  function ValueLE(base: nat, ds: seq<nat>): nat {
    if ds == [] then 0 else ds[0] + base * ValueLE(base, ds[1..])
  }

  /** The shortest big-endian digit sequence of `n`; empty for zero. */
  function Digits(base: nat, n: nat): (ds: seq<nat>)
    requires base >= 2
    ensures InBase(base, ds)
    ensures n == 0 <==> ds == []
    ensures ds != [] ==> ds[0] != 0
    decreases n
  {
    if n == 0 then [] else
      DivSmaller(n, base);
      Digits(base, n / base) + [n % base]
  }

  lemma DivSmaller(n: nat, base: nat)
    requires n > 0 && base >= 2
    ensures 0 <= n / base < n
  {
    var q := n / base;
    assert n == q * base + n % base;
    assert q * base >= q * 2;
  }

  lemma {:induction false} ValueOfDigits(base: nat, n: nat)
    requires base >= 2
    ensures Value(base, Digits(base, n)) == n
    decreases n
  {
    if n == 0 {
    } else {
      DivSmaller(n, base);
      ValueOfDigits(base, n / base);
      ValueSnoc(base, Digits(base, n / base), n % base);
      Fundamental(n, base);
    }
  }

  lemma ValueSnoc(base: nat, ds: seq<nat>, d: nat)
    ensures Value(base, ds + [d]) == Value(base, ds) * base + d
  {
    assert (ds + [d])[..|ds|] == ds;
  }

  lemma Fundamental(n: nat, base: nat)
    requires base > 0
    ensures n / base * base + n % base == n
  {
  }

  lemma DivModUnique(q: nat, r: nat, base: nat)
    requires r < base
    ensures (q * base + r) / base == q && (q * base + r) % base == r
  {
    var n := q * base + r;
    var q', r' := n / base, n % base;
    assert (q - q') * base == r' - r;
    MulAtLeast(q - q', base);
  }

  lemma MulAtLeast(k: int, base: int)
    requires base >= 0
    ensures k >= 1 ==> k * base >= base
    ensures k <= -1 ==> k * base <= -base
  {
  }

  /** Minimal digit sequences are determined by their value. */
  lemma {:induction false} DigitsOfValue(base: nat, ds: seq<nat>)
    requires base >= 2 && InBase(base, ds)
    requires ds != [] ==> ds[0] != 0
    ensures Digits(base, Value(base, ds)) == ds
  {
    if ds == [] {
    } else {
      var init, last := ds[..|ds| - 1], ds[|ds| - 1];
      DigitsOfValue(base, init);
      DivModUnique(Value(base, init), last, base);
      if init == [] {
        assert ds == [last];
      } else {
        assert Digits(base, Value(base, init)) != [];
      }
      assert Value(base, ds) > 0;
      assert ds == init + [last];
    }
  }

  function Zeros(k: nat): (zs: seq<nat>)
    ensures |zs| == k && forall i :: 0 <= i < k ==> zs[i] == 0
  {
    seq(k, _ => 0)
  }

  function LeadingZeros(ds: seq<nat>): (k: nat)
    ensures k <= |ds|
    ensures forall i :: 0 <= i < k ==> ds[i] == 0
    ensures k < |ds| ==> ds[k] != 0
  {
    if ds == [] || ds[0] != 0 then 0 else 1 + LeadingZeros(ds[1..])
  }

  lemma {:induction false} ValueZeros(base: nat, k: nat, ds: seq<nat>)
    ensures Value(base, Zeros(k) + ds) == Value(base, ds)
  {
    var zds := Zeros(k) + ds;
    if ds != [] {
      assert zds[..|zds| - 1] == Zeros(k) + ds[..|ds| - 1];
      ValueZeros(base, k, ds[..|ds| - 1]);
    } else if k > 0 {
      assert zds[..|zds| - 1] == Zeros(k - 1) + [];
      ValueZeros(base, k - 1, []);
    }
  }

  lemma LeadingZerosOf(k: nat, ds: seq<nat>)
    requires ds != [] ==> ds[0] != 0
    ensures LeadingZeros(Zeros(k) + ds) == k
  {
    var zds := Zeros(k) + ds;
    assert forall i :: 0 <= i < k ==> zds[i] == 0;
    assert ds != [] ==> zds[k] != 0;
  }

  /**
   * Base conversion that keeps the number of leading zero digits: what Base58
   * and its inverse do between base 58 and base 256.
   */
  function Convert(from: nat, to: nat, ds: seq<nat>): (r: seq<nat>)
    requires from >= 2 && to >= 2
    ensures InBase(to, r)
  {
    Zeros(LeadingZeros(ds)) + Digits(to, Value(from, ds))
  }

  /** Converting back restores every digit sequence, leading zeros included. */
  lemma ConvertRoundTrip(from: nat, to: nat, ds: seq<nat>)
    requires from >= 2 && to >= 2 && InBase(from, ds)
    ensures Convert(to, from, Convert(from, to, ds)) == ds
  {
    var k, n := LeadingZeros(ds), Value(from, ds);
    var rest := ds[k..];
    assert ds == Zeros(k) + rest;
    ValueZeros(from, k, rest);
    DigitsOfValue(from, rest);
    ValueZeros(to, k, Digits(to, n));
    ValueOfDigits(to, n);
    LeadingZerosOf(k, Digits(to, n));
  }

  function Reverse<T>(xs: seq<T>): (r: seq<T>)
    ensures |r| == |xs| && forall i :: 0 <= i < |xs| ==> r[i] == xs[|xs| - 1 - i]
  {
    seq(|xs|, i requires 0 <= i < |xs| => xs[|xs| - 1 - i])
  }

  lemma {:induction false} ValueReverse(base: nat, le: seq<nat>)
    ensures Value(base, Reverse(le)) == ValueLE(base, le)
  {
    if le == [] {
    } else {
      var r := Reverse(le);
      assert r[..|r| - 1] == Reverse(le[1..]);
      ValueReverse(base, le[1..]);
    }
  }

  function Pow256(k: nat): (p: nat)
    ensures p > 0
  {
    if k == 0 then 1 else 256 * Pow256(k - 1)
  }

  /** The `k` low-order bytes of `n`, least significant first. */
  function LE(k: nat, n: nat): (bs: seq<nat>)
    ensures |bs| == k && InBase(256, bs)
  {
    seq(k, i requires 0 <= i < k => (n / Pow256(i)) % 256)
  }

  lemma DivDiv(n: nat, p: nat)
    requires p > 0
    ensures n / 256 / p == n / (256 * p)
  {
    var q := n / 256 / p;
    var r := (n / 256) % p * 256 + n % 256;
    assert n / 256 == q * p + (n / 256) % p;
    assert q * (256 * p) == q * p * 256;
    assert n == q * (256 * p) + r;
    DivModUnique(q, r, 256 * p);
  }

  lemma LEStep(k: nat, n: nat)
    requires k > 0
    ensures LE(k, n) == [n % 256] + LE(k - 1, n / 256)
  {
    assert n / Pow256(0) == n;
    forall i | 0 < i < k ensures LE(k, n)[i] == LE(k - 1, n / 256)[i - 1] {
      DivDiv(n, Pow256(i - 1));
    }
  }

  /** Reading the bytes back gives the number, for every number that fits. */
  lemma {:induction false} ValueOfLE(k: nat, n: nat)
    requires n < Pow256(k)
    ensures ValueLE(256, LE(k, n)) == n
  {
    if k == 0 {
    } else {
      LEStep(k, n);
      ValueOfLE(k - 1, n / 256);
      assert LE(k, n)[1..] == LE(k - 1, n / 256);
    }
  }

  lemma LEInjective(k: nat, m: nat, n: nat)
    requires m < Pow256(k) && n < Pow256(k) && LE(k, m) == LE(k, n)
    ensures m == n
  {
    ValueOfLE(k, m);
    ValueOfLE(k, n);
  }

  lemma {:induction false} ValueLEBound(bs: seq<nat>)
    requires InBase(256, bs)
    ensures ValueLE(256, bs) < Pow256(|bs|)
  {
    if bs == [] {
    } else {
      ValueLEBound(bs[1..]);
    }
  }
}
