/** Slots of circular buffers. */
module Modular {
  import opened Numerals

  /** Indices less than one lap apart fall into different slots. */
  lemma SlotsDiffer(a: int, b: int, m: nat)
    requires m > 0 && a < b < a + m
    ensures a % m != b % m
  {
    var k := b / m - a / m;
    assert k * m == (b - b % m) - (a - a % m);
    MulAtLeast(k, m);
  }

  lemma AddMod(a: nat, b: nat, m: nat)
    requires m > 0
    ensures (a % m + b) % m == (a + b) % m
  {
    Fundamental(a % m + b, m);
    Fundamental(a, m);
    var q, r := (a % m + b) / m, (a % m + b) % m;
    assert a + b == (q + a / m) * m + r;
    DivModUnique(q + a / m, r, m);
  }

  lemma AddLap(a: nat, m: nat)
    requires m > 0
    ensures (a + m) % m == a % m
  {
    Fundamental(a, m);
    assert a + m == (a / m + 1) * m + a % m;
    DivModUnique(a / m + 1, a % m, m);
  }
}
