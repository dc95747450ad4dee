/** The concentration index of `math-utils.ts`, computed from shares in whole basis points. */
module Concentration {
  import opened Numerals

  const BPS: nat := 10000

  function Total(vs: seq<nat>): nat {
    if vs == [] then 0 else Total(vs[..|vs| - 1]) + vs[|vs| - 1]
  }

  function Share(v: nat, total: nat): nat
    requires total > 0
  {
    v * BPS / total
  }

  /** Sum of the shares and of their squares, in basis points. */
  function Shares(vs: seq<nat>, total: nat): nat
    requires total > 0
  {
    if vs == [] then 0 else Shares(vs[..|vs| - 1], total) + Share(vs[|vs| - 1], total)
  }

  function Squares(vs: seq<nat>, total: nat): nat
    requires total > 0
  {
    if vs == [] then 0 else
      var s := Share(vs[|vs| - 1], total);
      Squares(vs[..|vs| - 1], total) + s * s
  }

  function Nonzero(vs: seq<nat>): nat {
    if vs == [] then 0 else Nonzero(vs[..|vs| - 1]) + if vs[|vs| - 1] > 0 then 1 else 0
  }

  /** `computeHerfindahl`, with shares as fractions of one; it is 1 exactly when one value holds everything. */
  method ComputeHerfindahl(vs: seq<nat>) returns (h: real)
    ensures Total(vs) == 0 ==> h == 0.0
    ensures Total(vs) > 0 ==> h == Squares(vs, Total(vs)) as real / 100000000.0
    ensures 0.0 <= h <= 1.0
    ensures h == 1.0 <==> Nonzero(vs) == 1
  {
    var total := 0;
    for i := 0 to |vs|
      invariant total == Total(vs[..i])
    {
      assert vs[..i + 1][..i] == vs[..i];
      total := total + vs[i];
    }
    assert vs[..|vs|] == vs;
    NonzeroTotal(vs);
    if total == 0 {
      return 0.0;
    }
    h := 0.0;
    for i := 0 to |vs|
      invariant h == Squares(vs[..i], total) as real / 100000000.0
    {
      assert vs[..i + 1][..i] == vs[..i];
      if vs[i] == 0 {
        ZeroShare(total);
        continue;
      }
      var bps := Share(vs[i], total);
      var share := bps as real / 10000.0;
      SquareAsReal(bps);
      h := h + share * share;
    }
    ConcentrationBound(vs);
  }

  lemma ZeroShare(total: nat)
    requires total > 0
    ensures Share(0, total) == 0
  {
  }

  lemma SquareAsReal(bps: nat)
    ensures (bps as real / 10000.0) * (bps as real / 10000.0) == (bps * bps) as real / 100000000.0
  {
    assert (bps * bps) as real == bps as real * bps as real;
  }

  // ---- Bounds ---------------------------------------------------------------------------------

  lemma ShareBound(v: nat, total: nat)
    requires total > 0
    ensures total * Share(v, total) <= v * BPS
    ensures v <= total ==> Share(v, total) <= BPS
    ensures v < total ==> Share(v, total) < BPS
    ensures v == total ==> Share(v, total) == BPS
  {
    var s := Share(v, total);
    assert v * BPS == s * total + (v * BPS) % total;
    if v <= total {
      AtMost(s, BPS, total);
    }
    if v == total {
      DivModUnique(BPS, 0, total);
    }
  }

  lemma {:induction false} SharesBound(vs: seq<nat>, total: nat)
    requires total > 0
    ensures total * Shares(vs, total) <= Total(vs) * BPS
  {
    if vs == [] {
    } else {
      var init, v := vs[..|vs| - 1], vs[|vs| - 1];
      SharesBound(init, total);
      ShareBound(v, total);
      assert total * (Shares(init, total) + Share(v, total)) == total * Shares(init, total) + total * Share(v, total);
    }
  }

  lemma Scale(q: nat, t: nat, s: nat, m: nat)
    requires q <= m * t && s <= m
    ensures q + s * s <= m * (t + s)
  {
    assert s * s <= m * s;
  }

  lemma {:induction false} SquaresBound(vs: seq<nat>, total: nat, m: nat)
    requires total > 0 && forall i :: 0 <= i < |vs| ==> Share(vs[i], total) <= m
    ensures Squares(vs, total) <= m * Shares(vs, total)
  {
    if vs == [] {
    } else {
      var init, s := vs[..|vs| - 1], Share(vs[|vs| - 1], total);
      SquaresBound(init, total, m);
      Scale(Squares(init, total), Shares(init, total), s, m);
    }
  }

  lemma {:induction false} PartAtMostTotal(vs: seq<nat>, i: nat)
    requires i < |vs|
    ensures vs[i] <= Total(vs) && (vs[i] == Total(vs) && vs[i] > 0 ==> Nonzero(vs) == 1)
    ensures vs[i] > 0 && Nonzero(vs) == 1 ==> vs[i] == Total(vs)
  {
    var n := |vs| - 1;
    NonzeroTotal(vs[..n]);
    if i < n {
      PartAtMostTotal(vs[..n], i);
    }
  }

  lemma {:induction false} NonzeroTotal(vs: seq<nat>)
    ensures Nonzero(vs) == 0 <==> Total(vs) == 0
  {
    if vs == [] {
    } else {
      NonzeroTotal(vs[..|vs| - 1]);
    }
  }

  lemma {:induction false} SingleSquares(vs: seq<nat>, total: nat)
    requires total > 0 && Nonzero(vs) <= 1 && Total(vs) <= total
    ensures Squares(vs, total) == if Nonzero(vs) == 0 then 0 else Share(Total(vs), total) * Share(Total(vs), total)
  {
    if vs == [] {
    } else {
      var init := vs[..|vs| - 1];
      NonzeroTotal(init);
      SingleSquares(init, total);
      ZeroShare(total);
    }
  }

  /** The squares never exceed one whole, and reach it exactly when one value holds everything. */
  lemma ConcentrationBound(vs: seq<nat>)
    requires Total(vs) > 0
    ensures Squares(vs, Total(vs)) <= BPS * BPS
    ensures Squares(vs, Total(vs)) == BPS * BPS <==> Nonzero(vs) == 1
  {
    var total := Total(vs);
    SharesAtMostWhole(vs);
    NonzeroTotal(vs);
    if Nonzero(vs) == 1 {
      SingleSquares(vs, total);
      ShareBound(total, total);
    } else {
      forall i | 0 <= i < |vs| ensures Share(vs[i], total) <= BPS - 1 {
        PartAtMostTotal(vs, i);
        ShareBound(vs[i], total);
      }
      SquaresBound(vs, total, BPS - 1);
    }
  }

  lemma SharesAtMostWhole(vs: seq<nat>)
    requires Total(vs) > 0
    ensures Shares(vs, Total(vs)) <= BPS
  {
    var total, s := Total(vs), Shares(vs, Total(vs));
    SharesBound(vs, total);
    AtMost(s, BPS, total);
  }

  lemma AtMost(a: nat, b: nat, m: nat)
    requires m > 0 && m * a <= m * b
    ensures a <= b
  {
    assert m * (a - b) <= 0;
  }
}
