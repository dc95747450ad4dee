/**
 * Dollar amounts as text: `formatDailyLimitUsd` of `agent-bootstrap.ts` writes what
 * `parseUsd` of `helpers/parse-usd.ts` reads.
 */
module UsdFormat {
  import opened Common
  import opened Numerals
  import opened Decimal

  const USD_BASE: nat := 1000000

  /** 10^21: amounts below it have at most 15 digits of whole dollars. */
  const READABLE: nat := 1000000000000000000000

  function Zeroes(k: nat): (s: string)
    ensures |s| == k && AllDigits(s) && forall i :: 0 <= i < k ==> s[i] == '0'
  {
    seq(k, _ => '0')
  }

  function PadStart(s: string, width: nat): string {
    if |s| >= width then s else Zeroes(width - |s|) + s
  }

  function PadEnd(s: string, width: nat): string {
    if |s| >= width then s else s + Zeroes(width - |s|)
  }

  /** The text without its trailing zeros. */
  function TrimZeros(s: string): (t: string)
    ensures t <= s
    ensures t != "" ==> t[|t| - 1] != '0'
    ensures forall i :: |t| <= i < |s| ==> s[i] == '0'
  {
    if s == "" || s[|s| - 1] != '0' then s else TrimZeros(s[..|s| - 1])
  }

  /** `$whole` or `$whole.fraction`. */
  function Text(whole: string, fraction: string): string {
    if fraction == "" then "$" + whole else "$" + whole + "." + fraction
  }

  function Fraction(micros: nat): string {
    if micros == 0 then "" else TrimZeros(PadStart(Dec(micros), 6))
  }

  /** `formatDailyLimitUsd`; `None` where it throws. */
  function Format(amount: int): Option<string> {
    if amount < 0 then None
    else Some(Text(Dec(amount / USD_BASE), Fraction(amount % USD_BASE)))
  }

  // ---- The reader -----------------------------------------------------------------------------

  function DigitRun(s: string): (n: nat)
    ensures n <= |s| && AllDigits(s[..n])
    ensures n < |s| ==> !IsDigit(s[n])
  {
    if s == "" || !IsDigit(s[0]) then 0 else
      var n := DigitRun(s[1..]);
      assert s[..n + 1] == [s[0]] + s[1..][..n];
      n + 1
  }

  predicate WholeOk(whole: string) {
    whole == "0" || (1 <= |whole| <= 15 && whole[0] != '0')
  }

  /** What the pattern admits: no leading zero, 15 whole digits, up to 6 fraction digits. */
  predicate InGrammar(whole: string, fraction: string) {
    AllDigits(whole) && WholeOk(whole) && AllDigits(fraction) && |fraction| <= 6
  }

  function Amount(whole: string, fraction: string): nat
    requires AllDigits(whole) && AllDigits(fraction)
  {
    ParseNat(whole) * USD_BASE + ParseNat(PadEnd(fraction, 6))
  }

  /** `parseUsd`: the longest run of digits is the whole part; `None` where it throws. */
  function ParseUsd(s: string): Option<nat> {
    if s == "" || s[0] != '$' then None else
      var w := DigitRun(s[1..]);
      ReadParts(s[1..][..w], s[1..][w..])
  }

  function ReadParts(whole: string, tail: string): Option<nat>
    requires AllDigits(whole)
  {
    if !WholeOk(whole) then None
    else if tail == "" then Some(ParseNat(whole) * USD_BASE)
    else if tail[0] == '.' && 2 <= |tail| <= 7 && AllDigits(tail[1..]) then Some(Amount(whole, tail[1..]))
    else None
  }

  lemma {:induction false} DigitRunOf(a: string, b: string)
    requires AllDigits(a) && (b == "" || !IsDigit(b[0]))
    ensures DigitRun(a + b) == |a|
  {
    if a == "" {
      assert a + b == b;
    } else {
      assert (a + b)[0] == a[0] && (a + b)[1..] == a[1..] + b;
      DigitRunOf(a[1..], b);
    }
  }

  lemma ZeroFraction()
    ensures ParseNat(PadEnd("", 6)) == 0
  {
    assert ToDigits(PadEnd("", 6)) == Zeros(6) + [];
    ValueZeros(10, 6, []);
  }

  lemma ParseParts(whole: string, tail: string)
    requires AllDigits(whole) && (tail == "" || !IsDigit(tail[0]))
    ensures var s := "$" + whole + tail;
            s[0] == '$' && DigitRun(s[1..]) == |whole| && s[1..][..|whole|] == whole && s[1..][|whole|..] == tail
  {
    var s := "$" + whole + tail;
    assert s[1..] == whole + tail;
    DigitRunOf(whole, tail);
  }

  /** The reader takes every text of the grammar to its amount. */
  lemma ParseText(whole: string, fraction: string)
    requires AllDigits(whole) && AllDigits(fraction) && |fraction| <= 6
    ensures ParseUsd(Text(whole, fraction)) == if WholeOk(whole) then Some(Amount(whole, fraction)) else None
  {
    if fraction == "" {
      ZeroFraction();
      ParseParts(whole, "");
      assert "$" + whole + "" == Text(whole, "");
    } else {
      var tail := "." + fraction;
      assert tail[1..] == fraction;
      ParseParts(whole, tail);
      assert "$" + whole + tail == Text(whole, fraction);
    }
  }

  /** The reader accepts nothing outside the grammar. */
  lemma ParseOnlyGrammar(s: string) returns (whole: string, fraction: string)
    requires ParseUsd(s).Some?
    ensures InGrammar(whole, fraction) && s == Text(whole, fraction)
  {
    var w := DigitRun(s[1..]);
    whole := s[1..][..w];
    var tail := s[1..][w..];
    fraction := if tail == "" then "" else tail[1..];
    assert s == "$" + s[1..];
    assert s[1..] == whole + tail;
    JoinText(whole, tail);
  }

  lemma JoinText(whole: string, tail: string)
    requires tail == "" || (|tail| > 1 && tail[0] == '.')
    ensures "$" + (whole + tail) == Text(whole, if tail == "" then "" else tail[1..])
  {
    if tail != "" {
      assert tail == "." + tail[1..];
    }
  }

  // ---- Widths -----------------------------------------------------------------------------------

  function Pow10(k: nat): (p: nat)
    ensures p >= 1
  {
    if k == 0 then 1 else 10 * Pow10(k - 1)
  }

  lemma {:induction false} DigitsWidth(n: nat, k: nat)
    ensures n < Pow10(k) <==> |Digits(10, n)| <= k
    decreases k
  {
    if k > 0 && n > 0 {
      DigitsWidth(n / 10, k - 1);
    }
  }

  lemma DecWidth(n: nat, k: nat)
    requires k >= 1
    ensures n < Pow10(k) <==> |Dec(n)| <= k
  {
    DigitsWidth(n, k);
  }

  lemma {:induction false} ValueBelow(ds: seq<nat>)
    requires InBase(10, ds)
    ensures Value(10, ds) < Pow10(|ds|)
  {
    if ds == [] {
    } else {
      ValueBelow(ds[..|ds| - 1]);
    }
  }

  lemma {:induction false} SameWidth(a: seq<nat>, b: seq<nat>)
    requires InBase(10, a) && InBase(10, b) && |a| == |b| && Value(10, a) == Value(10, b)
    ensures a == b
  {
    if a == [] {
    } else {
      var n := |a| - 1;
      DivModUnique(Value(10, a[..n]), a[n], 10);
      DivModUnique(Value(10, b[..n]), b[n], 10);
      SameWidth(a[..n], b[..n]);
      assert a == a[..n] + [a[n]] && b == b[..n] + [b[n]];
    }
  }

  lemma ToDigitsInjective(s: string, t: string)
    requires AllDigits(s) && AllDigits(t) && ToDigits(s) == ToDigits(t)
    ensures s == t
  {
    forall i | 0 <= i < |s| ensures s[i] == t[i] {
      assert ToDigits(s)[i] == ToDigits(t)[i];
    }
  }

  lemma Powers()
    ensures Pow10(6) == USD_BASE && Pow10(15) == 1000000000000000
  {
    assert Pow10(3) == 1000;
    assert Pow10(6) == 1000 * Pow10(3);
    assert Pow10(9) == 1000 * Pow10(6);
    assert Pow10(12) == 1000 * Pow10(9);
    assert Pow10(15) == 1000 * Pow10(12);
  }

  /** Six digits are those of their value, padded. */
  lemma PaddedDec(s: string)
    requires AllDigits(s) && |s| == 6
    ensures ParseNat(s) < USD_BASE && PadStart(Dec(ParseNat(s)), 6) == s
  {
    var n := ParseNat(s);
    Powers();
    ValueBelow(ToDigits(s));
    DecWidth(n, 6);
    PadStartValue(n);
    var t := PadStart(Dec(n), 6);
    SameWidth(ToDigits(s), ToDigits(t));
    ToDigitsInjective(s, t);
  }

  lemma PadStartValue(n: nat)
    ensures AllDigits(PadStart(Dec(n), 6)) && ParseNat(PadStart(Dec(n), 6)) == n
  {
    var d := Dec(n);
    ParseDec(n);
    if |d| < 6 {
      assert ToDigits(PadStart(d, 6)) == Zeros(6 - |d|) + ToDigits(d);
      ValueZeros(10, 6 - |d|, ToDigits(d));
    }
  }

  // ---- Trimming ---------------------------------------------------------------------------------

  lemma PadEndTrim(s: string)
    requires |s| == 6
    ensures PadEnd(TrimZeros(s), 6) == s
  {
  }

  lemma {:induction false} TrimUnique(s: string, t: string)
    requires t <= s && (t != "" ==> t[|t| - 1] != '0') && forall i :: |t| <= i < |s| ==> s[i] == '0'
    ensures TrimZeros(s) == t
  {
    if |t| == |s| {
      assert s == t;
    } else {
      TrimUnique(s[..|s| - 1], t);
    }
  }

  lemma TrimPadEnd(s: string)
    requires |s| <= 6
    ensures TrimZeros(PadEnd(s, 6)) == TrimZeros(s)
  {
    var p, t := PadEnd(s, 6), TrimZeros(s);
    assert t <= p;
    TrimUnique(p, t);
  }

  /** The fraction is at most six digits, never ends in a zero, and is missing only for whole dollars. */
  lemma FractionShape(micros: nat)
    requires micros < USD_BASE
    ensures var f := Fraction(micros);
            && AllDigits(f) && |f| <= 6
            && (f == "" <==> micros == 0)
            && (f != "" ==> f[|f| - 1] != '0')
            && ParseNat(PadEnd(f, 6)) == micros
  {
    if micros == 0 {
      ZeroFraction();
    } else {
      var padded := PadStart(Dec(micros), 6);
      Powers();
      DecWidth(micros, 6);
      PadStartValue(micros);
      PadEndTrim(padded);
      if TrimZeros(padded) == "" {
        assert PadEnd("", 6) == padded;
        ZeroFraction();
      }
    }
  }

  // ---- Round trips --------------------------------------------------------------------------------

  /**
   * Reading a formatted amount gives it back exactly when it is below 10^21; above that the text
   * has more than 15 whole digits and the reader refuses it. Only negative amounts have no text.
   */
  lemma ParseFormat(amount: int)
    ensures amount < 0 <==> Format(amount).None?
    ensures amount >= 0 ==> ParseUsd(Format(amount).value) == if amount < READABLE then Some(amount) else None
  {
    if amount >= 0 {
      var dollars, micros := amount / USD_BASE, amount % USD_BASE;
      FractionShape(micros);
      ParseText(Dec(dollars), Fraction(micros));
      ParseDec(dollars);
      Powers();
      DecWidth(dollars, 15);
    }
  }

  lemma DecParse(whole: string)
    requires AllDigits(whole) && WholeOk(whole)
    ensures Dec(ParseNat(whole)) == whole
  {
    if whole == "0" {
      ParseDec(0);
    } else {
      var ds := ToDigits(whole);
      assert ds[0] != 0;
      DigitsOfValue(10, ds);
      ToDigitsInjective(FromDigits(ds), whole);
    }
  }

  /** Formatting what was read gives the same text with the trailing zeros of its fraction dropped. */
  lemma FormatParse(whole: string, fraction: string)
    requires InGrammar(whole, fraction)
    ensures ParseUsd(Text(whole, fraction)).Some?
    ensures Format(ParseUsd(Text(whole, fraction)).value) == Some(Text(whole, TrimZeros(fraction)))
  {
    ParseText(whole, fraction);
    FormatAmount(whole, fraction);
  }

  lemma FormatAmount(whole: string, fraction: string)
    requires InGrammar(whole, fraction)
    ensures Format(Amount(whole, fraction)) == Some(Text(whole, TrimZeros(fraction)))
  {
    DecParse(whole);
    FractionOf(fraction);
    FormatOf(Amount(whole, fraction), ParseNat(whole), ParseNat(PadEnd(fraction, 6)), whole, TrimZeros(fraction));
  }

  lemma FormatOf(amount: nat, dollars: nat, micros: nat, whole: string, fraction: string)
    requires amount == dollars * USD_BASE + micros && micros < USD_BASE
    requires Dec(dollars) == whole && Fraction(micros) == fraction
    ensures Format(amount) == Some(Text(whole, fraction))
  {
    DivModUnique(dollars, micros, USD_BASE);
    assert amount / USD_BASE == dollars && amount % USD_BASE == micros;
  }

  lemma FractionOf(fraction: string)
    requires AllDigits(fraction) && |fraction| <= 6
    ensures ParseNat(PadEnd(fraction, 6)) < USD_BASE
    ensures Fraction(ParseNat(PadEnd(fraction, 6))) == TrimZeros(fraction)
  {
    TrimPadEnd(fraction);
    FractionOfSix(PadEnd(fraction, 6));
  }

  lemma FractionOfSix(s: string)
    requires AllDigits(s) && |s| == 6
    ensures ParseNat(s) < USD_BASE && Fraction(ParseNat(s)) == TrimZeros(s)
  {
    PaddedDec(s);
    if ParseNat(s) == 0 {
      AllZeros(s);
    }
  }

  lemma AllZeros(s: string)
    requires s == PadStart("0", 6)
    ensures TrimZeros(s) == ""
  {
    TrimUnique(s, "");
  }

  /** Different amounts never share a text, however large. */
  lemma FormatInjective(a: nat, b: nat)
    requires Format(a) == Format(b)
    ensures a == b
  {
    var da, db, fa, fb := Dec(a / USD_BASE), Dec(b / USD_BASE), Fraction(a % USD_BASE), Fraction(b % USD_BASE);
    FractionShape(a % USD_BASE);
    FractionShape(b % USD_BASE);
    TextParts(da, fa, db, fb);
    ParseDec(a / USD_BASE);
    ParseDec(b / USD_BASE);
  }

  lemma TextParts(w: string, f: string, w': string, f': string)
    requires AllDigits(w) && AllDigits(w') && Text(w, f) == Text(w', f')
    ensures w == w' && f == f'
  {
    var tail, tail' := if f == "" then "" else "." + f, if f' == "" then "" else "." + f';
    assert "$" + w + tail == Text(w, f) && "$" + w' + tail' == Text(w', f');
    ParseParts(w, tail);
    ParseParts(w', tail');
    assert w == w' && tail == tail';
    assert f != "" ==> tail[1..] == f;
    assert f' != "" ==> tail'[1..] == f';
  }
}
