/** Decimal text of integers, as `bigint.toString()` writes it and `BigInt()` reads it. */
module Decimal {
  import opened Common
  import opened Numerals

  predicate IsDigit(c: char) { '0' <= c <= '9' }

  function DigitChar(d: nat): (c: char)
    requires d < 10
    ensures IsDigit(c) && DigitOf(c) == d
    ensures c == '0' <==> d == 0
  {
    '0' + d as char
  }

  function DigitOf(c: char): (d: nat)
    requires IsDigit(c)
    ensures d < 10
  {
    c as int - '0' as int
  }

  predicate AllDigits(s: string) {
    forall i :: 0 <= i < |s| ==> IsDigit(s[i])
  }

  function ToDigits(s: string): (ds: seq<nat>)
    requires AllDigits(s)
    ensures |ds| == |s| && forall i :: 0 <= i < |s| ==> ds[i] == DigitOf(s[i])
  {
    seq(|s|, i requires 0 <= i < |s| => DigitOf(s[i]))
  }

  function FromDigits(ds: seq<nat>): (s: string)
    requires InBase(10, ds)
    ensures |s| == |ds| && AllDigits(s) && forall i :: 0 <= i < |s| ==> s[i] == DigitChar(ds[i])
  {
    seq(|ds|, i requires 0 <= i < |ds| => DigitChar(ds[i]))
  }

  /** Decimal text of a natural number. */
  function Dec(n: nat): (s: string)
    ensures AllDigits(s) && s != ""
    ensures n > 0 ==> s[0] != '0'
  {
    if n == 0 then "0" else FromDigits(Digits(10, n))
  }

  function ParseNat(s: string): nat
    requires AllDigits(s)
  {
    Value(10, ToDigits(s))
  }

  lemma ParseFromDigits(ds: seq<nat>)
    requires InBase(10, ds)
    ensures ParseNat(FromDigits(ds)) == Value(10, ds)
  {
    assert ToDigits(FromDigits(ds)) == ds;
  }

  lemma ParseDec(n: nat)
    ensures ParseNat(Dec(n)) == n
  {
    if n == 0 {
      assert ToDigits("0") == [0];
      assert [0][..0] == [];
      assert Value(10, [0]) == 0;
    } else {
      ParseFromDigits(Digits(10, n));
      ValueOfDigits(10, n);
    }
  }

  /** `bigint.toString()`. */
  function Show(n: int): string {
    if n < 0 then "-" + Dec(-n) else Dec(n)
  }

  /** `BigInt(text)` on decimal text; `None` where it throws. */
  function Read(s: string): Option<int> {
    if s != "" && AllDigits(s) then Some(ParseNat(s))
    else if |s| > 1 && s[0] == '-' && AllDigits(s[1..]) then
      var n: int := ParseNat(s[1..]);
      Some(-n)
    else None
  }

  /** Every integer survives being written and read. */
  lemma ReadShow(n: int)
    ensures Read(Show(n)) == Some(n)
  {
    var d: nat := if n < 0 then -n else n;
    var s := Dec(d);
    ParseDec(d);
    if n < 0 {
      var t := "-" + s;
      assert t[0] == '-' && t[1..] == s;
      assert !AllDigits(t);
    }
  }
}
