/** The Base58 public-key decoder of `canonical-encode.ts`. */
module Base58 {
  import opened Common
  import opened Numerals

  datatype DecodeError = EmptyInput | InvalidChar(c: char) | WrongLength(bytes: nat)

  const ALPHABET := "123456789" + "ABCDEFGH" + "JKLMN" + "PQRSTUVWXYZ" + "abcdefghijk" + "mnopqrstuvwxyz"

  /** The character of a base-58 digit: six runs of consecutive characters. */
  function CharOf(v: nat): (c: char)
    requires v < 58
    ensures IndexOf(c) == Some(v)
  {
    if v < 9 then '1' + v as char
    else if v < 17 then 'A' + (v - 9) as char
    else if v < 22 then 'J' + (v - 17) as char
    else if v < 33 then 'P' + (v - 22) as char
    else if v < 44 then 'a' + (v - 33) as char
    else 'm' + (v - 44) as char
  }

  /** The lookup table `BASE58_INDEX`; `None` for a character outside the alphabet. */
  function IndexOf(c: char): (r: Option<nat>)
    ensures r.Some? ==> r.value < 58
  {
    var i := c as int;
    if '1' <= c <= '9' then Some(i - '1' as int)
    else if 'A' <= c <= 'H' then Some(9 + i - 'A' as int)
    else if 'J' <= c <= 'N' then Some(17 + i - 'J' as int)
    else if 'P' <= c <= 'Z' then Some(22 + i - 'P' as int)
    else if 'a' <= c <= 'k' then Some(33 + i - 'a' as int)
    else if 'm' <= c <= 'z' then Some(44 + i - 'm' as int)
    else None
  }

  /** The runs spell out the alphabet string the table is built from. */
  lemma AlphabetOrder(v: nat)
    requires v < 58
    ensures |ALPHABET| == 58 && ALPHABET[v] == CharOf(v)
  {
  }

  lemma CharOfIndex(c: char)
    requires IndexOf(c).Some?
    ensures CharOf(IndexOf(c).value) == c
  {
  }

  predicate Valid(s: string) {
    forall i :: 0 <= i < |s| ==> IndexOf(s[i]).Some?
  }

  function ToDigits(s: string): (ds: seq<nat>)
    requires Valid(s)
    ensures |ds| == |s| && InBase(58, ds)
    ensures forall i :: 0 <= i < |s| ==> Some(ds[i]) == IndexOf(s[i])
  {
    seq(|s|, i requires 0 <= i < |s| => IndexOf(s[i]).value)
  }

  function ToText(ds: seq<nat>): (s: string)
    requires InBase(58, ds)
    ensures |s| == |ds| && forall i :: 0 <= i < |s| ==> s[i] == CharOf(ds[i])
  {
    seq(|ds|, i requires 0 <= i < |ds| => CharOf(ds[i]))
  }

  /** The Base58 encoding of a byte string (section 3 of draft-msporny-base58). */
  function Encode(bytes: seq<nat>): (s: string)
    requires InBase(256, bytes)
    ensures Valid(s)
  {
    ToText(Convert(256, 58, bytes))
  }

  function FirstInvalid(s: string): (i: nat)
    ensures i <= |s| && Valid(s[..i])
    ensures i == |s| <==> Valid(s)
    ensures i < |s| ==> IndexOf(s[i]).None?
  {
    if s == [] || IndexOf(s[0]).None? then 0 else
      var i := 1 + FirstInvalid(s[1..]);
      assert forall k :: 0 < k < i ==> s[..i][k] == s[1..][..i - 1][k - 1];
      assert forall k :: 0 < k < |s| ==> s[k] == s[1..][k - 1];
      i
  }

  /** What decoding means: base conversion that keeps leading zeros, 32 bytes long. */
  function Decode(s: string): Result<seq<nat>, DecodeError> {
    if s == [] then Err(EmptyInput)
    else if !Valid(s) then Err(InvalidChar(s[FirstInvalid(s)]))
    else
      var out := Convert(58, 256, ToDigits(s));
      if |out| != 32 then Err(WrongLength(|out|)) else Ok(out)
  }

  // ---- The in-place conversion ------------------------------------------------

  /** `x & 0xff` and `x >>> 8` of a value that 32-bit operators represent exactly. */
  function Low8(x: nat): (r: nat)
    requires x < 0x8000_0000
    ensures r < 256
  {
    x % 256
  }

  function Shr8(x: nat): nat
    requires x < 0x8000_0000
  {
    x / 256
  }

  /** One pass over the little-endian bytes: multiply by 58, add `carry`, push the rest. */
  function MulAdd(bs: seq<nat>, carry: nat): (r: seq<nat>)
    requires InBase(256, bs) && carry < 58
    ensures InBase(256, r)
    ensures |bs| <= |r| <= |bs| + 1
  {
    if bs == [] then
      if carry > 0 then [carry] else []
    else
      var c := carry + bs[0] * 58;
      [Low8(c)] + MulAdd(bs[1..], Shr8(c))
  }

  lemma {:induction false} MulAddValue(bs: seq<nat>, carry: nat)
    requires InBase(256, bs) && carry < 58
    ensures ValueLE(256, MulAdd(bs, carry)) == 58 * ValueLE(256, bs) + carry
  {
    if bs == [] {
    } else {
      var c := carry + bs[0] * 58;
      MulAddValue(bs[1..], c / 256);
      assert MulAdd(bs, carry)[1..] == MulAdd(bs[1..], c / 256);
    }
  }

  predicate TopNonzero(bs: seq<nat>) {
    bs != [] ==> bs[|bs| - 1] != 0
  }

  lemma {:induction false} MulAddTop(bs: seq<nat>, carry: nat)
    requires InBase(256, bs) && carry < 58 && TopNonzero(bs)
    ensures TopNonzero(MulAdd(bs, carry))
    ensures bs != [] ==> MulAdd(bs, carry) != []
  {
    if |bs| > 1 {
      MulAddTop(bs[1..], (carry + bs[0] * 58) / 256);
    }
  }

  /** The inner loops for one character: the carry leaving every step is below 58. */
  method Accumulate(bs: seq<nat>, v: nat) returns (bytes: seq<nat>)
    requires InBase(256, bs) && v < 58
    ensures bytes == MulAdd(bs, v)
  {
    bytes := bs;
    var carry := v;
    ghost var done: seq<nat>, rest := [], bs;
    for j := 0 to |bs|
      invariant |done| == j && |done + rest| == |bs| && bytes == done + rest
      invariant carry < 58 && InBase(256, rest)
      invariant done + MulAdd(rest, carry) == MulAdd(bs, v)
    {
      MulAddStep(done, rest, carry);
      carry := carry + bytes[j] * 58;
      bytes := bytes[j := Low8(carry)];
      done, rest := done + [Low8(carry)], rest[1..];
      carry := Shr8(carry);
    }
    assert rest == [];
    while carry > 0
      invariant carry < 58
      invariant bytes + (if carry > 0 then [carry] else []) == MulAdd(bs, v)
      decreases carry
    {
      bytes := bytes + [Low8(carry)];
      carry := Shr8(carry);
    }
  }

  lemma MulAddStep(done: seq<nat>, bs: seq<nat>, carry: nat)
    requires InBase(256, bs) && carry < 58 && bs != []
    ensures Shr8(carry + bs[0] * 58) < 58
    ensures forall x: nat :: (done + bs)[|done| := x] == (done + [x]) + bs[1..]
    ensures done + MulAdd(bs, carry) ==
            (done + [Low8(carry + bs[0] * 58)]) + MulAdd(bs[1..], Shr8(carry + bs[0] * 58))
  {
  }

  method Decode32(s: string) returns (r: Result<seq<nat>, DecodeError>)
    ensures r == Decode(s)
  {
    if |s| == 0 {
      return Err(EmptyInput);
    }
    var leadingZeros := 0;
    while leadingZeros < |s| && s[leadingZeros] == '1'
      invariant leadingZeros <= |s|
      invariant forall i :: 0 <= i < leadingZeros ==> s[i] == '1'
    {
      leadingZeros := leadingZeros + 1;
    }
    var bytes: seq<nat> := [];
    for i := 0 to |s|
      invariant Valid(s[..i]) && InBase(256, bytes) && TopNonzero(bytes)
      invariant ValueLE(256, bytes) == Value(58, ToDigits(s[..i]))
    {
      var v := IndexOf(s[i]);
      if v.None? {
        FirstInvalidAt(s, i);
        return Err(InvalidChar(s[i]));
      }
      PrefixStep(s, i, bytes);
      bytes := Accumulate(bytes, v.value);
    }
    assert s[..|s|] == s;
    var out := WriteOut(leadingZeros, bytes);
    OutputIsConversion(s, leadingZeros, bytes);
    if |out| != 32 {
      return Err(WrongLength(|out|));
    }
    return Ok(out);
  }

  /** The output buffer: leading zero bytes, then the accumulated bytes most significant first. */
  method WriteOut(leadingZeros: nat, bytes: seq<nat>) returns (out: seq<nat>)
    ensures out == Zeros(leadingZeros) + Reverse(bytes)
  {
    out := Zeros(leadingZeros + |bytes|);
    for i := 0 to |bytes|
      invariant out == Zeros(leadingZeros + |bytes| - i) + Reverse(bytes[..i])
    {
      out := out[leadingZeros + (|bytes| - 1 - i) := bytes[i]];
      assert Reverse(bytes[..i + 1]) == [bytes[i]] + Reverse(bytes[..i]);
    }
    assert bytes[..|bytes|] == bytes;
  }

  lemma FirstInvalidAt(s: string, i: nat)
    requires i < |s| && Valid(s[..i]) && IndexOf(s[i]).None?
    ensures !Valid(s) && FirstInvalid(s) == i
  {
    assert forall k :: 0 <= k < i ==> s[..i][k] == s[k];
    var f := FirstInvalid(s);
    assert forall k :: 0 <= k < f ==> s[..f][k] == s[k];
  }

  /** Reading one more character multiplies the value by 58 and adds the digit. */
  lemma PrefixStep(s: string, i: nat, bytes: seq<nat>)
    requires i < |s| && Valid(s[..i]) && IndexOf(s[i]).Some?
    requires InBase(256, bytes) && TopNonzero(bytes)
    requires ValueLE(256, bytes) == Value(58, ToDigits(s[..i]))
    ensures Valid(s[..i + 1]) && TopNonzero(MulAdd(bytes, IndexOf(s[i]).value))
    ensures ValueLE(256, MulAdd(bytes, IndexOf(s[i]).value)) == Value(58, ToDigits(s[..i + 1]))
  {
    var v := IndexOf(s[i]).value;
    MulAddValue(bytes, v);
    MulAddTop(bytes, v);
    assert s[..i + 1] == s[..i] + [s[i]];
    assert ToDigits(s[..i + 1])[..i] == ToDigits(s[..i]);
  }

  lemma LeadingOnes(s: string, zeros: nat)
    requires Valid(s)
    requires zeros <= |s| && (forall i :: 0 <= i < zeros ==> s[i] == '1') && (zeros < |s| ==> s[zeros] != '1')
    ensures LeadingZeros(ToDigits(s)) == zeros
  {
    var ds := ToDigits(s);
    assert forall i :: 0 <= i < |s| ==> (ds[i] == 0 <==> s[i] == '1');
  }

  lemma OutputIsConversion(s: string, zeros: nat, bytes: seq<nat>)
    requires Valid(s) && InBase(256, bytes) && TopNonzero(bytes)
    requires ValueLE(256, bytes) == Value(58, ToDigits(s))
    requires zeros <= |s| && (forall i :: 0 <= i < zeros ==> s[i] == '1') && (zeros < |s| ==> s[zeros] != '1')
    ensures Zeros(zeros) + Reverse(bytes) == Convert(58, 256, ToDigits(s))
  {
    LeadingOnes(s, zeros);
    ValueReverse(256, bytes);
    DigitsOfValue(256, Reverse(bytes));
  }

  // ---- Main results -----------------------------------------------------------

  lemma TextRoundTrip(ds: seq<nat>)
    requires InBase(58, ds)
    ensures Valid(ToText(ds)) && ToDigits(ToText(ds)) == ds
  {
  }

  /** Decoding inverts encoding on every 32-byte value, leading zero bytes included. */
  lemma DecodeEncode(bytes: seq<nat>)
    requires InBase(256, bytes) && |bytes| == 32
    ensures Decode(Encode(bytes)) == Ok(bytes)
  {
    TextRoundTrip(Convert(256, 58, bytes));
    ConvertRoundTrip(256, 58, bytes);
  }

  /** Every accepted string is the encoding of what it decodes to. */
  lemma EncodeDecode(s: string)
    requires Decode(s).Ok?
    ensures InBase(256, Decode(s).value) && |Decode(s).value| == 32
    ensures Encode(Decode(s).value) == s
  {
    ConvertRoundTrip(58, 256, ToDigits(s));
    forall i | 0 <= i < |s| ensures CharOf(ToDigits(s)[i]) == s[i] {
      CharOfIndex(s[i]);
    }
  }

  /** Distinct accepted strings decode to distinct keys. */
  lemma DecodeInjective(s: string, t: string)
    requires Decode(s).Ok? && Decode(s) == Decode(t)
    ensures s == t
  {
    EncodeDecode(s);
    EncodeDecode(t);
  }
}
