/**
 * The canonical byte encoding behind `computeSealInputDigest`: the string that is
 * hashed to bind a signature to one specific call. SHA-256 itself is left out; the
 * results say which inputs reach the hash as the same bytes.
 */
module IntentDigest {
  import opened Common
  import opened Numerals
  import opened Base58

  type Byte = b: nat | b < 256

  datatype Meta = Meta(address: string, role: Option<int>)

  datatype Ix = Ix(program: string, accounts: seq<Meta>, data: seq<Byte>)

  datatype Intent = Intent(
    vault: string, agent: string, mint: string, amount: int,
    target: Option<string>, network: string, instructions: seq<Ix>)

  datatype IntentError =
    | NegativeAmount | BadNetwork | BadKey(error: DecodeError)
    | MissingProgram | MissingAddress | MissingRole | BadRole | SizeMismatch

  const SYSTEM_PROGRAM := "11111111111111111111111111111111"
  const MAGIC: seq<nat> := [0x53, 0x49, 0x47, 0x31]
  const VERSION: nat := 2
  const FIXED: nat := 4 + 1 + 1 + 32 + 32 + 32 + 8 + 32 + 4

  // ---- Decoded form -----------------------------------------------------------

  type Key = k: seq<nat> | |k| == 32 && InBase(256, k) witness Zeros(32)

  datatype RawMeta = RawMeta(address: Key, role: nat)

  datatype RawIx = RawIx(program: Key, accounts: seq<RawMeta>, data: seq<Byte>)

  datatype Raw = Raw(network: nat, vault: Key, agent: Key, mint: Key, amount: nat, target: Key, ixs: seq<RawIx>)

  function DecodeKey(s: string): (r: Result<Key, IntentError>)
    ensures r.Ok? <==> Decode(s).Ok?
    ensures r.Ok? ==> Decode(s) == Ok(r.value)
  {
    if Decode(s).Err? then Err(BadKey(Decode(s).error)) else
      EncodeDecode(s);
      Ok(Decode(s).value)
  }

  function DecodeMeta(m: Meta): Result<RawMeta, IntentError> {
    if m.address == "" then Err(MissingAddress)
    else if m.role.None? then Err(MissingRole)
    else if m.role.value < 0 || m.role.value > 3 then Err(BadRole)
    else match DecodeKey(m.address)
      case Err(e) => Err(e)
      case Ok(k) => Ok(RawMeta(k, m.role.value))
  }

  function DecodeMetas(ms: seq<Meta>): (r: Result<seq<RawMeta>, IntentError>)
    ensures r.Ok? ==> |r.value| == |ms|
  {
    if ms == [] then Ok([]) else
      match DecodeMeta(ms[0])
      case Err(e) => Err(e)
      case Ok(m) =>
        match DecodeMetas(ms[1..])
        case Err(e) => Err(e)
        case Ok(rest) => Ok([m] + rest)
  }

  function DecodeIx(ix: Ix): (r: Result<RawIx, IntentError>)
    ensures r.Ok? ==> |r.value.accounts| == |ix.accounts| && r.value.data == ix.data
  {
    if ix.program == "" then Err(MissingProgram) else
      match DecodeKey(ix.program)
      case Err(e) => Err(e)
      case Ok(p) =>
        match DecodeMetas(ix.accounts)
        case Err(e) => Err(e)
        case Ok(ms) => Ok(RawIx(p, ms, ix.data))
  }

  function DecodeIxs(ixs: seq<Ix>): (r: Result<seq<RawIx>, IntentError>)
    ensures r.Ok? ==> |r.value| == |ixs|
  {
    if ixs == [] then Ok([]) else
      match DecodeIx(ixs[0])
      case Err(e) => Err(e)
      case Ok(x) =>
        match DecodeIxs(ixs[1..])
        case Err(e) => Err(e)
        case Ok(rest) => Ok([x] + rest)
  }

  function TargetKey(t: Option<string>): Result<Key, IntentError> {
    if t.None? then Ok(Zeros(32)) else DecodeKey(t.value)
  }

  /** Validation, in the order the source reports errors. */
  function Prepare(i: Intent): Result<Raw, IntentError> {
    if i.amount < 0 then Err(NegativeAmount)
    else if i.network != "mainnet" && i.network != "devnet" then Err(BadNetwork)
    else match DecodeKey(i.vault) case Err(e) => Err(e) case Ok(v) =>
    match DecodeKey(i.agent) case Err(e) => Err(e) case Ok(a) =>
    match DecodeKey(i.mint) case Err(e) => Err(e) case Ok(m) =>
    match TargetKey(i.target) case Err(e) => Err(e) case Ok(t) =>
    match DecodeIxs(i.instructions) case Err(e) => Err(e) case Ok(xs) =>
    Ok(Raw(if i.network == "mainnet" then 1 else 0, v, a, m, i.amount, t, xs))
  }

  // ---- Byte layout ------------------------------------------------------------

  /** `setUint32` and `setBigUint64` keep the value modulo the field width. */
  function U32(n: nat): (bs: seq<nat>)
    ensures |bs| == 4
  {
    LE(4, n % 0x1_0000_0000)
  }

  function U64(n: nat): (bs: seq<nat>)
    ensures |bs| == 8
  {
    LE(8, n % 0x1_0000_0000_0000_0000)
  }

  function MetasBytes(ms: seq<RawMeta>): (bs: seq<nat>)
    ensures |bs| == 33 * |ms|
  {
    if ms == [] then [] else ms[0].address + [ms[0].role % 256] + MetasBytes(ms[1..])
  }

  function IxBytes(x: RawIx): (bs: seq<nat>)
    ensures |bs| == 32 + 4 + 33 * |x.accounts| + 4 + |x.data|
  {
    x.program + U32(|x.accounts|) + MetasBytes(x.accounts) + U32(|x.data|) + x.data
  }

  function IxsBytes(xs: seq<RawIx>): seq<nat> {
    if xs == [] then [] else IxBytes(xs[0]) + IxsBytes(xs[1..])
  }

  function Header(r: Raw): (bs: seq<nat>)
    ensures |bs| == FIXED
  {
    MAGIC + [VERSION] + [r.network % 256] + r.vault + r.agent + r.mint + U64(r.amount) + r.target + U32(|r.ixs|)
  }

  function Encode(i: Intent): Result<seq<nat>, IntentError> {
    match Prepare(i)
    case Err(e) => Err(e)
    case Ok(r) => Ok(Header(r) + IxsBytes(r.ixs))
  }

  // ---- The encoding is injective ---------------------------------------------

  lemma Split<T>(a: seq<T>, x: seq<T>, b: seq<T>, y: seq<T>)
    requires a + x == b + y && |a| == |b|
    ensures a == b && x == y
  {
    assert a == (a + x)[..|a|] && x == (a + x)[|a|..];
    assert b == (b + y)[..|b|] && y == (b + y)[|b|..];
  }

  lemma Pow256Widths()
    ensures Pow256(4) == 0x1_0000_0000 && Pow256(8) == 0x1_0000_0000_0000_0000
  {
    assert Pow256(2) == 0x1_0000;
    assert Pow256(4) == 0x1_0000_0000;
    assert Pow256(6) == 0x1_0000_0000_0000;
  }

  lemma U32Injective(m: nat, n: nat)
    requires U32(m) == U32(n)
    ensures m % 0x1_0000_0000 == n % 0x1_0000_0000
  {
    Pow256Widths();
    LEInjective(4, m % 0x1_0000_0000, n % 0x1_0000_0000);
  }

  lemma LengthInjective(m: nat, x: seq<nat>, n: nat, y: seq<nat>)
    requires m < 0x1_0000_0000 && n < 0x1_0000_0000 && U32(m) + x == U32(n) + y
    ensures m == n && x == y
  {
    Split(U32(m), x, U32(n), y);
    U32Injective(m, n);
  }

  lemma U64Injective(m: nat, n: nat)
    requires U64(m) == U64(n)
    ensures m % 0x1_0000_0000_0000_0000 == n % 0x1_0000_0000_0000_0000
  {
    Pow256Widths();
    LEInjective(8, m % 0x1_0000_0000_0000_0000, n % 0x1_0000_0000_0000_0000);
  }

  ghost predicate Roles(ms: seq<RawMeta>) {
    forall k :: 0 <= k < |ms| ==> ms[k].role < 256
  }

  ghost predicate Fits(x: RawIx) {
    |x.accounts| < 0x1_0000_0000 && |x.data| < 0x1_0000_0000 && Roles(x.accounts)
  }

  lemma {:induction false} MetasInjective(a: seq<RawMeta>, x: seq<nat>, b: seq<RawMeta>, y: seq<nat>)
    requires |a| == |b| && Roles(a) && Roles(b) && MetasBytes(a) + x == MetasBytes(b) + y
    ensures a == b && x == y
  {
    if a == [] {
      Split([], x, [], y);
    } else {
      var ra, rb := MetasBytes(a[1..]) + x, MetasBytes(b[1..]) + y;
      assert MetasBytes(a) + x == a[0].address + ([a[0].role % 256] + ra);
      assert MetasBytes(b) + y == b[0].address + ([b[0].role % 256] + rb);
      Split(a[0].address, [a[0].role % 256] + ra, b[0].address, [b[0].role % 256] + rb);
      Split([a[0].role % 256], ra, [b[0].role % 256], rb);
      MetasInjective(a[1..], x, b[1..], y);
      assert a == [a[0]] + a[1..] && b == [b[0]] + b[1..];
    }
  }

  lemma IxLayout(a: RawIx, x: seq<nat>) returns (c: seq<nat>, m: seq<nat>, u: seq<nat>, d: seq<nat>)
    ensures IxBytes(a) + x == a.program + c && c == U32(|a.accounts|) + m
    ensures m == MetasBytes(a.accounts) + u && u == U32(|a.data|) + d && d == a.data + x
  {
    d := a.data + x;
    u := U32(|a.data|) + d;
    m := MetasBytes(a.accounts) + u;
    c := U32(|a.accounts|) + m;
  }

  /** An instruction's bytes are self-delimiting: no encoding extends into the next. */
  lemma IxInjective(a: RawIx, x: seq<nat>, b: RawIx, y: seq<nat>)
    requires Fits(a) && Fits(b) && IxBytes(a) + x == IxBytes(b) + y
    ensures a == b && x == y
  {
    var ca, ma, ua, da := IxLayout(a, x);
    var cb, mb, ub, db := IxLayout(b, y);
    Split(a.program, ca, b.program, cb);
    LengthInjective(|a.accounts|, ma, |b.accounts|, mb);
    MetasInjective(a.accounts, ua, b.accounts, ub);
    LengthInjective(|a.data|, da, |b.data|, db);
    Split(a.data, x, b.data, y);
  }

  lemma {:induction false} IxsInjective(a: seq<RawIx>, b: seq<RawIx>)
    requires |a| == |b| && IxsBytes(a) == IxsBytes(b)
    requires forall k :: 0 <= k < |a| ==> Fits(a[k]) && Fits(b[k])
    ensures a == b
  {
    if a == [] {
    } else {
      IxInjective(a[0], IxsBytes(a[1..]), b[0], IxsBytes(b[1..]));
      IxsInjective(a[1..], b[1..]);
      assert a == [a[0]] + a[1..] && b == [b[0]] + b[1..];
    }
  }

  lemma HeaderLayout(a: Raw)
    ensures Header(a)[5] == a.network % 256
    ensures Header(a)[6..38] == a.vault && Header(a)[38..70] == a.agent && Header(a)[70..102] == a.mint
    ensures Header(a)[102..110] == U64(a.amount) && Header(a)[110..142] == a.target
    ensures Header(a)[142..146] == U32(|a.ixs|)
  {
  }

  lemma HeaderInjective(a: Raw, b: Raw)
    requires Header(a) == Header(b)
    requires a.network < 256 && b.network < 256 && |a.ixs| < 0x1_0000_0000 && |b.ixs| < 0x1_0000_0000
    ensures a.network == b.network && a.vault == b.vault && a.agent == b.agent && a.mint == b.mint
    ensures a.amount % 0x1_0000_0000_0000_0000 == b.amount % 0x1_0000_0000_0000_0000
    ensures a.target == b.target && |a.ixs| == |b.ixs|
  {
    HeaderLayout(a);
    HeaderLayout(b);
    U64Injective(a.amount, b.amount);
    U32Injective(|a.ixs|, |b.ixs|);
  }

  // ---- Back to the caller's strings -------------------------------------------

  /** The list lengths a 32-bit length field can hold. */
  predicate Framed(i: Intent) {
    && |i.instructions| < 0x1_0000_0000
    && forall k :: 0 <= k < |i.instructions| ==>
         |i.instructions[k].accounts| < 0x1_0000_0000 && |i.instructions[k].data| < 0x1_0000_0000
  }

  /** The same call: an absent target means the system program, amounts are 64-bit. */
  predicate SameCall(i: Intent, j: Intent) {
    && i.vault == j.vault && i.agent == j.agent && i.mint == j.mint && i.network == j.network
    && i.amount % 0x1_0000_0000_0000_0000 == j.amount % 0x1_0000_0000_0000_0000
    && TargetOf(i) == TargetOf(j)
    && i.instructions == j.instructions
  }

  function TargetOf(i: Intent): string {
    if i.target.None? then SYSTEM_PROGRAM else i.target.value
  }

  lemma {:induction false} MetasDetermine(a: seq<Meta>, b: seq<Meta>)
    requires DecodeMetas(a).Ok? && DecodeMetas(a) == DecodeMetas(b)
    ensures a == b
  {
    if a == [] {
    } else {
      assert DecodeMetas(a).value[0] == DecodeMetas(b).value[0];
      assert DecodeMetas(a).value[1..] == DecodeMetas(a[1..]).value;
      assert DecodeMetas(b).value[1..] == DecodeMetas(b[1..]).value;
      DecodeInjective(a[0].address, b[0].address);
      MetasDetermine(a[1..], b[1..]);
      assert a == [a[0]] + a[1..] && b == [b[0]] + b[1..];
    }
  }

  lemma {:induction false} IxsDetermine(a: seq<Ix>, b: seq<Ix>)
    requires DecodeIxs(a).Ok? && DecodeIxs(a) == DecodeIxs(b)
    ensures a == b
  {
    if a == [] {
    } else {
      var ra, rb := DecodeIxs(a).value, DecodeIxs(b).value;
      assert ra[0] == DecodeIx(a[0]).value && rb[0] == DecodeIx(b[0]).value;
      assert ra[1..] == DecodeIxs(a[1..]).value && rb[1..] == DecodeIxs(b[1..]).value;
      DecodeInjective(a[0].program, b[0].program);
      MetasDetermine(a[0].accounts, b[0].accounts);
      IxsDetermine(a[1..], b[1..]);
      assert a == [a[0]] + a[1..] && b == [b[0]] + b[1..];
    }
  }

  lemma {:induction false} DecodedRoles(ms: seq<Meta>)
    requires DecodeMetas(ms).Ok?
    ensures Roles(DecodeMetas(ms).value)
  {
    if ms == [] {
    } else {
      DecodedRoles(ms[1..]);
    }
  }

  lemma {:induction false} DecodedFits(xs: seq<Ix>)
    requires DecodeIxs(xs).Ok?
    requires forall k :: 0 <= k < |xs| ==> |xs[k].accounts| < 0x1_0000_0000 && |xs[k].data| < 0x1_0000_0000
    ensures forall k :: 0 <= k < |xs| ==> Fits(DecodeIxs(xs).value[k])
  {
    if xs == [] {
    } else {
      DecodedRoles(xs[0].accounts);
      DecodedFits(xs[1..]);
      assert DecodeIxs(xs).value == [DecodeIx(xs[0]).value] + DecodeIxs(xs[1..]).value;
    }
  }

  /** The omitted target is encoded exactly as the system program's address. */
  lemma SystemProgramIsZeros()
    ensures DecodeKey(SYSTEM_PROGRAM) == Ok(Zeros(32))
  {
    var s := SYSTEM_PROGRAM;
    assert forall k :: 0 <= k < |s| ==> s[k] == '1';
    assert Valid(s);
    assert ToDigits(s) == Zeros(32);
    LeadingZerosOf(32, []);
    assert Zeros(32) + [] == Zeros(32);
    ValueZeros(58, 32, []);
    assert Decode(s) == Ok(Zeros(32));
  }

  lemma TargetDetermines(a: Intent, b: Intent)
    requires TargetKey(a.target).Ok? && TargetKey(b.target).Ok?
    ensures TargetKey(a.target) == TargetKey(b.target) <==> TargetOf(a) == TargetOf(b)
  {
    SystemProgramIsZeros();
    assert TargetKey(a.target) == DecodeKey(TargetOf(a));
    assert TargetKey(b.target) == DecodeKey(TargetOf(b));
    if DecodeKey(TargetOf(a)) == DecodeKey(TargetOf(b)) {
      DecodeInjective(TargetOf(a), TargetOf(b));
    }
  }

  /** Inputs that are accepted and framed exist, for every amount. */
  lemma PlainIntentAccepted(amount: nat)
    ensures var i := Intent(SYSTEM_PROGRAM, SYSTEM_PROGRAM, SYSTEM_PROGRAM, amount, None, "devnet", []);
            Encode(i).Ok? && Framed(i)
  {
    SystemProgramIsZeros();
  }

  /** Two accepted inputs are hashed as the same bytes exactly when they are the same call. */
  lemma EncodeInjective(i: Intent, j: Intent)
    requires Encode(i).Ok? && Encode(j).Ok? && Framed(i) && Framed(j)
    ensures Encode(i) == Encode(j) <==> SameCall(i, j)
  {
    var a, b := Prepare(i).value, Prepare(j).value;
    TargetDetermines(i, j);
    if Encode(i) == Encode(j) {
      Split(Header(a), IxsBytes(a.ixs), Header(b), IxsBytes(b.ixs));
      HeaderInjective(a, b);
      DecodedFits(i.instructions);
      DecodedFits(j.instructions);
      IxsInjective(a.ixs, b.ixs);
      IxsDetermine(i.instructions, j.instructions);
      DecodeInjective(i.vault, j.vault);
      DecodeInjective(i.agent, j.agent);
      DecodeInjective(i.mint, j.mint);
    }
    if SameCall(i, j) {
      assert a.(amount := 0) == b.(amount := 0);
      assert Header(a) == Header(b);
    }
  }

  // ---- Where the length fields wrap -------------------------------------------------

  const WRAP: nat := 0x1_0000_0000

  predicate AllZero(bs: seq<nat>) {
    forall i :: 0 <= i < |bs| ==> bs[i] == 0
  }

  function Blanks(n: nat): (d: seq<Byte>)
    ensures |d| == n && AllZero(d)
  {
    seq(n, _ => 0)
  }

  lemma WrappedLengthIsZero(n: nat)
    requires n % WRAP == 0
    ensures AllZero(U32(n))
  {
    forall i | 0 <= i < 4 ensures U32(n)[i] == 0 {
      assert 0 / Pow256(i) == 0;
    }
  }

  /** The bytes of a blank instruction of the system program with blank data. */
  lemma BlankIx(n: nat)
    requires n % WRAP == 0
    ensures DecodeIx(Ix(SYSTEM_PROGRAM, [], Blanks(n))) == Ok(RawIx(Zeros(32), [], Blanks(n)))
    ensures var bs := IxBytes(RawIx(Zeros(32), [], Blanks(n))); |bs| == 40 + n && AllZero(bs)
  {
    SystemProgramIsZeros();
    WrappedLengthIsZero(0);
    WrappedLengthIsZero(n);
  }

  lemma TwoIxs(a: Ix, b: Ix)
    requires DecodeIx(a).Ok? && DecodeIx(b).Ok?
    ensures DecodeIxs([a, b]) == Ok([DecodeIx(a).value, DecodeIx(b).value])
  {
    var x, y := DecodeIx(a).value, DecodeIx(b).value;
    assert [a, b][1..] == [b] && [b][1..] == [];
    assert DecodeIxs([]) == Ok([]);
    assert [y] + [] == [y] && [x] + [y] == [x, y];
    assert DecodeIxs([b]) == Ok([y]);
  }

  lemma TwoIxsBytes(x: RawIx, y: RawIx)
    ensures IxsBytes([x, y]) == IxBytes(x) + IxBytes(y)
  {
    assert [x, y][1..] == [y] && [y][1..] == [];
    assert IxsBytes([]) == [];
    assert IxsBytes([y]) == IxBytes(y) + [];
    assert IxBytes(y) + [] == IxBytes(y);
  }

  function BlankRaw(first: nat, second: nat): Raw {
    Raw(0, Zeros(32), Zeros(32), Zeros(32), 0, Zeros(32),
        [RawIx(Zeros(32), [], Blanks(first)), RawIx(Zeros(32), [], Blanks(second))])
  }

  /** Two instructions of the system program, with nothing but zeros to say. */
  function Blank(first: nat, second: nat): Intent {
    Intent(SYSTEM_PROGRAM, SYSTEM_PROGRAM, SYSTEM_PROGRAM, 0, None, "devnet",
           [Ix(SYSTEM_PROGRAM, [], Blanks(first)), Ix(SYSTEM_PROGRAM, [], Blanks(second))])
  }

  lemma BlankPrepares(first: nat, second: nat)
    requires first % WRAP == 0 && second % WRAP == 0
    ensures Prepare(Blank(first, second)) == Ok(BlankRaw(first, second))
  {
    SystemProgramIsZeros();
    BlankIx(first);
    BlankIx(second);
    TwoIxs(Ix(SYSTEM_PROGRAM, [], Blanks(first)), Ix(SYSTEM_PROGRAM, [], Blanks(second)));
  }

  lemma BlankBytes(first: nat, second: nat)
    requires first % WRAP == 0 && second % WRAP == 0
    ensures IxsBytes(BlankRaw(first, second).ixs) == Zeros(80 + first + second)
  {
    var x, y := RawIx(Zeros(32), [], Blanks(first)), RawIx(Zeros(32), [], Blanks(second));
    BlankIx(first);
    BlankIx(second);
    TwoIxsBytes(x, y);
    SameZeros(IxBytes(x) + IxBytes(y), 80 + first + second);
  }

  lemma BlankEncodes(first: nat, second: nat)
    requires first % WRAP == 0 && second % WRAP == 0
    ensures Encode(Blank(first, second)) == Ok(Header(BlankRaw(first, second)) + Zeros(80 + first + second))
  {
    BlankPrepares(first, second);
    BlankBytes(first, second);
  }

  lemma BlanksDiffer(first: nat, second: nat)
    requires first != second
    ensures Blank(first, second).instructions != Blank(second, first).instructions
  {
    assert |Blank(first, second).instructions[0].data| == first;
    assert |Blank(second, first).instructions[0].data| == second;
  }

  lemma SameZeros(bs: seq<nat>, n: nat)
    requires AllZero(bs) && |bs| == n
    ensures bs == Zeros(n)
  {
  }

  lemma HeaderOfCount(a: Raw, b: Raw)
    requires a.(ixs := []) == b.(ixs := []) && |a.ixs| == |b.ixs|
    ensures Header(a) == Header(b)
  {
  }

  /**
   * The bound on lengths is needed: moving 2^32 bytes of data from the second instruction to
   * the first changes the call but not the encoding.
   */
  lemma LengthsWrap()
    ensures Encode(Blank(0, WRAP)).Ok? && Encode(Blank(0, WRAP)) == Encode(Blank(WRAP, 0))
    ensures !SameCall(Blank(0, WRAP), Blank(WRAP, 0))
  {
    BlankEncodes(0, WRAP);
    BlankEncodes(WRAP, 0);
    HeaderOfCount(BlankRaw(0, WRAP), BlankRaw(WRAP, 0));
    BlanksDiffer(0, WRAP);
  }

  lemma EncodeAmount(i: Intent, amount: int)
    requires Encode(i).Ok? && amount >= 0
    ensures Encode(i.(amount := amount)).Ok?
  {
    var j := i.(amount := amount);
    assert DecodeKey(j.vault).Ok? && DecodeKey(j.agent).Ok? && DecodeKey(j.mint).Ok?;
    assert TargetKey(j.target).Ok? && DecodeIxs(j.instructions).Ok?;
  }

  /** So an amount below 2^64 is bound exactly, and one 2^64 larger is not told apart from it. */
  lemma AmountBound(i: Intent, amount: int)
    requires Encode(i).Ok? && Framed(i) && amount >= 0
    ensures Encode(i.(amount := amount)) == Encode(i)
            <==> amount % 0x1_0000_0000_0000_0000 == i.amount % 0x1_0000_0000_0000_0000
  {
    var j := i.(amount := amount);
    EncodeAmount(i, amount);
    assert Framed(j);
    assert TargetOf(j) == TargetOf(i);
    EncodeInjective(j, i);
  }

  // ---- The buffer writer ------------------------------------------------------

  /** Store `bytes` at the cursor and return the advanced cursor. */
  method Put(buf: array<nat>, off: nat, bytes: seq<nat>) returns (next: nat)
    requires off + |bytes| <= buf.Length
    modifies buf
    ensures next == off + |bytes|
    ensures buf[..next] == old(buf[..off]) + bytes
  {
    for k := 0 to |bytes|
      invariant buf[..off + k] == old(buf[..off]) + bytes[..k]
    {
      buf[off + k] := bytes[k];
      assert buf[..off + k + 1] == buf[..off + k] + [bytes[k]];
      assert bytes[..k + 1] == bytes[..k] + [bytes[k]];
    }
    assert bytes[..|bytes|] == bytes;
    next := off + |bytes|;
  }

  method PutHeader(buf: array<nat>, r: Raw) returns (off: nat)
    requires FIXED <= buf.Length
    modifies buf
    ensures off == FIXED && buf[..off] == Header(r)
  {
    off := Put(buf, 0, MAGIC);
    assert buf[..off] == MAGIC;
    off := Put(buf, off, [VERSION]);
    off := Put(buf, off, [r.network % 256]);
    assert buf[..off] == MAGIC + [VERSION] + [r.network % 256];
    off := Put(buf, off, r.vault);
    off := Put(buf, off, r.agent);
    off := Put(buf, off, r.mint);
    assert buf[..off] == MAGIC + [VERSION] + [r.network % 256] + r.vault + r.agent + r.mint;
    off := Put(buf, off, U64(r.amount));
    off := Put(buf, off, r.target);
    off := Put(buf, off, U32(|r.ixs|));
  }

  method PutMetas(buf: array<nat>, start: nat, ms: seq<RawMeta>) returns (off: nat)
    requires start + 33 * |ms| <= buf.Length
    modifies buf
    ensures off == start + 33 * |ms|
    ensures buf[..off] == old(buf[..start]) + MetasBytes(ms)
  {
    off := start;
    ghost var total := buf[..start] + MetasBytes(ms);
    for k := 0 to |ms|
      invariant off == start + 33 * k
      invariant buf[..off] + MetasBytes(ms[k..]) == total
    {
      assert ms[k..][1..] == ms[k + 1..];
      ghost var done, rest := buf[..off], MetasBytes(ms[k + 1..]);
      assert done + (ms[k].address + [ms[k].role % 256] + rest)
             == done + ms[k].address + [ms[k].role % 256] + rest;
      off := Put(buf, off, ms[k].address);
      off := Put(buf, off, [ms[k].role % 256]);
    }
    assert buf[..off] + MetasBytes([]) == buf[..off];
  }

  method PutIx(buf: array<nat>, start: nat, x: RawIx) returns (off: nat)
    requires start + |IxBytes(x)| <= buf.Length
    modifies buf
    ensures off == start + |IxBytes(x)|
    ensures buf[..off] == old(buf[..start]) + IxBytes(x)
  {
    ghost var before := buf[..start];
    off := Put(buf, start, x.program);
    off := Put(buf, off, U32(|x.accounts|));
    off := PutMetas(buf, off, x.accounts);
    off := Put(buf, off, U32(|x.data|));
    off := Put(buf, off, x.data);
    assert buf[..off] == before + x.program + U32(|x.accounts|) + MetasBytes(x.accounts) + U32(|x.data|) + x.data;
    assert buf[..off] == before + IxBytes(x);
  }

  method PutIxs(buf: array<nat>, start: nat, xs: seq<RawIx>) returns (off: nat)
    requires start + |IxsBytes(xs)| <= buf.Length
    modifies buf
    ensures off == start + |IxsBytes(xs)|
    ensures buf[..off] == old(buf[..start]) + IxsBytes(xs)
  {
    off := start;
    ghost var total := buf[..start] + IxsBytes(xs);
    for k := 0 to |xs|
      invariant off <= buf.Length && buf[..off] + IxsBytes(xs[k..]) == total
    {
      ghost var done, x, rest := buf[..off], IxBytes(xs[k]), IxsBytes(xs[k + 1..]);
      assert xs[k..][1..] == xs[k + 1..];
      assert done + (x + rest) == done + x + rest;
      assert |done + x + rest| == |total|;
      off := PutIx(buf, off, xs[k]);
    }
    assert buf[..off] + IxsBytes([]) == buf[..off];
  }

  /** The exact buffer size, counted before anything is written. */
  method IxsSize(xs: seq<RawIx>) returns (n: nat)
    ensures n == |IxsBytes(xs)|
  {
    n := 0;
    for k := 0 to |xs|
      invariant n + |IxsBytes(xs[k..])| == |IxsBytes(xs)|
    {
      assert xs[k..][1..] == xs[k + 1..];
      n := n + 32 + 4 + |xs[k].accounts| * 33 + 4 + |xs[k].data|;
    }
  }

  /**
   * The encoder fills the buffer exactly, so its final size check never fails and
   * what it hands to the hash is the canonical encoding.
   */
  method EncodeIntoBuffer(i: Intent) returns (r: Result<seq<nat>, IntentError>)
    ensures r == Encode(i)
    ensures r != Err(SizeMismatch)
  {
    var p := Prepare(i);
    if p.Err? {
      PrepareErrors(i);
      return Err(p.error);
    }
    var raw := p.value;
    var size := IxsSize(raw.ixs);
    var buf := new nat[FIXED + size];
    var off := PutHeader(buf, raw);
    off := PutIxs(buf, off, raw.ixs);
    if off != buf.Length {
      return Err(SizeMismatch);
    }
    assert buf[..] == buf[..off];
    return Ok(buf[..]);
  }

  lemma {:induction false} DecodeIxsErrors(xs: seq<Ix>)
    ensures DecodeIxs(xs) != Err(SizeMismatch)
  {
    if xs == [] {
    } else {
      DecodeMetasErrors(xs[0].accounts);
      DecodeIxsErrors(xs[1..]);
    }
  }

  lemma {:induction false} DecodeMetasErrors(ms: seq<Meta>)
    ensures DecodeMetas(ms) != Err(SizeMismatch)
  {
    if ms == [] {
    } else {
      DecodeMetasErrors(ms[1..]);
    }
  }

  lemma PrepareErrors(i: Intent)
    ensures Prepare(i) != Err(SizeMismatch)
  {
    DecodeIxsErrors(i.instructions);
  }
}
