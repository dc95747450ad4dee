/**
 * `_extractInstructionsFromCompiled`: reading the instructions back out of a compiled
 * version-0 message whose accounts may live in address lookup tables.
 */
module Extraction {
  import opened Common
  import opened Addresses
  import opened Inspector

  datatype Lookup = Lookup(table: Address, writable: seq<nat>, readonly: seq<nat>)

  datatype CompiledInstruction = CompiledInstruction(program: nat, accounts: seq<nat>, data: seq<nat>)

  datatype Message = Message(staticAccounts: seq<Address>, instructions: seq<CompiledInstruction>, lookups: seq<Lookup>)

  /** The tables the cache can return, by address. */
  type Tables = map<Address, seq<Address>>

  /** An index that was out of bounds of its table. */
  datatype Warning = Warning(index: nat, entries: nat)

  /** An extracted instruction; an index beyond the account table has no address. */
  datatype Extracted = Extracted(program: Option<Address>, accounts: seq<Option<Address>>, data: seq<nat>)

  function Indexes(l: Lookup, writable: bool): seq<nat> {
    if writable then l.writable else l.readonly
  }

  function ResolveIndex(idx: nat, table: seq<Address>): Address {
    if idx < |table| then table[idx] else SystemProgram
  }

  function ResolveAll(idxs: seq<nat>, table: seq<Address>): (r: seq<Address>)
    ensures |r| == |idxs| && forall k :: 0 <= k < |idxs| ==> r[k] == ResolveIndex(idxs[k], table)
  {
    seq(|idxs|, k requires 0 <= k < |idxs| => ResolveIndex(idxs[k], table))
  }

  function OutOfBounds(idxs: seq<nat>, table: seq<Address>): seq<Warning> {
    if idxs == [] then [] else
      var rest := OutOfBounds(idxs[..|idxs| - 1], table);
      if idxs[|idxs| - 1] < |table| then rest else rest + [Warning(idxs[|idxs| - 1], |table|)]
  }

  /** One pass over the first `n` lookups; a table that is not cached contributes nothing. */
  function PassTo(lookups: seq<Lookup>, tables: Tables, writable: bool, n: nat): seq<Address>
    requires n <= |lookups|
  {
    if n == 0 then [] else
      var rest, l := PassTo(lookups, tables, writable, n - 1), lookups[n - 1];
      if l.table in tables then rest + ResolveAll(Indexes(l, writable), tables[l.table]) else rest
  }

  function Pass(lookups: seq<Lookup>, tables: Tables, writable: bool): seq<Address> {
    PassTo(lookups, tables, writable, |lookups|)
  }

  function WarningsTo(lookups: seq<Lookup>, tables: Tables, writable: bool, n: nat): seq<Warning>
    requires n <= |lookups|
  {
    if n == 0 then [] else
      var rest, l := WarningsTo(lookups, tables, writable, n - 1), lookups[n - 1];
      if l.table in tables then rest + OutOfBounds(Indexes(l, writable), tables[l.table]) else rest
  }

  function PassWarnings(lookups: seq<Lookup>, tables: Tables, writable: bool): seq<Warning> {
    WarningsTo(lookups, tables, writable, |lookups|)
  }

  function At(table: seq<Address>, i: nat): Option<Address> {
    if i < |table| then Some(table[i]) else None
  }

  function ReadBack(ix: CompiledInstruction, table: seq<Address>): Extracted {
    Extracted(At(table, ix.program), Map(i => At(table, i), ix.accounts), ix.data)
  }

  function AccountTable(m: Message, tables: Tables): seq<Address> {
    m.staticAccounts + Pass(m.lookups, tables, true) + Pass(m.lookups, tables, false)
  }

  /** `None` for a call without a cache: only static accounts are known then. */
  function Extract(m: Message, cache: Option<Tables>): seq<Extracted> {
    if m.staticAccounts == [] || m.instructions == [] then [] else
      var table := if cache.Some? then AccountTable(m, cache.value) else m.staticAccounts;
      Map(ix => ReadBack(ix, table), m.instructions)
  }

  method AppendPass(table: seq<Address>, lookups: seq<Lookup>, tables: Tables, writable: bool, ws: seq<Warning>)
    returns (out: seq<Address>, warnings: seq<Warning>)
    ensures out == table + Pass(lookups, tables, writable)
    ensures warnings == ws + PassWarnings(lookups, tables, writable)
  {
    out, warnings := table, ws;
    for n := 0 to |lookups|
      invariant out == table + PassTo(lookups, tables, writable, n)
      invariant warnings == ws + WarningsTo(lookups, tables, writable, n)
    {
      var l := lookups[n];
      if l.table in tables {
        out, warnings := AppendLookup(out, Indexes(l, writable), tables[l.table], warnings);
      }
    }
  }

  method AppendLookup(start: seq<Address>, idxs: seq<nat>, resolved: seq<Address>, ws: seq<Warning>)
    returns (out: seq<Address>, warnings: seq<Warning>)
    ensures out == start + ResolveAll(idxs, resolved)
    ensures warnings == ws + OutOfBounds(idxs, resolved)
  {
    out, warnings := start, ws;
    for k := 0 to |idxs|
      invariant out == start + ResolveAll(idxs[..k], resolved)
      invariant warnings == ws + OutOfBounds(idxs[..k], resolved)
    {
      assert idxs[..k + 1][..k] == idxs[..k];
      assert ResolveAll(idxs[..k + 1], resolved) == ResolveAll(idxs[..k], resolved) + [ResolveIndex(idxs[k], resolved)];
      if idxs[k] < |resolved| {
        out := out + [resolved[idxs[k]]];
      } else {
        warnings := warnings + [Warning(idxs[k], |resolved|)];
        out := out + [SystemProgram];
      }
    }
    assert idxs[..|idxs|] == idxs;
  }

  /** The two-pass extraction. */
  method ExtractInstructions(m: Message, cache: Option<Tables>) returns (r: seq<Extracted>, warnings: seq<Warning>)
    ensures r == Extract(m, cache)
    ensures cache.Some? && m.staticAccounts != [] && m.instructions != [] ==>
              warnings == PassWarnings(m.lookups, cache.value, true) + PassWarnings(m.lookups, cache.value, false)
    ensures cache.None? || m.staticAccounts == [] || m.instructions == [] ==> warnings == []
  {
    warnings := [];
    if |m.staticAccounts| == 0 || |m.instructions| == 0 {
      return [], [];
    }
    var table := m.staticAccounts;
    if cache.Some? {
      table, warnings := AppendPass(table, m.lookups, cache.value, true, warnings);
      table, warnings := AppendPass(table, m.lookups, cache.value, false, warnings);
    }
    r := Map(ix => ReadBack(ix, table), m.instructions);
  }

  // ---- Compilation ------------------------------------------------------------------

  /** Where an account of a compiled message lives. */
  datatype Place = InStatic(k: nat) | InTable(lookup: nat, writable: bool, k: nat)

  predicate ValidPlace(m: Message, tables: Tables, p: Place) {
    match p
    case InStatic(k) => k < |m.staticAccounts|
    case InTable(j, w, k) =>
      && j < |m.lookups| && k < |Indexes(m.lookups[j], w)| && m.lookups[j].table in tables
      && Indexes(m.lookups[j], w)[k] < |tables[m.lookups[j].table]|
  }

  function AddressAt(m: Message, tables: Tables, p: Place): Address
    requires ValidPlace(m, tables, p)
  {
    match p
    case InStatic(k) => m.staticAccounts[k]
    case InTable(j, w, k) => tables[m.lookups[j].table][Indexes(m.lookups[j], w)[k]]
  }

  /** How many accounts the first `n` lookups load in one mode. */
  function Offset(lookups: seq<Lookup>, writable: bool, n: nat): nat
    requires n <= |lookups|
  {
    if n == 0 then 0 else Offset(lookups, writable, n - 1) + |Indexes(lookups[n - 1], writable)|
  }

  /** The index the v0 format gives a place: static keys, then all writables, then all readonlys. */
  function IndexOf(m: Message, tables: Tables, p: Place): nat
    requires ValidPlace(m, tables, p)
  {
    match p
    case InStatic(k) => k
    case InTable(j, true, k) => |m.staticAccounts| + Offset(m.lookups, true, j) + k
    case InTable(j, false, k) =>
      |m.staticAccounts| + Offset(m.lookups, true, |m.lookups|) + Offset(m.lookups, false, j) + k
  }

  ghost predicate Placed(m: Message, tables: Tables, index: nat, a: Address) {
    exists p: Place :: ValidPlace(m, tables, p) && AddressAt(m, tables, p) == a && IndexOf(m, tables, p) == index
  }

  /** `ci` is a compiled form of `ix`: every index names a place that holds the right address. */
  ghost predicate Compiles(m: Message, tables: Tables, ci: CompiledInstruction, ix: Instruction) {
    && Placed(m, tables, ci.program, ix.program)
    && |ci.accounts| == |ix.accounts| && ci.data == ix.data
    && forall k :: 0 <= k < |ix.accounts| ==> Placed(m, tables, ci.accounts[k], ix.accounts[k])
  }

  ghost predicate CompiledFrom(m: Message, tables: Tables, ixs: seq<Instruction>) {
    |m.instructions| == |ixs| && forall i :: 0 <= i < |ixs| ==> Compiles(m, tables, m.instructions[i], ixs[i])
  }

  /** Every lookup table is cached and every index is in bounds. */
  predicate Resolvable(m: Message, tables: Tables) {
    AllResolvable(m.lookups, tables)
  }

  predicate LookupResolvable(l: Lookup, tables: Tables) {
    && l.table in tables
    && (forall k :: 0 <= k < |l.writable| ==> l.writable[k] < |tables[l.table]|)
    && (forall k :: 0 <= k < |l.readonly| ==> l.readonly[k] < |tables[l.table]|)
  }

  lemma AtLeft(a: seq<Address>, b: seq<Address>, i: nat)
    requires At(a, i).Some?
    ensures At(a + b, i) == At(a, i)
  {
  }

  lemma AtRight(a: seq<Address>, b: seq<Address>, i: nat)
    ensures At(a + b, |a| + i) == At(b, i)
  {
  }

  predicate AllResolvable(lookups: seq<Lookup>, tables: Tables) {
    forall i :: 0 <= i < |lookups| ==> LookupResolvable(lookups[i], tables)
  }

  lemma PassSnoc(lookups: seq<Lookup>, tables: Tables, w: bool, n: nat)
    requires 0 < n <= |lookups| && AllResolvable(lookups, tables)
    ensures LookupResolvable(lookups[n - 1], tables)
    ensures PassTo(lookups, tables, w, n)
            == PassTo(lookups, tables, w, n - 1) + ResolveAll(Indexes(lookups[n - 1], w), tables[lookups[n - 1].table])
  {
    assert LookupResolvable(lookups[n - 1], tables);
  }

  lemma {:induction false} PassLength(lookups: seq<Lookup>, tables: Tables, w: bool, n: nat)
    requires n <= |lookups| && AllResolvable(lookups, tables)
    ensures |PassTo(lookups, tables, w, n)| == Offset(lookups, w, n)
  {
    if n == 0 {
    } else {
      PassSnoc(lookups, tables, w, n);
      PassLength(lookups, tables, w, n - 1);
    }
  }

  lemma PassLast(lookups: seq<Lookup>, tables: Tables, w: bool, j: nat, k: nat)
    requires j < |lookups| && AllResolvable(lookups, tables)
    requires LookupResolvable(lookups[j], tables) && k < |Indexes(lookups[j], w)|
    ensures At(PassTo(lookups, tables, w, j + 1), Offset(lookups, w, j) + k)
            == Some(ResolveIndex(Indexes(lookups[j], w)[k], tables[lookups[j].table]))
  {
    PassSnoc(lookups, tables, w, j + 1);
    PassLength(lookups, tables, w, j);
    AtRight(PassTo(lookups, tables, w, j), ResolveAll(Indexes(lookups[j], w), tables[lookups[j].table]), k);
  }

  lemma {:induction false} PassAt(lookups: seq<Lookup>, tables: Tables, w: bool, n: nat, j: nat, k: nat)
    requires n <= |lookups| && AllResolvable(lookups, tables)
    requires j < n && LookupResolvable(lookups[j], tables) && k < |Indexes(lookups[j], w)|
    ensures At(PassTo(lookups, tables, w, n), Offset(lookups, w, j) + k)
            == Some(ResolveIndex(Indexes(lookups[j], w)[k], tables[lookups[j].table]))
    decreases n
  {
    if j < n - 1 {
      PassAt(lookups, tables, w, n - 1, j, k);
      PassSnoc(lookups, tables, w, n);
      AtLeft(PassTo(lookups, tables, w, n - 1), ResolveAll(Indexes(lookups[n - 1], w), tables[lookups[n - 1].table]),
             Offset(lookups, w, j) + k);
    } else {
      PassLast(lookups, tables, w, j, k);
    }
  }

  /** The table built by the two passes holds every account at its index. */
  lemma TableAt(m: Message, tables: Tables, p: Place)
    requires Resolvable(m, tables) && ValidPlace(m, tables, p)
    ensures At(AccountTable(m, tables), IndexOf(m, tables, p)) == Some(AddressAt(m, tables, p))
  {
    PassLength(m.lookups, tables, true, |m.lookups|);
    if p.InTable? {
      assert LookupResolvable(m.lookups[p.lookup], tables);
      PassAt(m.lookups, tables, p.writable, |m.lookups|, p.lookup, p.k);
    }
  }

  function Whole(ix: Instruction): Extracted {
    Extracted(Some(ix.program), Map(a => Some(a), ix.accounts), ix.data)
  }

  lemma PlacedAt(m: Message, tables: Tables, index: nat, a: Address)
    requires Resolvable(m, tables) && Placed(m, tables, index, a)
    ensures At(AccountTable(m, tables), index) == Some(a)
  {
    var p: Place :| ValidPlace(m, tables, p) && AddressAt(m, tables, p) == a && IndexOf(m, tables, p) == index;
    TableAt(m, tables, p);
  }

  lemma ReadBackCompiled(m: Message, tables: Tables, ci: CompiledInstruction, ix: Instruction)
    requires Resolvable(m, tables) && Compiles(m, tables, ci, ix)
    ensures ReadBack(ci, AccountTable(m, tables)) == Whole(ix)
  {
    PlacedAt(m, tables, ci.program, ix.program);
    forall k | 0 <= k < |ix.accounts| ensures At(AccountTable(m, tables), ci.accounts[k]) == Some(ix.accounts[k]) {
      PlacedAt(m, tables, ci.accounts[k], ix.accounts[k]);
    }
  }

  lemma {:induction false} NoneOutOfBounds(idxs: seq<nat>, table: seq<Address>)
    requires forall k :: 0 <= k < |idxs| ==> idxs[k] < |table|
    ensures OutOfBounds(idxs, table) == []
  {
    if idxs == [] {
    } else {
      NoneOutOfBounds(idxs[..|idxs| - 1], table);
    }
  }

  lemma {:induction false} NoWarnings(lookups: seq<Lookup>, tables: Tables, w: bool, n: nat)
    requires n <= |lookups| && forall j :: 0 <= j < |lookups| ==> LookupResolvable(lookups[j], tables)
    ensures WarningsTo(lookups, tables, w, n) == []
  {
    if n == 0 {
    } else {
      var l := lookups[n - 1];
      assert LookupResolvable(l, tables);
      NoWarnings(lookups, tables, w, n - 1);
      NoneOutOfBounds(Indexes(l, w), tables[l.table]);
    }
  }

  /** Extraction inverts compilation, without warnings, wherever the compiler put the accounts. */
  lemma ExtractInvertsCompile(m: Message, tables: Tables, ixs: seq<Instruction>)
    requires Resolvable(m, tables) && CompiledFrom(m, tables, ixs) && m.staticAccounts != []
    ensures Extract(m, Some(tables)) == Map(ix => Whole(ix), ixs)
    ensures PassWarnings(m.lookups, tables, true) == [] && PassWarnings(m.lookups, tables, false) == []
  {
    NoWarnings(m.lookups, tables, true, |m.lookups|);
    NoWarnings(m.lookups, tables, false, |m.lookups|);
    forall i | 0 <= i < |ixs| ensures ReadBack(m.instructions[i], AccountTable(m, tables)) == Whole(ixs[i]) {
      ReadBackCompiled(m, tables, m.instructions[i], ixs[i]);
    }
  }

  /** So a message is the compiled form of at most one instruction list. */
  lemma CompilationUnambiguous(m: Message, tables: Tables, a: seq<Instruction>, b: seq<Instruction>)
    requires Resolvable(m, tables) && m.staticAccounts != []
    requires CompiledFrom(m, tables, a) && CompiledFrom(m, tables, b)
    ensures a == b
  {
    ExtractInvertsCompile(m, tables, a);
    ExtractInvertsCompile(m, tables, b);
    forall i | 0 <= i < |a| ensures a[i] == b[i] {
      var e := Extract(m, Some(tables))[i];
      assert e == Whole(a[i]) && e == Whole(b[i]);
      forall k | 0 <= k < |a[i].accounts| ensures a[i].accounts[k] == b[i].accounts[k] {
        assert e.accounts[k] == Some(a[i].accounts[k]) && e.accounts[k] == Some(b[i].accounts[k]);
      }
    }
  }
}
