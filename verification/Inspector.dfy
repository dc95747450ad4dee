/**
 * Account addresses as identities: the ones the SDK names in `types.ts`, the empty
 * string, and any other.
 */
module Addresses {
  datatype Address =
    | SystemProgram | ComputeBudgetProgram | AtaProgram | TokenProgram | Token2022Program
    | UsdcDevnet | UsdtDevnet | UsdcMainnet | UsdtMainnet | SigilProgram
    | Blank | Other(id: nat)
}

/** The instruction analysis of `inspector.ts`, the input to every Shield decision. */
module Inspector {
  import opened Common
  import opened Numerals
  import opened Addresses

  const TRANSFER: nat := 3
  const APPROVE: nat := 4
  const REVOKE: nat := 5
  const SET_AUTHORITY: nat := 6
  const CLOSE_ACCOUNT: nat := 9
  const TRANSFER_CHECKED: nat := 12
  const APPROVE_CHECKED: nat := 13

  /** An instruction; absent accounts or data are empty. */
  datatype Instruction = Instruction(program: Address, accounts: seq<Address>, data: seq<nat>)

  datatype Transfer = Transfer(
    mint: Option<Address>, amount: nat, source: Address, destination: Address, authority: Address)

  datatype OperationKind = Approve | SetAuthority | CloseAccount | Revoke

  datatype Operation = Operation(kind: OperationKind, account: Address)

  datatype Analysis = Analysis(
    programIds: seq<Address>, transfers: seq<Transfer>, estimatedValue: nat, dangerous: seq<Operation>)

  predicate IsTokenProgram(p: Address) {
    p == TokenProgram || p == Token2022Program
  }

  /** `DataView.getBigUint64(offset, true)`. */
  function ReadU64(data: seq<nat>, offset: nat): nat
    requires offset + 8 <= |data|
  {
    ValueLE(256, data[offset..offset + 8])
  }

  /** The transfer an instruction performs, if it is one the inspector recognises. */
  function TransferOf(ix: Instruction): Option<Transfer> {
    if !IsTokenProgram(ix.program) || ix.data == [] then None
    else if ix.data[0] == TRANSFER && |ix.data| >= 9 && |ix.accounts| >= 3 then
      Some(Transfer(None, ReadU64(ix.data, 1), ix.accounts[0], ix.accounts[1], ix.accounts[2]))
    else if ix.data[0] == TRANSFER_CHECKED && |ix.data| >= 10 && |ix.accounts| >= 4 then
      Some(Transfer(Some(ix.accounts[1]), ReadU64(ix.data, 1), ix.accounts[0], ix.accounts[2], ix.accounts[3]))
    else None
  }

  function KindOf(discriminator: nat): Option<OperationKind> {
    if discriminator == APPROVE || discriminator == APPROVE_CHECKED then Some(Approve)
    else if discriminator == SET_AUTHORITY then Some(SetAuthority)
    else if discriminator == CLOSE_ACCOUNT then Some(CloseAccount)
    else if discriminator == REVOKE then Some(Revoke)
    else None
  }

  function OperationOf(ix: Instruction): Option<Operation> {
    if !IsTokenProgram(ix.program) || ix.data == [] || ix.accounts == [] then None
    else match KindOf(ix.data[0])
      case None => None
      case Some(k) => Some(Operation(k, ix.accounts[0]))
  }

  function Append<T>(xs: seq<T>, o: Option<T>): seq<T> {
    if o.Some? then xs + [o.value] else xs
  }

  function Transfers(ixs: seq<Instruction>): seq<Transfer> {
    if ixs == [] then [] else Append(Transfers(ixs[..|ixs| - 1]), TransferOf(ixs[|ixs| - 1]))
  }

  function Operations(ixs: seq<Instruction>): seq<Operation> {
    if ixs == [] then [] else Append(Operations(ixs[..|ixs| - 1]), OperationOf(ixs[|ixs| - 1]))
  }

  /** Programs in order of first appearance. */
  function Programs(ixs: seq<Instruction>): (ps: seq<Address>)
    ensures forall i, j :: 0 <= i < j < |ps| ==> ps[i] != ps[j]
  {
    if ixs == [] then [] else
      Include(Programs(ixs[..|ixs| - 1]), ixs[|ixs| - 1].program)
  }

  function Include(ps: seq<Address>, p: Address): seq<Address> {
    if p in ps then ps else ps + [p]
  }

  lemma {:induction false} ProgramsAreAll(ixs: seq<Instruction>, p: Address)
    ensures p in Programs(ixs) <==> exists i :: 0 <= i < |ixs| && ixs[i].program == p
  {
    if ixs == [] {
    } else {
      var init := ixs[..|ixs| - 1];
      ProgramsAreAll(init, p);
      assert forall i :: 0 <= i < |init| ==> init[i] == ixs[i];
    }
  }

  /** What one more instruction adds. */
  lemma Extend(ixs: seq<Instruction>, k: nat)
    requires k < |ixs|
    ensures Transfers(ixs[..k + 1]) == Append(Transfers(ixs[..k]), TransferOf(ixs[k]))
    ensures Operations(ixs[..k + 1]) == Append(Operations(ixs[..k]), OperationOf(ixs[k]))
    ensures Programs(ixs[..k + 1]) == Include(Programs(ixs[..k]), ixs[k].program)
  {
    assert ixs[..k + 1][..k] == ixs[..k];
  }

  /** Total moved on the authority of `signer`. */
  function Outgoing(ts: seq<Transfer>, signer: Address): nat {
    if ts == [] then 0 else
      Outgoing(ts[..|ts| - 1], signer) + if ts[|ts| - 1].authority == signer then ts[|ts| - 1].amount else 0
  }

  lemma OutgoingSnoc(ts: seq<Transfer>, t: Transfer, signer: Address)
    ensures Outgoing(ts + [t], signer) == Outgoing(ts, signer) + if t.authority == signer then t.amount else 0
  {
    assert (ts + [t])[..|ts|] == ts;
  }

  function Analyze(ixs: seq<Instruction>, signer: Address): Analysis {
    Analysis(Programs(ixs), Transfers(ixs), Outgoing(Transfers(ixs), signer), Operations(ixs))
  }

  /** The single pass over the instructions; the running value is the outgoing total. */
  method AnalyzeInstructions(ixs: seq<Instruction>, signer: Address) returns (r: Analysis)
    ensures r == Analyze(ixs, signer)
  {
    var programIds: seq<Address>, transfers: seq<Transfer>, dangerous: seq<Operation> := [], [], [];
    var estimatedValue := 0;
    for k := 0 to |ixs|
      invariant programIds == Programs(ixs[..k])
      invariant transfers == Transfers(ixs[..k])
      invariant dangerous == Operations(ixs[..k])
      invariant estimatedValue == Outgoing(transfers, signer)
    {
      var ix := ixs[k];
      Extend(ixs, k);
      if ix.program !in programIds {
        programIds := programIds + [ix.program];
      }
      var transfer := TransferOf(ix);
      if transfer.Some? {
        OutgoingSnoc(transfers, transfer.value, signer);
        transfers := transfers + [transfer.value];
        if transfer.value.authority == signer {
          estimatedValue := estimatedValue + transfer.value.amount;
        }
      }
      var operation := OperationOf(ix);
      if operation.Some? {
        dangerous := dangerous + [operation.value];
      }
    }
    assert ixs[..|ixs|] == ixs;
    r := Analysis(programIds, transfers, estimatedValue, dangerous);
  }

  // ---- Recovering transfers ---------------------------------------------------

  /** The SPL Token instruction that performs a transfer. */
  function TransferInstruction(program: Address, t: Transfer, decimals: nat): Instruction {
    match t.mint
    case None =>
      Instruction(program, [t.source, t.destination, t.authority], [TRANSFER] + LE(8, t.amount))
    case Some(mint) =>
      Instruction(program, [t.source, mint, t.destination, t.authority],
                  [TRANSFER_CHECKED] + LE(8, t.amount) + [decimals])
  }

  lemma TransferRecovered(program: Address, t: Transfer, decimals: nat)
    requires IsTokenProgram(program) && t.amount < Pow256(8)
    ensures TransferOf(TransferInstruction(program, t, decimals)) == Some(t)
    ensures OperationOf(TransferInstruction(program, t, decimals)) == None
  {
    var data, amount := TransferInstruction(program, t, decimals).data, LE(8, t.amount);
    assert forall i :: 1 <= i < 9 ==> data[i] == amount[i - 1];
    assert data[1..9] == amount;
    ValueOfLE(8, t.amount);
  }

  function Batch(ts: seq<Transfer>, decimals: nat): (ixs: seq<Instruction>)
    ensures |ixs| == |ts|
    ensures forall i :: 0 <= i < |ts| ==> ixs[i] == TransferInstruction(TokenProgram, ts[i], decimals)
  {
    seq(|ts|, i requires 0 <= i < |ts| => TransferInstruction(TokenProgram, ts[i], decimals))
  }

  lemma BatchSnoc(ts: seq<Transfer>, t: Transfer, decimals: nat)
    ensures Batch(ts + [t], decimals) == Batch(ts, decimals) + [TransferInstruction(TokenProgram, t, decimals)]
  {
  }

  lemma RecoveredSnoc(ixs: seq<Instruction>, ix: Instruction)
    ensures Transfers(ixs + [ix]) == Append(Transfers(ixs), TransferOf(ix))
    ensures Operations(ixs + [ix]) == Append(Operations(ixs), OperationOf(ix))
  {
    assert (ixs + [ix])[..|ixs|] == ixs;
  }

  /** Analysis recovers every batch of transfers, in order and to the last unit. */
  lemma {:induction false} BatchRecovered(ts: seq<Transfer>, decimals: nat)
    requires forall i :: 0 <= i < |ts| ==> ts[i].amount < Pow256(8)
    ensures Transfers(Batch(ts, decimals)) == ts && Operations(Batch(ts, decimals)) == []
  {
    if ts == [] {
    } else {
      var n := |ts| - 1;
      BatchRecovered(ts[..n], decimals);
      TransferRecovered(TokenProgram, ts[n], decimals);
      assert ts == ts[..n] + [ts[n]];
      BatchSnoc(ts[..n], ts[n], decimals);
      RecoveredSnoc(Batch(ts[..n], decimals), TransferInstruction(TokenProgram, ts[n], decimals));
    }
  }

  /** Every amount the inspector reports is a 64-bit value. */
  lemma {:induction false} AmountsFit(ixs: seq<Instruction>)
    requires forall i :: 0 <= i < |ixs| ==> InBase(256, ixs[i].data)
    ensures forall k :: 0 <= k < |Transfers(ixs)| ==> Transfers(ixs)[k].amount < Pow256(8)
  {
    if ixs == [] {
    } else {
      var ix := ixs[|ixs| - 1];
      AmountsFit(ixs[..|ixs| - 1]);
      if TransferOf(ix).Some? {
        ValueLEBound(ix.data[1..9]);
      }
    }
  }
}
