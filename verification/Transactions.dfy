/** Transactions of the UTXO model (`transaction.h`, `transaction.cpp`). */
module Transactions {
  import opened Words
  import opened Decimals
  import opened Crypto

  datatype TxInput = TxInput(txId: string, outputIndex: uint32, signature: string, publicKey: string)

  datatype TxOutput = TxOutput(address: string, amount: uint64)

  /** Output positions are counted with a `uint32_t`. */
  type Outputs = s: seq<TxOutput> | |s| < 0x1_0000_0000

  datatype Transaction = Transaction(
    inputs: seq<TxInput>, outputs: Outputs, timestamp: uint64, fee: uint64, hash: string)

  /** An unspent output. */
  datatype Utxo = Utxo(txId: string, outputIndex: uint32, address: string, amount: uint64)

  function InputKey(input: TxInput): string {
    UtxoKey(input.txId, input.outputIndex)
  }

  function InputKeys(inputs: seq<TxInput>): set<string> {
    set input | input in inputs :: InputKey(input)
  }

  function SerializeInputs(inputs: seq<TxInput>): string {
    if inputs == [] then ""
    else inputs[0].txId + Decimal(inputs[0].outputIndex) + inputs[0].publicKey + SerializeInputs(inputs[1..])
  }

  function SerializeOutputs(outputs: seq<TxOutput>): string {
    if outputs == [] then "" else outputs[0].address + Decimal(outputs[0].amount) + SerializeOutputs(outputs[1..])
  }

  /** The signed and hashed text; signatures are not part of it. */
  function SerializeTx(tx: Transaction): string {
    Decimal(tx.timestamp) + Decimal(tx.fee) + SerializeInputs(tx.inputs) + SerializeOutputs(tx.outputs)
  }

  /** The two loops of `Transaction::serialize`. */
  method Serialize(tx: Transaction) returns (s: string)
    ensures s == SerializeTx(tx)
  {
    s := Decimal(tx.timestamp) + Decimal(tx.fee);
    for i := 0 to |tx.inputs|
      invariant s + SerializeInputs(tx.inputs[i..]) + SerializeOutputs(tx.outputs) == SerializeTx(tx)
    {
      assert tx.inputs[i..][1..] == tx.inputs[i + 1..];
      var piece := tx.inputs[i].txId + Decimal(tx.inputs[i].outputIndex) + tx.inputs[i].publicKey;
      assert s + (piece + SerializeInputs(tx.inputs[i + 1..])) == s + piece + SerializeInputs(tx.inputs[i + 1..]);
      s := s + piece;
    }
    assert tx.inputs[|tx.inputs|..] == [] && s + "" == s;
    for i := 0 to |tx.outputs|
      invariant s + SerializeOutputs(tx.outputs[i..]) == SerializeTx(tx)
    {
      assert tx.outputs[i..][1..] == tx.outputs[i + 1..];
      var piece := tx.outputs[i].address + Decimal(tx.outputs[i].amount);
      assert s + (piece + SerializeOutputs(tx.outputs[i + 1..])) == s + piece + SerializeOutputs(tx.outputs[i + 1..]);
      s := s + piece;
    }
    assert tx.outputs[|tx.outputs|..] == [];
  }

  function TxHash(c: Crypto, tx: Transaction): (hash: string)
    ensures IsDigest(hash)
  {
    DoubleSha256(c, SerializeTx(tx))
  }

  predicate SameUnsigned(a: seq<TxInput>, b: seq<TxInput>) {
    |a| == |b| && forall i :: 0 <= i < |a| ==> b[i] == a[i].(signature := b[i].signature)
  }

  lemma {:induction false} SerializeInputsUnsigned(a: seq<TxInput>, b: seq<TxInput>)
    requires SameUnsigned(a, b)
    ensures SerializeInputs(a) == SerializeInputs(b)
  {
    if a != [] {
      assert b[0] == a[0].(signature := b[0].signature);
      SerializeInputsUnsigned(a[1..], b[1..]);
    }
  }

  /** Filling in signatures changes neither the signed text nor the transaction id. */
  lemma SigningKeepsHash(c: Crypto, tx: Transaction, signed: seq<TxInput>)
    requires SameUnsigned(tx.inputs, signed)
    ensures SerializeTx(tx.(inputs := signed)) == SerializeTx(tx)
    ensures TxHash(c, tx.(inputs := signed)) == TxHash(c, tx)
  {
    SerializeInputsUnsigned(tx.inputs, signed);
  }

  predicate ValidStructure(tx: Transaction) {
    && tx.inputs != [] && tx.outputs != []
    && (forall i :: 0 <= i < |tx.outputs| ==> tx.outputs[i].amount != 0 && tx.outputs[i].address != "")
    && (forall i :: 0 <= i < |tx.inputs| ==> tx.inputs[i].txId != "")
  }

  method IsValidStructure(tx: Transaction) returns (ok: bool)
    ensures ok == ValidStructure(tx)
  {
    if tx.inputs == [] || tx.outputs == [] {
      return false;
    }
    for i := 0 to |tx.outputs|
      invariant forall k :: 0 <= k < i ==> tx.outputs[k].amount != 0 && tx.outputs[k].address != ""
    {
      if tx.outputs[i].amount == 0 || tx.outputs[i].address == "" {
        return false;
      }
    }
    for i := 0 to |tx.inputs|
      invariant forall k :: 0 <= k < i ==> tx.inputs[k].txId != ""
    {
      if tx.inputs[i].txId == "" {
        return false;
      }
    }
    ok := true;
  }

  const COINBASE_MARK: string := "coinbase"

  predicate IsCoinbase(tx: Transaction) {
    |tx.inputs| == 1 && tx.inputs[0].txId == NullHash() && tx.inputs[0].signature == COINBASE_MARK
  }

  /** The exact sum of the outputs. */
  function Total(outputs: seq<TxOutput>): nat {
    if outputs == [] then 0 else outputs[0].amount + Total(outputs[1..])
  }

  /** `Transaction::total_output` adds in a `uint64_t`. */
  method TotalOutput(tx: Transaction) returns (total: uint64)
    ensures total == Wrap64(Total(tx.outputs))
  {
    total := 0;
    ghost var exact: nat := 0;
    for i := 0 to |tx.outputs|
      invariant total == Wrap64(exact) && exact + Total(tx.outputs[i..]) == Total(tx.outputs)
    {
      assert tx.outputs[i..][1..] == tx.outputs[i + 1..];
      total, exact := AddWrapped(total, exact, tx.outputs[i].amount);
    }
    assert tx.outputs[|tx.outputs|..] == [];
  }
}
