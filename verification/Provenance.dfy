/** Where the entries of the UTXO map come from, said of blocks and transactions alone. */
module Provenance {
  import opened Words
  import opened Decimals
  import opened Transactions
  import opened Blocks
  import opened Ledger
  import opened History

  predicate Writes(tx: Transaction, txId: string, i: uint32) {
    tx.hash == txId && i < |tx.outputs|
  }

  /** Transaction `t` is the last one of the list that writes the outpoint. */
  predicate LastWriter(txs: seq<Transaction>, t: int, txId: string, i: uint32) {
    0 <= t < |txs| && Writes(txs[t], txId, i) && forall l :: t < l < |txs| ==> !Writes(txs[l], txId, i)
  }

  /** The entry that stands for output `i` of a transaction: its own address and its own amount. */
  predicate IsOwnOutput(u: Utxo, tx: Transaction, i: uint32) {
    && u.txId == tx.hash && u.outputIndex == i
    && i < |tx.outputs| && tx.outputs[i] == TxOutput(u.address, u.amount)
  }

  lemma {:induction false} WrittenIsOwnOutput(tx: Transaction, n: nat, i: uint32)
    requires i < n <= |tx.outputs|
    ensures UtxoKey(tx.hash, i) in OutputMap(tx, n)
    ensures IsOwnOutput(OutputMap(tx, n)[UtxoKey(tx.hash, i)], tx, i)
  {
    if i < n - 1 {
      WrittenIsOwnOutput(tx, n - 1, i);
      if UtxoKey(tx.hash, i) == UtxoKey(tx.hash, n - 1) {
        UtxoKeyInjective(tx.hash, i, tx.hash, n - 1);
      }
    }
  }

  lemma OtherTxWritesElsewhere(tx: Transaction, txId: string, i: uint32)
    requires !Writes(tx, txId, i)
    ensures UtxoKey(txId, i) !in OutputMap(tx, |tx.outputs|)
  {
    OutputMapKeys(tx, |tx.outputs|, UtxoKey(txId, i));
    if k: nat :| k < |tx.outputs| && UtxoKey(txId, i) == UtxoKey(tx.hash, k) {
      UtxoKeyInjective(txId, i, tx.hash, k);
    }
  }

  /** What a list of transactions leaves at an outpoint is the own output of the last one that writes it. */
  lemma {:induction false} CreatedIsOwnOutput(txs: seq<Transaction>, t: nat, txId: string, i: uint32)
    requires LastWriter(txs, t, txId, i)
    ensures UtxoKey(txId, i) in CreatedMap(txs)
    ensures IsOwnOutput(CreatedMap(txs)[UtxoKey(txId, i)], txs[t], i)
  {
    var n := |txs| - 1;
    if t == n {
      WrittenIsOwnOutput(txs[n], |txs[n].outputs|, i);
    } else {
      CreatedIsOwnOutput(txs[..n], t, txId, i);
      OtherTxWritesElsewhere(txs[n], txId, i);
    }
  }

  lemma {:induction false} WriterExists(txs: seq<Transaction>, txId: string, i: uint32) returns (t: nat)
    requires exists tx :: tx in txs && tx.hash == txId && i < |tx.outputs|
    ensures LastWriter(txs, t, txId, i)
  {
    var n := |txs| - 1;
    if Writes(txs[n], txId, i) {
      t := n;
    } else {
      var tx :| tx in txs && tx.hash == txId && i < |tx.outputs|;
      assert tx in txs[..n];
      t := WriterExists(txs[..n], txId, i);
    }
  }

  /** An outpoint is written by a list exactly when some transaction of it has that id and that many outputs. */
  lemma CreatedIff(txs: seq<Transaction>, txId: string, i: uint32)
    ensures UtxoKey(txId, i) in CreatedMap(txs) <==> exists t :: LastWriter(txs, t, txId, i)
  {
    CreatedMapMeaning(txs, txId, i);
    LastOutputMeaning(txs, txId, i);
    if exists tx :: tx in txs && tx.hash == txId && i < |tx.outputs| {
      var t := WriterExists(txs, txId, i);
    }
    if t :| LastWriter(txs, t, txId, i) {
      assert txs[t] in txs;
    }
  }

  /** Transaction `t` of block `j` is the last one on the chain that writes the outpoint, and no later block
      spends it. */
  ghost predicate Origin(blocks: seq<Block>, j: int, t: int, txId: string, i: uint32) {
    && 0 <= j < |blocks| && LastWriter(blocks[j].transactions, t, txId, i)
    && (forall l :: j < l < |blocks| ==> !Spends(blocks[l], txId, i))
    && (forall l :: j < l < |blocks| ==> !Creates(blocks[l], txId, i))
  }

  /** The entry at an outpoint is the own output, address and amount, of the transaction it comes from. */
  lemma {:induction false} UnspentIsOwnOutput(blocks: seq<Block>, j: nat, t: nat, txId: string, i: uint32)
    requires Origin(blocks, j, t, txId, i)
    ensures UtxoKey(txId, i) in Replay(blocks)
    ensures IsOwnOutput(Replay(blocks)[UtxoKey(txId, i)], blocks[j].transactions[t], i)
  {
    var n := |blocks| - 1;
    var front, b := blocks[..n], blocks[n];
    assert blocks == front + [b];
    ReplayStep(front, b, txId, i);
    if j == n {
      CreatedIsOwnOutput(b.transactions, t, txId, i);
      assert b.transactions[t] in b.transactions;
    } else {
      assert forall l :: j < l < n ==> front[l] == blocks[l];
      UnspentIsOwnOutput(front, j, t, txId, i);
    }
  }

  /** Every entry has such an origin. */
  lemma {:induction false} UnspentHasOrigin(blocks: seq<Block>, txId: string, i: uint32) returns (j: nat, t: nat)
    requires UtxoKey(txId, i) in Replay(blocks)
    ensures Origin(blocks, j, t, txId, i)
    ensures IsOwnOutput(Replay(blocks)[UtxoKey(txId, i)], blocks[j].transactions[t], i)
  {
    var n := |blocks| - 1;
    var front, b := blocks[..n], blocks[n];
    assert blocks == front + [b];
    ReplayStep(front, b, txId, i);
    if Creates(b, txId, i) {
      j := n;
      t := WriterExists(b.transactions, txId, i);
    } else {
      j, t := UnspentHasOrigin(front, txId, i);
      assert forall l :: j < l < n ==> blocks[l] == front[l];
    }
    UnspentIsOwnOutput(blocks, j, t, txId, i);
  }
}
