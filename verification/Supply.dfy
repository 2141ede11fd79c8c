/** Value accounting: what a block adds to the sum of all unspent amounts. */
module Supply {
  import opened Decimals
  import opened Transactions
  import opened Ledger
  import opened Mempools
  import opened Sums

  /** The outputs the transaction consumes are present and worth its outputs plus its fee. */
  ghost predicate Balanced(utxos: map<string, Utxo>, tx: Transaction) {
    InputKeys(tx.inputs) <= utxos.Keys && Sum(Restrict(utxos, InputKeys(tx.inputs))) == Total(tx.outputs) + tx.fee
  }

  function OutputTotal(txs: seq<Transaction>): nat {
    if txs == [] then 0 else OutputTotal(txs[..|txs| - 1]) + Total(txs[|txs| - 1].outputs)
  }

  predicate DisjointSpends(txs: seq<Transaction>) {
    forall i, j :: 0 <= i < j < |txs| ==> InputKeys(txs[i].inputs) !! InputKeys(txs[j].inputs)
  }

  lemma {:induction false} TotalAppend(outputs: seq<TxOutput>, n: nat)
    requires n < |outputs|
    ensures Total(outputs[..n + 1]) == Total(outputs[..n]) + outputs[n].amount
  {
    if n == 0 {
      assert outputs[..1] == [outputs[0]] && outputs[..0] == [];
      assert Total(outputs[..1]) == outputs[0].amount + Total(outputs[..1][1..]);
    } else {
      TotalAppend(outputs[1..], n - 1);
      assert outputs[..n + 1][1..] == outputs[1..][..n] && outputs[..n][1..] == outputs[1..][..n - 1];
    }
  }

  /** The outputs of one transaction have different keys, so nothing is overwritten. */
  lemma {:induction false} SumOfOutputs(tx: Transaction, n: nat)
    requires n <= |tx.outputs|
    ensures Sum(OutputMap(tx, n)) == Total(tx.outputs[..n])
  {
    if n > 0 {
      var k := UtxoKey(tx.hash, n - 1);
      SumOfOutputs(tx, n - 1);
      TotalAppend(tx.outputs, n - 1);
      OutputMapKeys(tx, n - 1, k);
      forall i: nat | i < n - 1 ensures k != UtxoKey(tx.hash, i) {
        if k == UtxoKey(tx.hash, i) {
          UtxoKeyInjective(tx.hash, n - 1, tx.hash, i);
        }
      }
      SumInsert(OutputMap(tx, n - 1), Amount, k, OutputAt(tx, n - 1));
    }
  }

  lemma CreatedKeyHasId(txs: seq<Transaction>, k: string)
    requires k in CreatedMap(txs)
    ensures exists tx, i: nat :: tx in txs && k == UtxoKey(tx.hash, i)
  {
    CreatedEntry(txs, k);
    var u := CreatedMap(txs)[k];
    var tx :| tx in txs && u.outputIndex < |tx.outputs| && u == OutputAt(tx, u.outputIndex);
    assert k == UtxoKey(tx.hash, u.outputIndex);
  }

  lemma {:induction false} SumOfCreated(txs: seq<Transaction>)
    requires DistinctIds(txs)
    ensures Sum(CreatedMap(txs)) == OutputTotal(txs)
  {
    if txs != [] {
      var n := |txs| - 1;
      var front, last := txs[..n], txs[n];
      var m, o := CreatedMap(front), OutputMap(last, |last.outputs|);
      SumOfCreated(front);
      SumOfOutputs(last, |last.outputs|);
      assert last.outputs[..|last.outputs|] == last.outputs;
      forall k | k in o ensures k !in m {
        OutputMapKeys(last, |last.outputs|, k);
        if k in m {
          CreatedKeyHasId(front, k);
          var tx, i: nat :| tx in front && k == UtxoKey(tx.hash, i);
          UtxoKeyInjective(tx.hash, i, o[k].txId, o[k].outputIndex);
        }
      }
      SumMerge(m, o);
    }
  }

  lemma SpentKeysFront(txs: seq<Transaction>)
    requires txs != []
    ensures SpentKeys(txs) == SpentKeys(txs[..|txs| - 1]) + InputKeys(txs[|txs| - 1].inputs)
  {
    SpentKeysStep(txs, |txs| - 1);
    assert txs[..|txs|] == txs;
  }

  lemma SpentKeyHasTx(txs: seq<Transaction>, k: string) returns (i: nat)
    requires k in SpentKeys(txs)
    ensures i < |txs| && k in InputKeys(txs[i].inputs)
  {
    var tx, input :| tx in txs && input in tx.inputs && InputKey(input) == k;
    i :| 0 <= i < |txs| && txs[i] == tx;
  }

  lemma FrontAndLastDisjoint(txs: seq<Transaction>)
    requires txs != [] && DisjointSpends(txs)
    ensures SpentKeys(txs[..|txs| - 1]) !! InputKeys(txs[|txs| - 1].inputs)
  {
    var n := |txs| - 1;
    forall k | k in SpentKeys(txs[..n]) ensures k !in InputKeys(txs[n].inputs) {
      var i := SpentKeyHasTx(txs[..n], k);
      assert InputKeys(txs[i].inputs) !! InputKeys(txs[n].inputs);
    }
  }

  lemma SumOfUnion(m: map<string, Utxo>, a: set<string>, b: set<string>)
    requires a !! b
    ensures Sum(Restrict(m, a + b)) == Sum(Restrict(m, a)) + Sum(Restrict(m, b))
  {
    SumMerge(Restrict(m, a), Restrict(m, b));
    assert Restrict(m, a + b) == Restrict(m, a) + Restrict(m, b);
  }

  lemma FeesFront(txs: seq<Transaction>)
    requires txs != []
    ensures Fees(txs) == Fees(txs[..|txs| - 1]) + txs[|txs| - 1].fee
  {
    var n := |txs| - 1;
    FeesWithout(txs, n);
    assert txs[..n] + txs[n + 1..] == txs[..n];
  }

  /** Balanced transactions that spend nothing in common consume their outputs plus their fees. */
  lemma {:induction false} SumOfSpent(utxos: map<string, Utxo>, txs: seq<Transaction>)
    requires DisjointSpends(txs) && forall tx :: tx in txs ==> Balanced(utxos, tx)
    ensures Sum(Restrict(utxos, SpentKeys(txs))) == OutputTotal(txs) + Fees(txs)
  {
    if txs == [] {
      assert SpentKeys(txs) == {} && Restrict(utxos, {}) == map[];
    } else {
      var n := |txs| - 1;
      SumOfSpent(utxos, txs[..n]);
      SpentKeysFront(txs);
      FeesFront(txs);
      FrontAndLastDisjoint(txs);
      SumOfUnion(utxos, SpentKeys(txs[..n]), InputKeys(txs[n].inputs));
      assert Balanced(utxos, txs[n]);
    }
  }

  lemma {:induction false} OutputTotalCons(tx: Transaction, txs: seq<Transaction>)
    ensures OutputTotal([tx] + txs) == Total(tx.outputs) + OutputTotal(txs)
  {
    var all := [tx] + txs;
    if txs == [] {
      assert all[..0] == [] && all[0] == tx;
    } else {
      var n := |txs| - 1;
      OutputTotalCons(tx, txs[..n]);
      assert all[..|all| - 1] == [tx] + txs[..n] && all[|all| - 1] == txs[n];
    }
  }

  /** Adding a block of balanced, disjoint, fresh transactions under a reward transaction that spends
      nothing changes the sum of all unspent amounts by what the reward transaction pays out beyond
      the fees. */
  lemma BlockAccounting(utxos: map<string, Utxo>, coinbase: Transaction, txs: seq<Transaction>)
    requires DistinctIds([coinbase] + txs) && DisjointSpends(txs)
    requires forall tx :: tx in txs ==> Balanced(utxos, tx)
    requires InputKeys(coinbase.inputs) !! utxos.Keys
    requires forall k :: k in CreatedMap([coinbase] + txs) ==> k !in utxos
    ensures Sum(ApplyTxs(utxos, [coinbase] + txs)) + Fees(txs) == Sum(utxos) + Total(coinbase.outputs)
    ensures OutputTotal(txs) + Fees(txs) <= Sum(utxos)
  {
    var all := [coinbase] + txs;
    SpentKeysCons(coinbase, txs);
    assert utxos - SpentKeys(all) == utxos - SpentKeys(txs);
    SumSplit(utxos, SpentKeys(txs));
    SumOfSpent(utxos, txs);
    SumOfCreated(all);
    OutputTotalCons(coinbase, txs);
    SumMerge(utxos - SpentKeys(all), CreatedMap(all));
  }

  lemma SpentKeysCons(tx: Transaction, txs: seq<Transaction>)
    ensures SpentKeys([tx] + txs) == InputKeys(tx.inputs) + SpentKeys(txs)
  {
    var all := [tx] + txs;
    assert forall t :: t in all <==> t == tx || t in txs;
  }
}
