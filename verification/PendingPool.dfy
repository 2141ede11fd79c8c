/** The `Mempool` object, proved against the functions of `Mempools`. */
module PendingPool {
  import opened Words
  import opened Transactions
  import opened Sums
  import opened Mempools

  /** What one transaction contributes to the pending value. */
  function Pending(tx: Transaction): nat {
    Total(tx.outputs) + tx.fee
  }

  class Mempool {
    var transactions: map<string, Transaction>
    var spentInMempool: map<string, uint32>

    function State(): PoolState
      reads this
    {
      PoolState(transactions, spentInMempool)
    }

    constructor ()
      ensures State() == EMPTY_POOL
    {
      transactions, spentInMempool := map[], map[];
    }

    method HasConflictingInputs(inputs: seq<TxInput>) returns (conflict: bool)
      ensures conflict <==> !(InputKeys(inputs) !! spentInMempool.Keys)
    {
      for i := 0 to |inputs|
        invariant forall k :: 0 <= k < i ==> InputKey(inputs[k]) !in spentInMempool
      {
        if InputKey(inputs[i]) in spentInMempool {
          assert InputKey(inputs[i]) in InputKeys(inputs);
          return true;
        }
      }
      conflict := false;
    }

    method AddTransaction(tx: Transaction) returns (added: bool)
      modifies this
      ensures added == Admits(old(State()), tx)
      ensures State() == AddTx(old(State()), tx)
    {
      if tx.hash in transactions {
        return false;
      }
      var conflict := HasConflictingInputs(tx.inputs);
      if conflict {
        return false;
      }
      transactions := transactions[tx.hash := tx];
      for i := 0 to |tx.inputs|
        invariant transactions == old(transactions)[tx.hash := tx]
        invariant spentInMempool == old(spentInMempool) + Marks(tx.inputs[..i])
      {
        spentInMempool := spentInMempool[InputKey(tx.inputs[i]) := tx.inputs[i].outputIndex];
        assert tx.inputs[..i + 1][..i] == tx.inputs[..i];
      }
      assert tx.inputs[..|tx.inputs|] == tx.inputs;
      added := true;
    }

    method RemoveTransaction(hash: string)
      modifies this
      ensures State() == RemoveTx(old(State()), hash)
    {
      if hash !in transactions {
        return;
      }
      var inputs := transactions[hash].inputs;
      for i := 0 to |inputs|
        invariant transactions == old(transactions)
        invariant spentInMempool == old(spentInMempool) - InputKeys(inputs[..i])
      {
        spentInMempool := spentInMempool - {InputKey(inputs[i])};
        assert InputKeys(inputs[..i + 1]) == InputKeys(inputs[..i]) + {InputKey(inputs[i])};
      }
      assert inputs[..|inputs|] == inputs;
      transactions := transactions - {hash};
    }

    /** The loop that drops the transactions of a block. */
    method RemoveConfirmed(txs: seq<Transaction>)
      modifies this
      ensures State() == RemoveAll(old(State()), txs)
    {
      assert txs[0..] == txs;
      for i := 0 to |txs|
        invariant RemoveAll(State(), txs[i..]) == RemoveAll(old(State()), txs)
      {
        assert txs[i..][1..] == txs[i + 1..];
        RemoveTransaction(txs[i].hash);
      }
    }

    /** The map is visited in any order. */
    method GetAll() returns (all: seq<Transaction>)
      requires Filed(transactions)
      ensures Lists(transactions, all)
    {
      all := [];
      var rest := transactions;
      ghost var seen: map<string, Transaction> := map[];
      while rest != map[]
        invariant seen.Keys !! rest.Keys && seen + rest == transactions
        invariant Lists(seen, all)
        decreases |rest|
      {
        var h :| h in rest;
        VisitEntry(seen, rest, h);
        ListOneMore(seen, all, h, rest[h]);
        all, rest, seen := all + [rest[h]], rest - {h}, seen[h := rest[h]];
      }
      assert seen == transactions;
    }

    method GetForBlock(maxCount: nat) returns (selected: seq<Transaction>)
      requires Filed(transactions)
      ensures Selection(State(), maxCount, selected)
    {
      var all := GetAll();
      var sorted := SortByFee(all);
      PermutationLists(transactions, all, sorted);
      selected := if |sorted| > maxCount then sorted[..maxCount] else sorted;
      assert IsFront(transactions, sorted, maxCount, selected);
    }

    method TotalPendingValue() returns (total: uint64)
      ensures total == Wrap64(SumOf(transactions, Pending))
    {
      total := 0;
      var rest := transactions;
      ghost var seen: map<string, Transaction>, exact := map[], 0;
      while rest != map[]
        invariant seen.Keys !! rest.Keys && seen + rest == transactions
        invariant exact == SumOf(seen, Pending) && total == Wrap64(exact)
        decreases |rest|
      {
        var h :| h in rest;
        VisitEntry(seen, rest, h);
        SumInsert(seen, Pending, h, rest[h]);
        total, exact := AddPending(total, exact, rest[h]);
        rest, seen := rest - {h}, seen[h := rest[h]];
      }
      assert seen == transactions;
    }

    method Clear()
      modifies this
      ensures State() == EMPTY_POOL
    {
      transactions, spentInMempool := map[], map[];
    }
  }

  lemma WrapTwice(a: nat, b: nat, d: nat)
    ensures Wrap64(Wrap64(a) + Wrap64(Wrap64(b) + d)) == Wrap64(a + (b + d))
  {
    WrapSum(b, d);
    WrapSum(a, Wrap64(b + d));
    WrapSum(b + d, a);
  }

  method AddPending(total: uint64, ghost exact: nat, tx: Transaction) returns (total': uint64, ghost exact': nat)
    requires total == Wrap64(exact)
    ensures total' == Wrap64(exact') && exact' == exact + Pending(tx)
  {
    var outputs := TotalOutput(tx);
    WrapTwice(exact, Total(tx.outputs), tx.fee);
    total', exact' := Wrap64(total + Wrap64(outputs + tx.fee)), exact + Pending(tx);
  }

  lemma ListOneMore(seen: map<string, Transaction>, all: seq<Transaction>, h: string, tx: Transaction)
    requires Lists(seen, all) && h !in seen && tx.hash == h
    ensures Lists(seen[h := tx], all + [tx])
  {
    var more, longer := seen[h := tx], all + [tx];
    forall g | g in more ensures exists i :: 0 <= i < |longer| && longer[i].hash == g {
      if g == h {
        assert longer[|all|].hash == h;
      } else {
        var i :| 0 <= i < |all| && all[i].hash == g;
        assert longer[i].hash == g;
      }
    }
  }

  /** An admitted transaction adds its outputs and its fee to the pending value; removing it takes them off. */
  lemma PendingValueRises(p: PoolState, tx: Transaction)
    requires Admits(p, tx)
    ensures SumOf(AddTx(p, tx).txs, Pending) == SumOf(p.txs, Pending) + Total(tx.outputs) + tx.fee
    ensures SumOf(RemoveTx(AddTx(p, tx), tx.hash).txs, Pending) == SumOf(p.txs, Pending)
  {
    SumInsert(p.txs, Pending, tx.hash, tx);
    AddThenRemove(p, tx);
  }
}
