/** Pending transactions and the index of the outputs they spend (`mempool.cpp`). */
module Mempools {
  import opened Words
  import opened Decimals
  import opened Transactions

  /** The two fields of a `Mempool`. */
  datatype PoolState = PoolState(txs: map<string, Transaction>, spent: map<string, uint32>)

  const EMPTY_POOL := PoolState(map[], map[])

  /** The index entries of a list of inputs. */
  function Marks(inputs: seq<TxInput>): map<string, uint32> {
    if inputs == [] then map[]
    else
      var last := inputs[|inputs| - 1];
      Marks(inputs[..|inputs| - 1])[InputKey(last) := last.outputIndex]
  }

  lemma {:induction false} MarksMeaning(inputs: seq<TxInput>)
    ensures Marks(inputs).Keys == InputKeys(inputs)
    ensures forall input :: input in inputs ==>
              InputKey(input) in Marks(inputs) && Marks(inputs)[InputKey(input)] == input.outputIndex
  {
    if inputs != [] {
      var n := |inputs| - 1;
      MarksMeaning(inputs[..n]);
      assert forall input :: input in inputs <==> input in inputs[..n] || input == inputs[n];
      forall input | input in inputs
        ensures InputKey(input) in Marks(inputs) && Marks(inputs)[InputKey(input)] == input.outputIndex
      {
        if InputKey(input) == InputKey(inputs[n]) {
          UtxoKeyInjective(input.txId, input.outputIndex, inputs[n].txId, inputs[n].outputIndex);
        }
      }
    }
  }

  function Admits(p: PoolState, tx: Transaction): bool {
    tx.hash !in p.txs && InputKeys(tx.inputs) !! p.spent.Keys
  }

  /** `add_transaction` */
  function AddTx(p: PoolState, tx: Transaction): PoolState {
    if Admits(p, tx) then PoolState(p.txs[tx.hash := tx], p.spent + Marks(tx.inputs)) else p
  }

  /** `remove_transaction` */
  function RemoveTx(p: PoolState, hash: string): PoolState {
    if hash !in p.txs then p else PoolState(p.txs - {hash}, p.spent - InputKeys(p.txs[hash].inputs))
  }

  function RemoveAll(p: PoolState, txs: seq<Transaction>): PoolState
    decreases |txs|
  {
    if txs == [] then p else RemoveAll(RemoveTx(p, txs[0].hash), txs[1..])
  }

  // ----- the index is faithful to the pooled transactions -----

  predicate Filed(txs: map<string, Transaction>) {
    forall h :: h in txs ==> txs[h].hash == h
  }

  predicate DisjointInputs(txs: map<string, Transaction>) {
    forall h, h' :: h in txs && h' in txs && h != h' ==> InputKeys(txs[h].inputs) !! InputKeys(txs[h'].inputs)
  }

  ghost predicate IndexKeys(p: PoolState) {
    && (forall h, k :: h in p.txs && k in InputKeys(p.txs[h].inputs) ==> k in p.spent)
    && (forall k :: k in p.spent ==> exists h :: h in p.txs && k in InputKeys(p.txs[h].inputs))
  }

  predicate IndexValues(p: PoolState) {
    forall h, input :: h in p.txs && input in p.txs[h].inputs ==>
      InputKey(input) in p.spent && p.spent[InputKey(input)] == input.outputIndex
  }

  /** Transactions are filed under their own id, no two of them spend a common output, and the index
      holds exactly the outputs they spend. */
  ghost predicate PoolInv(p: PoolState) {
    Filed(p.txs) && DisjointInputs(p.txs) && IndexKeys(p) && IndexValues(p)
  }

  lemma AddCoversIndex(p: PoolState, tx: Transaction, h: string, k: string)
    requires PoolInv(p) && Admits(p, tx)
    requires h in AddTx(p, tx).txs && k in InputKeys(AddTx(p, tx).txs[h].inputs)
    ensures k in AddTx(p, tx).spent
  {
    MarksMeaning(tx.inputs);
  }

  lemma AddKeepsIndex(p: PoolState, tx: Transaction)
    requires PoolInv(p) && Admits(p, tx)
    ensures IndexKeys(AddTx(p, tx))
  {
    MarksMeaning(tx.inputs);
    var q := AddTx(p, tx);
    forall h, k | h in q.txs && k in InputKeys(q.txs[h].inputs) ensures k in q.spent {
      AddCoversIndex(p, tx, h, k);
    }
    forall k | k in q.spent ensures exists h :: h in q.txs && k in InputKeys(q.txs[h].inputs) {
      if k in InputKeys(tx.inputs) {
        assert tx.hash in q.txs;
      } else {
        var h :| h in p.txs && k in InputKeys(p.txs[h].inputs);
        assert h in q.txs && q.txs[h] == p.txs[h];
      }
    }
  }

  lemma AddKeepsValues(p: PoolState, tx: Transaction)
    requires PoolInv(p) && Admits(p, tx)
    ensures IndexValues(AddTx(p, tx))
  {
    MarksMeaning(tx.inputs);
    var q := AddTx(p, tx);
    forall h, input | h in q.txs && input in q.txs[h].inputs
      ensures InputKey(input) in q.spent && q.spent[InputKey(input)] == input.outputIndex
    {
      assert InputKey(input) in InputKeys(q.txs[h].inputs);
    }
  }

  lemma AddKeepsDisjointness(p: PoolState, tx: Transaction)
    requires PoolInv(p) && Admits(p, tx)
    ensures DisjointInputs(AddTx(p, tx).txs)
  {
    forall h | h in p.txs ensures InputKeys(p.txs[h].inputs) <= p.spent.Keys {
    }
  }

  lemma AddKeepsPoolInv(p: PoolState, tx: Transaction)
    requires PoolInv(p)
    ensures PoolInv(AddTx(p, tx))
  {
    if Admits(p, tx) {
      AddKeepsIndex(p, tx);
      AddKeepsValues(p, tx);
      AddKeepsDisjointness(p, tx);
    }
  }

  lemma RemoveKeepsIndex(p: PoolState, hash: string)
    requires PoolInv(p) && hash in p.txs
    ensures IndexKeys(RemoveTx(p, hash))
  {
    var q := RemoveTx(p, hash);
    forall k | k in q.spent ensures exists h :: h in q.txs && k in InputKeys(q.txs[h].inputs) {
      var h :| h in p.txs && k in InputKeys(p.txs[h].inputs);
      assert h in q.txs && q.txs[h] == p.txs[h];
    }
  }

  lemma RemoveKeepsValues(p: PoolState, hash: string)
    requires PoolInv(p) && hash in p.txs
    ensures IndexValues(RemoveTx(p, hash))
  {
    var q := RemoveTx(p, hash);
    forall h, input | h in q.txs && input in q.txs[h].inputs
      ensures InputKey(input) in q.spent && q.spent[InputKey(input)] == input.outputIndex
    {
      assert q.txs[h] == p.txs[h] && InputKey(input) in InputKeys(p.txs[h].inputs);
    }
  }

  lemma RemoveKeepsPoolInv(p: PoolState, hash: string)
    requires PoolInv(p)
    ensures PoolInv(RemoveTx(p, hash))
  {
    if hash in p.txs {
      RemoveKeepsIndex(p, hash);
      RemoveKeepsValues(p, hash);
    }
  }

  predicate SharesOutpoint(a: Transaction, b: Transaction) {
    exists i, j :: 0 <= i < |a.inputs| && 0 <= j < |b.inputs| &&
                   a.inputs[i].txId == b.inputs[j].txId && a.inputs[i].outputIndex == b.inputs[j].outputIndex
  }

  lemma SharedKeyIsSharedOutpoint(a: Transaction, b: Transaction)
    ensures InputKeys(a.inputs) !! InputKeys(b.inputs) <==> !SharesOutpoint(a, b)
  {
    if k :| k in InputKeys(a.inputs) && k in InputKeys(b.inputs) {
      var i :| 0 <= i < |a.inputs| && InputKey(a.inputs[i]) == k;
      var j :| 0 <= j < |b.inputs| && InputKey(b.inputs[j]) == k;
      UtxoKeyInjective(a.inputs[i].txId, a.inputs[i].outputIndex, b.inputs[j].txId, b.inputs[j].outputIndex);
    }
    if SharesOutpoint(a, b) {
      var i, j :| 0 <= i < |a.inputs| && 0 <= j < |b.inputs| &&
                  a.inputs[i].txId == b.inputs[j].txId && a.inputs[i].outputIndex == b.inputs[j].outputIndex;
      assert InputKey(a.inputs[i]) in InputKeys(a.inputs) && InputKey(b.inputs[j]) in InputKeys(b.inputs);
    }
  }

  /** A transaction is admitted iff its id is new and no pooled transaction spends a common output. */
  lemma AdmissionMeaning(p: PoolState, tx: Transaction)
    requires PoolInv(p)
    ensures Admits(p, tx) <==> tx.hash !in p.txs && forall h :: h in p.txs ==> !SharesOutpoint(tx, p.txs[h])
  {
    forall h | h in p.txs
      ensures InputKeys(tx.inputs) !! InputKeys(p.txs[h].inputs) <==> !SharesOutpoint(tx, p.txs[h])
    {
      SharedKeyIsSharedOutpoint(tx, p.txs[h]);
    }
    if k :| k in InputKeys(tx.inputs) && k in p.spent {
      var h :| h in p.txs && k in InputKeys(p.txs[h].inputs);
      assert SharesOutpoint(tx, p.txs[h]);
    }
  }

  /** Removing what was just added restores both maps. */
  lemma AddThenRemove(p: PoolState, tx: Transaction)
    requires Admits(p, tx)
    ensures RemoveTx(AddTx(p, tx), tx.hash) == p
  {
    MarksMeaning(tx.inputs);
    assert p.txs[tx.hash := tx] - {tx.hash} == p.txs;
    assert p.spent + Marks(tx.inputs) - InputKeys(tx.inputs) == p.spent;
  }

  datatype PoolOp = Add(tx: Transaction) | Remove(hash: string) | Clear

  function ExecutePool(p: PoolState, op: PoolOp): PoolState {
    match op
    case Add(tx) => AddTx(p, tx)
    case Remove(hash) => RemoveTx(p, hash)
    case Clear => EMPTY_POOL
  }

  function RunPool(p: PoolState, ops: seq<PoolOp>): PoolState
    decreases |ops|
  {
    if ops == [] then p else RunPool(ExecutePool(p, ops[0]), ops[1..])
  }

  /** After any sequence of operations the index is faithful. */
  lemma {:induction false} EveryPoolRunIsFaithful(p: PoolState, ops: seq<PoolOp>)
    requires PoolInv(p)
    ensures PoolInv(RunPool(p, ops))
    decreases |ops|
  {
    if ops != [] {
      match ops[0] {
        case Add(tx) => AddKeepsPoolInv(p, tx);
        case Remove(hash) => RemoveKeepsPoolInv(p, hash);
        case Clear =>
      }
      EveryPoolRunIsFaithful(ExecutePool(p, ops[0]), ops[1..]);
    }
  }

  function Ids(txs: seq<Transaction>): set<string> {
    set tx | tx in txs :: tx.hash
  }

  lemma {:induction false} RemoveAllMeaning(p: PoolState, txs: seq<Transaction>)
    requires PoolInv(p)
    ensures PoolInv(RemoveAll(p, txs))
    ensures RemoveAll(p, txs).txs == p.txs - Ids(txs)
    decreases |txs|
  {
    if txs != [] {
      RemoveKeepsPoolInv(p, txs[0].hash);
      RemoveAllMeaning(RemoveTx(p, txs[0].hash), txs[1..]);
      assert Ids(txs) == {txs[0].hash} + Ids(txs[1..]) by {
        assert txs == [txs[0]] + txs[1..];
      }
      assert RemoveTx(p, txs[0].hash).txs == p.txs - {txs[0].hash};
    }
  }

  // ----- block selection -----

  /** The list holds every pooled transaction once. */
  predicate Lists(txs: map<string, Transaction>, list: seq<Transaction>) {
    && (forall i :: 0 <= i < |list| ==> list[i].hash in txs && txs[list[i].hash] == list[i])
    && (forall i, j :: 0 <= i < j < |list| ==> list[i].hash != list[j].hash)
    && (forall h :: h in txs ==> exists i :: 0 <= i < |list| && list[i].hash == h)
  }

  predicate ByFeeDescending(list: seq<Transaction>) {
    forall i, j :: 0 <= i < j < |list| ==> list[i].fee >= list[j].fee
  }

  /** What `get_for_block` may return: the front of some listing of the pool by descending fee. */
  ghost predicate Selection(p: PoolState, maxCount: nat, r: seq<Transaction>) {
    exists all: seq<Transaction> :: IsFront(p.txs, all, maxCount, r)
  }

  predicate IsFront(txs: map<string, Transaction>, all: seq<Transaction>, maxCount: nat, r: seq<Transaction>) {
    Lists(txs, all) && ByFeeDescending(all) && r == if |all| > maxCount then all[..maxCount] else all
  }

  predicate DistinctIds(txs: seq<Transaction>) {
    forall i, j :: 0 <= i < j < |txs| ==> txs[i].hash != txs[j].hash
  }

  lemma {:induction false} CountIds(txs: seq<Transaction>)
    requires DistinctIds(txs)
    ensures |Ids(txs)| == |txs|
  {
    if txs != [] {
      var n := |txs| - 1;
      CountIds(txs[..n]);
      assert txs == txs[..n] + [txs[n]];
      assert Ids(txs) == Ids(txs[..n]) + {txs[n].hash};
    }
  }

  lemma SubsetSize(a: set<string>, b: set<string>)
    requires a <= b
    ensures |a| <= |b|
  {
    assert b == a + (b - a);
  }

  lemma ListsSize(txs: map<string, Transaction>, list: seq<Transaction>)
    requires Lists(txs, list)
    ensures |list| == |txs|
  {
    CountIds(list);
    assert Ids(list) == txs.Keys;
  }

  function Fees(txs: seq<Transaction>): nat {
    if txs == [] then 0 else txs[0].fee + Fees(txs[1..])
  }

  lemma {:induction false} FeesWithout(txs: seq<Transaction>, i: nat)
    requires i < |txs|
    ensures Fees(txs) == txs[i].fee + Fees(txs[..i] + txs[i + 1..])
  {
    var without := txs[..i] + txs[i + 1..];
    if i == 0 {
      assert without == txs[1..];
    } else {
      FeesWithout(txs[1..], i - 1);
      assert without[1..] == txs[1..][..i - 1] + txs[1..][i..];
    }
  }

  /** `t` belongs to the list or pays no more than any of it. */
  predicate NoBetter(r: seq<Transaction>, t: Transaction) {
    t in r || forall i :: 0 <= i < |r| ==> t.fee <= r[i].fee
  }

  /** A list by descending fee beats every list that is no longer and has nothing better to offer. */
  lemma {:induction false} ExchangeArgument(r: seq<Transaction>, s: seq<Transaction>)
    requires |s| <= |r| && ByFeeDescending(r) && DistinctIds(s)
    requires forall t :: t in s ==> NoBetter(r, t)
    ensures Fees(s) <= Fees(r)
    decreases |r|
  {
    if s != [] {
      var i := if r[0] in s then IndexOfTx(s, r[0]) else 0;
      var s' := s[..i] + s[i + 1..];
      FeesWithout(s, i);
      assert s[i] in s && NoBetter(r, s[i]) && s[i].fee <= r[0].fee;
      forall t | t in s' ensures NoBetter(r[1..], t) {
        assert t in s && NoBetter(r, t);
        assert t != r[0];
        assert r == [r[0]] + r[1..];
      }
      ExchangeArgument(r[1..], s');
    }
  }

  function IndexOfTx(s: seq<Transaction>, t: Transaction): (i: nat)
    requires t in s
    ensures i < |s| && s[i] == t
  {
    if s[0] == t then 0 else 1 + IndexOfTx(s[1..], t)
  }

  /** Pairwise different pooled transactions. */
  predicate PooledTxs(p: PoolState, s: seq<Transaction>) {
    DistinctIds(s) && forall t :: t in s ==> t.hash in p.txs && p.txs[t.hash] == t
  }

  lemma PooledTxsCount(p: PoolState, s: seq<Transaction>)
    requires PooledTxs(p, s)
    ensures |s| <= |p.txs|
  {
    CountIds(s);
    SubsetSize(Ids(s), p.txs.Keys);
  }

  lemma FrontIsPooled(p: PoolState, all: seq<Transaction>, k: nat)
    requires Lists(p.txs, all) && ByFeeDescending(all) && k <= |all|
    ensures PooledTxs(p, all[..k]) && ByFeeDescending(all[..k])
  {
  }

  /** A selection is as long as allowed and holds different pooled transactions by descending fee. */
  lemma SelectionShape(p: PoolState, maxCount: nat, r: seq<Transaction>)
    requires Selection(p, maxCount, r)
    ensures |r| == if |p.txs| > maxCount then maxCount else |p.txs|
    ensures PooledTxs(p, r) && ByFeeDescending(r)
  {
    var all: seq<Transaction> :| IsFront(p.txs, all, maxCount, r);
    ListsSize(p.txs, all);
    if |all| > maxCount {
      FrontIsPooled(p, all, maxCount);
    } else {
      assert all[..|all|] == all;
      FrontIsPooled(p, all, |all|);
    }
  }

  lemma SelectionSharesNothing(p: PoolState, maxCount: nat, r: seq<Transaction>, i: nat, j: nat)
    requires PoolInv(p) && Selection(p, maxCount, r) && i < j < |r|
    ensures !SharesOutpoint(r[i], r[j]) && InputKeys(r[i].inputs) !! InputKeys(r[j].inputs)
  {
    SelectionShape(p, maxCount, r);
    assert r[i] in r && r[j] in r;
    SharedKeyIsSharedOutpoint(r[i], r[j]);
  }

  lemma FrontHasNoBetter(txs: map<string, Transaction>, all: seq<Transaction>, k: nat, t: Transaction)
    requires Lists(txs, all) && ByFeeDescending(all) && k <= |all| && t.hash in txs && txs[t.hash] == t
    ensures NoBetter(all[..k], t)
  {
    var i :| 0 <= i < |all| && all[i].hash == t.hash;
    assert all[i] == t;
    if i < k {
      assert all[..k][i] == t;
    }
  }

  lemma SelectionHasNoBetter(p: PoolState, maxCount: nat, r: seq<Transaction>, t: Transaction)
    requires Selection(p, maxCount, r)
    requires t.hash in p.txs && p.txs[t.hash] == t
    ensures NoBetter(r, t)
  {
    var all: seq<Transaction> :| IsFront(p.txs, all, maxCount, r);
    FrontHasNoBetter(p.txs, all, |r|, t);
    assert r == all[..|r|];
  }

  /** No other choice of at most `maxCount` pooled transactions pays more than a selection. */
  lemma SelectionIsOptimal(p: PoolState, maxCount: nat, r: seq<Transaction>, s: seq<Transaction>)
    requires Selection(p, maxCount, r)
    requires PooledTxs(p, s) && |s| <= maxCount
    ensures Fees(s) <= Fees(r)
  {
    SelectionShape(p, maxCount, r);
    PooledTxsCount(p, s);
    forall t | t in s ensures NoBetter(r, t) {
      SelectionHasNoBetter(p, maxCount, r, t);
    }
    ExchangeArgument(r, s);
  }

  // ----- listing and sorting -----

  predicate MultisetDistinct(list: seq<Transaction>) {
    forall t :: t in list ==> multiset(list)[t] == 1
  }

  lemma {:induction false} DistinctCountsOne(list: seq<Transaction>)
    requires DistinctIds(list)
    ensures MultisetDistinct(list)
  {
    if list != [] {
      var n := |list| - 1;
      DistinctCountsOne(list[..n]);
      assert list == list[..n] + [list[n]];
    }
  }

  lemma RepeatedCountsTwo(list: seq<Transaction>, i: nat, j: nat)
    requires i < j < |list| && list[i] == list[j]
    ensures multiset(list)[list[i]] >= 2
  {
    assert list == list[..j] + list[j..];
    assert list[..j][i] == list[i] && list[j..][0] == list[i];
    assert list[i] in multiset(list[..j]) && list[i] in multiset(list[j..]);
  }

  /** A permutation of a listing is a listing. */
  lemma PermutationLists(txs: map<string, Transaction>, a: seq<Transaction>, b: seq<Transaction>)
    requires Lists(txs, a) && multiset(a) == multiset(b)
    ensures Lists(txs, b)
  {
    assert forall t :: t in a <==> t in multiset(a);
    assert forall t :: t in b <==> t in multiset(b);
    forall i | 0 <= i < |b| ensures b[i].hash in txs && txs[b[i].hash] == b[i] {
      assert b[i] in a;
    }
    DistinctCountsOne(a);
    forall i, j | 0 <= i < j < |b| ensures b[i].hash != b[j].hash {
      assert b[i] in a;
      if b[i] == b[j] {
        RepeatedCountsTwo(b, i, j);
      }
    }
    forall h | h in txs ensures exists i :: 0 <= i < |b| && b[i].hash == h {
      var k :| 0 <= k < |a| && a[k].hash == h;
      assert a[k] in b;
    }
  }

  /** Stands for `std::sort` with the comparison by descending fee. */
  method SortByFee(txs: seq<Transaction>) returns (sorted: seq<Transaction>)
    ensures multiset(sorted) == multiset(txs) && ByFeeDescending(sorted)
  {
    sorted := [];
    for i := 0 to |txs|
      invariant multiset(sorted) == multiset(txs[..i]) && ByFeeDescending(sorted)
    {
      sorted := InsertByFee(sorted, txs[i]);
      assert txs[..i + 1] == txs[..i] + [txs[i]];
    }
    assert txs[..|txs|] == txs;
  }

  method InsertByFee(sorted: seq<Transaction>, tx: Transaction) returns (r: seq<Transaction>)
    requires ByFeeDescending(sorted)
    ensures multiset(r) == multiset(sorted) + multiset{tx} && ByFeeDescending(r)
  {
    var j := |sorted|;
    while j > 0 && sorted[j - 1].fee < tx.fee
      invariant 0 <= j <= |sorted|
      invariant forall k :: j <= k < |sorted| ==> sorted[k].fee < tx.fee
    {
      j := j - 1;
    }
    r := sorted[..j] + [tx] + sorted[j..];
    InsertKeepsOrder(sorted, j, tx, r);
    InsertAddsOne(sorted, j, tx, r);
  }

  lemma InsertAddsOne(sorted: seq<Transaction>, j: nat, tx: Transaction, r: seq<Transaction>)
    requires j <= |sorted| && r == sorted[..j] + [tx] + sorted[j..]
    ensures multiset(r) == multiset(sorted) + multiset{tx}
  {
    assert sorted == sorted[..j] + sorted[j..];
  }

  lemma InsertKeepsOrder(sorted: seq<Transaction>, j: nat, tx: Transaction, r: seq<Transaction>)
    requires ByFeeDescending(sorted) && j <= |sorted|
    requires j > 0 ==> sorted[j - 1].fee >= tx.fee
    requires forall k :: j <= k < |sorted| ==> sorted[k].fee < tx.fee
    requires r == sorted[..j] + [tx] + sorted[j..]
    ensures ByFeeDescending(r)
  {
    forall a, b | 0 <= a < b < |r| ensures r[a].fee >= r[b].fee {
      var x := if a < j then sorted[a] else if a == j then tx else sorted[a - 1];
      var y := if b < j then sorted[b] else if b == j then tx else sorted[b - 1];
      assert r[a] == x && r[b] == y;
    }
  }
}
