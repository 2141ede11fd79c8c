/** Facts about whole chains: every block was accepted by `add_block` on what stood before it. */
module History {
  import opened Words
  import opened Decimals
  import opened Crypto
  import opened Transactions
  import opened Blocks
  import opened Ledger

  predicate AcceptedAt(c: Crypto, blocks: seq<Block>, i: int)
    requires 0 <= i < |blocks|
  {
    CheckBlock(c, StateOf(blocks[..i]), blocks[i]).Accept?
  }

  /** A chain started by `init` and extended only by `add_block`. */
  ghost predicate WellBuilt(c: Crypto, blocks: seq<Block>) {
    && blocks != []
    && blocks[0] == GenesisBlock(c, blocks[0].header.timestamp)
    && forall i :: 0 < i < |blocks| ==> AcceptedAt(c, blocks, i)
  }

  /** The invariant of a `Blockchain` object: both maps agree with a replay of the chain. */
  ghost predicate LedgerInv(c: Crypto, st: LedgerState) {
    WellBuilt(c, st.blocks) && st == StateOf(st.blocks)
  }

  lemma StateOfAppend(blocks: seq<Block>, b: Block)
    requires blocks != [] || b.header.index == 0
    ensures StateOf(blocks + [b]) == Append(StateOf(blocks), b)
  {
    assert (blocks + [b])[..|blocks|] == blocks;
  }

  lemma IndexAppend(blocks: seq<Block>, b: Block)
    ensures IndexOf(blocks + [b]) == IndexOf(blocks)[b.hash := b.header.index]
  {
    assert (blocks + [b])[..|blocks|] == blocks;
  }

  lemma InitEstablishes(c: Crypto, now: uint64)
    ensures LedgerInv(c, Append(EMPTY, GenesisBlock(c, now)))
  {
    StateOfAppend([], GenesisBlock(c, now));
  }

  lemma WellBuiltPrefix(c: Crypto, blocks: seq<Block>, k: nat)
    requires WellBuilt(c, blocks) && 0 < k <= |blocks|
    ensures WellBuilt(c, blocks[..k])
  {
    forall i | 0 < i < k ensures AcceptedAt(c, blocks[..k], i) {
      assert AcceptedAt(c, blocks, i);
      assert blocks[..k][..i] == blocks[..i];
    }
  }

  lemma WellBuiltAppend(c: Crypto, blocks: seq<Block>, b: Block)
    requires WellBuilt(c, blocks)
    ensures WellBuilt(c, blocks + [b]) <==> CheckBlock(c, StateOf(blocks), b).Accept?
  {
    var longer := blocks + [b];
    assert longer[..|blocks|] == blocks;
    forall i | 0 < i < |blocks| ensures AcceptedAt(c, longer, i) {
      assert AcceptedAt(c, blocks, i);
      assert longer[..i] == blocks[..i];
    }
    assert AcceptedAt(c, longer, |blocks|) <==> CheckBlock(c, StateOf(blocks), b).Accept?;
  }

  /** `add_block` keeps the invariant whatever block it is given. */
  lemma AddKeepsInv(c: Crypto, st: LedgerState, b: Block)
    requires LedgerInv(c, st)
    ensures LedgerInv(c, AddBlock(c, st, b))
  {
    StateOfAppend(st.blocks, b);
    WellBuiltAppend(c, st.blocks, b);
  }

  lemma GenesisIsHashed(c: Crypto, now: uint64)
    ensures GenesisBlock(c, now).hash == BlockHash(c, GenesisBlock(c, now))
  {
    var g := GenesisBlock(c, now);
    assert SerializeBlock(g) == SerializeBlock(g.(hash := ""));
  }

  lemma LinkedToPrevious(c: Crypto, blocks: seq<Block>, i: nat)
    requires WellBuilt(c, blocks) && 0 < i < |blocks|
    ensures blocks[i].header.index == Wrap64(blocks[i - 1].header.index + 1)
    ensures blocks[i].hash == BlockHash(c, blocks[i]) && blocks[i].header.previousHash == blocks[i - 1].hash
  {
    assert AcceptedAt(c, blocks, i);
    AcceptedHeader(c, StateOf(blocks[..i]), blocks[i]);
  }

  /** Blocks sit at their own index, are named by their hash, and link to the block before. */
  lemma {:induction false} ChainLinked(c: Crypto, blocks: seq<Block>, i: nat)
    requires WellBuilt(c, blocks) && i < |blocks|
    ensures blocks[i].header.index == Wrap64(i)
    ensures blocks[i].hash == BlockHash(c, blocks[i])
    ensures i > 0 ==> blocks[i].header.previousHash == blocks[i - 1].hash
  {
    if i == 0 {
      GenesisIsHashed(c, blocks[0].header.timestamp);
    } else {
      ChainLinked(c, blocks, i - 1);
      LinkedToPrevious(c, blocks, i);
      WrapSum(i - 1, 1);
    }
  }

  // ----- the hash index -----

  /** A linear search from the tip. */
  function TipSearch(blocks: seq<Block>, hash: string): Option<Block> {
    if blocks == [] then None
    else if blocks[|blocks| - 1].hash == hash then Some(blocks[|blocks| - 1])
    else TipSearch(blocks[..|blocks| - 1], hash)
  }

  /** `get_block_by_hash` */
  function BlockByHash(st: LedgerState, hash: string): Option<Block>
    requires hash in st.index ==> st.index[hash] < |st.blocks|
  {
    if hash !in st.index then None else Some(st.blocks[st.index[hash]])
  }

  /** Blocks declare their own position. */
  predicate Positioned(blocks: seq<Block>) {
    forall i :: 0 <= i < |blocks| ==> blocks[i].header.index == i
  }

  /** Where blocks declare their own position, the index finds what a search from the tip finds. */
  lemma {:induction false} IndexIsTipSearch(blocks: seq<Block>, hash: string)
    requires Positioned(blocks)
    ensures hash in IndexOf(blocks) ==> IndexOf(blocks)[hash] < |blocks|
    ensures BlockByHash(StateOf(blocks), hash) == TipSearch(blocks, hash)
  {
    if blocks != [] {
      IndexIsTipSearch(blocks[..|blocks| - 1], hash);
    }
  }

  /** They do on every chain built by `add_block`, as long as positions fit a `uint64_t`. */
  lemma WellBuiltIsPositioned(c: Crypto, blocks: seq<Block>)
    requires WellBuilt(c, blocks) && |blocks| <= TWO64
    ensures Positioned(blocks)
  {
    forall i | 0 <= i < |blocks| ensures blocks[i].header.index == i {
      ChainLinked(c, blocks, i);
      WrapSmall(i);
    }
  }

  /** `height()` is the position that the latest block declares, and from there on it is the only one. */
  lemma HeightNamesTip(c: Crypto, st: LedgerState)
    requires LedgerInv(c, st)
    ensures HeightOf(st) < |st.blocks| && st.blocks[HeightOf(st)].header.index == Wrap64(HeightOf(st))
    ensures BlocksFrom(st, HeightOf(st)) == [st.blocks[|st.blocks| - 1]] && BlocksFrom(st, HeightOf(st) + 1) == []
  {
    ChainLinked(c, st.blocks, HeightOf(st));
  }

  // ----- the exact meaning of the UTXO set -----

  predicate SpendsIn(tx: Transaction, txId: string, i: uint32) {
    exists input :: input in tx.inputs && input.txId == txId && input.outputIndex == i
  }

  predicate Spends(b: Block, txId: string, i: uint32) {
    exists tx :: tx in b.transactions && SpendsIn(tx, txId, i)
  }

  /** The last output that a list of transactions writes at an outpoint. */
  function LastOutput(txs: seq<Transaction>, txId: string, i: uint32): Option<Utxo> {
    if txs == [] then None
    else
      var tx := txs[|txs| - 1];
      if tx.hash == txId && i < |tx.outputs| then Some(OutputAt(tx, i)) else LastOutput(txs[..|txs| - 1], txId, i)
  }

  predicate Creates(b: Block, txId: string, i: uint32) {
    exists tx :: tx in b.transactions && tx.hash == txId && i < |tx.outputs|
  }

  lemma SpentKeysMeaning(b: Block, txId: string, i: uint32)
    ensures UtxoKey(txId, i) in SpentKeys(b.transactions) <==> Spends(b, txId, i)
  {
    var k := UtxoKey(txId, i);
    if k in SpentKeys(b.transactions) {
      var tx, input :| tx in b.transactions && input in tx.inputs && InputKey(input) == k;
      UtxoKeyInjective(txId, i, input.txId, input.outputIndex);
      assert SpendsIn(tx, txId, i);
    }
    if Spends(b, txId, i) {
      var tx :| tx in b.transactions && SpendsIn(tx, txId, i);
      var input :| input in tx.inputs && input.txId == txId && input.outputIndex == i;
      assert InputKey(input) == k;
    }
  }

  lemma {:induction false} CreatedMapMeaning(txs: seq<Transaction>, txId: string, i: uint32)
    ensures UtxoKey(txId, i) in CreatedMap(txs) <==> LastOutput(txs, txId, i).Some?
    ensures LastOutput(txs, txId, i).Some? ==> CreatedMap(txs)[UtxoKey(txId, i)] == LastOutput(txs, txId, i).value
  {
    if txs != [] {
      var tx, k := txs[|txs| - 1], UtxoKey(txId, i);
      CreatedMapMeaning(txs[..|txs| - 1], txId, i);
      OutputMapKeys(tx, |tx.outputs|, k);
      if k in OutputMap(tx, |tx.outputs|) {
        var u := OutputMap(tx, |tx.outputs|)[k];
        UtxoKeyInjective(txId, i, u.txId, u.outputIndex);
      }
    }
  }

  lemma {:induction false} LastOutputMeaning(txs: seq<Transaction>, txId: string, i: uint32)
    ensures LastOutput(txs, txId, i).Some? <==> exists tx :: tx in txs && tx.hash == txId && i < |tx.outputs|
  {
    if txs != [] {
      LastOutputMeaning(txs[..|txs| - 1], txId, i);
      assert forall tx :: tx in txs <==> tx in txs[..|txs| - 1] || tx == txs[|txs| - 1];
    }
  }

  /** Block `j` creates the outpoint and no later block spends it. */
  ghost predicate CreatedAndKept(blocks: seq<Block>, j: int, txId: string, i: uint32) {
    0 <= j < |blocks| && Creates(blocks[j], txId, i) && forall l :: j < l < |blocks| ==> !Spends(blocks[l], txId, i)
  }

  lemma ReplayStep(blocks: seq<Block>, b: Block, txId: string, i: uint32)
    ensures UtxoKey(txId, i) in Replay(blocks + [b]) <==>
            Creates(b, txId, i) || (UtxoKey(txId, i) in Replay(blocks) && !Spends(b, txId, i))
    ensures Creates(b, txId, i) ==>
              LastOutput(b.transactions, txId, i).Some? &&
              Replay(blocks + [b])[UtxoKey(txId, i)] == LastOutput(b.transactions, txId, i).value
    ensures UtxoKey(txId, i) in Replay(blocks + [b]) && !Creates(b, txId, i) ==>
              Replay(blocks + [b])[UtxoKey(txId, i)] == Replay(blocks)[UtxoKey(txId, i)]
  {
    assert (blocks + [b])[..|blocks|] == blocks;
    SpentKeysMeaning(b, txId, i);
    CreatedMapMeaning(b.transactions, txId, i);
    LastOutputMeaning(b.transactions, txId, i);
  }

  /** An outpoint is unspent iff some block creates it and no later block spends it. */
  lemma {:induction false} UtxoPresence(blocks: seq<Block>, txId: string, i: uint32)
    ensures UtxoKey(txId, i) in Replay(blocks) <==> exists j :: CreatedAndKept(blocks, j, txId, i)
  {
    if blocks != [] {
      var n := |blocks| - 1;
      var front, b := blocks[..n], blocks[n];
      assert blocks == front + [b];
      UtxoPresence(front, txId, i);
      ReplayStep(front, b, txId, i);
      forall j | CreatedAndKept(blocks, j, txId, i) && j < n
        ensures CreatedAndKept(front, j, txId, i) && !Spends(b, txId, i)
      {
        assert forall l :: j < l < n ==> front[l] == blocks[l];
      }
      if Creates(b, txId, i) {
        assert CreatedAndKept(blocks, n, txId, i);
      } else if UtxoKey(txId, i) in Replay(blocks) {
        var j :| CreatedAndKept(front, j, txId, i);
        assert blocks[j] == front[j];
        assert forall l :: j < l < |front| ==> !Spends(front[l], txId, i);
        assert CreatedAndKept(blocks, j, txId, i);
      }
    }
  }

  /** Its value is the last output ever written there. */
  lemma {:induction false} UtxoValue(blocks: seq<Block>, j: nat, txId: string, i: uint32)
    requires CreatedAndKept(blocks, j, txId, i)
    requires forall l :: j < l < |blocks| ==> !Creates(blocks[l], txId, i)
    ensures UtxoKey(txId, i) in Replay(blocks)
    ensures LastOutput(blocks[j].transactions, txId, i) == Some(Replay(blocks)[UtxoKey(txId, i)])
  {
    UtxoPresence(blocks, txId, i);
    var n := |blocks| - 1;
    var front, b := blocks[..n], blocks[n];
    assert blocks == front + [b];
    ReplayStep(front, b, txId, i);
    if j < n {
      assert !Creates(blocks[n], txId, i);
      assert forall l :: j < l < n ==> front[l] == blocks[l];
      assert CreatedAndKept(front, j, txId, i);
      UtxoValue(front, j, txId, i);
    }
  }

  // ----- no double spend across blocks -----

  /** Transaction `k` of the block spends the outpoint and is not an exempt coinbase. */
  predicate VerifiedSpend(b: Block, k: int, txId: string, i: uint32) {
    0 <= k < |b.transactions| && !(k == 0 && IsCoinbase(b.transactions[k])) && SpendsIn(b.transactions[k], txId, i)
  }

  /** What a verified input spends was created earlier and not spent since. */
  lemma VerifiedSpendHasSource(c: Crypto, blocks: seq<Block>, n: nat, k: int, txId: string, i: uint32)
    returns (j: nat)
    requires WellBuilt(c, blocks) && n < |blocks| && VerifiedSpend(blocks[n], k, txId, i)
    ensures j < n && Creates(blocks[j], txId, i)
    ensures forall l :: j < l < n ==> !Spends(blocks[l], txId, i)
  {
    var past, tx := StateOf(blocks[..n]), blocks[n].transactions[k];
    assert AcceptedAt(c, blocks, n);
    CheckBlockMeaning(c, past, blocks[n]);
    assert GoodTx(c, past.utxos, tx, k == 0);
    var input :| input in tx.inputs && input.txId == txId && input.outputIndex == i;
    assert Owned(c, past.utxos, SerializeTx(tx), input);
    UtxoPresence(blocks[..n], txId, i);
    j :| CreatedAndKept(blocks[..n], j, txId, i);
    forall l | j < l < n ensures !Spends(blocks[l], txId, i) {
      assert blocks[..n][l] == blocks[l];
    }
  }

  /** Between two verified spends of one outpoint some block created it again. */
  lemma NoDoubleSpend(c: Crypto, blocks: seq<Block>, m: nat, n: nat, p: int, q: int, txId: string, i: uint32)
    requires WellBuilt(c, blocks) && m < n < |blocks|
    requires VerifiedSpend(blocks[m], p, txId, i) && VerifiedSpend(blocks[n], q, txId, i)
    ensures exists j :: m <= j < n && Creates(blocks[j], txId, i)
  {
    var j := VerifiedSpendHasSource(c, blocks, n, q, txId, i);
    assert Spends(blocks[m], txId, i);
  }

  /** No transaction id occurs in two blocks. */
  ghost predicate DistinctIdsAcrossBlocks(blocks: seq<Block>) {
    forall m, n | 0 <= m < |blocks| && 0 <= n < |blocks| && m != n ::
      forall tx, tx' | tx in blocks[m].transactions && tx' in blocks[n].transactions :: tx.hash != tx'.hash
  }

  /** With distinct transaction ids, no outpoint is spent by verified inputs in two blocks. */
  lemma SpentOnlyOnce(c: Crypto, blocks: seq<Block>, m: nat, n: nat, p: int, q: int, txId: string, i: uint32)
    requires WellBuilt(c, blocks) && DistinctIdsAcrossBlocks(blocks) && m < |blocks| && n < |blocks|
    requires VerifiedSpend(blocks[m], p, txId, i) && VerifiedSpend(blocks[n], q, txId, i)
    ensures m == n
  {
    if m < n {
      NoDoubleSpend(c, blocks, m, n, p, q, txId, i);
      var again :| m <= again < n && Creates(blocks[again], txId, i);
      var source := VerifiedSpendHasSource(c, blocks, m, p, txId, i);
    } else if n < m {
      SpentOnlyOnce(c, blocks, n, m, q, p, txId, i);
    }
  }

  lemma GenesisCreatesNothing(c: Crypto, blocks: seq<Block>)
    requires WellBuilt(c, blocks) && |blocks| == 1
    ensures Replay(blocks) == map[]
  {
    assert Replay(blocks[..0]) == map[] && CreatedMap([]) == map[];
  }

  lemma CreatedByAccepted(c: Crypto, blocks: seq<Block>, n: nat, k: string)
    requires WellBuilt(c, blocks) && 0 < n < |blocks| && k in CreatedMap(blocks[n].transactions)
    ensures var u := CreatedMap(blocks[n].transactions)[k];
            k == UtxoKey(u.txId, u.outputIndex) && IsDigest(u.txId) && u.amount > 0 && u.address != ""
  {
    var past, txs := StateOf(blocks[..n]), blocks[n].transactions;
    CreatedEntry(txs, k);
    var u := CreatedMap(txs)[k];
    var tx :| tx in txs && u.outputIndex < |tx.outputs| && u == OutputAt(tx, u.outputIndex);
    var t :| 0 <= t < |txs| && txs[t] == tx;
    assert AcceptedAt(c, blocks, n);
    CheckBlockMeaning(c, past, blocks[n]);
    assert GoodTx(c, past.utxos, txs[t], t == 0);
  }

  /** Every unspent output is filed under its own key and carries the 64-character id of the
      transaction that created it. */
  lemma {:induction false} UtxosAreKeyed(c: Crypto, blocks: seq<Block>, k: string)
    requires WellBuilt(c, blocks) && k in Replay(blocks)
    ensures k == UtxoKey(Replay(blocks)[k].txId, Replay(blocks)[k].outputIndex)
    ensures IsDigest(Replay(blocks)[k].txId) && Replay(blocks)[k].amount > 0 && Replay(blocks)[k].address != ""
  {
    var n := |blocks| - 1;
    if n == 0 {
      GenesisCreatesNothing(c, blocks);
    } else if k in CreatedMap(blocks[n].transactions) {
      CreatedByAccepted(c, blocks, n, k);
    } else {
      WellBuiltPrefix(c, blocks, n);
      UtxosAreKeyed(c, blocks[..n], k);
    }
  }
}
