/** What becomes of pooled transactions when blocks arrive from other nodes. */
module Stale {
  import opened Words
  import opened Decimals
  import opened Crypto
  import opened Transactions
  import opened Blocks
  import opened Json
  import opened Ledger
  import opened History
  import opened Mempools
  import opened Supply
  import opened Nodes
  import opened Miner
  import opened Divergences

  /** The UTXO map after a list of blocks. */
  function ApplyBlocks(utxos: map<string, Utxo>, blocks: seq<Block>): map<string, Utxo> {
    if blocks == [] then utxos
    else ApplyTxs(ApplyBlocks(utxos, blocks[..|blocks| - 1]), blocks[|blocks| - 1].transactions)
  }

  lemma ReplayAppend(blocks: seq<Block>, b: Block)
    ensures Replay(blocks + [b]) == ApplyTxs(Replay(blocks), b.transactions)
  {
    assert (blocks + [b])[..|blocks|] == blocks;
  }

  lemma {:induction false} ReplayIsApply(front: seq<Block>, blocks: seq<Block>)
    ensures Replay(front + blocks) == ApplyBlocks(Replay(front), blocks)
  {
    if blocks == [] {
      assert front + blocks == front;
    } else {
      var n := |blocks| - 1;
      ReplayIsApply(front, blocks[..n]);
      assert front + blocks == (front + blocks[..n]) + [blocks[n]];
      ReplayAppend(front + blocks[..n], blocks[n]);
    }
  }

  /** None of the transactions has the id of an output that `tx` spends. */
  predicate KeepsIds(tx: Transaction, txs: seq<Transaction>) {
    forall t, input :: t in txs && input in tx.inputs ==> t.hash != input.txId
  }

  /** Fresh ids are such ids, for a transaction that is valid. */
  lemma FreshKeepsIds(c: Crypto, st: LedgerState, tx: Transaction, txs: seq<Transaction>)
    requires LedgerInv(c, st) && FreshIds(st.utxos, txs) && CheckPooled(c, st.utxos, tx).Accept?
    ensures KeepsIds(tx, txs)
  {
    PooledMeaning(c, st.utxos, tx);
    forall t, input | t in txs && input in tx.inputs ensures t.hash != input.txId {
      var k := InputKey(input);
      assert k in InputKeys(tx.inputs) && k in st.utxos;
      UtxosAreKeyed(c, st.blocks, k);
      UtxoKeyInjective(input.txId, input.outputIndex, st.utxos[k].txId, st.utxos[k].outputIndex);
    }
  }

  lemma InputsAreNotCreated(tx: Transaction, txs: seq<Transaction>, k: string)
    requires KeepsIds(tx, txs) && k in InputKeys(tx.inputs)
    ensures k !in CreatedMap(txs)
  {
    if k in CreatedMap(txs) {
      CreatedKeyHasId(txs, k);
      var t, i: nat :| t in txs && k == UtxoKey(t.hash, i);
      var input :| input in tx.inputs && InputKey(input) == k;
      UtxoKeyInjective(t.hash, i, input.txId, input.outputIndex);
    }
  }

  predicate SpendsNoneOf(blocks: seq<Block>, tx: Transaction) {
    forall i :: 0 <= i < |blocks| ==> InputKeys(tx.inputs) !! SpentKeys(blocks[i].transactions)
  }

  predicate AllKeepIds(tx: Transaction, blocks: seq<Block>) {
    forall i :: 0 <= i < |blocks| ==> KeepsIds(tx, blocks[i].transactions)
  }

  /** One output that the transaction spends survives the blocks iff none of them spends it. */
  lemma {:induction false} InputSurvivesIff(utxos: map<string, Utxo>, blocks: seq<Block>, tx: Transaction, k: string)
    requires k in utxos && k in InputKeys(tx.inputs) && AllKeepIds(tx, blocks)
    ensures k in ApplyBlocks(utxos, blocks) <==>
            forall i :: 0 <= i < |blocks| ==> k !in SpentKeys(blocks[i].transactions)
    ensures k in ApplyBlocks(utxos, blocks) ==> ApplyBlocks(utxos, blocks)[k] == utxos[k]
  {
    if blocks != [] {
      var n := |blocks| - 1;
      InputSurvivesIff(utxos, blocks[..n], tx, k);
      InputsAreNotCreated(tx, blocks[n].transactions, k);
    }
  }

  /** A valid transaction is still valid after the blocks iff none of them spends one of its inputs. */
  lemma ValidAfterBlocksIff(c: Crypto, utxos: map<string, Utxo>, blocks: seq<Block>, tx: Transaction)
    requires CheckPooled(c, utxos, tx).Accept? && AllKeepIds(tx, blocks)
    ensures CheckPooled(c, ApplyBlocks(utxos, blocks), tx).Accept? <==> SpendsNoneOf(blocks, tx)
  {
    var after := ApplyBlocks(utxos, blocks);
    PooledMeaning(c, utxos, tx);
    PooledMeaning(c, after, tx);
    forall k | k in InputKeys(tx.inputs)
      ensures k in after <==> forall i :: 0 <= i < |blocks| ==> k !in SpentKeys(blocks[i].transactions)
      ensures k in after ==> k in utxos && after[k] == utxos[k]
    {
      InputSurvivesIff(utxos, blocks, tx, k);
    }
    if SpendsNoneOf(blocks, tx) {
      ValidityIsLocal(c, utxos, after, tx);
    }
  }

  /** The blocks that a message added to the chain. */
  function Added(st: LedgerState, next: LedgerState): seq<Block> {
    if |st.blocks| <= |next.blocks| then next.blocks[|st.blocks|..] else []
  }

  lemma AddedAreApplied(c: Crypto, st: NodeState, m: Message, socket: nat, next: NodeState)
    requires LedgerInv(c, st.ledger) && PoolInv(st.pool) && next == Handle(c, st, m, socket).0
    ensures next.ledger.utxos == ApplyBlocks(st.ledger.utxos, Added(st.ledger, next.ledger))
  {
    AnyMessageKeepsInvariants(c, st, m, socket);
    ReplayIsApply(st.ledger.blocks, Added(st.ledger, next.ledger));
    assert next.ledger.blocks == st.ledger.blocks + Added(st.ledger, next.ledger);
  }

  /** Whatever message arrives, a transaction that was valid is valid against the new chain iff none of
      the blocks added spends one of its inputs. */
  lemma ValidAfterMessageIff(c: Crypto, st: NodeState, m: Message, socket: nat, tx: Transaction, next: NodeState)
    requires LedgerInv(c, st.ledger) && PoolInv(st.pool) && next == Handle(c, st, m, socket).0
    requires CheckPooled(c, st.ledger.utxos, tx).Accept? && AllKeepIds(tx, Added(st.ledger, next.ledger))
    ensures CheckPooled(c, next.ledger.utxos, tx).Accept? <==> SpendsNoneOf(Added(st.ledger, next.ledger), tx)
  {
    AddedAreApplied(c, st, m, socket, next);
    ValidAfterBlocksIff(c, st.ledger.utxos, Added(st.ledger, next.ledger), tx);
  }

  // ----- the pool after a message -----

  /** The pool without the transactions that have the id of one in the list. */
  ghost predicate PoolWithout(before: PoolState, txs: seq<Transaction>, after: PoolState) {
    && (forall h :: h in after.txs <==> h in before.txs && forall t :: t in txs ==> t.hash != h)
    && (forall h :: h in after.txs ==> after.txs[h] == before.txs[h])
  }

  lemma RemovedFromPool(p: PoolState, txs: seq<Transaction>)
    requires PoolInv(p)
    ensures PoolInv(RemoveAll(p, txs)) && PoolWithout(p, txs, RemoveAll(p, txs))
  {
    RemoveAllMeaning(p, txs);
    forall h ensures h in Ids(txs) <==> exists t :: t in txs && t.hash == h {
    }
  }

  /** The block fits on the chain by its header, and checking its transactions does not throw. */
  predicate Clears(c: Crypto, st: LedgerState, b: Block) {
    st.blocks != [] && SealedOn(c, st.blocks[|st.blocks| - 1], b) && !CheckTxs(c, st.utxos, b.transactions).Throw?
  }

  lemma ClearsIff(c: Crypto, st: LedgerState, b: Block)
    ensures Clears(c, st, b) <==> HeaderVerdict(c, st, b).Accept? && !CheckBlock(c, st, b).Throw?
  {
    if st.blocks != [] {
      HeaderFitsIff(c, st, b);
    }
  }

  /** What every kind of message does to the pool: a valid transaction is offered to it; a block that fits
      by its header and does not throw takes exactly its own transactions out, whether or not the chain
      takes it; nothing else changes it, sync responses included. */
  lemma PoolAfterMessage(c: Crypto, st: NodeState, m: Message, socket: nat, next: NodeState)
    requires PoolInv(st.pool) && next == Handle(c, st, m, socket).0
    ensures m.BlockMsg? && BlockFromJson(m.data).Done? && Clears(c, st.ledger, BlockFromJson(m.data).value) ==>
              PoolInv(next.pool) && PoolWithout(st.pool, BlockFromJson(m.data).value.transactions, next.pool)
    ensures m.TxMsg? && TxFromJson(m.data).Done? &&
            CheckPooled(c, st.ledger.utxos, TxFromJson(m.data).value).Accept? ==>
              next.pool == AddTx(st.pool, TxFromJson(m.data).value)
    ensures next.pool == st.pool
            || (m.BlockMsg? && BlockFromJson(m.data).Done? && Clears(c, st.ledger, BlockFromJson(m.data).value))
            || (m.TxMsg? && TxFromJson(m.data).Done? &&
                CheckPooled(c, st.ledger.utxos, TxFromJson(m.data).value).Accept?)
  {
    if m.BlockMsg? && BlockFromJson(m.data).Done? {
      var b := BlockFromJson(m.data).value;
      ClearsIff(c, st.ledger, b);
      RemovedFromPool(st.pool, b.transactions);
    }
  }

  /** The same for a block that a node sends: its transactions leave the pool iff it clears or none was there. */
  lemma PoolAfterBlock(c: Crypto, st: NodeState, b: Block, socket: nat, next: NodeState)
    requires PoolInv(st.pool) && next == Handle(c, st, BlockMsg(BlockToJson(b)), socket).0
    ensures next.pool.txs == if Clears(c, st.ledger, b) then st.pool.txs - Ids(b.transactions) else st.pool.txs
  {
    BlockRoundTrip(b);
    ClearsIff(c, st.ledger, b);
    RemoveAllMeaning(st.pool, b.transactions);
  }

  /** A pooled transaction is dropped although the chain did not take the block, exactly when the block has
      its id, fits by its header, and has a transaction that is turned away before anything throws. */
  lemma DroppedUnconfirmedIff(c: Crypto, st: NodeState, b: Block, socket: nat, h: string, next: NodeState)
    requires PoolInv(st.pool) && h in st.pool.txs
    requires next == Handle(c, st, BlockMsg(BlockToJson(b)), socket).0
    ensures h !in next.pool.txs && next.ledger.blocks == st.ledger.blocks <==>
            && h in Ids(b.transactions) && st.ledger.blocks != [] && SealedOn(c, Tip(st.ledger), b)
            && CheckTxs(c, st.ledger.utxos, b.transactions).Reject?
  {
    PoolAfterBlock(c, st, b, socket, next);
    ClearsIff(c, st.ledger, b);
    BlockRoundTrip(b);
    if Clears(c, st.ledger, b) {
      AddedUnlessTurnedAway(c, st.ledger, b);
    }
  }

  /** Every pooled transaction can be dropped that way. */
  lemma UnconfirmedIsDropped(c: Crypto, st: NodeState, tx: Transaction, socket: nat, next: NodeState)
    requires PoolInv(st.pool) && st.ledger.blocks != [] && tx.hash in st.pool.txs
    requires next == Handle(c, st, BlockMsg(BlockToJson(EasyBlock(c, Tip(st.ledger), [HOLLOW, tx]))), socket).0
    ensures tx.hash !in next.pool.txs && next.ledger.blocks == st.ledger.blocks
  {
    var txs := [HOLLOW, tx];
    EasyBlockIsSealed(c, Tip(st.ledger), txs);
    assert TxVerdicts(c, st.ledger.utxos, txs)[0] == Reject;
    assert txs[1] in txs;
    DroppedUnconfirmedIff(c, st, EasyBlock(c, Tip(st.ledger), txs), socket, tx.hash, next);
  }

  lemma AcceptedClears(c: Crypto, st: NodeState, b: Block, socket: nat, next: NodeState)
    requires st.ledger.blocks != [] && CheckBlock(c, st.ledger, b).Accept?
    requires next == Handle(c, st, BlockMsg(BlockToJson(b)), socket).0
    ensures Clears(c, st.ledger, b) && next.ledger == Append(st.ledger, b)
    ensures Added(st.ledger, next.ledger) == [b]
  {
    BlockRoundTrip(b);
    ClearsIff(c, st.ledger, b);
  }

  lemma NoSharedOutpointIff(tx: Transaction, txs: seq<Transaction>)
    ensures InputKeys(tx.inputs) !! SpentKeys(txs) <==> forall t :: t in txs ==> !SharesOutpoint(tx, t)
  {
    forall t | t in txs ensures InputKeys(tx.inputs) !! InputKeys(t.inputs) <==> !SharesOutpoint(tx, t) {
      SharedKeyIsSharedOutpoint(tx, t);
    }
    if k :| k in InputKeys(tx.inputs) && k in SpentKeys(txs) {
      var i := SpentKeyHasTx(txs, k);
      assert txs[i] in txs;
    }
    if t :| t in txs && SharesOutpoint(tx, t) {
      var k :| k in InputKeys(tx.inputs) && k in InputKeys(t.inputs);
      assert k in SpentKeys(txs);
    }
  }

  /** An accepted block message leaves no pooled transaction of the block, keeps the index faithful, and of
      what remains exactly that is still valid which spends nothing that the block spends. */
  lemma PoolAfterAcceptedBlock(c: Crypto, st: NodeState, b: Block, socket: nat, next: NodeState)
    requires LedgerInv(c, st.ledger) && PoolInv(st.pool) && PoolValid(c, st.ledger.utxos, st.pool.txs)
    requires CheckBlock(c, st.ledger, b).Accept? && FreshIds(st.ledger.utxos, b.transactions)
    requires next == Handle(c, st, BlockMsg(BlockToJson(b)), socket).0
    ensures LedgerInv(c, next.ledger) && next.ledger.blocks == st.ledger.blocks + [b] && PoolInv(next.pool)
    ensures forall t :: t in b.transactions ==> t.hash !in next.pool.txs
    ensures forall h :: h in next.pool.txs ==>
              (CheckPooled(c, next.ledger.utxos, next.pool.txs[h]).Accept? <==>
               forall t :: t in b.transactions ==> !SharesOutpoint(next.pool.txs[h], t))
  {
    AcceptedClears(c, st, b, socket, next);
    BlockRoundTrip(b);
    PoolAfterMessage(c, st, BlockMsg(BlockToJson(b)), socket, next);
    AnyMessageKeepsInvariants(c, st, BlockMsg(BlockToJson(b)), socket);
    forall h | h in next.pool.txs
      ensures CheckPooled(c, next.ledger.utxos, next.pool.txs[h]).Accept? <==>
              forall t :: t in b.transactions ==> !SharesOutpoint(next.pool.txs[h], t)
    {
      RemainingValidIff(c, st, b, socket, st.pool.txs[h], next);
    }
  }

  lemma RemainingValidIff(c: Crypto, st: NodeState, b: Block, socket: nat, tx: Transaction, next: NodeState)
    requires LedgerInv(c, st.ledger) && PoolInv(st.pool) && CheckPooled(c, st.ledger.utxos, tx).Accept?
    requires CheckBlock(c, st.ledger, b).Accept? && FreshIds(st.ledger.utxos, b.transactions)
    requires next == Handle(c, st, BlockMsg(BlockToJson(b)), socket).0
    ensures CheckPooled(c, next.ledger.utxos, tx).Accept? <==>
            forall t :: t in b.transactions ==> !SharesOutpoint(tx, t)
  {
    AcceptedClears(c, st, b, socket, next);
    FreshKeepsIds(c, st.ledger, tx, b.transactions);
    ValidAfterMessageIff(c, st, BlockMsg(BlockToJson(b)), socket, tx, next);
    NoSharedOutpointIff(tx, b.transactions);
    assert SpendsNoneOf([b], tx) <==> InputKeys(tx.inputs) !! SpentKeys([b][0].transactions);
  }

  // ----- a synced transaction stays in the pool and stalls mining -----

  /** A sync response with one block that the chain takes. */
  lemma OneBlockSync(c: Crypto, st: NodeState, b: Block, next: NodeState)
    requires CheckBlock(c, st.ledger, b).Accept? && st.ledger.blocks != []
    requires next == Handle(c, st, SyncResponse([BlockToJson(b)]), 0).0
    ensures next == st.(ledger := Append(st.ledger, b)) && Added(st.ledger, next.ledger) == [b]
  {
    BlockRoundTrip(b);
    assert [BlockToJson(b)][1..] == [];
    assert SyncAll(c, st.ledger, [BlockToJson(b)]) == SyncAll(c, AddBlock(c, st.ledger, b), []);
  }

  lemma OwnBlockSpends(c: Crypto, utxos: map<string, Utxo>, b: Block, tx: Transaction)
    requires CheckPooled(c, utxos, tx).Accept? && tx in b.transactions
    ensures !SpendsNoneOf([b], tx)
  {
    PooledMeaning(c, utxos, tx);
    var input := tx.inputs[0];
    assert input in tx.inputs && InputKey(input) in InputKeys(tx.inputs);
    assert InputKey(input) in SpentKeys([b][0].transactions);
  }

  /** After a block that contains it, a transaction is no longer spendable. */
  lemma SpentIsNotSpendable(c: Crypto, utxos: map<string, Utxo>, b: Block, tx: Transaction)
    requires CheckPooled(c, utxos, tx).Accept? && tx in b.transactions && KeepsIds(tx, b.transactions)
    ensures !GoodTx(c, ApplyTxs(utxos, b.transactions), tx, false)
  {
    OwnBlockSpends(c, utxos, b, tx);
    ValidAfterBlocksIff(c, utxos, [b], tx);
    assert [b][..0] == [] && ApplyBlocks(utxos, [b]) == ApplyTxs(utxos, b.transactions);
    PooledMeaning(c, utxos, tx);
    PooledMeaning(c, ApplyTxs(utxos, b.transactions), tx);
  }

  /** A pooled transaction that arrives in a synced block stays pooled, and is no longer spendable. */
  lemma SyncedStaysPooled(c: Crypto, st: NodeState, b: Block, tx: Transaction, next: NodeState)
    requires LedgerInv(c, st.ledger) && PoolInv(st.pool) && CheckBlock(c, st.ledger, b).Accept?
    requires tx.hash in st.pool.txs && st.pool.txs[tx.hash] == tx && CheckPooled(c, st.ledger.utxos, tx).Accept?
    requires tx in b.transactions && KeepsIds(tx, b.transactions)
    requires next == Handle(c, st, SyncResponse([BlockToJson(b)]), 0).0
    ensures next.ledger == Append(st.ledger, b) && next.pool == st.pool
    ensures !GoodTx(c, next.ledger.utxos, tx, false)
  {
    OneBlockSync(c, st, b, next);
    SpentIsNotSpendable(c, st.ledger.utxos, b, tx);
  }

  /** Up to 100 pooled transactions are all selected. */
  lemma SmallPoolIsSelected(p: PoolState, selected: seq<Transaction>, tx: Transaction)
    requires Selection(p, MAX_BLOCK_TXS, selected) && |p.txs| <= MAX_BLOCK_TXS
    requires tx.hash in p.txs && p.txs[tx.hash] == tx
    ensures tx in selected
  {
    var all: seq<Transaction> :| IsFront(p.txs, all, MAX_BLOCK_TXS, selected);
    ListsSize(p.txs, all);
    var i :| 0 <= i < |all| && all[i].hash == tx.hash;
    assert all[i] == tx;
  }

  /** A pass over a selection with a transaction that is not spendable adds nothing. */
  lemma StaleSelectionStalls(c: Crypto, cfg: Config, s: MinerState, rd: Readings, selected: seq<Transaction>,
                             mined: Option<Block>, s': MinerState, tx: Transaction)
    requires s.ledger.blocks != [] && Next(c, cfg, s, Mine(rd, selected, mined), s')
    requires tx in selected && !GoodTx(c, s.ledger.utxos, tx, false)
    ensures s'.ledger == s.ledger && s'.pool == s.pool
  {
    if mined.Some? {
      MinedBlockAcceptedIff(c, cfg, s, rd, selected, mined.value);
      var k :| 0 <= k < |selected| && selected[k] == tx;
    }
  }

  /** The failing input: after a synced block with a pooled transaction, no pass of the loop adds a block
      while the pool is small enough to be selected as a whole, whatever the miner's address and fees. */
  lemma SyncedTransactionStallsMining(c: Crypto, cfg: Config, st: NodeState, b: Block, tx: Transaction, next: NodeState,
                                      s: MinerState, rd: Readings, selected: seq<Transaction>, mined: Option<Block>,
                                      s': MinerState)
    requires LedgerInv(c, st.ledger) && PoolInv(st.pool) && CheckBlock(c, st.ledger, b).Accept?
    requires tx.hash in st.pool.txs && st.pool.txs[tx.hash] == tx && CheckPooled(c, st.ledger.utxos, tx).Accept?
    requires tx in b.transactions && KeepsIds(tx, b.transactions) && |st.pool.txs| <= MAX_BLOCK_TXS
    requires next == Handle(c, st, SyncResponse([BlockToJson(b)]), 0).0
    requires s.ledger == next.ledger && s.pool == next.pool && s.ledger.blocks != []
    requires Next(c, cfg, s, Mine(rd, selected, mined), s')
    ensures s'.ledger == s.ledger && s'.pool == s.pool
  {
    SyncedStaysPooled(c, st, b, tx, next);
    SmallPoolIsSelected(s.pool, selected, tx);
    StaleSelectionStalls(c, cfg, s, rd, selected, mined, s', tx);
  }

  /** Such a block exists for every valid pooled transaction. */
  lemma SuchABlockExists(c: Crypto, st: LedgerState, tx: Transaction)
    requires st.blocks != [] && CheckPooled(c, st.utxos, tx).Accept?
    ensures CheckBlock(c, st, EasyBlock(c, Tip(st), [tx])).Accept?
    ensures tx in EasyBlock(c, Tip(st), [tx]).transactions
  {
    ValidOneByOneIsTaken(c, st, [tx]);
  }
}
