/** The mining loop of `mine_mode` and `run_mode` as steps over chain, pool and clock. */
module Miner {
  import opened Words
  import opened Decimals
  import opened Crypto
  import opened Transactions
  import opened Blocks
  import opened Ledger
  import opened History
  import opened Mempools
  import opened PendingPool
  import opened Consensus
  import opened Retarget
  import opened Sums
  import opened Supply

  /** `minted` sums the rewards of the blocks mined so far; the code keeps no such counter. */
  datatype MinerState = MinerState(ledger: LedgerState, pool: PoolState, difficulty: uint32, clock: uint64, minted: nat)

  /** The clock readings and measurements of one pass through the loop. */
  datatype Readings = Readings(check: uint64, stamp: uint64, reward: uint64, wattSeconds: uint64, outOfRange: uint32)

  datatype Config = Config(minerAddress: string, energySource: string)

  datatype Step =
    | Submit(tx: Transaction)
    | Wait(check: uint64)
    | Mine(readings: Readings, selected: seq<Transaction>, mined: Option<Block>)

  const MAX_BLOCK_TXS: nat := 100
  const LOOKBACK: nat := 1000

  function Latest(s: MinerState): Block
    requires s.ledger.blocks != []
  {
    s.ledger.blocks[|s.ledger.blocks| - 1]
  }

  /** Timestamps of up to 1000 blocks below the tip; the tip itself is not among them. */
  function Window(blocks: seq<Block>): seq<uint64>
    requires blocks != []
  {
    var height := |blocks| - 1;
    var lookback := if height < LOOKBACK then height else LOOKBACK;
    seq<uint64>(lookback, i requires 0 <= i < lookback => blocks[height - lookback + i].header.timestamp)
  }

  function NextDifficulty(s: MinerState, outOfRange: uint32): uint32
    requires s.ledger.blocks != []
  {
    var window := Window(s.ledger.blocks);
    if |window| >= 2 then CalculateDifficulty(DEFAULT_PARAMS, window, Latest(s).header.difficulty, outOfRange)
    else s.difficulty
  }

  ghost predicate Due(s: MinerState, now: uint64)
    requires s.ledger.blocks != []
  {
    ShouldProduceBlock(DEFAULT_PARAMS, |s.pool.txs|, Wrap64(SumOf(s.pool.txs, Pending)), now,
                       Latest(s).header.timestamp)
  }

  function GenesisTime(s: MinerState): uint64
    requires s.ledger.blocks != []
  {
    s.ledger.blocks[0].header.timestamp
  }

  function DraftOf(c: Crypto, cfg: Config, s: MinerState, rd: Readings, selected: seq<Transaction>): Block
    requires s.ledger.blocks != []
  {
    Draft(c, Latest(s), selected, cfg.minerAddress, cfg.energySource, NextDifficulty(s, rd.outOfRange), rd.stamp,
          BlockReward(rd.reward, GenesisTime(s)))
  }

  /** Handing the block to the chain and, if it was taken, dropping its transactions from the pool. */
  function AfterMining(c: Crypto, s: MinerState, rd: Readings, mined: Option<Block>): MinerState
    requires s.ledger.blocks != []
  {
    var s' := s.(difficulty := NextDifficulty(s, rd.outOfRange), clock := rd.reward);
    if mined.Some? && CheckBlock(c, s.ledger, mined.value).Accept? then
      s'.(ledger := Append(s.ledger, mined.value), pool := RemoveAll(s.pool, mined.value.transactions),
          minted := s.minted + BlockReward(rd.reward, GenesisTime(s)))
    else s'
  }

  ghost predicate Next(c: Crypto, cfg: Config, s: MinerState, step: Step, s': MinerState)
    requires s.ledger.blocks != []
  {
    match step
    case Submit(tx) =>
      s' == if CheckPooled(c, s.ledger.utxos, tx).Accept? then s.(pool := AddTx(s.pool, tx)) else s
    case Wait(now) => s.clock <= now && !Due(s, now) && s' == s.(clock := now)
    case Mine(rd, selected, mined) =>
      && s.clock <= rd.check <= rd.stamp <= rd.reward
      && Due(s, rd.check)
      && Selection(s.pool, MAX_BLOCK_TXS, selected)
      && MinedFrom(c, DraftOf(c, cfg, s, rd, selected), rd.wattSeconds, mined)
      && s' == AfterMining(c, s, rd, mined)
  }

  // ----- the invariant -----

  predicate PoolValid(c: Crypto, utxos: map<string, Utxo>, txs: map<string, Transaction>) {
    forall h :: h in txs ==> CheckPooled(c, utxos, txs[h]).Accept?
  }

  predicate NoNullIds(utxos: map<string, Utxo>) {
    forall k :: k in utxos ==> utxos[k].txId != NullHash()
  }

  function Timestamps(blocks: seq<Block>): seq<uint64> {
    seq<uint64>(|blocks|, i requires 0 <= i < |blocks| => blocks[i].header.timestamp)
  }

  /** Headers are at least 3 s apart and none is from the future. */
  predicate Timely(blocks: seq<Block>, clock: uint64)
    requires blocks != []
  {
    SpacedBy(Timestamps(blocks), 3) && blocks[|blocks| - 1].header.timestamp <= clock
  }

  ghost predicate MinerInv(c: Crypto, s: MinerState) {
    && LedgerInv(c, s.ledger) && PoolInv(s.pool) && PoolValid(c, s.ledger.utxos, s.pool.txs)
    && NoNullIds(s.ledger.utxos)
    && Timely(s.ledger.blocks, s.clock)
  }

  /** New transaction ids are new: not the id of an unspent output, not the all-zero id, and not
      repeated within the block. */
  predicate FreshIds(utxos: map<string, Utxo>, txs: seq<Transaction>) {
    && DistinctIds(txs)
    && forall tx :: tx in txs ==> tx.hash != NullHash() && forall k :: k in utxos ==> utxos[k].txId != tx.hash
  }

  lemma FreshKeysAreNew(c: Crypto, st: LedgerState, txs: seq<Transaction>)
    requires LedgerInv(c, st) && FreshIds(st.utxos, txs)
    ensures forall k :: k in CreatedMap(txs) ==> k !in st.utxos
  {
    forall k | k in CreatedMap(txs) ensures k !in st.utxos {
      CreatedKeyHasId(txs, k);
      var tx, i: nat :| tx in txs && k == UtxoKey(tx.hash, i);
      if k in st.utxos {
        UtxosAreKeyed(c, st.blocks, k);
        UtxoKeyInjective(tx.hash, i, st.utxos[k].txId, st.utxos[k].outputIndex);
      }
    }
  }

  lemma NullOutpointUnused(c: Crypto, st: LedgerState)
    requires LedgerInv(c, st) && NoNullIds(st.utxos)
    ensures UtxoKey(NullHash(), 0) !in st.utxos
  {
    var k := UtxoKey(NullHash(), 0);
    if k in st.utxos {
      UtxosAreKeyed(c, st.blocks, k);
      UtxoKeyInjective(NullHash(), 0, st.utxos[k].txId, st.utxos[k].outputIndex);
    }
  }

  lemma CoinbaseSpendsNothing(c: Crypto, st: LedgerState, timestamp: uint64, minerAddress: string, amount: uint64)
    requires LedgerInv(c, st) && NoNullIds(st.utxos)
    ensures InputKeys(Coinbase(c, timestamp, minerAddress, amount).inputs) !! st.utxos.Keys
    ensures IsCoinbase(Coinbase(c, timestamp, minerAddress, amount))
  {
    NullOutpointUnused(c, st);
    var coinbase := Coinbase(c, timestamp, minerAddress, amount);
    forall k | k in InputKeys(coinbase.inputs) ensures k == UtxoKey(NullHash(), 0) {
      var input :| input in coinbase.inputs && InputKey(input) == k;
      assert input == coinbase.inputs[0];
    }
  }

  // ----- the mined block is accepted -----

  predicate AllSpendable(c: Crypto, utxos: map<string, Utxo>, selected: seq<Transaction>) {
    forall k :: 0 <= k < |selected| ==> GoodTx(c, utxos, selected[k], false)
  }

  lemma SealedBlockAccepted(c: Crypto, s: MinerState, selected: seq<Transaction>, b: Block,
                            timestamp: uint64, minerAddress: string, amount: uint64)
    requires s.ledger.blocks != [] && SealedOn(c, Latest(s), b)
    requires b.transactions == [Coinbase(c, timestamp, minerAddress, amount)] + selected
    ensures CheckBlock(c, s.ledger, b).Accept? <==>
            minerAddress != "" && amount != 0 && AllSpendable(c, s.ledger.utxos, selected)
  {
    CheckBlockMeaning(c, s.ledger, b);
    CoinbaseStructure(c, timestamp, minerAddress, amount);
    AllGoodCons(c, s.ledger.utxos, Coinbase(c, timestamp, minerAddress, amount), selected);
  }

  /** The chain takes a mined block exactly when the miner has an address, the reward plus the fees is not
      zero as a `uint64_t`, and every selected transaction is still spendable on the chain. */
  lemma MinedBlockAcceptedIff(c: Crypto, cfg: Config, s: MinerState, rd: Readings, selected: seq<Transaction>, b: Block)
    requires s.ledger.blocks != []
    requires MinedFrom(c, DraftOf(c, cfg, s, rd, selected), rd.wattSeconds, Some(b))
    ensures var amount := CoinbaseAmount(selected, BlockReward(rd.reward, GenesisTime(s)));
            && (CheckBlock(c, s.ledger, b).Accept? <==>
                cfg.minerAddress != "" && amount != 0 && AllSpendable(c, s.ledger.utxos, selected))
            && b.transactions == [Coinbase(c, rd.stamp, cfg.minerAddress, amount)] + selected
            && b.header.timestamp == rd.stamp
  {
    var reward := BlockReward(rd.reward, GenesisTime(s));
    MinedBlockIsSealed(c, Latest(s), selected, cfg.minerAddress, cfg.energySource, NextDifficulty(s, rd.outOfRange),
                       rd.stamp, reward, rd.wattSeconds, b);
    SealedBlockAccepted(c, s, selected, b, rd.stamp, cfg.minerAddress, CoinbaseAmount(selected, reward));
  }

  /** From a pool that is valid against the chain, the last condition always holds. */
  lemma MinedBlockAccepted(c: Crypto, cfg: Config, s: MinerState, rd: Readings, selected: seq<Transaction>, b: Block)
    requires s.ledger.blocks != [] && PoolValid(c, s.ledger.utxos, s.pool.txs) &&
             Selection(s.pool, MAX_BLOCK_TXS, selected)
    requires MinedFrom(c, DraftOf(c, cfg, s, rd, selected), rd.wattSeconds, Some(b))
    ensures var amount := CoinbaseAmount(selected, BlockReward(rd.reward, GenesisTime(s)));
            && (CheckBlock(c, s.ledger, b).Accept? <==> cfg.minerAddress != "" && amount != 0)
            && b.transactions == [Coinbase(c, rd.stamp, cfg.minerAddress, amount)] + selected
            && b.header.timestamp == rd.stamp
  {
    MinedBlockAcceptedIff(c, cfg, s, rd, selected, b);
    forall k | 0 <= k < |selected| ensures GoodTx(c, s.ledger.utxos, selected[k], false) {
      SelectedIsValid(c, s, selected, k);
    }
  }

  /** A failing case: in the first year one selected transaction that declares a fee of
      2^64 - 50,000,000 makes the reward amount 0, and the chain turns the mined block away. */
  lemma WrappedFeesAreRejected(c: Crypto, cfg: Config, s: MinerState, rd: Readings, tx: Transaction, b: Block)
    requires s.ledger.blocks != []
    requires tx.fee == 18_446_744_073_659_551_616 && BlockReward(rd.reward, GenesisTime(s)) == 50_000_000
    requires MinedFrom(c, DraftOf(c, cfg, s, rd, [tx]), rd.wattSeconds, Some(b))
    ensures !CheckBlock(c, s.ledger, b).Accept?
  {
    MinedBlockAcceptedIff(c, cfg, s, rd, [tx], b);
    FeesWrapToZero(tx);
  }

  lemma FeesWrapToZero(tx: Transaction)
    requires tx.fee == 18_446_744_073_659_551_616
    ensures CoinbaseAmount([tx], 50_000_000) == 0
  {
    assert Fees([tx]) == tx.fee + Fees([tx][1..]);
  }

  lemma CoinbaseStructure(c: Crypto, timestamp: uint64, minerAddress: string, amount: uint64)
    ensures var tx := Coinbase(c, timestamp, minerAddress, amount);
            && (ValidStructure(tx) <==> minerAddress != "" && amount != 0)
            && tx.hash == TxHash(c, tx) && IsCoinbase(tx)
  {
    var tx := Coinbase(c, timestamp, minerAddress, amount);
    assert tx.outputs[0] == TxOutput(minerAddress, amount);
    assert NullHash()[0] == '0';
    assert SerializeTx(tx) == SerializeTx(tx.(hash := ""));
  }

  lemma SelectedIsValid(c: Crypto, s: MinerState, selected: seq<Transaction>, k: nat)
    requires PoolValid(c, s.ledger.utxos, s.pool.txs) && Selection(s.pool, MAX_BLOCK_TXS, selected) && k < |selected|
    ensures selected[k].hash in s.pool.txs && s.pool.txs[selected[k].hash] == selected[k]
    ensures ValidStructure(selected[k]) && selected[k].hash == TxHash(c, selected[k])
    ensures AllOwned(c, s.ledger.utxos, selected[k])
  {
    SelectionShape(s.pool, MAX_BLOCK_TXS, selected);
    assert selected[k] in selected;
    PooledMeaning(c, s.ledger.utxos, selected[k]);
  }

  // ----- what is pooled stays valid -----

  /** The entries that a transaction refers to are the same in both maps. */
  predicate SameInputs(a: map<string, Utxo>, b: map<string, Utxo>, tx: Transaction) {
    forall k :: k in InputKeys(tx.inputs) ==> k in a && k in b && a[k] == b[k]
  }

  lemma ValidityIsLocal(c: Crypto, a: map<string, Utxo>, b: map<string, Utxo>, tx: Transaction)
    requires SameInputs(a, b, tx) && CheckPooled(c, a, tx).Accept?
    ensures CheckPooled(c, b, tx).Accept?
  {
    PooledMeaning(c, a, tx);
    PooledMeaning(c, b, tx);
    forall input | input in tx.inputs ensures Owned(c, b, SerializeTx(tx), input) {
      assert Owned(c, a, SerializeTx(tx), input);
      assert InputKey(input) in InputKeys(tx.inputs);
    }
  }

  lemma BalanceIsLocal(a: map<string, Utxo>, b: map<string, Utxo>, tx: Transaction)
    requires SameInputs(a, b, tx) && Balanced(a, tx)
    ensures Balanced(b, tx)
  {
    assert Restrict(a, InputKeys(tx.inputs)) == Restrict(b, InputKeys(tx.inputs));
  }

  lemma UnselectedIsUntouched(p: PoolState, selected: seq<Transaction>, h: string)
    requires PoolInv(p) && PooledTxs(p, selected) && h in p.txs && h !in Ids(selected)
    ensures InputKeys(p.txs[h].inputs) !! SpentKeys(selected)
  {
    forall k | k in SpentKeys(selected) ensures k !in InputKeys(p.txs[h].inputs) {
      var i := SpentKeyHasTx(selected, k);
      assert selected[i] in selected;
    }
  }

  /** Applying the mined block leaves alone every output that an unselected pooled transaction spends. */
  lemma BlockLeavesUnselected(c: Crypto, s: MinerState, selected: seq<Transaction>, coinbase: Transaction, h: string)
    requires MinerInv(c, s) && PooledTxs(s.pool, selected) && h in s.pool.txs && h !in Ids(selected)
    requires InputKeys(coinbase.inputs) !! s.ledger.utxos.Keys && FreshIds(s.ledger.utxos, [coinbase] + selected)
    ensures SameInputs(s.ledger.utxos, ApplyTxs(s.ledger.utxos, [coinbase] + selected), s.pool.txs[h])
  {
    var tx := s.pool.txs[h];
    PooledMeaning(c, s.ledger.utxos, tx);
    UnselectedIsUntouched(s.pool, selected, h);
    SpentKeysCons(coinbase, selected);
    FreshKeysAreNew(c, s.ledger, [coinbase] + selected);
  }

  lemma NullIdsStayOut(utxos: map<string, Utxo>, txs: seq<Transaction>)
    requires NoNullIds(utxos) && FreshIds(utxos, txs)
    ensures NoNullIds(ApplyTxs(utxos, txs))
  {
    forall k | k in CreatedMap(txs) ensures CreatedMap(txs)[k].txId != NullHash() {
      CreatedEntry(txs, k);
    }
  }

  lemma SpacedAppend(blocks: seq<Block>, b: Block)
    requires blocks != [] && SpacedBy(Timestamps(blocks), 3)
    requires b.header.timestamp >= blocks[|blocks| - 1].header.timestamp + 3
    ensures SpacedBy(Timestamps(blocks + [b]), 3)
  {
    var ts, gap: nat := Timestamps(blocks + [b]), 3;
    forall i | 0 <= i < |ts| - 1 ensures ts[i + 1] >= ts[i] + gap {
      if i < |blocks| - 1 {
        assert ts[i] == Timestamps(blocks)[i] && ts[i + 1] == Timestamps(blocks)[i + 1];
      }
    }
  }

  /** A block is due only 3 s after the last one, when the clock does not go back. */
  lemma DueMeansSpaced(s: MinerState, now: uint64)
    requires s.ledger.blocks != [] && Latest(s).header.timestamp <= now && Due(s, now)
    ensures now >= Latest(s).header.timestamp + 3
  {
    ProductionWindow(|s.pool.txs|, Wrap64(SumOf(s.pool.txs, Pending)), now, Latest(s).header.timestamp);
  }

  /** The pool after an accepted block. */
  lemma AcceptedKeepsPool(c: Crypto, s: MinerState, selected: seq<Transaction>, coinbase: Transaction)
    requires MinerInv(c, s) && PooledTxs(s.pool, selected)
    requires InputKeys(coinbase.inputs) !! s.ledger.utxos.Keys && FreshIds(s.ledger.utxos, [coinbase] + selected)
    ensures var pool := RemoveAll(s.pool, [coinbase] + selected);
            PoolInv(pool) && PoolValid(c, ApplyTxs(s.ledger.utxos, [coinbase] + selected), pool.txs)
  {
    RemoveAllMeaning(s.pool, [coinbase] + selected);
    forall h | h in s.pool.txs && h !in Ids([coinbase] + selected)
      ensures CheckPooled(c, ApplyTxs(s.ledger.utxos, [coinbase] + selected), s.pool.txs[h]).Accept?
    {
      UnselectedSurvives(c, s, selected, coinbase, h);
    }
  }

  /** The state after an accepted block. */
  lemma InvAfterAppend(c: Crypto, s: MinerState, selected: seq<Transaction>, coinbase: Transaction, b: Block,
                       s': MinerState)
    requires MinerInv(c, s) && PooledTxs(s.pool, selected)
    requires b.transactions == [coinbase] + selected && InputKeys(coinbase.inputs) !! s.ledger.utxos.Keys
    requires CheckBlock(c, s.ledger, b).Accept? && FreshIds(s.ledger.utxos, b.transactions)
    requires Latest(s).header.timestamp + 3 <= b.header.timestamp <= s'.clock
    requires s'.ledger == AddBlock(c, s.ledger, b) && s'.pool == RemoveAll(s.pool, b.transactions)
    ensures MinerInv(c, s')
  {
    assert LedgerInv(c, s'.ledger) by {
      AddKeepsInv(c, s.ledger, b);
    }
    assert PoolInv(s'.pool) && PoolValid(c, s'.ledger.utxos, s'.pool.txs) by {
      AcceptedKeepsPool(c, s, selected, coinbase);
    }
    assert NoNullIds(s'.ledger.utxos) by {
      NullIdsStayOut(s.ledger.utxos, b.transactions);
    }
    assert Timely(s'.ledger.blocks, s'.clock) by {
      SpacedAppend(s.ledger.blocks, b);
    }
  }

  lemma UnselectedSurvives(c: Crypto, s: MinerState, selected: seq<Transaction>, coinbase: Transaction, h: string)
    requires MinerInv(c, s) && PooledTxs(s.pool, selected)
    requires h in s.pool.txs && h !in Ids([coinbase] + selected)
    requires InputKeys(coinbase.inputs) !! s.ledger.utxos.Keys && FreshIds(s.ledger.utxos, [coinbase] + selected)
    ensures CheckPooled(c, ApplyTxs(s.ledger.utxos, [coinbase] + selected), s.pool.txs[h]).Accept?
  {
    assert Ids(selected) <= Ids([coinbase] + selected) by {
      assert forall tx :: tx in selected ==> tx in [coinbase] + selected;
    }
    BlockLeavesUnselected(c, s, selected, coinbase, h);
    ValidityIsLocal(c, s.ledger.utxos, ApplyTxs(s.ledger.utxos, [coinbase] + selected), s.pool.txs[h]);
  }

  /** A mined block has the reward and up to 100 pooled transactions: all of them if there are no more,
      and otherwise exactly 100. */
  lemma MinedBlockSize(c: Crypto, cfg: Config, s: MinerState, rd: Readings, selected: seq<Transaction>, b: Block,
                       s': MinerState)
    requires s.ledger.blocks != [] && Next(c, cfg, s, Mine(rd, selected, Some(b)), s')
    ensures |b.transactions| == 1 + if |s.pool.txs| > 100 then 100 else |s.pool.txs|
    ensures forall i :: 1 <= i < |b.transactions| ==>
              b.transactions[i].hash in s.pool.txs && s.pool.txs[b.transactions[i].hash] == b.transactions[i]
  {
    MinedBlockAcceptedIff(c, cfg, s, rd, selected, b);
    SelectionShape(s.pool, MAX_BLOCK_TXS, selected);
    BehindReward(s.pool, b.transactions, selected);
  }

  lemma BehindReward(p: PoolState, txs: seq<Transaction>, selected: seq<Transaction>)
    requires txs != [] && txs == [txs[0]] + selected && PooledTxs(p, selected)
    ensures |txs| == 1 + |selected|
    ensures forall i :: 1 <= i < |txs| ==> txs[i].hash in p.txs && p.txs[txs[i].hash] == txs[i]
  {
    forall i | 1 <= i < |txs| ensures txs[i] in selected {
      assert txs[i] == selected[i - 1];
    }
  }

  /** The loop waits at most a minute after the last block, and at most 3 s once 100 transactions or 100 BTVD
      are pending, counting outputs and fees modulo 2^64. */
  lemma WaitsNoLonger(c: Crypto, cfg: Config, s: MinerState, now: uint64, s': MinerState)
    requires s.ledger.blocks != [] && Latest(s).header.timestamp <= now && Next(c, cfg, s, Wait(now), s')
    ensures now < Latest(s).header.timestamp + 60
    ensures |s.pool.txs| >= 100 || SumOf(s.pool.txs, Pending) % 0x1_0000_0000_0000_0000 >= 10_000_000_000 ==>
              now < Latest(s).header.timestamp + 3
  {
    ProductionWindow(|s.pool.txs|, Wrap64(SumOf(s.pool.txs, Pending)), now, Latest(s).header.timestamp);
  }

  /** The loop remembers the difficulty that the mined block declares. */
  lemma MinesAtRemembered(c: Crypto, cfg: Config, s: MinerState, rd: Readings, selected: seq<Transaction>, b: Block,
                          s': MinerState)
    requires s.ledger.blocks != [] && Next(c, cfg, s, Mine(rd, selected, Some(b)), s')
    ensures b.header.difficulty == s'.difficulty && b.header.timestamp == rd.stamp && s'.clock == rd.reward
  {
    MinedBlockIsSealed(c, Latest(s), selected, cfg.minerAddress, cfg.energySource, NextDifficulty(s, rd.outOfRange),
                       rd.stamp, BlockReward(rd.reward, GenesisTime(s)), rd.wattSeconds, b);
  }

  /** The ids of the block a step adds to the chain are new. */
  predicate FreshStep(c: Crypto, s: MinerState, step: Step) {
    step.Mine? && step.mined.Some? && CheckBlock(c, s.ledger, step.mined.value).Accept? ==>
      FreshIds(s.ledger.utxos, step.mined.value.transactions)
  }

  lemma RewardedKeepsInv(c: Crypto, s: MinerState, selected: seq<Transaction>, b: Block, s': MinerState,
                         timestamp: uint64, minerAddress: string, amount: uint64)
    requires MinerInv(c, s) && PooledTxs(s.pool, selected)
    requires b.transactions == [Coinbase(c, timestamp, minerAddress, amount)] + selected
    requires CheckBlock(c, s.ledger, b).Accept? && FreshIds(s.ledger.utxos, b.transactions)
    requires Latest(s).header.timestamp + 3 <= b.header.timestamp <= s'.clock
    requires s'.ledger == AddBlock(c, s.ledger, b) && s'.pool == RemoveAll(s.pool, b.transactions)
    ensures MinerInv(c, s')
  {
    CoinbaseSpendsNothing(c, s.ledger, timestamp, minerAddress, amount);
    InvAfterAppend(c, s, selected, Coinbase(c, timestamp, minerAddress, amount), b, s');
  }

  /** What a mining step produces, apart from being accepted. */
  lemma MineFacts(c: Crypto, cfg: Config, s: MinerState, rd: Readings, selected: seq<Transaction>, b: Block)
    requires s.ledger.blocks != [] && PoolValid(c, s.ledger.utxos, s.pool.txs)
    requires Latest(s).header.timestamp <= rd.check <= rd.stamp && Due(s, rd.check)
    requires Selection(s.pool, MAX_BLOCK_TXS, selected)
    requires MinedFrom(c, DraftOf(c, cfg, s, rd, selected), rd.wattSeconds, Some(b))
    ensures PooledTxs(s.pool, selected) && Latest(s).header.timestamp + 3 <= b.header.timestamp == rd.stamp
    ensures b.transactions == [Coinbase(c, rd.stamp, cfg.minerAddress,
                                        CoinbaseAmount(selected, BlockReward(rd.reward, GenesisTime(s))))] + selected
  {
    MinedBlockAccepted(c, cfg, s, rd, selected, b);
    SelectionShape(s.pool, MAX_BLOCK_TXS, selected);
    DueMeansSpaced(s, rd.check);
  }

  lemma MineKeepsInv(c: Crypto, cfg: Config, s: MinerState, rd: Readings, selected: seq<Transaction>, b: Block,
                     s': MinerState)
    requires MinerInv(c, s) && Next(c, cfg, s, Mine(rd, selected, Some(b)), s')
    requires CheckBlock(c, s.ledger, b).Accept? && FreshIds(s.ledger.utxos, b.transactions)
    ensures MinerInv(c, s')
  {
    MineFacts(c, cfg, s, rd, selected, b);
    RewardedKeepsInv(c, s, selected, b, s', rd.stamp, cfg.minerAddress,
                     CoinbaseAmount(selected, BlockReward(rd.reward, GenesisTime(s))));
  }

  /** Every step of the loop keeps the invariant: what is pooled stays valid against the chain. */
  lemma StepKeepsInv(c: Crypto, cfg: Config, s: MinerState, step: Step, s': MinerState)
    requires MinerInv(c, s) && Next(c, cfg, s, step, s') && FreshStep(c, s, step)
    ensures MinerInv(c, s')
  {
    match step {
      case Submit(tx) => AddKeepsPoolInv(s.pool, tx);
      case Wait(now) =>
      case Mine(rd, selected, mined) =>
        if mined.Some? && CheckBlock(c, s.ledger, mined.value).Accept? {
          MineKeepsInv(c, cfg, s, rd, selected, mined.value, s');
        }
    }
  }

  // ----- difficulty along the run -----

  lemma WindowIsSpaced(blocks: seq<Block>)
    requires blocks != [] && SpacedBy(Timestamps(blocks), 3)
    ensures SpacedBy(Window(blocks), 3)
  {
    var window, gap: nat := Window(blocks), 3;
    var start := |blocks| - 1 - |window|;
    forall i | 0 <= i < |window| - 1 ensures window[i + 1] >= window[i] + gap {
      assert window[i] == Timestamps(blocks)[start + i] && window[i + 1] == Timestamps(blocks)[start + i + 1];
    }
  }

  /** On a chain of three blocks or more the next adjustment starts from a difficulty `d` of at most 256
      bits, stays positive, and adds at most `max(1, d/5)`; on a shorter one the loop's own difficulty
      stands. */
  lemma NextDifficultyIsBounded(c: Crypto, s: MinerState, outOfRange: uint32)
    requires MinerInv(c, s)
    ensures var d := Max(1, Latest(s).header.difficulty);
            if |s.ledger.blocks| >= 3 then d <= 256 && 1 <= NextDifficulty(s, outOfRange) <= d + Max(1, d / 5)
            else NextDifficulty(s, outOfRange) == s.difficulty
  {
    if |s.ledger.blocks| >= 3 {
      LongChainDifficulty(c, s, outOfRange);
    }
  }

  lemma LongChainDifficulty(c: Crypto, s: MinerState, outOfRange: uint32)
    requires MinerInv(c, s) && |s.ledger.blocks| >= 3
    ensures var d := Max(1, Latest(s).header.difficulty);
            d <= 256 && 1 <= NextDifficulty(s, outOfRange) <= d + Max(1, d / 5)
  {
    var d := Max(1, Latest(s).header.difficulty);
    WindowIsSpaced(s.ledger.blocks);
    ChainDifficultyAtMost256(c, s.ledger.blocks, |s.ledger.blocks| - 1);
    SpacedWindowRateCap(Window(s.ledger.blocks), d, outOfRange);
  }
}
