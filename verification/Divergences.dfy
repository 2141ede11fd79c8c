/** Inputs on which the code does other than its documentation says. */
module Divergences {
  import opened Words
  import opened Decimals
  import opened Crypto
  import opened Transactions
  import opened Merkle
  import opened LeadingZeros
  import opened Blocks
  import opened Json
  import opened Ledger
  import opened History
  import opened Mempools
  import opened Consensus
  import opened Sums
  import opened Blockchains
  import opened Nodes
  import opened Wallets
  import opened Payments
  import opened Miner
  import opened MinerRuns

  /** A block on top of `latest` that declares difficulty 0. */
  function EasyBlock(c: Crypto, latest: Block, txs: seq<Transaction>): Block {
    var root := MerkleRoot(c, TxIds(txs));
    var header := Header(Wrap64(latest.header.index + 1), latest.hash, 0, 0, root, 0, 0, 0, "", "");
    var draft := Block(header, txs, "");
    draft.(hash := BlockHash(c, draft))
  }

  function Tip(st: LedgerState): Block
    requires st.blocks != []
  {
    st.blocks[|st.blocks| - 1]
  }

  lemma EveryDigestMeetsZero(hash: string)
    requires IsDigest(hash)
    ensures MeetsDifficulty(hash, 0) == Done(true)
  {
    DifficultyIsNumericBound(hash, 0);
  }

  /** The declared difficulty is not compared with anything, and every digest meets difficulty 0. */
  lemma EasyBlockIsSealed(c: Crypto, latest: Block, txs: seq<Transaction>)
    ensures SealedOn(c, latest, EasyBlock(c, latest, txs))
  {
    var b := EasyBlock(c, latest, txs);
    assert SerializeBlock(b) == SerializeBlock(b.(hash := ""));
    EveryDigestMeetsZero(b.hash);
  }

  /** Every non-empty chain takes a block without transactions. */
  lemma EmptyBlockIsTaken(c: Crypto, st: LedgerState)
    requires st.blocks != []
    ensures CheckBlock(c, st, EasyBlock(c, Tip(st), [])).Accept?
  {
    EasyBlockIsSealed(c, Tip(st), []);
    CheckBlockMeaning(c, st, EasyBlock(c, Tip(st), []));
  }

  /** Every non-empty chain takes a block that pays its miner any positive amount. */
  lemma AnyRewardIsTaken(c: Crypto, st: LedgerState, minerAddress: string, amount: uint64)
    requires st.blocks != [] && minerAddress != "" && amount > 0
    ensures CheckBlock(c, st, EasyBlock(c, Tip(st), [Coinbase(c, 0, minerAddress, amount)])).Accept?
  {
    var coinbase := Coinbase(c, 0, minerAddress, amount);
    CoinbaseStructure(c, 0, minerAddress, amount);
    EasyBlockIsSealed(c, Tip(st), [coinbase]);
    CheckBlockMeaning(c, st, EasyBlock(c, Tip(st), [coinbase]));
  }

  /** Every non-empty chain takes a block of transactions that are valid one by one, even if they spend an
      output twice or are all the same. */
  lemma ValidOneByOneIsTaken(c: Crypto, st: LedgerState, txs: seq<Transaction>)
    requires st.blocks != [] && forall k :: 0 <= k < |txs| ==> CheckPooled(c, st.utxos, txs[k]).Accept?
    ensures CheckBlock(c, st, EasyBlock(c, Tip(st), txs)).Accept?
  {
    EasyBlockIsSealed(c, Tip(st), txs);
    forall k | 0 <= k < |txs| ensures GoodTx(c, st.utxos, txs[k], k == 0) {
      PooledMeaning(c, st.utxos, txs[k]);
    }
    CheckBlockMeaning(c, st, EasyBlock(c, Tip(st), txs));
  }

  lemma DoubleSpendIsTaken(c: Crypto, st: LedgerState, tx: Transaction)
    requires st.blocks != [] && CheckPooled(c, st.utxos, tx).Accept?
    ensures CheckBlock(c, st, EasyBlock(c, Tip(st), [tx, tx])).Accept?
  {
    ValidOneByOneIsTaken(c, st, [tx, tx]);
  }

  const HOLLOW: Transaction := Transaction([], [], 0, 0, "")

  lemma HollowIsTurnedAway(c: Crypto, utxos: map<string, Utxo>)
    ensures CheckTxs(c, utxos, [HOLLOW]) == Reject
  {
    assert CheckTx(c, utxos, HOLLOW, true) == Reject;
    assert TxVerdicts(c, utxos, [HOLLOW])[0] == Reject;
  }

  /** A block with a transaction that has no input is relayed by every node that has a peer, and added by
      none. */
  lemma HollowBlockIsRelayed(c: Crypto, st: NodeState)
    requires st.ledger.blocks != [] && st.peers != []
    ensures var (next, sends) := HandleBlock(c, st, BlockToJson(EasyBlock(c, Tip(st.ledger), [HOLLOW])));
            sends != [] && next.ledger.blocks == st.ledger.blocks
  {
    var b := EasyBlock(c, Tip(st.ledger), [HOLLOW]);
    EasyBlockIsSealed(c, Tip(st.ledger), [HOLLOW]);
    HollowIsTurnedAway(c, st.ledger.utxos);
    var (next, sends) := HandleBlock(c, st, BlockToJson(b));
    BlockRoundTrip(b);
    RelayedWithoutBeingAddedIff(c, st, BlockToJson(b), b, next, sends);
  }

  // ----- a pool from which no block of the first year is taken -----

  /** A chain of two blocks on which the key owns one unit. */
  function FundedChain(c: Crypto, now: uint64, key: SecretKey): LedgerState {
    var st := Append(EMPTY, GenesisBlock(c, now));
    Append(st, EasyBlock(c, GenesisBlock(c, now), [Coinbase(c, 0, Address(c, Some(key)), 1)]))
  }

  lemma SingleOutput(tx: Transaction, output: TxOutput)
    requires tx.outputs == [output]
    ensures CreatedMap([tx]) == map[UtxoKey(tx.hash, 0) := Utxo(tx.hash, 0, output.address, output.amount)]
  {
    assert OutputMap(tx, 1) == OutputMap(tx, 0)[UtxoKey(tx.hash, 0) := OutputAt(tx, 0)];
    assert [tx][..0] == [] && CreatedMap([tx]) == CreatedMap([]) + OutputMap(tx, 1);
  }

  lemma FundedChainHolds(c: Crypto, now: uint64, key: SecretKey, id: string)
    requires id == Coinbase(c, 0, Address(c, Some(key)), 1).hash
    ensures LedgerInv(c, FundedChain(c, now, key))
    ensures FundedChain(c, now, key).utxos == map[UtxoKey(id, 0) := Utxo(id, 0, Address(c, Some(key)), 1)]
  {
    var st, coinbase := Append(EMPTY, GenesisBlock(c, now)), Coinbase(c, 0, Address(c, Some(key)), 1);
    InitEstablishes(c, now);
    assert st.blocks == [GenesisBlock(c, now)];
    GenesisCreatesNothing(c, st.blocks);
    AnyRewardIsTaken(c, st, Address(c, Some(key)), 1);
    AddKeepsInv(c, st, EasyBlock(c, GenesisBlock(c, now), [coinbase]));
    SingleOutput(coinbase, TxOutput(Address(c, Some(key)), 1));
  }

  lemma SingleOwned(k: string, u: Utxo)
    ensures Enumerates(OwnedBy(map[k := u], u.address), [k], [u])
  {
    assert OwnedBy(map[k := u], u.address) == map[k := u];
  }

  lemma FundedKeyOwnsOne(c: Crypto, now: uint64, key: SecretKey, id: string, u: Utxo)
    requires id == Coinbase(c, 0, Address(c, Some(key)), 1).hash && u == Utxo(id, 0, Address(c, Some(key)), 1)
    ensures OffersOwn(c, FundedChain(c, now, key), key, [u], [UtxoKey(id, 0)])
  {
    FundedChainHolds(c, now, key, id);
    SingleOwned(UtxoKey(id, 0), u);
  }

  /** From a pool of one transaction nothing else can be selected. */
  lemma OnlyChoice(p: PoolState, tx: Transaction, r: seq<Transaction>)
    requires p.txs == map[tx.hash := tx]
    ensures Selection(p, MAX_BLOCK_TXS, r) <==> r == [tx]
  {
    if Selection(p, MAX_BLOCK_TXS, r) {
      SelectionShape(p, MAX_BLOCK_TXS, r);
      assert r[0] in r;
    }
    forall h | h in p.txs ensures exists i :: 0 <= i < |[tx]| && [tx][i].hash == h {
      assert [tx][0].hash == h;
    }
    assert IsFront(p.txs, [tx], MAX_BLOCK_TXS, [tx]);
  }

  lemma SubmittedAlone(c: Crypto, s: MinerState, tx: Transaction)
    requires s.pool == EMPTY_POOL && CheckPooled(c, s.ledger.utxos, tx).Accept?
    ensures AddTx(s.pool, tx).txs == map[tx.hash := tx]
    ensures PoolValid(c, s.ledger.utxos, AddTx(s.pool, tx).txs)
  {
  }

  /** The key's payment of 50,000,001 with a fee of 2^64 - 50,000,000. */
  function OversizedPayment(c: Crypto, key: SecretKey, to: string, timestamp: uint64, rnd: nat -> nat): Transaction {
    var id := Coinbase(c, 0, Address(c, Some(key)), 1).hash;
    CreateTransaction(c, Some(key), to, 50_000_001, 18_446_744_073_659_551_616,
                      [Utxo(id, 0, Address(c, Some(key)), 1)], timestamp, rnd)
  }

  /** The loop on the funded chain once the payment has been submitted. */
  function StalledState(c: Crypto, now: uint64, key: SecretKey, to: string, timestamp: uint64, rnd: nat -> nat,
                        difficulty: uint32, clock: uint64): MinerState
  {
    MinerState(FundedChain(c, now, key), AddTx(EMPTY_POOL, OversizedPayment(c, key, to, timestamp, rnd)), difficulty,
               clock, 0)
  }

  lemma StalledPool(c: Crypto, cfg: Config, now: uint64, key: SecretKey, to: string, timestamp: uint64, rnd: nat -> nat,
                    difficulty: uint32, clock: uint64, s: MinerState, tx: Transaction)
    requires to != "" && tx == OversizedPayment(c, key, to, timestamp, rnd)
    requires s == StalledState(c, now, key, to, timestamp, rnd, difficulty, clock)
    ensures LedgerInv(c, s.ledger) && Next(c, cfg, s.(pool := EMPTY_POOL), Submit(tx), s)
    ensures tx.fee == 18_446_744_073_659_551_616 && s.pool.txs == map[tx.hash := tx]
    ensures PoolValid(c, s.ledger.utxos, s.pool.txs) && GenesisTime(s) == now
  {
    var id := Coinbase(c, 0, Address(c, Some(key)), 1).hash;
    var u := Utxo(id, 0, Address(c, Some(key)), 1);
    FundedChainHolds(c, now, key, id);
    FundedKeyOwnsOne(c, now, key, id, u);
    WrappedNeedIsAccepted(c, s.ledger, key, to, [u], [UtxoKey(id, 0)], timestamp, rnd, tx);
    SubmittedAlone(c, s.(pool := EMPTY_POOL), tx);
    assert s.ledger.blocks[0] == GenesisBlock(c, now);
  }

  /** A pass of the loop whose reward falls into the first year since genesis, or no pass at all. */
  predicate WithinFirstYear(genesisTime: uint64, step: Step) {
    match step
    case Submit(_) => false
    case Wait(_) => true
    case Mine(rd, _, _) => genesisTime <= rd.reward < genesisTime + 31_536_000
  }

  lemma StalledStep(c: Crypto, cfg: Config, s: MinerState, tx: Transaction, step: Step, s': MinerState)
    requires s.ledger.blocks != [] && s.pool.txs == map[tx.hash := tx] && tx.fee == 18_446_744_073_659_551_616
    requires Next(c, cfg, s, step, s') && WithinFirstYear(GenesisTime(s), step)
    ensures s'.ledger == s.ledger && s'.pool == s.pool
  {
    if step.Mine? && step.mined.Some? {
      OnlyChoice(s.pool, tx, step.selected);
      RewardSchedule(step.readings.reward, GenesisTime(s), 0);
      WrappedFeesAreRejected(c, cfg, s, step.readings, tx, step.mined.value);
    }
  }

  lemma {:induction false} StalledRun(c: Crypto, cfg: Config, states: seq<MinerState>, steps: seq<Step>,
                                      tx: Transaction, i: nat)
    requires IsRun(c, cfg, states, steps) && i < |states| && states[0].ledger.blocks != []
    requires states[0].pool.txs == map[tx.hash := tx] && tx.fee == 18_446_744_073_659_551_616
    requires forall k :: 0 <= k < |steps| ==> WithinFirstYear(GenesisTime(states[0]), steps[k])
    ensures states[i].ledger == states[0].ledger && states[i].pool == states[0].pool
  {
    if i > 0 {
      StalledRun(c, cfg, states, steps, tx, i - 1);
      assert Next(c, cfg, states[i - 1], steps[i - 1], states[i]);
      assert WithinFirstYear(GenesisTime(states[0]), steps[i - 1]);
      StalledStep(c, cfg, states[i - 1], tx, steps[i - 1], states[i]);
    }
  }

  /** A reachable state with one pooled payment, built by a wallet from its own output. As long as nothing
      else is submitted, the loop adds no block in the first year, whatever it selects and mines. */
  lemma OversizedPaymentStallsMining(
      c: Crypto, cfg: Config, now: uint64, key: SecretKey, to: string, timestamp: uint64, rnd: nat -> nat,
      difficulty: uint32, clock: uint64, states: seq<MinerState>, steps: seq<Step>, i: nat)
    requires to != "" && IsRun(c, cfg, states, steps) && i < |states|
    requires states[0] == StalledState(c, now, key, to, timestamp, rnd, difficulty, clock)
    requires forall k :: 0 <= k < |steps| ==> WithinFirstYear(now, steps[k])
    ensures states[i].ledger == states[0].ledger && states[i].pool == states[0].pool
  {
    var tx := OversizedPayment(c, key, to, timestamp, rnd);
    StalledPool(c, cfg, now, key, to, timestamp, rnd, difficulty, clock, states[0], tx);
    StalledRun(c, cfg, states, steps, tx, i);
  }
}
