/** Whole runs of the mining loop, and what honest runs do to the money supply. */
module MinerRuns {
  import opened Words
  import opened Decimals
  import opened Crypto
  import opened Transactions
  import opened Blocks
  import opened Ledger
  import opened History
  import opened Mempools
  import opened Consensus
  import opened Sums
  import opened Supply
  import opened Wallets
  import opened Payments
  import opened Miner

  /** A run: `states[i + 1]` follows from `states[i]` by `steps[i]`. */
  ghost predicate IsRun(c: Crypto, cfg: Config, states: seq<MinerState>, steps: seq<Step>) {
    && |states| == |steps| + 1
    && forall i :: 0 <= i < |steps| ==>
         states[i].ledger.blocks != [] && Next(c, cfg, states[i], steps[i], states[i + 1])
  }

  /** A fresh chain with an empty pool. */
  lemma StartSatisfiesInv(c: Crypto, now: uint64, difficulty: uint32)
    ensures HonestInv(c, MinerState(Append(EMPTY, GenesisBlock(c, now)), EMPTY_POOL, difficulty, now, 0))
  {
    InitEstablishes(c, now);
    var blocks := [GenesisBlock(c, now)];
    GenesisCreatesNothing(c, blocks);
  }

  /** In every run whose new block ids are fresh, every pooled transaction stays valid against the
      chain in every state. */
  lemma {:induction false} PooledStaysValid(c: Crypto, cfg: Config, states: seq<MinerState>, steps: seq<Step>, i: nat)
    requires IsRun(c, cfg, states, steps) && i < |states| && MinerInv(c, states[0])
    requires forall k :: 0 <= k < |steps| ==> FreshStep(c, states[k], steps[k])
    ensures MinerInv(c, states[i])
  {
    if i > 0 {
      PooledStaysValid(c, cfg, states, steps, i - 1);
      assert Next(c, cfg, states[i - 1], steps[i - 1], states[i]) && FreshStep(c, states[i - 1], steps[i - 1]);
      StepKeepsInv(c, cfg, states[i - 1], steps[i - 1], states[i]);
    }
  }

  lemma ShortStep(c: Crypto, cfg: Config, s: MinerState, step: Step, s': MinerState)
    requires s.ledger.blocks != [] && Next(c, cfg, s, step, s') && |s'.ledger.blocks| < 3
    ensures |s.ledger.blocks| <= |s'.ledger.blocks| && s'.difficulty == s.difficulty
  {
  }

  /** As long as the chain is that short, the loop's difficulty is the one it started with. */
  lemma {:induction false} ShortChainKeepsDifficulty(c: Crypto, cfg: Config, states: seq<MinerState>, steps: seq<Step>,
                                                     i: nat)
    requires IsRun(c, cfg, states, steps) && i < |states| && |states[i].ledger.blocks| < 3
    ensures states[i].difficulty == states[0].difficulty
  {
    if i > 0 {
      ShortStep(c, cfg, states[i - 1], steps[i - 1], states[i]);
      ShortChainKeepsDifficulty(c, cfg, states, steps, i - 1);
    }
  }

  // ----- honest runs -----

  /** The number of rewards of at most 2 BTVD whose sum fits a `uint64_t`. */
  const MAX_REWARDS: nat := 92_233_720_368

  ghost predicate PoolBalanced(utxos: map<string, Utxo>, txs: map<string, Transaction>) {
    forall h :: h in txs ==> Balanced(utxos, txs[h])
  }

  /** Every unspent unit was minted as a reward, and pooled transactions mint nothing. */
  ghost predicate SupplyInv(s: MinerState) {
    && PoolBalanced(s.ledger.utxos, s.pool.txs)
    && Sum(s.ledger.utxos) == s.minted <= 200_000_000 * HeightOf(s.ledger)
  }

  ghost predicate HonestInv(c: Crypto, s: MinerState) {
    MinerInv(c, s) && SupplyInv(s)
  }

  /** What an honest environment guarantees: submitted transactions balance, new ids are fresh, and
      the chain is not astronomically long. */
  ghost predicate HonestStep(c: Crypto, s: MinerState, step: Step) {
    match step
    case Submit(tx) => CheckPooled(c, s.ledger.utxos, tx).Accept? ==> Balanced(s.ledger.utxos, tx)
    case Wait(_) => true
    case Mine(_, _, mined) =>
      mined.Some? ==> FreshIds(s.ledger.utxos, mined.value.transactions) && HeightOf(s.ledger) < MAX_REWARDS
  }

  lemma SelectedDisjoint(p: PoolState, selected: seq<Transaction>)
    requires PoolInv(p) && Selection(p, MAX_BLOCK_TXS, selected)
    ensures DisjointSpends(selected)
  {
    forall i, j | 0 <= i < j < |selected| ensures InputKeys(selected[i].inputs) !! InputKeys(selected[j].inputs) {
      SelectionSharesNothing(p, MAX_BLOCK_TXS, selected, i, j);
    }
  }

  lemma SelectionAccounting(c: Crypto, s: MinerState, selected: seq<Transaction>, coinbase: Transaction)
    requires MinerInv(c, s) && PoolBalanced(s.ledger.utxos, s.pool.txs)
    requires Selection(s.pool, MAX_BLOCK_TXS, selected) && PooledTxs(s.pool, selected)
    requires InputKeys(coinbase.inputs) !! s.ledger.utxos.Keys && FreshIds(s.ledger.utxos, [coinbase] + selected)
    ensures Sum(ApplyTxs(s.ledger.utxos, [coinbase] + selected)) + Fees(selected) ==
            Sum(s.ledger.utxos) + Total(coinbase.outputs)
    ensures Fees(selected) <= Sum(s.ledger.utxos)
  {
    SelectedDisjoint(s.pool, selected);
    FreshKeysAreNew(c, s.ledger, [coinbase] + selected);
    forall tx | tx in selected ensures Balanced(s.ledger.utxos, tx) {
      assert s.pool.txs[tx.hash] == tx;
    }
    BlockAccounting(s.ledger.utxos, coinbase, selected);
  }

  lemma CoinbaseTotal(c: Crypto, timestamp: uint64, minerAddress: string, amount: uint64)
    ensures Total(Coinbase(c, timestamp, minerAddress, amount).outputs) == amount
  {
    var outputs := Coinbase(c, timestamp, minerAddress, amount).outputs;
    assert Total(outputs) == outputs[0].amount + Total(outputs[1..]);
  }

  lemma CoinbaseAmountExact(selected: seq<Transaction>, height: nat, minted: nat, reward: uint64)
    requires Fees(selected) <= minted <= 200_000_000 * height && height < 92_233_720_368 && reward <= 200_000_000
    ensures CoinbaseAmount(selected, reward) == reward + Fees(selected)
  {
    WrapSmall(reward + Fees(selected));
  }

  /** A rewarding block of balanced transactions raises the supply by exactly the reward. */
  lemma RewardIsTheIncrease(c: Crypto, s: MinerState, selected: seq<Transaction>, reward: uint64, coinbase: Transaction)
    requires HonestInv(c, s) && Selection(s.pool, MAX_BLOCK_TXS, selected) && PooledTxs(s.pool, selected)
    requires HeightOf(s.ledger) < MAX_REWARDS && reward <= 2 * COIN
    requires Total(coinbase.outputs) == CoinbaseAmount(selected, reward)
    requires InputKeys(coinbase.inputs) !! s.ledger.utxos.Keys && FreshIds(s.ledger.utxos, [coinbase] + selected)
    ensures CoinbaseAmount(selected, reward) == reward + Fees(selected)
    ensures Sum(ApplyTxs(s.ledger.utxos, [coinbase] + selected)) == Sum(s.ledger.utxos) + reward
  {
    SelectionAccounting(c, s, selected, coinbase);
    CoinbaseAmountExact(selected, HeightOf(s.ledger), s.minted, reward);
  }

  lemma UnselectedStaysBalanced(c: Crypto, s: MinerState, selected: seq<Transaction>, coinbase: Transaction)
    requires MinerInv(c, s) && PoolBalanced(s.ledger.utxos, s.pool.txs) && PooledTxs(s.pool, selected)
    requires InputKeys(coinbase.inputs) !! s.ledger.utxos.Keys && FreshIds(s.ledger.utxos, [coinbase] + selected)
    ensures PoolBalanced(ApplyTxs(s.ledger.utxos, [coinbase] + selected), RemoveAll(s.pool, [coinbase] + selected).txs)
  {
    var utxos' := ApplyTxs(s.ledger.utxos, [coinbase] + selected);
    RemoveAllMeaning(s.pool, [coinbase] + selected);
    forall h | h in s.pool.txs && h !in Ids([coinbase] + selected) ensures Balanced(utxos', s.pool.txs[h]) {
      assert forall tx :: tx in selected ==> tx in [coinbase] + selected;
      BlockLeavesUnselected(c, s, selected, coinbase, h);
      BalanceIsLocal(s.ledger.utxos, utxos', s.pool.txs[h]);
    }
  }

  lemma HonestAccounting(c: Crypto, s: MinerState, selected: seq<Transaction>, reward: uint64, timestamp: uint64,
                         minerAddress: string)
    requires HonestInv(c, s) && Selection(s.pool, MAX_BLOCK_TXS, selected) && PooledTxs(s.pool, selected)
    requires HeightOf(s.ledger) < MAX_REWARDS && reward <= 2 * COIN
    requires FreshIds(s.ledger.utxos,
                      [Coinbase(c, timestamp, minerAddress, CoinbaseAmount(selected, reward))] + selected)
    ensures CoinbaseAmount(selected, reward) == reward + Fees(selected)
    ensures var txs := [Coinbase(c, timestamp, minerAddress, CoinbaseAmount(selected, reward))] + selected;
            && Sum(ApplyTxs(s.ledger.utxos, txs)) == Sum(s.ledger.utxos) + reward
            && PoolBalanced(ApplyTxs(s.ledger.utxos, txs), RemoveAll(s.pool, txs).txs)
  {
    var amount := CoinbaseAmount(selected, reward);
    var coinbase := Coinbase(c, timestamp, minerAddress, amount);
    CoinbaseSpendsNothing(c, s.ledger, timestamp, minerAddress, amount);
    CoinbaseTotal(c, timestamp, minerAddress, amount);
    RewardIsTheIncrease(c, s, selected, reward, coinbase);
    UnselectedStaysBalanced(c, s, selected, coinbase);
  }

  lemma SupplyAfterAppend(s: MinerState, b: Block, s': MinerState, reward: uint64)
    requires SupplyInv(s) && s.ledger.blocks != [] && reward <= 200_000_000
    requires s'.ledger == Append(s.ledger, b) && s'.pool == RemoveAll(s.pool, b.transactions) &&
             s'.minted == s.minted + reward
    requires Sum(ApplyTxs(s.ledger.utxos, b.transactions)) == Sum(s.ledger.utxos) + reward
    requires PoolBalanced(ApplyTxs(s.ledger.utxos, b.transactions), RemoveAll(s.pool, b.transactions).txs)
    ensures SupplyInv(s') && Sum(s'.ledger.utxos) == Sum(s.ledger.utxos) + reward
  {
  }

  /** In an honest state the chain takes every mined block: the branch that reports a rejected block
      is never entered, and the supply grows by exactly the reward. */
  lemma HonestBlockAccepted(c: Crypto, cfg: Config, s: MinerState, rd: Readings, selected: seq<Transaction>, b: Block,
                            reward: uint64)
    requires HonestInv(c, s) && cfg.minerAddress != "" && reward == BlockReward(rd.reward, GenesisTime(s))
    requires Latest(s).header.timestamp <= rd.check <= rd.stamp && Due(s, rd.check)
    requires Selection(s.pool, MAX_BLOCK_TXS, selected)
    requires MinedFrom(c, DraftOf(c, cfg, s, rd, selected), rd.wattSeconds, Some(b))
    requires FreshIds(s.ledger.utxos, b.transactions) && HeightOf(s.ledger) < MAX_REWARDS
    ensures CheckBlock(c, s.ledger, b).Accept?
    ensures Sum(ApplyTxs(s.ledger.utxos, b.transactions)) == Sum(s.ledger.utxos) + reward
    ensures PoolBalanced(ApplyTxs(s.ledger.utxos, b.transactions), RemoveAll(s.pool, b.transactions).txs)
  {
    MineFacts(c, cfg, s, rd, selected, b);
    HonestAccounting(c, s, selected, reward, rd.stamp, cfg.minerAddress);
    MinedBlockAccepted(c, cfg, s, rd, selected, b);
  }

  lemma HonestMining(c: Crypto, cfg: Config, s: MinerState, rd: Readings, selected: seq<Transaction>, b: Block,
                     s': MinerState)
    requires HonestInv(c, s) && cfg.minerAddress != "" && Next(c, cfg, s, Mine(rd, selected, Some(b)), s')
    requires FreshIds(s.ledger.utxos, b.transactions) && HeightOf(s.ledger) < MAX_REWARDS
    ensures SupplyInv(s') && s'.ledger == Append(s.ledger, b)
  {
    var reward := BlockReward(rd.reward, GenesisTime(s));
    HonestBlockAccepted(c, cfg, s, rd, selected, b, reward);
    SupplyAfterAppend(s, b, s', reward);
  }

  lemma HonestSubmission(c: Crypto, cfg: Config, s: MinerState, tx: Transaction, s': MinerState)
    requires SupplyInv(s) && s.ledger.blocks != [] && Next(c, cfg, s, Submit(tx), s') && HonestStep(c, s, Submit(tx))
    ensures SupplyInv(s')
  {
    assert forall h :: h in s'.pool.txs ==>
                         s'.pool.txs[h] == tx || (h in s.pool.txs && s'.pool.txs[h] == s.pool.txs[h]);
  }

  lemma IdleKeepsSupply(s: MinerState, s': MinerState)
    requires SupplyInv(s) && s'.ledger == s.ledger && s'.pool == s.pool && s'.minted == s.minted
    ensures SupplyInv(s')
  {
  }

  lemma HonestStepKeepsSupply(c: Crypto, cfg: Config, s: MinerState, step: Step, s': MinerState)
    requires HonestInv(c, s) && cfg.minerAddress != "" && Next(c, cfg, s, step, s') && HonestStep(c, s, step)
    ensures SupplyInv(s')
    ensures step.Mine? && step.mined.Some? ==> s'.ledger == Append(s.ledger, step.mined.value)
  {
    match step {
      case Submit(tx) => HonestSubmission(c, cfg, s, tx, s');
      case Wait(_) => IdleKeepsSupply(s, s');
      case Mine(rd, selected, mined) =>
        if mined.Some? {
          HonestMining(c, cfg, s, rd, selected, mined.value, s');
        } else {
          IdleKeepsSupply(s, s');
        }
    }
  }

  lemma HonestStepIsFresh(c: Crypto, s: MinerState, step: Step)
    requires HonestStep(c, s, step)
    ensures FreshStep(c, s, step)
  {
  }

  lemma HonestStepKeepsInv(c: Crypto, cfg: Config, s: MinerState, step: Step, s': MinerState)
    requires HonestInv(c, s) && cfg.minerAddress != "" && Next(c, cfg, s, step, s') && HonestStep(c, s, step)
    ensures HonestInv(c, s')
    ensures step.Mine? && step.mined.Some? ==> s'.ledger == Append(s.ledger, step.mined.value)
  {
    HonestStepIsFresh(c, s, step);
    StepKeepsInv(c, cfg, s, step, s');
    HonestStepKeepsSupply(c, cfg, s, step, s');
  }

  /** In every honest run the supply is the sum of the rewards, at most 2 BTVD per block. */
  lemma {:induction false} HonestRun(c: Crypto, cfg: Config, states: seq<MinerState>, steps: seq<Step>, i: nat)
    requires IsRun(c, cfg, states, steps) && i < |states| && HonestInv(c, states[0]) && cfg.minerAddress != ""
    requires forall k :: 0 <= k < |steps| ==> HonestStep(c, states[k], steps[k])
    ensures HonestInv(c, states[i])
  {
    if i > 0 {
      HonestRun(c, cfg, states, steps, i - 1);
      assert Next(c, cfg, states[i - 1], steps[i - 1], states[i]) && HonestStep(c, states[i - 1], steps[i - 1]);
      HonestStepKeepsInv(c, cfg, states[i - 1], steps[i - 1], states[i]);
    }
  }

  /** In an honest run every mined block extends the chain; none is rejected. */
  lemma NoBlockRejected(c: Crypto, cfg: Config, states: seq<MinerState>, steps: seq<Step>, i: nat)
    requires IsRun(c, cfg, states, steps) && i < |steps| && HonestInv(c, states[0]) && cfg.minerAddress != ""
    requires forall k :: 0 <= k < |steps| ==> HonestStep(c, states[k], steps[k])
    requires steps[i].Mine? && steps[i].mined.Some?
    ensures states[i + 1].ledger == Append(states[i].ledger, steps[i].mined.value)
  {
    HonestRun(c, cfg, states, steps, i);
    assert HonestStep(c, states[i], steps[i]);
    HonestStepKeepsInv(c, cfg, states[i], steps[i], states[i + 1]);
  }

  /** The `uint64_t` balance of any address is exact. */
  lemma BalanceIsExact(c: Crypto, s: MinerState, address: string)
    requires HonestInv(c, s) && HeightOf(s.ledger) <= MAX_REWARDS
    ensures Wrap64(Sum(OwnedBy(s.ledger.utxos, address))) == Sum(OwnedBy(s.ledger.utxos, address)) <= s.minted
  {
    OwnedAtMostAll(s.ledger.utxos, address);
    WrapSmall(Sum(OwnedBy(s.ledger.utxos, address)));
  }

  /** A payment built by a wallet from its own outputs may be submitted in an honest run: it is taken
      exactly when it is covered, and it balances. */
  lemma PaymentIsHonest(c: Crypto, s: MinerState, key: SecretKey, to: string, amount: uint64, fee: uint64,
                        utxos: seq<Utxo>, keys: seq<string>, timestamp: uint64, rnd: nat -> nat)
    requires HonestInv(c, s) && HeightOf(s.ledger) <= MAX_REWARDS && OffersOwn(c, s.ledger, key, utxos, keys)
    requires amount > 0 && to != "" && amount + fee < TWO64
    ensures var tx := CreateTransaction(c, Some(key), to, amount, fee, utxos, timestamp, rnd);
            && (tx.hash == "" <==> Sum(OwnedBy(s.ledger.utxos, Address(c, Some(key)))) < amount + fee)
            && (tx.hash != "" ==> CheckPooled(c, s.ledger.utxos, tx).Accept? && HonestStep(c, s, Submit(tx)))
  {
    var address := Address(c, Some(key));
    BalanceIsExact(c, s, address);
    EnumeratedValue(OwnedBy(s.ledger.utxos, address), keys, utxos);
    var tx := CreateTransaction(c, Some(key), to, amount, fee, utxos, timestamp, rnd);
    PaymentFailsIffShort(c, key, to, amount, fee, utxos, timestamp, rnd, tx);
    if amount + fee <= Value(utxos) {
      CoveredPaymentIsHonest(c, s.ledger, key, to, amount, fee, utxos, keys, timestamp, rnd, tx);
    }
  }

  /** For any amount and fee, submitting the wallet's payment is an honest step exactly when the pool
      turns it away or `amount + fee` fits a `uint64_t`. */
  lemma PaymentIsHonestIff(c: Crypto, s: MinerState, key: SecretKey, to: string, amount: uint64, fee: uint64,
                           utxos: seq<Utxo>, keys: seq<string>, timestamp: uint64, rnd: nat -> nat, tx: Transaction)
    requires HonestInv(c, s) && HeightOf(s.ledger) <= MAX_REWARDS && OffersOwn(c, s.ledger, key, utxos, keys)
    requires tx == CreateTransaction(c, Some(key), to, amount, fee, utxos, timestamp, rnd)
    ensures HonestStep(c, s, Submit(tx)) <==> !CheckPooled(c, s.ledger.utxos, tx).Accept? || amount + fee < TWO64
  {
    BalanceIsExact(c, s, Address(c, Some(key)));
    EnumeratedValue(OwnedBy(s.ledger.utxos, Address(c, Some(key))), keys, utxos);
    PaymentAcceptedIff(c, s.ledger, key, to, amount, fee, utxos, keys, timestamp, rnd, tx);
    PaymentFailsIffNeverReached(c, key, to, amount, fee, utxos, timestamp, rnd, tx.hash);
    if CheckPooled(c, s.ledger.utxos, tx).Accept? {
      PaymentBalancedIff(c, s.ledger, key, to, amount, fee, utxos, keys, timestamp, rnd, tx);
    }
  }

  // ----- reward ids -----

  lemma CoinbaseText(c: Crypto, timestamp: uint64, minerAddress: string, amount: uint64)
    ensures SerializeTx(Coinbase(c, timestamp, minerAddress, amount)) ==
            Decimal(timestamp) + "0" + NullHash() + "0" + COINBASE_MARK + minerAddress + Decimal(amount)
  {
    var tx := Coinbase(c, timestamp, minerAddress, amount);
    assert SerializeInputs(tx.inputs) == NullHash() + "0" + COINBASE_MARK + SerializeInputs(tx.inputs[1..]);
    assert SerializeOutputs(tx.outputs) == minerAddress + Decimal(amount) + SerializeOutputs(tx.outputs[1..]);
  }

  /** Reward transactions with different timestamps have different ids, or their texts collide. */
  lemma RewardIdsDiffer(c: Crypto, t: uint64, a: string, v: uint64, t': uint64, a': string, v': uint64)
    requires t != t'
    ensures Coinbase(c, t, a, v).hash != Coinbase(c, t', a', v').hash ||
            Collides(c, (SerializeTx(Coinbase(c, t, a, v)), SerializeTx(Coinbase(c, t', a', v'))))
  {
    var x, y := SerializeTx(Coinbase(c, t, a, v)), SerializeTx(Coinbase(c, t', a', v'));
    CoinbaseText(c, t, a, v);
    CoinbaseText(c, t', a', v');
    var m, n := |Decimal(t)|, |Decimal(t')|;
    DecimalDigits(t);
    DecimalDigits(t');
    assert forall i :: 0 <= i < m + 66 ==> x[i] != 'c';
    assert forall i :: 0 <= i < n + 66 ==> y[i] != 'c';
    assert x[m + 66] == 'c' && y[n + 66] == 'c';
    if x == y {
      assert m == n;
      assert Decimal(t) == x[..m] == y[..n] == Decimal(t');
      DecimalInjective(t, t');
    }
  }
}
