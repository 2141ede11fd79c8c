/** Block production, rewards and mining (`consensus.cpp`); clock readings are parameters. */
module Consensus {
  import opened Words
  import opened Crypto
  import opened Transactions
  import opened Merkle
  import opened LeadingZeros
  import opened Blocks
  import opened Ledger
  import opened Mempools

  datatype ConsensusParams = ConsensusParams(
    txCountThreshold: uint32, valueThreshold: uint64, minBlockGapSec: uint64, maxBlockGapSec: uint64,
    initialDifficulty: uint32, difficulty: uint32, targetBlockTimeSec: uint64)

  const DEFAULT_PARAMS := ConsensusParams(100, 10_000_000_000, 3, 60, 1, 1, 5)

  /** 0.5, 1, 1.5 and then 2 BTVD for ever, by full years (31,536,000 s) since genesis. */
  function BlockReward(now: uint64, genesisTimestamp: uint64): (reward: uint64)
    ensures COIN / 2 <= reward <= 2 * COIN
  {
    var years := Wrap64(now - genesisTimestamp) / 31_536_000;
    if years == 0 then COIN / 2
    else if years == 1 then COIN
    else if years == 2 then COIN + COIN / 2
    else 2 * COIN
  }

  /** In full year `years` since genesis a block earns half a BTVD times `min(years + 1, 4)`. */
  lemma RewardSchedule(now: uint64, genesisTimestamp: uint64, years: nat)
    requires genesisTimestamp + years * 31_536_000 <= now < genesisTimestamp + (years + 1) * 31_536_000
    ensures BlockReward(now, genesisTimestamp) == 50_000_000 * (if years < 4 then years + 1 else 4)
  {
    WrapSmall(now - genesisTimestamp);
  }

  function ShouldProduceBlock(params: ConsensusParams, poolSize: nat, pendingValue: uint64, now: uint64,
                              last: uint64): bool {
    var gap := Wrap64(now - last);
    gap >= params.maxBlockGapSec
    || (gap >= params.minBlockGapSec && (poolSize >= params.txCountThreshold || pendingValue >= params.valueThreshold))
  }

  /** With the default parameters and a clock not behind the last block: never within 3 s, always
      after 60 s, and in between when 100 transactions or 100 BTVD are pending. */
  lemma ProductionWindow(poolSize: nat, pendingValue: uint64, now: uint64, last: uint64)
    requires last <= now
    ensures now < last + 3 ==> !ShouldProduceBlock(DEFAULT_PARAMS, poolSize, pendingValue, now, last)
    ensures now >= last + 60 ==> ShouldProduceBlock(DEFAULT_PARAMS, poolSize, pendingValue, now, last)
    ensures last + 3 <= now < last + 60 ==>
              (ShouldProduceBlock(DEFAULT_PARAMS, poolSize, pendingValue, now, last) <==>
               poolSize >= 100 || pendingValue >= 100 * COIN)
  {
    WrapSmall(now - last);
  }

  /** With a clock that shows a time before the last block or before genesis the differences wrap: a block is
      due at once, and the reward is the highest. */
  lemma ClockBehind(poolSize: nat, pendingValue: uint64, now: uint64, last: uint64)
    requires now < last <= now + 0xFFFF_FFFF_FFFF
    ensures ShouldProduceBlock(DEFAULT_PARAMS, poolSize, pendingValue, now, last)
    ensures BlockReward(now, last) == 200_000_000
  {
    assert Wrap64((now as int) - (last as int)) == now - last + TWO64;
  }

  // ----- mining -----

  /** The reward transaction; its only input names no real output. */
  function Coinbase(c: Crypto, timestamp: uint64, minerAddress: string, amount: uint64): Transaction {
    var input := TxInput(NullHash(), 0, COINBASE_MARK, COINBASE_MARK);
    var draft := Transaction([input], [TxOutput(minerAddress, amount)], timestamp, 0, "");
    draft.(hash := TxHash(c, draft))
  }

  function CoinbaseAmount(txs: seq<Transaction>, reward: uint64): uint64 {
    Wrap64(reward + Fees(txs))
  }

  /** The block before a nonce is chosen. */
  function Draft(c: Crypto, previous: Block, txs: seq<Transaction>, minerAddress: string, energySource: string,
                 difficulty: uint32, timestamp: uint64, reward: uint64): Block
  {
    var all := [Coinbase(c, timestamp, minerAddress, CoinbaseAmount(txs, reward))] + txs;
    var header := Header(Wrap64(previous.header.index + 1), previous.hash, timestamp, 0, MerkleRoot(c, TxIds(all)),
                         difficulty, 0, 0, energySource, minerAddress);
    Block(header, all, "")
  }

  function WithNonce(c: Crypto, draft: Block, nonce: uint64): Block {
    var b := draft.(header := draft.header.(nonce := nonce));
    b.(hash := BlockHash(c, b))
  }

  /** The energy report is written after the hash has been computed. */
  function WithEnergy(b: Block, wattSeconds: uint64): Block {
    b.(header := b.header.(wattSeconds := wattSeconds, energyKwh := wattSeconds / 3_600_000))
  }

  predicate Solves(c: Crypto, draft: Block, nonce: uint64) {
    MeetsDifficulty(WithNonce(c, draft, nonce).hash, draft.header.difficulty) == Done(true)
  }

  ghost predicate LeastSolution(c: Crypto, draft: Block, nonce: uint64) {
    nonce < TWO64 - 1 && Solves(c, draft, nonce) && forall m: uint64 :: m < nonce ==> !Solves(c, draft, m)
  }

  /** What `mine_block` returns: the block of the least solving nonce, or nothing if none solves. */
  ghost predicate MinedFrom(c: Crypto, draft: Block, wattSeconds: uint64, r: Option<Block>) {
    match r
    case None => forall n: uint64 :: n < TWO64 - 1 ==> !Solves(c, draft, n)
    case Some(b) =>
      exists n: uint64 :: LeastSolution(c, draft, n) && b == WithEnergy(WithNonce(c, draft, n), wattSeconds)
  }

  method TotalFees(txs: seq<Transaction>) returns (total: uint64)
    ensures total == Wrap64(Fees(txs))
  {
    total := 0;
    ghost var exact: nat := 0;
    for i := 0 to |txs|
      invariant total == Wrap64(exact) && exact + Fees(txs[i..]) == Fees(txs)
    {
      assert txs[i..][1..] == txs[i + 1..];
      total, exact := AddWrapped(total, exact, txs[i].fee);
    }
    assert txs[|txs|..] == [];
  }

  /** Everything `mine_block` does before the nonce loop. */
  method Assemble(c: Crypto, previous: Block, txs: seq<Transaction>, minerAddress: string, energySource: string,
                  difficulty: uint32, timestamp: uint64, reward: uint64) returns (draft: Block)
    ensures draft == Draft(c, previous, txs, minerAddress, energySource, difficulty, timestamp, reward)
  {
    var fees := TotalFees(txs);
    WrapSum(Fees(txs), reward);
    var amount := Wrap64(reward + fees);
    assert amount == CoinbaseAmount(txs, reward);
    var all := [Coinbase(c, timestamp, minerAddress, amount)] + txs;
    var header := Header(Wrap64(previous.header.index + 1), previous.hash, timestamp, 0, "",
                         difficulty, 0, 0, energySource, minerAddress);
    var root := CalculateRoot(c, Block(header, all, ""));
    draft := Block(header.(merkleRoot := root), all, "");
  }

  /** `timestamp` and `now` are two clock readings, the second one taken for the reward. */
  method MineBlock(c: Crypto, previous: Block, txs: seq<Transaction>, minerAddress: string, energySource: string,
                   difficulty: uint32, genesisTimestamp: uint64, timestamp: uint64, now: uint64, wattSeconds: uint64)
    returns (r: Option<Block>)
    ensures var reward := BlockReward(now, genesisTimestamp);
            MinedFrom(c, Draft(c, previous, txs, minerAddress, energySource, difficulty, timestamp, reward),
                      wattSeconds, r)
  {
    var reward := BlockReward(now, genesisTimestamp);
    var draft := Assemble(c, previous, txs, minerAddress, energySource, difficulty, timestamp, reward);
    r := FindNonce(c, draft, wattSeconds);
  }

  /** The search loop: nonces 0, 1, 2, ... below the largest `uint64_t`. */
  method FindNonce(c: Crypto, draft: Block, wattSeconds: uint64) returns (r: Option<Block>)
    ensures MinedFrom(c, draft, wattSeconds, r)
  {
    var nonce: uint64 := 0;
    while nonce < TWO64 - 1
      invariant forall m: uint64 :: m < nonce ==> !Solves(c, draft, m)
      decreases TWO64 - nonce
    {
      var candidate := WithNonce(c, draft, nonce);
      var enough := CheckDifficulty(candidate.hash, candidate.header.difficulty);
      if enough == Done(true) {
        assert LeastSolution(c, draft, nonce);
        return Some(WithEnergy(candidate, wattSeconds));
      }
      nonce := nonce + 1;
    }
    r := None;
  }

  /** A mined block links to its predecessor, carries its own hash and root, and meets its difficulty:
      recording the energy spent afterwards has touched neither the hash nor the root. */
  lemma MinedBlockIsSealed(c: Crypto, previous: Block, txs: seq<Transaction>, minerAddress: string,
                           energySource: string,
                           difficulty: uint32, timestamp: uint64, reward: uint64, wattSeconds: uint64, b: Block)
    requires MinedFrom(c, Draft(c, previous, txs, minerAddress, energySource, difficulty, timestamp, reward),
                       wattSeconds, Some(b))
    ensures SealedOn(c, previous, b)
    ensures b.header.timestamp == timestamp && b.header.difficulty == difficulty
    ensures b.transactions == [Coinbase(c, timestamp, minerAddress, CoinbaseAmount(txs, reward))] + txs
  {
    var draft := Draft(c, previous, txs, minerAddress, energySource, difficulty, timestamp, reward);
    var n: uint64 :| LeastSolution(c, draft, n) && b == WithEnergy(WithNonce(c, draft, n), wattSeconds);
    var plain := draft.(header := draft.header.(nonce := n));
    assert SerializeBlock(b) == SerializeBlock(plain);
  }

  /** It says who mined it from what and what that took, and its nonce is the first one that works: with any
      smaller one its hash would not meet the difficulty. */
  lemma MinedBlockReports(c: Crypto, previous: Block, txs: seq<Transaction>, minerAddress: string,
                          energySource: string, difficulty: uint32, timestamp: uint64, reward: uint64,
                          wattSeconds: uint64, b: Block, smaller: Block)
    requires MinedFrom(c, Draft(c, previous, txs, minerAddress, energySource, difficulty, timestamp, reward),
                       wattSeconds, Some(b))
    requires smaller == b.(header := b.header.(nonce := smaller.header.nonce), hash := smaller.hash)
    requires smaller.header.nonce < b.header.nonce && smaller.hash == c.sha256(c.sha256(SerializeBlock(smaller)))
    ensures b.header.minerAddress == minerAddress && b.header.energySource == energySource
    ensures b.header.wattSeconds == wattSeconds && b.header.energyKwh == wattSeconds / 3_600_000
    ensures b.header.nonce < 0xFFFF_FFFF_FFFF_FFFF
    ensures MeetsDifficulty(smaller.hash, difficulty) != Done(true)
  {
    var draft := Draft(c, previous, txs, minerAddress, energySource, difficulty, timestamp, reward);
    var n: uint64 :| LeastSolution(c, draft, n) && b == WithEnergy(WithNonce(c, draft, n), wattSeconds);
    var m := smaller.header.nonce;
    var plain := draft.(header := draft.header.(nonce := m));
    assert SerializeBlock(smaller) == SerializeBlock(plain);
    assert !Solves(c, draft, m);
  }

  /** The reward transaction has one output, asks for no fee, carries its id and looks like nothing else. */
  lemma CoinbaseFields(c: Crypto, timestamp: uint64, minerAddress: string, amount: uint64)
    ensures var tx := Coinbase(c, timestamp, minerAddress, amount);
            && tx.outputs == [TxOutput(minerAddress, amount)] && tx.fee == 0 && tx.timestamp == timestamp
            && |tx.inputs| == 1 && tx.inputs[0] == TxInput(tx.inputs[0].txId, 0, "coinbase", "coinbase")
            && |tx.inputs[0].txId| == 64 && (forall i :: 0 <= i < 64 ==> tx.inputs[0].txId[i] == '0')
            && tx.hash == c.sha256(c.sha256(SerializeTx(tx)))
  {
    var tx := Coinbase(c, timestamp, minerAddress, amount);
    assert SerializeTx(tx) == SerializeTx(tx.(hash := ""));
  }

  /** Nothing is returned only if no nonce below the largest one gives a hash that meets the difficulty. */
  lemma NothingMined(c: Crypto, draft: Block, wattSeconds: uint64, b: Block)
    requires MinedFrom(c, draft, wattSeconds, None) && b.header.nonce < 0xFFFF_FFFF_FFFF_FFFF
    requires b == draft.(header := draft.header.(nonce := b.header.nonce), hash := b.hash)
    requires b.hash == c.sha256(c.sha256(SerializeBlock(b)))
    ensures MeetsDifficulty(b.hash, draft.header.difficulty) != Done(true)
  {
    var plain := draft.(header := draft.header.(nonce := b.header.nonce));
    assert SerializeBlock(b) == SerializeBlock(plain);
    assert !Solves(c, draft, b.header.nonce);
  }
}
