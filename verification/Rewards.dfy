/** The reward transactions of a run. */
module Rewards {
  import opened Words
  import opened Crypto
  import opened Transactions
  import opened Blocks
  import opened Ledger
  import opened Mempools
  import opened Consensus
  import opened Retarget
  import opened Miner
  import opened MinerRuns

  /** The block starts with a reward transaction that carries the header's timestamp. */
  ghost predicate StartsWithReward(c: Crypto, cfg: Config, b: Block) {
    exists amount ::
      b.transactions != [] && b.transactions[0] == Coinbase(c, b.header.timestamp, cfg.minerAddress, amount)
  }

  /** All blocks after the first one are rewarded, and headers are 3 s apart. */
  ghost predicate RewardInv(c: Crypto, cfg: Config, s: MinerState) {
    && s.ledger.blocks != [] && Timely(s.ledger.blocks, s.clock)
    && forall i :: 1 <= i < |s.ledger.blocks| ==> StartsWithReward(c, cfg, s.ledger.blocks[i])
  }

  lemma MinedIsRewarded(c: Crypto, cfg: Config, s: MinerState, rd: Readings, selected: seq<Transaction>, b: Block)
    requires s.ledger.blocks != [] && MinedFrom(c, DraftOf(c, cfg, s, rd, selected), rd.wattSeconds, Some(b))
    ensures StartsWithReward(c, cfg, b) && b.header.timestamp == rd.stamp
  {
    var reward := BlockReward(rd.reward, GenesisTime(s));
    MinedBlockIsSealed(c, Latest(s), selected, cfg.minerAddress, cfg.energySource, NextDifficulty(s, rd.outOfRange),
                       rd.stamp, reward, rd.wattSeconds, b);
    assert b.transactions[0] == Coinbase(c, rd.stamp, cfg.minerAddress, CoinbaseAmount(selected, reward));
  }

  lemma AppendKeepsRewards(c: Crypto, cfg: Config, s: MinerState, b: Block, s': MinerState)
    requires RewardInv(c, cfg, s) && StartsWithReward(c, cfg, b)
    requires s'.ledger.blocks == s.ledger.blocks + [b]
    requires Latest(s).header.timestamp + 3 <= b.header.timestamp <= s'.clock
    ensures RewardInv(c, cfg, s')
  {
    SpacedAppend(s.ledger.blocks, b);
    forall i | 1 <= i < |s'.ledger.blocks| ensures StartsWithReward(c, cfg, s'.ledger.blocks[i]) {
      assert i < |s.ledger.blocks| ==> s'.ledger.blocks[i] == s.ledger.blocks[i];
    }
  }

  lemma MiningStep(c: Crypto, cfg: Config, s: MinerState, rd: Readings, selected: seq<Transaction>, b: Block,
                   s': MinerState)
    requires s.ledger.blocks != [] && Next(c, cfg, s, Mine(rd, selected, Some(b)), s')
    ensures s.clock <= rd.check <= rd.stamp <= rd.reward == s'.clock && Due(s, rd.check)
    ensures MinedFrom(c, DraftOf(c, cfg, s, rd, selected), rd.wattSeconds, Some(b))
    ensures CheckBlock(c, s.ledger, b).Accept? ==> s'.ledger.blocks == s.ledger.blocks + [b]
  {
  }

  lemma MiningKeepsRewards(c: Crypto, cfg: Config, s: MinerState, rd: Readings, selected: seq<Transaction>, b: Block,
                           s': MinerState)
    requires RewardInv(c, cfg, s) && Next(c, cfg, s, Mine(rd, selected, Some(b)), s')
    requires CheckBlock(c, s.ledger, b).Accept?
    ensures RewardInv(c, cfg, s')
  {
    MiningStep(c, cfg, s, rd, selected, b, s');
    MinedIsRewarded(c, cfg, s, rd, selected, b);
    DueMeansSpaced(s, rd.check);
    AppendKeepsRewards(c, cfg, s, b, s');
  }

  lemma SameBlocksKeepRewards(c: Crypto, cfg: Config, s: MinerState, s': MinerState)
    requires RewardInv(c, cfg, s) && s'.ledger == s.ledger && s.clock <= s'.clock
    ensures RewardInv(c, cfg, s')
  {
  }

  /** No hypothesis about ids or balances is needed for this. */
  lemma StepKeepsRewards(c: Crypto, cfg: Config, s: MinerState, step: Step, s': MinerState)
    requires RewardInv(c, cfg, s) && Next(c, cfg, s, step, s')
    ensures RewardInv(c, cfg, s')
  {
    if step.Mine? && step.mined.Some? && CheckBlock(c, s.ledger, step.mined.value).Accept? {
      MiningKeepsRewards(c, cfg, s, step.readings, step.selected, step.mined.value, s');
    } else {
      SameBlocksKeepRewards(c, cfg, s, s');
    }
  }

  lemma {:induction false} RunKeepsRewards(c: Crypto, cfg: Config, states: seq<MinerState>, steps: seq<Step>, i: nat)
    requires IsRun(c, cfg, states, steps) && i < |states| && RewardInv(c, cfg, states[0])
    ensures RewardInv(c, cfg, states[i])
  {
    if i > 0 {
      RunKeepsRewards(c, cfg, states, steps, i - 1);
      assert Next(c, cfg, states[i - 1], steps[i - 1], states[i]);
      StepKeepsRewards(c, cfg, states[i - 1], steps[i - 1], states[i]);
    }
  }

  lemma TimestampsIncrease(blocks: seq<Block>, i: nat, j: nat)
    requires SpacedBy(Timestamps(blocks), 3) && i < j < |blocks|
    ensures blocks[i].header.timestamp + 3 <= blocks[j].header.timestamp
  {
    var span, gap: nat := Timestamps(blocks)[i..j + 1], 3;
    forall k | 0 <= k < |span| - 1 ensures span[k + 1] >= span[k] + gap {
      assert span[k] == Timestamps(blocks)[i + k] && span[k + 1] == Timestamps(blocks)[i + k + 1];
    }
    SpacedSpan(span, 3);
  }

  /** In every run from a fresh chain, the rewards of two blocks have different ids, or their texts are a
      collision of the double hash. */
  lemma RewardIdsOfRun(c: Crypto, cfg: Config, states: seq<MinerState>, steps: seq<Step>, t: nat, i: nat, j: nat)
    requires IsRun(c, cfg, states, steps) && t < |states| && RewardInv(c, cfg, states[0])
    requires 1 <= i < j < |states[t].ledger.blocks|
    ensures var blocks := states[t].ledger.blocks;
            && blocks[i].transactions != [] && blocks[j].transactions != []
            && var x, y := blocks[i].transactions[0], blocks[j].transactions[0];
               x.hash != y.hash || Collides(c, (SerializeTx(x), SerializeTx(y)))
  {
    RunKeepsRewards(c, cfg, states, steps, t);
    var blocks := states[t].ledger.blocks;
    assert StartsWithReward(c, cfg, blocks[i]) && StartsWithReward(c, cfg, blocks[j]);
    var v :| blocks[i].transactions[0] == Coinbase(c, blocks[i].header.timestamp, cfg.minerAddress, v);
    var v' :| blocks[j].transactions[0] == Coinbase(c, blocks[j].header.timestamp, cfg.minerAddress, v');
    TimestampsIncrease(blocks, i, j);
    RewardIdsDiffer(c, blocks[i].header.timestamp, cfg.minerAddress, v, blocks[j].header.timestamp, cfg.minerAddress,
                    v');
  }

  lemma FreshChainIsRewarded(c: Crypto, cfg: Config, now: uint64, pool: PoolState, difficulty: uint32)
    ensures RewardInv(c, cfg, MinerState(Append(EMPTY, GenesisBlock(c, now)), pool, difficulty, now, 0))
  {
    assert Timestamps([GenesisBlock(c, now)]) == [now];
  }
}
