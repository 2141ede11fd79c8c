/** The loop itself, over `Blockchain` and `Mempool` objects, proved to take the steps of `Miner`. */
module MiningLoop {
  import opened Words
  import opened Crypto
  import opened Transactions
  import opened Blocks
  import opened Ledger
  import opened History
  import opened Mempools
  import opened PendingPool
  import opened Consensus
  import opened Retarget
  import opened Blockchains
  import opened Json
  import opened Persistence
  import opened Miner
  import opened MinerRuns

  /** What happens next: somebody hands in a transaction, or the loop makes a pass. */
  datatype Turn = Submission(tx: Transaction) | LoopPass(readings: Readings)

  /** The clock readings of each pass, never going back. */
  predicate Ordered(start: uint64, turns: seq<Turn>) {
    && (forall i :: 0 <= i < |turns| && turns[i].LoopPass? ==>
          start <= turns[i].readings.check <= turns[i].readings.stamp <= turns[i].readings.reward)
    && (forall i, j :: 0 <= i < j < |turns| && turns[i].LoopPass? && turns[j].LoopPass? ==>
          turns[i].readings.reward <= turns[j].readings.check)
  }

  /** No pass from turn `i` on starts before `clock`. */
  predicate Ahead(clock: uint64, turns: seq<Turn>, i: nat) {
    forall k :: i <= k < |turns| && turns[k].LoopPass? ==> clock <= turns[k].readings.check
  }

  lemma StaysAhead(start: uint64, turns: seq<Turn>, i: nat, clock: uint64, after: uint64)
    requires Ordered(start, turns) && i < |turns| && Ahead(clock, turns, i)
    requires if turns[i].LoopPass? then after <= turns[i].readings.reward else after == clock
    ensures Ahead(after, turns, i + 1)
  {
  }

  /** Submissions are taken in the order in which they come. */
  ghost predicate TakesSubmissions(turns: seq<Turn>, steps: seq<Step>) {
    |steps| <= |turns| && forall k :: 0 <= k < |steps| && turns[k].Submission? ==> steps[k] == Step.Submit(turns[k].tx)
  }

  lemma TakesOneMore(turns: seq<Turn>, steps: seq<Step>, step: Step)
    requires TakesSubmissions(turns, steps) && |steps| < |turns|
    requires turns[|steps|].Submission? ==> step == Step.Submit(turns[|steps|].tx)
    ensures TakesSubmissions(turns, steps + [step])
  {
  }

  ghost predicate RunBetween(c: Crypto, cfg: Config, states: seq<MinerState>, steps: seq<Step>, first: MinerState,
                             last: MinerState) {
    IsRun(c, cfg, states, steps) && states[0] == first && states[|steps|] == last
  }

  class MiningNode {
    const chain: Blockchain
    const mempool: Mempool
    var difficulty: uint32
    /** What the chain file holds. */
    var disk: seq<Json>
    ghost var clock: uint64
    ghost var minted: nat

    ghost function View(): MinerState
      reads this, chain, mempool
    {
      MinerState(chain.State(), mempool.State(), difficulty, clock, minted)
    }

    ghost predicate Valid()
      reads this, chain, mempool
    {
      LedgerInv(chain.crypto, chain.State()) && PoolInv(mempool.State())
    }

    constructor (chain: Blockchain, mempool: Mempool, ghost clock: uint64)
      requires LedgerInv(chain.crypto, chain.State()) && PoolInv(mempool.State())
      ensures this.chain == chain && this.mempool == mempool && Valid()
      ensures View() == MinerState(chain.State(), mempool.State(), 1, clock, 0)
    {
      this.chain, this.mempool, this.difficulty, this.disk := chain, mempool, DEFAULT_PARAMS.difficulty, [];
      this.clock, this.minted := clock, 0;
    }

    method WindowTimestamps() returns (timestamps: seq<uint64>)
      requires chain.chain != []
      ensures timestamps == Window(chain.chain)
    {
      var height := chain.Height();
      var lookback := if height < LOOKBACK then height else LOOKBACK;
      timestamps := [];
      for i := 0 to lookback
        invariant timestamps == Window(chain.chain)[..i]
      {
        timestamps := timestamps + [chain.chain[height - lookback + i].header.timestamp];
      }
    }

    /** The chain file is written when the chain has grown, and only then. */
    twostate predicate SavedIfGrown()
      reads this, chain
    {
      disk == if chain.chain == old(chain.chain) then old(disk) else BlocksToJson(chain.chain)
    }

    /** One pass: wait, or select, retarget, mine, add, save, and drop what was confirmed. */
    method Pass(cfg: Config, rd: Readings) returns (ghost step: Step)
      requires Valid() && clock <= rd.check <= rd.stamp <= rd.reward
      modifies this, chain, mempool
      ensures Valid() && Next(chain.crypto, cfg, old(View()), step, View()) && clock <= rd.reward
      ensures SavedIfGrown()
    {
      var latest := chain.chain[|chain.chain| - 1];
      var pending := mempool.TotalPendingValue();
      if !ShouldProduceBlock(DEFAULT_PARAMS, |mempool.transactions|, pending, rd.check, latest.header.timestamp) {
        clock := rd.check;
        return Wait(rd.check);
      }
      assert Due(View(), rd.check);
      var selected, target, mined := Produce(cfg, rd);
      step := Mine(rd, selected, mined);
      Commit(rd, target, mined);
    }

    /** Select, retarget and mine. */
    method Produce(cfg: Config, rd: Readings) returns (selected: seq<Transaction>, target: uint32, mined: Option<Block>)
      requires Valid()
      ensures Selection(mempool.State(), MAX_BLOCK_TXS, selected) && target == NextDifficulty(View(), rd.outOfRange)
      ensures MinedFrom(chain.crypto, DraftOf(chain.crypto, cfg, View(), rd, selected), rd.wattSeconds, mined)
    {
      var latest := chain.chain[|chain.chain| - 1];
      selected := mempool.GetForBlock(MAX_BLOCK_TXS);
      var window := WindowTimestamps();
      target := difficulty;
      if |window| >= 2 {
        target := CalculateDifficulty(DEFAULT_PARAMS, window, latest.header.difficulty, rd.outOfRange);
      }
      mined := MineBlock(chain.crypto, latest, selected, cfg.minerAddress, cfg.energySource, target,
                         chain.chain[0].header.timestamp, rd.stamp, rd.reward, rd.wattSeconds);
    }

    method Commit(rd: Readings, target: uint32, mined: Option<Block>)
      requires Valid() && target == NextDifficulty(View(), rd.outOfRange)
      modifies this, chain, mempool
      ensures Valid() && View() == AfterMining(chain.crypto, old(View()), rd, mined)
      ensures SavedIfGrown()
    {
      difficulty, clock := target, rd.reward;
      if mined.Some? {
        Confirm(mined.value, BlockReward(rd.reward, chain.chain[0].header.timestamp));
      }
    }

    /** Hand the block to the chain; if it was taken, save the chain and drop the block's transactions. */
    method Confirm(b: Block, ghost reward: nat)
      requires Valid()
      modifies `minted, `disk, chain, mempool
      ensures Valid() && SavedIfGrown()
      ensures View() == if CheckBlock(chain.crypto, old(chain.State()), b).Accept? then
                          old(View()).(ledger := Append(old(chain.State()), b),
                                       pool := RemoveAll(old(mempool.State()), b.transactions),
                                       minted := old(minted) + reward)
                        else old(View())
    {
      AddKeepsInv(chain.crypto, chain.State(), b);
      var verdict := chain.AddBlock(b);
      if verdict.Accept? {
        disk := chain.SaveToDisk();
        RemoveAllMeaning(mempool.State(), b.transactions);
        mempool.RemoveConfirmed(b.transactions);
        minted := minted + reward;
      }
    }

    /** The handler of a submitted transaction: validate, then pool. */
    method Submit(tx: Transaction) returns (ghost step: Step)
      requires Valid()
      modifies mempool
      ensures Valid() && step == Step.Submit(tx)
      ensures forall cfg: Config :: Next(chain.crypto, cfg, old(View()), step, View())
    {
      step := Step.Submit(tx);
      var verdict := chain.ValidateTransaction(tx);
      if verdict.Accept? {
        AddKeepsPoolInv(mempool.State(), tx);
        var added := mempool.AddTransaction(tx);
      }
    }

    /** `while (g_running)` with submissions in between, and saving at the end: whatever the readings and
        transactions, this is a run of the step relation, and the file restores its last chain. */
    method Loop(cfg: Config, turns: seq<Turn>) returns (ghost states: seq<MinerState>, ghost steps: seq<Step>)
      requires Valid() && Ordered(clock, turns)
      modifies this, chain, mempool
      ensures Valid() && RunBetween(chain.crypto, cfg, states, steps, old(View()), View())
      ensures |steps| == |turns| && TakesSubmissions(turns, steps)
      ensures Loaded(disk) == chain.State()
    {
      states, steps := [View()], [];
      for i := 0 to |turns|
        invariant Valid() && RunBetween(chain.crypto, cfg, states, steps, old(View()), View()) && |steps| == i
        invariant TakesSubmissions(turns, steps) && Ahead(clock, turns, i)
      {
        ghost var before, view := clock, View();
        ghost var step := Advance(cfg, turns[i]);
        StaysAhead(old(clock), turns, i, before, clock);
        TakesOneMore(turns, steps, step);
        ExtendRun(chain.crypto, cfg, states, steps, old(View()), view, step, View());
        states, steps := states + [View()], steps + [step];
      }
      disk := chain.SaveToDisk();
      LoadSaved(chain.crypto, chain.State());
    }

    method Advance(cfg: Config, turn: Turn) returns (ghost step: Step)
      requires Valid()
      requires turn.LoopPass? ==> clock <= turn.readings.check <= turn.readings.stamp <= turn.readings.reward
      modifies this, chain, mempool
      ensures Valid() && Next(chain.crypto, cfg, old(View()), step, View())
      ensures turn.Submission? ==> step == Step.Submit(turn.tx) && clock == old(clock)
      ensures turn.LoopPass? ==> clock <= turn.readings.reward
    {
      match turn {
        case Submission(tx) => step := Submit(tx);
        case LoopPass(rd) => step := Pass(cfg, rd);
      }
    }
  }

  lemma ExtendRun(c: Crypto, cfg: Config, states: seq<MinerState>, steps: seq<Step>,
                  first: MinerState, last: MinerState, step: Step, next: MinerState)
    requires RunBetween(c, cfg, states, steps, first, last) && last.ledger.blocks != []
    requires Next(c, cfg, last, step, next)
    ensures RunBetween(c, cfg, states + [next], steps + [step], first, next)
  {
    var longer, more := states + [next], steps + [step];
    forall i | 0 <= i < |more|
      ensures longer[i].ledger.blocks != [] && Next(c, cfg, longer[i], more[i], longer[i + 1])
    {
      if i < |steps| {
        assert longer[i] == states[i] && longer[i + 1] == states[i + 1] && more[i] == steps[i];
      }
    }
  }
}
