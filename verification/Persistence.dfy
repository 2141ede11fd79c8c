/** The chain file, and runs of all state-changing operations of `Blockchain`. */
module Persistence {
  import opened Words
  import opened Crypto
  import opened Blocks
  import opened Json
  import opened Ledger
  import opened History

  function BlocksToJson(blocks: seq<Block>): seq<Json> {
    seq(|blocks|, i requires 0 <= i < |blocks| => BlockToJson(blocks[i]))
  }

  function Decoded(items: seq<Json>): seq<Try<Block>> {
    seq(|items|, i requires 0 <= i < |items| => BlockFromJson(items[i]))
  }

  /** `load_from_disk` on a parsed array; an item that fails to decode leaves the blocks read so far
      and an empty UTXO map behind the exception. */
  function Loaded(items: seq<Json>): LedgerState {
    var blocks := DonePrefix(Decoded(items));
    if |blocks| == |items| then StateOf(blocks) else LedgerState(blocks, map[], IndexOf(blocks))
  }

  lemma DecodeSavedBlocks(blocks: seq<Block>)
    ensures DonePrefix(Decoded(BlocksToJson(blocks))) == blocks
  {
    var results := Decoded(BlocksToJson(blocks));
    forall i | 0 <= i < |blocks| ensures results[i] == Done(blocks[i]) {
      BlockRoundTrip(blocks[i]);
    }
    DonePrefixOfAllDone(results, blocks);
  }

  /** Loading what was saved restores the chain, the UTXO map and the hash index. */
  lemma LoadSaved(c: Crypto, st: LedgerState)
    requires LedgerInv(c, st)
    ensures Loaded(BlocksToJson(st.blocks)) == st
  {
    DecodeSavedBlocks(st.blocks);
  }

  datatype Operation = Init(now: uint64) | Add(block: Block) | Rebuild | SaveAndLoad

  function Execute(c: Crypto, st: LedgerState, op: Operation): LedgerState {
    match op
    case Init(now) => if st.blocks == [] then Append(st, GenesisBlock(c, now)) else st
    case Add(block) => AddBlock(c, st, block)
    case Rebuild => st.(utxos := Replay(st.blocks))
    case SaveAndLoad => Loaded(BlocksToJson(st.blocks))
  }

  function Run(c: Crypto, st: LedgerState, ops: seq<Operation>): LedgerState
    decreases |ops|
  {
    if ops == [] then st else Run(c, Execute(c, st, ops[0]), ops[1..])
  }

  lemma ExecuteKeepsInv(c: Crypto, st: LedgerState, op: Operation)
    requires LedgerInv(c, st)
    ensures LedgerInv(c, Execute(c, st, op)) && st.blocks <= Execute(c, st, op).blocks
  {
    match op {
      case Add(block) => AddKeepsInv(c, st, block);
      case SaveAndLoad => LoadSaved(c, st);
      case _ =>
    }
  }

  /** After any sequence of operations on an initialised chain, the chain has only grown at its end,
      the maps maintained step by step are the maps rebuilt from scratch, and saving and loading
      changes nothing. */
  lemma {:induction false} EveryRunAgreesWithReplay(c: Crypto, st: LedgerState, ops: seq<Operation>)
    requires LedgerInv(c, st)
    ensures var end := Run(c, st, ops);
            && LedgerInv(c, end) && st.blocks <= end.blocks
            && end.utxos == Replay(end.blocks) && end.index == IndexOf(end.blocks)
            && Loaded(BlocksToJson(end.blocks)) == end
    decreases |ops|
  {
    if ops == [] {
      LoadSaved(c, st);
    } else {
      ExecuteKeepsInv(c, st, ops[0]);
      EveryRunAgreesWithReplay(c, Execute(c, st, ops[0]), ops[1..]);
    }
  }

  lemma {:induction false} DonePrefixIs<T>(results: seq<Try<T>>, values: seq<T>)
    requires |values| < |results| && results[|values|].Threw?
    requires forall i :: 0 <= i < |values| ==> results[i] == Done(values[i])
    ensures DonePrefix(results) == values
  {
    if values != [] {
      DonePrefixIs(results[1..], values[1..]);
      assert [values[0]] + values[1..] == values;
    }
  }

  /** A file whose next item after some blocks does not decode leaves these blocks and no unspent outputs,
      which agrees with a replay exactly if the blocks leave nothing unspent. */
  lemma BrokenFile(blocks: seq<Block>, broken: Json, rest: seq<Json>)
    requires BlockFromJson(broken).Threw?
    ensures var st := Loaded(BlocksToJson(blocks) + [broken] + rest);
            && st.blocks == blocks && st.utxos == map[] && st.index == IndexOf(blocks)
            && (st == StateOf(blocks) <==> Replay(blocks) == map[])
  {
    var items := BlocksToJson(blocks) + [broken] + rest;
    forall i | 0 <= i < |blocks| ensures Decoded(items)[i] == Done(blocks[i]) {
      BlockRoundTrip(blocks[i]);
      assert items[i] == BlockToJson(blocks[i]);
    }
    assert items[|blocks|] == broken;
    DonePrefixIs(Decoded(items), blocks);
  }

  /** `init` on a chain without blocks starts it with a genesis block of that time. */
  lemma InitStartsChain(c: Crypto, now: uint64)
    ensures |Execute(c, EMPTY, Operation.Init(now)).blocks| == 1
    ensures Execute(c, EMPTY, Operation.Init(now)).blocks[0].header.timestamp == now
    ensures LedgerInv(c, Execute(c, EMPTY, Operation.Init(now)))
  {
    InitEstablishes(c, now);
  }

  /** Rebuilding makes the state agree with a replay again. */
  lemma RebuildRepairs(c: Crypto, blocks: seq<Block>, broken: Json, rest: seq<Json>)
    requires BlockFromJson(broken).Threw?
    ensures Execute(c, Loaded(BlocksToJson(blocks) + [broken] + rest), Rebuild) == StateOf(blocks)
  {
    BrokenFile(blocks, broken, rest);
  }
}
