/** Catching up from a peer whose chain extends one's own. */
module Sync {
  import opened Words
  import opened Crypto
  import opened Blocks
  import opened Json
  import opened Ledger
  import opened History
  import opened Persistence
  import opened Nodes

  /** On the first `k` blocks of a well-built chain, block `j` is taken exactly when it is the next
      one; any other block of the chain is turned away by its index. */
  lemma OnlyTheNextBlockFits(c: Crypto, blocks: seq<Block>, k: nat, j: nat)
    requires WellBuilt(c, blocks) && |blocks| < TWO64 && 0 < k <= |blocks| && j < |blocks|
    ensures HeaderVerdict(c, StateOf(blocks[..k]), blocks[j]) == if j == k then Accept else Reject
    ensures CheckBlock(c, StateOf(blocks[..k]), blocks[j]) == if j == k then Accept else Reject
  {
    ChainLinked(c, blocks, k - 1);
    ChainLinked(c, blocks, j);
    WrapSmall(j);
    WrapSmall(k - 1);
    WrapSmall(k);
    assert blocks[..k][k - 1] == blocks[k - 1];
    if j == k {
      assert AcceptedAt(c, blocks, k);
    }
  }

  lemma FirstBlockFitsEmpty(c: Crypto, blocks: seq<Block>)
    requires WellBuilt(c, blocks)
    ensures AddBlock(c, StateOf([]), blocks[0]) == StateOf(blocks[..1])
  {
    StateOfAppend([], blocks[0]);
    assert blocks[..1] == [] + [blocks[0]];
  }

  lemma NextBlockExtends(c: Crypto, blocks: seq<Block>, k: nat)
    requires WellBuilt(c, blocks) && |blocks| < TWO64 && 0 < k < |blocks|
    ensures AddBlock(c, StateOf(blocks[..k]), blocks[k]) == StateOf(blocks[..k + 1])
  {
    OnlyTheNextBlockFits(c, blocks, k, k);
    StateOfAppend(blocks[..k], blocks[k]);
    assert blocks[..k + 1] == blocks[..k] + [blocks[k]];
  }

  lemma SliceStep(blocks: seq<Block>, j: nat, upto: nat)
    requires j < upto <= |blocks|
    ensures BlocksToJson(blocks[j..upto]) != []
    ensures BlockFromJson(BlocksToJson(blocks[j..upto])[0]) == Done(blocks[j])
    ensures BlocksToJson(blocks[j..upto])[1..] == BlocksToJson(blocks[j + 1..upto])
  {
    BlockRoundTrip(blocks[j]);
    assert BlocksToJson(blocks[j..upto])[1..] == BlocksToJson(blocks[j + 1..upto]);
  }

  /** One step through a response: a taken block moves the node on, a rejected one leaves it. */
  lemma SyncStep(c: Crypto, st: LedgerState, items: seq<Json>, b: Block)
    requires items != [] && BlockFromJson(items[0]) == Done(b) && !CheckBlock(c, st, b).Throw?
    ensures SyncAll(c, st, items) == SyncAll(c, AddBlock(c, st, b), items[1..])
    ensures CheckBlock(c, st, b).Reject? ==> AddBlock(c, st, b) == st
  {
  }

  lemma EmptySlice(c: Crypto, blocks: seq<Block>, st: LedgerState, j: nat)
    requires j <= |blocks|
    ensures SyncAll(c, st, BlocksToJson(blocks[j..j])) == st
  {
    assert BlocksToJson(blocks[j..j]) == [];
  }

  lemma SkipBlock(c: Crypto, blocks: seq<Block>, k: nat, j: nat, upto: nat)
    requires WellBuilt(c, blocks) && |blocks| < TWO64 && 0 < k <= |blocks| && j < upto <= |blocks| && j != k
    ensures SyncAll(c, StateOf(blocks[..k]), BlocksToJson(blocks[j..upto])) ==
            SyncAll(c, StateOf(blocks[..k]), BlocksToJson(blocks[j + 1..upto]))
  {
    SliceStep(blocks, j, upto);
    OnlyTheNextBlockFits(c, blocks, k, j);
    SyncStep(c, StateOf(blocks[..k]), BlocksToJson(blocks[j..upto]), blocks[j]);
  }

  /** A response with blocks `j` to `upto` brings a node that holds the first `k >= j` blocks, or none
      when `j` is 0, to the longer of the two prefixes; blocks it already has are turned away. */
  lemma {:induction false} SliceExtends(c: Crypto, blocks: seq<Block>, k: nat, j: nat, upto: nat)
    requires WellBuilt(c, blocks) && |blocks| < TWO64 && j <= k <= |blocks| && j <= upto <= |blocks|
    ensures SyncAll(c, StateOf(blocks[..k]), BlocksToJson(blocks[j..upto])) == StateOf(blocks[..Max(k, upto)])
    decreases upto - j
  {
    if j < upto {
      var st, items := StateOf(blocks[..k]), BlocksToJson(blocks[j..upto]);
      SliceStep(blocks, j, upto);
      if k == 0 {
        FirstBlockFitsEmpty(c, blocks);
        assert blocks[..0] == [];
        SyncStep(c, st, items, blocks[0]);
        SliceExtends(c, blocks, 1, 1, upto);
      } else {
        if j == k {
          OnlyTheNextBlockFits(c, blocks, k, j);
          SyncStep(c, st, items, blocks[j]);
          NextBlockExtends(c, blocks, k);
          SliceExtends(c, blocks, k + 1, j + 1, upto);
        } else {
          SkipBlock(c, blocks, k, j, upto);
          SliceExtends(c, blocks, k, j + 1, upto);
        }
      }
    } else {
      EmptySlice(c, blocks, StateOf(blocks[..k]), j);
    }
  }

  predicate TurnedAway(c: Crypto, st: LedgerState, item: Json) {
    BlockFromJson(item).Done? && CheckBlock(c, st, BlockFromJson(item).value).Reject?
  }

  lemma {:induction false} RejectedBlocksChangeNothing(c: Crypto, st: LedgerState, items: seq<Json>)
    requires forall i :: 0 <= i < |items| ==> TurnedAway(c, st, items[i])
    ensures SyncAll(c, st, items) == st
    decreases |items|
  {
    if items != [] {
      assert TurnedAway(c, st, items[0]);
      RejectedBlocksChangeNothing(c, st, items[1..]);
    }
  }

  lemma OtherBlocksAreTurnedAway(c: Crypto, blocks: seq<Block>, k: nat, st: LedgerState, i: nat, item: Json)
    requires WellBuilt(c, blocks) && |blocks| < TWO64 && 0 < k <= |blocks| && i < |blocks| && i != k
    requires st == StateOf(blocks[..k]) && item == BlockToJson(blocks[i])
    ensures TurnedAway(c, st, item)
  {
    BlockRoundTrip(blocks[i]);
    OnlyTheNextBlockFits(c, blocks, k, i);
  }

  /** A response that starts beyond the node's tip changes nothing. */
  lemma SliceBeyondTip(c: Crypto, blocks: seq<Block>, k: nat, j: nat, upto: nat)
    requires WellBuilt(c, blocks) && |blocks| < TWO64 && 0 < k < j <= upto <= |blocks|
    ensures SyncAll(c, StateOf(blocks[..k]), BlocksToJson(blocks[j..upto])) == StateOf(blocks[..k])
  {
    var st, items := StateOf(blocks[..k]), BlocksToJson(blocks[j..upto]);
    forall i | 0 <= i < |items| ensures TurnedAway(c, st, items[i]) {
      OtherBlocksAreTurnedAway(c, blocks, k, st, j + i, items[i]);
    }
    RejectedBlocksChangeNothing(c, st, items);
  }

  /** One exchange: `behind` asks with its height, `ahead` answers, `behind` takes the answer. */
  function Exchange(c: Crypto, behind: NodeState, ahead: NodeState, socket: nat): NodeState {
    var request := SyncRequest(WireHeight(behind.ledger));
    var answer := Handle(c, ahead, request, socket).1[0].message;
    Handle(c, behind, answer, socket).0
  }

  lemma ExchangeIsSync(c: Crypto, behind: NodeState, ahead: NodeState, socket: nat, from: uint64)
    requires WireHeight(behind.ledger) == from
    ensures Exchange(c, behind, ahead, socket) ==
            behind.(ledger := SyncAll(c, behind.ledger, BlocksToJson(BlocksFrom(ahead.ledger, from))))
  {
  }

  /** After one exchange a node that held any prefix, even none, of its peer's chain holds that chain,
      with the same UTXO map and hash index; pool and peers are untouched. */
  lemma ExchangeConverges(c: Crypto, behind: NodeState, ahead: NodeState, k: nat, socket: nat)
    requires LedgerInv(c, ahead.ledger) && |ahead.ledger.blocks| < TWO64
    requires k <= |ahead.ledger.blocks| && behind.ledger == StateOf(ahead.ledger.blocks[..k])
    ensures Exchange(c, behind, ahead, socket) == behind.(ledger := ahead.ledger)
  {
    var blocks := ahead.ledger.blocks;
    var from := if k == 0 then 0 else k - 1;
    WrapSmall(from);
    ExchangeIsSync(c, behind, ahead, socket, from);
    assert blocks[from..|blocks|] == blocks[from..] && blocks[..|blocks|] == blocks;
    assert BlocksFrom(ahead.ledger, from) == blocks[from..|blocks|];
    SliceExtends(c, blocks, k, from, |blocks|);
  }

  /** To a node that has any block at all, the answer starts with a block that is always rejected. */
  lemma FirstBlockIsRejected(c: Crypto, behind: NodeState, ahead: NodeState, k: nat)
    requires LedgerInv(c, ahead.ledger) && |ahead.ledger.blocks| < TWO64
    requires 0 < k <= |ahead.ledger.blocks| && behind.ledger == StateOf(ahead.ledger.blocks[..k])
    ensures var sent := BlocksFrom(ahead.ledger, WireHeight(behind.ledger));
            sent != [] && sent[0] == ahead.ledger.blocks[k - 1] && CheckBlock(c, behind.ledger, sent[0]) == Reject
  {
    WrapSmall(k - 1);
    OnlyTheNextBlockFits(c, ahead.ledger.blocks, k, k - 1);
  }

  /** Asking again changes nothing. */
  lemma RepeatedExchangeChangesNothing(c: Crypto, behind: NodeState, ahead: NodeState, k: nat, socket: nat)
    requires LedgerInv(c, ahead.ledger) && |ahead.ledger.blocks| < TWO64
    requires k <= |ahead.ledger.blocks| && behind.ledger == StateOf(ahead.ledger.blocks[..k])
    ensures var once := Exchange(c, behind, ahead, socket);
            Exchange(c, once, ahead, socket) == once
  {
    ExchangeConverges(c, behind, ahead, k, socket);
    var blocks := ahead.ledger.blocks;
    assert blocks[..|blocks|] == blocks;
    ExchangeConverges(c, behind.(ledger := ahead.ledger), ahead, |blocks|, socket);
  }

  /** What a node does with a peer's answer to `get_height`. */
  function AskAfterHeight(c: Crypto, behind: NodeState, ahead: NodeState, socket: nat): seq<Send> {
    var answer := Handle(c, ahead, GetHeight, socket).1[0].message;
    Handle(c, behind, answer, socket).1
  }

  /** A node asks for blocks exactly when the peer has more of them, except that an empty node does not
      ask a peer that holds the genesis block only. */
  lemma HeightAsksIffBehind(c: Crypto, behind: NodeState, ahead: NodeState, socket: nat)
    requires |behind.ledger.blocks| < TWO64 && |ahead.ledger.blocks| < TWO64
    ensures AskAfterHeight(c, behind, ahead, socket) ==
            if |behind.ledger.blocks| < |ahead.ledger.blocks| && |ahead.ledger.blocks| > 1
            then [Send(socket, SyncRequest(WireHeight(behind.ledger)))] else []
  {
    WrapSmall(HeightOf(behind.ledger));
    WrapSmall(HeightOf(ahead.ledger));
  }

  /** A node that holds nothing, or a chain built by `add_block`. */
  ghost predicate EmptyOrBuilt(c: Crypto, st: LedgerState) {
    st == EMPTY || LedgerInv(c, st)
  }

  /** An exchange ends in agreement exactly when the asking node's chain, empty or not, is a prefix of the
      answering node's chain. */
  lemma ExchangeConvergesIff(c: Crypto, behind: NodeState, ahead: NodeState, socket: nat)
    requires EmptyOrBuilt(c, behind.ledger) && LedgerInv(c, ahead.ledger) && |ahead.ledger.blocks| < TWO64
    ensures Exchange(c, behind, ahead, socket).ledger == ahead.ledger <==> behind.ledger.blocks <= ahead.ledger.blocks
  {
    if behind.ledger.blocks <= ahead.ledger.blocks {
      var k := |behind.ledger.blocks|;
      assert behind.ledger.blocks == ahead.ledger.blocks[..k];
      ExchangeConverges(c, behind, ahead, k, socket);
    } else {
      var from := WireHeight(behind.ledger);
      ExchangeIsSync(c, behind, ahead, socket, from);
      SyncKeepsInv(c, behind.ledger, BlocksToJson(BlocksFrom(ahead.ledger, from)));
    }
  }

  /** A block that does not decode ends the response: what comes behind it is not looked at. */
  lemma {:induction false} SyncEndsAtBroken(c: Crypto, st: LedgerState, front: seq<Json>, broken: Json, rest: seq<Json>)
    requires BlockFromJson(broken).Threw?
    ensures SyncAll(c, st, front + [broken] + rest) == SyncAll(c, st, front)
    decreases |front|
  {
    var items := front + [broken] + rest;
    if front != [] {
      assert items[1..] == front[1..] + [broken] + rest && items[0] == front[0];
      if BlockFromJson(front[0]).Done? {
        SyncEndsAtBroken(c, AddBlock(c, st, BlockFromJson(front[0]).value), front[1..], broken, rest);
      }
    } else {
      assert items[0] == broken;
    }
  }
}
