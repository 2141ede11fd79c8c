/** Chains that do not extend one another: hash-chain binding, forks, and separate starts. */
module Forks {
  import opened Words
  import opened Decimals
  import opened Crypto
  import opened Blocks
  import opened Json
  import opened Ledger
  import opened History
  import opened Persistence
  import opened Nodes
  import opened Sync

  lemma IndexIsPosition(c: Crypto, blocks: seq<Block>, i: nat)
    requires WellBuilt(c, blocks) && i < |blocks| && i < TWO64
    ensures blocks[i].header.index == i
  {
    ChainLinked(c, blocks, i);
    WrapSmall(i);
  }

  /** Not the next block: it has another position, or another block before it. */
  predicate Foreign(latest: Block, b: Block) {
    && latest.header.index + 1 < TWO64
    && (b.header.index == latest.header.index + 1 ==> b.header.previousHash != latest.hash)
  }

  lemma ForeignHeaderIsRejected(c: Crypto, latest: Block, b: Block)
    requires Foreign(latest, b)
    ensures CheckHeader(c, latest, b) == Reject
  {
    WrapSmall(latest.header.index + 1);
  }

  lemma ForeignBlockIsTurnedAway(c: Crypto, st: LedgerState, b: Block, item: Json)
    requires st.blocks != [] && Foreign(st.blocks[|st.blocks| - 1], b) && item == BlockToJson(b)
    ensures TurnedAway(c, st, item)
  {
    BlockRoundTrip(b);
    var latest := st.blocks[|st.blocks| - 1];
    ForeignHeaderIsRejected(c, latest, b);
  }

  lemma ForkedBlockIsForeign(c: Crypto, mine: seq<Block>, blocks: seq<Block>, i: nat)
    requires WellBuilt(c, mine) && WellBuilt(c, blocks) && |mine| < TWO64 && |blocks| < TWO64 && i < |blocks|
    requires |mine| <= |blocks| ==> blocks[|mine| - 1].hash != mine[|mine| - 1].hash
    ensures Foreign(mine[|mine| - 1], blocks[i])
  {
    IndexIsPosition(c, mine, |mine| - 1);
    IndexIsPosition(c, blocks, i);
    ChainLinked(c, blocks, i);
  }

  /** There is no reorganisation: a peer whose chain carries another hash at the node's height can send
      whatever part of it, the node keeps its own chain. */
  lemma ForkIsNeverHealed(c: Crypto, st: LedgerState, blocks: seq<Block>, from: nat)
    requires LedgerInv(c, st) && WellBuilt(c, blocks) && |st.blocks| < TWO64 && |blocks| < TWO64 && from <= |blocks|
    requires |st.blocks| <= |blocks| ==> blocks[|st.blocks| - 1].hash != st.blocks[|st.blocks| - 1].hash
    ensures SyncAll(c, st, BlocksToJson(blocks[from..])) == st
  {
    var items := BlocksToJson(blocks[from..]);
    forall i | 0 <= i < |items| ensures TurnedAway(c, st, items[i]) {
      ForkedBlockIsForeign(c, st.blocks, blocks, from + i);
      ForeignBlockIsTurnedAway(c, st, blocks[from + i], items[i]);
    }
    RejectedBlocksChangeNothing(c, st, items);
  }

  function GenesisText(c: Crypto, now: uint64): string {
    SerializeBlock(GenesisBlock(c, now))
  }

  lemma GenesisTextParts(c: Crypto, now: uint64)
    ensures var tail := "0" + DoubleSha256(c, "") + "1" + "genesis";
            && |tail| == 73
            && GenesisText(c, now) == "0" + NullHash() + Decimal(now) + tail
            && GenesisBlock(c, now).hash == DoubleSha256(c, GenesisText(c, now))
  {
    var g := GenesisBlock(c, now);
    assert SerializeBlock(g) == SerializeBlock(g.(hash := ""));
    assert TxIds(g.transactions) == [];
  }

  // ----- hash-chain binding -----

  /** Walk down two chains from position `i` to the first pair of blocks with different texts. */
  function FindFork(xs: seq<Block>, ys: seq<Block>, i: nat): (string, string)
    requires i < |xs| && i < |ys|
    decreases i
  {
    var pair := (SerializeBlock(xs[i]), SerializeBlock(ys[i]));
    if i == 0 || pair.0 != pair.1 then pair else FindFork(xs, ys, i - 1)
  }

  lemma TextStart(b: Block)
    ensures Decimal(b.header.index) + b.header.previousHash <= SerializeBlock(b)
  {
    var h := b.header;
    var rest := Decimal(h.timestamp) + Decimal(h.nonce) + h.merkleRoot + Decimal(h.difficulty) + h.minerAddress +
                Concat(TxIds(b.transactions));
    assert SerializeBlock(b) == Decimal(h.index) + h.previousHash + rest;
  }

  /** Blocks of one position with equal texts name the same previous block. */
  lemma EqualTextsEqualPrevious(x: Block, y: Block)
    requires x.header.index == y.header.index && |x.header.previousHash| == |y.header.previousHash|
    requires SerializeBlock(x) == SerializeBlock(y)
    ensures x.header.previousHash == y.header.previousHash
  {
    TextStart(x);
    TextStart(y);
    var m, n := |Decimal(x.header.index)|, |Decimal(x.header.index)| + |x.header.previousHash|;
    assert x.header.previousHash == SerializeBlock(x)[m..n];
    assert y.header.previousHash == SerializeBlock(y)[m..n];
  }

  lemma EqualTextsBelow(c: Crypto, xs: seq<Block>, ys: seq<Block>, i: nat)
    requires WellBuilt(c, xs) && WellBuilt(c, ys) && 0 < i < |xs| && i < |ys| && i < TWO64
    requires SerializeBlock(xs[i]) == SerializeBlock(ys[i])
    ensures xs[i - 1].hash == ys[i - 1].hash
  {
    IndexIsPosition(c, xs, i);
    IndexIsPosition(c, ys, i);
    ChainLinked(c, xs, i);
    ChainLinked(c, ys, i);
    ChainLinked(c, xs, i - 1);
    ChainLinked(c, ys, i - 1);
    EqualTextsEqualPrevious(xs[i], ys[i]);
  }

  /** A hash binds everything below it: two chains with one hash at position `i` have the same hash and
      the same hashed text at every lower position, or the search finds a collision. */
  lemma {:induction false} HashBindsChain(c: Crypto, xs: seq<Block>, ys: seq<Block>, i: nat, j: nat)
    requires WellBuilt(c, xs) && WellBuilt(c, ys) && j <= i < |xs| && i < |ys| && i < TWO64
    requires xs[i].hash == ys[i].hash
    ensures (xs[j].hash == ys[j].hash && SerializeBlock(xs[j]) == SerializeBlock(ys[j])) ||
            Collides(c, FindFork(xs, ys, i))
    decreases i
  {
    ChainLinked(c, xs, i);
    ChainLinked(c, ys, i);
    if SerializeBlock(xs[i]) == SerializeBlock(ys[i]) && j < i {
      EqualTextsBelow(c, xs, ys, i);
      HashBindsChain(c, xs, ys, i - 1, j);
    }
  }

  /** Chains with different genesis times that have one hash at position `i` hold a collision. */
  lemma SeparateChainsCollide(c: Crypto, xs: seq<Block>, ys: seq<Block>, i: nat)
    requires WellBuilt(c, xs) && WellBuilt(c, ys) && i < |xs| && i < |ys| && i < TWO64
    requires xs[0].header.timestamp != ys[0].header.timestamp && xs[i].hash == ys[i].hash
    ensures Collides(c, FindFork(xs, ys, i))
  {
    HashBindsChain(c, xs, ys, i, 0);
    GenesisTextsDiffer(c, xs[0].header.timestamp, ys[0].header.timestamp);
  }

  lemma GenesisTextsDiffer(c: Crypto, now: uint64, later: uint64)
    requires now != later
    ensures GenesisText(c, now) != GenesisText(c, later)
  {
    GenesisTextParts(c, now);
    GenesisTextParts(c, later);
    var x, y := GenesisText(c, now), GenesisText(c, later);
    if x == y {
      var m, n := |Decimal(now)|, |Decimal(later)|;
      assert |x| == m + 138 && |y| == n + 138;
      assert Decimal(now) == x[65..65 + m] == y[65..65 + n] == Decimal(later);
      DecimalInjective(now, later);
    }
  }

  /** Genesis blocks of different seconds have different hashes, or their texts collide. */
  lemma GenesisHashesDiffer(c: Crypto, now: uint64, later: uint64)
    requires now != later
    ensures GenesisBlock(c, now).hash != GenesisBlock(c, later).hash ||
            Collides(c, (GenesisText(c, now), GenesisText(c, later)))
  {
    GenesisTextParts(c, now);
    GenesisTextParts(c, later);
    GenesisTextsDiffer(c, now, later);
  }

  /** Chains of any length that started from genesis blocks of different seconds: whatever part of the
      other chain arrives, nothing of it is taken, unless the hash collides. */
  lemma SeparateChainsStayApart(c: Crypto, st: LedgerState, blocks: seq<Block>, from: nat)
    requires LedgerInv(c, st) && WellBuilt(c, blocks) && |st.blocks| < TWO64 && |blocks| < TWO64 && from <= |blocks|
    requires st.blocks[0].header.timestamp != blocks[0].header.timestamp
    ensures SyncAll(c, st, BlocksToJson(blocks[from..])) == st ||
            (|st.blocks| <= |blocks| && Collides(c, FindFork(st.blocks, blocks, |st.blocks| - 1)))
  {
    var k := |st.blocks| - 1;
    if k < |blocks| && blocks[k].hash == st.blocks[k].hash {
      SeparateChainsCollide(c, st.blocks, blocks, k);
    } else {
      ForkIsNeverHealed(c, st, blocks, from);
    }
  }

  // ----- what an exchange changes -----

  lemma OtherPositionIsForeign(c: Crypto, mine: seq<Block>, blocks: seq<Block>, i: nat)
    requires WellBuilt(c, mine) && WellBuilt(c, blocks) && |mine| < TWO64 && |blocks| < TWO64
    requires i < |blocks| && i != |mine|
    ensures Foreign(mine[|mine| - 1], blocks[i])
  {
    IndexIsPosition(c, mine, |mine| - 1);
    IndexIsPosition(c, blocks, i);
  }

  lemma SuffixStep(blocks: seq<Block>, i: nat)
    requires i < |blocks|
    ensures BlocksToJson(blocks[i..]) != [] && BlocksToJson(blocks[i..])[0] == BlockToJson(blocks[i])
    ensures BlockFromJson(BlocksToJson(blocks[i..])[0]) == Done(blocks[i])
    ensures BlocksToJson(blocks[i..])[1..] == BlocksToJson(blocks[i + 1..])
  {
    BlockRoundTrip(blocks[i]);
  }

  lemma SkipTurnedAway(c: Crypto, st: LedgerState, items: seq<Json>)
    requires items != [] && TurnedAway(c, st, items[0])
    ensures SyncAll(c, st, items) == SyncAll(c, st, items[1..])
  {
  }

  lemma OtherIsTurnedAway(c: Crypto, st: LedgerState, blocks: seq<Block>, i: nat, item: Json)
    requires LedgerInv(c, st) && WellBuilt(c, blocks) && |st.blocks| < TWO64 && |blocks| < TWO64
    requires i < |blocks| && i != |st.blocks| && item == BlockToJson(blocks[i])
    ensures TurnedAway(c, st, item)
  {
    OtherPositionIsForeign(c, st.blocks, blocks, i);
    ForeignBlockIsTurnedAway(c, st, blocks[i], item);
  }

  /** A block of another position is passed over. */
  lemma SkipOther(c: Crypto, st: LedgerState, blocks: seq<Block>, i: nat, items: seq<Json>)
    requires LedgerInv(c, st) && WellBuilt(c, blocks) && |st.blocks| < TWO64 && |blocks| < TWO64
    requires i < |blocks| && i != |st.blocks| && items == BlocksToJson(blocks[i..])
    ensures SyncAll(c, st, items) == SyncAll(c, st, BlocksToJson(blocks[i + 1..]))
  {
    SuffixStep(blocks, i);
    OtherIsTurnedAway(c, st, blocks, i, items[0]);
    SkipTurnedAway(c, st, items);
  }

  /** The block at the next position is taken, passed over, or throws. */
  lemma AtNext(c: Crypto, st: LedgerState, blocks: seq<Block>, i: nat)
    requires i < |blocks|
    ensures SyncAll(c, st, BlocksToJson(blocks[i..])) ==
            if CheckBlock(c, st, blocks[i]).Throw? then st
            else SyncAll(c, AddBlock(c, st, blocks[i]), BlocksToJson(blocks[i + 1..]))
  {
    SuffixStep(blocks, i);
  }

  /** A block that does not fit leaves the rest of the answer, or ends it. */
  lemma MisfitIsPassed(c: Crypto, st: LedgerState, blocks: seq<Block>, i: nat)
    requires LedgerInv(c, st) && WellBuilt(c, blocks) && |st.blocks| < TWO64 && |blocks| < TWO64 && i < |blocks|
    requires i == |st.blocks| ==> !CheckBlock(c, st, blocks[i]).Accept?
    ensures SyncAll(c, st, BlocksToJson(blocks[i..])) == st ||
            SyncAll(c, st, BlocksToJson(blocks[i..])) == SyncAll(c, st, BlocksToJson(blocks[i + 1..]))
  {
    if i == |st.blocks| {
      AtNext(c, st, blocks, i);
    } else {
      SkipOther(c, st, blocks, i, BlocksToJson(blocks[i..]));
    }
  }

  /** If the peer's next block does not fit, nothing in its answer does. */
  lemma {:induction false} NothingFits(c: Crypto, st: LedgerState, blocks: seq<Block>, from: nat)
    requires LedgerInv(c, st) && WellBuilt(c, blocks) && |st.blocks| < TWO64 && |blocks| < TWO64 && from <= |blocks|
    requires |st.blocks| < |blocks| ==> !CheckBlock(c, st, blocks[|st.blocks|]).Accept?
    ensures SyncAll(c, st, BlocksToJson(blocks[from..])) == st
    decreases |blocks| - from
  {
    if from == |blocks| {
      assert BlocksToJson(blocks[from..]) == [];
    } else {
      NothingFits(c, st, blocks, from + 1);
      MisfitIsPassed(c, st, blocks, from);
    }
  }

  /** If it does fit, the chain grows by it and perhaps more. */
  lemma NextFits(c: Crypto, st: LedgerState, blocks: seq<Block>)
    requires LedgerInv(c, st) && WellBuilt(c, blocks) && |st.blocks| < |blocks| < TWO64
    requires CheckBlock(c, st, blocks[|st.blocks|]).Accept?
    ensures SyncAll(c, st, BlocksToJson(blocks[|st.blocks| - 1..])) ==
            SyncAll(c, AddBlock(c, st, blocks[|st.blocks|]), BlocksToJson(blocks[|st.blocks| + 1..]))
  {
    SkipOther(c, st, blocks, |st.blocks| - 1, BlocksToJson(blocks[|st.blocks| - 1..]));
    AtNext(c, st, blocks, |st.blocks|);
  }

  lemma TakenBlocksStay(c: Crypto, st: LedgerState, b: Block, items: seq<Json>)
    requires LedgerInv(c, st) && CheckBlock(c, st, b).Accept?
    ensures |SyncAll(c, AddBlock(c, st, b), items).blocks| > |st.blocks|
  {
    AddKeepsInv(c, st, b);
    SyncKeepsInv(c, AddBlock(c, st, b), items);
  }

  /** From where a node of height `k - 1` is answered. */
  function AnsweredFrom(k: nat, theirs: nat): nat
    requires k > 0
  {
    if k - 1 <= theirs then k - 1 else theirs
  }

  lemma SyncChangesIff(c: Crypto, st: LedgerState, blocks: seq<Block>)
    requires LedgerInv(c, st) && WellBuilt(c, blocks) && |st.blocks| < TWO64 && |blocks| < TWO64
    ensures SyncAll(c, st, BlocksToJson(blocks[AnsweredFrom(|st.blocks|, |blocks|)..])) != st <==>
            |st.blocks| < |blocks| && CheckBlock(c, st, blocks[|st.blocks|]).Accept?
  {
    var k := |st.blocks|;
    if k < |blocks| && CheckBlock(c, st, blocks[k]).Accept? {
      NextFits(c, st, blocks);
      TakenBlocksStay(c, st, blocks[k], BlocksToJson(blocks[k + 1..]));
    } else {
      NothingFits(c, st, blocks, AnsweredFrom(k, |blocks|));
    }
  }

  lemma OnlyLedger(node: NodeState, st: LedgerState, other: NodeState)
    requires other == node.(ledger := st)
    ensures other != node <==> st != node.ledger
  {
  }

  lemma ExchangeSendsSlice(c: Crypto, behind: NodeState, ahead: NodeState, socket: nat, from: nat)
    requires behind.ledger.blocks != [] && |behind.ledger.blocks| < TWO64
    requires from == AnsweredFrom(|behind.ledger.blocks|, |ahead.ledger.blocks|)
    ensures Exchange(c, behind, ahead, socket) ==
            behind.(ledger := SyncAll(c, behind.ledger, BlocksToJson(ahead.ledger.blocks[from..])))
  {
    WrapSmall(HeightOf(behind.ledger));
    var height := WireHeight(behind.ledger);
    ExchangeIsSync(c, behind, ahead, socket, height);
    assert BlocksFrom(ahead.ledger, height) == ahead.ledger.blocks[from..];
  }

  /** Two nodes that made their own genesis blocks in different seconds take over nothing from each other,
      however long their chains have grown, unless the hash collides. */
  lemma SeparateStartsNeverConverge(c: Crypto, behind: NodeState, ahead: NodeState, socket: nat)
    requires LedgerInv(c, behind.ledger) && |behind.ledger.blocks| < TWO64
    requires LedgerInv(c, ahead.ledger) && |ahead.ledger.blocks| < TWO64
    requires behind.ledger.blocks[0].header.timestamp != ahead.ledger.blocks[0].header.timestamp
    ensures Exchange(c, behind, ahead, socket) == behind ||
            (|behind.ledger.blocks| <= |ahead.ledger.blocks| &&
             Collides(c, FindFork(behind.ledger.blocks, ahead.ledger.blocks, |behind.ledger.blocks| - 1)))
  {
    var st, blocks := behind.ledger, ahead.ledger.blocks;
    var from := AnsweredFrom(|st.blocks|, |blocks|);
    ExchangeSendsSlice(c, behind, ahead, socket, from);
    SeparateChainsStayApart(c, st, blocks, from);
    OnlyLedger(behind, SyncAll(c, st, BlocksToJson(blocks[from..])), Exchange(c, behind, ahead, socket));
  }

  /** An exchange changes the asking node exactly when the peer has a block at the node's next position
      and that block passes `add_block`. */
  lemma ExchangeChangesIff(c: Crypto, behind: NodeState, ahead: NodeState, socket: nat)
    requires LedgerInv(c, behind.ledger) && |behind.ledger.blocks| < TWO64
    requires LedgerInv(c, ahead.ledger) && |ahead.ledger.blocks| < TWO64
    ensures var k := |behind.ledger.blocks|;
            Exchange(c, behind, ahead, socket) != behind <==>
            k < |ahead.ledger.blocks| && CheckBlock(c, behind.ledger, ahead.ledger.blocks[k]).Accept?
  {
    var st, blocks := behind.ledger, ahead.ledger.blocks;
    var from := AnsweredFrom(|st.blocks|, |blocks|);
    ExchangeSendsSlice(c, behind, ahead, socket, from);
    SyncChangesIff(c, st, blocks);
    OnlyLedger(behind, SyncAll(c, st, BlocksToJson(blocks[from..])), Exchange(c, behind, ahead, socket));
  }

  // ----- a third chain -----

  function OtherSource(b: Block, energySource: string): Block {
    b.(header := b.header.(energySource := energySource))
  }

  lemma VariantIsTakenAlike(c: Crypto, st: LedgerState, b: Block, energySource: string)
    ensures CheckBlock(c, st, OtherSource(b, energySource)) == CheckBlock(c, st, b)
  {
    assert SerializeBlock(OtherSource(b, energySource)) == SerializeBlock(b);
  }

  /** A chain may end in either variant. */
  lemma VariantIsBuilt(c: Crypto, front: seq<Block>, b: Block, energySource: string)
    requires front != [] && WellBuilt(c, front + [b])
    ensures WellBuilt(c, front + [OtherSource(b, energySource)])
  {
    WellBuiltPrefix(c, front + [b], |front|);
    assert (front + [b])[..|front|] == front;
    WellBuiltAppend(c, front, b);
    VariantIsTakenAlike(c, StateOf(front), b, energySource);
    WellBuiltAppend(c, front, OtherSource(b, energySource));
  }

  lemma SameReplay(front: seq<Block>, b: Block, energySource: string)
    ensures Replay(front + [OtherSource(b, energySource)]) == Replay(front + [b])
  {
    assert (front + [b])[..|front|] == front && (front + [OtherSource(b, energySource)])[..|front|] == front;
  }

  lemma NextFitsVariant(c: Crypto, front: seq<Block>, b: Block, n: Block, energySource: string)
    requires WellBuilt(c, front + [b] + [n])
    ensures CheckBlock(c, StateOf(front + [OtherSource(b, energySource)]), n).Accept?
  {
    var longer := front + [b];
    WellBuiltPrefix(c, longer + [n], |longer|);
    assert (longer + [n])[..|longer|] == longer;
    WellBuiltAppend(c, longer, n);
    SameReplay(front, b, energySource);
    SameDecision(c, StateOf(longer), StateOf(front + [OtherSource(b, energySource)]), n);
  }

  /** The decision looks at the latest block's index and hash and at the UTXO map only. */
  lemma SameDecision(c: Crypto, st: LedgerState, st': LedgerState, b: Block)
    requires st.blocks != [] && st'.blocks != [] && st.utxos == st'.utxos
    requires st.blocks[|st.blocks| - 1].hash == st'.blocks[|st'.blocks| - 1].hash
    requires st.blocks[|st.blocks| - 1].header.index == st'.blocks[|st'.blocks| - 1].header.index
    ensures CheckBlock(c, st, b) == CheckBlock(c, st', b)
  {
  }

  /** From a peer with one block more, a node takes that block if it fits. */
  lemma ExchangeTakesLast(c: Crypto, behind: NodeState, ahead: NodeState, socket: nat, k: nat)
    requires LedgerInv(c, behind.ledger) && WellBuilt(c, ahead.ledger.blocks) && |ahead.ledger.blocks| < TWO64
    requires |behind.ledger.blocks| == k && |ahead.ledger.blocks| == k + 1
    requires CheckBlock(c, behind.ledger, ahead.ledger.blocks[k]).Accept?
    ensures Exchange(c, behind, ahead, socket).ledger.blocks == behind.ledger.blocks + [ahead.ledger.blocks[k]]
  {
    var blocks := ahead.ledger.blocks;
    ExchangeSendsSlice(c, behind, ahead, socket, k - 1);
    NextFits(c, behind.ledger, blocks);
    assert BlocksToJson(blocks[k + 1..]) == [];
  }

  /** The energy report is not hashed, so a node whose latest block differs from the peer's in its energy
      source only takes the peer's next block, and ends on a chain that neither of them had. */
  lemma VariantTipTakesNextBlock(c: Crypto, behind: NodeState, ahead: NodeState, socket: nat,
                                 front: seq<Block>, b: Block, n: Block, energySource: string)
    requires LedgerInv(c, ahead.ledger) && |ahead.ledger.blocks| < TWO64
    requires front != [] && ahead.ledger.blocks == front + [b] + [n]
    requires behind.ledger == StateOf(front + [OtherSource(b, energySource)])
    ensures LedgerInv(c, behind.ledger)
    ensures Exchange(c, behind, ahead, socket).ledger.blocks == behind.ledger.blocks + [n]
  {
    WellBuiltPrefix(c, ahead.ledger.blocks, |front| + 1);
    assert ahead.ledger.blocks[..|front| + 1] == front + [b];
    VariantIsBuilt(c, front, b, energySource);
    NextFitsVariant(c, front, b, n, energySource);
    ExchangeTakesLast(c, behind, ahead, socket, |front| + 1);
  }
}
