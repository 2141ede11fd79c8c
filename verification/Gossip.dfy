/** The replication protocol: nodes exchange messages over a network that may lose, duplicate, delay
    and reorder them; one node mines. */
module Gossip {
  import opened Words
  import opened Crypto
  import opened Blocks
  import opened Json
  import opened Ledger
  import opened History
  import opened Persistence
  import opened Mempools
  import opened Nodes
  import opened Sync

  /** A message on its way to a socket of a node. */
  datatype Envelope = Envelope(to: nat, socket: nat, message: Message)

  /** The other end of every connection: node and socket. */
  type Wiring = (nat, nat) -> (nat, nat)

  /** Any message in flight may be the next to arrive, so the order of `net` means nothing. */
  datatype World = World(nodes: seq<NodeState>, net: seq<Envelope>)

  datatype Event =
    | Deliver(i: nat)
    | Drop(i: nat)
    | Duplicate(i: nat)
    | Mine(block: Block)
    | Connect(node: nat, peer: Peer)
    | Inject(envelope: Envelope)

  function Post(wiring: Wiring, from: nat, sends: seq<Send>): seq<Envelope> {
    seq(|sends|, i requires 0 <= i < |sends| =>
      var (to, socket) := wiring(from, sends[i].socket);
      Envelope(to, socket, sends[i].message))
  }

  function Without(net: seq<Envelope>, i: nat): seq<Envelope>
    requires i < |net|
  {
    net[..i] + net[i + 1..]
  }

  /** Messages that users or foreign clients may put on the wire: anything that carries no block. */
  predicate CarriesNoBlock(m: Message) {
    !m.BlockMsg? && !m.SyncResponse?
  }

  function AfterDelivery(c: Crypto, wiring: Wiring, w: World, i: nat): World
    requires i < |w.net|
  {
    var e := w.net[i];
    if e.to < |w.nodes| then
      var (next, sends) := Handle(c, w.nodes[e.to], e.message, e.socket);
      World(w.nodes[e.to := next], Without(w.net, i) + Post(wiring, e.to, sends))
    else World(w.nodes, Without(w.net, i))
  }

  /** The miner adds its block, drops the confirmed transactions and tells all its peers. */
  function AfterMine(c: Crypto, wiring: Wiring, w: World, miner: nat, b: Block): World
    requires miner < |w.nodes|
  {
    var m := w.nodes[miner];
    var m' := m.(ledger := AddBlock(c, m.ledger, b), pool := RemoveAll(m.pool, b.transactions));
    World(w.nodes[miner := m'], w.net + Post(wiring, miner, Broadcast(m.peers, BlockMsg(BlockToJson(b)))))
  }

  predicate Next(c: Crypto, wiring: Wiring, miner: nat, w: World, event: Event, w': World)
    requires miner < |w.nodes|
  {
    match event
    case Deliver(i) => i < |w.net| && w' == AfterDelivery(c, wiring, w, i)
    case Drop(i) => i < |w.net| && w' == w.(net := Without(w.net, i))
    case Duplicate(i) => i < |w.net| && w' == w.(net := w.net + [w.net[i]])
    case Mine(b) =>
      && CheckBlock(c, w.nodes[miner].ledger, b).Accept? && |w.nodes[miner].ledger.blocks| + 1 < TWO64
      && w' == AfterMine(c, wiring, w, miner, b)
    case Connect(n, peer) =>
      && n < |w.nodes|
      && var (next, sends) := Connected(w.nodes[n], peer);
         w' == World(w.nodes[n := next], w.net + Post(wiring, n, sends))
    case Inject(e) => CarriesNoBlock(e.message) && w' == w.(net := w.net + [e])
  }

  // ----- the invariant -----

  /** The ledger is the replay of a non-empty prefix of the chain. */
  ghost predicate Follows(chain: seq<Block>, st: LedgerState) {
    0 < |st.blocks| <= |chain| && st == StateOf(chain[..|st.blocks|])
  }

  /** Blocks in the message are blocks of the chain. */
  ghost predicate Faithful(chain: seq<Block>, m: Message) {
    match m
    case BlockMsg(data) => exists i :: 0 <= i < |chain| && data == BlockToJson(chain[i])
    case SyncResponse(items) =>
      exists from, upto :: 0 <= from <= upto <= |chain| && items == BlocksToJson(chain[from..upto])
    case _ => true
  }

  ghost predicate AllFaithful(chain: seq<Block>, net: seq<Envelope>) {
    forall i :: 0 <= i < |net| ==> Faithful(chain, net[i].message)
  }

  ghost predicate AllFollow(chain: seq<Block>, nodes: seq<NodeState>) {
    forall n :: 0 <= n < |nodes| ==> Follows(chain, nodes[n].ledger)
  }

  function MinerChain(w: World, miner: nat): seq<Block>
    requires miner < |w.nodes|
  {
    w.nodes[miner].ledger.blocks
  }

  ghost predicate GossipInv(c: Crypto, miner: nat, w: World) {
    && miner < |w.nodes|
    && var chain := MinerChain(w, miner);
       WellBuilt(c, chain) && |chain| < TWO64 && AllFollow(chain, w.nodes) && AllFaithful(chain, w.net)
  }

  // ----- one node -----

  lemma BlocksFromIsSlice(chain: seq<Block>, k: nat, from: uint64)
    requires k <= |chain|
    ensures Faithful(chain, SyncResponse(BlocksToJson(BlocksFrom(StateOf(chain[..k]), from))))
  {
    var start := if from < k then from else k;
    assert BlocksFrom(StateOf(chain[..k]), from) == chain[start..k];
  }

  /** A block of the chain either extends the node by one block, and is then relayed, or is ignored. */
  lemma DeliverBlock(c: Crypto, chain: seq<Block>, st: NodeState, i: nat)
    requires WellBuilt(c, chain) && |chain| < TWO64 && Follows(chain, st.ledger) && i < |chain|
    ensures var (next, sends) := HandleBlock(c, st, BlockToJson(chain[i]));
            if i == |st.ledger.blocks| then
              next.ledger == StateOf(chain[..i + 1]) && next.peers == st.peers &&
              sends == Broadcast(st.peers, BlockMsg(BlockToJson(chain[i])))
            else next == st && sends == []
  {
    var k := |st.ledger.blocks|;
    BlockRoundTrip(chain[i]);
    OnlyTheNextBlockFits(c, chain, k, i);
    if i == k {
      NextBlockExtends(c, chain, k);
    }
  }

  /** A sync response of the chain leaves the node on the chain, no shorter than before. */
  lemma DeliverSync(c: Crypto, chain: seq<Block>, st: LedgerState, from: nat, upto: nat)
    requires WellBuilt(c, chain) && |chain| < TWO64 && Follows(chain, st) && from <= upto <= |chain|
    ensures var st' := SyncAll(c, st, BlocksToJson(chain[from..upto]));
            Follows(chain, st') && |st'.blocks| >= |st.blocks|
  {
    var k := |st.blocks|;
    if from <= k {
      SliceExtends(c, chain, k, from, upto);
      assert |StateOf(chain[..Max(k, upto)]).blocks| == Max(k, upto);
    } else {
      SliceBeyondTip(c, chain, k, from, upto);
    }
  }

  /** Handling a faithful message keeps the node on the chain and produces faithful messages. */
  lemma HandleKeepsFollowing(c: Crypto, chain: seq<Block>, st: NodeState, m: Message, socket: nat)
    requires WellBuilt(c, chain) && |chain| < TWO64 && Follows(chain, st.ledger) && Faithful(chain, m)
    ensures var (next, sends) := Handle(c, st, m, socket);
            && Follows(chain, next.ledger) && |next.ledger.blocks| >= |st.ledger.blocks|
            && next.peers == st.peers
            && forall i :: 0 <= i < |sends| ==> Faithful(chain, sends[i].message)
  {
    match m {
      case BlockMsg(data) =>
        var i :| 0 <= i < |chain| && data == BlockToJson(chain[i]);
        DeliverBlock(c, chain, st, i);
      case SyncRequest(from) => BlocksFromIsSlice(chain, |st.ledger.blocks|, from);
      case SyncResponse(items) =>
        var from, upto :| 0 <= from <= upto <= |chain| && items == BlocksToJson(chain[from..upto]);
        DeliverSync(c, chain, st.ledger, from, upto);
      case _ =>
    }
  }

  /** The miner holds the whole chain, so nothing on the network changes it. */
  lemma MinerIsComplete(c: Crypto, chain: seq<Block>, st: NodeState, m: Message, socket: nat)
    requires WellBuilt(c, chain) && |chain| < TWO64 && Follows(chain, st.ledger) && Faithful(chain, m)
    requires st.ledger.blocks == chain
    ensures Handle(c, st, m, socket).0.ledger.blocks == chain
  {
    HandleKeepsFollowing(c, chain, st, m, socket);
    var next := Handle(c, st, m, socket).0.ledger;
    assert next.blocks == chain[..|next.blocks|] == chain;
  }

  // ----- the chain grows -----

  lemma FaithfulGrows(chain: seq<Block>, b: Block, m: Message)
    requires Faithful(chain, m)
    ensures Faithful(chain + [b], m)
  {
    var longer := chain + [b];
    match m {
      case BlockMsg(data) =>
        var i :| 0 <= i < |chain| && data == BlockToJson(chain[i]);
        assert longer[i] == chain[i];
      case SyncResponse(items) =>
        var from, upto :| 0 <= from <= upto <= |chain| && items == BlocksToJson(chain[from..upto]);
        assert longer[from..upto] == chain[from..upto];
      case _ =>
    }
  }

  lemma FollowsGrows(chain: seq<Block>, b: Block, st: LedgerState)
    requires Follows(chain, st)
    ensures Follows(chain + [b], st)
  {
    assert (chain + [b])[..|st.blocks|] == chain[..|st.blocks|];
  }

  // ----- the events -----

  lemma PostIsFaithful(chain: seq<Block>, wiring: Wiring, from: nat, net: seq<Envelope>, sends: seq<Send>)
    requires AllFaithful(chain, net) && forall i :: 0 <= i < |sends| ==> Faithful(chain, sends[i].message)
    ensures AllFaithful(chain, net + Post(wiring, from, sends))
  {
  }

  lemma WithoutIsFaithful(chain: seq<Block>, net: seq<Envelope>, i: nat)
    requires AllFaithful(chain, net) && i < |net|
    ensures AllFaithful(chain, Without(net, i))
  {
  }

  lemma DeliveryKeepsInv(c: Crypto, wiring: Wiring, miner: nat, w: World, i: nat)
    requires GossipInv(c, miner, w) && i < |w.net|
    ensures GossipInv(c, miner, AfterDelivery(c, wiring, w, i))
    ensures MinerChain(AfterDelivery(c, wiring, w, i), miner) == MinerChain(w, miner)
  {
    var e, chain := w.net[i], MinerChain(w, miner);
    WithoutIsFaithful(chain, w.net, i);
    if e.to < |w.nodes| {
      var (next, sends) := Handle(c, w.nodes[e.to], e.message, e.socket);
      assert Faithful(chain, e.message) && Follows(chain, w.nodes[e.to].ledger);
      HandleKeepsFollowing(c, chain, w.nodes[e.to], e.message, e.socket);
      if e.to == miner {
        MinerIsComplete(c, chain, w.nodes[miner], e.message, e.socket);
      }
      PostIsFaithful(chain, wiring, e.to, Without(w.net, i), sends);
    }
  }

  lemma MineKeepsInv(c: Crypto, wiring: Wiring, miner: nat, w: World, b: Block)
    requires GossipInv(c, miner, w) && CheckBlock(c, w.nodes[miner].ledger, b).Accept?
    requires |w.nodes[miner].ledger.blocks| + 1 < TWO64
    ensures GossipInv(c, miner, AfterMine(c, wiring, w, miner, b))
    ensures MinerChain(AfterMine(c, wiring, w, miner, b), miner) == MinerChain(w, miner) + [b]
  {
    var chain, w' := MinerChain(w, miner), AfterMine(c, wiring, w, miner, b);
    var longer := chain + [b];
    assert Follows(chain, w.nodes[miner].ledger) && chain[..|chain|] == chain;
    WellBuiltAppend(c, chain, b);
    StateOfAppend(chain, b);
    assert longer[..|longer|] == longer;
    forall n | 0 <= n < |w'.nodes| ensures Follows(longer, w'.nodes[n].ledger) {
      if n != miner {
        FollowsGrows(chain, b, w.nodes[n].ledger);
      }
    }
    forall i | 0 <= i < |w.net| ensures Faithful(longer, w.net[i].message) {
      FaithfulGrows(chain, b, w.net[i].message);
    }
    assert longer[|chain|] == b;
    PostIsFaithful(longer, wiring, miner, w.net, Broadcast(w.nodes[miner].peers, BlockMsg(BlockToJson(b))));
  }

  lemma ConnectKeepsInv(c: Crypto, wiring: Wiring, miner: nat, w: World, n: nat, peer: Peer)
    requires GossipInv(c, miner, w) && n < |w.nodes|
    ensures var (next, sends) := Connected(w.nodes[n], peer);
            var w' := World(w.nodes[n := next], w.net + Post(wiring, n, sends));
            GossipInv(c, miner, w') && MinerChain(w', miner) == MinerChain(w, miner)
  {
    PostIsFaithful(MinerChain(w, miner), wiring, n, w.net, Connected(w.nodes[n], peer).1);
  }

  /** Losing, repeating and injecting messages changes the network only. */
  lemma NetworkEventKeepsInv(c: Crypto, wiring: Wiring, miner: nat, w: World, event: Event, w': World)
    requires GossipInv(c, miner, w) && Next(c, wiring, miner, w, event, w')
    requires event.Drop? || event.Duplicate? || event.Inject?
    ensures GossipInv(c, miner, w') && w'.nodes == w.nodes
  {
    var chain := MinerChain(w, miner);
    match event {
      case Drop(i) => WithoutIsFaithful(chain, w.net, i);
      case Duplicate(i) => assert Faithful(chain, w.net[i].message);
      case Inject(e) => assert Faithful(chain, e.message);
    }
  }

  /** Every event keeps every node on the miner's chain. */
  lemma EventKeepsInv(c: Crypto, wiring: Wiring, miner: nat, w: World, event: Event, w': World)
    requires GossipInv(c, miner, w) && Next(c, wiring, miner, w, event, w')
    ensures GossipInv(c, miner, w') && MinerChain(w, miner) <= MinerChain(w', miner)
  {
    match event {
      case Deliver(i) => DeliveryKeepsInv(c, wiring, miner, w, i);
      case Mine(b) => MineKeepsInv(c, wiring, miner, w, b);
      case Connect(n, peer) => ConnectKeepsInv(c, wiring, miner, w, n, peer);
      case _ => NetworkEventKeepsInv(c, wiring, miner, w, event, w');
    }
  }

  ghost predicate IsRun(c: Crypto, wiring: Wiring, miner: nat, worlds: seq<World>, events: seq<Event>) {
    && |worlds| == |events| + 1
    && forall t :: 0 <= t < |events| ==>
         miner < |worlds[t].nodes| && Next(c, wiring, miner, worlds[t], events[t], worlds[t + 1])
  }

  lemma {:induction false} RunKeepsInv(c: Crypto, wiring: Wiring, miner: nat, worlds: seq<World>, events: seq<Event>,
                                       t: nat)
    requires IsRun(c, wiring, miner, worlds, events) && GossipInv(c, miner, worlds[0]) && t < |worlds|
    ensures GossipInv(c, miner, worlds[t])
  {
    if t > 0 {
      RunKeepsInv(c, wiring, miner, worlds, events, t - 1);
      assert Next(c, wiring, miner, worlds[t - 1], events[t - 1], worlds[t]);
      EventKeepsInv(c, wiring, miner, worlds[t - 1], events[t - 1], worlds[t]);
    }
  }

  /** Prefix agreement: in every run with one producer, whatever the network does, every node holds a
      prefix of the producer's chain, with the producer's UTXO map and hash index at that height. */
  lemma PrefixAgreement(c: Crypto, wiring: Wiring, miner: nat, worlds: seq<World>, events: seq<Event>, t: nat, n: nat)
    requires IsRun(c, wiring, miner, worlds, events) && GossipInv(c, miner, worlds[0])
    requires t < |worlds| && n < |worlds[t].nodes|
    ensures miner < |worlds[t].nodes|
    ensures var mine, chain := worlds[t].nodes[n].ledger, MinerChain(worlds[t], miner);
            && mine.blocks <= chain
            && mine.utxos == Replay(chain[..|mine.blocks|]) && mine.index == IndexOf(chain[..|mine.blocks|])
  {
    RunKeepsInv(c, wiring, miner, worlds, events, t);
    assert Follows(MinerChain(worlds[t], miner), worlds[t].nodes[n].ledger);
  }

  /** Nodes that start from one genesis block and an idle network satisfy the invariant. */
  lemma SharedGenesisStart(c: Crypto, now: uint64, miner: nat, nodes: seq<NodeState>)
    requires miner < |nodes|
    requires forall n :: 0 <= n < |nodes| ==> nodes[n].ledger == Append(EMPTY, GenesisBlock(c, now))
    ensures GossipInv(c, miner, World(nodes, []))
  {
    InitEstablishes(c, now);
    var chain := [GenesisBlock(c, now)];
    assert chain[..1] == chain;
    forall n | 0 <= n < |nodes| ensures Follows(chain, nodes[n].ledger) {
      StateOfAppend([], GenesisBlock(c, now));
    }
  }

  // ----- a mined block is announced -----

  /** A mined block is on its way to every peer of the producer. */
  lemma MinedIsAnnounced(c: Crypto, wiring: Wiring, miner: nat, w: World, b: Block, w': World, p: nat)
    requires miner < |w.nodes| && Next(c, wiring, miner, w, Mine(b), w') && p < |w.nodes[miner].peers|
    ensures var (to, socket) := wiring(miner, w.nodes[miner].peers[p].socket);
            Envelope(to, socket, BlockMsg(BlockToJson(b))) in w'.net
  {
    var posts := Post(wiring, miner, Broadcast(w.nodes[miner].peers, BlockMsg(BlockToJson(b))));
    assert w'.net == w.net + posts;
    var (to, socket) := wiring(miner, w.nodes[miner].peers[p].socket);
    assert posts[p] == Envelope(to, socket, BlockMsg(BlockToJson(b)));
  }

  /** A node that had the producer's chain has it again once the announcement is delivered. */
  lemma AnnouncementIsTaken(c: Crypto, wiring: Wiring, miner: nat, w: World, b: Block, w': World, n: nat, socket: nat)
    requires GossipInv(c, miner, w) && n < |w.nodes| && Next(c, wiring, miner, w, Mine(b), w')
    requires w.nodes[n].ledger == w.nodes[miner].ledger
    ensures Handle(c, w.nodes[n], BlockMsg(BlockToJson(b)), socket).0.ledger == w'.nodes[miner].ledger
  {
    BlockRoundTrip(b);
    var st := w.nodes[miner].ledger;
    assert Follows(st.blocks, st) && st.blocks[..|st.blocks|] == st.blocks;
    assert HeaderVerdict(c, st, b).Accept?;
  }

  /** A node that has connected has a request for the peer's blocks on its way. */
  lemma ConnectionAsks(c: Crypto, wiring: Wiring, miner: nat, w: World, n: nat, peer: Peer, w': World)
    requires miner < |w.nodes| && n < |w.nodes| && Next(c, wiring, miner, w, Connect(n, peer), w')
    ensures var (to, socket) := wiring(n, peer.socket);
            Envelope(to, socket, SyncRequest(WireHeight(w.nodes[n].ledger))) in w'.net
  {
    var posts := Post(wiring, n, Connected(w.nodes[n], peer).1);
    assert w'.net == w.net + posts;
    var (to, socket) := wiring(n, peer.socket);
    assert posts[0] == Envelope(to, socket, SyncRequest(WireHeight(w.nodes[n].ledger)));
  }
}
