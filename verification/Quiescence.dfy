/** Gossip dies out: once mining and new connections stop, only finitely many messages are handled. */
module Quiescence {
  import opened Words
  import opened Crypto
  import opened Blocks
  import opened Json
  import opened History
  import opened Persistence
  import opened Nodes
  import opened Sync
  import opened Gossip

  /** How many messages a message can lead to at its receiver and back, itself included. */
  function Weight(m: Message): nat {
    match m
    case GetHeight => 4
    case HeightMsg(_) => 3
    case SyncRequest(_) => 2
    case _ => 1
  }

  function NetWeight(net: seq<Envelope>): nat {
    if net == [] then 0 else Weight(net[0].message) + NetWeight(net[1..])
  }

  function SendWeight(sends: seq<Send>): nat {
    if sends == [] then 0 else Weight(sends[0].message) + SendWeight(sends[1..])
  }

  /** Blocks a node still lacks, each worth one message to every peer. */
  function NodePotential(maxPeers: nat, length: nat, st: NodeState): nat {
    if |st.ledger.blocks| >= length then 0 else maxPeers * (length - |st.ledger.blocks|)
  }

  function Potential(maxPeers: nat, length: nat, nodes: seq<NodeState>): nat {
    if nodes == [] then 0 else NodePotential(maxPeers, length, nodes[0]) + Potential(maxPeers, length, nodes[1..])
  }

  function Measure(maxPeers: nat, miner: nat, w: World): nat
    requires miner < |w.nodes|
  {
    Potential(maxPeers, |MinerChain(w, miner)|, w.nodes) + NetWeight(w.net)
  }

  /** No transaction is in flight and no node has more than `maxPeers` peers. */
  predicate Quiet(maxPeers: nat, w: World) {
    && (forall i :: 0 <= i < |w.net| ==> !w.net[i].message.TxMsg?)
    && (forall n :: 0 <= n < |w.nodes| ==> |w.nodes[n].peers| <= maxPeers)
  }

  // ----- sums -----

  lemma {:induction false} NetWeightAppend(a: seq<Envelope>, b: seq<Envelope>)
    ensures NetWeight(a + b) == NetWeight(a) + NetWeight(b)
  {
    if a == [] {
      assert a + b == b;
    } else {
      NetWeightAppend(a[1..], b);
      assert (a + b)[1..] == a[1..] + b;
    }
  }

  lemma NetWeightWithout(net: seq<Envelope>, i: nat)
    requires i < |net|
    ensures NetWeight(Without(net, i)) + Weight(net[i].message) == NetWeight(net)
  {
    NetWeightAppend(net[..i], net[i + 1..]);
    NetWeightAppend(net[..i], net[i..]);
    assert net == net[..i] + net[i..] && net[i..][1..] == net[i + 1..];
  }

  lemma {:induction false} PostWeight(wiring: Wiring, from: nat, sends: seq<Send>)
    ensures NetWeight(Post(wiring, from, sends)) == SendWeight(sends)
  {
    if sends != [] {
      PostWeight(wiring, from, sends[1..]);
      assert Post(wiring, from, sends)[1..] == Post(wiring, from, sends[1..]);
    }
  }

  lemma {:induction false} BroadcastWeight(peers: seq<Peer>, m: Message)
    requires Weight(m) == 1
    ensures SendWeight(Broadcast(peers, m)) == |peers|
  {
    if peers != [] {
      BroadcastWeight(peers[1..], m);
      assert Broadcast(peers, m)[1..] == Broadcast(peers[1..], m);
    }
  }

  lemma {:induction false} PotentialUpdate(maxPeers: nat, length: nat, nodes: seq<NodeState>, n: nat, st: NodeState)
    requires n < |nodes|
    ensures Potential(maxPeers, length, nodes[n := st]) + NodePotential(maxPeers, length, nodes[n])
            == Potential(maxPeers, length, nodes) + NodePotential(maxPeers, length, st)
  {
    var updated := nodes[n := st];
    if n == 0 {
      assert updated[1..] == nodes[1..];
    } else {
      PotentialUpdate(maxPeers, length, nodes[1..], n - 1, st);
      assert updated[1..] == nodes[1..][n - 1 := st];
    }
  }

  lemma PotentialStep(maxPeers: nat, lacking: nat)
    requires lacking > 0
    ensures maxPeers * (lacking - 1) + maxPeers == maxPeers * lacking
  {
  }

  lemma PotentialOfNextBlock(maxPeers: nat, length: nat, st: NodeState, next: NodeState)
    requires |next.ledger.blocks| == |st.ledger.blocks| + 1 <= length
    ensures NodePotential(maxPeers, length, next) + maxPeers == NodePotential(maxPeers, length, st)
  {
    PotentialStep(maxPeers, length - |st.ledger.blocks|);
  }

  lemma PotentialAntitone(maxPeers: nat, length: nat, st: NodeState, next: NodeState)
    requires |st.ledger.blocks| <= |next.ledger.blocks|
    ensures NodePotential(maxPeers, length, next) <= NodePotential(maxPeers, length, st)
  {
    var a, b := length - |next.ledger.blocks|, length - |st.ledger.blocks|;
    if a >= 0 {
      assert maxPeers * a <= maxPeers * b;
    }
  }

  // ----- every delivery costs -----

  lemma BlockCosts(c: Crypto, chain: seq<Block>, st: NodeState, i: nat, maxPeers: nat)
    requires WellBuilt(c, chain) && |chain| < TWO64 && Follows(chain, st.ledger) && i < |chain| &&
             |st.peers| <= maxPeers
    ensures var (next, sends) := HandleBlock(c, st, BlockToJson(chain[i]));
            && NodePotential(maxPeers, |chain|, next) + SendWeight(sends) <= NodePotential(maxPeers, |chain|, st)
            && forall k :: 0 <= k < |sends| ==> !sends[k].message.TxMsg?
  {
    DeliverBlock(c, chain, st, i);
    if i == |st.ledger.blocks| {
      BroadcastWeight(st.peers, BlockMsg(BlockToJson(chain[i])));
      PotentialOfNextBlock(maxPeers, |chain|, st, HandleBlock(c, st, BlockToJson(chain[i])).0);
    }
  }

  lemma SingleSend(s: Send)
    ensures SendWeight([s]) == Weight(s.message)
  {
    assert [s][1..] == [];
  }

  /** Handling a message uses up more than it creates. */
  lemma HandlingCosts(c: Crypto, chain: seq<Block>, st: NodeState, m: Message, socket: nat, maxPeers: nat)
    requires WellBuilt(c, chain) && |chain| < TWO64 && Follows(chain, st.ledger) && Faithful(chain, m)
    requires !m.TxMsg? && |st.peers| <= maxPeers
    ensures var (next, sends) := Handle(c, st, m, socket);
            && NodePotential(maxPeers, |chain|, next) + SendWeight(sends) <
               NodePotential(maxPeers, |chain|, st) + Weight(m)
            && forall i :: 0 <= i < |sends| ==> !sends[i].message.TxMsg?
  {
    match m {
      case BlockMsg(data) =>
        var i :| 0 <= i < |chain| && data == BlockToJson(chain[i]);
        BlockCosts(c, chain, st, i, maxPeers);
      case SyncResponse(items) =>
        var from, upto :| 0 <= from <= upto <= |chain| && items == BlocksToJson(chain[from..upto]);
        DeliverSync(c, chain, st.ledger, from, upto);
        PotentialAntitone(maxPeers, |chain|, st, Handle(c, st, m, socket).0);
      case SyncRequest(_) => SingleSend(Handle(c, st, m, socket).1[0]);
      case GetHeight => SingleSend(Handle(c, st, m, socket).1[0]);
      case HeightMsg(height) => SingleSend(Send(socket, SyncRequest(WireHeight(st.ledger))));
      case _ =>
    }
  }

  /** What the receiver of message `i` makes of it. */
  lemma ReceiverCosts(c: Crypto, miner: nat, maxPeers: nat, w: World, i: nat)
    requires GossipInv(c, miner, w) && Quiet(maxPeers, w) && i < |w.net| && w.net[i].to < |w.nodes|
    ensures var e := w.net[i];
            var st, length := w.nodes[e.to], |MinerChain(w, miner)|;
            var (next, sends) := Handle(c, st, e.message, e.socket);
            && NodePotential(maxPeers, length, next) + SendWeight(sends) <
               NodePotential(maxPeers, length, st) + Weight(e.message)
            && next.peers == st.peers
            && forall k :: 0 <= k < |sends| ==> !sends[k].message.TxMsg?
  {
    var e, chain := w.net[i], MinerChain(w, miner);
    assert Faithful(chain, e.message) && Follows(chain, w.nodes[e.to].ledger);
    HandleKeepsFollowing(c, chain, w.nodes[e.to], e.message, e.socket);
    HandlingCosts(c, chain, w.nodes[e.to], e.message, e.socket, maxPeers);
  }

  lemma QuietUpdate(wiring: Wiring, maxPeers: nat, w: World, i: nat, n: nat, next: NodeState, sends: seq<Send>)
    requires Quiet(maxPeers, w) && i < |w.net| && n < |w.nodes| && next.peers == w.nodes[n].peers
    requires forall k :: 0 <= k < |sends| ==> !sends[k].message.TxMsg?
    ensures Quiet(maxPeers, World(w.nodes[n := next], Without(w.net, i) + Post(wiring, n, sends)))
  {
    var posted := Post(wiring, n, sends);
    forall k | 0 <= k < |posted| ensures !posted[k].message.TxMsg? {
    }
  }

  lemma DeliveryKeepsQuiet(c: Crypto, wiring: Wiring, miner: nat, maxPeers: nat, w: World, i: nat)
    requires GossipInv(c, miner, w) && Quiet(maxPeers, w) && i < |w.net|
    ensures Quiet(maxPeers, AfterDelivery(c, wiring, w, i))
  {
    var e := w.net[i];
    if e.to < |w.nodes| {
      var (next, sends) := Handle(c, w.nodes[e.to], e.message, e.socket);
      ReceiverCosts(c, miner, maxPeers, w, i);
      QuietUpdate(wiring, maxPeers, w, i, e.to, next, sends);
    }
  }

  /** Replacing a node and posting what it sends changes the measure by what both are worth. */
  lemma MeasureOfUpdate(wiring: Wiring, maxPeers: nat, length: nat, w: World, i: nat, n: nat, next: NodeState,
                        sends: seq<Send>)
    requires i < |w.net| && n < |w.nodes|
    ensures Potential(maxPeers, length, w.nodes[n := next]) + NetWeight(Without(w.net, i) + Post(wiring, n, sends))
            + NodePotential(maxPeers, length, w.nodes[n]) + Weight(w.net[i].message)
            == Potential(maxPeers, length, w.nodes) + NetWeight(w.net) + NodePotential(maxPeers, length, next)
            + SendWeight(sends)
  {
    NetWeightWithout(w.net, i);
    PotentialUpdate(maxPeers, length, w.nodes, n, next);
    NetWeightAppend(Without(w.net, i), Post(wiring, n, sends));
    PostWeight(wiring, n, sends);
  }

  lemma DeliveryDecreases(c: Crypto, wiring: Wiring, miner: nat, maxPeers: nat, w: World, i: nat)
    requires GossipInv(c, miner, w) && Quiet(maxPeers, w) && i < |w.net|
    ensures miner < |AfterDelivery(c, wiring, w, i).nodes|
    ensures Measure(maxPeers, miner, AfterDelivery(c, wiring, w, i)) < Measure(maxPeers, miner, w)
  {
    var e := w.net[i];
    DeliveryKeepsInv(c, wiring, miner, w, i);
    if e.to < |w.nodes| {
      var (next, sends) := Handle(c, w.nodes[e.to], e.message, e.socket);
      ReceiverCosts(c, miner, maxPeers, w, i);
      MeasureOfUpdate(wiring, maxPeers, |MinerChain(w, miner)|, w, i, e.to, next, sends);
    } else {
      NetWeightWithout(w.net, i);
    }
  }

  predicate QuietEvent(event: Event) {
    event.Deliver? || event.Drop?
  }

  lemma QuietEventDecreases(c: Crypto, wiring: Wiring, miner: nat, maxPeers: nat, w: World, event: Event, w': World)
    requires GossipInv(c, miner, w) && Quiet(maxPeers, w) && QuietEvent(event) && Next(c, wiring, miner, w, event, w')
    ensures GossipInv(c, miner, w') && Quiet(maxPeers, w')
    ensures Measure(maxPeers, miner, w') < Measure(maxPeers, miner, w)
  {
    EventKeepsInv(c, wiring, miner, w, event, w');
    match event {
      case Deliver(i) =>
        DeliveryKeepsQuiet(c, wiring, miner, maxPeers, w, i);
        DeliveryDecreases(c, wiring, miner, maxPeers, w, i);
      case Drop(i) => NetWeightWithout(w.net, i);
    }
  }

  /** Gossip terminates: from any state of a single-miner run, a run of deliveries and losses without
      transactions in flight has at most `Measure` events. */
  lemma {:induction false} GossipTerminates(c: Crypto, wiring: Wiring, miner: nat, maxPeers: nat,
                                            worlds: seq<World>, events: seq<Event>, t: nat)
    requires IsRun(c, wiring, miner, worlds, events) && GossipInv(c, miner, worlds[0]) && Quiet(maxPeers, worlds[0])
    requires forall k :: 0 <= k < |events| ==> QuietEvent(events[k])
    requires t < |worlds|
    ensures GossipInv(c, miner, worlds[t]) && Quiet(maxPeers, worlds[t])
    ensures t + Measure(maxPeers, miner, worlds[t]) <= Measure(maxPeers, miner, worlds[0])
  {
    if t > 0 {
      GossipTerminates(c, wiring, miner, maxPeers, worlds, events, t - 1);
      assert QuietEvent(events[t - 1]) && Next(c, wiring, miner, worlds[t - 1], events[t - 1], worlds[t]);
      QuietEventDecreases(c, wiring, miner, maxPeers, worlds[t - 1], events[t - 1], worlds[t]);
    }
  }

  // ----- relaying -----

  /** The event delivers a block message that node `n` takes and relays. */
  predicate Relays(c: Crypto, w: World, event: Event, n: nat, b: Block) {
    && event.Deliver? && event.i < |w.net| && w.net[event.i].to == n < |w.nodes|
    && w.net[event.i].message.BlockMsg? && BlockFromJson(w.net[event.i].message.data) == Done(b)
    && HeaderVerdict(c, w.nodes[n].ledger, b).Accept?
  }

  /** A node relays a block only when it is the next one it lacks, and then has it. */
  lemma RelayGrows(c: Crypto, wiring: Wiring, miner: nat, w: World, event: Event, w': World, n: nat, b: Block)
    requires GossipInv(c, miner, w) && Next(c, wiring, miner, w, event, w') && Relays(c, w, event, n, b)
    ensures b.header.index == |w.nodes[n].ledger.blocks| && n < |w'.nodes|
    ensures |w'.nodes[n].ledger.blocks| == b.header.index + 1
  {
    var chain, st, m := MinerChain(w, miner), w.nodes[n], w.net[event.i].message;
    assert Faithful(chain, m) && Follows(chain, st.ledger);
    var i :| 0 <= i < |chain| && m.data == BlockToJson(chain[i]);
    BlockRoundTrip(chain[i]);
    OnlyTheNextBlockFits(c, chain, |st.ledger.blocks|, i);
    DeliverBlock(c, chain, st, i);
    ChainLinked(c, chain, i);
    WrapSmall(i);
  }

  lemma NodesOnlyGrow(c: Crypto, wiring: Wiring, miner: nat, w: World, event: Event, w': World, n: nat)
    requires GossipInv(c, miner, w) && Next(c, wiring, miner, w, event, w') && n < |w.nodes|
    ensures n < |w'.nodes| && |w.nodes[n].ledger.blocks| <= |w'.nodes[n].ledger.blocks|
  {
    if event.Deliver? && w.net[event.i].to == n {
      var chain, e := MinerChain(w, miner), w.net[event.i];
      assert Faithful(chain, e.message) && Follows(chain, w.nodes[n].ledger);
      HandleKeepsFollowing(c, chain, w.nodes[n], e.message, e.socket);
    }
  }

  predicate GrowsAt(worlds: seq<World>, t: nat, n: nat)
    requires t + 1 < |worlds|
  {
    n < |worlds[t].nodes| ==>
      n < |worlds[t + 1].nodes| && |worlds[t].nodes[n].ledger.blocks| <= |worlds[t + 1].nodes[n].ledger.blocks|
  }

  lemma {:induction false} GrowsThroughout(worlds: seq<World>, s: nat, t: nat, n: nat)
    requires s <= t < |worlds| && n < |worlds[s].nodes|
    requires forall k :: s <= k < t ==> GrowsAt(worlds, k, n)
    ensures n < |worlds[t].nodes| && |worlds[s].nodes[n].ledger.blocks| <= |worlds[t].nodes[n].ledger.blocks|
    decreases t - s
  {
    if s < t {
      GrowsThroughout(worlds, s, t - 1, n);
      assert GrowsAt(worlds, t - 1, n);
    }
  }

  lemma RunsOnlyGrow(c: Crypto, wiring: Wiring, miner: nat, worlds: seq<World>, events: seq<Event>, t: nat, n: nat)
    requires IsRun(c, wiring, miner, worlds, events) && GossipInv(c, miner, worlds[0]) && t < |events|
    ensures GrowsAt(worlds, t, n)
  {
    RunKeepsInv(c, wiring, miner, worlds, events, t);
    assert Next(c, wiring, miner, worlds[t], events[t], worlds[t + 1]);
    if n < |worlds[t].nodes| {
      NodesOnlyGrow(c, wiring, miner, worlds[t], events[t], worlds[t + 1], n);
    }
  }

  lemma RelayAt(c: Crypto, wiring: Wiring, miner: nat, worlds: seq<World>, events: seq<Event>, t: nat, n: nat, b: Block)
    requires IsRun(c, wiring, miner, worlds, events) && GossipInv(c, miner, worlds[0]) && t < |events|
    requires Relays(c, worlds[t], events[t], n, b)
    ensures b.header.index == |worlds[t].nodes[n].ledger.blocks| && n < |worlds[t + 1].nodes|
    ensures |worlds[t + 1].nodes[n].ledger.blocks| == b.header.index + 1
  {
    RunKeepsInv(c, wiring, miner, worlds, events, t);
    assert Next(c, wiring, miner, worlds[t], events[t], worlds[t + 1]);
    RelayGrows(c, wiring, miner, worlds[t], events[t], worlds[t + 1], n, b);
  }

  /** Each node relays each height at most once: later relays are of greater heights. */
  lemma RelayedHeightsIncrease(c: Crypto, wiring: Wiring, miner: nat, worlds: seq<World>, events: seq<Event>,
                               s: nat, t: nat, n: nat, b: Block, b': Block)
    requires IsRun(c, wiring, miner, worlds, events) && GossipInv(c, miner, worlds[0]) && s < t < |events|
    requires Relays(c, worlds[s], events[s], n, b) && Relays(c, worlds[t], events[t], n, b')
    ensures b.header.index < b'.header.index
  {
    RelayAt(c, wiring, miner, worlds, events, s, n, b);
    RelayAt(c, wiring, miner, worlds, events, t, n, b');
    forall k | s + 1 <= k < t ensures GrowsAt(worlds, k, n) {
      RunsOnlyGrow(c, wiring, miner, worlds, events, k, n);
    }
    GrowsThroughout(worlds, s + 1, t, n);
  }
}
