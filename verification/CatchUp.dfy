/** Catching up over the network: request, answer and delivery may lie any number of events apart. */
module CatchUp {
  import opened Words
  import opened Crypto
  import opened Blocks
  import opened Ledger
  import opened History
  import opened Persistence
  import opened Nodes
  import opened Sync
  import opened Gossip
  import opened Quiescence

  lemma ChainGrowsOnce(c: Crypto, wiring: Wiring, miner: nat, worlds: seq<World>, events: seq<Event>, t: nat)
    requires IsRun(c, wiring, miner, worlds, events) && GossipInv(c, miner, worlds[0]) && t < |events|
    ensures miner < |worlds[t].nodes| && miner < |worlds[t + 1].nodes|
    ensures MinerChain(worlds[t], miner) <= MinerChain(worlds[t + 1], miner)
  {
    RunKeepsInv(c, wiring, miner, worlds, events, t);
    assert Next(c, wiring, miner, worlds[t], events[t], worlds[t + 1]);
    EventKeepsInv(c, wiring, miner, worlds[t], events[t], worlds[t + 1]);
  }

  lemma {:induction false} PrefixesGrow(chains: seq<seq<Block>>, s: nat, t: nat)
    requires forall i :: 0 <= i < |chains| - 1 ==> chains[i] <= chains[i + 1]
    requires s <= t < |chains|
    ensures chains[s] <= chains[t]
    decreases t - s
  {
    if s < t {
      PrefixesGrow(chains, s, t - 1);
    }
  }

  /** The producer's chain in every state. */
  function MinerChains(worlds: seq<World>, miner: nat): seq<seq<Block>>
    requires forall i :: 0 <= i < |worlds| ==> miner < |worlds[i].nodes|
  {
    seq(|worlds|, i requires 0 <= i < |worlds| => MinerChain(worlds[i], miner))
  }

  /** The producer's chain only grows along a run. */
  lemma ChainGrows(c: Crypto, wiring: Wiring, miner: nat, worlds: seq<World>, events: seq<Event>, s: nat, t: nat)
    requires IsRun(c, wiring, miner, worlds, events) && GossipInv(c, miner, worlds[0]) && s <= t < |worlds|
    ensures miner < |worlds[s].nodes| && miner < |worlds[t].nodes|
    ensures MinerChain(worlds[s], miner) <= MinerChain(worlds[t], miner)
  {
    forall i | 0 <= i < |worlds| ensures miner < |worlds[i].nodes| {
      RunKeepsInv(c, wiring, miner, worlds, events, i);
    }
    var chains := MinerChains(worlds, miner);
    forall i | 0 <= i < |chains| - 1 ensures chains[i] <= chains[i + 1] {
      ChainGrowsOnce(c, wiring, miner, worlds, events, i);
    }
    PrefixesGrow(chains, s, t);
  }

  lemma NodeGrows(c: Crypto, wiring: Wiring, miner: nat, worlds: seq<World>, events: seq<Event>, s: nat, t: nat, n: nat)
    requires IsRun(c, wiring, miner, worlds, events) && GossipInv(c, miner, worlds[0])
    requires s <= t < |worlds| && n < |worlds[s].nodes|
    ensures n < |worlds[t].nodes| && |worlds[s].nodes[n].ledger.blocks| <= |worlds[t].nodes[n].ledger.blocks|
  {
    forall k | s <= k < t ensures GrowsAt(worlds, k, n) {
      RunsOnlyGrow(c, wiring, miner, worlds, events, k, n);
    }
    GrowsThroughout(worlds, s, t, n);
  }

  /** What a node answers to a sync request. */
  function Answer(c: Crypto, node: NodeState, from: uint64): Message {
    Handle(c, node, SyncRequest(from), 0).1[0].message
  }

  /** On a longer chain, an answer from a node that follows it is still a slice of it. */
  lemma AnswerIsSlice(c: Crypto, early: seq<Block>, late: seq<Block>, node: NodeState, from: uint64)
    requires early <= late && Follows(early, node.ledger) && from < |node.ledger.blocks|
    ensures |node.ledger.blocks| <= |late|
    ensures Answer(c, node, from) == SyncResponse(BlocksToJson(late[from..|node.ledger.blocks|]))
  {
    assert node.ledger.blocks[from..] == late[from..|node.ledger.blocks|];
  }

  /** A slice that begins within what the node has leaves it at least as long as the slice reaches. */
  lemma SliceReaches(c: Crypto, chain: seq<Block>, st: LedgerState, from: nat, upto: nat)
    requires WellBuilt(c, chain) && |chain| < TWO64 && Follows(chain, st) && from <= |st.blocks| &&
             from <= upto <= |chain|
    ensures |SyncAll(c, st, BlocksToJson(chain[from..upto])).blocks| >= upto
  {
    SliceExtends(c, chain, |st.blocks|, from, upto);
  }

  /** A delivered answer that reaches past what the receiver had. */
  lemma DeliveredAnswer(c: Crypto, wiring: Wiring, miner: nat, w: World, i: nat, a: nat, from: nat, upto: nat)
    requires GossipInv(c, miner, w) && i < |w.net| && w.net[i].to == a < |w.nodes|
    requires from <= |w.nodes[a].ledger.blocks| && from <= upto <= |MinerChain(w, miner)|
    requires w.net[i].message == SyncResponse(BlocksToJson(MinerChain(w, miner)[from..upto]))
    ensures a < |AfterDelivery(c, wiring, w, i).nodes|
    ensures |AfterDelivery(c, wiring, w, i).nodes[a].ledger.blocks| >= upto
  {
    assert Follows(MinerChain(w, miner), w.nodes[a].ledger);
    SliceReaches(c, MinerChain(w, miner), w.nodes[a].ledger, from, upto);
  }

  /** Node `a` had asked with its height at time `s`, node `b` answered at time `t`, and the answer
      reaches `a` at time `u`. */
  ghost predicate Answered(c: Crypto, worlds: seq<World>, events: seq<Event>, s: nat, t: nat, u: nat, a: nat, b: nat) {
    && s <= t <= u < |events| && |worlds| == |events| + 1
    && a < |worlds[s].nodes| && b < |worlds[t].nodes|
    && events[u].Deliver? && events[u].i < |worlds[u].net| && worlds[u].net[events[u].i].to == a
    && worlds[u].net[events[u].i].message == Answer(c, worlds[t].nodes[b], WireHeight(worlds[s].nodes[a].ledger))
  }

  /** However much later it comes and whatever has happened in between, a node that is delivered the
      answer to its own request is then no shorter than the answering node was. */
  lemma AnswerCatchesUp(c: Crypto, wiring: Wiring, miner: nat, worlds: seq<World>, events: seq<Event>,
                        s: nat, t: nat, u: nat, a: nat, b: nat)
    requires IsRun(c, wiring, miner, worlds, events) && GossipInv(c, miner, worlds[0])
    requires Answered(c, worlds, events, s, t, u, a, b)
    ensures a < |worlds[u + 1].nodes|
    ensures |worlds[t].nodes[b].ledger.blocks| <= |worlds[u + 1].nodes[a].ledger.blocks|
  {
    NodeGrows(c, wiring, miner, worlds, events, s, u, a);
    NodeGrows(c, wiring, miner, worlds, events, u, u + 1, a);
    ChainGrows(c, wiring, miner, worlds, events, t, u);
    RunKeepsInv(c, wiring, miner, worlds, events, s);
    RunKeepsInv(c, wiring, miner, worlds, events, t);
    RunKeepsInv(c, wiring, miner, worlds, events, u);
    var asked, answering := worlds[s].nodes[a].ledger, worlds[t].nodes[b].ledger;
    assert Follows(MinerChain(worlds[s], miner), asked) && Follows(MinerChain(worlds[t], miner), answering);
    WrapSmall(HeightOf(asked));
    var from := WireHeight(asked);
    if from < |answering.blocks| {
      AnswerIsSlice(c, MinerChain(worlds[t], miner), MinerChain(worlds[u], miner), worlds[t].nodes[b], from);
      assert Next(c, wiring, miner, worlds[u], events[u], worlds[u + 1]);
      DeliveredAnswer(c, wiring, miner, worlds[u], events[u].i, a, from, |answering.blocks|);
    }
  }
}
