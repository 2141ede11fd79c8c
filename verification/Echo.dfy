/** Transactions are relayed whether or not the pool admits them, so between two nodes a relay never ends. */
module Echo {
  import opened Crypto
  import opened Transactions
  import opened Json
  import opened Ledger
  import opened Nodes
  import opened Gossip

  /** Node `n` has one peer, which is the other node, and holds the transaction for valid. */
  predicate Mirrors(c: Crypto, wiring: Wiring, node: NodeState, n: nat, tx: Transaction)
    requires n < 2
  {
    && |node.peers| == 1 && wiring(n, node.peers[0].socket).0 == 1 - n
    && CheckPooled(c, node.ledger.utxos, tx).Accept?
  }

  /** Two such nodes, and the transaction on its way to one of them. */
  predicate Echoing(c: Crypto, wiring: Wiring, w: World, tx: Transaction) {
    && |w.nodes| == 2 && Mirrors(c, wiring, w.nodes[0], 0, tx) && Mirrors(c, wiring, w.nodes[1], 1, tx)
    && |w.net| == 1 && w.net[0].to < 2 && w.net[0].message == TxMsg(TxToJson(tx))
  }

  lemma MirrorSendsBack(c: Crypto, wiring: Wiring, node: NodeState, n: nat, tx: Transaction)
    requires n < 2 && Mirrors(c, wiring, node, n, tx)
    ensures var (next, sends) := HandleTx(c, node, TxToJson(tx));
            && Mirrors(c, wiring, next, n, tx)
            && |Post(wiring, n, sends)| == 1 && Post(wiring, n, sends)[0].to == 1 - n
            && Post(wiring, n, sends)[0].message == TxMsg(TxToJson(tx))
  {
    TxRoundTrip(tx);
  }

  lemma EchoStep(c: Crypto, wiring: Wiring, w: World, tx: Transaction)
    requires Echoing(c, wiring, w, tx)
    ensures Echoing(c, wiring, AfterDelivery(c, wiring, w, 0), tx)
  {
    var n := w.net[0].to;
    MirrorSendsBack(c, wiring, w.nodes[n], n, tx);
    assert Without(w.net, 0) == [];
  }

  lemma OneMoreDelivery(c: Crypto, wiring: Wiring, miner: nat, worlds: seq<World>, events: seq<Event>, last: World)
    requires IsRun(c, wiring, miner, worlds, events) && last == worlds[|events|]
    requires miner < |last.nodes| && last.net != []
    ensures IsRun(c, wiring, miner, worlds + [AfterDelivery(c, wiring, last, 0)], events + [Deliver(0)])
  {
    var longer, more := worlds + [AfterDelivery(c, wiring, last, 0)], events + [Deliver(0)];
    forall t | 0 <= t < |more|
      ensures miner < |longer[t].nodes| && Next(c, wiring, miner, longer[t], more[t], longer[t + 1])
    {
      if t < |events| {
        assert longer[t] == worlds[t] && longer[t + 1] == worlds[t + 1] && more[t] == events[t];
      }
    }
  }

  /** From such a world there is a run of any number of deliveries, and the transaction is still on its way
      at the end: relaying transactions never runs down. */
  lemma {:induction false} EchoesForEver(c: Crypto, wiring: Wiring, w: World, tx: Transaction, n: nat)
    returns (worlds: seq<World>, events: seq<Event>)
    requires Echoing(c, wiring, w, tx)
    ensures IsRun(c, wiring, 0, worlds, events) && |events| == n && worlds[0] == w
    ensures Echoing(c, wiring, worlds[n], tx)
    ensures forall k :: 0 <= k < n ==> events[k] == Deliver(0)
  {
    if n == 0 {
      worlds, events := [w], [];
    } else {
      worlds, events := EchoesForEver(c, wiring, w, tx, n - 1);
      var last := worlds[n - 1];
      EchoStep(c, wiring, last, tx);
      OneMoreDelivery(c, wiring, 0, worlds, events, last);
      worlds, events := worlds + [AfterDelivery(c, wiring, last, 0)], events + [Deliver(0)];
    }
  }
}
