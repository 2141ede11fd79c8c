/** What a node sends, and to whom. */
module Relaying {
  import opened Words
  import opened Crypto
  import opened Transactions
  import opened Blocks
  import opened Json
  import opened Ledger
  import opened Persistence
  import opened Nodes
  import opened Acceptance

  /** One copy of the message for every peer, in the order in which the peers are listed. */
  predicate ToEveryPeer(peers: seq<Peer>, message: Message, sends: seq<Send>) {
    |sends| == |peers| && forall i :: 0 <= i < |peers| ==> sends[i] == Send(peers[i].socket, message)
  }

  /** A transaction goes to every peer, the sender included, exactly when it passes the pool's gate; otherwise
      nothing is sent. */
  lemma TxGoesToEveryPeer(c: Crypto, st: NodeState, tx: Transaction, socket: nat, sends: seq<Send>)
    requires sends == Handle(c, st, TxMsg(TxToJson(tx)), socket).1
    ensures if HasShape(tx) && CarriesItsId(c, tx) && !LooksLikeReward(tx) && AllLawful(c, st.ledger.utxos, tx)
            then ToEveryPeer(st.peers, TxMsg(TxToJson(tx)), sends) else sends == []
  {
    TxRoundTrip(tx);
    PooledAcceptedIff(c, st.ledger.utxos, tx);
  }

  /** A block goes to every peer exactly when it continues from the tip and checking it does not throw. */
  lemma BlockGoesToEveryPeer(c: Crypto, st: NodeState, b: Block, socket: nat, sends: seq<Send>)
    requires sends == Handle(c, st, BlockMsg(BlockToJson(b)), socket).1
    ensures if st.ledger.blocks != [] && ContinuesFrom(c, st.ledger.blocks[|st.ledger.blocks| - 1], b) &&
                 !CheckTxs(c, st.ledger.utxos, b.transactions).Throw?
            then ToEveryPeer(st.peers, BlockMsg(BlockToJson(b)), sends) else sends == []
  {
    BlockRoundTrip(b);
    if st.ledger.blocks != [] {
      HeaderFitsIff(c, st.ledger, b);
      SealedIsContinuing(c, st.ledger.blocks[|st.ledger.blocks| - 1], b);
    }
  }

  /** A request is answered to the socket it came from, with the blocks from the given position on, each of
      which decodes as itself. */
  lemma RequestIsAnswered(c: Crypto, st: NodeState, from: uint64, socket: nat)
    ensures var (next, sends) := Handle(c, st, SyncRequest(from), socket);
            && next == st && |sends| == 1 && sends[0].socket == socket && sends[0].message.SyncResponse?
            && var items := sends[0].message.blocks;
               && |items| == (if from < |st.ledger.blocks| then |st.ledger.blocks| - from else 0)
               && forall i :: 0 <= i < |items| ==> BlockFromJson(items[i]) == Done(st.ledger.blocks[from + i])
  {
    var rest := BlocksFrom(st.ledger, from);
    forall i | 0 <= i < |rest| ensures BlockFromJson(BlocksToJson(rest)[i]) == Done(rest[i]) {
      BlockRoundTrip(rest[i]);
    }
  }

  // ----- connecting -----

  predicate DistinctSockets(peers: seq<Peer>) {
    forall i, j :: 0 <= i < j < |peers| ==> peers[i].socket != peers[j].socket
  }

  function Addresses(peers: seq<Peer>): seq<Json> {
    seq(|peers|, i requires 0 <= i < |peers| => JStr(peers[i].address))
  }

  lemma {:induction false} OthersWithoutSocket(peers: seq<Peer>, socket: nat)
    requires forall i :: 0 <= i < |peers| ==> peers[i].socket != socket
    ensures OtherAddresses(peers, socket) == Addresses(peers)
  {
    if peers != [] {
      OthersWithoutSocket(peers[..|peers| - 1], socket);
    }
  }

  /** The peer list for a socket holds the addresses of all peers but the one on it, in order. */
  lemma {:induction false} OthersAreAllButOne(peers: seq<Peer>, k: nat)
    requires DistinctSockets(peers) && k < |peers|
    ensures OtherAddresses(peers, peers[k].socket) == Addresses(peers[..k] + peers[k + 1..])
  {
    var n := |peers| - 1;
    if k == n {
      OthersWithoutSocket(peers[..n], peers[n].socket);
      assert peers[..n] + peers[n + 1..] == peers[..n];
    } else {
      OthersAreAllButOne(peers[..n], k);
      assert peers[..n][..k] == peers[..k] && peers[..n][k + 1..] == peers[k + 1..n];
      assert Addresses(peers[..k] + peers[k + 1..]) ==
             Addresses(peers[..k] + peers[k + 1..n]) + [JStr(peers[n].address)];
    }
  }

  lemma ListedAt(peers: seq<Peer>, socket: nat) returns (k: nat)
    requires Listed(peers, socket)
    ensures k < |peers| && peers[k].socket == socket
  {
    k :| 0 <= k < |peers| && peers[k].socket == socket;
  }

  /** A new connection keeps the sockets of the peers distinct and all former peers, lists the new one under
      its socket, asks it for the blocks from the own height on, and tells it the others' addresses. */
  lemma ConnectionIsGreeted(st: NodeState, peer: Peer) returns (k: nat)
    requires DistinctSockets(st.peers)
    ensures var (next, sends) := Connected(st, peer);
            && next.ledger == st.ledger && next.pool == st.pool
            && DistinctSockets(next.peers) && st.peers <= next.peers && |next.peers| <= |st.peers| + 1
            && k < |next.peers| && next.peers[k].socket == peer.socket
            && (k == |st.peers| ==> next.peers[k] == peer)
            && sends == [Send(peer.socket, SyncRequest(WireHeight(st.ledger))),
                         Send(peer.socket, PeerList(Addresses(next.peers[..k] + next.peers[k + 1..])))]
  {
    var peers := WithPeer(st.peers, peer);
    if !Listed(st.peers, peer.socket) {
      assert peers[|st.peers|].socket == peer.socket;
    }
    k := ListedAt(peers, peer.socket);
    OthersAreAllButOne(peers, k);
  }
}
