/** Message handling of a peer-to-peer node (`Node::handle_message`). */
module Nodes {
  import opened Words
  import opened Crypto
  import opened Transactions
  import opened Blocks
  import opened Json
  import opened Ledger
  import opened History
  import opened Persistence
  import opened Mempools
  import opened PendingPool
  import opened Blockchains

  // ----- messages -----

  datatype Message =
    | TxMsg(data: Json)
    | BlockMsg(data: Json)
    | SyncRequest(from: uint64)
    | SyncResponse(blocks: seq<Json>)
    | GetHeight
    | HeightMsg(height: uint64)
    | PeerList(addresses: seq<Json>)
    | Ignored

  /** `j[name]` on a mutable object inserts `null` for a missing member. */
  function AtOrNull(j: Json, name: string): Json {
    if At(j, name).Done? then At(j, name).value else JNull
  }

  /** A message without effect, such as one that throws before doing anything, is `Ignored`. */
  function Decode(j: Json): Message {
    match Str(j, "type")
    case Threw => Ignored
    case Done(kind) =>
      if kind == "tx" then TxMsg(AtOrNull(j, "data"))
      else if kind == "block" then BlockMsg(AtOrNull(j, "data"))
      else if kind == "sync_request" then
        (match U64(j, "from_height") case Done(from) => SyncRequest(from) case Threw => Ignored)
      else if kind == "sync_response" then
        (match AtOrNull(j, "blocks") case JArr(blocks) => SyncResponse(blocks) case _ => Ignored)
      else if kind == "get_height" then GetHeight
      else if kind == "height" then
        (match U64(j, "height") case Done(height) => HeightMsg(height) case Threw => Ignored)
      else if kind == "peer_list" then
        (match AtOrNull(j, "peers") case JArr(addresses) => PeerList(addresses) case _ => Ignored)
      else Ignored
  }

  function Encode(m: Message): Json {
    match m
    case TxMsg(data) => JObj(map["type" := JStr("tx"), "data" := data])
    case BlockMsg(data) => JObj(map["type" := JStr("block"), "data" := data])
    case SyncRequest(from) => JObj(map["type" := JStr("sync_request"), "from_height" := JNum(from)])
    case SyncResponse(blocks) => JObj(map["type" := JStr("sync_response"), "blocks" := JArr(blocks)])
    case GetHeight => JObj(map["type" := JStr("get_height")])
    case HeightMsg(height) => JObj(map["type" := JStr("height"), "height" := JNum(height)])
    case PeerList(addresses) => JObj(map["type" := JStr("peer_list"), "peers" := JArr(addresses)])
    case Ignored => JNull
  }

  lemma KindNames()
    ensures |"tx"| == 2 && |"block"| == 5 && |"sync_request"| == 12 && |"sync_response"| == 13
    ensures |"get_height"| == 10 && |"height"| == 6 && |"peer_list"| == 9
    ensures |"type"| == |"data"| == 4 && "type" != "data" && |"from_height"| == 11 && |"blocks"| == 6 && |"peers"| == 5
  {
    assert "type"[0] == 't' && "data"[0] == 'd';
  }

  /** What one node sends is what the other one decodes. */
  lemma DecodeEncode(m: Message)
    ensures Decode(Encode(m)) == m
  {
    KindNames();
  }

  // ----- the handler as a function -----

  datatype Peer = Peer(socket: nat, address: string, incoming: bool)

  datatype NodeState = NodeState(ledger: LedgerState, pool: PoolState, peers: seq<Peer>)

  datatype Send = Send(socket: nat, message: Message)

  /** `send_to_all` */
  function Broadcast(peers: seq<Peer>, message: Message): seq<Send> {
    seq(|peers|, i requires 0 <= i < |peers| => Send(peers[i].socket, message))
  }

  /** `chain_.height()` as it goes on the wire. */
  function WireHeight(st: LedgerState): uint64 {
    Wrap64(HeightOf(st))
  }

  /** The blocks of a sync response, in order, until one throws. */
  function SyncAll(c: Crypto, st: LedgerState, items: seq<Json>): LedgerState
    decreases |items|
  {
    if items == [] then st
    else
      match BlockFromJson(items[0])
      case Threw => st
      case Done(b) => if CheckBlock(c, st, b).Throw? then st else SyncAll(c, AddBlock(c, st, b), items[1..])
  }

  function HandleTx(c: Crypto, st: NodeState, data: Json): (NodeState, seq<Send>) {
    match TxFromJson(data)
    case Threw => (st, [])
    case Done(tx) =>
      if CheckPooled(c, st.ledger.utxos, tx).Accept? then
        (st.(pool := AddTx(st.pool, tx)), Broadcast(st.peers, TxMsg(TxToJson(tx))))
      else (st, [])
  }

  function HeaderVerdict(c: Crypto, st: LedgerState, b: Block): Verdict {
    if st.blocks == [] then Reject else CheckHeader(c, st.blocks[|st.blocks| - 1], b)
  }

  /** Only the header decides about relaying; whether `add_block` then took the block does not. */
  function HandleBlock(c: Crypto, st: NodeState, data: Json): (NodeState, seq<Send>) {
    match BlockFromJson(data)
    case Threw => (st, [])
    case Done(b) =>
      if !HeaderVerdict(c, st.ledger, b).Accept? || CheckBlock(c, st.ledger, b).Throw? then (st, [])
      else
        (st.(ledger := AddBlock(c, st.ledger, b), pool := RemoveAll(st.pool, b.transactions)),
         Broadcast(st.peers, BlockMsg(BlockToJson(b))))
  }

  function Handle(c: Crypto, st: NodeState, message: Message, socket: nat): (NodeState, seq<Send>) {
    match message
    case TxMsg(data) => HandleTx(c, st, data)
    case BlockMsg(data) => HandleBlock(c, st, data)
    case SyncRequest(from) => (st, [Send(socket, SyncResponse(BlocksToJson(BlocksFrom(st.ledger, from))))])
    case SyncResponse(items) => (st.(ledger := SyncAll(c, st.ledger, items)), [])
    case GetHeight => (st, [Send(socket, HeightMsg(WireHeight(st.ledger)))])
    case HeightMsg(height) =>
      (st, if height > WireHeight(st.ledger) then [Send(socket, SyncRequest(WireHeight(st.ledger)))] else [])
    case PeerList(_) => (st, [])
    case Ignored => (st, [])
  }

  /** The addresses of all peers on other sockets, in order. */
  function OtherAddresses(peers: seq<Peer>, socket: nat): seq<Json> {
    if peers == [] then []
    else
      var last := peers[|peers| - 1];
      OtherAddresses(peers[..|peers| - 1], socket) + if last.socket != socket then [JStr(last.address)] else []
  }

  predicate Listed(peers: seq<Peer>, socket: nat) {
    exists i :: 0 <= i < |peers| && peers[i].socket == socket
  }

  function WithPeer(peers: seq<Peer>, peer: Peer): seq<Peer> {
    if Listed(peers, peer.socket) then peers else peers + [peer]
  }

  /** A new connection: the peer is listed once, a sync request goes out, and the other peers' addresses. */
  function Connected(st: NodeState, peer: Peer): (NodeState, seq<Send>) {
    (st.(peers := WithPeer(st.peers, peer)),
     [Send(peer.socket, SyncRequest(WireHeight(st.ledger))),
      Send(peer.socket, PeerList(OtherAddresses(WithPeer(st.peers, peer), peer.socket)))])
  }

  lemma {:induction false} SyncKeepsInv(c: Crypto, st: LedgerState, items: seq<Json>)
    requires LedgerInv(c, st)
    ensures LedgerInv(c, SyncAll(c, st, items)) && st.blocks <= SyncAll(c, st, items).blocks
    decreases |items|
  {
    if items != [] && BlockFromJson(items[0]).Done? && !CheckBlock(c, st, BlockFromJson(items[0]).value).Throw? {
      var b := BlockFromJson(items[0]).value;
      AddKeepsInv(c, st, b);
      SyncKeepsInv(c, AddBlock(c, st, b), items[1..]);
    }
  }

  /** Whatever arrives from whomever, the node's maps stay those of a replay of a well-built chain,
      the chain only grows at its end, and the pool index stays faithful. */
  lemma AnyMessageKeepsInvariants(c: Crypto, st: NodeState, m: Message, socket: nat)
    requires LedgerInv(c, st.ledger) && PoolInv(st.pool)
    ensures var next := Handle(c, st, m, socket).0;
            LedgerInv(c, next.ledger) && PoolInv(next.pool) && st.ledger.blocks <= next.ledger.blocks
  {
    match m {
      case TxMsg(data) =>
        if TxFromJson(data).Done? {
          AddKeepsPoolInv(st.pool, TxFromJson(data).value);
        }
      case BlockMsg(data) =>
        if BlockFromJson(data).Done? {
          AddKeepsInv(c, st.ledger, BlockFromJson(data).value);
          RemoveAllMeaning(st.pool, BlockFromJson(data).value.transactions);
        }
      case SyncResponse(items) => SyncKeepsInv(c, st.ledger, items);
      case _ =>
    }
  }

  /** A transaction reaches the pool exactly when it is valid and admitted, but goes on to the peers
      already when it is valid. */
  lemma RelayedWithoutBeingPooledIff(c: Crypto, st: NodeState, tx: Transaction)
    requires st.peers != []
    ensures var (next, sends) := HandleTx(c, st, TxToJson(tx));
            && (sends != [] <==> CheckPooled(c, st.ledger.utxos, tx).Accept?)
            && (next.pool != st.pool <==> sends != [] && Admits(st.pool, tx))
            && next.ledger == st.ledger && next.peers == st.peers
  {
    TxRoundTrip(tx);
    assert tx.hash !in st.pool.txs ==> AddTx(st.pool, tx) == st.pool || tx.hash in AddTx(st.pool, tx).txs;
  }

  lemma HeaderFitsIff(c: Crypto, st: LedgerState, b: Block)
    requires st.blocks != []
    ensures HeaderVerdict(c, st, b).Accept? <==> SealedOn(c, st.blocks[|st.blocks| - 1], b)
    ensures HeaderVerdict(c, st, b).Accept? ==> CheckBlock(c, st, b) == CheckTxs(c, st.utxos, b.transactions)
  {
  }

  lemma BlockHandled(c: Crypto, st: NodeState, data: Json, b: Block, next: NodeState, sends: seq<Send>)
    requires st.peers != [] && BlockFromJson(data) == Done(b) && HandleBlock(c, st, data) == (next, sends)
    ensures sends != [] <==> HeaderVerdict(c, st.ledger, b).Accept? && !CheckBlock(c, st.ledger, b).Throw?
    ensures sends != [] ==> next.ledger == AddBlock(c, st.ledger, b)
  {
  }

  lemma AddedUnlessTurnedAway(c: Crypto, st: LedgerState, b: Block)
    requires st.blocks != [] && HeaderVerdict(c, st, b).Accept? && !CheckBlock(c, st, b).Throw?
    ensures AddBlock(c, st, b).blocks == st.blocks <==> CheckTxs(c, st.utxos, b.transactions).Reject?
  {
    HeaderFitsIff(c, st, b);
  }

  /** A block goes on to the peers exactly when its header fits and checking it does not throw; when one
      of its transactions is turned away it is relayed without having been added. */
  lemma RelayedWithoutBeingAddedIff(c: Crypto, st: NodeState, data: Json, b: Block, next: NodeState, sends: seq<Send>)
    requires st.ledger.blocks != [] && st.peers != []
    requires BlockFromJson(data) == Done(b) && HandleBlock(c, st, data) == (next, sends)
    ensures sends != [] && next.ledger.blocks == st.ledger.blocks <==>
            SealedOn(c, st.ledger.blocks[|st.ledger.blocks| - 1], b) &&
                CheckTxs(c, st.ledger.utxos, b.transactions).Reject?
  {
    BlockHandled(c, st, data, b, next, sends);
    HeaderFitsIff(c, st.ledger, b);
    if HeaderVerdict(c, st.ledger, b).Accept? && !CheckBlock(c, st.ledger, b).Throw? {
      AddedUnlessTurnedAway(c, st.ledger, b);
      assert sends != [];
    } else {
      assert sends == [];
    }
  }

  // ----- the handler as a method on objects -----

  class Node {
    const chain: Blockchain
    const mempool: Mempool
    var peers: seq<Peer>
    /** What has been written to the sockets. */
    var outbox: seq<Send>

    function State(): NodeState
      reads this, chain, mempool
    {
      NodeState(chain.State(), mempool.State(), peers)
    }

    constructor (chain: Blockchain, mempool: Mempool)
      ensures this.chain == chain && this.mempool == mempool && outbox == []
      ensures State() == NodeState(chain.State(), mempool.State(), [])
    {
      this.chain, this.mempool, peers, outbox := chain, mempool, [], [];
    }

    method SendToAll(message: Message)
      modifies `outbox
      ensures outbox == old(outbox) + Broadcast(peers, message)
    {
      for i := 0 to |peers|
        invariant outbox == old(outbox) + Broadcast(peers, message)[..i]
      {
        outbox := outbox + [Send(peers[i].socket, message)];
      }
      assert Broadcast(peers, message)[..|peers|] == Broadcast(peers, message);
    }

    method AddPeer(peer: Peer)
      modifies `peers
      ensures peers == WithPeer(old(peers), peer)
    {
      for i := 0 to |peers|
        invariant peers == old(peers) && forall k :: 0 <= k < i ==> peers[k].socket != peer.socket
      {
        if peers[i].socket == peer.socket {
          return;
        }
      }
      peers := peers + [peer];
    }

    method SendPeerList(socket: nat)
      modifies `outbox
      ensures outbox == old(outbox) + [Send(socket, PeerList(OtherAddresses(peers, socket)))]
    {
      var addresses: seq<Json> := [];
      for i := 0 to |peers|
        invariant addresses == OtherAddresses(peers[..i], socket)
      {
        if peers[i].socket != socket {
          addresses := addresses + [JStr(peers[i].address)];
        }
        assert peers[..i + 1][..i] == peers[..i];
      }
      assert peers[..|peers|] == peers;
      outbox := outbox + [Send(socket, PeerList(addresses))];
    }

    /** What a new connection does first: `add_peer`, `request_sync` and `send_peer_list`. */
    method Connect(peer: Peer)
      modifies this
      ensures var (next, sent) := Connected(old(State()), peer);
              State() == next && outbox == old(outbox) + sent
    {
      AddPeer(peer);
      var height := chain.Height();
      outbox := outbox + [Send(peer.socket, SyncRequest(Wrap64(height)))];
      SendPeerList(peer.socket);
    }

    method HandleMessage(j: Json, socket: nat)
      modifies this, chain, mempool
      ensures var (next, sent) := Handle(chain.crypto, old(State()), Decode(j), socket);
              State() == next && outbox == old(outbox) + sent
    {
      match Decode(j) {
        case TxMsg(data) => HandleTxMessage(data);
        case BlockMsg(data) => HandleBlockMessage(data);
        case SyncRequest(from) =>
          var blocks := chain.GetBlocks(from);
          outbox := outbox + [Send(socket, SyncResponse(BlocksToJson(blocks)))];
        case SyncResponse(items) => HandleSyncResponse(items);
        case GetHeight =>
          var height := chain.Height();
          outbox := outbox + [Send(socket, HeightMsg(Wrap64(height)))];
        case HeightMsg(peerHeight) =>
          var height := chain.Height();
          if peerHeight > Wrap64(height) {
            outbox := outbox + [Send(socket, SyncRequest(Wrap64(height)))];
          }
        case _ =>
      }
    }

    method HandleTxMessage(data: Json)
      modifies this, mempool
      ensures var (next, sent) := HandleTx(chain.crypto, old(State()), data);
              State() == next && outbox == old(outbox) + sent
    {
      var tx := TxFromJson(data);
      if tx.Threw? {
        return;
      }
      var verdict := chain.ValidateTransaction(tx.value);
      if verdict.Accept? {
        var added := mempool.AddTransaction(tx.value);
        SendToAll(TxMsg(TxToJson(tx.value)));
      }
    }

    method HandleBlockMessage(data: Json)
      modifies this, chain, mempool
      ensures var (next, sent) := HandleBlock(chain.crypto, old(State()), data);
              State() == next && outbox == old(outbox) + sent
    {
      var block := DecodeBlock(data);
      if block.Threw? {
        return;
      }
      var header := chain.ValidateBlock(block.value);
      if !header.Accept? {
        return;
      }
      var added := chain.AddBlock(block.value);
      if added.Throw? {
        return;
      }
      mempool.RemoveConfirmed(block.value.transactions);
      SendToAll(BlockMsg(BlockToJson(block.value)));
    }

    method HandleSyncResponse(items: seq<Json>)
      modifies chain
      ensures chain.State() == SyncAll(chain.crypto, old(chain.State()), items)
    {
      assert items[0..] == items;
      for i := 0 to |items|
        invariant SyncAll(chain.crypto, chain.State(), items[i..]) == SyncAll(chain.crypto, old(chain.State()), items)
      {
        assert items[i..][1..] == items[i + 1..];
        var block := DecodeBlock(items[i]);
        if block.Threw? {
          return;
        }
        var added := chain.AddBlock(block.value);
        if added.Throw? {
          return;
        }
      }
    }
  }
}
