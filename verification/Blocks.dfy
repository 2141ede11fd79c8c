/** Blocks and their hashes (`block.h`, `block.cpp`). */
module Blocks {
  import opened Words
  import opened Decimals
  import opened Crypto
  import opened Transactions
  import opened Merkle

  /** 1 BTVD in base units. */
  const COIN: uint64 := 100_000_000

  datatype Header = Header(
    index: uint64, previousHash: string, timestamp: uint64, nonce: uint64, merkleRoot: string,
    difficulty: uint32, energyKwh: uint64, wattSeconds: uint64, energySource: string, minerAddress: string)

  datatype Block = Block(header: Header, transactions: seq<Transaction>, hash: string)

  function TxIds(txs: seq<Transaction>): seq<string> {
    seq(|txs|, i requires 0 <= i < |txs| => txs[i].hash)
  }

  function HeaderText(h: Header): string {
    Decimal(h.index) + h.previousHash + Decimal(h.timestamp) + Decimal(h.nonce)
    + h.merkleRoot + Decimal(h.difficulty) + h.minerAddress
  }

  /** The hashed text; the energy fields are not part of it. */
  function SerializeBlock(b: Block): string {
    HeaderText(b.header) + Concat(TxIds(b.transactions))
  }

  /** The loop of `Block::serialize`. */
  method Serialize(b: Block) returns (s: string)
    ensures s == SerializeBlock(b)
  {
    s := HeaderText(b.header);
    var txs := b.transactions;
    for i := 0 to |txs|
      invariant s + Concat(TxIds(txs)[i..]) == SerializeBlock(b)
    {
      assert TxIds(txs)[i..][1..] == TxIds(txs)[i + 1..];
      assert s + (txs[i].hash + Concat(TxIds(txs)[i + 1..])) == s + txs[i].hash + Concat(TxIds(txs)[i + 1..]);
      s := s + txs[i].hash;
    }
    assert TxIds(txs)[|txs|..] == [];
  }

  function BlockHash(c: Crypto, b: Block): (hash: string)
    ensures IsDigest(hash)
  {
    DoubleSha256(c, SerializeBlock(b))
  }

  function BlockRoot(c: Crypto, b: Block): string {
    MerkleRoot(c, TxIds(b.transactions))
  }

  /** `Block::calculate_merkle_root`: collect the ids, then hash layer by layer. */
  method CalculateRoot(c: Crypto, b: Block) returns (root: string)
    ensures root == BlockRoot(c, b)
  {
    var layer: seq<string> := [];
    for i := 0 to |b.transactions|
      invariant layer == TxIds(b.transactions)[..i]
    {
      layer := layer + [b.transactions[i].hash];
    }
    root := CalculateMerkleRoot(c, layer);
    assert layer == TxIds(b.transactions);
  }

  /** `create_genesis_block` at clock reading `now`. */
  function GenesisBlock(c: Crypto, now: uint64): Block {
    var header := Header(0, NullHash(), now, 0, DoubleSha256(c, ""), 1, 0, 0, "genesis", "genesis");
    var draft := Block(header, [], "");
    draft.(hash := BlockHash(c, draft))
  }

  /** The genesis block stands at position 0, links to 64 zeros, declares difficulty 1, has the root of no ids
      at all, and is named by its hash. */
  lemma GenesisFields(c: Crypto, now: uint64)
    ensures var g := GenesisBlock(c, now);
            && g.transactions == [] && g.header.index == 0 && g.header.nonce == 0 && g.header.timestamp == now
            && |g.header.previousHash| == 64 && (forall i :: 0 <= i < 64 ==> g.header.previousHash[i] == '0')
            && g.header.difficulty == 1 && g.header.merkleRoot == c.sha256(c.sha256("")) == MerkleRoot(c, [])
            && g.header.minerAddress == g.header.energySource == "genesis"
            && g.hash == c.sha256(c.sha256(SerializeBlock(g)))
  {
    var g := GenesisBlock(c, now);
    assert SerializeBlock(g) == SerializeBlock(g.(hash := ""));
  }
}
