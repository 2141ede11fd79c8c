/** What the operations of `Blockchain` compute, as functions on values. */
module Ledger {
  import opened Words
  import opened Decimals
  import opened Crypto
  import opened Transactions
  import opened Blocks
  import opened LeadingZeros

  /** The three fields of a `Blockchain`. */
  datatype LedgerState = LedgerState(blocks: seq<Block>, utxos: map<string, Utxo>, index: map<string, uint64>)

  const EMPTY := LedgerState([], map[], map[])

  // ----- the effect of one block on the UTXO map -----

  function SpentKeys(txs: seq<Transaction>): set<string> {
    set tx, input | tx in txs && input in tx.inputs :: InputKey(input)
  }

  function OutputAt(tx: Transaction, i: nat): Utxo
    requires i < |tx.outputs|
  {
    Utxo(tx.hash, i, tx.outputs[i].address, tx.outputs[i].amount)
  }

  /** The first `n` outputs of a transaction under their keys. */
  function OutputMap(tx: Transaction, n: nat): map<string, Utxo>
    requires n <= |tx.outputs|
  {
    if n == 0 then map[] else OutputMap(tx, n - 1)[UtxoKey(tx.hash, n - 1) := OutputAt(tx, n - 1)]
  }

  function CreatedMap(txs: seq<Transaction>): map<string, Utxo> {
    if txs == [] then map[]
    else
      var last := txs[|txs| - 1];
      CreatedMap(txs[..|txs| - 1]) + OutputMap(last, |last.outputs|)
  }

  /** `apply_block_to_utxo_set`: every input of the block is erased before any output is written. */
  function ApplyTxs(utxos: map<string, Utxo>, txs: seq<Transaction>): map<string, Utxo> {
    (utxos - SpentKeys(txs)) + CreatedMap(txs)
  }

  /** `rebuild_utxo_set` */
  function Replay(blocks: seq<Block>): map<string, Utxo> {
    if blocks == [] then map[]
    else ApplyTxs(Replay(blocks[..|blocks| - 1]), blocks[|blocks| - 1].transactions)
  }

  /** The hash index that `load_from_disk` builds. */
  function IndexOf(blocks: seq<Block>): map<string, uint64> {
    if blocks == [] then map[]
    else
      var last := blocks[|blocks| - 1];
      IndexOf(blocks[..|blocks| - 1])[last.hash := last.header.index]
  }

  function StateOf(blocks: seq<Block>): LedgerState {
    LedgerState(blocks, Replay(blocks), IndexOf(blocks))
  }

  // ----- validation -----

  /** `true`, `false`, or an escaping `std::stoul` exception on malformed hexadecimal. */
  datatype Verdict = Accept | Reject | Throw

  function CheckInput(c: Crypto, utxos: map<string, Utxo>, data: string, input: TxInput): Verdict {
    match AddressFromPublicKey(c, input.publicKey)
    case Threw => Throw
    case Done(address) =>
      if InputKey(input) !in utxos || utxos[InputKey(input)].address != address then Reject
      else
        match VerifyHex(c, data, input.signature, input.publicKey)
        case Threw => Throw
        case Done(ok) => if ok then Accept else Reject
  }

  /** Items are checked in order and the first failure decides. */
  function FirstFailure(verdicts: seq<Verdict>): Verdict {
    if verdicts == [] then Accept
    else if verdicts[0].Accept? then FirstFailure(verdicts[1..])
    else verdicts[0]
  }

  lemma {:induction false} FirstFailureMeaning(verdicts: seq<Verdict>)
    ensures FirstFailure(verdicts).Accept? <==> forall i :: 0 <= i < |verdicts| ==> verdicts[i].Accept?
  {
    if verdicts != [] {
      FirstFailureMeaning(verdicts[1..]);
      assert verdicts == [verdicts[0]] + verdicts[1..];
    }
  }

  function InputVerdicts(c: Crypto, utxos: map<string, Utxo>, data: string, inputs: seq<TxInput>): seq<Verdict> {
    seq(|inputs|, i requires 0 <= i < |inputs| => CheckInput(c, utxos, data, inputs[i]))
  }

  /** `verify_transaction_signatures` */
  function CheckSignatures(c: Crypto, utxos: map<string, Utxo>, tx: Transaction): Verdict {
    FirstFailure(InputVerdicts(c, utxos, SerializeTx(tx), tx.inputs))
  }

  /** One transaction of a block; only the first may be an exempt coinbase. */
  function CheckTx(c: Crypto, utxos: map<string, Utxo>, tx: Transaction, first: bool): Verdict {
    if !ValidStructure(tx) || TxHash(c, tx) != tx.hash then Reject
    else if first && IsCoinbase(tx) then Accept
    else CheckSignatures(c, utxos, tx)
  }

  function TxVerdicts(c: Crypto, utxos: map<string, Utxo>, txs: seq<Transaction>): seq<Verdict> {
    seq(|txs|, i requires 0 <= i < |txs| => CheckTx(c, utxos, txs[i], i == 0))
  }

  function CheckTxs(c: Crypto, utxos: map<string, Utxo>, txs: seq<Transaction>): Verdict {
    FirstFailure(TxVerdicts(c, utxos, txs))
  }

  /** `validate_block` on a chain whose latest block is `latest`. */
  function CheckHeader(c: Crypto, latest: Block, b: Block): Verdict {
    if b.header.index != Wrap64(latest.header.index + 1) then Reject
    else if b.header.previousHash != latest.hash then Reject
    else if BlockHash(c, b) != b.hash then Reject
    else
      match MeetsDifficulty(b.hash, b.header.difficulty)
      case Threw => Throw
      case Done(ok) => if ok && BlockRoot(c, b) == b.header.merkleRoot then Accept else Reject
  }

  /** The decision of `add_block`: an empty chain takes any block. */
  function CheckBlock(c: Crypto, st: LedgerState, b: Block): Verdict {
    if st.blocks == [] then Accept
    else
      var v := CheckHeader(c, st.blocks[|st.blocks| - 1], b);
      if v.Accept? then CheckTxs(c, st.utxos, b.transactions) else v
  }

  function Append(st: LedgerState, b: Block): LedgerState {
    LedgerState(
      st.blocks + [b],
      ApplyTxs(st.utxos, b.transactions),
      st.index[b.hash := if st.blocks == [] then 0 else b.header.index])
  }

  /** The state after `add_block`. */
  function AddBlock(c: Crypto, st: LedgerState, b: Block): LedgerState {
    if CheckBlock(c, st, b).Accept? then Append(st, b) else st
  }

  /** `validate_transaction`, the gate of the mempool. */
  function CheckPooled(c: Crypto, utxos: map<string, Utxo>, tx: Transaction): Verdict {
    if IsCoinbase(tx) || !ValidStructure(tx) || TxHash(c, tx) != tx.hash then Reject
    else if !(InputKeys(tx.inputs) <= utxos.Keys) then Reject
    else CheckSignatures(c, utxos, tx)
  }

  /** `height()`: the last position, and 0 on an empty chain. */
  function HeightOf(st: LedgerState): nat {
    if st.blocks == [] then 0 else |st.blocks| - 1
  }

  /** `get_blocks(from)` */
  function BlocksFrom(st: LedgerState, from: nat): seq<Block> {
    if from >= |st.blocks| then [] else st.blocks[from..]
  }

  // ----- what the checks mean -----

  /** An input is good when its key is present, belongs to the address of its public key, and its
      signature verifies. */
  predicate Owned(c: Crypto, utxos: map<string, Utxo>, data: string, input: TxInput) {
    && InputKey(input) in utxos
    && AddressFromPublicKey(c, input.publicKey) == Done(utxos[InputKey(input)].address)
    && VerifyHex(c, data, input.signature, input.publicKey) == Done(true)
  }

  predicate AllOwned(c: Crypto, utxos: map<string, Utxo>, tx: Transaction) {
    forall input :: input in tx.inputs ==> Owned(c, utxos, SerializeTx(tx), input)
  }

  lemma CheckSignaturesMeaning(c: Crypto, utxos: map<string, Utxo>, tx: Transaction)
    ensures CheckSignatures(c, utxos, tx).Accept? <==> AllOwned(c, utxos, tx)
  {
    var data := SerializeTx(tx);
    var verdicts := InputVerdicts(c, utxos, data, tx.inputs);
    FirstFailureMeaning(verdicts);
    forall i | 0 <= i < |tx.inputs| ensures verdicts[i].Accept? <==> Owned(c, utxos, data, tx.inputs[i]) {
    }
    if CheckSignatures(c, utxos, tx).Accept? {
      forall input | input in tx.inputs ensures Owned(c, utxos, data, input) {
        var i :| 0 <= i < |tx.inputs| && tx.inputs[i] == input;
        assert verdicts[i].Accept?;
      }
    }
  }

  /** The mempool accepts exactly the well-formed, correctly hashed, fully owned non-coinbase
      transactions; they are the ones a block may carry in any position. */
  lemma PooledMeaning(c: Crypto, utxos: map<string, Utxo>, tx: Transaction)
    ensures CheckPooled(c, utxos, tx).Accept? <==>
            !IsCoinbase(tx) && ValidStructure(tx) && TxHash(c, tx) == tx.hash && AllOwned(c, utxos, tx)
    ensures forall first :: CheckPooled(c, utxos, tx).Accept? ==> CheckTx(c, utxos, tx, first).Accept?
    ensures CheckPooled(c, utxos, tx).Accept? ==> InputKeys(tx.inputs) <= utxos.Keys
  {
    CheckSignaturesMeaning(c, utxos, tx);
    if AllOwned(c, utxos, tx) {
      forall input | input in tx.inputs ensures InputKey(input) in utxos {
        assert Owned(c, utxos, SerializeTx(tx), input);
      }
    }
  }

  /** A block whose printed hash was recomputed cannot make the difficulty check throw. */
  lemma HeaderNeverThrows(c: Crypto, latest: Block, b: Block)
    ensures !CheckHeader(c, latest, b).Throw?
    ensures CheckHeader(c, latest, b).Accept? ==> IsDigest(b.hash)
  {
    if BlockHash(c, b) == b.hash {
      DifficultyIsNumericBound(b.hash, b.header.difficulty);
    }
  }

  /** The block is the next one, linked, hashed, difficult enough, and has the right root. */
  predicate SealedOn(c: Crypto, latest: Block, b: Block) {
    && b.header.index == Wrap64(latest.header.index + 1) && b.header.previousHash == latest.hash
    && b.hash == BlockHash(c, b) && b.header.merkleRoot == BlockRoot(c, b)
    && MeetsDifficulty(b.hash, b.header.difficulty) == Done(true)
  }

  /** A transaction is well-formed, correctly hashed, and owned unless it is the leading coinbase. */
  predicate GoodTx(c: Crypto, utxos: map<string, Utxo>, tx: Transaction, first: bool) {
    ValidStructure(tx) && tx.hash == TxHash(c, tx) && ((first && IsCoinbase(tx)) || AllOwned(c, utxos, tx))
  }

  predicate AllGood(c: Crypto, utxos: map<string, Utxo>, txs: seq<Transaction>) {
    forall k :: 0 <= k < |txs| ==> GoodTx(c, utxos, txs[k], k == 0)
  }

  lemma AllGoodCons(c: Crypto, utxos: map<string, Utxo>, head: Transaction, tail: seq<Transaction>)
    ensures AllGood(c, utxos, [head] + tail) <==>
            GoodTx(c, utxos, head, true) && forall k :: 0 <= k < |tail| ==> GoodTx(c, utxos, tail[k], false)
  {
    var txs := [head] + tail;
    assert txs[0] == head;
    assert forall k :: 0 <= k < |tail| ==> txs[k + 1] == tail[k];
    if AllGood(c, utxos, txs) {
      forall k | 0 <= k < |tail| ensures GoodTx(c, utxos, tail[k], false) {
        assert GoodTx(c, utxos, txs[k + 1], false);
      }
    }
    if forall k :: 0 <= k < |tail| ==> GoodTx(c, utxos, tail[k], false) {
      forall k | 1 <= k < |txs| ensures GoodTx(c, utxos, txs[k], k == 0) {
        assert txs[k] == tail[k - 1];
      }
    }
  }

  lemma CheckTxsMeaning(c: Crypto, utxos: map<string, Utxo>, txs: seq<Transaction>)
    ensures CheckTxs(c, utxos, txs).Accept? <==> AllGood(c, utxos, txs)
  {
    var verdicts := TxVerdicts(c, utxos, txs);
    FirstFailureMeaning(verdicts);
    forall k | 0 <= k < |txs| ensures verdicts[k].Accept? <==> GoodTx(c, utxos, txs[k], k == 0) {
      CheckSignaturesMeaning(c, utxos, txs[k]);
    }
  }

  /** `add_block` on a non-empty chain takes exactly the sealed blocks of good transactions. */
  lemma CheckBlockMeaning(c: Crypto, st: LedgerState, b: Block)
    requires st.blocks != []
    ensures CheckBlock(c, st, b).Accept? <==>
            SealedOn(c, st.blocks[|st.blocks| - 1], b) && AllGood(c, st.utxos, b.transactions)
  {
    CheckTxsMeaning(c, st.utxos, b.transactions);
  }

  lemma AcceptedHeader(c: Crypto, st: LedgerState, b: Block)
    requires st.blocks != [] && CheckBlock(c, st, b).Accept?
    ensures var latest := st.blocks[|st.blocks| - 1];
            && b.header.index == Wrap64(latest.header.index + 1)
            && b.header.previousHash == latest.hash
            && b.hash == BlockHash(c, b)
  {
  }

  // ----- what the maps contain -----

  lemma {:induction false} OutputMapKeys(tx: Transaction, n: nat, k: string)
    requires n <= |tx.outputs|
    ensures k in OutputMap(tx, n) <==> exists i :: 0 <= i < n && k == UtxoKey(tx.hash, i)
    ensures k in OutputMap(tx, n) ==>
              var u := OutputMap(tx, n)[k];
              k == UtxoKey(u.txId, u.outputIndex) && u.outputIndex < n && u == OutputAt(tx, u.outputIndex)
  {
    if n > 0 {
      OutputMapKeys(tx, n - 1, k);
    }
  }

  /** Every created entry is an output of a transaction of the list, under its own key. */
  lemma {:induction false} CreatedEntry(txs: seq<Transaction>, k: string)
    requires k in CreatedMap(txs)
    ensures var u := CreatedMap(txs)[k];
            && k == UtxoKey(u.txId, u.outputIndex)
            && exists tx :: tx in txs && u.outputIndex < |tx.outputs| && u == OutputAt(tx, u.outputIndex)
  {
    var last := txs[|txs| - 1];
    OutputMapKeys(last, |last.outputs|, k);
    if k !in OutputMap(last, |last.outputs|) {
      CreatedEntry(txs[..|txs| - 1], k);
    } else {
      assert last in txs;
    }
  }

  lemma CreatedMapStep(txs: seq<Transaction>, i: nat)
    requires i < |txs|
    ensures CreatedMap(txs[..i + 1]) == CreatedMap(txs[..i]) + OutputMap(txs[i], |txs[i].outputs|)
  {
    assert txs[..i + 1][..i] == txs[..i];
  }

  lemma SpentKeysStep(txs: seq<Transaction>, i: nat)
    requires i < |txs|
    ensures SpentKeys(txs[..i + 1]) == SpentKeys(txs[..i]) + InputKeys(txs[i].inputs)
  {
    assert forall tx :: tx in txs[..i + 1] <==> tx in txs[..i] || tx == txs[i];
  }
}
