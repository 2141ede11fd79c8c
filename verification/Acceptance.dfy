/** What the checks of `add_block` and of the pool accept, said of the fields, the two hash functions and the
    signature scheme alone. */
module Acceptance {
  import opened Words
  import opened Decimals
  import opened Hex
  import opened Crypto
  import opened Transactions
  import opened Merkle
  import opened LeadingZeros
  import opened Blocks
  import opened Ledger

  /** The bytes as a C++ string. */
  ghost predicate IsText(s: string, bytes: seq<uint8>) {
    |s| == |bytes| && forall i :: 0 <= i < |bytes| ==> s[i] as int == bytes[i]
  }

  lemma TextOfBytes(s: string, bytes: seq<uint8>)
    requires IsText(s, bytes)
    ensures s == BytesToString(bytes)
  {
  }

  /** The input names an unspent output, its public key hashes to the owner's address, and its signature
      verifies for the text. */
  ghost predicate SpendsLawfully(c: Crypto, utxos: map<string, Utxo>, text: string, input: TxInput) {
    var key, signature := HexToBytes(input.publicKey), HexToBytes(input.signature);
    && key.Done? && signature.Done?
    && UtxoKey(input.txId, input.outputIndex) in utxos
    && (forall s :: IsText(s, key.value) ==>
          utxos[UtxoKey(input.txId, input.outputIndex)].address == c.sha256(s)[..40])
    && c.verify(text, signature.value, key.value)
  }

  lemma OwnedIsLawful(c: Crypto, utxos: map<string, Utxo>, text: string, input: TxInput)
    ensures Owned(c, utxos, text, input) <==> SpendsLawfully(c, utxos, text, input)
  {
    var key := HexToBytes(input.publicKey);
    if key.Done? {
      assert IsText(BytesToString(key.value), key.value);
      forall s | IsText(s, key.value) ensures s == BytesToString(key.value) {
        TextOfBytes(s, key.value);
      }
    }
  }

  ghost predicate AllLawful(c: Crypto, utxos: map<string, Utxo>, tx: Transaction) {
    forall i :: 0 <= i < |tx.inputs| ==> SpendsLawfully(c, utxos, SerializeTx(tx), tx.inputs[i])
  }

  /** `verify_transaction_signatures` accepts exactly the transactions whose inputs all spend lawfully. */
  lemma SignaturesAcceptedIff(c: Crypto, utxos: map<string, Utxo>, tx: Transaction)
    ensures CheckSignatures(c, utxos, tx).Accept? <==> AllLawful(c, utxos, tx)
  {
    CheckSignaturesMeaning(c, utxos, tx);
    forall input | input in tx.inputs
      ensures Owned(c, utxos, SerializeTx(tx), input) <==> SpendsLawfully(c, utxos, SerializeTx(tx), input)
    {
      OwnedIsLawful(c, utxos, SerializeTx(tx), input);
    }
    forall i | 0 <= i < |tx.inputs| ensures tx.inputs[i] in tx.inputs {
    }
  }

  /** With a signature that the scheme refuses, or a key that is not the owner's, nothing is accepted. */
  lemma WrongSignatureIsRefused(c: Crypto, utxos: map<string, Utxo>, tx: Transaction, i: nat, key: seq<uint8>,
                                signature: seq<uint8>)
    requires i < |tx.inputs| && tx.inputs[i].publicKey == BytesToHex(key)
    requires tx.inputs[i].signature == BytesToHex(signature) && !c.verify(SerializeTx(tx), signature, key)
    ensures !CheckSignatures(c, utxos, tx).Accept? && !CheckPooled(c, utxos, tx).Accept?
  {
    DecodeEncode(key);
    DecodeEncode(signature);
    SignaturesAcceptedIff(c, utxos, tx);
    assert !SpendsLawfully(c, utxos, SerializeTx(tx), tx.inputs[i]);
  }

  // ----- exceptions -----

  /** The verdict on one input, in the order of the code: a malformed key throws first; an output that is
      missing or another's is refused before the signature is decoded. */
  lemma InputThrowsIff(c: Crypto, utxos: map<string, Utxo>, text: string, input: TxInput)
    ensures CheckInput(c, utxos, text, input).Throw? <==>
            HexToBytes(input.publicKey).Threw? ||
            (HexToBytes(input.signature).Threw? && UtxoKey(input.txId, input.outputIndex) in utxos &&
             utxos[UtxoKey(input.txId, input.outputIndex)].address ==
             c.sha256(BytesToString(HexToBytes(input.publicKey).value))[..40])
    ensures CheckInput(c, utxos, text, input).Accept? <==> SpendsLawfully(c, utxos, text, input)
  {
    OwnedIsLawful(c, utxos, text, input);
  }

  /** A list of verdicts ends with the first one that does not accept. */
  lemma {:induction false} FirstFailureIsFirst(verdicts: seq<Verdict>, i: nat)
    requires i < |verdicts| && !verdicts[i].Accept? && forall k :: 0 <= k < i ==> verdicts[k].Accept?
    ensures FirstFailure(verdicts) == verdicts[i]
  {
    if i > 0 {
      FirstFailureIsFirst(verdicts[1..], i - 1);
    }
  }

  /** The first input that is not lawful decides between refusal and exception. */
  lemma SignaturesVerdict(c: Crypto, utxos: map<string, Utxo>, tx: Transaction, i: nat)
    requires i < |tx.inputs| && !SpendsLawfully(c, utxos, SerializeTx(tx), tx.inputs[i])
    requires forall k :: 0 <= k < i ==> SpendsLawfully(c, utxos, SerializeTx(tx), tx.inputs[k])
    ensures CheckSignatures(c, utxos, tx) == CheckInput(c, utxos, SerializeTx(tx), tx.inputs[i])
  {
    var verdicts := InputVerdicts(c, utxos, SerializeTx(tx), tx.inputs);
    forall k | 0 <= k <= i ensures verdicts[k].Accept? <==> SpendsLawfully(c, utxos, SerializeTx(tx), tx.inputs[k]) {
      InputThrowsIff(c, utxos, SerializeTx(tx), tx.inputs[k]);
    }
    FirstFailureIsFirst(verdicts, i);
  }

  // ----- transactions -----

  predicate HasShape(tx: Transaction) {
    && |tx.inputs| > 0 && |tx.outputs| > 0
    && (forall i :: 0 <= i < |tx.outputs| ==> tx.outputs[i].amount > 0 && |tx.outputs[i].address| > 0)
    && (forall i :: 0 <= i < |tx.inputs| ==> |tx.inputs[i].txId| > 0)
  }

  predicate CarriesItsId(c: Crypto, tx: Transaction) {
    tx.hash == c.sha256(c.sha256(SerializeTx(tx)))
  }

  /** One input that names 64 zeros and is signed with the word `coinbase`. */
  predicate LooksLikeReward(tx: Transaction) {
    && |tx.inputs| == 1 && |tx.inputs[0].txId| == 64 && tx.inputs[0].signature == "coinbase"
    && forall i :: 0 <= i < 64 ==> tx.inputs[0].txId[i] == '0'
  }

  lemma RewardIsCoinbase(tx: Transaction)
    ensures LooksLikeReward(tx) <==> IsCoinbase(tx)
  {
  }

  lemma TxAcceptedIff(c: Crypto, utxos: map<string, Utxo>, tx: Transaction, first: bool)
    ensures CheckTx(c, utxos, tx, first).Accept? <==>
            HasShape(tx) && CarriesItsId(c, tx) && ((first && LooksLikeReward(tx)) || AllLawful(c, utxos, tx))
  {
    RewardIsCoinbase(tx);
    SignaturesAcceptedIff(c, utxos, tx);
  }

  /** The gate of the pool; there is no exemption. */
  lemma PooledAcceptedIff(c: Crypto, utxos: map<string, Utxo>, tx: Transaction)
    ensures CheckPooled(c, utxos, tx).Accept? <==>
            HasShape(tx) && CarriesItsId(c, tx) && !LooksLikeReward(tx) && AllLawful(c, utxos, tx)
  {
    RewardIsCoinbase(tx);
    PooledMeaning(c, utxos, tx);
    SignaturesAcceptedIff(c, utxos, tx);
    CheckSignaturesMeaning(c, utxos, tx);
  }

  /** The pool's gate throws exactly when everything up to the signatures is in order, all outputs are
      there, and checking the signatures throws. */
  lemma PooledThrowsIff(c: Crypto, utxos: map<string, Utxo>, tx: Transaction)
    ensures CheckPooled(c, utxos, tx).Throw? <==>
            && HasShape(tx) && CarriesItsId(c, tx) && !LooksLikeReward(tx)
            && (forall i :: 0 <= i < |tx.inputs| ==> UtxoKey(tx.inputs[i].txId, tx.inputs[i].outputIndex) in utxos)
            && CheckSignatures(c, utxos, tx).Throw?
  {
    RewardIsCoinbase(tx);
    forall i | 0 <= i < |tx.inputs| ensures InputKey(tx.inputs[i]) in InputKeys(tx.inputs) {
      assert tx.inputs[i] in tx.inputs;
    }
  }

  // ----- blocks -----

  predicate AreIds(ids: seq<string>, txs: seq<Transaction>) {
    |ids| == |txs| && forall i :: 0 <= i < |ids| ==> ids[i] == txs[i].hash
  }

  /** The next block: position, link, hash, at most 256 bits of difficulty which the hash as a number meets,
      and the root over the ids. */
  ghost predicate ContinuesFrom(c: Crypto, latest: Block, b: Block) {
    && b.header.index == (latest.header.index + 1) % 0x1_0000_0000_0000_0000
    && b.header.previousHash == latest.hash
    && b.hash == c.sha256(c.sha256(SerializeBlock(b)))
    && b.header.difficulty <= 256 && HexToBytes(b.hash).Done?
    && Value(HexToBytes(b.hash).value) < Pow2(256 - b.header.difficulty)
    && (forall ids: seq<string> :: AreIds(ids, b.transactions) ==> b.header.merkleRoot == MerkleRoot(c, ids))
  }

  lemma RootIsOverIds(c: Crypto, b: Block)
    ensures b.header.merkleRoot == BlockRoot(c, b) <==>
            forall ids: seq<string> :: AreIds(ids, b.transactions) ==> b.header.merkleRoot == MerkleRoot(c, ids)
  {
    assert AreIds(TxIds(b.transactions), b.transactions);
    forall ids: seq<string> | AreIds(ids, b.transactions) ensures ids == TxIds(b.transactions) {
    }
  }

  lemma DifficultyIsMet(hash: string, difficulty: uint32)
    requires IsDigest(hash)
    ensures MeetsDifficulty(hash, difficulty) == Done(true) <==>
            difficulty <= 256 && HexToBytes(hash).Done? && Value(HexToBytes(hash).value) < Pow2(256 - difficulty)
  {
    DifficultyIsNumericBound(hash, difficulty);
  }

  lemma SealedIsContinuing(c: Crypto, latest: Block, b: Block)
    ensures SealedOn(c, latest, b) <==> ContinuesFrom(c, latest, b)
  {
    RootIsOverIds(c, b);
    if b.hash == BlockHash(c, b) {
      DifficultyIsMet(b.hash, b.header.difficulty);
    }
  }

  /** `add_block` on a non-empty chain takes exactly the blocks that continue from the latest one and whose
      transactions all have shape and id and spend lawfully, the first one also if it looks like a reward. */
  lemma BlockAcceptedIff(c: Crypto, st: LedgerState, b: Block)
    requires st.blocks != []
    ensures CheckBlock(c, st, b).Accept? <==>
            && ContinuesFrom(c, st.blocks[|st.blocks| - 1], b)
            && forall k :: 0 <= k < |b.transactions| ==>
                 var tx := b.transactions[k];
                 HasShape(tx) && CarriesItsId(c, tx) && ((k == 0 && LooksLikeReward(tx)) || AllLawful(c, st.utxos, tx))
  {
    CheckBlockMeaning(c, st, b);
    SealedIsContinuing(c, st.blocks[|st.blocks| - 1], b);
    forall k | 0 <= k < |b.transactions|
      ensures var tx := b.transactions[k];
              GoodTx(c, st.utxos, tx, k == 0) <==>
              HasShape(tx) && CarriesItsId(c, tx) && ((k == 0 && LooksLikeReward(tx)) || AllLawful(c, st.utxos, tx))
    {
      RewardIsCoinbase(b.transactions[k]);
      SignaturesAcceptedIff(c, st.utxos, b.transactions[k]);
      CheckSignaturesMeaning(c, st.utxos, b.transactions[k]);
    }
  }
}
