/** The `Blockchain` object: fields updated in place, proved against the functions of `Ledger`. */
module Blockchains {
  import opened Words
  import opened Decimals
  import opened Crypto
  import opened Transactions
  import opened Blocks
  import opened LeadingZeros
  import opened Json
  import opened Ledger
  import opened History
  import opened Persistence
  import opened Sums

  datatype ChainFile = Missing | Unparsable | Parsed(items: seq<Json>)

  class Blockchain {
    const crypto: Crypto
    var chain: seq<Block>
    var utxoSet: map<string, Utxo>
    var hashIndex: map<string, uint64>

    function State(): LedgerState
      reads this
    {
      LedgerState(chain, utxoSet, hashIndex)
    }

    constructor (crypto: Crypto)
      ensures this.crypto == crypto && State() == EMPTY
    {
      this.crypto := crypto;
      chain, utxoSet, hashIndex := [], map[], map[];
    }

    method Init(now: uint64)
      modifies this
      ensures State() == Execute(crypto, old(State()), Operation.Init(now))
    {
      if chain != [] {
        return;
      }
      var genesis := GenesisBlock(crypto, now);
      chain := chain + [genesis];
      hashIndex := hashIndex[genesis.hash := 0];
      assert utxoSet - {} + map[] == utxoSet;
      assert SpentKeys([]) == {} && CreatedMap([]) == map[];
    }

    method VerifyTransactionSignatures(tx: Transaction) returns (v: Verdict)
      ensures v == CheckSignatures(crypto, utxoSet, tx)
    {
      var data := Transactions.Serialize(tx);
      ghost var verdicts := InputVerdicts(crypto, utxoSet, data, tx.inputs);
      assert verdicts[0..] == verdicts;
      for i := 0 to |tx.inputs|
        invariant FirstFailure(verdicts[i..]) == FirstFailure(verdicts)
      {
        assert verdicts[i..][1..] == verdicts[i + 1..];
        var input := tx.inputs[i];
        var address := AddressFromPublicKey(crypto, input.publicKey);
        if address.Threw? {
          return Throw;
        }
        if InputKey(input) !in utxoSet || utxoSet[InputKey(input)].address != address.value {
          return Reject;
        }
        var verified := VerifyHex(crypto, data, input.signature, input.publicKey);
        if verified.Threw? {
          return Throw;
        }
        if !verified.value {
          return Reject;
        }
      }
      v := Accept;
    }

    method ValidateBlock(b: Block) returns (v: Verdict)
      ensures v == if chain == [] then Reject else CheckHeader(crypto, chain[|chain| - 1], b)
    {
      if chain == [] {
        return Reject;
      }
      var latest := chain[|chain| - 1];
      if b.header.index != Wrap64(latest.header.index + 1) || b.header.previousHash != latest.hash {
        return Reject;
      }
      var text := Blocks.Serialize(b);
      if DoubleSha256(crypto, text) != b.hash {
        return Reject;
      }
      var enough := CheckDifficulty(b.hash, b.header.difficulty);
      if enough.Threw? {
        return Throw;
      }
      if !enough.value {
        return Reject;
      }
      var root := CalculateRoot(crypto, b);
      v := if root == b.header.merkleRoot then Accept else Reject;
    }

    method ValidateInBlock(tx: Transaction, first: bool) returns (v: Verdict)
      ensures v == CheckTx(crypto, utxoSet, tx, first)
    {
      var wellFormed := IsValidStructure(tx);
      if !wellFormed {
        return Reject;
      }
      var text := Transactions.Serialize(tx);
      if DoubleSha256(crypto, text) != tx.hash {
        return Reject;
      }
      if first && IsCoinbase(tx) {
        return Accept;
      }
      v := VerifyTransactionSignatures(tx);
    }

    method ValidateTransactions(txs: seq<Transaction>) returns (v: Verdict)
      ensures v == CheckTxs(crypto, utxoSet, txs)
    {
      ghost var verdicts := TxVerdicts(crypto, utxoSet, txs);
      assert verdicts[0..] == verdicts;
      for i := 0 to |txs|
        invariant FirstFailure(verdicts[i..]) == FirstFailure(verdicts)
      {
        assert verdicts[i..][1..] == verdicts[i + 1..];
        v := ValidateInBlock(txs[i], i == 0);
        if !v.Accept? {
          return;
        }
      }
      v := Accept;
    }

    /** `add_block`: `Accept` is the return value true, and nothing changes otherwise. */
    method AddBlock(b: Block) returns (v: Verdict)
      modifies this
      ensures v == CheckBlock(crypto, old(State()), b)
      ensures State() == Ledger.AddBlock(crypto, old(State()), b)
    {
      if chain == [] {
        chain, hashIndex := [b], hashIndex[b.hash := 0];
        ApplyBlockToUtxoSet(b);
        return Accept;
      }
      v := ValidateBlock(b);
      if v.Accept? {
        v := ValidateTransactions(b.transactions);
      }
      if v.Accept? {
        chain, hashIndex := chain + [b], hashIndex[b.hash := b.header.index];
        ApplyBlockToUtxoSet(b);
      }
    }

    /** All inputs of the block are erased first, then all outputs are written. */
    method ApplyBlockToUtxoSet(b: Block)
      modifies this`utxoSet
      ensures utxoSet == ApplyTxs(old(utxoSet), b.transactions)
    {
      EraseSpent(b.transactions);
      WriteCreated(b.transactions);
    }

    method EraseSpent(txs: seq<Transaction>)
      modifies this`utxoSet
      ensures utxoSet == old(utxoSet) - SpentKeys(txs)
    {
      for i := 0 to |txs|
        invariant utxoSet == old(utxoSet) - SpentKeys(txs[..i])
      {
        EraseInputs(txs[i].inputs);
        SpentKeysStep(txs, i);
      }
      assert txs[..|txs|] == txs;
    }

    method WriteCreated(txs: seq<Transaction>)
      modifies this`utxoSet
      ensures utxoSet == old(utxoSet) + CreatedMap(txs)
    {
      for i := 0 to |txs|
        invariant utxoSet == old(utxoSet) + CreatedMap(txs[..i])
      {
        WriteOutputs(txs[i]);
        CreatedMapStep(txs, i);
        MergeAssociative(old(utxoSet), CreatedMap(txs[..i]), OutputMap(txs[i], |txs[i].outputs|));
      }
      assert txs[..|txs|] == txs;
    }

    method EraseInputs(inputs: seq<TxInput>)
      modifies this`utxoSet
      ensures utxoSet == old(utxoSet) - InputKeys(inputs)
    {
      for j := 0 to |inputs|
        invariant utxoSet == old(utxoSet) - InputKeys(inputs[..j])
      {
        utxoSet := utxoSet - {InputKey(inputs[j])};
        assert InputKeys(inputs[..j + 1]) == InputKeys(inputs[..j]) + {InputKey(inputs[j])};
      }
      assert inputs[..|inputs|] == inputs;
    }

    method WriteOutputs(tx: Transaction)
      modifies this`utxoSet
      ensures utxoSet == old(utxoSet) + OutputMap(tx, |tx.outputs|)
    {
      for j := 0 to |tx.outputs|
        invariant utxoSet == old(utxoSet) + OutputMap(tx, j)
      {
        utxoSet := utxoSet[UtxoKey(tx.hash, j) := OutputAt(tx, j)];
      }
    }

    method RebuildUtxoSet()
      modifies this`utxoSet
      ensures State() == Execute(crypto, old(State()), Rebuild)
    {
      utxoSet := map[];
      for i := 0 to |chain|
        invariant utxoSet == Replay(chain[..i])
      {
        ApplyBlockToUtxoSet(chain[i]);
        assert chain[..i + 1][..i] == chain[..i];
      }
      assert chain[..|chain|] == chain;
    }

    /** The gate of the mempool. */
    method ValidateTransaction(tx: Transaction) returns (v: Verdict)
      ensures v == CheckPooled(crypto, utxoSet, tx)
    {
      if IsCoinbase(tx) {
        return Reject;
      }
      var wellFormed := IsValidStructure(tx);
      if !wellFormed {
        return Reject;
      }
      var text := Transactions.Serialize(tx);
      if DoubleSha256(crypto, text) != tx.hash {
        return Reject;
      }
      for i := 0 to |tx.inputs|
        invariant InputKeys(tx.inputs[..i]) <= utxoSet.Keys
      {
        if InputKey(tx.inputs[i]) !in utxoSet {
          assert tx.inputs[i] in tx.inputs && InputKey(tx.inputs[i]) in InputKeys(tx.inputs);
          return Reject;
        }
        assert InputKeys(tx.inputs[..i + 1]) == InputKeys(tx.inputs[..i]) + {InputKey(tx.inputs[i])};
      }
      assert tx.inputs[..|tx.inputs|] == tx.inputs;
      v := VerifyTransactionSignatures(tx);
    }

    /** The map is visited in any order; the amounts are added in a `uint64_t`. */
    method GetBalance(address: string) returns (total: uint64)
      ensures total == Wrap64(Sum(OwnedBy(utxoSet, address)))
    {
      total := 0;
      var rest := utxoSet;
      ghost var seen: map<string, Utxo>, exact := map[], 0;
      while rest != map[]
        invariant seen.Keys !! rest.Keys && seen + rest == utxoSet
        invariant exact == Sum(OwnedBy(seen, address)) && total == Wrap64(exact)
        decreases |rest|
      {
        var k :| k in rest;
        var u := rest[k];
        VisitOwned(utxoSet, seen, rest, address, k);
        if u.address == address {
          total, exact := AddWrapped(total, exact, u.amount);
        }
        rest, seen := rest - {k}, seen[k := u];
      }
      assert seen == utxoSet;
    }

    /** Every output of the address exactly once, in the unspecified order of the map. */
    method GetUtxosForAddress(address: string) returns (result: seq<Utxo>, ghost keys: seq<string>)
      ensures |result| == |OwnedBy(utxoSet, address)|
      ensures forall k :: k in utxoSet && utxoSet[k].address == address ==> utxoSet[k] in result
      ensures forall i :: 0 <= i < |result| ==> result[i].address == address
      ensures Enumerates(OwnedBy(utxoSet, address), keys, result)
    {
      result, keys := [], [];
      var rest := utxoSet;
      ghost var seen: map<string, Utxo> := map[];
      while rest != map[]
        invariant seen.Keys !! rest.Keys && seen + rest == utxoSet
        invariant Enumerates(OwnedBy(seen, address), keys, result)
        decreases |rest|
      {
        var k :| k in rest;
        var u := rest[k];
        OwnedInsert(seen, address, k, u);
        VisitEntry(seen, rest, k);
        if u.address == address {
          EnumeratesOneMore(OwnedBy(seen, address), keys, result, k, u);
          result, keys := result + [u], keys + [k];
        }
        rest, seen := rest - {k}, seen[k := u];
      }
      assert seen == utxoSet;
      EnumeratesAll(OwnedBy(utxoSet, address), keys, result);
      EnumeratesSize(OwnedBy(utxoSet, address), keys, result);
      forall k | k in utxoSet && utxoSet[k].address == address ensures utxoSet[k] in result {
        assert k in OwnedBy(utxoSet, address) && OwnedBy(utxoSet, address)[k] == utxoSet[k];
      }
    }

    method Height() returns (h: nat)
      ensures h == HeightOf(State())
    {
      h := if chain == [] then 0 else |chain| - 1;
    }

    method GetBlockByHash(hash: string) returns (r: Option<Block>)
      requires hash in hashIndex ==> hashIndex[hash] < |chain|
      ensures r == BlockByHash(State(), hash)
      ensures Positioned(chain) && hashIndex == IndexOf(chain) ==> r == TipSearch(chain, hash)
    {
      if Positioned(chain) {
        IndexIsTipSearch(chain, hash);
      }
      r := if hash in hashIndex then Some(chain[hashIndex[hash]]) else None;
    }

    method GetBlocks(from: uint64) returns (result: seq<Block>)
      ensures result == BlocksFrom(State(), from)
    {
      result := [];
      var i: nat := from;
      while i < |chain|
        invariant from <= i && (i <= |chain| || i == from)
        invariant result == if from <= |chain| then chain[from..if i <= |chain| then i else |chain|] else []
      {
        result := result + [chain[i]];
        i := i + 1;
      }
    }

    method SaveToDisk() returns (items: seq<Json>)
      ensures items == BlocksToJson(chain)
    {
      items := [];
      for i := 0 to |chain|
        invariant items == BlocksToJson(chain)[..i]
      {
        var j := EncodeBlock(chain[i]);
        items := items + [j];
      }
      assert items == BlocksToJson(chain);
    }

    /** Without a file nothing happens; a file that does not parse throws before anything is cleared;
        one with an item that is no block throws in the middle. */
    method LoadFromDisk(file: ChainFile) returns (r: Try<bool>)
      modifies this
      ensures State() == if file.Parsed? then Loaded(file.items) else old(State())
      ensures r == match file
                   case Missing => Done(false)
                   case Unparsable => Threw
                   case Parsed(items) => if |Loaded(items).blocks| == |items| then Done(true) else Threw
    {
      match file {
        case Missing => return Done(false);
        case Unparsable => return Threw;
        case Parsed(items) =>
          chain, utxoSet, hashIndex := [], map[], map[];
          var ok := ReadBlocks(items);
          if !ok {
            return Threw;
          }
          RebuildUtxoSet();
          r := Done(true);
      }
    }

    /** The loop that decodes and indexes the blocks. */
    method ReadBlocks(items: seq<Json>) returns (ok: bool)
      requires chain == [] && hashIndex == map[]
      modifies `chain, `hashIndex
      ensures chain == DonePrefix(Decoded(items)) && hashIndex == IndexOf(chain) && ok == (|chain| == |items|)
    {
      ghost var results := Decoded(items);
      assert results[0..] == results;
      for i := 0 to |items|
        invariant |chain| == i && hashIndex == IndexOf(chain)
        invariant DonePrefix(results) == chain + DonePrefix(results[i..])
      {
        assert results[i..][1..] == results[i + 1..];
        var block := DecodeBlock(items[i]);
        if block.Threw? {
          assert chain + [] == chain;
          return false;
        }
        var b := block.value;
        DecodedOneMore(results[i..], chain, b);
        IndexAppend(chain, b);
        chain, hashIndex := chain + [b], hashIndex[b.hash := b.header.index];
      }
      assert results[|items|..] == [] && chain + [] == chain;
      ok := true;
    }
  }

  /** Decoding one more block moves it from the part still to read to the part already read. */
  lemma DecodedOneMore(results: seq<Try<Block>>, read: seq<Block>, b: Block)
    requires results != [] && results[0] == Done(b)
    ensures read + DonePrefix(results) == read + [b] + DonePrefix(results[1..])
  {
    var rest := DonePrefix(results[1..]);
    assert read + ([b] + rest) == read + [b] + rest;
  }

  /** The list holds each entry of the map once, `keys` telling which. */
  ghost predicate Enumerates(m: map<string, Utxo>, keys: seq<string>, values: seq<Utxo>) {
    && |keys| == |values|
    && (forall i :: 0 <= i < |keys| ==> keys[i] in m && values[i] == m[keys[i]])
    && (forall i, j :: 0 <= i < j < |keys| ==> keys[i] != keys[j])
    && (forall k :: k in m ==> k in keys)
  }

  lemma EnumeratesAll(m: map<string, Utxo>, keys: seq<string>, values: seq<Utxo>)
    requires Enumerates(m, keys, values)
    ensures forall k :: k in m ==> m[k] in values
  {
    forall k | k in m ensures m[k] in values {
      var i :| 0 <= i < |keys| && keys[i] == k;
      assert values[i] == m[k];
    }
  }

  /** Leaving out the last entry. */
  lemma EnumeratesFewer(m: map<string, Utxo>, keys: seq<string>, values: seq<Utxo>, n: nat)
    requires Enumerates(m, keys, values) && n + 1 == |values|
    ensures keys[n] in m && Enumerates(m - {keys[n]}, keys[..n], values[..n])
  {
    var fewer := m - {keys[n]};
    forall k | k in fewer ensures k in keys[..n] {
      assert k in keys && keys == keys[..n] + [keys[n]];
    }
  }

  lemma {:induction false} EnumeratesSize(m: map<string, Utxo>, keys: seq<string>, values: seq<Utxo>)
    requires Enumerates(m, keys, values)
    ensures |values| == |m|
    decreases |values|
  {
    if values == [] {
      assert m.Keys == {};
    } else {
      var n := |values| - 1;
      var fewer := m - {keys[n]};
      EnumeratesFewer(m, keys, values, n);
      EnumeratesSize(fewer, keys[..n], values[..n]);
      assert m.Keys == fewer.Keys + {keys[n]};
    }
  }

  lemma EnumeratesOneMore(m: map<string, Utxo>, keys: seq<string>, values: seq<Utxo>, k: string, u: Utxo)
    requires Enumerates(m, keys, values) && k !in m
    ensures Enumerates(m[k := u], keys + [k], values + [u])
  {
    forall x | x in m[k := u] ensures x in keys + [k] {
    }
  }
}
