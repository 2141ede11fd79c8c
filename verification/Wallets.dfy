/** Building and signing a payment (`Wallet::create_transaction`). */
module Wallets {
  import opened Words
  import opened Hex
  import opened Crypto
  import opened Transactions

  function Address(c: Crypto, key: Option<SecretKey>): string {
    match key
    case None => ""
    case Some(k) => KeyAddress(c, c.publicKey(k))
  }

  function PublicKeyHex(c: Crypto, key: Option<SecretKey>): string {
    match key
    case None => ""
    case Some(k) => BytesToHex(c.publicKey(k))
  }

  function SignHex(c: Crypto, key: Option<SecretKey>, data: string, rnd: nat): string {
    match key
    case None => ""
    case Some(k) => BytesToHex(c.sign(k, data, rnd))
  }

  function Value(utxos: seq<Utxo>): nat {
    if utxos == [] then 0 else Value(utxos[..|utxos| - 1]) + utxos[|utxos| - 1].amount
  }

  /** How many of the offered outputs are taken before the running `uint64_t` total covers the need. */
  function TakenFrom(utxos: seq<Utxo>, needed: uint64, n: nat): (taken: nat)
    requires n <= |utxos|
    ensures n <= taken <= |utxos|
    decreases |utxos| - n
  {
    if n == |utxos| || Wrap64(Value(utxos[..n])) >= needed then n else TakenFrom(utxos, needed, n + 1)
  }

  function InputsFor(utxos: seq<Utxo>, publicKeyHex: string): seq<TxInput> {
    seq(|utxos|, i requires 0 <= i < |utxos| => TxInput(utxos[i].txId, utxos[i].outputIndex, "", publicKeyHex))
  }

  function SignInputs(c: Crypto, key: Option<SecretKey>, data: string, inputs: seq<TxInput>,
                      rnd: nat -> nat): seq<TxInput> {
    seq(|inputs|, i requires 0 <= i < |inputs| => inputs[i].(signature := SignHex(c, key, data, rnd(i))))
  }

  function PaymentOutputs(to: string, amount: uint64, own: string, change: uint64): Outputs {
    [TxOutput(to, amount)] + if change > 0 then [TxOutput(own, change)] else []
  }

  /** The transaction that is hashed and signed; its signature fields are still empty. */
  function Unsigned(c: Crypto, key: Option<SecretKey>, to: string, amount: uint64, fee: uint64,
                    picked: seq<Utxo>, timestamp: uint64): Transaction
  {
    var change := Wrap64(Wrap64(Value(picked)) - Wrap64(amount + fee));
    Transaction(InputsFor(picked, PublicKeyHex(c, key)), PaymentOutputs(to, amount, Address(c, key), change),
                timestamp, fee, "")
  }

  /** Signatures are filled in, then the hash is taken again. */
  function Signed(c: Crypto, key: Option<SecretKey>, draft: Transaction, rnd: nat -> nat): Transaction {
    var inputs := SignInputs(c, key, SerializeTx(draft), draft.inputs, rnd);
    draft.(inputs := inputs, hash := TxHash(c, draft.(inputs := inputs)))
  }

  function CreateTransaction(c: Crypto, key: Option<SecretKey>, to: string, amount: uint64, fee: uint64,
                             utxos: seq<Utxo>, timestamp: uint64, rnd: nat -> nat): Transaction
  {
    var needed := Wrap64(amount + fee);
    var picked := utxos[..TakenFrom(utxos, needed, 0)];
    if Wrap64(Value(picked)) < needed then
      Transaction(InputsFor(picked, PublicKeyHex(c, key)), [], timestamp, fee, "")
    else
      Signed(c, key, Unsigned(c, key, to, amount, fee, picked, timestamp), rnd)
  }

  class Wallet {
    const crypto: Crypto
    var keyPair: Option<SecretKey>

    constructor (crypto: Crypto)
      ensures this.crypto == crypto && keyPair == None
    {
      this.crypto := crypto;
      keyPair := None;
    }

    /** Any key generation or key file replaces the current key pair. */
    method UseKey(key: SecretKey)
      modifies this
      ensures keyPair == Some(key)
    {
      keyPair := Some(key);
    }

    /** `rnd` is the randomness of the signing operations. */
    method Create(to: string, amount: uint64, fee: uint64, utxos: seq<Utxo>, timestamp: uint64, rnd: nat -> nat)
      returns (tx: Transaction)
      ensures tx == CreateTransaction(crypto, keyPair, to, amount, fee, utxos, timestamp, rnd)
    {
      var publicKey := PublicKeyHex(crypto, keyPair);
      var needed := Wrap64(amount + fee);
      var inputs, total := Select(utxos, needed, publicKey);
      ghost var picked := utxos[..TakenFrom(utxos, needed, 0)];
      tx := Transaction(inputs, [], timestamp, fee, "");
      if total < needed {
        return;
      }
      var change := Wrap64(total - needed);
      tx := tx.(outputs := PaymentOutputs(to, amount, Address(crypto, keyPair), change));
      assert tx == Unsigned(crypto, keyPair, to, amount, fee, picked, timestamp);
      var data := Transactions.Serialize(tx);
      var signed := Sign(data, inputs, rnd);
      tx := tx.(inputs := signed);
      var text := Transactions.Serialize(tx);
      tx := tx.(hash := DoubleSha256(crypto, text));
    }

    /** The greedy selection loop. */
    method Select(utxos: seq<Utxo>, needed: uint64, publicKey: string) returns (inputs: seq<TxInput>, total: uint64)
      ensures var picked := utxos[..TakenFrom(utxos, needed, 0)];
              inputs == InputsFor(picked, publicKey) && total == Wrap64(Value(picked))
    {
      inputs, total := [], 0;
      ghost var exact: nat := 0;
      var n := 0;
      while n < |utxos| && total < needed
        invariant n <= |utxos| && exact == Value(utxos[..n]) && total == Wrap64(exact)
        invariant inputs == InputsFor(utxos[..n], publicKey)
        invariant TakenFrom(utxos, needed, n) == TakenFrom(utxos, needed, 0)
      {
        inputs := inputs + [TxInput(utxos[n].txId, utxos[n].outputIndex, "", publicKey)];
        assert utxos[..n + 1][..n] == utxos[..n];
        total, exact := AddWrapped(total, exact, utxos[n].amount);
        n := n + 1;
      }
    }

    /** The loop that fills in the signatures. */
    method Sign(data: string, inputs: seq<TxInput>, rnd: nat -> nat) returns (signed: seq<TxInput>)
      ensures signed == SignInputs(crypto, keyPair, data, inputs, rnd)
    {
      signed := [];
      for i := 0 to |inputs|
        invariant signed == SignInputs(crypto, keyPair, data, inputs, rnd)[..i]
      {
        signed := signed + [inputs[i].(signature := SignHex(crypto, keyPair, data, rnd(i)))];
      }
    }
  }
}
