/** From the wallet to the chain: what `create_transaction` makes of an address's own outputs. */
module Payments {
  import opened Words
  import opened Decimals
  import opened Hex
  import opened Crypto
  import opened Transactions
  import opened Ledger
  import opened History
  import opened Sums
  import opened Supply
  import opened Blockchains
  import opened Wallets

  lemma {:induction false} ValueOfPrefix(utxos: seq<Utxo>, n: nat)
    requires n <= |utxos|
    ensures Value(utxos[..n]) <= Value(utxos)
    decreases |utxos| - n
  {
    if n < |utxos| {
      ValueOfPrefix(utxos, n + 1);
      assert utxos[..n + 1][..n] == utxos[..n];
    } else {
      assert utxos[..n] == utxos;
    }
  }

  /** The running `uint64_t` total covers the need after `k` outputs. */
  predicate Covers(utxos: seq<Utxo>, k: int, needed: uint64)
    requires 0 <= k <= |utxos|
  {
    Wrap64(Value(utxos[..k])) >= needed
  }

  ghost predicate Reaches(utxos: seq<Utxo>, needed: uint64) {
    exists k :: 0 <= k <= |utxos| && Covers(utxos, k, needed)
  }

  /** The selection is the shortest prefix on which the running total covers the need, or everything if
      there is none; amounts of any size are allowed, and the total may wrap on the way. */
  lemma {:induction false} TakenIsShortest(utxos: seq<Utxo>, needed: uint64, n: nat)
    requires n <= |utxos|
    requires forall k :: 0 <= k < n ==> !Covers(utxos, k, needed)
    ensures var taken := TakenFrom(utxos, needed, n);
            && (forall k :: 0 <= k < taken ==> !Covers(utxos, k, needed))
            && (Covers(utxos, taken, needed) <==> Reaches(utxos, needed))
            && (taken < |utxos| ==> Covers(utxos, taken, needed))
    decreases |utxos| - n
  {
    if n < |utxos| && !Covers(utxos, n, needed) {
      TakenIsShortest(utxos, needed, n + 1);
    }
  }

  /** Outputs worth less than 2^64 together make every running total exact. */
  lemma ReachesWhenExact(utxos: seq<Utxo>, needed: uint64)
    requires Value(utxos) < TWO64
    ensures forall k :: 0 <= k <= |utxos| ==> (Covers(utxos, k, needed) <==> Value(utxos[..k]) >= needed)
    ensures Reaches(utxos, needed) <==> Value(utxos) >= needed
  {
    forall k | 0 <= k <= |utxos| ensures Covers(utxos, k, needed) <==> Value(utxos[..k]) >= needed {
      ValueOfPrefix(utxos, k);
      WrapSmall(Value(utxos[..k]));
    }
    forall k | 0 <= k <= |utxos| ensures Value(utxos[..k]) <= Value(utxos) {
      ValueOfPrefix(utxos, k);
    }
    assert utxos[..|utxos|] == utxos;
    if Value(utxos) >= needed {
      assert Covers(utxos, |utxos|, needed);
    }
  }

  function KeySet(keys: seq<string>): set<string> {
    set k | k in keys
  }

  /** A list that enumerates a map is worth the map's sum. */
  lemma {:induction false} EnumeratedValue(m: map<string, Utxo>, keys: seq<string>, values: seq<Utxo>)
    requires Enumerates(m, keys, values)
    ensures Value(values) == Sum(m)
    decreases |values|
  {
    if values == [] {
      assert forall k :: k !in m;
      assert m == map[];
    } else {
      var n := |values| - 1;
      EnumeratesFewer(m, keys, values, n);
      EnumeratedValue(m - {keys[n]}, keys[..n], values[..n]);
      SumRemove(m, Amount, keys[n]);
    }
  }

  lemma EnumeratedPrefix(m: map<string, Utxo>, keys: seq<string>, values: seq<Utxo>, n: nat)
    requires Enumerates(m, keys, values) && n <= |keys|
    ensures Enumerates(Restrict(m, KeySet(keys[..n])), keys[..n], values[..n])
  {
  }

  /** The offered outputs are all outputs of the key's own address, each once. */
  ghost predicate OffersOwn(c: Crypto, st: LedgerState, key: SecretKey, utxos: seq<Utxo>, keys: seq<string>) {
    Enumerates(OwnedBy(st.utxos, Address(c, Some(key))), keys, utxos)
  }

  lemma OfferedKey(c: Crypto, st: LedgerState, key: SecretKey, utxos: seq<Utxo>, keys: seq<string>, i: nat)
    requires LedgerInv(c, st) && OffersOwn(c, st, key, utxos, keys) && i < |utxos|
    ensures UtxoKey(utxos[i].txId, utxos[i].outputIndex) == keys[i]
    ensures keys[i] in st.utxos && st.utxos[keys[i]] == utxos[i]
    ensures utxos[i].address == Address(c, Some(key)) && IsDigest(utxos[i].txId)
  {
    UtxosAreKeyed(c, st.blocks, keys[i]);
  }

  lemma SignatureIsNotTheMark(bytes: seq<uint8>)
    ensures BytesToHex(bytes) != COINBASE_MARK
  {
    BytesToHexLower(bytes);
    assert COINBASE_MARK[1] == 'o' && !IsLowerHex('o');
  }

  /** The key signs every input for the output it spends. */
  lemma SignedInputsAreOwned(c: Crypto, st: LedgerState, key: SecretKey, utxos: seq<Utxo>, keys: seq<string>,
                             n: nat, data: string, rnd: nat -> nat, i: nat)
    requires LedgerInv(c, st) && OffersOwn(c, st, key, utxos, keys) && i < n <= |utxos|
    ensures var input := SignInputs(c, Some(key), data, InputsFor(utxos[..n], PublicKeyHex(c, Some(key))), rnd)[i];
            && Owned(c, st.utxos, data, input) && InputKey(input) == keys[i]
            && input.txId != "" && input.signature != COINBASE_MARK
  {
    OfferedKey(c, st, key, utxos, keys, i);
    SignedByKeyVerifies(c, key, data, rnd(i));
    SignatureIsNotTheMark(c.sign(key, data, rnd(i)));
  }

  /** `amount + fee` as a `uint64_t`. */
  function WrappedNeed(amount: uint64, fee: uint64): (needed: uint64)
    ensures needed == Wrap64(amount + fee)
  {
    if amount + fee < TWO64 then amount + fee else amount + fee - TWO64
  }

  function Picked(utxos: seq<Utxo>, amount: uint64, fee: uint64): seq<Utxo> {
    utxos[..TakenFrom(utxos, WrappedNeed(amount, fee), 0)]
  }

  // ----- when a payment is built -----

  lemma PickedCovers(utxos: seq<Utxo>, amount: uint64, fee: uint64)
    ensures |Picked(utxos, amount, fee)| <= |utxos|
    ensures Picked(utxos, amount, fee) == utxos[..|Picked(utxos, amount, fee)|]
    ensures Wrap64(Value(Picked(utxos, amount, fee))) >= WrappedNeed(amount, fee) <==>
            Reaches(utxos, WrappedNeed(amount, fee))
    ensures !Reaches(utxos, WrappedNeed(amount, fee)) ==> |Picked(utxos, amount, fee)| == |utxos|
    ensures forall k :: 0 <= k < |Picked(utxos, amount, fee)| ==> !Covers(utxos, k, WrappedNeed(amount, fee))
  {
    TakenIsShortest(utxos, WrappedNeed(amount, fee), 0);
  }

  /** A payment fails exactly when no running total ever reaches what `amount + fee` wraps to. */
  lemma PaymentFailsIffNeverReached(c: Crypto, key: SecretKey, to: string, amount: uint64, fee: uint64,
                                    utxos: seq<Utxo>, timestamp: uint64, rnd: nat -> nat, hash: string)
    requires hash == CreateTransaction(c, Some(key), to, amount, fee, utxos, timestamp, rnd).hash
    ensures hash == "" <==> !Reaches(utxos, WrappedNeed(amount, fee))
  {
    PickedCovers(utxos, amount, fee);
  }

  /** Built or not, its inputs are the shortest prefix on which the running total covers the need, in
      order, or all outputs. */
  lemma PaymentSpendsShortestPrefix(c: Crypto, key: SecretKey, to: string, amount: uint64, fee: uint64,
                                    utxos: seq<Utxo>, timestamp: uint64, rnd: nat -> nat, inputs: seq<TxInput>)
    requires inputs == CreateTransaction(c, Some(key), to, amount, fee, utxos, timestamp, rnd).inputs
    ensures |inputs| <= |utxos|
    ensures forall i :: 0 <= i < |inputs| ==>
              inputs[i].txId == utxos[i].txId && inputs[i].outputIndex == utxos[i].outputIndex
    ensures forall k :: 0 <= k < |inputs| ==> !Covers(utxos, k, WrappedNeed(amount, fee))
    ensures Covers(utxos, |inputs|, WrappedNeed(amount, fee)) <==> Reaches(utxos, WrappedNeed(amount, fee))
    ensures !Reaches(utxos, WrappedNeed(amount, fee)) ==> |inputs| == |utxos|
  {
    PickedCovers(utxos, amount, fee);
    assert |inputs| == |Picked(utxos, amount, fee)|;
  }

  lemma ShortestWhenExact(utxos: seq<Utxo>, needed: uint64, n: nat)
    requires Value(utxos) < TWO64 && n <= |utxos|
    requires forall k :: 0 <= k < n ==> !Covers(utxos, k, needed)
    requires Covers(utxos, n, needed) <==> Reaches(utxos, needed)
    ensures forall k :: 0 <= k < n ==> Value(utxos[..k]) < needed
    ensures Reaches(utxos, needed) <==> Value(utxos) >= needed
    ensures Reaches(utxos, needed) ==> Value(utxos[..n]) >= needed
  {
    ReachesWhenExact(utxos, needed);
  }

  /** Without overflow, a payment fails exactly when all own outputs together fall short; otherwise it
      spends the shortest covering prefix, in order. */
  lemma PaymentFailsIffShort(c: Crypto, key: SecretKey, to: string, amount: uint64, fee: uint64,
                             utxos: seq<Utxo>, timestamp: uint64, rnd: nat -> nat, tx: Transaction)
    requires amount + fee < TWO64 && Value(utxos) < TWO64
    requires tx == CreateTransaction(c, Some(key), to, amount, fee, utxos, timestamp, rnd)
    ensures var n := |tx.inputs|;
            && (tx.hash == "" <==> Value(utxos) < amount + fee)
            && n <= |utxos|
            && (forall i :: 0 <= i < n ==>
                  tx.inputs[i].txId == utxos[i].txId && tx.inputs[i].outputIndex == utxos[i].outputIndex)
            && (forall k :: 0 <= k < n ==> Value(utxos[..k]) < amount + fee)
            && (tx.hash != "" ==> Value(utxos[..n]) >= amount + fee)
  {
    var needed := WrappedNeed(amount, fee);
    PaymentFailsIffNeverReached(c, key, to, amount, fee, utxos, timestamp, rnd, tx.hash);
    PaymentSpendsShortestPrefix(c, key, to, amount, fee, utxos, timestamp, rnd, tx.inputs);
    ShortestWhenExact(utxos, needed, |tx.inputs|);
  }

  // ----- when a shortage is reported rightly -----

  predicate ReportedRightly(hash: string, utxos: seq<Utxo>, amount: uint64, fee: uint64) {
    hash == "" <==> Value(utxos) < amount + fee
  }

  lemma ShortNeverReaches(utxos: seq<Utxo>, needed: uint64)
    requires Value(utxos) < needed
    ensures !Reaches(utxos, needed)
  {
    ReachesWhenExact(utxos, needed);
  }

  lemma ReportOfReaching(hash: string, utxos: seq<Utxo>, amount: uint64, fee: uint64)
    requires hash == "" <==> !Reaches(utxos, WrappedNeed(amount, fee))
    ensures ReportedRightly(hash, utxos, amount, fee) <==>
            if amount + fee < TWO64 then Value(utxos) < amount + fee || Reaches(utxos, amount + fee)
            else (Value(utxos) < amount + fee <==> !Reaches(utxos, amount + fee - TWO64))
  {
    if Value(utxos) < amount + fee < TWO64 {
      ShortNeverReaches(utxos, amount + fee);
    }
  }

  /** If `amount + fee` fits a `uint64_t`, a shortage is reported rightly exactly when the outputs do
      fall short or some running total, taken modulo 2^64, covers the need. If it does not fit, a real
      shortage is noticed exactly when no running total covers what is left of the need. */
  lemma ShortageReportedIff(c: Crypto, key: SecretKey, to: string, amount: uint64, fee: uint64, utxos: seq<Utxo>,
                            timestamp: uint64, rnd: nat -> nat, hash: string)
    requires hash == CreateTransaction(c, Some(key), to, amount, fee, utxos, timestamp, rnd).hash
    ensures ReportedRightly(hash, utxos, amount, fee) <==>
            if amount + fee < TWO64 then Value(utxos) < amount + fee || Reaches(utxos, amount + fee)
            else (Value(utxos) < amount + fee <==> !Reaches(utxos, amount + fee - TWO64))
  {
    PaymentFailsIffNeverReached(c, key, to, amount, fee, utxos, timestamp, rnd, hash);
    ReportOfReaching(hash, utxos, amount, fee);
  }

  /** For outputs worth less than 2^64 together that is a condition on two sums. */
  lemma ShortageReportedIffExact(c: Crypto, key: SecretKey, to: string, amount: uint64, fee: uint64, utxos: seq<Utxo>,
                                 timestamp: uint64, rnd: nat -> nat, hash: string)
    requires Value(utxos) < TWO64
    requires hash == CreateTransaction(c, Some(key), to, amount, fee, utxos, timestamp, rnd).hash
    ensures ReportedRightly(hash, utxos, amount, fee) <==>
            amount + fee < TWO64 || Value(utxos) < amount + fee - TWO64
  {
    ShortageReportedIff(c, key, to, amount, fee, utxos, timestamp, rnd, hash);
    ReachesWhenExact(utxos, WrappedNeed(amount, fee));
  }

  lemma TwoOutputs(a: Utxo, b: Utxo)
    ensures Value([a]) == a.amount && Value([a, b]) == a.amount + b.amount
    ensures forall needed: uint64 :: Reaches([a, b], needed) <==>
              needed == 0 || a.amount >= needed || Wrap64(a.amount + b.amount) >= needed
  {
    var utxos := [a, b];
    assert utxos[..0] == [] && utxos[..1] == [a] && utxos[..2] == utxos && [a][..0] == [];
    assert Value([a]) == Value([]) + a.amount;
    WrapSmall(a.amount);
    WrapSmall(0);
    forall needed: uint64
      ensures Reaches(utxos, needed) <==> needed == 0 || a.amount >= needed || Wrap64(a.amount + b.amount) >= needed
    {
      assert Covers(utxos, 0, needed) <==> needed == 0;
      assert Covers(utxos, 1, needed) <==> a.amount >= needed;
      assert Covers(utxos, 2, needed) <==> Wrap64(a.amount + b.amount) >= needed;
    }
  }

  /** Concretely: outputs of 5 and 2^64 - 3 cover a need of 10 many times over, but the running totals
      are 0, 5 and 2, and the payment fails. */
  lemma TotalWrapsBelowNeed(c: Crypto, key: SecretKey, to: string, amount: uint64, fee: uint64, a: Utxo, b: Utxo,
                            timestamp: uint64, rnd: nat -> nat)
    requires amount + fee == 10 && a.amount == 5 && b.amount == 18_446_744_073_709_551_613
    ensures Value([a, b]) >= 10
    ensures CreateTransaction(c, Some(key), to, amount, fee, [a, b], timestamp, rnd).hash == ""
  {
    TwoOutputs(a, b);
    assert Wrap64(a.amount + b.amount) == 2;
    PaymentFailsIffNeverReached(c, key, to, amount, fee, [a, b], timestamp, rnd,
                                CreateTransaction(c, Some(key), to, amount, fee, [a, b], timestamp, rnd).hash);
  }

  function CoinOf(amount: uint64): Utxo {
    Utxo("", 0, "", amount)
  }

  /** A need of 1 or less is never misjudged: the first output that is worth anything covers it. */
  lemma {:induction false} SmallNeedIsReached(utxos: seq<Utxo>, needed: uint64)
    requires needed <= 1 && Value(utxos) >= needed
    ensures Reaches(utxos, needed)
  {
    if needed == 0 {
      assert Covers(utxos, 0, needed);
    } else {
      var n := |utxos| - 1;
      if Value(utxos[..n]) >= 1 {
        SmallNeedIsReached(utxos[..n], needed);
        var k :| 0 <= k <= n && Covers(utxos[..n], k, needed);
        assert utxos[..n][..k] == utxos[..k];
        assert Covers(utxos, k, needed);
      } else {
        WrapSmall(utxos[n].amount);
        assert utxos[..|utxos|] == utxos;
        assert Covers(utxos, |utxos|, needed);
      }
    }
  }

  /** Outputs for which a need of 2 or more is misjudged. */
  function Misjudged(amount: uint64, fee: uint64): seq<Utxo> {
    if amount + fee < TWO64 then [CoinOf(1), CoinOf(18_446_744_073_709_551_615)]
    else [CoinOf(amount + fee - TWO64)]
  }

  lemma MisjudgedIsMisjudged(amount: uint64, fee: uint64)
    requires amount + fee >= 2
    ensures Reaches(Misjudged(amount, fee), WrappedNeed(amount, fee)) <==> Value(Misjudged(amount, fee)) < amount + fee
  {
    var utxos := Misjudged(amount, fee);
    if amount + fee < TWO64 {
      TwoOutputs(CoinOf(1), CoinOf(18_446_744_073_709_551_615));
      assert Wrap64(18_446_744_073_709_551_616) == 0;
    } else {
      var left := amount + fee - TWO64;
      assert utxos[..0] == [] && utxos[..1] == utxos;
      assert Value(utxos) == Value(utxos[..0]) + left;
      WrapSmall(left);
      assert Covers(utxos, 1, left);
    }
  }

  /** Whatever the wallet holds, the report is right: that is so for needs of 0 and 1 only. */
  lemma ShortageAlwaysReportedIff(c: Crypto, key: SecretKey, to: string, amount: uint64, fee: uint64,
                                  timestamp: uint64, rnd: nat -> nat)
    ensures (forall utxos: seq<Utxo> ::
               ReportedRightly(CreateTransaction(c, Some(key), to, amount, fee, utxos, timestamp, rnd).hash,
                               utxos, amount, fee))
            <==> amount + fee <= 1
  {
    if amount + fee <= 1 {
      forall utxos: seq<Utxo> ensures
        ReportedRightly(CreateTransaction(c, Some(key), to, amount, fee, utxos, timestamp, rnd).hash,
                        utxos, amount, fee)
      {
        var hash := CreateTransaction(c, Some(key), to, amount, fee, utxos, timestamp, rnd).hash;
        ShortageReportedIff(c, key, to, amount, fee, utxos, timestamp, rnd, hash);
        if Value(utxos) >= amount + fee {
          SmallNeedIsReached(utxos, amount + fee);
        }
      }
    } else {
      var utxos := Misjudged(amount, fee);
      var hash := CreateTransaction(c, Some(key), to, amount, fee, utxos, timestamp, rnd).hash;
      PaymentFailsIffNeverReached(c, key, to, amount, fee, utxos, timestamp, rnd, hash);
      MisjudgedIsMisjudged(amount, fee);
      assert !ReportedRightly(hash, utxos, amount, fee);
    }
  }

  // ----- what a payment is worth, and whether the pool takes it -----

  lemma SignedShape(c: Crypto, key: SecretKey, draft: Transaction, rnd: nat -> nat)
    ensures var tx := Signed(c, Some(key), draft, rnd);
            && SerializeTx(tx) == SerializeTx(draft)
            && tx.hash == TxHash(c, draft) == TxHash(c, tx)
  {
    SigningKeepsHash(c, draft, SignInputs(c, Some(key), SerializeTx(draft), draft.inputs, rnd));
  }

  lemma TotalOfPayment(to: string, amount: uint64, own: string, change: uint64)
    ensures Total(PaymentOutputs(to, amount, own, change)) == amount + change
  {
    var outputs := PaymentOutputs(to, amount, own, change);
    assert Total(outputs[1..]) == change;
  }

  lemma UnsignedTotal(c: Crypto, key: SecretKey, to: string, amount: uint64, fee: uint64, picked: seq<Utxo>,
                      timestamp: uint64)
    requires Wrap64(Value(picked)) >= WrappedNeed(amount, fee)
    ensures Total(Unsigned(c, Some(key), to, amount, fee, picked, timestamp).outputs) ==
            amount + Wrap64(Value(picked)) - WrappedNeed(amount, fee)
  {
    var change := Wrap64(Value(picked)) - WrappedNeed(amount, fee);
    WrapSmall(change);
    TotalOfPayment(to, amount, Address(c, Some(key)), change);
  }

  lemma BuiltIsSigned(c: Crypto, key: SecretKey, to: string, amount: uint64, fee: uint64, utxos: seq<Utxo>,
                      timestamp: uint64, rnd: nat -> nat, picked: seq<Utxo>)
    requires picked == Picked(utxos, amount, fee) && Wrap64(Value(picked)) >= WrappedNeed(amount, fee)
    ensures CreateTransaction(c, Some(key), to, amount, fee, utxos, timestamp, rnd) ==
            Signed(c, Some(key), Unsigned(c, Some(key), to, amount, fee, picked, timestamp), rnd)
  {
  }

  /** A payment that was built is its signed draft; signing changed neither the text nor the id, and the
      outputs are the amount and the change in `uint64_t` arithmetic. */
  lemma PaymentShape(c: Crypto, key: SecretKey, to: string, amount: uint64, fee: uint64,
                     utxos: seq<Utxo>, timestamp: uint64, rnd: nat -> nat)
    requires Reaches(utxos, WrappedNeed(amount, fee))
    ensures var tx := CreateTransaction(c, Some(key), to, amount, fee, utxos, timestamp, rnd);
            var picked := Picked(utxos, amount, fee);
            var draft := Unsigned(c, Some(key), to, amount, fee, picked, timestamp);
            && tx == Signed(c, Some(key), draft, rnd)
            && SerializeTx(tx) == SerializeTx(draft)
            && tx.hash == TxHash(c, draft) == TxHash(c, tx)
            && Total(tx.outputs) == amount + Wrap64(Value(picked)) - WrappedNeed(amount, fee)
  {
    var picked := Picked(utxos, amount, fee);
    PickedCovers(utxos, amount, fee);
    BuiltIsSigned(c, key, to, amount, fee, utxos, timestamp, rnd, picked);
    UnsignedTotal(c, key, to, amount, fee, picked, timestamp);
    SignedShape(c, key, Unsigned(c, Some(key), to, amount, fee, picked, timestamp), rnd);
  }

  lemma PickedSomethingIff(utxos: seq<Utxo>, amount: uint64, fee: uint64)
    requires Reaches(utxos, WrappedNeed(amount, fee))
    ensures Picked(utxos, amount, fee) != [] <==> WrappedNeed(amount, fee) > 0
  {
    PickedCovers(utxos, amount, fee);
    WrapSmall(0);
    assert utxos[..0] == [];
    assert Covers(utxos, 0, WrappedNeed(amount, fee)) <==> WrappedNeed(amount, fee) == 0;
  }

  lemma PaymentOutputsValidIff(to: string, amount: uint64, own: string, change: uint64)
    requires own != ""
    ensures var outputs := PaymentOutputs(to, amount, own, change);
            (forall i :: 0 <= i < |outputs| ==> outputs[i].amount != 0 && outputs[i].address != "") <==>
                amount > 0 && to != ""
  {
    var outputs := PaymentOutputs(to, amount, own, change);
    assert outputs[0] == TxOutput(to, amount);
  }

  /** The inputs of a payment that was built are owned and are no coinbase. */
  lemma BuiltInputsAreGood(c: Crypto, st: LedgerState, key: SecretKey, to: string, amount: uint64, fee: uint64,
                           utxos: seq<Utxo>, keys: seq<string>, timestamp: uint64, rnd: nat -> nat, tx: Transaction)
    requires LedgerInv(c, st) && OffersOwn(c, st, key, utxos, keys) && Reaches(utxos, WrappedNeed(amount, fee))
    requires tx == CreateTransaction(c, Some(key), to, amount, fee, utxos, timestamp, rnd)
    ensures |tx.inputs| == |Picked(utxos, amount, fee)|
    ensures AllOwned(c, st.utxos, tx) && !IsCoinbase(tx)
    ensures forall i :: 0 <= i < |tx.inputs| ==> tx.inputs[i].txId != "" && InputKey(tx.inputs[i]) == keys[i]
  {
    PaymentShape(c, key, to, amount, fee, utxos, timestamp, rnd);
    var n, data := |Picked(utxos, amount, fee)|, SerializeTx(tx);
    forall i | 0 <= i < n
      ensures Owned(c, st.utxos, data, tx.inputs[i]) && InputKey(tx.inputs[i]) == keys[i]
      ensures tx.inputs[i].txId != "" && tx.inputs[i].signature != COINBASE_MARK
    {
      SignedInputsAreOwned(c, st, key, utxos, keys, n, data, rnd, i);
    }
  }

  lemma BuiltIsValidIff(c: Crypto, key: SecretKey, to: string, amount: uint64, fee: uint64,
                        utxos: seq<Utxo>, timestamp: uint64, rnd: nat -> nat, tx: Transaction)
    requires Reaches(utxos, WrappedNeed(amount, fee)) && |tx.inputs| == |Picked(utxos, amount, fee)|
    requires forall i :: 0 <= i < |tx.inputs| ==> tx.inputs[i].txId != ""
    requires exists change :: tx.outputs == PaymentOutputs(to, amount, Address(c, Some(key)), change)
    ensures ValidStructure(tx) <==> amount > 0 && to != "" && WrappedNeed(amount, fee) > 0
  {
    PickedSomethingIff(utxos, amount, fee);
    var change :| tx.outputs == PaymentOutputs(to, amount, Address(c, Some(key)), change);
    PaymentOutputsValidIff(to, amount, Address(c, Some(key)), change);
  }

  lemma BuiltOutputs(c: Crypto, key: SecretKey, to: string, amount: uint64, fee: uint64,
                     utxos: seq<Utxo>, timestamp: uint64, rnd: nat -> nat, tx: Transaction)
    requires Reaches(utxos, WrappedNeed(amount, fee))
    requires tx == CreateTransaction(c, Some(key), to, amount, fee, utxos, timestamp, rnd)
    ensures exists change :: tx.outputs == PaymentOutputs(to, amount, Address(c, Some(key)), change)
    ensures tx.hash == TxHash(c, tx)
  {
    PaymentShape(c, key, to, amount, fee, utxos, timestamp, rnd);
    var change := Wrap64(Wrap64(Value(Picked(utxos, amount, fee))) - Wrap64(amount + fee));
    assert tx.outputs == PaymentOutputs(to, amount, Address(c, Some(key)), change);
  }

  lemma BuiltIsAcceptedIff(c: Crypto, st: LedgerState, key: SecretKey, to: string, amount: uint64, fee: uint64,
                           utxos: seq<Utxo>, keys: seq<string>, timestamp: uint64, rnd: nat -> nat, tx: Transaction)
    requires LedgerInv(c, st) && OffersOwn(c, st, key, utxos, keys) && Reaches(utxos, WrappedNeed(amount, fee))
    requires tx == CreateTransaction(c, Some(key), to, amount, fee, utxos, timestamp, rnd)
    ensures CheckPooled(c, st.utxos, tx).Accept? <==> amount > 0 && to != "" && WrappedNeed(amount, fee) > 0
  {
    BuiltInputsAreGood(c, st, key, to, amount, fee, utxos, keys, timestamp, rnd, tx);
    BuiltOutputs(c, key, to, amount, fee, utxos, timestamp, rnd, tx);
    BuiltIsValidIff(c, key, to, amount, fee, utxos, timestamp, rnd, tx);
    PooledMeaning(c, st.utxos, tx);
  }

  /** The pool takes a payment from the chain's own list of the payer's outputs exactly when it was built
      for a positive amount and a named recipient and the need does not wrap to 0. No fee is asked for,
      and no sum is compared. */
  lemma PaymentAcceptedIff(c: Crypto, st: LedgerState, key: SecretKey, to: string, amount: uint64, fee: uint64,
                           utxos: seq<Utxo>, keys: seq<string>, timestamp: uint64, rnd: nat -> nat, tx: Transaction)
    requires LedgerInv(c, st) && OffersOwn(c, st, key, utxos, keys)
    requires tx == CreateTransaction(c, Some(key), to, amount, fee, utxos, timestamp, rnd)
    ensures CheckPooled(c, st.utxos, tx).Accept? <==>
            tx.hash != "" && amount > 0 && to != "" && WrappedNeed(amount, fee) > 0
  {
    PaymentFailsIffNeverReached(c, key, to, amount, fee, utxos, timestamp, rnd, tx.hash);
    if tx.hash == "" {
      PooledMeaning(c, st.utxos, tx);
    } else {
      BuiltIsAcceptedIff(c, st, key, to, amount, fee, utxos, keys, timestamp, rnd, tx);
    }
  }

  /** The inputs of a payment that was built are different unspent outputs worth what was picked. */
  lemma PaymentInputsWorth(c: Crypto, st: LedgerState, key: SecretKey, to: string, amount: uint64, fee: uint64,
                           utxos: seq<Utxo>, keys: seq<string>, timestamp: uint64, rnd: nat -> nat, tx: Transaction)
    requires LedgerInv(c, st) && OffersOwn(c, st, key, utxos, keys) && Reaches(utxos, WrappedNeed(amount, fee))
    requires tx == CreateTransaction(c, Some(key), to, amount, fee, utxos, timestamp, rnd)
    ensures InputKeys(tx.inputs) <= st.utxos.Keys
    ensures Sum(Restrict(st.utxos, InputKeys(tx.inputs))) == Value(Picked(utxos, amount, fee))
    ensures forall i, j :: 0 <= i < j < |tx.inputs| ==> InputKey(tx.inputs[i]) != InputKey(tx.inputs[j])
  {
    BuiltInputsAreGood(c, st, key, to, amount, fee, utxos, keys, timestamp, rnd, tx);
    PickedKeys(tx.inputs, keys, |tx.inputs|);
    WorthOfPrefix(st.utxos, Address(c, Some(key)), keys, utxos, |tx.inputs|);
  }

  /** What `uint64_t` arithmetic takes off a number. */
  function Lost(x: nat): int {
    x - Wrap64(x)
  }

  /** A payment that was built is out of balance by exactly what wrapping took off the need more than
      off the inputs; it balances iff both lost the same. */
  lemma PaymentBalance(c: Crypto, st: LedgerState, key: SecretKey, to: string, amount: uint64, fee: uint64,
                       utxos: seq<Utxo>, keys: seq<string>, timestamp: uint64, rnd: nat -> nat, tx: Transaction)
    requires LedgerInv(c, st) && OffersOwn(c, st, key, utxos, keys) && Reaches(utxos, WrappedNeed(amount, fee))
    requires tx == CreateTransaction(c, Some(key), to, amount, fee, utxos, timestamp, rnd)
    ensures Total(tx.outputs) + fee + Lost(Value(Picked(utxos, amount, fee))) ==
            Sum(Restrict(st.utxos, InputKeys(tx.inputs))) + Lost(amount + fee)
    ensures Balanced(st.utxos, tx) <==> Lost(Value(Picked(utxos, amount, fee))) == Lost(amount + fee)
  {
    PaymentShape(c, key, to, amount, fee, utxos, timestamp, rnd);
    PaymentInputsWorth(c, st, key, to, amount, fee, utxos, keys, timestamp, rnd, tx);
  }

  /** If the payer's outputs are worth less than 2^64 together, a payment balances exactly when
      `amount + fee` fits a `uint64_t`; otherwise it pays out 2^64 more than it spends. */
  lemma PaymentBalancedIff(c: Crypto, st: LedgerState, key: SecretKey, to: string, amount: uint64, fee: uint64,
                           utxos: seq<Utxo>, keys: seq<string>, timestamp: uint64, rnd: nat -> nat, tx: Transaction)
    requires LedgerInv(c, st) && OffersOwn(c, st, key, utxos, keys) && Reaches(utxos, WrappedNeed(amount, fee))
    requires tx == CreateTransaction(c, Some(key), to, amount, fee, utxos, timestamp, rnd) && Value(utxos) < TWO64
    ensures Balanced(st.utxos, tx) <==> amount + fee < TWO64
    ensures Total(tx.outputs) + fee ==
            Sum(Restrict(st.utxos, InputKeys(tx.inputs))) + if amount + fee < TWO64 then 0 else TWO64
  {
    var picked := Picked(utxos, amount, fee);
    ValueOfPrefix(utxos, |picked|);
    WrapSmall(Value(picked));
    assert Lost(Value(picked)) == 0;
    assert Lost(amount + fee) == amount + fee - WrappedNeed(amount, fee);
    PaymentBalance(c, st, key, to, amount, fee, utxos, keys, timestamp, rnd, tx);
  }

  /** Concretely: from any output at all, a payment of 50,000,001 with a fee of 2^64 - 50,000,000 needs 1
      after wrapping. It is built, the pool takes it, and it does not balance if the payer holds less
      than 2^64. */
  lemma WrappedNeedIsAccepted(c: Crypto, st: LedgerState, key: SecretKey, to: string, utxos: seq<Utxo>,
                              keys: seq<string>, timestamp: uint64, rnd: nat -> nat, tx: Transaction)
    requires LedgerInv(c, st) && OffersOwn(c, st, key, utxos, keys) && utxos != [] && to != ""
    requires tx == CreateTransaction(c, Some(key), to, 50_000_001, 18_446_744_073_659_551_616, utxos, timestamp, rnd)
    ensures tx.fee == 18_446_744_073_659_551_616 && CheckPooled(c, st.utxos, tx).Accept?
    ensures Value(utxos) < TWO64 ==> !Balanced(st.utxos, tx)
  {
    var amount: uint64, fee: uint64 := 50_000_001, 18_446_744_073_659_551_616;
    assert WrappedNeed(amount, fee) == 1;
    UtxosAreKeyed(c, st.blocks, keys[0]);
    assert utxos[0].amount > 0;
    FirstCovers(utxos);
    PaymentFailsIffNeverReached(c, key, to, amount, fee, utxos, timestamp, rnd, tx.hash);
    PaymentAcceptedIff(c, st, key, to, amount, fee, utxos, keys, timestamp, rnd, tx);
    PaymentShape(c, key, to, amount, fee, utxos, timestamp, rnd);
    if Value(utxos) < TWO64 {
      PaymentBalancedIff(c, st, key, to, amount, fee, utxos, keys, timestamp, rnd, tx);
    }
  }

  lemma FirstCovers(utxos: seq<Utxo>)
    requires utxos != [] && utxos[0].amount > 0
    ensures Reaches(utxos, 1)
  {
    assert utxos[..1][..0] == [];
    assert Value(utxos[..1]) == Value([]) + utxos[0].amount;
    WrapSmall(utxos[0].amount);
    assert Covers(utxos, 1, 1);
  }

  /** Without overflow, a covered payment is accepted and balances. */
  lemma CoveredPaymentIsHonest(c: Crypto, st: LedgerState, key: SecretKey, to: string, amount: uint64, fee: uint64,
                               utxos: seq<Utxo>, keys: seq<string>, timestamp: uint64, rnd: nat -> nat, tx: Transaction)
    requires LedgerInv(c, st) && OffersOwn(c, st, key, utxos, keys)
    requires amount > 0 && to != "" && amount + fee < TWO64 && amount + fee <= Value(utxos) < TWO64
    requires tx == CreateTransaction(c, Some(key), to, amount, fee, utxos, timestamp, rnd)
    ensures CheckPooled(c, st.utxos, tx).Accept? && Balanced(st.utxos, tx)
  {
    ReachesWhenExact(utxos, amount + fee);
    PaymentFailsIffNeverReached(c, key, to, amount, fee, utxos, timestamp, rnd, tx.hash);
    PaymentAcceptedIff(c, st, key, to, amount, fee, utxos, keys, timestamp, rnd, tx);
    PaymentBalancedIff(c, st, key, to, amount, fee, utxos, keys, timestamp, rnd, tx);
  }

  lemma WorthOfPrefix(m: map<string, Utxo>, address: string, keys: seq<string>, utxos: seq<Utxo>, n: nat)
    requires Enumerates(OwnedBy(m, address), keys, utxos) && n <= |utxos|
    ensures KeySet(keys[..n]) <= m.Keys
    ensures Sum(Restrict(m, KeySet(keys[..n]))) == Value(utxos[..n])
  {
    var own := OwnedBy(m, address);
    EnumeratedPrefix(own, keys, utxos, n);
    EnumeratedValue(Restrict(own, KeySet(keys[..n])), keys[..n], utxos[..n]);
    forall k | k in KeySet(keys[..n]) ensures k in own {
    }
    assert Restrict(own, KeySet(keys[..n])) == Restrict(m, KeySet(keys[..n]));
  }

  lemma PickedKeys(inputs: seq<TxInput>, keys: seq<string>, n: nat)
    requires |inputs| == n <= |keys| && forall i :: 0 <= i < n ==> InputKey(inputs[i]) == keys[i]
    ensures InputKeys(inputs) == KeySet(keys[..n])
  {
    forall k | k in KeySet(keys[..n]) ensures k in InputKeys(inputs) {
      var i :| 0 <= i < n && keys[..n][i] == k;
      assert inputs[i] in inputs;
    }
    forall k | k in InputKeys(inputs) ensures k in KeySet(keys[..n]) {
      var i :| 0 <= i < n && InputKey(inputs[i]) == k;
      assert keys[..n][i] == k;
    }
  }

  /** A built payment gives the recipient the amount and, if anything is left of what was picked, gives that
      back to the address of the key; every input carries the printed key and its signature of the text. */
  lemma PaymentPays(c: Crypto, key: SecretKey, to: string, amount: uint64, fee: uint64, utxos: seq<Utxo>,
                    timestamp: uint64, rnd: nat -> nat, tx: Transaction, own: string)
    requires tx == CreateTransaction(c, Some(key), to, amount, fee, utxos, timestamp, rnd) && tx.hash != ""
    requires own == c.sha256(BytesToString(c.publicKey(key)))[..40]
    ensures tx.fee == fee && tx.timestamp == timestamp
    ensures 1 <= |tx.outputs| <= 2 && tx.outputs[0] == TxOutput(to, amount)
    ensures |tx.outputs| == 2 ==> tx.outputs[1].address == own && tx.outputs[1].amount > 0
    ensures forall i :: 0 <= i < |tx.inputs| ==>
              && tx.inputs[i].publicKey == BytesToHex(c.publicKey(key))
              && tx.inputs[i].signature == BytesToHex(c.sign(key, SerializeTx(tx), rnd(i)))
  {
    PaymentFailsIffNeverReached(c, key, to, amount, fee, utxos, timestamp, rnd, tx.hash);
    PaymentShape(c, key, to, amount, fee, utxos, timestamp, rnd);
  }

  /** A payment that could not be built is left without outputs, signatures and hash. */
  lemma UnbuiltPayment(c: Crypto, key: Option<SecretKey>, to: string, amount: uint64, fee: uint64, utxos: seq<Utxo>,
                       timestamp: uint64, rnd: nat -> nat, tx: Transaction)
    requires tx == CreateTransaction(c, key, to, amount, fee, utxos, timestamp, rnd) && tx.hash == ""
    ensures tx.outputs == [] && forall i :: 0 <= i < |tx.inputs| ==> tx.inputs[i].signature == ""
  {
  }

  /** A wallet without a key prints and signs nothing. */
  lemma KeylessInputs(c: Crypto, to: string, amount: uint64, fee: uint64, own: seq<Utxo>, timestamp: uint64,
                      rnd: nat -> nat, tx: Transaction, i: nat)
    requires tx == CreateTransaction(c, None, to, amount, fee, own, timestamp, rnd) && i < |tx.inputs|
    ensures tx.inputs[i].publicKey == "" && tx.inputs[i].signature == ""
  {
    var needed := Wrap64(amount + fee);
    var picked := own[..TakenFrom(own, needed, 0)];
    if Wrap64(Value(picked)) < needed {
      assert tx.inputs == InputsFor(picked, "");
    } else {
      var draft := Unsigned(c, None, to, amount, fee, picked, timestamp);
      var data := SerializeTx(draft);
      assert tx.inputs == SignInputs(c, None, data, draft.inputs, rnd);
      assert SignHex(c, None, data, rnd(i)) == "";
      assert tx.inputs[i] == draft.inputs[i].(signature := SignHex(c, None, data, rnd(i)));
    }
  }

  lemma EmptyIsVerifiedEmpty(c: Crypto, utxos: map<string, Utxo>, data: string, input: TxInput)
    requires input.publicKey == "" && input.signature == "" && Owned(c, utxos, data, input)
    ensures c.verify(data, [], [])
  {
    assert HexToBytes("") == Done([]);
  }

  /** So the pool takes its payment only if the scheme verifies an empty signature under an empty key. */
  lemma KeylessPayment(c: Crypto, utxos: map<string, Utxo>, to: string, amount: uint64, fee: uint64, own: seq<Utxo>,
                       timestamp: uint64, rnd: nat -> nat, tx: Transaction)
    requires tx == CreateTransaction(c, None, to, amount, fee, own, timestamp, rnd)
    requires CheckPooled(c, utxos, tx).Accept?
    ensures c.verify(SerializeTx(tx), [], [])
  {
    PooledMeaning(c, utxos, tx);
    KeylessInputs(c, to, amount, fee, own, timestamp, rnd, tx, 0);
    assert tx.inputs[0] in tx.inputs;
    EmptyIsVerifiedEmpty(c, utxos, SerializeTx(tx), tx.inputs[0]);
  }
}
