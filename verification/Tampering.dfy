/** Everything that is hashed matters: changing any one component changes the hashed text, hence the id. */
module Tampering {
  import opened Words
  import opened Decimals
  import opened Crypto
  import opened Transactions
  import opened Blocks
  import opened Ledger
  import opened Acceptance

  // ----- texts with one piece exchanged -----

  /** Within equal surroundings different pieces make different texts. */
  lemma PieceMatters(front: string, piece: string, other: string, back: string)
    requires front + piece + back == front + other + back
    ensures piece == other
  {
    var s, t := front + piece + back, front + other + back;
    assert |piece| == |other|;
    assert piece == s[|front|..|front| + |piece|] && other == t[|front|..|front| + |other|];
  }

  // ----- the parts of the text of a transaction -----

  function InputText(input: TxInput): string {
    input.txId + Decimal(input.outputIndex) + input.publicKey
  }

  function OutputText(output: TxOutput): string {
    output.address + Decimal(output.amount)
  }

  lemma {:induction false} ConcatSplits(parts: seq<string>, k: nat)
    requires k < |parts|
    ensures Concat(parts) == Concat(parts[..k]) + parts[k] + Concat(parts[k + 1..])
  {
    if k == 0 {
      assert parts[..0] == [];
    } else {
      ConcatSplits(parts[1..], k - 1);
      assert parts[1..][..k - 1] == parts[..k][1..] && parts[1..][k..] == parts[k + 1..];
      var head, a, b, d := parts[0], Concat(parts[..k][1..]), parts[k], Concat(parts[k + 1..]);
      assert head + (a + b + d) == head + a + b + d;
    }
  }

  function InputTexts(inputs: seq<TxInput>): seq<string> {
    seq(|inputs|, i requires 0 <= i < |inputs| => InputText(inputs[i]))
  }

  function OutputTexts(outputs: seq<TxOutput>): seq<string> {
    seq(|outputs|, i requires 0 <= i < |outputs| => OutputText(outputs[i]))
  }

  /** All inputs are printed, one after the other. */
  lemma {:induction false} InputsAreTexts(inputs: seq<TxInput>)
    ensures SerializeInputs(inputs) == Concat(InputTexts(inputs))
  {
    if inputs != [] {
      InputsAreTexts(inputs[1..]);
      assert InputTexts(inputs)[1..] == InputTexts(inputs[1..]);
    }
  }

  /** So are all outputs. */
  lemma {:induction false} OutputsAreTexts(outputs: seq<TxOutput>)
    ensures SerializeOutputs(outputs) == Concat(OutputTexts(outputs))
  {
    if outputs != [] {
      OutputsAreTexts(outputs[1..]);
      assert OutputTexts(outputs)[1..] == OutputTexts(outputs[1..]);
    }
  }

  lemma InputTextsSplit(inputs: seq<TxInput>, k: nat)
    requires k < |inputs|
    ensures InputTexts(inputs)[..k] == InputTexts(inputs[..k]) && InputTexts(inputs)[k] == InputText(inputs[k])
    ensures InputTexts(inputs)[k + 1..] == InputTexts(inputs[k + 1..])
  {
  }

  lemma InputsTextSplits(inputs: seq<TxInput>, k: nat)
    requires k < |inputs|
    ensures SerializeInputs(inputs) ==
            SerializeInputs(inputs[..k]) + InputText(inputs[k]) + SerializeInputs(inputs[k + 1..])
  {
    InputsAreTexts(inputs);
    InputsAreTexts(inputs[..k]);
    InputsAreTexts(inputs[k + 1..]);
    InputTextsSplit(inputs, k);
    ConcatSplits(InputTexts(inputs), k);
  }

  lemma OutputTextsSplit(outputs: seq<TxOutput>, k: nat)
    requires k < |outputs|
    ensures OutputTexts(outputs)[..k] == OutputTexts(outputs[..k]) && OutputTexts(outputs)[k] == OutputText(outputs[k])
    ensures OutputTexts(outputs)[k + 1..] == OutputTexts(outputs[k + 1..])
  {
  }

  lemma OutputsTextSplits(outputs: seq<TxOutput>, k: nat)
    requires k < |outputs|
    ensures SerializeOutputs(outputs) ==
            SerializeOutputs(outputs[..k]) + OutputText(outputs[k]) + SerializeOutputs(outputs[k + 1..])
  {
    OutputsAreTexts(outputs);
    OutputsAreTexts(outputs[..k]);
    OutputsAreTexts(outputs[k + 1..]);
    OutputTextsSplit(outputs, k);
    ConcatSplits(OutputTexts(outputs), k);
  }

  lemma Regrouped(a: string, b: string, d: string, e: string, f: string)
    ensures a + (b + d + e) + f == a + b + d + (e + f)
    ensures f == "" ==> a + (b + d + e) == a + b + d + e
  {
  }

  /** The text of a transaction around one input, and around one output. */
  lemma TextAroundInput(tx: Transaction, k: nat) returns (front: string, back: string)
    requires k < |tx.inputs|
    ensures front == Decimal(tx.timestamp) + Decimal(tx.fee) + SerializeInputs(tx.inputs[..k])
    ensures back == SerializeInputs(tx.inputs[k + 1..]) + SerializeOutputs(tx.outputs)
    ensures SerializeTx(tx) == front + InputText(tx.inputs[k]) + back
  {
    front := Decimal(tx.timestamp) + Decimal(tx.fee) + SerializeInputs(tx.inputs[..k]);
    back := SerializeInputs(tx.inputs[k + 1..]) + SerializeOutputs(tx.outputs);
    InputsTextSplits(tx.inputs, k);
    var a, b, d, e := Decimal(tx.timestamp) + Decimal(tx.fee), SerializeInputs(tx.inputs[..k]), InputText(tx.inputs[k]),
      SerializeInputs(tx.inputs[k + 1..]);
    Regrouped(a, b, d, e, SerializeOutputs(tx.outputs));
  }

  lemma TextAroundOutput(tx: Transaction, k: nat) returns (front: string, back: string)
    requires k < |tx.outputs|
    ensures front == Decimal(tx.timestamp) + Decimal(tx.fee) + SerializeInputs(tx.inputs) +
                     SerializeOutputs(tx.outputs[..k])
    ensures back == SerializeOutputs(tx.outputs[k + 1..])
    ensures SerializeTx(tx) == front + OutputText(tx.outputs[k]) + back
  {
    front := Decimal(tx.timestamp) + Decimal(tx.fee) + SerializeInputs(tx.inputs) + SerializeOutputs(tx.outputs[..k]);
    back := SerializeOutputs(tx.outputs[k + 1..]);
    OutputsTextSplits(tx.outputs, k);
    var a := Decimal(tx.timestamp) + Decimal(tx.fee) + SerializeInputs(tx.inputs);
    var b, d := SerializeOutputs(tx.outputs[..k]), OutputText(tx.outputs[k]);
    Regrouped(a, b, d, back, "");
  }

  // ----- one component of a transaction -----

  datatype TxChange =
    | NewTimestamp(time: uint64)
    | NewFee(fee: uint64)
    | NewInputId(k: nat, id: string)
    | NewInputIndex(k: nat, index: uint32)
    | NewInputKey(k: nat, key: string)
    | NewAddress(k: nat, address: string)
    | NewAmount(k: nat, amount: uint64)

  /** The change is about a component that exists, and it is a change. */
  predicate Changes(tx: Transaction, change: TxChange) {
    match change
    case NewTimestamp(time) => time != tx.timestamp
    case NewFee(fee) => fee != tx.fee
    case NewInputId(k, id) => k < |tx.inputs| && id != tx.inputs[k].txId
    case NewInputIndex(k, index) => k < |tx.inputs| && index != tx.inputs[k].outputIndex
    case NewInputKey(k, key) => k < |tx.inputs| && key != tx.inputs[k].publicKey
    case NewAddress(k, address) => k < |tx.outputs| && address != tx.outputs[k].address
    case NewAmount(k, amount) => k < |tx.outputs| && amount != tx.outputs[k].amount
  }

  function WithInput(tx: Transaction, k: nat, input: TxInput): Transaction
    requires k < |tx.inputs|
  {
    tx.(inputs := tx.inputs[k := input])
  }

  function WithOutput(tx: Transaction, k: nat, output: TxOutput): Transaction
    requires k < |tx.outputs|
  {
    var outputs: Outputs := tx.outputs[k := output];
    tx.(outputs := outputs)
  }

  function Changed(tx: Transaction, change: TxChange): Transaction
    requires Changes(tx, change)
  {
    match change
    case NewTimestamp(time) => tx.(timestamp := time)
    case NewFee(fee) => tx.(fee := fee)
    case NewInputId(k, id) => WithInput(tx, k, tx.inputs[k].(txId := id))
    case NewInputIndex(k, index) => WithInput(tx, k, tx.inputs[k].(outputIndex := index))
    case NewInputKey(k, key) => WithInput(tx, k, tx.inputs[k].(publicKey := key))
    case NewAddress(k, address) => WithOutput(tx, k, tx.outputs[k].(address := address))
    case NewAmount(k, amount) => WithOutput(tx, k, tx.outputs[k].(amount := amount))
  }

  lemma InputPieceMatters(tx: Transaction, k: nat, input: TxInput)
    requires k < |tx.inputs| && SerializeTx(WithInput(tx, k, input)) == SerializeTx(tx)
    ensures InputText(input) == InputText(tx.inputs[k])
  {
    var tx' := WithInput(tx, k, input);
    var front, back := TextAroundInput(tx, k);
    var front', back' := TextAroundInput(tx', k);
    assert tx'.inputs[..k] == tx.inputs[..k] && tx'.inputs[k + 1..] == tx.inputs[k + 1..];
    PieceMatters(front, InputText(tx.inputs[k]), InputText(input), back);
  }

  lemma OutputPieceMatters(tx: Transaction, k: nat, output: TxOutput)
    requires k < |tx.outputs| && SerializeTx(WithOutput(tx, k, output)) == SerializeTx(tx)
    ensures OutputText(output) == OutputText(tx.outputs[k])
  {
    var tx' := WithOutput(tx, k, output);
    var front, back := TextAroundOutput(tx, k);
    var front', back' := TextAroundOutput(tx', k);
    assert tx'.outputs[..k] == tx.outputs[..k] && tx'.outputs[k + 1..] == tx.outputs[k + 1..];
    PieceMatters(front, OutputText(tx.outputs[k]), OutputText(output), back);
  }

  /** A number printed at another value within equal surroundings. */
  lemma NumberMatters(front: string, m: nat, n: nat, back: string)
    requires front + Decimal(m) + back == front + Decimal(n) + back
    ensures m == n
  {
    PieceMatters(front, Decimal(m), Decimal(n), back);
    DecimalInjective(m, n);
  }

  lemma InputFieldsMatter(a: TxInput, b: TxInput)
    requires InputText(a) == InputText(b)
    ensures a.outputIndex == b.outputIndex && a.publicKey == b.publicKey ==> a.txId == b.txId
    ensures a.txId == b.txId && a.publicKey == b.publicKey ==> a.outputIndex == b.outputIndex
    ensures a.txId == b.txId && a.outputIndex == b.outputIndex ==> a.publicKey == b.publicKey
  {
    var m, n := Decimal(a.outputIndex), Decimal(b.outputIndex);
    if a.outputIndex == b.outputIndex && a.publicKey == b.publicKey {
      assert InputText(a) == "" + a.txId + (m + a.publicKey) && InputText(b) == "" + b.txId + (m + a.publicKey);
      PieceMatters("", a.txId, b.txId, m + a.publicKey);
    }
    if a.txId == b.txId && a.publicKey == b.publicKey {
      NumberMatters(a.txId, a.outputIndex, b.outputIndex, a.publicKey);
    }
    if a.txId == b.txId && a.outputIndex == b.outputIndex {
      assert InputText(a) == a.txId + m + a.publicKey + "" && InputText(b) == a.txId + m + b.publicKey + "";
      PieceMatters(a.txId + m, a.publicKey, b.publicKey, "");
    }
  }

  lemma OutputFieldsMatter(a: TxOutput, b: TxOutput)
    requires OutputText(a) == OutputText(b)
    ensures a.amount == b.amount ==> a.address == b.address
    ensures a.address == b.address ==> a.amount == b.amount
  {
    if a.amount == b.amount {
      assert OutputText(a) == "" + a.address + Decimal(a.amount) && OutputText(b) == "" + b.address + Decimal(a.amount);
      PieceMatters("", a.address, b.address, Decimal(a.amount));
    }
    if a.address == b.address {
      assert OutputText(a) == a.address + Decimal(a.amount) + "" && OutputText(b) == a.address + Decimal(b.amount) + "";
      NumberMatters(a.address, a.amount, b.amount, "");
    }
  }

  lemma TimesMatter(tx: Transaction, time: uint64)
    requires SerializeTx(tx.(timestamp := time)) == SerializeTx(tx)
    ensures time == tx.timestamp
  {
    var back := Decimal(tx.fee) + SerializeInputs(tx.inputs) + SerializeOutputs(tx.outputs);
    assert SerializeTx(tx) == "" + Decimal(tx.timestamp) + back;
    assert SerializeTx(tx.(timestamp := time)) == "" + Decimal(time) + back;
    NumberMatters("", tx.timestamp, time, back);
  }

  lemma FeesMatter(tx: Transaction, fee: uint64)
    requires SerializeTx(tx.(fee := fee)) == SerializeTx(tx)
    ensures fee == tx.fee
  {
    var back := SerializeInputs(tx.inputs) + SerializeOutputs(tx.outputs);
    assert SerializeTx(tx) == Decimal(tx.timestamp) + Decimal(tx.fee) + back;
    assert SerializeTx(tx.(fee := fee)) == Decimal(tx.timestamp) + Decimal(fee) + back;
    NumberMatters(Decimal(tx.timestamp), tx.fee, fee, back);
  }

  /** Changing any one component of a transaction other than a signature changes the text that is signed
      and hashed. */
  lemma ChangeChangesText(tx: Transaction, change: TxChange)
    requires Changes(tx, change)
    ensures SerializeTx(Changed(tx, change)) != SerializeTx(tx)
  {
    if SerializeTx(Changed(tx, change)) == SerializeTx(tx) {
      match change {
        case NewTimestamp(time) => TimesMatter(tx, time);
        case NewFee(fee) => FeesMatter(tx, fee);
        case NewInputId(k, id) => InputChange(tx, k, tx.inputs[k].(txId := id));
        case NewInputIndex(k, index) => InputChange(tx, k, tx.inputs[k].(outputIndex := index));
        case NewInputKey(k, key) => InputChange(tx, k, tx.inputs[k].(publicKey := key));
        case NewAddress(k, address) => OutputChange(tx, k, tx.outputs[k].(address := address));
        case NewAmount(k, amount) => OutputChange(tx, k, tx.outputs[k].(amount := amount));
      }
    }
  }

  lemma InputChange(tx: Transaction, k: nat, input: TxInput)
    requires k < |tx.inputs| && SerializeTx(WithInput(tx, k, input)) == SerializeTx(tx)
    ensures InputText(input) == InputText(tx.inputs[k])
    ensures input.outputIndex == tx.inputs[k].outputIndex && input.publicKey == tx.inputs[k].publicKey ==>
              input.txId == tx.inputs[k].txId
    ensures input.txId == tx.inputs[k].txId && input.publicKey == tx.inputs[k].publicKey ==>
              input.outputIndex == tx.inputs[k].outputIndex
    ensures input.txId == tx.inputs[k].txId && input.outputIndex == tx.inputs[k].outputIndex ==>
              input.publicKey == tx.inputs[k].publicKey
  {
    InputPieceMatters(tx, k, input);
    InputFieldsMatter(input, tx.inputs[k]);
  }

  lemma OutputChange(tx: Transaction, k: nat, output: TxOutput)
    requires k < |tx.outputs| && SerializeTx(WithOutput(tx, k, output)) == SerializeTx(tx)
    ensures output.amount == tx.outputs[k].amount ==> output.address == tx.outputs[k].address
    ensures output.address == tx.outputs[k].address ==> output.amount == tx.outputs[k].amount
  {
    OutputPieceMatters(tx, k, output);
    OutputFieldsMatter(output, tx.outputs[k]);
  }

  /** So it changes the id, or the two texts collide. */
  lemma ChangeChangesId(c: Crypto, tx: Transaction, change: TxChange)
    requires Changes(tx, change)
    ensures TxHash(c, Changed(tx, change)) != TxHash(c, tx) ||
            Collides(c, (SerializeTx(tx), SerializeTx(Changed(tx, change))))
  {
    ChangeChangesText(tx, change);
  }

  /** A transaction that carries its id is turned away by pool and chain after any such change, unless the
      texts collide. */
  lemma ChangedTxIsTurnedAway(c: Crypto, utxos: map<string, Utxo>, tx: Transaction, change: TxChange, first: bool)
    requires Changes(tx, change) && CarriesItsId(c, tx)
    ensures (CheckPooled(c, utxos, Changed(tx, change)) == Reject &&
             CheckTx(c, utxos, Changed(tx, change), first) == Reject) ||
            Collides(c, (SerializeTx(tx), SerializeTx(Changed(tx, change))))
  {
    ChangeChangesText(tx, change);
  }

  /** One more input or output makes the text longer. */
  lemma MorePartsMoreText(tx: Transaction, input: TxInput, output: TxOutput)
    requires |tx.outputs| + 1 < TWO32
    ensures |SerializeTx(tx.(inputs := tx.inputs + [input]))| > |SerializeTx(tx)|
    ensures |SerializeTx(tx.(outputs := tx.outputs + [output]))| > |SerializeTx(tx)|
  {
    var inputs, outputs := tx.inputs + [input], tx.outputs + [output];
    InputsTextSplits(inputs, |tx.inputs|);
    OutputsTextSplits(outputs, |tx.outputs|);
    assert inputs[..|tx.inputs|] == tx.inputs && outputs[..|tx.outputs|] == tx.outputs;
    assert inputs[|tx.inputs| + 1..] == [] && outputs[|tx.outputs| + 1..] == [];
    DecimalDigits(input.outputIndex);
    DecimalDigits(output.amount);
  }

  // ----- one component of a block -----

  datatype BlockChange =
    | NewIndex(index: uint64)
    | NewPrevious(hash: string)
    | NewTime(time: uint64)
    | NewNonce(nonce: uint64)
    | NewRoot(root: string)
    | NewDifficulty(difficulty: uint32)
    | NewMiner(address: string)
    | NewId(k: nat, id: string)

  predicate ChangesBlock(b: Block, change: BlockChange) {
    match change
    case NewIndex(index) => index != b.header.index
    case NewPrevious(hash) => hash != b.header.previousHash
    case NewTime(time) => time != b.header.timestamp
    case NewNonce(nonce) => nonce != b.header.nonce
    case NewRoot(root) => root != b.header.merkleRoot
    case NewDifficulty(difficulty) => difficulty != b.header.difficulty
    case NewMiner(address) => address != b.header.minerAddress
    case NewId(k, id) => k < |b.transactions| && id != b.transactions[k].hash
  }

  function ChangedBlock(b: Block, change: BlockChange): Block
    requires ChangesBlock(b, change)
  {
    var h := b.header;
    match change
    case NewIndex(index) => b.(header := h.(index := index))
    case NewPrevious(hash) => b.(header := h.(previousHash := hash))
    case NewTime(time) => b.(header := h.(timestamp := time))
    case NewNonce(nonce) => b.(header := h.(nonce := nonce))
    case NewRoot(root) => b.(header := h.(merkleRoot := root))
    case NewDifficulty(difficulty) => b.(header := h.(difficulty := difficulty))
    case NewMiner(address) => b.(header := h.(minerAddress := address))
    case NewId(k, id) => b.(transactions := b.transactions[k := b.transactions[k].(hash := id)])
  }

  /** The seven header fields in the order in which they are printed. */
  function HeaderParts(h: Header): seq<string> {
    [Decimal(h.index), h.previousHash, Decimal(h.timestamp), Decimal(h.nonce), h.merkleRoot, Decimal(h.difficulty),
     h.minerAddress]
  }

  function BlockParts(b: Block): seq<string> {
    HeaderParts(b.header) + TxIds(b.transactions)
  }

  lemma {:induction false} ConcatAppend(a: seq<string>, b: seq<string>)
    ensures Concat(a + b) == Concat(a) + Concat(b)
  {
    if a == [] {
      assert a + b == b;
    } else {
      ConcatAppend(a[1..], b);
      assert (a + b)[1..] == a[1..] + b;
      assert a[0] + (Concat(a[1..]) + Concat(b)) == a[0] + Concat(a[1..]) + Concat(b);
    }
  }

  lemma ConcatSeven(a: string, b: string, d: string, e: string, f: string, g: string, h: string)
    ensures Concat([a, b, d, e, f, g, h]) == a + b + d + e + f + g + h
  {
    assert Concat([h]) == h + Concat([h][1..]);
    assert [a, b, d, e, f, g, h][1..] == [b, d, e, f, g, h] && [b, d, e, f, g, h][1..] == [d, e, f, g, h];
    assert [d, e, f, g, h][1..] == [e, f, g, h] && [e, f, g, h][1..] == [f, g, h] && [f, g, h][1..] == [g, h];
    assert [g, h][1..] == [h];
    assert Concat([g, h]) == g + h;
    assert Concat([f, g, h]) == f + (g + h);
    assert Concat([e, f, g, h]) == e + (f + (g + h));
    assert Concat([d, e, f, g, h]) == d + (e + (f + (g + h)));
    assert Concat([b, d, e, f, g, h]) == b + (d + (e + (f + (g + h))));
  }

  /** The hashed text is these parts one after the other. */
  lemma BlockTextIsParts(b: Block)
    ensures SerializeBlock(b) == Concat(BlockParts(b))
  {
    var h := b.header;
    ConcatSeven(Decimal(h.index), h.previousHash, Decimal(h.timestamp), Decimal(h.nonce), h.merkleRoot,
                Decimal(h.difficulty), h.minerAddress);
    ConcatAppend(HeaderParts(h), TxIds(b.transactions));
  }

  lemma OnePartMatters(parts: seq<string>, k: nat, part: string)
    requires k < |parts| && Concat(parts[k := part]) == Concat(parts)
    ensures part == parts[k]
  {
    var parts' := parts[k := part];
    ConcatSplits(parts, k);
    ConcatSplits(parts', k);
    assert parts'[..k] == parts[..k] && parts'[k + 1..] == parts[k + 1..];
    PieceMatters(Concat(parts[..k]), parts[k], part, Concat(parts[k + 1..]));
  }

  function PartOf(change: BlockChange): nat {
    match change
    case NewIndex(_) => 0
    case NewPrevious(_) => 1
    case NewTime(_) => 2
    case NewNonce(_) => 3
    case NewRoot(_) => 4
    case NewDifficulty(_) => 5
    case NewMiner(_) => 6
    case NewId(k, _) => 7 + k
  }

  /** The change exchanges exactly one part, by another text. */
  lemma OnePartChanges(b: Block, change: BlockChange, k: nat)
    requires ChangesBlock(b, change) && k == PartOf(change)
    ensures k < |BlockParts(b)| && k < |BlockParts(ChangedBlock(b, change))|
    ensures BlockParts(ChangedBlock(b, change)) == BlockParts(b)[k := BlockParts(ChangedBlock(b, change))[k]]
    ensures BlockParts(ChangedBlock(b, change))[k] != BlockParts(b)[k]
  {
    match change {
      case NewIndex(index) => if Decimal(index) == Decimal(b.header.index) { DecimalInjective(index, b.header.index); }
      case NewTime(time) =>
        if Decimal(time) == Decimal(b.header.timestamp) { DecimalInjective(time, b.header.timestamp); }
      case NewNonce(nonce) => if Decimal(nonce) == Decimal(b.header.nonce) { DecimalInjective(nonce, b.header.nonce); }
      case NewDifficulty(difficulty) =>
        if Decimal(difficulty) == Decimal(b.header.difficulty) { DecimalInjective(difficulty, b.header.difficulty); }
      case _ =>
    }
  }

  /** Changing any one field of the header other than the energy report, or any one transaction id, changes
      the hashed text of a block. */
  lemma BlockChangeChangesText(b: Block, change: BlockChange)
    requires ChangesBlock(b, change)
    ensures SerializeBlock(ChangedBlock(b, change)) != SerializeBlock(b)
  {
    var k, b' := PartOf(change), ChangedBlock(b, change);
    OnePartChanges(b, change, k);
    BlockTextIsParts(b);
    BlockTextIsParts(b');
    if SerializeBlock(b') == SerializeBlock(b) {
      OnePartMatters(BlockParts(b), k, BlockParts(b')[k]);
    }
  }

  /** So it changes the hash, and the block is no longer taken, or the two texts collide. */
  lemma ChangedBlockIsTurnedAway(c: Crypto, latest: Block, b: Block, change: BlockChange)
    requires ChangesBlock(b, change) && b.hash == BlockHash(c, b)
    ensures (BlockHash(c, ChangedBlock(b, change)) != BlockHash(c, b) &&
             CheckHeader(c, latest, ChangedBlock(b, change)) == Reject) ||
            Collides(c, (SerializeBlock(b), SerializeBlock(ChangedBlock(b, change))))
  {
    BlockChangeChangesText(b, change);
  }
}
