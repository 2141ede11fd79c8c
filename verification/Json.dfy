/** JSON trees and the `to_json` / `from_json` pairs. */
module Json {
  import opened Words
  import opened Transactions
  import opened Blocks

  datatype Json = JNull | JNum(n: uint64) | JStr(s: string) | JArr(items: seq<Json>) | JObj(fields: map<string, Json>)

  /** A missing member or a value of another type throws. */
  function At(j: Json, name: string): Try<Json> {
    if j.JObj? && name in j.fields then Done(j.fields[name]) else Threw
  }

  function Str(j: Json, name: string): Try<string> {
    var v :- At(j, name);
    if v.JStr? then Done(v.s) else Threw
  }

  function U64(j: Json, name: string): Try<uint64> {
    var v :- At(j, name);
    if v.JNum? then Done(v.n) else Threw
  }

  /** `get<uint32_t>` truncates. */
  function U32(j: Json, name: string): Try<uint32> {
    var v :- U64(j, name);
    Done(Wrap32(v))
  }

  /** What a range-for over the member visits: `null` is an empty range. */
  function Items(j: Json, name: string): Try<seq<Json>> {
    var v :- At(j, name);
    match v
    case JNull => Done([])
    case JArr(items) => Done(items)
    case _ => Threw
  }

  /** Items are decoded in order and the first exception escapes. */
  function All<T>(results: seq<Try<T>>): Try<seq<T>> {
    if results == [] then Done([])
    else
      var first :- results[0];
      var rest :- All(results[1..]);
      Done([first] + rest)
  }

  lemma {:induction false} AllDone<T>(results: seq<Try<T>>, values: seq<T>)
    requires |results| == |values| && forall i :: 0 <= i < |values| ==> results[i] == Done(values[i])
    ensures All(results) == Done(values)
  {
    if values != [] {
      AllDone(results[1..], values[1..]);
      assert [values[0]] + values[1..] == values;
    }
  }

  lemma {:induction false} AllDoneIff<T>(results: seq<Try<T>>)
    ensures All(results).Done? <==> forall i :: 0 <= i < |results| ==> results[i].Done?
    ensures All(results).Done? ==>
              |All(results).value| == |results| &&
              forall i :: 0 <= i < |results| && results[i].Done? ==> All(results).value[i] == results[i].value
  {
    if results != [] {
      AllDoneIff(results[1..]);
      assert results == [results[0]] + results[1..];
    }
  }

  /** The values in front of the first exception. */
  function DonePrefix<T>(results: seq<Try<T>>): (values: seq<T>)
    ensures |values| <= |results|
  {
    if results == [] || results[0].Threw? then [] else [results[0].value] + DonePrefix(results[1..])
  }

  lemma {:induction false} DonePrefixOfAllDone<T>(results: seq<Try<T>>, values: seq<T>)
    requires |results| == |values| && forall i :: 0 <= i < |values| ==> results[i] == Done(values[i])
    ensures DonePrefix(results) == values
  {
    if values != [] {
      DonePrefixOfAllDone(results[1..], values[1..]);
      assert [values[0]] + values[1..] == values;
    }
  }

  /** The loop that decodes and pushes back. */
  method Collect<T>(results: seq<Try<T>>) returns (r: Try<seq<T>>)
    ensures r == All(results)
  {
    var values: seq<T> := [];
    assert results[0..] == results && (All(results).Done? ==> values + All(results).value == All(results).value);
    for i := 0 to |results|
      invariant All(results[i..]).Threw? ==> All(results).Threw?
      invariant All(results[i..]).Done? ==> All(results) == Done(values + All(results[i..]).value)
    {
      assert results[i..][1..] == results[i + 1..];
      if results[i].Threw? {
        return Threw;
      }
      var value := results[i].value;
      if All(results[i + 1..]).Done? {
        var rest := All(results[i + 1..]).value;
        assert values + ([value] + rest) == values + [value] + rest;
      }
      values := values + [value];
    }
    assert results[|results|..] == [] && values + [] == values;
    r := Done(values);
  }

  // ----- transactions -----

  function InputToJson(input: TxInput): Json {
    JObj(map["tx_id" := JStr(input.txId), "output_index" := JNum(input.outputIndex),
             "signature" := JStr(input.signature), "public_key" := JStr(input.publicKey)])
  }

  function InputFromJson(j: Json): Try<TxInput> {
    var txId :- Str(j, "tx_id");
    var outputIndex :- U32(j, "output_index");
    var signature :- Str(j, "signature");
    var publicKey :- Str(j, "public_key");
    Done(TxInput(txId, outputIndex, signature, publicKey))
  }

  function OutputToJson(output: TxOutput): Json {
    JObj(map["address" := JStr(output.address), "amount" := JNum(output.amount)])
  }

  function OutputFromJson(j: Json): Try<TxOutput> {
    var address :- Str(j, "address");
    var amount :- U64(j, "amount");
    Done(TxOutput(address, amount))
  }

  function InputsToJson(inputs: seq<TxInput>): seq<Json> {
    seq(|inputs|, i requires 0 <= i < |inputs| => InputToJson(inputs[i]))
  }

  function InputsFromJson(items: seq<Json>): Try<seq<TxInput>> {
    All(seq(|items|, i requires 0 <= i < |items| => InputFromJson(items[i])))
  }

  function OutputsToJson(outputs: seq<TxOutput>): seq<Json> {
    seq(|outputs|, i requires 0 <= i < |outputs| => OutputToJson(outputs[i]))
  }

  function OutputsFromJson(items: seq<Json>): Try<seq<TxOutput>> {
    All(seq(|items|, i requires 0 <= i < |items| => OutputFromJson(items[i])))
  }

  function TxToJson(tx: Transaction): Json {
    JObj(map["timestamp" := JNum(tx.timestamp), "fee" := JNum(tx.fee), "hash" := JStr(tx.hash),
             "inputs" := JArr(InputsToJson(tx.inputs)), "outputs" := JArr(OutputsToJson(tx.outputs))])
  }

  /** A list of 2^32 outputs or more counts as a failed allocation. */
  function TxFromJson(j: Json): Try<Transaction> {
    var timestamp :- U64(j, "timestamp");
    var fee :- U64(j, "fee");
    var hash :- Str(j, "hash");
    var inputItems :- Items(j, "inputs");
    var inputs :- InputsFromJson(inputItems);
    var outputItems :- Items(j, "outputs");
    var outputs :- OutputsFromJson(outputItems);
    if |outputs| < TWO32 then Done(Transaction(inputs, outputs, timestamp, fee, hash)) else Threw
  }

  lemma InputsRoundTrip(inputs: seq<TxInput>)
    ensures InputsFromJson(InputsToJson(inputs)) == Done(inputs)
  {
    var items := InputsToJson(inputs);
    var results := seq(|items|, i requires 0 <= i < |items| => InputFromJson(items[i]));
    AllDone(results, inputs);
  }

  lemma OutputsRoundTrip(outputs: seq<TxOutput>)
    ensures OutputsFromJson(OutputsToJson(outputs)) == Done(outputs)
  {
    var items := OutputsToJson(outputs);
    var results := seq(|items|, i requires 0 <= i < |items| => OutputFromJson(items[i]));
    AllDone(results, outputs);
  }

  lemma TxRoundTrip(tx: Transaction)
    ensures TxFromJson(TxToJson(tx)) == Done(tx)
  {
    InputsRoundTrip(tx.inputs);
    OutputsRoundTrip(tx.outputs);
  }

  // ----- blocks -----

  function TxsToJson(txs: seq<Transaction>): seq<Json> {
    seq(|txs|, i requires 0 <= i < |txs| => TxToJson(txs[i]))
  }

  function TxsFromJson(items: seq<Json>): Try<seq<Transaction>> {
    All(seq(|items|, i requires 0 <= i < |items| => TxFromJson(items[i])))
  }

  lemma TxsRoundTrip(txs: seq<Transaction>)
    ensures TxsFromJson(TxsToJson(txs)) == Done(txs)
  {
    var items := TxsToJson(txs);
    var results := seq(|items|, i requires 0 <= i < |items| => TxFromJson(items[i]));
    forall i | 0 <= i < |txs| ensures results[i] == Done(txs[i]) {
      TxRoundTrip(txs[i]);
    }
    AllDone(results, txs);
  }

  function BlockToJson(b: Block): Json {
    JObj(map["index" := JNum(b.header.index), "previous_hash" := JStr(b.header.previousHash),
             "timestamp" := JNum(b.header.timestamp), "nonce" := JNum(b.header.nonce),
             "merkle_root" := JStr(b.header.merkleRoot), "difficulty" := JNum(b.header.difficulty),
             "energy_kwh" := JNum(b.header.energyKwh), "watt_seconds" := JNum(b.header.wattSeconds),
             "energy_source" := JStr(b.header.energySource), "miner_address" := JStr(b.header.minerAddress),
             "hash" := JStr(b.hash), "transactions" := JArr(TxsToJson(b.transactions))])
  }

  function HeaderFromJson(j: Json): Try<Header> {
    var index :- U64(j, "index");
    var previousHash :- Str(j, "previous_hash");
    var timestamp :- U64(j, "timestamp");
    var nonce :- U64(j, "nonce");
    var merkleRoot :- Str(j, "merkle_root");
    var difficulty :- U32(j, "difficulty");
    var energyKwh :- U64(j, "energy_kwh");
    var wattSeconds :- U64(j, "watt_seconds");
    var energySource :- Str(j, "energy_source");
    var minerAddress :- Str(j, "miner_address");
    Done(Header(index, previousHash, timestamp, nonce, merkleRoot, difficulty,
                energyKwh, wattSeconds, energySource, minerAddress))
  }

  function BlockFromJson(j: Json): Try<Block> {
    var header :- HeaderFromJson(j);
    var hash :- Str(j, "hash");
    var items :- Items(j, "transactions");
    var txs :- TxsFromJson(items);
    Done(Block(header, txs, hash))
  }

  /** The members of a header: numbers and strings, of which only the difficulty is truncated. */
  predicate HasHeaderMembers(j: Json) {
    && U64(j, "index").Done? && Str(j, "previous_hash").Done? && U64(j, "timestamp").Done? && U64(j, "nonce").Done?
    && Str(j, "merkle_root").Done? && U64(j, "difficulty").Done? && U64(j, "energy_kwh").Done?
    && U64(j, "watt_seconds").Done? && Str(j, "energy_source").Done? && Str(j, "miner_address").Done?
  }

  /** A block decodes exactly when every member has its type and every transaction decodes; then its
      transactions are the decoded ones, in order. */
  lemma BlockDecodesIff(j: Json)
    ensures BlockFromJson(j).Done? <==>
            && HasHeaderMembers(j) && Str(j, "hash").Done? && Items(j, "transactions").Done?
            && forall i :: 0 <= i < |Items(j, "transactions").value| ==>
                 TxFromJson(Items(j, "transactions").value[i]).Done?
    ensures BlockFromJson(j).Done? ==>
              var items, b := Items(j, "transactions").value, BlockFromJson(j).value;
              |b.transactions| == |items| &&
              forall i :: 0 <= i < |items| ==> TxFromJson(items[i]) == Done(b.transactions[i])
  {
    if Items(j, "transactions").Done? {
      var items := Items(j, "transactions").value;
      var results := seq(|items|, i requires 0 <= i < |items| => TxFromJson(items[i]));
      AllDoneIff(results);
      assert forall i :: 0 <= i < |items| ==> results[i] == TxFromJson(items[i]);
    }
  }

  /** A null in place of a list counts as an empty list, and anything else but a list throws. */
  lemma NullCountsAsEmpty(j: Json, v: Json)
    requires At(j, "transactions") == Done(v) && HasHeaderMembers(j) && Str(j, "hash").Done?
    ensures v == JNull ==> BlockFromJson(j).Done? && BlockFromJson(j).value.transactions == []
    ensures v != JNull && !v.JArr? ==> BlockFromJson(j).Threw?
  {
    if v == JNull {
      BlockDecodesIff(j);
    }
  }

  /** The member names are told apart by their length and first character. */
  lemma MemberNames()
    ensures |"hash"| == 4 && |"index"| == |"nonce"| == 5 && |"timestamp"| == 9
    ensures |"difficulty"| == |"energy_kwh"| == 10 && |"merkle_root"| == 11
    ensures |"watt_seconds"| == |"transactions"| == 12
    ensures |"previous_hash"| == |"energy_source"| == |"miner_address"| == 13
    ensures "index" != "nonce" && "difficulty" != "energy_kwh" && "watt_seconds" != "transactions"
    ensures "previous_hash" != "energy_source" && "previous_hash" != "miner_address" &&
            "energy_source" != "miner_address"
  {
    assert "index"[0] != "nonce"[0] && "difficulty"[0] != "energy_kwh"[0] && "watt_seconds"[0] != "transactions"[0];
    assert "previous_hash"[0] == 'p' && "energy_source"[0] == 'e' && "miner_address"[0] == 'm';
  }

  /** The tree `j` holds the members of the header `h`. */
  predicate HoldsHeader(j: Json, h: Header) {
    HoldsChainFields(j, h) && HoldsEnergyFields(j, h)
  }

  predicate HoldsEnergyFields(j: Json, h: Header) {
    && U32(j, "difficulty") == Done(h.difficulty) && U64(j, "energy_kwh") == Done(h.energyKwh)
    && U64(j, "watt_seconds") == Done(h.wattSeconds) && Str(j, "energy_source") == Done(h.energySource)
    && Str(j, "miner_address") == Done(h.minerAddress)
  }

  predicate HoldsChainFields(j: Json, h: Header) {
    && U64(j, "index") == Done(h.index) && Str(j, "previous_hash") == Done(h.previousHash)
    && U64(j, "timestamp") == Done(h.timestamp) && U64(j, "nonce") == Done(h.nonce)
    && Str(j, "merkle_root") == Done(h.merkleRoot)
  }

  lemma HeldHeaderDecodes(j: Json, h: Header)
    requires HoldsHeader(j, h)
    ensures HeaderFromJson(j) == Done(h)
  {
  }

  lemma BlockHoldsChainFields(b: Block)
    ensures HoldsChainFields(BlockToJson(b), b.header)
  {
    MemberNames();
  }

  lemma BlockHoldsEnergyFields(b: Block)
    ensures HoldsEnergyFields(BlockToJson(b), b.header)
  {
    MemberNames();
  }

  lemma HeaderRoundTrip(b: Block)
    ensures HeaderFromJson(BlockToJson(b)) == Done(b.header)
  {
    BlockHoldsEnergyFields(b);
    BlockHoldsChainFields(b);
    HeldHeaderDecodes(BlockToJson(b), b.header);
  }

  /** Every field of a block survives the trip through JSON. */
  lemma BlockRoundTrip(b: Block)
    ensures BlockFromJson(BlockToJson(b)) == Done(b)
  {
    MemberNames();
    TxsRoundTrip(b.transactions);
    HeaderRoundTrip(b);
    var j := BlockToJson(b);
    assert Str(j, "hash") == Done(b.hash);
    assert Items(j, "transactions") == Done(TxsToJson(b.transactions));
  }

  // ----- the loops over vectors -----

  method EncodeBlock(b: Block) returns (j: Json)
    ensures j == BlockToJson(b)
  {
    var txs: seq<Json> := [];
    for i := 0 to |b.transactions|
      invariant txs == TxsToJson(b.transactions)[..i]
    {
      txs := txs + [TxToJson(b.transactions[i])];
    }
    assert txs == TxsToJson(b.transactions);
    var fields := BlockToJson(b.(transactions := [])).fields;
    j := JObj(fields["transactions" := JArr(txs)]);
  }

  method DecodeBlock(j: Json) returns (r: Try<Block>)
    ensures r == BlockFromJson(j)
  {
    var header := HeaderFromJson(j);
    var hash := Str(j, "hash");
    var items := Items(j, "transactions");
    if header.Threw? || hash.Threw? || items.Threw? {
      return Threw;
    }
    var list := items.value;
    var txs := Collect(seq(|list|, i requires 0 <= i < |list| => TxFromJson(list[i])));
    r := if txs.Done? then Done(Block(header.value, txs.value, hash.value)) else Threw;
  }

  // ----- the members of a transaction -----

  predicate HoldsInput(j: Json, input: TxInput) {
    && At(j, "tx_id") == Done(JStr(input.txId)) && At(j, "output_index") == Done(JNum(input.outputIndex))
    && At(j, "signature") == Done(JStr(input.signature)) && At(j, "public_key") == Done(JStr(input.publicKey))
  }

  predicate HoldsOutput(j: Json, output: TxOutput) {
    At(j, "address") == Done(JStr(output.address)) && At(j, "amount") == Done(JNum(output.amount))
  }

  predicate HoldsTx(j: Json, tx: Transaction) {
    && At(j, "timestamp") == Done(JNum(tx.timestamp)) && At(j, "fee") == Done(JNum(tx.fee))
    && At(j, "hash") == Done(JStr(tx.hash))
    && At(j, "inputs").Done? && At(j, "inputs").value.JArr? && At(j, "outputs").Done? && At(j, "outputs").value.JArr?
    && var inputs, outputs := At(j, "inputs").value.items, At(j, "outputs").value.items;
       && |inputs| == |tx.inputs| && |outputs| == |tx.outputs|
       && (forall i :: 0 <= i < |inputs| ==> HoldsInput(inputs[i], tx.inputs[i]))
       && forall i :: 0 <= i < |outputs| ==> HoldsOutput(outputs[i], tx.outputs[i])
  }

  lemma TxMemberNames()
    ensures |"tx_id"| == 5 && |"output_index"| == 12 && |"signature"| == 9 && |"public_key"| == 10
    ensures |"address"| == 7 && |"amount"| == 6 && |"timestamp"| == 9 && |"fee"| == 3 && |"hash"| == 4
    ensures |"inputs"| == 6 && |"outputs"| == 7
  {
  }

  /** The tree of a transaction holds each of its fields under the name that clients read. */
  lemma TxHoldsFields(tx: Transaction)
    ensures HoldsTx(TxToJson(tx), tx)
  {
    TxMemberNames();
  }
}
