/** Proof-of-work difficulty: leading zero bits of a digest (`Block::meets_difficulty`). */
module LeadingZeros {
  import opened Words
  import opened Hex

  function Pow2(n: nat): (p: nat)
    ensures p > 0
  {
    if n == 0 then 1 else 2 * Pow2(n - 1)
  }

  lemma {:induction false} Pow2Add(a: nat, b: nat)
    ensures Pow2(a + b) == Pow2(a) * Pow2(b)
  {
    if a > 0 {
      Pow2Add(a - 1, b);
    }
  }

  lemma {:induction false} Pow2Monotone(a: nat, b: nat)
    requires a <= b
    ensures Pow2(a) <= Pow2(b)
  {
    if a < b {
      Pow2Monotone(a, b - 1);
    }
  }

  /** `(b >> k) & 1` */
  function Bit(b: uint8, k: nat): nat
    requires k < 8
  {
    match k
    case 0 => b % 2
    case 1 => b / 2 % 2
    case 2 => b / 4 % 2
    case 3 => b / 8 % 2
    case 4 => b / 16 % 2
    case 5 => b / 32 % 2
    case 6 => b / 64 % 2
    case 7 => b / 128
  }

  /** Zero bits before the first one bit, scanning down from `bit`. */
  function ZerosFrom(b: uint8, bit: int): nat
    requires -1 <= bit < 8
    decreases bit + 1
  {
    if bit < 0 || Bit(b, bit) == 1 then 0 else 1 + ZerosFrom(b, bit - 1)
  }

  function ZeroBits(bytes: seq<uint8>): nat {
    if bytes == [] then 0
    else if bytes[0] == 0 then 8 + ZeroBits(bytes[1..])
    else ZerosFrom(bytes[0], 7)
  }

  /** `Block::meets_difficulty` on the printed hash; `zero_bits` is a `uint32_t`. */
  function MeetsDifficulty(hash: string, difficulty: uint32): Try<bool> {
    var bytes :- HexToBytes(hash);
    Done(Wrap32(ZeroBits(bytes)) >= difficulty)
  }

  /** The inner counting loop, on a byte that has a one bit. */
  method ScanByte(byte: uint8, start: uint32, ghost counted: nat) returns (zeroBits: uint32)
    requires byte != 0 && start == Wrap32(counted)
    ensures zeroBits == Wrap32(counted + ZerosFrom(byte, 7))
  {
    zeroBits := start;
    ghost var seen := counted;
    var bit := 7;
    while bit >= 0
      invariant -1 <= bit <= 7
      invariant zeroBits == Wrap32(seen) && seen + ZerosFrom(byte, bit) == counted + ZerosFrom(byte, 7)
      invariant forall k :: bit < k <= 7 ==> Bit(byte, k) == 0
    {
      if Bit(byte, bit) == 1 {
        return;
      }
      zeroBits, seen := AddWrapped32(zeroBits, seen, 1);
      bit := bit - 1;
    }
  }

  /** The counting loop over the bytes; it stops in the first byte with a one bit. */
  method CheckDifficulty(hash: string, difficulty: uint32) returns (r: Try<bool>)
    ensures r == MeetsDifficulty(hash, difficulty)
  {
    var decoded := DecodeHex(hash);
    if decoded.Threw? {
      return Threw;
    }
    var bytes := decoded.value;
    var zeroBits: uint32 := 0;
    ghost var counted: nat := 0;
    assert bytes[0..] == bytes;
    for i := 0 to |bytes|
      invariant zeroBits == Wrap32(counted) && counted + ZeroBits(bytes[i..]) == ZeroBits(bytes)
    {
      assert bytes[i..][1..] == bytes[i + 1..];
      if bytes[i] == 0 {
        zeroBits, counted := AddWrapped32(zeroBits, counted, 8);
      } else {
        zeroBits := ScanByte(bytes[i], zeroBits, counted);
        return Done(zeroBits >= difficulty);
      }
    }
    assert bytes[|bytes|..] == [];
    r := Done(zeroBits >= difficulty);
  }

  lemma Pow2Table()
    ensures Pow2(0) == 1 && Pow2(1) == 2 && Pow2(2) == 4 && Pow2(3) == 8 && Pow2(4) == 16
    ensures Pow2(5) == 32 && Pow2(6) == 64 && Pow2(7) == 128 && Pow2(8) == 256
  {
    assert Pow2(4) == 2 * Pow2(3);
    assert Pow2(6) == 2 * Pow2(5);
  }

  lemma TopBit(b: uint8, k: nat)
    requires k < 8 && b < Pow2(k + 1)
    ensures Bit(b, k) == (if b < Pow2(k) then 0 else 1)
  {
    Pow2Table();
  }

  /** Scanning one byte decides a bound on its value. */
  lemma {:induction false} ZerosFromBound(b: uint8, bit: int, d: nat)
    requires -1 <= bit < 8 && b < Pow2(bit + 1) && d <= bit + 1
    ensures ZerosFrom(b, bit) <= bit + 1
    ensures ZerosFrom(b, bit) >= d <==> b < Pow2(bit + 1 - d)
    decreases bit + 1
  {
    if bit >= 0 {
      TopBit(b, bit);
      if b < Pow2(bit) {
        ZerosFromBound(b, bit - 1, if d > 0 then d - 1 else 0);
      } else if d > 0 {
        Pow2Monotone(bit + 1 - d, bit);
      }
    }
  }

  /** The big-endian number written by the bytes. */
  function Value(bytes: seq<uint8>): nat {
    if bytes == [] then 0 else bytes[0] * Pow2(8 * (|bytes| - 1)) + Value(bytes[1..])
  }

  lemma {:induction false} ValueBound(bytes: seq<uint8>)
    ensures Value(bytes) < Pow2(8 * |bytes|)
  {
    if bytes != [] {
      var m := 8 * (|bytes| - 1);
      ValueBound(bytes[1..]);
      Pow2Table();
      Pow2Add(8, m);
      LeadingByte(bytes[0], Pow2(m), Value(bytes[1..]), Pow2(8));
    }
  }

  /** For a leading byte `b` above digits worth less than `m`, comparing the number compares the byte. */
  lemma LeadingByte(b: nat, m: nat, r: nat, bound: nat)
    requires r < m
    ensures b * m + r < bound * m <==> b < bound
  {
    if b < bound {
      assert (b + 1) * m <= bound * m;
    } else {
      assert b * m >= bound * m;
    }
  }

  /** Counting leading zero bits decides a bound on the number the digest writes. */
  lemma {:induction false} ZeroBitsIsBound(bytes: seq<uint8>, d: nat)
    ensures ZeroBits(bytes) >= d <==> d <= 8 * |bytes| && Value(bytes) < Pow2(8 * |bytes| - d)
    ensures ZeroBits(bytes) <= 8 * |bytes|
  {
    if bytes != [] {
      var rest, m := bytes[1..], 8 * (|bytes| - 1);
      ValueBound(rest);
      if bytes[0] == 0 {
        ZeroBitsIsBound(rest, if d >= 8 then d - 8 else 0);
        if d < 8 {
          Pow2Monotone(m, 8 * |bytes| - d);
        }
      } else {
        OneInLeadingByte(bytes, d);
      }
    }
  }

  lemma OneInLeadingByte(bytes: seq<uint8>, d: nat)
    requires bytes != [] && bytes[0] != 0
    ensures ZeroBits(bytes) >= d <==> d <= 8 * |bytes| && Value(bytes) < Pow2(8 * |bytes| - d)
    ensures ZeroBits(bytes) <= 8
  {
    var b, rest, m := bytes[0], Value(bytes[1..]), 8 * (|bytes| - 1);
    ValueBound(bytes[1..]);
    Pow2Table();
    ZerosFromBound(b, 7, if d <= 8 then d else 8);
    if d <= 8 {
      Pow2Add(8 - d, m);
      LeadingByte(b, Pow2(m), rest, Pow2(8 - d));
    } else if d <= 8 * |bytes| {
      Pow2Monotone(8 * |bytes| - d, m);
      LeadingByte(b, Pow2(m), rest, 1);
    }
  }

  /** The proof-of-work rule as a number: a 64-character digest writes a 256-bit number `V`, and it
      meets difficulty `d` exactly when `d <= 256` and `V < 2^(256-d)`. The check cannot throw. */
  lemma DifficultyIsNumericBound(hash: string, d: uint32)
    requires |hash| == 64 && AllLowerHex(hash)
    ensures HexToBytes(hash).Done? && |HexToBytes(hash).value| == 32
    ensures MeetsDifficulty(hash, d) == Done(d <= 256 && Value(HexToBytes(hash).value) < Pow2(256 - d))
  {
    EncodeDecode(hash);
    var bytes := HexToBytes(hash).value;
    ZeroBitsIsBound(bytes, d);
    WrapSmall32(ZeroBits(bytes));
  }
}
