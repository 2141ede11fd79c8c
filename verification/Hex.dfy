/** Hexadecimal coding, including the partial parses and exceptions of `std::stoul`. */
module Hex {
  import opened Words

  /** `std::hex` prints lower-case digits. */
  function HexDigit(v: nat): char
    requires v < 16
  {
    if v < 10 then (48 + v) as char else (87 + v) as char
  }

  predicate IsLowerHex(ch: char) {
    '0' <= ch <= '9' || 'a' <= ch <= 'f'
  }

  predicate AllLowerHex(s: string) {
    forall i :: 0 <= i < |s| ==> IsLowerHex(s[i])
  }

  function HexValue(ch: char): Option<nat> {
    if '0' <= ch <= '9' then Some(ch as int - 48)
    else if 'a' <= ch <= 'f' then Some(ch as int - 87)
    else if 'A' <= ch <= 'F' then Some(ch as int - 55)
    else None
  }

  predicate IsSpace(ch: char) {
    ch == ' ' || 9 <= ch as int <= 13
  }

  /** `static_cast<uint8_t>(std::stoul(s, nullptr, 16))` on one or two characters: a leading blank or
      sign is skipped, parsing stops at the first non-digit, and no digit at all throws. */
  function Stoul16(s: string): Try<uint8>
    requires 1 <= |s| <= 2
  {
    var first := HexValue(s[0]);
    var second := if |s| == 2 then HexValue(s[1]) else None;
    if first.Some? then
      Done(if second.Some? then 16 * first.value + second.value else first.value)
    else if second.None? then
      Threw
    else if IsSpace(s[0]) || s[0] == '+' then
      Done(second.value)
    else if s[0] == '-' then
      Done((256 - second.value) % 256)
    else
      Threw
  }

  function HexToBytes(s: string): Try<seq<uint8>>
    decreases |s|
  {
    if s == "" then Done([])
    else
      var b :- Stoul16(if |s| == 1 then s else s[..2]);
      var rest :- HexToBytes(if |s| == 1 then "" else s[2..]);
      Done([b] + rest)
  }

  function BytesToHex(bytes: seq<uint8>): string {
    if bytes == [] then ""
    else [HexDigit(bytes[0] / 16), HexDigit(bytes[0] % 16)] + BytesToHex(bytes[1..])
  }

  lemma {:induction false} BytesToHexLower(bytes: seq<uint8>)
    ensures |BytesToHex(bytes)| == 2 * |bytes| && AllLowerHex(BytesToHex(bytes))
  {
    if bytes != [] {
      BytesToHexLower(bytes[1..]);
    }
  }

  /** Decoding undoes encoding. */
  lemma {:induction false} DecodeEncode(bytes: seq<uint8>)
    ensures HexToBytes(BytesToHex(bytes)) == Done(bytes)
  {
    if bytes != [] {
      DecodeEncode(bytes[1..]);
      var s := BytesToHex(bytes);
      assert s[..2] == [HexDigit(bytes[0] / 16), HexDigit(bytes[0] % 16)];
      assert s[2..] == BytesToHex(bytes[1..]);
      assert Stoul16(s[..2]) == Done(bytes[0]);
      assert [bytes[0]] + bytes[1..] == bytes;
    }
  }

  lemma PairRoundTrip(a: char, b: char)
    requires IsLowerHex(a) && IsLowerHex(b)
    ensures Stoul16([a, b]).Done?
    ensures HexDigit(Stoul16([a, b]).value / 16) == a && HexDigit(Stoul16([a, b]).value % 16) == b
  {
  }

  /** Encoding undoes decoding on lower-case strings of even length, which never throw. */
  lemma {:induction false} EncodeDecode(s: string)
    requires AllLowerHex(s) && |s| % 2 == 0
    ensures HexToBytes(s).Done? && |HexToBytes(s).value| == |s| / 2
    ensures BytesToHex(HexToBytes(s).value) == s
  {
    if s != "" {
      assert IsLowerHex(s[0]) && IsLowerHex(s[1]);
      EncodeDecode(s[2..]);
      PairRoundTrip(s[0], s[1]);
      assert s[..2] == [s[0], s[1]];
      var b, rest := Stoul16(s[..2]).value, HexToBytes(s[2..]).value;
      assert HexToBytes(s) == Done([b] + rest);
      assert BytesToHex([b] + rest) == [HexDigit(b / 16), HexDigit(b % 16)] + BytesToHex(rest) by {
        assert ([b] + rest)[1..] == rest;
      }
      assert s == s[..2] + s[2..];
    }
  }

  /** `hex_to_bytes` throws exactly when some pair of characters has no number in it. */
  lemma {:induction false} HexToBytesThrows(s: string)
    ensures HexToBytes(s).Threw? <==>
            exists i {:trigger s[i..]} :: 0 <= i < |s| && i % 2 == 0 &&
              Stoul16(if i + 1 == |s| then s[i..] else s[i..][..2]).Threw?
  {
    if |s| == 1 {
      assert s[0..] == s;
    } else if |s| >= 2 {
      HexToBytesThrows(s[2..]);
      assert s[0..] == s;
      forall i | 0 <= i < |s| - 2 ensures s[2..][i..] == s[i + 2..] {
      }
      if HexToBytes(s).Threw? && Stoul16(s[..2]).Done? {
        var i :| 0 <= i < |s[2..]| && i % 2 == 0 &&
                 Stoul16(if i + 1 == |s[2..]| then s[2..][i..] else s[2..][i..][..2]).Threw?;
        assert s[2..][i..] == s[i + 2..];
      }
      if i :| 2 <= i < |s| && i % 2 == 0 && Stoul16(if i + 1 == |s| then s[i..] else s[i..][..2]).Threw? {
        assert s[2..][i - 2..] == s[i..];
      }
    }
  }

  /** The digits of both cases stand for their position. */
  lemma HexValueIsPosition(ch: char, v: nat)
    requires v < 16
    ensures HexValue(ch) == Some(v) <==> ch == "0123456789abcdef"[v] || ch == "0123456789ABCDEF"[v]
    ensures HexDigit(v) == "0123456789abcdef"[v]
  {
  }

  /** Two digits are a byte; a blank or a sign in front of one digit is skipped, and a minus counts down
      from 256; what follows one digit is ignored; anything else throws. */
  lemma PairsOfCharacters()
    ensures Stoul16("fF") == Done(255) && Stoul16("3c") == Done(60) && Stoul16("0x") == Done(0)
    ensures Stoul16(" 7") == Stoul16("\t7") == Stoul16("+7") == Stoul16("7") == Done(7)
    ensures Stoul16("7 ") == Stoul16("7-") == Done(7)
    ensures Stoul16("-1") == Done(255) && Stoul16("-f") == Done(241) && Stoul16("-0") == Done(0)
    ensures Stoul16("g1") == Stoul16("--") == Stoul16("-") == Stoul16("  ") == Stoul16(" g") == Stoul16(":0") == Threw
  {
  }

  /** The decoding loop of `hex_to_bytes`. */
  method DecodeHex(s: string) returns (r: Try<seq<uint8>>)
    ensures r == HexToBytes(s)
  {
    var bytes := [];
    var i := 0;
    assert s[0..] == s;
    assert forall rest: seq<uint8> :: bytes + rest == rest;
    while i < |s|
      invariant 0 <= i <= |s| + 1
      invariant HexToBytes(s) == if i >= |s| then Done(bytes) else
                                   match HexToBytes(s[i..]) case Threw => Threw case Done(rest) => Done(bytes + rest)
    {
      var pair := if i + 1 == |s| then s[i..] else s[i..i + 2];
      var b := Stoul16(pair);
      assert s[i..][..|pair|] == pair;
      if b.Threw? {
        return Threw;
      }
      if i + 2 <= |s| {
        assert s[i..][2..] == s[i + 2..];
      }
      assert forall rest: seq<uint8> :: bytes + ([b.value] + rest) == bytes + [b.value] + rest;
      bytes := bytes + [b.value];
      assert bytes + [] == bytes;
      i := i + 2;
    }
    r := Done(bytes);
  }

  /** The printing loop of `bytes_to_hex`. */
  method EncodeHex(bytes: seq<uint8>) returns (s: string)
    ensures s == BytesToHex(bytes)
  {
    s := "";
    for i := 0 to |bytes|
      invariant s + BytesToHex(bytes[i..]) == BytesToHex(bytes)
    {
      assert bytes[i..][1..] == bytes[i + 1..];
      s := s + [HexDigit(bytes[i] / 16), HexDigit(bytes[i] % 16)];
    }
    assert bytes[|bytes|..] == [];
  }
}
