/** Decimal printing (`std::to_string`, `operator<<`) and the string keys of the UTXO map. */
module Decimals {

  function Digit(d: nat): char
    requires d < 10
  {
    (48 + d) as char
  }

  function Decimal(n: nat): string {
    if n < 10 then [Digit(n)] else Decimal(n / 10) + [Digit(n % 10)]
  }

  predicate IsDigit(ch: char) {
    '0' <= ch <= '9'
  }

  lemma {:induction false} DecimalDigits(n: nat)
    ensures |Decimal(n)| > 0
    ensures forall i :: 0 <= i < |Decimal(n)| ==> IsDigit(Decimal(n)[i])
  {
    if n >= 10 {
      DecimalDigits(n / 10);
    }
  }

  /** A number is determined by its decimal form. */
  lemma {:induction false} DecimalInjective(m: nat, n: nat)
    requires Decimal(m) == Decimal(n)
    ensures m == n
  {
    DecimalDigits(m / 10);
    DecimalDigits(n / 10);
    var last := |Decimal(m)| - 1;
    assert Digit(m % 10) == Decimal(m)[last] == Decimal(n)[last] == Digit(n % 10);
    if m >= 10 && n >= 10 {
      assert Decimal(m / 10) == Decimal(m)[..last] == Decimal(n)[..last] == Decimal(n / 10);
      DecimalInjective(m / 10, n / 10);
    }
  }

  /** The number that a string of digits stands for. */
  function NumberOf(digits: string): int {
    if digits == "" then 0
    else 10 * NumberOf(digits[..|digits| - 1]) + (digits[|digits| - 1] as int - '0' as int)
  }

  /** The decimal form stands for the number and has no leading zero. */
  lemma {:induction false} DecimalStandsFor(n: nat)
    ensures NumberOf(Decimal(n)) == n
    ensures Decimal(n)[0] == '0' <==> n == 0
  {
    if n >= 10 {
      DecimalStandsFor(n / 10);
      var front := Decimal(n / 10);
      assert Decimal(n)[..|front|] == front;
    } else {
      assert NumberOf("") == 0 && Decimal(n)[..0] == "";
    }
  }

  /** The key of an output in the UTXO map and in the mempool index. */
  function UtxoKey(txId: string, outputIndex: nat): string {
    txId + ":" + Decimal(outputIndex)
  }

  /** Keys are faithful to outpoints, even when a transaction id itself contains ':'. */
  lemma UtxoKeyInjective(a: string, i: nat, b: string, j: nat)
    requires UtxoKey(a, i) == UtxoKey(b, j)
    ensures a == b && i == j
  {
    DecimalDigits(i);
    DecimalDigits(j);
    var s, t := UtxoKey(a, i), UtxoKey(b, j);
    assert s[|a|] == ':' && t[|b|] == ':';
    assert forall k :: |a| < k < |s| ==> s[k] == Decimal(i)[k - |a| - 1] && IsDigit(s[k]);
    assert forall k :: |b| < k < |t| ==> t[k] == Decimal(j)[k - |b| - 1] && IsDigit(t[k]);
    assert a == s[..|a|] == t[..|b|] == b;
    assert Decimal(i) == s[|a| + 1..] == t[|b| + 1..] == Decimal(j);
    DecimalInjective(i, j);
  }
}
