/** Fixed-width integers of the C++ source, the outcome of a call that may throw, and small helpers. */
module Words {
  const TWO32: int := 0x1_0000_0000
  const TWO64: int := 0x1_0000_0000_0000_0000

  type uint8 = x: int | 0 <= x < 0x100
  type uint32 = x: int | 0 <= x < 0x1_0000_0000
  type uint64 = x: int | 0 <= x < 0x1_0000_0000_0000_0000

  /** Unsigned arithmetic wraps around. */
  function Wrap32(x: int): uint32 {
    x % 0x1_0000_0000
  }

  function Wrap64(x: int): uint64 {
    x % 0x1_0000_0000_0000_0000
  }

  lemma WrapSmall(x: nat)
    requires x < TWO64
    ensures Wrap64(x) == x
  {
  }

  lemma WrapSmall32(x: nat)
    requires x < TWO32
    ensures Wrap32(x) == x
  {
  }

  /** Wrapping after each addition is wrapping the exact sum once. */
  lemma WrapSum(a: int, b: int)
    ensures Wrap64(Wrap64(a) + b) == Wrap64(a + b)
  {
  }

  /** A `uint64_t` accumulator next to the exact sum it stands for. */
  method AddWrapped(total: uint64, ghost exact: nat, amount: uint64) returns (total': uint64, ghost exact': nat)
    requires total == Wrap64(exact)
    ensures total' == Wrap64(exact') && exact' == exact + amount
  {
    WrapSum(exact, amount);
    total', exact' := Wrap64(total + amount), exact + amount;
  }

  /** The same with a `uint32_t`. */
  method AddWrapped32(total: uint32, ghost exact: nat, amount: uint32) returns (total': uint32, ghost exact': nat)
    requires total == Wrap32(exact)
    ensures total' == Wrap32(exact') && exact' == exact + amount
  {
    total', exact' := Wrap32(total + amount), exact + amount;
  }

  function Max(a: nat, b: nat): nat {
    if a >= b then a else b
  }

  /** Texts one after the other. */
  function Concat(parts: seq<string>): string {
    if parts == [] then "" else parts[0] + Concat(parts[1..])
  }

  datatype Option<+T> = None | Some(value: T)

  /** A call either returns or lets a C++ exception escape. */
  datatype Try<+T> = Done(value: T) | Threw {
    predicate IsFailure() {
      Threw?
    }

    function PropagateFailure<U>(): Try<U>
      requires Threw?
    {
      Threw
    }

    function Extract(): T
      requires Done?
    {
      value
    }
  }
}
