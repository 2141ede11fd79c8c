/** Difficulty adjustment (`ConsensusEngine::calculate_difficulty`), with exact rationals for doubles. */
module Retarget {
  import opened Words
  import opened Crypto
  import opened LeadingZeros
  import opened Blocks
  import opened Ledger
  import opened History
  import opened Consensus

  /** `static_cast<uint32_t>` of a non-negative value; out of range the result is whatever the
      platform makes of it. */
  function Truncate(x: real, outOfRange: uint32): uint32
    requires x >= 0.0
  {
    if x < TWO32 as real then x.Floor else outOfRange
  }

  /** Half the relative deviation from the target, in units of difficulty. */
  function Correction(current: uint32, deviation: real): (x: real)
    requires deviation >= 0.0
    ensures x >= 0.0
  {
    current as real * deviation * 0.5
  }

  /** One adjustment for a ratio of average to target block time. */
  function Adjust(current: uint32, ratio: real, outOfRange: uint32): uint32
    requires ratio >= 0.0
  {
    if ratio < 0.8 then
      Wrap32(current + Max(1, Truncate(Correction(current, 1.0 - ratio), outOfRange)))
    else if ratio > 1.2 then
      if current <= 1 then 1
      else
        var decrease := Max(1, Truncate(Correction(current, ratio - 1.0), outOfRange));
        if current > decrease then current - decrease else 1
    else current
  }

  function Ratio(params: ConsensusParams, timestamps: seq<uint64>): (ratio: real)
    requires |timestamps| >= 2 && params.targetBlockTimeSec > 0
    ensures ratio >= 0.0
  {
    var first: int, last: int := timestamps[0], timestamps[|timestamps| - 1];
    Wrap64(last - first) as real / (|timestamps| - 1) as real / params.targetBlockTimeSec as real
  }

  function CalculateDifficulty(params: ConsensusParams, timestamps: seq<uint64>, currentDifficulty: uint32,
                               outOfRange: uint32): uint32
    requires params.targetBlockTimeSec > 0
  {
    var current := if currentDifficulty > 0 then currentDifficulty else params.initialDifficulty;
    if |timestamps| < 2 then current else Adjust(current, Ratio(params, timestamps), outOfRange)
  }

  // ----- properties of one adjustment -----

  lemma CorrectionMonotone(current: uint32, a: real, b: real)
    requires 0.0 <= a <= b
    ensures Correction(current, a) <= Correction(current, b)
    ensures a <= 1.0 ==> Correction(current, a) <= current as real * 0.5
  {
    ProductMonotone(current as real, a, b);
    if a <= 1.0 {
      ProductMonotone(current as real, a, 1.0);
    }
  }

  lemma ProductMonotone(x: real, a: real, b: real)
    requires x >= 0.0 && a <= b
    ensures x * a <= x * b
  {
    assert x * (b - a) >= 0.0;
  }

  lemma FloorMonotone(x: real, y: real)
    requires x <= y
    ensures x.Floor <= y.Floor
  {
  }

  function Rise(current: uint32, ratio: real, outOfRange: uint32): uint32
    requires 0.0 <= ratio < 0.8
  {
    Max(1, Truncate(Correction(current, 1.0 - ratio), outOfRange))
  }

  lemma RiseAtMostHalf(current: uint32, ratio: real, outOfRange: uint32)
    requires 0.0 <= ratio < 0.8 && 0 < current
    ensures 1 <= Rise(current, ratio, outOfRange) <= Max(1, current / 2)
    ensures Truncate(Correction(current, 1.0 - ratio), outOfRange) == Correction(current, 1.0 - ratio).Floor
    ensures Adjust(current, ratio, outOfRange) == Wrap32(current + Rise(current, ratio, outOfRange))
  {
    CorrectionMonotone(current, 1.0 - ratio, 1.0 - ratio);
    FloorMonotone(Correction(current, 1.0 - ratio), current as real * 0.5);
    HalfFloor(current);
  }

  /** A rise never exceeds half the difficulty; up to 2,863,311,530 it cannot wrap, and the result
      stays positive in every branch. */
  lemma AdjustStaysPositive(current: uint32, ratio: real, outOfRange: uint32)
    requires ratio >= 0.0 && 0 < current
    ensures Adjust(current, ratio, outOfRange) <= current + Max(1, current / 2)
    ensures current <= 2_863_311_530 ==> Adjust(current, ratio, outOfRange) >= 1
  {
    if ratio < 0.8 {
      RiseAtMostHalf(current, ratio, outOfRange);
    }
  }

  /** In this range some ratio makes the rise end at exactly 2^32. */
  lemma RiseMeetsTheEnd(current: uint32, outOfRange: uint32)
    requires 2_863_311_530 < current <= 3_904_515_724
    ensures exists ratio: real :: 0.0 <= ratio < 0.8 && Adjust(current, ratio, outOfRange) == 0
  {
    var x := current as real;
    var rise := TWO32 - current;
    var deviation := (2 * rise + 1) as real / x;
    assert deviation * x == (2 * rise + 1) as real;
    QuotientBounds((2 * rise + 1) as real, x);
    assert Correction(current, deviation) == rise as real + 0.5;
    assert (rise as real + 0.5).Floor == rise;
    var ratio := 1.0 - deviation;
    assert Adjust(current, ratio, outOfRange) == Wrap32(current + rise) == 0;
  }

  lemma QuotientBounds(y: real, x: real)
    requires x > 0.0 && x < 5.0 * y && y <= x
    ensures 0.2 < y / x <= 1.0
  {
    var q := y / x;
    assert q * x == y;
    if q > 1.0 {
      ProductGreater(x, 1.0, q);
    }
    if q <= 0.2 {
      ProductMonotone(x, q, 0.2);
    }
  }

  lemma ProductGreater(x: real, a: real, b: real)
    requires x > 0.0 && a < b
    ensures x * a < x * b
  {
    assert x * (b - a) > 0.0;
  }

  lemma RiseAtLeastTenth(current: uint32, ratio: real, outOfRange: uint32)
    requires 0.0 <= ratio < 0.8 && current > 0
    ensures Rise(current, ratio, outOfRange) >= current / 10
  {
    RiseAtMostHalf(current, ratio, outOfRange);
    CorrectionMonotone(current, 0.2, 1.0 - ratio);
    assert Correction(current, 0.2) == current as real * 0.1;
    TenthFloor(current);
    FloorMonotone(current as real * 0.1, Correction(current, 1.0 - ratio));
  }

  lemma PastTheEnd(current: uint32, rise: nat)
    requires current > 3_904_515_724 && current / 10 <= rise <= current / 2
    ensures Wrap32(current + rise) == current + rise - TWO32 >= 1
  {
  }

  lemma LargeRisesPassTheEnd(current: uint32, ratio: real, outOfRange: uint32)
    requires 0.0 <= ratio < 0.8 && current > 3_904_515_724
    ensures Adjust(current, ratio, outOfRange) >= 1
  {
    RiseAtMostHalf(current, ratio, outOfRange);
    RiseAtLeastTenth(current, ratio, outOfRange);
    PastTheEnd(current, Rise(current, ratio, outOfRange));
  }

  lemma TenthFloor(n: uint32)
    ensures (n as real * 0.1).Floor == n / 10
  {
    var q, r := n / 10, n % 10;
    assert n as real * 0.1 == q as real + r as real * 0.1;
  }

  ghost predicate AlwaysPositive(current: uint32, outOfRange: uint32) {
    forall ratio: real :: ratio >= 0.0 ==> Adjust(current, ratio, outOfRange) >= 1
  }

  /** The result is at least 1 whatever the block times exactly outside of the range from which a rise
      can end at 2^32. */
  lemma AlwaysPositiveIff(current: uint32, outOfRange: uint32)
    requires current > 0
    ensures AlwaysPositive(current, outOfRange) <==> current <= 2_863_311_530 || current > 3_904_515_724
  {
    if 2_863_311_530 < current <= 3_904_515_724 {
      RiseMeetsTheEnd(current, outOfRange);
    } else {
      forall ratio: real | ratio >= 0.0 ensures Adjust(current, ratio, outOfRange) >= 1 {
        if current <= 2_863_311_530 {
          AdjustStaysPositive(current, ratio, outOfRange);
        } else if ratio < 0.8 {
          LargeRisesPassTheEnd(current, ratio, outOfRange);
        }
      }
    }
  }

  lemma RiseRaises(current: uint32, ratio: real, outOfRange: uint32)
    requires 0.0 <= ratio < 0.8 && 0 < current <= 2_863_311_530
    ensures Adjust(current, ratio, outOfRange) > current
  {
    RiseAtMostHalf(current, ratio, outOfRange);
    WrapSmall32(current + Rise(current, ratio, outOfRange));
  }

  lemma RiseWraps(current: uint32, outOfRange: uint32)
    requires current > 2_863_311_530
    ensures Adjust(current, 0.0, outOfRange) < current
  {
    assert Correction(current, 1.0) == current as real * 0.5;
    HalfFloor(current);
    var half := current / 2;
    assert Truncate(Correction(current, 1.0), outOfRange) == half;
    assert Wrap32(current + half) == current + half - TWO32;
  }

  /** Fast blocks raise the difficulty, however fast they are, exactly up to that bound. */
  lemma FastBlocksRaiseIff(current: uint32, outOfRange: uint32)
    requires current > 0
    ensures (forall ratio: real :: 0.0 <= ratio < 0.8 ==> Adjust(current, ratio, outOfRange) > current) <==>
            current <= 2_863_311_530
  {
    forall ratio: real | 0.0 <= ratio < 0.8
      ensures current <= 2_863_311_530 ==> Adjust(current, ratio, outOfRange) > current
    {
      if current <= 2_863_311_530 {
        RiseRaises(current, ratio, outOfRange);
      }
    }
    if current > 2_863_311_530 {
      RiseWraps(current, outOfRange);
    }
  }

  /** The difficulty rises iff blocks come faster than 4/5 of the target time, falls iff they come slower
      than 6/5 of it and there is room, and never falls below 1. */
  lemma AdjustDirection(current: uint32, ratio: real, outOfRange: uint32)
    requires ratio >= 0.0 && 0 < current <= 2_863_311_530
    ensures Adjust(current, ratio, outOfRange) > current <==> ratio < 0.8
    ensures Adjust(current, ratio, outOfRange) < current <==> ratio > 1.2 && current > 1
    ensures Adjust(current, ratio, outOfRange) >= 1
  {
    if ratio < 0.8 {
      RiseRaises(current, ratio, outOfRange);
    }
  }

  lemma HalfFloor(n: uint32)
    ensures (n as real * 0.5).Floor == n / 2
  {
    var h := n / 2;
    assert n as real == 2.0 * h as real || n as real == 2.0 * h as real + 1.0;
  }

  lemma BothRise(current: uint32, fast: real, slow: real, outOfRange: uint32)
    requires 0.0 <= fast <= slow < 0.8 && 0 < current <= 2_863_311_530
    ensures Adjust(current, fast, outOfRange) >= Adjust(current, slow, outOfRange) >= current
  {
    CorrectionMonotone(current, 1.0 - slow, 1.0 - fast);
    FloorMonotone(Correction(current, 1.0 - slow), Correction(current, 1.0 - fast));
    RiseAtMostHalf(current, fast, outOfRange);
    RiseAtMostHalf(current, slow, outOfRange);
    var more, less := Rise(current, fast, outOfRange), Rise(current, slow, outOfRange);
    assert more >= less;
    WrapSmall32(current + more);
    WrapSmall32(current + less);
  }

  lemma BothFall(current: uint32, fast: real, slow: real, outOfRange: uint32)
    requires 1.2 < fast <= slow && 0 < current
    requires Correction(current, slow - 1.0) < TWO32 as real
    ensures current >= Adjust(current, fast, outOfRange) >= Adjust(current, slow, outOfRange)
  {
    var x, y := Correction(current, fast - 1.0), Correction(current, slow - 1.0);
    CorrectionMonotone(current, fast - 1.0, slow - 1.0);
    FloorMonotone(x, y);
    assert Truncate(x, outOfRange) <= Truncate(y, outOfRange);
  }

  /** Faster blocks never get a lower difficulty, across all three branches. */
  lemma AdjustAntitone(current: uint32, fast: real, slow: real, outOfRange: uint32)
    requires 0.0 <= fast <= slow && 0 < current <= 2_863_311_530
    requires slow > 1.0 ==> Correction(current, slow - 1.0) < TWO32 as real
    ensures Adjust(current, fast, outOfRange) >= Adjust(current, slow, outOfRange)
  {
    if slow < 0.8 {
      BothRise(current, fast, slow, outOfRange);
    } else if fast > 1.2 {
      BothFall(current, fast, slow, outOfRange);
    } else {
      if fast < 0.8 {
        BothRise(current, fast, fast, outOfRange);
      }
      if slow > 1.2 {
        BothFall(current, slow, slow, outOfRange);
      }
    }
  }

  /** The values at which the order is decided: two falls, one of which does not fit a `uint32_t`. */
  lemma DecisiveFalls(current: uint32, outOfRange: uint32)
    requires current > 0
    ensures Adjust(current, 3.0, outOfRange) == 1
    ensures Adjust(current, 8_589_934_593.0, outOfRange) ==
            if current <= 1 || current <= Max(1, outOfRange) then 1 else current - Max(1, outOfRange)
  {
    assert Correction(current, 2.0) == current as real;
    assert Correction(current, 8_589_934_592.0) == current as real * 4_294_967_296.0;
    ProductMonotone(4_294_967_296.0, 1.0, current as real);
  }

  /** Where the conversion of an oversized fall is large enough, every fall that large ends at 1. */
  lemma AnyFallsAntitone(current: uint32, fast: real, slow: real, outOfRange: uint32)
    requires 1.2 < fast <= slow && current > 0
    requires current <= 2 || outOfRange >= current - 1
    ensures current >= Adjust(current, fast, outOfRange) >= Adjust(current, slow, outOfRange)
  {
    var x, y := Correction(current, fast - 1.0), Correction(current, slow - 1.0);
    CorrectionMonotone(current, fast - 1.0, slow - 1.0);
    FloorMonotone(x, y);
    if y < TWO32 as real {
      BothFall(current, fast, slow, outOfRange);
    }
  }

  lemma AnyAntitone(current: uint32, fast: real, slow: real, outOfRange: uint32)
    requires 0.0 <= fast <= slow && 0 < current <= 2_863_311_530
    requires current <= 2 || outOfRange >= current - 1
    ensures Adjust(current, fast, outOfRange) >= Adjust(current, slow, outOfRange)
  {
    if slow > 1.2 {
      AnyFallsAntitone(current, slow, slow, outOfRange);
      if fast > 1.2 {
        AnyFallsAntitone(current, fast, slow, outOfRange);
      } else {
        var middle := if fast <= 1.0 then 1.0 else fast;
        CorrectionMonotone(current, if middle > 1.0 then middle - 1.0 else 0.0, 0.2);
        AdjustAntitone(current, fast, middle, outOfRange);
      }
    } else {
      CorrectionMonotone(current, if slow > 1.0 then slow - 1.0 else 0.0, 0.2);
      AdjustAntitone(current, fast, slow, outOfRange);
    }
  }

  ghost predicate OrderKept(current: uint32, outOfRange: uint32) {
    forall fast: real, slow: real :: 0.0 <= fast <= slow ==>
      Adjust(current, fast, outOfRange) >= Adjust(current, slow, outOfRange)
  }

  /** Faster blocks never get a lower difficulty exactly when no rise can wrap and an oversized fall is
      converted to something that brings the difficulty to 1. */
  lemma OrderKeptIff(current: uint32, outOfRange: uint32)
    requires current > 0
    ensures OrderKept(current, outOfRange) <==>
            current <= 2_863_311_530 && (current <= 2 || outOfRange >= current - 1)
  {
    if current > 2_863_311_530 {
      RiseWraps(current, outOfRange);
      assert Adjust(current, 1.0, outOfRange) == current;
      assert !OrderKept(current, outOfRange);
    } else if current > 2 && outOfRange < current - 1 {
      DecisiveFalls(current, outOfRange);
      assert Adjust(current, 3.0, outOfRange) < Adjust(current, 8_589_934_593.0, outOfRange);
    } else {
      forall fast: real, slow: real | 0.0 <= fast <= slow
        ensures Adjust(current, fast, outOfRange) >= Adjust(current, slow, outOfRange)
      {
        AnyAntitone(current, fast, slow, outOfRange);
      }
    }
  }

  /** A failing input as the code receives it: `add_block` does not look at timestamps, and a window that
      goes back by one second underflows to 2^64 - 1. Where that converts to 0, it lowers difficulty 10
      to 9 only, while blocks 15 s apart lower it to 1. */
  lemma UnderflowingWindowBreaksOrder()
    ensures Ratio(DEFAULT_PARAMS, [0, 15]) < Ratio(DEFAULT_PARAMS, [1, 0])
    ensures CalculateDifficulty(DEFAULT_PARAMS, [0, 15], 10, 0) == 1
    ensures CalculateDifficulty(DEFAULT_PARAMS, [1, 0], 10, 0) == 9
  {
    assert Ratio(DEFAULT_PARAMS, [0, 15]) == 3.0;
    var total: real := 18_446_744_073_709_551_615.0;
    assert Wrap64(-1) as real == total;
    assert Ratio(DEFAULT_PARAMS, [1, 0]) == total / 5.0;
    assert Correction(10, 2.0) == 10.0;
    assert Correction(10, total / 5.0 - 1.0) >= 4_294_967_296.0;
  }

  /** If the average block time is at least 3/5 of the target, one adjustment raises difficulty `c`
      by at most `max(1, c/5)`. */
  lemma AdjustRateCap(current: uint32, ratio: real, outOfRange: uint32)
    requires ratio >= 0.6 && 0 < current
    ensures Adjust(current, ratio, outOfRange) <= current + Max(1, current / 5)
  {
    if ratio < 0.8 {
      CorrectionMonotone(current, 1.0 - ratio, 0.4);
      var x := Correction(current, 1.0 - ratio);
      assert x <= current as real / 5.0;
      FifthFloor(current, x);
    }
  }

  lemma FifthFloor(n: uint32, x: real)
    requires x <= n as real / 5.0
    ensures x.Floor <= n / 5
  {
    var q := n / 5;
    assert n < 5 * q + 5;
    assert n as real < 5.0 * (q as real + 1.0);
    assert x < q as real + 1.0;
  }

  function AdjustRun(current: uint32, ratios: seq<real>, outOfRange: uint32): uint32
    requires forall i :: 0 <= i < |ratios| ==> ratios[i] >= 0.0
    decreases |ratios|
  {
    if ratios == [] then current else AdjustRun(Adjust(current, ratios[0], outOfRange), ratios[1..], outOfRange)
  }

  /** Permanently slow blocks bring the difficulty to 1 within `c - 1` adjustments. */
  lemma {:induction false} SlowBlocksReachOne(current: uint32, ratios: seq<real>, outOfRange: uint32)
    requires current > 0 && |ratios| >= current - 1
    requires forall i :: 0 <= i < |ratios| ==> ratios[i] > 1.2
    ensures AdjustRun(current, ratios, outOfRange) == 1
    decreases |ratios|
  {
    if ratios != [] {
      var next := Adjust(current, ratios[0], outOfRange);
      assert next >= 1 && (next == 1 || next < current);
      SlowBlocksReachOne(next, ratios[1..], outOfRange);
    }
  }

  // ----- the window read from a chain -----

  predicate SpacedBy(timestamps: seq<uint64>, gap: nat) {
    forall i :: 0 <= i < |timestamps| - 1 ==> timestamps[i + 1] >= timestamps[i] + gap
  }

  lemma {:induction false} SpacedSpan(timestamps: seq<uint64>, gap: nat)
    requires SpacedBy(timestamps, gap) && timestamps != []
    ensures timestamps[|timestamps| - 1] >= timestamps[0] + gap * (|timestamps| - 1)
  {
    if |timestamps| > 1 {
      var n := |timestamps| - 1;
      SpacedSpan(timestamps[..n], gap);
      assert timestamps[..n][n - 1] == timestamps[n - 1];
      assert gap * n == gap * (n - 1) + gap;
    }
  }

  /** If headers are at least 3 s apart, the window subtraction does not underflow, and with the
      default target of 5 s one adjustment raises difficulty `c` by at most `max(1, c/5)`. */
  lemma SpacedWindowRateCap(timestamps: seq<uint64>, current: uint32, outOfRange: uint32)
    requires SpacedBy(timestamps, 3) && 0 < current
    ensures timestamps != [] ==> timestamps[0] <= timestamps[|timestamps| - 1]
    ensures CalculateDifficulty(DEFAULT_PARAMS, timestamps, current, outOfRange) <= current + Max(1, current / 5)
    ensures current <= 2_863_311_530 ==> CalculateDifficulty(DEFAULT_PARAMS, timestamps, current, outOfRange) >= 1
  {
    if timestamps != [] {
      SpacedSpan(timestamps, 3);
    }
    if |timestamps| >= 2 {
      var n := |timestamps| - 1;
      var total := timestamps[n] - timestamps[0];
      assert Wrap64(total) == total >= 3 * n;
      AverageAtLeastThree(total, n);
      AdjustRateCap(current, Ratio(DEFAULT_PARAMS, timestamps), outOfRange);
      AdjustStaysPositive(current, Ratio(DEFAULT_PARAMS, timestamps), outOfRange);
    }
  }

  lemma AverageAtLeastThree(total: nat, n: nat)
    requires n > 0 && total >= 3 * n
    ensures total as real / n as real / 5.0 >= 0.6
  {
    assert total as real >= 3.0 * n as real;
    assert total as real / n as real >= 3.0;
  }

  /** No accepted block declares a difficulty above 256 bits, so no adjustment from a chain wraps. */
  lemma ChainDifficultyAtMost256(c: Crypto, blocks: seq<Block>, i: nat)
    requires WellBuilt(c, blocks) && i < |blocks|
    ensures blocks[i].header.difficulty <= 256
  {
    if i > 0 {
      assert AcceptedAt(c, blocks, i);
      CheckBlockMeaning(c, StateOf(blocks[..i]), blocks[i]);
      DifficultyIsNumericBound(blocks[i].hash, blocks[i].header.difficulty);
    }
  }
}
