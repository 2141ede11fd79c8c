/** `ConsensusEngine::calculate_difficulty` said in whole numbers. */
module RetargetRule {
  import opened Words
  import opened Blocks
  import opened Consensus
  import opened Retarget
  import opened Miner

  /** The seconds from the first to the last timestamp, as a `uint64_t` difference. */
  function Elapsed(timestamps: seq<uint64>): (elapsed: nat)
    requires timestamps != []
  {
    var first: int, last: int := timestamps[0], timestamps[|timestamps| - 1];
    if first <= last then last - first else last - first + 0x1_0000_0000_0000_0000
  }

  /** The seconds that so many blocks should have taken. */
  function Planned(params: ConsensusParams, timestamps: seq<uint64>): (planned: nat)
    requires |timestamps| >= 2 && params.targetBlockTimeSec > 0
    ensures planned > 0
  {
    PositiveProduct(|timestamps| - 1, params.targetBlockTimeSec);
    (|timestamps| - 1) * params.targetBlockTimeSec
  }

  lemma PositiveProduct(a: nat, b: nat)
    requires a > 0 && b > 0
    ensures a * b > 0
  {
  }

  // ----- fractions -----

  lemma FractionBelow(a: nat, b: nat, p: nat, q: nat)
    requires b > 0 && q > 0
    ensures a as real / b as real < p as real / q as real <==> a * q < p * b
    ensures a as real / b as real > p as real / q as real <==> a * q > p * b
  {
    var x, y := a as real / b as real, p as real / q as real;
    CrossMultiplied(x, y, a, b, p, q);
    PositiveProduct(b, q);
    Scaled(x, y, (b * q) as real);
    Scaled(y, x, (b * q) as real);
  }

  lemma CrossMultiplied(x: real, y: real, a: nat, b: nat, p: nat, q: nat)
    requires x * b as real == a as real && y * q as real == p as real
    ensures x * (b * q) as real == (a * q) as real && y * (b * q) as real == (p * b) as real
  {
    assert x * (b * q) as real == x * b as real * q as real;
    assert y * (b * q) as real == y * q as real * b as real;
  }

  lemma Scaled(x: real, y: real, k: real)
    requires k > 0.0
    ensures x < y <==> x * k < y * k
  {
    if x < y {
      assert (y - x) * k > 0.0;
    } else {
      assert (x - y) * k >= 0.0;
    }
  }

  /** Rounding a fraction down is dividing whole numbers. */
  lemma FloorOfFraction(x: real, a: nat, b: nat)
    requires b > 0 && x * b as real == a as real
    ensures x.Floor == a / b && x >= 0.0
  {
    var q, r := a / b, a % b;
    assert a == q * b + r;
    assert (x - q as real) * b as real == r as real;
    assert 0.0 <= r as real < b as real;
    Scaled(x - q as real, 1.0, b as real);
    Scaled(x - q as real, 0.0, b as real);
    Scaled(x, 0.0, b as real);
    assert 0.0 <= x - q as real < 1.0;
  }

  // ----- the rule -----

  /** The average block time over the target block time is the time taken over the time planned. */
  lemma RatioIsElapsedOverPlanned(params: ConsensusParams, timestamps: seq<uint64>, ratio: real)
    requires |timestamps| >= 2 && params.targetBlockTimeSec > 0 && ratio == Ratio(params, timestamps)
    ensures ratio * Planned(params, timestamps) as real == Elapsed(timestamps) as real
    ensures ratio == Elapsed(timestamps) as real / Planned(params, timestamps) as real
  {
    var n, target, elapsed := |timestamps| - 1, params.targetBlockTimeSec, Elapsed(timestamps);
    WrappedDifference(timestamps[n], timestamps[0]);
    var average := elapsed as real / n as real;
    assert average * n as real == elapsed as real;
    assert ratio * target as real == average;
    assert ratio * (n * target) as real == ratio * target as real * n as real;
  }

  lemma WrappedDifference(last: uint64, first: uint64)
    ensures var difference: int := (last as int) - (first as int);
            Wrap64(difference) == if first <= last then difference else difference + 0x1_0000_0000_0000_0000
  {
  }

  function Quotient(a: nat, b: nat): nat
    requires b > 0
  {
    a / b
  }

  /** Half the relative deviation of the time taken from the time planned, as a share of the difficulty,
      rounded down. */
  function Change(current: uint32, deviation: nat, planned: nat): nat
    requires planned > 0
  {
    Quotient(current * deviation, 2 * planned)
  }

  lemma CorrectionIsChange(current: uint32, deviation: real, seconds: nat, planned: nat)
    requires planned > 0 && deviation >= 0.0 && deviation * planned as real == seconds as real
    ensures Correction(current, deviation).Floor == Change(current, seconds, planned)
    ensures Correction(current, deviation) < 4_294_967_296.0 <==> Change(current, seconds, planned) < 4_294_967_296
  {
    var x := Correction(current, deviation);
    assert x * (2 * planned) as real == current as real * (deviation * planned as real);
    assert current as real * seconds as real == (current * seconds) as real;
    FloorOfFraction(x, current * seconds, 2 * planned);
  }

  /** The new difficulty of at least two timestamps. Less than 4/5 of the planned time raises it, more than
      6/5 of it lowers it, by half the relative deviation and by at least 1, and never below 1; a fall that
      does not fit a `uint32_t` is replaced by the result of the conversion. */
  function NewDifficulty(current: uint32, elapsed: nat, planned: nat, outOfRange: uint32): nat
    requires planned > 0
  {
    if 5 * elapsed < 4 * planned then
      (current + Max(1, Change(current, planned - elapsed, planned))) % 0x1_0000_0000
    else if 5 * elapsed > 6 * planned then
      var fall := Change(current, elapsed - planned, planned);
      var decrease := Max(1, if fall < 0x1_0000_0000 then fall else outOfRange);
      if current > decrease then current - decrease else 1
    else current
  }

  lemma RiseIsRule(current: uint32, ratio: real, elapsed: nat, planned: nat, outOfRange: uint32)
    requires planned > 0 && ratio * planned as real == elapsed as real && 0.0 <= ratio < 0.8
    requires 5 * elapsed < 4 * planned
    ensures Adjust(current, ratio, outOfRange) == NewDifficulty(current, elapsed, planned, outOfRange)
  {
    assert (1.0 - ratio) * planned as real == (planned - elapsed) as real;
    CorrectionIsChange(current, 1.0 - ratio, planned - elapsed, planned);
    CorrectionMonotone(current, 1.0 - ratio, 1.0 - ratio);
  }

  lemma FallIsRule(current: uint32, ratio: real, elapsed: nat, planned: nat, outOfRange: uint32)
    requires planned > 0 && ratio * planned as real == elapsed as real && ratio > 1.2
    requires 5 * elapsed > 6 * planned
    ensures Adjust(current, ratio, outOfRange) == NewDifficulty(current, elapsed, planned, outOfRange)
  {
    assert (ratio - 1.0) * planned as real == (elapsed - planned) as real;
    CorrectionIsChange(current, ratio - 1.0, elapsed - planned, planned);
  }

  /** `calculate_difficulty` computes exactly this, whatever the timestamps are; with fewer than two of them
      the difficulty stays, and 0 stands for the initial one. */
  lemma CalculateDifficultyIsRule(params: ConsensusParams, timestamps: seq<uint64>, current: uint32, outOfRange: uint32)
    requires params.targetBlockTimeSec > 0
    ensures var start := if current > 0 then current else params.initialDifficulty;
            CalculateDifficulty(params, timestamps, current, outOfRange) ==
            if |timestamps| < 2 then start
            else NewDifficulty(start, Elapsed(timestamps), Planned(params, timestamps), outOfRange)
  {
    if |timestamps| >= 2 {
      var start := if current > 0 then current else params.initialDifficulty;
      var ratio, elapsed, planned := Ratio(params, timestamps), Elapsed(timestamps), Planned(params, timestamps);
      RatioIsElapsedOverPlanned(params, timestamps, ratio);
      RatioAgainstBounds(ratio, elapsed, planned);
      if ratio < 0.8 {
        RiseIsRule(start, ratio, elapsed, planned, outOfRange);
      } else if ratio > 1.2 {
        FallIsRule(start, ratio, elapsed, planned, outOfRange);
      }
    }
  }

  lemma RatioAgainstBounds(ratio: real, elapsed: nat, planned: nat)
    requires planned > 0 && ratio == elapsed as real / planned as real
    ensures ratio < 0.8 <==> 5 * elapsed < 4 * planned
    ensures ratio > 1.2 <==> 5 * elapsed > 6 * planned
  {
    FractionBelow(elapsed, planned, 4, 5);
    FractionBelow(elapsed, planned, 6, 5);
  }

  /** With the default target of 5 s, `n` block times that took `elapsed` seconds together raise the
      difficulty iff that is less than 4 s each, and lower it iff it is more than 6 s each and there is room. */
  lemma DefaultDirection(timestamps: seq<uint64>, current: uint32, outOfRange: uint32, elapsed: nat, n: nat)
    requires |timestamps| == n + 1 >= 2 && 0 < current <= 2_863_311_530 && elapsed == Elapsed(timestamps)
    ensures CalculateDifficulty(DEFAULT_PARAMS, timestamps, current, outOfRange) > current <==> elapsed < 4 * n
    ensures CalculateDifficulty(DEFAULT_PARAMS, timestamps, current, outOfRange) < current <==>
            elapsed > 6 * n && current > 1
  {
    var ratio := Ratio(DEFAULT_PARAMS, timestamps);
    RatioIsElapsedOverPlanned(DEFAULT_PARAMS, timestamps, ratio);
    RatioAgainstBounds(ratio, elapsed, 5 * n);
    AdjustDirection(current, ratio, outOfRange);
  }

  lemma TwiceFive(current: uint32, seconds: nat, n: nat)
    requires n > 0
    ensures Change(current, seconds, 5 * n) == Quotient(current * seconds, 10 * n)
  {
    assert 2 * (5 * n) == 10 * n;
  }

  lemma RiseAmount(current: uint32, ratio: real, saved: nat, planned: nat, outOfRange: uint32)
    requires planned > 0 && 0 < current <= 2_863_311_530 && 0.0 <= ratio < 0.8
    requires ratio * planned as real == (planned - saved) as real
    ensures Adjust(current, ratio, outOfRange) == current + Max(1, Change(current, saved, planned))
  {
    RiseAtMostHalf(current, ratio, outOfRange);
    WrapSmall32(current + Rise(current, ratio, outOfRange));
    assert (1.0 - ratio) * planned as real == saved as real;
    CorrectionIsChange(current, 1.0 - ratio, saved, planned);
  }

  /** It rises by a tenth of the difficulty for each second that a block took less than 5 on average,
      rounded down, and at least by 1. */
  lemma DefaultRise(timestamps: seq<uint64>, current: uint32, outOfRange: uint32, saved: int, n: nat)
    requires |timestamps| == n + 1 >= 2 && 0 < current <= 2_863_311_530
    requires saved == 5 * n - Elapsed(timestamps) && saved > n
    ensures CalculateDifficulty(DEFAULT_PARAMS, timestamps, current, outOfRange) ==
            current + Max(1, Quotient(current * saved, 10 * n))
  {
    var ratio := Ratio(DEFAULT_PARAMS, timestamps);
    RatioIsElapsedOverPlanned(DEFAULT_PARAMS, timestamps, ratio);
    RatioAgainstBounds(ratio, Elapsed(timestamps), 5 * n);
    RiseAmount(current, ratio, saved, 5 * n, outOfRange);
    TwiceFive(current, saved, n);
  }

  /** It falls by a tenth for each second more than 5, if that fits a `uint32_t`, by at least 1 and to no
      less than 1. */
  lemma DefaultFall(timestamps: seq<uint64>, current: uint32, outOfRange: uint32, late: int, n: nat, fall: nat)
    requires |timestamps| == n + 1 >= 2 && 0 < current
    requires late == Elapsed(timestamps) - 5 * n && late > n
    requires fall == Quotient(current * late, 10 * n) < 4_294_967_296
    ensures CalculateDifficulty(DEFAULT_PARAMS, timestamps, current, outOfRange) ==
            if current > Max(1, fall) then current - Max(1, fall) else 1
  {
    CalculateDifficultyIsRule(DEFAULT_PARAMS, timestamps, current, outOfRange);
    TwiceFive(current, late, n);
  }

  /** With each new block the timestamp of the former tip enters the window, and of more than 1000 the oldest
      leaves it. */
  lemma WindowSlides(blocks: seq<Block>, b: Block)
    requires blocks != []
    ensures Window([b]) == []
    ensures var window := Window(blocks);
            Window(blocks + [b]) ==
            (if |window| < 1000 then window else window[1..]) + [blocks[|blocks| - 1].header.timestamp]
  {
    var window, next := Window(blocks), Window(blocks + [b]);
    var kept := if |window| < 1000 then window else window[1..];
    assert |next| == |kept| + 1;
    forall i | 0 <= i < |kept| ensures next[i] == kept[i] {
    }
  }

  /** The loop compares the block below the tip with the one up to 999 blocks before it: the block time of
      the tip itself does not count. With fewer than three blocks the difficulty stays. */
  lemma NextDifficultyIsRule(s: MinerState, outOfRange: uint32, low: nat, high: nat)
    requires |s.ledger.blocks| == high + 2 && low == if high < 999 then 0 else high - 999
    ensures var difficulty := s.ledger.blocks[high + 1].header.difficulty;
            var first: int := s.ledger.blocks[low].header.timestamp;
            var last: int := s.ledger.blocks[high].header.timestamp;
            var elapsed := if first <= last then last - first else last - first + 0x1_0000_0000_0000_0000;
            NextDifficulty(s, outOfRange) ==
            if high == 0 then s.difficulty
            else NewDifficulty(if difficulty > 0 then difficulty else 1, elapsed, 5 * (high - low), outOfRange)
  {
    if high > 0 {
      var window := Window(s.ledger.blocks);
      assert |window| == high - low + 1;
      assert window[0] == s.ledger.blocks[low].header.timestamp;
      assert window[|window| - 1] == s.ledger.blocks[high].header.timestamp;
      CalculateDifficultyIsRule(DEFAULT_PARAMS, window, s.ledger.blocks[high + 1].header.difficulty, outOfRange);
      assert Planned(DEFAULT_PARAMS, window) == 5 * (high - low);
    }
  }
}
