/**
 * The rule engine of the stat roller: the Skill Rating of a stat (its tens
 * digit) and the signed adjustment a percentile die roll earns against a stat.
 * Both are pure integer formulas; Dafny's `/` and `%` agree with Python's
 * floor `//` and `%` for the positive divisor 10 used throughout.
 */
module RuleEngine {

  function Abs(x: int): (r: int)
    ensures r >= 0 && (r == x || r == -x)
  {
    if x < 0 then -x else x
  }

  /** The Skill Rating of a stat: its tens digit, so a stat of 100 wraps to 0. */
  function GetSR(stat: int): (sr: int)
    ensures 0 <= sr <= 9
    // the last two decimal digits of the stat are sr followed by its units digit
    ensures stat % 100 == 10 * sr + stat % 10
  {
    (stat / 10) % 10
  }

  /**
   * The adjustment for a die result against a stat: zero inside the dead band
   * [-10, 10] of die - stat, otherwise +1 for every full 10 the roll lies below
   * the stat and -1 for every full 10 it lies above.
   */
  function CalculateFinalResult(dieResult: int, enteredStat: int): (r: int)
    ensures r == 0 <==> -10 <= dieResult - enteredStat <= 10
    ensures dieResult - enteredStat < -10 ==>
      1 <= r && 10 * r <= enteredStat - dieResult < 10 * r + 10
    ensures dieResult - enteredStat > 10 ==>
      r <= -1 && 10 * -r <= dieResult - enteredStat < 10 * -r + 10
  {
    var difference := dieResult - enteredStat;
    if difference < -10 then Abs(difference) / 10
    else if difference > 10 then -(difference / 10)
    else 0
  }

  /** For a stat in the supported range, the SR is its tens digit, and both
      single-digit stats and the stat 100 give SR 0. */
  lemma GetSRInRange(stat: int)
    requires 1 <= stat <= 100
    ensures stat <= 9 ==> GetSR(stat) == 0
    ensures stat == 100 ==> GetSR(stat) == 0
    ensures 10 <= stat <= 99 ==> 1 <= GetSR(stat) && 10 * GetSR(stat) <= stat < 10 * GetSR(stat) + 10
  {
  }

  /** Writing a stat as tens digit t and units digit u, its SR is t. */
  lemma GetSRTensDigit(t: int, u: int)
    requires 0 <= t <= 9 && 0 <= u <= 9
    ensures GetSR(10 * t + u) == t
  {
  }

  /** Rolling d above the stat costs exactly what rolling d below it earns. */
  lemma AdjustmentAntisymmetric(stat: int, d: int)
    requires d >= 0
    ensures CalculateFinalResult(stat + d, stat) == -CalculateFinalResult(stat - d, stat)
  {
  }

  /** The adjustment depends only on the difference die - stat. */
  lemma AdjustmentDependsOnDifference(dieResult: int, enteredStat: int, k: int)
    ensures CalculateFinalResult(dieResult + k, enteredStat + k) == CalculateFinalResult(dieResult, enteredStat)
  {
  }

  /** With die and stat both clamped to [1, 100], the adjustment lies in [-9, 9]. */
  lemma AdjustmentBounded(dieResult: int, enteredStat: int)
    requires 1 <= dieResult <= 100 && 1 <= enteredStat <= 100
    ensures -9 <= CalculateFinalResult(dieResult, enteredStat) <= 9
  {
  }

  /** A lower roll never earns a smaller adjustment. */
  lemma AdjustmentMonotoneInDie(die1: int, die2: int, enteredStat: int)
    requires die1 <= die2
    ensures CalculateFinalResult(die1, enteredStat) >= CalculateFinalResult(die2, enteredStat)
  {
  }

  /** A higher stat never earns a smaller adjustment for the same roll. */
  lemma AdjustmentMonotoneInStat(dieResult: int, stat1: int, stat2: int)
    requires stat1 <= stat2
    ensures CalculateFinalResult(dieResult, stat1) <= CalculateFinalResult(dieResult, stat2)
  {
  }

  /** The worked boundary cases for a stat of 50, and a roll of 85 on it. */
  lemma BoundaryExamples()
    ensures CalculateFinalResult(61, 50) == -1 && CalculateFinalResult(60, 50) == 0
    ensures CalculateFinalResult(39, 50) == 1 && CalculateFinalResult(40, 50) == 0
    ensures GetSR(50) == 5 && CalculateFinalResult(85, 50) == -3
    ensures GetSR(50) + CalculateFinalResult(85, 50) == 2
  {
  }
}
