/**
  The score delta awarded for one answer (src/lib/quiz/scoring.ts).

  Every quantity is a real number; IEEE-754 rounding is not modelled.
  Math.sqrt is a parameter `sqrt` known only to be monotone on [0, 1] with
  sqrt(0) = 0 and sqrt(1) = 1, and Math.round(x) is Floor(x + 0.5).
*/
module Scoring {
  import opened Types

  const StreakCap: real := 8.0
  const StreakMultiplierCap: real := 1.8
  const MinAccuracyMultiplier: real := 0.6
  const MaxAccuracyMultiplier: real := 1.1
  /** The recent-performance bonus moves the score by at most ±10%. */
  const RecentBonusRange: real := 0.1
  const WrongPenaltyFactor: real := 0.25

  /** What the scoring relies on about Math.sqrt. */
  ghost predicate IsSqrtOnUnit(sqrt: real -> real) {
    && sqrt(0.0) == 0.0
    && sqrt(1.0) == 1.0
    && forall x, y :: 0.0 <= x <= y <= 1.0 ==> sqrt(x) <= sqrt(y)
  }

  function Min(a: real, b: real): real { if a <= b then a else b }

  function Max(a: real, b: real): real { if a >= b then a else b }

  /** JavaScript's Math.round: the nearest integer, a half rounded up. */
  function Round(x: real): (n: int)
    ensures n as real - 0.5 <= x < n as real + 0.5
  {
    (x + 0.5).Floor
  }

  lemma RoundMonotone(x: real, y: real)
    requires x <= y
    ensures Round(x) <= Round(y)
  {
    assert Round(x) as real < Round(y) as real + 1.0;
  }

  /** computeStreakMultiplier: the streak, clamped into [0, 8], eased by a square root. */
  function StreakMultiplier(streak: real, sqrt: real -> real): (m: real)
    requires IsSqrtOnUnit(sqrt)
    ensures 1.0 <= m <= StreakMultiplierCap
    ensures streak <= 0.0 ==> m == 1.0
    ensures streak >= StreakCap ==> m == StreakMultiplierCap
  {
    var capped := Min(Max(streak, 0.0), StreakCap);
    assert 0.0 <= capped / StreakCap <= 1.0;
    var eased := sqrt(capped / StreakCap);
    1.0 + eased * (StreakMultiplierCap - 1.0)
  }

  lemma StreakMultiplierMonotone(s1: real, s2: real, sqrt: real -> real)
    requires IsSqrtOnUnit(sqrt)
    requires s1 <= s2
    ensures StreakMultiplier(s1, sqrt) <= StreakMultiplier(s2, sqrt)
  {
    var c1 := Min(Max(s1, 0.0), StreakCap);
    var c2 := Min(Max(s2, 0.0), StreakCap);
    assert 0.0 <= c1 / StreakCap <= c2 / StreakCap <= 1.0;
  }

  /** computeAccuracy: the accuracy clamped into [0, 1]. */
  function NormalizedAccuracy(accuracy: real): (r: real)
    ensures 0.0 <= r <= 1.0
    ensures 0.0 <= accuracy <= 1.0 ==> r == accuracy
    ensures accuracy < 0.0 ==> r == 0.0
    ensures accuracy > 1.0 ==> r == 1.0
  {
    Min(1.0, Max(0.0, accuracy))
  }

  /** computeAccuracyMultiplier: the normalized accuracy mapped linearly onto [0.6, 1.1]. */
  function AccuracyMultiplier(accuracy: real): (m: real)
    ensures MinAccuracyMultiplier <= m <= MaxAccuracyMultiplier
    ensures accuracy <= 0.0 ==> m == MinAccuracyMultiplier
    ensures accuracy >= 1.0 ==> m == MaxAccuracyMultiplier
  {
    var normalized := NormalizedAccuracy(accuracy);
    MinAccuracyMultiplier + normalized * (MaxAccuracyMultiplier - MinAccuracyMultiplier)
  }

  lemma AccuracyMultiplierMonotone(a1: real, a2: real)
    requires a1 <= a2
    ensures AccuracyMultiplier(a1) <= AccuracyMultiplier(a2)
  {
    assert NormalizedAccuracy(a1) <= NormalizedAccuracy(a2);
  }

  /** The `reduce` sum of the recent-performance flags, left to right. */
  function Sum(xs: seq<real>): real {
    if |xs| == 0 then 0.0 else Sum(xs[..|xs| - 1]) + xs[|xs| - 1]
  }

  lemma HalfAverage(total: real, n: real)
    requires n > 0.0
    ensures total == 0.5 * n ==> total / n == 0.5
  {
  }

  /** computeRecentBonus: 1 for no history, otherwise the average nudged around 0.5, clamped to ±10%. */
  function RecentBonus(recent: seq<real>): (b: real)
    ensures |recent| == 0 ==> b == 1.0
    ensures 1.0 - RecentBonusRange <= b <= 1.0 + RecentBonusRange
    ensures |recent| > 0 && Sum(recent) == 0.5 * |recent| as real ==> b == 1.0
  {
    if |recent| == 0 then 1.0
    else
      var avg := Sum(recent) / |recent| as real;
      HalfAverage(Sum(recent), |recent| as real);
      var nudged := 1.0 + (avg - 0.5) * (RecentBonusRange * 2.0);
      Min(1.0 + RecentBonusRange, Max(1.0 - RecentBonusRange, nudged))
  }

  /** A recent-performance flag: 1 for a correct answer, 0 for a wrong one. */
  predicate IsFlags(xs: seq<real>) {
    forall i :: 0 <= i < |xs| ==> xs[i] == 0.0 || xs[i] == 1.0
  }

  /** The number of correct answers among the flags. */
  function CountCorrect(xs: seq<real>): nat {
    if |xs| == 0 then 0 else CountCorrect(xs[..|xs| - 1]) + (if xs[|xs| - 1] == 1.0 then 1 else 0)
  }

  lemma {:induction false} SumOfFlags(xs: seq<real>)
    requires IsFlags(xs)
    ensures Sum(xs) == CountCorrect(xs) as real
    ensures CountCorrect(xs) <= |xs|
  {
    if |xs| > 0 {
      SumOfFlags(xs[..|xs| - 1]);
    }
  }

  /**
    For a non-empty history of 0/1 flags the clamp never bites: the bonus is
    0.9 plus 0.2 times the fraction of correct answers.
  */
  lemma RecentBonusOfFlags(recent: seq<real>)
    requires IsFlags(recent) && |recent| > 0
    ensures RecentBonus(recent) == 0.9 + 0.2 * (CountCorrect(recent) as real / |recent| as real)
    ensures CountCorrect(recent) == |recent| ==> RecentBonus(recent) == 1.1
    ensures CountCorrect(recent) == 0 ==> RecentBonus(recent) == 0.9
  {
    SumOfFlags(recent);
    var n := |recent| as real;
    var k := CountCorrect(recent) as real;
    Fraction(k, n);
    NudgedBonus(k / n);
  }

  lemma Fraction(k: real, n: real)
    requires 0.0 <= k <= n && n > 0.0
    ensures 0.0 <= k / n <= 1.0
    ensures k == n ==> k / n == 1.0
    ensures k == 0.0 ==> k / n == 0.0
  {
  }

  /** Inside [0, 1], the average moves the bonus linearly from 0.9 to 1.1 and the clamp never bites. */
  lemma NudgedBonus(avg: real)
    requires 0.0 <= avg <= 1.0
    ensures 1.0 + (avg - 0.5) * (RecentBonusRange * 2.0) == 0.9 + 0.2 * avg
    ensures 0.9 <= 0.9 + 0.2 * avg <= 1.1
  {
  }

  /** The fixed penalty for a wrong answer, in closed form: round(2.5 * difficulty). */
  function WrongPenalty(difficulty: Difficulty): (p: int)
    ensures p == Round(difficulty as real * 10.0 * WrongPenaltyFactor)
    ensures p > 0
  {
    var q := (5 * difficulty + 1) / 2;
    assert 2 * q <= 5 * difficulty + 1 < 2 * q + 2;
    q
  }

  /** Multiplying a bounded non-negative quantity by a bounded non-negative factor. */
  lemma ScaleBounds(x: real, lo: real, hi: real, f: real, flo: real, fhi: real)
    requires 0.0 <= lo <= x <= hi && 0.0 <= flo <= f <= fhi
    ensures lo * flo <= x * f <= hi * fhi
  {
    assert lo * flo <= x * flo <= x * f;
    assert x * f <= hi * f <= hi * fhi;
  }

  /** The unrounded score of a correct answer. */
  function RawScore(difficulty: Difficulty, streak: real, accuracy: real, recent: seq<real>, sqrt: real -> real): real
    requires IsSqrtOnUnit(sqrt)
  {
    Product(difficulty as real * 10.0, StreakMultiplier(streak, sqrt), AccuracyMultiplier(accuracy), RecentBonus(recent))
  }

  /** base * streakMultiplier * accuracyMultiplier * recentBonus, multiplied left to right. */
  function Product(b: real, s: real, a: real, r: real): real {
    b * s * a * r
  }

  /** A product of four non-negative factors lies between the products of their bounds. */
  lemma ProductBetween(b: real, s: real, a: real, r: real,
                       sl: real, sh: real, al: real, ah: real, rl: real, rh: real)
    requires 0.0 <= b && 0.0 <= sl <= s <= sh && 0.0 <= al <= a <= ah && 0.0 <= rl <= r <= rh
    ensures b * sl * al * rl <= b * s * a * r <= b * sh * ah * rh
  {
    ScaleBounds(b, b, b, s, sl, sh);
    ScaleBounds(b * s, b * sl, b * sh, a, al, ah);
    ScaleBounds(b * s * a, b * sl * al, b * sh * ah, r, rl, rh);
  }

  lemma FactorBounds(d: real, s: real, a: real, r: real, x: real)
    requires 0.0 <= d && 1.0 <= s <= 1.8 && 0.6 <= a <= 1.1 && 0.9 <= r <= 1.1
    requires x == Product(d * 10.0, s, a, r)
    ensures d * 5.4 <= x <= d * 21.78
  {
    ProductBetween(d * 10.0, s, a, r, 1.0, 1.8, 0.6, 1.1, 0.9, 1.1);
    assert d * 10.0 * 1.0 * 0.6 * 0.9 == d * 5.4;
    assert d * 10.0 * 1.8 * 1.1 * 1.1 == d * 21.78;
  }

  lemma RawScoreBounds(difficulty: Difficulty, streak: real, accuracy: real, recent: seq<real>, sqrt: real -> real)
    requires IsSqrtOnUnit(sqrt)
    ensures difficulty as real * 5.4 <= RawScore(difficulty, streak, accuracy, recent, sqrt)
    ensures RawScore(difficulty, streak, accuracy, recent, sqrt) <= difficulty as real * 21.78
  {
    FactorBounds(difficulty as real, StreakMultiplier(streak, sqrt), AccuracyMultiplier(accuracy), RecentBonus(recent),
                 RawScore(difficulty, streak, accuracy, recent, sqrt));
  }

  /**
    computeScoreDelta. A wrong answer costs the fixed penalty whatever the
    streak, accuracy and history; a correct answer earns a strictly positive
    amount between round(5.4 * difficulty) and round(21.78 * difficulty).
  */
  function ScoreDelta(difficulty: Difficulty, streak: real, accuracy: real, recent: seq<real>,
                      correct: bool, sqrt: real -> real): (delta: int)
    requires IsSqrtOnUnit(sqrt)
    ensures !correct ==> delta == -WrongPenalty(difficulty) && delta < 0
    ensures !correct ==> delta == -((5 * difficulty + 1) / 2)
    ensures correct ==> Round(difficulty as real * 5.4) <= delta <= Round(difficulty as real * 21.78)
    ensures correct ==> delta > 0
  {
    var base := difficulty as real * 10.0;
    var raw := RawScore(difficulty, streak, accuracy, recent, sqrt);
    if !correct then
      -Round(base * WrongPenaltyFactor)
    else
      RawScoreBounds(difficulty, streak, accuracy, recent, sqrt);
      RoundMonotone(difficulty as real * 5.4, raw);
      RoundMonotone(raw, difficulty as real * 21.78);
      Round(raw)
  }

  lemma LargerStreakFactor(b: real, m1: real, m2: real, a: real, r: real, x1: real, x2: real)
    requires 0.0 <= b && 0.0 <= m1 <= m2 && 0.0 <= a && 0.0 <= r
    requires x1 == Product(b, m1, a, r) && x2 == Product(b, m2, a, r)
    ensures x1 <= x2
  {
    ProductBetween(b, m1, a, r, m1, m2, a, a, r, r);
  }

  /** The unrounded score grows with the streak. */
  lemma RawScoreMonotoneInStreak(difficulty: Difficulty, s1: real, s2: real, accuracy: real,
                                 recent: seq<real>, sqrt: real -> real)
    requires IsSqrtOnUnit(sqrt)
    requires s1 <= s2
    ensures RawScore(difficulty, s1, accuracy, recent, sqrt) <= RawScore(difficulty, s2, accuracy, recent, sqrt)
  {
    StreakMultiplierMonotone(s1, s2, sqrt);
    LargerStreakFactor(difficulty as real * 10.0, StreakMultiplier(s1, sqrt), StreakMultiplier(s2, sqrt),
                       AccuracyMultiplier(accuracy), RecentBonus(recent),
                       RawScore(difficulty, s1, accuracy, recent, sqrt), RawScore(difficulty, s2, accuracy, recent, sqrt));
  }

  /** With difficulty, accuracy and history fixed, a longer streak never earns less. */
  lemma ScoreDeltaMonotoneInStreak(difficulty: Difficulty, s1: real, s2: real, accuracy: real,
                                   recent: seq<real>, sqrt: real -> real)
    requires IsSqrtOnUnit(sqrt)
    requires s1 <= s2
    ensures ScoreDelta(difficulty, s1, accuracy, recent, true, sqrt)
            <= ScoreDelta(difficulty, s2, accuracy, recent, true, sqrt)
  {
    RawScoreMonotoneInStreak(difficulty, s1, s2, accuracy, recent, sqrt);
    RoundMonotone(RawScore(difficulty, s1, accuracy, recent, sqrt), RawScore(difficulty, s2, accuracy, recent, sqrt));
  }
}
