/**
 The figures of the reports screen: total and average student XP and the
 mission completion rate, each a ratio rounded by `Math.round` with an empty
 list falling back to 0 (`NaN || 0`). Ratios are exact rationals here.
 */
module Reports {
  import opened Domain
  import opened Seqs

  /**
   `Math.round(p / q)` for a positive denominator: the nearest integer, halves
   rounded up. Computed as the floor of `(2p + q) / 2q`.
   */
  function RoundHalfUp(p: int, q: int): (r: int)
    requires q > 0
    ensures 2 * q * r - q <= 2 * p < 2 * q * r + q
  {
    var r := (2 * p + q) / (2 * q);
    assert (2 * p + q) == 2 * q * r + (2 * p + q) % (2 * q);
    r
  }

  /** A product with a positive factor has the sign of the other factor. */
  lemma SignOfFactor(q: int, d: int)
    requires q > 0
    ensures q * d <= 0 ==> d <= 0
    ensures q * d < 0 ==> d < 0
  {
  }

  /** Rounding a ratio that lies between two integers stays between them. */
  lemma RoundHalfUpBetween(p: int, q: int, lo: int, hi: int)
    requires q > 0
    requires q * lo <= p <= q * hi
    ensures lo <= RoundHalfUp(p, q) <= hi
  {
    var r := RoundHalfUp(p, q);
    assert q * (2 * r - 2 * hi - 1) == 2 * (q * r) - 2 * (q * hi) - q;
    assert q * (2 * lo - 2 * r - 1) == 2 * (q * lo) - 2 * (q * r) - q;
    assert 2 * q * r == 2 * (q * r);
    SignOfFactor(q, 2 * r - 2 * hi - 1);
    SignOfFactor(q, 2 * lo - 2 * r - 1);
  }

  function XpOf(s: Student): int
  {
    s.xp
  }

  /**
   `totalXP`: the XP of all students together. With no negative XP the total
   is non-negative and at least any one student's XP.
   */
  function TotalXp(students: seq<Student>): (t: int)
    ensures |students| == 0 ==> t == 0
    ensures (forall s :: s in students ==> s.xp >= 0) ==>
              t >= 0 && forall s :: s in students ==> s.xp <= t
  {
    assert (forall s :: s in students ==> s.xp >= 0) ==>
             SumOf(students, XpOf) >= 0 && forall s :: s in students ==> s.xp <= SumOf(students, XpOf) by {
      if forall s :: s in students ==> s.xp >= 0 {
        SumOfDominates(students, XpOf);
      }
    }
    SumOf(students, XpOf)
  }

  /** `avgXP`: the rounded mean XP, 0 for an empty roster. */
  function AvgXp(students: seq<Student>): (r: int)
    ensures |students| == 0 ==> r == 0
    ensures |students| > 0 ==>
              2 * |students| * r - |students| <= 2 * TotalXp(students) < 2 * |students| * r + |students|
  {
    if |students| == 0 then 0 else RoundHalfUp(TotalXp(students), |students|)
  }

  /** The average lies between any lower and upper bound on the students' XP, so between min and max. */
  lemma AvgXpWithinRange(students: seq<Student>, lo: int, hi: int)
    requires |students| > 0
    requires forall s :: s in students ==> lo <= s.xp <= hi
    ensures lo <= AvgXp(students) <= hi
  {
    SumOfBounds(students, XpOf, lo, hi);
    RoundHalfUpBetween(TotalXp(students), |students|, lo, hi);
  }

  function IsCompleted(m: Mission): bool
  {
    m.completed
  }

  /** How many missions are completed. */
  function CompletedCount(missions: seq<Mission>): (c: nat)
    ensures c == Count(missions, IsCompleted)
    ensures c <= |missions|
    ensures c == 0 <==> forall m :: m in missions ==> !m.completed
  {
    FilterCount(missions, IsCompleted);
    FilterEmpty(missions, IsCompleted);
    |Filter(missions, IsCompleted)|
  }

  /** `completionRate`: the rounded percentage of completed missions, 0 with no missions. */
  function CompletionRate(missions: seq<Mission>): (r: int)
    ensures 0 <= r <= 100
    ensures |missions| == 0 ==> r == 0
    ensures CompletedCount(missions) == 0 ==> r == 0
    ensures |missions| > 0 ==>
              2 * |missions| * r - |missions| <= 200 * CompletedCount(missions) < 2 * |missions| * r + |missions|
  {
    if |missions| == 0 then 0
    else
      var c := CompletedCount(missions);
      RoundHalfUpBetween(100 * c, |missions|, 0, if c == 0 then 0 else 100);
      RoundHalfUp(100 * c, |missions|)
  }

  /** When every mission is completed the rate is exactly 100. */
  lemma CompletionRateAllDone(missions: seq<Mission>)
    requires |missions| > 0
    requires forall m :: m in missions ==> m.completed
    ensures CompletionRate(missions) == 100
  {
    FilterKeepsAll(missions, IsCompleted);
    RoundHalfUpBetween(100 * |missions|, |missions|, 100, 100);
  }
}
