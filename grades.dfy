/**
 * lib/grades.ts: the 1–5 star rating shown as a UW–Madison letter grade. A rating is
 * clamped to [1, 5] and shifted onto the 0–4 grade-point scale, and a grade point is
 * clamped to [0, 4] and mapped to a letter by fixed thresholds. Numbers are exact reals.
 */
module Grades {
  datatype Letter = A | AB | B | BC | C | D | F

  function Max(a: real, b: real): real { if a >= b then a else b }
  function Min(a: real, b: real): real { if a <= b then a else b }

  /** `ratingToGPA`: `max(1, min(5, rating)) - 1`. */
  function RatingToGPA(rating: real): (g: real)
    ensures 0.0 <= g <= 4.0
    ensures 1.0 <= rating <= 5.0 ==> g == rating - 1.0
    ensures rating <= 1.0 ==> g == 0.0
    ensures rating >= 5.0 ==> g == 4.0
  {
    Max(1.0, Min(5.0, rating)) - 1.0
  }

  /** `gpaToUWLetter` */
  function GpaToLetter(gpa: real): Letter {
    var g := Max(0.0, Min(4.0, gpa));
    if g >= 4.0 then A
    else if g >= 3.5 then AB
    else if g >= 3.0 then B
    else if g >= 2.5 then BC
    else if g >= 2.0 then C
    else if g >= 1.0 then D
    else F
  }

  /** Letters from worst (0) to best (6). */
  function Rank(l: Letter): nat {
    match l
    case F => 0
    case D => 1
    case C => 2
    case BC => 3
    case B => 4
    case AB => 5
    case A => 6
  }

  /** The lowest grade point that earns each letter. */
  function Floor(l: Letter): real {
    match l
    case F => 0.0
    case D => 1.0
    case C => 2.0
    case BC => 2.5
    case B => 3.0
    case AB => 3.5
    case A => 4.0
  }

  /**
   * The letter is the best one whose floor the (clamped) grade point reaches: it
   * reaches its own floor, and reaches no better letter's floor.
   */
  lemma GpaToLetterIsBestReached(gpa: real, l: Letter)
    ensures Floor(GpaToLetter(gpa)) <= Max(0.0, Min(4.0, gpa))
    ensures Floor(l) <= Max(0.0, Min(4.0, gpa)) ==> Rank(l) <= Rank(GpaToLetter(gpa))
  {
  }

  /** A higher grade point never earns a worse letter. */
  lemma GpaToLetterMonotone(a: real, b: real)
    requires a <= b
    ensures Rank(GpaToLetter(a)) <= Rank(GpaToLetter(b))
  {
    GpaToLetterIsBestReached(a, GpaToLetter(a));
    GpaToLetterIsBestReached(b, GpaToLetter(a));
  }

  /** `ratingToUWLetter` */
  function RatingToLetter(avgRating: real): Letter {
    GpaToLetter(RatingToGPA(avgRating))
  }

  /** A higher rating never earns a worse letter. */
  lemma RatingToLetterMonotone(a: real, b: real)
    requires a <= b
    ensures Rank(RatingToLetter(a)) <= Rank(RatingToLetter(b))
  {
    GpaToLetterMonotone(RatingToGPA(a), RatingToGPA(b));
  }

  /** The letters the thresholds give at each floor, and three ratings mapped through the grade-point scale. */
  lemma LetterExamples()
    ensures GpaToLetter(4.0) == A && GpaToLetter(3.5) == AB && GpaToLetter(3.0) == B
    ensures GpaToLetter(2.5) == BC && GpaToLetter(2.0) == C && GpaToLetter(1.0) == D && GpaToLetter(0.0) == F
    ensures RatingToGPA(5.0) == 4.0 && RatingToGPA(1.0) == 0.0 && RatingToGPA(3.0) == 2.0
    ensures RatingToLetter(5.0) == A && RatingToLetter(4.5) == AB && RatingToLetter(3.0) == C
  {
  }

  function Sum(nums: seq<real>): real {
    if nums == [] then 0.0 else Sum(nums[..|nums| - 1]) + nums[|nums| - 1]
  }

  /** `average`: 0 for no numbers, otherwise their mean. */
  function Average(nums: seq<real>): real {
    if |nums| == 0 then 0.0 else Sum(nums) / (|nums| as real)
  }

  lemma {:induction false} SumBounds(nums: seq<real>, lo: real, hi: real)
    requires forall k :: 0 <= k < |nums| ==> lo <= nums[k] <= hi
    ensures lo * (|nums| as real) <= Sum(nums) <= hi * (|nums| as real)
  {
    if nums != [] {
      SumBounds(nums[..|nums| - 1], lo, hi);
    }
  }

  /** The mean of numbers that all lie in [lo, hi] lies in [lo, hi] as well. */
  lemma AverageBounds(nums: seq<real>, lo: real, hi: real)
    requires nums != []
    requires forall k :: 0 <= k < |nums| ==> lo <= nums[k] <= hi
    ensures lo <= Average(nums) <= hi
  {
    SumBounds(nums, lo, hi);
    DivideBounds(lo, Sum(nums), hi, |nums| as real);
  }

  /** Dividing bounds of the form `lo * n <= x <= hi * n` by a positive `n`. */
  lemma DivideBounds(lo: real, x: real, hi: real, n: real)
    requires n > 0.0 && lo * n <= x <= hi * n
    ensures lo <= x / n <= hi
  {
    assert (x / n) * n == x;
  }

  /** The mean lies between the smallest and the largest of the numbers. */
  lemma AverageBetweenMinAndMax(nums: seq<real>)
    requires nums != []
    ensures exists k :: 0 <= k < |nums| && nums[k] <= Average(nums)
    ensures exists k :: 0 <= k < |nums| && Average(nums) <= nums[k]
  {
    var lo, hi := MinMax(nums);
    AverageBounds(nums, nums[lo], nums[hi]);
  }

  /** Indices of a smallest and a largest number. */
  lemma {:induction false} MinMax(nums: seq<real>) returns (lo: nat, hi: nat)
    requires nums != []
    ensures lo < |nums| && hi < |nums|
    ensures forall k :: 0 <= k < |nums| ==> nums[lo] <= nums[k] <= nums[hi]
  {
    if |nums| == 1 {
      return 0, 0;
    }
    var init := nums[..|nums| - 1];
    lo, hi := MinMax(init);
    assert forall k :: 0 <= k < |init| ==> init[k] == nums[k];
    if nums[|nums| - 1] < nums[lo] {
      lo := |nums| - 1;
    }
    if nums[|nums| - 1] > nums[hi] {
      hi := |nums| - 1;
    }
  }

  lemma AverageEmpty()
    ensures Average([]) == 0.0
  {
  }
}
