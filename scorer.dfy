/**
 * The scorer of the web content analyzer: a page's safety score, from 10
 * down to 0, falls with the share of its tokens that hit a sensitive
 * category, and the score is mapped to one of four rating labels.
 */
module Scorer {

  /** The four rating labels, best first. */
  datatype Rating = VeryGood | Good | Bad | VeryBad
  {
    /** The label as the analyzer reports it. */
    function Label(): (s: string)
    {
      match this
      case VeryGood => "Very Good"
      case Good => "Good"
      case Bad => "Bad"
      case VeryBad => "Very Bad"
    }

    /** The place of the label in the order of ratings, higher is better. */
    function Rank(): (n: nat)
      ensures n <= 3
    {
      match this
      case VeryGood => 3
      case Good => 2
      case Bad => 1
      case VeryBad => 0
    }
  }

  /** Each label names one rating: the reported label determines the rating. */
  lemma LabelsDistinct(r1: Rating, r2: Rating)
    ensures r1.Label() == r2.Label() <==> r1 == r2
  {
  }

  /** The score every page starts from. */
  const BaseScore: real := 10.0

  /**
   * The safety score: the base score minus 50 times the share of bad words
   * among all tokens (no penalty when there are no tokens), never below 0.
   */
  function SafetyScore(badWordCount: nat, totalWordCount: nat): (score: real)
    ensures 0.0 <= score <= BaseScore
    ensures totalWordCount == 0 ==> score == BaseScore
  {
    var penalty :=
      if totalWordCount > 0 then (badWordCount as real / totalWordCount as real) * 10.0 * 5.0
      else 0.0;
    var unclamped := BaseScore - penalty;
    if unclamped > 0.0 then unclamped else 0.0
  }

  /** The rating of a score; every threshold is an inclusive lower bound. */
  function RatingFor(score: real): (r: Rating)
    ensures r == VeryGood <==> 9.0 <= score
    ensures r == Good <==> 8.0 <= score < 9.0
    ensures r == Bad <==> 7.0 <= score < 8.0
    ensures r == VeryBad <==> score < 7.0
  {
    if score >= 9.0 then VeryGood
    else if score >= 8.0 then Good
    else if score >= 7.0 then Bad
    else VeryBad
  }

  /** The score of a page with its rating. */
  datatype Safety = Safety(score: real, rating: Rating)

  /** `get_safety_rating`: the score of the counts and the rating of that score. */
  function GetSafetyRating(badWordCount: nat, totalWordCount: nat): (r: Safety)
    ensures 0.0 <= r.score <= BaseScore
    ensures r.rating == RatingFor(r.score)
    ensures totalWordCount == 0 ==> r == Safety(10.0, VeryGood)
  {
    var score := SafetyScore(badWordCount, totalWordCount);
    Safety(score, RatingFor(score))
  }

  // ---------------------------------------------------------------------------
  // The score in integer terms

  /** For a positive denominator, a ratio is at most `k` exactly when the numerator is at most `k` times it. */
  lemma RatioAtMost(a: real, b: real, k: real)
    requires b > 0.0
    ensures a / b <= k <==> a <= k * b
  {
  }

  /**
   * Above the clamp, the score times the token count is exactly
   * `10 * total - 50 * bad`.
   */
  lemma ScoreTimesTotal(badWordCount: nat, totalWordCount: nat)
    requires 0 < totalWordCount && 50 * badWordCount < 10 * totalWordCount
    ensures SafetyScore(badWordCount, totalWordCount) * totalWordCount as real
            == (10 * totalWordCount - 50 * badWordCount) as real
  {
  }

  /**
   * For `k` below 10, the score reaches `10 - k` exactly when the bad words
   * times 50 are at most `k` times the token count.
   */
  lemma ScoreAtLeastIff(badWordCount: nat, totalWordCount: nat, k: nat)
    requires 0 < totalWordCount && k < 10
    ensures SafetyScore(badWordCount, totalWordCount) >= (10 - k) as real
            <==> 50 * badWordCount <= k * totalWordCount
  {
    var b, t := badWordCount as real, totalWordCount as real;
    RatioAtMost(b, t, k as real / 50.0);
    assert (b / t) * 10.0 * 5.0 <= k as real <==> b / t <= k as real / 50.0;
    assert (k as real / 50.0) * t == (k * totalWordCount) as real / 50.0;
  }

  /**
   * The score clamps to 0 exactly when the bad words times 50 reach 10 times
   * the token count.
   */
  lemma ScoreIsZeroIff(badWordCount: nat, totalWordCount: nat)
    requires 0 < totalWordCount
    ensures SafetyScore(badWordCount, totalWordCount) == 0.0
            <==> 50 * badWordCount >= 10 * totalWordCount
  {
    var b, t := badWordCount as real, totalWordCount as real;
    RatioAtMost(b, t, 0.2);
    assert SafetyScore(badWordCount, totalWordCount) == 0.0 <==> (b / t) * 10.0 * 5.0 >= 10.0;
    if b == 0.2 * t {
      assert b / t == 0.2;
    }
  }

  /**
   * The rating of a page with tokens, stated on the counts alone: each band
   * is a range of `50 * bad` measured against the token count.
   */
  lemma RatingFromCounts(badWordCount: nat, totalWordCount: nat)
    requires 0 < totalWordCount
    ensures var r := GetSafetyRating(badWordCount, totalWordCount).rating;
            && (r == VeryGood <==> 50 * badWordCount <= totalWordCount)
            && (r == Good <==> totalWordCount < 50 * badWordCount <= 2 * totalWordCount)
            && (r == Bad <==> 2 * totalWordCount < 50 * badWordCount <= 3 * totalWordCount)
            && (r == VeryBad <==> 3 * totalWordCount < 50 * badWordCount)
  {
    ScoreAtLeastIff(badWordCount, totalWordCount, 1);
    ScoreAtLeastIff(badWordCount, totalWordCount, 2);
    ScoreAtLeastIff(badWordCount, totalWordCount, 3);
  }

  /** For a fixed token count, more bad words never raise the score. */
  lemma ScoreNonIncreasing(bad1: nat, bad2: nat, totalWordCount: nat)
    requires bad1 <= bad2
    ensures SafetyScore(bad2, totalWordCount) <= SafetyScore(bad1, totalWordCount)
  {
    if totalWordCount > 0 {
      var t := totalWordCount as real;
      RatioAtMost(bad1 as real, t, bad2 as real / t);
      assert (bad2 as real / t) * t == bad2 as real;
    }
  }

  /** A higher score never gets a worse rating. */
  lemma RatingMonotone(score1: real, score2: real)
    requires score1 <= score2
    ensures RatingFor(score1).Rank() <= RatingFor(score2).Rank()
  {
  }

  /** For a fixed token count, more bad words never improve the rating. */
  lemma RatingNonIncreasing(bad1: nat, bad2: nat, totalWordCount: nat)
    requires bad1 <= bad2
    ensures GetSafetyRating(bad2, totalWordCount).rating.Rank()
            <= GetSafetyRating(bad1, totalWordCount).rating.Rank()
  {
    ScoreNonIncreasing(bad1, bad2, totalWordCount);
    RatingMonotone(SafetyScore(bad2, totalWordCount), SafetyScore(bad1, totalWordCount));
  }
}
