/** The scoring engine (`calculateOverallScore` in the dashboard): the
    unweighted mean of the applicable criteria's scores, rounded by
    `Math.round`. Scores are whole numbers; for those, `Math.round(sum / n)`
    is `floor((2 * sum + n) / (2 * n))`, and Dafny's division by a positive
    divisor is that floor. */
module Scoring {
  import opened Catalog
  import opened Records

  /** The `reduce` over a criteria list: the running sum of their scores,
      taken left to right from 0. */
  function SumScores(evaluation: map<Criterion, CriterionResult>, cs: seq<Criterion>): int
    requires forall i :: 0 <= i < |cs| ==> cs[i] in evaluation
  {
    if cs == [] then 0
    else SumScores(evaluation, cs[..|cs| - 1]) + evaluation[cs[|cs| - 1]].score
  }

  /** `Math.round(sum / n)`: the integer nearest to `sum / n`, halves upward. */
  function RoundedMean(sum: int, n: nat): (r: int)
    requires n > 0
    ensures 2 * n * r - n <= 2 * sum < 2 * n * r + n
  {
    var d := 2 * n;
    var q := (2 * sum + n) / d;
    assert d * q <= 2 * sum + n < d * q + d;
    q
  }

  lemma MulGrows(m: int, k: int)
    requires m > 0 && k >= 1
    ensures m * k >= m
  {
  }

  lemma MulDistributes(m: int, a: int, b: int)
    ensures m * (a - b) == m * a - m * b
  {
  }

  /** At most one integer is within half of `sum / n`, so the rounding
      characterisation pins the result down. */
  lemma RoundedMeanUnique(sum: int, n: nat, r: int)
    requires n > 0
    requires 2 * n * r - n <= 2 * sum < 2 * n * r + n
    ensures r == RoundedMean(sum, n)
  {
    var q := RoundedMean(sum, n);
    var m := 2 * n;
    if r < q {
      MulGrows(m, q - r);
      MulDistributes(m, q, r);
    } else if r > q {
      MulGrows(m, r - q);
      MulDistributes(m, r, q);
    }
  }

  /** The overall score of a record of type `t`. Only the applicable
      criteria are read, so the record needs to carry only those. */
  function OverallScore(evaluation: map<Criterion, CriterionResult>, t: PresentationType): (r: int)
    requires Covers(evaluation, t)
    ensures
      var n := |CriteriaFor(t)|;
      var sum := SumScores(evaluation, CriteriaFor(t));
      n > 0 && 2 * n * r - n <= 2 * sum < 2 * n * r + n
  {
    RoundedMean(SumScores(evaluation, CriteriaFor(t)), |CriteriaFor(t)|)
  }

  /** The same reduction as the source writes it: a left-to-right fold over
      `getEvaluationCriteria(type)` from 0, then the rounding. */
  method CalculateOverallScore(evaluation: map<Criterion, CriterionResult>, t: PresentationType)
    returns (r: int)
    requires Covers(evaluation, t)
    ensures r == OverallScore(evaluation, t)
  {
    var criteria := CriteriaFor(t);
    var sum := 0;
    var i := 0;
    while i < |criteria|
      invariant 0 <= i <= |criteria|
      invariant sum == SumScores(evaluation, criteria[..i])
    {
      assert criteria[..i + 1][..i] == criteria[..i];
      sum := sum + evaluation[criteria[i]].score;
      i := i + 1;
    }
    assert criteria[..i] == criteria;
    r := (2 * sum + |criteria|) / (2 * |criteria|);
  }

  /** If every summed score lies in `[lo, hi]`, the sum lies in `[n*lo, n*hi]`. */
  lemma {:induction false} SumBounds(evaluation: map<Criterion, CriterionResult>, cs: seq<Criterion>, lo: int, hi: int)
    requires forall i :: 0 <= i < |cs| ==> cs[i] in evaluation
    requires forall i :: 0 <= i < |cs| ==> lo <= evaluation[cs[i]].score <= hi
    ensures |cs| * lo <= SumScores(evaluation, cs) <= |cs| * hi
  {
    if cs != [] {
      SumBounds(evaluation, cs[..|cs| - 1], lo, hi);
    }
  }

  /** Rounding the mean never leaves the range of the values averaged. */
  lemma RoundedMeanBounds(sum: int, n: nat, lo: int, hi: int)
    requires n > 0
    requires n * lo <= sum <= n * hi
    ensures lo <= RoundedMean(sum, n) <= hi
  {
    var r := RoundedMean(sum, n);
    var m := 2 * n;
    assert 2 * (n * hi) == m * hi && 2 * (n * lo) == m * lo;
    if r > hi {
      MulGrows(m, r - hi);
      MulDistributes(m, r, hi);
    }
    if r < lo {
      MulGrows(m, lo - r);
      MulDistributes(m, lo, r);
    }
  }

  /** The overall score lies between the lowest and the highest applicable
      score; criteria that do not apply play no part. */
  lemma ScoreWithinApplicableRange(evaluation: map<Criterion, CriterionResult>, t: PresentationType, lo: int, hi: int)
    requires Covers(evaluation, t)
    requires forall i :: 0 <= i < |CriteriaFor(t)| ==> lo <= evaluation[CriteriaFor(t)[i]].score <= hi
    ensures lo <= OverallScore(evaluation, t) <= hi
  {
    SumBounds(evaluation, CriteriaFor(t), lo, hi);
    RoundedMeanBounds(SumScores(evaluation, CriteriaFor(t)), |CriteriaFor(t)|, lo, hi);
  }

  /** Scores on the prompt's 0 to 100 scale give an overall score on that scale. */
  lemma ScoreInPercentRange(evaluation: map<Criterion, CriterionResult>, t: PresentationType)
    requires Covers(evaluation, t)
    requires forall i :: 0 <= i < |CriteriaFor(t)| ==> 0 <= evaluation[CriteriaFor(t)[i]].score <= 100
    ensures 0 <= OverallScore(evaluation, t) <= 100
  {
    ScoreWithinApplicableRange(evaluation, t, 0, 100);
  }

  /** When every applicable criterion has score `k`, the overall score is `k`. */
  lemma UniformScores(evaluation: map<Criterion, CriterionResult>, t: PresentationType, k: int)
    requires Covers(evaluation, t)
    requires forall i :: 0 <= i < |CriteriaFor(t)| ==> evaluation[CriteriaFor(t)[i]].score == k
    ensures OverallScore(evaluation, t) == k
  {
    ScoreWithinApplicableRange(evaluation, t, k, k);
  }

  /** Two records whose scores agree on the listed criteria have the same sum. */
  lemma {:induction false} SumDependsOnListedOnly(e1: map<Criterion, CriterionResult>, e2: map<Criterion, CriterionResult>, cs: seq<Criterion>)
    requires forall i :: 0 <= i < |cs| ==> cs[i] in e1 && cs[i] in e2 && e1[cs[i]].score == e2[cs[i]].score
    ensures SumScores(e1, cs) == SumScores(e2, cs)
  {
    if cs != [] {
      SumDependsOnListedOnly(e1, e2, cs[..|cs| - 1]);
    }
  }

  /** The overall score is a function of the type and the applicable
      scores alone: feedback texts and inapplicable criteria never count. */
  lemma ScoreDependsOnApplicableOnly(e1: map<Criterion, CriterionResult>, e2: map<Criterion, CriterionResult>, t: PresentationType)
    requires Covers(e1, t) && Covers(e2, t)
    requires forall c :: c in CriteriaFor(t) ==> e1[c].score == e2[c].score
    ensures OverallScore(e1, t) == OverallScore(e2, t)
  {
    SumDependsOnListedOnly(e1, e2, CriteriaFor(t));
  }

  /** Replacing the result of a criterion that does not apply leaves the
      overall score unchanged. */
  lemma InapplicableChangeIgnored(evaluation: map<Criterion, CriterionResult>, t: PresentationType, c: Criterion, v: CriterionResult)
    requires Covers(evaluation, t)
    requires c !in CriteriaFor(t)
    ensures Covers(evaluation[c := v], t)
    ensures OverallScore(evaluation[c := v], t) == OverallScore(evaluation, t)
  {
    ScoreDependsOnApplicableOnly(evaluation[c := v], evaluation, t);
  }

  /** Example: a SLIDES_ONLY record scored 90, 80 and 70 on its three
      criteria has overall score 80, whatever the other five hold. */
  lemma SlidesOnlyExample(evaluation: map<Criterion, CriterionResult>)
    requires ContentQuality in evaluation && evaluation[ContentQuality].score == 90
    requires SlideDesign in evaluation && evaluation[SlideDesign].score == 80
    requires StructureFlow in evaluation && evaluation[StructureFlow].score == 70
    ensures Covers(evaluation, SlidesOnly)
    ensures OverallScore(evaluation, SlidesOnly) == 80
  {
    var cs := CriteriaFor(SlidesOnly);
    assert cs[..|cs| - 1] == [ContentQuality, SlideDesign];
    assert [ContentQuality, SlideDesign][..1] == [ContentQuality];
    assert [ContentQuality][..0] == [];
    assert SumScores(evaluation, [ContentQuality]) == 90;
    assert SumScores(evaluation, [ContentQuality, SlideDesign]) == 170;
    assert SumScores(evaluation, cs) == 240;
    RoundedMeanUnique(240, 3, 80);
  }

  /** Example: halves round upward, as `Math.round` does: a VOICE_OVER
      record scored 90, 80, 70 and 71 averages 77.75 and scores 78, and one
      scored 90, 80, 70 and 70 averages 77.5 and also scores 78. */
  lemma HalfRoundsUp()
    ensures RoundedMean(311, 4) == 78
    ensures RoundedMean(310, 4) == 78
    ensures RoundedMean(-10, 4) == -2
  {
    RoundedMeanUnique(311, 4, 78);
    RoundedMeanUnique(310, 4, 78);
    RoundedMeanUnique(-10, 4, -2);
  }
}
