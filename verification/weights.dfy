/** The weight table the instruction prompt gives the AI
    (`systemInstruction` in `evaluateVideo.ts`). The weights never enter the
    overall score; they only tell the AI how to judge. A dash in the table is
    `None`. */
module Weights {
  import opened Wrappers
  import opened Catalog

  function WeightOf(t: PresentationType, c: Criterion): Option<nat> {
    match c
    case ContentQuality =>
      Some(match t case SlidesOnly => 50 case VoiceOver => 40 case FaceVisible => 35 case FacePlusScreen => 30)
    case SlideDesign =>
      Some(match t case SlidesOnly => 30 case VoiceOver => 20 case FaceVisible => 15 case FacePlusScreen => 15)
    case StructureFlow =>
      Some(match t case SlidesOnly => 20 case VoiceOver => 15 case FaceVisible => 10 case FacePlusScreen => 10)
    case VoiceClarityDelivery =>
      (match t case SlidesOnly => None case VoiceOver => Some(25) case FaceVisible => Some(20) case FacePlusScreen => Some(15))
    case EngagementExpression =>
      (match t case FaceVisible => Some(10) case FacePlusScreen => Some(10) case _ => None)
    case BodyLanguage =>
      (match t case FaceVisible => Some(10) case FacePlusScreen => Some(10) case _ => None)
    case VisualEngagement =>
      (match t case FacePlusScreen => Some(10) case _ => None)
    case TechnicalQuality =>
      (match t case FacePlusScreen => Some(10) case _ => None)
  }

  /** Sum of a column's weights over the given criteria (a dash counts 0). */
  function WeightSum(t: PresentationType, cs: seq<Criterion>): nat {
    if cs == [] then 0 else WeightSum(t, cs[..|cs| - 1]) + WeightOf(t, cs[|cs| - 1]).GetOr(0)
  }

  /** The criteria that carry a weight for a type are exactly the criteria
      the dashboard averages for it: the prompt and the score agree on
      which criteria apply. */
  lemma WeightedIffApplicable(t: PresentationType, c: Criterion)
    ensures WeightOf(t, c).Some? <==> c in CriteriaFor(t)
    ensures WeightOf(t, c).Some? ==> WeightOf(t, c).value > 0
  {
    AppliesIff(t, c);
  }

  /** The column totals as the table actually has them. The prompt states
      that each type's weights total 100; three columns do, but the
      FACE_PLUS_SCREEN column adds up to 110. */
  lemma ColumnTotals()
    ensures WeightSum(SlidesOnly, AllCriteria) == 100
    ensures WeightSum(VoiceOver, AllCriteria) == 100
    ensures WeightSum(FaceVisible, AllCriteria) == 100
    ensures WeightSum(FacePlusScreen, AllCriteria) == 110
  {
    assert AllCriteria[..8] == AllCriteria;
    assert AllCriteria[..0] == [];
    forall t: PresentationType
      ensures WeightSum(t, AllCriteria) == WeightSum(t, CriteriaFor(t))
    {
      ColumnOverApplicable(t, 8);
    }
    PrefixStep(SlidesOnly, 1);
    PrefixStep(SlidesOnly, 2);
    PrefixStep(SlidesOnly, 3);
    PrefixStep(VoiceOver, 1);
    PrefixStep(VoiceOver, 2);
    PrefixStep(VoiceOver, 3);
    PrefixStep(VoiceOver, 4);
    PrefixStep(FaceVisible, 1);
    PrefixStep(FaceVisible, 2);
    PrefixStep(FaceVisible, 3);
    PrefixStep(FaceVisible, 4);
    PrefixStep(FaceVisible, 5);
    PrefixStep(FaceVisible, 6);
    PrefixStep(FacePlusScreen, 1);
    PrefixStep(FacePlusScreen, 2);
    PrefixStep(FacePlusScreen, 3);
    PrefixStep(FacePlusScreen, 4);
    PrefixStep(FacePlusScreen, 5);
    PrefixStep(FacePlusScreen, 6);
    PrefixStep(FacePlusScreen, 7);
    PrefixStep(FacePlusScreen, 8);
  }

  lemma PrefixStep(t: PresentationType, k: nat)
    requires 0 < k <= |AllCriteria|
    ensures WeightSum(t, AllCriteria[..k]) == WeightSum(t, AllCriteria[..k - 1]) + WeightOf(t, AllCriteria[k - 1]).GetOr(0)
  {
    assert AllCriteria[..k][..k - 1] == AllCriteria[..k - 1];
  }

  /** Summing over the applicable list alone gives the same totals, because
      every criterion outside it has a dash. */
  lemma {:induction false} ColumnOverApplicable(t: PresentationType, k: nat)
    requires Richness(t) <= k <= |AllCriteria|
    ensures WeightSum(t, AllCriteria[..k]) == WeightSum(t, CriteriaFor(t))
    decreases k
  {
    if k > Richness(t) {
      var cs := AllCriteria[..k];
      assert cs[..|cs| - 1] == AllCriteria[..k - 1];
      AppliesIff(t, cs[|cs| - 1]);
      assert Position(cs[|cs| - 1]) == k - 1;
      ColumnOverApplicable(t, k - 1);
    }
  }
}
