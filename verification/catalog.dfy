/** The criteria catalog: the four presentation types, the eight criteria,
    their wire names, and the list of criteria that apply to each type
    (`getEvaluationCriteria` in the dashboard). */
module Catalog {
  import opened Wrappers

  /** The recording's modality. Closed: the `default` branch of the source's
      `switch` has no counterpart, so every match here is exhaustive. */
  datatype PresentationType = SlidesOnly | VoiceOver | FaceVisible | FacePlusScreen

  datatype Criterion =
    | ContentQuality
    | SlideDesign
    | StructureFlow
    | VoiceClarityDelivery
    | EngagementExpression
    | BodyLanguage
    | VisualEngagement
    | TechnicalQuality

  /** The string each type is written as in a record's `type` field. */
  function TypeName(t: PresentationType): string {
    match t
    case SlidesOnly => "SLIDES_ONLY"
    case VoiceOver => "VOICE_OVER"
    case FaceVisible => "FACE_VISIBLE"
    case FacePlusScreen => "FACE_PLUS_SCREEN"
  }

  /** The key each criterion is stored under in a record's `evaluation` object. */
  function CriterionKey(c: Criterion): string {
    match c
    case ContentQuality => "CONTENT_QUALITY"
    case SlideDesign => "SLIDE_DESIGN"
    case StructureFlow => "STRUCTURE_FLOW"
    case VoiceClarityDelivery => "VOICE_CLARITY_DELIVERY"
    case EngagementExpression => "ENGAGEMENT_EXPRESSION"
    case BodyLanguage => "BODY_LANGUAGE"
    case VisualEngagement => "VISUAL_ENGAGEMENT"
    case TechnicalQuality => "TECHNICAL_QUALITY"
  }

  /** Reads a `type` string; anything outside the four names is rejected. */
  function ParseType(s: string): (r: Option<PresentationType>)
    ensures r.Some? ==> TypeName(r.value) == s
    ensures forall t :: TypeName(t) == s ==> r == Some(t)
  {
    if s == "SLIDES_ONLY" then Some(SlidesOnly)
    else if s == "VOICE_OVER" then Some(VoiceOver)
    else if s == "FACE_VISIBLE" then Some(FaceVisible)
    else if s == "FACE_PLUS_SCREEN" then Some(FacePlusScreen)
    else None
  }

  /** Reads an `evaluation` key; anything outside the eight keys is rejected. */
  function ParseCriterion(s: string): (r: Option<Criterion>)
    ensures r.Some? ==> CriterionKey(r.value) == s
    ensures forall c :: CriterionKey(c) == s ==> r == Some(c)
  {
    if s == "CONTENT_QUALITY" then Some(ContentQuality)
    else if s == "SLIDE_DESIGN" then Some(SlideDesign)
    else if s == "STRUCTURE_FLOW" then Some(StructureFlow)
    else if s == "VOICE_CLARITY_DELIVERY" then Some(VoiceClarityDelivery)
    else if s == "ENGAGEMENT_EXPRESSION" then Some(EngagementExpression)
    else if s == "BODY_LANGUAGE" then Some(BodyLanguage)
    else if s == "VISUAL_ENGAGEMENT" then Some(VisualEngagement)
    else if s == "TECHNICAL_QUALITY" then Some(TechnicalQuality)
    else None
  }

  /** Distinct criteria have distinct keys, so a map keyed by criterion and
      an object keyed by string carry the same information. */
  lemma CriterionKeyInjective(c: Criterion, d: Criterion)
    ensures CriterionKey(c) == CriterionKey(d) ==> c == d
  {
    if CriterionKey(c) == CriterionKey(d) {
      assert ParseCriterion(CriterionKey(c)) == Some(c);
    }
  }

  /** The eight criteria in declaration order of the `Evaluation` interface. */
  const AllCriteria: seq<Criterion> := [
    ContentQuality, SlideDesign, StructureFlow, VoiceClarityDelivery,
    EngagementExpression, BodyLanguage, VisualEngagement, TechnicalQuality
  ]

  /** How many catalog entries each type uses: the types form a chain of
      increasingly rich modalities. */
  function Richness(t: PresentationType): nat {
    match t
    case SlidesOnly => 3
    case VoiceOver => 4
    case FaceVisible => 6
    case FacePlusScreen => 8
  }

  /** `getEvaluationCriteria(type)`: the criteria shown and averaged for a type. */
  function CriteriaFor(t: PresentationType): (r: seq<Criterion>)
    ensures |r| == Richness(t) && r == AllCriteria[..Richness(t)]
  {
    match t
    case SlidesOnly => [ContentQuality, SlideDesign, StructureFlow]
    case VoiceOver => [ContentQuality, SlideDesign, StructureFlow, VoiceClarityDelivery]
    case FaceVisible =>
      [ContentQuality, SlideDesign, StructureFlow, VoiceClarityDelivery,
       EngagementExpression, BodyLanguage]
    case FacePlusScreen =>
      [ContentQuality, SlideDesign, StructureFlow, VoiceClarityDelivery,
       EngagementExpression, BodyLanguage, VisualEngagement, TechnicalQuality]
  }

  predicate NoDuplicates<T(==)>(s: seq<T>) {
    forall i, j :: 0 <= i < j < |s| ==> s[i] != s[j]
  }

  /** Each list is a prefix of every richer type's list, so the richer type
      uses every criterion of the poorer one, in the same order. */
  lemma CriteriaNested(t: PresentationType, u: PresentationType)
    requires Richness(t) <= Richness(u)
    ensures CriteriaFor(t) <= CriteriaFor(u)
    ensures forall c :: c in CriteriaFor(t) ==> c in CriteriaFor(u)
  {
    assert CriteriaFor(t) == CriteriaFor(u)[..Richness(t)];
  }

  lemma AllCriteriaDistinct()
    ensures NoDuplicates(AllCriteria)
    ensures forall c: Criterion :: c in AllCriteria
  {
    forall c: Criterion
      ensures c in AllCriteria
    {
      assert AllCriteria[Position(c)] == c;
    }
  }

  /** No type lists a criterion twice, every type lists at least one (so the
      average is never `0/0`), and the richest type lists all eight. */
  lemma CriteriaWellFormed(t: PresentationType)
    ensures NoDuplicates(CriteriaFor(t))
    ensures |CriteriaFor(t)| > 0
    ensures forall c: Criterion :: c in CriteriaFor(FacePlusScreen)
  {
    AllCriteriaDistinct();
  }

  /** Membership of one criterion, as a position threshold in the chain. */
  function Position(c: Criterion): (p: nat)
    ensures p < |AllCriteria| && AllCriteria[p] == c
  {
    match c
    case ContentQuality => 0
    case SlideDesign => 1
    case StructureFlow => 2
    case VoiceClarityDelivery => 3
    case EngagementExpression => 4
    case BodyLanguage => 5
    case VisualEngagement => 6
    case TechnicalQuality => 7
  }

  /** A criterion applies to a type exactly when its place in the catalog
      is below the type's richness. */
  lemma AppliesIff(t: PresentationType, c: Criterion)
    ensures c in CriteriaFor(t) <==> Position(c) < Richness(t)
  {
    AllCriteriaDistinct();
    if c in CriteriaFor(t) {
      var i :| 0 <= i < |CriteriaFor(t)| && CriteriaFor(t)[i] == c;
      assert AllCriteria[i] == AllCriteria[Position(c)];
    }
  }
}
