/** The result page: reading one stored evaluation by the `evId` query
    parameter, the overall score it shows, which cards it shows, and the
    per-criterion breakdown. The page carries its own copy of the criteria
    table. */
module ResultPage {
  import opened Wrappers
  import opened Catalog
  import opened JsonValues
  import opened Records
  import opened ResponseSchema
  import opened Scoring
  import opened Labels

  /** This page's copy of `getEvaluationCriteria`. */
  function PageCriteria(t: PresentationType): (r: seq<Criterion>)
    ensures r == CriteriaFor(t)
  {
    match t
    case SlidesOnly => [ContentQuality, SlideDesign, StructureFlow]
    case VoiceOver => [ContentQuality, SlideDesign, StructureFlow, VoiceClarityDelivery]
    case FaceVisible =>
      [ContentQuality, SlideDesign, StructureFlow, VoiceClarityDelivery,
       EngagementExpression, BodyLanguage]
    case FacePlusScreen =>
      [ContentQuality, SlideDesign, StructureFlow, VoiceClarityDelivery,
       EngagementExpression, BodyLanguage, VisualEngagement, TechnicalQuality]
  }

  /** The copy agrees with the dashboard's table for every type. */
  lemma PageCriteriaAgree(t: PresentationType)
    ensures PageCriteria(t) == CriteriaFor(t)
  {
  }

  const NoIdMessage: string := "No evaluation ID provided"
  const NotFoundMessage: string := "Evaluation not found"
  const ReadFailedMessage: string := "Failed to fetch evaluation data"

  datatype PageState = PageState(isLoading: bool, record: Option<Json>, fetchError: Option<string>)

  /** The outcome of the page's one read, and which key it read, if any. */
  datatype Fetched = Fetched(readKey: Option<string>, state: PageState)

  /** `fetchEvaluation`. `evId` is the query parameter (`null` when absent);
      `readFails` stands for the document read throwing. */
  function FetchEvaluation(evId: Option<string>, store: map<string, Json>, readFails: bool): (f: Fetched)
    ensures !f.state.isLoading
    ensures f.readKey.None? <==> evId.None? || evId.value == ""
    ensures f.readKey.Some? ==> f.readKey == evId
    ensures f.readKey.None? ==> f.state == PageState(false, None, Some(NoIdMessage))
    ensures f.state.record.Some? <==> f.readKey.Some? && !readFails && evId.value in store
    ensures f.state.record.Some? ==> f.state.record.value == store[evId.value]
    ensures f.state.record.Some? <==> f.state.fetchError.None?
    ensures f.readKey.Some? && readFails ==> f.state.fetchError == Some(ReadFailedMessage)
    ensures f.readKey.Some? && !readFails && evId.value !in store ==>
      f.state.fetchError == Some(NotFoundMessage) && f.state.record.None?
  {
    match evId
    case None => Fetched(None, PageState(false, None, Some(NoIdMessage)))
    case Some(id) =>
      if id == "" then Fetched(None, PageState(false, None, Some(NoIdMessage)))
      else if readFails then Fetched(Some(id), PageState(false, None, Some(ReadFailedMessage)))
      else if id in store then Fetched(Some(id), PageState(false, Some(store[id]), None))
      else Fetched(Some(id), PageState(false, None, Some(NotFoundMessage)))
  }

  /** The page reads its document as a `Presentation` without checking it;
      the views below need that reading to succeed. */
  predicate Readable(st: PageState) {
    st.record.Some? ==> Decode(st.record.value).Success?
  }

  function Shown(st: PageState): Option<Presentation>
    requires Readable(st)
  {
    if st.record.Some? then Some(Decode(st.record.value).value) else None
  }

  /** The inline `overallScore`: the rounded mean over this page's criteria
      list when a record is loaded, and 0 otherwise. */
  function PageOverallScore(st: PageState): (r: int)
    requires Readable(st)
    ensures st.record.None? ==> r == 0
    ensures st.record.Some? ==> r == OverallScore(Shown(st).value.evaluation, Shown(st).value.kind)
  {
    match Shown(st)
    case None => 0
    case Some(p) =>
      PageCriteriaAgree(p.kind);
      RoundedMean(SumScores(p.evaluation, PageCriteria(p.kind)), |PageCriteria(p.kind)|)
  }

  predicate ShowsLoading(st: PageState) { st.isLoading }

  /** `fetchError && …`: an empty message would show no card. */
  predicate ShowsFetchError(st: PageState)
    ensures st.fetchError in {Some(NoIdMessage), Some(NotFoundMessage), Some(ReadFailedMessage)} ==> ShowsFetchError(st)
    ensures st.fetchError.None? ==> !ShowsFetchError(st)
  {
    st.fetchError.Some? && st.fetchError.value != ""
  }

  /** `error.isError` of a stored document, as the two record views read
      it without checking the rest: present when `error` is an object with a
      boolean `isError`. It does not need the criteria to be readable. */
  function ErrorFlag(j: Json): (r: Option<bool>)
    ensures r.Some? ==>
      && j.JObject? && "error" in j.fields && j.fields["error"].JObject?
      && "isError" in j.fields["error"].fields
      && j.fields["error"].fields["isError"] == JBool(r.value)
    ensures Conforms(j) ==> r.Some?
    ensures Decode(j).Success? ==> r == Some(Decode(j).value.error.isError)
  {
    if && j.JObject? && "error" in j.fields && j.fields["error"].JObject?
       && "isError" in j.fields["error"].fields && j.fields["error"].fields["isError"].JBool?
    then Some(j.fields["error"].fields["isError"].b)
    else None
  }

  /** The loaded document, if any, carries the flag the record views test;
      without it the page's expressions throw. */
  predicate FlagReadable(st: PageState) {
    st.record.Some? ==> ErrorFlag(st.record.value).Some?
  }

  /** `evaluationResponse && !evaluationResponse.error.isError` */
  predicate ShowsResults(st: PageState)
    requires FlagReadable(st)
    ensures ShowsResults(st) ==> st.record.Some?
    ensures Readable(st) && st.record.Some? ==> (ShowsResults(st) <==> !Shown(st).value.error.isError)
  {
    st.record.Some? && !ErrorFlag(st.record.value).value
  }

  /** `evaluationResponse?.error.isError` */
  predicate ShowsEvaluationError(st: PageState)
    requires FlagReadable(st)
    ensures ShowsEvaluationError(st) ==> st.record.Some?
    ensures Readable(st) && st.record.Some? ==> (ShowsEvaluationError(st) <==> Shown(st).value.error.isError)
  {
    st.record.Some? && ErrorFlag(st.record.value).value
  }

  /** The criteria whose entries the page reads on every render, for the
      inline overall score and the breakdown: the type's list when `type`
      names one of the four types, and none otherwise, since the switch's
      default branch lists no keys. */
  function ListedCriteria(j: Json): (r: seq<Criterion>)
    ensures r != [] ==> j.JObject? && "type" in j.fields && j.fields["type"].JString?
    ensures Decode(j).Success? ==> r == CriteriaFor(Decode(j).value.kind)
  {
    if && j.JObject? && "type" in j.fields && j.fields["type"].JString?
       && ParseType(j.fields["type"].s).Some?
    then CriteriaFor(ParseType(j.fields["type"].s).value)
    else []
  }

  /** `evaluation[key].score` does not throw: `evaluation` is an object
      with a non-null value under the criterion's key. */
  predicate EntryReadable(j: Json, c: Criterion) {
    && j.JObject? && "evaluation" in j.fields && j.fields["evaluation"].JObject?
    && CriterionKey(c) in j.fields["evaluation"].fields
    && j.fields["evaluation"].fields[CriterionKey(c)] != JNull
  }

  /** A document the page renders without throwing: it carries the flag
      both views test, every listed criterion's entry can be read, and when
      the results view shows, `formatParameterName(type)` gets a string. */
  predicate Renders(j: Json) {
    && ErrorFlag(j).Some?
    && (forall c :: c in ListedCriteria(j) ==> EntryReadable(j, c))
    && (!ErrorFlag(j).value ==> "type" in j.fields && j.fields["type"].JString?)
  }

  predicate Renderable(st: PageState) {
    st.record.Some? ==> Renders(st.record.value)
  }

  /** Every reply that conforms to the schema renders, whether or not its
      criterion objects carry score and feedback. */
  lemma ConformingRenders(j: Json)
    requires Conforms(j)
    ensures Renders(j)
  {
    forall c | c in ListedCriteria(j)
      ensures EntryReadable(j, c)
    {
      assert CriterionConforms(j.fields["evaluation"].fields[CriterionKey(c)]);
    }
  }

  /** A document that reads as a record renders, and so carries the flag. */
  lemma ReadableRenders(st: PageState)
    requires Readable(st)
    ensures Renderable(st) && FlagReadable(st)
  {
    if st.record.Some? {
      ConformingRenders(st.record.value);
    }
  }

  /** A flagged document whose type lists criteria it does not hold throws
      while the inline overall score is computed, before any card shows. */
  lemma MissingCriterionThrows()
    ensures
      var j := JObject(map[
        "type" := JString("SLIDES_ONLY"),
        "evaluation" := JObject(map[]),
        "error" := JObject(map["isError" := JBool(true)])]);
      ErrorFlag(j) == Some(true) && !Renders(j)
  {
    var j := JObject(map[
      "type" := JString("SLIDES_ONLY"),
      "evaluation" := JObject(map[]),
      "error" := JObject(map["isError" := JBool(true)])]);
    assert ParseType("SLIDES_ONLY") == Some(SlidesOnly);
    assert ContentQuality in ListedCriteria(j);
    assert !EntryReadable(j, ContentQuality);
  }

  /** Once a document that renders is loaded, exactly one of the results
      view and the evaluation-error card shows; before that, neither. After
      a fetch the fetch-error card shows exactly when nothing was loaded. */
  lemma ResultsXorError(evId: Option<string>, store: map<string, Json>, readFails: bool)
    requires Renderable(FetchEvaluation(evId, store, readFails).state)
    ensures
      var st := FetchEvaluation(evId, store, readFails).state;
      && !(ShowsResults(st) && ShowsEvaluationError(st))
      && (st.record.Some? <==> ShowsResults(st) || ShowsEvaluationError(st))
      && (ShowsFetchError(st) <==> st.record.None?)
      && !ShowsLoading(st)
  {
  }

  /** A reply flagged as failed whose criterion object lacks score and
      feedback, as the schema admits, still loads and shows the
      evaluation-error card, though it does not read as a record. */
  lemma ErrorCardForUnreadableReply(p: Presentation, c: Criterion, id: string)
    requires Complete(p) && p.error.isError && id != ""
    ensures
      var j := Encode(p);
      var j' := JObject(j.fields["evaluation" := JObject(j.fields["evaluation"].fields[CriterionKey(c) := JObject(map[])])]);
      var st := FetchEvaluation(Some(id), map[id := j'], false).state;
      && Renderable(st) && ShowsEvaluationError(st) && !ShowsResults(st)
      && !Readable(st)
  {
    EmptyCriterionConformsButUnreadable(p, c);
    DecodeEncode(p);
    var j := Encode(p);
    ConformingRenders(JObject(j.fields["evaluation" := JObject(j.fields["evaluation"].fields[CriterionKey(c) := JObject(map[])])]));
  }

  /** One card of the detailed breakdown. */
  datatype BreakdownItem = BreakdownItem(
    criterion: Criterion,
    heading: string,
    score: int,
    feedback: string,
    variant: Variant,
    color: Option<string>)

  function ItemFor(p: Presentation, c: Criterion): BreakdownItem
    requires c in p.evaluation
  {
    var r := p.evaluation[c];
    BreakdownItem(c, FormatParameterName(CriterionKey(c)), r.score, r.feedback,
                  ScoreVariant(r.score), ScoreColor(r.score))
  }

  /** The breakdown lists the criteria of the record's type, in catalog
      order, each once, with that criterion's own score and feedback. */
  function Breakdown(p: Presentation): (r: seq<BreakdownItem>)
    requires Covers(p.evaluation, p.kind)
    ensures |r| == |CriteriaFor(p.kind)|
    ensures forall i :: 0 <= i < |r| ==> r[i].criterion == CriteriaFor(p.kind)[i]
    ensures forall c :: (exists i :: 0 <= i < |r| && r[i].criterion == c) <==> c in CriteriaFor(p.kind)
    ensures forall i, j :: 0 <= i < j < |r| ==> r[i].criterion != r[j].criterion
    ensures forall i :: 0 <= i < |r| ==>
      r[i].score == p.evaluation[r[i].criterion].score && r[i].feedback == p.evaluation[r[i].criterion].feedback
  {
    PageCriteriaAgree(p.kind);
    CriteriaWellFormed(p.kind);
    var cs := PageCriteria(p.kind);
    var r := seq(|cs|, i requires 0 <= i < |cs| => ItemFor(p, cs[i]));
    assert forall c :: c in cs ==> r[Position(c)].criterion == c by {
      forall c | c in cs
        ensures r[Position(c)].criterion == c
      {
        AppliesIff(p.kind, c);
      }
    }
    r
  }
}
