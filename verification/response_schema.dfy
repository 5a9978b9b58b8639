/** The output contract requested from the AI (`config.responseSchema` in
    `evaluateVideo.ts`), read as a predicate on decoded JSON, and the reading
    of a conforming document as a `Presentation` record.

    The schema is only a request to the AI: nothing in the application checks
    a response against it. Its `score` properties are plain numbers with no
    bounds, and the per-criterion objects list no required properties. */
module ResponseSchema {
  import opened Wrappers
  import opened Catalog
  import opened JsonValues
  import opened Records

  /** The schema's top-level `required` list. */
  const RequiredKeys: seq<string> :=
    ["title", "summary", "type", "evaluation", "overallFeedback", "error"]

  predicate StringAt(o: map<string, Json>, k: string) {
    k in o && o[k].JString?
  }

  /** A declared but not required property: absent, or of the declared type. */
  predicate OptionalStringAt(o: map<string, Json>, k: string) {
    k !in o || o[k].JString?
  }

  predicate OptionalNumberAt(o: map<string, Json>, k: string) {
    k !in o || o[k].JNumber?
  }

  /** A criterion object: `score` a NUMBER and `feedback` a STRING, neither required. */
  predicate CriterionConforms(v: Json) {
    v.JObject? && OptionalNumberAt(v.fields, "score") && OptionalStringAt(v.fields, "feedback")
  }

  /** The `evaluation` object: all eight criterion keys required. */
  predicate EvaluationConforms(v: Json) {
    && v.JObject?
    && forall c: Criterion :: CriterionKey(c) in v.fields && CriterionConforms(v.fields[CriterionKey(c)])
  }

  /** The `error` object: a required boolean `isError`, an optional string `message`. */
  predicate ErrorConforms(v: Json) {
    && v.JObject?
    && "isError" in v.fields && v.fields["isError"].JBool?
    && OptionalStringAt(v.fields, "message")
  }

  predicate Conforms(j: Json)
    ensures Conforms(j) ==> j.JObject? && forall k :: k in RequiredKeys ==> k in j.fields
  {
    && j.JObject?
    && StringAt(j.fields, "title")
    && StringAt(j.fields, "summary")
    && StringAt(j.fields, "type") && ParseType(j.fields["type"].s).Some?
    && "evaluation" in j.fields && EvaluationConforms(j.fields["evaluation"])
    && StringAt(j.fields, "overallFeedback")
    && "error" in j.fields && ErrorConforms(j.fields["error"])
  }

  /** A conforming document has every required key, and `type` is one of
      exactly the four names. */
  lemma ConformsRequires(j: Json)
    requires Conforms(j)
    ensures forall i :: 0 <= i < |RequiredKeys| ==> RequiredKeys[i] in j.fields
    ensures exists t :: j.fields["type"] == JString(TypeName(t))
  {
    var t := ParseType(j.fields["type"].s).value;
    assert j.fields["type"] == JString(TypeName(t));
  }

  /** Removing any one required key breaks conformance. */
  lemma {:induction false} EachRequiredKeyNeeded(j: Json, k: string)
    requires j.JObject? && k in RequiredKeys
    ensures !Conforms(JObject(j.fields - {k}))
  {
  }

  /** Only the six required keys matter: dropping every other key (such as
      the `uid` added on persistence) keeps a document conforming. */
  lemma RequiredKeysSuffice(j: Json)
    requires Conforms(j)
    ensures Conforms(JObject(map k | k in j.fields && k in RequiredKeys :: j.fields[k]))
  {
  }

  /** Extra top-level keys never affect conformance. */
  lemma ExtraKeyKeepsConformance(j: Json, k: string, v: Json)
    requires j.JObject? && k !in RequiredKeys
    ensures Conforms(JObject(j.fields[k := v])) <==> Conforms(j)
  {
    var o := j.fields;
    var o' := o[k := v];
    forall r | r in RequiredKeys
      ensures (r in o' <==> r in o) && (r in o ==> o'[r] == o[r])
    {
    }
  }

  /** Reading a document ignores keys outside the six required ones, so the
      `uid` added on persistence does not change the record read back. */
  lemma DecodeIgnoresExtraKey(j: Json, k: string, v: Json)
    requires j.JObject? && k !in RequiredKeys
    ensures Decode(JObject(j.fields[k := v])) == Decode(j)
  {
    var o := j.fields;
    var o' := o[k := v];
    assert forall r | r in RequiredKeys :: (r in o' <==> r in o) && (r in o ==> o'[r] == o[r]);
  }

  /** A criterion object that carries both properties the record needs. */
  predicate CriterionReadable(v: Json) {
    && CriterionConforms(v)
    && "score" in v.fields && "feedback" in v.fields
  }

  predicate ScoresPresent(j: Json)
    requires Conforms(j)
  {
    forall c: Criterion :: CriterionReadable(j.fields["evaluation"].fields[CriterionKey(c)])
  }

  datatype DecodeError = Malformed(field: string)

  function ReadCriterion(v: Json): CriterionResult
    requires CriterionReadable(v)
  {
    CriterionResult(v.fields["score"].n, v.fields["feedback"].s)
  }

  function ReadError(v: Json): ErrorInfo
    requires ErrorConforms(v)
  {
    ErrorInfo(
      v.fields["isError"].b,
      if "message" in v.fields then Some(v.fields["message"].s) else None)
  }

  /** Reads a decoded response as a `Presentation`: the schema's checks, plus
      the presence of `score` and `feedback` that the record type assumes. */
  function Decode(j: Json): (r: Result<Presentation, DecodeError>)
    ensures r.Success? <==> Conforms(j) && ScoresPresent(j)
    ensures r.Success? ==>
      && Complete(r.value)
      && j.fields["title"] == JString(r.value.title)
      && j.fields["summary"] == JString(r.value.summary)
      && j.fields["type"] == JString(TypeName(r.value.kind))
      && j.fields["overallFeedback"] == JString(r.value.overallFeedback)
      && j.fields["error"].fields["isError"] == JBool(r.value.error.isError)
      && ("message" in j.fields["error"].fields <==> r.value.error.message.Some?)
      && (r.value.error.message.Some? ==>
            j.fields["error"].fields["message"] == JString(r.value.error.message.value))
      && (forall c: Criterion ::
            var v := j.fields["evaluation"].fields[CriterionKey(c)];
            v.fields["score"] == JNumber(r.value.evaluation[c].score)
            && v.fields["feedback"] == JString(r.value.evaluation[c].feedback))
  {
    if !j.JObject? then Failure(Malformed(""))
    else
      var o := j.fields;
      if !StringAt(o, "title") then Failure(Malformed("title"))
      else if !StringAt(o, "summary") then Failure(Malformed("summary"))
      else if !StringAt(o, "type") || ParseType(o["type"].s).None? then Failure(Malformed("type"))
      else if !("evaluation" in o && o["evaluation"].JObject?) then Failure(Malformed("evaluation"))
      else if !StringAt(o, "overallFeedback") then Failure(Malformed("overallFeedback"))
      else if !("error" in o && ErrorConforms(o["error"])) then Failure(Malformed("error"))
      else
        var ev := o["evaluation"].fields;
        if exists c | c in AllCriteria :: !(CriterionKey(c) in ev && CriterionReadable(ev[CriterionKey(c)])) then
          AllCriteriaDistinct();
          Failure(Malformed("evaluation"))
        else
          AllCriteriaDistinct();
          Success(Presentation(
            o["title"].s,
            o["summary"].s,
            ParseType(o["type"].s).value,
            map c | c in AllCriteria :: ReadCriterion(ev[CriterionKey(c)]),
            o["overallFeedback"].s,
            ReadError(o["error"])))
  }

  function EncodeCriterion(r: CriterionResult): Json {
    JObject(map["score" := JNumber(r.score), "feedback" := JString(r.feedback)])
  }

  function EncodeError(e: ErrorInfo): Json {
    match e.message
    case None => JObject(map["isError" := JBool(e.isError)])
    case Some(m) => JObject(map["isError" := JBool(e.isError), "message" := JString(m)])
  }

  function EncodeEvaluation(ev: map<Criterion, CriterionResult>): Json {
    AllKeysInjective();
    JObject(map c | c in ev :: CriterionKey(c) := EncodeCriterion(ev[c]))
  }

  lemma AllKeysInjective()
    ensures forall c: Criterion, d: Criterion :: CriterionKey(c) == CriterionKey(d) ==> c == d
  {
    forall c: Criterion, d: Criterion
      ensures CriterionKey(c) == CriterionKey(d) ==> c == d
    {
      CriterionKeyInjective(c, d);
    }
  }

  /** A record as the AI is asked to emit it (and as it is stored). */
  function Encode(p: Presentation): Json {
    JObject(map[
      "title" := JString(p.title),
      "summary" := JString(p.summary),
      "type" := JString(TypeName(p.kind)),
      "evaluation" := EncodeEvaluation(p.evaluation),
      "overallFeedback" := JString(p.overallFeedback),
      "error" := EncodeError(p.error)])
  }

  lemma EncodeEvaluationAt(ev: map<Criterion, CriterionResult>, c: Criterion)
    requires c in ev
    ensures EncodeEvaluation(ev).JObject?
    ensures CriterionKey(c) in EncodeEvaluation(ev).fields
    ensures EncodeEvaluation(ev).fields[CriterionKey(c)] == EncodeCriterion(ev[c])
  {
    AllKeysInjective();
  }

  lemma EncodeFields(p: Presentation)
    ensures
      var o := Encode(p).fields;
      && o["title"] == JString(p.title)
      && o["summary"] == JString(p.summary)
      && o["type"] == JString(TypeName(p.kind))
      && o["evaluation"] == EncodeEvaluation(p.evaluation)
      && o["overallFeedback"] == JString(p.overallFeedback)
      && o["error"] == EncodeError(p.error)
  {
    assert |"title"| == 5 && |"summary"| == 7 && |"type"| == 4;
    assert |"evaluation"| == 10 && |"overallFeedback"| == 15 && |"error"| == 5;
    assert "title"[0] != "error"[0];
  }

  /** Every complete record, whatever its scores, can be emitted as a
      conforming response: the schema sets no bound on `score`. */
  lemma EncodeConforms(p: Presentation)
    requires Complete(p)
    ensures Conforms(Encode(p)) && ScoresPresent(Encode(p))
  {
    EncodeFields(p);
    var ev := EncodeEvaluation(p.evaluation);
    forall c: Criterion
      ensures CriterionKey(c) in ev.fields && CriterionReadable(ev.fields[CriterionKey(c)])
    {
      EncodeEvaluationAt(p.evaluation, c);
    }
    assert EvaluationConforms(ev);
    assert ErrorConforms(EncodeError(p.error));
  }

  /** Writing a complete record out and reading it back gives the same record. */
  lemma DecodeEncode(p: Presentation)
    requires Complete(p)
    ensures Decode(Encode(p)) == Success(p)
  {
    EncodeConforms(p);
    EncodeFields(p);
    var r := Decode(Encode(p));
    assert r.Success?;
    var q := r.value;
    assert ParseType(TypeName(q.kind)) == Some(q.kind);
    assert q.kind == p.kind;
    forall c: Criterion
      ensures q.evaluation[c] == p.evaluation[c]
    {
      EncodeEvaluationAt(p.evaluation, c);
    }
    assert q.evaluation == p.evaluation;
    assert q.error == p.error;
  }

  /** The schema admits a criterion object with neither `score` nor
      `feedback`; such a response conforms but cannot be read as a record. */
  lemma EmptyCriterionConformsButUnreadable(p: Presentation, c: Criterion)
    requires Complete(p)
    ensures
      var j := Encode(p);
      var ev := j.fields["evaluation"];
      var j' := JObject(j.fields["evaluation" := JObject(ev.fields[CriterionKey(c) := JObject(map[])])]);
      Conforms(j') && Decode(j').Failure?
  {
    EncodeConforms(p);
    var j := Encode(p);
    var ev := j.fields["evaluation"];
    var ev' := JObject(ev.fields[CriterionKey(c) := JObject(map[])]);
    var j' := JObject(j.fields["evaluation" := ev']);
    forall d: Criterion
      ensures CriterionKey(d) in ev'.fields && CriterionConforms(ev'.fields[CriterionKey(d)])
    {
    }
    assert Conforms(j');
    assert !CriterionReadable(ev'.fields[CriterionKey(c)]);
  }
}
