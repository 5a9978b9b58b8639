/** The upload page's `sendFileToGemini`: the input guard, the request built
    from the data URL and the file's MIME type, the fold of the streamed
    reply into one text, parsing, and the write of the parsed record with the
    user's id. The AI service, `JSON.parse` and the document store are
    outside: their results are parameters. */
module EvaluatePage {
  import opened Wrappers
  import opened JsText
  import opened JsonValues
  import opened ResponseSchema
  import opened Records
  import opened Scoring
  import ResultPage
  import Dashboard

  /** The chosen file: its name and its declared MIME type (`File.type`). */
  datatype FileInfo = FileInfo(name: string, mimeType: string)

  /** The two user parts sent to the model: the inline media and the text. */
  datatype AiRequest = AiRequest(data: Option<string>, mimeType: string, instruction: string)

  const Prompt: string := "evaluate this "

  /** The request for a file whose content was read as a data URL. The
      media payload is `split(",")[1]` of the URL (absent when it has no
      comma); the instruction names `split("/")[1]` of the MIME type, which
      a template literal prints as "undefined" when there is no slash. */
  function ComposeRequest(file: FileInfo, content: string): (r: AiRequest)
    ensures r.data.None? <==> ',' !in content
    ensures r.data.Some? ==> ',' !in r.data.value
    ensures r.mimeType == file.mimeType
    ensures |Prompt| <= |r.instruction| && r.instruction[..|Prompt|] == Prompt
    ensures '/' !in r.instruction[|Prompt|..]
  {
    AiRequest(
      SecondField(content, ','),
      file.mimeType,
      Prompt + SecondField(file.mimeType, '/').GetOr("undefined"))
  }

  /** For a base64 data URL the payload sent is exactly the encoded bytes,
      and the instruction names the MIME subtype:
      `data:video/mp4;base64,XYZ` sends `XYZ` and "evaluate this mp4". */
  lemma RequestFromDataUrl(kind: string, subtype: string, payload: string, name: string)
    requires ',' !in kind && ',' !in subtype && ',' !in payload
    requires '/' !in kind && '/' !in subtype
    ensures
      var mime := kind + "/" + subtype;
      var req := ComposeRequest(FileInfo(name, mime), "data:" + mime + ";base64," + payload);
      && req.data == Some(payload)
      && req.mimeType == mime
      && req.instruction == Prompt + subtype
  {
    var mime := kind + "/" + subtype;
    var url := "data:" + mime + ";base64,";
    assert ',' !in url[..|url| - 1];
    assert "data:" + mime + ";base64," + payload == url[..|url| - 1] + [','] + payload + [];
    SecondFieldOf(url[..|url| - 1], payload, [], ',');
    assert mime == kind + ['/'] + subtype + [];
    SecondFieldOf(kind, subtype, [], '/');
  }

  /** A MIME type without a slash names "undefined" in the instruction. */
  lemma RequestWithoutSubtype(file: FileInfo, content: string)
    requires '/' !in file.mimeType
    ensures ComposeRequest(file, content).instruction == "evaluate this undefined"
  {
  }

  /** `chunk.text`, which may be undefined; `+=` then appends "undefined". */
  function ChunkText(chunk: Option<string>): string {
    chunk.GetOr("undefined")
  }

  /** The reply text: all chunks concatenated in arrival order, from "". */
  function Concat(chunks: seq<Option<string>>): string {
    if chunks == [] then "" else Concat(chunks[..|chunks| - 1]) + ChunkText(chunks[|chunks| - 1])
  }

  /** The reply is empty exactly when every chunk carried the empty text. */
  lemma {:induction false} ConcatEmptyIff(chunks: seq<Option<string>>)
    ensures Concat(chunks) == "" <==> forall i :: 0 <= i < |chunks| ==> chunks[i] == Some("")
    decreases |chunks|
  {
    if chunks != [] {
      var init := chunks[..|chunks| - 1];
      ConcatEmptyIff(init);
      assert forall i :: 0 <= i < |init| ==> init[i] == chunks[i];
      assert ChunkText(chunks[|chunks| - 1]) == "" <==> chunks[|chunks| - 1] == Some("");
    }
  }

  /** Folding a stream in two parts and joining the results is folding it
      whole: the text does not depend on how the reply was cut into chunks. */
  lemma {:induction false} ConcatAppend(a: seq<Option<string>>, b: seq<Option<string>>)
    ensures Concat(a + b) == Concat(a) + Concat(b)
    decreases |b|
  {
    if b == [] {
      assert a + b == a;
    } else {
      var b' := b[..|b| - 1];
      assert (a + b)[..|a + b| - 1] == a + b';
      assert (a + b)[|a + b| - 1] == b[|b| - 1];
      ConcatAppend(a, b');
      assert Concat(a + b) == Concat(a + b') + ChunkText(b[|b| - 1]);
    }
  }

  /** Each chunk's text appears whole, at its position, in the reply. */
  lemma {:induction false} ConcatContainsChunk(chunks: seq<Option<string>>, i: int)
    requires 0 <= i < |chunks|
    ensures
      var at := |Concat(chunks[..i])|;
      && at + |ChunkText(chunks[i])| <= |Concat(chunks)|
      && Concat(chunks)[at..at + |ChunkText(chunks[i])|] == ChunkText(chunks[i])
  {
    assert chunks == chunks[..i] + [chunks[i]] + chunks[i + 1..];
    ConcatAppend(chunks[..i] + [chunks[i]], chunks[i + 1..]);
    ConcatAppend(chunks[..i], [chunks[i]]);
    assert [chunks[i]][..0] == [];
  }

  /** The accumulation loop of `for await (const chunk of result)`. */
  method AssembleResponse(chunks: seq<Option<string>>) returns (text: string)
    ensures text == Concat(chunks)
  {
    text := "";
    var i := 0;
    while i < |chunks|
      invariant 0 <= i <= |chunks|
      invariant text == Concat(chunks[..i])
    {
      assert chunks[..i + 1][..i] == chunks[..i];
      text := text + ChunkText(chunks[i]);
      i := i + 1;
    }
    assert chunks[..i] == chunks;
  }

  /** The own enumerable properties an object spread copies out of a parsed
      value: an object's fields, a string's characters or an array's
      elements under their decimal indices, and nothing for other values. */
  function SpreadFields(j: Json): map<string, Json> {
    match j
    case JObject(o) => o
    case JString(s) =>
      IndexKeysInjective();
      map i: nat | i < |s| :: NatToDecimal(i) := JString([s[i]])
    case JArray(a) =>
      IndexKeysInjective();
      map i: nat | i < |a| :: NatToDecimal(i) := a[i]
    case _ => map[]
  }

  lemma IndexKeysInjective()
    ensures forall m: nat, n: nat :: NatToDecimal(m) == NatToDecimal(n) ==> m == n
  {
    forall m: nat, n: nat | NatToDecimal(m) == NatToDecimal(n)
      ensures m == n
    {
      NatToDecimalInjective(m, n);
    }
  }

  /** `{ ...parsedResponse, uid }`: the stored document. */
  function WithUid(j: Json, uid: string): (r: Json)
    ensures r.JObject? && "uid" in r.fields && r.fields["uid"] == JString(uid)
    ensures j.JObject? ==> r.fields.Keys == j.fields.Keys + {"uid"}
    ensures j.JObject? ==> forall k :: k in j.fields && k != "uid" ==> r.fields[k] == j.fields[k]
  {
    JObject(SpreadFields(j)["uid" := JString(uid)])
  }

  /** Adding the owner's id never changes what the record reads as. */
  lemma WithUidReadsTheSame(j: Json, uid: string)
    requires j.JObject?
    ensures Decode(WithUid(j, uid)) == Decode(j)
  {
    DecodeIgnoresExtraKey(j, "uid", JString(uid));
  }

  /** A reply that carries its own `id` key is stored with it, and the
      dashboard's card for the new document then links to that id rather
      than to the document's. */
  lemma ReplyIdOverridesLink(j: Json, uid: string, newId: string, x: string)
    requires j.JObject? && "id" in j.fields && j.fields["id"] == JString(x)
    requires Decode(j).Success?
    ensures Dashboard.Listable(WithUid(j, uid).fields)
    ensures Dashboard.Cards(Dashboard.Listing([(newId, WithUid(j, uid).fields)]))[0].href
         == Dashboard.ResultPath + x
  {
    WithUidReadsTheSame(j, uid);
    assert JObject(WithUid(j, uid).fields) == WithUid(j, uid);
    Dashboard.CardLinksByListedId([(newId, WithUid(j, uid).fields)], 0);
  }

  datatype PageState = PageState(
    selected: Option<FileInfo>,
    content: Option<string>,
    isLoading: bool,
    response: Option<Json>)

  /** The reply stream: the chunks delivered, and whether the call and the
      iteration finished without throwing. */
  datatype Reply = Reply(chunks: seq<Option<string>>, completes: bool)

  /** How a send ends. The source reports the first through a toast, lets
      the second and third escape as exceptions, and logs the fourth. */
  datatype Outcome =
    | InputMissing
    | UpstreamFailure
    | MalformedResponse
    | PersistenceFailure
    | Persisted(id: string)

  datatype Step = Step(
    outcome: Outcome,
    state: PageState,
    request: Option<AiRequest>,
    store: map<string, Json>,
    navigateTo: Option<string>)

  /** `!selectedFile || !fileContent`: no file, or no (or empty) content. */
  predicate MissingInput(st: PageState) {
    st.selected.None? || st.content.None? || st.content.value == ""
  }

  /** The upload button: disabled with no file or while a send is running. */
  predicate ButtonDisabled(st: PageState) {
    st.selected.None? || st.isLoading
  }

  /** `sendFileToGemini`. `parse` stands for `JSON.parse` (`None` when it
      throws); `uid` is the signed-in user's id, if any; `newId` is the id
      the store assigns; `writeOk` says whether the store accepts the write.
      The store refuses a document with an undefined field, so with no user
      the write fails. */
  function SendFileToGemini(
    st: PageState, reply: Reply, parse: string -> Option<Json>,
    uid: Option<string>, newId: string, writeOk: bool, store: map<string, Json>): (s: Step)
    ensures s.outcome == InputMissing <==> MissingInput(st)
    ensures s.outcome == InputMissing ==> s.state == st && s.request.None?
    ensures s.outcome != InputMissing ==>
      s.request == Some(ComposeRequest(st.selected.value, st.content.value))
    ensures s.outcome == UpstreamFailure <==> !MissingInput(st) && !reply.completes
    ensures s.outcome == MalformedResponse <==>
      !MissingInput(st) && reply.completes && parse(Concat(reply.chunks)).None?
    ensures s.outcome.Persisted? <==>
      !MissingInput(st) && reply.completes && parse(Concat(reply.chunks)).Some? && uid.Some? && writeOk
    ensures s.outcome.Persisted? ==>
      && s.outcome.id == newId
      && s.store == store[newId := WithUid(parse(Concat(reply.chunks)).value, uid.value)]
      && s.navigateTo == Some(Dashboard.ResultPath + newId)
    ensures !s.outcome.Persisted? ==> s.store == store && s.navigateTo.None?
    ensures s.outcome == PersistenceFailure || s.outcome.Persisted? ==>
      s.state.response == parse(Concat(reply.chunks))
    ensures s.outcome == UpstreamFailure || s.outcome == MalformedResponse ==>
      s.state.response == st.response
  {
    if MissingInput(st) then
      Step(InputMissing, st, None, store, None)
    else
      var request := ComposeRequest(st.selected.value, st.content.value);
      var loading := st.(isLoading := true);
      if !reply.completes then
        Step(UpstreamFailure, loading, Some(request), store, None)
      else
        match parse(Concat(reply.chunks))
        case None => Step(MalformedResponse, loading, Some(request), store, None)
        case Some(j) =>
          var shown := loading.(response := Some(j));
          if uid.Some? && writeOk then
            Step(Persisted(newId), shown.(isLoading := false), Some(request),
                 store[newId := WithUid(j, uid.value)], Some(Dashboard.ResultPath + newId))
          else
            Step(PersistenceFailure, shown.(isLoading := false), Some(request), store, None)
  }

  /** The loading flag: untouched when input is missing, left set when the
      stream or the parse throws, and cleared once the write was attempted,
      whether it succeeded or not. */
  lemma LoadingFlag(
    st: PageState, reply: Reply, parse: string -> Option<Json>,
    uid: Option<string>, newId: string, writeOk: bool, store: map<string, Json>)
    ensures
      var s := SendFileToGemini(st, reply, parse, uid, newId, writeOk, store);
      && (s.outcome == InputMissing ==> s.state.isLoading == st.isLoading)
      && (s.outcome == UpstreamFailure || s.outcome == MalformedResponse ==> s.state.isLoading)
      && (s.outcome == PersistenceFailure || s.outcome.Persisted? ==> !s.state.isLoading)
  {
  }

  /** After the stream or the parse throws the flag stays set, so the button
      stays disabled: the page cannot send again until it is reloaded. */
  lemma StuckAfterThrow(
    st: PageState, reply: Reply, parse: string -> Option<Json>,
    uid: Option<string>, newId: string, writeOk: bool, store: map<string, Json>)
    requires
      var s := SendFileToGemini(st, reply, parse, uid, newId, writeOk, store);
      s.outcome == UpstreamFailure || s.outcome == MalformedResponse
    ensures ButtonDisabled(SendFileToGemini(st, reply, parse, uid, newId, writeOk, store).state)
  {
  }

  /** Nothing is written unless the whole reply arrived and parsed, and what
      is written is the parsed value as it is, with no shape check. */
  lemma WriteOnlyAfterParse(
    st: PageState, reply: Reply, parse: string -> Option<Json>,
    uid: Option<string>, newId: string, writeOk: bool, store: map<string, Json>)
    requires SendFileToGemini(st, reply, parse, uid, newId, writeOk, store).store != store
    ensures reply.completes && parse(Concat(reply.chunks)).Some? && uid.Some?
    ensures SendFileToGemini(st, reply, parse, uid, newId, writeOk, store).store[newId]
      == WithUid(parse(Concat(reply.chunks)).value, uid.value)
  {
  }

  /** Persisting and then opening the result page for the new id loads the
      stored document, which reads as the parsed record, shows the same
      overall score the scoring engine gives it, and is listed on the
      owner's dashboard. */
  lemma PersistThenView(
    st: PageState, reply: Reply, parse: string -> Option<Json>,
    uid: Option<string>, newId: string, writeOk: bool, store: map<string, Json>)
    requires newId != ""
    requires SendFileToGemini(st, reply, parse, uid, newId, writeOk, store).outcome.Persisted?
    requires Decode(parse(Concat(reply.chunks)).value).Success?
    ensures
      var j := parse(Concat(reply.chunks)).value;
      var s := SendFileToGemini(st, reply, parse, uid, newId, writeOk, store);
      var page := ResultPage.FetchEvaluation(Some(newId), s.store, false).state;
      && page.record == Some(WithUid(j, uid.value))
      && ResultPage.Readable(page)
      && ResultPage.Shown(page) == Some(Decode(j).value)
      && ResultPage.PageOverallScore(page) == OverallScore(Decode(j).value.evaluation, Decode(j).value.kind)
      && newId in Dashboard.OwnedIds(s.store, uid.value)
  {
    var j := parse(Concat(reply.chunks)).value;
    assert j.JObject?;
    WithUidReadsTheSame(j, uid.value);
  }
}
