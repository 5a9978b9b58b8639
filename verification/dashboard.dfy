/** The dashboard's list of evaluation cards: every stored record of the
    signed-in user is scored and banded, including records whose
    `error.isError` is set. */
module Dashboard {
  import opened Wrappers
  import opened Catalog
  import opened JsonValues
  import opened Records
  import opened ResponseSchema
  import opened Scoring
  import opened Labels

  const ResultPath: string := "/dashboard/evaluate/result?evId="

  /** What one card shows, and where clicking it leads. */
  datatype Card = Card(
    id: string,
    title: string,
    summary: string,
    score: int,
    variant: Variant,
    color: Option<string>,
    typeLabel: string,
    href: string)

  function CardFor(id: string, p: Presentation): Card
    requires Covers(p.evaluation, p.kind)
  {
    var score := OverallScore(p.evaluation, p.kind);
    Card(id, p.title, p.summary, score, ScoreVariant(score), ScoreColor(score),
         FormatParameterName(TypeName(p.kind)), ResultPath + id)
  }

  /** One card per listed record, in listing order. */
  function Cards(docs: seq<(string, Presentation)>): (r: seq<Card>)
    requires forall i :: 0 <= i < |docs| ==> Covers(docs[i].1.evaluation, docs[i].1.kind)
    ensures |r| == |docs|
    ensures forall i :: 0 <= i < |docs| ==>
      && r[i].id == docs[i].0
      && r[i].href == ResultPath + docs[i].0
      && r[i].title == docs[i].1.title
      && r[i].score == OverallScore(docs[i].1.evaluation, docs[i].1.kind)
  {
    seq(|docs|, i requires 0 <= i < |docs| => CardFor(docs[i].0, docs[i].1))
  }

  /** `{ id: doc.id, ...doc.data() }`: one listed item. The spread comes
      second, so a stored `id` field replaces the document id. */
  function ListedItem(docId: string, data: map<string, Json>): (r: map<string, Json>)
    ensures "id" in r
    ensures r["id"] == if "id" in data then data["id"] else JString(docId)
    ensures forall k :: k != "id" ==> (k in r <==> k in data) && (k in data ==> r[k] == data[k])
  {
    map["id" := JString(docId)] + data
  }

  /** The listed item reads as the same record as the stored data. */
  lemma ListedItemReadsTheSame(docId: string, data: map<string, Json>)
    ensures Decode(JObject(ListedItem(docId, data))) == Decode(JObject(data))
  {
    if "id" !in data {
      assert ListedItem(docId, data) == data["id" := JString(docId)];
      DecodeIgnoresExtraKey(JObject(data), "id", JString(docId));
    } else {
      assert ListedItem(docId, data) == data;
    }
  }

  /** A snapshot entry the dashboard can list: a stored `id`, if any, is a
      string, and the data reads as a record. */
  predicate Listable(data: map<string, Json>) {
    ("id" in data ==> data["id"].JString?) && Decode(JObject(data)).Success?
  }

  /** The id the card is keyed and linked by: the stored `id` when there is
      one, the document id otherwise. */
  function LinkId(docId: string, data: map<string, Json>): string
    requires Listable(data)
  {
    ListedItem(docId, data)["id"].s
  }

  function ListedRecord(docId: string, data: map<string, Json>): (r: (string, Presentation))
    requires Listable(data)
    ensures r.0 == if "id" in data then data["id"].s else docId
    ensures r.1 == Decode(JObject(data)).value
    ensures Covers(r.1.evaluation, r.1.kind)
  {
    ListedItemReadsTheSame(docId, data);
    var p := Decode(JObject(ListedItem(docId, data))).value;
    CompleteCovers(p);
    (LinkId(docId, data), p)
  }

  /** `querySnapshot.docs.map(...)`: the listed records, in snapshot order,
      each under the id the spread leaves it. */
  function Listing(snapshot: seq<(string, map<string, Json>)>): (r: seq<(string, Presentation)>)
    requires forall i :: 0 <= i < |snapshot| ==> Listable(snapshot[i].1)
    ensures |r| == |snapshot|
    ensures forall i :: 0 <= i < |r| ==> Covers(r[i].1.evaluation, r[i].1.kind)
  {
    seq(|snapshot|, i requires 0 <= i < |snapshot| => ListedRecord(snapshot[i].0, snapshot[i].1))
  }

  /** Each listed record is what the stored data reads as, and its card
      links to the stored `id` when the data carries one, and to the
      document's own id only otherwise. */
  lemma CardLinksByListedId(snapshot: seq<(string, map<string, Json>)>, i: int)
    requires forall k :: 0 <= k < |snapshot| ==> Listable(snapshot[k].1)
    requires 0 <= i < |snapshot|
    ensures Listing(snapshot)[i].1 == Decode(JObject(snapshot[i].1)).value
    ensures "id" in snapshot[i].1 ==> Cards(Listing(snapshot))[i].href == ResultPath + snapshot[i].1["id"].s
    ensures "id" !in snapshot[i].1 ==> Cards(Listing(snapshot))[i].href == ResultPath + snapshot[i].0
  {
  }

  /** A record the AI flagged as failed still gets a card and a score: the
      list never filters on `error.isError`. */
  lemma ErrorRecordsAreScored(docs: seq<(string, Presentation)>, i: int)
    requires forall k :: 0 <= k < |docs| ==> Covers(docs[k].1.evaluation, docs[k].1.kind)
    requires 0 <= i < |docs| && docs[i].1.error.isError
    ensures Cards(docs)[i].score == OverallScore(docs[i].1.evaluation, docs[i].1.kind)
    ensures Cards(docs)[i].href == ResultPath + docs[i].0
  {
  }

  /** Each card's badge variant and colour are the bands of its own score. */
  lemma CardBanding(docs: seq<(string, Presentation)>, i: int)
    requires forall k :: 0 <= k < |docs| ==> Covers(docs[k].1.evaluation, docs[k].1.kind)
    requires 0 <= i < |docs|
    ensures Cards(docs)[i].variant == ScoreVariant(Cards(docs)[i].score)
    ensures Cards(docs)[i].color.None? <==> Cards(docs)[i].score < 70
  {
  }

  /** The documents the owner query returns: those whose `uid` field is the user's. */
  function OwnedIds(store: map<string, Json>, uid: string): (r: set<string>)
    ensures r <= store.Keys
    ensures forall id :: id in r ==>
      store[id].JObject? && "uid" in store[id].fields && store[id].fields["uid"] == JString(uid)
    ensures forall id | id in store ::
      (store[id].JObject? && "uid" in store[id].fields && store[id].fields["uid"] == JString(uid)) ==> id in r
  {
    set id | id in store && store[id].JObject? && "uid" in store[id].fields
      && store[id].fields["uid"] == JString(uid)
  }

  /** Two users never list the same document. */
  lemma OwnersDisjoint(store: map<string, Json>, u: string, v: string)
    requires u != v
    ensures OwnedIds(store, u) * OwnedIds(store, v) == {}
  {
  }

  /** Which panel the list area shows. */
  datatype Panel = LoadingPanel | ErrorPanel | EmptyPanel | GridPanel

  /** JavaScript truthiness of a `string | null` state. */
  predicate Truthy(s: Option<string>) {
    s.Some? && s.value != ""
  }

  /** The list area: a skeleton while loading, the error card when the
      query failed, otherwise the empty state or the grid. Loading and error
      can show together; empty state and grid never show with either. */
  function Panels(isLoading: bool, error: Option<string>, count: nat): (r: set<Panel>)
    ensures EmptyPanel in r ==> LoadingPanel !in r && ErrorPanel !in r && GridPanel !in r
    ensures GridPanel in r ==> LoadingPanel !in r && ErrorPanel !in r && count > 0
    ensures ErrorPanel in r <==> Truthy(error)
    ensures !isLoading && !Truthy(error) ==> (EmptyPanel in r <==> count == 0) && (GridPanel in r <==> count > 0)
    ensures r != {}
  {
    (if isLoading then {LoadingPanel} else {})
    + (if Truthy(error) then {ErrorPanel} else {})
    + (if !isLoading && !Truthy(error) && count == 0 then {EmptyPanel} else {})
    + (if !isLoading && !Truthy(error) && count > 0 then {GridPanel} else {})
  }
}
