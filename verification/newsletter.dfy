/** The footer's newsletter sign-up: blank and pattern checks on the input,
    a duplicate check on the normalised address, then a new subscription. */
module Newsletter {
  import opened JsText
  import opened EmailRegex

  /** A stored subscription; the subscription time is not modelled. */
  datatype Subscription = Subscription(email: string, status: string, source: string)

  /** `email.trim().toLowerCase()`: the form the address is looked up and
      stored in. */
  function Normalize(email: string): (r: string)
    ensures forall i :: 0 <= i < |r| ==> !IsAsciiUpper(r[i])
    ensures |r| <= |email|
  {
    ToLower(Trim(email))
  }

  /** Whether the collection already holds this exact address
      (`where("email", "==", …)` is not empty). */
  predicate Subscribed(subs: seq<Subscription>, email: string) {
    exists i :: 0 <= i < |subs| && subs[i].email == email
  }

  datatype NewsOutcome = Blank | Invalid | AlreadySubscribed | Added | Failed

  /** After the handler: the outcome, the input box, the `newsletters`
      collection, and the `isSubscribing` flag. */
  datatype NewsStep = NewsStep(outcome: NewsOutcome, input: string, subs: seq<Subscription>, isSubscribing: bool)

  /** `handleNewsletterSubmit`. `queryOk` and `writeOk` stand for the lookup
      and the insert resolving rather than throwing. */
  function HandleNewsletterSubmit(input: string, subs: seq<Subscription>, queryOk: bool, writeOk: bool): (r: NewsStep)
    ensures r.outcome == Blank <==> AllWhitespace(input)
    ensures r.outcome == Invalid <==> !AllWhitespace(input) && !MatchesPattern(input)
    ensures r.outcome == AlreadySubscribed <==>
      MatchesPattern(input) && queryOk && Subscribed(subs, Normalize(input))
    ensures r.outcome == Added <==>
      MatchesPattern(input) && queryOk && !Subscribed(subs, Normalize(input)) && writeOk
    ensures r.outcome == Added ==>
      r.subs == subs + [Subscription(Normalize(input), "active", "footer_subscription")] && r.input == ""
    ensures r.outcome != Added ==> r.subs == subs && r.input == input
    ensures !r.isSubscribing
  {
    TrimEmptyIffBlank(input);
    IsValidEmailIffPattern(input);
    if Trim(input) == [] then NewsStep(Blank, input, subs, false)
    else if !IsValidEmail(input) then NewsStep(Invalid, input, subs, false)
    else if !queryOk then NewsStep(Failed, input, subs, false)
    else if Subscribed(subs, Normalize(input)) then NewsStep(AlreadySubscribed, input, subs, false)
    else if !writeOk then NewsStep(Failed, input, subs, false)
    else NewsStep(Added, "", subs + [Subscription(Normalize(input), "active", "footer_subscription")], false)
  }

  /** No two subscriptions share an address. */
  predicate UniqueEmails(subs: seq<Subscription>) {
    forall i, j :: 0 <= i < j < |subs| ==> subs[i].email != subs[j].email
  }

  lemma AppendFresh(subs: seq<Subscription>, rec: Subscription)
    requires UniqueEmails(subs) && !Subscribed(subs, rec.email)
    ensures UniqueEmails(subs + [rec])
  {
    var t := subs + [rec];
    forall i, j | 0 <= i < j < |t|
      ensures t[i].email != t[j].email
    {
      assert t[i] == subs[i];
      if j < |subs| {
        assert t[j] == subs[j];
      }
    }
  }

  /** The handler never stores a second subscription for an address. */
  lemma SubmitKeepsUnique(input: string, subs: seq<Subscription>, queryOk: bool, writeOk: bool)
    requires UniqueEmails(subs)
    ensures UniqueEmails(HandleNewsletterSubmit(input, subs, queryOk, writeOk).subs)
  {
    var r := HandleNewsletterSubmit(input, subs, queryOk, writeOk);
    if r.outcome == Added {
      AppendFresh(subs, Subscription(Normalize(input), "active", "footer_subscription"));
    }
  }

  /** An accepted address contains no whitespace, so its normal form is just
      its lower-case form. */
  lemma NormalizeAccepted(input: string)
    requires MatchesPattern(input)
    ensures Normalize(input) == ToLower(input)
  {
    IsValidEmailIffPattern(input);
    ValidEmailShape(input);
  }

  /** Every stored address is already in normal form. */
  predicate AllNormalized(subs: seq<Subscription>) {
    forall i :: 0 <= i < |subs| ==> ToLower(subs[i].email) == subs[i].email
  }

  lemma AppendNormalized(subs: seq<Subscription>, rec: Subscription)
    requires AllNormalized(subs) && ToLower(rec.email) == rec.email
    ensures AllNormalized(subs + [rec])
  {
    var t := subs + [rec];
    forall i | 0 <= i < |t|
      ensures ToLower(t[i].email) == t[i].email
    {
      if i < |subs| {
        assert t[i] == subs[i];
      }
    }
  }

  lemma SubmitKeepsNormalized(input: string, subs: seq<Subscription>, queryOk: bool, writeOk: bool)
    requires AllNormalized(subs)
    ensures AllNormalized(HandleNewsletterSubmit(input, subs, queryOk, writeOk).subs)
  {
    var r := HandleNewsletterSubmit(input, subs, queryOk, writeOk);
    if r.outcome == Added {
      ToLowerIdempotent(Trim(input));
      AppendNormalized(subs, Subscription(Normalize(input), "active", "footer_subscription"));
    }
  }

  /** An address whose normal form is already stored is refused and stores
      nothing, whether or not the lookup goes through. */
  lemma DuplicateRefused(input: string, subs: seq<Subscription>, queryOk: bool, writeOk: bool)
    requires MatchesPattern(input) && Subscribed(subs, Normalize(input))
    ensures HandleNewsletterSubmit(input, subs, queryOk, writeOk).subs == subs
    ensures queryOk ==> HandleNewsletterSubmit(input, subs, queryOk, writeOk).outcome == AlreadySubscribed
  {
  }

  lemma AddedRecord(input: string, subs: seq<Subscription>, queryOk: bool, writeOk: bool)
    requires HandleNewsletterSubmit(input, subs, queryOk, writeOk).outcome == Added
    ensures MatchesPattern(input)
    ensures Subscribed(HandleNewsletterSubmit(input, subs, queryOk, writeOk).subs, Normalize(input))
  {
    var r := HandleNewsletterSubmit(input, subs, queryOk, writeOk);
    assert r.subs[|subs|].email == Normalize(input);
  }

  /** Subscribing twice with addresses that differ only in letter case stores
      one subscription: the second attempt finds the first. */
  lemma CaseVariantsSubscribeOnce(a: string, b: string, subs: seq<Subscription>, q1: bool, w1: bool, q2: bool, w2: bool)
    requires ToLower(a) == ToLower(b) && MatchesPattern(b)
    requires HandleNewsletterSubmit(a, subs, q1, w1).outcome == Added
    ensures
      var first := HandleNewsletterSubmit(a, subs, q1, w1);
      var second := HandleNewsletterSubmit(b, first.subs, q2, w2);
      second.subs == first.subs && (q2 ==> second.outcome == AlreadySubscribed)
  {
    var first := HandleNewsletterSubmit(a, subs, q1, w1);
    AddedRecord(a, subs, q1, w1);
    NormalizeAccepted(a);
    NormalizeAccepted(b);
    assert Normalize(a) == Normalize(b);
    DuplicateRefused(b, first.subs, q2, w2);
  }
}
