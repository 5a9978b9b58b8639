# Samiksha presentation scoring, modelled in Dafny

Samiksha AI is a web application. A user uploads a recorded presentation,
and a generative model returns a structured evaluation. The evaluation
holds:

- a presentation type: `SLIDES_ONLY`, `VOICE_OVER`, `FACE_VISIBLE` or
  `FACE_PLUS_SCREEN`;
- a score and a feedback text for each of eight criteria;
- an overall feedback text;
- an error flag.

The record is stored with the owner's user id. The dashboard and the
result page then derive the numbers people see:

- the criteria that apply to the presentation type;
- the overall score, which is the rounded mean of the applicable scores;
- the badge band and colour for a score;
- the display names of enum keys.

Around this sit four forms and one guard: the contact form, the newsletter
sign-up, the navigation guard for protected routes, and the price labels
of the pricing page.

The model is a set of pure functions over immutable datatypes, one module
per concern:

| module | what it holds |
|---|---|
| `Wrappers` | `Option` and `Result` |
| `JsText` | the JavaScript string operations the code relies on: `trim`, ASCII `toLowerCase`, `split(sep)[1]`, decimal rendering of integers |
| `Catalog` | presentation types, criteria, their wire names, and `getEvaluationCriteria` |
| `Weights` | the weight table the system instruction gives the AI |
| `JsonValues`, `Records` | parsed JSON values, and the `Presentation` record |
| `ResponseSchema` | the response schema as a conformance predicate; the reading of a document as a record (`Decode`) and its inverse (`Encode`) |
| `Scoring` | `calculateOverallScore` and `Math.round` on integer scores |
| `Labels` | `getScoreVariant`, `getScoreColor`, `formatParameterName` |
| `Dashboard`, `ResultPage` | what the two pages derive from stored records |
| `EvaluatePage` | `sendFileToGemini`: input guard, request, stream fold, parse, write, redirect |
| `EmailRegex`, `Contact`, `Newsletter` | the shared e-mail pattern and the two form handlers |
| `Navbar`, `Pricing` | the route guard and the price labels |

Everything outside the program becomes a parameter of the operation that
uses it:

- the AI service: the reply chunks, and whether the stream completes;
- `JSON.parse`: a function from text to an optional value;
- Firebase Auth: the optional user id;
- Firestore: a map from document id to value, plus a flag saying whether
  the read or write succeeds.

Behaviour the model keeps as the code has it, where it differs from what
one might expect:

- **No validation of the AI reply.** The parsed reply is stored and
  displayed without any shape check or score bounds. Score bounds
  (`ScoreInPercentRange`) are therefore proved under a hypothesis, not
  guaranteed.
- **Error records are still scored.** The dashboard scores records whose
  `error.isError` is set, just like the others.
- **A stored `id` field replaces the document id on the dashboard.** The
  list is built as `{ id: doc.id, ...doc.data() }`, so an `id` key in the
  stored data wins. The schema does not forbid extra keys, and the reply
  is stored by spreading it, so a reply with an `id` key gets a card that
  links to that id (`EvaluatePage.ReplyIdOverridesLink`).
- **The loading flag can stick.** If the stream or the parse throws,
  nothing resets the upload page's loading flag. The upload button then
  stays disabled.
- **The weight table is not normalised.** The system instruction says the
  weights of each type total 100. The `FACE_PLUS_SCREEN` column totals 110
  (`Weights.ColumnTotals`). The weights are never used in scoring, which
  is an unweighted mean.
- **The result page has its own criteria table.** It is proved identical
  to the dashboard's.

## Model

| member | source | states |
|---|---|---|
| Catalog.ParseType | src/lib/genai/evaluateVideo.ts:23-26 | reading a `type` string accepts exactly the four type names, and returns the type written by that name |
| Catalog.ParseCriterion | src/app/dashboard/page.tsx:34-43 | reading an `evaluation` key accepts exactly the eight criterion names, and returns the criterion written by that name |
| Catalog.CriterionKeyInjective | src/app/dashboard/page.tsx:34-43 | distinct criteria are stored under distinct keys |
| Catalog.CriteriaFor | src/app/dashboard/page.tsx:82-118 | the criteria of a type are the first 3, 4, 6 or 8 entries of the catalog, in catalog order |
| Catalog.CriteriaNested | src/app/dashboard/page.tsx:82-118 | a richer type's list extends a poorer type's list, in the same order |
| Catalog.CriteriaWellFormed | src/app/dashboard/page.tsx:82-118 | no type lists a criterion twice; every list is non-empty, so the mean never divides by zero; `FACE_PLUS_SCREEN` lists all eight |
| Catalog.AppliesIff | src/app/dashboard/page.tsx:82-118 | a criterion applies to a type exactly when its catalog position is below the type's list length |
| Weights.WeightedIffApplicable | src/lib/genai/evaluateVideo.ts:168-177 | a cell of the weight table is filled exactly when the criterion applies to the type on the pages |
| Weights.ColumnTotals | src/lib/genai/evaluateVideo.ts:166-177 | the weight columns total 100, 100, 100 and 110, so the last column breaks the stated total of 100 |
| Records.CompleteCovers | src/app/dashboard/page.tsx:34-43 | a record with all eight criteria carries every criterion its type needs |
| ResponseSchema.Conforms | src/lib/genai/evaluateVideo.ts:6-146 | a reply conforms to the schema only if it is an object whose six required keys hold values of the declared kinds, whose `type` is one of the four names, whose `evaluation` holds all eight criteria and whose `error` holds a boolean `isError` |
| ResponseSchema.ConformsRequires | src/lib/genai/evaluateVideo.ts:6-26 | a conforming reply has all six required keys, and its `type` is one of the four names |
| ResponseSchema.EachRequiredKeyNeeded | src/lib/genai/evaluateVideo.ts:8-15 | removing any one required top-level key breaks conformance |
| ResponseSchema.RequiredKeysSuffice | src/lib/genai/evaluateVideo.ts:8-15 | keeping only the required keys of a conforming reply keeps it conforming |
| ResponseSchema.ExtraKeyKeepsConformance | src/lib/genai/evaluateVideo.ts:6-16 | adding or replacing a key outside the required six never changes conformance |
| ResponseSchema.DecodeIgnoresExtraKey | src/app/dashboard/evaluate/result/page.tsx:131-133 | reading a stored document as a record ignores keys outside the required six |
| ResponseSchema.Decode | src/lib/genai/evaluateVideo.ts:6-146 | a document reads as a record exactly when it conforms to the schema and every criterion carries both score and feedback; the record then has the document's title, summary, type, overall feedback, error flag and message, and each criterion's score and feedback |
| ResponseSchema.EncodeConforms | src/lib/genai/evaluateVideo.ts:6-146 | every complete record, written as JSON, conforms to the schema and carries every score |
| ResponseSchema.DecodeEncode | src/lib/genai/evaluateVideo.ts:6-146 | writing a complete record as JSON and reading it back gives the same record |
| ResponseSchema.EmptyCriterionConformsButUnreadable | src/lib/genai/evaluateVideo.ts:39-50 | the schema admits a criterion object with neither score nor feedback, and such a reply does not read as a record |
| Scoring.RoundedMean | src/app/dashboard/page.tsx:125-130 | the result is within half of `sum / n`, and halves round upward as `Math.round` does |
| Scoring.RoundedMeanUnique | src/app/dashboard/page.tsx:125-130 | only one integer lies within half of `sum / n` |
| Scoring.OverallScore | src/app/dashboard/page.tsx:120-131 | the overall score is the integer nearest to the mean of the applicable scores, rounding halves upward |
| Scoring.CalculateOverallScore | src/app/dashboard/page.tsx:120-131 | the left-to-right `reduce` loop over the criteria list, followed by the rounding, computes the overall score |
| Scoring.SumBounds | src/app/dashboard/page.tsx:126-129 | if every summed score lies in `[lo, hi]`, the sum over `n` criteria lies in `[n*lo, n*hi]` |
| Scoring.RoundedMeanBounds | src/app/dashboard/page.tsx:125-130 | rounding the mean never leaves the range of the averaged values |
| Scoring.ScoreWithinApplicableRange | src/app/dashboard/page.tsx:120-131 | the overall score lies between the lowest and the highest applicable score |
| Scoring.ScoreInPercentRange | src/app/dashboard/page.tsx:120-131 | applicable scores on the 0–100 scale give an overall score on that scale |
| Scoring.UniformScores | src/app/dashboard/page.tsx:120-131 | when every applicable criterion scores `k`, the overall score is `k` |
| Scoring.SumDependsOnListedOnly | src/app/dashboard/page.tsx:126-129 | two records whose scores agree on the listed criteria have the same sum |
| Scoring.ScoreDependsOnApplicableOnly | src/app/dashboard/page.tsx:120-131 | the overall score depends only on the type and the applicable scores |
| Scoring.InapplicableChangeIgnored | src/app/dashboard/page.tsx:120-131 | changing a criterion that does not apply to the type leaves the overall score unchanged |
| Scoring.SlidesOnlyExample | src/app/dashboard/page.tsx:86-87 | a `SLIDES_ONLY` record scored 90, 80 and 70 has overall score 80, whatever its other criteria hold |
| Scoring.HalfRoundsUp | src/app/dashboard/page.tsx:125-130 | 311/4 rounds to 78, 310/4 rounds up to 78, and −10/4 rounds up to −2 |
| Labels.ScoreVariant | src/app/dashboard/page.tsx:72-76 | the badge is "default" exactly from 85 up and "destructive" exactly below 70 |
| Labels.ScoreColor | src/app/dashboard/page.tsx:67-70 | there is no colour class exactly below 70, and otherwise the class is green or yellow |
| Labels.VariantBands | src/app/dashboard/page.tsx:72-76 | the badge is "default" from 85 up, "secondary" from 70 to 84, and "destructive" below 70 |
| Labels.ColorMatchesVariant | src/app/dashboard/page.tsx:67-76 | the colour follows the badge band for band: green, then yellow, then no colour class below 70 |
| Labels.VariantMonotone | src/app/dashboard/page.tsx:72-76 | a higher score never gets a worse badge band |
| Labels.FormatParameterName | src/app/dashboard/page.tsx:78-80 | underscores become spaces, the first letter or digit of each word is upper-cased, and every other character is kept |
| Labels.FormatIdempotent | src/app/dashboard/page.tsx:78-80 | formatting an already formatted name changes nothing |
| Labels.FormatTypeName | src/app/dashboard/page.tsx:78-80 | formatting an upper-case type name only replaces its underscores with spaces |
| Labels.FormatSlidesOnly | src/app/dashboard/page.tsx:78-80 | `SLIDES_ONLY` reads `SLIDES ONLY` |
| Labels.FormatLowerCaseExample | src/app/dashboard/page.tsx:78-80 | `content_quality` reads `Content Quality` |
| Dashboard.ListedItem | src/app/dashboard/page.tsx:155-158 | the listed item carries the stored `id` when the data has one and the document id otherwise; every other key is the stored data's |
| Dashboard.ListedItemReadsTheSame | src/app/dashboard/page.tsx:155-158 | adding the document id to the listed item never changes the record it reads as |
| Dashboard.ListedRecord | src/app/dashboard/page.tsx:155-158 | a listed record is keyed by the stored `id` when there is one and the document id otherwise, is the record the stored data reads as, and has every criterion its type needs |
| Dashboard.Listing | src/app/dashboard/page.tsx:155-161 | the listing has one entry per snapshot document, each carrying every criterion its type needs |
| Dashboard.CardLinksByListedId | src/app/dashboard/page.tsx:155-158 | each card shows the record its stored data reads as, and links to the stored `id` when the data carries one, and to the document id only otherwise |
| Dashboard.Cards | src/app/dashboard/page.tsx:316-329 | there is one card per listed record, in order, with the record's listed id, title and overall score, linking to the result page for that id |
| Dashboard.ErrorRecordsAreScored | src/app/dashboard/page.tsx:299-329 | a record flagged `isError` still gets a card with its overall score and its link |
| Dashboard.CardBanding | src/app/dashboard/page.tsx:338-345 | each card's badge and colour are the bands of its own overall score |
| Dashboard.OwnedIds | src/app/dashboard/page.tsx:151-152 | the owner query returns exactly the stored documents whose `uid` field is the user's id |
| Dashboard.Panels | src/app/dashboard/page.tsx:243-299 | the list area shows something in every state; loading and error can show together; the empty state shows exactly when nothing is loading or failed and there are no records, and the grid exactly when there are records |
| ResultPage.PageCriteria | src/app/dashboard/evaluate/result/page.tsx:71-107 | the result page's own criteria table gives, for every type, the dashboard's list |
| ResultPage.PageCriteriaAgree | src/app/dashboard/evaluate/result/page.tsx:71-107 | the result page's criteria table equals the dashboard's for every type |
| ResultPage.FetchEvaluation | src/app/dashboard/evaluate/result/page.tsx:118-146 | a missing or empty id reads nothing and reports "No evaluation ID provided"; otherwise exactly the document under that id is loaded; a failed read reports "Failed to fetch evaluation data" and a missing document "Evaluation not found"; loading ends in every case |
| ResultPage.PageOverallScore | src/app/dashboard/evaluate/result/page.tsx:149-157 | the page's overall score is 0 with no record, and otherwise equals the dashboard's overall score for the record |
| ResultPage.ShowsFetchError | src/app/dashboard/evaluate/result/page.tsx:178 | each of the three messages the page sets shows the fetch-error card, and no message shows none |
| ResultPage.ErrorFlag | src/app/dashboard/evaluate/result/page.tsx:193-303 | the flag the record views read is the document's boolean `error.isError`; every conforming reply has it, and for a reply that reads as a record it is the record's error flag |
| ResultPage.ShowsResults | src/app/dashboard/evaluate/result/page.tsx:193 | the results view needs a loaded document, and for a readable one shows exactly when the record is not flagged as an error |
| ResultPage.ShowsEvaluationError | src/app/dashboard/evaluate/result/page.tsx:303 | the evaluation-error card needs a loaded document, and for a readable one shows exactly when the record is flagged as an error |
| ResultPage.ListedCriteria | src/app/dashboard/evaluate/result/page.tsx:71-107 | the page reads the entries of the type's criteria when `type` names one of the four types, and of none otherwise; for a readable document these are the type's criteria |
| ResultPage.ConformingRenders | src/app/dashboard/evaluate/result/page.tsx:149-303 | every reply that conforms to the schema renders without throwing, whether or not its criterion objects carry score and feedback |
| ResultPage.ReadableRenders | src/app/dashboard/evaluate/result/page.tsx:149-303 | a document that reads as a record renders, and carries the flag the views test |
| ResultPage.MissingCriterionThrows | src/app/dashboard/evaluate/result/page.tsx:149-156 | a flagged `SLIDES_ONLY` document with an empty `evaluation` carries the flag, yet the inline overall score cannot read its first criterion, so the page throws |
| ResultPage.ResultsXorError | src/app/dashboard/evaluate/result/page.tsx:149-303 | whenever the loaded document renders (it carries its boolean `error.isError`, holds a non-null entry for every criterion its type lists, and has a string `type` when not flagged), exactly one of the results view and the evaluation-error card shows; with no document, neither; after a fetch, the fetch-error card shows exactly when no document was loaded |
| ResultPage.ErrorCardForUnreadableReply | src/app/dashboard/evaluate/result/page.tsx:303-317 | a reply flagged as an error whose criterion object lacks score and feedback, as the schema admits, still loads and shows the evaluation-error card and not the results view |
| ResultPage.Breakdown | src/app/dashboard/evaluate/result/page.tsx:252-278 | the breakdown lists exactly the type's criteria, in catalog order, each once, with that criterion's own score and feedback |
| JsText.TrimEmptyIffBlank | src/app/contact/page.tsx:50-54 | a string trims to empty exactly when it consists of whitespace only |
| JsText.ToLowerIdempotent | src/components/layout/Footer.tsx:66 | lower-casing twice is lower-casing once |
| JsText.SecondFieldOf | src/app/dashboard/evaluate/page.tsx:109 | `split(sep)[1]` is the text between the first and second separator, or the rest of the string when there is no second one |
| JsText.DecimalRoundTrip | src/app/pricing/page.tsx:182 | the decimal rendering of a natural number reads back as that number |
| JsText.IntToDecimal | src/app/pricing/page.tsx:182 | a negative integer renders with a leading minus sign; otherwise the digits read back as the value |
| EvaluatePage.ComposeRequest | src/app/dashboard/evaluate/page.tsx:103-123 | the inline payload is absent exactly when the data URL has no comma and never contains one; the MIME type is the file's; the instruction is the prompt followed by a word with no slash |
| EvaluatePage.RequestFromDataUrl | src/app/dashboard/evaluate/page.tsx:103-123 | for a base64 data URL the inline payload is exactly the encoded data, and the instruction names the MIME subtype |
| EvaluatePage.RequestWithoutSubtype | src/app/dashboard/evaluate/page.tsx:119 | a MIME type with no slash produces the instruction "evaluate this undefined" |
| EvaluatePage.ConcatEmptyIff | src/app/dashboard/evaluate/page.tsx:130-133 | the assembled reply is empty exactly when every chunk carried the empty text; a chunk without text contributes "undefined" |
| EvaluatePage.ConcatAppend | src/app/dashboard/evaluate/page.tsx:130-133 | folding a stream in two parts and joining the results equals folding the whole stream |
| EvaluatePage.ConcatContainsChunk | src/app/dashboard/evaluate/page.tsx:130-133 | every chunk's text appears whole, at its own position, in the reply text |
| EvaluatePage.AssembleResponse | src/app/dashboard/evaluate/page.tsx:130-133 | the accumulation loop produces the in-order concatenation of the chunk texts, with "undefined" for a chunk without text |
| EvaluatePage.WithUid | src/app/dashboard/evaluate/page.tsx:141-144 | the stored document is an object carrying the owner's id under `uid`, and every other key of a parsed object keeps its value |
| EvaluatePage.WithUidReadsTheSame | src/app/dashboard/evaluate/page.tsx:141-144 | adding the owner's id never changes how the document reads as a record |
| EvaluatePage.ReplyIdOverridesLink | src/app/dashboard/evaluate/page.tsx:141-144 | a reply carrying its own string `id` is stored with it, and the dashboard card for the new document links to that id instead of the document's |
| EvaluatePage.SendFileToGemini | src/app/dashboard/evaluate/page.tsx:95-151 | missing input changes nothing; otherwise the request is built from the file; a failed stream or parse stores nothing; a parsed reply is shown; with a user and a successful write it is stored under the new id with the `uid` field and the page goes to the result URL; in every other case the store is unchanged |
| EvaluatePage.LoadingFlag | src/app/dashboard/evaluate/page.tsx:95-151 | the loading flag is untouched on missing input, stays set when the stream or the parse throws, and is cleared once a write was attempted |
| EvaluatePage.StuckAfterThrow | src/app/dashboard/evaluate/page.tsx:101-150 | after the stream or the parse throws, the upload button stays disabled |
| EvaluatePage.WriteOnlyAfterParse | src/app/dashboard/evaluate/page.tsx:125-145 | a write happens only after the whole reply arrived and parsed, for a signed-in user, and it stores the parsed value unchanged apart from `uid` |
| EvaluatePage.PersistThenView | src/app/dashboard/evaluate/page.tsx:140-145 | after a successful write, the result page for the new id loads the stored document and shows the parsed record with the dashboard's overall score, and the owner's dashboard query lists the id |
| EmailRegex.IsValidEmail | src/app/contact/page.tsx:60-61 | an accepted address has no whitespace and at least five characters |
| EmailRegex.IsValidEmailIffPattern | src/app/contact/page.tsx:60-61 | the check accepts exactly the strings matching `^[^\s@]+@[^\s@]+\.[^\s@]+$` |
| EmailRegex.ValidEmailShape | src/app/contact/page.tsx:60-61 | an accepted address contains exactly one `@` and is its own trimmed form |
| EmailRegex.ValidHasDot | src/app/contact/page.tsx:60-61 | an accepted address contains a dot |
| EmailRegex.SurroundingWhitespaceRejected | src/components/layout/Footer.tsx:53-54 | an address with leading or trailing whitespace is rejected, because the untrimmed input is tested |
| EmailRegex.AcceptsPlainAddress | src/app/contact/page.tsx:60-61 | `user@example.com` is accepted |
| EmailRegex.RejectsMissingDot | src/app/contact/page.tsx:60-61 | `user@example` is rejected |
| EmailRegex.RejectsSecondAt | src/app/contact/page.tsx:60-61 | `a@b@c.de` is rejected |
| Contact.SetField | src/app/contact/page.tsx:39-44 | editing a field sets that field and leaves the other five unchanged |
| Contact.SetFieldLaws | src/app/contact/page.tsx:39-44 | writing back a field's own value changes nothing, and a later write to a field overrides an earlier one |
| Contact.HandleSubmit | src/app/contact/page.tsx:46-94 | a blank name, e-mail or message is refused; otherwise an address not matching the pattern is refused; otherwise, when the write succeeds, the form is stored with status "new" and source "contact_page" and reset to its initial state; a failed write keeps the form and stores nothing; the submitting flag ends cleared |
| Contact.OptionalFieldsIgnored | src/app/contact/page.tsx:50-64 | company, subject and priority never decide the outcome |
| Contact.PaddedEmailRefused | src/app/contact/page.tsx:50-64 | an address typed with surrounding whitespace passes the blank check but is refused as invalid, and nothing is stored |
| Contact.ResubmitAfterSendRefused | src/app/contact/page.tsx:79-87 | submitting again right after a send is refused as missing fields, and stores nothing |
| Contact.SubmitKeepsStoredValid | src/app/contact/page.tsx:46-94 | if every stored message has its required fields filled and a matching address, a submission keeps that true |
| Newsletter.Normalize | src/components/layout/Footer.tsx:66 | the normalised address has no upper-case ASCII letter and is no longer than the input |
| Newsletter.HandleNewsletterSubmit | src/components/layout/Footer.tsx:44-93 | blank input is refused; otherwise input not matching the pattern is refused; an already stored normalised address is refused; otherwise, when the write succeeds, the normalised address is added with status "active" and source "footer_subscription" and the input is cleared; every other path keeps the input and the list |
| Newsletter.SubmitKeepsUnique | src/components/layout/Footer.tsx:62-82 | the handler never stores an address twice |
| Newsletter.NormalizeAccepted | src/components/layout/Footer.tsx:53-66 | for an accepted address, trimming changes nothing, so its normal form is its lower-case form |
| Newsletter.SubmitKeepsNormalized | src/components/layout/Footer.tsx:77-82 | every stored address stays in lower case |
| Newsletter.DuplicateRefused | src/components/layout/Footer.tsx:62-74 | an address whose normal form is already stored adds nothing, and is reported as already subscribed when the lookup succeeds |
| Newsletter.CaseVariantsSubscribeOnce | src/components/layout/Footer.tsx:62-82 | after one address is added, an address differing only in letter case adds nothing |
| Navbar.NavigateTarget | src/components/layout/Navbar.tsx:44-50 | navigation leads to the sign-in page exactly when the target is the sign-in page itself, or a protected path and nobody is signed in; otherwise it leads to the target |
| Navbar.AuthChanged | src/components/layout/Navbar.tsx:21-30 | the listener records the user, clears loading, and redirects to the sign-in page exactly when nobody is signed in on a protected path |
| Navbar.SignOutTarget | src/components/layout/Navbar.tsx:35-42 | a successful sign-out goes to the unprotected home page; a failed one goes nowhere |
| Navbar.ListenerAgreesWithNavigation | src/components/layout/Navbar.tsx:19-50 | the listener redirects from a path exactly when a link to that path would be turned away, and to the same place |
| Navbar.GuardLaws | src/components/layout/Navbar.tsx:44-50 | a signed-in user is never redirected, and navigating again to where the guard led stays there |
| Navbar.NestedPathsUnguarded | src/components/layout/Navbar.tsx:19 | matching is exact: a path below `/dashboard` is not guarded, while `/dashboard` itself is |
| Pricing.GetPrice | src/app/pricing/page.tsx:180-183 | "Custom" exactly for a null or zero price; otherwise "Rs. " followed by the price, whose digits read back as the price when it is positive |
| Pricing.PriceSuffixAsWritten | src/app/pricing/page.tsx:246-248 | "per month" shows exactly for a non-zero price |
| Pricing.ZeroPriceShowsStrayZero | src/app/pricing/page.tsx:244-248 | a zero price shows "Custom" followed by the text "0" |
| Pricing.PriceSuffix | src/app/pricing/page.tsx:244-248 | "per month" shows exactly when a price (not "Custom") is shown, and never a stray "0" |
| Pricing.SuffixReadingsAgree | src/app/pricing/page.tsx:246-248 | the suffix as written and as intended agree for every price except zero |
| Pricing.TierTable | src/app/pricing/page.tsx:47-111 | there are three tiers and only Professional is marked popular; Starter and Professional show prices reading back as 2499 and 8999, each with "per month"; Enterprise shows "Custom" with no suffix; the written and intended suffixes agree on every tier |

## Left out

- Network, authentication and storage are not modelled as services. The AI
  service, Firebase Auth and Firestore are parameters, as described above:
  the reply, the user id, the store map, and success flags.
- `FileReader` is left out, and so is the `ArrayBuffer` form of the file
  content; the content is taken to be the data-URL string.
- The dashboard's average score card is left out, because it divides in
  floating point (`avgScore`, `toFixed(2)`).
- Scores and prices are integers. JSON numbers are modelled as integers,
  so fractional scores and `NaN` are not modelled.
- JavaScript's number-to-string conversion is modelled only for integers
  below `1e21`. Exponent notation is not modelled.
- `JsText.ToLower` maps only ASCII letters. Unicode case mapping, and
  `\b\w` beyond ASCII, are not modelled.
- The order of documents returned by a Firestore query is not modelled.
  `Dashboard.Cards` takes the listing order as given.
- `ResultPage.ShowsResults` and `ResultPage.ShowsEvaluationError` need a
  loaded document whose `error` is an object with a boolean `isError`. On
  any other document the page's expressions throw or test the truthiness
  of a non-boolean; neither is modelled.
- `ResultPage.ResultsXorError` covers only documents that render. A
  document that lacks a listed criterion's entry, or an unflagged one whose
  `type` is not a string, makes the page throw while rendering
  (`MissingCriterionThrows`). React also refuses to render an object as
  text, for example an object-valued `title`; that throw is not modelled.
- `Dashboard.Listing` takes documents whose stored `id`, if any, is a
  string, and whose data reads as a record. Rendering a non-string `id`
  into the link is not modelled.
- `Newsletter.SubmitKeepsUnique`, `Newsletter.DuplicateRefused` and
  `Newsletter.CaseVariantsSubscribeOnce` hold for submissions handled one
  after another. The duplicate query and the insert are separate, non-atomic
  requests, so two submissions of the same address that overlap can both
  pass the query and store the address twice. Concurrency is not modelled.
- `Dashboard.OwnedIds` gives no ordering and is used only as the query's
  result set.
- Timestamps are not modelled: `submittedAt`, `subscribedAt` and
  `createdAt`.
- The prompt prose, the model name, the temperature and the toast texts
  are not modelled, apart from the result page's error messages.
- `handleInputChange` is modelled as `Contact.SetField`, which takes one
  of the six field names. It accepts any string key in the source; a key
  outside the six would add a property the form never reads.
- The dashboard's auth listener and its signed-out early exit are left
  out; only the owner filter of the query (`OwnedIds`) is kept.
- `Navbar.AuthChanged` does not model the listener being re-registered on
  every render, because `protectedRoutes` is a fresh array each time.
- The mobile menu's open/closed flag, the marketing landing page and the
  sign-in page are not modelled.

## Findings

| source | as written | input that shows it | evidently intended | confidence | as-written member | corrected member |
|---|---|---|---|---|---|---|
| src/app/pricing/page.tsx:246-248 | `{tier.price && <span>per month</span>}` renders the number itself when the price is 0, so React prints "0" after "Custom" | a tier with `price: 0` | no suffix whenever the price shows "Custom" | not executed; medium — no current tier has price 0 | Pricing.ZeroPriceShowsStrayZero | Pricing.PriceSuffix |
