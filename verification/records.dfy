/** The evaluation record the pages work with (the `Presentation` /
    `EvaluationDoc` interfaces, declared identically in each page). */
module Records {
  import opened Wrappers
  import opened Catalog

  /** One criterion's verdict (`EvaluationParameter`). */
  datatype CriterionResult = CriterionResult(score: int, feedback: string)

  /** The AI's own report that it could not evaluate the input. */
  datatype ErrorInfo = ErrorInfo(isError: bool, message: Option<string>)

  datatype Presentation = Presentation(
    title: string,
    summary: string,
    kind: PresentationType,
    evaluation: map<Criterion, CriterionResult>,
    overallFeedback: string,
    error: ErrorInfo)

  /** What the `Evaluation` interface promises: all eight criteria present. */
  predicate Complete(p: Presentation) {
    forall c: Criterion :: c in p.evaluation
  }

  /** Every criterion that applies to the record's type is present: all the
      score reduction and the breakdown ever read. */
  predicate Covers(evaluation: map<Criterion, CriterionResult>, t: PresentationType) {
    forall i :: 0 <= i < |CriteriaFor(t)| ==> CriteriaFor(t)[i] in evaluation
  }

  lemma CompleteCovers(p: Presentation)
    requires Complete(p)
    ensures Covers(p.evaluation, p.kind)
  {
  }
}
