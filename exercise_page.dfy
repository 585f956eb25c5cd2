/** The store-to-props mapping of the exercise page (Exercise.page.tsx, mapStateToProps):
    which submissions the page shows and in what order, the checking response it passes on,
    and the slide's progress. */
module ExercisePage {
  import opened Wrappers
  import opened Seqs
  import opened ExerciseUtils

  /** The response to the last code submission, with the slide it was for. */
  datatype CheckingResponse = CheckingResponse(courseId: string, slideId: string, submission: SubmissionInfo)

  /** The props the page receives; `P` is the type of a slide's progress record. */
  datatype ExerciseProps<P> = ExerciseProps(
    submissions: seq<SubmissionInfo>, lastCheckingResponse: Option<CheckingResponse>, slideProgress: P)

  /** The filter of mapStateToProps over `values`, the submissions of the slide in the order
      Object.values lists them: the last one always, any other only when it is successful. */
  function KeptSubmissions(values: seq<SubmissionInfo>): (r: seq<SubmissionInfo>)
    ensures |r| <= |values|
    ensures multiset(r) <= multiset(values)
    ensures |values| > 0 ==> |r| > 0 && r[|r| - 1] == values[|values| - 1]
    ensures |values| > 0 ==> forall x :: x in r <==>
      x == values[|values| - 1] || (x in values[..|values| - 1] && IsSuccess(x))
    ensures |values| == 0 ==> r == []
  {
    if |values| == 0 then []
    else
      var init := values[..|values| - 1];
      var last := values[|values| - 1];
      assert values == init + [last];
      FilterSubMultiset(init, IsSuccess);
      forall x ensures x in Filter(init, IsSuccess) <==> x in init && IsSuccess(x) {
        FilterMembers(init, IsSuccess, x);
      }
      Filter(init, IsSuccess) + [last]
  }

  /** The sort key of "newer is first": the timestamp, negated. */
  function NewerFirst(s: SubmissionInfo): int {
    -s.timestamp
  }

  /** The submissions the page shows: the kept ones, newest first. */
  function ShownSubmissions(values: seq<SubmissionInfo>): (r: seq<SubmissionInfo>)
    ensures multiset(r) == multiset(KeptSubmissions(values))
    ensures forall i, j :: 0 <= i < j < |r| ==> r[i].timestamp >= r[j].timestamp
    ensures |r| <= |values| && multiset(r) <= multiset(values)
  {
    var r := SortBy(KeptSubmissions(values), NewerFirst);
    assert forall i, j :: 0 <= i < j < |r| ==> NewerFirst(r[i]) <= NewerFirst(r[j]);
    r
  }

  /** The last submission of the slide is always shown. */
  lemma LastIsShown(values: seq<SubmissionInfo>)
    requires |values| > 0
    ensures values[|values| - 1] in ShownSubmissions(values)
  {
    var kept := KeptSubmissions(values);
    assert kept[|kept| - 1] in multiset(kept);
    assert values[|values| - 1] in multiset(ShownSubmissions(values));
  }

  /** A submission other than the last is shown exactly when it is successful (or equals the last). */
  lemma ShownIffSuccessful(values: seq<SubmissionInfo>, x: SubmissionInfo)
    requires |values| > 0 && x in values[..|values| - 1] && x != values[|values| - 1]
    ensures x in ShownSubmissions(values) <==> IsSuccess(x)
  {
    var shown := ShownSubmissions(values);
    assert x in shown <==> x in multiset(shown);
    assert x in KeptSubmissions(values) <==> x in multiset(KeptSubmissions(values));
  }

  /** lastCheckingResponse is handed over only when it is for this course and slide. */
  function LastCheckingResponse(response: Option<CheckingResponse>, courseId: string, slideId: string): (r: Option<CheckingResponse>)
    ensures r.Some? <==> response.Some? && response.value.courseId == courseId && response.value.slideId == slideId
    ensures r.Some? ==> r == response
  {
    if !(response.Some? && response.value.courseId == courseId && response.value.slideId == slideId) then None
    else response
  }

  /** The slide's progress record, or the empty record when the user, the course or the slide has none. */
  function SlideProgressOf<P>(progress: Option<map<string, map<string, P>>>, courseId: string, slideId: string, empty: P): (r: P)
    ensures progress.Some? && courseId in progress.value && slideId in progress.value[courseId] ==> r == progress.value[courseId][slideId]
    ensures !(progress.Some? && courseId in progress.value && slideId in progress.value[courseId]) ==> r == empty
  {
    if progress.Some? && courseId in progress.value && slideId in progress.value[courseId]
    then progress.value[courseId][slideId] else empty
  }

  /** mapStateToProps. Indexing a course or slide that submissionsByCourses lacks throws, which is `None`. */
  function MapStateToProps<P>(
    submissionsByCourses: map<string, map<string, seq<SubmissionInfo>>>,
    lastCheckingResponse: Option<CheckingResponse>,
    progress: Option<map<string, map<string, P>>>, empty: P,
    courseId: string, slideId: string): (r: Option<ExerciseProps<P>>)
    ensures r.None? <==> courseId !in submissionsByCourses || slideId !in submissionsByCourses[courseId]
    ensures r.Some? ==> (r.value.submissions == ShownSubmissions(submissionsByCourses[courseId][slideId])
      && r.value.lastCheckingResponse == LastCheckingResponse(lastCheckingResponse, courseId, slideId)
      && r.value.slideProgress == SlideProgressOf(progress, courseId, slideId, empty))
  {
    if courseId !in submissionsByCourses || slideId !in submissionsByCourses[courseId] then None
    else Some(ExerciseProps(
      ShownSubmissions(submissionsByCourses[courseId][slideId]),
      LastCheckingResponse(lastCheckingResponse, courseId, slideId),
      SlideProgressOf(progress, courseId, slideId, empty)))
  }
}
