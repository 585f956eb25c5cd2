/** The submission helpers of the exercise block (ExerciseUtils.ts): the colour of a
    submission, which submissions count as successful, the review lists, and the review
    under the editor's cursor. A JavaScript `null`/`undefined` is `None`; reference
    identity (`===`) between submissions is value equality. */
module ExerciseUtils {
  import opened Wrappers
  import opened Seqs

  datatype RunStatus = RunSuccess | RunCompilationError | RunIgnored | OtherRunStatus(name: string)

  datatype CheckingResult = RightAnswer | WrongAnswer | CompilationError | RuntimeError | NotChecked | OtherResult(name: string)

  datatype SubmissionColor = MaxResult | NeedImprovements | WrongAnswer | Message

  datatype Comment = Comment(id: int, text: string, isDeleted: bool, isLoading: bool)

  datatype Review = Review(
    id: int, startLine: int, startPosition: int, finishLine: int, finishPosition: int,
    comments: seq<Comment>, addingTime: Option<int>)

  datatype AutomaticChecking = AutomaticChecking(result: CheckingResult, reviews: Option<seq<Review>>)

  datatype SubmissionInfo = SubmissionInfo(
    id: int, timestamp: int, automaticChecking: Option<AutomaticChecking>, manualCheckingReviews: Option<seq<Review>>)

  /** The run failed to compile, or the checker reported a compilation error, a wrong answer
      or a runtime error. */
  predicate IsFailedRun(runStatus: Option<RunStatus>, checkingResult: Option<CheckingResult>) {
    runStatus == Some(RunCompilationError)
    || checkingResult == Some(CheckingResult.CompilationError)
    || checkingResult == Some(CheckingResult.WrongAnswer)
    || checkingResult == Some(RuntimeError)
  }

  /** getSubmissionColor. */
  function GetSubmissionColor(
    runStatus: Option<RunStatus>, checkingResult: Option<CheckingResult>,
    hasSuccessSolution: bool, isLast: bool, isLastSuccess: bool,
    prohibitFurtherManualChecking: bool, isSkipped: bool, isMaxScore: bool): (r: SubmissionColor)
    ensures r == SubmissionColor.WrongAnswer <==> IsFailedRun(runStatus, checkingResult)
    ensures !IsFailedRun(runStatus, checkingResult) && runStatus == Some(RunIgnored) ==> r == NeedImprovements
    ensures !IsFailedRun(runStatus, checkingResult) && runStatus != Some(RunIgnored) && isSkipped ==>
      r == (if isLast then MaxResult else Message)
    ensures !IsFailedRun(runStatus, checkingResult) && runStatus != Some(RunIgnored) && !isSkipped && isLastSuccess ==>
      (r == NeedImprovements <==> !isMaxScore && !prohibitFurtherManualChecking) && r != Message
    ensures !IsFailedRun(runStatus, checkingResult) && runStatus != Some(RunIgnored) && !isSkipped && !isLastSuccess ==>
      (r == NeedImprovements <==> isLast && !isMaxScore && !prohibitFurtherManualChecking) && r != MaxResult
  {
    if IsFailedRun(runStatus, checkingResult) then SubmissionColor.WrongAnswer
    else if runStatus == Some(RunIgnored) then NeedImprovements
    else if isSkipped then (if isLast then MaxResult else Message)
    else if isLastSuccess then
      (if !isMaxScore && !prohibitFurtherManualChecking then NeedImprovements else MaxResult)
    else if isLast && !isMaxScore && !prohibitFurtherManualChecking then NeedImprovements
    else Message
  }

  /** The colour never depends on whether the learner already has a successful submission. */
  lemma ColorIgnoresHasSuccess(
    runStatus: Option<RunStatus>, checkingResult: Option<CheckingResult>, isLast: bool, isLastSuccess: bool,
    prohibitFurtherManualChecking: bool, isSkipped: bool, isMaxScore: bool)
    ensures GetSubmissionColor(runStatus, checkingResult, true, isLast, isLastSuccess, prohibitFurtherManualChecking, isSkipped, isMaxScore)
         == GetSubmissionColor(runStatus, checkingResult, false, isLast, isLastSuccess, prohibitFurtherManualChecking, isSkipped, isMaxScore)
  {
  }

  /** A submission at the maximal score, or one closed to further review, is only asked for
      improvement when its run was ignored. */
  lemma NoImprovementAtMaxScore(
    runStatus: Option<RunStatus>, checkingResult: Option<CheckingResult>, hasSuccessSolution: bool,
    isLast: bool, isLastSuccess: bool, prohibitFurtherManualChecking: bool, isSkipped: bool, isMaxScore: bool)
    requires isMaxScore || prohibitFurtherManualChecking
    requires GetSubmissionColor(runStatus, checkingResult, hasSuccessSolution, isLast, isLastSuccess,
      prohibitFurtherManualChecking, isSkipped, isMaxScore) == NeedImprovements
    ensures runStatus == Some(RunIgnored)
  {
  }

  /** The submission passed the automatic check, or has none. */
  predicate IsSuccess(s: SubmissionInfo) {
    s.automaticChecking.None? || s.automaticChecking.value.result == RightAnswer
  }

  /** IsSuccessSubmission: a present submission that is successful. */
  predicate IsSuccessSubmission(s: Option<SubmissionInfo>) {
    s.Some? && IsSuccess(s.value)
  }

  /** hasSuccessSubmission: some submission of the list is successful. */
  predicate HasSuccessSubmission(submissions: seq<SubmissionInfo>) {
    exists i :: 0 <= i < |submissions| && IsSuccessSubmission(Some(submissions[i]))
  }

  /** submissionIsLast: the submission is the head of the list (which is newest first). */
  function SubmissionIsLast(submissions: seq<SubmissionInfo>, submission: Option<SubmissionInfo>): (r: bool)
    ensures r ==> submission.Some? && submission.value in submissions
    ensures r <==> |submissions| > 0 && submission == Some(submissions[0])
  {
    |submissions| > 0 && Some(submissions[0]) == submission
  }

  /** getLastSuccessSubmission: the first successful submission in list order, if any. */
  function GetLastSuccessSubmission(submissions: seq<SubmissionInfo>): (r: Option<SubmissionInfo>)
    ensures r.None? <==> forall i :: 0 <= i < |submissions| ==> !IsSuccess(submissions[i])
    ensures r.Some? ==> exists i :: (0 <= i < |submissions| && submissions[i] == r.value && IsSuccess(r.value)
      && forall j :: 0 <= j < i ==> !IsSuccess(submissions[j]))
  {
    var successes := Filter(submissions, IsSuccess);
    FilterEmpty(submissions, IsSuccess);
    if |successes| > 0 then
      FilterFirst(submissions, IsSuccess);
      Some(successes[0])
    else None
  }

  /** There is a successful submission exactly when getLastSuccessSubmission finds one. */
  lemma HasSuccessIffLastSuccess(submissions: seq<SubmissionInfo>)
    ensures HasSuccessSubmission(submissions) <==> GetLastSuccessSubmission(submissions).Some?
  {
    if GetLastSuccessSubmission(submissions).None? {
      assert forall i :: 0 <= i < |submissions| ==> !IsSuccessSubmission(Some(submissions[i]));
    } else {
      var i :| 0 <= i < |submissions| && submissions[i] == GetLastSuccessSubmission(submissions).value
        && IsSuccess(submissions[i]) && forall j :: 0 <= j < i ==> !IsSuccess(submissions[j]);
      assert IsSuccessSubmission(Some(submissions[i]));
    }
  }

  /** isFirstRightAnswer: the submission is the last successful one in list order, that is
      the oldest success of a newest-first list. */
  function IsFirstRightAnswer(submissions: seq<SubmissionInfo>, successSubmission: SubmissionInfo): (r: bool)
    ensures r <==> exists i :: (0 <= i < |submissions| && submissions[i] == successSubmission
      && IsSuccess(successSubmission) && forall j :: i < j < |submissions| ==> !IsSuccess(submissions[j]))
  {
    var successes := Filter(submissions, IsSuccess);
    FirstRightAnswerAt(submissions, successSubmission);
    |successes| > 0 && successes[|successes| - 1] == successSubmission
  }

  /** The last kept success is the success after which no other submission succeeds. */
  lemma FirstRightAnswerAt(submissions: seq<SubmissionInfo>, s: SubmissionInfo)
    ensures var successes := Filter(submissions, IsSuccess);
      (|successes| > 0 && successes[|successes| - 1] == s) <==>
      exists i :: (0 <= i < |submissions| && submissions[i] == s
        && IsSuccess(s) && forall j :: i < j < |submissions| ==> !IsSuccess(submissions[j]))
  {
    var successes := Filter(submissions, IsSuccess);
    if |successes| > 0 {
      FilterLast(submissions, IsSuccess);
      var k :| 0 <= k < |submissions| && submissions[k] == successes[|successes| - 1] && IsSuccess(submissions[k])
        && forall j :: k < j < |submissions| ==> !IsSuccess(submissions[j]);
      if exists i :: (0 <= i < |submissions| && submissions[i] == s
        && IsSuccess(s) && forall j :: i < j < |submissions| ==> !IsSuccess(submissions[j]))
      {
        var i :| 0 <= i < |submissions| && submissions[i] == s
          && IsSuccess(s) && forall j :: i < j < |submissions| ==> !IsSuccess(submissions[j]);
        assert !(i < k) && !(k < i);
      }
    } else {
      FilterEmpty(submissions, IsSuccess);
    }
  }

  /** isSubmissionShouldBeEditable: the optional-chained result is neither RightAnswer nor NotChecked. */
  function IsSubmissionShouldBeEditable(submission: SubmissionInfo): (r: bool)
    ensures submission.automaticChecking.None? ==> r
    ensures submission.automaticChecking.Some? ==>
      (r <==> submission.automaticChecking.value.result !in {RightAnswer, NotChecked})
  {
    var result := if submission.automaticChecking.Some? then Some(submission.automaticChecking.value.result) else None;
    result != Some(RightAnswer) && result != Some(NotChecked)
  }

  /** A comment that is shown: neither deleted nor still loading. */
  predicate IsShownComment(c: Comment) {
    !c.isDeleted && !c.isLoading
  }

  /** getReviewsWithoutDeleted: every review, with only its shown comments. */
  function GetReviewsWithoutDeleted(reviews: seq<Review>): (r: seq<Review>)
    ensures |r| == |reviews|
    ensures forall i :: 0 <= i < |r| ==> r[i].(comments := reviews[i].comments) == reviews[i]
    ensures forall i, c :: 0 <= i < |r| && c in reviews[i].comments ==> (c in r[i].comments <==> IsShownComment(c))
    ensures forall i, c :: 0 <= i < |r| ==>
      multiset(r[i].comments)[c] == (if IsShownComment(c) then multiset(reviews[i].comments)[c] else 0)
    ensures forall i :: 0 <= i < |r| ==> IsSubsequence(r[i].comments, reviews[i].comments)
  {
    var r := seq(|reviews|, i requires 0 <= i < |reviews| => reviews[i].(comments := Filter(reviews[i].comments, IsShownComment)));
    forall i, c | 0 <= i < |r|
      ensures c in reviews[i].comments ==> (c in r[i].comments <==> IsShownComment(c))
      ensures multiset(r[i].comments)[c] == (if IsShownComment(c) then multiset(reviews[i].comments)[c] else 0)
    {
      FilterMembers(reviews[i].comments, IsShownComment, c);
      FilterCounts(reviews[i].comments, IsShownComment, c);
    }
    forall i | 0 <= i < |r|
      ensures IsSubsequence(r[i].comments, reviews[i].comments)
    {
      FilterSubsequence(reviews[i].comments, IsShownComment);
    }
    r
  }

  /** The manual reviews, or none when the list is missing. */
  function ManualReviews(s: SubmissionInfo): seq<Review> {
    s.manualCheckingReviews.GetOr([])
  }

  /** The reviews of the automatic checking, or none when the checking or its list is missing. */
  function AutomaticReviews(s: SubmissionInfo): seq<Review> {
    if s.automaticChecking.Some? && s.automaticChecking.value.reviews.Some? then s.automaticChecking.value.reviews.value else []
  }

  /** getAllReviewsFromSubmission: the manual reviews followed by the automatic ones. */
  function GetAllReviewsFromSubmission(submission: Option<SubmissionInfo>): (r: seq<Review>)
    ensures submission.None? ==> r == []
    ensures submission.Some? ==> (|r| == |ManualReviews(submission.value)| + |AutomaticReviews(submission.value)|
      && r[..|ManualReviews(submission.value)|] == ManualReviews(submission.value)
      && r[|ManualReviews(submission.value)|..] == AutomaticReviews(submission.value))
  {
    if submission.None? then []
    else
      var manual := ManualReviews(submission.value);
      var auto := AutomaticReviews(submission.value);
      assert (manual + auto)[..|manual|] == manual;
      assert (manual + auto)[|manual|..] == auto;
      manual + auto
  }

  /** The review's range covers the cursor at (line, ch). */
  predicate Covers(r: Review, line: int, ch: int) {
    r.startLine <= line && r.finishLine >= line
    && !(r.startLine == line && ch < r.startPosition)
    && !(r.finishLine == line && r.finishPosition < ch)
  }

  /** The comparator of getSelectedReviewIdByCursor, up to its time tie-break: shorter
      selections first, then earlier start line, then earlier start position. */
  predicate Precedes(a: Review, b: Review, selectionLength: Review -> int) {
    selectionLength(a) < selectionLength(b)
    || (selectionLength(a) == selectionLength(b) && a.startLine < b.startLine)
    || (selectionLength(a) == selectionLength(b) && a.startLine == b.startLine && a.startPosition < b.startPosition)
  }

  /** The first review of a non-empty list that no other review precedes. */
  function FirstMinimal(reviews: seq<Review>, selectionLength: Review -> int): (r: Review)
    requires |reviews| > 0
    ensures r in reviews
    ensures forall i :: 0 <= i < |reviews| ==> !Precedes(reviews[i], r, selectionLength)
  {
    if |reviews| == 1 then reviews[0]
    else
      var rest := FirstMinimal(reviews[1..], selectionLength);
      assert forall i :: 1 <= i < |reviews| ==> reviews[i] == reviews[1..][i - 1];
      if Precedes(rest, reviews[0], selectionLength) then rest else reviews[0]
  }

  /** The reviews under the cursor (the filter of getSelectedReviewIdByCursor). */
  function ReviewsUnderCursor(reviews: seq<Review>, line: int, ch: int): (r: seq<Review>)
    ensures forall x :: x in r <==> x in reviews && Covers(x, line, ch)
  {
    var covering := (x: Review) => Covers(x, line, ch);
    forall x ensures x in Filter(reviews, covering) <==> x in reviews && Covers(x, line, ch) {
      FilterMembers(reviews, covering, x);
    }
    Filter(reviews, covering)
  }

  /** getSelectedReviewIdByCursor: -1 when no review covers the cursor, otherwise the id of a
      covering review that no covering review precedes. `selectionLength` is the length of a
      review's text range in the editor. */
  function GetSelectedReviewIdByCursor(reviews: seq<Review>, line: int, ch: int, selectionLength: Review -> int): (r: int)
    ensures (forall i :: 0 <= i < |reviews| ==> !Covers(reviews[i], line, ch)) ==> r == -1
    ensures (exists i :: 0 <= i < |reviews| && Covers(reviews[i], line, ch)) ==>
      exists i :: (0 <= i < |reviews| && Covers(reviews[i], line, ch) && r == reviews[i].id
        && forall j :: 0 <= j < |reviews| && Covers(reviews[j], line, ch) ==> !Precedes(reviews[j], reviews[i], selectionLength))
  {
    var under := ReviewsUnderCursor(reviews, line, ch);
    if |under| == 0 then
      assert forall i :: 0 <= i < |reviews| ==> reviews[i] !in under;
      -1
    else
      var best := FirstMinimal(under, selectionLength);
      assert forall j :: 0 <= j < |reviews| && Covers(reviews[j], line, ch) ==> reviews[j] in under;
      best.id
  }

  /** The submission was accepted by the automatic check. */
  predicate IsRightAnswer(s: SubmissionInfo) {
    s.automaticChecking.Some? && s.automaticChecking.value.result == RightAnswer
  }

  /** isAcceptedSolutionsWillNotDiscardScore: the slide is skipped, or some submission is a right answer. */
  function IsAcceptedSolutionsWillNotDiscardScore(submissions: seq<SubmissionInfo>, isSkipped: bool): (r: bool)
    ensures r <==> isSkipped || exists i :: 0 <= i < |submissions| && IsRightAnswer(submissions[i])
  {
    FilterEmpty(submissions, IsRightAnswer);
    |Filter(submissions, IsRightAnswer)| > 0 || isSkipped
  }
}
