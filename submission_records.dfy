/** The records of the automatic-checking queue and the pure parts of
    src/Database.Core/Repos/UserSolutionsRepo.cs: building a new submission and
    its checking, deciding whether a verdict is a right answer, and building the
    finished checking record. */
module SubmissionRecords {
  import opened Wrappers
  import opened Strings

  /** Wall-clock time, in milliseconds. */
  type Time = int
  /** A slide's Guid; 0 stands for Guid.Empty. */
  type SlideId = nat
  const EmptyGuid: SlideId := 0

  const Second: int := 1000
  const Minute: int := 60 * Second
  /** Retention of the rendezvous entries (handleTimeout). */
  const HandleTimeout: int := 3 * Minute
  /** Only submissions younger than this are offered to checking agents. */
  const ClaimWindow: int := 15 * Minute
  /** One rendezvous slice of RunAutomaticChecking. */
  const HandledSlice: int := 5 * Second
  /** The Task.Delay of the polling loops. */
  const PollDelay: int := 100
  /** What blank code is stored as. */
  const NoCode: string := "// no code"
  /** The course id of the web runner, whose checkings have no slide. */
  const WebCourseId: string := "web"
  /** The tolerance of the points comparison (a float constant in the source). */
  const Eps: real := 0.00001

  datatype Status = Waiting | Running | Done

  datatype Language = CSharp | OtherLanguage(name: string)

  /** The checking agent's verdict; verdicts other than these two play no part here. */
  datatype Verdict = Ok | CompilationError | OtherVerdict(name: string)

  datatype ExerciseType = CheckExitCode | CheckOutput | CheckPoints | OtherExerciseType(name: string)

  datatype ExerciseBlock = ExerciseBlock(
    exerciseType: ExerciseType,
    expectedOutput: string,
    smallPointsIsBetter: bool,
    passingPoints: real)

  /** An exercise slide: its exercise block and the score for passing its tests. */
  datatype ExerciseSlide = ExerciseSlide(exercise: ExerciseBlock, passedTestsScore: int)

  /** What an agent reports for submission `id`. */
  datatype RunningResults = RunningResults(
    id: int,
    verdict: Verdict,
    compilationOutput: string,
    output: string,
    points: Option<real>)

  /** AutomaticExerciseChecking. Texts are stored in place of their content hashes. */
  datatype Checking = Checking(
    id: int,
    courseId: string,
    slideId: SlideId,
    userId: string,
    timestamp: Time,
    compilationError: string,
    isCompilationError: bool,
    output: string,
    executionServiceName: string,
    displayName: string,
    status: Status,
    isRightAnswer: bool,
    checkingAgentName: Option<string>,
    score: int,
    points: Option<real>,
    elapsed: Option<int>)

  /** UserExerciseSubmission; `likes` is the set of users who like it. */
  datatype Submission = Submission(
    courseId: string,
    slideId: SlideId,
    userId: string,
    timestamp: Time,
    solutionCode: string,
    codeHash: string,
    likes: set<string>,
    checkingId: Option<int>,
    automaticCheckingIsRightAnswer: bool,
    language: Language,
    sandbox: string)

  datatype Error =
    | SolutionNotFound(solutionId: int)
    | NullReference
    | SlideNotFound
    | UnknownExerciseType
    | SubmissionCheckingTimeout

  /** The only status changes the queue makes: a claim, and finalisation from any status. */
  predicate LegalStep(before: Status, after: Status) {
    before == after || (before == Waiting && after == Running) || after == Done
  }

  function Rank(s: Status): nat {
    match s
    case Waiting => 0
    case Running => 1
    case Done => 2
  }

  /** Legal steps compose, and a status never goes back. */
  lemma LegalStepsCompose(a: Status, b: Status, c: Status)
    requires LegalStep(a, b) && LegalStep(b, c)
    ensures LegalStep(a, c)
    ensures Rank(a) <= Rank(b) <= Rank(c)
  {
  }

  /** The code that is stored: blank code becomes "// no code". */
  function StoredCode(code: string): (r: string)
    ensures !IsBlank(r)
    ensures !IsBlank(code) ==> r == code
    ensures IsBlank(code) ==> r == NoCode
  {
    if IsBlank(code) then
      assert !IsWhiteSpace(NoCode[0]);
      NoCode
    else code
  }

  function TrimLines(lines: seq<string>): (r: seq<string>)
    ensures |r| == |lines|
    ensures forall i :: 0 <= i < |r| ==> r[i] == Trim(lines[i])
  {
    seq(|lines|, i requires 0 <= i < |lines| => Trim(lines[i]))
  }

  /** The text CodeHash is computed from: every line trimmed, all concatenated. */
  function NormalizedCode(code: string): string {
    Concat(TrimLines(Split(code, {'\n'})))
  }

  /** Whether a submission gets an automatic checking record. */
  predicate CreatesChecking(language: Language, autoCheckedLanguages: set<Language>, isUniversalExercise: bool) {
    language in autoCheckedLanguages && (language == CSharp || isUniversalExercise)
  }

  /** The checking record created together with a submission. */
  function NewChecking(
    id: int, courseId: string, slideId: SlideId, userId: string, now: Time,
    compilationError: string, output: string,
    executionServiceName: string, displayName: string, status: Status): (c: Checking)
    ensures c.id == id && c.status == status && c.timestamp == now
    ensures !c.isRightAnswer && c.checkingAgentName.None?
    ensures c.isCompilationError <==> !IsBlank(compilationError)
    ensures c.courseId == courseId && c.slideId == slideId && c.userId == userId
    ensures c.compilationError == compilationError && c.output == output
    ensures c.executionServiceName == executionServiceName && c.displayName == displayName
  {
    Checking(id, courseId, slideId, userId, now,
      compilationError, !IsBlank(compilationError), output,
      executionServiceName, displayName, status,
      false, None, 0, None, None)
  }

  /** The submission record; `checking` is the checking created with it, if any. */
  function NewSubmission(
    courseId: string, slideId: SlideId, userId: string, now: Time,
    code: string, language: Language, sandbox: string, checking: Option<Checking>): (s: Submission)
    ensures s.courseId == courseId && s.slideId == slideId && s.userId == userId && s.timestamp == now
    ensures s.solutionCode == StoredCode(code) && !IsBlank(s.solutionCode)
    ensures s.codeHash == NormalizedCode(s.solutionCode)
    ensures s.language == language && s.sandbox == sandbox
    ensures s.likes == {}
    ensures s.checkingId.Some? <==> checking.Some?
    ensures checking.Some? ==> s.checkingId == Some(checking.value.id)
    ensures s.automaticCheckingIsRightAnswer <==> (checking.None? || checking.value.isRightAnswer)
  {
    var stored := StoredCode(code);
    Submission(courseId, slideId, userId, now, stored, NormalizedCode(stored), {},
      if checking.Some? then Some(checking.value.id) else None,
      if checking.Some? then checking.value.isRightAnswer else true,
      language, sandbox)
  }

  /** NormalizeEoln: every "\r\n" becomes "\n". */
  function NormalizeEoln(s: string): (r: string)
    ensures |r| <= |s|
    ensures '\r' !in s ==> r == s
  {
    if |s| < 2 then s
    else if s[0] == '\r' && s[1] == '\n' then "\n" + NormalizeEoln(s[2..])
    else [s[0]] + NormalizeEoln(s[1..])
  }

  /** The points pass: within the tolerance below the bar when smaller is better, above it otherwise. */
  predicate PassesPoints(points: real, block: ExerciseBlock) {
    if block.smallPointsIsBetter then points < block.passingPoints + Eps else points > block.passingPoints - Eps
  }

  /** IsRightAnswer; `block` is None for the sandbox runner and the web runner. */
  function IsRightAnswer(result: RunningResults, output: string, block: Option<ExerciseBlock>): (r: Result<bool, Error>)
    ensures r.Failure? <==> result.verdict == Ok && block.Some? && block.value.exerciseType.OtherExerciseType?
    ensures r.Failure? ==> r.error == UnknownExerciseType
    ensures r == Success(true) ==> result.verdict == Ok && block.Some?
    ensures result.verdict == Ok && block.Some? && block.value.exerciseType == CheckOutput ==>
      (r == Success(true) <==> output == NormalizeEoln(block.value.expectedOutput))
    ensures result.verdict == Ok && block.Some? && block.value.exerciseType == CheckPoints ==>
      (r == Success(true) <==> result.points.Some? && PassesPoints(result.points.value, block.value))
    ensures result.verdict == Ok && block.Some? && block.value.exerciseType == CheckExitCode ==> r == Success(true)
  {
    if result.verdict != Ok then Success(false)
    else if block.None? then Success(false)
    else
      var b := block.value;
      match b.exerciseType
      case CheckExitCode => Success(true)
      case CheckOutput => Success(output == NormalizeEoln(b.expectedOutput))
      case CheckPoints =>
        Success(result.points.Some? && PassesPoints(result.points.value, b))
      case OtherExerciseType(_) => Failure(UnknownExerciseType)
  }

  /** The course metadata the finalisation reads: the exercise slides by (course, slide). */
  type Catalog = map<(string, SlideId), ExerciseSlide>

  predicate IsWebRunner(checking: Checking) {
    checking.courseId == WebCourseId && checking.slideId == EmptyGuid
  }

  /** UpdateAutomaticExerciseChecking: the finished checking record built from an agent's report.
      A slide that the catalog does not hold makes the lookup throw. */
  function FinishedChecking(checking: Checking, result: RunningResults, catalog: Catalog, isSkipped: bool, now: Time): (r: Result<Checking, Error>)
    ensures r.Failure? <==>
      (!IsWebRunner(checking) && (checking.courseId, checking.slideId) !in catalog)
      || IsRightAnswer(result, NormalizeEoln(result.output), ExerciseOf(checking, catalog)).Failure?
    ensures r.Success? ==> var c := r.value;
      && c.status == Done
      && c.id == checking.id && c.courseId == checking.courseId && c.slideId == checking.slideId
      && c.userId == checking.userId && c.timestamp == checking.timestamp
      && c.executionServiceName == checking.executionServiceName && c.displayName == checking.displayName
      && c.checkingAgentName == checking.checkingAgentName
      && (c.isCompilationError <==> result.verdict == CompilationError)
      && c.output == NormalizeEoln(result.output)
      && c.compilationError == result.compilationOutput
      && c.points == result.points
      && c.elapsed == Some(now - checking.timestamp)
      && c.isRightAnswer == IsRightAnswer(result, NormalizeEoln(result.output), ExerciseOf(checking, catalog)).value
      && (c.isRightAnswer ==> result.verdict == Ok && !IsWebRunner(checking))
      && (c.score != 0 ==> c.isRightAnswer && !isSkipped && !IsWebRunner(checking))
      && (c.isRightAnswer && !isSkipped ==> c.score == catalog[(checking.courseId, checking.slideId)].passedTestsScore)
  {
    var output := NormalizeEoln(result.output);
    if !IsWebRunner(checking) && (checking.courseId, checking.slideId) !in catalog then Failure(SlideNotFound)
    else
      var slide := if IsWebRunner(checking) then None else Some(catalog[(checking.courseId, checking.slideId)]);
      var right := IsRightAnswer(result, output, ExerciseOf(checking, catalog));
      if right.Failure? then Failure(right.error)
      else
        var score := if slide.Some? && right.value then slide.value.passedTestsScore else 0;
        var finalScore := if isSkipped then 0 else score;
        Success(Checking(checking.id, checking.courseId, checking.slideId, checking.userId, checking.timestamp,
          result.compilationOutput, result.verdict == CompilationError, output,
          checking.executionServiceName, checking.displayName, Done,
          right.value, checking.checkingAgentName, finalScore, result.points,
          Some(now - checking.timestamp)))
  }

  /** The exercise block the verdict is judged against: none for the web runner. */
  function ExerciseOf(checking: Checking, catalog: Catalog): Option<ExerciseBlock> {
    if IsWebRunner(checking) || (checking.courseId, checking.slideId) !in catalog then None
    else Some(catalog[(checking.courseId, checking.slideId)].exercise)
  }

  /** Finalising an already finished record again with the same report changes nothing. */
  lemma FinishedCheckingIdempotent(checking: Checking, result: RunningResults, catalog: Catalog, isSkipped: bool, now: Time)
    requires FinishedChecking(checking, result, catalog, isSkipped, now).Success?
    ensures FinishedChecking(FinishedChecking(checking, result, catalog, isSkipped, now).value, result, catalog, isSkipped, now)
         == FinishedChecking(checking, result, catalog, isSkipped, now)
  {
  }

  /** A concatenation of trimmed pieces is itself trimmed. */
  lemma {:induction false} ConcatTrimmed(parts: seq<string>)
    requires forall i :: 0 <= i < |parts| ==> Trimmed(parts[i])
    ensures Trimmed(Concat(parts))
  {
    if |parts| > 0 {
      ConcatTrimmed(parts[1..]);
      var rest := Concat(parts[1..]);
      assert Concat(parts) == parts[0] + rest;
      if |parts[0]| == 0 {
        assert Concat(parts) == rest;
      } else if |rest| > 0 {
        assert Concat(parts)[0] == parts[0][0];
        assert Concat(parts)[|Concat(parts)| - 1] == rest[|rest| - 1];
      }
    }
  }

  /** A concatenation of pieces without separators has no separator. */
  lemma {:induction false} ConcatAvoids(parts: seq<string>, c: char)
    requires forall k :: 0 <= k < |parts| ==> c !in parts[k]
    ensures c !in Concat(parts)
  {
    if |parts| > 0 {
      ConcatAvoids(parts[1..], c);
      assert Concat(parts) == parts[0] + Concat(parts[1..]);
    }
  }

  /** Trimming never introduces a character. */
  lemma TrimAvoids(s: string, c: char)
    requires c !in s
    ensures c !in Trim(s)
  {
    var a, b :| 0 <= a <= b <= |s| && Trim(s) == s[a..b];
    assert forall i :: 0 <= i < b - a ==> Trim(s)[i] == s[a + i];
  }

  /** The trimmed lines of a text contain no line break and are trimmed. */
  lemma TrimmedLines(code: string)
    ensures forall k :: 0 <= k < |TrimLines(Split(code, {'\n'}))| ==> '\n' !in TrimLines(Split(code, {'\n'}))[k]
    ensures forall k :: 0 <= k < |TrimLines(Split(code, {'\n'}))| ==> Trimmed(TrimLines(Split(code, {'\n'}))[k])
  {
    var pieces := Split(code, {'\n'});
    forall k | 0 <= k < |pieces|
      ensures '\n' !in Trim(pieces[k])
    {
      assert forall i :: 0 <= i < |pieces[k]| ==> pieces[k][i] != '\n';
      TrimAvoids(pieces[k], '\n');
    }
  }

  /** The code normalisation behind CodeHash is idempotent and leaves no line breaks. */
  lemma NormalizedCodeIdempotent(code: string)
    ensures '\n' !in NormalizedCode(code)
    ensures Trimmed(NormalizedCode(code))
    ensures NormalizedCode(NormalizedCode(code)) == NormalizedCode(code)
  {
    var lines := TrimLines(Split(code, {'\n'}));
    TrimmedLines(code);
    ConcatAvoids(lines, '\n');
    ConcatTrimmed(lines);
    var n := NormalizedCode(code);
    SplitNoSeparator(n, {'\n'});
    assert TrimLines([n]) == [n];
    assert Concat([n]) == n + Concat([]);
  }
}
