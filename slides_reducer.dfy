/** The slides reducer (redux/slides.js): loading a slide stores its blocks per course and
    slide, and moves the submissions of its exercise block into a per-slide index by id. */
module SlidesReducer {
  import opened Wrappers
  import opened ExerciseUtils
  import opened Seqs

  /** A block of a loaded slide: its `$type` and, for an exercise block, its submissions
      (`None` once they have been moved out, or when the server sent none). */
  datatype ApiBlock = ApiBlock(typeName: string, submissions: Option<seq<SubmissionInfo>>)

  datatype SlidesState = SlidesState(
    slidesByCourses: map<string, map<string, seq<ApiBlock>>>,
    submissionsByCourses: map<string, map<string, map<int, SubmissionInfo>>>,
    slideLoading: bool,
    slideError: Option<string>)

  /** The three phases of COURSES__SLIDE_LOAD, and any other action. */
  datatype Action =
    | Start
    | Success(courseId: string, slideId: string, result: seq<ApiBlock>)
    | Fail(error: string)
    | OtherAction

  /** The state before any action. */
  const InitialState := SlidesState(map[], map[], false, None)

  /** Ids mapped to submissions; a later submission with an id replaces an earlier one. */
  function IndexById(s: seq<SubmissionInfo>): map<int, SubmissionInfo> {
    if |s| == 0 then map[] else IndexById(s[..|s| - 1])[s[|s| - 1].id := s[|s| - 1]]
  }

  /** The index holds exactly the ids of the submissions, each mapped to the last submission
      carrying it. */
  lemma {:induction false} IndexByIdHoldsLast(s: seq<SubmissionInfo>, id: int)
    ensures id in IndexById(s) <==> exists i :: 0 <= i < |s| && s[i].id == id
    ensures id in IndexById(s) ==> exists i :: (0 <= i < |s| && IndexById(s)[id] == s[i] && s[i].id == id
      && forall j :: i < j < |s| ==> s[j].id != id)
  {
    if |s| > 0 {
      var init := s[..|s| - 1];
      IndexByIdHoldsLast(init, id);
      assert forall i :: 0 <= i < |init| ==> init[i] == s[i];
      if s[|s| - 1].id != id && id in IndexById(init) {
        var i :| 0 <= i < |init| && IndexById(init)[id] == init[i] && init[i].id == id
          && forall j :: i < j < |init| ==> init[j].id != id;
        assert IndexById(s)[id] == s[i];
      }
    }
  }

  /** The for-of loop over the exercise block's submissions. */
  method IndexSubmissions(submissions: seq<SubmissionInfo>) returns (exerciseSubmissions: map<int, SubmissionInfo>)
    ensures exerciseSubmissions == IndexById(submissions)
  {
    exerciseSubmissions := map[];
    for i := 0 to |submissions|
      invariant exerciseSubmissions == IndexById(submissions[..i])
    {
      assert submissions[..i + 1][..i] == submissions[..i];
      exerciseSubmissions := exerciseSubmissions[submissions[i].id := submissions[i]];
    }
    assert submissions[..|submissions|] == submissions;
  }

  /** Array.prototype.find: the index of the first block of the given type. */
  function FindBlock(result: seq<ApiBlock>, typeName: string): (r: Option<nat>)
    ensures r.Some? ==> (r.value < |result| && result[r.value].typeName == typeName
      && forall j :: 0 <= j < r.value ==> result[j].typeName != typeName)
    ensures r.None? ==> forall j :: 0 <= j < |result| ==> result[j].typeName != typeName
  {
    FirstIndex(result, (b: ApiBlock) => b.typeName == typeName)
  }

  /** The slide stored for a course and slide, if any. */
  function StoredSlide(state: SlidesState, courseId: string, slideId: string): Option<seq<ApiBlock>> {
    if courseId in state.slidesByCourses && slideId in state.slidesByCourses[courseId]
    then Some(state.slidesByCourses[courseId][slideId]) else None
  }

  /** The submissions stored for a course and slide, if any. */
  function StoredSubmissions(state: SlidesState, courseId: string, slideId: string): Option<map<int, SubmissionInfo>> {
    if courseId in state.submissionsByCourses && slideId in state.submissionsByCourses[courseId]
    then Some(state.submissionsByCourses[courseId][slideId]) else None
  }

  /** `{ ...m, [outer]: { ...m[outer], [inner]: v } }`, a missing inner map spreading as empty. */
  function Nested<V>(m: map<string, map<string, V>>, outer: string, inner: string, v: V): (r: map<string, map<string, V>>)
    ensures r.Keys == m.Keys + {outer}
    ensures inner in r[outer] && r[outer][inner] == v
    ensures forall o :: o in m && o != outer ==> r[o] == m[o]
    ensures outer in m ==> (r[outer].Keys == m[outer].Keys + {inner}
      && forall i :: i in m[outer] && i != inner ==> r[outer][i] == m[outer][i])
    ensures outer !in m ==> r[outer].Keys == {inner}
  {
    m[outer := (if outer in m then m[outer] else map[])[inner := v]]
  }

  /** The reducer. `exerciseType` is the `$type` of exercise blocks; `None` is the TypeError
      thrown when the exercise block of a loaded slide has no submissions. The block itself is
      updated in place, so the stored slide is the result with those submissions cleared. */
  method Reduce(state: SlidesState, action: Action, exerciseType: string) returns (r: Option<SlidesState>)
    ensures action.Start? ==> r == Some(state.(slideLoading := true, slideError := None))
    ensures action.Fail? ==> r == Some(state.(slideLoading := false, slideError := Some(action.error)))
    ensures action.OtherAction? ==> r == Some(state)
    ensures action.Success? ==>
      var exercise := FindBlock(action.result, exerciseType);
      (r.None? <==> exercise.Some? && action.result[exercise.value].submissions.None?)
      && (r.Some? ==>
        && !r.value.slideLoading && r.value.slideError.None?
        && r.value.slidesByCourses == Nested(state.slidesByCourses, action.courseId, action.slideId,
             if exercise.Some? then action.result[exercise.value := action.result[exercise.value].(submissions := None)]
             else action.result)
        && r.value.submissionsByCourses == (
             if exercise.Some?
             then Nested(state.submissionsByCourses, action.courseId, action.slideId,
                    IndexById(action.result[exercise.value].submissions.value))
             else state.submissionsByCourses))
  {
    match action {
      case Start =>
        r := Some(state.(slideLoading := true, slideError := None));
      case Success(courseId, slideId, result) =>
        var newState := state.(slideLoading := false, slideError := None);
        var stored := result;
        var exerciseBlock := FindBlock(result, exerciseType);
        if exerciseBlock.Some? {
          var block := result[exerciseBlock.value];
          if block.submissions.None? {
            return None;
          }
          var exerciseSubmissions := IndexSubmissions(block.submissions.value);
          stored := result[exerciseBlock.value := block.(submissions := None)];
          newState := newState.(submissionsByCourses :=
            Nested(newState.submissionsByCourses, courseId, slideId, exerciseSubmissions));
        }
        newState := newState.(slidesByCourses := Nested(state.slidesByCourses, courseId, slideId, stored));
        r := Some(newState);
      case Fail(error) =>
        r := Some(state.(slideLoading := false, slideError := Some(error)));
      case OtherAction =>
        r := Some(state);
    }
  }

  /** Loading a slide changes the stored slides and submissions of that slide only. */
  lemma SuccessKeepsOtherSlides(state: SlidesState, courseId: string, slideId: string, result: seq<ApiBlock>,
                                exerciseType: string, after: SlidesState, c: string, s: string)
    requires (c, s) != (courseId, slideId)
    requires after.slidesByCourses == Nested(state.slidesByCourses, courseId, slideId, result)
    ensures StoredSlide(after, c, s) == StoredSlide(state, c, s)
  {
  }

  /** The same for the submission index. */
  lemma SuccessKeepsOtherSubmissions(state: SlidesState, courseId: string, slideId: string,
                                     index: map<int, SubmissionInfo>, after: SlidesState, c: string, s: string)
    requires (c, s) != (courseId, slideId)
    requires after.submissionsByCourses == Nested(state.submissionsByCourses, courseId, slideId, index)
    ensures StoredSubmissions(after, c, s) == StoredSubmissions(state, c, s)
  {
  }

  /** A loaded slide is stored as sent, except that its exercise block no longer carries
      submissions, and those submissions are now found by id. */
  lemma LoadedSlideIsStored(state: SlidesState, courseId: string, slideId: string,
                                              result: seq<ApiBlock>, exerciseType: string, after: SlidesState)
    requires after.slidesByCourses == Nested(state.slidesByCourses, courseId, slideId,
      var exercise := FindBlock(result, exerciseType);
      if exercise.Some? then result[exercise.value := result[exercise.value].(submissions := None)] else result)
    ensures StoredSlide(after, courseId, slideId).Some?
    ensures |StoredSlide(after, courseId, slideId).value| == |result|
    ensures forall j :: 0 <= j < |result| ==> StoredSlide(after, courseId, slideId).value[j].typeName == result[j].typeName
    ensures var exercise := FindBlock(result, exerciseType);
      exercise.Some? ==> StoredSlide(after, courseId, slideId).value[exercise.value].submissions.None?
  {
  }
}
