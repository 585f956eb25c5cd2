/** The response for one code review (ReviewInfo.Build in ReviewInfo.cs). Times are
    milliseconds since the Unix epoch. */
module ReviewInfoModel {
  import opened Wrappers
  import opened Seqs

  const UnixEpoch: int := 0

  datatype UserInfo = UserInfo(id: string, visibleName: string)

  datatype ExerciseCodeReview = ExerciseCodeReview(
    comment: string, author: UserInfo, addingTime: int,
    startLine: int, startPosition: int, finishLine: int, finishPosition: int)

  datatype ReviewComment = ReviewComment(id: int, text: string, author: UserInfo, addingTime: int)

  datatype ReviewInfo = ReviewInfo(
    author: Option<UserInfo>, startLine: int, startPosition: int, finishLine: int, finishPosition: int,
    comment: string, addingTime: Option<int>, comments: seq<ReviewComment>)

  function AddingTimeOf(c: ReviewComment): int {
    c.addingTime
  }

  /** ReviewInfo.Build: the bot has no author and no time, an unset time (at or before the
      epoch) is none, and the comments are ordered by time, a missing list being empty. */
  function Build(r: ExerciseCodeReview, comments: Option<seq<ReviewComment>>, isUlearnBot: bool): (info: ReviewInfo)
    ensures info.author.None? <==> isUlearnBot
    ensures info.author.Some? ==> info.author.value == r.author
    ensures info.addingTime.None? <==> isUlearnBot || r.addingTime <= UnixEpoch
    ensures info.addingTime.Some? ==> info.addingTime.value == r.addingTime
    ensures info.comment == r.comment
    ensures info.startLine == r.startLine && info.startPosition == r.startPosition
    ensures info.finishLine == r.finishLine && info.finishPosition == r.finishPosition
    ensures comments.None? ==> info.comments == []
    ensures comments.Some? ==> multiset(info.comments) == multiset(comments.value)
    ensures forall i, j :: 0 <= i < j < |info.comments| ==> info.comments[i].addingTime <= info.comments[j].addingTime
  {
    var ordered := SortBy(comments.GetOr([]), AddingTimeOf);
    assert forall i, j :: 0 <= i < j < |ordered| ==> AddingTimeOf(ordered[i]) <= AddingTimeOf(ordered[j]);
    ReviewInfo(
      if isUlearnBot then None else Some(r.author),
      r.startLine, r.startPosition, r.finishLine, r.finishPosition,
      r.comment,
      if isUlearnBot || r.addingTime <= UnixEpoch then None else Some(r.addingTime),
      ordered)
  }
}
