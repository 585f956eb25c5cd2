/** The anti-plagiarism store of most similar submissions
    (AntiPlagiarism.Web/Database/Repos/MostSimilarSubmissionsRepo.cs). */
module MostSimilar {
  import opened Wrappers

  /** A stored submission: the client and task it belongs to, its author, and the client's own
      id for it. */
  datatype Submission = Submission(clientId: int, taskId: string, authorId: string, clientSubmissionId: string)

  /** A row of the table: which stored submission is most similar to which, and how much. */
  datatype MostSimilarSubmission = MostSimilarSubmission(submissionId: int, similarSubmissionId: int, weight: real)

  /** A row of the query, before grouping. */
  datatype Projection = Projection(submissionId: string, similarSubmissionId: string, weight: real, authorId: string)

  /** An entry of the answer. */
  datatype MostSimilarSubmissions = MostSimilarSubmissions(submissionId: string, similarSubmissionId: string, weight: real)

  /** No two rows share a submission id. */
  predicate UniqueSubmissionIds(rows: seq<MostSimilarSubmission>) {
    forall i, j :: 0 <= i < j < |rows| ==> rows[i].submissionId != rows[j].submissionId
  }

  /** The row for the submission id, if any. */
  function IndexOf(rows: seq<MostSimilarSubmission>, submissionId: int): (r: Option<nat>)
    ensures r.Some? ==> r.value < |rows| && rows[r.value].submissionId == submissionId
    ensures r.None? ==> forall i :: 0 <= i < |rows| ==> rows[i].submissionId != submissionId
  {
    if |rows| == 0 then None
    else if rows[|rows| - 1].submissionId == submissionId then Some(|rows| - 1)
    else IndexOf(rows[..|rows| - 1], submissionId)
  }

  /** The rows after AddOrUpdate keyed by submission id: the row with the same submission id is
      replaced, and without one the new row is appended. */
  function Upsert(rows: seq<MostSimilarSubmission>, s: MostSimilarSubmission): seq<MostSimilarSubmission> {
    var i := IndexOf(rows, s.submissionId);
    if i.Some? then rows[i.value := s] else rows + [s]
  }

  /** After the upsert exactly one row has the submission id, and it is the saved row; rows of
      other submissions are untouched and no row is lost. */
  lemma UpsertSpec(rows: seq<MostSimilarSubmission>, s: MostSimilarSubmission)
    requires UniqueSubmissionIds(rows)
    ensures UniqueSubmissionIds(Upsert(rows, s))
    ensures s in Upsert(rows, s)
    ensures forall r :: r in Upsert(rows, s) && r.submissionId == s.submissionId ==> r == s
    ensures forall r :: r in rows && r.submissionId != s.submissionId ==> r in Upsert(rows, s)
    ensures forall r :: r in Upsert(rows, s) && r.submissionId != s.submissionId ==> r in rows
  {
    var i := IndexOf(rows, s.submissionId);
    var u := Upsert(rows, s);
    if i.Some? {
      assert forall j :: 0 <= j < |rows| && j != i.value ==> u[j] == rows[j] && rows[j].submissionId != s.submissionId;
      assert u[i.value] == s;
      assert forall r :: r in rows && r.submissionId != s.submissionId ==> exists j :: 0 <= j < |rows| && j != i.value && rows[j] == r;
    } else {
      assert forall j :: 0 <= j < |rows| ==> u[j] == rows[j];
    }
  }

  class MostSimilarSubmissionsRepo {
    var rows: seq<MostSimilarSubmission>

    ghost predicate Valid()
      reads this
    {
      UniqueSubmissionIds(rows)
    }

    constructor()
      ensures Valid() && rows == []
    {
      rows := [];
    }

    /** SaveMostSimilarSubmissionAsync, in one transaction. */
    method SaveMostSimilarSubmission(s: MostSimilarSubmission)
      requires Valid()
      modifies this
      ensures Valid()
      ensures rows == Upsert(old(rows), s)
    {
      UpsertSpec(rows, s);
      var existing := IndexOf(rows, s.submissionId);
      if existing.Some? {
        rows := rows[existing.value := s];
      } else {
        rows := rows + [s];
      }
    }
  }

  /** Every row points at stored submissions. */
  predicate ForeignKeysHold(rows: seq<MostSimilarSubmission>, submissions: map<int, Submission>) {
    forall i :: 0 <= i < |rows| ==> rows[i].submissionId in submissions && rows[i].similarSubmissionId in submissions
  }

  /** The Where and Select of the query: the rows whose submission belongs to the client and
      task, with the client's ids and the author. */
  function Selected(rows: seq<MostSimilarSubmission>, submissions: map<int, Submission>, clientId: int, taskId: string): (r: seq<Projection>)
    requires ForeignKeysHold(rows, submissions)
    ensures |r| <= |rows|
    ensures forall p :: p in r <==> exists i :: (0 <= i < |rows| && Matches(rows[i], submissions, clientId, taskId)
      && p == Project(rows[i], submissions))
  {
    if |rows| == 0 then []
    else
      var rest := Selected(rows[1..], submissions, clientId, taskId);
      assert forall i :: 1 <= i < |rows| ==> rows[i] == rows[1..][i - 1];
      if Matches(rows[0], submissions, clientId, taskId) then [Project(rows[0], submissions)] + rest else rest
  }

  predicate Matches(row: MostSimilarSubmission, submissions: map<int, Submission>, clientId: int, taskId: string)
    requires row.submissionId in submissions
  {
    submissions[row.submissionId].clientId == clientId && submissions[row.submissionId].taskId == taskId
  }

  function Project(row: MostSimilarSubmission, submissions: map<int, Submission>): Projection
    requires row.submissionId in submissions && row.similarSubmissionId in submissions
  {
    Projection(submissions[row.submissionId].clientSubmissionId, submissions[row.similarSubmissionId].clientSubmissionId,
               row.weight, submissions[row.submissionId].authorId)
  }

  /** The GroupBy keys: each author once, in order of first appearance. */
  function Authors(ps: seq<Projection>): (r: seq<string>)
    ensures forall i, j :: 0 <= i < j < |r| ==> r[i] != r[j]
    ensures forall a :: a in r <==> exists i :: 0 <= i < |ps| && ps[i].authorId == a
  {
    if |ps| == 0 then []
    else
      var init := Authors(ps[..|ps| - 1]);
      assert forall i :: 0 <= i < |ps| - 1 ==> ps[..|ps| - 1][i] == ps[i];
      if ps[|ps| - 1].authorId in init then init else init + [ps[|ps| - 1].authorId]
  }

  /** The authors come in order of first appearance: every row of a later author is
      preceded by a row of each earlier one. */
  lemma {:induction false} AuthorsInFirstAppearanceOrder(ps: seq<Projection>, i: int, j: int, q: int)
    requires 0 <= i < j < |Authors(ps)|
    requires 0 <= q < |ps| && ps[q].authorId == Authors(ps)[j]
    ensures exists p :: 0 <= p < q && ps[p].authorId == Authors(ps)[i]
    decreases |ps|
  {
    var n := |ps|;
    var front := ps[..n - 1];
    var init := Authors(front);
    assert forall k :: 0 <= k < n - 1 ==> front[k] == ps[k];
    if q < n - 1 {
      assert front[q].authorId == Authors(ps)[j];
      assert Authors(ps)[j] in init;
      assert j < |init|;
      assert Authors(ps)[j] == init[j] && Authors(ps)[i] == init[i];
      AuthorsInFirstAppearanceOrder(front, i, j, q);
      var p :| 0 <= p < q && front[p].authorId == init[i];
      assert ps[p].authorId == Authors(ps)[i];
    } else if ps[n - 1].authorId in init {
      assert Authors(ps) == init;
      var q' :| 0 <= q' < n - 1 && front[q'].authorId == init[j];
      AuthorsInFirstAppearanceOrder(front, i, j, q');
      var p :| 0 <= p < q' && front[p].authorId == init[i];
      assert ps[p].authorId == Authors(ps)[i];
    } else {
      assert Authors(ps) == init + [ps[n - 1].authorId];
      assert Authors(ps)[i] == init[i] && init[i] in init;
      var p :| 0 <= p < n - 1 && front[p].authorId == init[i];
      assert ps[p].authorId == Authors(ps)[i];
    }
  }

  /** MaxBy over the author's group: the first of the author's rows with the largest weight. */
  function Heaviest(ps: seq<Projection>, author: string): (r: Option<Projection>)
    ensures r.None? <==> forall i :: 0 <= i < |ps| ==> ps[i].authorId != author
    ensures r.Some? ==> r.value in ps && r.value.authorId == author
    ensures r.Some? ==> forall i :: 0 <= i < |ps| && ps[i].authorId == author ==> ps[i].weight <= r.value.weight
  {
    if |ps| == 0 then None
    else
      var rest := Heaviest(ps[1..], author);
      assert forall i :: 1 <= i < |ps| ==> ps[i] == ps[1..][i - 1];
      if ps[0].authorId != author then rest
      else if rest.None? || rest.value.weight <= ps[0].weight then Some(ps[0])
      else rest
  }

  /** GetMostSimilarSubmissionsByTaskAsync: one entry per author of the selected rows, taken from
      that author's heaviest row. */
  function GetMostSimilarSubmissionsByTask(rows: seq<MostSimilarSubmission>, submissions: map<int, Submission>,
                                           clientId: int, taskId: string): (r: seq<MostSimilarSubmissions>)
    requires ForeignKeysHold(rows, submissions)
    ensures |r| == |Authors(Selected(rows, submissions, clientId, taskId))|
  {
    var ps := Selected(rows, submissions, clientId, taskId);
    var authors := Authors(ps);
    seq(|authors|, j requires 0 <= j < |authors| =>
      assert authors[j] in authors;
      var max := Heaviest(ps, authors[j]).value;
      MostSimilarSubmissions(max.submissionId, max.similarSubmissionId, max.weight))
  }

  /** Each entry stands for a distinct author of the selected rows and copies that author's row
      of largest weight; every such author has an entry. */
  lemma {:induction false} ByTaskIsHeaviestPerAuthor(rows: seq<MostSimilarSubmission>, submissions: map<int, Submission>,
                                                    clientId: int, taskId: string, j: nat)
    requires ForeignKeysHold(rows, submissions)
    requires j < |GetMostSimilarSubmissionsByTask(rows, submissions, clientId, taskId)|
    ensures var ps := Selected(rows, submissions, clientId, taskId);
      var e := GetMostSimilarSubmissionsByTask(rows, submissions, clientId, taskId)[j];
      exists p :: p in ps && p.authorId == Authors(ps)[j]
        && e == MostSimilarSubmissions(p.submissionId, p.similarSubmissionId, p.weight)
        && forall q :: q in ps && q.authorId == p.authorId ==> q.weight <= e.weight
  {
    var ps := Selected(rows, submissions, clientId, taskId);
    var a := Authors(ps)[j];
    assert a in Authors(ps);
    var p := Heaviest(ps, a).value;
    forall q | q in ps && q.authorId == a
      ensures q.weight <= p.weight
    {
      var i :| 0 <= i < |ps| && ps[i] == q;
    }
  }
}
