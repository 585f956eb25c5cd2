/** The automatic-checking queue of src/Database.Core/Repos/UserSolutionsRepo.cs as a
    sequential state machine: the submission and checking tables, the like toggle, the
    agents' claim protocol behind a one-slot gate, finalisation of a check, and the
    in-memory rendezvous of pending and handled submission ids.

    Time is an explicit parameter. The polling loops run on an idealised clock: every
    Task.Delay takes exactly its nominal time and all other work takes none. Other actors
    reach a wait only through its parameters: the entries they add to a rendezvous map
    before each poll, and what each re-read of a submission finds. */
module CheckingQueue {
  import opened Wrappers
  import opened Strings
  import opened SubmissionRecords
  import opened Sets
  import opened Seqs

  /** How the attempt to take the claim gate ends: it times out (after 2 seconds), it is
      taken, or it is taken and the guarded transaction then throws and is rolled back. */
  datatype GateOutcome = TimedOut | Acquired | Faulted

  /** How a call ends: it returns, or it throws. */
  datatype Completion = Returned | Threw(error: Error)

  /** How finalising a check ends. */
  datatype SaveOutcome = Saved | SubmissionMissing | SaveFailed(error: Error)

  /** The statuses of the checkings only take legal steps, and no checking disappears. */
  predicate StatusesAdvance(before: map<int, Checking>, after: map<int, Checking>) {
    forall k :: k in before ==> k in after && LegalStep(before[k].status, after[k].status)
  }

  /** The right-answer flag a submission carries agrees with its checking (true without one). */
  predicate FlagAgrees(s: Submission, checkings: map<int, Checking>) {
    match s.checkingId
    case None => s.automaticCheckingIsRightAnswer
    case Some(c) => c in checkings && s.automaticCheckingIsRightAnswer == checkings[c].isRightAnswer
  }

  /** The submission after checking `id` reports `flag`: changed only if it references `id`. */
  function WithFlag(s: Submission, id: int, flag: bool): (r: Submission)
    ensures r.checkingId == s.checkingId
    ensures r.automaticCheckingIsRightAnswer == if s.checkingId == Some(id) then flag else s.automaticCheckingIsRightAnswer
    ensures s.checkingId != Some(id) ==> r == s
  {
    if s.checkingId == Some(id) then s.(automaticCheckingIsRightAnswer := flag) else s
  }

  /** The tables' invariant: ids below the identity counters, checkings stored under their
      own id, and every submission's flag in agreement with its checking. */
  ghost predicate Consistent(submissions: map<int, Submission>, checkings: map<int, Checking>,
    nextSubmissionId: int, nextCheckingId: int)
  {
    && 1 <= nextSubmissionId && 1 <= nextCheckingId
    && (forall k :: k in submissions ==> 1 <= k < nextSubmissionId)
    && (forall k :: k in checkings ==> 1 <= k < nextCheckingId && checkings[k].id == k)
    && (forall k :: k in submissions ==> FlagAgrees(submissions[k], checkings))
  }

  /** The submissions after copying `flag` to every submission that references checking `id`. */
  function Flagged(submissions: map<int, Submission>, id: int, flag: bool): (r: map<int, Submission>)
    ensures r.Keys == submissions.Keys
    ensures forall k :: k in r ==> r[k] == WithFlag(submissions[k], id, flag)
  {
    map k | k in submissions :: WithFlag(submissions[k], id, flag)
  }

  /** The checkings after upserting every record of `saved`, in order. */
  function Upserted(checkings: map<int, Checking>, saved: seq<Checking>): map<int, Checking>
  {
    if |saved| == 0 then checkings
    else Upserted(checkings, saved[..|saved| - 1])[saved[|saved| - 1].id := saved[|saved| - 1]]
  }

  /** The submissions after the right-answer flags of every record of `saved` are copied, in order. */
  function FlaggedAll(submissions: map<int, Submission>, saved: seq<Checking>): map<int, Submission>
  {
    if |saved| == 0 then submissions
    else Flagged(FlaggedAll(submissions, saved[..|saved| - 1]), saved[|saved| - 1].id, saved[|saved| - 1].isRightAnswer)
  }

  /** The entries of a rendezvous map that a cleanup at `cutoff` keeps. */
  function Unexpired(m: map<int, Time>, cutoff: Time): map<int, Time> {
    map k | k in m && m[k] >= cutoff :: m[k]
  }

  /** The pending map after RunAutomaticChecking's TryAdd: an entry already there wins. */
  function Registered(m: map<int, Time>, id: int, now: Time): map<int, Time> {
    if id in m then m else m[id := now]
  }

  /** The number of 100 ms polls a wait of `timeout` makes when nothing ends it early. */
  function Polls(timeout: int): (r: nat)
    ensures timeout <= 0 ==> r == 0
    ensures timeout > 0 ==> (r - 1) * PollDelay < timeout <= r * PollDelay
  {
    if timeout <= 0 then 0 else (timeout + PollDelay - 1) / PollDelay
  }

  /** A rendezvous map after other actors' TryAdds: `arrivals[p]` lands just before poll `p`,
      and this is the map once the arrivals of the first `n` polls have landed. An entry
      already there wins. */
  function Arrived(m: map<int, Time>, arrivals: seq<map<int, Time>>, n: nat): map<int, Time>
    decreases n
  {
    if n == 0 then m
    else
      var before := Arrived(m, arrivals, n - 1);
      if n - 1 < |arrivals| then arrivals[n - 1] + before else before
  }

  /** Arrivals only add: every entry of `m` stays as it was, and the new keys are exactly
      those that arrived before the first `n` polls. */
  lemma {:induction false} ArrivedKeys(m: map<int, Time>, arrivals: seq<map<int, Time>>, n: nat)
    ensures forall k :: k in m ==> k in Arrived(m, arrivals, n) && Arrived(m, arrivals, n)[k] == m[k]
    ensures forall k :: k in Arrived(m, arrivals, n) ==> k in m || exists p :: 0 <= p < n && p < |arrivals| && k in arrivals[p]
    ensures forall p, k :: 0 <= p < n && p < |arrivals| && k in arrivals[p] ==> k in Arrived(m, arrivals, n)
    decreases n
  {
    if n > 0 {
      ArrivedKeys(m, arrivals, n - 1);
    }
  }

  /** The first poll that finds `id` in the map, when one ever does. */
  function FirstSighting(m: map<int, Time>, arrivals: seq<map<int, Time>>, id: int): Option<nat> {
    if id in m then Some(0) else FirstIndex(arrivals, (a: map<int, Time>) => id in a)
  }

  /** The first poll that finds the map non-empty, when one ever does. */
  function FirstPending(m: map<int, Time>, arrivals: seq<map<int, Time>>): Option<nat> {
    if m != map[] then Some(0) else FirstIndex(arrivals, (a: map<int, Time>) => a != map[])
  }

  /** Poll `p` finds `id` exactly when it is poll FirstSighting or a later one. */
  lemma SightingAt(m: map<int, Time>, arrivals: seq<map<int, Time>>, id: int, p: nat)
    ensures id in Arrived(m, arrivals, p + 1) <==> (FirstSighting(m, arrivals, id).Some? && FirstSighting(m, arrivals, id).value <= p)
  {
    var seen := FirstSighting(m, arrivals, id);
    ArrivedKeys(m, arrivals, p + 1);
    if id in Arrived(m, arrivals, p + 1) && id !in m {
      var q :| 0 <= q < p + 1 && q < |arrivals| && id in arrivals[q];
      assert ((a: map<int, Time>) => id in a)(arrivals[q]);
    }
    if seen.Some? && seen.value <= p && id !in m {
      assert id in arrivals[seen.value];
    }
  }

  /** The first poll that finds `id` is poll `n` when poll `n` finds it and no earlier one does. */
  lemma FirstSightingAt(m: map<int, Time>, arrivals: seq<map<int, Time>>, id: int, n: nat)
    requires id in Arrived(m, arrivals, n + 1)
    requires n > 0 ==> id !in Arrived(m, arrivals, n)
    ensures FirstSighting(m, arrivals, id) == Some(n)
  {
    SightingAt(m, arrivals, id, n);
    if n > 0 {
      SightingAt(m, arrivals, id, n - 1);
    }
  }

  /** No poll before poll `n` finds `id` when poll `n - 1` does not. */
  lemma NotSightedBefore(m: map<int, Time>, arrivals: seq<map<int, Time>>, id: int, n: nat)
    requires n > 0 ==> id !in Arrived(m, arrivals, n)
    ensures FirstSighting(m, arrivals, id).None? || FirstSighting(m, arrivals, id).value >= n
  {
    if n > 0 {
      SightingAt(m, arrivals, id, n - 1);
    }
  }

  /** Poll `p` finds the map non-empty exactly when it is poll FirstPending or a later one. */
  lemma PendingAt(m: map<int, Time>, arrivals: seq<map<int, Time>>, p: nat)
    ensures Arrived(m, arrivals, p + 1) != map[] <==> (FirstPending(m, arrivals).Some? && FirstPending(m, arrivals).value <= p)
  {
    var r := Arrived(m, arrivals, p + 1);
    var first := FirstPending(m, arrivals);
    ArrivedKeys(m, arrivals, p + 1);
    if r != map[] && m == map[] {
      HasMember(r.Keys);
      var k :| k in r;
      var q :| 0 <= q < p + 1 && q < |arrivals| && k in arrivals[q];
      assert arrivals[q] != map[];
    }
    if first.Some? && first.value <= p {
      var a := if m != map[] then m else arrivals[first.value];
      HasMember(a.Keys);
      var k :| k in a;
      assert k in r;
    }
  }

  /** The first poll that finds the map non-empty is poll `n` when poll `n` does and no earlier one does. */
  lemma FirstPendingAt(m: map<int, Time>, arrivals: seq<map<int, Time>>, n: nat)
    requires Arrived(m, arrivals, n + 1) != map[]
    requires n > 0 ==> Arrived(m, arrivals, n) == map[]
    ensures FirstPending(m, arrivals) == Some(n)
  {
    PendingAt(m, arrivals, n);
    if n > 0 {
      PendingAt(m, arrivals, n - 1);
    }
  }

  /** No poll before poll `n` finds the map non-empty when poll `n - 1` does not. */
  lemma NotPendingBefore(m: map<int, Time>, arrivals: seq<map<int, Time>>, n: nat)
    requires n > 0 ==> Arrived(m, arrivals, n) == map[]
    ensures FirstPending(m, arrivals).None? || FirstPending(m, arrivals).value >= n
  {
    if n > 0 {
      PendingAt(m, arrivals, n - 1);
    }
  }

  /** What the re-read of a submission at the end of a slice finds: no row, or the row and
      its checking (none when the reference does not resolve). */
  datatype Snapshot = Vanished | Found(checking: Option<Checking>)

  predicate IsDone(s: Snapshot) {
    s.Found? && s.checking.Some? && s.checking.value.status == Done
  }

  predicate StillPending(s: Snapshot) {
    s.Found? && s.checking.Some? && s.checking.value.status != Done
  }

  /** How a slice of RunAutomaticChecking whose re-read found `seen` ends the wait: not at
      all while the checking is pending, by a throw, or by a return once it is done. */
  predicate SliceEnds(seen: Snapshot, ended: Option<Completion>) {
    match seen
    case Vanished => ended == Some(Threw(SubmissionCheckingTimeout))
    case Found(None) => ended == Some(Threw(NullReference))
    case Found(Some(c)) => ended == if c.status == Done then Some(Returned) else None
  }

  /** The arrivals into `handled` during slice `j` of RunAutomaticChecking. */
  function SliceArrivals(arrivals: seq<seq<map<int, Time>>>, j: nat): seq<map<int, Time>> {
    if j < |arrivals| then arrivals[j] else []
  }

  /** `handled` after some slices of RunAutomaticChecking for `id`, from `h0`: every other
      entry is kept, and every new key is one that arrived during a slice. */
  ghost predicate HandledSince(h0: map<int, Time>, h: map<int, Time>, arrivals: seq<seq<map<int, Time>>>, id: int) {
    && (forall k :: k in h0 && k != id ==> k in h && h[k] == h0[k])
    && (forall k :: k in h && k !in h0 ==> exists j, p :: 0 <= j < |arrivals| && 0 <= p < |arrivals[j]| && k in arrivals[j][p])
  }

  /** One more slice, slice `j`, keeps HandledSince. */
  lemma HandledStep(h0: map<int, Time>, before: map<int, Time>, after: map<int, Time>,
    arrivals: seq<seq<map<int, Time>>>, j: nat, id: int)
    requires HandledSince(h0, before, arrivals, id)
    requires forall k :: k in before && k != id ==> k in after && after[k] == before[k]
    requires forall k :: k in after ==> k in before || exists p :: 0 <= p < |SliceArrivals(arrivals, j)| && k in SliceArrivals(arrivals, j)[p]
    ensures HandledSince(h0, after, arrivals, id)
  {
    forall k | k in after && k !in h0
      ensures exists i, p :: 0 <= i < |arrivals| && 0 <= p < |arrivals[i]| && k in arrivals[i][p]
    {
      if k !in before {
        var p :| 0 <= p < |SliceArrivals(arrivals, j)| && k in SliceArrivals(arrivals, j)[p];
        assert k in arrivals[j][p];
      }
    }
  }

  class UserSolutionsRepo {
    /** UserExerciseSubmissions, by id. */
    var submissions: map<int, Submission>
    /** AutomaticExerciseCheckings, by id. */
    var checkings: map<int, Checking>
    /** The identity columns' next values. */
    var nextSubmissionId: int
    var nextCheckingId: int
    /** unhandledSubmissions: id -> time of registration. */
    var unhandled: map<int, Time>
    /** handledSubmissions: id -> time the result was saved. */
    var handled: map<int, Time>
    /** The free slots of the claim semaphore (SemaphoreSlim(1)). */
    var gateCount: int

    ghost predicate Valid()
      reads this
    {
      gateCount == 1 && Consistent(submissions, checkings, nextSubmissionId, nextCheckingId)
    }

    constructor ()
      ensures Valid()
      ensures submissions == map[] && checkings == map[] && unhandled == map[] && handled == map[]
    {
      submissions, checkings := map[], map[];
      nextSubmissionId, nextCheckingId := 1, 1;
      unhandled, handled := map[], map[];
      gateCount := 1;
    }

    /** The checking a submission references, if it has one. */
    function CheckingOf(id: int): Option<Checking>
      reads this`submissions, this`checkings
    {
      if id in submissions && submissions[id].checkingId.Some? && submissions[id].checkingId.value in checkings
      then Some(checkings[submissions[id].checkingId.value]) else None
    }

    /** The claim query: recent enough, waiting, and routed to one of the agent's sandboxes. */
    predicate Eligible(id: int, sandboxes: seq<string>, now: Time)
      reads this
    {
      && id in submissions
      && submissions[id].timestamp > now - ClaimWindow
      && CheckingOf(id).Some? && CheckingOf(id).value.status == Waiting
      && submissions[id].sandbox in sandboxes
    }

    /** AddUserExerciseSubmission: stores a new submission, and a new checking in `status`
        when the language is checked automatically and is C# or the exercise is universal. */
    method AddUserExerciseSubmission(
      courseId: string, slideId: SlideId, code: string, compilationError: string, output: string,
      userId: string, executionServiceName: string, displayName: string,
      language: Language, sandbox: string, status: Status,
      now: Time, autoCheckedLanguages: set<Language>, isUniversalExercise: bool)
      returns (id: int)
      requires Valid()
      modifies this
      ensures Valid()
      ensures id == old(nextSubmissionId) && id !in old(submissions)
      ensures var checking := if CreatesChecking(language, autoCheckedLanguages, isUniversalExercise)
          then Some(NewChecking(old(nextCheckingId), courseId, slideId, userId, now,
            compilationError, output, executionServiceName, displayName, status))
          else None;
        && submissions == old(submissions)[id := NewSubmission(courseId, slideId, userId, now, code, language, sandbox, checking)]
        && checkings == (if checking.Some? then old(checkings)[checking.value.id := checking.value] else old(checkings))
      ensures StatusesAdvance(old(checkings), checkings)
      ensures nextSubmissionId == old(nextSubmissionId) + 1
      ensures nextCheckingId == old(nextCheckingId) + (if CreatesChecking(language, autoCheckedLanguages, isUniversalExercise) then 1 else 0)
      ensures unhandled == old(unhandled) && handled == old(handled) && gateCount == old(gateCount)
    {
      var checking: Option<Checking> := None;
      if CreatesChecking(language, autoCheckedLanguages, isUniversalExercise) {
        var c := NewChecking(nextCheckingId, courseId, slideId, userId, now,
          compilationError, output, executionServiceName, displayName, status);
        AddChecking(c);
        checking := Some(c);
      }
      id := AddSubmission(NewSubmission(courseId, slideId, userId, now, code, language, sandbox, checking));
    }

    /** db.AutomaticExerciseCheckings.Add: the checking takes the next identity value. */
    method AddChecking(c: Checking)
      requires Valid() && c.id == nextCheckingId
      modifies this
      ensures Valid()
      ensures checkings == old(checkings)[c.id := c] && c.id !in old(checkings) && nextCheckingId == old(nextCheckingId) + 1
      ensures submissions == old(submissions) && nextSubmissionId == old(nextSubmissionId)
      ensures unhandled == old(unhandled) && handled == old(handled)
      ensures StatusesAdvance(old(checkings), checkings)
    {
      AddCheckingKeepsConsistent(submissions, checkings, nextSubmissionId, nextCheckingId, c);
      checkings := checkings[c.id := c];
      nextCheckingId := nextCheckingId + 1;
    }

    /** db.UserExerciseSubmissions.Add: the submission takes the next identity value. */
    method AddSubmission(s: Submission) returns (id: int)
      requires Valid() && FlagAgrees(s, checkings)
      modifies this
      ensures Valid()
      ensures id == old(nextSubmissionId) && id !in old(submissions) && submissions == old(submissions)[id := s]
      ensures checkings == old(checkings) && nextCheckingId == old(nextCheckingId) && nextSubmissionId == id + 1
      ensures unhandled == old(unhandled) && handled == old(handled)
    {
      id := nextSubmissionId;
      InsertKeepsConsistent(submissions, checkings, id, s, nextCheckingId);
      submissions := submissions[id := s];
      nextSubmissionId := nextSubmissionId + 1;
    }

    /** TryLike: removes the user's like if there is one, adds it otherwise, and returns the
        new count and whether the solution is now liked. An unknown solution throws. */
    method TryLike(solutionId: int, userId: string) returns (r: Result<(int, bool), Error>)
      requires Valid()
      modifies this
      ensures Valid()
      ensures solutionId !in old(submissions) ==> r == Failure(SolutionNotFound(solutionId)) && submissions == old(submissions)
      ensures solutionId in old(submissions) ==>
        var before := old(submissions)[solutionId];
        var votedAlready := userId in before.likes;
        && r == Success((if votedAlready then |before.likes| - 1 else |before.likes| + 1, !votedAlready))
        && submissions == old(submissions)[solutionId := before.(likes := ToggledLikes(before.likes, userId))]
      ensures checkings == old(checkings) && unhandled == old(unhandled) && handled == old(handled)
      ensures nextSubmissionId == old(nextSubmissionId) && nextCheckingId == old(nextCheckingId) && gateCount == old(gateCount)
    {
      if solutionId !in submissions {
        return Failure(SolutionNotFound(solutionId));
      }
      var s := submissions[solutionId];
      var votedAlready := userId in s.likes;
      var likesCount := |s.likes|;
      if votedAlready {
        likesCount := likesCount - 1;
      } else {
        likesCount := likesCount + 1;
      }
      submissions := submissions[solutionId := s.(likes := ToggledLikes(s.likes, userId))];
      r := Success((likesCount, !votedAlready));
    }

    /** The claim query outside the gate: the largest eligible id, or -1 when there is none. */
    method MaxEligibleId(sandboxes: seq<string>, now: Time) returns (maxId: int)
      requires Valid()
      ensures maxId == -1 <==> forall k :: k in submissions ==> !Eligible(k, sandboxes, now)
      ensures maxId != -1 ==> Eligible(maxId, sandboxes, now)
      ensures forall k :: k in submissions && Eligible(k, sandboxes, now) ==> k <= maxId
    {
      maxId := -1;
      var todo := submissions.Keys;
      while todo != {}
        invariant todo <= submissions.Keys
        invariant maxId == -1 || Eligible(maxId, sandboxes, now)
        invariant forall k :: k in submissions && k !in todo && Eligible(k, sandboxes, now) ==> k <= maxId
        invariant maxId == -1 <==> forall k :: k in submissions && k !in todo ==> !Eligible(k, sandboxes, now)
        decreases |todo|
      {
        HasMember(todo);
        var k :| k in todo;
        if Eligible(k, sandboxes, now) && k > maxId {
          maxId := k;
        }
        todo := todo - {k};
      }
    }

    /** UpdateIsRightAnswerForSubmission: copies the checking's right-answer flag to every
        submission that references it. */
    static method UpdateIsRightAnswerForSubmission(submissions: map<int, Submission>, checking: Checking)
      returns (updated: map<int, Submission>)
      ensures updated == Flagged(submissions, checking.id, checking.isRightAnswer)
    {
      updated := submissions;
      var todo := submissions.Keys;
      while todo != {}
        invariant todo <= submissions.Keys && updated.Keys == submissions.Keys
        invariant forall k :: k in todo ==> updated[k] == submissions[k]
        invariant forall k :: k in submissions && k !in todo ==> updated[k] == WithFlag(submissions[k], checking.id, checking.isRightAnswer)
        decreases |todo|
      {
        HasMember(todo);
        var k :| k in todo;
        if updated[k].checkingId == Some(checking.id) {
          updated := updated[k := WithFlag(updated[k], checking.id, checking.isRightAnswer)];
        }
        todo := todo - {k};
      }
      var expected := Flagged(submissions, checking.id, checking.isRightAnswer);
      assert forall k :: k in updated <==> k in expected;
      assert updated.Keys == expected.Keys;
      assert forall k :: k in updated ==> updated[k] == expected[k];
    }

    /** SaveAll: upserts every checking by id and refreshes the flags of the submissions
        that reference it. Every record saved here is one the table already holds. */
    method SaveAll(saved: seq<Checking>)
      requires forall i :: 0 <= i < |saved| ==> saved[i].id in checkings
      modifies this
      ensures checkings == Upserted(old(checkings), saved)
      ensures submissions == FlaggedAll(old(submissions), saved)
      ensures checkings.Keys == old(checkings.Keys)
      ensures nextSubmissionId == old(nextSubmissionId) && nextCheckingId == old(nextCheckingId)
      ensures unhandled == old(unhandled) && handled == old(handled) && gateCount == old(gateCount)
    {
      var i := 0;
      while i < |saved|
        invariant 0 <= i <= |saved|
        invariant checkings == Upserted(old(checkings), saved[..i])
        invariant submissions == FlaggedAll(old(submissions), saved[..i])
        invariant checkings.Keys == old(checkings.Keys)
        invariant nextSubmissionId == old(nextSubmissionId) && nextCheckingId == old(nextCheckingId)
        invariant unhandled == old(unhandled) && handled == old(handled) && gateCount == old(gateCount)
      {
        assert saved[..i + 1][..i] == saved[..i];
        checkings := checkings[saved[i].id := saved[i]];
        submissions := UpdateIsRightAnswerForSubmission(submissions, saved[i]);
        i := i + 1;
      }
      assert saved[..|saved|] == saved;
    }

    /** The gate part of TryGetExerciseSubmission for the candidate `maxId`: re-reads it and,
        if it is still waiting, marks it running for `agentName` and drops it from the
        pending rendezvous. The gate is given back on every path. */
    method ClaimCandidate(maxId: int, agentName: string, gate: GateOutcome) returns (claimed: Option<int>)
      requires Valid()
      modifies this
      ensures Valid()
      ensures claimed.Some? <==> gate == Acquired && old(CheckingOf(maxId)).Some? && old(CheckingOf(maxId)).value.status == Waiting
      ensures claimed.Some? ==> claimed.value == maxId && var cid := old(submissions)[maxId].checkingId.value;
        && checkings == old(checkings)[cid := old(checkings)[cid].(status := Running, checkingAgentName := Some(agentName))]
        && unhandled == old(unhandled) - {maxId}
      ensures claimed.None? ==> checkings == old(checkings) && unhandled == old(unhandled)
      ensures submissions == old(submissions) && handled == old(handled)
      ensures nextSubmissionId == old(nextSubmissionId) && nextCheckingId == old(nextCheckingId) && gateCount == old(gateCount)
      ensures StatusesAdvance(old(checkings), checkings)
    {
      if gate == TimedOut {
        return None;
      }
      gateCount := gateCount - 1;
      if gate == Faulted {
        gateCount := gateCount + 1;
        return None;
      }
      if maxId !in submissions {
        gateCount := gateCount + 1;
        return None;
      }
      var s := submissions[maxId];
      if s.checkingId.None? {
        gateCount := gateCount + 1;
        return None;
      }
      var cid := s.checkingId.value;
      var c := checkings[cid];
      if c.status != Waiting {
        gateCount := gateCount + 1;
        return None;
      }
      var running := c.(status := Running, checkingAgentName := Some(agentName));
      FlaggedUnchanged(submissions, checkings, cid);
      SavedOne(submissions, checkings, running);
      SaveOneKeepsConsistent(submissions, checkings, nextSubmissionId, nextCheckingId, running);
      SaveAll([running]);
      unhandled := unhandled - {maxId};
      gateCount := gateCount + 1;
      claimed := Some(maxId);
    }

    /** GetUnhandledSubmission / TryGetExerciseSubmission: claims the largest eligible
        submission for `agentName`; never throws, and with nothing eligible changes nothing. */
    method GetUnhandledSubmission(agentName: string, sandboxes: seq<string>, now: Time, gate: GateOutcome)
      returns (claimed: Option<int>)
      requires Valid()
      modifies this
      ensures Valid()
      ensures claimed.Some? ==> old(Eligible(claimed.value, sandboxes, now))
      ensures claimed.Some? ==> forall k :: k in old(submissions) && old(Eligible(k, sandboxes, now)) ==> k <= claimed.value
      ensures claimed.Some? ==> (CheckingOf(claimed.value).Some?
        && CheckingOf(claimed.value).value.status == Running
        && CheckingOf(claimed.value).value.checkingAgentName == Some(agentName)
        && claimed.value !in unhandled)
      ensures (gate == Acquired && exists k :: k in old(submissions) && old(Eligible(k, sandboxes, now))) <==> claimed.Some?
      ensures claimed.Some? ==> var cid := old(submissions)[claimed.value].checkingId.value;
        && checkings == old(checkings)[cid := old(checkings)[cid].(status := Running, checkingAgentName := Some(agentName))]
        && unhandled == old(unhandled) - {claimed.value}
      ensures claimed.None? ==> checkings == old(checkings) && unhandled == old(unhandled)
      ensures submissions == old(submissions) && handled == old(handled)
      ensures nextSubmissionId == old(nextSubmissionId) && nextCheckingId == old(nextCheckingId) && gateCount == old(gateCount)
      ensures StatusesAdvance(old(checkings), checkings)
    {
      var maxId := MaxEligibleId(sandboxes, now);
      if maxId == -1 {
        return None;
      }
      claimed := ClaimCandidate(maxId, agentName, gate);
    }

    /** SaveResult: finalises the checking of submission `result.id` and records the id as
        handled. A missing submission returns with no change; a failure throws with no change. */
    method SaveResult(result: RunningResults, catalog: Catalog, skipped: set<(string, SlideId, string)>, now: Time)
      returns (outcome: SaveOutcome)
      requires Valid()
      modifies this
      ensures Valid()
      ensures result.id !in old(submissions) ==> outcome == SubmissionMissing
      ensures outcome != Saved ==> checkings == old(checkings) && submissions == old(submissions) && handled == old(handled)
      ensures result.id in old(submissions) && old(submissions)[result.id].checkingId.None? ==> outcome == SaveFailed(NullReference)
      ensures outcome == Saved <==> (result.id in old(submissions) && old(CheckingOf(result.id)).Some?
        && var c := old(CheckingOf(result.id)).value;
           FinishedChecking(c, result, catalog, (c.courseId, c.slideId, c.userId) in skipped, now).Success?)
      ensures outcome == Saved ==>
        var c := old(CheckingOf(result.id)).value;
        var finished := FinishedChecking(c, result, catalog, (c.courseId, c.slideId, c.userId) in skipped, now).value;
        && checkings == old(checkings)[c.id := finished]
        && submissions == Flagged(old(submissions), c.id, finished.isRightAnswer)
        && handled == (if result.id in old(handled) then old(handled) else old(handled)[result.id := now])
      ensures unhandled == old(unhandled)
      ensures nextSubmissionId == old(nextSubmissionId) && nextCheckingId == old(nextCheckingId) && gateCount == old(gateCount)
      ensures StatusesAdvance(old(checkings), checkings)
    {
      if result.id !in submissions {
        return SubmissionMissing;
      }
      var s := submissions[result.id];
      if s.checkingId.None? {
        return SaveFailed(NullReference);
      }
      var c := checkings[s.checkingId.value];
      var aec := FinishedChecking(c, result, catalog, (c.courseId, c.slideId, c.userId) in skipped, now);
      if aec.Failure? {
        return SaveFailed(aec.error);
      }
      SaveOneKeepsConsistent(submissions, checkings, nextSubmissionId, nextCheckingId, aec.value);
      SavedOne(submissions, checkings, aec.value);
      SaveAll([aec.value]);
      if result.id !in handled {
        handled := handled[result.id := now];
      }
      outcome := Saved;
    }

    /** WaitUntilSubmissionHandled: polls `handled` every 100 ms until `timeout`; when the id is
        there it is removed and the wait ends. Before poll `p`, other actors' results
        `arrivals[p]` land in `handled`. Returns nothing; `spent` is the time it took. */
    method WaitUntilSubmissionHandled(timeout: int, submissionId: int, arrivals: seq<map<int, Time>>)
      returns (spent: int)
      modifies this
      ensures var seen := FirstSighting(old(handled), arrivals, submissionId);
        if seen.Some? && seen.value < Polls(timeout) then
          spent == seen.value * PollDelay && handled == Arrived(old(handled), arrivals, seen.value + 1) - {submissionId}
        else
          spent == Polls(timeout) * PollDelay && handled == Arrived(old(handled), arrivals, Polls(timeout))
      ensures timeout > 0 && submissionId in old(handled) ==> spent == 0 && handled == Arrived(old(handled), arrivals, 1) - {submissionId}
      ensures timeout > 0 ==> submissionId !in handled && 0 <= spent <= Polls(timeout) * PollDelay < timeout + PollDelay
      ensures timeout <= 0 ==> handled == old(handled) && spent == 0
      ensures forall k :: k in old(handled) && k != submissionId ==> k in handled && handled[k] == old(handled)[k]
      ensures forall k :: k in handled ==> k in old(handled) || exists p :: 0 <= p < |arrivals| && k in arrivals[p]
      ensures submissions == old(submissions) && checkings == old(checkings) && unhandled == old(unhandled)
      ensures nextSubmissionId == old(nextSubmissionId) && nextCheckingId == old(nextCheckingId) && gateCount == old(gateCount)
    {
      spent := 0;
      var polls := 0;
      while spent < timeout
        invariant spent == polls * PollDelay && polls <= Polls(timeout)
        invariant handled == Arrived(old(handled), arrivals, polls)
        invariant polls > 0 ==> submissionId !in Arrived(old(handled), arrivals, polls)
        invariant submissions == old(submissions) && checkings == old(checkings) && unhandled == old(unhandled)
        invariant nextSubmissionId == old(nextSubmissionId) && nextCheckingId == old(nextCheckingId) && gateCount == old(gateCount)
        decreases timeout - spent
      {
        if polls < |arrivals| {
          handled := arrivals[polls] + handled;
        }
        if submissionId in handled {
          FirstSightingAt(old(handled), arrivals, submissionId, polls);
          ArrivedKeys(old(handled), arrivals, polls + 1);
          handled := handled - {submissionId};
          return;
        }
        spent := spent + PollDelay;
        polls := polls + 1;
      }
      NotSightedBefore(old(handled), arrivals, submissionId, polls);
      ArrivedKeys(old(handled), arrivals, polls);
    }

    /** What a re-read of the submission finds in the tables. */
    function Observed(id: int): Snapshot
      reads this`submissions, this`checkings
    {
      if id !in submissions then Vanished else Found(CheckingOf(id))
    }

    /** What the re-read at the end of slice `j` finds: `rereads[j]` while the given reads
        last (other actors may have changed the row meanwhile), then the tables. */
    function ReRead(rereads: seq<Snapshot>, j: nat, id: int): Snapshot
      reads this`submissions, this`checkings
    {
      if j < |rereads| then rereads[j] else Observed(id)
    }

    /** The waiting loop of RunAutomaticChecking: 5-second rendezvous slices, each followed by
        a re-read of the submission, until a re-read ends the wait or `timeout` has passed.
        Slice `j` sees the arrivals `arrivals[j]` into `handled`, and its re-read finds
        ReRead(rereads, j, submissionId); `slices` counts the slices run and `ended` says
        how the last re-read ended the wait (None when the clock did). */
    method AwaitChecking(submissionId: int, timeout: int, arrivals: seq<seq<map<int, Time>>>, rereads: seq<Snapshot>)
      returns (ended: Option<Completion>, elapsed: int, slices: nat)
      modifies this
      ensures forall j :: 0 <= j < slices - 1 ==> StillPending(ReRead(rereads, j, submissionId))
      ensures slices > 0 ==> SliceEnds(ReRead(rereads, slices - 1, submissionId), ended)
      ensures slices == 0 <==> timeout <= 0
      ensures slices == 0 ==> ended.None? && elapsed == 0
      ensures ended.None? ==> elapsed >= timeout
      ensures 0 <= elapsed < (if timeout > 0 then timeout else 0) + HandledSlice
      ensures slices == 0 ==> handled == old(handled)
      ensures slices > 0 ==> submissionId !in handled
      ensures HandledSince(old(handled), handled, arrivals, submissionId)
      ensures submissions == old(submissions) && checkings == old(checkings) && unhandled == old(unhandled)
      ensures nextSubmissionId == old(nextSubmissionId) && nextCheckingId == old(nextCheckingId) && gateCount == old(gateCount)
    {
      ended, elapsed, slices := None, 0, 0;
      while elapsed < timeout && ended.None?
        invariant 0 <= elapsed && (elapsed == 0 || elapsed < timeout + HandledSlice)
        invariant slices == 0 ==> elapsed == 0 && ended.None?
        invariant timeout <= 0 ==> slices == 0
        invariant forall j :: 0 <= j < slices - 1 ==> StillPending(ReRead(rereads, j, submissionId))
        invariant slices > 0 ==> SliceEnds(ReRead(rereads, slices - 1, submissionId), ended)
        invariant slices == 0 ==> handled == old(handled)
        invariant slices > 0 ==> submissionId !in handled
        invariant HandledSince(old(handled), handled, arrivals, submissionId)
        invariant submissions == old(submissions) && checkings == old(checkings) && unhandled == old(unhandled)
        invariant nextSubmissionId == old(nextSubmissionId) && nextCheckingId == old(nextCheckingId) && gateCount == old(gateCount)
        decreases (if ended.None? then 1 else 0), timeout - elapsed,
          (if slices < |arrivals| then |arrivals| - slices else 0), (if submissionId in handled then 1 else 0)
      {
        ghost var before := handled;
        var spent := WaitUntilSubmissionHandled(HandledSlice, submissionId, SliceArrivals(arrivals, slices));
        HandledStep(old(handled), before, handled, arrivals, slices, submissionId);
        elapsed := elapsed + spent;
        var seen := ReRead(rereads, slices, submissionId);
        slices := slices + 1;
        if seen.Vanished? {
          ended := Some(Threw(SubmissionCheckingTimeout));
        } else if seen.checking.None? {
          ended := Some(Threw(NullReference));
        } else if seen.checking.value.status == Done {
          ended := Some(Returned);
        }
      }
    }

    /** RunAutomaticChecking: registers the id as pending (an existing entry wins) and, when
        asked to wait, runs AwaitChecking. A normal return means a re-read found the checking
        done; a wait ended by the clock or by a vanished submission drops the id from the
        pending map and throws SubmissionCheckingTimeout; a checking reference that does not
        resolve throws NullReference. */
    method RunAutomaticChecking(submissionId: int, timeout: int, waitUntilChecked: bool, now: Time,
      arrivals: seq<seq<map<int, Time>>>, rereads: seq<Snapshot>)
      returns (outcome: Completion, elapsed: int, slices: nat)
      modifies this
      ensures !waitUntilChecked ==> outcome == Returned && elapsed == 0 && slices == 0 && handled == old(handled)
      ensures unhandled == if outcome == Threw(SubmissionCheckingTimeout)
        then Registered(old(unhandled), submissionId, now) - {submissionId}
        else Registered(old(unhandled), submissionId, now)
      ensures forall j :: 0 <= j < slices - 1 ==> StillPending(ReRead(rereads, j, submissionId))
      ensures forall j :: 0 <= j < slices ==> (IsDone(ReRead(rereads, j, submissionId)) <==> j == slices - 1 && outcome == Returned)
      ensures outcome == Returned && waitUntilChecked ==> slices >= 1 && IsDone(ReRead(rereads, slices - 1, submissionId))
      ensures outcome == Threw(NullReference) ==> slices >= 1 && ReRead(rereads, slices - 1, submissionId) == Found(None)
      ensures outcome == Threw(SubmissionCheckingTimeout) ==>
        slices == 0 || ReRead(rereads, slices - 1, submissionId) == Vanished || elapsed >= timeout
      ensures outcome.Threw? ==> outcome.error == SubmissionCheckingTimeout || outcome.error == NullReference
      ensures |rereads| == 0 && outcome.Threw? && submissionId !in submissions ==> outcome == Threw(SubmissionCheckingTimeout)
      ensures waitUntilChecked && timeout > 0 && IsDone(ReRead(rereads, 0, submissionId)) ==> outcome == Returned && slices == 1
      ensures waitUntilChecked && timeout <= 0 ==> outcome == Threw(SubmissionCheckingTimeout) && slices == 0
      ensures 0 <= elapsed < (if timeout > 0 then timeout else 0) + HandledSlice
      ensures slices == 0 ==> handled == old(handled)
      ensures slices > 0 ==> submissionId !in handled
      ensures forall k :: k in old(handled) && k != submissionId ==> k in handled && handled[k] == old(handled)[k]
      ensures forall k :: k in handled && k !in old(handled) ==>
        exists j, p :: 0 <= j < |arrivals| && 0 <= p < |arrivals[j]| && k in arrivals[j][p]
      ensures submissions == old(submissions) && checkings == old(checkings)
      ensures nextSubmissionId == old(nextSubmissionId) && nextCheckingId == old(nextCheckingId) && gateCount == old(gateCount)
    {
      unhandled := Registered(unhandled, submissionId, now);
      if !waitUntilChecked {
        return Returned, 0, 0;
      }
      var ended;
      ended, elapsed, slices := AwaitChecking(submissionId, timeout, arrivals, rereads);
      if ended.Some? && ended.value != Threw(SubmissionCheckingTimeout) {
        outcome := ended.value;
      } else {
        unhandled := unhandled - {submissionId};
        outcome := Threw(SubmissionCheckingTimeout);
      }
    }

    /** ClearHandleDictionary: removes, one key at a time, every entry older than `cutoff`. */
    static method ClearHandleDictionary(dictionary: map<int, Time>, cutoff: Time) returns (kept: map<int, Time>)
      ensures kept.Keys <= dictionary.Keys
      ensures forall k :: k in dictionary ==> (k in kept <==> dictionary[k] >= cutoff)
      ensures forall k :: k in kept ==> kept[k] == dictionary[k]
      ensures kept == Unexpired(dictionary, cutoff)
    {
      kept := dictionary;
      var todo := dictionary.Keys;
      while todo != {}
        invariant todo <= dictionary.Keys
        invariant kept.Keys <= dictionary.Keys
        invariant forall k :: k in todo ==> k in kept
        invariant forall k :: k in dictionary && k !in todo ==> (k in kept <==> dictionary[k] >= cutoff)
        invariant forall k :: k in kept ==> kept[k] == dictionary[k]
        decreases |todo|
      {
        HasMember(todo);
        var k :| k in todo;
        if kept[k] < cutoff {
          kept := kept - {k};
        }
        todo := todo - {k};
      }
      var expected := Unexpired(dictionary, cutoff);
      assert forall k :: k in kept <==> k in expected;
      assert kept.Keys == expected.Keys;
      assert forall k :: k in kept ==> kept[k] == expected[k];
    }

    /** ClearHandleDictionaries: evicts the entries older than 3 minutes from both maps. */
    method ClearHandleDictionaries(now: Time)
      modifies this
      ensures handled == Unexpired(old(handled), now - HandleTimeout)
      ensures unhandled == Unexpired(old(unhandled), now - HandleTimeout)
      ensures submissions == old(submissions) && checkings == old(checkings)
      ensures nextSubmissionId == old(nextSubmissionId) && nextCheckingId == old(nextCheckingId) && gateCount == old(gateCount)
    {
      var cutoff := now - HandleTimeout;
      handled := ClearHandleDictionary(handled, cutoff);
      unhandled := ClearHandleDictionary(unhandled, cutoff);
    }

    /** WaitAnyUnhandledSubmissions: polls every 100 ms until `timeout` for a pending id; when
        there is one, cleans both maps and returns. Before poll `p`, other requests'
        registrations `arrivals[p]` land in the pending map. */
    method WaitAnyUnhandledSubmissions(timeout: int, now: Time, arrivals: seq<map<int, Time>>) returns (elapsed: int)
      modifies this
      ensures var first := FirstPending(old(unhandled), arrivals);
        if first.Some? && first.value < Polls(timeout) then
          && elapsed == first.value * PollDelay
          && handled == Unexpired(old(handled), now + elapsed - HandleTimeout)
          && unhandled == Unexpired(Arrived(old(unhandled), arrivals, first.value + 1), now + elapsed - HandleTimeout)
        else
          && elapsed == Polls(timeout) * PollDelay
          && handled == old(handled)
          && unhandled == Arrived(old(unhandled), arrivals, Polls(timeout))
      ensures timeout > 0 && old(unhandled) != map[] ==> elapsed == 0 && handled == Unexpired(old(handled), now - HandleTimeout)
      ensures 0 <= elapsed < (if timeout > 0 then timeout else 0) + PollDelay
      ensures submissions == old(submissions) && checkings == old(checkings)
      ensures nextSubmissionId == old(nextSubmissionId) && nextCheckingId == old(nextCheckingId) && gateCount == old(gateCount)
    {
      elapsed := 0;
      var polls := 0;
      while elapsed < timeout
        invariant elapsed == polls * PollDelay && polls <= Polls(timeout)
        invariant handled == old(handled) && unhandled == Arrived(old(unhandled), arrivals, polls)
        invariant polls > 0 ==> Arrived(old(unhandled), arrivals, polls) == map[]
        invariant submissions == old(submissions) && checkings == old(checkings)
        invariant nextSubmissionId == old(nextSubmissionId) && nextCheckingId == old(nextCheckingId) && gateCount == old(gateCount)
        decreases timeout - elapsed
      {
        if polls < |arrivals| {
          unhandled := arrivals[polls] + unhandled;
        }
        if unhandled != map[] {
          FirstPendingAt(old(unhandled), arrivals, polls);
          ClearHandleDictionaries(now + elapsed);
          return;
        }
        elapsed := elapsed + PollDelay;
        polls := polls + 1;
      }
      NotPendingBefore(old(unhandled), arrivals, polls);
    }
  }

  /** The likes after the user's toggle. */
  function ToggledLikes(likes: set<string>, userId: string): (r: set<string>)
    ensures userId in r <==> userId !in likes
    ensures forall u :: u != userId ==> (u in r <==> u in likes)
    ensures |r| == if userId in likes then |likes| - 1 else |likes| + 1
  {
    if userId in likes then likes - {userId} else likes + {userId}
  }

  /** Liking twice restores the likes. */
  lemma ToggleTwice(likes: set<string>, userId: string)
    ensures ToggledLikes(ToggledLikes(likes, userId), userId) == likes
  {
  }

  /** Agreement survives adding checkings that leave the existing ones as they were. */
  lemma AgreementExtends(submissions: map<int, Submission>, before: map<int, Checking>, after: map<int, Checking>)
    requires forall k :: k in before ==> k in after && after[k] == before[k]
    requires forall k :: k in submissions ==> FlagAgrees(submissions[k], before)
    ensures forall k :: k in submissions ==> FlagAgrees(submissions[k], after)
  {
    forall k | k in submissions
      ensures FlagAgrees(submissions[k], after)
    {
      assert FlagAgrees(submissions[k], before);
    }
  }

  /** Storing a checking under the next id keeps the tables consistent. */
  lemma AddCheckingKeepsConsistent(submissions: map<int, Submission>, checkings: map<int, Checking>,
    nextSubmissionId: int, nextCheckingId: int, c: Checking)
    requires Consistent(submissions, checkings, nextSubmissionId, nextCheckingId)
    requires c.id == nextCheckingId
    ensures Consistent(submissions, checkings[c.id := c], nextSubmissionId, nextCheckingId + 1)
  {
    AgreementExtends(submissions, checkings, checkings[c.id := c]);
  }

  /** Storing a submission that agrees, under the next id, keeps the tables consistent. */
  lemma InsertKeepsConsistent(submissions: map<int, Submission>, checkings: map<int, Checking>,
    id: int, s: Submission, nextCheckingId: int)
    requires Consistent(submissions, checkings, id, nextCheckingId)
    requires FlagAgrees(s, checkings)
    ensures Consistent(submissions[id := s], checkings, id + 1, nextCheckingId)
  {
  }

  /** Copying a flag that every referencing submission already carries changes nothing. */
  lemma FlaggedUnchanged(submissions: map<int, Submission>, checkings: map<int, Checking>, cid: int)
    requires cid in checkings
    requires forall k :: k in submissions ==> FlagAgrees(submissions[k], checkings)
    ensures Flagged(submissions, cid, checkings[cid].isRightAnswer) == submissions
  {
    var after := Flagged(submissions, cid, checkings[cid].isRightAnswer);
    forall k | k in submissions
      ensures after[k] == submissions[k]
    {
      if submissions[k].checkingId == Some(cid) {
        assert FlagAgrees(submissions[k], checkings);
      }
    }
  }

  /** Saving one checking is storing it and copying its flag. */
  lemma SavedOne(submissions: map<int, Submission>, checkings: map<int, Checking>, c: Checking)
    ensures Upserted(checkings, [c]) == checkings[c.id := c]
    ensures FlaggedAll(submissions, [c]) == Flagged(submissions, c.id, c.isRightAnswer)
  {
    assert [c][..0] == [];
  }

  /** Saving a checking over the stored one of the same id keeps the tables consistent. */
  lemma SaveOneKeepsConsistent(submissions: map<int, Submission>, checkings: map<int, Checking>,
    nextSubmissionId: int, nextCheckingId: int, c: Checking)
    requires Consistent(submissions, checkings, nextSubmissionId, nextCheckingId)
    requires c.id in checkings
    ensures Consistent(Flagged(submissions, c.id, c.isRightAnswer), checkings[c.id := c], nextSubmissionId, nextCheckingId)
  {
    FlaggedKeepsAgreement(submissions, checkings, c);
  }

  /** After storing `c` and copying its flag, every submission's flag agrees again. */
  lemma FlaggedKeepsAgreement(submissions: map<int, Submission>, checkings: map<int, Checking>, c: Checking)
    requires c.id in checkings
    requires forall k :: k in submissions ==> FlagAgrees(submissions[k], checkings)
    ensures var after := Flagged(submissions, c.id, c.isRightAnswer);
      forall k :: k in after ==> FlagAgrees(after[k], checkings[c.id := c])
  {
  }
}
