/** The user search endpoint (Web.Api/Controllers/Users/UsersSearchController.cs): request
    validation, and the merge of the strict and the non-strict matches. */
module UsersSearch {
  import opened Wrappers
  import opened Strings
  import opened Seqs

  const MaxWords := 10

  datatype CourseRoleType = Student | Instructor | CourseAdmin
  datatype SearchField = Login | Email | OtherField(name: string)

  /** The query parameters; `lmsRoleType` only matters by being present. */
  datatype SearchParameters = SearchParameters(
    query: Option<string>, courseId: Option<string>, courseRoleType: Option<CourseRoleType>, lmsRoleType: Option<string>)

  datatype SearchError = BadRequest(message: string) | Unauthorized(message: string)

  /** A match: the user's id and the fields the words matched. */
  datatype FoundUser = FoundUser(userId: string, fields: set<SearchField>)

  /** The response entry: whether login and e-mail are disclosed, and the matched fields. */
  datatype FoundUserResponse = FoundUserResponse(userId: string, discloseLogin: bool, discloseEmail: bool, fields: set<SearchField>)

  /** The query split on spaces and tabs, keeping empty pieces; a null query has no words. */
  function Words(query: Option<string>): (words: seq<string>)
    ensures query.None? ==> words == []
    ensures query.Some? ==> |words| == CountOf(query.value, {' ', '\t'}) + 1
    ensures forall k, i :: 0 <= k < |words| && 0 <= i < |words[k]| ==> words[k][i] != ' ' && words[k][i] != '\t'
  {
    if query.None? then []
    else
      SplitCount(query.value, {' ', '\t'});
      Split(query.value, {' ', '\t'})
  }

  /** string.IsNullOrEmpty. */
  predicate HasCourseId(p: SearchParameters) {
    p.courseId.Some? && p.courseId.value != ""
  }

  /** The checks before the search, in the controller's order; on success, the words to
      search for. `isSystemAdministrator` is the caller's system role and `isInstructor`
      whether the caller is an instructor of `courseId`. */
  function Validate(p: SearchParameters, isSystemAdministrator: bool, isInstructor: bool): (r: Result<seq<string>, SearchError>)
    ensures r.Success? <==>
      && |Words(p.query)| <= MaxWords
      && (HasCourseId(p) ==> p.courseRoleType.Some? && p.courseRoleType.value != Student && isInstructor)
      && (!HasCourseId(p) && p.courseRoleType.Some? ==> isSystemAdministrator)
      && (p.lmsRoleType.Some? ==> isSystemAdministrator)
    ensures r.Success? ==> r.value == Words(p.query)
    ensures r.Failure? && r.error.BadRequest? <==>
      || |Words(p.query)| > MaxWords
      || (HasCourseId(p) && (p.courseRoleType.None? || p.courseRoleType.value == Student))
  {
    var words := Words(p.query);
    if |words| > MaxWords then Failure(BadRequest("Too many words in query"))
    else if HasCourseId(p) && p.courseRoleType.None? then Failure(BadRequest("You should specify course_role with course_id"))
    else if HasCourseId(p) && p.courseRoleType == Some(Student) then
      Failure(BadRequest("You can not search students by this method: there are too many students"))
    else if HasCourseId(p) && !isInstructor then Failure(Unauthorized("Only instructors can search by course role"))
    else if !HasCourseId(p) && p.courseRoleType.Some? && !isSystemAdministrator then
      Failure(Unauthorized("Only system administrator can search by course role without specified course_id"))
    else if p.lmsRoleType.Some? && !isSystemAdministrator then Failure(Unauthorized("Only system administrator can search by lms role"))
    else Success(words)
  }

  /** A system administrator is never refused, except for a malformed request. */
  lemma AdministratorIsAuthorized(p: SearchParameters, isInstructor: bool)
    requires !HasCourseId(p) || isInstructor
    ensures Validate(p, true, isInstructor).Failure? ==> Validate(p, true, isInstructor).error.BadRequest?
  {
  }

  /** The index of the first strict match for the user, as FirstOrDefault finds it. */
  function FirstIndexOf(users: seq<FoundUser>, userId: string): (r: Option<nat>)
    ensures r.Some? ==> (r.value < |users| && users[r.value].userId == userId
      && forall j :: 0 <= j < r.value ==> users[j].userId != userId)
    ensures r.None? ==> forall j :: 0 <= j < |users| ==> users[j].userId != userId
  {
    FirstIndex(users, (u: FoundUser) => u.userId == userId)
  }

  /** The fields of every match for the user in the list. */
  function FieldsFor(users: seq<FoundUser>, userId: string): set<SearchField> {
    if |users| == 0 then {}
    else FieldsFor(users[..|users| - 1], userId) + (if users[|users| - 1].userId == userId then users[|users| - 1].fields else {})
  }

  /** A field is matched for the user exactly when one of the user's entries has it. */
  lemma {:induction false} FieldsForMembers(users: seq<FoundUser>, userId: string, f: SearchField)
    ensures f in FieldsFor(users, userId) <==> exists i :: 0 <= i < |users| && users[i].userId == userId && f in users[i].fields
  {
    if |users| > 0 {
      FieldsForMembers(users[..|users| - 1], userId, f);
      assert forall i :: 0 <= i < |users| - 1 ==> users[..|users| - 1][i] == users[i];
    }
  }

  /** The strict match at index i after the merge: the first entry for each user also gets the
      fields of the user's non-strict matches. */
  function MergedStrict(strictUsers: seq<FoundUser>, nonStrictUsers: seq<FoundUser>, i: nat): FoundUser
    requires i < |strictUsers|
  {
    var u := strictUsers[i];
    if FirstIndexOf(strictUsers, u.userId) == Some(i) then u.(fields := u.fields + FieldsFor(nonStrictUsers, u.userId)) else u
  }

  /** The non-strict match is for a user without a strict match. */
  function NotAmong(strictUsers: seq<FoundUser>): FoundUser -> bool {
    (u: FoundUser) => FirstIndexOf(strictUsers, u.userId).None?
  }

  /** The copy-and-add loop: the strict matches in order, their fields extended in place, then
      the non-strict matches of other users in order. */
  method MergeUsers(strictUsers: seq<FoundUser>, nonStrictUsers: seq<FoundUser>) returns (users: seq<FoundUser>)
    ensures |users| == |strictUsers| + |Filter(nonStrictUsers, NotAmong(strictUsers))|
    ensures forall i :: 0 <= i < |strictUsers| ==> users[i] == MergedStrict(strictUsers, nonStrictUsers, i)
    ensures users[|strictUsers|..] == Filter(nonStrictUsers, NotAmong(strictUsers))
  {
    users := strictUsers;
    for k := 0 to |nonStrictUsers|
      invariant |users| == |strictUsers| + |Filter(nonStrictUsers[..k], NotAmong(strictUsers))|
      invariant forall i :: 0 <= i < |strictUsers| ==> users[i] == MergedStrict(strictUsers, nonStrictUsers[..k], i)
      invariant users[|strictUsers|..] == Filter(nonStrictUsers[..k], NotAmong(strictUsers))
    {
      var user := nonStrictUsers[k];
      assert nonStrictUsers[..k + 1] == nonStrictUsers[..k] + [user];
      MergeStep(strictUsers, nonStrictUsers[..k], user);
      ghost var before := users;
      var alreadyExistUser := FirstIndexOf(strictUsers, user.userId);
      if alreadyExistUser.Some? {
        var j := alreadyExistUser.value;
        users := users[j := users[j].(fields := users[j].fields + user.fields)];
        assert users[|strictUsers|..] == before[|strictUsers|..];
      } else {
        users := users + [user];
        assert users[|strictUsers|..] == before[|strictUsers|..] + [user];
      }
    }
    assert nonStrictUsers[..|nonStrictUsers|] == nonStrictUsers;
  }

  /** One more non-strict match extends the fields of the user's first strict match, or is
      appended when the user has none. */
  lemma MergeStep(strictUsers: seq<FoundUser>, done: seq<FoundUser>, user: FoundUser)
    ensures forall i :: 0 <= i < |strictUsers| ==> (MergedStrict(strictUsers, done + [user], i) ==
      if FirstIndexOf(strictUsers, user.userId) == Some(i)
      then MergedStrict(strictUsers, done, i).(fields := MergedStrict(strictUsers, done, i).fields + user.fields)
      else MergedStrict(strictUsers, done, i))
    ensures Filter(done + [user], NotAmong(strictUsers)) ==
      Filter(done, NotAmong(strictUsers)) + (if FirstIndexOf(strictUsers, user.userId).None? then [user] else [])
  {
    assert (done + [user])[..|done|] == done;
    FilterAppend(done, [user], NotAmong(strictUsers));
    assert [user][1..] == [];
  }

  /** Every user of either list is in the result; one with a strict match is there once, with
      the fields of all its matches. */
  lemma MergedUserFields(strictUsers: seq<FoundUser>, nonStrictUsers: seq<FoundUser>, i: nat, f: SearchField)
    requires i < |strictUsers| && FirstIndexOf(strictUsers, strictUsers[i].userId) == Some(i)
    ensures f in MergedStrict(strictUsers, nonStrictUsers, i).fields <==>
      f in strictUsers[i].fields || exists k :: 0 <= k < |nonStrictUsers| && nonStrictUsers[k].userId == strictUsers[i].userId && f in nonStrictUsers[k].fields
  {
    FieldsForMembers(nonStrictUsers, strictUsers[i].userId, f);
  }

  /** A user with a strict match gets no entry from the non-strict list. */
  lemma NoDuplicateOfStrict(strictUsers: seq<FoundUser>, nonStrictUsers: seq<FoundUser>, u: FoundUser)
    requires u in Filter(nonStrictUsers, NotAmong(strictUsers))
    ensures forall i :: 0 <= i < |strictUsers| ==> strictUsers[i].userId != u.userId
  {
    FilterMembers(nonStrictUsers, NotAmong(strictUsers), u);
  }

  /** The response entry: login and e-mail are disclosed only when they were matched. */
  function Response(u: FoundUser): (r: FoundUserResponse)
    ensures r.discloseLogin <==> Login in u.fields
    ensures r.discloseEmail <==> Email in u.fields
    ensures r.userId == u.userId && r.fields == u.fields
  {
    FoundUserResponse(u.userId, Login in u.fields, Email in u.fields, u.fields)
  }

  /** Search after validation: `strictUsers` and `nonStrictUsers` are what the searcher returns
      for the two modes. */
  method Search(p: SearchParameters, isSystemAdministrator: bool, isInstructor: bool,
                strictUsers: seq<FoundUser>, nonStrictUsers: seq<FoundUser>)
    returns (r: Result<seq<FoundUserResponse>, SearchError>)
    ensures r.Failure? <==> Validate(p, isSystemAdministrator, isInstructor).Failure?
    ensures r.Failure? ==> r.error == Validate(p, isSystemAdministrator, isInstructor).error
    ensures r.Success? ==> |r.value| == |strictUsers| + |Filter(nonStrictUsers, NotAmong(strictUsers))|
    ensures r.Success? ==> forall i :: 0 <= i < |strictUsers| ==>
      r.value[i] == Response(MergedStrict(strictUsers, nonStrictUsers, i))
    ensures r.Success? ==> forall i :: |strictUsers| <= i < |r.value| ==>
      r.value[i] == Response(Filter(nonStrictUsers, NotAmong(strictUsers))[i - |strictUsers|])
  {
    var valid := Validate(p, isSystemAdministrator, isInstructor);
    if valid.Failure? {
      return Failure(valid.error);
    }
    var users := MergeUsers(strictUsers, nonStrictUsers);
    assert forall i :: |strictUsers| <= i < |users| ==> users[i] == users[|strictUsers|..][i - |strictUsers|];
    r := Success(seq(|users|, i requires 0 <= i < |users| => Response(users[i])));
  }
}
