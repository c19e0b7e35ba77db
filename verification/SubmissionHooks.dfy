/** Creating, changing and removing submissions: the hook pipelines, in hook order, as guards in front of a
    write to the stored submissions, and what they guarantee for every sequence of requests. */
module SubmissionHooks {
  import opened Options
  import opened SubmissionModel
  import opened SubmissionAccess

  // The fields of a request body that hooks or the database look at.
  datatype Data = Data(
    homeworkId: Option<Id>,
    studentId: Option<Id>,
    teamMembers: Option<seq<Id>>,
    courseGroupId: Option<Id>,
    grades: bool)                 // carries a grade or a grade comment

  // The requesting user, and whether a role grants the permission of the method.
  datatype Caller = Caller(user: Id, permitted: bool)

  /** How the user id of a request is found in the stored team lists.  The stored ids are objects and the
      requested ones are strings, so comparing them as they are never succeeds; by value is what is meant. */
  datatype Comparison = AsStored | ByValue

  predicate Listed(c: Comparison, user: Id, teamMembers: seq<Id>) {
    c.ByValue? && user in teamMembers
  }

  // insertHomeworkData

  function HomeworkOf(w: School, homeworkId: Option<Id>): Result<Homework> {
    match homeworkId
    case None => Failure(BadRequest)
    case Some(id) => Lookup(w.homeworks, id, GeneralError)
  }

  // Without a course, only the homework's own teacher gets past this hook.
  function IsTeacher(w: School, homework: Homework, user: Id): Result<bool> {
    if homework.teacherId == user then Success(true)
    else if homework.courseId.None? || homework.courseId.value !in w.courses then Failure(GeneralError)
    else
      var course := w.courses[homework.courseId.value];
      Success(user in course.teacherIds || user in course.substitutionIds)
  }

  // insertSubmissionsData: a missing homework id matches no stored submission.
  function SubmissionsFor(db: Submissions, homeworkId: Option<Id>): Submissions {
    map id | id in db && homeworkId == Some(db[id].homeworkId) :: db[id]
  }

  predicate Involves(c: Comparison, s: Submission, user: Id) {
    Listed(c, user, s.teamMembers) || s.studentId == user
  }

  // noSubmissionBefore and noDuplicateSubmissionForTeamMembers
  predicate SubmittedBefore(c: Comparison, submissions: Submissions, users: seq<Id>) {
    exists id, i :: id in submissions && 0 <= i < |users| && Involves(c, submissions[id], users[i])
  }

  function NewMembers(team: seq<Id>, known: seq<Id>): seq<Id> {
    if team == [] then []
    else (if team[0] in known then [] else [team[0]]) + NewMembers(team[1..], known)
  }

  // populateCourseGroup
  function GroupOf(w: School, groupId: Option<Id>): Result<Option<CourseGroup>> {
    match groupId
    case None => Success(None)
    case Some(id) => if id in w.groups then Success(Some(w.groups[id])) else Failure(NotFound)
  }

  // maxTeamMembers
  predicate TeamSizeAllowed(homework: Homework, isTeacher: bool, team: Option<seq<Id>>, group: Option<CourseGroup>) {
    var size := if team.Some? then |team.value| else 0;
    if !isTeacher && homework.teamSubmissions then
      match homework.maxTeamMembers
      case None => true
      case Some(max) => max == 0 || (size <= max && (group.Some? ==> |group.value.userIds| <= max))
    else
      size <= 1
  }

  // The guards shared by create, update and patch, after the ones of their own.
  function SharedGuards(w: School, c: Comparison, homework: Homework, isTeacher: bool, d: Data,
                        team: Option<seq<Id>>, known: seq<Id>, others: Submissions): Result<()> {
    var unchecked := isTeacher || team.None?;
    :- Need(unchecked || !SubmittedBefore(c, others, NewMembers(team.value, known)), Conflict);
    var group :- GroupOf(w, d.courseGroupId);
    :- Need(TeamSizeAllowed(homework, isTeacher, team, group), Conflict);
    :- Need(isTeacher || !d.grades, Forbidden);
    Success(())
  }

  function CreateResult(w: School, c: Comparison, db: Submissions, caller: Caller, d: Data): Result<Submission> {
    var user := caller.user;
    :- Need(caller.permitted, Forbidden);
    var homework :- HomeworkOf(w, d.homeworkId);
    var isTeacher :- IsTeacher(w, homework, user);
    var others := SubmissionsFor(db, d.homeworkId);
    var team := if d.teamMembers.Some? then d.teamMembers.value else [user];
    :- Need(user in team, Conflict);
    :- Need(!SubmittedBefore(c, others, [user]), Conflict);
    var _ :- SharedGuards(w, c, homework, isTeacher, d, Some(team), [], others);
    :- Need(d.studentId.Some?, Invalid);
    Success(Submission(d.studentId.value, d.homeworkId.value, team, d.courseGroupId))
  }

  // insertSubmissionData: reads the submission with the rights of the caller.
  function Existing(w: School, db: Submissions, id: Id, user: Id): Result<Submission> {
    var s :- Lookup(db, id, GeneralError);
    match ViewPermission(w, s, user)
    case Allowed => Success(s)
    case Denied => Failure(Forbidden)
    case Failed => Failure(GeneralError)
  }

  // insertSubmissionData and insertHomeworkData for a stored submission
  function Loaded(w: School, db: Submissions, user: Id, id: Id, homeworkId: Option<Id>): Result<(Submission, Homework, bool)> {
    var s :- Existing(w, db, id, user);
    var homework :- HomeworkOf(w, if homeworkId.Some? then homeworkId else Some(s.homeworkId));
    var isTeacher :- IsTeacher(w, homework, user);
    Success((s, homework, isTeacher))
  }

  predicate ViaGroup(s: Submission, d: Data) {
    s.courseGroupId.Some? || d.courseGroupId.Some?
  }

  predicate IsTeamMember(s: Submission, d: Data, user: Id) {
    s.studentId == user || user in s.teamMembers || ViaGroup(s, d)
  }

  // hasEditPermission, preventNoTeamMember and canRemoveOwner
  function EditChecks(s: Submission, d: Data, user: Id, isTeacher: bool, whole: bool): Result<()> {
    var mayEdit := IsTeamMember(s, d, user) || isTeacher;
    :- Need(mayEdit, Forbidden);
    :- Need(whole ==> d.teamMembers.Some? && d.teamMembers.value != [], Conflict);
    :- Need(d.teamMembers.Some? && d.courseGroupId.None? ==> s.studentId in d.teamMembers.value, Conflict);
    Success(())
  }

  // The guards of update and patch up to the write.
  function EditGuards(w: School, c: Comparison, db: Submissions, caller: Caller, id: Id, d: Data,
                      whole: bool): Result<Submission> {
    var user := caller.user;
    :- Need(caller.permitted, Forbidden);
    var (s, homework, isTeacher) :- Loaded(w, db, user, id, d.homeworkId);
    var others := SubmissionsFor(db, d.homeworkId);
    var _ :- EditChecks(s, d, user, isTeacher, whole);
    var known := if ViaGroup(s, d) then s.teamMembers + [user] else s.teamMembers;
    var _ :- SharedGuards(w, c, homework, isTeacher, d, d.teamMembers, known, others);
    Success(s)
  }

  function UpdateResult(w: School, c: Comparison, db: Submissions, caller: Caller, id: Id, d: Data): Result<Submission> {
    var s :- EditGuards(w, c, db, caller, id, d, true);
    :- Need(d.studentId.Some? && d.homeworkId.Some?, Invalid);
    Success(Submission(d.studentId.value, d.homeworkId.value, d.teamMembers.value, d.courseGroupId))
  }

  function Sent<T>(sent: Option<T>, stored: T): T {
    if sent.Some? then sent.value else stored
  }

  function Patched(s: Submission, d: Data): Submission {
    Submission(Sent(d.studentId, s.studentId), Sent(d.homeworkId, s.homeworkId), Sent(d.teamMembers, s.teamMembers),
               if d.courseGroupId.Some? then d.courseGroupId else s.courseGroupId)
  }

  function PatchResult(w: School, c: Comparison, db: Submissions, caller: Caller, id: Id, d: Data): Result<Submission> {
    var s :- EditGuards(w, c, db, caller, id, d, false);
    Success(Patched(s, d))
  }

  function RemoveResult(w: School, db: Submissions, caller: Caller, id: Id): Result<()> {
    var user := caller.user;
    :- Need(caller.permitted, Forbidden);
    var (s, homework, isTeacher) :- Loaded(w, db, user, id, None);
    :- Need(IsTeamMember(s, Data(None, None, None, None, false), user), Forbidden);
    Success(())
  }

  datatype Request =
    | Create(id: Id, caller: Caller, data: Data)
    | Update(id: Id, caller: Caller, data: Data)
    | Patch(id: Id, caller: Caller, data: Data)
    | RemoveRequest(id: Id, caller: Caller)

  function Stored(db: Submissions, id: Id, result: Result<Submission>): Submissions {
    if result.Success? then db[id := result.value] else db
  }

  // A rejected request changes nothing.
  function Handle(w: School, c: Comparison, db: Submissions, r: Request): Submissions {
    match r
    case Create(id, caller, d) => Stored(db, id, CreateResult(w, c, db, caller, d))
    case Update(id, caller, d) => Stored(db, id, UpdateResult(w, c, db, caller, id, d))
    case Patch(id, caller, d) => Stored(db, id, PatchResult(w, c, db, caller, id, d))
    case RemoveRequest(id, caller) => if RemoveResult(w, db, caller, id).Success? then db - {id} else db
  }
}
