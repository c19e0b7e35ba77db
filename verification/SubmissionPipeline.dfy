/** The submission hooks as code: they pass one context along, add what they look up to its data, and stop at the
    first rejection.  Each pipeline is proved to decide as the functions of SubmissionHooks do. */
module SubmissionPipeline {
  import opened Options
  import opened SubmissionModel
  import opened SubmissionAccess
  import opened SubmissionHooks

  class HookContext {
    const caller: Caller
    const sent: Data
    // context.data as far as hooks change it
    var teamMembers: Option<seq<Id>>
    var submission: Option<Submission>
    var isTeamMember: bool
    var homework: Option<Homework>
    var isTeacher: bool
    var submissions: Submissions
    var courseGroup: Option<CourseGroup>

    constructor (caller: Caller, sent: Data)
      ensures this.caller == caller && this.sent == sent
      ensures teamMembers == sent.teamMembers && submission == None && homework == None
    {
      this.caller, this.sent := caller, sent;
      teamMembers, submission, isTeamMember := sent.teamMembers, None, false;
      homework, isTeacher, submissions, courseGroup := None, false, map[], None;
    }

    // Adds the stored submission; with a course group involved, the caller joins the team list of that copy.
    method InsertSubmissionData(w: School, db: Submissions, id: Id) returns (error: Option<Error>)
      modifies `submission, `isTeamMember
      ensures match Existing(w, db, id, caller.user)
              case Failure(e) => error == Some(e)
              case Success(s) =>
                && error == None
                && isTeamMember == IsTeamMember(s, sent, caller.user)
                && submission == Some(s.(teamMembers := if ViaGroup(s, sent) then s.teamMembers + [caller.user] else s.teamMembers))
    {
      var found := Existing(w, db, id, caller.user);
      if found.Failure? {
        return Some(found.error);
      }
      var s := found.value;
      isTeamMember := s.studentId == caller.user;
      if caller.user in s.teamMembers {
        isTeamMember := true;
      }
      if s.courseGroupId.Some? || sent.courseGroupId.Some? {
        isTeamMember := true;
        s := s.(teamMembers := s.teamMembers + [caller.user]);
      }
      submission := Some(s);
      error := None;
    }

    method InsertHomeworkData(w: School) returns (error: Option<Error>)
      modifies `homework, `isTeacher
      ensures var homeworkId := if sent.homeworkId.Some? then sent.homeworkId
                                else if submission.Some? then Some(submission.value.homeworkId) else None;
              match HomeworkOf(w, homeworkId)
              case Failure(e) => error == Some(e)
              case Success(h) =>
                match IsTeacher(w, h, caller.user)
                case Failure(e) => error == Some(e)
                case Success(teaches) => error == None && homework == Some(h) && isTeacher == teaches
    {
      var homeworkId := sent.homeworkId;
      if homeworkId.None? && submission.Some? {
        homeworkId := Some(submission.value.homeworkId);
      }
      if homeworkId.None? {
        return Some(BadRequest);
      }
      if homeworkId.value !in w.homeworks {
        return Some(GeneralError);
      }
      homework := Some(w.homeworks[homeworkId.value]);
      isTeacher := false;
      if homework.value.teacherId == caller.user {
        isTeacher := true;
      } else {
        var courseId := homework.value.courseId;
        if courseId.None? || courseId.value !in w.courses {
          return Some(GeneralError);
        }
        var course := w.courses[courseId.value];
        if caller.user in course.teacherIds || caller.user in course.substitutionIds {
          isTeacher := true;
        }
      }
      error := None;
    }

    method InsertSubmissionsData(db: Submissions)
      modifies `submissions
      ensures submissions == SubmissionsFor(db, sent.homeworkId)
    {
      submissions := SubmissionsFor(db, sent.homeworkId);
    }

    method Load(w: School, db: Submissions, id: Id) returns (error: Option<Error>)
      modifies `submission, `isTeamMember, `homework, `isTeacher
      ensures match Loaded(w, db, caller.user, id, sent.homeworkId)
              case Failure(e) => error == Some(e)
              case Success((s, h, teaches)) =>
                && error == None && homework == Some(h) && isTeacher == teaches
                && isTeamMember == IsTeamMember(s, sent, caller.user)
                && submission == Some(s.(teamMembers := if ViaGroup(s, sent) then s.teamMembers + [caller.user] else s.teamMembers))
    {
      error := InsertSubmissionData(w, db, id);
      if error.Some? { return; }
      error := InsertHomeworkData(w);
    }

    method SetTeamMembers() returns (error: Option<Error>)
      modifies `teamMembers
      ensures teamMembers == Some(if old(teamMembers).Some? then old(teamMembers).value else [caller.user])
      ensures error == if caller.user in teamMembers.value then None else Some(Conflict)
    {
      if teamMembers.None? {
        teamMembers := Some([caller.user]);
      }
      error := if caller.user in teamMembers.value then None else Some(Conflict);
    }

    method NoSubmissionBefore(c: Comparison) returns (error: Option<Error>)
      ensures error == if SubmittedBefore(c, submissions, [caller.user]) then Some(Conflict) else None
    {
      assert [caller.user][0] == caller.user;
      error := None;
      if exists id :: id in submissions && (submissions[id].studentId == caller.user || Listed(c, caller.user, submissions[id].teamMembers)) {
        error := Some(Conflict);
      }
      assert error.Some? <==> exists id :: id in submissions && Involves(c, submissions[id], [caller.user][0]);
    }

    // Members the stored submission already has are left out of the check, one after the other.
    method NoDuplicateSubmissionForTeamMembers(c: Comparison) returns (error: Option<Error>)
      ensures var known := if submission.Some? then submission.value.teamMembers else [];
              error == if !isTeacher && teamMembers.Some? && SubmittedBefore(c, submissions, NewMembers(teamMembers.value, known))
                       then Some(Conflict) else None
    {
      if isTeacher || teamMembers.None? {
        return None;
      }
      var team, known := teamMembers.value, if submission.Some? then submission.value.teamMembers else [];
      var newTeamMembers := [];
      for i := 0 to |team|
        invariant newTeamMembers == NewMembers(team[..i], known)
      {
        NewMembersSnoc(team[..i], team[i], known);
        assert team[..i] + [team[i]] == team[..i + 1];
        if team[i] !in known {
          newTeamMembers := newTeamMembers + [team[i]];
        }
      }
      assert team[..|team|] == team;
      error := if SubmittedBefore(c, submissions, newTeamMembers) then Some(Conflict) else None;
    }

    method PopulateCourseGroup(w: School) returns (error: Option<Error>)
      modifies `courseGroup
      ensures match GroupOf(w, sent.courseGroupId)
              case Failure(e) => error == Some(e)
              case Success(g) => error == None && courseGroup == g
    {
      courseGroup := None;
      if sent.courseGroupId.Some? {
        if sent.courseGroupId.value !in w.groups {
          return Some(NotFound);
        }
        courseGroup := Some(w.groups[sent.courseGroupId.value]);
      }
      error := None;
    }

    method MaxTeamMembers() returns (error: Option<Error>)
      requires homework.Some?
      ensures error == if TeamSizeAllowed(homework.value, isTeacher, teamMembers, courseGroup) then None else Some(Conflict)
    {
      var size := if teamMembers.Some? then |teamMembers.value| else 0;
      if !isTeacher && homework.value.teamSubmissions {
        if homework.value.maxTeamMembers.Some? && homework.value.maxTeamMembers.value != 0 {
          var max := homework.value.maxTeamMembers.value;
          if (max >= 1 && size > max) || (courseGroup.Some? && |courseGroup.value.userIds| > max) {
            return Some(Conflict);
          }
        }
      } else if size > 1 {
        return Some(Conflict);
      }
      error := None;
    }

    method CanGrade() returns (error: Option<Error>)
      ensures error == if !isTeacher && sent.grades then Some(Forbidden) else None
    {
      error := if !isTeacher && sent.grades then Some(Forbidden) else None;
    }

    method HasEditPermission() returns (error: Option<Error>)
      ensures error == if isTeamMember || isTeacher then None else Some(Forbidden)
    {
      error := if isTeamMember || isTeacher then None else Some(Forbidden);
    }

    // Stored submissions always have a team list, so the list of the request stays as it is.
    method PreventNoTeamMember(whole: bool) returns (error: Option<Error>)
      ensures error == if whole && (teamMembers.None? || teamMembers.value == []) then Some(Conflict) else None
    {
      error := if whole && (teamMembers.None? || teamMembers.value == []) then Some(Conflict) else None;
    }

    method CanRemoveOwner() returns (error: Option<Error>)
      requires submission.Some?
      ensures error == if teamMembers.Some? && submission.value.studentId !in teamMembers.value && sent.courseGroupId.None?
                       then Some(Conflict) else None
    {
      if teamMembers.Some? && submission.value.studentId !in teamMembers.value && sent.courseGroupId.None? {
        return Some(Conflict);
      }
      error := None;
    }

    method EditHooks(whole: bool, ghost stored: Submission) returns (error: Option<Error>)
      requires submission.Some? && submission.value.studentId == stored.studentId && teamMembers == sent.teamMembers
      requires isTeamMember == IsTeamMember(stored, sent, caller.user)
      ensures error == ErrorOf(EditChecks(stored, sent, caller.user, isTeacher, whole))
    {
      error := HasEditPermission();
      if error.Some? { return; }
      error := PreventNoTeamMember(whole);
      if error.Some? { return; }
      error := CanRemoveOwner();
    }

    // The hooks that create, update and patch end with.
    method SharedHooks(w: School, c: Comparison) returns (error: Option<Error>)
      requires homework.Some?
      modifies `courseGroup
      ensures var known := if submission.Some? then submission.value.teamMembers else [];
              error == ErrorOf(SharedGuards(w, c, homework.value, isTeacher, sent, teamMembers, known, submissions))
    {
      error := NoDuplicateSubmissionForTeamMembers(c);
      if error.Some? { return; }
      error := PopulateCourseGroup(w);
      if error.Some? { return; }
      error := MaxTeamMembers();
      if error.Some? { return; }
      error := CanGrade();
    }

    method BeforeCreate(w: School, c: Comparison, db: Submissions) returns (error: Option<Error>)
      requires teamMembers == sent.teamMembers && submission == None
      modifies this
      ensures match CreateResult(w, c, db, caller, sent)
              case Success(s) => error == None && teamMembers == Some(s.teamMembers)
              case Failure(e) => error == Some(e) || (error == None && e == Invalid && sent.studentId.None?)
      ensures sent.homeworkId.None? ==> error.Some?
    {
      if !caller.permitted {
        return Some(Forbidden);
      }
      error := InsertHomeworkData(w);
      if error.Some? { return; }
      InsertSubmissionsData(db);
      error := SetTeamMembers();
      if error.Some? { return; }
      error := NoSubmissionBefore(c);
      if error.Some? { return; }
      error := SharedHooks(w, c);
    }

    // update replaces the whole document; patch only sets what was sent.
    method BeforeEdit(w: School, c: Comparison, db: Submissions, id: Id, whole: bool) returns (error: Option<Error>)
      requires teamMembers == sent.teamMembers && submission == None
      modifies this
      ensures error == ErrorOf(EditGuards(w, c, db, caller, id, sent, whole))
      ensures teamMembers == sent.teamMembers
    {
      if !caller.permitted {
        return Some(Forbidden);
      }
      error := Load(w, db, id);
      if error.Some? { return; }
      InsertSubmissionsData(db);
      error := EditHooks(whole, db[id]);
      if error.Some? { return; }
      error := SharedHooks(w, c);
    }

    method BeforeRemove(w: School, db: Submissions, id: Id) returns (error: Option<Error>)
      requires sent == NO_DATA && submission == None
      modifies this
      ensures error == ErrorOf(RemoveResult(w, db, caller, id))
    {
      if !caller.permitted {
        return Some(Forbidden);
      }
      error := Load(w, db, id);
      if error.Some? { return; }
      error := if isTeamMember then None else Some(Forbidden);
    }
  }

  const NO_DATA := Data(None, None, None, None, false)

  function ErrorOf<T>(result: Result<T>): Option<Error> {
    if result.Failure? then Some(result.error) else None
  }

  lemma {:induction false} NewMembersSnoc(team: seq<Id>, user: Id, known: seq<Id>)
    ensures NewMembers(team + [user], known) == NewMembers(team, known) + if user in known then [] else [user]
  {
    if team == [] {
      assert [] + [user] == [user] && [user][1..] == [];
    } else {
      assert (team + [user])[1..] == team[1..] + [user];
      NewMembersSnoc(team[1..], user, known);
    }
  }

  // The service: its hooks, and the store that accepted requests write to.
  class SubmissionService {
    var submissions: Submissions
    const comparison: Comparison

    constructor (comparison: Comparison)
      ensures submissions == map[] && this.comparison == comparison
    {
      submissions, this.comparison := map[], comparison;
    }

    method Serve(w: School, r: Request) returns (error: Option<Error>)
      modifies this
      ensures submissions == Handle(w, comparison, old(submissions), r)
      ensures error.Some? ==> submissions == old(submissions)
    {
      match r {
        case Create(id, caller, sent) =>
          var context := new HookContext(caller, sent);
          error := context.BeforeCreate(w, comparison, submissions);
          if error.Some? { return; }
          if sent.studentId.None? {
            return Some(Invalid);
          }
          submissions := submissions[id :=
            Submission(sent.studentId.value, sent.homeworkId.value, context.teamMembers.value, sent.courseGroupId)];
        case Update(id, caller, sent) =>
          var context := new HookContext(caller, sent);
          error := context.BeforeEdit(w, comparison, submissions, id, true);
          if error.Some? { return; }
          if sent.studentId.None? || sent.homeworkId.None? {
            return Some(Invalid);
          }
          submissions := submissions[id :=
            Submission(sent.studentId.value, sent.homeworkId.value, context.teamMembers.value, sent.courseGroupId)];
        case Patch(id, caller, sent) =>
          var context := new HookContext(caller, sent);
          error := context.BeforeEdit(w, comparison, submissions, id, false);
          if error.Some? { return; }
          submissions := submissions[id := Patched(submissions[id], sent)];
        case RemoveRequest(id, caller) =>
          var context := new HookContext(caller, NO_DATA);
          error := context.BeforeRemove(w, submissions, id);
          if error.Some? { return; }
          submissions := submissions - {id};
      }
    }
  }
}
