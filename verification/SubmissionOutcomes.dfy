/** What becomes of every submission request, said about the stored data alone: who teaches, whose team is in the way,
    how large a team may be, and in which order the hooks object. */
module SubmissionOutcomes {
  import opened Options
  import opened SubmissionModel
  import opened SubmissionAccess
  import opened SubmissionHooks

  /** The three kinds of teachers, and when nobody can tell. */
  lemma TeachersAre(w: School, homework: Homework, user: Id)
    ensures IsTeacher(w, homework, user).Success? <==>
            homework.teacherId == user || (homework.courseId.Some? && homework.courseId.value in w.courses)
    ensures IsTeacher(w, homework, user) == Success(true) <==>
            || homework.teacherId == user
            || (homework.courseId.Some? && homework.courseId.value in w.courses
                && (user in w.courses[homework.courseId.value].teacherIds
                    || user in w.courses[homework.courseId.value].substitutionIds))
    ensures IsTeacher(w, homework, user).Failure? ==> IsTeacher(w, homework, user) == Failure(GeneralError)
  {
  }

  // A stored submission of the homework was created by the user or, compared by value, has the user in its team.
  ghost predicate HasPart(c: Comparison, db: Submissions, homeworkId: Id, user: Id) {
    exists b :: b in db && db[b].homeworkId == homeworkId
      && (db[b].studentId == user || (c == ByValue && user in db[b].teamMembers))
  }

  lemma SubmittedBeforeMeans(c: Comparison, db: Submissions, homeworkId: Id, users: seq<Id>)
    ensures SubmittedBefore(c, SubmissionsFor(db, Some(homeworkId)), users) <==>
            exists user :: user in users && HasPart(c, db, homeworkId, user)
  {
    var submissions := SubmissionsFor(db, Some(homeworkId));
    if SubmittedBefore(c, submissions, users) {
      var b, i :| b in submissions && 0 <= i < |users| && Involves(c, submissions[b], users[i]);
      assert users[i] in users && HasPart(c, db, homeworkId, users[i]);
    }
    if user :| user in users && HasPart(c, db, homeworkId, user) {
      var b :| b in db && db[b].homeworkId == homeworkId
        && (db[b].studentId == user || (c == ByValue && user in db[b].teamMembers));
      var i :| 0 <= i < |users| && users[i] == user;
      assert b in submissions && Involves(c, submissions[b], users[i]);
    }
  }

  lemma {:induction false} AddedMembers(team: seq<Id>, known: seq<Id>)
    ensures forall user :: user in NewMembers(team, known) <==> user in team && user !in known
  {
    if team != [] {
      AddedMembers(team[1..], known);
    }
  }

  lemma DuplicatesMean(c: Comparison, db: Submissions, homeworkId: Id, team: seq<Id>, known: seq<Id>)
    ensures SubmittedBefore(c, SubmissionsFor(db, Some(homeworkId)), NewMembers(team, known)) <==>
            exists user :: user in team && user !in known && HasPart(c, db, homeworkId, user)
  {
    SubmittedBeforeMeans(c, db, homeworkId, NewMembers(team, known));
    AddedMembers(team, known);
    if user :| user in team && user !in known && HasPart(c, db, homeworkId, user) {
      assert user in NewMembers(team, known);
    }
  }

  /** The size rule: teachers and homework without teams allow one member, other homework its limit, if it has a
      positive one, for the team and for the course group alike. */
  lemma SizeRule(homework: Homework, isTeacher: bool, team: Option<seq<Id>>, group: Option<CourseGroup>)
    ensures TeamSizeAllowed(homework, isTeacher, team, group) <==>
            && (isTeacher || !homework.teamSubmissions ==> team.Some? ==> |team.value| <= 1)
            && (!isTeacher && homework.teamSubmissions && homework.maxTeamMembers.Some? && homework.maxTeamMembers.value > 0 ==>
                  && (team.Some? ==> |team.value| <= homework.maxTeamMembers.value)
                  && (group.Some? ==> |group.value.userIds| <= homework.maxTeamMembers.value))
  {
  }

  // Somebody the team adds has part in a stored submission of the homework; without a homework id none is found.
  ghost predicate AddsSomebody(c: Comparison, db: Submissions, homeworkId: Option<Id>, team: seq<Id>, known: seq<Id>) {
    homeworkId.Some? && exists user :: user in team && user !in known && HasPart(c, db, homeworkId.value, user)
  }

  lemma AddsSomebodyMeans(c: Comparison, db: Submissions, homeworkId: Option<Id>, team: seq<Id>, known: seq<Id>)
    ensures SubmittedBefore(c, SubmissionsFor(db, homeworkId), NewMembers(team, known)) <==>
            AddsSomebody(c, db, homeworkId, team, known)
  {
    if homeworkId.Some? {
      DuplicatesMean(c, db, homeworkId.value, team, known);
    } else {
      assert SubmissionsFor(db, None) == map[];
    }
  }

  /** What the last hooks of create, update and patch object to, in their order: a new member with a submission, a missing
      course group, the size of the team or the group, and grading by somebody who does not teach. */
  lemma SharedGuardsDecide(w: School, c: Comparison, db: Submissions, homework: Homework, teaches: bool, d: Data,
                           team: Option<seq<Id>>, known: seq<Id>)
    ensures var max := if homework.maxTeamMembers.Some? then homework.maxTeamMembers.value else 0;
      var size := if team.Some? then |team.value| else 0;
      SharedGuards(w, c, homework, teaches, d, team, known, SubmissionsFor(db, d.homeworkId)) ==
        if !teaches && team.Some? && AddsSomebody(c, db, d.homeworkId, team.value, known) then Failure(Conflict)
        else if d.courseGroupId.Some? && d.courseGroupId.value !in w.groups then Failure(NotFound)
        else if (teaches || !homework.teamSubmissions) && size > 1 then Failure(Conflict)
        else if !teaches && homework.teamSubmissions && max > 0
                && (size > max || (d.courseGroupId.Some? && |w.groups[d.courseGroupId.value].userIds| > max)) then Failure(Conflict)
        else if !teaches && d.grades then Failure(Forbidden)
        else Success(())
  {
    if team.Some? {
      AddsSomebodyMeans(c, db, d.homeworkId, team.value, known);
    }
    if d.courseGroupId.Some? && d.courseGroupId.value in w.groups {
      SizeRule(homework, teaches, team, Some(w.groups[d.courseGroupId.value]));
    } else {
      SizeRule(homework, teaches, team, None);
    }
  }

  lemma CreateWithoutHomework(w: School, c: Comparison, db: Submissions, caller: Caller, d: Data)
    requires d.homeworkId.None? || d.homeworkId.value !in w.homeworks
    ensures CreateResult(w, c, db, caller, d) ==
            Failure(if !caller.permitted then Forbidden else if d.homeworkId.None? then BadRequest else GeneralError)
  {
  }

  // A create up to the hooks it shares with the edits.
  lemma CreateSteps(w: School, c: Comparison, db: Submissions, caller: Caller, d: Data, homework: Homework)
    requires d.homeworkId.Some? && d.homeworkId.value in w.homeworks && homework == w.homeworks[d.homeworkId.value]
    ensures var user, others := caller.user, SubmissionsFor(db, d.homeworkId);
      var teacher := IsTeacher(w, homework, user);
      var team := if d.teamMembers.Some? then d.teamMembers.value else [user];
      CreateResult(w, c, db, caller, d) ==
        if !caller.permitted then Failure(Forbidden)
        else if teacher.Failure? then Failure(teacher.error)
        else if user !in team || SubmittedBefore(c, others, [user]) then Failure(Conflict)
        else
          match SharedGuards(w, c, homework, teacher.value, d, Some(team), [], others)
          case Failure(e) => Failure(e)
          case Success(_) =>
            if d.studentId.None? then Failure(Invalid)
            else Success(Submission(d.studentId.value, d.homeworkId.value, team, d.courseGroupId))
  {
  }

  /** Every create for a stored homework, from its fields and the stored data: the first objection, or what it stores. */
  lemma CreateOutcome(w: School, c: Comparison, db: Submissions, caller: Caller, d: Data)
    requires d.homeworkId.Some? && d.homeworkId.value in w.homeworks
    ensures var user, homework := caller.user, w.homeworks[d.homeworkId.value];
      var hasCourse := homework.courseId.Some? && homework.courseId.value in w.courses;
      var teaches := homework.teacherId == user
        || (hasCourse && user in w.courses[homework.courseId.value].teacherIds)
        || (hasCourse && user in w.courses[homework.courseId.value].substitutionIds);
      var team := if d.teamMembers.Some? then d.teamMembers.value else [user];
      var max := if homework.maxTeamMembers.Some? then homework.maxTeamMembers.value else 0;
      CreateResult(w, c, db, caller, d) ==
        if !caller.permitted then Failure(Forbidden)
        else if homework.teacherId != user && !hasCourse then Failure(GeneralError)
        else if user !in team || HasPart(c, db, d.homeworkId.value, user) then Failure(Conflict)
        else if !teaches && AddsSomebody(c, db, d.homeworkId, team, []) then Failure(Conflict)
        else if d.courseGroupId.Some? && d.courseGroupId.value !in w.groups then Failure(NotFound)
        else if (teaches || !homework.teamSubmissions) && |team| > 1 then Failure(Conflict)
        else if !teaches && homework.teamSubmissions && max > 0
                && (|team| > max || (d.courseGroupId.Some? && |w.groups[d.courseGroupId.value].userIds| > max)) then Failure(Conflict)
        else if !teaches && d.grades then Failure(Forbidden)
        else if d.studentId.None? then Failure(Invalid)
        else Success(Submission(d.studentId.value, d.homeworkId.value, team, d.courseGroupId))
  {
    var user, homework := caller.user, w.homeworks[d.homeworkId.value];
    var team := if d.teamMembers.Some? then d.teamMembers.value else [user];
    CreateSteps(w, c, db, caller, d, homework);
    TeachersAre(w, homework, user);
    OwnPart(c, db, d.homeworkId.value, user);
    if IsTeacher(w, homework, user).Success? {
      SharedGuardsDecide(w, c, db, homework, IsTeacher(w, homework, user).value, d, Some(team), []);
    }
  }

  lemma OwnPart(c: Comparison, db: Submissions, homeworkId: Id, user: Id)
    ensures SubmittedBefore(c, SubmissionsFor(db, Some(homeworkId)), [user]) <==> HasPart(c, db, homeworkId, user)
  {
    SubmittedBeforeMeans(c, db, homeworkId, [user]);
    assert user in [user];
  }

  // An edit of a visible submission up to those hooks.
  lemma EditSteps(w: School, c: Comparison, db: Submissions, caller: Caller, id: Id, d: Data, whole: bool, homeworkId: Id)
    requires id in db && caller.permitted && ViewPermission(w, db[id], caller.user).Allowed?
    requires homeworkId == if d.homeworkId.Some? then d.homeworkId.value else db[id].homeworkId
    ensures homeworkId !in w.homeworks ==> EditGuards(w, c, db, caller, id, d, whole) == Failure(GeneralError)
    ensures homeworkId in w.homeworks ==>
      var s, user, homework := db[id], caller.user, w.homeworks[homeworkId];
      var teacher := IsTeacher(w, homework, user);
      var viaGroup := s.courseGroupId.Some? || d.courseGroupId.Some?;
      EditGuards(w, c, db, caller, id, d, whole) ==
        if teacher.Failure? then Failure(teacher.error)
        else if !teacher.value && s.studentId != user && user !in s.teamMembers && !viaGroup then Failure(Forbidden)
        else if whole && (d.teamMembers.None? || |d.teamMembers.value| == 0) then Failure(Conflict)
        else if d.teamMembers.Some? && d.courseGroupId.None? && s.studentId !in d.teamMembers.value then Failure(Conflict)
        else
          match SharedGuards(w, c, homework, teacher.value, d, d.teamMembers,
                             if viaGroup then s.teamMembers + [user] else s.teamMembers, SubmissionsFor(db, d.homeworkId))
          case Failure(e) => Failure(e)
          case Success(_) => Success(s)
  {
  }

  /** The guards of every update and patch of a stored submission the caller can see, once the homework it will belong to
      is stored: the first objection, or none. */
  lemma EditOutcome(w: School, c: Comparison, db: Submissions, caller: Caller, id: Id, d: Data, whole: bool, homeworkId: Id)
    requires id in db && caller.permitted && ViewPermission(w, db[id], caller.user).Allowed?
    requires homeworkId == if d.homeworkId.Some? then d.homeworkId.value else db[id].homeworkId
    ensures homeworkId !in w.homeworks ==> EditGuards(w, c, db, caller, id, d, whole) == Failure(GeneralError)
    ensures homeworkId in w.homeworks ==>
      var s, user, homework := db[id], caller.user, w.homeworks[homeworkId];
      var hasCourse := homework.courseId.Some? && homework.courseId.value in w.courses;
      var teaches := homework.teacherId == user
        || (hasCourse && user in w.courses[homework.courseId.value].teacherIds)
        || (hasCourse && user in w.courses[homework.courseId.value].substitutionIds);
      var viaGroup := s.courseGroupId.Some? || d.courseGroupId.Some?;
      var known := if viaGroup then s.teamMembers + [user] else s.teamMembers;
      var max := if homework.maxTeamMembers.Some? then homework.maxTeamMembers.value else 0;
      var size := if d.teamMembers.Some? then |d.teamMembers.value| else 0;
      EditGuards(w, c, db, caller, id, d, whole) ==
        if homework.teacherId != user && !hasCourse then Failure(GeneralError)
        else if !teaches && s.studentId != user && user !in s.teamMembers && !viaGroup then Failure(Forbidden)
        else if whole && size == 0 then Failure(Conflict)
        else if d.teamMembers.Some? && d.courseGroupId.None? && s.studentId !in d.teamMembers.value then Failure(Conflict)
        else if !teaches && d.teamMembers.Some? && AddsSomebody(c, db, d.homeworkId, d.teamMembers.value, known) then Failure(Conflict)
        else if d.courseGroupId.Some? && d.courseGroupId.value !in w.groups then Failure(NotFound)
        else if (teaches || !homework.teamSubmissions) && size > 1 then Failure(Conflict)
        else if !teaches && homework.teamSubmissions && max > 0
                && (size > max || (d.courseGroupId.Some? && |w.groups[d.courseGroupId.value].userIds| > max)) then Failure(Conflict)
        else if !teaches && d.grades then Failure(Forbidden)
        else Success(s)
  {
    var s, user := db[id], caller.user;
    EditSteps(w, c, db, caller, id, d, whole, homeworkId);
    if homeworkId in w.homeworks {
      var homework := w.homeworks[homeworkId];
      var known := if s.courseGroupId.Some? || d.courseGroupId.Some? then s.teamMembers + [user] else s.teamMembers;
      TeachersAre(w, homework, user);
      if IsTeacher(w, homework, user).Success? {
        SharedGuardsDecide(w, c, db, homework, IsTeacher(w, homework, user).value, d, d.teamMembers, known);
      }
    }
  }

  /** Requests for submissions that are not stored, or not visible, or without the permission, end before the guards. */
  lemma ClosedToCaller(w: School, c: Comparison, db: Submissions, caller: Caller, id: Id, d: Data, whole: bool)
    requires !caller.permitted || id !in db || !ViewPermission(w, db[id], caller.user).Allowed?
    ensures EditGuards(w, c, db, caller, id, d, whole) == Failure(
      if !caller.permitted || (id in db && ViewPermission(w, db[id], caller.user).Denied?) then Forbidden else GeneralError)
    ensures RemoveResult(w, db, caller, id) == Failure(
      if !caller.permitted || (id in db && ViewPermission(w, db[id], caller.user).Denied?) then Forbidden else GeneralError)
  {
  }

  /** What a create leaves is stored under its id. */
  lemma CreateStores(w: School, c: Comparison, db: Submissions, id: Id, caller: Caller, d: Data)
    ensures Handle(w, c, db, Create(id, caller, d)) ==
      match CreateResult(w, c, db, caller, d)
      case Success(s) => db[id := s]
      case Failure(_) => db
  {
  }

  lemma UpdateNeedsTeam(w: School, c: Comparison, db: Submissions, caller: Caller, id: Id, d: Data)
    ensures EditGuards(w, c, db, caller, id, d, true).Success? ==> d.teamMembers.Some?
  {
  }

  /** An update that passes the guards replaces every field, and fails without creator or homework. */
  lemma UpdateStores(w: School, c: Comparison, db: Submissions, caller: Caller, id: Id, d: Data)
    ensures Handle(w, c, db, Update(id, caller, d)) ==
      if EditGuards(w, c, db, caller, id, d, true).Success? && d.studentId.Some? && d.homeworkId.Some? && d.teamMembers.Some? then
        db[id := Submission(d.studentId.value, d.homeworkId.value, d.teamMembers.value, d.courseGroupId)]
      else db
  {
    UpdateNeedsTeam(w, c, db, caller, id, d);
  }

  /** A patch that passes the guards replaces the sent fields and keeps the others. */
  lemma PatchStores(w: School, c: Comparison, db: Submissions, caller: Caller, id: Id, d: Data)
    ensures Handle(w, c, db, Patch(id, caller, d)) ==
      match EditGuards(w, c, db, caller, id, d, false)
      case Failure(_) => db
      case Success(s) => db[id := Submission(
          if d.studentId.Some? then d.studentId.value else s.studentId,
          if d.homeworkId.Some? then d.homeworkId.value else s.homeworkId,
          if d.teamMembers.Some? then d.teamMembers.value else s.teamMembers,
          if d.courseGroupId.Some? then d.courseGroupId else s.courseGroupId)]
  {
  }

  /** Every removal of a visible submission: only creator, team and course group remove it, and only while its homework,
      and for others than the homework's teacher its course, is stored. */
  lemma RemoveOutcome(w: School, c: Comparison, db: Submissions, caller: Caller, id: Id)
    requires id in db && caller.permitted && ViewPermission(w, db[id], caller.user).Allowed?
    ensures var s, user := db[id], caller.user;
      RemoveResult(w, db, caller, id) ==
        if s.homeworkId !in w.homeworks then Failure(GeneralError)
        else
          var homework := w.homeworks[s.homeworkId];
          if homework.teacherId != user && (homework.courseId.None? || homework.courseId.value !in w.courses)
            then Failure(GeneralError)
          else if s.studentId != user && user !in s.teamMembers && s.courseGroupId.None? then Failure(Forbidden)
          else Success(())
    ensures Handle(w, c, db, RemoveRequest(id, caller)) == if RemoveResult(w, db, caller, id).Success? then db - {id} else db
  {
    if db[id].homeworkId in w.homeworks {
      TeachersAre(w, w.homeworks[db[id].homeworkId], caller.user);
    }
  }

  /** Who grades: a patch that carries a grade and nothing else is accepted exactly if the role permits it, submission and
      homework are stored, and the caller is the homework's teacher, a teacher of its course, or a substitute there. */
  lemma GradeAcceptedIff(w: School, c: Comparison, db: Submissions, caller: Caller, id: Id)
    ensures PatchResult(w, c, db, caller, id, Data(None, None, None, None, true)).Success? <==>
      && caller.permitted && id in db && db[id].homeworkId in w.homeworks
      && var homework, user := w.homeworks[db[id].homeworkId], caller.user;
         || homework.teacherId == user
         || (homework.courseId.Some? && homework.courseId.value in w.courses
             && (user in w.courses[homework.courseId.value].teacherIds
                 || user in w.courses[homework.courseId.value].substitutionIds))
  {
    var d := Data(None, None, None, None, true);
    if caller.permitted && id in db && ViewPermission(w, db[id], caller.user).Allowed? {
      EditOutcome(w, c, db, caller, id, d, false, db[id].homeworkId);
    } else {
      ClosedToCaller(w, c, db, caller, id, d, false);
    }
  }
}
