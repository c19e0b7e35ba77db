/** Who may see a submission, decided twice: `get` asks a predicate about one submission, `find` adds a database
    query to the request. */
module SubmissionAccess {
  import opened Options
  import opened SubmissionModel

  datatype View = Allowed | Denied | Failed   // Failed: a service could not be reached

  // The predicate behind `get`, in the order of its checks.
  function ViewPermission(w: School, s: Submission, user: Id): View {
    if s.studentId == user || user in s.teamMembers then Allowed
    else if s.homeworkId !in w.homeworks then Failed
    else
      var homework := w.homeworks[s.homeworkId];
      if homework.teacherId == user then Allowed
      else
        match CourseView(w, homework, user)
        case Denied => GroupView(w, s, user)
        case decided => decided
  }

  function CourseView(w: School, homework: Homework, user: Id): View {
    match homework.courseId
    case None => Denied
    case Some(courseId) =>
      if courseId !in w.courses then Failed
      else
        var course := w.courses[courseId];
        if user in course.teacherIds || user in course.substitutionIds then Allowed
        else if user in course.userIds && homework.publicSubmissions then Allowed
        else Denied
  }

  function GroupView(w: School, s: Submission, user: Id): View {
    match s.courseGroupId
    case None => Denied
    case Some(groupId) =>
      if groupId !in w.groups then Failed
      else if user in w.groups[groupId].userIds then Allowed
      else Denied
  }

  // The part of the query language that the filter uses.
  datatype Query =
    | StudentIs(user: Id)
    | IdIn(ids: set<Id>)
    | HomeworkIn(ids: set<Id>)
    | GroupIn(ids: set<Id>)
    | And(left: Query, right: Query)
    | Or(left: Query, right: Query)

  predicate Matches(q: Query, id: Id, s: Submission) {
    match q
    case StudentIs(user) => s.studentId == user
    case IdIn(ids) => id in ids
    case HomeworkIn(ids) => s.homeworkId in ids
    case GroupIn(ids) => s.courseGroupId.Some? && s.courseGroupId.value in ids
    case And(l, r) => Matches(l, id, s) && Matches(r, id, s)
    case Or(l, r) => Matches(l, id, s) || Matches(r, id, s)
  }

  function TeamSubmissions(db: Submissions, user: Id): set<Id> {
    set id | id in db && user in db[id].teamMembers && db[id].studentId != user
  }

  function NotPrivateAmong(w: School, homeworkIds: set<Id>): set<Id> {
    set h | h in w.homeworks && h in homeworkIds && !w.homeworks[h].isPrivate
  }

  function GroupsOf(w: School, user: Id): set<Id> {
    set g | g in w.groups && user in w.groups[g].userIds
  }

  function CoursesOfGroups(w: School, user: Id): set<Id> {
    set g | g in GroupsOf(w, user) :: w.groups[g].courseId
  }

  function EnrolledCourses(w: School, user: Id): set<Id> {
    set c | c in w.courses && user in w.courses[c].userIds
  }

  function ResponsibleCourses(w: School, user: Id): set<Id> {
    set c | c in w.courses && (user in w.courses[c].teacherIds || user in w.courses[c].substitutionIds)
  }

  predicate InCourses(homework: Homework, courses: set<Id>) {
    homework.courseId.Some? && homework.courseId.value in courses
  }

  // filterRequestedSubmissions: the permission part of the query, built from the results of earlier queries.
  function PermissionQuery(w: School, db: Submissions, user: Id): Query {
    var team := TeamSubmissions(db, user);
    var teamHomework := NotPrivateAmong(w, set id | id in team :: db[id].homeworkId);
    var groupHomework := set h | h in w.homeworks &&
      InCourses(w.homeworks[h], CoursesOfGroups(w, user)) && !w.homeworks[h].isPrivate;
    var publicHomework := set h | h in w.homeworks &&
      InCourses(w.homeworks[h], EnrolledCourses(w, user)) && w.homeworks[h].publicSubmissions && !w.homeworks[h].isPrivate;
    var ownHomework := set h | h in w.homeworks &&
      (w.homeworks[h].teacherId == user || InCourses(w.homeworks[h], ResponsibleCourses(w, user)));
    var byTeam := And(IdIn(team), HomeworkIn(teamHomework));
    var byGroup := And(GroupIn(GroupsOf(w, user)), HomeworkIn(groupHomework));
    Or(Or(Or(Or(StudentIs(user), byTeam), byGroup), HomeworkIn(publicHomework)), HomeworkIn(ownHomework))
  }

  // A submission whose references can be followed.
  predicate Resolves(w: School, s: Submission) {
    && s.homeworkId in w.homeworks
    && (w.homeworks[s.homeworkId].courseId.Some? ==> w.homeworks[s.homeworkId].courseId.value in w.courses)
    && (s.courseGroupId.Some? ==> s.courseGroupId.value in w.groups)
  }

  /** Three kinds of readers whom `get` lets in and `find` does not: team members and public readers of
      private homework, and course groups that do not belong to the homework's course. */
  predicate OnlyByGet(w: School, s: Submission, user: Id)
    requires Resolves(w, s)
  {
    var homework := w.homeworks[s.homeworkId];
    || (user in s.teamMembers && homework.isPrivate)
    || (InCourses(homework, EnrolledCourses(w, user)) && homework.publicSubmissions && homework.isPrivate)
    || (s.courseGroupId.Some? && s.courseGroupId.value in GroupsOf(w, user) &&
        (homework.isPrivate || !InCourses(homework, CoursesOfGroups(w, user))))
  }

  lemma QueryMeans(w: School, db: Submissions, id: Id, user: Id)
    requires id in db
    ensures var s := db[id];
            Matches(PermissionQuery(w, db, user), id, s) <==>
              s.studentId == user ||
              (s.homeworkId in w.homeworks &&
               var homework := w.homeworks[s.homeworkId];
               || (user in s.teamMembers && !homework.isPrivate)
               || (s.courseGroupId.Some? && s.courseGroupId.value in w.groups && user in w.groups[s.courseGroupId.value].userIds
                   && (exists g :: g in w.groups && user in w.groups[g].userIds && homework.courseId == Some(w.groups[g].courseId))
                   && !homework.isPrivate)
               || homework.teacherId == user
               || (homework.courseId.Some? && homework.courseId.value in w.courses
                   && var course := w.courses[homework.courseId.value];
                   || (user in course.userIds && homework.publicSubmissions && !homework.isPrivate)
                   || user in course.teacherIds || user in course.substitutionIds))
  {
    QueryMeansSets(w, db, id, user);
    var s := db[id];
    if s.homeworkId in w.homeworks {
      GroupCourses(w, w.homeworks[s.homeworkId], user);
    }
  }

  lemma GroupCourses(w: School, homework: Homework, user: Id)
    ensures InCourses(homework, CoursesOfGroups(w, user)) <==>
            exists g :: g in w.groups && user in w.groups[g].userIds && homework.courseId == Some(w.groups[g].courseId)
  {
    if g :| g in w.groups && user in w.groups[g].userIds && homework.courseId == Some(w.groups[g].courseId) {
      assert g in GroupsOf(w, user);
    }
  }

  // The same in the sets the query is built from.
  lemma QueryMeansSets(w: School, db: Submissions, id: Id, user: Id)
    requires id in db
    ensures var s := db[id];
            Matches(PermissionQuery(w, db, user), id, s) <==>
              s.studentId == user ||
              (s.homeworkId in w.homeworks &&
               var homework := w.homeworks[s.homeworkId];
               || (user in s.teamMembers && !homework.isPrivate)
               || (s.courseGroupId.Some? && s.courseGroupId.value in GroupsOf(w, user)
                   && InCourses(homework, CoursesOfGroups(w, user)) && !homework.isPrivate)
               || (InCourses(homework, EnrolledCourses(w, user)) && homework.publicSubmissions && !homework.isPrivate)
               || homework.teacherId == user
               || InCourses(homework, ResponsibleCourses(w, user)))
  {
    var s, q := db[id], PermissionQuery(w, db, user);
    assert Matches(q, id, s) == (Matches(q.left, id, s) || Matches(q.right, id, s));
    assert Matches(q.left, id, s) == (Matches(q.left.left, id, s) || Matches(q.left.right, id, s));
    assert Matches(q.left.left, id, s) == (Matches(q.left.left.left, id, s) || Matches(q.left.left.right, id, s));
    var byTeam, byGroup := q.left.left.left.right, q.left.left.right;
    var teamHomeworkIds := set i | i in TeamSubmissions(db, user) :: db[i].homeworkId;
    assert byTeam == And(IdIn(TeamSubmissions(db, user)), HomeworkIn(NotPrivateAmong(w, teamHomeworkIds)));
    assert id in TeamSubmissions(db, user) ==> s.homeworkId in teamHomeworkIds;
    assert Matches(q.left.left.left, id, s) == (s.studentId == user || Matches(byTeam, id, s));
    assert Matches(byTeam, id, s) == (Matches(byTeam.left, id, s) && Matches(byTeam.right, id, s));
    assert Matches(byGroup, id, s) == (Matches(byGroup.left, id, s) && Matches(byGroup.right, id, s));
  }

  /** Whom `get` lets in, where references resolve: the creator, the team, the homework's teacher, teachers and substitutes
      of its course, enrolled readers of public submissions, and the submission's course group. */
  lemma GetMeans(w: School, s: Submission, user: Id)
    requires s.homeworkId in w.homeworks
    requires var courseId := w.homeworks[s.homeworkId].courseId; courseId.Some? ==> courseId.value in w.courses
    requires s.courseGroupId.Some? ==> s.courseGroupId.value in w.groups
    ensures ViewPermission(w, s, user) != Failed
    ensures ViewPermission(w, s, user) == Allowed <==>
            var homework := w.homeworks[s.homeworkId];
            || s.studentId == user || user in s.teamMembers || homework.teacherId == user
            || (homework.courseId.Some?
                && var course := w.courses[homework.courseId.value];
                || user in course.teacherIds || user in course.substitutionIds
                || (user in course.userIds && homework.publicSubmissions))
            || (s.courseGroupId.Some? && user in w.groups[s.courseGroupId.value].userIds)
  {
  }

  /** What `get` answers about any submission, also where references are missing: nobody looks further than needed, and a
      missing homework, course or group fails the request of those whom nothing before it has let in. */
  lemma ViewOutcome(w: School, s: Submission, user: Id)
    ensures s.studentId == user || user in s.teamMembers ==> ViewPermission(w, s, user) == Allowed
    ensures s.studentId != user && user !in s.teamMembers && s.homeworkId !in w.homeworks ==> ViewPermission(w, s, user) == Failed
    ensures s.studentId != user && user !in s.teamMembers && s.homeworkId in w.homeworks ==>
      var homework := w.homeworks[s.homeworkId];
      ViewPermission(w, s, user) ==
        if homework.teacherId == user then Allowed
        else if homework.courseId.Some? && homework.courseId.value !in w.courses then Failed
        else if homework.courseId.Some?
                && (user in w.courses[homework.courseId.value].teacherIds || user in w.courses[homework.courseId.value].substitutionIds
                    || (user in w.courses[homework.courseId.value].userIds && homework.publicSubmissions)) then Allowed
        else if s.courseGroupId.None? then Denied
        else if s.courseGroupId.value !in w.groups then Failed
        else if user in w.groups[s.courseGroupId.value].userIds then Allowed
        else Denied
  {
  }

  /** The two decisions compared: for every stored submission whose references resolve, `get` allows a user
      exactly when the query matches or one of the three gaps applies, and it never fails. */
  lemma GetIsFindOrGap(w: School, db: Submissions, id: Id, user: Id)
    requires id in db && Resolves(w, db[id])
    ensures ViewPermission(w, db[id], user).Allowed? <==>
            Matches(PermissionQuery(w, db, user), id, db[id]) || OnlyByGet(w, db[id], user)
    ensures !ViewPermission(w, db[id], user).Failed?
  {
    QueryMeans(w, db, id, user);
  }

  // One submission for each gap.

  predicate InGap(w: School, s: Submission, user: Id) {
    ViewPermission(w, s, user).Allowed? && !Matches(PermissionQuery(w, map["1" := s], user), "1", s)
  }

  lemma TeamOfPrivateHomework(creator: Id, member: Id, teacher: Id)
    requires member != creator && member != teacher
    ensures var w := School(map["h" := Homework(teacher, None, true, false, true, None)], map[], map[]);
            InGap(w, Submission(creator, "h", [creator, member], None), member)
  {
    var w := School(map["h" := Homework(teacher, None, true, false, true, None)], map[], map[]);
    var s := Submission(creator, "h", [creator, member], None);
    assert s.teamMembers[1] == member;
    QueryMeans(w, map["1" := s], "1", member);
  }

  lemma PublicPrivateHomework(creator: Id, reader: Id, teacher: Id)
    requires reader != creator && reader != teacher
    ensures var w := School(map["h" := Homework(teacher, Some("k"), true, true, false, None)],
                            map["k" := Course([reader], [], [])], map[]);
            InGap(w, Submission(creator, "h", [creator], None), reader)
  {
    var w := School(map["h" := Homework(teacher, Some("k"), true, true, false, None)], map["k" := Course([reader], [], [])], map[]);
    QueryMeans(w, map["1" := Submission(creator, "h", [creator], None)], "1", reader);
  }

  lemma GroupOfAnotherCourse(creator: Id, reader: Id, teacher: Id)
    requires reader != creator && reader != teacher
    ensures var w := School(map["h" := Homework(teacher, Some("k"), false, false, false, None)],
                            map["k" := Course([], [], [])], map["g" := CourseGroup("m", [reader])]);
            InGap(w, Submission(creator, "h", [creator], Some("g")), reader)
  {
    var w := School(map["h" := Homework(teacher, Some("k"), false, false, false, None)],
                    map["k" := Course([], [], [])], map["g" := CourseGroup("m", [reader])]);
    assert "k"[0] != "m"[0];
    assert "g" in GroupsOf(w, reader) && CoursesOfGroups(w, reader) == {"m"};
    QueryMeans(w, map["1" := Submission(creator, "h", [creator], Some("g"))], "1", reader);
  }

  /** For homework that is not private, with course groups of the homework's own course, the decisions are identical. */
  lemma FindAgreesWithGet(w: School, db: Submissions, id: Id, user: Id)
    requires id in db && Resolves(w, db[id])
    requires !w.homeworks[db[id].homeworkId].isPrivate
    requires var group := db[id].courseGroupId;
             group.Some? ==> w.homeworks[db[id].homeworkId].courseId == Some(w.groups[group.value].courseId)
    ensures ViewPermission(w, db[id], user).Allowed? <==> Matches(PermissionQuery(w, db, user), id, db[id])
  {
    GetIsFindOrGap(w, db, id, user);
  }

  /** When `get` opens what `find` lists: its creator, its team and the homework's teacher always get through, and others
      if and only if the homework's course, where it has one, is stored. */
  lemma FoundCanBeOpenedIff(w: School, db: Submissions, id: Id, user: Id)
    requires id in db && Matches(PermissionQuery(w, db, user), id, db[id])
    ensures var s := db[id];
            ViewPermission(w, s, user).Allowed? <==>
              || s.studentId == user || user in s.teamMembers
              || (s.homeworkId in w.homeworks &&
                  var homework := w.homeworks[s.homeworkId];
                  homework.teacherId == user || (homework.courseId.Some? ==> homework.courseId.value in w.courses))
  {
    QueryMeans(w, db, id, user);
  }

  /** What `find` lists, `get` opens, as soon as every course group belongs to a stored course. */
  lemma FoundCanBeOpened(w: School, db: Submissions, id: Id, user: Id)
    requires id in db
    requires forall g :: g in w.groups ==> w.groups[g].courseId in w.courses
    requires Matches(PermissionQuery(w, db, user), id, db[id])
    ensures ViewPermission(w, db[id], user).Allowed?
  {
    QueryMeans(w, db, id, user);
  }
}
