/** What every sequence of submission requests keeps: teams fit their homework, creators stay in their team, and
    nobody belongs to two submissions of one homework. */
module SubmissionInvariants {
  import opened Options
  import opened SubmissionModel
  import opened SubmissionAccess
  import opened SubmissionHooks

  // Team sizes.

  predicate Fits(homework: Homework, size: nat) {
    && (!homework.teamSubmissions ==> size <= 1)
    && (homework.maxTeamMembers.Some? && homework.maxTeamMembers.value > 0 ==> size <= homework.maxTeamMembers.value)
  }

  predicate FitsItsHomework(w: School, s: Submission) {
    s.homeworkId in w.homeworks && Fits(w.homeworks[s.homeworkId], |s.teamMembers|)
  }

  predicate TeamsFit(w: School, db: Submissions) {
    forall id :: id in db ==> FitsItsHomework(w, db[id])
  }

  lemma CreatedTeamFits(w: School, c: Comparison, db: Submissions, caller: Caller, d: Data)
    requires CreateResult(w, c, db, caller, d).Success?
    ensures FitsItsHomework(w, CreateResult(w, c, db, caller, d).value)
  {
  }

  lemma UpdatedTeamFits(w: School, c: Comparison, db: Submissions, caller: Caller, id: Id, d: Data)
    requires UpdateResult(w, c, db, caller, id, d).Success?
    ensures FitsItsHomework(w, UpdateResult(w, c, db, caller, id, d).value)
  {
    assert EditGuards(w, c, db, caller, id, d, true).Success?;
  }

  /** An accepted patch, by a teacher or a student, leaves a team that fits exactly when it sends the
      team or the stored team fits the homework it ends up at: the size guard never looks at a stored team. */
  lemma PatchedTeamFitsIff(w: School, c: Comparison, db: Submissions, caller: Caller, id: Id, d: Data)
    requires PatchResult(w, c, db, caller, id, d).Success?
    ensures id in db && Sent(d.homeworkId, db[id].homeworkId) in w.homeworks
    ensures FitsItsHomework(w, PatchResult(w, c, db, caller, id, d).value) <==>
            d.teamMembers.Some? || Fits(w.homeworks[Sent(d.homeworkId, db[id].homeworkId)], |db[id].teamMembers|)
  {
    assert EditGuards(w, c, db, caller, id, d, false).Success?;
  }

  // What an accepted request writes under its id.
  function Written(w: School, c: Comparison, db: Submissions, r: Request): Option<Submission> {
    match r
    case Create(id, caller, d) => Accepted(CreateResult(w, c, db, caller, d))
    case Update(id, caller, d) => Accepted(UpdateResult(w, c, db, caller, id, d))
    case Patch(id, caller, d) => Accepted(PatchResult(w, c, db, caller, id, d))
    case RemoveRequest(_, _) => None
  }

  function Accepted<T>(result: Result<T>): Option<T> {
    if result.Success? then Some(result.value) else None
  }

  lemma HandleWrites(w: School, c: Comparison, db: Submissions, r: Request)
    ensures var s, db' := Written(w, c, db, r), Handle(w, c, db, r);
            && (s.Some? ==> db' == db[r.id := s.value])
            && (s.None? ==> db' == db || (r.RemoveRequest? && db' == db - {r.id}))
  {
  }

  function HandleAll(w: School, c: Comparison, db: Submissions, requests: seq<Request>): Submissions
    decreases |requests|
  {
    if requests == [] then db else HandleAll(w, c, Handle(w, c, db, requests[0]), requests[1..])
  }

  // Where a patch without a team puts the stored one, it fits.
  predicate FitsWhereItGoes(w: School, c: Comparison, db: Submissions, r: Request) {
    r.Patch? && r.data.teamMembers.None? && r.id in db && PatchResult(w, c, db, r.caller, r.id, r.data).Success? ==>
      var target := Sent(r.data.homeworkId, db[r.id].homeworkId);
      target in w.homeworks && Fits(w.homeworks[target], |db[r.id].teamMembers|)
  }

  predicate AllFitWhereTheyGo(w: School, c: Comparison, db: Submissions, requests: seq<Request>)
    decreases |requests|
  {
    requests == [] ||
    (FitsWhereItGoes(w, c, db, requests[0]) && AllFitWhereTheyGo(w, c, Handle(w, c, db, requests[0]), requests[1..]))
  }

  predicate TeamsFitThroughout(w: School, c: Comparison, db: Submissions, requests: seq<Request>)
    decreases |requests|
  {
    TeamsFit(w, db) && (requests == [] || TeamsFitThroughout(w, c, Handle(w, c, db, requests[0]), requests[1..]))
  }

  lemma HandleKeepsTeamsFitIff(w: School, c: Comparison, db: Submissions, r: Request)
    requires TeamsFit(w, db)
    ensures TeamsFit(w, Handle(w, c, db, r)) <==> FitsWhereItGoes(w, c, db, r)
  {
    HandleWrites(w, c, db, r);
    var written, db' := Written(w, c, db, r), Handle(w, c, db, r);
    if written.Some? {
      assert r.id in db' && db'[r.id] == written.value;
      match r
      case Create(id, caller, d) => CreatedTeamFits(w, c, db, caller, d);
      case Update(id, caller, d) => UpdatedTeamFits(w, c, db, caller, id, d);
      case Patch(id, caller, d) => PatchedTeamFitsIff(w, c, db, caller, id, d);
    }
  }

  /** For runs of any requests: all states of a run have fitting teams if and only if no accepted patch without a team
      moves a stored team to a homework it does not fit. */
  lemma {:induction false} TeamsFitThroughoutIff(w: School, c: Comparison, db: Submissions, requests: seq<Request>)
    requires TeamsFit(w, db)
    ensures TeamsFitThroughout(w, c, db, requests) <==> AllFitWhereTheyGo(w, c, db, requests)
    decreases |requests|
  {
    if requests != [] {
      HandleKeepsTeamsFitIff(w, c, db, requests[0]);
      if TeamsFit(w, Handle(w, c, db, requests[0])) {
        TeamsFitThroughoutIff(w, c, Handle(w, c, db, requests[0]), requests[1..]);
      }
    }
  }

  // A teacher moves a team of two to a homework that forbids teams.
  lemma MovesTeam() returns (w: School, db: Submissions, r: Request)
    ensures TeamsFit(w, db) && r.Patch? && r.id in db && r.data == Data(r.data.homeworkId, None, None, None, false)
    ensures !TeamsFit(w, Handle(w, ByValue, db, r))
  {
    var team, alone := Homework("t", None, false, false, true, None), Homework("t", None, false, false, false, None);
    w, db := School(map["h" := team, "i" := alone], map[], map[]), map["1" := Submission("t", "h", ["t", "b"], None)];
    r := Patch("1", Caller("t", true), Data(Some("i"), None, None, None, false));
    assert "h"[0] != "i"[0];
    assert Loaded(w, db, "t", "1", Some("i")) == Success((db["1"], alone, true));
    assert EditGuards(w, ByValue, db, r.caller, "1", r.data, false) == Success(db["1"]);
    assert PatchResult(w, ByValue, db, r.caller, "1", r.data) == Success(Patched(db["1"], r.data));
    var moved := Submission("t", "i", ["t", "b"], None);
    assert Patched(db["1"], r.data) == moved;
    assert Handle(w, ByValue, db, r)["1"] == moved && !FitsItsHomework(w, moved);
  }

  /** A patch that sends another homework and nothing else can leave a team that does not fit. */
  lemma MovedTeamIsUnchecked()
    ensures exists w: School, db: Submissions, r: Request ::
      && TeamsFit(w, db) && r.Patch? && r.id in db && r.data == Data(r.data.homeworkId, None, None, None, false)
      && !TeamsFit(w, Handle(w, ByValue, db, r))
  {
    var w, db, r := MovesTeam();
  }

  // Memberships.

  // Without course groups, creators belong to their team and teams of one homework are disjoint.
  ghost predicate OnePerUser(db: Submissions) {
    && (forall id :: id in db ==> db[id].studentId in db[id].teamMembers && db[id].courseGroupId.None?)
    && (forall a, b, user :: a in db && b in db && a != b && db[a].homeworkId == db[b].homeworkId ==>
          !(user in db[a].teamMembers && user in db[b].teamMembers))
  }

  /** Exactly when a write keeps the invariant: its creator is in its team, and the duplicate check, run
      for the whole team against everything else stored for that homework, finds nothing. */
  lemma WriteKeepsOnePerUserIff(db: Submissions, id: Id, s: Submission)
    requires OnePerUser(db) && s.courseGroupId.None?
    ensures OnePerUser(db[id := s]) <==>
            && s.studentId in s.teamMembers
            && !SubmittedBefore(ByValue, SubmissionsFor(db - {id}, Some(s.homeworkId)), s.teamMembers)
  {
    var db', others := db[id := s], SubmissionsFor(db - {id}, Some(s.homeworkId));
    assert id in db' && db'[id] == s;
    if SubmittedBefore(ByValue, others, s.teamMembers) {
      var b, i :| b in others && 0 <= i < |s.teamMembers| && Involves(ByValue, others[b], s.teamMembers[i]);
      assert b in db' && db'[b] == others[b] && s.teamMembers[i] in db'[b].teamMembers;
      assert s.teamMembers[i] in db'[id].teamMembers;
    } else {
      forall b, user | b in db && b != id && db[b].homeworkId == s.homeworkId && user in s.teamMembers
        ensures user !in db[b].teamMembers
      {
        var i :| 0 <= i < |s.teamMembers| && s.teamMembers[i] == user;
        assert b in db - {id} && b in others && !Involves(ByValue, others[b], s.teamMembers[i]);
      }
      assert s.studentId in s.teamMembers ==> OnePerUser(db');
    }
  }

  // What a request writes has no course group, its creator in its team, and nobody of another stored team in it.
  predicate KeepsApart(w: School, c: Comparison, db: Submissions, r: Request) {
    match Written(w, c, db, r)
    case None => true
    case Some(s) =>
      && s.courseGroupId.None? && s.studentId in s.teamMembers
      && !SubmittedBefore(ByValue, SubmissionsFor(db - {r.id}, Some(s.homeworkId)), s.teamMembers)
  }

  lemma HandleKeepsOnePerUserIff(w: School, c: Comparison, db: Submissions, r: Request)
    requires OnePerUser(db)
    ensures OnePerUser(Handle(w, c, db, r)) <==> KeepsApart(w, c, db, r)
  {
    HandleWrites(w, c, db, r);
    var written, db' := Written(w, c, db, r), Handle(w, c, db, r);
    if written.Some? {
      assert r.id in db' && db'[r.id] == written.value;
      if written.value.courseGroupId.None? {
        WriteKeepsOnePerUserIff(db, r.id, written.value);
      }
    }
  }

  predicate AllKeepApart(w: School, c: Comparison, db: Submissions, requests: seq<Request>)
    decreases |requests|
  {
    requests == [] ||
    (KeepsApart(w, c, db, requests[0]) && AllKeepApart(w, c, Handle(w, c, db, requests[0]), requests[1..]))
  }

  ghost predicate OnePerUserThroughout(w: School, c: Comparison, db: Submissions, requests: seq<Request>)
    decreases |requests|
  {
    OnePerUser(db) && (requests == [] || OnePerUserThroughout(w, c, Handle(w, c, db, requests[0]), requests[1..]))
  }

  /** For runs of any requests, and however ids are compared: in all states of a run creators are in their team and teams
      of one homework disjoint if and only if every accepted write passes the duplicate check for its whole team, run by
      value against everything else stored for its homework, names a creator of its team, and has no course group. */
  lemma {:induction false} OnePerUserThroughoutIff(w: School, c: Comparison, db: Submissions, requests: seq<Request>)
    requires OnePerUser(db)
    ensures OnePerUserThroughout(w, c, db, requests) <==> AllKeepApart(w, c, db, requests)
    decreases |requests|
  {
    if requests != [] {
      HandleKeepsOnePerUserIff(w, c, db, requests[0]);
      if OnePerUser(Handle(w, c, db, requests[0])) {
        OnePerUserThroughoutIff(w, c, Handle(w, c, db, requests[0]), requests[1..]);
      }
    }
  }

  // What the guards contribute.

  /** A request that does not change whose submission it is: the creator is the caller and stays, the homework stays
      and is sent along with a team, and no course group is involved. */
  predicate KeepsIdentity(db: Submissions, r: Request) {
    match r
    case Create(id, caller, d) => id !in db && d.studentId == Some(caller.user) && d.courseGroupId.None?
    case Update(id, caller, d) =>
      id in db ==> d.studentId == Some(db[id].studentId) && d.homeworkId == Some(db[id].homeworkId) && d.courseGroupId.None?
    case Patch(id, caller, d) =>
      id in db ==>
        && Sent(d.studentId, db[id].studentId) == db[id].studentId
        && Sent(d.homeworkId, db[id].homeworkId) == db[id].homeworkId
        && (d.teamMembers.Some? ==> d.homeworkId.Some?)
        && d.courseGroupId.None?
    case RemoveRequest(_, _) => true
  }

  lemma {:induction false} NewMembersAre(team: seq<Id>, known: seq<Id>, user: Id)
    ensures user in NewMembers(team, known) <==> user in team && user !in known
  {
    if team != [] {
      NewMembersAre(team[1..], known, user);
    }
  }

  lemma NotBefore(c: Comparison, submissions: Submissions, users: seq<Id>, id: Id, user: Id)
    requires !SubmittedBefore(c, submissions, users)
    requires id in submissions && user in users
    ensures submissions[id].studentId != user
    ensures c.ByValue? ==> user !in submissions[id].teamMembers
  {
    var i :| 0 <= i < |users| && users[i] == user;
    assert !Involves(c, submissions[id], users[i]);
  }

  // The users are in no other stored team of the homework, unless they created it.
  ghost predicate OnlyTheirOwn(db: Submissions, homeworkId: Id, id: Id, users: seq<Id>) {
    forall b, user :: b in db && b != id && db[b].homeworkId == homeworkId && user in users && user in db[b].teamMembers ==>
      user == db[b].studentId
  }

  // The users are in no other stored team of the homework at all.
  ghost predicate InNoOther(db: Submissions, homeworkId: Id, id: Id, users: seq<Id>) {
    forall b, user :: b in db && b != id && db[b].homeworkId == homeworkId && user in users ==> user !in db[b].teamMembers
  }

  lemma SubmittedBeforeIff(db: Submissions, id: Id, homeworkId: Id, users: seq<Id>)
    requires OnePerUser(db)
    ensures SubmittedBefore(ByValue, SubmissionsFor(db - {id}, Some(homeworkId)), users) <==> !InNoOther(db, homeworkId, id, users)
  {
    var others := SubmissionsFor(db - {id}, Some(homeworkId));
    if SubmittedBefore(ByValue, others, users) {
      var b, i :| b in others && 0 <= i < |users| && Involves(ByValue, others[b], users[i]);
      assert b in db && b != id && db[b].homeworkId == homeworkId && users[i] in users && users[i] in db[b].teamMembers;
    }
    if !InNoOther(db, homeworkId, id, users) {
      var b, user :| b in db && b != id && db[b].homeworkId == homeworkId && user in users && user in db[b].teamMembers;
      var i :| 0 <= i < |users| && users[i] == user;
      assert b in others && Involves(ByValue, others[b], users[i]);
    }
  }

  // A write keeps users apart if and only if its team meets no other team of the homework.
  lemma ApartIff(db: Submissions, id: Id, s: Submission)
    requires OnePerUser(db) && s.courseGroupId.None? && s.studentId in s.teamMembers
    ensures OnePerUser(db[id := s]) <==> InNoOther(db, s.homeworkId, id, s.teamMembers)
  {
    WriteKeepsOnePerUserIff(db, id, s);
    SubmittedBeforeIff(db, id, s.homeworkId, s.teamMembers);
  }

  // Nobody in the team of an accepted create is the creator of another submission; by value, nobody is in its team.
  lemma CreatedTeamIsNew(w: School, c: Comparison, db: Submissions, caller: Caller, d: Data, b: Id, user: Id)
    requires CreateResult(w, c, db, caller, d).Success?
    requires b in db && d.homeworkId == Some(db[b].homeworkId)
    requires user in CreateResult(w, c, db, caller, d).value.teamMembers
    ensures user != db[b].studentId
    ensures c.ByValue? ==> user !in db[b].teamMembers
  {
    var team := CreateResult(w, c, db, caller, d).value.teamMembers;
    var others := SubmissionsFor(db, d.homeworkId);
    assert b in others;
    if IsTeacher(w, HomeworkOf(w, d.homeworkId).value, caller.user).value {
      assert |team| <= 1 && user == caller.user;
      NotBefore(c, others, [caller.user], b, user);
    } else {
      NewMembersAre(team, [], user);
      NotBefore(c, others, NewMembers(team, []), b, user);
    }
  }

  /** What the guards of create leave open, however ids are compared: an accepted create in one's own name keeps users
      apart if and only if nobody in its team is in another stored team of the homework that they did not create. */
  lemma CreateKeepsOnePerUserIff(w: School, c: Comparison, db: Submissions, id: Id, caller: Caller, d: Data)
    requires OnePerUser(db) && KeepsIdentity(db, Create(id, caller, d))
    requires CreateResult(w, c, db, caller, d).Success?
    ensures var s := CreateResult(w, c, db, caller, d).value;
            OnePerUser(db[id := s]) <==> OnlyTheirOwn(db, s.homeworkId, id, s.teamMembers)
  {
    var s := CreateResult(w, c, db, caller, d).value;
    ApartIff(db, id, s);
    forall b, user | b in db && db[b].homeworkId == s.homeworkId && user in s.teamMembers
      ensures user != db[b].studentId
    {
      CreatedTeamIsNew(w, c, db, caller, d, b, user);
    }
  }

  lemma CreateKeepsOnePerUser(w: School, db: Submissions, id: Id, caller: Caller, d: Data)
    requires OnePerUser(db) && KeepsIdentity(db, Create(id, caller, d))
    requires CreateResult(w, ByValue, db, caller, d).Success?
    ensures OnePerUser(db[id := CreateResult(w, ByValue, db, caller, d).value])
  {
    var s := CreateResult(w, ByValue, db, caller, d).value;
    CreateKeepsOnePerUserIff(w, ByValue, db, id, caller, d);
    forall b, user | b in db && db[b].homeworkId == s.homeworkId && user in s.teamMembers
      ensures user !in db[b].teamMembers
    {
      CreatedTeamIsNew(w, ByValue, db, caller, d, b, user);
    }
  }

  // The same for the members an accepted edit adds.
  lemma AddedMemberIsNew(w: School, c: Comparison, db: Submissions, caller: Caller, id: Id, d: Data, whole: bool, b: Id, user: Id)
    requires EditGuards(w, c, db, caller, id, d, whole).Success?
    requires id in db && db[id].courseGroupId.None? && d.courseGroupId.None? && d.homeworkId == Some(db[id].homeworkId)
    requires db[id].studentId in db[id].teamMembers
    requires d.teamMembers.Some? && user in d.teamMembers.value && user !in db[id].teamMembers
    requires b in db && db[b].homeworkId == db[id].homeworkId
    ensures user != db[b].studentId
    ensures c.ByValue? ==> user !in db[b].teamMembers
  {
    var team, known := d.teamMembers.value, db[id].teamMembers;
    var others := SubmissionsFor(db, d.homeworkId);
    assert b in others && db[id].studentId in team;
    // a teacher's team is the creator alone, who is no added member
    if !IsTeacher(w, HomeworkOf(w, d.homeworkId).value, caller.user).value {
      NewMembersAre(team, known, user);
      NotBefore(c, others, NewMembers(team, known), b, user);
    }
  }

  /** The same for edits: only the members they add matter. */
  lemma EditKeepsOnePerUserIff(w: School, c: Comparison, db: Submissions, caller: Caller, id: Id, d: Data, whole: bool, s: Submission)
    requires OnePerUser(db) && EditGuards(w, c, db, caller, id, d, whole).Success? && id in db
    requires KeepsIdentity(db, Patch(id, caller, d)) && s == Patched(db[id], d)
    ensures OnePerUser(db[id := s]) <==> OnlyTheirOwn(db, s.homeworkId, id, NewMembers(s.teamMembers, db[id].teamMembers))
  {
    var added := NewMembers(s.teamMembers, db[id].teamMembers);
    ApartIff(db, id, s);
    forall user
      ensures user in added <==> user in s.teamMembers && user !in db[id].teamMembers
    {
      NewMembersAre(s.teamMembers, db[id].teamMembers, user);
    }
    forall b, user | b in db && db[b].homeworkId == s.homeworkId && user in added
      ensures user != db[b].studentId
    {
      AddedMemberIsNew(w, c, db, caller, id, d, whole, b, user);
    }
  }

  lemma EditKeepsOnePerUser(w: School, db: Submissions, caller: Caller, id: Id, d: Data, whole: bool, s: Submission)
    requires OnePerUser(db) && EditGuards(w, ByValue, db, caller, id, d, whole).Success? && id in db
    requires KeepsIdentity(db, Patch(id, caller, d)) && s == Patched(db[id], d)
    ensures OnePerUser(db[id := s])
  {
    EditKeepsOnePerUserIff(w, ByValue, db, caller, id, d, whole, s);
    forall b, user | b in db && db[b].homeworkId == s.homeworkId && user in NewMembers(s.teamMembers, db[id].teamMembers)
      ensures user !in db[b].teamMembers
    {
      NewMembersAre(s.teamMembers, db[id].teamMembers, user);
      AddedMemberIsNew(w, ByValue, db, caller, id, d, whole, b, user);
    }
  }

  lemma HandleKeepsOnePerUser(w: School, db: Submissions, r: Request)
    requires OnePerUser(db) && KeepsIdentity(db, r)
    ensures OnePerUser(Handle(w, ByValue, db, r))
  {
    match r
    case Create(id, caller, d) =>
      if CreateResult(w, ByValue, db, caller, d).Success? {
        CreateKeepsOnePerUser(w, db, id, caller, d);
      }
    case Update(id, caller, d) =>
      if UpdateResult(w, ByValue, db, caller, id, d).Success? {
        assert EditGuards(w, ByValue, db, caller, id, d, true).Success?;
        EditKeepsOnePerUser(w, db, caller, id, d, true, UpdateResult(w, ByValue, db, caller, id, d).value);
      }
    case Patch(id, caller, d) =>
      if PatchResult(w, ByValue, db, caller, id, d).Success? {
        assert EditGuards(w, ByValue, db, caller, id, d, false).Success?;
        EditKeepsOnePerUser(w, db, caller, id, d, false, PatchResult(w, ByValue, db, caller, id, d).value);
      }
    case RemoveRequest(id, caller) =>
  }

  predicate AllKeepIdentity(w: School, c: Comparison, db: Submissions, requests: seq<Request>)
    decreases |requests|
  {
    requests == [] ||
    (KeepsIdentity(db, requests[0]) && AllKeepIdentity(w, c, Handle(w, c, db, requests[0]), requests[1..]))
  }

  lemma {:induction false} HandleAllKeepsOnePerUser(w: School, db: Submissions, requests: seq<Request>)
    requires OnePerUser(db) && AllKeepIdentity(w, ByValue, db, requests)
    ensures OnePerUser(HandleAll(w, ByValue, db, requests))
    decreases |requests|
  {
    if requests != [] {
      HandleKeepsOnePerUser(w, db, requests[0]);
      HandleAllKeepsOnePerUser(w, Handle(w, ByValue, db, requests[0]), requests[1..]);
    }
  }

  /** In every run of requests by students and teachers, a user takes part in at most one submission of a homework. */
  lemma AtMostOneSubmission(w: School, requests: seq<Request>, a: Id, b: Id, user: Id)
    requires AllKeepIdentity(w, ByValue, map[], requests)
    requires var db := HandleAll(w, ByValue, map[], requests);
             && a in db && b in db && db[a].homeworkId == db[b].homeworkId
             && (db[a].studentId == user || user in db[a].teamMembers)
             && (db[b].studentId == user || user in db[b].teamMembers)
    ensures a == b
  {
    HandleAllKeepsOnePerUser(w, map[], requests);
  }

  // When stored ids and sent ids are compared as they are.

  ghost predicate CreatorsDiffer(db: Submissions) {
    forall a, b :: a in db && b in db && a != b && db[a].homeworkId == db[b].homeworkId ==>
      db[a].studentId != db[b].studentId
  }

  // Nobody else's submission of that homework has the creator that is written.
  predicate NewCreator(w: School, c: Comparison, db: Submissions, r: Request) {
    var s := Written(w, c, db, r);
    s.Some? ==> forall b :: b in db && b != r.id && db[b].homeworkId == s.value.homeworkId ==> db[b].studentId != s.value.studentId
  }

  lemma HandleKeepsCreatorsDifferIff(w: School, c: Comparison, db: Submissions, r: Request)
    requires CreatorsDiffer(db)
    ensures CreatorsDiffer(Handle(w, c, db, r)) <==> NewCreator(w, c, db, r)
  {
    HandleWrites(w, c, db, r);
    var written, db' := Written(w, c, db, r), Handle(w, c, db, r);
    if written.Some? {
      assert r.id in db' && db'[r.id] == written.value;
      assert forall b :: b in db && b != r.id ==> b in db' && db'[b] == db[b];
    }
  }

  predicate AllNewCreators(w: School, c: Comparison, db: Submissions, requests: seq<Request>)
    decreases |requests|
  {
    requests == [] ||
    (NewCreator(w, c, db, requests[0]) && AllNewCreators(w, c, Handle(w, c, db, requests[0]), requests[1..]))
  }

  ghost predicate CreatorsDifferThroughout(w: School, c: Comparison, db: Submissions, requests: seq<Request>)
    decreases |requests|
  {
    CreatorsDiffer(db) && (requests == [] || CreatorsDifferThroughout(w, c, Handle(w, c, db, requests[0]), requests[1..]))
  }

  /** For runs of any requests: in all states the submissions of a homework have different creators if and only if no
      accepted write sends the creator of another stored submission of its homework. */
  lemma {:induction false} CreatorsDifferThroughoutIff(w: School, c: Comparison, db: Submissions, requests: seq<Request>)
    requires CreatorsDiffer(db)
    ensures CreatorsDifferThroughout(w, c, db, requests) <==> AllNewCreators(w, c, db, requests)
    decreases |requests|
  {
    if requests != [] {
      HandleKeepsCreatorsDifferIff(w, c, db, requests[0]);
      if CreatorsDiffer(Handle(w, c, db, requests[0])) {
        CreatorsDifferThroughoutIff(w, c, Handle(w, c, db, requests[0]), requests[1..]);
      }
    }
  }

  // The guards see to that for requests that do not change whose submission it is.
  lemma OwnCreatorIsNew(w: School, c: Comparison, db: Submissions, r: Request)
    requires CreatorsDiffer(db) && KeepsIdentity(db, r)
    ensures NewCreator(w, c, db, r)
  {
    match r
    case Create(id, caller, d) =>
      if CreateResult(w, c, db, caller, d).Success? {
        forall b | b in db && d.homeworkId == Some(db[b].homeworkId)
          ensures db[b].studentId != caller.user
        {
          CreatedTeamIsNew(w, c, db, caller, d, b, caller.user);
        }
      }
    case Update(id, caller, d) =>
      assert UpdateResult(w, c, db, caller, id, d).Success? ==> EditGuards(w, c, db, caller, id, d, true).Success?;
    case Patch(id, caller, d) =>
      assert PatchResult(w, c, db, caller, id, d).Success? ==> EditGuards(w, c, db, caller, id, d, false).Success?;
    case RemoveRequest(id, caller) =>
  }

  /** However ids are compared, nobody gets two submissions for one homework as long as submissions are created in the
      caller's own name and keep their creator and homework. */
  lemma {:induction false} OneCreationPerUser(w: School, c: Comparison, db: Submissions, requests: seq<Request>)
    requires CreatorsDiffer(db) && AllKeepIdentity(w, c, db, requests)
    ensures CreatorsDiffer(HandleAll(w, c, db, requests))
    decreases |requests|
  {
    if requests != [] {
      OwnCreatorIsNew(w, c, db, requests[0]);
      HandleKeepsCreatorsDifferIff(w, c, db, requests[0]);
      OneCreationPerUser(w, c, Handle(w, c, db, requests[0]), requests[1..]);
    }
  }

  // One team homework in a course without teachers, set by somebody else.
  function SmallSchool(): School {
    School(map["h" := Homework("t", Some("k"), false, false, true, None)], map["k" := Course(["a", "b"], [], [])], map[])
  }

  // User b is in the team of a's submission and creates one of b's own.
  lemma HandsInAlone() returns (w: School, db: Submissions, r: Request)
    ensures OnePerUser(db) && KeepsIdentity(db, r) && !OnePerUser(Handle(w, AsStored, db, r))
  {
    w, db := SmallSchool(), map["1" := Submission("a", "h", ["a", "b"], None)];
    r := Create("2", Caller("b", true), Data(Some("h"), Some("b"), None, None, false));
    assert NewMembers(["b"], []) == ["b"] + NewMembers([], []) == ["b"];
    var db' := Handle(w, AsStored, db, r);
    assert db'["2"] == Submission("b", "h", ["b"], None);
    assert db'["1"].teamMembers[1] == "b" && "b" in db'["2"].teamMembers;
  }

  /** The team guards protect memberships if and only if ids are compared by value: as stored, a user
      whom somebody else has put into a team can still hand in alone. */
  lemma MembershipNeedsComparisonByValue(c: Comparison)
    ensures (forall w, db, r :: OnePerUser(db) && KeepsIdentity(db, r) ==> OnePerUser(Handle(w, c, db, r))) <==> c.ByValue?
  {
    if c.ByValue? {
      forall w, db, r | OnePerUser(db) && KeepsIdentity(db, r)
        ensures OnePerUser(Handle(w, c, db, r))
      {
        HandleKeepsOnePerUser(w, db, r);
      }
    } else {
      var w, db, r := HandsInAlone();
    }
  }

  // User b creates a submission in the name of a.
  function InAnothersName(id: Id): Request {
    Create(id, Caller("b", true), Data(Some("h"), Some("a"), None, None, false))
  }

  lemma AnothersNameIsAccepted(c: Comparison, db: Submissions, id: Id)
    requires forall b :: b in db ==> db[b].studentId == "a" && !Listed(c, "b", db[b].teamMembers)
    ensures Handle(SmallSchool(), c, db, InAnothersName(id)) == db[id := Submission("a", "h", ["b"], None)]
  {
    var w, r, others := SmallSchool(), InAnothersName(id), SubmissionsFor(db, Some("h"));
    assert NewMembers(["b"], []) == ["b"] + NewMembers([], []) == ["b"];
    assert "a"[0] != "b"[0];
    assert !SubmittedBefore(c, others, ["b"]);
    assert SharedGuards(w, c, w.homeworks["h"], false, r.data, Some(["b"]), [], others) == Success(());
  }

  /** No hook looks at the sent creator: with a submission of a stored, and however ids are compared, b's create in a's
      name is accepted, and a has two. */
  lemma CreatorIsNotChecked(c: Comparison)
    ensures exists w: School, db: Submissions, r: Request ::
      && OnePerUser(db) && CreatorsDiffer(db) && r.Create? && r.id !in db
      && !CreatorsDiffer(Handle(w, c, db, r)) && !OnePerUser(Handle(w, c, db, r))
  {
    var w, db, r := SmallSchool(), map["1" := Submission("a", "h", ["a"], None)], InAnothersName("2");
    assert "1"[0] != "2"[0] && "a"[0] != "b"[0];
    AnothersNameIsAccepted(c, db, "2");
    var db' := Handle(w, c, db, r);
    assert db'["1"].studentId == db'["2"].studentId && db'["2"].studentId !in db'["2"].teamMembers;
    assert OnePerUser(db) && CreatorsDiffer(db) && !CreatorsDiffer(db') && !OnePerUser(db');
  }

  /** As ids are stored, b can even do so twice. */
  lemma AnothersNameTwice()
    ensures var requests := [InAnothersName("1"), InAnothersName("2")];
            HandleAll(SmallSchool(), AsStored, map[], requests) ==
              map["1" := Submission("a", "h", ["b"], None), "2" := Submission("a", "h", ["b"], None)]
  {
    var first, second := InAnothersName("1"), InAnothersName("2");
    var s := Submission("a", "h", ["b"], None);
    assert [first, second][1..] == [second] && [second][1..] == [];
    AnothersNameIsAccepted(AsStored, map[], "1");
    AnothersNameIsAccepted(AsStored, map["1" := s], "2");
    assert HandleAll(SmallSchool(), AsStored, map["1" := s]["2" := s], []) == map["1" := s]["2" := s];
  }

  // User a adds user b, who has a submission of b's own, and leaves the homework out.
  lemma AddsSubmitter() returns (w: School, db: Submissions, r: Request)
    ensures OnePerUser(db) && r.Patch? && r.id in db && r.data == Data(None, None, r.data.teamMembers, None, false)
    ensures !OnePerUser(Handle(w, ByValue, db, r))
  {
    w, db := SmallSchool(), map["1" := Submission("a", "h", ["a"], None), "2" := Submission("b", "h", ["b"], None)];
    r := Patch("1", Caller("a", true), Data(None, None, Some(["a", "b"]), None, false));
    assert SubmissionsFor(db, None) == map[];
    var db' := Handle(w, ByValue, db, r);
    assert db'["1"] == Submission("a", "h", ["a", "b"], None);
    assert db'["1"].teamMembers[1] == "b" && "b" in db'["2"].teamMembers;
  }

  /** A patch that sends a team but not the homework is checked against no submissions at all. */
  lemma TeamWithoutHomeworkIsUnchecked()
    ensures exists w: School, db: Submissions, r: Request ::
      && OnePerUser(db) && r.Patch? && r.id in db && r.data == Data(None, None, r.data.teamMembers, None, false)
      && !OnePerUser(Handle(w, ByValue, db, r))
  {
    var w, db, r := AddsSubmitter();
  }

  // Who gets through.

  // The homework's own teacher, a teacher of its course, or a substitute there.
  predicate Teaches(w: School, homeworkId: Id, user: Id) {
    homeworkId in w.homeworks
    && var homework := w.homeworks[homeworkId];
    || homework.teacherId == user
    || (homework.courseId.Some? && homework.courseId.value in w.courses
        && (user in w.courses[homework.courseId.value].teacherIds || user in w.courses[homework.courseId.value].substitutionIds))
  }

  /** Only teachers of the homework a submission ends up at grade it, and only they, team members and course
      groups edit it, provided that they may see it. */
  lemma EditsAreAuthorised(w: School, c: Comparison, db: Submissions, caller: Caller, id: Id, d: Data, whole: bool)
    requires EditGuards(w, c, db, caller, id, d, whole).Success?
    ensures caller.permitted && id in db && ViewPermission(w, db[id], caller.user).Allowed?
    ensures var teaches := Teaches(w, Sent(d.homeworkId, db[id].homeworkId), caller.user);
            && (d.grades ==> teaches)
            && (teaches || caller.user == db[id].studentId || caller.user in db[id].teamMembers || ViaGroup(db[id], d))
  {
  }

  /** Teachers do not delete what students hand in: only the team does. */
  lemma RemovalsAreAuthorised(w: School, db: Submissions, caller: Caller, id: Id)
    requires RemoveResult(w, db, caller, id).Success?
    ensures caller.permitted && id in db && ViewPermission(w, db[id], caller.user).Allowed?
    ensures caller.user == db[id].studentId || caller.user in db[id].teamMembers || db[id].courseGroupId.Some?
  {
  }

  // The request has the right to change or remove the submission.
  predicate Authorised(w: School, db: Submissions, r: Request, id: Id) {
    && id in db && r.id == id && r.caller.permitted && ViewPermission(w, db[id], r.caller.user).Allowed?
    && var member := r.caller.user == db[id].studentId || r.caller.user in db[id].teamMembers;
    match r
    case Create(_, _, _) => false
    case RemoveRequest(_, _) => member || db[id].courseGroupId.Some?
    case _ =>
      var teaches := Teaches(w, Sent(r.data.homeworkId, db[id].homeworkId), r.caller.user);
      (r.data.grades ==> teaches) && (teaches || member || ViaGroup(db[id], r.data))
  }

  predicate Differs(db: Submissions, db': Submissions, id: Id)
    requires id in db
  {
    id !in db' || db'[id] != db[id]
  }

  lemma ChangeIsAuthorised(w: School, c: Comparison, db: Submissions, r: Request, id: Id)
    requires id in db && (r.Create? ==> r.id !in db)
    requires Differs(db, Handle(w, c, db, r), id)
    ensures Authorised(w, db, r, id)
  {
    match r
    case Create(_, _, _) =>
    case Update(_, caller, d) =>
      assert EditGuards(w, c, db, caller, id, d, true).Success?;
      EditsAreAuthorised(w, c, db, caller, id, d, true);
    case Patch(_, caller, d) =>
      assert EditGuards(w, c, db, caller, id, d, false).Success?;
      EditsAreAuthorised(w, c, db, caller, id, d, false);
    case RemoveRequest(_, caller) =>
      RemovalsAreAuthorised(w, db, caller, id);
  }

  // New submissions get ids that are not in use.
  predicate CreatesAreFresh(w: School, c: Comparison, db: Submissions, requests: seq<Request>)
    decreases |requests|
  {
    requests == [] ||
    ((requests[0].Create? ==> requests[0].id !in db) && CreatesAreFresh(w, c, Handle(w, c, db, requests[0]), requests[1..]))
  }

  /** Over whole runs: if a stored submission is changed or gone in the end, then some request of the run had the right
      to change it, in the state it was served in. */
  lemma {:induction false} ChangesInRunsAreAuthorised(w: School, c: Comparison, db: Submissions, requests: seq<Request>, id: Id)
    returns (i: nat)
    requires id in db && CreatesAreFresh(w, c, db, requests)
    requires Differs(db, HandleAll(w, c, db, requests), id)
    ensures i < |requests| && Authorised(w, HandleAll(w, c, db, requests[..i]), requests[i], id)
    decreases |requests|
  {
    var db' := Handle(w, c, db, requests[0]);
    if Differs(db, db', id) {
      ChangeIsAuthorised(w, c, db, requests[0], id);
      i := 0;
    } else {
      var k := ChangesInRunsAreAuthorised(w, c, db', requests[1..], id);
      i := k + 1;
      assert requests[..i][0] == requests[0] && requests[..i][1..] == requests[1..][..k];
    }
  }

  /** Handing in alone for the first time is accepted, whatever the team rules are: the request fails exactly when the
      role, the homework or its course is missing or the caller is part of a stored submission. */
  lemma SoloCreateAcceptedIff(w: School, db: Submissions, caller: Caller, homeworkId: Id)
    ensures CreateResult(w, ByValue, db, caller, Data(Some(homeworkId), Some(caller.user), None, None, false)).Success? <==>
      && caller.permitted
      && homeworkId in w.homeworks
      && IsTeacher(w, w.homeworks[homeworkId], caller.user).Success?
      && (forall id :: id in db && db[id].homeworkId == homeworkId ==>
            db[id].studentId != caller.user && caller.user !in db[id].teamMembers)
  {
    var users, others := [caller.user], SubmissionsFor(db, Some(homeworkId));
    assert NewMembers(users, []) == users + NewMembers([], []) == users;
    assert SubmittedBefore(ByValue, others, users) <==> exists id :: id in others && Involves(ByValue, others[id], users[0]);
    assert forall id :: id in db && db[id].homeworkId == homeworkId <==> id in others;
  }
}
