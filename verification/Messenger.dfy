/** Synchronising the messenger: internal messages are consumed one attempt at a time, acknowledged, rejected or
    put back once, and a message about a school spawns further internal messages. */
module Messenger {
  import opened Options

  datatype Action =
    | SyncUser | SyncSchool | SyncTeam | SyncCourse | DeleteTeam | DeleteCourse | DeleteUser | Unknown

  // Missing and empty fields are not told apart.
  datatype Content = Content(
    action: Action, schoolId: string, userId: string, courseId: string, teamId: string,
    fullSync: bool, courses: bool, teams: bool, schoolSync: bool)

  const BLANK := Content(Unknown, "", "", "", "", false, false, false, false)

  predicate IsObjectId(id: string) {
    |id| == 24 && forall i :: 0 <= i < |id| ==> '0' <= id[i] <= '9' || 'a' <= id[i] <= 'f'
  }

  // validateMessage
  predicate IsValid(content: Content) {
    match content.action
    case SyncSchool => IsObjectId(content.schoolId) && content.fullSync
    case SyncUser => IsObjectId(content.userId) && (content.courses || content.teams || content.fullSync)
    case DeleteUser => IsObjectId(content.userId)
    case SyncCourse | DeleteCourse => IsObjectId(content.courseId)
    case SyncTeam | DeleteTeam => IsObjectId(content.teamId)
    case Unknown => false
  }

  datatype Course = Course(id: string, isArchived: bool)

  /** What the outside world does during one attempt; None stands for an exception. */
  datatype World = World(
    parses: bool,                     // the payload is JSON
    active: Option<bool>,             // ids expanded: does the school use the messenger?
    builds: bool,                     // the outgoing message can be built
    users: Option<seq<string>>,       // all users of the school
    courses: Option<seq<Course>>)     // all courses of the school

  // Lookups without a limit are answered with one page of the services' default size.
  const USERS_PAGE := 1000
  const COURSES_PAGE := 10000

  function FirstPage<T>(items: seq<T>, size: nat): (page: seq<T>)
    ensures page <= items && (|items| <= size ==> page == items)
  {
    if |items| <= size then items else items[..size]
  }

  function UserMessage(user: string): Content {
    BLANK.(action := SyncUser, userId := user, fullSync := true, schoolSync := true)
  }

  function RemovalMessage(course: Course, schoolId: string): Content {
    BLANK.(action := DeleteCourse, courseId := course.id, schoolId := schoolId, schoolSync := true)
  }

  // requestSyncForEachSchoolUser
  function UserMessages(users: seq<string>): seq<Content> {
    if users == [] then [] else UserMessages(users[..|users| - 1]) + [UserMessage(users[|users| - 1])]
  }

  // requestRemovalOfRemovedRooms
  function RemovalMessages(courses: seq<Course>, schoolId: string): seq<Content> {
    if courses == [] then []
    else
      var last := courses[|courses| - 1];
      RemovalMessages(courses[..|courses| - 1], schoolId) + if last.isArchived then [RemovalMessage(last, schoolId)] else []
  }

  datatype Outcome = Succeeded | Refused | Threw

  // What one attempt sends to the external queue (nothing or one message), and to the internal one.
  datatype Effect = Effect(outcome: Outcome, sends: bool, spawns: seq<Content>)

  // The users an attempt finds before it looks up courses.
  predicate LooksUpUsers(content: Content, w: World) {
    w.parses && IsValid(content) && w.active == Some(true) && content.action.SyncSchool? && w.users.Some?
  }

  function Queued(content: Content, w: World): seq<string> {
    if LooksUpUsers(content, w) then FirstPage(w.users.value, USERS_PAGE) else []
  }

  // executeMessage
  function Execute(content: Content, w: World): Effect {
    if !w.parses then Effect(Threw, false, [])
    else if !IsValid(content) then Effect(Refused, false, [])
    else if w.active.None? then Effect(Threw, false, [])
    else if !w.active.value then Effect(Refused, false, [])
    else if content.action.SyncSchool? then
      var users := UserMessages(Queued(content, w));
      if w.users.None? || w.courses.None? then Effect(Threw, false, users)
      else Effect(Succeeded, false, users + RemovalMessages(FirstPage(w.courses.value, COURSES_PAGE), content.schoolId))
    else if !w.builds then Effect(Threw, false, [])
    else Effect(Succeeded, true, [])
  }

  function Priority(content: Content): int {
    if content.schoolSync then 0 else 2
  }

  // The broker's view of one internal message.
  datatype Status = Waiting(redelivered: bool) | Acked | Rejected
  datatype Message = Message(
    content: Content,
    origin: Option<nat>,    // the position of the message it was spawned by
    status: Status,
    attempts: nat,
    errors: nat)

  // A message in the external queue, with the position of the internal message it was made for.
  datatype Outgoing = Outgoing(origin: nat, action: Action, priority: int)

  datatype Queues = Queues(messages: seq<Message>, external: seq<Outgoing>)

  function Fresh(contents: seq<Content>, origin: Option<nat>): seq<Message> {
    seq(|contents|, i requires 0 <= i < |contents| => Message(contents[i], origin, Waiting(false), 0, 0))
  }

  // handleMessage: acknowledge, reject, or put back unless it already was.
  function Settled(m: Message, outcome: Outcome): Message {
    var tried := m.(attempts := m.attempts + 1);
    match outcome
    case Succeeded => tried.(status := Acked)
    case Refused => tried.(status := Rejected)
    case Threw =>
      tried.(errors := m.errors + 1, status := if m.status == Waiting(false) then Waiting(true) else Rejected)
  }

  function Deliver(q: Queues, i: nat, w: World): Queues
    requires i < |q.messages|
  {
    var m := q.messages[i];
    var effect := Execute(m.content, w);
    Queues(q.messages[i := Settled(m, effect.outcome)] + Fresh(effect.spawns, Some(i)),
           if effect.sends then q.external + [Outgoing(i, m.content.action, Priority(m.content))] else q.external)
  }

  predicate IsWaiting(q: Queues, i: nat) {
    i < |q.messages| && q.messages[i].status.Waiting?
  }

  // The queue at the start, and the deliveries in any order.
  function Start(contents: seq<Content>): Queues {
    Queues(Fresh(contents, None), [])
  }

  datatype Delivery = Delivery(message: nat, world: World)

  predicate Run(q: Queues, deliveries: seq<Delivery>)
    decreases |deliveries|
  {
    deliveries == [] ||
    (IsWaiting(q, deliveries[0].message) &&
     Run(Deliver(q, deliveries[0].message, deliveries[0].world), deliveries[1..]))
  }

  function After(q: Queues, deliveries: seq<Delivery>): Queues
    requires Run(q, deliveries)
    decreases |deliveries|
  {
    if deliveries == [] then q
    else After(Deliver(q, deliveries[0].message, deliveries[0].world), deliveries[1..])
  }

  function SentFor(external: seq<Outgoing>, i: nat): nat {
    if external == [] then 0
    else (if external[|external| - 1].origin == i then 1 else 0) + SentFor(external[..|external| - 1], i)
  }

  // How attempts and errors go with the status of a message.
  predicate Sound(m: Message) {
    match m.status
    case Waiting(redelivered) => m.attempts == m.errors == (if redelivered then 1 else 0)
    case Acked => m.attempts == m.errors + 1 <= 2
    case Rejected => m.attempts == m.errors == 2 || m.attempts == m.errors + 1 <= 2
  }

  predicate SendsOne(m: Message) {
    m.status.Acked? && !m.content.action.SyncSchool?
  }

  ghost predicate Inv(q: Queues) {
    && (forall i :: 0 <= i < |q.messages| ==> Sound(q.messages[i]))
    && (forall i :: 0 <= i < |q.messages| ==> SentFor(q.external, i) == if SendsOne(q.messages[i]) then 1 else 0)
    && (forall i: nat :: i >= |q.messages| ==> SentFor(q.external, i) == 0)
    && (forall i :: 0 <= i < |q.external| ==>
          && q.external[i].origin < |q.messages|
          && q.external[i].action == q.messages[q.external[i].origin].content.action
          && q.external[i].priority == Priority(q.messages[q.external[i].origin].content))
  }

  lemma SentForSnoc(external: seq<Outgoing>, o: Outgoing, i: nat)
    ensures SentFor(external + [o], i) == SentFor(external, i) + if o.origin == i then 1 else 0
  {
    assert (external + [o])[..|external|] == external;
  }

  lemma DeliverKeepsMessages(q: Queues, i: nat, w: World, j: nat)
    requires IsWaiting(q, i) && j < |Deliver(q, i, w).messages|
    ensures var m := Deliver(q, i, w).messages[j];
      && (j == i ==> m == Settled(q.messages[i], Execute(q.messages[i].content, w).outcome))
      && (j < |q.messages| && j != i ==> m == q.messages[j])
      && (j >= |q.messages| ==> m.status == Waiting(false) && m.attempts == m.errors == 0 && m.origin == Some(i))
  {
  }

  lemma DeliverSends(q: Queues, i: nat, w: World, j: nat)
    requires IsWaiting(q, i)
    ensures SentFor(Deliver(q, i, w).external, j) ==
            SentFor(q.external, j) + if Execute(q.messages[i].content, w).sends && j == i then 1 else 0
  {
    var content := q.messages[i].content;
    if Execute(content, w).sends {
      SentForSnoc(q.external, Outgoing(i, content.action, Priority(content)), j);
    }
  }

  lemma DeliverKeepsOutgoing(q: Queues, i: nat, w: World)
    requires Inv(q) && IsWaiting(q, i)
    ensures var q' := Deliver(q, i, w);
      forall k :: 0 <= k < |q'.external| ==>
        && q'.external[k].origin < |q'.messages|
        && q'.external[k].action == q'.messages[q'.external[k].origin].content.action
        && q'.external[k].priority == Priority(q'.messages[q'.external[k].origin].content)
  {
    var q' := Deliver(q, i, w);
    forall j | 0 <= j < |q.messages|
      ensures q'.messages[j].content == q.messages[j].content
    {
      DeliverKeepsMessages(q, i, w, j);
    }
  }

  lemma DeliverKeepsInv(q: Queues, i: nat, w: World)
    requires Inv(q) && IsWaiting(q, i)
    ensures Inv(Deliver(q, i, w))
  {
    var q' := Deliver(q, i, w);
    DeliverKeepsOutgoing(q, i, w);
    forall j: nat
      ensures j < |q'.messages| ==> Sound(q'.messages[j])
      ensures SentFor(q'.external, j) == if j < |q'.messages| && SendsOne(q'.messages[j]) then 1 else 0
    {
      DeliverSends(q, i, w, j);
      if j < |q'.messages| {
        DeliverKeepsMessages(q, i, w, j);
      }
    }
  }

  lemma {:induction false} RunKeepsInv(q: Queues, deliveries: seq<Delivery>)
    requires Inv(q) && Run(q, deliveries)
    ensures Inv(After(q, deliveries))
    decreases |deliveries|
  {
    if deliveries != [] {
      DeliverKeepsInv(q, deliveries[0].message, deliveries[0].world);
      RunKeepsInv(Deliver(q, deliveries[0].message, deliveries[0].world), deliveries[1..]);
    }
  }

  /** Whatever fails and in whatever order messages are delivered: each is attempted at most twice, a second
      attempt follows an exception only, and the external queue holds exactly one message, with its
      priority, for every acknowledged message that is not about a school, and none for any other. */
  lemma EachMessageIsSettledOnce(contents: seq<Content>, deliveries: seq<Delivery>, i: nat)
    requires Run(Start(contents), deliveries)
    requires i < |After(Start(contents), deliveries).messages|
    ensures var q := After(Start(contents), deliveries);
            var m := q.messages[i];
            && m.attempts <= 2
            && (m.attempts == 2 ==> m.errors >= 1)
            && (m.status.Rejected? && m.attempts == 1 ==> m.errors == 0)
            && SentFor(q.external, i) == (if SendsOne(m) then 1 else 0)
            && (forall k :: 0 <= k < |q.external| && q.external[k].origin == i ==>
                  && q.external[k].action == m.content.action
                  && q.external[k].priority == if m.content.schoolSync then 0 else 2)
  {
    RunKeepsInv(Start(contents), deliveries);
  }

  // What an attempt needs.

  lemma ObjectIdsAre(id: string)
    ensures IsObjectId(id) <==> Printed(id)
  {
    forall i | 0 <= i < |id|
      ensures id[i] in "0123456789abcdef" <==> '0' <= id[i] <= '9' || 'a' <= id[i] <= 'f'
    {
      HexDigits(id[i]);
    }
    if IsObjectId(id) {
      forall ch | ch in id
        ensures ch in "0123456789abcdef"
      {
        var i :| 0 <= i < |id| && id[i] == ch;
      }
    }
    if Printed(id) {
      forall i | 0 <= i < |id|
        ensures id[i] in "0123456789abcdef"
      {
        assert id[i] in id;
      }
    }
  }

  lemma HexDigits(ch: char)
    ensures ch in "0123456789abcdef" <==> '0' <= ch <= '9' || 'a' <= ch <= 'f'
  {
    var digits := "0123456789abcdef";
    if '0' <= ch <= '9' {
      assert digits[ch as int - '0' as int] == ch;
    } else if 'a' <= ch <= 'f' {
      assert digits[ch as int - 'a' as int + 10] == ch;
    }
  }

  // An id as it is printed.
  ghost predicate Printed(id: string) {
    |id| == 24 && forall ch :: ch in id ==> ch in "0123456789abcdef"
  }

  /** When an attempt succeeds, for every kind of message: the payload parses, the message names what it is about, and how
      much of it is to be synchronised, the school uses the messenger, and the lookups of a school or the outgoing message of
      anything else succeed.  It sends exactly if it succeeds and is not about a school. */
  lemma AttemptSucceedsIff(content: Content, w: World)
    ensures Execute(content, w).outcome.Succeeded? <==>
      && w.parses && w.active == Some(true)
      && (content.action.SyncSchool? ==> Printed(content.schoolId) && content.fullSync && w.users.Some? && w.courses.Some?)
      && (content.action.SyncUser? ==> Printed(content.userId) && (content.fullSync || content.courses || content.teams) && w.builds)
      && (content.action.DeleteUser? ==> Printed(content.userId) && w.builds)
      && (content.action.SyncCourse? || content.action.DeleteCourse? ==> Printed(content.courseId) && w.builds)
      && (content.action.SyncTeam? || content.action.DeleteTeam? ==> Printed(content.teamId) && w.builds)
      && content.action != Unknown
    ensures Execute(content, w).sends <==> Execute(content, w).outcome.Succeeded? && content.action != SyncSchool
  {
    ObjectIdsAre(content.schoolId);
    ObjectIdsAre(content.userId);
    ObjectIdsAre(content.courseId);
    ObjectIdsAre(content.teamId);
  }

  /** When it is refused for good: the payload parses and the message lacks something, or the school is known not to use the
      messenger.  Every other failure is an exception. */
  lemma AttemptRefusedIff(content: Content, w: World)
    ensures Execute(content, w).outcome.Refused? <==>
      w.parses && (
        || w.active == Some(false)
        || content.action.Unknown?
        || (content.action.SyncSchool? && !(Printed(content.schoolId) && content.fullSync))
        || (content.action.SyncUser? && !(Printed(content.userId) && (content.fullSync || content.courses || content.teams)))
        || (content.action.DeleteUser? && !Printed(content.userId))
        || ((content.action.SyncCourse? || content.action.DeleteCourse?) && !Printed(content.courseId))
        || ((content.action.SyncTeam? || content.action.DeleteTeam?) && !Printed(content.teamId)))
  {
    ObjectIdsAre(content.schoolId);
    ObjectIdsAre(content.userId);
    ObjectIdsAre(content.courseId);
    ObjectIdsAre(content.teamId);
  }

  // Quiescence: attempts left for messages about schools, and for all others.

  function AttemptsLeft(messages: seq<Message>, school: bool): nat {
    if messages == [] then 0
    else
      (if !messages[0].status.Waiting? || messages[0].content.action.SyncSchool? != school then 0
       else if messages[0].status.redelivered then 1 else 2)
      + AttemptsLeft(messages[1..], school)
  }

  lemma {:induction false} AttemptsLeftSplit(a: seq<Message>, b: seq<Message>, school: bool)
    ensures AttemptsLeft(a + b, school) == AttemptsLeft(a, school) + AttemptsLeft(b, school)
  {
    if a == [] {
      assert a + b == b;
    } else {
      assert (a + b)[1..] == a[1..] + b;
      AttemptsLeftSplit(a[1..], b, school);
    }
  }

  lemma {:induction false} NoSchoolsSpawned(contents: seq<Content>, origin: Option<nat>)
    requires forall c :: c in contents ==> !c.action.SyncSchool?
    ensures AttemptsLeft(Fresh(contents, origin), true) == 0
  {
    if contents != [] {
      assert Fresh(contents, origin)[1..] == Fresh(contents[1..], origin);
      assert contents[0] in contents;
      NoSchoolsSpawned(contents[1..], origin);
    }
  }

  lemma {:induction false} UsersAreQueued(users: seq<string>)
    ensures forall c :: c in UserMessages(users) <==> exists id :: id in users && c == UserMessage(id)
  {
    if users != [] {
      var before, last := users[..|users| - 1], users[|users| - 1];
      UsersAreQueued(before);
      assert users == before + [last];
      forall c
        ensures c in UserMessages(users) <==> exists id :: id in users && c == UserMessage(id)
      {
        if c == UserMessage(last) {
          assert last in users;
        } else if id :| id in before && c == UserMessage(id) {
          assert id in users;
        }
      }
    }
  }

  lemma {:induction false} RemovalsAreQueued(courses: seq<Course>, schoolId: string)
    ensures forall c :: c in RemovalMessages(courses, schoolId) <==>
      exists course :: course in courses && course.isArchived && c == RemovalMessage(course, schoolId)
  {
    if courses != [] {
      var before, last := courses[..|courses| - 1], courses[|courses| - 1];
      RemovalsAreQueued(before, schoolId);
      assert courses == before + [last];
      forall c
        ensures c in RemovalMessages(courses, schoolId) <==>
                exists course :: course in courses && course.isArchived && c == RemovalMessage(course, schoolId)
      {
        if last.isArchived && c == RemovalMessage(last, schoolId) {
          assert last in courses;
        } else if course :| course in before && course.isArchived && c == RemovalMessage(course, schoolId) {
          assert course in courses;
        }
      }
    }
  }

  // Everything an attempt spawns.
  lemma SpawnsAre(content: Content, w: World, c: Content)
    ensures c in Execute(content, w).spawns <==>
      || (exists id :: id in Queued(content, w) && c == UserMessage(id))
      || (LooksUpUsers(content, w) && w.courses.Some?
          && exists course :: course in FirstPage(w.courses.value, COURSES_PAGE) && course.isArchived
               && c == RemovalMessage(course, content.schoolId))
  {
    UsersAreQueued(Queued(content, w));
    if w.courses.Some? {
      RemovalsAreQueued(FirstPage(w.courses.value, COURSES_PAGE), content.schoolId);
    }
  }

  /** Fan-out stops after one level: nothing a message spawns is about a school, everything is marked as part
      of a school sync and gets the lowest priority, and it is valid if the ids it was made from are. */
  lemma SpawnsAreLeaves(content: Content, w: World, c: Content)
    requires c in Execute(content, w).spawns
    ensures !c.action.SyncSchool? && Priority(c) == 0
    ensures w.users.Some?
    ensures (forall id :: id in w.users.value ==> IsObjectId(id)) && c.action.SyncUser? ==> IsValid(c)
    ensures c.action.SyncUser? || (w.courses.Some? && c.action.DeleteCourse?)
    ensures c.action.DeleteCourse? ==>
      ((forall course :: course in w.courses.value ==> IsObjectId(course.id)) ==> IsValid(c))
  {
    SpawnsAre(content, w, c);
  }

  predicate Unique<T(==)>(items: seq<T>) {
    forall i, j :: 0 <= i < j < |items| ==> items[i] != items[j]
  }

  // A page misses something exactly if the list is longer.
  lemma PageHoldsAllIff<T>(items: seq<T>, size: nat)
    requires Unique(items)
    ensures (forall x :: x in items ==> x in FirstPage(items, size)) <==> |items| <= size
  {
    if |items| > size {
      assert items[size] in items && items[size] !in FirstPage(items, size);
    }
  }

  /** The spawned messages, field by field: a marked full sync for each user of the first page of 1000, and a marked
      removal for each archived course of the first page of 10000. */
  lemma SpawnedMessagesAre(content: Content, w: World, c: Content)
    requires content.action.SyncSchool? && Execute(content, w).outcome.Succeeded?
    ensures w.users.Some? && w.courses.Some?
    ensures c in Execute(content, w).spawns <==>
      || (exists i :: 0 <= i < |w.users.value| && i < 1000
            && c == Content(SyncUser, "", w.users.value[i], "", "", true, false, false, true))
      || (exists i :: 0 <= i < |w.courses.value| && i < 10000 && w.courses.value[i].isArchived
            && c == Content(DeleteCourse, content.schoolId, "", w.courses.value[i].id, "", false, false, false, true))
  {
    SpawnsAre(content, w, c);
    var users, courses := FirstPage(w.users.value, USERS_PAGE), FirstPage(w.courses.value, COURSES_PAGE);
    if i :| 0 <= i < |w.users.value| && i < 1000 && c == UserMessage(w.users.value[i]) {
      assert users[i] == w.users.value[i] && users[i] in users;
    }
    if i :| 0 <= i < |w.courses.value| && i < 10000 && w.courses.value[i].isArchived && c == RemovalMessage(w.courses.value[i], content.schoolId) {
      assert courses[i] == w.courses.value[i] && courses[i] in courses;
    }
    if id :| id in users && c == UserMessage(id) {
      var i :| 0 <= i < |users| && users[i] == id;
      assert w.users.value[i] == id;
    }
    if course :| course in courses && course.isArchived && c == RemovalMessage(course, content.schoolId) {
      var i :| 0 <= i < |courses| && courses[i] == course;
      assert w.courses.value[i] == course;
    }
  }

  /** An acknowledged school sync has queued a full sync for the users of the first page and a removal for exactly the
      archived courses of the first page; so it covers the whole school if and only if the school has no more users
      than a page, and no archived course behind the first page. */
  lemma SchoolSyncCoversTheSchool(content: Content, w: World)
    requires content.action.SyncSchool? && Execute(content, w).outcome.Succeeded?
    ensures w.users.Some? && w.courses.Some?
    ensures forall id :: id in FirstPage(w.users.value, USERS_PAGE) <==> UserMessage(id) in Execute(content, w).spawns
    ensures forall course: Course :: course.isArchived && course in FirstPage(w.courses.value, COURSES_PAGE) ==>
      RemovalMessage(course, content.schoolId) in Execute(content, w).spawns
    ensures forall c :: c in Execute(content, w).spawns && c.action.DeleteCourse? ==>
      exists course :: course in w.courses.value && course.isArchived && c == RemovalMessage(course, content.schoolId)
    ensures Unique(w.users.value) ==>
      ((forall id :: id in w.users.value ==> UserMessage(id) in Execute(content, w).spawns) <==> |w.users.value| <= 1000)
  {
    forall id
      ensures id in FirstPage(w.users.value, USERS_PAGE) <==> UserMessage(id) in Execute(content, w).spawns
    {
      SpawnsAre(content, w, UserMessage(id));
    }
    forall course: Course | course.isArchived && course in FirstPage(w.courses.value, COURSES_PAGE)
      ensures RemovalMessage(course, content.schoolId) in Execute(content, w).spawns
    {
      SpawnsAre(content, w, RemovalMessage(course, content.schoolId));
    }
    forall c | c in Execute(content, w).spawns && c.action.DeleteCourse?
      ensures exists course :: course in w.courses.value && course.isArchived && c == RemovalMessage(course, content.schoolId)
    {
      SpawnsAre(content, w, c);
    }
    if Unique(w.users.value) {
      PageHoldsAllIff(w.users.value, USERS_PAGE);
    }
  }

  // Removals are told apart by the course id.
  predicate UniqueCourses(courses: seq<Course>) {
    forall i, j :: 0 <= i < j < |courses| ==> courses[i].id != courses[j].id
  }

  lemma ArchivedCoursesAreRemovedIff(content: Content, w: World)
    requires content.action.SyncSchool? && Execute(content, w).outcome.Succeeded?
    requires w.courses.Some? && UniqueCourses(w.courses.value)
    ensures (forall course :: course in w.courses.value && course.isArchived ==>
               RemovalMessage(course, content.schoolId) in Execute(content, w).spawns) <==>
            forall i :: 10000 <= i < |w.courses.value| ==> !w.courses.value[i].isArchived
  {
    var courses := w.courses.value;
    var page := FirstPage(courses, COURSES_PAGE);
    forall i | 0 <= i < |courses| && courses[i].isArchived
      ensures RemovalMessage(courses[i], content.schoolId) in Execute(content, w).spawns <==> i < COURSES_PAGE
    {
      SpawnsAre(content, w, RemovalMessage(courses[i], content.schoolId));
      if i < COURSES_PAGE {
        assert courses[i] == page[i] && courses[i] in page;
      }
    }
    assert forall i :: 0 <= i < |courses| ==> courses[i] in courses;
  }

  // The retry.

  /** An attempt fails after it has queued something exactly if it gets as far as a non-empty list of users and the
      course lookup fails. */
  lemma FailsAfterQueuingIff(content: Content, w: World)
    ensures Execute(content, w).outcome.Threw? && Execute(content, w).spawns != [] <==>
            LooksUpUsers(content, w) && w.users.value != [] && w.courses.None?
  {
    if LooksUpUsers(content, w) {
      UserMessagesAre(Queued(content, w));
    }
  }

  lemma {:induction false} UserMessagesAre(users: seq<string>)
    ensures |UserMessages(users)| == |users|
  {
    if users != [] {
      UserMessagesAre(users[..|users| - 1]);
    }
  }

  // The worlds in which message `i` was attempted.
  function Attempts(deliveries: seq<Delivery>, i: nat): seq<World> {
    if deliveries == [] then []
    else (if deliveries[0].message == i then [deliveries[0].world] else []) + Attempts(deliveries[1..], i)
  }

  // The full syncs of a user that message `i` spawned.
  predicate IsCopy(m: Message, i: nat, user: string) {
    m.origin == Some(i) && m.content == UserMessage(user)
  }

  function Copies(messages: seq<Message>, i: nat, user: string): nat {
    if messages == [] then 0
    else Copies(messages[..|messages| - 1], i, user) + if IsCopy(messages[|messages| - 1], i, user) then 1 else 0
  }

  function QueuedByAll(content: Content, attempts: seq<World>): multiset<string> {
    if attempts == [] then multiset{} else multiset(Queued(content, attempts[0])) + QueuedByAll(content, attempts[1..])
  }

  lemma {:induction false} CopiesSplit(a: seq<Message>, b: seq<Message>, i: nat, user: string)
    ensures Copies(a + b, i, user) == Copies(a, i, user) + Copies(b, i, user)
    decreases |b|
  {
    if b == [] {
      assert a + b == a;
    } else {
      assert (a + b)[..|a + b| - 1] == a + b[..|b| - 1];
      CopiesSplit(a, b[..|b| - 1], i, user);
    }
  }

  lemma {:induction false} SameCopies(a: seq<Message>, b: seq<Message>, i: nat, user: string)
    requires |a| == |b| && forall j :: 0 <= j < |a| ==> a[j].content == b[j].content && a[j].origin == b[j].origin
    ensures Copies(a, i, user) == Copies(b, i, user)
  {
    if a != [] {
      SameCopies(a[..|a| - 1], b[..|b| - 1], i, user);
    }
  }

  lemma {:induction false} NoCopies(messages: seq<Message>, i: nat, user: string)
    requires forall m :: m in messages ==> !IsCopy(m, i, user)
    ensures Copies(messages, i, user) == 0
  {
    if messages != [] {
      NoCopies(messages[..|messages| - 1], i, user);
    }
  }

  lemma FreshSplit(a: seq<Content>, b: seq<Content>, origin: Option<nat>)
    ensures Fresh(a + b, origin) == Fresh(a, origin) + Fresh(b, origin)
  {
  }

  lemma {:induction false} CopiesOfUsers(users: seq<string>, i: nat, user: string)
    ensures Copies(Fresh(UserMessages(users), Some(i)), i, user) == multiset(users)[user]
  {
    if users != [] {
      var before, last := users[..|users| - 1], users[|users| - 1];
      CopiesOfUsers(before, i, user);
      FreshSplit(UserMessages(before), [UserMessage(last)], Some(i));
      CopiesSplit(Fresh(UserMessages(before), Some(i)), Fresh([UserMessage(last)], Some(i)), i, user);
      var one := Fresh([UserMessage(last)], Some(i));
      assert one == [one[0]] && one[..0] == [];
      assert users == before + [last];
    }
  }

  lemma CopiesOfSpawns(content: Content, w: World, i: nat, user: string)
    ensures Copies(Fresh(Execute(content, w).spawns, Some(i)), i, user) == multiset(Queued(content, w))[user]
  {
    var users := UserMessages(Queued(content, w));
    CopiesOfUsers(Queued(content, w), i, user);
    if LooksUpUsers(content, w) && w.courses.Some? {
      var removals := RemovalMessages(FirstPage(w.courses.value, COURSES_PAGE), content.schoolId);
      RemovalsAreQueued(FirstPage(w.courses.value, COURSES_PAGE), content.schoolId);
      FreshSplit(users, removals, Some(i));
      CopiesSplit(Fresh(users, Some(i)), Fresh(removals, Some(i)), i, user);
      forall m | m in Fresh(removals, Some(i))
        ensures !IsCopy(m, i, user)
      {
        assert m.content in removals;
      }
      NoCopies(Fresh(removals, Some(i)), i, user);
    }
  }

  lemma DeliverAddsCopies(q: Queues, j: nat, w: World, i: nat, user: string)
    requires IsWaiting(q, j)
    ensures Copies(Deliver(q, j, w).messages, i, user) ==
            Copies(q.messages, i, user) + if j == i then multiset(Queued(q.messages[i].content, w))[user] else 0
  {
    var m := q.messages[j];
    var effect := Execute(m.content, w);
    var settled, spawned := q.messages[j := Settled(m, effect.outcome)], Fresh(effect.spawns, Some(j));
    CopiesSplit(settled, spawned, i, user);
    SameCopies(settled, q.messages, i, user);
    if j == i {
      CopiesOfSpawns(m.content, w, i, user);
    } else {
      NoCopies(spawned, i, user);
    }
  }

  /** Conservation: however deliveries are mixed, a message has spawned as many syncs of a user as its attempts have
      found that user. */
  lemma {:induction false} CopiesAreFromAttempts(q: Queues, deliveries: seq<Delivery>, i: nat, user: string)
    requires Run(q, deliveries) && i < |q.messages|
    ensures Copies(After(q, deliveries).messages, i, user) ==
            Copies(q.messages, i, user) + QueuedByAll(q.messages[i].content, Attempts(deliveries, i))[user]
    decreases |deliveries|
  {
    if deliveries != [] {
      var d := deliveries[0];
      DeliverAddsCopies(q, d.message, d.world, i, user);
      DeliverKeepsMessages(q, d.message, d.world, i);
      CopiesAreFromAttempts(Deliver(q, d.message, d.world), deliveries[1..], i, user);
      FirstAttempt(q.messages[i].content, deliveries, i, user);
    }
  }

  lemma FirstAttempt(content: Content, deliveries: seq<Delivery>, i: nat, user: string)
    requires deliveries != []
    ensures QueuedByAll(content, Attempts(deliveries, i))[user] ==
            (if deliveries[0].message == i then multiset(Queued(content, deliveries[0].world))[user] else 0)
            + QueuedByAll(content, Attempts(deliveries[1..], i))[user]
  {
    var later := Attempts(deliveries[1..], i);
    assert ([deliveries[0].world] + later)[1..] == later && [] + later == later;
  }

  lemma CopiesFromStart(contents: seq<Content>, deliveries: seq<Delivery>, i: nat, user: string)
    requires Run(Start(contents), deliveries) && i < |contents|
    ensures Copies(After(Start(contents), deliveries).messages, i, user) ==
            QueuedByAll(contents[i], Attempts(deliveries, i))[user]
  {
    NoCopies(Start(contents).messages, i, user);
    CopiesAreFromAttempts(Start(contents), deliveries, i, user);
  }

  /** A message is attempted again only after an exception, and only once. */
  lemma {:induction false} AttemptsFollowStatus(q: Queues, deliveries: seq<Delivery>, i: nat)
    requires Run(q, deliveries) && i < |q.messages|
    ensures var attempts := Attempts(deliveries, i);
            match q.messages[i].status
            case Waiting(redelivered) =>
              && |attempts| <= (if redelivered then 1 else 2)
              && (|attempts| == 2 ==> Execute(q.messages[i].content, attempts[0]).outcome.Threw?)
            case _ => attempts == []
    decreases |deliveries|
  {
    if deliveries != [] {
      var d := deliveries[0];
      DeliverKeepsMessages(q, d.message, d.world, i);
      AttemptsFollowStatus(Deliver(q, d.message, d.world), deliveries[1..], i);
    }
  }

  /** What becomes of a message, in every run: it is acknowledged if and only if its first attempt succeeded, or threw and
      was followed by one that did; and finally rejected if and only if its first attempt was refused, or threw and was
      followed by one that did not succeed. */
  lemma {:induction false} AcknowledgedIff(q: Queues, deliveries: seq<Delivery>, i: nat)
    requires Run(q, deliveries) && i < |q.messages| && q.messages[i].status == Waiting(false)
    ensures i < |After(q, deliveries).messages|
    ensures var content, status := q.messages[i].content, After(q, deliveries).messages[i].status;
            var attempts := Attempts(deliveries, i);
            && |attempts| <= 2
            && (status.Acked? <==>
                  || (|attempts| == 1 && Execute(content, attempts[0]).outcome.Succeeded?)
                  || (|attempts| == 2 && Execute(content, attempts[0]).outcome.Threw? && Execute(content, attempts[1]).outcome.Succeeded?))
            && (status.Rejected? <==>
                  || (|attempts| == 1 && Execute(content, attempts[0]).outcome.Refused?)
                  || (|attempts| == 2 && Execute(content, attempts[0]).outcome.Threw? && !Execute(content, attempts[1]).outcome.Succeeded?))
    decreases |deliveries|
  {
    if deliveries != [] {
      var d := deliveries[0];
      var q' := Deliver(q, d.message, d.world);
      DeliverKeepsMessages(q, d.message, d.world, i);
      if d.message != i {
        assert Attempts(deliveries, i) == Attempts(deliveries[1..], i);
        AcknowledgedIff(q', deliveries[1..], i);
      } else {
        assert Attempts(deliveries, i) == [d.world] + Attempts(deliveries[1..], i);
        LaterStatus(q', deliveries[1..], i);
      }
    }
  }

  // After its first attempt.
  lemma {:induction false} LaterStatus(q: Queues, deliveries: seq<Delivery>, i: nat)
    requires Run(q, deliveries) && i < |q.messages| && q.messages[i].status != Waiting(false)
    ensures i < |After(q, deliveries).messages|
    ensures var content, status := q.messages[i].content, After(q, deliveries).messages[i].status;
            var attempts := Attempts(deliveries, i);
            if q.messages[i].status.Waiting? && attempts != [] then
              |attempts| == 1 && status == if Execute(content, attempts[0]).outcome.Succeeded? then Acked else Rejected
            else attempts == [] && status == q.messages[i].status
    decreases |deliveries|
  {
    if deliveries != [] {
      var d := deliveries[0];
      DeliverKeepsMessages(q, d.message, d.world, i);
      LaterStatus(Deliver(q, d.message, d.world), deliveries[1..], i);
    }
  }

  lemma {:induction false} UniqueCounts(users: seq<string>, user: string)
    requires Unique(users)
    ensures multiset(users)[user] == if user in users then 1 else 0
  {
    if users != [] {
      var before, last := users[..|users| - 1], users[|users| - 1];
      assert users == before + [last];
      UniqueCounts(before, user);
    }
  }

  // Some user is found by both of two attempts.
  ghost predicate BothQueue(content: Content, first: World, second: World) {
    exists user :: user in Queued(content, first) && user in Queued(content, second)
  }

  /** When the retry queues a user twice: exactly if there was a retry, the first attempt failed in its course lookup,
      after it had found users, and the second one found one of these users again. */
  lemma UserIsQueuedTwiceIff(contents: seq<Content>, deliveries: seq<Delivery>, i: nat)
    requires Run(Start(contents), deliveries) && i < |contents|
    requires forall d :: d in deliveries && d.world.users.Some? ==> Unique(d.world.users.value)
    ensures var attempts := Attempts(deliveries, i);
            && |attempts| <= 2
            && ((exists user :: Copies(After(Start(contents), deliveries).messages, i, user) > 1) <==>
                  && |attempts| == 2
                  && LooksUpUsers(contents[i], attempts[0]) && attempts[0].courses.None?
                  && BothQueue(contents[i], attempts[0], attempts[1]))
  {
    var q, attempts := After(Start(contents), deliveries), Attempts(deliveries, i);
    AttemptsFollowStatus(Start(contents), deliveries, i);
    AttemptsAreDeliveries(deliveries, i);
    forall user
      ensures Copies(q.messages, i, user) == QueuedByAll(contents[i], attempts)[user]
    {
      CopiesFromStart(contents, deliveries, i, user);
    }
    TwiceMeansBothQueue(contents[i], attempts);
    if user :| QueuedByAll(contents[i], attempts)[user] > 1 {
      assert Copies(q.messages, i, user) > 1;
    }
    if user :| Copies(q.messages, i, user) > 1 {
      assert QueuedByAll(contents[i], attempts)[user] > 1;
    }
  }

  lemma TwiceMeansBothQueue(content: Content, attempts: seq<World>)
    requires |attempts| <= 2 && (|attempts| == 2 ==> Execute(content, attempts[0]).outcome.Threw?)
    requires forall w :: w in attempts && w.users.Some? ==> Unique(w.users.value)
    ensures (exists user :: QueuedByAll(content, attempts)[user] > 1) <==>
            && |attempts| == 2
            && LooksUpUsers(content, attempts[0]) && attempts[0].courses.None?
            && BothQueue(content, attempts[0], attempts[1])
  {
    forall user
      ensures QueuedByAll(content, attempts)[user] > 1 <==>
        |attempts| == 2 && user in Queued(content, attempts[0]) && user in Queued(content, attempts[1])
    {
      CountsOfTwo(content, attempts, user);
    }
    if |attempts| == 2 && BothQueue(content, attempts[0], attempts[1]) {
      var user :| user in Queued(content, attempts[0]) && user in Queued(content, attempts[1]);
      assert QueuedByAll(content, attempts)[user] > 1;
    }
  }

  lemma {:induction false} AttemptsAreDeliveries(deliveries: seq<Delivery>, i: nat)
    ensures forall w :: w in Attempts(deliveries, i) ==> Delivery(i, w) in deliveries
  {
    if deliveries != [] {
      AttemptsAreDeliveries(deliveries[1..], i);
    }
  }

  lemma CountsOfTwo(content: Content, attempts: seq<World>, user: string)
    requires |attempts| <= 2
    requires forall w :: w in attempts && w.users.Some? ==> Unique(w.users.value)
    ensures QueuedByAll(content, attempts)[user] > 1 <==>
            |attempts| == 2 && user in Queued(content, attempts[0]) && user in Queued(content, attempts[1])
  {
    forall w | w in attempts
      ensures multiset(Queued(content, w))[user] == if user in Queued(content, w) then 1 else 0
    {
      UniqueCounts(Queued(content, w), user);
    }
    if attempts != [] {
      assert attempts[0] in attempts;
      assert QueuedByAll(content, attempts[1..]) == if |attempts| == 2 then multiset(Queued(content, attempts[1])) else multiset{} by {
        if |attempts| == 2 {
          assert attempts[1..] == [attempts[1]] && attempts[1..][1..] == [];
        }
      }
      if |attempts| == 2 {
        assert attempts[1] in attempts;
      }
    }
  }

  /** The case happens: with unchanged users, a course lookup that fails once makes every user of the page
      be queued twice. */
  lemma RetriedSchoolSyncRepeatsUsers(content: Content, users: seq<string>, courses: seq<Course>)
    requires content.action.SyncSchool? && IsValid(content)
    ensures var first := Delivery(0, World(true, Some(true), true, Some(users), None));
            var second := Delivery(0, World(true, Some(true), true, Some(users), Some(courses)));
            && Run(Start([content]), [first, second])
            && var messages := After(Start([content]), [first, second]).messages;
            && |messages| > 0 && messages[0].status.Acked?
            && forall user :: Copies(messages, 0, user) == 2 * multiset(FirstPage(users, USERS_PAGE))[user]
  {
    var first := Delivery(0, World(true, Some(true), true, Some(users), None));
    var second := Delivery(0, World(true, Some(true), true, Some(users), Some(courses)));
    var q := Deliver(Start([content]), 0, first.world);
    assert [first, second][1..] == [second] && [second][1..] == [];
    assert q.messages[0].status == Waiting(true);
    assert After(q, [second]) == After(Deliver(q, 0, second.world), []);
    forall user
      ensures Copies(Deliver(q, 0, second.world).messages, 0, user) == 2 * multiset(FirstPage(users, USERS_PAGE))[user]
    {
      NoCopies(Start([content]).messages, 0, user);
      DeliverAddsCopies(Start([content]), 0, first.world, 0, user);
      DeliverAddsCopies(q, 0, second.world, 0, user);
    }
  }

  /** Every delivery uses up an attempt: one for a school, whatever it spawns, or one for something else. */
  lemma DeliverUsesAnAttempt(q: Queues, i: nat, w: World)
    requires IsWaiting(q, i)
    ensures var before, after := q.messages, Deliver(q, i, w).messages;
            || AttemptsLeft(after, true) < AttemptsLeft(before, true)
            || (AttemptsLeft(after, true) == AttemptsLeft(before, true)
                && AttemptsLeft(after, false) < AttemptsLeft(before, false))
  {
    var m := q.messages[i];
    var effect := Execute(m.content, w);
    forall c | c in effect.spawns
      ensures !c.action.SyncSchool?
    {
      SpawnsAreLeaves(m.content, w, c);
    }
    NoSchoolsSpawned(effect.spawns, Some(i));
    DeliverChangesAttempts(q, i, w, true);
    DeliverChangesAttempts(q, i, w, false);
    SettlingUsesAnAttempt(m, effect.outcome);
    if !m.content.action.SyncSchool? {
      assert effect.spawns == [] && Fresh(effect.spawns, Some(i)) == [];
    }
  }

  lemma AttemptsLeftThree(first: seq<Message>, m: Message, rest: seq<Message>, school: bool)
    ensures AttemptsLeft(first + ([m] + rest), school) ==
            AttemptsLeft(first, school) + AttemptsLeft([m], school) + AttemptsLeft(rest, school)
  {
    AttemptsLeftSplit(first, [m] + rest, school);
    AttemptsLeftSplit([m], rest, school);
  }

  lemma DeliverChangesAttempts(q: Queues, i: nat, w: World, school: bool)
    requires IsWaiting(q, i)
    ensures var m := q.messages[i];
            var effect := Execute(m.content, w);
            AttemptsLeft(Deliver(q, i, w).messages, school) - AttemptsLeft(q.messages, school) ==
            AttemptsLeft([Settled(m, effect.outcome)], school) - AttemptsLeft([m], school)
            + AttemptsLeft(Fresh(effect.spawns, Some(i)), school)
  {
    var m := q.messages[i];
    var effect := Execute(m.content, w);
    var settled, spawned := Settled(m, effect.outcome), Fresh(effect.spawns, Some(i));
    var first, rest := q.messages[..i], q.messages[i + 1..];
    assert q.messages == first + ([m] + rest);
    assert q.messages[i := settled] == first + ([settled] + rest);
    AttemptsLeftThree(first, m, rest, school);
    AttemptsLeftThree(first, settled, rest, school);
    AttemptsLeftSplit(q.messages[i := settled], spawned, school);
  }

  lemma SettlingUsesAnAttempt(m: Message, outcome: Outcome)
    requires m.status.Waiting?
    ensures var school := m.content.action.SyncSchool?;
            && AttemptsLeft([Settled(m, outcome)], school) < AttemptsLeft([m], school)
            && AttemptsLeft([Settled(m, outcome)], !school) == AttemptsLeft([m], !school) == 0
  {
    assert [m][1..] == [] && [Settled(m, outcome)][1..] == [];
  }

  // The module-level channels of the consumer.
  class Consumer {
    var queues: Queues

    constructor (contents: seq<Content>)
      ensures queues == Start(contents)
    {
      queues := Start(contents);
    }

    // sendMessage of the producer: a message to the end of the internal queue
    method SendMessage(content: Content, origin: nat)
      modifies this
      ensures queues == old(queues).(messages := old(queues.messages) + Fresh([content], Some(origin)))
    {
      queues := queues.(messages := queues.messages + [Message(content, Some(origin), Waiting(false), 0, 0)]);
    }

    method RequestSyncForEachSchoolUser(users: seq<string>, origin: nat)
      modifies this
      ensures queues == old(queues).(messages := old(queues.messages) + Fresh(UserMessages(users), Some(origin)))
    {
      for k := 0 to |users|
        invariant queues == old(queues).(messages := old(queues.messages) + Fresh(UserMessages(users[..k]), Some(origin)))
      {
        assert users[..k + 1][..k] == users[..k];
        FreshSplit(UserMessages(users[..k]), [UserMessage(users[k])], Some(origin));
        SendMessage(UserMessage(users[k]), origin);
      }
      assert users[..|users|] == users;
    }

    method RequestRemovalOfRemovedRooms(courses: seq<Course>, schoolId: string, origin: nat)
      modifies this
      ensures queues == old(queues).(messages := old(queues.messages) + Fresh(RemovalMessages(courses, schoolId), Some(origin)))
    {
      for k := 0 to |courses|
        invariant queues == old(queues).(messages := old(queues.messages) + Fresh(RemovalMessages(courses[..k], schoolId), Some(origin)))
      {
        assert courses[..k + 1][..k] == courses[..k];
        if courses[k].isArchived {
          FreshSplit(RemovalMessages(courses[..k], schoolId), [RemovalMessage(courses[k], schoolId)], Some(origin));
          SendMessage(RemovalMessage(courses[k], schoolId), origin);
        }
      }
      assert courses[..|courses|] == courses;
    }

    method ExecuteMessage(i: nat, w: World) returns (outcome: Outcome)
      requires i < |queues.messages|
      modifies this
      ensures var content := old(queues.messages[i].content);
              var effect := Execute(content, w);
              && outcome == effect.outcome
              && queues.messages == old(queues.messages) + Fresh(effect.spawns, Some(i))
              && queues.external == if effect.sends then old(queues.external) + [Outgoing(i, content.action, Priority(content))]
                                    else old(queues.external)
    {
      var content := queues.messages[i].content;
      if !w.parses {
        return Threw;
      }
      if !IsValid(content) {
        return Refused;
      }
      if w.active.None? {
        return Threw;
      }
      if !w.active.value {
        return Refused;
      }
      if content.action.SyncSchool? {
        if w.users.None? {
          return Threw;
        }
        RequestSyncForEachSchoolUser(FirstPage(w.users.value, USERS_PAGE), i);
        if w.courses.None? {
          return Threw;
        }
        var courses := FirstPage(w.courses.value, COURSES_PAGE);
        FreshSplit(UserMessages(Queued(content, w)), RemovalMessages(courses, content.schoolId), Some(i));
        RequestRemovalOfRemovedRooms(courses, content.schoolId, i);
        return Succeeded;
      }
      if !w.builds {
        return Threw;
      }
      queues := queues.(external := queues.external + [Outgoing(i, content.action, Priority(content))]);
      outcome := Succeeded;
    }

    method HandleMessage(i: nat, w: World) returns (success: bool)
      requires IsWaiting(queues, i)
      modifies this
      ensures queues == Deliver(old(queues), i, w)
      ensures success <==> queues.messages[i].status.Acked?
    {
      var outcome := ExecuteMessage(i, w);
      var m := queues.messages[i];
      var status := match outcome
        case Succeeded => Acked
        case Refused => Rejected
        case Threw => if m.status.redelivered then Rejected else Waiting(true);
      var errors := if outcome.Threw? then m.errors + 1 else m.errors;
      queues := queues.(messages := queues.messages[i := m.(status := status, attempts := m.attempts + 1, errors := errors)]);
      success := outcome.Succeeded?;
    }

    /** Consuming comes to rest, with whatever the world answers to each attempt, and then every message,
        spawned ones included, has been acknowledged or finally rejected. */
    method ConsumeQueue()
      requires Inv(queues)
      modifies this
      ensures Inv(queues) && |old(queues).messages| <= |queues.messages|
      ensures forall i :: 0 <= i < |queues.messages| ==> queues.messages[i].status.Acked? || queues.messages[i].status.Rejected?
    {
      while exists i :: 0 <= i < |queues.messages| && IsWaiting(queues, i)
        invariant Inv(queues) && |old(queues).messages| <= |queues.messages|
        decreases AttemptsLeft(queues.messages, true), AttemptsLeft(queues.messages, false)
      {
        var i :| 0 <= i < |queues.messages| && IsWaiting(queues, i);
        var w: World := *;
        DeliverKeepsInv(queues, i, w);
        DeliverUsesAnAttempt(queues, i, w);
        var success := HandleMessage(i, w);
      }
      forall i | 0 <= i < |queues.messages|
        ensures queues.messages[i].status.Acked? || queues.messages[i].status.Rejected?
      {
        assert !IsWaiting(queues, i);
      }
    }
  }
}
