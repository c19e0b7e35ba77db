/** Homework, courses, course groups and submissions, and the outcome of a hook. */
module SubmissionModel {
  import opened Options

  type Id = string

  datatype Course = Course(userIds: seq<Id>, teacherIds: seq<Id>, substitutionIds: seq<Id>)
  datatype CourseGroup = CourseGroup(courseId: Id, userIds: seq<Id>)
  datatype Homework = Homework(
    teacherId: Id,
    courseId: Option<Id>,
    isPrivate: bool,
    publicSubmissions: bool,
    teamSubmissions: bool,
    maxTeamMembers: Option<nat>)
  datatype Submission = Submission(studentId: Id, homeworkId: Id, teamMembers: seq<Id>, courseGroupId: Option<Id>)

  // Everything the submission hooks look up in other services.
  datatype School = School(homeworks: map<Id, Homework>, courses: map<Id, Course>, groups: map<Id, CourseGroup>)

  type Submissions = map<Id, Submission>

  datatype Error = BadRequest | Conflict | Forbidden | GeneralError | NotFound | Invalid

  datatype Result<+T> = Success(value: T) | Failure(error: Error) {
    predicate IsFailure() {
      Failure?
    }
    function PropagateFailure<U>(): Result<U>
      requires Failure?
    {
      Failure(error)
    }
    function Extract(): T
      requires Success?
    {
      value
    }
  }

  datatype Check = Pass | Fail(error: Error) {
    predicate IsFailure() {
      Fail?
    }
    function PropagateFailure<U>(): Result<U>
      requires Fail?
    {
      Failure(error)
    }
  }

  function Need(condition: bool, error: Error): Check {
    if condition then Pass else Fail(error)
  }

  function Lookup<T>(docs: map<Id, T>, id: Id, error: Error): Result<T> {
    if id in docs then Success(docs[id]) else Failure(error)
  }
}
