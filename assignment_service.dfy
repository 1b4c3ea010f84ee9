/**
 * Assignment and submission rules of the assignment service
 * (src/assignment/assignment.service.ts): creating an assignment for an
 * existing course, the paginated assignment lists, the assignment detail
 * with its counts, handing in a submission and grading it.
 *
 * The submitting user is the authenticated caller and is given as a
 * parameter, as is the current time.
 */
module Assignments {
  import opened Repository

  datatype SubmissionStatus = Pending | Graded

  datatype Assignment = Assignment(id: nat, courseId: nat, title: string, description: string, deadline: int)

  /** The submitting user as the submission's `student` relation sees it. */
  datatype Student = Student(id: nat, username: string)

  /** A stored submission; `score` and `feedback` are nullable columns. */
  datatype Submission = Submission(
    id: nat, assignmentId: nat, student: Student, content: string, fileUrl: Option<string>,
    score: Option<real>, feedback: Option<string>, status: SubmissionStatus, submitTime: int)

  datatype CreateAssignmentDto = CreateAssignmentDto(title: string, description: string, deadline: int, courseId: nat)

  datatype CreateSubmissionDto = CreateSubmissionDto(courseId: nat, content: string, fileUrl: Option<string>, assignmentId: nat)

  /** `status` is `None` when the request leaves it out; the DTO's field
      initialiser then supplies `GRADED`. */
  datatype UpdateSubmissionDto = UpdateSubmissionDto(id: nat, score: real, feedback: Option<string>, status: Option<SubmissionStatus>)

  /** An assignment as the teacher list returns it, with its submissions. */
  datatype AssignmentWithSubmissions = AssignmentWithSubmissions(assignment: Assignment, submissions: seq<Submission>)

  /** One page of a list and the number of rows on all pages. */
  datatype ListPage<T> = ListPage(items: seq<T>, totalCount: nat)

  datatype SubmissionView = SubmissionView(submission: Submission, studentName: string)

  datatype AssignmentDetail = AssignmentDetail(
    assignment: Assignment, submissions: seq<SubmissionView>, submissionCount: nat, totalStudents: nat)

  const CourseMissing: Error := Error(NotFound, "课程不存在")
  const AssignmentMissing: Error := Error(NotFound, "作业不存在")
  const SubmissionMissing: Error := Error(NotFound, "提交不存在")

  predicate OfCourse(courseId: nat, a: Assignment)
  {
    a.courseId == courseId
  }

  predicate OfAssignment(assignmentId: nat, s: Submission)
  {
    s.assignmentId == assignmentId
  }

  // ---------------------------------------------------------------------
  // Lists
  // ---------------------------------------------------------------------

  /** `findAndCount` with `where: { course: { id } }` and the page's
      `skip`/`take`: the course's assignments of that page, and how many
      the course has. */
  function StudentList(assignments: map<nat, Assignment>, bound: nat, pageNo: int, pageSize: int, courseId: nat)
    : (r: ListPage<Assignment>)
    ensures r.totalCount == |RowsWhere(assignments, a => OfCourse(courseId, a), bound)|
    ensures forall a :: a in r.items ==> OfCourse(courseId, a) && a in assignments.Values
    ensures pageSize > 0 ==> |r.items| <= pageSize
  {
    var keys := RowsWhere(assignments, a => OfCourse(courseId, a), bound);
    var page := Page(keys, SkipCount(pageNo, pageSize), pageSize);
    assert forall i :: 0 <= i < |page| ==> page[i] in keys;
    var items := seq(|page|, i requires 0 <= i < |page| => assignments[page[i]]);
    assert forall a :: a in items ==> exists i :: 0 <= i < |page| && a == assignments[page[i]];
    ListPage(items, |keys|)
  }

  /** The submissions of one assignment, in key order. */
  function SubmissionsOf(submissions: map<nat, Submission>, bound: nat, assignmentId: nat): (r: seq<Submission>)
    ensures var keys := RowsWhere(submissions, s => OfAssignment(assignmentId, s), bound);
            |r| == |keys| && forall i :: 0 <= i < |r| ==> keys[i] in submissions && r[i] == submissions[keys[i]]
    ensures forall s :: s in r ==> OfAssignment(assignmentId, s) && s in submissions.Values
    ensures forall k :: k < bound && k in submissions && OfAssignment(assignmentId, submissions[k]) ==> submissions[k] in r
  {
    var keys := RowsWhere(submissions, s => OfAssignment(assignmentId, s), bound);
    assert forall i :: 0 <= i < |keys| ==> keys[i] in keys;
    var r := seq(|keys|, i requires 0 <= i < |keys| => submissions[keys[i]]);
    assert forall i :: 0 <= i < |keys| ==> r[i] in r;
    r
  }

  /** The teacher list: the same page, each assignment with its submissions. */
  function TeacherList(assignments: map<nat, Assignment>, aBound: nat, submissions: map<nat, Submission>, sBound: nat,
                       pageNo: int, pageSize: int, courseId: nat)
    : (r: ListPage<AssignmentWithSubmissions>)
    ensures var plain := StudentList(assignments, aBound, pageNo, pageSize, courseId);
            r.totalCount == plain.totalCount && |r.items| == |plain.items|
            && forall i :: 0 <= i < |r.items| ==>
                 r.items[i].assignment == plain.items[i]
                 && r.items[i].submissions == SubmissionsOf(submissions, sBound, plain.items[i].id)
  {
    var plain := StudentList(assignments, aBound, pageNo, pageSize, courseId);
    ListPage(seq(|plain.items|, i requires 0 <= i < |plain.items| =>
                   AssignmentWithSubmissions(plain.items[i], SubmissionsOf(submissions, sBound, plain.items[i].id))),
             plain.totalCount)
  }

  /** Every assignment of the course is on exactly the page its position
      gives: position `i` is entry `i % pageSize` of page `i / pageSize + 1`. */
  lemma ListPagesTile(assignments: map<nat, Assignment>, bound: nat, pageSize: int, courseId: nat, i: int)
    requires pageSize >= 1
    requires 0 <= i < |RowsWhere(assignments, a => OfCourse(courseId, a), bound)|
    ensures var keys := RowsWhere(assignments, a => OfCourse(courseId, a), bound);
            var page := StudentList(assignments, bound, i / pageSize + 1, pageSize, courseId);
            i % pageSize < |page.items| && page.items[i % pageSize] == assignments[keys[i]]
  {
    var keys := RowsWhere(assignments, a => OfCourse(courseId, a), bound);
    PageTiles(keys, pageSize, i);
    assert keys[i] in keys;
  }

  // ---------------------------------------------------------------------
  // Detail
  // ---------------------------------------------------------------------

  /** Each submission with its student's name beside it. */
  function NameStudents(subs: seq<Submission>): (r: seq<SubmissionView>)
    ensures |r| == |subs|
    ensures forall i :: 0 <= i < |subs| ==> r[i].submission == subs[i] && r[i].studentName == subs[i].student.username
  {
    seq(|subs|, i requires 0 <= i < |subs| => SubmissionView(subs[i], subs[i].student.username))
  }

  /** `getAssignmentDetail`: the course is the one holding the assignment,
      and it is checked first, so a missing assignment is reported as a
      missing course. The answer counts the course's students and the
      assignment's submissions and names each submission's student. */
  function Detail(assignments: map<nat, Assignment>, submissions: map<nat, Submission>, sBound: nat,
                  rosters: map<nat, seq<nat>>, id: nat)
    : (r: Result<AssignmentDetail>)
    ensures r.Err? <==> id !in assignments || assignments[id].courseId !in rosters
    ensures r.Err? ==> r.error == CourseMissing
    ensures r.Ok? ==>
              && r.value.assignment == assignments[id]
              && r.value.totalStudents == |rosters[assignments[id].courseId]|
              && r.value.submissionCount == |r.value.submissions|
              && r.value.submissionCount == |RowsWhere(submissions, s => OfAssignment(id, s), sBound)|
              && forall i :: 0 <= i < |r.value.submissions| ==>
                   var v := r.value.submissions[i];
                   OfAssignment(id, v.submission) && v.submission in submissions.Values
                   && v.studentName == v.submission.student.username
  {
    if id !in assignments || assignments[id].courseId !in rosters then Err(CourseMissing)
    else
      var subs := SubmissionsOf(submissions, sBound, id);
      assert forall i :: 0 <= i < |subs| ==> subs[i] in subs;
      Ok(AssignmentDetail(assignments[id], NameStudents(subs), |subs|, |rosters[assignments[id].courseId]|))
  }

  /** The detail lists every submission of the assignment. */
  lemma DetailListsEverySubmission(assignments: map<nat, Assignment>, submissions: map<nat, Submission>, sBound: nat,
                                   rosters: map<nat, seq<nat>>, id: nat, k: nat)
    requires id in assignments && assignments[id].courseId in rosters
    requires k < sBound && k in submissions && OfAssignment(id, submissions[k])
    ensures var r := Detail(assignments, submissions, sBound, rosters, id);
            r.Ok? && SubmissionView(submissions[k], submissions[k].student.username) in r.value.submissions
  {
    var subs := SubmissionsOf(submissions, sBound, id);
    assert submissions[k] in subs;
    var i :| 0 <= i < |subs| && subs[i] == submissions[k];
    assert NameStudents(subs)[i] == SubmissionView(submissions[k], submissions[k].student.username);
  }

  // ---------------------------------------------------------------------
  // Submission lifecycle
  // ---------------------------------------------------------------------

  /** The submission `createSubmission` saves under key `id`: the request's
      content and file, the caller as student, the current time, no score
      or feedback yet, and status `PENDING`. */
  function NewSubmission(id: nat, user: Student, dto: CreateSubmissionDto, now: int): (s: Submission)
    ensures s.id == id && s.assignmentId == dto.assignmentId && s.student == user
    ensures s.content == dto.content && s.fileUrl == dto.fileUrl && s.submitTime == now
    ensures s.score.None? && s.feedback.None? && s.status == Pending
  {
    Submission(id, dto.assignmentId, user, dto.content, dto.fileUrl, None, None, Pending, now)
  }

  /** `updateSubmission` applied to a found submission: the score is set,
      the feedback is set (an absent or empty one becomes `''`), and the
      status is set to the requested one, `GRADED` by default. What was
      handed in is kept. */
  function Grade(s: Submission, dto: UpdateSubmissionDto): (r: Submission)
    ensures r == s.(score := r.score, feedback := r.feedback, status := r.status)
    ensures r.score == Some(dto.score)
    ensures r.feedback == Some(if TruthyText(dto.feedback) then dto.feedback.value else "")
    ensures dto.status.None? ==> r.status == Graded
    ensures dto.status.Some? ==> r.status == dto.status.value
  {
    s.(score := Some(dto.score),
       feedback := Some(if TruthyText(dto.feedback) then dto.feedback.value else ""),
       status := dto.status.GetOr(Graded))
  }

  /** Handed in as `PENDING`, a submission graded with the default status
      is `GRADED`, scored and has feedback, and is still the same hand-in. */
  lemma SubmissionLifecycle(id: nat, user: Student, dto: CreateSubmissionDto, now: int, grading: UpdateSubmissionDto)
    requires grading.status.None?
    ensures NewSubmission(id, user, dto, now).status == Pending
    ensures var g := Grade(NewSubmission(id, user, dto, now), grading);
            g.status == Graded && g.score == Some(grading.score) && g.feedback.Some?
            && g.student == user && g.content == dto.content && g.assignmentId == dto.assignmentId
  {
  }

  /** Grading twice with the same request is grading once. */
  lemma GradeIdempotent(s: Submission, dto: UpdateSubmissionDto)
    ensures Grade(Grade(s, dto), dto) == Grade(s, dto)
  {
  }

  /** The assignment service with its repositories as tables. A course is
      seen through the keys of its enrolled students. */
  class AssignmentService {
    var assignments: map<nat, Assignment>
    var nextAssignmentId: nat
    var rosters: map<nat, seq<nat>>
    var submissions: map<nat, Submission>
    var nextSubmissionId: nat

    ghost predicate Valid()
      reads this
    {
      && (forall k :: k in assignments ==> k < nextAssignmentId && assignments[k].id == k)
      && (forall k :: k in submissions ==> k < nextSubmissionId && submissions[k].id == k)
    }

    constructor (rosters: map<nat, seq<nat>>)
      ensures Valid()
      ensures this.rosters == rosters && assignments == map[] && submissions == map[]
      ensures nextAssignmentId == 0 && nextSubmissionId == 0
    {
      this.rosters := rosters;
      assignments := map[];
      nextAssignmentId := 0;
      submissions := map[];
      nextSubmissionId := 0;
    }

    /** `createAssignment`: the course must exist; the assignment is linked
        to it with the requested title, description and deadline. */
    method CreateAssignment(dto: CreateAssignmentDto) returns (r: Result<string>)
      requires Valid()
      modifies this`assignments, this`nextAssignmentId
      ensures Valid()
      ensures dto.courseId !in rosters ==>
                r == Err(CourseMissing) && assignments == old(assignments) && nextAssignmentId == old(nextAssignmentId)
      ensures dto.courseId in rosters ==>
                && r == Ok("创建作业成功")
                && assignments == old(assignments)[old(nextAssignmentId) :=
                     Assignment(old(nextAssignmentId), dto.courseId, dto.title, dto.description, dto.deadline)]
                && nextAssignmentId == old(nextAssignmentId) + 1
    {
      if dto.courseId !in rosters {
        return Err(CourseMissing);
      }
      assignments := assignments[nextAssignmentId :=
        Assignment(nextAssignmentId, dto.courseId, dto.title, dto.description, dto.deadline)];
      nextAssignmentId := nextAssignmentId + 1;
      return Ok("创建作业成功");
    }

    /** `getAssignmentList`: the teacher's view, with submissions. */
    function GetAssignmentList(pageNo: int, pageSize: int, courseId: nat): (r: ListPage<AssignmentWithSubmissions>)
      reads this
      ensures r == TeacherList(assignments, nextAssignmentId, submissions, nextSubmissionId, pageNo, pageSize, courseId)
      ensures r.totalCount == |RowsWhere(assignments, a => OfCourse(courseId, a), nextAssignmentId)|
      ensures forall i :: 0 <= i < |r.items| ==>
                OfCourse(courseId, r.items[i].assignment)
                && r.items[i].submissions == SubmissionsOf(submissions, nextSubmissionId, r.items[i].assignment.id)
      ensures pageSize > 0 ==> |r.items| <= pageSize
    {
      var plain := StudentList(assignments, nextAssignmentId, pageNo, pageSize, courseId);
      assert forall i :: 0 <= i < |plain.items| ==> plain.items[i] in plain.items;
      TeacherList(assignments, nextAssignmentId, submissions, nextSubmissionId, pageNo, pageSize, courseId)
    }

    /** `getAssignmentListForStudent`: the same page without submissions. */
    function GetAssignmentListForStudent(pageNo: int, pageSize: int, courseId: nat): (r: ListPage<Assignment>)
      reads this
      ensures r == StudentList(assignments, nextAssignmentId, pageNo, pageSize, courseId)
      ensures r.totalCount == |RowsWhere(assignments, a => OfCourse(courseId, a), nextAssignmentId)|
      ensures forall a :: a in r.items ==> OfCourse(courseId, a) && a in assignments.Values
      ensures pageSize > 0 ==> |r.items| <= pageSize
    {
      StudentList(assignments, nextAssignmentId, pageNo, pageSize, courseId)
    }

    /** `getAssignmentDetail` against the current tables. */
    function GetAssignmentDetail(id: nat): (r: Result<AssignmentDetail>)
      reads this
      ensures r == Detail(assignments, submissions, nextSubmissionId, rosters, id)
      ensures r.Err? <==> id !in assignments || assignments[id].courseId !in rosters
      ensures r.Err? ==> r.error == CourseMissing
      ensures r.Ok? ==>
                && r.value.assignment == assignments[id]
                && r.value.totalStudents == |rosters[assignments[id].courseId]|
                && r.value.submissionCount == |RowsWhere(submissions, s => OfAssignment(id, s), nextSubmissionId)|
    {
      Detail(assignments, submissions, nextSubmissionId, rosters, id)
    }

    /** `createSubmission`: the assignment must exist; the submission is
        stored as `PENDING` for the caller. */
    method CreateSubmission(user: Student, dto: CreateSubmissionDto, now: int) returns (r: Result<string>)
      requires Valid()
      modifies this`submissions, this`nextSubmissionId
      ensures Valid()
      ensures dto.assignmentId !in assignments ==>
                r == Err(AssignmentMissing) && submissions == old(submissions) && nextSubmissionId == old(nextSubmissionId)
      ensures dto.assignmentId in assignments ==>
                && r == Ok("提交作业成功")
                && submissions == old(submissions)[old(nextSubmissionId) := NewSubmission(old(nextSubmissionId), user, dto, now)]
                && nextSubmissionId == old(nextSubmissionId) + 1
    {
      if dto.assignmentId !in assignments {
        return Err(AssignmentMissing);
      }
      submissions := submissions[nextSubmissionId := NewSubmission(nextSubmissionId, user, dto, now)];
      nextSubmissionId := nextSubmissionId + 1;
      return Ok("提交作业成功");
    }

    /** `updateSubmission`: the submission must exist; it is graded. */
    method UpdateSubmission(dto: UpdateSubmissionDto) returns (r: Result<string>)
      requires Valid()
      modifies this`submissions
      ensures Valid()
      ensures dto.id !in old(submissions) ==> r == Err(SubmissionMissing) && submissions == old(submissions)
      ensures dto.id in old(submissions) ==>
                r == Ok("批改作业成功") && submissions == old(submissions)[dto.id := Grade(old(submissions)[dto.id], dto)]
    {
      if dto.id !in submissions {
        return Err(SubmissionMissing);
      }
      submissions := submissions[dto.id := Grade(submissions[dto.id], dto)];
      return Ok("批改作业成功");
    }
  }
}
