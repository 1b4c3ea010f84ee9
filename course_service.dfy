/**
 * Course rules of the course service (src/course/course.service.ts): the
 * status a course has at a given time, creation with its teacher check,
 * the update that always recomputes the status, enrolment and withdrawal,
 * deletion, chapter reordering, and the removal of a course material from
 * the object store and the database.
 *
 * Dates are integers (milliseconds); the current time and the date parser
 * are parameters. The object store is the set of object names in the
 * bucket; whether its removal call or the database removal fails is a
 * parameter carrying the error message.
 */
module Courses {
  import opened Repository
  import opened Utils
  import opened Chapters

  datatype CourseStatus = NotStarted | InProgress | Finished

  /** A stored course; `teachers` and `students` are user keys. */
  datatype Course = Course(
    id: nat, title: string, description: string, coverImage: string, status: CourseStatus,
    startTime: Option<int>, endTime: Option<int>, teachers: seq<nat>, students: seq<nat>)

  /** A stored course material. */
  datatype Material = Material(id: nat, courseId: nat, title: string, kind: string, url: string, fileHash: Option<string>)

  datatype CreateCourseDto = CreateCourseDto(
    title: string, description: string, coverImage: Option<string>,
    startTime: Option<string>, endTime: Option<string>, teacherIds: Option<seq<nat>>)

  datatype UpdateCourseDto = UpdateCourseDto(
    id: nat, title: Option<string>, description: Option<string>, coverImage: Option<string>,
    startTime: Option<string>, endTime: Option<string>, status: Option<CourseStatus>,
    teacherIds: Option<seq<nat>>)

  datatype ChapterOrderView = ChapterOrderView(id: nat, title: string, order: int)

  datatype ChapterOrderAnswer = ChapterOrderAnswer(courseId: nat, chapters: seq<ChapterOrderView>)

  const TeachersMissing: Error := Error(BadRequest, "部分教师ID不存在")
  const CreatorMissing: Error := Error(BadRequest, "教师不存在")
  const AlreadyEnrolled: Error := Error(BadRequest, "您已经选过这门课程了")
  const ForeignChapters: Error := Error(BadRequest, "部分章节不属于该课程")
  const MaterialMissing: Error := Error(ServerError, "资料不存在")

  /** `NotFoundException(`课程 #${id} 不存在`)`. */
  function CourseNotFound(name: string): Error
  {
    Error(NotFound, "课程 #" + name + " 不存在")
  }

  function UserNotFound(userId: nat): Error
  {
    Error(NotFound, "用户 #" + NatText(userId) + " 不存在")
  }

  /** A rethrown failure of the material removal. */
  function RemovalFailed(message: string): Error
  {
    Error(ServerError, "删除失败：" + message)
  }

  // ---------------------------------------------------------------------
  // Status
  // ---------------------------------------------------------------------

  /** `determineStatus`: a course without a start, or starting after `now`,
      has not started; one that has started is in progress until its end
      (if any) is reached, and finished from then on. */
  function DetermineStatus(startTime: Option<int>, endTime: Option<int>, now: int): (s: CourseStatus)
    ensures s == NotStarted <==> startTime.None? || startTime.value > now
    ensures s == InProgress <==> startTime.Some? && startTime.value <= now && (endTime.None? || endTime.value > now)
    ensures s == Finished <==> startTime.Some? && startTime.value <= now && endTime.Some? && endTime.value <= now
  {
    if startTime.None? then NotStarted
    else if startTime.value > now then NotStarted
    else if endTime.None? || endTime.value > now then InProgress
    else Finished
  }

  function StatusRank(s: CourseStatus): nat
  {
    match s
    case NotStarted => 0
    case InProgress => 1
    case Finished => 2
  }

  /** With fixed dates, the status only moves forward as time passes. */
  lemma StatusMovesForward(startTime: Option<int>, endTime: Option<int>, earlier: int, later: int)
    requires earlier <= later
    ensures StatusRank(DetermineStatus(startTime, endTime, earlier)) <= StatusRank(DetermineStatus(startTime, endTime, later))
  {
  }

  /** A course whose end precedes its start is never in progress. */
  lemma InvertedDatesSkipProgress(start: int, end: int, now: int)
    requires end < start
    ensures DetermineStatus(Some(start), Some(end), now) != InProgress
  {
  }

  /** The stored status agrees with the stored dates at time `now`. */
  predicate StatusCurrent(c: Course, now: int)
  {
    c.status == DetermineStatus(c.startTime, c.endTime, now)
  }

  // ---------------------------------------------------------------------
  // Create and update
  // ---------------------------------------------------------------------

  /** The course `create` saves under key `id`, with the given teachers:
      `new Date(...)` of each truthy date, an empty cover image when none
      is given, and the status those dates give at `now`. */
  function NewCourse(id: nat, dto: CreateCourseDto, teachers: seq<nat>, now: int, parse: string -> int): (c: Course)
    ensures c.id == id && c.title == dto.title && c.description == dto.description && c.teachers == teachers
    ensures c.coverImage == (if TruthyText(dto.coverImage) then dto.coverImage.value else "")
    ensures c.startTime == (if TruthyText(dto.startTime) then Some(parse(dto.startTime.value)) else None)
    ensures c.endTime == (if TruthyText(dto.endTime) then Some(parse(dto.endTime.value)) else None)
    ensures StatusCurrent(c, now) && c.students == []
  {
    var start := if TruthyText(dto.startTime) then Some(parse(dto.startTime.value)) else None;
    var end := if TruthyText(dto.endTime) then Some(parse(dto.endTime.value)) else None;
    Course(id, dto.title, dto.description, dto.coverImage.GetOr(""),
           DetermineStatus(start, end, now), start, end, teachers, [])
  }

  /** `update` applied to a found course: a truthy date is replaced by the
      normalised and parsed text, title, description and cover image are
      replaced whenever present (`Object.assign`), and the status is
      recomputed from the resulting dates. Teachers and students stay. */
  function ApplyCourseUpdate(c: Course, dto: UpdateCourseDto, now: int, parse: string -> int): (r: Course)
    ensures r.id == c.id && r.teachers == c.teachers && r.students == c.students
    ensures r.title == dto.title.GetOr(c.title) && r.description == dto.description.GetOr(c.description)
    ensures r.coverImage == dto.coverImage.GetOr(c.coverImage)
    ensures r.startTime == (if TruthyText(dto.startTime) then Some(FormatDateToDate(dto.startTime.value, parse)) else c.startTime)
    ensures r.endTime == (if TruthyText(dto.endTime) then Some(FormatDateToDate(dto.endTime.value, parse)) else c.endTime)
    ensures StatusCurrent(r, now)
  {
    var start := if TruthyText(dto.startTime) then Some(FormatDateToDate(dto.startTime.value, parse)) else c.startTime;
    var end := if TruthyText(dto.endTime) then Some(FormatDateToDate(dto.endTime.value, parse)) else c.endTime;
    Course(c.id, dto.title.GetOr(c.title), dto.description.GetOr(c.description),
           dto.coverImage.GetOr(c.coverImage), DetermineStatus(start, end, now), start, end,
           c.teachers, c.students)
  }

  /** The status and teacher list a client sends with an update have no
      effect: the status is recomputed and teachers are not a column. */
  lemma UpdateIgnoresStatusAndTeachers(c: Course, dto: UpdateCourseDto, status: Option<CourseStatus>,
                                       teacherIds: Option<seq<nat>>, now: int, parse: string -> int)
    ensures ApplyCourseUpdate(c, dto.(status := status, teacherIds := teacherIds), now, parse)
         == ApplyCourseUpdate(c, dto, now, parse)
  {
  }

  /** An update without dates only refreshes the status of a course. */
  lemma UpdateWithoutDatesKeepsDates(c: Course, dto: UpdateCourseDto, now: int, parse: string -> int)
    requires !TruthyText(dto.startTime) && !TruthyText(dto.endTime)
    requires dto.title.None? && dto.description.None? && dto.coverImage.None?
    ensures ApplyCourseUpdate(c, dto, now, parse) == c.(status := DetermineStatus(c.startTime, c.endTime, now))
  {
  }

  /** The label the update's not-found message prints: the requested
      title, or `undefined` when the request has none. */
  function TitleLabel(title: Option<string>): string
  {
    match title
    case Some(t) => t
    case None => "undefined"
  }

  // ---------------------------------------------------------------------
  // Enrolment
  // ---------------------------------------------------------------------

  /** `students.filter(student => student.id !== userId)`. */
  function Without(students: seq<nat>, userId: nat): (r: seq<nat>)
    ensures userId !in r
    ensures forall x :: x in r <==> x in students && x != userId
    ensures |r| <= |students|
    ensures userId !in students ==> r == students
  {
    if students == [] then []
    else
      var rest := Without(students[1..], userId);
      assert students == [students[0]] + students[1..];
      if students[0] == userId then rest else [students[0]] + rest
  }

  /** Filtering works piecewise, so the remaining students keep their order. */
  lemma {:induction false} WithoutConcat(a: seq<nat>, b: seq<nat>, userId: nat)
    ensures Without(a + b, userId) == Without(a, userId) + Without(b, userId)
  {
    if a != [] {
      assert (a + b)[1..] == a[1..] + b;
      WithoutConcat(a[1..], b, userId);
    } else {
      assert a + b == b;
    }
  }

  /** Withdrawing twice is withdrawing once. */
  lemma WithdrawIdempotent(students: seq<nat>, userId: nat)
    ensures Without(Without(students, userId), userId) == Without(students, userId)
  {
  }

  /** Enrolling a student who was not enrolled and withdrawing again
      restores the roster. */
  lemma EnrolThenWithdraw(students: seq<nat>, userId: nat)
    requires userId !in students
    ensures Without(students + [userId], userId) == students
  {
    WithoutConcat(students, [userId], userId);
    assert Without([userId], userId) == [];
  }

  // ---------------------------------------------------------------------
  // Storage key of a material
  // ---------------------------------------------------------------------

  /** `url.split('/').pop()`: the text after the last `/`, or the whole
      text when it has none. */
  function LastSegment(url: string): (r: string)
    ensures '/' !in r && |r| <= |url|
  {
    if url == [] then []
    else if url[|url| - 1] == '/' then []
    else LastSegment(url[..|url| - 1]) + [url[|url| - 1]]
  }

  /** The key is the longest suffix of the address without a `/`: it ends
      the address, and what precedes it, if anything, is a `/`. */
  lemma {:induction false} LastSegmentIsSuffix(url: string)
    ensures var r := LastSegment(url);
            r == url[|url| - |r|..] && (|r| < |url| ==> url[|url| - |r| - 1] == '/')
  {
    if url != [] && url[|url| - 1] != '/' {
      var p := url[..|url| - 1];
      LastSegmentIsSuffix(p);
      var r := LastSegment(p);
      assert p[|p| - |r|..] == url[|p| - |r|..|url| - 1];
      assert url[|p| - |r|..] == url[|p| - |r|..|url| - 1] + [url[|url| - 1]];
    }
  }

  /** The key of an object stored under a path is its file name. */
  lemma {:induction false} LastSegmentOfPath(prefix: string, name: string)
    requires '/' !in name
    ensures LastSegment(prefix + "/" + name) == name
  {
    var url := prefix + "/" + name;
    if name == [] {
      assert url[|url| - 1] == '/';
    } else {
      var n0 := name[..|name| - 1];
      assert name == n0 + [name[|name| - 1]];
      assert '/' !in n0 by {
        assert forall i :: 0 <= i < |n0| ==> n0[i] == name[i];
      }
      LastSegmentOfPath(prefix, n0);
      assert url[..|url| - 1] == prefix + "/" + n0;
      assert url[|url| - 1] == name[|name| - 1];
    }
  }

  /** The removal key taken from a url keeps only its last segment, so for
      an object that a multipart upload opened under the upload directory it
      is the bare file name, which is not that object's name: removal by that
      key would miss the object. Material urls name objects at the bucket
      root, so `deleteMaterial` never meets such a url. */
  lemma UploadedObjectKey(fileName: string)
    requires '/' !in fileName
    ensures LastSegment(ObjectNameFor(fileName)) == fileName
    ensures LastSegment(ObjectNameFor(fileName)) != ObjectNameFor(fileName)
  {
    assert ObjectNameFor(fileName) == "uploads/temp" + "/" + fileName;
    LastSegmentOfPath("uploads/temp", fileName);
  }

  // ---------------------------------------------------------------------
  // Chapter reordering
  // ---------------------------------------------------------------------

  /** After the first `n` listed chapters were renumbered: the listed
      chapter at position `j < n` has order `j + 1` and is otherwise
      unchanged, and every chapter not among them is untouched. */
  ghost predicate Renumbered(before: map<nat, Chapter>, after: map<nat, Chapter>, ids: seq<nat>, n: nat)
    requires n <= |ids|
  {
    && after.Keys == before.Keys
    && (forall j :: 0 <= j < n ==> ids[j] in before && after[ids[j]] == before[ids[j]].(order := j + 1))
    && (forall k :: k in before && k !in ids[..n] ==> after[k] == before[k])
  }

  /** The answer of `updateChapterOrder`: one entry per listed chapter, in
      the requested order, with its new order. */
  function OrderViews(before: map<nat, Chapter>, ids: seq<nat>): (r: seq<ChapterOrderView>)
    requires forall i :: 0 <= i < |ids| ==> ids[i] in before
    ensures |r| == |ids|
    ensures forall i :: 0 <= i < |ids| ==> r[i].id == ids[i] && r[i].order == i + 1 && r[i].title == before[ids[i]].title
  {
    seq(|ids|, i requires 0 <= i < |ids| => ChapterOrderView(ids[i], before[ids[i]].title, i + 1))
  }

  /** One step of the renumbering loop. */
  lemma RenumberStep(before: map<nat, Chapter>, after: map<nat, Chapter>, ids: seq<nat>, i: nat)
    requires i < |ids| && Distinct(ids) && ids[i] in before
    requires Renumbered(before, after, ids, i)
    ensures ids[i] in after && after[ids[i]] == before[ids[i]]
    ensures Renumbered(before, after[ids[i] := after[ids[i]].(order := i + 1)], ids, i + 1)
  {
    assert ids[i] !in ids[..i];
    assert ids[..i + 1] == ids[..i] + [ids[i]];
  }

  /** The course service with its repositories as tables. Users are seen
      only through their keys, and the bucket through its object names. */
  class CourseService {
    var courses: map<nat, Course>
    var nextCourseId: nat
    var users: set<nat>
    var chapters: map<nat, Chapter>
    var materials: map<nat, Material>
    var objects: set<string>

    ghost predicate Valid()
      reads this
    {
      && (forall k :: k in courses ==> k < nextCourseId && courses[k].id == k)
      && (forall k :: k in chapters ==> chapters[k].id == k)
      && (forall k :: k in materials ==> materials[k].id == k)
    }

    constructor (users: set<nat>, chapters: map<nat, Chapter>, materials: map<nat, Material>, objects: set<string>)
      requires forall k :: k in chapters ==> chapters[k].id == k
      requires forall k :: k in materials ==> materials[k].id == k
      ensures Valid()
      ensures courses == map[] && nextCourseId == 0
      ensures this.users == users && this.chapters == chapters && this.materials == materials && this.objects == objects
    {
      courses := map[];
      nextCourseId := 0;
      this.users := users;
      this.chapters := chapters;
      this.materials := materials;
      this.objects := objects;
    }

    /** `delete`: the course must exist; it is removed, and its materials
        and their stored files are left where they are. */
    method Delete(id: nat, userId: nat) returns (r: Result<string>)
      requires Valid()
      modifies this`courses
      ensures Valid()
      ensures id !in old(courses) ==> r == Err(CourseNotFound(NatText(id))) && courses == old(courses)
      ensures id in old(courses) ==> r == Ok("删除课程成功") && courses == old(courses) - {id}
    {
      if id !in courses {
        return Err(CourseNotFound(NatText(id)));
      }
      courses := courses - {id};
      return Ok("删除课程成功");
    }

    /** `create`: with a teacher list, every listed user must exist and be
        listed once (the lookup returns as many rows as ids); without one,
        the creator must exist and becomes the only teacher. */
    method Create(dto: CreateCourseDto, userId: nat, now: int, parse: string -> int) returns (r: Result<Course>)
      requires Valid()
      modifies this`courses, this`nextCourseId
      ensures Valid()
      ensures dto.teacherIds.Some? ==>
                var ids := dto.teacherIds.value;
                if (forall i :: 0 <= i < |ids| ==> ids[i] in users) && Distinct(ids)
                then r == Ok(NewCourse(old(nextCourseId), dto, ids, now, parse))
                else r == Err(TeachersMissing)
      ensures dto.teacherIds.None? ==>
                if userId in users then r == Ok(NewCourse(old(nextCourseId), dto, [userId], now, parse))
                else r == Err(CreatorMissing)
      ensures r.Ok? ==> courses == old(courses)[old(nextCourseId) := r.value] && nextCourseId == old(nextCourseId) + 1
      ensures r.Err? ==> courses == old(courses) && nextCourseId == old(nextCourseId)
    {
      var teachers: seq<nat>;
      if dto.teacherIds.Some? {
        var found := FindIn(users, dto.teacherIds.value);
        FindInComplete(users, dto.teacherIds.value);
        if |found| != |dto.teacherIds.value| {
          return Err(TeachersMissing);
        }
        teachers := found;
      } else {
        if userId !in users {
          return Err(CreatorMissing);
        }
        teachers := [userId];
      }
      var course := NewCourse(nextCourseId, dto, teachers, now, parse);
      courses := courses[nextCourseId := course];
      nextCourseId := nextCourseId + 1;
      return Ok(course);
    }

    /** `update`: the course must exist (the message names the requested
        title); the course is replaced by its update. */
    method Update(dto: UpdateCourseDto, userId: nat, now: int, parse: string -> int) returns (r: Result<Course>)
      requires Valid()
      modifies this`courses
      ensures Valid()
      ensures dto.id !in old(courses) ==> r == Err(CourseNotFound(TitleLabel(dto.title))) && courses == old(courses)
      ensures dto.id in old(courses) ==>
                && r == Ok(ApplyCourseUpdate(old(courses)[dto.id], dto, now, parse))
                && courses == old(courses)[dto.id := r.value]
    {
      if dto.id !in courses {
        return Err(CourseNotFound(TitleLabel(dto.title)));
      }
      var updated := ApplyCourseUpdate(courses[dto.id], dto, now, parse);
      courses := courses[dto.id := updated];
      return Ok(updated);
    }

    /** `selectCourse`: course, then user, then "not yet enrolled"; the user
        is appended once and the roster is otherwise unchanged. */
    method SelectCourse(courseId: nat, userId: nat) returns (r: Result<string>)
      requires Valid()
      modifies this`courses
      ensures Valid()
      ensures courseId !in old(courses) ==> r == Err(CourseNotFound(NatText(courseId)))
      ensures courseId in old(courses) && userId !in users ==> r == Err(UserNotFound(userId))
      ensures courseId in old(courses) && userId in users && userId in old(courses)[courseId].students ==>
                r == Err(AlreadyEnrolled)
      ensures r.Err? ==> courses == old(courses)
      ensures courseId in old(courses) && userId in users && userId !in old(courses)[courseId].students ==>
                var c := old(courses)[courseId];
                r == Ok("选课成功") && courses == old(courses)[courseId := c.(students := c.students + [userId])]
    {
      if courseId !in courses {
        return Err(CourseNotFound(NatText(courseId)));
      }
      if userId !in users {
        return Err(UserNotFound(userId));
      }
      var c := courses[courseId];
      if userId in c.students {
        return Err(AlreadyEnrolled);
      }
      courses := courses[courseId := c.(students := c.students + [userId])];
      return Ok("选课成功");
    }

    /** `cancelCourse`: the course must exist; every entry of that user is
        removed from the roster, enrolled or not. */
    method CancelCourse(userId: nat, courseId: nat) returns (r: Result<string>)
      requires Valid()
      modifies this`courses
      ensures Valid()
      ensures courseId !in old(courses) ==> r == Err(CourseNotFound(NatText(courseId))) && courses == old(courses)
      ensures courseId in old(courses) ==>
                var c := old(courses)[courseId];
                r == Ok("取消选课成功") && courses == old(courses)[courseId := c.(students := Without(c.students, userId))]
    {
      if courseId !in courses {
        return Err(CourseNotFound(NatText(courseId)));
      }
      var c := courses[courseId];
      courses := courses[courseId := c.(students := Without(c.students, userId))];
      return Ok("取消选课成功");
    }

    /** The keys of the chapters that belong to a course. */
    function ChaptersOf(courseId: nat): set<nat>
      reads this
    {
      set k | k in chapters && chapters[k].courseId == courseId
    }

    /** The request of `updateChapterOrder` passes its check: every listed
        key is a chapter of the course, and none is listed twice. */
    predicate OrderRequestValid(courseId: nat, chapterIds: seq<nat>)
      reads this
    {
      (forall i :: 0 <= i < |chapterIds| ==> chapterIds[i] in ChaptersOf(courseId)) && Distinct(chapterIds)
    }

    /** `updateChapterOrder`: every listed chapter must belong to the course
        and be listed once; the chapter at position `i` then gets order
        `i + 1`, every other chapter keeps its order, and the answer lists
        the chapters in the requested order. */
    method UpdateChapterOrder(courseId: nat, chapterIds: seq<nat>) returns (r: Result<ChapterOrderAnswer>)
      requires Valid()
      modifies this`chapters
      ensures Valid()
      ensures courseId !in courses ==> r == Err(CourseNotFound(NatText(courseId))) && chapters == old(chapters)
      ensures courseId in courses && !old(OrderRequestValid(courseId, chapterIds)) ==>
                r == Err(ForeignChapters) && chapters == old(chapters)
      ensures courseId in courses && old(OrderRequestValid(courseId, chapterIds)) ==>
                && r == Ok(ChapterOrderAnswer(courseId, OrderViews(old(chapters), chapterIds)))
                && Renumbered(old(chapters), chapters, chapterIds, |chapterIds|)
    {
      if courseId !in courses {
        return Err(CourseNotFound(NatText(courseId)));
      }
      var owned := ChaptersOf(courseId);
      var found := FindIn(owned, chapterIds);
      FindInComplete(owned, chapterIds);
      if |found| != |chapterIds| {
        return Err(ForeignChapters);
      }
      assert forall i :: 0 <= i < |chapterIds| ==> chapterIds[i] in owned;
      var views := Renumber(chapterIds);
      return Ok(ChapterOrderAnswer(courseId, views));
    }

    /** The loop of `updateChapterOrder` (its `Promise.all`, run in order):
        the chapter at position `i` is saved with order `i + 1`. */
    method Renumber(chapterIds: seq<nat>) returns (views: seq<ChapterOrderView>)
      requires forall k :: k in chapters ==> chapters[k].id == k
      requires (forall i :: 0 <= i < |chapterIds| ==> chapterIds[i] in chapters) && Distinct(chapterIds)
      modifies this`chapters
      ensures forall k :: k in chapters ==> chapters[k].id == k
      ensures views == OrderViews(old(chapters), chapterIds)
      ensures Renumbered(old(chapters), chapters, chapterIds, |chapterIds|)
    {
      views := [];
      var i := 0;
      while i < |chapterIds|
        invariant 0 <= i <= |chapterIds|
        invariant forall k :: k in chapters ==> chapters[k].id == k
        invariant Renumbered(old(chapters), chapters, chapterIds, i)
        invariant views == OrderViews(old(chapters), chapterIds)[..i]
      {
        var id := chapterIds[i];
        RenumberStep(old(chapters), chapters, chapterIds, i);
        var chapter := chapters[id].(order := i + 1);
        chapters := chapters[id := chapter];
        views := views + [ChapterOrderView(id, chapter.title, i + 1)];
        i := i + 1;
      }
    }

    /** `deleteMaterial`: the material must exist; its object is removed
        from the bucket first and its record second, and a failure of
        either is reported with the prefix `删除失败：`. A failing record
        removal leaves the object already removed. */
    method DeleteMaterial(materialId: nat, storageError: Option<string>, recordError: Option<string>)
      returns (r: Result<string>)
      requires Valid()
      modifies this`materials, this`objects
      ensures Valid()
      ensures materialId !in old(materials) ==>
                r == Err(MaterialMissing) && materials == old(materials) && objects == old(objects)
      ensures materialId in old(materials) && storageError.Some? ==>
                r == Err(RemovalFailed(storageError.value)) && materials == old(materials) && objects == old(objects)
      ensures materialId in old(materials) && storageError.None? ==>
                objects == old(objects) - {LastSegment(old(materials)[materialId].url)}
      ensures materialId in old(materials) && storageError.None? && recordError.Some? ==>
                r == Err(RemovalFailed(recordError.value)) && materials == old(materials)
      ensures materialId in old(materials) && storageError.None? && recordError.None? ==>
                r == Ok("删除成功") && materials == old(materials) - {materialId}
    {
      if materialId !in materials {
        return Err(MaterialMissing);
      }
      var key := LastSegment(materials[materialId].url);
      if storageError.Some? {
        return Err(RemovalFailed(storageError.value));
      }
      objects := objects - {key};
      if recordError.Some? {
        return Err(RemovalFailed(recordError.value));
      }
      materials := materials - {materialId};
      return Ok("删除成功");
    }
  }
}
