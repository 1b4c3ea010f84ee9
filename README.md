# SS-backend business rules in Dafny

This project models the service layer of the SS-backend course platform, a
NestJS application over TypeORM. It covers:

- **Courses**: status from dates, creation with a teacher check, update,
  enrolment and withdrawal, deletion, chapter reordering and material removal.
- **Chapters**: creation with a default order, the truthy-only update, the
  ordered list, content de-duplication by file hash, and the opening of a
  multipart upload.
- **Accounts**: registration, login with its permission de-duplication, lookup
  by id, password change and profile update.
- **Assignments**: creation, the paginated lists, the detail with its counts,
  hand-in and grading.
- **The permission guard** in front of every handler.
- **The date-text normalisation** applied before a date is parsed.

Each service is a `class` whose fields are its repositories. A table is a
`map` from primary key to record, with an autoincrement counter above every
key in use. The methods update those fields, and their `ensures` state the
whole new state and the answer.

The query semantics shared by all services are in `repository.dfy`:
- `findOne` is assumed to return the matching row of lowest key. The queries have no `ORDER BY`, so the database's choice among several matches is unspecified.
- `find` with `In(ids)` is `FindIn`.
- A filtered `find` is `RowsWhere`.
- `skip`/`take` is `Page`.

Errors the framework would throw are `Err` values. Each carries its kind and
the message of the source:
- `NotFoundException` is `NotFound`.
- `BadRequestException`, and an `HttpException` with status 400, is `BadRequest`.
- `UnauthorizedException` is `Unauthorized`.
- A plain `Error` is `ServerError`.

Some inputs the source reads from the outside world are parameters of the
operations:
- the clock (`now`);
- the date parser;
- the captcha held in the cache;
- the password hash function;
- the upload id the object store returns;
- whether a database save or an object-store removal fails.

JavaScript truthiness is written out. `TruthyText` means a present, non-empty
string. `TruthyNumber` and `TruthyKey` mean a present, non-zero number.

Two behaviours of the source are modelled as they are written:

- **Course update has no working permission check.** The admin lookup in
  `update` is a promise that is never awaited, so it is always truthy. The
  check at src/course/course.service.ts:245 therefore never refuses, and the
  model has no permission branch there.
- **A missing assignment is reported as a missing course.** In
  `getAssignmentDetail` the course is found through the assignment. When the
  assignment is missing, the course lookup fails first and answers
  `课程不存在`.

## Model

| member | source | states |
|---|---|---|
| Repository.FindIn | src/course/course.service.ts:76-80 | An `In(ids)` lookup returns each requested key that exists, once, and no other key |
| Repository.FindInComplete | src/course/course.service.ts:82-84 | The "as many rows as ids" check passes exactly when every id exists and none repeats; the lookup then returns the request itself |
| Repository.FirstMatch | src/user/user.service.ts:49-51 | `findOne` answers the lowest matching key, and answers nothing exactly when no row matches |
| Repository.RowsWhere | src/assignment/assignment.service.ts:47-52 | A filtered `find` returns exactly the matching keys, in ascending order |
| Repository.Page | src/assignment/assignment.service.ts:50-51 | `skip`/`take` returns at most `take` rows, the rows that follow the skipped ones and in their order; a falsy skip or take imposes nothing |
| Repository.PageTiles | src/assignment/assignment.service.ts:50-51 | With a positive page size, the row at position `i` is entry `i % size` of page `i / size + 1` |
| Repository.NatText | src/course/course.service.ts:297 | The decimal text a template string prints for a key is non-empty, all digits, spells exactly that key, and starts with `0` only for key 0 |
| Utils.IndexOf | src/utils.ts:36 | The first position of the character, or -1 exactly when it is absent |
| Utils.ReplaceFirst | src/utils.ts:36 | `replace` with a one-character pattern changes nothing when the character is absent; otherwise the text before the first occurrence is kept and the length changes by the replacement's length minus one |
| Utils.ReplaceFirstContents | src/utils.ts:36 | When the character occurs, the replacement sits at its first position and the rest of the input follows it unchanged |
| Utils.NormalizeDateText | src/utils.ts:34-37 | A text with neither `T` nor `Z` reaches the parser unchanged |
| Utils.SpaceStepKeepsZ | src/utils.ts:36 | Replacing the first `T` by a space keeps the length and the position of the first `Z` |
| Utils.IndexOfAgrees | src/utils.ts:36 | Two texts that hold the character at the same places have the same first occurrence of it |
| Utils.NormalizeLength | src/utils.ts:34-37 | The normalised text is one character shorter when the input holds a `Z`, and the same length otherwise |
| Utils.NormalizeAt | src/utils.ts:34-37 | Every character of the result is the input's character at the matching position, skipping the first `Z`; only the first `T` becomes a space |
| Utils.RemoveFirstAt | src/utils.ts:36 | Removing the first occurrence of a character shifts every later character one place left |
| Utils.NormalizeKeepsLaterT | src/utils.ts:34-37 | For any text, with or without a `Z`: the first `T` becomes a space and every later `T` is kept, each at its position shifted left past the removed first `Z` |
| Utils.LandsAt | src/utils.ts:34-37 | Every input character except the first `Z` appears in the result at its shifted position, a space if it is the first `T` and unchanged otherwise |
| PermissionGuard.FindByCode | src/permission.guard.ts:41 | `find` by code returns a held permission with that code, and returns one exactly when such a permission exists |
| PermissionGuard.CanActivate | src/permission.guard.ts:11-49 | A request without a user passes; a permissions field that is not an array is refused; with no required codes the request passes; otherwise it passes exactly when some required code is held |
| Accounts.LoadRoles | src/user/user.service.ts:113 | When every key has a row, the relation loads one role per key, in order |
| Accounts.RoleNames | src/user/user.service.ts:113 | The role names, one per role, in order |
| Accounts.FirstIndex | src/user/user.service.ts:210 | The first position of a permission, as `indexOf` finds it |
| Accounts.DedupFirst | src/user/user.service.ts:208-215 | The `reduce` keeps every permission once and nothing else |
| Accounts.FirstIndexOfPrefix | src/user/user.service.ts:208-215 | Appending to a list does not move the first occurrence of an element already in it |
| Accounts.FirstOccurrenceOrderExtend | src/user/user.service.ts:208-215 | Appending keeps the first-occurrence order of the kept elements, and a new element goes after all of them |
| Accounts.DedupFirstOrder | src/user/user.service.ts:208-215 | The kept permissions are listed in the order of their first occurrences |
| Accounts.CodePosition | src/user/user.service.ts:115-119 | Where a code sits among the Map's entries, or -1 exactly when it is absent |
| Accounts.MapSet | src/user/user.service.ts:115-119 | `Map.set` overwrites the entry of an existing code in place, and appends a new code at the end |
| Accounts.MapSetHasCodes | src/user/user.service.ts:115-119 | After `Map.set`, the Map holds every code it held before and the new one |
| Accounts.DedupByCodeExtend | src/user/user.service.ts:115-119 | One more `set` keeps every entry drawn from the input and every input code present |
| Accounts.DedupByCode | src/user/user.service.ts:114-120 | The login permission list has distinct codes, holds only input permissions, and covers every input code |
| Accounts.LastCodeIndex | src/user/user.service.ts:118 | The last position of the list that carries the code |
| Accounts.LastCodeIndexExtend | src/user/user.service.ts:118 | Appending a permission of another code does not move a code's last carrier |
| Accounts.DedupByCodeStep | src/user/user.service.ts:115-119 | Building the Map from one more permission is one more `set` |
| Accounts.KeepsLastExtend | src/user/user.service.ts:115-119 | One more `set` keeps the last carrier of every code |
| Accounts.DedupByCodeKeepsLast | src/user/user.service.ts:115-119 | Each code keeps the LAST permission that carried it |
| Accounts.FirstCodeIndex | src/user/user.service.ts:118 | The first position of the list that carries the code |
| Accounts.FirstCodeIndexExtend | src/user/user.service.ts:118 | Appending does not move the first carrier of a code already present |
| Accounts.FirstCodeIndexNew | src/user/user.service.ts:118 | A code that is new to the list is first carried by the appended permission |
| Accounts.DedupByCodeUnseen | src/user/user.service.ts:115-119 | A code the Map does not hold does not occur in its input |
| Accounts.Codes | src/user/user.service.ts:118 | The codes of a list, position by position |
| Accounts.FirstCodeOrderExtend | src/user/user.service.ts:115-119 | Appending keeps the first-occurrence order of codes, and a new code goes after all of them |
| Accounts.DedupByCodeSeen | src/user/user.service.ts:115-119 | Every code the Map holds came from its input |
| Accounts.MapSetKeepsCodes | src/user/user.service.ts:115-119 | Setting a code the Map already holds leaves the codes and their order as they were |
| Accounts.DedupByCodeOrder | src/user/user.service.ts:115-119 | Codes come out in the order in which they first occur |
| Accounts.SeenCodeIsSeenPermission | src/user/user.service.ts:115-119 | When codes identify permissions, a permission whose code is already kept is the kept one, and setting it again changes nothing |
| Accounts.DedupSchemesAgree | src/user/user.service.ts:114-120 | When each code names one permission, login's code-keyed de-duplication and findUserById's de-duplication, taken by value, give the same list (the source's identity comparison is discussed under Left out) |
| Accounts.DedupFirstPush | src/user/user.service.ts:209-213 | One inner step of the `forEach` pushes a permission exactly when it is not yet in the accumulator |
| Accounts.FlattenPush | src/user/user.service.ts:208-215 | One more role appends its permissions to the flattened list |
| Accounts.CollectPermissions | src/user/user.service.ts:208-215 | The nested loop yields the de-duplicated flattened permissions, in first-occurrence order |
| Accounts.UserService.constructor | src/user/user.service.ts:18-34 | The tables start empty and valid |
| Accounts.UserService.NewAccount | src/user/user.service.ts:57-75 | A new account gets the submitted username, email and nick name, the hashed password, an empty avatar and no admin flag (the entity's column defaults), the teacher role (key 3), and exactly the routers with menu ids 100 to 199 |
| Accounts.UserService.Register | src/user/user.service.ts:36-84 | The checks run in order: captcha expired, captcha wrong, username taken, role missing. A failing save answers `注册失败` and stores nothing; otherwise the account is stored under the next key |
| Accounts.UserService.Login | src/user/user.service.ts:86-125 | Unauthorized `用户不存在` exactly when no stored user has that name; Unauthorized `密码错误` exactly when the first such user's hash differs from `md5(password)`; otherwise exactly that user's id, name, nick name, email, avatar and admin flag, its role names and the code-de-duplicated permissions of its roles |
| Accounts.UserService.FindUserById | src/user/user.service.ts:194-221 | Null exactly when no user has that key and admin flag; otherwise the summary with the permissions of its roles de-duplicated by value |
| Accounts.UserService.UpdatePassword | src/user/user.service.ts:252-280 | Captcha expired, captcha wrong, user missing, in that order; otherwise only the password changes, to its hash, unless the save fails |
| Accounts.UserService.ApplyProfileUpdate | src/user/user.service.ts:301-320 | Nick name and avatar change only to truthy values. A non-empty role list must name existing, distinct roles and then replaces the roles. Nothing else changes |
| Accounts.UserService.Update | src/user/user.service.ts:282-329 | A supplied captcha must match. The target is the truthy `dto.id`, else the caller. It must exist, and it is replaced by its profile update unless that fails or the save fails |
| Chapters.ApplyChapterUpdate | src/chapter/chapter.service.ts:91-93 | Title, description and order change only to truthy values; key and course never change |
| Chapters.ChapterUpdateIdempotent | src/chapter/chapter.service.ts:91-93 | Applying the same update twice is applying it once |
| Chapters.ChapterUpdateFalsyKeeps | src/chapter/chapter.service.ts:91-93 | An update carrying only falsy values leaves the chapter as it is |
| Chapters.InsertPosition | src/chapter/chapter.service.ts:64 | The insertion point of a view, after every view of order not above its own |
| Chapters.InsertByOrder | src/chapter/chapter.service.ts:64 | Inserting into a sorted list keeps it sorted and adds exactly that view |
| Chapters.InsertAtPositionSorted | src/chapter/chapter.service.ts:64 | Inserting at that position keeps the list sorted by order |
| Chapters.InsertKeepsViews | src/chapter/chapter.service.ts:64 | Inserting adds the view and keeps every other |
| Chapters.SortByOrder | src/chapter/chapter.service.ts:64 | `order: { order: 'ASC' }` yields a list sorted by order that is a permutation of its input |
| Chapters.ViewsOf | src/chapter/chapter.service.ts:67-72 | Each chapter projected to id, title, description and order, in the given key order |
| Chapters.ChapterList | src/chapter/chapter.service.ts:61-73 | The list is sorted by order and has one entry per stored chapter row of the course |
| Chapters.ChapterListOnce | src/chapter/chapter.service.ts:61-73 | When every chapter is stored under its own id, no two entries share an id: each chapter is listed once |
| Chapters.ChapterListSound | src/chapter/chapter.service.ts:61-73 | Every listed view is the view of a stored chapter of that course |
| Chapters.ChapterListComplete | src/chapter/chapter.service.ts:61-73 | Every stored chapter of that course is listed |
| Chapters.CheckExistIn | src/chapter/chapter.service.ts:132-154 | Answers a record whose hash matches, with its address, and the public address of the file name exactly when no record matches. An absent hash matches every record |
| Chapters.ObjectNameFor | src/chapter/chapter.service.ts:164 | The object name is the upload directory followed by the file name |
| Chapters.ContentTypeFor | src/chapter/chapter.service.ts:178 | `video/mp4` exactly for kind `video`, otherwise `application/pdf` |
| Chapters.Placeholder | src/chapter/chapter.service.ts:196-204 | The record has the file name as its title, the given address or else the object name, the hash, the size, the upload id and status `PROCESSING` |
| Chapters.PlaceholderIsFound | src/chapter/chapter.service.ts:132-213 | Once the placeholder is stored, `checkExist` with its hash finds a record |
| Chapters.ChapterService.constructor | src/chapter/chapter.service.ts:16-25 | The tables start empty and valid |
| Chapters.ChapterService.Create | src/chapter/chapter.service.ts:30-56 | The course must exist. An order of 0 becomes one more than the course's chapter count, and the chapter is stored under the next key |
| Chapters.ChapterService.Update | src/chapter/chapter.service.ts:85-96 | The chapter must exist; it is replaced by its truthy-only update |
| Chapters.ChapterService.List | src/chapter/chapter.service.ts:61-73 | The query's answer: sorted by order, every entry the view of a stored chapter of that course, and every stored chapter of the course listed, exactly once (one entry per matching row, no two with the same id) |
| Chapters.ChapterService.CheckExist | src/chapter/chapter.service.ts:132-154 | The query's answer: a found record has the requested hash; the answer is the public address of the file name exactly when no stored record matches |
| Chapters.ChapterService.InitMultipart | src/chapter/chapter.service.ts:159-213 | The upload is always opened first. A missing chapter then fails without a record; otherwise the placeholder is stored under the next key and its key is answered |
| Courses.DetermineStatus | src/course/course.service.ts:125-142 | Not started exactly without a start or before it; in progress exactly from the start until an end, if any, is reached; finished exactly from then on |
| Courses.StatusMovesForward | src/course/course.service.ts:125-142 | With fixed dates the status never moves backwards as time passes |
| Courses.InvertedDatesSkipProgress | src/course/course.service.ts:125-142 | A course that ends before it starts is never in progress |
| Courses.NewCourse | src/course/course.service.ts:99-114 | A new course gets the given teachers, the cover image or `''`, the parsed truthy dates, no students, and the status its dates give now |
| Courses.ApplyCourseUpdate | src/course/course.service.ts:250-264 | Truthy dates are normalised and parsed; present fields are assigned; teachers and students stay; the status matches the resulting dates |
| Courses.UpdateIgnoresStatusAndTeachers | src/course/course.service.ts:250-264 | The status and teacher list a client sends with an update have no effect |
| Courses.UpdateWithoutDatesKeepsDates | src/course/course.service.ts:250-264 | An update without dates or fields only refreshes the status |
| Courses.Without | src/course/course.service.ts:338 | The filter removes every entry of that user and keeps every other |
| Courses.WithoutConcat | src/course/course.service.ts:338 | Filtering works piecewise, so the remaining students keep their order |
| Courses.WithdrawIdempotent | src/course/course.service.ts:328-342 | Withdrawing twice is withdrawing once |
| Courses.EnrolThenWithdraw | src/course/course.service.ts:289-342 | Enrolling a student who was not enrolled and then withdrawing restores the roster |
| Courses.LastSegment | src/course/course.service.ts:379 | `split('/').pop()` has no `/` and is no longer than the address |
| Courses.LastSegmentIsSuffix | src/course/course.service.ts:379 | The key is the longest `/`-free suffix of the address |
| Courses.LastSegmentOfPath | src/course/course.service.ts:379 | The key of `prefix/name` is the name |
| Courses.UploadedObjectKey | src/course/course.service.ts:379-382 | For an object a multipart upload opened under the upload directory, the last-segment removal key is the bare file name and so differs from the object's name; material urls, which name objects at the bucket root, never take this path |
| Courses.OrderViews | src/course/course.service.ts:471-477 | One answer entry per listed chapter, in request order, with order `i + 1` |
| Courses.RenumberStep | src/course/course.service.ts:459-468 | One loop step renumbers the next chapter and touches nothing else |
| Courses.CourseService.constructor | src/course/course.service.ts:21-32 | The tables start valid, with no courses |
| Courses.CourseService.Delete | src/course/course.service.ts:34-67 | A missing course is NotFound; otherwise exactly that course is removed |
| Courses.CourseService.Create | src/course/course.service.ts:69-120 | With teacher ids, all must exist and be distinct; without them, the creator must exist and becomes the only teacher. The course is stored under the next key |
| Courses.CourseService.Update | src/course/course.service.ts:227-269 | A missing course is NotFound, named by the requested title; otherwise it is replaced by its update |
| Courses.CourseService.SelectCourse | src/course/course.service.ts:289-326 | Course missing, user missing, already enrolled, in that order; otherwise the user is appended to the roster once |
| Courses.CourseService.CancelCourse | src/course/course.service.ts:328-342 | A missing course is NotFound; otherwise every entry of the user leaves the roster |
| Courses.CourseService.UpdateChapterOrder | src/course/course.service.ts:433-480 | The course must exist, and the listed chapters must be its own and distinct. Position `i` then gets order `i + 1`, other chapters keep theirs, and the answer lists the chapters in request order |
| Courses.CourseService.Renumber | src/course/course.service.ts:459-468 | The loop renumbers exactly the listed chapters and builds the answer in request order |
| Courses.CourseService.DeleteMaterial | src/course/course.service.ts:368-391 | A missing material is an Error. The object is removed before the record, and either failure is reported with `删除失败：`. A failing record removal leaves the object already gone |
| Assignments.StudentList | src/assignment/assignment.service.ts:84-94 | The page holds only assignments of the course, at most the page size, and the count is of all the course's assignments |
| Assignments.SubmissionsOf | src/assignment/assignment.service.ts:117-122 | Exactly the stored submissions of the assignment, one entry per matching row in key order, so the count equals the number of matching rows |
| Assignments.TeacherList | src/assignment/assignment.service.ts:46-57 | The same page and count as the student list, each assignment with all its submissions |
| Assignments.ListPagesTile | src/assignment/assignment.service.ts:84-94 | Every assignment of the course is on the page its position gives |
| Assignments.NameStudents | src/assignment/assignment.service.ts:127-132 | Each submission with its student's username beside it |
| Assignments.Detail | src/assignment/assignment.service.ts:96-142 | A missing course, which covers a missing assignment, is NotFound `课程不存在`. Otherwise: the assignment, the course's student count, and the assignment's submissions, each named by its student, with their count, which equals the number of stored submission rows of the assignment |
| Assignments.DetailListsEverySubmission | src/assignment/assignment.service.ts:117-132 | The detail lists every submission of the assignment |
| Assignments.NewSubmission | src/assignment/assignment.service.ts:144-158 | A hand-in is the caller's, stamped with the current time, unscored, without feedback and `PENDING` |
| Assignments.Grade | src/assignment/assignment.service.ts:167-169 | Grading sets the score, the feedback (an absent one becomes `''`) and the status (`GRADED` by default), and keeps the hand-in |
| Assignments.SubmissionLifecycle | src/assignment/assignment.service.ts:144-172 | A `PENDING` hand-in graded with the default status is `GRADED`, scored and still the same hand-in |
| Assignments.GradeIdempotent | src/assignment/assignment.service.ts:160-172 | Grading twice with the same request is grading once |
| Assignments.AssignmentService.constructor | src/assignment/assignment.service.ts:14-21 | The tables start empty and valid |
| Assignments.AssignmentService.CreateAssignment | src/assignment/assignment.service.ts:23-44 | The course must exist; the assignment is stored under the next key with the requested fields |
| Assignments.AssignmentService.GetAssignmentList | src/assignment/assignment.service.ts:46-57 | The teacher page of the stored tables: the course's total count, at most a page of its assignments, each with exactly its submissions |
| Assignments.AssignmentService.GetAssignmentListForStudent | src/assignment/assignment.service.ts:84-94 | The student page of the stored tables: the course's total count and at most a page of stored assignments of the course |
| Assignments.AssignmentService.GetAssignmentDetail | src/assignment/assignment.service.ts:96-142 | The detail of the stored tables: NotFound `课程不存在` exactly when the assignment or its course is missing; otherwise the assignment, the course's student count and the submission count of the assignment's rows |
| Assignments.AssignmentService.CreateSubmission | src/assignment/assignment.service.ts:144-158 | The assignment must exist; the hand-in is stored under the next key |
| Assignments.AssignmentService.UpdateSubmission | src/assignment/assignment.service.ts:160-172 | The submission must exist; it is replaced by its graded form |

## Left out

- Controllers, JWT authentication, the Redis cache, e-mail, MinIO presigned URLs, and the multipart part-upload and completion steps are not modelled. They are I/O around the services.
- Course operations not modelled: `findAll`, `findOne`, `getMyCourses`, `getMySelectCourses`, `uploadCourseMaterial` and `updateChapterTitle`. These are queries with joins or file I/O that have no rule of their own.
- Chapter operations not modelled: `detail`, `delete` and `addContent`. These are a single lookup, delete or insert without checks.
- User operations not modelled: `delete`, `findUsersByPage`, `findUsers`, `listRouters`, `findUserDetailById` and `uploadAvatar`. These are lookups and a file upload.
- Assignment operations not modelled: `deleteAssignment` and `updateAssignment`. They repeat the find-then-save pattern that `updateSubmission` models.
- Dates are integers. `new Date` is a parser given as a parameter, and an invalid date is not distinguished.
- Several calls run one after another in the model: `Promise.all` in `updateChapterOrder`, and the two storage calls in `deleteMaterial`.
- Courses.CourseService.UpdateChapterOrder: the in-loop "章节 #x 不存在" error cannot be reached once the length check has passed, so it is not modelled.
- Courses.CourseService.UpdateChapterOrder: the answer follows the request order, as the source builds it from `chapterIds`. The row order the `In` lookup returns is not modelled.
- Courses.CourseService.Delete: whether the database refuses to delete a course with dependent rows is not modelled. Materials and their stored files are left in place, as in the source.
- Courses.CourseService.SelectCourse: the controller passes the user and course arguments in swapped positions. The service is modelled with its own parameter order.
- Courses.ApplyCourseUpdate: only the fields the update DTO declares are copied. Other properties a client could smuggle into `Object.assign` are not modelled.
- Accounts.UserService.FindUserById: its permissions are de-duplicated by value. The source's `indexOf` compares by identity, and the ORM builds a fresh permission object for each role. So the source lists a permission shared by two roles once per role, and the model lists it once.
- Accounts.CollectPermissions: `indexOf` compares permission objects by identity, and the ORM builds a fresh permission object for each role that loads it. So the source lists a permission shared by two roles once per role; the model compares by value and lists it once.
- Accounts.UserService.Login: the `createTime` field, formatted through `formatDate`, and the phone number and frozen flag are not part of the answer modelled.
- Chapters.ChapterService.Create: an absent `order` is not modelled. The column is NOT NULL without a default, so the database would refuse the row. Nested `contents` are not modelled either.
- Chapters.ChapterService.InitMultipart: an absent `chapterId` is not modelled. The content columns `type`, `duration`, `order` and `errorMessage` keep their database defaults and are not part of the record.
- Chapters.ChapterList: views of equal order keep key order. The database's order for ties is unspecified.
- Assignments.Grade: the score column is `decimal(5,2)`. Rounding to two decimals is not modelled, and the status string is not validated.
- Assignments.Detail: the student's username is read when the detail is built, which is the same thing because usernames never change. The source's answer also spreads the assignment's loaded `submissions` relation into its top level; the model's answer leaves that copy out, since the named submissions list carries the same rows.
- Repository.Page: page number 0 gives a negative `skip`, which the ORM passes on as a negative OFFSET and the database rejects; the model treats a negative `skip` or `take` like a falsy one instead.
