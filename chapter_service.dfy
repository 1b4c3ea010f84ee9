/**
 * Chapter and content rules of the chapter service
 * (src/chapter/chapter.service.ts): creating a chapter with a default order,
 * the truthy-only partial update, the ordered chapter list, the content
 * de-duplication lookup by file hash, and the opening of a multipart upload
 * with its placeholder content record.
 *
 * The object store is reduced to the list of multipart uploads it has been
 * asked to open; the upload id it hands back is a parameter.
 */
module Chapters {
  import opened Repository

  /** A stored chapter. `description` is a nullable column. */
  datatype Chapter = Chapter(id: nat, courseId: nat, title: string, description: Option<string>, order: int)

  datatype ContentStatus = Processing | Completed | Failed

  /** A stored content record (a file attached to a chapter). */
  datatype Content = Content(
    id: nat, chapterId: nat, title: string, contentUrl: string,
    fileHash: Option<string>, size: int, status: ContentStatus, uploadId: Option<string>)

  /** A multipart upload the object store was asked to open. */
  datatype MultipartUpload = MultipartUpload(bucket: string, objectName: string, contentType: string, uploadId: string)

  datatype CreateChapterDto = CreateChapterDto(title: string, description: Option<string>, order: int, courseId: nat)

  datatype UpdateChapterDto = UpdateChapterDto(id: nat, title: Option<string>, description: Option<string>, order: Option<int>)

  /** The four fields `list` returns for each chapter. */
  datatype ChapterView = ChapterView(id: nat, title: string, description: Option<string>, order: int)

  /** `fileHash` is not validated and may be absent. */
  datatype CheckExistDto = CheckExistDto(fileHash: Option<string>, fileName: string)

  datatype CheckExistAnswer = Exists(fileId: nat, url: string) | Absent(url: string)

  datatype InitMultipartDto = InitMultipartDto(
    chapterId: nat, fileName: string, fileSize: int, fileHash: string, kind: string, contentUrl: Option<string>)

  datatype InitMultipartAnswer = InitMultipartAnswer(
    fileExists: bool, uploadId: string, fileId: nat, objectName: string, bucketName: string)

  const CourseMissing: Error := Error(NotFound, "课程不存在")
  const ChapterMissing: Error := Error(NotFound, "章节不存在")

  /** The public address a file of that name would have in the bucket. */
  const PublicUrlPrefix: string := "https://minio.goodlll.top:12345/browser/studysystem/"
  const Bucket: string := "studysystem"
  const UploadDirectory: string := "uploads/temp/"

  // ---------------------------------------------------------------------
  // Update
  // ---------------------------------------------------------------------

  /** `chapter.x = dto.x || chapter.x` for title, description and order:
      an empty title, an empty description or an order of 0 keep the stored
      value, and the key and course never change. */
  function ApplyChapterUpdate(c: Chapter, dto: UpdateChapterDto): (r: Chapter)
    ensures r.id == c.id && r.courseId == c.courseId
    ensures r.title == (if dto.title.Some? && dto.title.value != "" then dto.title.value else c.title)
    ensures r.description == (if TruthyText(dto.description) then dto.description else c.description)
    ensures r.order == (if TruthyNumber(dto.order) then dto.order.value else c.order)
  {
    Chapter(
      c.id, c.courseId,
      if TruthyText(dto.title) then dto.title.value else c.title,
      if TruthyText(dto.description) then dto.description else c.description,
      if TruthyNumber(dto.order) then dto.order.value else c.order)
  }

  /** Applying the same update twice changes nothing more. */
  lemma ChapterUpdateIdempotent(c: Chapter, dto: UpdateChapterDto)
    ensures ApplyChapterUpdate(ApplyChapterUpdate(c, dto), dto) == ApplyChapterUpdate(c, dto)
  {
  }

  /** An update that carries only falsy values leaves the chapter as it is. */
  lemma ChapterUpdateFalsyKeeps(c: Chapter, dto: UpdateChapterDto)
    requires !TruthyText(dto.title) && !TruthyText(dto.description) && !TruthyNumber(dto.order)
    ensures ApplyChapterUpdate(c, dto) == c
  {
  }

  // ---------------------------------------------------------------------
  // List
  // ---------------------------------------------------------------------

  function View(c: Chapter): ChapterView
  {
    ChapterView(c.id, c.title, c.description, c.order)
  }

  predicate InCourse(courseId: nat, c: Chapter)
  {
    c.courseId == courseId
  }

  predicate SortedByOrder(s: seq<ChapterView>)
  {
    forall i, j :: 0 <= i < j < |s| ==> s[i].order <= s[j].order
  }

  /** How many leading views of a sorted list have an order not above `v`'s. */
  function InsertPosition(v: ChapterView, s: seq<ChapterView>): (k: nat)
    ensures k <= |s|
    ensures forall i :: 0 <= i < k ==> s[i].order <= v.order
    ensures k < |s| ==> v.order < s[k].order
  {
    if s == [] || v.order < s[0].order then 0
    else
      var k := InsertPosition(v, s[1..]);
      assert forall i :: 1 <= i <= k ==> s[i] == s[1..][i - 1];
      1 + k
  }

  /** Inserts `v` after every view whose order does not exceed its own. */
  function InsertByOrder(v: ChapterView, s: seq<ChapterView>): (r: seq<ChapterView>)
    requires SortedByOrder(s)
    ensures SortedByOrder(r)
    ensures multiset(r) == multiset(s) + multiset{v}
  {
    var k := InsertPosition(v, s);
    InsertAtPositionSorted(v, s, k);
    InsertKeepsViews(v, s, k);
    s[..k] + [v] + s[k..]
  }

  lemma InsertKeepsViews(v: ChapterView, s: seq<ChapterView>, k: nat)
    requires k <= |s|
    ensures multiset(s[..k] + [v] + s[k..]) == multiset(s) + multiset{v}
  {
    calc {
      multiset(s[..k] + [v] + s[k..]);
      multiset(s[..k]) + multiset{v} + multiset(s[k..]);
      { assert s == s[..k] + s[k..]; }
      multiset(s) + multiset{v};
    }
  }

  lemma InsertAtPositionSorted(v: ChapterView, s: seq<ChapterView>, k: nat)
    requires SortedByOrder(s) && k <= |s|
    requires forall i :: 0 <= i < k ==> s[i].order <= v.order
    requires k < |s| ==> v.order < s[k].order
    ensures SortedByOrder(s[..k] + [v] + s[k..])
  {
    var r := s[..k] + [v] + s[k..];
    assert forall i :: 0 <= i < |r| ==> r[i] == (if i < k then s[i] else if i == k then v else s[i - 1]);
    forall i, j | 0 <= i < j < |r| ensures r[i].order <= r[j].order {
      if j == k {
        assert r[i] == s[i];
      } else if i == k {
        assert r[j] == s[j - 1] && s[k].order <= s[j - 1].order;
      }
    }
  }

  /** Orders views by their `order`, as `order: { order: 'ASC' }` does;
      views of equal order stay in the order they came in. */
  function SortByOrder(s: seq<ChapterView>): (r: seq<ChapterView>)
    ensures SortedByOrder(r)
    ensures multiset(r) == multiset(s)
  {
    if s == [] then []
    else
      assert s == s[..|s| - 1] + [s[|s| - 1]];
      InsertByOrder(s[|s| - 1], SortByOrder(s[..|s| - 1]))
  }

  /** The views of the chapters with the given keys, in key order. */
  function ViewsOf(chapters: map<nat, Chapter>, keys: seq<nat>): (r: seq<ChapterView>)
    requires forall i :: 0 <= i < |keys| ==> keys[i] in chapters
    ensures |r| == |keys| && forall i :: 0 <= i < |keys| ==> r[i] == View(chapters[keys[i]])
  {
    seq(|keys|, i requires 0 <= i < |keys| => View(chapters[keys[i]]))
  }

  /** `list`: the course's chapters, ascending by order, each projected to
      id, title, description and order. */
  function ChapterList(chapters: map<nat, Chapter>, bound: nat, courseId: nat): (r: seq<ChapterView>)
    ensures SortedByOrder(r)
    ensures |r| == |RowsWhere(chapters, c => InCourse(courseId, c), bound)|
  {
    var keys := RowsWhere(chapters, c => InCourse(courseId, c), bound);
    assert forall i :: 0 <= i < |keys| ==> keys[i] in keys;
    var views := ViewsOf(chapters, keys);
    var r := SortByOrder(views);
    assert |r| == |multiset(r)| == |multiset(views)| == |views|;
    r
  }

  /** Every listed view is the view of a stored chapter of that course. */
  lemma ChapterListSound(chapters: map<nat, Chapter>, bound: nat, courseId: nat)
    requires forall k :: k in chapters ==> chapters[k].id == k
    ensures var r := ChapterList(chapters, bound, courseId);
            forall v :: v in r ==> v.id in chapters && InCourse(courseId, chapters[v.id]) && v == View(chapters[v.id])
  {
    var keys := RowsWhere(chapters, c => InCourse(courseId, c), bound);
    assert forall i :: 0 <= i < |keys| ==> keys[i] in keys;
    var views := ViewsOf(chapters, keys);
    var r := ChapterList(chapters, bound, courseId);
    forall v | v in r
      ensures v.id in chapters && InCourse(courseId, chapters[v.id]) && v == View(chapters[v.id])
    {
      assert v in multiset(r);
      assert v in multiset(views);
      var i :| 0 <= i < |views| && views[i] == v;
      assert keys[i] in keys;
    }
  }

  /** Each chapter is listed once: no two entries share an id. */
  lemma ChapterListOnce(chapters: map<nat, Chapter>, bound: nat, courseId: nat)
    requires forall k :: k in chapters ==> chapters[k].id == k
    ensures var r := ChapterList(chapters, bound, courseId);
            forall i, j :: 0 <= i < j < |r| ==> r[i].id != r[j].id
  {
    var keys := RowsWhere(chapters, c => InCourse(courseId, c), bound);
    assert forall i :: 0 <= i < |keys| ==> keys[i] in keys;
    var views := ViewsOf(chapters, keys);
    var r := ChapterList(chapters, bound, courseId);
    assert multiset(r) == multiset(views);
    assert Distinct(views) by {
      forall a, b | 0 <= a < b < |views| ensures views[a] != views[b] {
        assert views[a].id == keys[a] && views[b].id == keys[b];
      }
    }
    ChapterListSound(chapters, bound, courseId);
    forall i, j | 0 <= i < j < |r| ensures r[i].id != r[j].id {
      if r[i].id == r[j].id {
        assert r[i] in r && r[j] in r;
        RepeatCountsTwice(r, i, j);
        DistinctCountsOnce(views, r[i]);
        assert false;
      }
    }
  }

  /** Every stored chapter of that course (below the key bound) is listed. */
  lemma ChapterListComplete(chapters: map<nat, Chapter>, bound: nat, courseId: nat, k: nat)
    requires k < bound && k in chapters && InCourse(courseId, chapters[k])
    ensures View(chapters[k]) in ChapterList(chapters, bound, courseId)
  {
    var keys := RowsWhere(chapters, c => InCourse(courseId, c), bound);
    assert forall i :: 0 <= i < |keys| ==> keys[i] in keys;
    var views := ViewsOf(chapters, keys);
    assert k in keys;
    var i :| 0 <= i < |keys| && keys[i] == k;
    assert views[i] in multiset(views);
  }

  // ---------------------------------------------------------------------
  // Content de-duplication
  // ---------------------------------------------------------------------

  /** `where: { fileHash }`: an absent hash puts no condition on the row. */
  predicate HashMatches(fileHash: Option<string>, c: Content)
  {
    fileHash.None? || c.fileHash == fileHash
  }

  /** `checkExist`: the first content record with that hash, or the public
      address a new file of that name would get. */
  function CheckExistIn(contents: map<nat, Content>, bound: nat, dto: CheckExistDto): (r: CheckExistAnswer)
    ensures r.Exists? ==>
              r.fileId in contents && HashMatches(dto.fileHash, contents[r.fileId])
              && r.url == contents[r.fileId].contentUrl
    ensures r.Absent? <==> forall k :: k < bound && k in contents ==> !HashMatches(dto.fileHash, contents[k])
    ensures r.Absent? ==> r.url == PublicUrlPrefix + dto.fileName
  {
    match FirstMatch(contents, c => HashMatches(dto.fileHash, c), bound)
    case Some(k) => Exists(k, contents[k].contentUrl)
    case None => Absent(PublicUrlPrefix + dto.fileName)
  }

  // ---------------------------------------------------------------------
  // Multipart init
  // ---------------------------------------------------------------------

  /** The object name the upload is opened under. */
  function ObjectNameFor(fileName: string): (r: string)
    ensures |r| == |UploadDirectory| + |fileName|
    ensures r[..|UploadDirectory|] == UploadDirectory && r[|UploadDirectory|..] == fileName
  {
    UploadDirectory + fileName
  }

  /** The `Content-Type` the upload is opened with. */
  function ContentTypeFor(kind: string): (r: string)
    ensures r == "video/mp4" <==> kind == "video"
    ensures r != "video/mp4" ==> r == "application/pdf"
  {
    if kind == "video" then "video/mp4" else "application/pdf"
  }

  /** The content record `initMultipart` saves under key `id`. */
  function Placeholder(id: nat, dto: InitMultipartDto, uploadId: string): (c: Content)
    ensures c.id == id && c.chapterId == dto.chapterId && c.title == dto.fileName
    ensures c.contentUrl == (if TruthyText(dto.contentUrl) then dto.contentUrl.value else ObjectNameFor(dto.fileName))
    ensures c.fileHash == Some(dto.fileHash) && c.size == dto.fileSize
    ensures c.status == Processing && c.uploadId == Some(uploadId)
  {
    Content(id, dto.chapterId, dto.fileName,
            if TruthyText(dto.contentUrl) then dto.contentUrl.value else ObjectNameFor(dto.fileName),
            Some(dto.fileHash), dto.fileSize, Processing, Some(uploadId))
  }

  /** Once the placeholder is stored, asking for its hash finds a record
      (the placeholder or an earlier one with the same hash), so the same
      file is not uploaded twice. */
  lemma PlaceholderIsFound(contents: map<nat, Content>, bound: nat, dto: InitMultipartDto, uploadId: string, fileName: string)
    requires bound !in contents
    ensures var stored := contents[bound := Placeholder(bound, dto, uploadId)];
            CheckExistIn(stored, bound + 1, CheckExistDto(Some(dto.fileHash), fileName)).Exists?
  {
    var stored := contents[bound := Placeholder(bound, dto, uploadId)];
    assert bound in stored && HashMatches(Some(dto.fileHash), stored[bound]);
  }

  /** The chapter service with its repositories as tables. Courses are seen
      only through their keys. */
  class ChapterService {
    var courses: set<nat>
    var chapters: map<nat, Chapter>
    var nextChapterId: nat
    var contents: map<nat, Content>
    var nextContentId: nat
    /** The multipart uploads opened in the object store, oldest first. */
    var uploads: seq<MultipartUpload>

    ghost predicate Valid()
      reads this
    {
      && (forall k :: k in chapters ==> k < nextChapterId && chapters[k].id == k)
      && (forall k :: k in contents ==> k < nextContentId && contents[k].id == k)
    }

    constructor (courses: set<nat>)
      ensures Valid()
      ensures this.courses == courses && chapters == map[] && contents == map[] && uploads == []
      ensures nextChapterId == 0 && nextContentId == 0
    {
      this.courses := courses;
      chapters := map[];
      nextChapterId := 0;
      contents := map[];
      nextContentId := 0;
      uploads := [];
    }

    /** `count({ where: { course: { id } } })`. */
    function ChapterCount(courseId: nat): nat
      reads this
    {
      |RowsWhere(chapters, c => InCourse(courseId, c), nextChapterId)|
    }

    /** `create`: the course must exist; an order of 0 becomes one more than
        the number of chapters the course already has. */
    method Create(dto: CreateChapterDto) returns (r: Result<Chapter>)
      requires Valid()
      modifies this`chapters, this`nextChapterId
      ensures Valid()
      ensures dto.courseId !in courses ==> r == Err(CourseMissing) && unchanged(this)
      ensures dto.courseId in courses ==>
                && r == Ok(Chapter(old(nextChapterId), dto.courseId, dto.title, dto.description,
                                   if dto.order == 0 then old(ChapterCount(dto.courseId)) + 1 else dto.order))
                && chapters == old(chapters)[old(nextChapterId) := r.value]
                && nextChapterId == old(nextChapterId) + 1
    {
      if dto.courseId !in courses {
        return Err(CourseMissing);
      }
      var order := dto.order;
      if order == 0 {
        order := ChapterCount(dto.courseId) + 1;
      }
      var chapter := Chapter(nextChapterId, dto.courseId, dto.title, dto.description, order);
      chapters := chapters[nextChapterId := chapter];
      nextChapterId := nextChapterId + 1;
      return Ok(chapter);
    }

    /** `update`: the chapter must exist; it is replaced by its truthy-only
        update. */
    method Update(dto: UpdateChapterDto) returns (r: Result<Chapter>)
      requires Valid()
      modifies this`chapters
      ensures Valid()
      ensures dto.id !in old(chapters) ==> r == Err(ChapterMissing) && chapters == old(chapters)
      ensures dto.id in old(chapters) ==>
                && r == Ok(ApplyChapterUpdate(old(chapters)[dto.id], dto))
                && chapters == old(chapters)[dto.id := r.value]
    {
      if dto.id !in chapters {
        return Err(ChapterMissing);
      }
      var updated := ApplyChapterUpdate(chapters[dto.id], dto);
      chapters := chapters[dto.id := updated];
      return Ok(updated);
    }

    /** `list` against the current table. */
    function List(courseId: nat): (r: seq<ChapterView>)
      requires Valid()
      reads this
      ensures r == ChapterList(chapters, nextChapterId, courseId)
      ensures SortedByOrder(r)
      ensures forall v :: v in r ==> v.id in chapters && InCourse(courseId, chapters[v.id]) && v == View(chapters[v.id])
      ensures forall k :: k in chapters && InCourse(courseId, chapters[k]) ==> View(chapters[k]) in r
      ensures |r| == |RowsWhere(chapters, c => InCourse(courseId, c), nextChapterId)|
      ensures forall i, j :: 0 <= i < j < |r| ==> r[i].id != r[j].id
    {
      ChapterListOnce(chapters, nextChapterId, courseId);
      forall k | k in chapters && InCourse(courseId, chapters[k]) ensures View(chapters[k]) in ChapterList(chapters, nextChapterId, courseId) {
        ChapterListComplete(chapters, nextChapterId, courseId, k);
      }
      ChapterListSound(chapters, nextChapterId, courseId);
      ChapterList(chapters, nextChapterId, courseId)
    }

    /** `checkExist` against the current table; it changes nothing. */
    function CheckExist(dto: CheckExistDto): (r: CheckExistAnswer)
      reads this
      ensures r == CheckExistIn(contents, nextContentId, dto)
      ensures r.Exists? ==>
                r.fileId in contents && HashMatches(dto.fileHash, contents[r.fileId])
                && r.url == contents[r.fileId].contentUrl
      ensures r.Absent? <==> forall k :: k < nextContentId && k in contents ==> !HashMatches(dto.fileHash, contents[k])
      ensures r.Absent? ==> r.url == PublicUrlPrefix + dto.fileName
    {
      CheckExistIn(contents, nextContentId, dto)
    }

    /** `initMultipart`: the upload is opened first; only then is the
        chapter looked up, so a missing chapter leaves an opened upload and
        no content record. */
    method InitMultipart(dto: InitMultipartDto, uploadId: string) returns (r: Result<InitMultipartAnswer>)
      requires Valid()
      modifies this`contents, this`nextContentId, this`uploads
      ensures Valid()
      ensures uploads == old(uploads) + [MultipartUpload(Bucket, ObjectNameFor(dto.fileName), ContentTypeFor(dto.kind), uploadId)]
      ensures dto.chapterId !in chapters ==>
                r == Err(ChapterMissing) && contents == old(contents) && nextContentId == old(nextContentId)
      ensures dto.chapterId in chapters ==>
                && r == Ok(InitMultipartAnswer(false, uploadId, old(nextContentId), ObjectNameFor(dto.fileName), Bucket))
                && contents == old(contents)[old(nextContentId) := Placeholder(old(nextContentId), dto, uploadId)]
                && nextContentId == old(nextContentId) + 1
    {
      var objectName := ObjectNameFor(dto.fileName);
      uploads := uploads + [MultipartUpload(Bucket, objectName, ContentTypeFor(dto.kind), uploadId)];
      if dto.chapterId !in chapters {
        return Err(ChapterMissing);
      }
      var id := nextContentId;
      contents := contents[id := Placeholder(id, dto, uploadId)];
      nextContentId := nextContentId + 1;
      return Ok(InitMultipartAnswer(false, uploadId, id, objectName, Bucket));
    }
  }
}
