/**
 * A learning center's page: its pending order requests (approve or
 * decline), the courses the center may teach split into the Starter and
 * Mover programs, the learner roster with one row per assigned learner,
 * and the picker that enrols a learner into a course slot.
 */
module CenterDetail {
  import opened Options
  import opened Seqs
  import opened Text
  import opened Domain

  /** `r => r.id === id`. */
  function HasId(id: string): Order -> bool {
    (r: Order) => r.id == id
  }

  /** `r => r.id !== id`. */
  function OtherId(id: string): Order -> bool {
    (r: Order) => r.id != id
  }

  /** `prev.filter(r => r.id !== id)`: exactly the requests with that id go; the rest keep their order. */
  function WithoutRequest(requests: seq<Order>, id: string): (r: seq<Order>)
    ensures forall i :: 0 <= i < |r| ==> r[i].id != id && r[i] in requests
    ensures forall i :: 0 <= i < |requests| && requests[i].id != id ==> requests[i] in r
    ensures IsSubseq(r, requests)
    ensures forall o :: multiset(r)[o] == if o.id != id then multiset(requests)[o] else 0
  {
    Filter(requests, OtherId(id))
  }

  /** Removing an id no request carries leaves the list as it was. */
  lemma WithoutAbsentRequest(requests: seq<Order>, id: string)
    requires forall i :: 0 <= i < |requests| ==> requests[i].id != id
    ensures WithoutRequest(requests, id) == requests
  {
    FilterAll(requests, OtherId(id));
  }

  /** `MOCK_COURSES.filter(c => approvedCourseIds.includes(c.id))`. */
  function ApprovedCourses(catalog: seq<Course>, approvedIds: seq<string>): (r: seq<Course>)
    ensures forall i :: 0 <= i < |r| ==> r[i] in catalog && r[i].id in approvedIds
    ensures forall i :: 0 <= i < |catalog| && catalog[i].id in approvedIds ==> catalog[i] in r
    ensures IsSubseq(r, catalog)
    ensures forall c :: multiset(r)[c] == if c.id in approvedIds then multiset(catalog)[c] else 0
  {
    Filter(catalog, (c: Course) => c.id in approvedIds)
  }

  /** Approving a course id makes every catalog course with that id one of the center's courses. */
  lemma ApprovalShowsCourse(catalog: seq<Course>, approvedIds: seq<string>, courseId: string)
    ensures forall i :: 0 <= i < |catalog| && catalog[i].id == courseId ==>
              catalog[i] in ApprovedCourses(catalog, approvedIds + [courseId])
  {
    assert courseId in approvedIds + [courseId];
  }

  /** The category or the name mentions "starter", in any case. */
  predicate IsStarterCourse(c: Course) {
    Contains(Lower(c.category), "starter") || Contains(Lower(c.name), "starter")
  }

  /** The category or the name mentions "mover", in any case, or neither mentions "starter". */
  predicate IsMoverCourse(c: Course) {
    Contains(Lower(c.category), "mover") || Contains(Lower(c.name), "mover") || !IsStarterCourse(c)
  }

  function StarterCourses(approved: seq<Course>): (r: seq<Course>)
    ensures forall i :: 0 <= i < |r| ==> r[i] in approved && IsStarterCourse(r[i])
    ensures forall i :: 0 <= i < |approved| && IsStarterCourse(approved[i]) ==> approved[i] in r
    ensures IsSubseq(r, approved)
    ensures forall c :: multiset(r)[c] == if IsStarterCourse(c) then multiset(approved)[c] else 0
  {
    Filter(approved, (c: Course) => IsStarterCourse(c))
  }

  function MoverCourses(approved: seq<Course>): (r: seq<Course>)
    ensures forall i :: 0 <= i < |r| ==> r[i] in approved && IsMoverCourse(r[i])
    ensures forall i :: 0 <= i < |approved| && IsMoverCourse(approved[i]) ==> approved[i] in r
    ensures IsSubseq(r, approved)
    ensures forall c :: multiset(r)[c] == if IsMoverCourse(c) then multiset(approved)[c] else 0
  {
    Filter(approved, (c: Course) => IsMoverCourse(c))
  }

  /**
   * No approved course is lost by the split: each is listed under Starter or
   * Mover (a course may be under both), and one that mentions "starter"
   * nowhere is always under Mover.
   */
  lemma SplitCoversApproved(approved: seq<Course>)
    ensures forall i :: 0 <= i < |approved| ==>
              approved[i] in StarterCourses(approved) || approved[i] in MoverCourses(approved)
    ensures forall i :: 0 <= i < |approved| && !IsStarterCourse(approved[i]) ==>
              approved[i] in MoverCourses(approved) && approved[i] !in StarterCourses(approved)
  {
  }

  /** A list titled with "Starter" numbers its courses "ST…", any other "MV…". */
  function IdPrefix(title: string): string {
    if Contains(title, "Starter") then "ST" else "MV"
  }

  /** The two titles the page uses get the two prefixes. */
  lemma PageTitlesPrefixes()
    ensures IdPrefix("Starter Course") == "ST" && IdPrefix("Mover Course") == "MV"
  {
    assert OccursAt("Starter Course", "Starter", 0);
    MissingFirstCharNotContained("Mover Course", "Starter");
  }

  /** `${idPrefix}${10001 + idx}`: the course's position in its list, numbered from 10001. */
  function DisplayId(prefix: string, idx: nat): (r: string)
    ensures |r| > |prefix| && r[..|prefix|] == prefix
  {
    prefix + NatToString(10001 + idx)
  }

  /** The number after the prefix reads back as 10001 plus the position. */
  lemma DisplayIdNumber(prefix: string, idx: nat)
    ensures var d := DisplayId(prefix, idx); ParseNat(d[|prefix|..]) == 10001 + idx
  {
    assert DisplayId(prefix, idx)[|prefix|..] == NatToString(10001 + idx);
    ParseNatToString(10001 + idx);
  }

  /** Different positions in one list get different display ids. */
  lemma DisplayIdsDistinct(prefix: string, i: nat, j: nat)
    requires i != j
    ensures DisplayId(prefix, i) != DisplayId(prefix, j)
  {
    if DisplayId(prefix, i) == DisplayId(prefix, j) {
      assert DisplayId(prefix, i)[|prefix|..] == NatToString(10001 + i);
      assert DisplayId(prefix, j)[|prefix|..] == NatToString(10001 + j);
      NatToStringInjective(10001 + i, 10001 + j);
    }
  }

  /** How many learners the roster assigns to the course at position `cIdx`: 1, 2, 0, 1, 2, 0, … */
  function StudentCount(cIdx: nat): (r: nat)
    ensures r <= 2
    ensures r == 0 <==> cIdx % 3 == 2
  {
    if cIdx % 3 == 0 then 1 else if cIdx % 3 == 1 then 2 else 0
  }

  /** `s.slice(lo, hi)` for non-negative bounds: both are clamped to the length. */
  function Slice<T>(s: seq<T>, lo: nat, hi: nat): (r: seq<T>)
    ensures lo <= hi <= |s| ==> r == s[lo..hi]
    ensures |s| <= lo || hi <= lo ==> r == []
    ensures lo <= |s| <= hi ==> r == s[lo..]
  {
    var a := if lo < |s| then lo else |s|;
    var b := if hi < |s| then hi else |s|;
    if a < b then s[a..b] else []
  }

  /** A row of the learner roster: the course, its display id, and the learner in that slot, if any. */
  datatype RosterRow = RosterRow(
    course: Course,
    displayId: string,
    studentName: Option<string>,
    studentId: Option<string>,
    uniqueId: string)

  /** The learners of `pool` the roster puts on the course at position `cIdx`. */
  function Assigned(pool: seq<Student>, cIdx: nat): seq<Student> {
    Slice(pool, cIdx, cIdx + StudentCount(cIdx))
  }

  /**
   * The rows one course contributes: one per assigned learner, or a single
   * empty slot (offering "add learner") when none is assigned. Every row
   * carries the course and its display id.
   */
  function CourseRows(prefix: string, c: Course, cIdx: nat, pool: seq<Student>): (r: seq<RosterRow>)
    ensures |Assigned(pool, cIdx)| > 0 ==> |r| == |Assigned(pool, cIdx)|
    ensures |Assigned(pool, cIdx)| == 0 ==> |r| == 1 && r[0].studentName.None? && r[0].studentId.None?
    ensures forall k :: 0 <= k < |r| ==> r[k].course == c && r[k].displayId == DisplayId(prefix, cIdx)
    ensures forall k :: 0 <= k < |Assigned(pool, cIdx)| ==>
              r[k].studentName == Some(FullName(Assigned(pool, cIdx)[k]))
              && r[k].studentId == Some(Assigned(pool, cIdx)[k].username)
  {
    var displayId := DisplayId(prefix, cIdx);
    var share := Assigned(pool, cIdx);
    if |share| > 0 then
      seq(|share|, k requires 0 <= k < |share| =>
        RosterRow(c, displayId, Some(FullName(share[k])), Some(share[k].username), displayId + "-" + share[k].id))
    else
      [RosterRow(c, displayId, None, None, displayId + "-empty")]
  }

  /** With enough learners in the pool, a course gets exactly its share of 1, 2 or 0, the share starting at its own position. */
  lemma CourseRowsShare(prefix: string, c: Course, cIdx: nat, pool: seq<Student>)
    requires cIdx + 2 <= |pool|
    ensures StudentCount(cIdx) > 0 ==> |CourseRows(prefix, c, cIdx, pool)| == StudentCount(cIdx)
    ensures StudentCount(cIdx) > 0 ==> forall k :: 0 <= k < StudentCount(cIdx) ==>
              CourseRows(prefix, c, cIdx, pool)[k].studentId == Some(pool[cIdx + k].username)
    ensures StudentCount(cIdx) == 0 ==> |CourseRows(prefix, c, cIdx, pool)| == 1
  {
  }

  /** The rows of each course, list position by list position. */
  function RowsPerCourse(prefix: string, courses: seq<Course>, pool: seq<Student>): (r: seq<seq<RosterRow>>)
    ensures |r| == |courses|
    ensures forall i :: 0 <= i < |courses| ==> r[i] == CourseRows(prefix, courses[i], i, pool)
  {
    seq(|courses|, i requires 0 <= i < |courses| => CourseRows(prefix, courses[i], i, pool))
  }

  /**
   * `flattenedData` of the roster table titled `title`: every course's rows,
   * in course order. What the rows are is stated by the lemmas below it:
   * `RosterHasCourseRows` (every course's rows are in it), `RosterRowsBelong`
   * (every row comes from a course, under its display id) and
   * `RosterShowsEveryCourse` (every course is shown).
   */
  function Roster(title: string, courses: seq<Course>, pool: seq<Student>): (r: seq<RosterRow>)
    ensures |r| >= |courses|
  {
    var parts := RowsPerCourse(IdPrefix(title), courses, pool);
    ConcatLength(parts);
    Concat(parts)
  }

  /** `row` is the roster row of course `i` of `courses`, under that course's display id. */
  ghost predicate RowOfCourse(row: RosterRow, prefix: string, courses: seq<Course>, i: int) {
    0 <= i < |courses| && row.course == courses[i] && row.displayId == DisplayId(prefix, i)
  }

  /** `row` is the row of one of the courses. */
  ghost predicate RowOfSome(row: RosterRow, prefix: string, courses: seq<Course>) {
    exists i :: 0 <= i < |courses| && RowOfCourse(row, prefix, courses, i)
  }

  /** Some row of `all` is the row of course `i`. */
  ghost predicate CourseShown(all: seq<RosterRow>, prefix: string, courses: seq<Course>, i: int) {
    exists j :: 0 <= j < |all| && RowOfCourse(all[j], prefix, courses, i)
  }

  /** Every row a course contributes appears in the roster. */
  lemma RosterHasCourseRows(title: string, courses: seq<Course>, pool: seq<Student>)
    ensures forall i, k :: 0 <= i < |courses| && 0 <= k < |CourseRows(IdPrefix(title), courses[i], i, pool)| ==>
              CourseRows(IdPrefix(title), courses[i], i, pool)[k] in Roster(title, courses, pool)
  {
    var parts := RowsPerCourse(IdPrefix(title), courses, pool);
    ConcatHasParts(parts);
  }

  /** Every row of the roster belongs to one of the courses, under that course's display id. */
  lemma RosterRowsBelong(title: string, courses: seq<Course>, pool: seq<Student>)
    ensures forall j :: 0 <= j < |Roster(title, courses, pool)| ==>
              RowOfSome(Roster(title, courses, pool)[j], IdPrefix(title), courses)
  {
    var prefix := IdPrefix(title);
    var parts := RowsPerCourse(prefix, courses, pool);
    var all := Roster(title, courses, pool);
    ConcatFromParts(parts);
    forall j | 0 <= j < |all| ensures RowOfSome(all[j], prefix, courses) {
      var i :| 0 <= i < |parts| && all[j] in parts[i];
      var k :| 0 <= k < |parts[i]| && parts[i][k] == all[j];
      assert RowOfCourse(all[j], prefix, courses, i);
    }
  }

  /** Every course of the list shows in the roster: at least one row carries it under its display id. */
  lemma RosterShowsEveryCourse(title: string, courses: seq<Course>, pool: seq<Student>)
    ensures forall i :: 0 <= i < |courses| ==> CourseShown(Roster(title, courses, pool), IdPrefix(title), courses, i)
  {
    var prefix := IdPrefix(title);
    var all := Roster(title, courses, pool);
    RosterHasCourseRows(title, courses, pool);
    forall i | 0 <= i < |courses|
      ensures CourseShown(all, prefix, courses, i)
    {
      var row := CourseRows(prefix, courses[i], i, pool)[0];
      assert row in all;
      var j :| 0 <= j < |all| && all[j] == row;
      assert RowOfCourse(all[j], prefix, courses, i);
    }
  }

  /** `AddStudentsModal`'s list: the learners whose name or username matches the search, in pool order. */
  function PickerResults(pool: seq<Student>, term: string): (r: seq<Student>)
    ensures forall i :: 0 <= i < |r| ==> r[i] in pool && MatchesLearner(r[i], term)
    ensures forall i :: 0 <= i < |pool| && MatchesLearner(pool[i], term) ==> pool[i] in r
    ensures IsSubseq(r, pool)
    ensures forall x :: multiset(r)[x] == if MatchesLearner(x, term) then multiset(pool)[x] else 0
  {
    Filter(pool, (s: Student) => MatchesLearner(s, term))
  }

  /** An empty search lists the whole pool. */
  lemma EmptyPickerSearchListsAll(pool: seq<Student>)
    ensures PickerResults(pool, "") == pool
  {
    forall i | 0 <= i < |pool| ensures MatchesLearner(pool[i], "") {
      ContainsEmpty(Lower(FullName(pool[i])));
    }
    FilterAll(pool, (s: Student) => MatchesLearner(s, ""));
  }

  /**
   * The page's state: the center's approved course ids, its pending
   * requests, the course slot the learner picker is open for, and the
   * picker's search and selection ("" for no selection).
   */
  class CenterHub {
    var approvedCourseIds: seq<string>
    var requests: seq<Order>
    var addStudentsTarget: Option<Course>
    var pickerTerm: string
    var pickerSelection: string

    /** The page opens with the center's approved ids, the initial requests, and no picker. */
    constructor(approved: seq<string>, initialRequests: seq<Order>)
      ensures approvedCourseIds == approved && requests == initialRequests
      ensures addStudentsTarget.None? && pickerTerm == "" && pickerSelection == ""
    {
      approvedCourseIds := approved;
      requests := initialRequests;
      addStudentsTarget := None;
      pickerTerm := "";
      pickerSelection := "";
    }

    /**
     * `handleApprove(id)`: with no request of that id nothing changes;
     * otherwise the course of the first such request is added to the
     * approved ids and every request with that id is removed.
     */
    method Approve(orderId: string) returns (approvedOrder: Option<Order>)
      modifies this
      ensures approvedOrder == Find(old(requests), HasId(orderId))
      ensures approvedOrder.None? ==> approvedCourseIds == old(approvedCourseIds) && requests == old(requests)
      ensures approvedOrder.Some? ==>
                && approvedCourseIds == old(approvedCourseIds) + [approvedOrder.value.courseId]
                && requests == WithoutRequest(old(requests), orderId)
      ensures addStudentsTarget == old(addStudentsTarget) && pickerTerm == old(pickerTerm)
      ensures pickerSelection == old(pickerSelection)
    {
      approvedOrder := Find(requests, HasId(orderId));
      if approvedOrder.None? {
        return;
      }
      approvedCourseIds := approvedCourseIds + [approvedOrder.value.courseId];
      requests := WithoutRequest(requests, orderId);
    }

    /** `handleDecline(id)`: once confirmed, every request with that id is removed. */
    method Decline(orderId: string, confirmed: bool)
      modifies this
      ensures !confirmed ==> requests == old(requests)
      ensures confirmed ==> requests == WithoutRequest(old(requests), orderId)
      ensures approvedCourseIds == old(approvedCourseIds) && addStudentsTarget == old(addStudentsTarget)
      ensures pickerTerm == old(pickerTerm) && pickerSelection == old(pickerSelection)
    {
      if confirmed {
        requests := WithoutRequest(requests, orderId);
      }
    }

    /** A slot's "add learner" button opens a fresh picker for that course. */
    method OpenPicker(c: Course)
      modifies this
      ensures addStudentsTarget == Some(c) && pickerTerm == "" && pickerSelection == ""
      ensures approvedCourseIds == old(approvedCourseIds) && requests == old(requests)
    {
      addStudentsTarget := Some(c);
      pickerTerm := "";
      pickerSelection := "";
    }

    method SetPickerTerm(term: string)
      requires addStudentsTarget.Some?
      modifies this
      ensures pickerTerm == term && pickerSelection == old(pickerSelection)
      ensures addStudentsTarget == old(addStudentsTarget)
      ensures approvedCourseIds == old(approvedCourseIds) && requests == old(requests)
    {
      pickerTerm := term;
    }

    /** Clicking a listed learner selects them. */
    method PickLearner(id: string)
      requires addStudentsTarget.Some?
      modifies this
      ensures pickerSelection == id && pickerTerm == old(pickerTerm)
      ensures addStudentsTarget == old(addStudentsTarget)
      ensures approvedCourseIds == old(approvedCourseIds) && requests == old(requests)
    {
      pickerSelection := id;
    }

    /** Cancel closes the picker. */
    method ClosePicker()
      modifies this
      ensures addStudentsTarget.None? && pickerTerm == old(pickerTerm) && pickerSelection == old(pickerSelection)
      ensures approvedCourseIds == old(approvedCourseIds) && requests == old(requests)
    {
      addStudentsTarget := None;
    }

    /**
     * `handleConfirm`: with no learner selected nothing happens; otherwise
     * the selected learner is looked up in the pool (for the announcement)
     * and the picker closes. The roster itself is not changed.
     */
    method ConfirmPicker(pool: seq<Student>) returns (added: Option<Student>)
      requires addStudentsTarget.Some?
      modifies this
      ensures pickerSelection == "" ==> added.None? && addStudentsTarget == old(addStudentsTarget)
      ensures pickerSelection != "" ==> addStudentsTarget.None?
      ensures added.Some? ==> added.value in pool && added.value.id == pickerSelection
      ensures pickerSelection != "" && added.None? ==> forall i :: 0 <= i < |pool| ==> pool[i].id != pickerSelection
      ensures pickerTerm == old(pickerTerm) && pickerSelection == old(pickerSelection)
      ensures approvedCourseIds == old(approvedCourseIds) && requests == old(requests)
    {
      if pickerSelection == "" {
        added := None;
        return;
      }
      var sel := pickerSelection;
      added := Find(pool, (s: Student) => s.id == sel);
      addStudentsTarget := None;
    }
  }
}
