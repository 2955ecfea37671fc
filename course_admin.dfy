/**
 * The course administration view: the catalog with its search and filters,
 * creating and deleting courses (written to storage at once), and the
 * course editor, whose module, lesson and metadata changes are staged on
 * an edited copy of one course until "save" writes it into the catalog.
 */
module CourseAdmin {
  import opened Options
  import opened Seqs
  import opened Text
  import opened Domain

  const Thumbnail := "https://images.unsplash.com/photo-1516321318423-f06f85e504b3?q=80&w=800&auto=format&fit=crop"

  /** The nine templates the new-course dialog offers. */
  const Templates: seq<string> := [
    "Starter Level 1", "Starter Level 2", "Starter Level 3", "Starter Level 4",
    "Mover Level 1", "Mover Level 2", "Mover Level 3", "Mover Level 4", "Mover Level 5"]

  /** The program a template belongs to. */
  function TemplateCategory(template: string): string {
    if Contains(template, "Starter") then "Starter Program" else "Mover Program"
  }

  /**
   * The course the new-course dialog seeds: one module holding one
   * published video lesson, the level taken from the template and the
   * program from whether the template mentions "Starter". `stamp` stands
   * for `Date.now()` and `now` for the ISO timestamp.
   */
  function SeedCourse(name: string, template: string, stamp: string, now: string): (c: Course)
    ensures c.name == name && c.level == template && c.lastUpdated == now
    ensures c.category == TemplateCategory(template)
    ensures |c.modules| == 1 && |c.modules[0].lessons| == 1
    ensures c.modules[0].lessons[0].kind == Video && c.modules[0].lessons[0].isPublished
  {
    var lesson := Lesson("l1-" + stamp, "Welcome to the Course", Video, true, None, None);
    var intro := Module("m1-" + stamp, "Introduction & Basics", [lesson]);
    Course(
      "course-" + stamp, name, true, Thumbnail,
      "Official " + template + " curriculum module for U Book Store learners.",
      TemplateCategory(template), template, "15 Hours", now, [intro])
  }

  /** `NewCourseModal.handleCreate`: a blank name creates nothing; any other name creates the seeded course. */
  function NewCourse(name: string, template: string, stamp: string, now: string): (r: Option<Course>)
    ensures r.None? <==> IsBlank(name)
    ensures r.Some? ==> r.value == SeedCourse(name, template, stamp, now)
  {
    if IsBlank(name) then None else Some(SeedCourse(name, template, stamp, now))
  }

  /** Every offered template files its course under the program its name starts with. */
  lemma TemplatePrograms()
    ensures forall i :: 0 <= i < 4 ==> TemplateCategory(Templates[i]) == "Starter Program"
    ensures forall i :: 4 <= i < |Templates| ==> TemplateCategory(Templates[i]) == "Mover Program"
  {
    forall i | 0 <= i < 4 ensures TemplateCategory(Templates[i]) == "Starter Program" {
      assert OccursAt(Templates[i], "Starter", 0);
    }
    forall i | 4 <= i < |Templates| ensures TemplateCategory(Templates[i]) == "Mover Program" {
      MissingFirstCharNotContained(Templates[i], "Starter");
    }
  }

  /** `handleCreateNewCourse`: the new course goes to the front of the catalog. */
  function Prepend(catalog: seq<Course>, c: Course): (r: seq<Course>)
    ensures |r| == |catalog| + 1 && r[0] == c && r[1..] == catalog
  {
    [c] + catalog
  }

  /**
   * `handleManualSave`: with nothing open the catalog is unchanged;
   * otherwise every course with the edited course's id is replaced by the
   * edited copy stamped with `now`, every other course is kept, and the
   * catalog keeps its length, order and ids.
   */
  function ManualSave(catalog: seq<Course>, editing: Option<Course>, now: string): (r: seq<Course>)
    ensures editing.None? ==> r == catalog
    ensures |r| == |catalog|
    ensures forall i :: 0 <= i < |r| ==> r[i].id == catalog[i].id
    ensures forall i :: 0 <= i < |r| && (editing.None? || catalog[i].id != editing.value.id) ==> r[i] == catalog[i]
    ensures forall i :: 0 <= i < |r| && editing.Some? && catalog[i].id == editing.value.id ==>
              r[i] == editing.value.(lastUpdated := now)
  {
    match editing
    case None => catalog
    case Some(e) =>
      seq(|catalog|, i requires 0 <= i < |catalog| =>
        if catalog[i].id == e.id then e.(lastUpdated := now) else catalog[i])
  }

  /**
   * `handleDeleteCourse`: without delete permission or confirmation nothing
   * changes; otherwise exactly the courses with that id go and the rest
   * keep their order.
   */
  function DeleteCourse(catalog: seq<Course>, id: string, canDelete: bool, confirmed: bool): (r: seq<Course>)
    ensures !(canDelete && confirmed) ==> r == catalog
    ensures canDelete && confirmed ==> forall i :: 0 <= i < |r| ==> r[i].id != id
    ensures forall i :: 0 <= i < |catalog| && catalog[i].id != id ==> catalog[i] in r
    ensures forall i :: 0 <= i < |r| ==> r[i] in catalog
    ensures IsSubseq(r, catalog)
    ensures canDelete && confirmed ==>
              forall c :: multiset(r)[c] == if c.id != id then multiset(catalog)[c] else 0
  {
    if canDelete && confirmed then
      Filter(catalog, (c: Course) => c.id != id)
    else
      SubseqRefl(catalog);
      catalog
  }

  /** The n-th module's default title, "Module n". */
  function ModuleTitle(n: nat): string {
    "Module " + NatToString(n)
  }

  /**
   * `handleAddModule` on the edited copy: one module titled after its
   * position ("Module n+1" for a course with n modules) with no lessons is
   * appended, and the rest of the course is unchanged.
   */
  function WithModuleAdded(c: Course, stamp: string): (r: Course)
    ensures |r.modules| == |c.modules| + 1 && r.modules[..|c.modules|] == c.modules
    ensures r.modules[|c.modules|].title == ModuleTitle(|c.modules| + 1)
    ensures r.modules[|c.modules|].lessons == []
    ensures r.(modules := c.modules) == c
  {
    c.(modules := c.modules + [Module("m" + stamp, ModuleTitle(|c.modules| + 1), [])])
  }

  /** Modules added one after another get different titles. */
  lemma AddedModuleTitlesDiffer(c: Course, s1: string, s2: string)
    ensures var c2 := WithModuleAdded(WithModuleAdded(c, s1), s2);
            c2.modules[|c.modules|].title != c2.modules[|c.modules| + 1].title
  {
    var n := |c.modules|;
    var c1 := WithModuleAdded(c, s1);
    var c2 := WithModuleAdded(c1, s2);
    assert c2.modules[n] == c1.modules[n];
    if ModuleTitle(n + 1) == ModuleTitle(n + 2) {
      assert NatToString(n + 1) == ModuleTitle(n + 1)[7..];
      assert NatToString(n + 2) == ModuleTitle(n + 2)[7..];
      NatToStringInjective(n + 1, n + 2);
    }
  }

  /** The lesson "add lesson" creates: titled "New " and the upper-cased type, and published. */
  function NewLesson(kind: LessonType, stamp: string): Lesson {
    Lesson("l" + stamp, "New " + Upper(kind.Name()), kind, true, None, None)
  }

  /** `handleAddLesson` on the edited copy: the new lesson goes at the end of module `mIdx` only. */
  function WithLessonAdded(c: Course, mIdx: nat, kind: LessonType, stamp: string): (r: Course)
    requires mIdx < |c.modules|
    ensures |r.modules| == |c.modules|
    ensures r.modules[mIdx].lessons == c.modules[mIdx].lessons + [NewLesson(kind, stamp)]
    ensures r.modules[mIdx].(lessons := c.modules[mIdx].lessons) == c.modules[mIdx]
    ensures forall j :: 0 <= j < |c.modules| && j != mIdx ==> r.modules[j] == c.modules[j]
    ensures r.(modules := c.modules) == c
  {
    var m := c.modules[mIdx];
    c.(modules := c.modules[mIdx := m.(lessons := m.lessons + [NewLesson(kind, stamp)])])
  }

  /** The fields a lesson editor hands back (`Partial<Lesson>`); `None` leaves the field as it was. */
  datatype LessonPatch = LessonPatch(
    title: Option<string>,
    isPublished: Option<bool>,
    content: Option<string>,
    quiz: Option<seq<QuizQuestion>>)

  /** `{ ...lesson, ...data }`: fields given in the patch win; id and type never change. */
  function MergeLesson(l: Lesson, p: LessonPatch): (r: Lesson)
    ensures r.id == l.id && r.kind == l.kind
    ensures r.title == p.title.GetOr(l.title) && r.isPublished == p.isPublished.GetOr(l.isPublished)
    ensures r.content == (if p.content.Some? then p.content else l.content)
    ensures r.quiz == (if p.quiz.Some? then p.quiz else l.quiz)
  {
    l.(title := p.title.GetOr(l.title),
       isPublished := p.isPublished.GetOr(l.isPublished),
       content := if p.content.Some? then p.content else l.content,
       quiz := if p.quiz.Some? then p.quiz else l.quiz)
  }

  /** Applying the same patch twice is the same as applying it once. */
  lemma MergeLessonIdempotent(l: Lesson, p: LessonPatch)
    ensures MergeLesson(MergeLesson(l, p), p) == MergeLesson(l, p)
  {
  }

  /** The lesson-editor callback: the patch lands on lesson `lIdx` of module `mIdx`, and nowhere else. */
  function WithLessonUpdated(c: Course, mIdx: nat, lIdx: nat, p: LessonPatch): (r: Course)
    requires mIdx < |c.modules| && lIdx < |c.modules[mIdx].lessons|
    ensures |r.modules| == |c.modules| && |r.modules[mIdx].lessons| == |c.modules[mIdx].lessons|
    ensures r.modules[mIdx].lessons[lIdx] == MergeLesson(c.modules[mIdx].lessons[lIdx], p)
    ensures forall k :: 0 <= k < |c.modules[mIdx].lessons| && k != lIdx ==>
              r.modules[mIdx].lessons[k] == c.modules[mIdx].lessons[k]
    ensures forall j :: 0 <= j < |c.modules| && j != mIdx ==> r.modules[j] == c.modules[j]
    ensures r.modules[mIdx].(lessons := c.modules[mIdx].lessons) == c.modules[mIdx]
    ensures r.(modules := c.modules) == c
  {
    var m := c.modules[mIdx];
    var l := m.lessons[lIdx];
    c.(modules := c.modules[mIdx := m.(lessons := m.lessons[lIdx := MergeLesson(l, p)])])
  }

  /** The fields the metadata editor hands back (`Partial<Course>`). */
  datatype CoursePatch = CoursePatch(
    name: Option<string>,
    category: Option<string>,
    level: Option<string>,
    description: Option<string>,
    thumbnail: Option<string>)

  /** `{ ...editingCourse, ...data }` for the metadata patch: id, modules and timestamps stay. */
  function MergeCourse(c: Course, p: CoursePatch): (r: Course)
    ensures r.id == c.id && r.modules == c.modules && r.lastUpdated == c.lastUpdated
    ensures r.name == p.name.GetOr(c.name) && r.category == p.category.GetOr(c.category)
    ensures r.level == p.level.GetOr(c.level) && r.description == p.description.GetOr(c.description)
    ensures r.thumbnail == p.thumbnail.GetOr(c.thumbnail)
  {
    c.(name := p.name.GetOr(c.name), category := p.category.GetOr(c.category),
       level := p.level.GetOr(c.level), description := p.description.GetOr(c.description),
       thumbnail := p.thumbnail.GetOr(c.thumbnail))
  }

  function CategoriesOf(catalog: seq<Course>): (r: seq<string>)
    ensures |r| == |catalog| && forall i :: 0 <= i < |r| ==> r[i] == catalog[i].category
  {
    seq(|catalog|, i requires 0 <= i < |catalog| => catalog[i].category)
  }

  /** A category that is set: `c.category` is truthy. */
  predicate NonEmpty(x: string) {
    x != ""
  }

  /**
   * `new Set(categories.filter(Boolean))` spread into a list: every non-empty
   * string of `all` once, in order of its first occurrence in `all`.
   */
  function PresentCategories(all: seq<string>): (d: seq<string>)
    ensures forall x :: x in d <==> NonEmpty(x) && x in all
    ensures forall i, j :: 0 <= i < j < |d| ==> d[i] != d[j]
    ensures forall i, j :: 0 <= i < j < |d| ==> FirstBefore(all, d[i], d[j])
  {
    var present := Filter(all, NonEmpty);
    forall x ensures x in present <==> NonEmpty(x) && x in all {
      assert multiset(present)[x] == if NonEmpty(x) then multiset(all)[x] else 0;
    }
    var d := DistinctFrom(present, {});
    FilterDistinctOrder(all, NonEmpty, d);
    d
  }

  /** Some course of the catalog carries category `x`. */
  ghost predicate HasCategory(catalog: seq<Course>, x: string) {
    exists i :: 0 <= i < |catalog| && catalog[i].category == x
  }

  /** A string is one of the catalog's categories exactly when some course carries it. */
  lemma CategoriesOfMembers(catalog: seq<Course>)
    ensures forall x :: x in CategoriesOf(catalog) <==> HasCategory(catalog, x)
  {
    var all := CategoriesOf(catalog);
    forall x ensures x in all <==> HasCategory(catalog, x) {
      if x in all {
        var k :| 0 <= k < |all| && all[k] == x;
        assert catalog[k].category == x;
      }
      if HasCategory(catalog, x) {
        var k :| 0 <= k < |catalog| && catalog[k].category == x;
        assert all[k] == x;
      }
    }
  }

  /**
   * `categories`: "All Categories" followed by every non-empty category of
   * the catalog, each once, in order of first occurrence.
   */
  function Categories(catalog: seq<Course>): (r: seq<string>)
    ensures |r| >= 1 && r[0] == "All Categories"
    ensures forall x :: x in r[1..] <==> x != "" && HasCategory(catalog, x)
    ensures forall i, j :: 1 <= i < j < |r| ==> r[i] != r[j]
    ensures forall i, j :: 1 <= i < j < |r| ==> FirstBefore(CategoriesOf(catalog), r[i], r[j])
  {
    var all := CategoriesOf(catalog);
    var d := PresentCategories(all);
    var r := ["All Categories"] + d;
    assert r[1..] == d;
    HeaderKeepsOrder(all, "All Categories", d, r);
    CategoriesOfMembers(catalog);
    forall x ensures x in r[1..] <==> x != "" && HasCategory(catalog, x) {
      assert x in d <==> NonEmpty(x) && x in all;
    }
    r
  }

  /** The catalog search box: course name, or (non-empty) category, contains the term, case-insensitively. */
  predicate MatchesSearch(c: Course, term: string) {
    Contains(Lower(c.name), Lower(term)) || (c.category != "" && Contains(Lower(c.category), Lower(term)))
  }

  /** All three filters of the catalog view. */
  predicate CourseMatches(c: Course, term: string, levelFilter: string, categoryFilter: string) {
    && MatchesSearch(c, term)
    && (levelFilter == "All Levels" || c.level == levelFilter)
    && (categoryFilter == "All Categories" || c.category == categoryFilter)
  }

  /** `filteredCourses`: exactly the catalog's courses that pass all three filters, in catalog order. */
  function FilteredCourses(catalog: seq<Course>, term: string, levelFilter: string, categoryFilter: string): (r: seq<Course>)
    ensures forall i :: 0 <= i < |r| ==> r[i] in catalog && CourseMatches(r[i], term, levelFilter, categoryFilter)
    ensures forall i :: 0 <= i < |catalog| && CourseMatches(catalog[i], term, levelFilter, categoryFilter) ==> catalog[i] in r
    ensures IsSubseq(r, catalog)
    ensures forall c :: multiset(r)[c] ==
              if CourseMatches(c, term, levelFilter, categoryFilter) then multiset(catalog)[c] else 0
  {
    Filter(catalog, (c: Course) => CourseMatches(c, term, levelFilter, categoryFilter))
  }

  /** The view as it opens (empty search, all levels, all categories) lists the whole catalog. */
  lemma UnfilteredShowsAll(catalog: seq<Course>)
    ensures FilteredCourses(catalog, "", "All Levels", "All Categories") == catalog
  {
    forall i | 0 <= i < |catalog| ensures CourseMatches(catalog[i], "", "All Levels", "All Categories") {
      ContainsEmpty(Lower(catalog[i].name));
    }
    FilterAll(catalog, (c: Course) => CourseMatches(c, "", "All Levels", "All Categories"));
  }

  /**
   * The view's state: the catalog in memory, what storage holds under the
   * catalog key, the edited copy of one course, and the editor's cursors.
   */
  class CourseEditor {
    var courses: seq<Course>
    var stored: Option<seq<Course>>
    var editing: Option<Course>
    var activeModuleIdx: Option<nat>
    var activeLessonIdx: Option<nat>
    var editingMetadata: bool

    /** Loads the stored catalog, or the built-in one when storage holds none. */
    constructor(saved: Option<seq<Course>>, defaults: seq<Course>)
      ensures courses == saved.GetOr(defaults) && stored == saved
      ensures editing.None? && activeModuleIdx.None? && activeLessonIdx.None? && !editingMetadata
    {
      courses := saved.GetOr(defaults);
      stored := saved;
      editing := None;
      activeModuleIdx := None;
      activeLessonIdx := None;
      editingMetadata := false;
    }

    /** Opening a course from the catalog starts editing a copy of it, on its metadata. */
    method OpenCourse(c: Course)
      modifies this
      ensures editing == Some(c) && editingMetadata
      ensures courses == old(courses) && stored == old(stored)
      ensures activeModuleIdx == old(activeModuleIdx) && activeLessonIdx == old(activeLessonIdx)
    {
      editing := Some(c);
      editingMetadata := true;
    }

    /** Leaving the editor without saving drops the staged edits. */
    method Close()
      modifies this
      ensures editing.None? && courses == old(courses) && stored == old(stored)
      ensures activeModuleIdx == old(activeModuleIdx) && activeLessonIdx == old(activeLessonIdx)
      ensures editingMetadata == old(editingMetadata)
    {
      editing := None;
    }

    /** "Base Config": back to the metadata editor, no module or lesson selected. */
    method SelectMetadata()
      modifies this
      ensures editingMetadata && activeModuleIdx.None? && activeLessonIdx.None?
      ensures courses == old(courses) && stored == old(stored) && editing == old(editing)
    {
      editingMetadata := true;
      activeModuleIdx := None;
      activeLessonIdx := None;
    }

    /** Clicking module `mIdx` of the edited course. */
    method SelectModule(mIdx: nat)
      requires editing.Some? && mIdx < |editing.value.modules|
      modifies this
      ensures activeModuleIdx == Some(mIdx) && activeLessonIdx.None? && !editingMetadata
      ensures courses == old(courses) && stored == old(stored) && editing == old(editing)
    {
      activeModuleIdx := Some(mIdx);
      activeLessonIdx := None;
      editingMetadata := false;
    }

    /** Clicking lesson `lIdx` of module `mIdx` of the edited course. */
    method SelectLesson(mIdx: nat, lIdx: nat)
      requires editing.Some? && mIdx < |editing.value.modules| && lIdx < |editing.value.modules[mIdx].lessons|
      modifies this
      ensures activeModuleIdx == Some(mIdx) && activeLessonIdx == Some(lIdx) && !editingMetadata
      ensures courses == old(courses) && stored == old(stored) && editing == old(editing)
    {
      activeModuleIdx := Some(mIdx);
      activeLessonIdx := Some(lIdx);
      editingMetadata := false;
    }

    /**
     * `handleCreateNewCourse`, which the new-course dialog calls with the
     * course `NewCourse` built (never for a blank name): the course goes to
     * the front of the catalog and the catalog is stored.
     */
    method CreateCourse(newCourse: Course)
      modifies this
      ensures courses == Prepend(old(courses), newCourse) && stored == Some(courses)
      ensures editing == old(editing) && activeModuleIdx == old(activeModuleIdx)
      ensures activeLessonIdx == old(activeLessonIdx) && editingMetadata == old(editingMetadata)
    {
      courses := Prepend(courses, newCourse);
      stored := Some(courses);
    }

    /** "Save": the edited copy, stamped with `now`, replaces its course; the catalog is stored; the editor closes. */
    method Save(now: string)
      modifies this
      ensures old(editing).None? ==> courses == old(courses) && stored == old(stored) && editing.None?
      ensures old(editing).Some? ==> courses == ManualSave(old(courses), old(editing), now)
      ensures old(editing).Some? ==> stored == Some(courses) && editing.None?
      ensures activeModuleIdx == old(activeModuleIdx) && activeLessonIdx == old(activeLessonIdx)
      ensures editingMetadata == old(editingMetadata)
    {
      if editing.None? {
        return;
      }
      courses := ManualSave(courses, editing, now);
      stored := Some(courses);
      editing := None;
    }

    /** Deleting a course from the catalog is written to storage at once. */
    method Delete(id: string, canDelete: bool, confirmed: bool)
      modifies this
      ensures !(canDelete && confirmed) ==> courses == old(courses) && stored == old(stored)
      ensures canDelete && confirmed ==> courses == DeleteCourse(old(courses), id, true, true) && stored == Some(courses)
      ensures editing == old(editing) && activeModuleIdx == old(activeModuleIdx)
      ensures activeLessonIdx == old(activeLessonIdx) && editingMetadata == old(editingMetadata)
    {
      if !canDelete {
        return;
      }
      if confirmed {
        courses := DeleteCourse(courses, id, canDelete, confirmed);
        stored := Some(courses);
      }
    }

    /** `handleAddModule`: staged on the edited copy; the new module becomes the active one. */
    method AddModule(canEdit: bool, stamp: string)
      modifies this
      ensures courses == old(courses) && stored == old(stored)
      ensures (old(editing).None? || !canEdit) ==>
                editing == old(editing) && activeModuleIdx == old(activeModuleIdx)
                && activeLessonIdx == old(activeLessonIdx) && editingMetadata == old(editingMetadata)
      ensures old(editing).Some? && canEdit ==>
                && editing == Some(WithModuleAdded(old(editing).value, stamp))
                && activeModuleIdx == Some(|old(editing).value.modules|)
                && activeLessonIdx.None? && !editingMetadata
    {
      if editing.None? || !canEdit {
        return;
      }
      var c := editing.value;
      editing := Some(WithModuleAdded(c, stamp));
      activeModuleIdx := Some(|c.modules|);
      activeLessonIdx := None;
      editingMetadata := false;
    }

    /** The preconditions under which "add lesson" acts: an open course, an active module, permission. */
    predicate CanAddLesson(canEdit: bool)
      reads this
    {
      editing.Some? && activeModuleIdx.Some? && canEdit && activeModuleIdx.value < |editing.value.modules|
    }

    /**
     * `handleAddLesson(kind)`: staged on the active module of the edited
     * copy; the new lesson becomes the active one.
     */
    method AddLesson(kind: LessonType, canEdit: bool, stamp: string)
      modifies this
      ensures courses == old(courses) && stored == old(stored) && activeModuleIdx == old(activeModuleIdx)
      ensures !old(CanAddLesson(canEdit)) ==>
                editing == old(editing) && activeLessonIdx == old(activeLessonIdx) && editingMetadata == old(editingMetadata)
      ensures old(CanAddLesson(canEdit)) ==>
                var m := old(activeModuleIdx).value;
                && editing == Some(WithLessonAdded(old(editing).value, m, kind, stamp))
                && activeLessonIdx == Some(|old(editing).value.modules[m].lessons|)
                && !editingMetadata
    {
      if !CanAddLesson(canEdit) {
        return;
      }
      var c := editing.value;
      var m := activeModuleIdx.value;
      editing := Some(WithLessonAdded(c, m, kind, stamp));
      activeLessonIdx := Some(|c.modules[m].lessons|);
      editingMetadata := false;
    }

    /** A lesson is open in the lesson editor. */
    predicate HasActiveLesson()
      reads this
    {
      && editing.Some? && activeModuleIdx.Some? && activeLessonIdx.Some?
      && activeModuleIdx.value < |editing.value.modules|
      && activeLessonIdx.value < |editing.value.modules[activeModuleIdx.value].lessons|
    }

    /** The lesson editor's `onUpdate`: the patch is merged into the active lesson of the edited copy. */
    method UpdateLesson(p: LessonPatch)
      modifies this
      ensures courses == old(courses) && stored == old(stored)
      ensures activeModuleIdx == old(activeModuleIdx) && activeLessonIdx == old(activeLessonIdx)
      ensures editingMetadata == old(editingMetadata)
      ensures !old(HasActiveLesson()) ==> editing == old(editing)
      ensures old(HasActiveLesson()) ==>
                editing == Some(WithLessonUpdated(old(editing).value, old(activeModuleIdx).value, old(activeLessonIdx).value, p))
    {
      if !HasActiveLesson() {
        return;
      }
      editing := Some(WithLessonUpdated(editing.value, activeModuleIdx.value, activeLessonIdx.value, p));
    }

    /** The metadata editor's `onUpdate`: the patch is merged into the edited copy. */
    method UpdateMetadata(p: CoursePatch)
      modifies this
      ensures courses == old(courses) && stored == old(stored)
      ensures activeModuleIdx == old(activeModuleIdx) && activeLessonIdx == old(activeLessonIdx)
      ensures editingMetadata == old(editingMetadata)
      ensures old(editing).None? ==> editing.None?
      ensures old(editing).Some? ==> editing == Some(MergeCourse(old(editing).value, p))
    {
      if editing.None? {
        return;
      }
      editing := Some(MergeCourse(editing.value, p));
    }
  }

  /**
   * A walk through the editor: a course with no modules gets "Module 1",
   * then a published video lesson "New VIDEO" in it, and saving stamps the
   * course with the new time.
   */
  method AddModuleThenLessonThenSave(c: Course, stamp1: string, stamp2: string, now: string)
    returns (saved: seq<Course>)
    requires c.modules == []
    ensures |saved| == 1 && saved[0].id == c.id && saved[0].lastUpdated == now
    ensures |saved[0].modules| == 1 && saved[0].modules[0].title == "Module 1"
    ensures |saved[0].modules[0].lessons| == 1
    ensures saved[0].modules[0].lessons[0].kind == Video && saved[0].modules[0].lessons[0].isPublished
    ensures saved[0].modules[0].lessons[0].title == "New VIDEO"
  {
    var editor := new CourseEditor(Some([c]), []);
    editor.OpenCourse(c);
    editor.AddModule(true, stamp1);
    editor.AddLesson(Video, true, stamp2);
    editor.Save(now);
    saved := editor.courses;
  }
}
