/**
 * The exam control view: saving a builder's questions into the catalog as
 * the target module's exam, toggling whether a module's exam is published,
 * and the searchable list of modules the view shows.
 */
module ExamControl {
  import opened Options
  import opened Seqs
  import opened Text
  import opened Domain

  /** The module whose exam is open in the builder (`editingContext`). */
  datatype EditingContext = EditingContext(courseId: string, moduleId: string)

  predicate IsQuizLesson(l: Lesson) {
    l.kind == Quiz
  }

  /** `lessons.findIndex(l => l.type === 'quiz')`: the lesson the view treats as the module's exam. */
  function FirstQuizIndex(lessons: seq<Lesson>): Option<nat> {
    FindIndex(lessons, IsQuizLesson)
  }

  /** The number of quiz-type lessons. */
  function QuizCount(lessons: seq<Lesson>): nat {
    if lessons == [] then 0
    else (if IsQuizLesson(lessons[0]) then 1 else 0) + QuizCount(lessons[1..])
  }

  /** The lesson created when a module has no quiz yet; `stamp` stands for `Date.now()`. */
  function AssessmentLesson(stamp: string, qs: seq<QuizQuestion>): Lesson {
    Lesson("quiz-" + stamp, "Module Assessment", Quiz, true, None, Some(qs))
  }

  /**
   * Find or create the exam: the first quiz lesson gets the questions and
   * is published, and nothing else changes; a module without one gets a
   * published "Module Assessment" lesson at the end. Either way the
   * module's exam afterwards holds `qs` and is published.
   */
  function SaveIntoLessons(lessons: seq<Lesson>, qs: seq<QuizQuestion>, stamp: string): (r: seq<Lesson>)
    ensures FirstQuizIndex(lessons).Some? ==>
              var k := FirstQuizIndex(lessons).value;
              && |r| == |lessons|
              && r[k] == lessons[k].(quiz := Some(qs), isPublished := true)
              && forall j :: 0 <= j < |r| && j != k ==> r[j] == lessons[j]
    ensures FirstQuizIndex(lessons).None? ==> r == lessons + [AssessmentLesson(stamp, qs)]
    ensures FirstQuizIndex(r).Some?
    ensures var k := FirstQuizIndex(r).value; r[k].quiz == Some(qs) && r[k].isPublished
  {
    match FirstQuizIndex(lessons)
    case Some(k) =>
      var r := lessons[k := lessons[k].(quiz := Some(qs), isPublished := true)];
      assert IsQuizLesson(r[k]);
      r
    case None =>
      var r := lessons + [AssessmentLesson(stamp, qs)];
      assert IsQuizLesson(r[|lessons|]);
      r
  }

  /** Replacing a lesson by one of the same type keeps the number of quiz lessons. */
  lemma {:induction false} QuizCountUpdate(lessons: seq<Lesson>, k: nat, l: Lesson)
    requires k < |lessons| && l.kind == lessons[k].kind
    ensures QuizCount(lessons[k := l]) == QuizCount(lessons)
  {
    if k > 0 {
      assert lessons[k := l][1..] == lessons[1..][k - 1 := l];
      QuizCountUpdate(lessons[1..], k - 1, l);
    } else {
      assert lessons[k := l][1..] == lessons[1..];
    }
  }

  lemma {:induction false} QuizCountAppend(lessons: seq<Lesson>, l: Lesson)
    ensures QuizCount(lessons + [l]) == QuizCount(lessons) + (if IsQuizLesson(l) then 1 else 0)
  {
    if lessons == [] {
      assert [l][1..] == [];
    } else {
      assert (lessons + [l])[1..] == lessons[1..] + [l];
      QuizCountAppend(lessons[1..], l);
    }
  }

  lemma {:induction false} QuizCountZero(lessons: seq<Lesson>)
    ensures QuizCount(lessons) == 0 <==> FirstQuizIndex(lessons).None?
  {
    if lessons != [] {
      QuizCountZero(lessons[1..]);
      if FirstQuizIndex(lessons[1..]).Some? {
        var k := FirstQuizIndex(lessons[1..]).value;
        assert IsQuizLesson(lessons[k + 1]);
      }
    }
  }

  /**
   * Saving an exam never adds a second quiz lesson: a module that had none
   * ends with exactly one, and one that had some keeps their number.
   */
  lemma SaveKeepsOneExam(lessons: seq<Lesson>, qs: seq<QuizQuestion>, stamp: string)
    ensures QuizCount(SaveIntoLessons(lessons, qs, stamp)) == if QuizCount(lessons) == 0 then 1 else QuizCount(lessons)
  {
    QuizCountZero(lessons);
    match FirstQuizIndex(lessons)
    case Some(k) =>
      QuizCountUpdate(lessons, k, lessons[k].(quiz := Some(qs), isPublished := true));
    case None =>
      QuizCountAppend(lessons, AssessmentLesson(stamp, qs));
  }

  /** A second save into the same module overwrites the first: the later questions win. */
  lemma SaveIntoLessonsLastWins(lessons: seq<Lesson>, qs1: seq<QuizQuestion>, qs2: seq<QuizQuestion>, s1: string, s2: string)
    ensures SaveIntoLessons(SaveIntoLessons(lessons, qs1, s1), qs2, s2) == SaveIntoLessons(lessons, qs2, s1)
  {
    var once := SaveIntoLessons(lessons, qs1, s1);
    match FirstQuizIndex(lessons)
    case Some(k) =>
      assert FirstQuizIndex(once) == Some(k) by {
        assert forall j :: 0 <= j < k ==> once[j] == lessons[j];
      }
    case None =>
      var n := |lessons|;
      assert FirstQuizIndex(once) == Some(n) by {
        assert forall j :: 0 <= j < n ==> once[j] == lessons[j];
      }
  }

  function SaveIntoModules(modules: seq<Module>, moduleId: string, qs: seq<QuizQuestion>, stamp: string): (r: seq<Module>)
    ensures |r| == |modules|
    ensures forall j :: 0 <= j < |r| && modules[j].id != moduleId ==> r[j] == modules[j]
    ensures forall j :: 0 <= j < |r| && modules[j].id == moduleId ==>
              r[j] == modules[j].(lessons := SaveIntoLessons(modules[j].lessons, qs, stamp))
  {
    seq(|modules|, j requires 0 <= j < |modules| =>
      if modules[j].id != moduleId then modules[j]
      else modules[j].(lessons := SaveIntoLessons(modules[j].lessons, qs, stamp)))
  }

  /**
   * `handleSaveQuiz`: without an open builder nothing changes; otherwise
   * only the modules with the context's id inside the courses with the
   * context's id are rewritten, and the catalog keeps its length and order.
   */
  function SaveQuiz(courses: seq<Course>, ctx: Option<EditingContext>, qs: seq<QuizQuestion>, stamp: string): (r: seq<Course>)
    ensures ctx.None? ==> r == courses
    ensures |r| == |courses|
    ensures forall i :: 0 <= i < |r| && (ctx.None? || courses[i].id != ctx.value.courseId) ==> r[i] == courses[i]
    ensures forall i :: 0 <= i < |r| && ctx.Some? && courses[i].id == ctx.value.courseId ==>
              r[i] == courses[i].(modules := SaveIntoModules(courses[i].modules, ctx.value.moduleId, qs, stamp))
  {
    match ctx
    case None => courses
    case Some(EditingContext(courseId, moduleId)) =>
      seq(|courses|, i requires 0 <= i < |courses| =>
        if courses[i].id != courseId then courses[i]
        else courses[i].(modules := SaveIntoModules(courses[i].modules, moduleId, qs, stamp)))
  }

  /** Saving the same module's exam twice leaves the catalog as the second save alone would. */
  lemma SaveQuizLastWins(courses: seq<Course>, ctx: Option<EditingContext>, qs1: seq<QuizQuestion>, qs2: seq<QuizQuestion>, s1: string, s2: string)
    ensures SaveQuiz(SaveQuiz(courses, ctx, qs1, s1), ctx, qs2, s2) == SaveQuiz(courses, ctx, qs2, s1)
  {
    if ctx.Some? {
      var once := SaveQuiz(courses, ctx, qs1, s1);
      var twice := SaveQuiz(once, ctx, qs2, s2);
      var direct := SaveQuiz(courses, ctx, qs2, s1);
      forall i | 0 <= i < |courses| ensures twice[i] == direct[i] {
        if courses[i].id == ctx.value.courseId {
          var ms := courses[i].modules;
          var m1 := SaveIntoModules(ms, ctx.value.moduleId, qs1, s1);
          var m2 := SaveIntoModules(m1, ctx.value.moduleId, qs2, s2);
          var md := SaveIntoModules(ms, ctx.value.moduleId, qs2, s1);
          forall j | 0 <= j < |ms| ensures m2[j] == md[j] {
            if ms[j].id == ctx.value.moduleId {
              SaveIntoLessonsLastWins(ms[j].lessons, qs1, qs2, s1, s2);
            }
          }
          assert m2 == md;
        }
      }
    }
  }

  /** Saving the same questions twice gives the same catalog as saving them once. */
  lemma SaveQuizIdempotent(courses: seq<Course>, ctx: Option<EditingContext>, qs: seq<QuizQuestion>, s1: string, s2: string)
    ensures SaveQuiz(SaveQuiz(courses, ctx, qs, s1), ctx, qs, s2) == SaveQuiz(courses, ctx, qs, s1)
  {
    SaveQuizLastWins(courses, ctx, qs, qs, s1, s2);
  }

  /** The exam page's state: the catalog and the module whose builder is open, if any. */
  datatype ExamPage = ExamPage(courses: seq<Course>, editing: Option<EditingContext>)

  /**
   * `handleSaveQuiz` on the whole page: with no builder open nothing
   * changes; otherwise the catalog takes the save and the builder closes
   * (`setEditingContext(null)`).
   */
  function SavePage(page: ExamPage, qs: seq<QuizQuestion>, stamp: string): (r: ExamPage)
    ensures page.editing.None? ==> r == page
    ensures page.editing.Some? ==> r.courses == SaveQuiz(page.courses, page.editing, qs, stamp)
    ensures r.editing.None?
  {
    if page.editing.None? then page
    else ExamPage(SaveQuiz(page.courses, page.editing, qs, stamp), None)
  }

  /** The save closes the builder, so a repeated save (a double submit) leaves the page as the first save left it. */
  lemma SavePageTwice(page: ExamPage, qs1: seq<QuizQuestion>, qs2: seq<QuizQuestion>, s1: string, s2: string)
    ensures SavePage(SavePage(page, qs1, s1), qs2, s2) == SavePage(page, qs1, s1)
  {
  }

  /** Every quiz lesson flips its published flag; other lessons are untouched. */
  function FlipQuizLessons(lessons: seq<Lesson>): (r: seq<Lesson>)
    ensures |r| == |lessons|
    ensures forall j :: 0 <= j < |r| && !IsQuizLesson(lessons[j]) ==> r[j] == lessons[j]
    ensures forall j :: 0 <= j < |r| && IsQuizLesson(lessons[j]) ==>
              r[j] == lessons[j].(isPublished := !lessons[j].isPublished)
  {
    seq(|lessons|, j requires 0 <= j < |lessons| =>
      if IsQuizLesson(lessons[j]) then lessons[j].(isPublished := !lessons[j].isPublished) else lessons[j])
  }

  function FlipInModules(modules: seq<Module>, moduleId: string): (r: seq<Module>)
    ensures |r| == |modules|
    ensures forall j :: 0 <= j < |r| && modules[j].id != moduleId ==> r[j] == modules[j]
    ensures forall j :: 0 <= j < |r| && modules[j].id == moduleId ==>
              r[j] == modules[j].(lessons := FlipQuizLessons(modules[j].lessons))
  {
    seq(|modules|, j requires 0 <= j < |modules| =>
      if modules[j].id != moduleId then modules[j]
      else modules[j].(lessons := FlipQuizLessons(modules[j].lessons)))
  }

  /**
   * `togglePublish`: without edit permission nothing changes; otherwise
   * inside the target modules of the target courses every quiz-type lesson
   * flips, and every other course, module and lesson is unchanged.
   */
  function TogglePublish(courses: seq<Course>, canEdit: bool, courseId: string, moduleId: string): (r: seq<Course>)
    ensures !canEdit ==> r == courses
    ensures |r| == |courses|
    ensures forall i :: 0 <= i < |r| && courses[i].id != courseId ==> r[i] == courses[i]
    ensures forall i :: 0 <= i < |r| && canEdit && courses[i].id == courseId ==>
              r[i] == courses[i].(modules := FlipInModules(courses[i].modules, moduleId))
  {
    if !canEdit then courses
    else
      seq(|courses|, i requires 0 <= i < |courses| =>
        if courses[i].id != courseId then courses[i]
        else courses[i].(modules := FlipInModules(courses[i].modules, moduleId)))
  }

  /** Toggling twice restores the catalog. */
  lemma TogglePublishTwice(courses: seq<Course>, canEdit: bool, courseId: string, moduleId: string)
    ensures TogglePublish(TogglePublish(courses, canEdit, courseId, moduleId), canEdit, courseId, moduleId) == courses
  {
    var once := TogglePublish(courses, canEdit, courseId, moduleId);
    var twice := TogglePublish(once, canEdit, courseId, moduleId);
    forall i | 0 <= i < |courses| ensures twice[i] == courses[i] {
      if canEdit && courses[i].id == courseId {
        var ms := courses[i].modules;
        var ms2 := FlipInModules(FlipInModules(ms, moduleId), moduleId);
        forall j | 0 <= j < |ms| ensures ms2[j] == ms[j] {
          if ms[j].id == moduleId {
            var ls := ms[j].lessons;
            assert FlipQuizLessons(FlipQuizLessons(ls)) == ls;
          }
        }
        assert ms2 == ms;
      }
    }
  }

  /** Whether the view lists modules of catalog courses or of the course behind a class. */
  datatype ManagementMode = CourseMode | ClassMode

  /** One card of the module grid: a module with the name and id of its course. */
  datatype ModuleRow = ModuleRow(courseModule: Module, courseName: string, courseId: string)

  /** `c.modules.map(m => ({ ...m, courseName: c.name, courseId: c.id }))`. */
  function RowsOfCourse(c: Course): (r: seq<ModuleRow>)
    ensures |r| == |c.modules|
    ensures forall j :: 0 <= j < |r| ==> r[j] == ModuleRow(c.modules[j], c.name, c.id)
  {
    seq(|c.modules|, j requires 0 <= j < |c.modules| => ModuleRow(c.modules[j], c.name, c.id))
  }

  /** The modules of every course, course by course, in catalog order. */
  function AllRows(courses: seq<Course>): seq<ModuleRow> {
    if courses == [] then []
    else AllRows(courses[..|courses| - 1]) + RowsOfCourse(courses[|courses| - 1])
  }

  /** Module `j` of course `i` of the catalog, as a row. */
  ghost predicate IsRowOf(courses: seq<Course>, row: ModuleRow, i: int, j: int) {
    0 <= i < |courses| && 0 <= j < |courses[i].modules|
    && row == ModuleRow(courses[i].modules[j], courses[i].name, courses[i].id)
  }

  /** The rows of the whole catalog are exactly its modules, each labelled with its own course. */
  lemma {:induction false} AllRowsMembership(courses: seq<Course>, row: ModuleRow)
    ensures row in AllRows(courses) <==> exists i, j :: IsRowOf(courses, row, i, j)
  {
    if courses != [] {
      var n := |courses| - 1;
      var init := courses[..n];
      AllRowsMembership(init, row);
      assert forall i, j :: IsRowOf(init, row, i, j) ==> IsRowOf(courses, row, i, j);
      if row in RowsOfCourse(courses[n]) {
        var j :| 0 <= j < |courses[n].modules| && RowsOfCourse(courses[n])[j] == row;
        assert IsRowOf(courses, row, n, j);
      }
      if exists i, j :: IsRowOf(courses, row, i, j) {
        var i, j :| IsRowOf(courses, row, i, j);
        if i < n {
          assert IsRowOf(init, row, i, j);
        } else {
          assert RowsOfCourse(courses[n])[j] == row;
        }
      }
    }
  }

  /** The `forEach`/`push` loop over every module of every course. */
  method CollectAllRows(courses: seq<Course>) returns (rows: seq<ModuleRow>)
    ensures rows == AllRows(courses)
  {
    rows := [];
    var i := 0;
    while i < |courses|
      invariant 0 <= i <= |courses|
      invariant rows == AllRows(courses[..i])
    {
      var c := courses[i];
      var j := 0;
      while j < |c.modules|
        invariant 0 <= j <= |c.modules|
        invariant rows == AllRows(courses[..i]) + RowsOfCourse(c)[..j]
      {
        rows := rows + [ModuleRow(c.modules[j], c.name, c.id)];
        j := j + 1;
      }
      assert courses[..i + 1][..i] == courses[..i];
      i := i + 1;
    }
    assert courses[..i] == courses;
  }

  /** The modules the view starts from before the search filter, by mode and selection. */
  function BaseRows(mode: ManagementMode, selectedId: string, courses: seq<Course>, classes: seq<ClassGroup>): seq<ModuleRow> {
    match mode
    case CourseMode =>
      if selectedId == "all" then AllRows(courses)
      else (match Find(courses, (c: Course) => c.id == selectedId)
            case Some(c) => RowsOfCourse(c)
            case None => [])
    case ClassMode =>
      match Find(classes, (cl: ClassGroup) => cl.id == selectedId)
      case Some(cls) =>
        (match Find(courses, (c: Course) => c.id == cls.courseId)
         case Some(c) => RowsOfCourse(c)
         case None => [])
      case None => if selectedId == "all" then AllRows(courses) else []
  }

  /** The search box: the module title or its course name contains the term, case-insensitively. */
  predicate RowMatches(row: ModuleRow, term: string) {
    Contains(Lower(row.courseModule.title), Lower(term)) || Contains(Lower(row.courseName), Lower(term))
  }

  /** `filteredModules`: the base rows that match the search term, in order. */
  method FilteredModules(mode: ManagementMode, selectedId: string, courses: seq<Course>, classes: seq<ClassGroup>, term: string)
    returns (rows: seq<ModuleRow>)
    ensures rows == Filter(BaseRows(mode, selectedId, courses, classes), (row: ModuleRow) => RowMatches(row, term))
  {
    var base: seq<ModuleRow> := [];
    if mode == CourseMode {
      if selectedId == "all" {
        base := CollectAllRows(courses);
      } else {
        var c := Find(courses, (c: Course) => c.id == selectedId);
        if c.Some? {
          base := RowsOfCourse(c.value);
        }
      }
    } else {
      var cls := Find(classes, (cl: ClassGroup) => cl.id == selectedId);
      if cls.Some? {
        var c := Find(courses, (c: Course) => c.id == cls.value.courseId);
        if c.Some? {
          base := RowsOfCourse(c.value);
        }
      } else if selectedId == "all" {
        base := CollectAllRows(courses);
      }
    }
    rows := Filter(base, (row: ModuleRow) => RowMatches(row, term));
  }

  /** With every course selected and an empty search, the grid shows every module of the catalog, in order. */
  lemma EmptySearchShowsAll(courses: seq<Course>, classes: seq<ClassGroup>)
    ensures Filter(BaseRows(CourseMode, "all", courses, classes), (row: ModuleRow) => RowMatches(row, "")) == AllRows(courses)
  {
    var rows := AllRows(courses);
    forall k | 0 <= k < |rows| ensures RowMatches(rows[k], "") {
      ContainsEmpty(Lower(rows[k].courseModule.title));
    }
    FilterAll(rows, (row: ModuleRow) => RowMatches(row, ""));
  }
}
