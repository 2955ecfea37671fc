# Dashboard curriculum logic, modelled in Dafny

This project models the domain logic of four views of the U Book Store learning-center dashboard, a React/TypeScript single-page app:

- **Exam management** (`TestsView.tsx`). The model covers:
  - the `QuizBuilder` editing session, with its question list, its active-question cursor and the authoring bounds (at most 10 questions, 2 to 5 options each);
  - the "ready to save" test;
  - saving a quiz into its module, which finds or creates the exam lesson;
  - toggling whether a module's exam is published;
  - the searchable module grid.
- **Course administration** (`CoursesAdminView.tsx`). The model covers:
  - creating a course from a template;
  - the catalog search and its level and category filters;
  - the category list;
  - delete, which is written to storage at once;
  - the course editor. Its module, lesson and metadata changes stay on an edited copy until "save" writes that copy into the catalog.
- **Center detail** (`CenterDetailView.tsx`). The model covers:
  - approving and declining order requests;
  - splitting the center's courses into the Starter and Mover programs;
  - the learner roster built with `flatMap`;
  - the display ids `ST10001…` and `MV10001…`;
  - the learner picker.
- **Reports** (`ReportsView.tsx`). The model covers:
  - grade letters and the mastery badge;
  - the switch into individual-learner mode;
  - the filtered learner list;
  - the reset and tab-switch rules.

Layout:
- `options.dfy`, `seqs.dfy` and `text.dfy` model the JavaScript operations the views rely on:
  - `filter`, `find` and `findIndex`;
  - `slice` with clamped bounds;
  - `trim`, with ECMAScript's white-space set;
  - `includes` as substring search;
  - `toLowerCase` and `toUpperCase`;
  - number-to-decimal rendering.
- `domain.dfy` holds the records: Course → Module → Lesson → QuizQuestion, plus Student, ClassGroup and Order.
- Each view has its own module:
  - `quiz_editor.dfy` and `exam_control.dfy` for `TestsView.tsx`;
  - `course_admin.dfy`;
  - `center_detail.dfy`;
  - `reports.dfy`.

Where a view mutates state, the model follows it:
- the quiz builder, the course editor and the center page are classes whose methods update their fields;
- each method states the exact new state in terms of pure functions, and lemmas prove properties of those functions;
- the module-grid `forEach`/`push` loop is a method with loop invariants, proved equal to a recursive definition.

Inputs the views get from outside become parameters:
- `Date.now()` becomes `stamp`;
- `new Date().toISOString()` becomes `now`;
- the answers to `confirm(...)` and `checkPermission(...)` become booleans;
- the mock constants (`MOCK_COURSES`, student pools, classes) become sequences.

Optional fields the code tests only for truthiness are modelled with `""` or `None` as "absent".
- `togglePublish` is sometimes described as flipping "the" module's exam lesson. The code flips every quiz-type lesson of the target module (`TestsView.tsx:423`), and the model follows the code.

## Model

| member | source | states |
|---|---|---|
| Text.BlankIffAllSpace | components/views/TestsView.tsx:167 | `s.trim() === ''` holds exactly when every character of `s` is ECMAScript white space |
| QuizEditor.NotReadyIffBlankField | components/views/TestsView.tsx:167 | the quiz is not ready exactly when some question's text or some option consists only of white space |
| QuizEditor.WithOptionText | components/views/TestsView.tsx:271-276 | typing into an option replaces that option only; question text, id and correct answer are unchanged |
| QuizEditor.WithOptionRemoved | components/views/TestsView.tsx:278-285 | the option is removed and the correct answer is re-aligned; a surviving correct answer still names the same option text, and the 2..5 bound is kept |
| QuizEditor.QuizBuilder.constructor | components/views/TestsView.tsx:137-145 | the session starts on a copy of the given questions, or on one blank question with two empty options; the cursor is on question 0 |
| QuizEditor.QuizBuilder.AddQuestion | components/views/TestsView.tsx:146-152 | a blank question is appended and becomes active, unless 10 exist; the authoring bounds are preserved |
| QuizEditor.QuizBuilder.SelectQuestion | components/views/TestsView.tsx:207 | the clicked question becomes active and the questions are unchanged |
| QuizEditor.QuizBuilder.RemoveQuestion | components/views/TestsView.tsx:160-164 | removes the question at that index and moves the cursor back by one, not below 0; the last remaining question is never removed; the cursor stays valid |
| QuizEditor.QuizBuilder.SetQuestionText | components/views/TestsView.tsx:154-158 | only the active question's text changes |
| QuizEditor.QuizBuilder.SetOptionText | components/views/TestsView.tsx:271-276 | only the chosen option of the active question changes |
| QuizEditor.QuizBuilder.AddOption | components/views/TestsView.tsx:248-250 | an empty option is appended while fewer than 5 exist; otherwise nothing changes |
| QuizEditor.QuizBuilder.RemoveOption | components/views/TestsView.tsx:278-285 | the option is removed, with the correct answer re-aligned, only while more than 2 exist |
| QuizEditor.QuizBuilder.SetCorrectAnswer | components/views/TestsView.tsx:262 | the clicked option becomes the active question's correct answer |
| QuizEditor.QuizBuilder.Save | components/views/TestsView.tsx:167-184 | the questions are handed over exactly when every question and option is non-blank |
| ExamControl.SaveIntoLessons | components/views/TestsView.tsx:386-401 | the first quiz lesson takes the questions and is published, and nothing else changes; with no quiz lesson, a published "Module Assessment" is appended; afterwards the module's exam holds the questions |
| ExamControl.SaveKeepsOneExam | components/views/TestsView.tsx:387-399 | saving never adds a second quiz lesson: none becomes one, and some keep their count |
| ExamControl.SaveIntoLessonsLastWins | components/views/TestsView.tsx:387-399 | a second save into a module overwrites the first |
| ExamControl.SaveQuiz | components/views/TestsView.tsx:375-407 | with no editing context the catalog is unchanged; otherwise only the target module of the target course is rewritten |
| ExamControl.SaveQuizLastWins | components/views/TestsView.tsx:375-405 | two saves into the same module give the catalog one save of the later questions under the first save's lesson id |
| ExamControl.SaveQuizIdempotent | components/views/TestsView.tsx:375-405 | saving the same questions twice equals saving them once |
| ExamControl.SavePage | components/views/TestsView.tsx:375-410 | with no builder open the page is unchanged; otherwise the catalog takes the save and the builder closes |
| ExamControl.SavePageTwice | components/views/TestsView.tsx:375-410 | the builder is closed after a save, so a repeated save leaves the page as the first save left it |
| ExamControl.FlipQuizLessons | components/views/TestsView.tsx:423 | every quiz-type lesson flips its published flag; other lessons stay |
| ExamControl.TogglePublish | components/views/TestsView.tsx:413-430 | without edit permission nothing changes; otherwise only the target module's quiz lessons flip |
| ExamControl.TogglePublishTwice | components/views/TestsView.tsx:413-430 | toggling twice restores the catalog |
| ExamControl.RowsOfCourse | components/views/TestsView.tsx:353 | a course yields one row per module, labelled with the course's name and id |
| ExamControl.AllRowsMembership | components/views/TestsView.tsx:346-350 | the all-courses rows are exactly the catalog's modules, each labelled with its own course |
| ExamControl.CollectAllRows | components/views/TestsView.tsx:346-350 | the nested `forEach`/`push` loop builds exactly the all-courses rows, in catalog order |
| ExamControl.FilteredModules | components/views/TestsView.tsx:341-373 | the grid is the rows chosen by mode and selection, filtered by the case-insensitive title/course-name search |
| ExamControl.EmptySearchShowsAll | components/views/TestsView.tsx:341-373 | with all courses and an empty search, the grid shows every module of the catalog |
| CourseAdmin.SeedCourse | components/views/CoursesAdminView.tsx:63-82 | the seeded course has the name, the template as level, the template's program, and one module with one published video lesson |
| CourseAdmin.NewCourse | components/views/CoursesAdminView.tsx:60-84 | a blank name creates nothing; any other name creates the seeded course |
| CourseAdmin.TemplatePrograms | components/views/CoursesAdminView.tsx:55-69 | a check on the constant template list: the four Starter templates file under "Starter Program" and the five Mover templates under "Mover Program" |
| CourseAdmin.Prepend | components/views/CoursesAdminView.tsx:428-433 | the new course is first and the old catalog follows unchanged |
| CourseAdmin.ManualSave | components/views/CoursesAdminView.tsx:417-426 | with nothing open the catalog is unchanged; otherwise courses with the edited id become the edited copy stamped `now`, and length, order and ids are kept |
| CourseAdmin.DeleteCourse | components/views/CoursesAdminView.tsx:435-443 | without permission or confirmation nothing changes; otherwise every course with that id goes, every other course keeps all its copies, and the order is kept |
| CourseAdmin.WithModuleAdded | components/views/CoursesAdminView.tsx:445-452 | appends an empty module titled "Module n+1"; the rest of the course is unchanged |
| CourseAdmin.AddedModuleTitlesDiffer | components/views/CoursesAdminView.tsx:447 | modules added one after another get different titles |
| CourseAdmin.WithLessonAdded | components/views/CoursesAdminView.tsx:454-462 | the new lesson is appended to the chosen module only |
| CourseAdmin.MergeLesson | components/views/CoursesAdminView.tsx:547 | fields given in the patch win; id and lesson type never change |
| CourseAdmin.MergeLessonIdempotent | components/views/CoursesAdminView.tsx:547 | applying a lesson patch twice is the same as applying it once |
| CourseAdmin.WithLessonUpdated | components/views/CoursesAdminView.tsx:543-549 | the patch lands on the active lesson of the active module and nowhere else |
| CourseAdmin.MergeCourse | components/views/CoursesAdminView.tsx:542 | metadata fields given in the patch win; id, modules and timestamp stay |
| CourseAdmin.CategoriesOf | components/views/CoursesAdminView.tsx:393 | one category per course, in catalog order |
| Seqs.DistinctFrom | components/views/CoursesAdminView.tsx:393 | each element of the input not already seen, once, listed in the order of its first occurrence in the input |
| CourseAdmin.PresentCategories | components/views/CoursesAdminView.tsx:393 | the non-empty strings of the category list, each once, in the order of their first occurrence |
| CourseAdmin.Categories | components/views/CoursesAdminView.tsx:393 | "All Categories", then every non-empty category of the catalog exactly once, in the order of the first course carrying it |
| CourseAdmin.FilteredCourses | components/views/CoursesAdminView.tsx:396-405 | the courses passing the search, level and category filters, every copy of each, in catalog order |
| CourseAdmin.UnfilteredShowsAll | components/views/CoursesAdminView.tsx:386-405 | the initial filters list the whole catalog |
| CourseAdmin.CourseEditor.constructor | components/views/CoursesAdminView.tsx:374-378 | loads the stored catalog, or the built-in one when none is stored |
| CourseAdmin.CourseEditor.OpenCourse | components/views/CoursesAdminView.tsx:654 | opening a course edits a copy of it on the metadata panel; the catalog is untouched |
| CourseAdmin.CourseEditor.Close | components/views/CoursesAdminView.tsx:472 | leaving without saving drops the edited copy and leaves the catalog and storage as they were |
| CourseAdmin.CourseEditor.SelectMetadata | components/views/CoursesAdminView.tsx:496 | metadata panel on, with no module or lesson selected |
| CourseAdmin.CourseEditor.SelectModule | components/views/CoursesAdminView.tsx:506 | that module becomes active and no lesson is selected |
| CourseAdmin.CourseEditor.SelectLesson | components/views/CoursesAdminView.tsx:521 | that module and lesson become active |
| CourseAdmin.CourseEditor.CreateCourse | components/views/CoursesAdminView.tsx:428-433 | the course the dialog built goes to the front of the catalog and the new catalog is stored; the editor is untouched |
| CourseAdmin.CourseEditor.Save | components/views/CoursesAdminView.tsx:417-426 | the edited copy replaces its course, the catalog is stored, and the editor closes |
| CourseAdmin.CourseEditor.Delete | components/views/CoursesAdminView.tsx:435-443 | only a permitted, confirmed delete changes the catalog, and it stores it |
| CourseAdmin.CourseEditor.AddModule | components/views/CoursesAdminView.tsx:445-452 | staged on the copy: the catalog and storage are unchanged, and the new module becomes active |
| CourseAdmin.AddModuleThenLessonThenSave | components/views/CoursesAdminView.tsx:417-462 | an example run, not a general property: on a course with no modules, adding a module, then a video lesson, then saving gives one course stamped with the save time, holding "Module 1" with the published lesson "New VIDEO" |
| CourseAdmin.CourseEditor.AddLesson | components/views/CoursesAdminView.tsx:454-462 | staged on the copy's active module: the new lesson becomes active, and catalog and storage are unchanged |
| CourseAdmin.CourseEditor.UpdateLesson | components/views/CoursesAdminView.tsx:543-549 | the patch is merged into the active lesson of the copy; the catalog's shared lesson object is not modelled (see Left out) |
| CourseAdmin.CourseEditor.UpdateMetadata | components/views/CoursesAdminView.tsx:542 | the patch is merged into the copy only |
| CenterDetail.WithoutRequest | components/views/CenterDetailView.tsx:358-364 | every request with that id is removed, every other request keeps all its copies, and the order is kept |
| CenterDetail.WithoutAbsentRequest | components/views/CenterDetailView.tsx:358 | removing an id no request carries changes nothing |
| CenterDetail.ApprovedCourses | components/views/CenterDetailView.tsx:368 | the catalog courses whose id is approved, every copy of each, in catalog order |
| CenterDetail.ApprovalShowsCourse | components/views/CenterDetailView.tsx:354-368 | after approval, the approved course is among the center's courses |
| CenterDetail.StarterCourses | components/views/CenterDetailView.tsx:370-372 | the courses whose category or name mentions "starter" in any case, every copy of each, in order |
| CenterDetail.MoverCourses | components/views/CenterDetailView.tsx:374-376 | the courses mentioning "mover" or not mentioning "starter", every copy of each, in order |
| CenterDetail.SplitCoversApproved | components/views/CenterDetailView.tsx:368-376 | every approved course is in one list or both; one that never mentions "starter" is in the Mover list and not in the Starter list |
| CenterDetail.PageTitlesPrefixes | components/views/CenterDetailView.tsx:252-253 | a check on the two constant titles: the "Starter Course" list uses the prefix ST and the "Mover Course" list uses MV |
| CenterDetail.DisplayId | components/views/CenterDetailView.tsx:256 | the display id starts with the prefix |
| CenterDetail.DisplayIdNumber | components/views/CenterDetailView.tsx:189 | the number after the prefix is 10001 plus the position |
| CenterDetail.DisplayIdsDistinct | components/views/CenterDetailView.tsx:255-256 | different positions in one list get different display ids |
| CenterDetail.StudentCount | components/views/CenterDetailView.tsx:257 | at most 2 learners per course, and none exactly at positions ≡ 2 (mod 3) |
| CenterDetail.Slice | components/views/CenterDetailView.tsx:258 | `slice` with bounds clamped to the length |
| CenterDetail.CourseRows | components/views/CenterDetailView.tsx:260-276 | one row per assigned learner, with name and username; a single empty slot when none is assigned; every row carries the course and its display id |
| CenterDetail.CourseRowsShare | components/views/CenterDetailView.tsx:257-258 | with enough learners, course i gets exactly 1, 2 or 0 rows as i mod 3 is 0, 1 or 2, starting at learner i |
| CenterDetail.Roster | components/views/CenterDetailView.tsx:255-277 | the `flatMap` of the per-course rows has at least as many rows as courses; its contents are stated by the three roster lemmas that follow |
| CenterDetail.RosterHasCourseRows | components/views/CenterDetailView.tsx:255-277 | every row a course contributes appears in the roster |
| CenterDetail.RosterRowsBelong | components/views/CenterDetailView.tsx:255-277 | every roster row belongs to some course, under that course's display id |
| CenterDetail.RosterShowsEveryCourse | components/views/CenterDetailView.tsx:255-277 | every course shows in the roster under its display id |
| CenterDetail.PickerResults | components/views/CenterDetailView.tsx:91-94 | the learners whose full name contains the term case-insensitively, or whose username contains the raw term, every copy of each, in pool order |
| CenterDetail.EmptyPickerSearchListsAll | components/views/CenterDetailView.tsx:91-94 | an empty search lists the whole pool |
| CenterDetail.CenterHub.constructor | components/views/CenterDetailView.tsx:346-349 | the page opens with the approved ids and the initial requests, with no picker |
| CenterDetail.CenterHub.Approve | components/views/CenterDetailView.tsx:351-360 | with no request of that id nothing changes; otherwise the first such request's course is appended to the approved ids and every request with that id is removed |
| CenterDetail.CenterHub.Decline | components/views/CenterDetailView.tsx:362-366 | only a confirmed decline removes requests, and exactly those with that id |
| CenterDetail.CenterHub.OpenPicker | components/views/CenterDetailView.tsx:525 | the picker opens fresh for that course |
| CenterDetail.CenterHub.SetPickerTerm | components/views/CenterDetailView.tsx:123 | only the picker's search changes |
| CenterDetail.CenterHub.PickLearner | components/views/CenterDetailView.tsx:131 | only the picker's selection changes |
| CenterDetail.CenterHub.ClosePicker | components/views/CenterDetailView.tsx:384 | the picker closes |
| CenterDetail.CenterHub.ConfirmPicker | components/views/CenterDetailView.tsx:96-101 | with no selection nothing happens; otherwise the selected learner is looked up and the picker closes |
| Reports.GradeLetter | components/views/ReportsView.tsx:40-46 | the letter is one of A+, A, B, C, D |
| Reports.GradeLetterMonotone | components/views/ReportsView.tsx:40-46 | a higher grade never gets a lower letter |
| Reports.GradeLetterBands | components/views/ReportsView.tsx:40-46 | each letter is earned exactly on its band: 90 and up, 80–89, 70–79, 60–69, below 60 |
| Reports.MasteryAgreesWithLetter | components/views/ReportsView.tsx:225 | a consistency check between the two fixed thresholds: a passing badge (85 and up) always goes with an A or A+, and every A+ passes |
| Reports.WhiteSpaceSearchIsNotIndividual | components/views/ReportsView.tsx:37 | a search of only white space, with no learner picked, stays in aggregate mode |
| Reports.BySelection | components/views/ReportsView.tsx:51-53 | with a picked id, the learners with that id, every copy of each, in order; with 'all', everyone |
| Reports.BySearch | components/views/ReportsView.tsx:54-59 | with a non-blank term, the matching learners, every copy of each, in order; otherwise everyone |
| Reports.IndividualData | components/views/ReportsView.tsx:49-61 | the learners passing both filters, every copy of each, in directory order; with neither filter, all learners |
| Reports.PickedLearnerOnly | components/views/ReportsView.tsx:51-53 | with a picked id, only learners with that id are shown |
| Reports.ClearFilters | components/views/ReportsView.tsx:66-69 | search '' and selection 'all', which leaves individual mode |
| Reports.SwitchTab | components/views/ReportsView.tsx:141 | the tab changes; filters are cleared only outside individual mode |
| Reports.SwitchTabKeepsMode | components/views/ReportsView.tsx:141 | a tab switch neither enters nor leaves individual mode, nor changes the learners shown |
| Reports.ClearThenSwitch | components/views/ReportsView.tsx:141 | a two-step example: switching tabs after a reset only changes the tab |

## Left out

- Storage is modelled only as the `stored` field of `CourseAdmin.CourseEditor`, which holds the stored catalog after each write. Writes go to `localStorage` under the catalog key, in JSON; the key, serialisation and parsing are browser and library behaviour. The exam view's storage writes (`TestsView.tsx:408`, `:429`) are not modelled; its functions return the new catalog.
- `Date.now()` and `new Date().toISOString()` are parameters. One `stamp` stands for all three `Date.now()` calls in `NewCourseModal.handleCreate`, so the id suffixes of course, module and lesson are equal. Id uniqueness is not claimed, because the code does not guarantee it.
- The open/closed flags of the dialogs are not modelled: `setIsNewCourseModalOpen(false)` after a create (`CoursesAdminView.tsx:432`), and the modal's own visibility. The dialog's `handleCreate` is `CourseAdmin.NewCourse`; the page's `handleCreateNewCourse` is `CourseAdmin.CourseEditor.CreateCourse`.
- `confirm`, `alert` and `checkPermission` are boolean inputs. The alert texts are not modelled.
- CourseAdmin.CourseEditor.AddLesson: `handleAddLesson` pushes the new lesson into the module object that the edited copy shares with the catalog (`CoursesAdminView.tsx:458`). So in memory the catalog's module also grows before "save". The model keeps the edited copy separate from the catalog, so this aliasing is not captured.
- CourseAdmin.CourseEditor.UpdateLesson: the lesson editor's assignment `updatedModules[activeModuleIdx].lessons[activeLessonIdx] = {...}` (`CoursesAdminView.tsx:547`) writes into a `lessons` array that the edited copy shares with the catalog, because opening a course (`:411`, `:654`) takes no deep copy. So in memory the catalog's lesson changes as well, before "save". The contract keeps `courses` unchanged because the model holds the copy as a separate value; this aliasing is not captured.
- CourseAdmin.CourseEditor.AddLesson: the code indexes `editingCourse.modules[activeModuleIdx]` without a range check. The model treats an out-of-range index as a no-op; the page only offers the buttons under the active module.
- `toLowerCase`/`toUpperCase` are modelled on ASCII letters only. No Unicode case mapping is modelled.
- Grades are integers. The floating-point report figures (correct/incorrect mark counts, completion and passing rates) are not modelled.
- React effects, routing and JSX are not modelled. This includes opening a course from `initialCourseId` (`CoursesAdminView.tsx:407-415`) and `onExitEdit`. The inventory cards' class lists (`CenterDetailView.tsx:191`) are display only.
- The mock data constants are arbitrary inputs. The roster's learner pool is a parameter.
- `RolesPermissionsView.tsx`, `LandingPageView.tsx` and `Header.tsx` hold no domain logic and are not part of this model.
