/**
 * The dashboard's records: the curriculum hierarchy Course -> Module ->
 * Lesson -> QuizQuestion, and the read-only entities the views list
 * (students, classes, order requests).
 *
 * Optional text fields of the TypeScript records (`category`) are plain
 * strings here, with "" for "absent": every test the views make on them
 * (`c.category && ...`, `c.category?.includes(...)`, `.filter(Boolean)`)
 * treats `undefined` and "" alike.
 */
module Domain {
  import opened Options
  import Text

  /** One multiple-choice question; `correctAnswer` indexes `options`. */
  datatype QuizQuestion = QuizQuestion(
    id: string,
    question: string,
    options: seq<string>,
    correctAnswer: int)

  /** A lesson's `type`: 'video', 'quiz', 'assignment' or 'text' (the last shown as "Reading"). */
  datatype LessonType = Video | Quiz | Assignment | Reading {
    /** The string literal the TypeScript union uses for this type. */
    function Name(): string {
      match this
      case Video => "video"
      case Quiz => "quiz"
      case Assignment => "assignment"
      case Reading => "text"
    }
  }

  datatype Lesson = Lesson(
    id: string,
    title: string,
    kind: LessonType,
    isPublished: bool,
    content: Option<string>,
    quiz: Option<seq<QuizQuestion>>)

  datatype Module = Module(id: string, title: string, lessons: seq<Lesson>)

  datatype Course = Course(
    id: string,
    name: string,
    isPurchased: bool,
    thumbnail: string,
    description: string,
    category: string,
    level: string,
    duration: string,
    lastUpdated: string,
    modules: seq<Module>)

  datatype Student = Student(
    id: string,
    username: string,
    firstName: string,
    lastName: string,
    status: string,
    finalGrade: int)

  /** A class group; only the link to its course is read by the views modelled here. */
  datatype ClassGroup = ClassGroup(id: string, name: string, courseId: string)

  /** A center's request to buy seats in a course. */
  datatype Order = Order(
    id: string,
    courseId: string,
    courseName: string,
    branchId: string,
    branchName: string,
    seats: nat,
    pricePerSeat: nat,
    totalAmount: nat,
    status: string,
    date: string,
    requesterName: string)

  /** `${s.firstName} ${s.lastName}`. */
  function FullName(s: Student): string {
    s.firstName + " " + s.lastName
  }

  /**
   * The learner search both the roster's picker and the reports use: the
   * full name contains the term case-insensitively, or the username
   * contains the term as typed.
   */
  predicate MatchesLearner(s: Student, term: string) {
    Text.Contains(Text.Lower(FullName(s)), Text.Lower(term)) || Text.Contains(s.username, term)
  }
}
