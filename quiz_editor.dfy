/**
 * The exam builder: an editing session over the question list of one quiz
 * lesson, with a cursor on the question being edited. Each handler of the
 * builder replaces the session's question list with a new one; the editor
 * bounds a quiz to at most 10 questions and every question to 2..5
 * options, and the save button is enabled only while no question text and
 * no option is blank.
 */
module QuizEditor {
  import opened Options
  import opened Seqs
  import opened Text
  import opened Domain

  const MaxQuestions: nat := 10
  const MinOptions: nat := 2
  const MaxOptions: nat := 5

  /** The question the builder starts from and appends: no text, two empty options, the first one correct. */
  function BlankQuestion(id: string): QuizQuestion {
    QuizQuestion(id, "", ["", ""], 0)
  }

  /** The structural rules of one question: 2..5 options and a correct answer that indexes them. */
  predicate WellFormedQuestion(q: QuizQuestion) {
    MinOptions <= |q.options| <= MaxOptions && 0 <= q.correctAnswer < |q.options|
  }

  /** The structural rules of a whole quiz: 1..10 questions, each well formed. */
  predicate WellFormedQuiz(qs: seq<QuizQuestion>) {
    1 <= |qs| <= MaxQuestions && forall i :: 0 <= i < |qs| ==> WellFormedQuestion(qs[i])
  }

  /** A question can be saved: its text and every option are non-blank after trimming. */
  predicate QuestionReady(q: QuizQuestion) {
    !IsBlank(q.question) && forall j :: 0 <= j < |q.options| ==> !IsBlank(q.options[j])
  }

  /** `isReady`: every question can be saved. */
  predicate Ready(qs: seq<QuizQuestion>) {
    forall i :: 0 <= i < |qs| ==> QuestionReady(qs[i])
  }

  /** Some text of question `q` (its question or one of its options) is nothing but white space. */
  ghost predicate HasBlankField(q: QuizQuestion) {
    AllSpace(q.question) || exists j :: 0 <= j < |q.options| && AllSpace(q.options[j])
  }

  /**
   * A quiz is not ready to save exactly when some question has a question
   * text or an option made only of white space.
   */
  lemma NotReadyIffBlankField(qs: seq<QuizQuestion>)
    ensures !Ready(qs) <==> exists i :: 0 <= i < |qs| && HasBlankField(qs[i])
  {
    forall s: string ensures IsBlank(s) <==> AllSpace(s) {
      BlankIffAllSpace(s);
    }
  }

  /** The new options list after typing `text` into option `oIdx`. */
  function WithOptionText(q: QuizQuestion, oIdx: nat, text: string): (r: QuizQuestion)
    requires oIdx < |q.options|
    ensures |r.options| == |q.options| && r.options[oIdx] == text
    ensures forall j :: 0 <= j < |q.options| && j != oIdx ==> r.options[j] == q.options[j]
    ensures r.id == q.id && r.question == q.question && r.correctAnswer == q.correctAnswer
  {
    q.(options := q.options[oIdx := text])
  }

  /**
   * Deleting option `oIdx`: exactly that option goes, and the correct answer
   * is re-aligned: it falls back to the first option when the deleted one
   * was correct, moves down by one when it came after the deleted one, and
   * otherwise stays. So a correct answer that was not deleted still names
   * the same option text, and a valid index stays valid.
   */
  function WithOptionRemoved(q: QuizQuestion, oIdx: nat): (r: QuizQuestion)
    requires oIdx < |q.options|
    ensures r.options == RemoveAt(q.options, oIdx) && |r.options| == |q.options| - 1
    ensures q.correctAnswer == oIdx ==> r.correctAnswer == 0
    ensures q.correctAnswer > oIdx ==> r.correctAnswer == q.correctAnswer - 1
    ensures q.correctAnswer < oIdx ==> r.correctAnswer == q.correctAnswer
    ensures 0 <= q.correctAnswer < |q.options| && q.correctAnswer != oIdx ==>
              0 <= r.correctAnswer < |r.options| && r.options[r.correctAnswer] == q.options[q.correctAnswer]
    ensures WellFormedQuestion(q) && |q.options| > MinOptions ==> WellFormedQuestion(r)
    ensures r.id == q.id && r.question == q.question
  {
    var nextOpts := RemoveAt(q.options, oIdx);
    var answer :=
      if q.correctAnswer == oIdx then 0
      else if q.correctAnswer > oIdx then q.correctAnswer - 1
      else q.correctAnswer;
    q.(options := nextOpts, correctAnswer := answer)
  }

  /** The `QuizBuilder` session: the working copy of the questions and the active-question cursor. */
  class QuizBuilder {
    var questions: seq<QuizQuestion>
    var activeIdx: nat

    /** There is always a question, and the cursor is on one of them. */
    ghost predicate Valid()
      reads this
    {
      1 <= |questions| && activeIdx < |questions|
    }

    /** The session also keeps the authoring bounds on questions and options. */
    ghost predicate Bounded()
      reads this
    {
      Valid() && WellFormedQuiz(questions)
    }

    /** The question being edited (`activeQ`). */
    function Active(): QuizQuestion
      reads this
      requires Valid()
    {
      questions[activeIdx]
    }

    /**
     * Starts from a copy of the lesson's questions, or from one blank
     * question when it has none; the cursor starts on the first question.
     * `stamp` stands for `Date.now().toString()`.
     */
    constructor(initial: seq<QuizQuestion>, stamp: string)
      ensures Valid() && activeIdx == 0
      ensures |initial| > 0 ==> questions == initial
      ensures |initial| == 0 ==> questions == [BlankQuestion(stamp)]
      ensures (|initial| == 0 || WellFormedQuiz(initial)) ==> Bounded()
    {
      questions := if |initial| > 0 then initial else [BlankQuestion(stamp)];
      activeIdx := 0;
    }

    /** `handleAddQuestion`: appends a blank question and moves the cursor to it, unless there are 10 already. */
    method AddQuestion(stamp: string)
      requires Valid()
      modifies this
      ensures Valid()
      ensures old(|questions|) >= MaxQuestions ==> questions == old(questions) && activeIdx == old(activeIdx)
      ensures old(|questions|) < MaxQuestions ==>
                questions == old(questions) + [BlankQuestion(stamp)] && activeIdx == old(|questions|)
      ensures old(Bounded()) ==> Bounded()
    {
      if |questions| >= MaxQuestions {
        return;
      }
      activeIdx := |questions|;
      questions := questions + [BlankQuestion(stamp)];
    }

    /** Clicking question `i` in the list makes it the active one. */
    method SelectQuestion(i: nat)
      requires Valid() && i < |questions|
      modifies this
      ensures Valid() && questions == old(questions) && activeIdx == i
    {
      activeIdx := i;
    }

    /**
     * `removeQuestion(idx)`: drops question `idx` and moves the cursor back
     * by one (not below 0), unless only one question is left.
     */
    method RemoveQuestion(idx: nat)
      requires Valid()
      modifies this
      ensures Valid()
      ensures old(|questions|) <= 1 ==> questions == old(questions) && activeIdx == old(activeIdx)
      ensures old(|questions|) > 1 ==> questions == RemoveAt(old(questions), idx)
      ensures old(|questions|) > 1 ==> activeIdx == if old(activeIdx) > 0 then old(activeIdx) - 1 else 0
      ensures old(Bounded()) ==> Bounded()
    {
      if |questions| <= 1 {
        return;
      }
      questions := RemoveAt(questions, idx);
      activeIdx := if activeIdx > 0 then activeIdx - 1 else 0;
    }

    /** Typing into the question text of the active question. */
    method SetQuestionText(text: string)
      requires Valid()
      modifies this
      ensures Valid() && activeIdx == old(activeIdx)
      ensures questions == old(questions)[activeIdx := old(Active()).(question := text)]
      ensures old(Bounded()) ==> Bounded()
    {
      questions := questions[activeIdx := questions[activeIdx].(question := text)];
    }

    /** Typing into option `oIdx` of the active question. */
    method SetOptionText(oIdx: nat, text: string)
      requires Valid() && oIdx < |Active().options|
      modifies this
      ensures Valid() && activeIdx == old(activeIdx)
      ensures questions == old(questions)[activeIdx := WithOptionText(old(Active()), oIdx, text)]
      ensures old(Bounded()) ==> Bounded()
    {
      questions := questions[activeIdx := WithOptionText(questions[activeIdx], oIdx, text)];
    }

    /** "Add Option": appends an empty option; offered only while the question has fewer than 5. */
    method AddOption()
      requires Valid()
      modifies this
      ensures Valid() && activeIdx == old(activeIdx)
      ensures |old(Active()).options| >= MaxOptions ==> questions == old(questions)
      ensures |old(Active()).options| < MaxOptions ==>
                questions == old(questions)[activeIdx := old(Active()).(options := old(Active()).options + [""])]
      ensures old(Bounded()) ==> Bounded()
    {
      var q := questions[activeIdx];
      if |q.options| >= MaxOptions {
        return;
      }
      questions := questions[activeIdx := q.(options := q.options + [""])];
    }

    /** Deleting option `oIdx` of the active question; offered only while it has more than 2. */
    method RemoveOption(oIdx: nat)
      requires Valid() && oIdx < |Active().options|
      modifies this
      ensures Valid() && activeIdx == old(activeIdx)
      ensures |old(Active()).options| <= MinOptions ==> questions == old(questions)
      ensures |old(Active()).options| > MinOptions ==>
                questions == old(questions)[activeIdx := WithOptionRemoved(old(Active()), oIdx)]
      ensures old(Bounded()) ==> Bounded()
    {
      var q := questions[activeIdx];
      if |q.options| <= MinOptions {
        return;
      }
      questions := questions[activeIdx := WithOptionRemoved(q, oIdx)];
    }

    /** Clicking option `oIdx`'s letter marks it as the correct answer. */
    method SetCorrectAnswer(oIdx: nat)
      requires Valid() && oIdx < |Active().options|
      modifies this
      ensures Valid() && activeIdx == old(activeIdx)
      ensures questions == old(questions)[activeIdx := old(Active()).(correctAnswer := oIdx)]
      ensures old(Bounded()) ==> Bounded()
    {
      questions := questions[activeIdx := questions[activeIdx].(correctAnswer := oIdx)];
    }

    /** `isReady` of the current session. */
    function IsReady(): bool
      reads this
    {
      Ready(questions)
    }

    /**
     * "Save Exam": hands the questions to the caller, which the disabled
     * button allows only while the session is ready.
     */
    method Save() returns (saved: Option<seq<QuizQuestion>>)
      requires Valid()
      ensures saved.Some? <==> Ready(questions)
      ensures saved.Some? ==> saved.value == questions
    {
      if IsReady() {
        saved := Some(questions);
      } else {
        saved := None;
      }
    }
  }
}
