/**
 * The analytics view's learner logic: grade letters and the mastery badge,
 * the switch between the aggregate tables and the individual learner
 * results, the filtered learner list, and the filter bar's reset rules.
 */
module Reports {
  import opened Seqs
  import opened Text
  import opened Domain

  /** `getGradeLetter`: thresholds 90, 80, 70 and 60 for A+, A, B and C; anything lower is D. */
  function GradeLetter(grade: int): (r: string)
    ensures r in {"A+", "A", "B", "C", "D"}
  {
    if grade >= 90 then "A+"
    else if grade >= 80 then "A"
    else if grade >= 70 then "B"
    else if grade >= 60 then "C"
    else "D"
  }

  /** The order of the letters, D lowest. */
  function LetterRank(letter: string): nat {
    if letter == "A+" then 4
    else if letter == "A" then 3
    else if letter == "B" then 2
    else if letter == "C" then 1
    else 0
  }

  /** A higher grade never gets a lower letter. */
  lemma GradeLetterMonotone(g1: int, g2: int)
    requires g1 <= g2
    ensures LetterRank(GradeLetter(g1)) <= LetterRank(GradeLetter(g2))
  {
  }

  /** Each letter is earned exactly on its band of grades. */
  lemma GradeLetterBands(g: int)
    ensures GradeLetter(g) == "A+" <==> g >= 90
    ensures GradeLetter(g) == "A" <==> 80 <= g < 90
    ensures GradeLetter(g) == "B" <==> 70 <= g < 80
    ensures GradeLetter(g) == "C" <==> 60 <= g < 70
    ensures GradeLetter(g) == "D" <==> g < 60
  {
  }

  /** The mastery badge shows the pass colour exactly from 85 up. */
  predicate MasteryPass(finalGrade: int) {
    finalGrade >= 85
  }

  /** A passing badge always stands beside an A or an A+, and every A+ has a passing badge. */
  lemma MasteryAgreesWithLetter(g: int)
    ensures MasteryPass(g) ==> GradeLetter(g) == "A" || GradeLetter(g) == "A+"
    ensures GradeLetter(g) == "A+" ==> MasteryPass(g)
    ensures GradeLetter(g) != "A" && GradeLetter(g) != "A+" ==> !MasteryPass(g)
  {
  }

  /** `isIndividualMode`: the trimmed search is non-empty or a particular learner is picked. */
  predicate IsIndividualMode(searchTerm: string, selectedStudentId: string) {
    |Trim(searchTerm)| > 0 || selectedStudentId != "all"
  }

  /** A search of nothing but white space does not leave the aggregate view. */
  lemma WhiteSpaceSearchIsNotIndividual(searchTerm: string)
    requires AllSpace(searchTerm)
    ensures !IsIndividualMode(searchTerm, "all")
  {
    BlankIffAllSpace(searchTerm);
  }

  /** `base.filter(s => s.id === selectedStudentId)`, applied only when a learner is picked. */
  function BySelection(students: seq<Student>, selectedStudentId: string): (r: seq<Student>)
    ensures selectedStudentId == "all" ==> r == students
    ensures selectedStudentId != "all" ==> forall i :: 0 <= i < |r| ==> r[i].id == selectedStudentId
    ensures forall i :: 0 <= i < |students| && (selectedStudentId == "all" || students[i].id == selectedStudentId) ==>
              students[i] in r
    ensures forall i :: 0 <= i < |r| ==> r[i] in students
    ensures IsSubseq(r, students)
    ensures forall x :: multiset(r)[x] ==
              if selectedStudentId == "all" || x.id == selectedStudentId then multiset(students)[x] else 0
  {
    if selectedStudentId != "all" then Filter(students, (s: Student) => s.id == selectedStudentId)
    else
      SubseqRefl(students);
      students
  }

  /** The name/username search, applied only when the trimmed term is non-empty. */
  function BySearch(students: seq<Student>, searchTerm: string): (r: seq<Student>)
    ensures |Trim(searchTerm)| == 0 ==> r == students
    ensures |Trim(searchTerm)| > 0 ==> forall i :: 0 <= i < |r| ==> MatchesLearner(r[i], searchTerm)
    ensures forall i :: 0 <= i < |students| && (|Trim(searchTerm)| == 0 || MatchesLearner(students[i], searchTerm)) ==>
              students[i] in r
    ensures forall i :: 0 <= i < |r| ==> r[i] in students
    ensures IsSubseq(r, students)
    ensures forall x :: multiset(r)[x] ==
              if |Trim(searchTerm)| == 0 || MatchesLearner(x, searchTerm) then multiset(students)[x] else 0
  {
    if |Trim(searchTerm)| > 0 then Filter(students, (s: Student) => MatchesLearner(s, searchTerm))
    else
      SubseqRefl(students);
      students
  }

  /** A learner passes both filters of the individual results. */
  predicate Selected(s: Student, searchTerm: string, selectedStudentId: string) {
    && (selectedStudentId == "all" || s.id == selectedStudentId)
    && (|Trim(searchTerm)| == 0 || MatchesLearner(s, searchTerm))
  }

  /** `IsSubseq` is transitive. */
  lemma {:induction false} SubseqTrans<T>(a: seq<T>, b: seq<T>, c: seq<T>)
    requires IsSubseq(a, b) && IsSubseq(b, c)
    ensures IsSubseq(a, c)
    decreases |c|
  {
    if a == [] {
    } else if c == [] {
    } else if b == [] {
    } else if b[0] == c[0] && IsSubseq(b[1..], c[1..]) {
      if a[0] == b[0] && IsSubseq(a[1..], b[1..]) {
        SubseqTrans(a[1..], b[1..], c[1..]);
      } else {
        SubseqTrans(a, b[1..], c[1..]);
      }
    } else {
      SubseqTrans(a, b, c[1..]);
    }
  }

  /**
   * `individualData`: the learners that pass both filters, in directory
   * order; no filter at all gives the whole directory.
   */
  function IndividualData(students: seq<Student>, searchTerm: string, selectedStudentId: string): (r: seq<Student>)
    ensures forall i :: 0 <= i < |r| ==> r[i] in students && Selected(r[i], searchTerm, selectedStudentId)
    ensures forall i :: 0 <= i < |students| && Selected(students[i], searchTerm, selectedStudentId) ==> students[i] in r
    ensures IsSubseq(r, students)
    ensures !IsIndividualMode(searchTerm, selectedStudentId) ==> r == students
    ensures forall x :: multiset(r)[x] == if Selected(x, searchTerm, selectedStudentId) then multiset(students)[x] else 0
  {
    var picked := BySelection(students, selectedStudentId);
    var r := BySearch(picked, searchTerm);
    SubseqTrans(r, picked, students);
    assert forall i :: 0 <= i < |r| ==> r[i] in picked;
    r
  }

  /** Picking a learner by id shows at most the learners with that id. */
  lemma PickedLearnerOnly(students: seq<Student>, searchTerm: string, id: string)
    requires id != "all"
    ensures forall i :: 0 <= i < |IndividualData(students, searchTerm, id)| ==>
              IndividualData(students, searchTerm, id)[i].id == id
  {
  }

  /** The view's tabs. */
  datatype ReportTab = ByClass | ByCourse

  /** The filter bar and tab state of the view. */
  datatype ReportState = ReportState(tab: ReportTab, searchTerm: string, selectedStudentId: string)

  /** The view opens on the class tab, with no search and the whole list. */
  const Initial := ReportState(ByClass, "", "all")

  /** `clearFilters` ("Reset"): empty search, the whole list. */
  function ClearFilters(st: ReportState): (r: ReportState)
    ensures r.tab == st.tab && r.searchTerm == "" && r.selectedStudentId == "all"
    ensures !IsIndividualMode(r.searchTerm, r.selectedStudentId)
  {
    st.(searchTerm := "", selectedStudentId := "all")
  }

  /** A tab button: switches tab, and clears the filters only outside the individual view. */
  function SwitchTab(st: ReportState, tab: ReportTab): (r: ReportState)
    ensures r.tab == tab
    ensures IsIndividualMode(st.searchTerm, st.selectedStudentId) ==>
              r.searchTerm == st.searchTerm && r.selectedStudentId == st.selectedStudentId
    ensures !IsIndividualMode(st.searchTerm, st.selectedStudentId) ==>
              r.searchTerm == "" && r.selectedStudentId == "all"
  {
    var moved := st.(tab := tab);
    if IsIndividualMode(st.searchTerm, st.selectedStudentId) then moved else ClearFilters(moved)
  }

  /** Switching tabs never enters or leaves the individual view, and never changes the learners shown there. */
  lemma SwitchTabKeepsMode(st: ReportState, tab: ReportTab, students: seq<Student>)
    ensures var r := SwitchTab(st, tab);
            && IsIndividualMode(r.searchTerm, r.selectedStudentId) == IsIndividualMode(st.searchTerm, st.selectedStudentId)
            && IndividualData(students, r.searchTerm, r.selectedStudentId)
               == IndividualData(students, st.searchTerm, st.selectedStudentId)
  {
    var r := SwitchTab(st, tab);
    if !IsIndividualMode(st.searchTerm, st.selectedStudentId) {
      assert IndividualData(students, r.searchTerm, r.selectedStudentId) == students;
    }
  }

  /** Reset and then a tab switch is the same as the tab switch after a reset. */
  lemma ClearThenSwitch(st: ReportState, tab: ReportTab)
    ensures SwitchTab(ClearFilters(st), tab) == ClearFilters(st).(tab := tab)
  {
    assert !IsIndividualMode("", "all");
  }
}
