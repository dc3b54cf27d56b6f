/** The rules of the staff dashboard (components/StaffDashboard.tsx): how
    the current view follows the selected tab, the editing of a subject's
    marks and a year's attendance, the search box, the stats bar, the
    new-subject form and the points offered for an achievement. React state
    setters become functions from the old list to the new one. */
module StaffDashboard {
  import opened Types
  import opened Seqs
  import opened Text
  import Api
  import Leaderboard

  // ---------------------------------------------------------------------
  // Tab synchronisation

  datatype View =
    | YearSelect | SubjectSelect | SubjectDetails
    | AttendanceYearSelect | AttendanceDetails
    | Verification | LeaderboardView
    | LeaveYearSelect | LeaveRequests

  /** The `ViewState` string literal of each view. */
  function ViewName(v: View): string {
    match v
    case YearSelect => "YEAR_SELECT"
    case SubjectSelect => "SUBJECT_SELECT"
    case SubjectDetails => "SUBJECT_DETAILS"
    case AttendanceYearSelect => "ATTENDANCE_YEAR_SELECT"
    case AttendanceDetails => "ATTENDANCE_DETAILS"
    case Verification => "VERIFICATION"
    case LeaderboardView => "LEADERBOARD"
    case LeaveYearSelect => "LEAVE_YEAR_SELECT"
    case LeaveRequests => "LEAVE_REQUESTS"
  }

  /** The effect that runs when `activeTab` changes: the view it leaves behind. */
  function SyncTab(activeTab: string, current: View): View {
    if activeTab == "VERIFICATION" then Verification
    else if activeTab == "ATTENDANCE" then AttendanceYearSelect
    else if activeTab == "LEAVE" then LeaveYearSelect
    else if activeTab == "MARKS" then
      if current == Verification || StartsWith(ViewName(current), "ATTENDANCE") || StartsWith(ViewName(current), "LEAVE")
      then YearSelect
      else current
    else current
  }

  /** The views whose name begins with a given prefix, read off the names. */
  lemma ViewPrefixes(v: View)
    ensures StartsWith(ViewName(v), "ATTENDANCE") <==> v == AttendanceYearSelect || v == AttendanceDetails
    ensures StartsWith(ViewName(v), "LEAVE") <==> v == LeaveYearSelect || v == LeaveRequests
  {
    match v
    case YearSelect => assert ViewName(v)[0] == 'Y';
    case SubjectSelect => assert ViewName(v)[0] == 'S';
    case SubjectDetails => assert ViewName(v)[0] == 'S';
    case AttendanceYearSelect => assert ViewName(v)[0] == 'A' && ViewName(v)[..10] == "ATTENDANCE";
    case AttendanceDetails => assert ViewName(v)[0] == 'A' && ViewName(v)[..10] == "ATTENDANCE";
    case Verification => assert ViewName(v)[0] == 'V';
    case LeaderboardView => assert ViewName(v)[3] == 'D';
    case LeaveYearSelect => assert ViewName(v)[0] == 'L' && ViewName(v)[..5] == "LEAVE";
    case LeaveRequests => assert ViewName(v)[0] == 'L' && ViewName(v)[..5] == "LEAVE";
  }

  /** Switching to Marks returns to the year grid exactly from the
      verification, attendance and leave views; every other view stays. */
  lemma MarksTabResets(v: View)
    ensures SyncTab("MARKS", v) == YearSelect <==>
      v in {YearSelect, Verification, AttendanceYearSelect, AttendanceDetails, LeaveYearSelect, LeaveRequests}
    ensures v !in {Verification, AttendanceYearSelect, AttendanceDetails, LeaveYearSelect, LeaveRequests} ==>
      SyncTab("MARKS", v) == v
  {
    ViewPrefixes(v);
  }

  /** The other three tabs go to their entry view whatever the current view. */
  lemma EntryTabs(v: View)
    ensures SyncTab("VERIFICATION", v) == Verification
    ensures SyncTab("ATTENDANCE", v) == AttendanceYearSelect
    ensures SyncTab("LEAVE", v) == LeaveYearSelect
  {
  }

  /** Re-running the effect with the same tab changes nothing more. */
  lemma SyncTabIdempotent(tab: string, v: View)
    ensures SyncTab(tab, SyncTab(tab, v)) == SyncTab(tab, v)
  {
    ViewPrefixes(v);
    ViewPrefixes(SyncTab(tab, v));
  }

  // ---------------------------------------------------------------------
  // Editing marks and attendance

  /** The three editable score columns of the marks table. */
  datatype MarkField = Test1 | Test2 | Assignment

  function FieldOf(m: StudentSubjectMark, f: MarkField): real {
    match f
    case Test1 => m.test1
    case Test2 => m.test2
    case Assignment => m.assignment
  }

  function SetField(m: StudentSubjectMark, f: MarkField, v: real): StudentSubjectMark {
    match f
    case Test1 => m.(test1 := v)
    case Test2 => m.(test2 := v)
    case Assignment => m.(assignment := v)
  }

  /** The total a mark row should carry. */
  predicate TotalConsistent(m: StudentSubjectMark) {
    m.total == m.test1 + m.test2 + m.assignment
  }

  /** `parseFloat(value) || 0`, given the parse (`None` is NaN). */
  function NumOrZero(parsed: Option<real>): real {
    if parsed.Some? then parsed.value else 0.0
  }

  /** Everything of a row except its scores and total. */
  function Identity(m: StudentSubjectMark): StudentSubjectMark {
    m.(test1 := 0.0, test2 := 0.0, assignment := 0.0, total := 0.0)
  }

  /** `handleMarkChange`: the rows of the student get the parsed value in the
      field and a recomputed total; nothing else changes. */
  function MarkChange(marks: seq<StudentSubjectMark>, studentId: int, field: MarkField, parsed: Option<real>): (r: seq<StudentSubjectMark>)
    ensures |r| == |marks|
    ensures forall i :: 0 <= i < |r| && marks[i].studentId != studentId ==> r[i] == marks[i]
    ensures forall i :: 0 <= i < |r| && marks[i].studentId == studentId ==>
      && FieldOf(r[i], field) == NumOrZero(parsed)
      && (forall g :: g != field ==> FieldOf(r[i], g) == FieldOf(marks[i], g))
      && TotalConsistent(r[i])
      && Identity(r[i]) == Identity(marks[i])
  {
    Map(marks, (m: StudentSubjectMark) =>
      if m.studentId == studentId then
        var updated := SetField(m, field, NumOrZero(parsed));
        updated.(total := updated.test1 + updated.test2 + updated.assignment)
      else m)
  }

  /** Editing keeps every consistent row consistent. */
  lemma MarkChangeKeepsTotals(marks: seq<StudentSubjectMark>, studentId: int, field: MarkField, parsed: Option<real>)
    requires forall i :: 0 <= i < |marks| ==> TotalConsistent(marks[i])
    ensures forall i :: 0 <= i < |marks| ==> TotalConsistent(MarkChange(marks, studentId, field, parsed)[i])
  {
  }

  /** Typing the same value twice is typing it once. */
  lemma MarkChangeIdempotent(marks: seq<StudentSubjectMark>, studentId: int, field: MarkField, parsed: Option<real>)
    ensures MarkChange(MarkChange(marks, studentId, field, parsed), studentId, field, parsed)
         == MarkChange(marks, studentId, field, parsed)
  {
    var once := MarkChange(marks, studentId, field, parsed);
    var twice := MarkChange(once, studentId, field, parsed);
    forall i | 0 <= i < |marks|
      ensures twice[i] == once[i]
    {
      if marks[i].studentId == studentId {
        assert FieldOf(twice[i], Test1) == FieldOf(once[i], Test1);
        assert FieldOf(twice[i], Test2) == FieldOf(once[i], Test2);
        assert FieldOf(twice[i], Assignment) == FieldOf(once[i], Assignment);
      }
    }
  }

  predicate AttendanceInRange(students: seq<Student>) {
    forall i :: 0 <= i < |students| ==> 0.0 <= students[i].attendance <= 100.0
  }

  /** `handleAttendanceChange`: the student's attendance becomes the parsed
      value (0 when unparseable) clamped to [0, 100]; no one else changes. */
  function AttendanceChange(students: seq<Student>, studentId: int, parsed: Option<real>): (r: seq<Student>)
    ensures |r| == |students|
    ensures forall i :: 0 <= i < |r| && students[i].id != studentId ==> r[i] == students[i]
    ensures forall i :: 0 <= i < |r| && students[i].id == studentId ==>
      && 0.0 <= r[i].attendance <= 100.0
      && (parsed.None? ==> r[i].attendance == 0.0)
      && (parsed.Some? && 0.0 <= parsed.value <= 100.0 ==> r[i].attendance == parsed.value)
      && (parsed.Some? && parsed.value > 100.0 ==> r[i].attendance == 100.0)
      && (parsed.Some? && parsed.value < 0.0 ==> r[i].attendance == 0.0)
      && r[i].(attendance := 0.0) == students[i].(attendance := 0.0)
  {
    Map(students, (s: Student) =>
      if s.id == studentId then s.(attendance := Clamp(NumOrZero(parsed), 0.0, 100.0)) else s)
  }

  /** So attendance entered by hand stays a percentage. */
  lemma AttendanceChangeKeepsRange(students: seq<Student>, studentId: int, parsed: Option<real>)
    requires AttendanceInRange(students)
    ensures AttendanceInRange(AttendanceChange(students, studentId, parsed))
  {
  }

  // ---------------------------------------------------------------------
  // Search box and stats bar

  /** The name or roll number contains the (already lower-cased) term. */
  function MatchesTerm(lower: string): StudentSubjectMark -> bool {
    (m: StudentSubjectMark) => Contains(ToLower(m.studentName), lower) || Contains(ToLower(m.rollNo), lower)
  }

  /** The search filter: exactly the rows whose lower-cased name or roll
      number contains the lower-cased term, in table order. */
  function SearchMarks(marks: seq<StudentSubjectMark>, term: string): (r: seq<StudentSubjectMark>)
    ensures forall i :: 0 <= i < |r| ==> r[i] in marks && MatchesTerm(ToLower(term))(r[i])
    ensures forall i :: 0 <= i < |marks| && MatchesTerm(ToLower(term))(marks[i]) ==> marks[i] in r
  {
    FilterMembers(marks, MatchesTerm(ToLower(term)));
    Filter(marks, MatchesTerm(ToLower(term)))
  }

  /** An empty search box shows every row. */
  lemma EmptySearchKeepsAll(marks: seq<StudentSubjectMark>)
    ensures SearchMarks(marks, "") == marks
  {
    forall i | 0 <= i < |marks| ensures MatchesTerm(ToLower(""))(marks[i]) {
      ContainsEmpty(ToLower(marks[i].studentName));
    }
    FilterAll(marks, MatchesTerm(ToLower("")));
  }

  /** Keeping order: searching a concatenation searches each part. */
  lemma SearchMarksAppend(a: seq<StudentSubjectMark>, b: seq<StudentSubjectMark>, term: string)
    ensures SearchMarks(a + b, term) == SearchMarks(a, term) + SearchMarks(b, term)
  {
    FilterAppend(a, b, MatchesTerm(ToLower(term)));
  }

  /** `Round` lands in [lo, hi] when its argument does and the bounds are integers. */
  lemma RoundBetween(x: real, lo: int, hi: int)
    requires lo as real <= x <= hi as real
    ensures lo <= Round(x) <= hi
  {
  }

  lemma DivBound(x: real, n: real, hi: real)
    requires n > 0.0 && 0.0 <= x <= n * hi
    ensures 0.0 <= x / n <= hi
  {
    var q := x / n;
    assert q * n == x;
    if q > hi {
      assert q * n > hi * n;
    }
  }

  lemma MeanBounds(marks: seq<StudentSubjectMark>)
    requires marks != []
    ensures (forall i :: 0 <= i < |marks| ==> 0.0 <= marks[i].total <= 100.0) ==>
      0 <= Round(Sum(marks, Leaderboard.MarkTotal) / |marks| as real) <= 100
  {
    if forall i :: 0 <= i < |marks| ==> 0.0 <= marks[i].total <= 100.0 {
      SumBounds(marks, Leaderboard.MarkTotal, 100.0);
      DivBound(Sum(marks, Leaderboard.MarkTotal), |marks| as real, 100.0);
      RoundBetween(Sum(marks, Leaderboard.MarkTotal) / |marks| as real, 0, 100);
    }
  }

  /** "Class Avg": the rounded mean total, 0 for an empty table. */
  function ClassAvg(marks: seq<StudentSubjectMark>): (r: int)
    ensures marks == [] ==> r == 0
    ensures (forall i :: 0 <= i < |marks| ==> 0.0 <= marks[i].total <= 100.0) ==> 0 <= r <= 100
  {
    if |marks| > 0 then
      var mean := Sum(marks, Leaderboard.MarkTotal) / |marks| as real;
      MeanBounds(marks);
      Round(mean)
    else 0
  }

  function Passes(m: StudentSubjectMark): bool { m.total >= 50.0 }

  /** "Pass Rate": the rounded percentage of rows with a total of 50 or
      more, 0 for an empty table. */
  function PassRate(marks: seq<StudentSubjectMark>): (r: int)
    ensures 0 <= r <= 100
    ensures marks == [] ==> r == 0
  {
    if |marks| > 0 then
      var passed := |Filter(marks, Passes)|;
      var rate := passed as real / |marks| as real * 100.0;
      assert 0.0 <= rate <= 100.0;
      RoundBetween(rate, 0, 100);
      Round(rate)
    else 0
  }

  /** A table where everyone passes shows 100%, one where no one does 0%. */
  lemma PassRateExtremes(marks: seq<StudentSubjectMark>)
    requires marks != []
    ensures (forall i :: 0 <= i < |marks| ==> Passes(marks[i])) ==> PassRate(marks) == 100
    ensures (forall i :: 0 <= i < |marks| ==> !Passes(marks[i])) ==> PassRate(marks) == 0
  {
    var n := |marks| as real;
    if forall i :: 0 <= i < |marks| ==> Passes(marks[i]) {
      FilterAll(marks, Passes);
      assert n / n == 1.0;
      assert Round(n / n * 100.0) == 100;
    }
    if forall i :: 0 <= i < |marks| ==> !Passes(marks[i]) {
      FilterNone(marks, Passes);
      assert 0 as real / n == 0.0;
      assert Round(0.0 / n * 100.0) == 0;
    }
  }

  // ---------------------------------------------------------------------
  // New subject form

  datatype SubjectForm = SubjectForm(name: string, code: string, staffName: string)

  const EmptySubjectForm := SubjectForm("", "", "")

  /** The subject `handleAddSubject` creates, if the guard lets it: a year is
      selected and the trimmed name and code are non-empty. */
  function SubjectDraftFor(selectedYear: Option<string>, form: SubjectForm, today: string): (r: Option<Api.SubjectDraft>)
    ensures r.Some? <==> selectedYear.Some? && selectedYear.value != "" && Trim(form.name) != "" && Trim(form.code) != ""
    ensures r.Some? ==>
      && r.value.name == Trim(form.name) && r.value.code == Trim(form.code)
      && r.value.year == selectedYear.value
      && r.value.staffName == (if Trim(form.staffName) == "" then "Unassigned" else Trim(form.staffName))
      && r.value.staffId == 0 && r.value.totalStudents == 0
      && r.value.lastUpdated == today
  {
    var name := Trim(form.name);
    var code := Trim(form.code);
    if selectedYear.Some? && selectedYear.value != "" && name != "" && code != "" then
      var staff := Trim(form.staffName);
      Some(Api.SubjectDraft(name, code, selectedYear.value, 0, if staff == "" then "Unassigned" else staff, 0, today))
    else None
  }

  /** `handleAddSubject`: when the guard passes, the subject is created, the
      year's subject list is re-read and the form is cleared; otherwise
      nothing happens. */
  method AddSubject(store: Api.Store, selectedYear: Option<string>, form: SubjectForm, shown: seq<Subject>,
                    freshId: int, today: string)
    returns (nowShown: seq<Subject>, nowForm: SubjectForm)
    modifies store
    ensures SubjectDraftFor(selectedYear, form, today).None? ==>
      nowShown == shown && nowForm == form && store.subjects == old(store.subjects)
    ensures SubjectDraftFor(selectedYear, form, today).Some? ==>
      var d := SubjectDraftFor(selectedYear, form, today).value;
      && store.subjects == old(store.subjects) + [Subject(freshId, d.name, d.code, d.year, d.staffId, d.staffName, d.totalStudents, d.lastUpdated)]
      && nowShown == store.GetSubjectsByYear(selectedYear.value)
      && nowForm == EmptySubjectForm
    ensures store.users == old(store.users) && store.students == old(store.students) && store.marks == old(store.marks)
    ensures store.achievements == old(store.achievements) && store.settings == old(store.settings)
    ensures store.listeners == old(store.listeners)
  {
    var draft := SubjectDraftFor(selectedYear, form, today);
    if draft.Some? {
      var _ := store.CreateSubject(draft.value, freshId);
      nowShown := store.GetSubjectsByYear(selectedYear.value);
      nowForm := EmptySubjectForm;
    } else {
      nowShown := shown;
      nowForm := form;
    }
  }

  // ---------------------------------------------------------------------
  // Achievement verification card

  /** `pointsToAward`: the points of the first category with the
      achievement's category id, or 0 when there is none. */
  function PointsToAward(categories: seq<AchievementCategory>, a: Achievement): (r: int)
    ensures (forall i :: 0 <= i < |categories| ==> categories[i].id != a.categoryId) ==> r == 0
    ensures forall k :: (0 <= k < |categories| && categories[k].id == a.categoryId
                         && (forall i :: 0 <= i < k ==> categories[i].id != a.categoryId)) ==> r == categories[k].points
  {
    match FindIndex(categories, (c: AchievementCategory) => c.id == a.categoryId)
    case Some(k) => categories[k].points
    case None => 0
  }
}
