/** Facts about the seed data (services/mockData.ts): the consistency the
    fixed tables keep or break, and a leaderboard worked out from them. */
module SeedFacts {
  import opened Types
  import opened Seqs
  import opened Leaderboard
  import opened MockData
  import Api
  import StaffDashboard

  // ---------------------------------------------------------------------
  // Per-year analytics

  /** Every split of a year's students adds up to the year's total. */
  predicate StatsConsistent(s: YearlyStats) {
    && s.internal1.pass + s.internal1.fail == s.totalStudents
    && s.internal2.pass + s.internal2.fail == s.totalStudents
    && s.attendance.above75 + s.attendance.below75 == s.totalStudents
    && s.cgpa.aPlus + s.cgpa.a + s.cgpa.bPlus + s.cgpa.b + s.cgpa.c + s.cgpa.f == s.totalStudents
    && (s.internship.Some? ==>
          s.internship.value.completed + s.internship.value.inProgress + s.internship.value.notStarted == s.totalStudents)
    && (s.placement.Some? ==>
          s.placement.value.placed + s.placement.value.notPlaced + s.placement.value.higherStudies == s.totalStudents)
  }

  /** The table has exactly the years 1 to 4; each is consistent; internships
      appear from the third year and placements in the fourth. */
  lemma GenerateMockDataTable(year: int)
    ensures GenerateMockData(year).Some? <==> 1 <= year <= 4
    ensures GenerateMockData(year).Some? ==>
      && StatsConsistent(GenerateMockData(year).value)
      && (GenerateMockData(year).value.internship.Some? <==> year >= 3)
      && (GenerateMockData(year).value.placement.Some? <==> year == 4)
  {
  }

  // ---------------------------------------------------------------------
  // Identities

  predicate StudentIdsUnique(students: seq<Student>) {
    forall i, j :: 0 <= i < j < |students| ==> students[i].id != students[j].id
  }

  predicate RollNosUnique(students: seq<Student>) {
    forall i, j :: 0 <= i < j < |students| ==> students[i].rollNo != students[j].rollNo
  }

  predicate SubjectIdsUnique(subjects: seq<Subject>) {
    forall i, j :: 0 <= i < j < |subjects| ==> subjects[i].id != subjects[j].id
  }

  /** The seed roster has unique ids. */
  lemma SeedStudentIdsUnique()
    ensures StudentIdsUnique(InitialStudents)
  {
  }

  /** The seed roster has unique roll numbers. */
  lemma SeedRollNosUnique()
    ensures RollNosUnique(InitialStudents)
  {
  }

  /** The seed subjects have unique ids. */
  lemma SeedSubjectIdsUnique()
    ensures SubjectIdsUnique(MockSubjects)
  {
  }

  /** The seed marks hold at most one entry per (student, subject) slot. */
  lemma SeedSlotsUnique()
    ensures Api.SlotsUnique(MockMarks)
  {
  }

  // ---------------------------------------------------------------------
  // Marks and achievements

  /** Every seed mark's total is ten below the sum of its parts, so none of
      them satisfies the rule that editing or importing a row enforces. */
  lemma SeedTotalsOffByTen()
    ensures forall i :: 0 <= i < |MockMarks| ==>
      MockMarks[i].total == MockMarks[i].test1 + MockMarks[i].test2 + MockMarks[i].assignment - 10.0
    ensures forall i :: 0 <= i < |MockMarks| ==> !StaffDashboard.TotalConsistent(MockMarks[i])
  {
  }

  /** Of the three seed achievements, the two approved ones carry their
      category's points and the pending one carries none. */
  lemma SeedAchievementPoints()
    ensures |MockAchievements| == 3
    ensures MockAchievements[0].status == Approved
    ensures MockAchievements[0].pointsAwarded == StaffDashboard.PointsToAward(AchievementCategories, MockAchievements[0])
    ensures MockAchievements[1].status == Pending && MockAchievements[1].pointsAwarded == 0
    ensures MockAchievements[2].status == Approved
    ensures MockAchievements[2].pointsAwarded == StaffDashboard.PointsToAward(AchievementCategories, MockAchievements[2])
  {
    PaperPoints();
    CertificationPoints();
  }

  lemma PaperPoints()
    ensures StaffDashboard.PointsToAward(AchievementCategories, MockAchievements[0]) == 20
  {
    CategoryPoints(AchievementCategories, MockAchievements[0], 0);
  }

  lemma CertificationPoints()
    ensures StaffDashboard.PointsToAward(AchievementCategories, MockAchievements[2]) == 15
  {
    CategoryPoints(AchievementCategories, MockAchievements[2], 3);
  }

  /** The points of the first category with the achievement's category id. */
  lemma CategoryPoints(categories: seq<AchievementCategory>, a: Achievement, k: nat)
    requires k < |categories| && categories[k].id == a.categoryId
    requires forall i :: 0 <= i < k ==> categories[i].id != a.categoryId
    ensures StaffDashboard.PointsToAward(categories, a) == categories[k].points
  {
  }

  // ---------------------------------------------------------------------
  // A worked leaderboard

  /** With the seed data, the first-year academic leaderboard ranks Arun and
      Sneha by their mark totals, then the three students without marks at
      0 in roster order. */
  lemma FirstYearLeaderboard()
    ensures AcademicLeaderboard(InitialStudents, MockMarks, "1") == [
      LeaderboardEntry(1, "Arun Kumar", "CS101", 261.0, "1"),
      LeaderboardEntry(2, "Sneha Reddy", "CS102", 164.0, "1"),
      LeaderboardEntry(3, "Rahul Verma", "CS103", 0.0, "1"),
      LeaderboardEntry(4, "Priya Singh", "CS104", 0.0, "1"),
      LeaderboardEntry(5, "Karthik Raj", "CS105", 0.0, "1")]
  {
    FirstYearRanking();
    RanksOfFive(FirstYearCandidates());
  }

  /** The first-year candidates' rows before ranking, in roster order. */
  function FirstYearCandidates(): seq<LeaderboardEntry> {
    [LeaderboardEntry(0, "Arun Kumar", "CS101", 261.0, "1"),
     LeaderboardEntry(0, "Sneha Reddy", "CS102", 164.0, "1"),
     LeaderboardEntry(0, "Rahul Verma", "CS103", 0.0, "1"),
     LeaderboardEntry(0, "Priya Singh", "CS104", 0.0, "1"),
     LeaderboardEntry(0, "Karthik Raj", "CS105", 0.0, "1")]
  }

  /** The candidates are already in non-increasing order, so the stable
      sort leaves them as they are. */
  lemma FirstYearRanking()
    ensures AcademicLeaderboard(InitialStudents, MockMarks, "1") == AssignRanks(FirstYearCandidates())
  {
    FirstYearRoster();
    FirstYearRows();
    FirstYearCandidatesDescending();
    SortDescSorted(FirstYearCandidates(), Points);
  }

  lemma FirstYearCandidatesDescending()
    ensures Descending(FirstYearCandidates(), Points)
  {
    DescendingFive(FirstYearCandidates());
  }

  lemma FirstYearRows()
    ensures Map(InitialStudents[..5], AcademicRow(MockMarks)) == FirstYearCandidates()
  {
    var st := InitialStudents[..5];
    MapFive(st, AcademicRow(MockMarks));
    assert st[0] == InitialStudents[0] && st[1] == InitialStudents[1] && st[2] == InitialStudents[2];
    assert st[3] == InitialStudents[3] && st[4] == InitialStudents[4];
    ArunRow();
    SnehaRow();
    RahulRow();
    PriyaRow();
    KarthikRow();
  }

  lemma ArunRow()
    ensures AcademicRow(MockMarks)(InitialStudents[0]) == LeaderboardEntry(0, "Arun Kumar", "CS101", 261.0, "1")
  {
    ArunScore();
    FirstYearRow(InitialStudents[0], MockMarks, 261.0);
  }

  lemma SnehaRow()
    ensures AcademicRow(MockMarks)(InitialStudents[1]) == LeaderboardEntry(0, "Sneha Reddy", "CS102", 164.0, "1")
  {
    SnehaScore();
    FirstYearRow(InitialStudents[1], MockMarks, 164.0);
  }

  lemma RahulRow()
    ensures AcademicRow(MockMarks)(InitialStudents[2]) == LeaderboardEntry(0, "Rahul Verma", "CS103", 0.0, "1")
  {
    AcademicScoreNoMarks(MockMarks, 3);
    FirstYearRow(InitialStudents[2], MockMarks, 0.0);
  }

  lemma PriyaRow()
    ensures AcademicRow(MockMarks)(InitialStudents[3]) == LeaderboardEntry(0, "Priya Singh", "CS104", 0.0, "1")
  {
    AcademicScoreNoMarks(MockMarks, 4);
    FirstYearRow(InitialStudents[3], MockMarks, 0.0);
  }

  lemma KarthikRow()
    ensures AcademicRow(MockMarks)(InitialStudents[4]) == LeaderboardEntry(0, "Karthik Raj", "CS105", 0.0, "1")
  {
    AcademicScoreNoMarks(MockMarks, 5);
    FirstYearRow(InitialStudents[4], MockMarks, 0.0);
  }

  /** A first-year student's leaderboard row before ranking. */
  lemma FirstYearRow(st: Student, marks: seq<StudentSubjectMark>, score: real)
    requires st.year == Some("1")
    requires AcademicScore(marks, st.id) == score
    ensures AcademicRow(marks)(st) == LeaderboardEntry(0, st.name, st.rollNo, score, "1")
  {
  }

  lemma MapFive<A, B>(s: seq<A>, f: A -> B)
    requires |s| == 5
    ensures Map(s, f) == [f(s[0]), f(s[1]), f(s[2]), f(s[3]), f(s[4])]
  {
  }

  lemma DescendingFive(s: seq<LeaderboardEntry>)
    requires |s| == 5
    requires s[0].totalPoints >= s[1].totalPoints >= s[2].totalPoints >= s[3].totalPoints >= s[4].totalPoints
    ensures Descending(s, Points)
  {
  }

  lemma RanksOfFive(s: seq<LeaderboardEntry>)
    requires |s| == 5
    ensures AssignRanks(s) == [s[0].(rank := 1), s[1].(rank := 2), s[2].(rank := 3), s[3].(rank := 4), s[4].(rank := 5)]
  {
  }

  lemma FirstYearRoster()
    ensures YearFilter(InitialStudents, "1") == InitialStudents[..5]
  {
    YearPrefix(InitialStudents, 5, "1");
  }

  /** A roster whose first `k` students are exactly those of year `y`
      filters to that prefix. */
  lemma YearPrefix(s: seq<Student>, k: nat, y: string)
    requires k <= |s|
    requires forall i :: 0 <= i < k ==> s[i].year == Some(y)
    requires forall i :: k <= i < |s| ==> s[i].year != Some(y)
    ensures Filter(s, InYear(y)) == s[..k]
  {
    FilterRange(s, 0, k, InYear(y));
  }

  /** Arun's three marks are the first three seed rows. */
  lemma ArunScore()
    ensures AcademicScore(MockMarks, 1) == 261.0
  {
    StudentMarks(MockMarks, 0, 3, 1);
    ArunSum();
  }

  /** Sneha's two marks are the next two seed rows. */
  lemma SnehaScore()
    ensures AcademicScore(MockMarks, 2) == 164.0
  {
    StudentMarks(MockMarks, 3, 5, 2);
    SnehaSum();
  }

  /** A student's marks form the slice `lo` to `hi - 1` when no other row is theirs. */
  lemma StudentMarks(m: seq<StudentSubjectMark>, lo: nat, hi: nat, id: int)
    requires lo <= hi <= |m|
    requires forall i :: 0 <= i < lo ==> m[i].studentId != id
    requires forall i :: lo <= i < hi ==> m[i].studentId == id
    requires forall i :: hi <= i < |m| ==> m[i].studentId != id
    ensures Filter(m, MarksOf(id)) == m[lo..hi]
  {
    FilterRange(m, lo, hi, MarksOf(id));
  }

  lemma ArunSum()
    ensures Sum(MockMarks[..3], MarkTotal) == 261.0
  {
    SumThree(MockMarks[..3], MarkTotal);
  }

  lemma SnehaSum()
    ensures Sum(MockMarks[3..5], MarkTotal) == 164.0
  {
    SumTwo(MockMarks[3..5], MarkTotal);
  }

  lemma SumTwo<T>(s: seq<T>, f: T -> real)
    requires |s| == 2
    ensures Sum(s, f) == f(s[0]) + f(s[1])
  {
    var h := s[..1];
    assert h[..0] == [] && h[0] == s[0];
    assert Sum(h, f) == Sum(h[..0], f) + f(h[0]);
    assert Sum(s, f) == Sum(h, f) + f(s[1]);
  }

  lemma SumThree<T>(s: seq<T>, f: T -> real)
    requires |s| == 3
    ensures Sum(s, f) == f(s[0]) + f(s[1]) + f(s[2])
  {
    var h := s[..2];
    SumTwo(h, f);
    assert h[0] == s[0] && h[1] == s[1];
    assert Sum(s, f) == Sum(h, f) + f(s[2]);
  }
}
