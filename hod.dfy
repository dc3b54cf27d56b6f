/** The head of department's dashboard (components/HODDashboard.tsx): the
    overview leaderboard with its year filter, the top-five table and its
    badge, and for one year the analytics fallback, the student directory
    and its at-risk rule. Everything here is a filter, slice, map or
    ternary over data the dashboard fetched. */
module HodDashboard {
  import opened Types
  import opened Seqs
  import opened Text
  import opened Leaderboard
  import MockData

  // ---------------------------------------------------------------------
  // Overview: the filtered leaderboard

  /** The filter predicate: `'All'` keeps every entry, any other value the
      entries whose `year_level` equals it. */
  function Shown(filter: string): LeaderboardEntry -> bool {
    (e: LeaderboardEntry) => filter == "All" || e.yearLevel == filter
  }

  /** `filteredLeaderboard` (and the overview export, which filters the same way). */
  function FilterLeaderboard(lb: seq<LeaderboardEntry>, filter: string): (r: seq<LeaderboardEntry>)
    ensures filter == "All" ==> r == lb
    ensures filter != "All" ==>
      && (forall i :: 0 <= i < |r| ==> r[i] in lb && r[i].yearLevel == filter)
      && (forall i :: 0 <= i < |lb| && lb[i].yearLevel == filter ==> lb[i] in r)
  {
    FilterMembers(lb, Shown(filter));
    FilterAllShown(lb, filter);
    Filter(lb, Shown(filter))
  }

  lemma FilterAllShown(lb: seq<LeaderboardEntry>, filter: string)
    ensures filter == "All" ==> Filter(lb, Shown(filter)) == lb
  {
    if filter == "All" {
      FilterAll(lb, Shown(filter));
    }
  }

  /** Ranks that strictly increase along the sequence. */
  predicate RanksIncrease(s: seq<LeaderboardEntry>) {
    forall i, j :: 0 <= i < j < |s| ==> s[i].rank < s[j].rank
  }

  predicate RanksPositive(s: seq<LeaderboardEntry>) {
    forall i :: 0 <= i < |s| ==> s[i].rank >= 1
  }

  /** A filter keeps relative order, so increasing ranks stay increasing. */
  lemma {:induction false} FilterKeepsRankOrder(s: seq<LeaderboardEntry>, p: LeaderboardEntry -> bool)
    requires RanksIncrease(s)
    ensures RanksIncrease(Filter(s, p))
  {
    if s != [] {
      var t := Filter(s[1..], p);
      FilterKeepsRankOrder(s[1..], p);
      FilterMembers(s[1..], p);
      forall j | 0 <= j < |t| ensures s[0].rank < t[j].rank {
        var k :| 0 <= k < |s[1..]| && s[1..][k] == t[j];
        assert s[k + 1] == t[j];
      }
    }
  }

  /** Positive, strictly increasing integer ranks are at least the position plus one. */
  lemma {:induction false} RankAtLeastPosition(s: seq<LeaderboardEntry>, i: nat)
    requires RanksIncrease(s) && RanksPositive(s)
    requires i < |s|
    ensures s[i].rank >= i + 1
  {
    if i > 0 {
      RankAtLeastPosition(s, i - 1);
    }
  }

  /** The filtered view of a well-ranked leaderboard keeps the global ranks:
      every entry still shows its rank among all years, the ranks increase
      down the view, the points do not, and no rank is below its row number. */
  lemma FilteredViewShape(lb: seq<LeaderboardEntry>, filter: string)
    requires WellRanked(lb)
    ensures RanksIncrease(FilterLeaderboard(lb, filter))
    ensures Descending(FilterLeaderboard(lb, filter), Points)
    ensures forall i :: 0 <= i < |FilterLeaderboard(lb, filter)| ==>
      FilterLeaderboard(lb, filter)[i].rank >= i + 1
  {
    var r := FilterLeaderboard(lb, filter);
    FilterKeepsRankOrder(lb, Shown(filter));
    FilterMembers(lb, Shown(filter));
    forall i | 0 <= i < |r| ensures r[i].rank >= 1 {
      var k :| 0 <= k < |lb| && lb[k] == r[i];
    }
    forall i | 0 <= i < |r| ensures r[i].rank >= i + 1 {
      RankAtLeastPosition(r, i);
    }
    SortDescSorted(lb, Points);
    SortDescFilter(lb, Points, Shown(filter));
    SortDescDescending(Filter(lb, Shown(filter)), Points);
  }

  /** Filtering the all-years ranking by a year shows the same students, in
      the same order, as ranking that year alone; only the rank numbers
      (global in the first, per-year in the second) differ. */
  lemma HodViewMatchesYearRanking(students: seq<Student>, marks: seq<StudentSubjectMark>, year: string)
    requires year != "All" && year != "All Years" && year != ""
    requires year == "1" ==> forall i :: 0 <= i < |students| ==> students[i].year.Some? && students[i].year.value != ""
    ensures Map(FilterLeaderboard(AcademicLeaderboard(students, marks, "All"), year), Unranked)
         == Map(AcademicLeaderboard(students, marks, year), Unranked)
  {
    var overall := AcademicLeaderboard(students, marks, "All");
    YearRankingIsFilteredOverall(students, marks, year);
    FilterCongruent(overall, Shown(year), LevelIs(year));
    FilterMap(overall, Unranked, LevelIs(year), LevelIs(year));
  }

  // ---------------------------------------------------------------------
  // Overview: the top-five table

  /** `filteredLeaderboard.slice(0, 5)`. */
  function TopFive(view: seq<LeaderboardEntry>): (r: seq<LeaderboardEntry>)
    ensures |r| == if |view| < 5 then |view| else 5
    ensures r <= view
  {
    if |view| < 5 then view else view[..5]
  }

  /** On a view whose points do not increase, the table shows entries with
      at least the points of every entry it leaves out. */
  lemma TopFiveAreBest(view: seq<LeaderboardEntry>)
    requires Descending(view, Points)
    ensures forall i, j :: 0 <= i < |TopFive(view)| <= j < |view| ==>
      TopFive(view)[i].totalPoints >= view[j].totalPoints
  {
    forall i, j | 0 <= i < |TopFive(view)| <= j < |view|
      ensures TopFive(view)[i].totalPoints >= view[j].totalPoints
    {
      assert TopFive(view)[i] == view[i];
      assert Points(view[i]) >= Points(view[j]);
    }
  }

  /** The "Top 3" badge. */
  function Badge(e: LeaderboardEntry): (b: string)
    ensures b == "Top 3" <==> e.rank <= 3
    ensures b != "Top 3" ==> b == "Member"
  {
    if e.rank <= 3 then "Top 3" else "Member"
  }

  /** On the unfiltered ranking exactly the first three rows carry the
      badge; on any filtered view at most the first three rows do, because
      ranks stay global. */
  lemma BadgeRows(lb: seq<LeaderboardEntry>, filter: string)
    requires WellRanked(lb)
    ensures forall i :: 0 <= i < |lb| ==> (Badge(lb[i]) == "Top 3" <==> i < 3)
    ensures forall i :: 0 <= i < |FilterLeaderboard(lb, filter)| && Badge(FilterLeaderboard(lb, filter)[i]) == "Top 3" ==> i < 3
  {
    FilteredViewShape(lb, filter);
  }

  /** One row of the overview export. */
  datatype ExportEntry = ExportEntry(rank: int, studentName: string, rollNo: string, year: string, totalPoints: real)

  function ExportEntryOf(e: LeaderboardEntry): ExportEntry {
    ExportEntry(e.rank, e.studentName, e.rollNo, e.yearLevel, e.totalPoints)
  }

  /** The overview export: one row per entry of the filtered view, in order. */
  function OverviewExport(overall: seq<LeaderboardEntry>, filter: string): (rows: seq<ExportEntry>)
    ensures |rows| == |FilterLeaderboard(overall, filter)|
    ensures forall i :: 0 <= i < |rows| ==>
      rows[i].rank == FilterLeaderboard(overall, filter)[i].rank
      && rows[i].rollNo == FilterLeaderboard(overall, filter)[i].rollNo
      && (filter != "All" ==> rows[i].year == filter)
  {
    Map(FilterLeaderboard(overall, filter), ExportEntryOf)
  }

  /** The file the overview export is written to. */
  function OverviewFileName(filter: string): (name: string)
    ensures filter == "All" ==> name == "Department_Overview_All_Years.xlsx"
    ensures filter != "All" ==> name == "Department_Overview_Year_" + filter + ".xlsx"
  {
    "Department_Overview_" + (if filter == "All" then "All_Years" else "Year_" + filter) + ".xlsx"
  }

  // ---------------------------------------------------------------------
  // One year: analytics, leaderboard choice and directory

  datatype Tab = Analytics | Leaderboards | TopPerformers

  /** The year's analytics: the fetched stats, or the mock table when the
      fetch gave nothing. */
  function StatsFor(fetched: Option<YearlyStats>, year: nat): (r: Option<YearlyStats>)
    ensures fetched.Some? ==> r == fetched
    ensures fetched.None? ==> r == MockData.GenerateMockData(year)
  {
    if fetched.Some? then fetched else MockData.GenerateMockData(year)
  }

  /** For the four years of the department, the dashboard always has stats. */
  lemma StatsAlwaysShown(fetched: Option<YearlyStats>, year: nat)
    requires 1 <= year <= 4
    ensures StatsFor(fetched, year).Some?
    ensures fetched.None? ==> StatsFor(fetched, year).value.totalStudents > 0
  {
  }

  /** The leaderboard year requested for a selected year: every year on the
      top-performers tab, the selected year otherwise. */
  function LeaderboardYear(tab: Tab, selectedYear: nat): (year: string)
    ensures tab == TopPerformers ==> year == "All"
    ensures tab != TopPerformers ==> year == NatToString(selectedYear) && year != "All" && year != "All Years"
  {
    if tab == TopPerformers then "All" else NatToString(selectedYear)
  }

  /** `all.filter(s => s.year === selectedYear.toString())`. */
  function Directory(students: seq<Student>, selectedYear: nat): (r: seq<Student>)
    ensures forall i :: 0 <= i < |r| ==> r[i] in students && r[i].year == Some(NatToString(selectedYear))
    ensures forall i :: 0 <= i < |students| && students[i].year == Some(NatToString(selectedYear)) ==> students[i] in r
  {
    FilterMembers(students, InYear(NatToString(selectedYear)));
    Filter(students, InYear(NatToString(selectedYear)))
  }

  /** The directory is the same roster the year's leaderboard ranks. */
  lemma DirectoryIsYearRoster(students: seq<Student>, selectedYear: nat)
    ensures Directory(students, selectedYear) == YearFilter(students, NatToString(selectedYear))
  {
    var y := NatToString(selectedYear);
    assert y[0] != 'A';
  }

  /** At Risk: attendance below 75 or a first internal below 50. */
  predicate AtRisk(s: Student) {
    s.attendance < 75.0 || s.internal1 < 50.0
  }

  /** `Math.round((internal1 + internal2) / 2)`. */
  function AvgMarks(s: Student): (r: int)
    ensures (s.internal1 + s.internal2) / 2.0 - 0.5 < r as real <= (s.internal1 + s.internal2) / 2.0 + 0.5
  {
    Round((s.internal1 + s.internal2) / 2.0)
  }

  /** The average lies between the two internals, up to rounding. */
  lemma AvgMarksBetween(s: Student, lo: int, hi: int)
    requires lo as real <= s.internal1 <= hi as real && lo as real <= s.internal2 <= hi as real
    ensures lo <= AvgMarks(s) <= hi
  {
  }

  /** One row of the student directory, on screen and in the export alike. */
  datatype DirectoryRow = DirectoryRow(
    rollNo: string, name: string, attendance: real, internal1: real, internal2: real,
    avgMarks: int, status: string)

  function DirectoryRowOf(s: Student): (row: DirectoryRow)
    ensures row.status == "At Risk" <==> s.attendance < 75.0 || s.internal1 < 50.0
    ensures row.status != "At Risk" ==> row.status == "Good"
    ensures row.avgMarks == AvgMarks(s)
    ensures row.rollNo == s.rollNo && row.attendance == s.attendance
  {
    DirectoryRow(s.rollNo, s.name, s.attendance, s.internal1, s.internal2, AvgMarks(s),
                 if AtRisk(s) then "At Risk" else "Good")
  }

  /** The status never depends on the second internal. */
  lemma StatusIgnoresInternal2(s: Student, v: real)
    ensures DirectoryRowOf(s.(internal2 := v)).status == DirectoryRowOf(s).status
  {
  }

  /** The year export's directory sheet: one row per directory student, in order. */
  function DirectoryExport(students: seq<Student>, selectedYear: nat): (rows: seq<DirectoryRow>)
    ensures |rows| == |Directory(students, selectedYear)|
    ensures forall i :: 0 <= i < |rows| ==> rows[i] == DirectoryRowOf(Directory(students, selectedYear)[i])
  {
    Map(Directory(students, selectedYear), DirectoryRowOf)
  }
}
