/** The three leaderboards of the data layer (services/api.ts:319-398).
    Each filters its candidates, scores them, sorts by descending score with
    JavaScript's stable `Array.prototype.sort` and numbers the rows from 1. */
module Leaderboard {
  import opened Types
  import opened Seqs

  // ---------------------------------------------------------------------
  // Stable sort by descending key

  /** Inserts `x` in front of the first element whose key is not larger. */
  function Insert<T>(x: T, s: seq<T>, key: T -> real): seq<T>
  {
    if s == [] || key(s[0]) <= key(x) then [x] + s else [s[0]] + Insert(x, s[1..], key)
  }

  /** `s.sort((a, b) => key(b) - key(a))`: insertion sort, stable like the engine's sort. */
  function SortDesc<T>(s: seq<T>, key: T -> real): seq<T>
  {
    if s == [] then [] else Insert(s[0], SortDesc(s[1..], key), key)
  }

  predicate Descending<T>(s: seq<T>, key: T -> real) {
    forall i, j :: 0 <= i < j < |s| ==> key(s[i]) >= key(s[j])
  }

  /** The predicate "has key `k`". */
  function KeyIs<T>(key: T -> real, k: real): T -> bool {
    x => key(x) == k
  }

  lemma {:induction false} InsertMultiset<T>(x: T, s: seq<T>, key: T -> real)
    ensures multiset(Insert(x, s, key)) == multiset([x]) + multiset(s)
  {
    if s != [] && key(s[0]) > key(x) {
      InsertMultiset(x, s[1..], key);
      assert s == [s[0]] + s[1..];
    }
  }

  lemma {:induction false} InsertDescending<T>(x: T, s: seq<T>, key: T -> real)
    requires Descending(s, key)
    ensures Descending(Insert(x, s, key), key)
  {
    if s != [] && key(s[0]) > key(x) {
      InsertDescending(x, s[1..], key);
      var t := Insert(x, s[1..], key);
      InsertMultiset(x, s[1..], key);
      forall j | 0 <= j < |t| ensures key(s[0]) >= key(t[j]) {
        assert t[j] in multiset(t);
        if t[j] != x {
          assert t[j] in s[1..];
        }
      }
    }
  }

  /** The sort orders by non-increasing key ... */
  lemma {:induction false} SortDescDescending<T>(s: seq<T>, key: T -> real)
    ensures Descending(SortDesc(s, key), key)
  {
    if s != [] {
      SortDescDescending(s[1..], key);
      InsertDescending(s[0], SortDesc(s[1..], key), key);
    }
  }

  /** ... and rearranges its input without losing or adding elements. */
  lemma {:induction false} SortDescPermutes<T>(s: seq<T>, key: T -> real)
    ensures multiset(SortDesc(s, key)) == multiset(s)
    ensures |SortDesc(s, key)| == |s|
  {
    if s != [] {
      SortDescPermutes(s[1..], key);
      InsertMultiset(s[0], SortDesc(s[1..], key), key);
      assert s == [s[0]] + s[1..];
    }
    assert |multiset(SortDesc(s, key))| == |SortDesc(s, key)|;
  }

  lemma {:induction false} InsertFilter<T>(x: T, t: seq<T>, key: T -> real, p: T -> bool)
    requires Descending(t, key)
    ensures Filter(Insert(x, t, key), p) == if p(x) then Insert(x, Filter(t, p), key) else Filter(t, p)
  {
    if t == [] {
      assert Insert(x, t, key) == [x] + [];
      FilterCons(x, [], p);
    } else if key(t[0]) <= key(x) {
      InsertFilterAtHead(x, t, key, p);
    } else {
      assert Descending(t[1..], key);
      InsertFilter(x, t[1..], key, p);
      InsertFilterPastHead(x, t, key, p);
    }
  }

  /** `InsertFilter` when `x` goes in front. */
  lemma InsertFilterAtHead<T>(x: T, t: seq<T>, key: T -> real, p: T -> bool)
    requires Descending(t, key)
    requires t != [] && key(t[0]) <= key(x)
    ensures Filter(Insert(x, t, key), p) == if p(x) then Insert(x, Filter(t, p), key) else Filter(t, p)
  {
    FilterCons(x, t, p);
    var ft := Filter(t, p);
    if ft != [] {
      FilterMembers(t, p);
      assert ft[0] in t;
      var j :| 0 <= j < |t| && t[j] == ft[0];
      assert key(t[0]) >= key(t[j]);
    }
  }

  /** `InsertFilter` when `x` goes past the head, given the claim for the tail. */
  lemma InsertFilterPastHead<T>(x: T, t: seq<T>, key: T -> real, p: T -> bool)
    requires t != [] && key(t[0]) > key(x)
    requires Filter(Insert(x, t[1..], key), p)
          == if p(x) then Insert(x, Filter(t[1..], p), key) else Filter(t[1..], p)
    ensures Filter(Insert(x, t, key), p) == if p(x) then Insert(x, Filter(t, p), key) else Filter(t, p)
  {
    var i := Insert(x, t[1..], key);
    var f1 := Filter(t[1..], p);
    var h := if p(t[0]) then [t[0]] else [];
    InsertPast(x, t, key);
    FilterCons(t[0], i, p);
    FilterHead(t, p);
    if p(t[0]) && p(x) {
      var u := [t[0]] + f1;
      assert u[0] == t[0] && u[1..] == f1;
      InsertPast(x, u, key);
    } else if p(t[0]) {
      assert Filter(t, p) == [t[0]] + f1;
    } else {
      assert Filter(t, p) == f1;
      assert Filter(Insert(x, t, key), p) == Filter(i, p);
    }
  }

  /** One step of `Insert` past a head with a larger key. */
  lemma InsertPast<T>(x: T, t: seq<T>, key: T -> real)
    requires t != [] && key(t[0]) > key(x)
    ensures Insert(x, t, key) == [t[0]] + Insert(x, t[1..], key)
  {
  }

  /** Sorting then filtering is filtering then sorting: ranking within a
      partition keeps the relative order of the whole ranking. */
  lemma {:induction false} SortDescFilter<T>(s: seq<T>, key: T -> real, p: T -> bool)
    ensures Filter(SortDesc(s, key), p) == SortDesc(Filter(s, p), key)
  {
    if s != [] {
      SortDescFilter(s[1..], key, p);
      SortDescDescending(s[1..], key);
      InsertFilter(s[0], SortDesc(s[1..], key), key, p);
      assert s == [s[0]] + s[1..];
      FilterCons(s[0], s[1..], p);
      var f1 := Filter(s[1..], p);
      assert SortDesc(s, key) == Insert(s[0], SortDesc(s[1..], key), key);
      assert Filter(s, p) == (if p(s[0]) then [s[0]] else []) + f1;
      if p(s[0]) {
        assert ([s[0]] + f1)[0] == s[0] && ([s[0]] + f1)[1..] == f1;
        assert SortDesc([s[0]] + f1, key) == Insert(s[0], SortDesc(f1, key), key);
      } else {
        assert Filter(s, p) == f1;
      }
    }
  }

  /** A sequence already in order is left as it is. */
  lemma {:induction false} SortDescSorted<T>(s: seq<T>, key: T -> real)
    requires Descending(s, key)
    ensures SortDesc(s, key) == s
  {
    if s != [] {
      SortDescSorted(s[1..], key);
      assert s == [s[0]] + s[1..];
    }
  }

  /** Stability: the elements with any one key keep their input order. */
  lemma SortDescStable<T>(s: seq<T>, key: T -> real, k: real)
    ensures Filter(SortDesc(s, key), KeyIs(key, k)) == Filter(s, KeyIs(key, k))
  {
    SortDescFilter(s, key, KeyIs(key, k));
    var f := Filter(s, KeyIs(key, k));
    FilterMembers(s, KeyIs(key, k));
    assert forall i :: 0 <= i < |f| ==> key(f[i]) == k;
    SortDescSorted(f, key);
  }

  lemma {:induction false} InsertMap<A, B>(x: A, t: seq<A>, f: A -> B, ka: A -> real, kb: B -> real)
    requires forall y :: kb(f(y)) == ka(y)
    ensures Insert(f(x), Map(t, f), kb) == Map(Insert(x, t, ka), f)
  {
    if t != [] && ka(t[0]) > ka(x) {
      InsertMap(x, t[1..], f, ka, kb);
      assert Map(t, f)[1..] == Map(t[1..], f);
      assert Map([t[0]] + Insert(x, t[1..], ka), f) == [f(t[0])] + Map(Insert(x, t[1..], ka), f);
    } else {
      assert Map([x] + t, f) == [f(x)] + Map(t, f);
    }
  }

  /** Sorting by a key and then mapping is mapping and then sorting by the
      same key read off the images. */
  lemma {:induction false} SortDescMap<A, B>(s: seq<A>, f: A -> B, ka: A -> real, kb: B -> real)
    requires forall y :: kb(f(y)) == ka(y)
    ensures SortDesc(Map(s, f), kb) == Map(SortDesc(s, ka), f)
  {
    if s != [] {
      SortDescMap(s[1..], f, ka, kb);
      assert Map(s, f)[1..] == Map(s[1..], f);
      InsertMap(s[0], SortDesc(s[1..], ka), f, ka, kb);
    }
  }

  // ---------------------------------------------------------------------
  // Ranking

  /** `rows.map((entry, index) => ({...entry, rank: index + 1}))`. */
  function AssignRanks(rows: seq<LeaderboardEntry>): seq<LeaderboardEntry>
  {
    seq(|rows|, i requires 0 <= i < |rows| => rows[i].(rank := i + 1))
  }

  function Points(e: LeaderboardEntry): real { e.totalPoints }

  /** Sort descending by points, then number the rows. */
  function Rank(rows: seq<LeaderboardEntry>): seq<LeaderboardEntry>
  {
    AssignRanks(SortDesc(rows, Points))
  }

  /** The entry without its rank. */
  function Unranked(e: LeaderboardEntry): LeaderboardEntry { e.(rank := 0) }

  predicate WellRanked(r: seq<LeaderboardEntry>) {
    && (forall i :: 0 <= i < |r| ==> r[i].rank == i + 1)
    && Descending(r, Points)
  }

  /** A ranking has one row per candidate, ranks 1, 2, 3, ..., non-increasing
      points, and, ranks aside, holds exactly the candidates' rows. */
  lemma RankShape(rows: seq<LeaderboardEntry>)
    requires forall i :: 0 <= i < |rows| ==> rows[i].rank == 0
    ensures |Rank(rows)| == |rows|
    ensures WellRanked(Rank(rows))
    ensures multiset(Map(Rank(rows), Unranked)) == multiset(rows)
    ensures Map(Rank(rows), Unranked) == SortDesc(rows, Points)
  {
    var t := SortDesc(rows, Points);
    SortDescPermutes(rows, Points);
    SortDescDescending(rows, Points);
    forall i | 0 <= i < |t| ensures t[i].rank == 0 {
      assert t[i] in multiset(rows);
    }
    assert Map(Rank(rows), Unranked) == t;
  }

  /** An empty candidate set gives an empty leaderboard. */
  lemma RankEmpty()
    ensures Rank([]) == []
  {
  }

  // ---------------------------------------------------------------------
  // Candidates and scores

  /** Year `'All'` or `'All Years'` takes every student, any other year exactly
      the students whose `year` is that string, in roster order. */
  function YearFilter(students: seq<Student>, year: string): (r: seq<Student>)
    ensures year == "All" || year == "All Years" ==> r == students
    ensures year != "All" && year != "All Years" ==>
      && (forall i :: 0 <= i < |r| ==> r[i] in students && r[i].year == Some(year))
      && (forall i :: 0 <= i < |students| && students[i].year == Some(year) ==> students[i] in r)
  {
    FilterMembers(students, InYear(year));
    if year == "All" || year == "All Years" then students else Filter(students, InYear(year))
  }

  function InYear(year: string): Student -> bool {
    (s: Student) => s.year == Some(year)
  }

  /** `student.year || '1'`. */
  function YearLevel(s: Student): string {
    match s.year
    case Some(y) => if y != "" then y else "1"
    case None => "1"
  }

  function MarksOf(studentId: int): StudentSubjectMark -> bool {
    (m: StudentSubjectMark) => m.studentId == studentId
  }

  function MarkTotal(m: StudentSubjectMark): real { m.total }

  /** Sum of `total` over the student's marks. */
  function AcademicScore(marks: seq<StudentSubjectMark>, studentId: int): real {
    Sum(Filter(marks, MarksOf(studentId)), MarkTotal)
  }

  function ApprovedOf(studentId: int): Achievement -> bool {
    (a: Achievement) => a.studentId == studentId && a.status == Approved
  }

  function AchievementPoints(a: Achievement): real { a.pointsAwarded as real }

  /** Sum of `points_awarded` over the student's approved achievements. */
  function AchievementScore(achievements: seq<Achievement>, studentId: int): real {
    Sum(Filter(achievements, ApprovedOf(studentId)), AchievementPoints)
  }

  function AcademicRow(marks: seq<StudentSubjectMark>): Student -> LeaderboardEntry {
    (s: Student) => LeaderboardEntry(0, s.name, s.rollNo, AcademicScore(marks, s.id), YearLevel(s))
  }

  function AchievementRow(achievements: seq<Achievement>): Student -> LeaderboardEntry {
    (s: Student) => LeaderboardEntry(0, s.name, s.rollNo, AchievementScore(achievements, s.id), YearLevel(s))
  }

  function SubjectRow(m: StudentSubjectMark): LeaderboardEntry {
    LeaderboardEntry(0, m.studentName, m.rollNo, m.total, "N/A")
  }

  function OfSubject(subjectId: int): StudentSubjectMark -> bool {
    (m: StudentSubjectMark) => m.subjectId == subjectId
  }

  // ---------------------------------------------------------------------
  // The three leaderboards

  /** `getLeaderboard(year)`: academic marks. */
  function AcademicLeaderboard(students: seq<Student>, marks: seq<StudentSubjectMark>, year: string): seq<LeaderboardEntry>
  {
    Rank(Map(YearFilter(students, year), AcademicRow(marks)))
  }

  /** `getAchievementLeaderboard(year)`: approved achievement points. */
  function AchievementLeaderboard(students: seq<Student>, achievements: seq<Achievement>, year: string): seq<LeaderboardEntry>
  {
    Rank(Map(YearFilter(students, year), AchievementRow(achievements)))
  }

  /** `getSubjectLeaderboard(subjectId)`: the subject's mark rows sorted by
      total, then turned into entries. */
  function SubjectLeaderboard(marks: seq<StudentSubjectMark>, subjectId: int): seq<LeaderboardEntry>
  {
    AssignRanks(Map(SortDesc(Filter(marks, OfSubject(subjectId)), MarkTotal), SubjectRow))
  }

  // ---------------------------------------------------------------------
  // What the leaderboards promise

  /** `r` ranks exactly `rows`: one entry per row, ranks 1, 2, 3, ...,
      non-increasing points, and, ranks aside, the same rows. */
  predicate RanksExactly(r: seq<LeaderboardEntry>, rows: seq<LeaderboardEntry>) {
    && |r| == |rows|
    && WellRanked(r)
    && multiset(Map(r, Unranked)) == multiset(rows)
  }

  lemma AcademicLeaderboardRanks(students: seq<Student>, marks: seq<StudentSubjectMark>, year: string)
    ensures RanksExactly(AcademicLeaderboard(students, marks, year), Map(YearFilter(students, year), AcademicRow(marks)))
    ensures YearFilter(students, year) == [] ==> AcademicLeaderboard(students, marks, year) == []
  {
    RankShape(Map(YearFilter(students, year), AcademicRow(marks)));
  }

  lemma AchievementLeaderboardRanks(students: seq<Student>, achievements: seq<Achievement>, year: string)
    ensures RanksExactly(AchievementLeaderboard(students, achievements, year),
                         Map(YearFilter(students, year), AchievementRow(achievements)))
    ensures YearFilter(students, year) == [] ==> AchievementLeaderboard(students, achievements, year) == []
  {
    RankShape(Map(YearFilter(students, year), AchievementRow(achievements)));
  }

  /** The subject leaderboard ranks the subject's marks only, each as a row
      with its total as points and year level `'N/A'`. */
  lemma SubjectLeaderboardRanks(marks: seq<StudentSubjectMark>, subjectId: int)
    ensures RanksExactly(SubjectLeaderboard(marks, subjectId), Map(Filter(marks, OfSubject(subjectId)), SubjectRow))
    ensures forall i :: 0 <= i < |SubjectLeaderboard(marks, subjectId)| ==>
      SubjectLeaderboard(marks, subjectId)[i].yearLevel == "N/A"
    ensures (forall i :: 0 <= i < |marks| ==> marks[i].subjectId != subjectId) ==> SubjectLeaderboard(marks, subjectId) == []
  {
    var f := Filter(marks, OfSubject(subjectId));
    SortDescMap(f, SubjectRow, MarkTotal, Points);
    assert SubjectLeaderboard(marks, subjectId) == Rank(Map(f, SubjectRow));
    RankShape(Map(f, SubjectRow));
    if forall i :: 0 <= i < |marks| ==> marks[i].subjectId != subjectId {
      FilterNone(marks, OfSubject(subjectId));
    }
  }

  /** A student with no marks scores 0. */
  lemma AcademicScoreNoMarks(marks: seq<StudentSubjectMark>, studentId: int)
    requires forall i :: 0 <= i < |marks| ==> marks[i].studentId != studentId
    ensures AcademicScore(marks, studentId) == 0.0
  {
    FilterNone(marks, MarksOf(studentId));
  }

  /** Adding a mark adds its total to its own student's score and to no one else's. */
  lemma AcademicScoreAppend(marks: seq<StudentSubjectMark>, m: StudentSubjectMark, studentId: int)
    ensures AcademicScore(marks + [m], studentId)
         == AcademicScore(marks, studentId) + (if m.studentId == studentId then m.total else 0.0)
  {
    FilterAppend(marks, [m], MarksOf(studentId));
    assert Filter([m], MarksOf(studentId)) == (if m.studentId == studentId then [m] else []) + Filter([], MarksOf(studentId));
    SumAppend(Filter(marks, MarksOf(studentId)), Filter([m], MarksOf(studentId)), MarkTotal);
    assert Sum([m], MarkTotal) == Sum([], MarkTotal) + m.total;
  }

  /** Only approved achievements score: adding a pending or rejected one
      changes no score, adding an approved one adds its points to its student. */
  lemma AchievementScoreAppend(achievements: seq<Achievement>, a: Achievement, studentId: int)
    ensures AchievementScore(achievements + [a], studentId)
         == AchievementScore(achievements, studentId)
            + (if a.studentId == studentId && a.status == Approved then a.pointsAwarded as real else 0.0)
  {
    FilterAppend(achievements, [a], ApprovedOf(studentId));
    assert Filter([a], ApprovedOf(studentId))
        == (if ApprovedOf(studentId)(a) then [a] else []) + Filter([], ApprovedOf(studentId));
    SumAppend(Filter(achievements, ApprovedOf(studentId)), Filter([a], ApprovedOf(studentId)), AchievementPoints);
    assert Sum([a], AchievementPoints) == Sum([], AchievementPoints) + a.pointsAwarded as real;
  }

  function LevelIs(year: string): LeaderboardEntry -> bool {
    (e: LeaderboardEntry) => e.yearLevel == year
  }

  /** Ranking one year and keeping one year of the all-years ranking give the
      same students in the same order; only the rank numbers differ. The
      year must not be one that `student.year || '1'` produces for a student
      without a year, unless every student has one. */
  lemma YearRankingIsFilteredOverall(students: seq<Student>, marks: seq<StudentSubjectMark>, year: string)
    requires year != "All" && year != "All Years" && year != ""
    requires year == "1" ==> forall i :: 0 <= i < |students| ==> students[i].year.Some? && students[i].year.value != ""
    ensures Map(AcademicLeaderboard(students, marks, year), Unranked)
         == Filter(Map(AcademicLeaderboard(students, marks, "All"), Unranked), LevelIs(year))
  {
    var all := Map(students, AcademicRow(marks));
    RankShape(all);
    SortDescFilter(all, Points, LevelIs(year));
    FilterMap(students, AcademicRow(marks), LevelIs(year), InYear(year));
    RankShape(Map(YearFilter(students, year), AcademicRow(marks)));
  }
}
