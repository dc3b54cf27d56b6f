/** Record shapes of the department portal (types.ts), as Dafny values.
    Ids and achievement points are integers; marks, totals and attendance are
    JavaScript numbers and are modelled as `real`. An optional TypeScript
    field (`year?: string`) is an `Option`. */
module Types {

  datatype Option<+T> = None | Some(value: T) {
    function GetOr(default: T): T {
      match this
      case Some(v) => v
      case None => default
    }
  }

  datatype Role = HOD | Admin | Staff | Student

  /** A user account (types.ts:4-11). */
  datatype User = User(id: int, name: string, email: string, role: Role, year: string, subject: string)

  /** A student record (types.ts:13-23). */
  datatype Student = Student(
    id: int,
    name: string,
    email: Option<string>,
    rollNo: string,
    year: Option<string>,
    internal1: real,
    internal2: real,
    attendance: real,
    cgpa: Option<real>)

  /** A subject taught in one year (types.ts:25-34). */
  datatype Subject = Subject(
    id: int, name: string, code: string, year: string,
    staffId: int, staffName: string, totalStudents: int, lastUpdated: string)

  /** One student's marks in one subject (types.ts:36-47). */
  datatype StudentSubjectMark = StudentSubjectMark(
    studentId: int,
    studentName: string,
    rollNo: string,
    subjectId: int,
    subjectName: string,
    test1: real,
    test2: real,
    assignment: real,
    total: real,
    maxTotal: real)

  datatype AchievementStatus = Pending | Approved | Rejected

  /** A fixed point value per category (types.ts:81-86). */
  datatype AchievementCategory = AchievementCategory(id: int, categoryName: string, points: int, description: string)

  /** A submitted achievement (types.ts:88-104). */
  datatype Achievement = Achievement(
    id: int,
    studentId: int,
    studentName: Option<string>,
    rollNo: Option<string>,
    studentYear: Option<string>,
    categoryId: int,
    categoryName: Option<string>,
    title: string,
    description: string,
    proofFile: string,
    achievementDate: string,
    pointsAwarded: int,
    status: AchievementStatus,
    uploadedAt: string)

  /** A derived ranking row (types.ts:106-112). */
  datatype LeaderboardEntry = LeaderboardEntry(
    rank: int, studentName: string, rollNo: string, totalPoints: real, yearLevel: string)

  /** Per-year analytics (types.ts:69-77). */
  datatype PassFail = PassFail(pass: int, fail: int)
  datatype AttendanceSplit = AttendanceSplit(above75: int, below75: int)
  datatype CgpaBuckets = CgpaBuckets(aPlus: int, a: int, bPlus: int, b: int, c: int, f: int)
  datatype Internship = Internship(completed: int, inProgress: int, notStarted: int)
  datatype Placement = Placement(placed: int, notPlaced: int, higherStudies: int)
  datatype YearlyStats = YearlyStats(
    totalStudents: int,
    internal1: PassFail,
    internal2: PassFail,
    attendance: AttendanceSplit,
    cgpa: CgpaBuckets,
    internship: Option<Internship>,
    placement: Option<Placement>)

  /** Institution branding kept by the data layer (services/api.ts:13-16). */
  datatype Settings = Settings(logoUrl: Option<string>, institutionName: string)

  /** `Math.round` of JavaScript: halves round towards positive infinity. */
  function Round(x: real): (r: int)
    ensures r as real <= x + 0.5 < r as real + 1.0
  {
    (x + 0.5).Floor
  }

  /** Rounding a whole number gives it back. */
  lemma RoundWhole(v: real)
    ensures v == v.Floor as real ==> Round(v) as real == v
  {
    if v == v.Floor as real {
      RoundInt(v.Floor);
    }
  }

  lemma RoundInt(k: int)
    ensures Round(k as real) == k
  {
    var r := Round(k as real);
    assert r > k ==> r as real >= k as real + 1.0;
    assert r < k ==> r as real + 1.0 <= k as real;
  }

  /** `Math.min(hi, Math.max(lo, x))`. */
  function Clamp(x: real, lo: real, hi: real): (r: real)
    requires lo <= hi
    ensures lo <= r <= hi
    ensures lo <= x <= hi ==> r == x
    ensures x < lo ==> r == lo
    ensures hi < x ==> r == hi
  {
    if x < lo then lo else if hi < x then hi else x
  }
}
