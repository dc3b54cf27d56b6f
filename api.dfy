/** The in-memory data layer of services/api.ts: the module-level arrays the
    local fallback reads and rewrites, modelled as the fields of one `Store`.
    The remote database calls are not modelled; every operation here is the
    branch that runs when they fail or time out. Generated ids
    (`Date.now()`, `Math.random()`) and timestamps are parameters. */
module Api {
  import opened Types
  import opened Seqs
  import opened Leaderboard
  import MockData

  /** A settings listener, identified by the function object the caller registered. */
  type Listener = nat

  /** `Omit<User, 'id'>`. */
  datatype UserDraft = UserDraft(name: string, email: string, role: Role, year: string, subject: string)

  /** `Omit<Subject, 'id'>`. */
  datatype SubjectDraft = SubjectDraft(
    name: string, code: string, year: string, staffId: int, staffName: string,
    totalStudents: int, lastUpdated: string)

  /** `Partial<Student>`: `Some` for each field the caller supplied. */
  datatype StudentUpdate = StudentUpdate(
    id: Option<int>,
    name: Option<string>,
    email: Option<string>,
    rollNo: Option<string>,
    year: Option<string>,
    internal1: Option<real>,
    internal2: Option<real>,
    attendance: Option<real>,
    cgpa: Option<real>)

  /** `Partial<Achievement>` as read by `uploadAchievement`. */
  datatype AchievementDraft = AchievementDraft(
    categoryId: Option<int>, title: Option<string>, description: Option<string>,
    proofFile: Option<string>, achievementDate: Option<string>)

  const InstitutionName: string := "Dr. N.G.P. INSTITUTE OF TECHNOLOGY"

  // ---------------------------------------------------------------------
  // Pure rules behind the store operations

  function NotUser(id: int): User -> bool {
    (u: User) => u.id != id
  }

  /** `localUsers.filter(u => u.id !== id)`: every user with the id goes, every other stays. */
  function WithoutUser(users: seq<User>, id: int): (r: seq<User>)
    ensures forall i :: 0 <= i < |r| ==> r[i].id != id && r[i] in users
    ensures forall i :: 0 <= i < |users| && users[i].id != id ==> users[i] in r
  {
    FilterMembers(users, NotUser(id));
    Filter(users, NotUser(id))
  }

  /** `{ ...s, ...updates }`. */
  function MergeStudent(s: Student, u: StudentUpdate): Student {
    Student.Student(
      u.id.GetOr(s.id),
      u.name.GetOr(s.name),
      if u.email.Some? then u.email else s.email,
      u.rollNo.GetOr(s.rollNo),
      if u.year.Some? then u.year else s.year,
      u.internal1.GetOr(s.internal1),
      u.internal2.GetOr(s.internal2),
      u.attendance.GetOr(s.attendance),
      if u.cgpa.Some? then u.cgpa else s.cgpa)
  }

  /** `localStudents.map(s => s.id === id ? { ...s, ...updates } : s)`. */
  function UpdatedStudents(students: seq<Student>, id: int, u: StudentUpdate): (r: seq<Student>)
    ensures |r| == |students|
    ensures forall i :: 0 <= i < |r| && students[i].id != id ==> r[i] == students[i]
    ensures forall i :: 0 <= i < |r| && students[i].id == id ==>
      && r[i].attendance == u.attendance.GetOr(students[i].attendance)
      && r[i].name == u.name.GetOr(students[i].name)
      && r[i].rollNo == u.rollNo.GetOr(students[i].rollNo)
      && r[i].internal1 == u.internal1.GetOr(students[i].internal1)
      && r[i].internal2 == u.internal2.GetOr(students[i].internal2)
      && r[i].id == u.id.GetOr(students[i].id)
      && r[i].email == (if u.email.Some? then u.email else students[i].email)
      && r[i].year == (if u.year.Some? then u.year else students[i].year)
      && r[i].cgpa == (if u.cgpa.Some? then u.cgpa else students[i].cgpa)
  {
    Map(students, (s: Student) => if s.id == id then MergeStudent(s, u) else s)
  }

  /** Applying the same partial update twice is applying it once, as long as
      it does not rename the record. */
  lemma UpdatedStudentsIdempotent(students: seq<Student>, id: int, u: StudentUpdate)
    requires u.id.None? || u.id == Some(id)
    ensures UpdatedStudents(UpdatedStudents(students, id, u), id, u) == UpdatedStudents(students, id, u)
  {
  }

  /** An update that supplies no field changes nothing. */
  lemma EmptyUpdateIsIdentity(students: seq<Student>, id: int)
    ensures UpdatedStudents(students, id, StudentUpdate(None, None, None, None, None, None, None, None, None)) == students
  {
    var r := UpdatedStudents(students, id, StudentUpdate(None, None, None, None, None, None, None, None, None));
    assert forall i :: 0 <= i < |r| ==> r[i] == students[i];
  }

  function InSubjectYear(year: string): Subject -> bool {
    (s: Subject) => s.year == year
  }

  function NotSubject(id: int): Subject -> bool {
    (s: Subject) => s.id != id
  }

  function NotOfSubject(id: int): StudentSubjectMark -> bool {
    (m: StudentSubjectMark) => m.subjectId != id
  }

  /** A filter shortens its input exactly when some element fails it. */
  lemma {:induction false} FilterShorter<T>(s: seq<T>, p: T -> bool)
    ensures |Filter(s, p)| < |s| <==> exists i :: 0 <= i < |s| && !p(s[i])
  {
    if s != [] {
      FilterShorter(s[1..], p);
      assert s == [s[0]] + s[1..];
      FilterCons(s[0], s[1..], p);
      if exists i :: 0 <= i < |s[1..]| && !p(s[1..][i]) {
        var i :| 0 <= i < |s[1..]| && !p(s[1..][i]);
        assert !p(s[i + 1]);
      }
      if exists i :: 0 <= i < |s| && !p(s[i]) {
        var i :| 0 <= i < |s| && !p(s[i]);
        if i > 0 {
          assert !p(s[1..][i - 1]);
        }
      }
    }
  }

  /** The slot `(studentId, subjectId)` that `updateSubjectMarks` matches on. */
  function SameSlot(studentId: int, subjectId: int): StudentSubjectMark -> bool {
    (m: StudentSubjectMark) => m.studentId == studentId && m.subjectId == subjectId
  }

  /** One step of `updateSubjectMarks`: the first entry in the mark's slot is
      replaced in place, or, when there is none, the mark is appended. The
      slot is the mark's student and the subject passed to the call, not the
      mark's own `subjectId`. */
  function Upsert(marks: seq<StudentSubjectMark>, subjectId: int, m: StudentSubjectMark): seq<StudentSubjectMark>
  {
    match FindIndex(marks, SameSlot(m.studentId, subjectId))
    case Some(k) => marks[k := m]
    case None => marks + [m]
  }

  /** Where an upsert puts the mark: appended when its slot is free;
      otherwise over the first entry of the slot, every other entry kept. */
  lemma UpsertPlaces(marks: seq<StudentSubjectMark>, subjectId: int, m: StudentSubjectMark)
    ensures (forall i :: 0 <= i < |marks| ==> !SameSlot(m.studentId, subjectId)(marks[i])) ==>
      Upsert(marks, subjectId, m) == marks + [m]
    ensures forall k :: 0 <= k < |marks| && SameSlot(m.studentId, subjectId)(marks[k])
                        && (forall i :: 0 <= i < k ==> !SameSlot(m.studentId, subjectId)(marks[i])) ==>
      var r := Upsert(marks, subjectId, m);
      && |r| == |marks|
      && r[k] == m
      && (forall j :: 0 <= j < |marks| && j != k ==> r[j] == marks[j])
  {
    match FindIndex(marks, SameSlot(m.studentId, subjectId))
    case Some(k) =>
      assert SameSlot(m.studentId, subjectId)(marks[k]);
      assert forall i :: 0 <= i < k ==> !SameSlot(m.studentId, subjectId)(marks[i]);
    case None =>
  }

  /** `marks.forEach(mark => upsert)`, one mark after the other. */
  function UpsertAll(marks: seq<StudentSubjectMark>, subjectId: int, incoming: seq<StudentSubjectMark>): seq<StudentSubjectMark>
  {
    if incoming == [] then marks
    else Upsert(UpsertAll(marks, subjectId, incoming[..|incoming| - 1]), subjectId, incoming[|incoming| - 1])
  }

  /** One more mark of the incoming list is one more upsert. */
  lemma UpsertAllStep(marks: seq<StudentSubjectMark>, subjectId: int, incoming: seq<StudentSubjectMark>, i: nat)
    requires i < |incoming|
    ensures UpsertAll(marks, subjectId, incoming[..i + 1])
         == Upsert(UpsertAll(marks, subjectId, incoming[..i]), subjectId, incoming[i])
  {
    assert incoming[..i + 1][..i] == incoming[..i];
  }

  /** No two entries share a (student, subject) slot. The seed marks have this. */
  predicate SlotsUnique(marks: seq<StudentSubjectMark>) {
    forall i, j :: 0 <= i < j < |marks| ==>
      !(marks[i].studentId == marks[j].studentId && marks[i].subjectId == marks[j].subjectId)
  }

  /** An upsert of a mark that belongs to the subject keeps slots unique. */
  lemma UpsertKeepsSlotsUnique(marks: seq<StudentSubjectMark>, subjectId: int, m: StudentSubjectMark)
    requires SlotsUnique(marks)
    requires m.subjectId == subjectId
    ensures SlotsUnique(Upsert(marks, subjectId, m))
  {
    UpsertPlaces(marks, subjectId, m);
  }

  /** Saving a sheet of marks for one subject keeps slots unique, even when
      the sheet names a student twice. */
  lemma {:induction false} UpsertAllKeepsSlotsUnique(marks: seq<StudentSubjectMark>, subjectId: int, incoming: seq<StudentSubjectMark>)
    requires SlotsUnique(marks)
    requires forall i :: 0 <= i < |incoming| ==> incoming[i].subjectId == subjectId
    ensures SlotsUnique(UpsertAll(marks, subjectId, incoming))
  {
    if incoming != [] {
      UpsertAllKeepsSlotsUnique(marks, subjectId, incoming[..|incoming| - 1]);
      UpsertKeepsSlotsUnique(UpsertAll(marks, subjectId, incoming[..|incoming| - 1]), subjectId, incoming[|incoming| - 1]);
    }
  }

  /** After an upsert the first entry of the slot is the new mark. */
  lemma UpsertThenFind(marks: seq<StudentSubjectMark>, subjectId: int, m: StudentSubjectMark)
    requires m.subjectId == subjectId
    ensures var r := Upsert(marks, subjectId, m);
      && FindIndex(r, SameSlot(m.studentId, subjectId)).Some?
      && r[FindIndex(r, SameSlot(m.studentId, subjectId)).value] == m
  {
    var r := Upsert(marks, subjectId, m);
    match FindIndex(marks, SameSlot(m.studentId, subjectId))
    case Some(k) =>
      assert SameSlot(m.studentId, subjectId)(r[k]);
      assert forall i :: 0 <= i < k ==> r[i] == marks[i];
    case None =>
      assert SameSlot(m.studentId, subjectId)(r[|marks|]);
  }

  /** `verifyAchievement`'s rewrite of one record: the new status, and
      `points || 0` as points. */
  function Verified(a: Achievement, status: AchievementStatus, points: Option<int>): Achievement {
    a.(status := status, pointsAwarded := if points.Some? then points.value else 0)
  }

  /** `localAchievements.map(a => a.id === id ? {...} : a)`. */
  function VerifiedAll(achievements: seq<Achievement>, id: int, status: AchievementStatus, points: Option<int>): (r: seq<Achievement>)
    ensures |r| == |achievements|
    ensures forall i :: 0 <= i < |r| && achievements[i].id != id ==> r[i] == achievements[i]
    ensures forall i :: 0 <= i < |r| && achievements[i].id == id ==>
      && r[i].status == status
      && r[i].pointsAwarded == (if points.Some? then points.value else 0)
      && r[i].(status := achievements[i].status, pointsAwarded := achievements[i].pointsAwarded) == achievements[i]
  {
    Map(achievements, (a: Achievement) => if a.id == id then Verified(a, status, points) else a)
  }

  /** Verifying twice with the same decision is verifying once. */
  lemma VerifiedAllIdempotent(achievements: seq<Achievement>, id: int, status: AchievementStatus, points: Option<int>)
    ensures VerifiedAll(VerifiedAll(achievements, id, status, points), id, status, points)
         == VerifiedAll(achievements, id, status, points)
  {
  }

  function NotAchievement(id: int): Achievement -> bool {
    (a: Achievement) => a.id != id
  }

  /** After a rejection the record is no longer among anyone's approved
      achievements; the others are. */
  lemma {:induction false} RejectedFilter(achievements: seq<Achievement>, id: int, points: Option<int>, studentId: int)
    ensures Filter(VerifiedAll(achievements, id, Rejected, points), ApprovedOf(studentId))
         == Filter(Filter(achievements, NotAchievement(id)), ApprovedOf(studentId))
  {
    if achievements != [] {
      var s := achievements;
      var v := VerifiedAll(s, id, Rejected, points);
      RejectedFilter(s[1..], id, points, studentId);
      assert v == [v[0]] + VerifiedAll(s[1..], id, Rejected, points);
      assert s == [s[0]] + s[1..];
      FilterCons(v[0], VerifiedAll(s[1..], id, Rejected, points), ApprovedOf(studentId));
      FilterCons(s[0], s[1..], NotAchievement(id));
      if s[0].id != id {
        assert v[0] == s[0];
        FilterCons(s[0], Filter(s[1..], NotAchievement(id)), ApprovedOf(studentId));
      } else {
        assert !ApprovedOf(studentId)(v[0]);
        assert Filter(s, NotAchievement(id)) == Filter(s[1..], NotAchievement(id));
        assert Filter(v, ApprovedOf(studentId)) == Filter(VerifiedAll(s[1..], id, Rejected, points), ApprovedOf(studentId));
      }
    }
  }

  /** Rejecting an achievement takes it out of every achievement score. */
  lemma RejectedScoresNothing(achievements: seq<Achievement>, id: int, points: Option<int>, studentId: int)
    ensures AchievementScore(VerifiedAll(achievements, id, Rejected, points), studentId)
         == AchievementScore(Filter(achievements, NotAchievement(id)), studentId)
  {
    RejectedFilter(achievements, id, points, studentId);
  }

  /** `achievementCategories.find(c => c.id === id)?.category_name || 'General'`. */
  function CategoryName(categoryId: Option<int>): string {
    match categoryId
    case None => "General"
    case Some(cid) =>
      match FindIndex(MockData.AchievementCategories, (c: AchievementCategory) => c.id == cid)
      case Some(k) => if MockData.AchievementCategories[k].categoryName != "" then MockData.AchievementCategories[k].categoryName else "General"
      case None => "General"
  }

  /** `x || fallback` for an optional string. */
  function OrText(x: Option<string>, fallback: string): string {
    if x.Some? && x.value != "" then x.value else fallback
  }

  /** The record `uploadAchievement` prepends: always pending, with no
      points, for the demo student 1 ('CS101'). */
  function NewAchievement(data: AchievementDraft, id: int, uploadedAt: string): (a: Achievement)
    ensures a.status == Pending && a.pointsAwarded == 0 && a.studentId == 1 && a.id == id
    ensures a.categoryId == (if data.categoryId.Some? then data.categoryId.value else 0)
    ensures data.categoryId.None? ==> a.categoryName == Some("General")
    ensures data.title.Some? && data.title.value != "" ==> a.title == data.title.value
  {
    Achievement(
      id, 1, Some("Current Student"), Some("CS101"), None,
      data.categoryId.GetOr(0),
      Some(CategoryName(data.categoryId)),
      OrText(data.title, ""), OrText(data.description, ""), OrText(data.proofFile, ""),
      OrText(data.achievementDate, ""), 0, Pending, uploadedAt)
  }

  /** A new upload changes no one's achievement score until it is approved. */
  lemma UploadScoresNothing(achievements: seq<Achievement>, data: AchievementDraft, id: int, uploadedAt: string, studentId: int)
    ensures AchievementScore([NewAchievement(data, id, uploadedAt)] + achievements, studentId)
         == AchievementScore(achievements, studentId)
  {
    FilterCons(NewAchievement(data, id, uploadedAt), achievements, ApprovedOf(studentId));
    assert [] + Filter(achievements, ApprovedOf(studentId)) == Filter(achievements, ApprovedOf(studentId));
  }

  /** `indexOf` then `splice(index, 1)`: the first occurrence goes, if any. */
  function RemoveFirst(s: seq<Listener>, l: Listener): (r: seq<Listener>)
    ensures |r| == (if l in s then |s| - 1 else |s|)
  {
    if s == [] then []
    else if s[0] == l then s[1..]
    else [s[0]] + RemoveFirst(s[1..], l)
  }

  /** Removing a listener that is not registered changes nothing; removing
      one that is takes away exactly one registration of it. */
  lemma {:induction false} RemoveFirstRemovesOne(s: seq<Listener>, l: Listener)
    ensures l !in s ==> RemoveFirst(s, l) == s
    ensures l in s ==> multiset(RemoveFirst(s, l)) == multiset(s) - multiset{l}
  {
    if s != [] {
      RemoveFirstRemovesOne(s[1..], l);
      assert s == [s[0]] + s[1..];
    }
  }

  /** Of a listener registered more than once, only the first registration
      is removed. */
  lemma {:induction false} RemoveFirstKeepsLater(s: seq<Listener>, l: Listener, t: seq<Listener>)
    requires l !in s
    ensures RemoveFirst(s + [l] + t, l) == s + t
  {
    var u := s + [l] + t;
    if s == [] {
      assert u == [l] + t;
      assert u[1..] == t;
    } else {
      var w := s[1..] + [l] + t;
      assert u[0] == s[0] && u[1..] == w;
      RemoveFirstPast(u, l);
      RemoveFirstKeepsLater(s[1..], l, t);
      assert s + t == [s[0]] + (s[1..] + t);
    }
  }

  /** One step of `RemoveFirst` past a head that is another listener. */
  lemma RemoveFirstPast(s: seq<Listener>, l: Listener)
    requires s != [] && s[0] != l
    ensures RemoveFirst(s, l) == [s[0]] + RemoveFirst(s[1..], l)
  {
  }

  /** Unsubscribing right after subscribing restores the list, and calling
      the returned unsubscribe again changes nothing more. */
  lemma SubscribeUnsubscribe(s: seq<Listener>, l: Listener)
    requires l !in s
    ensures RemoveFirst(s + [l], l) == s
    ensures RemoveFirst(RemoveFirst(s + [l], l), l) == s
  {
    RemoveFirstKeepsLater(s, l, []);
    assert s + [l] + [] == s + [l] && s + [] == s;
  }

  /** `settingsListeners.forEach(listener => listener(settings))`: the calls
      made, in order. */
  method Notify(listeners: seq<Listener>, settings: Settings) returns (calls: seq<(Listener, Settings)>)
    ensures |calls| == |listeners|
    ensures forall i :: 0 <= i < |calls| ==> calls[i] == (listeners[i], settings)
  {
    calls := [];
    for i := 0 to |listeners|
      invariant |calls| == i
      invariant forall k :: 0 <= k < i ==> calls[k] == (listeners[k], settings)
    {
      calls := calls + [(listeners[i], settings)];
    }
  }

  /** The row `getMarksForSubject` makes up for a student without marks. */
  function Placeholder(st: Student, subject: Subject): StudentSubjectMark {
    StudentSubjectMark(st.id, st.name, st.rollNo, subject.id, subject.name, 0.0, 0.0, 0.0, 0.0, 100.0)
  }

  /** The stored mark of the student in the subject, or the placeholder. */
  function MarkFor(marks: seq<StudentSubjectMark>, st: Student, subject: Subject, subjectId: int): (r: StudentSubjectMark)
    ensures forall k :: 0 <= k < |marks| && SameSlot(st.id, subjectId)(marks[k])
                        && (forall j :: 0 <= j < k ==> !SameSlot(st.id, subjectId)(marks[j])) ==>
      r == marks[k]
    ensures (forall j :: 0 <= j < |marks| ==> !SameSlot(st.id, subjectId)(marks[j])) ==>
      r == Placeholder(st, subject)
    ensures (exists j :: 0 <= j < |marks| && SameSlot(st.id, subjectId)(marks[j])) ==>
      r in marks && r.studentId == st.id && r.subjectId == subjectId
  {
    match FindIndex(marks, SameSlot(st.id, subjectId))
    case Some(k) =>
      assert SameSlot(st.id, subjectId)(marks[k]);
      assert forall j :: 0 <= j < k ==> !SameSlot(st.id, subjectId)(marks[j]);
      marks[k]
    case None => Placeholder(st, subject)
  }

  /** `r` holds one row per student of `inYear`, in order: the student's
      stored mark in the subject when there is one, else the placeholder. */
  predicate RowsFor(r: seq<StudentSubjectMark>, inYear: seq<Student>, marks: seq<StudentSubjectMark>, subject: Subject, subjectId: int) {
    && |r| == |inYear|
    && forall i :: 0 <= i < |r| ==>
      && r[i].studentId == inYear[i].id
      && r[i].subjectId == subjectId
      && (forall k :: 0 <= k < |marks| && SameSlot(inYear[i].id, subjectId)(marks[k])
                      && (forall j :: 0 <= j < k ==> !SameSlot(inYear[i].id, subjectId)(marks[j])) ==>
            r[i] == marks[k])
      && ((forall j :: 0 <= j < |marks| ==> !SameSlot(inYear[i].id, subjectId)(marks[j])) ==>
            r[i] == Placeholder(inYear[i], subject))
  }

  /** The rows `getMarksForSubject` builds for the students of a subject's year. */
  function SubjectRows(inYear: seq<Student>, marks: seq<StudentSubjectMark>, subject: Subject, subjectId: int): (r: seq<StudentSubjectMark>)
    requires subject.id == subjectId
    ensures RowsFor(r, inYear, marks, subject, subjectId)
  {
    Map(inYear, (st: Student) => MarkFor(marks, st, subject, subjectId))
  }

  /** The rows for a subject id over given tables, as `getMarksForSubject`
      builds them. */
  function MarksForSubject(subjects: seq<Subject>, students: seq<Student>, marks: seq<StudentSubjectMark>, subjectId: int)
    : (r: seq<StudentSubjectMark>)
    ensures (forall i :: 0 <= i < |subjects| ==> subjects[i].id != subjectId) ==> r == []
    ensures forall k :: 0 <= k < |subjects| && subjects[k].id == subjectId
                        && (forall i :: 0 <= i < k ==> subjects[i].id != subjectId) ==>
      RowsFor(r, Filter(students, InYear(subjects[k].year)), marks, subjects[k], subjectId)
  {
    match FindIndex(subjects, HasSubjectId(subjectId))
    case None => []
    case Some(k) =>
      FirstSubjectIs(subjects, subjectId, k);
      SubjectRows(Filter(students, InYear(subjects[k].year)), marks, subjects[k], subjectId)
  }

  /** The first subject with the id is the one `findIndex` finds. */
  lemma FirstSubjectIs(subjects: seq<Subject>, subjectId: int, k: nat)
    requires FindIndex(subjects, HasSubjectId(subjectId)) == Some(k)
    ensures k < |subjects| && subjects[k].id == subjectId
    ensures forall k' ::
      (0 <= k' < |subjects| && subjects[k'].id == subjectId
       && (forall i :: 0 <= i < k' ==> subjects[i].id != subjectId)) ==> k' == k
  {
    assert HasSubjectId(subjectId)(subjects[k]);
    assert forall i :: 0 <= i < k ==> !HasSubjectId(subjectId)(subjects[i]);
  }

  function HasSubjectId(subjectId: int): Subject -> bool {
    (s: Subject) => s.id == subjectId
  }

  function HasStudentId(studentId: int): Student -> bool {
    (s: Student) => s.id == studentId
  }

  /** `student?.year || 'N/A'` for the first student with the id: that
      student's year when it is present and not empty, otherwise 'N/A'. */
  function StudentYear(students: seq<Student>, studentId: int): (r: string)
    ensures (forall k :: 0 <= k < |students| ==> students[k].id != studentId) ==> r == "N/A"
    ensures forall k :: 0 <= k < |students| && students[k].id == studentId
                        && (forall j :: 0 <= j < k ==> students[j].id != studentId) ==>
      && (students[k].year.Some? && students[k].year.value != "" ==> r == students[k].year.value)
      && (students[k].year.None? || students[k].year.value == "" ==> r == "N/A")
  {
    match FindIndex(students, HasStudentId(studentId))
    case Some(k) =>
      assert HasStudentId(studentId)(students[k]);
      assert forall j :: 0 <= j < k ==> !HasStudentId(studentId)(students[j]);
      OrText(students[k].year, "N/A")
    case None => "N/A"
  }

  predicate IsPending(a: Achievement) {
    a.status == Pending
  }

  /** `getAllPendingAchievements` over given tables: the pending
      achievements in their stored order, each tagged with the year of its
      student. */
  function PendingWithYears(achievements: seq<Achievement>, students: seq<Student>): (r: seq<Achievement>)
    ensures var pending := Filter(achievements, IsPending);
      && |r| == |pending|
      && forall i :: 0 <= i < |r| ==>
        r[i] == pending[i].(studentYear := Some(StudentYear(students, pending[i].studentId)))
  {
    Map(Filter(achievements, IsPending), (a: Achievement) => a.(studentYear := Some(StudentYear(students, a.studentId))))
  }

  /** Every entry is pending and tagged, and comes from a stored
      achievement that differs from it at most in the year tag. */
  lemma PendingWithYearsFromStore(achievements: seq<Achievement>, students: seq<Student>)
    ensures var r := PendingWithYears(achievements, students);
      forall i :: 0 <= i < |r| ==>
        && r[i].status == Pending && r[i].studentYear.Some?
        && r[i].(studentYear := None) in Map(achievements, (a: Achievement) => a.(studentYear := None))
  {
    var pending := Filter(achievements, IsPending);
    var clear := (a: Achievement) => a.(studentYear := None);
    FilterMembers(achievements, IsPending);
    var r := PendingWithYears(achievements, students);
    forall i | 0 <= i < |r|
      ensures r[i].(studentYear := None) in Map(achievements, clear)
    {
      var j :| 0 <= j < |achievements| && achievements[j] == pending[i];
      assert Map(achievements, clear)[j] == r[i].(studentYear := None);
    }
  }

  // ---------------------------------------------------------------------
  // The store

  class Store {
    var users: seq<User>
    var students: seq<Student>
    var subjects: seq<Subject>
    var marks: seq<StudentSubjectMark>
    var achievements: seq<Achievement>
    var settings: Settings
    var listeners: seq<Listener>

    /** The session starts from copies of the seed arrays (services/api.ts:7-20). */
    constructor ()
      ensures users == MockData.InitialUsers && students == MockData.InitialStudents
      ensures subjects == MockData.MockSubjects && marks == MockData.MockMarks
      ensures achievements == MockData.MockAchievements
      ensures settings == Settings(None, InstitutionName) && listeners == []
    {
      users := MockData.InitialUsers;
      students := MockData.InitialStudents;
      subjects := MockData.MockSubjects;
      marks := MockData.MockMarks;
      achievements := MockData.MockAchievements;
      settings := Settings(None, InstitutionName);
      listeners := [];
    }

    /** `createUser`: the draft with the fresh id is appended and returned. */
    method CreateUser(draft: UserDraft, freshId: int) returns (u: User)
      modifies this
      ensures u == User(freshId, draft.name, draft.email, draft.role, draft.year, draft.subject)
      ensures users == old(users) + [u]
      ensures students == old(students) && subjects == old(subjects) && marks == old(marks)
      ensures achievements == old(achievements) && settings == old(settings) && listeners == old(listeners)
    {
      u := User(freshId, draft.name, draft.email, draft.role, draft.year, draft.subject);
      users := users + [u];
    }

    /** `deleteUser`: drops every user with the id; always reports success. */
    method DeleteUser(id: int) returns (ok: bool)
      modifies this
      ensures ok
      ensures users == WithoutUser(old(users), id)
      ensures students == old(students) && subjects == old(subjects) && marks == old(marks)
      ensures achievements == old(achievements) && settings == old(settings) && listeners == old(listeners)
    {
      users := WithoutUser(users, id);
      ok := true;
    }

    /** `getUserRole`: the role of the first user with exactly that email. */
    function GetUserRole(email: string): (r: Option<Role>)
      reads this
      ensures r.None? <==> forall i :: 0 <= i < |users| ==> users[i].email != email
      ensures r.Some? ==> exists i :: (0 <= i < |users| && users[i].email == email && users[i].role == r.value
                                       && forall j :: 0 <= j < i ==> users[j].email != email)
    {
      match FindIndex(users, (u: User) => u.email == email)
      case Some(k) => Some(users[k].role)
      case None => None
    }

    /** `updateStudent`: merges the supplied fields into the records with the id. */
    method UpdateStudent(id: int, updates: StudentUpdate) returns (ok: bool)
      modifies this
      ensures ok
      ensures students == UpdatedStudents(old(students), id, updates)
      ensures users == old(users) && subjects == old(subjects) && marks == old(marks)
      ensures achievements == old(achievements) && settings == old(settings) && listeners == old(listeners)
    {
      students := UpdatedStudents(students, id, updates);
      ok := true;
    }

    /** `getSubjectsByYear`: exactly the subjects of the year, in order. */
    function GetSubjectsByYear(year: string): (r: seq<Subject>)
      reads this
      ensures forall i :: 0 <= i < |r| ==> r[i] in subjects && r[i].year == year
      ensures forall i :: 0 <= i < |subjects| && subjects[i].year == year ==> subjects[i] in r
    {
      FilterMembers(subjects, InSubjectYear(year));
      Filter(subjects, InSubjectYear(year))
    }

    /** `createSubject`: the draft with the fresh id is appended and returned. */
    method CreateSubject(draft: SubjectDraft, freshId: int) returns (s: Subject)
      modifies this
      ensures s == Subject(freshId, draft.name, draft.code, draft.year, draft.staffId, draft.staffName,
                           draft.totalStudents, draft.lastUpdated)
      ensures subjects == old(subjects) + [s]
      ensures users == old(users) && students == old(students) && marks == old(marks)
      ensures achievements == old(achievements) && settings == old(settings) && listeners == old(listeners)
    {
      s := Subject(freshId, draft.name, draft.code, draft.year, draft.staffId, draft.staffName,
                   draft.totalStudents, draft.lastUpdated);
      subjects := subjects + [s];
    }

    /** `deleteSubject`: removes the subject and, in cascade, its marks;
        reports whether a subject was removed. */
    method DeleteSubject(id: int) returns (removed: bool)
      modifies this
      ensures subjects == Filter(old(subjects), NotSubject(id))
      ensures marks == Filter(old(marks), NotOfSubject(id))
      ensures removed <==> exists i :: 0 <= i < |old(subjects)| && old(subjects)[i].id == id
      ensures users == old(users) && students == old(students)
      ensures achievements == old(achievements) && settings == old(settings) && listeners == old(listeners)
    {
      var initialLen := |subjects|;
      FilterShorter(subjects, NotSubject(id));
      subjects := Filter(subjects, NotSubject(id));
      marks := Filter(marks, NotOfSubject(id));
      removed := |subjects| < initialLen;
    }

    /** `getMarksForSubject`: nothing for an unknown subject; otherwise one row
        per student of the subject's year, in roster order: the stored mark,
        or a zeroed placeholder out of 100. */
    function GetMarksForSubject(subjectId: int): (r: seq<StudentSubjectMark>)
      reads this
      ensures (forall i :: 0 <= i < |subjects| ==> subjects[i].id != subjectId) ==> r == []
      ensures forall k :: 0 <= k < |subjects| && subjects[k].id == subjectId
                          && (forall i :: 0 <= i < k ==> subjects[i].id != subjectId) ==>
        RowsFor(r, Filter(students, InYear(subjects[k].year)), marks, subjects[k], subjectId)
    {
      MarksForSubject(subjects, students, marks, subjectId)
    }

    /** `updateSubjectMarks`: upserts each mark in turn into its slot. */
    method UpdateSubjectMarks(subjectId: int, incoming: seq<StudentSubjectMark>) returns (ok: bool)
      modifies this
      ensures ok
      ensures marks == UpsertAll(old(marks), subjectId, incoming)
      ensures users == old(users) && students == old(students) && subjects == old(subjects)
      ensures achievements == old(achievements) && settings == old(settings) && listeners == old(listeners)
    {
      var i := 0;
      while i < |incoming|
        invariant 0 <= i <= |incoming|
        invariant marks == UpsertAll(old(marks), subjectId, incoming[..i])
        invariant users == old(users) && students == old(students) && subjects == old(subjects)
        invariant achievements == old(achievements) && settings == old(settings) && listeners == old(listeners)
      {
        var mark := incoming[i];
        ghost var before := marks;
        UpsertAllStep(old(marks), subjectId, incoming, i);
        var index := FindIndex(marks, SameSlot(mark.studentId, subjectId));
        if index.Some? {
          marks := marks[index.value := mark];
        } else {
          marks := marks + [mark];
        }
        assert marks == Upsert(before, subjectId, mark);
        i := i + 1;
      }
      assert incoming[..i] == incoming;
      ok := true;
    }

    /** `getAllPendingAchievements`: the pending achievements in order, each
        tagged with its student's year. */
    function GetAllPendingAchievements(): (r: seq<Achievement>)
      reads this
      ensures var pending := Filter(achievements, IsPending);
        && |r| == |pending|
        && forall i :: 0 <= i < |r| ==>
          r[i] == pending[i].(studentYear := Some(StudentYear(students, pending[i].studentId)))
    {
      PendingWithYears(achievements, students)
    }

    /** `uploadAchievement`: the new record goes in front. */
    method UploadAchievement(data: AchievementDraft, freshId: int, uploadedAt: string) returns (ok: bool)
      modifies this
      ensures ok
      ensures achievements == [NewAchievement(data, freshId, uploadedAt)] + old(achievements)
      ensures users == old(users) && students == old(students) && subjects == old(subjects)
      ensures marks == old(marks) && settings == old(settings) && listeners == old(listeners)
    {
      achievements := [NewAchievement(data, freshId, uploadedAt)] + achievements;
      ok := true;
    }

    /** `verifyAchievement`: status and points of the records with the id are set. */
    method VerifyAchievement(id: int, status: AchievementStatus, points: Option<int>) returns (ok: bool)
      requires status != Pending
      modifies this
      ensures ok
      ensures achievements == VerifiedAll(old(achievements), id, status, points)
      ensures users == old(users) && students == old(students) && subjects == old(subjects)
      ensures marks == old(marks) && settings == old(settings) && listeners == old(listeners)
    {
      achievements := VerifiedAll(achievements, id, status, points);
      ok := true;
    }

    /** `getLeaderboard(year)`. */
    function GetLeaderboard(year: string): (r: seq<LeaderboardEntry>)
      reads this
      ensures RanksExactly(r, Map(YearFilter(students, year), AcademicRow(marks)))
    {
      AcademicLeaderboardRanks(students, marks, year);
      AcademicLeaderboard(students, marks, year)
    }

    /** `getAchievementLeaderboard(year)`. */
    function GetAchievementLeaderboard(year: string): (r: seq<LeaderboardEntry>)
      reads this
      ensures RanksExactly(r, Map(YearFilter(students, year), AchievementRow(achievements)))
    {
      AchievementLeaderboardRanks(students, achievements, year);
      AchievementLeaderboard(students, achievements, year)
    }

    /** `getSubjectLeaderboard(subjectId)`. */
    function GetSubjectLeaderboard(subjectId: int): (r: seq<LeaderboardEntry>)
      reads this
      ensures RanksExactly(r, Map(Filter(marks, OfSubject(subjectId)), SubjectRow))
      ensures forall i :: 0 <= i < |r| ==> r[i].yearLevel == "N/A"
    {
      SubjectLeaderboardRanks(marks, subjectId);
      SubjectLeaderboard(marks, subjectId)
    }

    /** `subscribeToSettings`: registers the listener at the end. */
    method SubscribeToSettings(l: Listener)
      modifies this
      ensures listeners == old(listeners) + [l]
      ensures users == old(users) && students == old(students) && subjects == old(subjects)
      ensures marks == old(marks) && achievements == old(achievements) && settings == old(settings)
    {
      listeners := listeners + [l];
    }

    /** The function `subscribeToSettings` returns. */
    method Unsubscribe(l: Listener)
      modifies this
      ensures listeners == RemoveFirst(old(listeners), l)
      ensures users == old(users) && students == old(students) && subjects == old(subjects)
      ensures marks == old(marks) && achievements == old(achievements) && settings == old(settings)
    {
      listeners := RemoveFirst(listeners, l);
    }

    /** `updateInstitutionSettings`: merges the new logo into the settings and
        calls every listener once, in registration order, with the result. */
    method UpdateInstitutionSettings(logoUrl: Option<string>) returns (calls: seq<(Listener, Settings)>, ok: bool)
      modifies this
      ensures ok
      ensures settings == old(settings).(logoUrl := logoUrl)
      ensures |calls| == |listeners|
      ensures forall i :: 0 <= i < |calls| ==> calls[i] == (listeners[i], settings)
      ensures users == old(users) && students == old(students) && subjects == old(subjects)
      ensures marks == old(marks) && achievements == old(achievements) && listeners == old(listeners)
    {
      settings := settings.(logoUrl := logoUrl);
      calls := Notify(listeners, settings);
      ok := true;
    }
  }
}
