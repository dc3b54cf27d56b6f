/** The two spreadsheet imports of the staff dashboard
    (components/StaffDashboard.tsx, `handleFileUpload` and
    `handleAttendanceFileUpload`). Reading the workbook is not modelled: each
    import receives the rows `sheet_to_json` produces, one map from column
    header to cell per line, and walks them with a counter as the source
    does. JavaScript's `parseFloat` and its number coercion of text are
    parameters (`None` stands for NaN). */
module SheetImport {
  import opened Types
  import opened Seqs
  import StaffDashboard

  /** A spreadsheet cell as `sheet_to_json` delivers it. */
  datatype Cell = Text(text: string) | Number(num: real)

  /** One spreadsheet line: header to cell; a missing key is `undefined`. */
  type Row = map<string, Cell>

  /** JavaScript truthiness of a cell: the empty string and 0 are falsy. */
  predicate Truthy(c: Cell) {
    match c
    case Text(t) => t != ""
    case Number(n) => n != 0.0
  }

  function Get(row: Row, key: string): Option<Cell> {
    if key in row then Some(row[key]) else None
  }

  predicate TruthyAt(row: Row, key: string) {
    key in row && Truthy(row[key])
  }

  /** `row[k1] || row[k2] || ...` when some operand is truthy: the first
      truthy one. `None` when no operand is truthy. */
  function FirstTruthy(row: Row, keys: seq<string>): (r: Option<Cell>)
    ensures r.None? <==> forall i :: 0 <= i < |keys| ==> !TruthyAt(row, keys[i])
    ensures r.Some? ==> Truthy(r.value)
    ensures r.Some? ==> exists i :: 0 <= i < |keys| && TruthyAt(row, keys[i]) && row[keys[i]] == r.value
                                   && forall j :: 0 <= j < i ==> !TruthyAt(row, keys[j])
    ensures forall i :: 0 <= i < |keys| && TruthyAt(row, keys[i]) && (forall j :: 0 <= j < i ==> !TruthyAt(row, keys[j])) ==>
      r == Some(row[keys[i]])
  {
    if keys == [] then None
    else if TruthyAt(row, keys[0]) then Some(row[keys[0]])
    else
      var r := FirstTruthy(row, keys[1..]);
      assert forall i :: 1 <= i < |keys| ==> keys[i] == keys[1..][i - 1];
      r
  }

  /** The whole `||` chain: the first truthy operand, or else the last
      operand as it is, which may be `undefined`. */
  function OrChain(row: Row, keys: seq<string>): Option<Cell>
    requires keys != []
  {
    var t := FirstTruthy(row, keys);
    if t.Some? then t else Get(row, keys[|keys| - 1])
  }

  // ---------------------------------------------------------------------
  // Marks import

  /** `m.rollNo === row.roll_no || m.rollNo === row['Roll No']`. */
  function RollMatches(row: Row): StudentSubjectMark -> bool {
    (m: StudentSubjectMark) => Get(row, "roll_no") == Some(Text(m.rollNo)) || Get(row, "Roll No") == Some(Text(m.rollNo))
  }

  /** One score column: `row.a || row.b || current`. A truthy number wins;
      with no truthy cell the current score stays. */
  function ScoreFrom(row: Row, keys: seq<string>, current: real): (r: real)
    ensures (forall i :: 0 <= i < |keys| ==> !TruthyAt(row, keys[i])) ==> r == current
    ensures forall i :: 0 <= i < |keys| && TruthyAt(row, keys[i]) && (forall j :: 0 <= j < i ==> !TruthyAt(row, keys[j])) ==>
      r == (if row[keys[i]].Number? then row[keys[i]].num else current)
    ensures r != current ==> r != 0.0
  {
    match FirstTruthy(row, keys)
    case Some(Number(x)) => x
    case _ => current
  }

  /** The update of the matched mark: the three scores from the row, then
      the total recomputed from them. */
  function MarkFromRow(m: StudentSubjectMark, row: Row): (r: StudentSubjectMark)
    ensures StaffDashboard.TotalConsistent(r)
    ensures StaffDashboard.Identity(r) == StaffDashboard.Identity(m)
    ensures r.test1 == ScoreFrom(row, ["test1", "Test 1"], m.test1)
    ensures r.test2 == ScoreFrom(row, ["test2", "Test 2"], m.test2)
    ensures r.assignment == ScoreFrom(row, ["assignment", "Assignment"], m.assignment)
    ensures !TruthyAt(row, "test1") && !TruthyAt(row, "Test 1") ==> r.test1 == m.test1
    ensures !TruthyAt(row, "test2") && !TruthyAt(row, "Test 2") ==> r.test2 == m.test2
    ensures !TruthyAt(row, "assignment") && !TruthyAt(row, "Assignment") ==> r.assignment == m.assignment
  {
    var t1 := ScoreFrom(row, ["test1", "Test 1"], m.test1);
    var t2 := ScoreFrom(row, ["test2", "Test 2"], m.test2);
    var a := ScoreFrom(row, ["assignment", "Assignment"], m.assignment);
    m.(test1 := t1, test2 := t2, assignment := a, total := t1 + t2 + a)
  }

  /** One line of the marks sheet: the first mark with its roll number is
      updated; a line that matches no mark changes nothing. */
  function ImportMarkRow(marks: seq<StudentSubjectMark>, row: Row): (r: seq<StudentSubjectMark>)
    ensures |r| == |marks|
    ensures (forall i :: 0 <= i < |marks| ==> !RollMatches(row)(marks[i])) ==> r == marks
    ensures forall i :: 0 <= i < |marks| && r[i] != marks[i] ==>
      RollMatches(row)(marks[i]) && r[i] == MarkFromRow(marks[i], row)
    ensures forall k :: 0 <= k < |marks| && RollMatches(row)(marks[k])
                        && (forall j :: 0 <= j < k ==> !RollMatches(row)(marks[j])) ==>
      && r[k] == MarkFromRow(marks[k], row)
      && forall i :: 0 <= i < |marks| && i != k ==> r[i] == marks[i]
  {
    match FindIndex(marks, RollMatches(row))
    case Some(k) =>
      assert RollMatches(row)(marks[k]);
      assert forall i :: 0 <= i < k ==> !RollMatches(row)(marks[i]);
      marks[k := MarkFromRow(marks[k], row)]
    case None => marks
  }

  /** The marks after every line, in sheet order. */
  function ImportedMarks(marks: seq<StudentSubjectMark>, rows: seq<Row>): (r: seq<StudentSubjectMark>)
    ensures |r| == |marks|
  {
    if rows == [] then marks
    else ImportMarkRow(ImportedMarks(marks, rows[..|rows| - 1]), rows[|rows| - 1])
  }

  /** A line matches when some mark carries its roll number. */
  function Matched(marks: seq<StudentSubjectMark>): Row -> bool {
    (row: Row) => FindIndex(marks, RollMatches(row)).Some?
  }

  /** The matched lines, counted line by line. */
  function MatchCount(marks: seq<StudentSubjectMark>, rows: seq<Row>): nat {
    |Filter(rows, Matched(marks))|
  }

  predicate SameRollNos(a: seq<StudentSubjectMark>, b: seq<StudentSubjectMark>) {
    |a| == |b| && forall i :: 0 <= i < |a| ==> a[i].rollNo == b[i].rollNo
  }

  /** Importing never changes which roll number sits where, so every line
      is matched against the roll numbers of the table as loaded. */
  lemma {:induction false} ImportedMarksKeepRollNos(marks: seq<StudentSubjectMark>, rows: seq<Row>)
    ensures SameRollNos(ImportedMarks(marks, rows), marks)
  {
    if rows != [] {
      ImportedMarksKeepRollNos(marks, rows[..|rows| - 1]);
    }
  }

  /** Every row the import touches carries a consistent total, so a table
      of consistent rows stays consistent. */
  lemma {:induction false} ImportedMarksConsistent(marks: seq<StudentSubjectMark>, rows: seq<Row>)
    requires forall i :: 0 <= i < |marks| ==> StaffDashboard.TotalConsistent(marks[i])
    ensures forall i :: 0 <= i < |marks| ==> StaffDashboard.TotalConsistent(ImportedMarks(marks, rows)[i])
  {
    if rows != [] {
      var prev := ImportedMarks(marks, rows[..|rows| - 1]);
      ImportedMarksConsistent(marks, rows[..|rows| - 1]);
      assert ImportedMarks(marks, rows) == ImportMarkRow(prev, rows[|rows| - 1]);
    }
  }

  /** A sheet none of whose lines match changes nothing and counts nothing. */
  lemma {:induction false} UnmatchedSheetChangesNothing(marks: seq<StudentSubjectMark>, rows: seq<Row>)
    requires forall j :: 0 <= j < |rows| ==> !Matched(marks)(rows[j])
    ensures ImportedMarks(marks, rows) == marks
    ensures MatchCount(marks, rows) == 0
  {
    FilterNone(rows, Matched(marks));
    if rows != [] {
      UnmatchedSheetChangesNothing(marks, rows[..|rows| - 1]);
    }
  }

  /** The counter counts lines, not students: a sheet pasted twice counts
      each matched line twice. */
  lemma DuplicateLinesCountTwice(marks: seq<StudentSubjectMark>, rows: seq<Row>)
    ensures MatchCount(marks, rows + rows) == 2 * MatchCount(marks, rows)
  {
    FilterAppend(rows, rows, Matched(marks));
  }

  /** One more line: the table and the counter each take one step. */
  lemma MarksStep(marks: seq<StudentSubjectMark>, rows: seq<Row>, i: nat)
    requires i < |rows|
    ensures ImportedMarks(marks, rows[..i + 1]) == ImportMarkRow(ImportedMarks(marks, rows[..i]), rows[i])
    ensures MatchCount(marks, rows[..i + 1]) == MatchCount(marks, rows[..i]) + (if Matched(marks)(rows[i]) then 1 else 0)
  {
    assert rows[..i + 1] == rows[..i] + [rows[i]];
    assert rows[..i + 1][..i] == rows[..i];
    FilterAppend(rows[..i], [rows[i]], Matched(marks));
    FilterCons(rows[i], [], Matched(marks));
  }

  /** `handleFileUpload`'s loop over the sheet: the updated table and the
      number of matched lines. */
  method ImportMarks(marks: seq<StudentSubjectMark>, rows: seq<Row>) returns (updated: seq<StudentSubjectMark>, matchCount: nat)
    ensures updated == ImportedMarks(marks, rows)
    ensures matchCount == MatchCount(marks, rows)
  {
    updated := marks;
    matchCount := 0;
    for i := 0 to |rows|
      invariant updated == ImportedMarks(marks, rows[..i])
      invariant matchCount == MatchCount(marks, rows[..i])
    {
      var row := rows[i];
      ghost var before := updated;
      MarksStep(marks, rows, i);
      ImportedMarksKeepRollNos(marks, rows[..i]);
      FindIndexCongruent(updated, marks, RollMatches(row));
      var targetIndex := FindIndex(updated, RollMatches(row));
      if targetIndex.Some? {
        matchCount := matchCount + 1;
        var current := updated[targetIndex.value];
        updated := updated[targetIndex.value := MarkFromRow(current, row)];
      }
      assert updated == ImportMarkRow(before, row);
    }
    assert rows[..|rows|] == rows;
  }

  // ---------------------------------------------------------------------
  // Attendance import

  const RollAliases: seq<string> := ["roll_no", "Roll No", "rollNo", "Roll_No"]
  const AttendanceAliases: seq<string> := ["attendance", "Attendance", "Attendance %", "attendance %"]

  /** `parseFloat` of a cell: a number is itself, text goes through `parse`. */
  function ParseCell(c: Cell, parse: string -> Option<real>): Option<real> {
    match c
    case Number(x) => Some(x)
    case Text(t) => parse(t)
  }

  /** The numeric value the comparison `attendanceVal < 2` sees. */
  function CoerceCell(c: Cell, toNumber: string -> Option<real>): Option<real> {
    match c
    case Number(x) => Some(x)
    case Text(t) => toNumber(t)
  }

  /** The stored value for a parsed sheet value `v` whose raw cell compares
      as `raw`: a fraction in (0, 1] is read as a share and scaled to a
      percentage, then the value is rounded and clamped to [0, 100]. */
  function SheetAttendance(v: real, raw: Option<real>): (r: real)
    ensures 0.0 <= r <= 100.0
    ensures r == r.Floor as real
    ensures FractionCell(v, raw) ==> r == Round(v * 100.0) as real
    ensures !FractionCell(v, raw) && 0.0 <= v <= 100.0 ==> r == Round(v) as real
    ensures 1.0 < v <= 100.0 && v == v.Floor as real ==> r == v
    ensures v > 100.0 ==> r == 100.0
    ensures v < 0.0 ==> r == 0.0
  {
    var scaled := if FractionCell(v, raw) then v * 100.0 else v;
    var n := Round(scaled);
    assert v > 1.0 ==> scaled == v;
    assert v < 0.0 ==> scaled == v;
    assert 0.0 <= scaled <= 100.0 ==> 0 <= n <= 100;
    WholeClamp(n);
    RoundWhole(v);
    Clamp(n as real, 0.0, 100.0)
  }

  /** `numVal <= 1 && numVal > 0 && attendanceVal < 2`: the parsed value is a
      share in (0, 1] and the raw cell compares below 2 (NaN never does). */
  predicate FractionCell(v: real, raw: Option<real>) {
    0.0 < v <= 1.0 && raw.Some? && raw.value < 2.0
  }

  /** Clamping a whole number to [0, 100] gives a whole number. */
  lemma WholeClamp(n: int)
    ensures Clamp(n as real, 0.0, 100.0) == (if n < 0 then 0 else if n > 100 then 100 else n) as real
  {
  }

  /** The heuristic on the four values it is meant for. */
  lemma SheetAttendanceExamples()
    ensures SheetAttendance(0.92, Some(0.92)) == 92.0
    ensures SheetAttendance(1.0, Some(1.0)) == 100.0
    ensures SheetAttendance(92.0, Some(92.0)) == 92.0
    ensures SheetAttendance(150.0, Some(150.0)) == 100.0
  {
    assert Round(92.0) == 92;
    assert Round(100.0) == 100;
    assert Round(150.0) == 150;
  }

  /** `s.rollNo === rollNo`. */
  function HasRoll(c: Cell): Student -> bool {
    (s: Student) => c == Text(s.rollNo)
  }

  /** The record is the same apart from its attendance. */
  predicate SameBut(a: Student, b: Student) {
    a.(attendance := 0.0) == b.(attendance := 0.0)
  }

  /** One line of the attendance sheet: the new roster and whether the
      line counted as a match. The line is skipped unless it has a truthy
      roll number and a defined attendance value; only the first student
      with that roll number is updated. A value that does not parse is
      counted, and the student is then left as is. */
  function AttendanceRow(students: seq<Student>, row: Row, parse: string -> Option<real>, toNumber: string -> Option<real>): (r: (seq<Student>, bool))
    ensures |r.0| == |students|
    ensures FirstTruthy(row, RollAliases).None? || OrChain(row, AttendanceAliases).None? ==> r == (students, false)
    ensures !r.1 ==> r.0 == students
    ensures forall j :: 0 <= j < |students| && r.0[j] != students[j] ==>
      && FirstTruthy(row, RollAliases).Some?
      && HasRoll(FirstTruthy(row, RollAliases).value)(students[j])
      && (forall i :: 0 <= i < j ==> !HasRoll(FirstTruthy(row, RollAliases).value)(students[i]))
      && SameBut(r.0[j], students[j])
      && 0.0 <= r.0[j].attendance <= 100.0
    ensures forall j, k :: 0 <= j < k < |students| && r.0[j] != students[j] ==> r.0[k] == students[k]
  {
    var rollNo := FirstTruthy(row, RollAliases);
    var value := OrChain(row, AttendanceAliases);
    if rollNo.None? || value.None? then (students, false)
    else
      match FindIndex(students, HasRoll(rollNo.value))
      case None => (students, false)
      case Some(k) =>
        match ParseCell(value.value, parse)
        case None => (students, true)
        case Some(v) =>
          (students[k := students[k].(attendance := SheetAttendance(v, CoerceCell(value.value, toNumber)))], true)
  }

  /** The positive half of one attendance line: with a truthy roll number
      and a defined value, a line that finds no student changes nothing and
      is not counted; otherwise it is counted, and the first student with
      that roll number gets the rounded, clamped value when it parses. */
  lemma AttendanceRowFirstMatch(students: seq<Student>, row: Row, parse: string -> Option<real>, toNumber: string -> Option<real>)
    requires FirstTruthy(row, RollAliases).Some? && OrChain(row, AttendanceAliases).Some?
    ensures var roll := FirstTruthy(row, RollAliases).value;
      (forall j :: 0 <= j < |students| ==> !HasRoll(roll)(students[j])) ==>
        AttendanceRow(students, row, parse, toNumber) == (students, false)
    ensures var roll := FirstTruthy(row, RollAliases).value;
      var value := OrChain(row, AttendanceAliases).value;
      var r := AttendanceRow(students, row, parse, toNumber);
      forall k :: 0 <= k < |students| && HasRoll(roll)(students[k])
                  && (forall j :: 0 <= j < k ==> !HasRoll(roll)(students[j])) ==>
        && r.1
        && (ParseCell(value, parse).None? ==> r.0 == students)
        && (ParseCell(value, parse).Some? ==>
              r.0 == students[k := students[k].(attendance :=
                SheetAttendance(ParseCell(value, parse).value, CoerceCell(value, toNumber)))])
  {
    var roll := FirstTruthy(row, RollAliases).value;
    match FindIndex(students, HasRoll(roll))
    case None =>
    case Some(k) =>
      assert HasRoll(roll)(students[k]);
      assert forall j :: 0 <= j < k ==> !HasRoll(roll)(students[j]);
  }

  /** The roster and the counter after every line, in sheet order. */
  function ImportedAttendance(students: seq<Student>, rows: seq<Row>, parse: string -> Option<real>, toNumber: string -> Option<real>): seq<Student>
  {
    if rows == [] then students
    else AttendanceRow(ImportedAttendance(students, rows[..|rows| - 1], parse, toNumber), rows[|rows| - 1], parse, toNumber).0
  }

  function AttendanceMatches(students: seq<Student>, rows: seq<Row>, parse: string -> Option<real>, toNumber: string -> Option<real>): nat
  {
    if rows == [] then 0
    else
      var before := ImportedAttendance(students, rows[..|rows| - 1], parse, toNumber);
      AttendanceMatches(students, rows[..|rows| - 1], parse, toNumber)
        + (if AttendanceRow(before, rows[|rows| - 1], parse, toNumber).1 then 1 else 0)
  }

  /** The import only ever rewrites attendance, and always to a percentage:
      the roster is the same students in the same order. */
  lemma {:induction false} ImportedAttendanceKeepsRoster(students: seq<Student>, rows: seq<Row>, parse: string -> Option<real>, toNumber: string -> Option<real>)
    ensures var r := ImportedAttendance(students, rows, parse, toNumber);
      |r| == |students| && forall i :: 0 <= i < |r| ==> SameBut(r[i], students[i])
    ensures StaffDashboard.AttendanceInRange(students) ==>
      StaffDashboard.AttendanceInRange(ImportedAttendance(students, rows, parse, toNumber))
  {
    if rows != [] {
      ImportedAttendanceKeepsRoster(students, rows[..|rows| - 1], parse, toNumber);
    }
  }

  /** A sheet value of 0 in the first attendance column, with no later
      column, is not a defined value: `0 || undefined` is `undefined`, so the
      line is skipped and not counted. */
  lemma ZeroAttendanceSkipped(students: seq<Student>, roll: string, parse: string -> Option<real>, toNumber: string -> Option<real>)
    requires roll != ""
    ensures AttendanceRow(students, map["roll_no" := Text(roll), "attendance" := Number(0.0)], parse, toNumber) == (students, false)
  {
    var row := map["roll_no" := Text(roll), "attendance" := Number(0.0)];
    assert TruthyAt(row, RollAliases[0]);
    assert !TruthyAt(row, AttendanceAliases[0]);
    assert AttendanceAliases[1] !in row && AttendanceAliases[2] !in row && AttendanceAliases[3] !in row by {
      assert AttendanceAliases[1][0] == 'A' && AttendanceAliases[2][0] == 'A';
      assert |AttendanceAliases[3]| == 12;
    }
    assert FirstTruthy(row, AttendanceAliases).None?;
  }

  /** `handleAttendanceFileUpload`'s loop over the sheet: the updated roster
      and the number of counted lines. */
  method ImportAttendance(students: seq<Student>, rows: seq<Row>, parse: string -> Option<real>, toNumber: string -> Option<real>)
    returns (updated: seq<Student>, matchCount: nat)
    ensures updated == ImportedAttendance(students, rows, parse, toNumber)
    ensures matchCount == AttendanceMatches(students, rows, parse, toNumber)
  {
    updated := students;
    matchCount := 0;
    for i := 0 to |rows|
      invariant updated == ImportedAttendance(students, rows[..i], parse, toNumber)
      invariant matchCount == AttendanceMatches(students, rows[..i], parse, toNumber)
    {
      var row := rows[i];
      assert rows[..i + 1][..i] == rows[..i];
      var rollNo := FirstTruthy(row, RollAliases);
      var value := OrChain(row, AttendanceAliases);
      if rollNo.Some? && value.Some? {
        var targetIndex := FindIndex(updated, HasRoll(rollNo.value));
        if targetIndex.Some? {
          matchCount := matchCount + 1;
          var numVal := ParseCell(value.value, parse);
          if numVal.Some? {
            var k := targetIndex.value;
            updated := updated[k := updated[k].(attendance := SheetAttendance(numVal.value, CoerceCell(value.value, toNumber)))];
          }
        }
      }
    }
    assert rows[..|rows|] == rows;
  }
}
