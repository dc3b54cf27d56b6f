# Department portal: a Dafny model

This project models the logic of a college department portal written in
TypeScript and React. The portal has five roles (HOD, Admin, Staff,
Student), an in-memory data store that stands in for a remote database,
and one dashboard per role.

| file | module | models |
|---|---|---|
| types.dfy | `Types` | the records of `types.ts`, `Option`, JavaScript's `Math.round` and clamping |
| seqs.dfy | `Seqs` | `filter`, `map`, `findIndex` and summing `reduce`, with their algebra |
| text.dfy | `Text` | `toLowerCase`, `includes`, `trim`, `startsWith` and `n.toString()` |
| mockdata.dfy | `MockData` | the seed tables and `generateMockData` |
| leaderboard.dfy | `Leaderboard` | the three leaderboards: roster filter, score, stable sort and ranks |
| api.dfy | `Api` | the in-memory store as a class `Store`, with one method per store operation |
| staff.dfy | `StaffDashboard` | tab sync, mark and attendance edits, search, stats, new-subject form, points to award |
| sheetimport.dfy | `SheetImport` | the marks and attendance spreadsheet imports, as loops over the parsed rows |
| login.dfy | `Login` | the sign-in form: stored role, keyword inference, error messages |
| hod.dfy | `HodDashboard` | leaderboard year filter, top five, badge, stats fallback, directory, at-risk rule |
| admin.dfy | `AdminDashboard` | user search, add and delete, staff allocation, details column |
| seedfacts.dfy | `SeedFacts` | consistency facts about the seed data and a worked leaderboard |

Key modelling choices:

- Only the local fallback of each store operation is modelled. The store
  is a class whose sequence fields the methods reassign. Every method
  states its whole new state.
- A leaderboard is a pure pipeline. JavaScript's `sort` is stable, so the
  model uses a stable insertion sort. It is characterised by three
  lemmas: descending order, permutation, and keeping ties in roster order.
- JavaScript truthiness (`a || b`) is written out. The empty string and
  `0` are falsy, and `undefined` is `None`.
- `Math.round(x)` is `Floor(x + 0.5)`.
- A spreadsheet row is a map from column header to cell.
- Three things are parameters rather than computed:
  - `parseFloat` and number coercion of text, which are foreign code;
  - fresh ids;
  - the current date.
- Marks, totals and attendance are `real`, because the source works on
  JavaScript numbers and rounds fractions. The arithmetic is exact, not
  IEEE double rounding (see "## Left out"). Ids and achievement points are
  `int`.

## Model

| member | source | states |
|---|---|---|
| Types.Round | components/StaffDashboard.tsx:252 | `Math.round`: the nearest integer, a half rounding up |
| Types.Clamp | components/StaffDashboard.tsx:168 | `Math.min(hi, Math.max(lo, x))` lies in [lo, hi], keeps an in-range value, and gives the nearer bound otherwise |
| Seqs.Filter | components/StaffDashboard.tsx:126-129 | a filter never lengthens its input |
| Seqs.FilterMembers | services/api.ts:150 | the kept elements are exactly the elements that pass |
| Seqs.Map | components/HODDashboard.tsx:84-92 | `map` keeps the length and applies the function at every index |
| Seqs.FilterRange | components/HODDashboard.tsx:59 | a filter that exactly one slice passes keeps that slice |
| Seqs.FilterAppend | components/StaffDashboard.tsx:126-129 | a filter keeps relative order: it distributes over concatenation |
| Seqs.FilterMap | services/api.ts:321-341 | mapping then filtering equals filtering then mapping when the predicates agree |
| Seqs.FindIndex | services/api.ts:203 | `findIndex`: `None` iff no element matches, otherwise the first matching index |
| Seqs.SumAppend | services/api.ts:329-332 | a sum over a concatenation is the sum of the parts |
| Seqs.SumBounds | components/StaffDashboard.tsx:749 | a sum of n values in [0, hi] lies in [0, n * hi] |
| Text.ToLower | components/StaffDashboard.tsx:125 | same length, each letter A-Z lowered, no upper-case letter left |
| Text.ContainsIffOccurs | components/StaffDashboard.tsx:127-128 | `includes` holds iff the substring occurs at some offset |
| Text.ContainsEmpty | components/AdminDashboard.tsx:70-73 | every string includes the empty string |
| Text.Trim | components/StaffDashboard.tsx:296-297 | `trim` gives the slice of the input between its leading and trailing runs of white space: no white space at either end, empty iff the input is all white space, and a string without white space unchanged |
| Text.NatToString | components/HODDashboard.tsx:59 | `toString` gives at least one decimal digit and no leading zero |
| Text.NatToStringRoundTrip | components/AdminDashboard.tsx:178 | reading the digits back gives the number |
| Text.NatToStringInjective | components/AdminDashboard.tsx:178 | distinct years print differently |
| Leaderboard.InsertMultiset | services/api.ts:344 | inserting into a sorted run adds exactly one element |
| Leaderboard.InsertDescending | services/api.ts:344 | inserting keeps a run in non-increasing order |
| Leaderboard.SortDescDescending | services/api.ts:344 | the sort's output is in non-increasing order of the key |
| Leaderboard.SortDescPermutes | services/api.ts:344 | the sort's output is a permutation of its input |
| Leaderboard.SortDescStable | services/api.ts:344 | entries with equal keys keep their input order |
| Leaderboard.SortDescSorted | services/api.ts:344 | an input already in order is left unchanged |
| Leaderboard.InsertFilter | services/api.ts:344 | filtering commutes with one insertion step |
| Leaderboard.SortDescFilter | services/api.ts:344 | sorting then filtering equals filtering then sorting |
| Leaderboard.InsertMap | services/api.ts:327-344 | a key-preserving map commutes with one insertion step |
| Leaderboard.SortDescMap | services/api.ts:327-344 | sorting commutes with a map that keeps the key |
| Leaderboard.RankShape | services/api.ts:344-350 | ranking gives one row per candidate, ranks 1, 2, 3, ..., non-increasing points, and ranks aside the sorted candidate rows |
| Leaderboard.RankEmpty | services/api.ts:344-350 | no candidates give an empty leaderboard |
| Leaderboard.YearFilter | services/api.ts:321-324 | `'All'` and `'All Years'` keep every student; any other year keeps exactly the students with that year |
| Leaderboard.AcademicLeaderboardRanks | services/api.ts:319-350 | the academic leaderboard ranks exactly the year's students by their mark totals; no candidates give `[]` |
| Leaderboard.AchievementLeaderboardRanks | services/api.ts:353-380 | the achievement leaderboard ranks exactly the year's students by approved points; no candidates give `[]` |
| Leaderboard.SubjectLeaderboardRanks | services/api.ts:383-397 | the subject leaderboard ranks exactly the subject's mark rows, each with year level `'N/A'`; no marks give `[]` |
| Leaderboard.AcademicScoreNoMarks | services/api.ts:329-332 | a student without marks scores 0 |
| Leaderboard.AcademicScoreAppend | services/api.ts:329-332 | one more mark adds its total to its student's score only |
| Leaderboard.AchievementScoreAppend | services/api.ts:361-364 | one more achievement adds its points only when approved and only to its student |
| Leaderboard.YearRankingIsFilteredOverall | services/api.ts:319-350 | ranking one year equals keeping that year from the all-years ranking, ranks aside |
| Api.WithoutUser | services/api.ts:67 | every user with the id goes and every other user stays |
| Api.UpdatedStudents | services/api.ts:116 | records without the id stay; each record with the id takes every supplied field (id, name, email, roll number, year, internals, attendance, cgpa) and keeps every other |
| Api.UpdatedStudentsIdempotent | services/api.ts:116 | applying the same update twice equals applying it once |
| Api.EmptyUpdateIsIdentity | services/api.ts:116 | an empty update changes nothing |
| Api.FilterShorter | services/api.ts:160-168 | a filter shortens its input iff some element fails it |
| Api.UpsertPlaces | services/api.ts:203-207 | a mark whose slot is free is appended; otherwise the first matching entry is replaced and the rest stay |
| Api.UpsertKeepsSlotsUnique | services/api.ts:202-209 | an upsert keeps at most one mark per (student, subject) slot |
| Api.UpsertAllKeepsSlotsUnique | services/api.ts:202-209 | saving a whole sheet keeps slots unique, with duplicates in the sheet too |
| Api.UpsertThenFind | services/api.ts:202-209 | after an upsert the slot's first entry is the new mark |
| Api.VerifiedAll | services/api.ts:312 | only achievements with the id change: the status is set and points become `points \|\| 0` |
| Api.VerifiedAllIdempotent | services/api.ts:312 | verifying twice equals verifying once |
| Api.RejectedFilter | services/api.ts:312 | after a rejection the student's approved achievements are those that were approved, minus the rejected id |
| Api.RejectedScoresNothing | services/api.ts:312 | a rejected achievement contributes no points |
| Api.NewAchievement | services/api.ts:288-302 | an upload is pending with 0 points for student 1, with category `'General'` when none is given |
| Api.UploadScoresNothing | services/api.ts:303 | an upload does not change any score until approved |
| Api.RemoveFirst | services/api.ts:408-409 | removing a listener shortens the list by one exactly when it is registered |
| Api.RemoveFirstRemovesOne | services/api.ts:408-409 | unsubscribing removes one occurrence, or is a no-op when the listener is absent |
| Api.RemoveFirstKeepsLater | services/api.ts:408-409 | the first occurrence goes and every other listener stays in order |
| Api.SubscribeUnsubscribe | services/api.ts:406-409 | subscribing then unsubscribing restores the list, and unsubscribing again is a no-op |
| Api.Notify | services/api.ts:416 | each listener is called once, in registration order, with the settings |
| Api.Store.constructor | services/api.ts:6-20 | the store starts from the seed tables, no logo and no listeners |
| Api.Store.CreateUser | services/api.ts:55-57 | the new user gets the fresh id and is appended |
| Api.Store.DeleteUser | services/api.ts:61-69 | removes every user with the id, reports success, changes nothing else |
| Api.Store.GetUserRole | services/api.ts:83-84 | the role of the first user with that exact email, or `None` iff there is none |
| Api.Store.UpdateStudent | services/api.ts:107-118 | the roster becomes the merged update; nothing else changes |
| Api.Store.GetSubjectsByYear | services/api.ts:149-151 | exactly the subjects of that year |
| Api.Store.CreateSubject | services/api.ts:153-158 | the new subject gets the fresh id and is appended |
| Api.Store.DeleteSubject | services/api.ts:160-168 | removes the subject and every mark of it; reports true iff a subject had the id |
| Api.MarksForSubject | services/api.ts:171-197 | `[]` when no subject has the id; otherwise, for the first subject with it, one row per student of that subject's year, in roster order |
| Api.SubjectRows | services/api.ts:176-194 | one row per student of the year, in order: the student's first stored mark in the subject, or the zeroed placeholder when there is none |
| Api.MarkFor | services/api.ts:180-191 | the first stored mark of the student in the subject, as `find` returns it, otherwise the zeroed placeholder out of 100 |
| Api.Store.GetMarksForSubject | services/api.ts:171-197 | `[]` for an unknown subject; otherwise one entry per student of its year, the first stored mark of that student or a zeroed placeholder out of 100 |
| Api.Store.UpdateSubjectMarks | services/api.ts:200-211 | the stored marks become the upsert of each incoming mark in turn |
| Api.Store.GetAllPendingAchievements | services/api.ts:273-283 | one entry per pending achievement, in stored order, each the achievement tagged with StudentYear of its student |
| Api.StudentYear | services/api.ts:277-280 | the year of the first student with the id when present and not empty, otherwise `'N/A'` (also when no student has the id) |
| Api.PendingWithYears | services/api.ts:273-283 | one entry per pending achievement, in stored order, each the achievement tagged with its student's year |
| Api.PendingWithYearsFromStore | services/api.ts:274-281 | every entry is pending, carries a year tag, and apart from the tag is a stored achievement |
| Api.Store.UploadAchievement | services/api.ts:285-303 | the new pending achievement goes to the front |
| Api.Store.VerifyAchievement | services/api.ts:310-317 | only the achievement with the id is verified; nothing else changes |
| Api.Store.GetLeaderboard | services/api.ts:319-351 | ranks exactly the year's students by mark total |
| Api.Store.GetAchievementLeaderboard | services/api.ts:353-381 | ranks exactly the year's students by approved points |
| Api.Store.GetSubjectLeaderboard | services/api.ts:383-398 | ranks exactly the subject's marks, each with year level `'N/A'` |
| Api.Store.SubscribeToSettings | services/api.ts:405-406 | the listener is appended |
| Api.Store.Unsubscribe | services/api.ts:407-410 | the first occurrence of the listener is removed |
| Api.Store.UpdateInstitutionSettings | services/api.ts:413-418 | the logo is merged into the settings and every listener is called once, in order, with them |
| StaffDashboard.ViewPrefixes | components/StaffDashboard.tsx:50 | exactly the two attendance views start with `ATTENDANCE` and the two leave views with `LEAVE` |
| StaffDashboard.MarksTabResets | components/StaffDashboard.tsx:49-52 | the marks tab resets to year selection iff the view is verification, an attendance view or a leave view; otherwise the view stays |
| StaffDashboard.EntryTabs | components/StaffDashboard.tsx:43-48 | each of the other tabs opens its entry view from any view |
| StaffDashboard.SyncTabIdempotent | components/StaffDashboard.tsx:42-54 | syncing to the same tab twice equals syncing once |
| StaffDashboard.MarkChange | components/StaffDashboard.tsx:155-164 | only the student's rows change: the field takes the parsed value or 0, and the total is recomputed |
| StaffDashboard.MarkChangeKeepsTotals | components/StaffDashboard.tsx:160 | after an edit every row's total is the sum of its parts, if it was before |
| StaffDashboard.MarkChangeIdempotent | components/StaffDashboard.tsx:155-164 | the same edit twice equals the edit once |
| StaffDashboard.AttendanceChange | components/StaffDashboard.tsx:167-169 | only the student changes: attendance takes the parsed value clamped to [0, 100], or 0 |
| StaffDashboard.AttendanceChangeKeepsRange | components/StaffDashboard.tsx:167-169 | attendance stays within [0, 100] for the whole year |
| StaffDashboard.SearchMarks | components/StaffDashboard.tsx:125-129 | exactly the rows whose lower-cased name or roll number include the lower-cased term |
| StaffDashboard.EmptySearchKeepsAll | components/StaffDashboard.tsx:125-129 | an empty term keeps every row |
| StaffDashboard.SearchMarksAppend | components/StaffDashboard.tsx:126-129 | the search keeps table order |
| StaffDashboard.MeanBounds | components/StaffDashboard.tsx:749 | the mean of totals in [0, 100] lies in [0, 100] |
| StaffDashboard.ClassAvg | components/StaffDashboard.tsx:749 | 0 for no rows; within [0, 100] when the totals are |
| StaffDashboard.PassRate | components/StaffDashboard.tsx:755 | within [0, 100], and 0 for no rows |
| StaffDashboard.PassRateExtremes | components/StaffDashboard.tsx:755 | 100 when every row passes at total >= 50, and 0 when none does |
| StaffDashboard.SubjectDraftFor | components/StaffDashboard.tsx:294-309 | a subject is created iff a year is selected and the trimmed name and code are non-empty; it carries them, the selected year, staff id 0, 0 students, the trimmed staff name or `'Unassigned'`, and today's date |
| StaffDashboard.AddSubject | components/StaffDashboard.tsx:294-313 | when the guard passes, the subject is created, the year's subjects are re-read and the form cleared; otherwise nothing changes |
| StaffDashboard.PointsToAward | components/StaffDashboard.tsx:863-864 | the points of the first category with the achievement's id, or 0 |
| SheetImport.FirstTruthy | components/StaffDashboard.tsx:207-209 | the cell of the first truthy alias, and `None` iff no alias is truthy |
| SheetImport.ScoreFrom | components/StaffDashboard.tsx:207-209 | the number in the first truthy alias becomes the score; without a truthy alias the old value stays; a new value is never 0 |
| SheetImport.MarkFromRow | components/StaffDashboard.tsx:206-211 | each score is taken from its two aliases or kept, the total is recomputed from them, and the identity fields stay |
| SheetImport.ImportMarkRow | components/StaffDashboard.tsx:203-212 | the first mark with the line's roll number is updated from the line and every other mark stays; a line matching no roll number changes nothing |
| SheetImport.ImportedMarks | components/StaffDashboard.tsx:202-213 | importing a sheet line by line keeps the number of mark rows |
| SheetImport.ImportedMarksKeepRollNos | components/StaffDashboard.tsx:202-213 | the import keeps every row's roll number |
| SheetImport.ImportedMarksConsistent | components/StaffDashboard.tsx:210 | after the import every total is the sum of its parts, if it was before |
| SheetImport.UnmatchedSheetChangesNothing | components/StaffDashboard.tsx:203-205 | a sheet with no matching roll number changes nothing and counts 0 |
| SheetImport.DuplicateLinesCountTwice | components/StaffDashboard.tsx:204-205 | repeated lines count again |
| SheetImport.ImportMarks | components/StaffDashboard.tsx:199-213 | the loop computes the row-by-row import of every line and counts the matching lines |
| SheetImport.SheetAttendance | components/StaffDashboard.tsx:248-252 | a share in (0, 1] whose cell compares below 2 is scaled by 100 and rounded; any other value in [0, 100] is rounded; above 100 gives 100, below 0 gives 0; the result is whole and in [0, 100] |
| SheetImport.SheetAttendanceExamples | components/StaffDashboard.tsx:248-252 | 0.92 gives 92, 1 gives 100, 92 gives 92 and 150 gives 100 |
| SheetImport.AttendanceRow | components/StaffDashboard.tsx:240-254 | a line without a truthy roll number or a defined value is skipped; only the first student with the roll number changes, and only in attendance |
| SheetImport.AttendanceRowFirstMatch | components/StaffDashboard.tsx:244-252 | a line with a roll number and a value that finds no student is not counted; otherwise it counts and the first student with that roll number gets SheetAttendance of the parsed value |
| SheetImport.ImportedAttendanceKeepsRoster | components/StaffDashboard.tsx:235-256 | the import keeps the roster's length and everything but attendance, and keeps attendance within [0, 100] |
| SheetImport.ZeroAttendanceSkipped | components/StaffDashboard.tsx:243-245 | a 0 in the attendance column skips the line |
| SheetImport.ImportAttendance | components/StaffDashboard.tsx:235-256 | the loop computes the row-by-row import of every line and counts the matched lines |
| Login.InferRole | components/Login.tsx:40-44 | `'hod'`, then `'admin'`, then `'staff'`, `'prof'` or `'dr.'`, then `'student'`: the first keyword included decides |
| Login.Resolve | components/Login.tsx:33-53 | a stored role is used as is; otherwise the inferred role, or the not-found message; a thrown lookup gives the connection message; login happens iff no error |
| Login.StoredRoleWins | components/Login.tsx:36-38 | a stored role wins over any keyword in the email |
| Login.StudentEmail | components/Login.tsx:41-44 | an email starting with `student` and without 'h', 'i', 'f' or 'r' infers Student |
| Login.StaffEmail | components/Login.tsx:41-43 | an email starting with `staff` and without 'h' or 'i' infers Staff |
| Login.HodEmail | components/Login.tsx:41 | an email starting with `hod` infers HOD |
| Login.AdminEmail | components/Login.tsx:41-42 | an email starting with `admin` and without 'h' infers Admin |
| Login.DemoStudent | components/Login.tsx:165-168 | the student demo account infers Student |
| Login.DemoStaff | components/Login.tsx:165-168 | the staff demo account infers Staff |
| Login.DemoHod | components/Login.tsx:165-168 | the hod demo account infers HOD |
| Login.DemoAdmin | components/Login.tsx:165-168 | the admin demo account infers Admin |
| Login.LoginForm.constructor | components/Login.tsx:11-14 | the form starts empty and not loading |
| Login.LoginForm.Submit | components/Login.tsx:29-56 | the role logged in and the error shown are those resolved; loading is dropped whatever happens |
| HodDashboard.FilterLeaderboard | components/HODDashboard.tsx:128-130 | `'All'` keeps every entry; any other filter keeps exactly the entries of that year level |
| HodDashboard.FilterKeepsRankOrder | components/HODDashboard.tsx:128-130 | filtering keeps increasing ranks increasing |
| HodDashboard.FilteredViewShape | components/HODDashboard.tsx:128-130 | the filtered view keeps global ranks: increasing, at least the row number, points non-increasing |
| HodDashboard.HodViewMatchesYearRanking | components/HODDashboard.tsx:128-130 | filtering the all-years ranking by a year shows the same students, in the same order, as that year's own ranking |
| HodDashboard.TopFive | components/HODDashboard.tsx:224 | at most the first five entries, as a prefix |
| HodDashboard.TopFiveAreBest | components/HODDashboard.tsx:224 | no entry left out has more points than an entry shown |
| HodDashboard.Badge | components/HODDashboard.tsx:260 | `'Top 3'` iff the rank is at most 3, otherwise `'Member'` |
| HodDashboard.BadgeRows | components/HODDashboard.tsx:260 | on the full ranking exactly the first three rows get the badge; on a filtered view at most the first three do |
| HodDashboard.OverviewExport | components/HODDashboard.tsx:100-110 | one export row per entry of the filtered view, in order, with its rank, roll number and year |
| HodDashboard.OverviewFileName | components/HODDashboard.tsx:115 | the overview file is named after the filter, `All_Years` for `'All'` |
| HodDashboard.StatsFor | components/HODDashboard.tsx:47 | the fetched stats, or the mock table for the year when there are none |
| HodDashboard.StatsAlwaysShown | components/HODDashboard.tsx:47 | years 1 to 4 always have stats |
| HodDashboard.LeaderboardYear | components/HODDashboard.tsx:52 | the top-performers tab asks for every year, the other tabs for the selected year |
| HodDashboard.Directory | components/HODDashboard.tsx:59 | exactly the students whose year is the selected year as text |
| HodDashboard.DirectoryIsYearRoster | components/HODDashboard.tsx:59 | the directory is the roster the year's leaderboard ranks |
| HodDashboard.AvgMarks | components/HODDashboard.tsx:541 | the mean of the two internals, rounded |
| HodDashboard.AvgMarksBetween | components/HODDashboard.tsx:541 | the average lies between bounds of both internals |
| HodDashboard.DirectoryRowOf | components/HODDashboard.tsx:84-92 | At Risk iff attendance < 75 or internal 1 < 50, Good otherwise; with the rounded average |
| HodDashboard.StatusIgnoresInternal2 | components/HODDashboard.tsx:530 | the second internal never changes the status |
| HodDashboard.DirectoryExport | components/HODDashboard.tsx:84-92 | one export row per directory student, in order, by the same rules as the table |
| AdminDashboard.FilteredUsers | components/AdminDashboard.tsx:70-73 | exactly the users whose lower-cased name or email contains the lower-cased term |
| AdminDashboard.EmptyTermKeepsAll | components/AdminDashboard.tsx:70-73 | an empty term lists every user |
| AdminDashboard.AddUser | components/AdminDashboard.tsx:54-61 | with a name and an email the user is created, the list re-read and the form reset to Student, year `'1'`; otherwise nothing changes |
| AdminDashboard.DeleteUser | components/AdminDashboard.tsx:63-68 | only after confirmation, every user with the id goes from the store and the table |
| AdminDashboard.Allocation | components/AdminDashboard.tsx:177-178 | exactly the Staff users whose year is `y` as text |
| AdminDashboard.AllocationDisjoint | components/AdminDashboard.tsx:177-178 | no staff member is on two year cards |
| AdminDashboard.DetailsColumn | components/AdminDashboard.tsx:160 | `Year <year>` for a student, otherwise the subject, or `-` when it is empty |
| AdminDashboard.DetailsNeverBlank | components/AdminDashboard.tsx:160 | the column is never blank |
| SeedFacts.GenerateMockDataTable | services/mockData.ts:4-39 | stats exist exactly for years 1 to 4; every split adds up to the year's total; internships appear from year 3 and placements in year 4 |
| SeedFacts.SeedStudentIdsUnique | services/mockData.ts:49-69 | the seed student ids are unique |
| SeedFacts.SeedRollNosUnique | services/mockData.ts:49-69 | the seed roll numbers are unique |
| SeedFacts.SeedSubjectIdsUnique | services/mockData.ts:73-91 | the seed subject ids are unique |
| SeedFacts.SeedSlotsUnique | services/mockData.ts:93-106 | the seed marks have at most one entry per slot |
| SeedFacts.SeedTotalsOffByTen | services/mockData.ts:93-106 | every seed total is 10 below the sum of its parts, so none satisfies the edit rule |
| SeedFacts.SeedAchievementPoints | services/mockData.ts:116-172 | approved seed achievements carry their category's points, the pending one 0 |
| SeedFacts.FirstYearRoster | services/mockData.ts:51-55 | the first-year students are the first five of the roster |
| SeedFacts.ArunScore | services/mockData.ts:95-97 | Arun's academic score is 261 |
| SeedFacts.SnehaScore | services/mockData.ts:100-101 | Sneha's academic score is 164 |
| SeedFacts.FirstYearLeaderboard | services/api.ts:319-350 | the first-year leaderboard is Arun, Sneha, Rahul, Priya, Karthik, ranked 1 to 5 |

## Left out

- The remote database branches and `withTimeout` in services/api.ts: only
  the local fallback is modelled. So `getUsers`, `getStudents`,
  `getYearlyStats`, the certificate calls and `getStudentProfile` (with its
  demo fallback) are not modelled, and the dashboards receive what they
  fetch as inputs.
- Workbook parsing and writing: each import receives the parsed rows, and
  the exports are modelled as rows, not files.
- The leave-request flow of the staff dashboard: the two store calls it
  uses do not exist in services/api.ts.
- `saveMarks`, `saveAttendance` and the subject delete handler of the staff
  dashboard are thin wrappers over store methods that are modelled.
- Id generation from the clock and randomness, and the current date: fresh
  ids and dates are parameters.
- Asynchrony, React effects and rendering, the percentage displays, the
  presentational files (components/StudentDashboard.tsx,
  components/Layout.tsx, App.tsx), and the admin logo upload with its
  800 ms delay.
- The password: the sign-in form never checks it.
- SheetImport.ImportMarks: the source writes through a shallow copy, so
  the mark objects it updates are shared with the old array. Those objects
  are the store's own records, since `getMarksForSubject` hands out the
  stored marks themselves, so the import changes the store before anything
  is saved. The model updates values and does not model that aliasing.
- SheetImport.MarkFromRow: a text cell in a score column is treated as
  keeping the old score. The source would store the text and concatenate
  it into the total.
- SheetImport.AttendanceRow, SheetImport.AttendanceRowFirstMatch: a value
  that does not parse still counts as a match but leaves the student
  unchanged. The source would store NaN.
- Floating point: numbers are exact reals, not IEEE doubles. A value that
  lands on .5 only after exact scaling or averaging can round differently
  from the source: a sheet cell of 0.285 scales to 28.499999999999996 in
  the source and rounds to 28, while SheetImport.SheetAttendance gives 29.
  Float sums such as mark totals and averages can differ in the last
  digits too.
- StaffDashboard.MarkChange: only the three score fields are editable. The
  source accepts any key of the record.
- Api.UpdatedStudents: a field that is present but explicitly `undefined`
  in an update is treated as absent. The source would overwrite the field
  with `undefined`.
- Text.ToLower: only A-Z are lowered. The source's `toLowerCase` uses full
  Unicode case mapping.
