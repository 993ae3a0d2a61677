# School absence register — a Dafny model

The system is a small school-absence register. It has two halves.

The first half is an Express/MySQL backend. It has one controller per table: students, courses, absences and users. Each controller answers "get by id", "create", "update" and "delete" requests with an HTTP status and a JSON body. The second half is a browser front end. A client-side `DataManager` keeps the four lists in memory. Around it are five views:

- the login page;
- the administrator's dashboard (student and course forms, table search);
- the teacher's dashboard (registering, editing, deleting, filtering and exporting absences, and per-student, per-course and overall statistics);
- the student's dashboard (reading and appending a student comment);
- the report page (six stacked filters, counts by type and a percentage chart).

The model is one Dafny module per source file, plus a few shared modules:

- `Records` holds the four entities as datatypes.
- `Database` is a class holding the four tables as maps keyed by id.
- The four controller modules are methods over a `Database` that return a `Response`: a status with a body, or an error.
- `ClientStore.DataManager` is a class whose four lists are `seq` fields. Its methods reassign those fields as the JavaScript methods mutate the arrays.
- `TeacherDashboard.Dashboard` is a class holding the dashboard's three global lists. Its statistics functions are methods with loops, specified by functions (`CountsOf`, `TallyAll`, `Count`, `Filter`).
- `TeacherHandlers` holds the three teacher handlers that write to the store.
- `TeacherForms` and `Report` are the pure parts: validators, record builders, the absence filter, the CSV export and the report filters.
- `StudentDashboard`, `AdminDashboard` and `Login` model their handlers over a `DataManager` (and, for the login, a `Session` class).
- `Metrics`, `AbsenceTypes`, `Csv`, `Strings` and `Seqs` hold the shared arithmetic and text rules. These are `Math.round` of a percentage, the type labels, `parseInt` and loose `==`, CSV quoting, and `trim`, `toLowerCase`, `includes`, `split`, `join`, `replace`, `find`, `findIndex` and `filter`.

Some inputs the source takes from the outside world become parameters:

- A database statement that fails is a `storageFails` flag, or an `EnrollFault` for the two inserts of `createStudent`. It leads to the 500 response.
- `Date.now()` is a `stamp` string.
- The "date is in the future" test is a `dateIsFuture` flag.
- The confirmation dialog is a `confirmed` flag.
- Whether the teacher dashboard's absence list is still the store's own array is a `shared` flag. It is after a load, because the store hands out its list rather than a copy.

The client store's mutators end without a `return`, so they give back `undefined`. This is the constant `Feedback.StoreWriteResult`. The helper `Feedback.CheckWriteResult` models the `if (!result)` test the views apply to it.

## Model

| member | source | states |
|---|---|---|
| StudentController.GetStudentById | backend/controllers/studentController.js:15-29 | 200 with the stored row exactly when the id is a key; otherwise 404 "Student not found" |
| StudentController.CreateStudent | backend/controllers/studentController.js:32-82 | 400 on a missing field, 409 when the id is already a student or a user, 500 with both tables rolled back when either insert fails; on success 201 with the body, the student row and the matching student account both added, nothing else changed; unique usernames stay unique when the email is nobody's username, and a committed enrollment whose email is already a username breaks uniqueness |
| StudentController.CreateStudentCorrected | backend/controllers/studentController.js:32-82 | enrollment with the username check `createUser` makes: 400 on a missing field, 409 on a taken id, 409 with nothing written on an email that is already a username, 500 on a failed insert, every failure leaving both tables as they were (both rows or neither), success exactly when every check passes and no insert fails, and unique usernames always stay unique |
| StudentController.UpdateStudent | backend/controllers/studentController.js:85-107 | 404 on an unknown id, 500 on a failed write; otherwise the row under the id becomes the new values and is echoed with 200; other tables untouched |
| StudentController.DeleteStudent | backend/controllers/studentController.js:110-128 | 404 on an unknown id, 500 on a failed write; otherwise exactly that key leaves the students table |
| AbsenceController.NormalizeDate | backend/controllers/absenceController.js:61-65 | the stored date is the prefix before the first `T`, or the whole string when there is none |
| AbsenceController.NormalizeDateIdempotent | backend/controllers/absenceController.js:93-97 | normalising a normalised date changes nothing |
| AbsenceController.NormalizeDateAt | backend/controllers/absenceController.js:61-65 | with the first `T` at position i the result is the first i characters |
| AbsenceController.NormalizeDateExample | backend/controllers/absenceController.js:61-65 | an ISO timestamp keeps its `YYYY-MM-DD` part; a plain date is unchanged |
| AbsenceController.StoredComments | backend/controllers/absenceController.js:70 | `comments \|\| null`: absent and empty comments are stored as NULL, any other text as given |
| AbsenceController.GetAbsenceById | backend/controllers/absenceController.js:15-29 | 200 with the stored row exactly when the id is a key; otherwise 404 |
| AbsenceController.GetAbsencesByStudentId | backend/controllers/absenceController.js:32-42 | always 200; the body holds exactly the stored absences of that student, each once (no two rows share an id) |
| AbsenceController.CreateAbsence | backend/controllers/absenceController.js:45-78 | 400 unless all eight fields are truthy (type 0 counts as missing), 409 on a taken id, 500 on a failed insert; success exactly otherwise, storing the normalised row and echoing it with 201 |
| AbsenceController.UpdateAbsence | backend/controllers/absenceController.js:81-110 | 404 on an unknown id, 500 on a failed write; otherwise the row is replaced (date normalised, empty comments as NULL) and echoed with 200 |
| AbsenceController.DeleteAbsence | backend/controllers/absenceController.js:113-131 | 404 on an unknown id, 500 on a failed write; otherwise exactly that key is removed |
| AbsenceController.DeleteThenGetAbsence | backend/controllers/absenceController.js:113-131 | a delete followed by a get of the same id gives 404, and the delete succeeded exactly when the id was stored |
| UserController.GetUserByUsername | backend/controllers/userController.js:15-29 | 200 exactly when some stored user has the username, with such a user as body; with unique usernames, the stored row itself |
| UserController.CreateUser | backend/controllers/userController.js:32-64 | 400 on a missing field, 409 on a taken id or username, 500 exactly when the insert of an otherwise accepted user fails, otherwise 201 and the user stored; unique usernames are preserved |
| UserController.UpdateUser | backend/controllers/userController.js:67-95 | 404 on an unknown id, 409 when another user holds the username, 500 exactly when the write of an otherwise accepted update fails, otherwise the row replaced and echoed; unique usernames are preserved |
| UserController.DeleteUser | backend/controllers/userController.js:98-116 | 404 on an unknown id, otherwise exactly that key removed; unique usernames are preserved |
| CourseController.GetCourseById | backend/controllers/courseController.js:15-29 | 200 with the stored row exactly when the id is a key; otherwise 404 |
| CourseController.CreateCourse | backend/controllers/courseController.js:32-58 | 400 on a missing field, 409 on a taken id, 500 on a failed insert; success exactly otherwise, storing and echoing the body with 201 |
| CourseController.UpdateCourse | backend/controllers/courseController.js:61-83 | 404 on an unknown id, 500 on a failed write; otherwise the row replaced, keeping its id, and echoed with 200 |
| CourseController.DeleteCourse | backend/controllers/courseController.js:86-104 | 404 on an unknown id, 500 on a failed write; otherwise exactly that key removed |
| CourseController.CreateThenGetCourse | backend/controllers/courseController.js:32-58 | a successful create followed by a get returns the created course; a create on a taken id leaves the old course readable |
| ClientStore.ById | js/data-manager.js:58-60 | `find(...) \|\| null`: none exactly when no entry has the id; otherwise the first entry with the id |
| ClientStore.Replaced | js/data-manager.js:67-73 | same length; the first entry with the id is replaced; the list is unchanged when the id is absent |
| ClientStore.Without | js/data-manager.js:75-78 | an order-preserving subsequence holding every entry without the id and none with it |
| ClientStore.AppendThenById | js/data-manager.js:62-65 | after pushing a record with a fresh id, looking that id up finds it |
| ClientStore.AppendKeepsById | js/data-manager.js:62-65 | pushing never changes what an id already present resolves to |
| ClientStore.ReplacedThenById | js/data-manager.js:67-73 | after an update of a present id, the lookup returns the new record |
| ClientStore.WithoutThenById | js/data-manager.js:75-78 | after a delete, the id is not found |
| ClientStore.DataManager.constructor | js/data-manager.js:7-13 | the four lists start empty |
| ClientStore.DataManager.GetStudentById | js/data-manager.js:58-60 | none exactly when no student has the id; otherwise the student at the first matching index |
| ClientStore.DataManager.GetCourseById | js/data-manager.js:89-91 | none exactly when no course has the id; otherwise the first match |
| ClientStore.DataManager.GetAbsenceById | js/data-manager.js:116-118 | none exactly when no absence has the id; otherwise the first match |
| ClientStore.DataManager.GetUserByUsername | js/data-manager.js:147-149 | none exactly when no user has that `username`; otherwise the first such user |
| ClientStore.DataManager.GetStudentsByCourseId | js/data-manager.js:80-82 | in-order subsequence of students whose `course` field equals the id, containing all of them |
| ClientStore.DataManager.GetAbsencesByStudentId | js/data-manager.js:120-122 | in-order subsequence of absences whose `studentId` field equals the id, containing all of them |
| ClientStore.StudentIdDocNotListed | js/data-manager.js:120-122 | appending an absence that has `student_id` but no `studentId` leaves the by-student query's result unchanged |
| ClientStore.AbsencesOfStudent | js/data-manager.js:120-122 | the by-student query on `student_id`: in-order subsequence of exactly the absences whose `student_id` equals the id |
| ClientStore.StudentIdDocListed | js/views/teacher-dashboard.js:476-486 | with that query, an absence appended for the student is added at the end of their list |
| ClientStore.DataManager.CreateStudent | js/data-manager.js:62-65 | the record is appended; the other lists are unchanged |
| ClientStore.DataManager.UpdateStudent | js/data-manager.js:67-73 | the first student with the id is replaced, if any; the other lists are unchanged |
| ClientStore.DataManager.DeleteStudent | js/data-manager.js:75-78 | every student with the id is removed, order kept |
| ClientStore.DataManager.CreateCourse | js/data-manager.js:93-96 | the record is appended; the other lists are unchanged |
| ClientStore.DataManager.UpdateCourse | js/data-manager.js:98-104 | the first course with the id is replaced, if any |
| ClientStore.DataManager.DeleteCourse | js/data-manager.js:106-109 | every course with the id is removed, order kept |
| ClientStore.DataManager.CreateAbsence | js/data-manager.js:124-127 | the record is appended; the other lists are unchanged |
| ClientStore.DataManager.UpdateAbsence | js/data-manager.js:129-135 | the first absence with the id is replaced, if any |
| ClientStore.DataManager.DeleteAbsence | js/data-manager.js:137-140 | every absence with the id is removed, order kept |
| ClientStore.DataManager.CreateUser | js/data-manager.js:151-154 | the record is appended; the other lists are unchanged |
| ClientStore.DataManager.UpdateUser | js/data-manager.js:156-162 | the first user with the id is replaced, if any |
| ClientStore.DataManager.DeleteUser | js/data-manager.js:164-167 | every user with the id is removed, order kept |
| Feedback.WriteReportedAsFailure | js/views/admin-dashboard.js:328-331 | with the store's `undefined` result, the check always reports a failure |
| Metrics.CalculatePercentage | js/views/teacher-dashboard.js:1357-1360 | 0 for a zero total; otherwise the integer nearest to 100·part/total computed exactly on rationals, halves rounded up (as an inequality, not a formula) |
| Metrics.PercentageUnique | js/views/teacher-dashboard.js:1357-1360 | that inequality has exactly one solution, the function's result |
| Metrics.PercentageRange | js/views/teacher-dashboard.js:1357-1360 | for part ≤ total the percentage lies in [0, 100] |
| Metrics.PercentageExamples | js/views/teacher-dashboard.js:1357-1360 | 1/3 → 33, 2/3 → 67, 1/8 → 13 (half rounds up), 3/3 → 100, any/0 → 0 |
| Metrics.Bump | js/views/teacher-dashboard.js:1201-1211 | one `switch` step: the bucket total grows by one for types 1–3 and not otherwise |
| Metrics.CountsOfSnoc | js/views/teacher-dashboard.js:1200-1212 | counting a list extended by one absence is one more step of the switch |
| Metrics.CountsIgnoreUnknown | js/views/teacher-dashboard.js:1201-1211 | an absence of another type changes no counter |
| Metrics.CountsBound | js/views/teacher-dashboard.js:1193-1215 | the three counters add up to the number of absences of a known type, so never more than the list length |
| Metrics.CountsSum | js/views/teacher-dashboard.js:1193-1215 | the three counters add up to the number of known-type absences (by induction) |
| AbsenceTypes.TypeLabel | js/views/report.js:290-301 | "Desconocido" exactly for types other than 1, 2, 3 |
| AbsenceTypes.TypeOfLabel | js/views/report.js:290-301 | the inverse lookup yields only known types |
| AbsenceTypes.LabelRoundTrip | js/views/report.js:290-301 | a type is known exactly when its label maps back to it |
| AbsenceTypes.LabelOfLabelled | js/views/report.js:290-301 | a label the inverse recognises is the label of the type it yields |
| AbsenceTypes.LabelsDistinct | js/views/report.js:290-301 | distinct known types have distinct labels |
| AbsenceTypes.LeadingDigits | js/views/teacher-dashboard.js:468 | the digit run `parseInt` reads is all digits and stops at the first non-digit |
| AbsenceTypes.ParseInt | js/views/teacher-dashboard.js:468 | NaN (none) exactly when the text is empty or starts with a non-digit; an all-digit text gives its decimal value |
| AbsenceTypes.ToNumber | js/views/report.js:146 | a blank string is 0; any other string that converts is all digits after trimming |
| AbsenceTypes.LooseEqualsDigit | js/views/report.js:146 | `type == "d"` holds exactly when the type is the digit's value |
| AbsenceTypes.ParseIntAgreesWithNumber | js/views/teacher-dashboard.js:575 | for a digit string, `parseInt` and the number conversion of `==` agree |
| Csv.DoubleQuotes | js/views/teacher-dashboard.js:1273 | doubling quotes never shortens the text |
| Csv.EscapeCsv | js/views/teacher-dashboard.js:1270-1274 | every escaped value is wrapped in quotes (null/undefined gives `""`) |
| Csv.ReadQuotedBody | js/views/teacher-dashboard.js:1270-1274 | the reader of a quoted field consumes at least the closing quote |
| Csv.ParseRow | js/views/teacher-dashboard.js:1287 | a parsed row has at least one field |
| Csv.ReadDoubled | js/views/teacher-dashboard.js:1273 | reading back a value with doubled quotes and a closing quote gives the value and the rest |
| Csv.ReadDoubledQuote | js/views/teacher-dashboard.js:1273 | the inductive step for a value starting with a quote |
| Csv.ReadDoubledPlain | js/views/teacher-dashboard.js:1273 | the inductive step for a value starting with another character |
| Csv.EscapeAll | js/views/teacher-dashboard.js:1276-1285 | escaping a list escapes each value in place |
| Csv.CsvLineCons | js/views/teacher-dashboard.js:1287 | a joined line is the first escaped value, a comma, and the rest |
| Csv.ParseRowEscaped | js/views/teacher-dashboard.js:1270-1274 | an escaped value parses back to itself, alone or followed by a comma and more fields |
| Csv.CsvLineRoundTrip | js/views/teacher-dashboard.js:1276-1287 | parsing a line of escaped, comma-joined values gives back exactly the values |
| TeacherDashboard.StudentAbsenceCount | js/views/teacher-dashboard.js:1185-1187 | the number of absences whose `student_id` is the id |
| TeacherDashboard.LastCourseNameIsLast | js/views/teacher-dashboard.js:1493-1501 | the name a course id ends up with comes from the last course with that id |
| TeacherDashboard.CourseTallySnoc | js/views/teacher-dashboard.js:1504-1520 | one more absence raises its own course's total and type count only |
| TeacherDashboard.CourseCountsFiltered | js/views/teacher-dashboard.js:1504-1520 | a course's type counts are the type counts of that course's absences |
| TeacherDashboard.CourseSummaryBound | js/views/teacher-dashboard.js:1504-1520 | a course's type counts add up to at most its total |
| TeacherDashboard.StudentCounts | js/views/teacher-dashboard.js:1320-1341 | counting the student's absences by type equals counting all absences of that student and type |
| TeacherDashboard.EmptySummaryStep | js/views/teacher-dashboard.js:1493-1501 | one step of the initialising loop keeps "every course so far has a zeroed entry under its last name" |
| TeacherDashboard.EmptyIsTallied | js/views/teacher-dashboard.js:1493-1501 | the initialised map is the tally of no absences |
| TeacherDashboard.TalliedHit | js/views/teacher-dashboard.js:1505-1519 | counting an absence of a listed course keeps the tally invariant and the key set |
| TeacherDashboard.TalliedMiss | js/views/teacher-dashboard.js:1505-1506 | an absence of an unlisted course is skipped and the tally stays right |
| TeacherDashboard.TalliedRecord | js/views/teacher-dashboard.js:1504-1520 | one loop step, either case, keeps the tally invariant and the key set |
| TeacherDashboard.TallyAllTallied | js/views/teacher-dashboard.js:1504-1520 | the whole loop yields per-course totals and type counts over all absences, with the same keys |
| TeacherDashboard.AddAbsenceStats | js/views/teacher-dashboard.js:499 | registering one absence moves exactly its own type bucket by one (and changes the counts iff its type is known) |
| TeacherDashboard.EditTouchesOneEntry | js/views/teacher-dashboard.js:609-612 | an edit keeps the length and every entry other than the first one with the id |
| TeacherDashboard.RemoveAbsenceEffect | js/views/teacher-dashboard.js:665 | after a removal no entry has the id and the rest keep their order |
| TeacherDashboard.Dashboard.constructor | js/views/teacher-dashboard.js:32-96 | the three lists are what the loads returned |
| TeacherDashboard.Dashboard.TallyTypes | js/views/teacher-dashboard.js:1200-1212 | the loop computes the type counts of the list |
| TeacherDashboard.Dashboard.CalculateAbsenceStats | js/views/teacher-dashboard.js:1193-1215 | each counter is the number of absences of its type; together at most the list length |
| TeacherDashboard.Dashboard.GetStudentAbsenceSummary | js/views/teacher-dashboard.js:1319-1349 | total and per-type counts of the student's absences, each percentage the rounded share and at most 100 |
| TeacherDashboard.Dashboard.EmptyCourseSummaries | js/views/teacher-dashboard.js:1493-1501 | one zeroed entry per course id, named after the last course with that id |
| TeacherDashboard.Dashboard.TallyCourseAbsences | js/views/teacher-dashboard.js:1504-1520 | the counting loop computes the fold `TallyAll` over the absences |
| TeacherDashboard.Dashboard.GetAbsenceSummaryByCourse | js/views/teacher-dashboard.js:1489-1523 | keys are exactly the course ids; each entry has the last name, the number of that course's absences and its type counts |
| TeacherDashboard.Dashboard.CalculateGeneralAbsenceStats | js/views/teacher-dashboard.js:1558-1584 | the totals; a maximum no student exceeds; the student reported is the first one reaching it, and none when the maximum is 0 |
| TeacherDashboard.Dashboard.AddAbsence | js/views/teacher-dashboard.js:499 | the new absence is appended; students and courses unchanged |
| TeacherDashboard.Dashboard.ApplyEdit | js/views/teacher-dashboard.js:609-612 | the first absence with the id becomes the edited record, if any |
| TeacherDashboard.Dashboard.RemoveAbsence | js/views/teacher-dashboard.js:665 | the list keeps exactly the absences without the id, in order |
| TeacherHandlers.HandleAbsenceSubmit | js/views/teacher-dashboard.js:450-531 | as written: a rejected form shows only field errors; an accepted one ends with the save-failure message; `allAbsences` gains the new record (and its type bucket grows by one) exactly when it is the store's own array, and is otherwise unchanged |
| TeacherHandlers.HandleAbsenceSubmitCorrected | js/views/teacher-dashboard.js:450-531 | an accepted form appends the record built from it, reports success, and moves exactly its type bucket |
| TeacherHandlers.SaveEditAbsence | js/views/teacher-dashboard.js:561-640 | as written: a missing record and a completed write both end in a failure message; after a completed write, a list that is the store's own array has its first entry with the id replaced by the edited record, any other list is unchanged |
| TeacherHandlers.SaveEditAbsenceCorrected | js/views/teacher-dashboard.js:561-640 | a valid dialog for a stored record replaces the first entry with the id by the edited record, same length, and reports success, whether or not the store has already replaced it in a shared list |
| TeacherHandlers.DeleteAbsenceConfirm | js/views/teacher-dashboard.js:653-686 | as written: a confirmed deletion reports failure and leaves the list unchanged (the store filters into a new array) |
| TeacherHandlers.DeleteAbsenceConfirmCorrected | js/views/teacher-dashboard.js:653-686 | a confirmed deletion leaves no absence with the id, the rest in order, and shows no message |
| TeacherForms.ValidatorsAgree | js/views/teacher-dashboard.js:968-1019 | the registration validator is the edit validator's rules plus student, course, date and not-in-the-future |
| TeacherForms.KindOf | js/views/teacher-dashboard.js:468 | `parseInt` of the select value, never negative, the decimal value of a digit string |
| TeacherForms.KindOfOption | js/views/teacher-dashboard.js:575 | the options "1", "2", "3" give the known types 1, 2, 3 |
| TeacherForms.NewAbsence | js/views/teacher-dashboard.js:476-486 | the stored record keeps the form's student, course and date |
| TeacherForms.NewAbsenceMeetsBackend | js/views/teacher-dashboard.js:476-486 | a record the registration form accepts has every field the backend requires |
| TeacherForms.EditedAbsence | js/views/teacher-dashboard.js:588-598 | the edited record keeps the dialog's id |
| TeacherForms.EditKeepsIdentity | js/views/teacher-dashboard.js:588-598 | an edit keeps the stored student, course and date |
| TeacherForms.EditTwice | js/views/teacher-dashboard.js:588-598 | two edits in a row equal the second alone |
| TeacherForms.EditMeetsBackend | js/views/teacher-dashboard.js:588-598 | editing an acceptable record through a valid dialog gives an acceptable record |
| TeacherForms.FilterAbsences | js/views/teacher-dashboard.js:806-834 | an in-order subsequence holding exactly the absences that pass the type and the lower-cased search test |
| TeacherForms.FilterAbsencesNoCriteria | js/views/teacher-dashboard.js:806-834 | no search and no type keeps every absence |
| TeacherForms.FilterAbsencesByType | js/views/teacher-dashboard.js:812 | choosing type option d keeps exactly the absences of type d |
| TeacherForms.DoubleQuotesNone | js/views/teacher-dashboard.js:1273 | a value without quotes is not changed by quote doubling |
| TeacherForms.EscapeQuoteFree | js/views/teacher-dashboard.js:1273 | a value without quotes escapes to itself between quotes |
| TeacherForms.StudentCell | js/views/teacher-dashboard.js:1277 | the student cell is the escaped student name, or the escaped "not found" text |
| TeacherForms.CourseCell | js/views/teacher-dashboard.js:1278 | the course cell is the escaped course name, or the escaped "not found" text |
| TeacherForms.CommentText | js/views/teacher-dashboard.js:1284 | an absent comment escapes like the empty text |
| TeacherForms.CellsRoundTrip | js/views/teacher-dashboard.js:1276-1287 | joining escaped cells with commas and parsing gives back the values |
| TeacherForms.CellEscapesValue | js/views/teacher-dashboard.js:1276-1285 | each of the eight cells is the escaped form of the matching plain value |
| TeacherForms.ExportRowRoundTrip | js/views/teacher-dashboard.js:1264-1288 | reading an exported row gives back its eight values, whatever quotes or commas they hold |
| TeacherForms.ExportCsv | js/views/teacher-dashboard.js:1252-1288 | no export for an empty list; otherwise the text starts with the header line |
| Report.StrLeRefl | js/views/report.js:126-132 | the string order used for the date bounds is reflexive |
| Report.StrLeTotal | js/views/report.js:126-132 | any two strings are ordered |
| Report.StrLeAntisym | js/views/report.js:126-132 | strings ordered both ways are equal |
| Report.StepFuse | js/views/report.js:126-152 | one optional filter after a filter is a single filter |
| Report.DateStages | js/views/report.js:126-132 | the two date stages are one filter |
| Report.IdStages | js/views/report.js:135-142 | the course and student stages extend it |
| Report.ValueStages | js/views/report.js:145-152 | the type and situation stages extend it |
| Report.ReportIsOneFilter | js/views/report.js:123-152 | the six stacked filters equal one filter by the conjunction of the active conditions |
| Report.ReportContents | js/views/report.js:123-152 | the report is an in-order subsequence; an absence is in it exactly when it passes every active condition |
| Report.DateRangeInclusive | js/views/report.js:126-132 | both date bounds are inclusive |
| Report.BlankFiltersKeepAll | js/views/report.js:123-152 | with every filter blank the report is the whole list |
| Report.TypeFilterByDigit | js/views/report.js:145-147 | the type option d, compared with loose `==`, keeps exactly the absences of type d |
| Report.DisplayReport | js/views/report.js:173-176 | the total is the list length and the three type counts add up to at most it |
| Report.UpdateChart | js/views/report.js:202-217 | all zeros for a zero total; otherwise each bar is the rounded percentage |
| Report.ChartOfReport | js/views/report.js:185 | the chart of a report has bars of at most 100 whose sum is at most 101 |
| Report.ChartBounded | js/views/report.js:202-217 | counts that add up to at most the total give bars of at most 100 and at most 101 together |
| Report.RoundedSumBound | js/views/report.js:215-217 | three rounded shares of one total sum to at most 101 |
| StudentDashboard.StudentIdOfStudentUser | js/views/student-dashboard.js:79 | `user-student-x` maps to `student-x` |
| StudentDashboard.StudentIdOfUser | js/views/student-dashboard.js:148 | `user-x` maps to `student-x` |
| StudentDashboard.StudentIdUnchanged | js/views/student-dashboard.js:79 | an id without `user-` is kept |
| StudentDashboard.LabelHasNoNewline | js/views/student-dashboard.js:223-225 | the labelled line of a one-line comment is one line |
| StudentDashboard.AppendStudentComment | js/views/student-dashboard.js:223-225 | the old comments are a prefix, the labelled comment the suffix, separated by a blank line when old comments exist |
| StudentDashboard.ParseComments | js/views/student-dashboard.js:97-107 | no comments parse to nothing; comments without the marker are all "other" comments |
| StudentDashboard.ParseFreshComment | js/views/student-dashboard.js:97-107 | the first student comment on an absence is read back exactly |
| StudentDashboard.SplitBlankThenLine | js/views/student-dashboard.js:98 | a newline then a line splits into a blank line and the line |
| StudentDashboard.SplitAfterTeacher | js/views/student-dashboard.js:98 | splitting comments plus a blank line and the label line adds those two lines |
| StudentDashboard.ParseAt | js/views/student-dashboard.js:97-107 | with the marker first found at line i, the student comment and the other lines are read off line i |
| StudentDashboard.BlankLacksMarker | js/views/student-dashboard.js:99 | a blank line has no marker |
| StudentDashboard.LabelAfterTeacher | js/views/student-dashboard.js:99 | the appended label line is the first line with the marker |
| StudentDashboard.SpliceLast | js/views/student-dashboard.js:103 | removing the last line leaves the rest |
| StudentDashboard.DropTrailingBlank | js/views/student-dashboard.js:104 | the trailing blank line is dropped by the non-blank filter |
| StudentDashboard.OthersAfterTeacher | js/views/student-dashboard.js:103-104 | after the splice and filter the teacher's lines remain |
| StudentDashboard.LabelledLineText | js/views/student-dashboard.js:101 | removing the marker from the labelled line and trimming gives the comment |
| StudentDashboard.LabelledLineFound | js/views/student-dashboard.js:99 | the labelled line contains the marker |
| StudentDashboard.ParseAfterTeacherComment | js/views/student-dashboard.js:97-107 | after teacher comments, the appended student comment and the teacher comments are both read back exactly |
| StudentDashboard.Commented | js/views/student-dashboard.js:227-230 | the updated record differs from the stored one only in `comments`, which gets the comment appended |
| StudentDashboard.AppendComment | js/views/student-dashboard.js:193-233 | the selection, empty-text and unknown-absence rejections, and otherwise the absence replaced by its commented form |
| StudentDashboard.HandleCommentSubmit | js/views/student-dashboard.js:193-266 | as written: always a failure; no selected absence or a blank comment gives "Por favor selecciona una falta y escribe un comentario" and an unknown absence "Falta no encontrada", both with no write; a stored comment is reported as "Error al actualizar la falta" |
| StudentDashboard.HandleCommentSubmitCorrected | js/views/student-dashboard.js:193-266 | success exactly when the comment was stored; the three rejections otherwise |
| AdminDashboard.IsValidEmailMatchesPattern | js/views/admin-dashboard.js:298-302 | the e-mail check holds exactly when the text matches `^[^\s@]+@[^\s@]+\.[^\s@]+$` |
| AdminDashboard.ValidEmailMatches | js/views/admin-dashboard.js:298-302 | an accepted e-mail matches the pattern |
| AdminDashboard.PatternIsValidEmail | js/views/admin-dashboard.js:298-302 | any text shaped like the pattern is accepted |
| AdminDashboard.StudentRecord | js/views/admin-dashboard.js:308-324 | the record carries the id, name, e-mail, `course_id` and enrollment date given |
| AdminDashboard.CourseRecord | js/views/admin-dashboard.js:429-443 | the record carries the id, name, teacher and schedule given |
| AdminDashboard.SaveStudent | js/views/admin-dashboard.js:283-341 | incomplete form, then bad e-mail, rejected with no write; otherwise the trimmed record is written (update by id, or append with a `student-` id) and, as written, "Error al guardar el estudiante" is shown |
| AdminDashboard.SaveCourse | js/views/admin-dashboard.js:412-461 | incomplete form rejected with no write; otherwise the trimmed record is written (update or append with a `course-` id) and, as written, the save-failure message is shown |
| AdminDashboard.SavedStudentFound | js/views/admin-dashboard.js:306-326 | a saved student can be looked up by its id and is the record built from the form |
| AdminDashboard.SavedStudentNotListedByCourse | js/views/admin-dashboard.js:312 | the admin form writes `course_id`, so the store's by-course query, which reads `course`, never lists a student saved there |
| AdminDashboard.StudentsOfCourse | js/data-manager.js:80-82 | the by-course query on `course_id`: an in-order subsequence holding exactly the students with that `course_id` |
| AdminDashboard.SavedStudentListedByCourse | js/views/admin-dashboard.js:316-325 | with that query, a student appended by the form is listed under the course it was saved with |
| AdminDashboard.CellMatchShowsRow | js/views/admin-dashboard.js:497-512 | a row whose lower-cased cell contains the lower-cased term is shown |
| AdminDashboard.HiddenRowHasNoMatch | js/views/admin-dashboard.js:497-512 | a hidden row has the term in none of its three cells |
| AdminDashboard.EmptySearchShowsAll | js/views/admin-dashboard.js:497-512 | an empty search shows every row |
| AdminDashboard.SearchIgnoresCase | js/views/admin-dashboard.js:518-533 | lower-casing the term first changes nothing |
| Login.DashboardPage | js/views/login.js:96-110 | a page exactly for the roles admin, teacher and student |
| Login.DashboardPageNamed | js/views/login.js:96-110 | that page is `<role>-dashboard.html` |
| Login.DashboardPagesDistinct | js/views/login.js:96-110 | different roles go to different pages |
| Login.Session.constructor | js/views/login.js:1-15 | no user signed in and no navigation yet |
| Login.Session.RedirectToDashboard | js/views/login.js:96-110 | navigates to the role's page, or alerts "Rol no reconocido" and stays |
| Login.Session.HandleLogin | js/views/login.js:20-40 | with no role radio checked, the generic login error is alerted and nothing changes; otherwise a blank trimmed username alerts and changes nothing, and any other name is authenticated with the checked role |
| Login.Session.AuthenticateUser | js/views/login.js:47-73 | unknown user and wrong role alert and change nothing; otherwise the user found becomes the current user and the role's page is opened, with no alert, or the unknown-role alert and no navigation when the role has no page; a newly set user is a stored user with that username and role |

## Left out

- The `|| []` fallbacks of the store's `getAll*` methods: the store's lists are never undefined in the model.
- Loading from the backend and `localStorage` (`loadData`, `saveData`, `initializeFromLocalStorage`), `fetch`, and the views' own load functions: a loaded dashboard is a constructor argument.
- DOM work: rendering tables and dropdowns, modals, `showMessage`'s styling, keyboard shortcuts, Chart.js, and the CSV download through `encodeURI`. The model keeps the message shown and the CSV text.
- `averageAbsences` of `calculateGeneralAbsenceStats`: its `toFixed(2)` is floating-point formatting.
- `formatDate`, `sortAbsencesByDate`, `filterAbsencesByDateRange` and the future-date test: they parse `new Date` in the local time zone. The future-date test is the `dateIsFuture` parameter.
- `Date.now()` is the `stamp` parameter. The model does not show that two saves get different ids.
- Concurrency: the 5-minute refresh timer, `Promise.allSettled` and interleaved asynchronous writes. Each handler runs to completion alone.
- Text: `toLowerCase` maps only ASCII letters, and string comparison compares characters rather than UTF-16 code units. These differ only outside the Basic Multilingual Plane and for non-ASCII letters.
- TeacherHandlers.HandleAbsenceSubmit: the store's own copy of the write is not part of the model. The store keeps untyped documents, which cannot carry the numeric `type`. The write reaches the dashboard's list only through the shared array, which the `shared` parameter stands for. The model does not track when the sharing starts (a load) or ends (a store deletion, which builds a new array).
- TeacherHandlers.SaveEditAbsence: the stored record is a parameter, the outcome of the store's `getAbsenceById`. The store's own copy of the write is left out as for registration; its effect on a shared list is stated.
- TeacherHandlers.DeleteAbsenceConfirm: the write into the store is left out as for registration. It never reaches the dashboard's list, because the store replaces its array rather than changing it.
- TeacherHandlers.HandleAbsenceSubmitCorrected: adds the record once, as intended. Removing only the result check would, on a shared list, add it twice: by the store's push and again by the handler's push at line 499.
- Metrics.CalculatePercentage: rounds the exact rational 100·part/total. The source computes `(part / total) * 100` in double precision. There a product that should be exactly a half can fall just below it: 23 of 40 gives 57 in the source and 58 in the model, and 29 of 200 gives 14 against 15. This carries over to TeacherDashboard.Dashboard.GetStudentAbsenceSummary and Report.UpdateChart.
- TeacherForms.KindOf: the NaN that `parseInt` gives for a text without a leading digit is 0 in the model. The two differ under loose `==`: `0 == ""` is true in JavaScript while `NaN == ""` is false. The difference never shows, because the type filters compare only against a non-empty option.
- AbsenceTypes.ParseInt: JavaScript's `parseInt` also skips leading white space and accepts a sign, so " 2" gives 2 and "-2" gives -2 where the model gives NaN. The type selects only offer "1" to "3".
- AbsenceTypes.ToNumber: only digit strings (after trimming) convert. `Number` also converts decimals, exponents and hexadecimal ("1.5", "1e2", "0x1A"), which the model treats as not numeric. The values compared come from the selects, which only offer "1" to "3".
- StudentController.UpdateStudent: a body field that is absent is the empty string in the model. In the source it is `undefined`, which the MySQL driver refuses as a bind parameter, so the request ends in 500 where the model stores "" and answers 200.
- CourseController.UpdateCourse: an absent body field is "" in the model and a refused `undefined` bind parameter (500) in the source, as for students.
- AbsenceController.UpdateAbsence: an absent body field other than `comments` (which `|| null` turns into NULL) is "" in the model and a refused `undefined` bind parameter (500) in the source, as for students.
- UserController.UpdateUser: an absent `username` or `role` is "" in the model and a refused `undefined` bind parameter (500) in the source, as for students. Usernames are compared exactly, as for UserController.CreateUser.
- UserController.CreateUser: `Database.UsernameTaken` and the id lookups compare strings exactly. MySQL's default collation compares them without regard to letter case or trailing spaces, so "Ana" and "ana" are one username there (409) and two in the model.
- Database: every table is keyed by exact string equality. Under MySQL's default collation, ids that differ only in letter case or trailing spaces name the same row, which the model does not capture.
- AdminDashboard.SaveStudent: the modal closing and the table reload after a reported success are not modelled. As written they are never reached.
- AdminDashboard.StudentRecord: states the fields the record carries, not that it has no others.
- AdminDashboard.CourseRecord: states the fields the record carries, not that it has no others.
- Login.DashboardPage: the contract names only which roles have a page. The page's name is stated by `Login.DashboardPageNamed`.
- UserController.GetUserByUsername: SQL row order is unspecified, so the model returns some user with the username. It is the stored row only when usernames are unique.
- StudentController.CreateStudent: the transaction is modelled as if its statements shared one connection. The source issues them through a pool, which does not promise that.
- A read that fails in a controller (its 500 branch) is not modelled: reads always succeed.
- StudentDashboard.ParseComments: a student comment spanning several lines is read back only up to its first line, as the source does. Only one-line comments are proved to round-trip.
- The teacher dashboard's course summary is a map keyed by course id. Keys that JavaScript objects treat specially (such as `__proto__`) are not modelled.
- `main.js`, `student-detail.js`, the backend's `server.js` routing and `db.js` pool setup are not part of this model.

## Findings

| source | as written | input that shows it | evidently intended | confidence | as-written member | corrected member |
|---|---|---|---|---|---|---|
| js/views/student-dashboard.js:233-239 | the result of `updateAbsence` is tested with `if (!result)`, but the store's `updateAbsence` returns `undefined`, so a stored comment is reported as "Error al actualizar la falta" | any selected, stored absence with a non-blank comment | report "Comentario agregado correctamente" once the comment is stored | not executed | StudentDashboard.HandleCommentSubmit | StudentDashboard.HandleCommentSubmitCorrected |
| js/views/teacher-dashboard.js:489-492 | `createAbsence` returns `undefined`, so the handler throws after the write and reports failure; its own push (line 499) is never reached, so the list holds the new absence only through the array it shares with the store | any form the validator accepts | report success, with the new absence in the list once | not executed | TeacherHandlers.HandleAbsenceSubmit | TeacherHandlers.HandleAbsenceSubmitCorrected |
| js/views/teacher-dashboard.js:600-603 | `updateAbsence` returns `undefined`, so the handler throws after the write and reports failure; its own replacement (lines 609-612) is never reached, so the entry changes only through the array shared with the store | a valid edit dialog for a stored absence | replace the entry and report success | not executed | TeacherHandlers.SaveEditAbsence | TeacherHandlers.SaveEditAbsenceCorrected |
| js/views/teacher-dashboard.js:658-662 | `deleteAbsence` returns `undefined`, so the handler reports "Error al eliminar la falta" and never filters `allAbsences` (line 665) | any confirmed deletion | drop the absence from the list silently | not executed | TeacherHandlers.DeleteAbsenceConfirm | TeacherHandlers.DeleteAbsenceConfirmCorrected |
| js/views/admin-dashboard.js:312 | the student form stores the course under `course_id` while the store's `getStudentsByCourseId` (js/data-manager.js:80-82) filters on `course` | a student saved from the administrator's form with course c, then a by-course query for c | a student saved with course c is listed under c, by a query on `course_id` (AdminDashboard.StudentsOfCourse) | not executed | AdminDashboard.SavedStudentNotListedByCourse | AdminDashboard.SavedStudentListedByCourse |
| backend/controllers/studentController.js:64-67 | the enrollment inserts the student's account with the email as username without checking that no user has that username, unlike `createUser` (backend/controllers/userController.js:47-51); with no unique index on `users.username` the commit leaves two users with one username, and with one the insert fails and the answer is 500 rather than 409 | an enrollment with a fresh id whose email is already some user's username | refuse it with 409 "User with this username already exists", so usernames stay unique | not executed | StudentController.CreateStudent | StudentController.CreateStudentCorrected |
| js/data-manager.js:120-122 | `getAbsencesByStudentId` filters on `absence.studentId`, while the teacher dashboard writes absences with `student_id` (js/views/teacher-dashboard.js:476-486) and counts them by it | any absence registered from the teacher dashboard, then the student's absences queried | the student's absences include it, by a query on `student_id` (ClientStore.AbsencesOfStudent) | not executed | ClientStore.StudentIdDocNotListed | ClientStore.StudentIdDocListed |
