# student-pulse-admin, modelled in Dafny

`student-pulse-admin` is the admin dashboard of a campus RFID access-control
system. Institutions sign in, manage their students and check their payment and
card status, record class attendance, and browse access logs. A mock live monitor
shows card taps as they happen. A small Express backend forwards student CRUD
requests to Supabase.

This project models the parts of that system that decide something:

- the mock access decision for a card tap;
- the student table and the access-log table: filtering, pages, navigation and
  statistics;
- the attendance map: loading, toggling, saving and the present count;
- the live monitor's newest-first buffer of ten taps;
- the two-step add-student wizard and the payload it submits;
- the backend's request handlers and their status codes;
- photo path construction in the storage helpers, and path extraction on delete;
- the upload file filter, the size limit and the route table;
- the route gate, and the mock authentication state with its browser-storage
  entry.

One module per source file:

| file | module | source |
|---|---|---|
| `js.dfy` | `Js` | JavaScript built-ins the source relies on: ASCII `toLowerCase`, `includes`, `indexOf`, `Array.filter`, `Array.slice` |
| `paging.dfy` | `Paging` | page count, page slice and Previous/Next clamping shared by both tables |
| `rfid_log.dfy` | `RfidLog` | `src/api/rfid-log.ts` |
| `students_management.dfy` | `StudentsManagement` | `src/components/dashboard/StudentsManagement.tsx` |
| `rfid_logs.dfy` | `RfidLogs` | `src/components/dashboard/RFIDLogs.tsx` |
| `attendance_page.dfy` | `AttendancePage` | `src/pages/AttendancePage.tsx` |
| `rfid_monitor.dfy` | `RfidMonitor` | `src/components/dashboard/RFIDMonitor.tsx` |
| `add_student_form.dfy` | `AddStudentForm` | `src/components/forms/AddStudentForm.tsx` |
| `student_controller.dfy` | `StudentController` | `backend/src/controllers/studentController.js` |
| `storage.dfy` | `Storage` | `backend/src/utils/storage.js` |
| `student_routes.dfy` | `StudentRoutes` | `backend/src/routes/studentRoutes.js` |
| `protected_route.dfy` | `ProtectedRoute` | `src/components/auth/ProtectedRoute.tsx` |
| `auth_context.dfy` | `AuthContext` | `src/contexts/AuthContext.tsx` |

Pure code is modelled as functions and lemmas: the decision rule, the filters and
slices, the payload builders, the handlers' guards, the path strings, the file
filter and the gate. Component state changed by React setters is modelled as a
class whose methods change its fields:

- `StudentsView`, `LogsView`, `AttendanceView`, `Monitor`, `Wizard`;
- `AuthProvider`, which also holds the browser's `institution` storage key.

Every source of nondeterminism is a parameter:

- `Math.random()` is a real in `[0, 1)`;
- `Date.now()` is a natural number, and the ISO clock string is a string;
- the answer of a database or storage call is a reply value.

A handler returns the call it would issue together with its response.

### The access decision, as the code makes it

- `handleRFIDLog` only returns a decision and appends no log entry. `RfidLog.Decide`
  has no log side effect.
- An empty card UID is looked up like any other UID, so it is answered "Card not
  found in system".
- `logId` is `Math.floor(Math.random() * 10000)`. It lies in `[0, 10000)`, and
  nothing makes it unique.

## Model

| member | source | states |
|---|---|---|
| Js.Lower | student-pulse-admin/src/components/dashboard/StudentsManagement.tsx:134-136 | `toLowerCase` on ASCII keeps the length, lower-cases exactly `A`–`Z` and leaves no upper-case letter |
| Js.LowerIdempotent | student-pulse-admin/src/components/dashboard/StudentsManagement.tsx:134-136 | lower-casing twice equals lower-casing once |
| Js.Includes | student-pulse-admin/src/components/dashboard/StudentsManagement.tsx:134-135 | `String.prototype.includes`: the needle starts at the front or occurs in the tail (its position-based partner: Js.IncludesIffOccurs) |
| Js.IncludesIffOccurs | student-pulse-admin/src/components/dashboard/StudentsManagement.tsx:134-136 | `includes` holds exactly when the needle occurs at some index |
| Js.IncludesEmpty | student-pulse-admin/src/components/dashboard/StudentsManagement.tsx:134-136 | every string includes the empty string, so an empty search term keeps every row |
| Js.IndexOf | student-pulse-admin/backend/src/utils/storage.js:39 | the search `split` performs finds an occurrence exactly when the separator is included, and the occurrence found is real |
| Js.IndexOfIsFirst | student-pulse-admin/backend/src/utils/storage.js:39 | no occurrence starts before the index found |
| Js.IndexOfExtend | student-pulse-admin/backend/src/utils/storage.js:39 | appending text never moves an existing first occurrence |
| Js.Filter | student-pulse-admin/src/components/dashboard/StudentsManagement.tsx:133-140 | `Array.filter` keeps exactly the elements satisfying the predicate and never grows the list |
| Js.FilterIsSubsequence | student-pulse-admin/src/components/dashboard/StudentsManagement.tsx:133-140 | a filtered list is an order-preserving subsequence of its input |
| Js.FilterKeepsAll | student-pulse-admin/src/components/dashboard/StudentsManagement.tsx:133-140 | filtering with a predicate every element satisfies returns the input unchanged |
| Js.SubsequenceOfTail | student-pulse-admin/src/components/dashboard/StudentsManagement.tsx:133-140 | a subsequence of a list's tail is a subsequence of the list |
| Js.SubsequenceDropHead | student-pulse-admin/src/components/dashboard/StudentsManagement.tsx:133-140 | dropping the first element of a subsequence leaves a subsequence |
| Js.SliceIndex | student-pulse-admin/src/components/dashboard/StudentsManagement.tsx:143-144 | `slice` clamps an index into `[0, length]` and leaves an in-range index alone |
| Js.Slice | student-pulse-admin/src/components/dashboard/StudentsManagement.tsx:143-144 | `Array.slice` never returns more elements than the array has |
| Js.SliceWindowBound | student-pulse-admin/src/components/dashboard/StudentsManagement.tsx:143-144 | a slice of a window of width k holds at most k elements, for any start, negative included |
| Js.SliceFromNonNegative | student-pulse-admin/src/components/dashboard/StudentsManagement.tsx:143-144 | from a non-negative start, a slice is the clamped sub-sequence |
| Js.Count | student-pulse-admin/src/components/dashboard/RFIDLogs.tsx:78 | a count is the length of the filtered list and at most the list's length |
| Js.CountComplement | student-pulse-admin/src/components/dashboard/RFIDLogs.tsx:78-103 | counts under two complementary predicates add up to the list's length |
| Paging.TotalPages | student-pulse-admin/src/components/dashboard/StudentsManagement.tsx:142 | the page count is the least t with t pages covering n items (the ceiling of n / perPage) |
| Paging.StartIndex | student-pulse-admin/src/components/dashboard/StudentsManagement.tsx:143 | the first index of a page numbered 1 or more is non-negative |
| Paging.PageOf | student-pulse-admin/src/components/dashboard/StudentsManagement.tsx:143-144 | a page holds at most perPage items, and page p ≥ 1 is exactly the clamped window starting at (p-1)·perPage |
| Paging.PagePastEndIsEmpty | student-pulse-admin/src/components/dashboard/StudentsManagement.tsx:142-144 | a page beyond the page count is empty |
| Paging.MulMonotone | student-pulse-admin/src/components/dashboard/StudentsManagement.tsx:143 | page offsets grow with the page number |
| Paging.ItemOnItsPage | student-pulse-admin/src/components/dashboard/StudentsManagement.tsx:142-144 | item i appears on page i / perPage + 1, at position i mod perPage, and that page is within the page count |
| Paging.Previous | student-pulse-admin/src/components/dashboard/StudentsManagement.tsx:362-363 | Previous goes one page back and never below page 1 |
| Paging.Next | student-pulse-admin/src/components/dashboard/StudentsManagement.tsx:372-373 | Next goes one page forward and never past the page count |
| Paging.NavigationStaysInRange | student-pulse-admin/src/components/dashboard/StudentsManagement.tsx:358-376 | from a page in [1, totalPages], Previous and Next both stay in that range |
| Paging.ControlsVisible | student-pulse-admin/src/components/dashboard/StudentsManagement.tsx:358 | the Previous and Next controls are shown only when there is more than one page |
| Paging.PreviousDisabled | student-pulse-admin/src/components/dashboard/StudentsManagement.tsx:363 | Previous is disabled exactly on page 1 |
| Paging.NextDisabled | student-pulse-admin/src/components/dashboard/StudentsManagement.tsx:373 | Next is disabled exactly on the last page |
| RfidLog.FindIndex | student-pulse-admin/src/api/rfid-log.ts:26 | `find` returns the first student whose card UID equals the input exactly, or nothing when none does |
| RfidLog.Find | student-pulse-admin/src/api/rfid-log.ts:26 | the student found is in the list and carries the card UID; nothing is found exactly when no student has it |
| RfidLog.LogId | student-pulse-admin/src/api/rfid-log.ts:59 | `Math.floor(random * 10000)` lies in [0, 10000) |
| RfidLog.Decide | student-pulse-admin/src/api/rfid-log.ts:26-60 | `success` is always true. Unknown card: denied, "Card not found in system", no name. Blocked: denied, "Card blocked", with the name. Unpaid: denied, "Unpaid fees", with the name. Otherwise: allowed, "Valid access", with the name. `logId` is present exactly when access is allowed |
| RfidLog.HandleRfidLog | student-pulse-admin/src/api/rfid-log.ts:20-60 | over the built-in three students, access is allowed exactly for RFID001, and a name is returned exactly for RFID001–RFID003 |
| RfidLog.DecisionFollowsCheckOrder | student-pulse-admin/src/api/rfid-log.ts:28-60 | the decision equals the first applicable check in the order not-found, blocked, unpaid, valid; allowed exactly when found, active and paid |
| RfidLog.BlockedTakesPrecedence | student-pulse-admin/src/api/rfid-log.ts:36-52 | a blocked card gives "Card blocked" whatever its payment flag, so blocked beats unpaid |
| RfidLog.LaterDuplicatesIgnored | student-pulse-admin/src/api/rfid-log.ts:26 | appending another student with the same card UID does not change which student is found |
| RfidLog.FindIndexExtend | student-pulse-admin/src/api/rfid-log.ts:26 | a first match found in a prefix stays the first match in any extension |
| RfidLog.MockScenarios | student-pulse-admin/src/api/rfid-log.ts:20-60 | RFID001 is allowed as John Doe, RFID002 is denied as unpaid (Jane Smith), RFID003 is denied as blocked (Mike Johnson), and an unknown UID is denied without a name |
| StudentsManagement.MatchesSearch | student-pulse-admin/src/components/dashboard/StudentsManagement.tsx:134-135 | the lower-cased search term occurs in the lower-cased name or in the lower-cased e-mail |
| StudentsManagement.MatchesFilter | student-pulse-admin/src/components/dashboard/StudentsManagement.tsx:136-138 | "all" keeps every student, "paid" those who paid, "unpaid" those who did not |
| StudentsManagement.FilteredStudents | student-pulse-admin/src/components/dashboard/StudentsManagement.tsx:133-140 | a student is kept exactly when name or email contains the term case-insensitively and the payment filter matches |
| StudentsManagement.FilteredKeepsOrder | student-pulse-admin/src/components/dashboard/StudentsManagement.tsx:133-140 | the filtered list is an order-preserving subsequence of the fetched list |
| StudentsManagement.NoSearchNoFilterIsIdentity | student-pulse-admin/src/components/dashboard/StudentsManagement.tsx:133-140 | an empty search with filter "all" returns the fetched list unchanged |
| StudentsManagement.PaidAndUnpaidPartition | student-pulse-admin/src/components/dashboard/StudentsManagement.tsx:133-140 | under one search term, the "paid" and "unpaid" views together hold exactly as many students as the "all" view |
| StudentsManagement.TotalPages | student-pulse-admin/src/components/dashboard/StudentsManagement.tsx:142 | the page count is the ceiling of the filtered length over 10 |
| StudentsManagement.PaginatedStudents | student-pulse-admin/src/components/dashboard/StudentsManagement.tsx:143-144 | the visible page is the window of the filtered list starting at (p-1)·10, at most 10 students, and empty past the last page |
| StudentsManagement.TogglePaymentStatus | student-pulse-admin/src/components/dashboard/StudentsManagement.tsx:146-149 | the request targets the same student and asks for the opposite payment flag |
| StudentsManagement.ToggleCardStatus | student-pulse-admin/src/components/dashboard/StudentsManagement.tsx:151-154 | the request targets the same student and asks for the other card status |
| StudentsManagement.ToggleCardStatusTwice | student-pulse-admin/src/components/dashboard/StudentsManagement.tsx:151-154 | toggling the card status twice restores it |
| StudentsManagement.ConfirmDelete | student-pulse-admin/src/components/dashboard/StudentsManagement.tsx:164-168 | a delete is issued exactly when the dialog holds a truthy id (so never for id 0), and for that id |
| StudentsManagement.DeleteFlow | student-pulse-admin/src/components/dashboard/StudentsManagement.tsx:156-168 | opening the dialog on a non-zero id and confirming deletes that id |
| StudentsManagement.StudentsView.constructor | student-pulse-admin/src/components/dashboard/StudentsManagement.tsx:31-36 | the initial state: empty search, filter "all", page 1, dialog closed |
| StudentsManagement.StudentsView.Refetch | student-pulse-admin/src/components/dashboard/StudentsManagement.tsx:57 | a refetch replaces the student list and nothing else |
| StudentsManagement.StudentsView.SetSearchTerm | student-pulse-admin/src/components/dashboard/StudentsManagement.tsx:230 | typing changes only the search term; the page is not reset |
| StudentsManagement.StudentsView.SetFilterStatus | student-pulse-admin/src/components/dashboard/StudentsManagement.tsx:237-250 | the filter buttons change only the payment filter |
| StudentsManagement.StudentsView.ClickPrevious | student-pulse-admin/src/components/dashboard/StudentsManagement.tsx:358-364 | with the controls shown and the button enabled the page becomes Previous(page), otherwise nothing changes; page ≥ 1 is kept |
| StudentsManagement.StudentsView.ClickNext | student-pulse-admin/src/components/dashboard/StudentsManagement.tsx:358-376 | with the controls shown and the button enabled the page becomes Next(page, totalPages), otherwise nothing changes; a page in range stays in range |
| StudentsManagement.StudentsView.HandleDeleteStudent | student-pulse-admin/src/components/dashboard/StudentsManagement.tsx:156-158 | the dialog opens holding the student's id and name |
| StudentsManagement.StudentsView.CloseDeleteDialog | student-pulse-admin/src/components/dashboard/StudentsManagement.tsx:387 | the dialog is cleared, after which confirming deletes nothing |
| RfidLogs.MatchesSearch | student-pulse-admin/src/components/dashboard/RFIDLogs.tsx:38-39 | the lower-cased search term occurs in the lower-cased student name or in the lower-cased card UID |
| RfidLogs.MatchesStatus | student-pulse-admin/src/components/dashboard/RFIDLogs.tsx:40 | "all" keeps every log, any other filter the logs with exactly that status |
| RfidLogs.FilteredLogs | student-pulse-admin/src/components/dashboard/RFIDLogs.tsx:37-42 | a log is kept exactly when its student name or card UID contains the term case-insensitively and the status filter is "all" or equals its status |
| RfidLogs.FilteredLogsKeepOrder | student-pulse-admin/src/components/dashboard/RFIDLogs.tsx:37-42 | filtering preserves the relative order of the logs |
| RfidLogs.TotalPages | student-pulse-admin/src/components/dashboard/RFIDLogs.tsx:44 | the page count is the ceiling of the filtered length over 15 |
| RfidLogs.PaginatedLogs | student-pulse-admin/src/components/dashboard/RFIDLogs.tsx:45-46 | the visible page is the 15-entry window starting at (p-1)·15 and holds at most 15 entries |
| RfidLogs.Stats | student-pulse-admin/src/components/dashboard/RFIDLogs.tsx:78-103 | total, allowed and denied are counts over all logs, and allowed + denied = total |
| RfidLogs.MockStatistics | student-pulse-admin/src/components/dashboard/RFIDLogs.tsx:26-103 | the eight built-in logs show 8 total, 5 allowed and 3 denied |
| RfidLogs.MockLogsFitOnePage | student-pulse-admin/src/components/dashboard/RFIDLogs.tsx:26-46 | the built-in logs fit on one page, so the pagination controls are hidden |
| RfidLogs.LogsView.constructor | student-pulse-admin/src/components/dashboard/RFIDLogs.tsx:20-23 | the initial state: empty search, status "all", page 1 |
| RfidLogs.LogsView.SetSearchTerm | student-pulse-admin/src/components/dashboard/RFIDLogs.tsx:122 | typing changes only the search term |
| RfidLogs.LogsView.SetStatusFilter | student-pulse-admin/src/components/dashboard/RFIDLogs.tsx:129-142 | the status buttons change only the status filter |
| RfidLogs.LogsView.ClickPrevious | student-pulse-admin/src/components/dashboard/RFIDLogs.tsx:203-208 | an enabled, visible Previous moves back one page, never below 1; otherwise nothing changes |
| RfidLogs.LogsView.ClickNext | student-pulse-admin/src/components/dashboard/RFIDLogs.tsx:203-218 | an enabled, visible Next moves forward one page, never past the page count; otherwise nothing changes |
| AttendancePage.LastStatus | student-pulse-admin/src/pages/AttendancePage.tsx:34-39 | None exactly when no fetched record names the student; otherwise the status of a record for that student after which no record names them, that is of the last one |
| AttendancePage.LastRecordInPrefix | student-pulse-admin/src/pages/AttendancePage.tsx:34-39 | the last record for a student among all but the final record stays the last when the final record is another student's |
| AttendancePage.BuildAttendanceMap | student-pulse-admin/src/pages/AttendancePage.tsx:34-39 | the `forEach` loop maps each recorded id to the status of its last record, and holds no other key |
| AttendancePage.Toggle | student-pulse-admin/src/pages/AttendancePage.tsx:61-66 | the toggled id becomes absent if it was present and present otherwise (unset included); every other key keeps its status |
| AttendancePage.ToggleTwiceRestores | student-pulse-admin/src/pages/AttendancePage.tsx:61-66 | toggling a marked id twice restores the map |
| AttendancePage.ToggleFromUnmarked | student-pulse-admin/src/pages/AttendancePage.tsx:61-66 | an unmarked id goes present on the first toggle and absent on the second |
| AttendancePage.SaveRecords | student-pulse-admin/src/pages/AttendancePage.tsx:68-73 | one record per rostered student, in roster order, with the selected date and the map's status, absent when unmarked |
| AttendancePage.SaveAfterLoad | student-pulse-admin/src/pages/AttendancePage.tsx:34-73 | saving right after loading writes each student's last fetched status, or absent when none was fetched |
| AttendancePage.FilteredStudents | student-pulse-admin/src/pages/AttendancePage.tsx:77-79 | a student is shown exactly when their name contains the search term case-insensitively |
| AttendancePage.FilteredStudentsKeepOrder | student-pulse-admin/src/pages/AttendancePage.tsx:77-79 | the shown students are an order-preserving subsequence of the roster |
| AttendancePage.PresentCount | student-pulse-admin/src/pages/AttendancePage.tsx:81-82 | the count of present entries is at most the number of keys in the map |
| AttendancePage.SubsetCardinality | student-pulse-admin/src/pages/AttendancePage.tsx:81-82 | a subset of ids is no larger than its superset |
| AttendancePage.ToggleMovesPresentCount | student-pulse-admin/src/pages/AttendancePage.tsx:61-82 | a toggle moves the present count by exactly one, down from present and up otherwise |
| AttendancePage.PresentIdsAfterToggle | student-pulse-admin/src/pages/AttendancePage.tsx:61-82 | a toggle removes the id from the present set or adds it, and changes nothing else in that set |
| AttendancePage.PresentCountCanExceedRoster | student-pulse-admin/src/pages/AttendancePage.tsx:81-82 | a present entry for an id outside the roster is counted, so the count can exceed the roster size |
| AttendancePage.AttendanceView.constructor | student-pulse-admin/src/pages/AttendancePage.tsx:16-18 | the initial state: today's date, empty search, empty map |
| AttendancePage.AttendanceView.LoadRecords | student-pulse-admin/src/pages/AttendancePage.tsx:34-40 | the effect replaces the map by the last status of each fetched id and changes nothing else |
| AttendancePage.AttendanceView.ToggleAttendance | student-pulse-admin/src/pages/AttendancePage.tsx:185 | the button applies Toggle to the map and nothing else |
| AttendancePage.AttendanceView.SetSearchTerm | student-pulse-admin/src/pages/AttendancePage.tsx:134 | typing changes only the search term |
| AttendancePage.AttendanceView.SetSelectedDate | student-pulse-admin/src/pages/AttendancePage.tsx:120 | picking a date changes only the selected date |
| AttendancePage.AttendanceView.HandleSave | student-pulse-admin/src/pages/AttendancePage.tsx:68-75 | the saved records are SaveRecords of the whole roster, whatever the search, one per student |
| RfidMonitor.PickCard | student-pulse-admin/src/components/dashboard/RFIDMonitor.tsx:30-31 | the tapped card is one of the four mock cards, indexed by floor(random · 4) |
| RfidMonitor.NewLog | student-pulse-admin/src/components/dashboard/RFIDMonitor.tsx:34-41 | the new log carries the clock's id and time; it has no student name exactly when the card is RFID999; it is allowed exactly when the access draw exceeds 0.3 |
| RfidMonitor.Insert | student-pulse-admin/src/components/dashboard/RFIDMonitor.tsx:43 | the new log is first, followed by the first min(9, n) previous entries in order, so the buffer never exceeds 10 |
| RfidMonitor.Reverse | student-pulse-admin/src/components/dashboard/RFIDMonitor.tsx:43 | reversing keeps the length and puts element i at position length-1-i |
| RfidMonitor.TapHappens | student-pulse-admin/src/components/dashboard/RFIDMonitor.tsx:29 | a tick produces a tap exactly when the first random draw exceeds 0.7 |
| RfidMonitor.InsertAll | student-pulse-admin/src/components/dashboard/RFIDMonitor.tsx:43 | the buffer after a run of taps, each put in front and the list cut to ten (its properties: RfidMonitor.InsertAllKeepsNewest) |
| RfidMonitor.InsertAllKeepsNewest | student-pulse-admin/src/components/dashboard/RFIDMonitor.tsx:43 | after any series of taps the buffer is the newest ten of all logs, newest first |
| RfidMonitor.DisplayName | student-pulse-admin/src/components/dashboard/RFIDMonitor.tsx:112 | the student name when it is present and non-empty, otherwise "Unknown Card" |
| RfidMonitor.DisplayNameOfNewLog | student-pulse-admin/src/components/dashboard/RFIDMonitor.tsx:37-112 | a generated log displays "Unknown Card" exactly when its card is RFID999 |
| RfidMonitor.Monitor.constructor | student-pulse-admin/src/components/dashboard/RFIDMonitor.tsx:18-20 | both flags start false and the buffer starts empty |
| RfidMonitor.Monitor.ToggleMonitoring | student-pulse-admin/src/components/dashboard/RFIDMonitor.tsx:53-56 | both flags flip together, so they stay equal; the buffer is untouched |
| RfidMonitor.Monitor.Tick | student-pulse-admin/src/components/dashboard/RFIDMonitor.tsx:26-45 | while listening, a tap (draw > 0.7) inserts exactly one new log; otherwise the buffer is unchanged |
| AddStudentForm.EmailShape | student-pulse-admin/src/components/forms/AddStudentForm.tsx:138-144 | an accepted e-mail has exactly one `@`, neither first nor last |
| AddStudentForm.OnlyOneAt | student-pulse-admin/src/components/forms/AddStudentForm.tsx:141 | the `@` the pattern matches is the only one, and it has a domain after it |
| AddStudentForm.EmailAccepted | student-pulse-admin/src/components/forms/AddStudentForm.tsx:136-141 | the placeholder address john@university.edu is accepted |
| AddStudentForm.EmailWithoutDotRejected | student-pulse-admin/src/components/forms/AddStudentForm.tsx:141 | an address whose domain has no dot is rejected |
| AddStudentForm.EmailWithoutLocalPartRejected | student-pulse-admin/src/components/forms/AddStudentForm.tsx:141 | an address with nothing before the `@` is rejected |
| AddStudentForm.EmailMatches | student-pulse-admin/src/components/forms/AddStudentForm.tsx:141 | the e-mail pattern `/^[A-Z0-9._%+-]+@[A-Z0-9.-]+\.[A-Z]{2,}$/i`: some `@` splits the text into a non-empty local part and a domain ending in a dot and at least two letters (its consequences: AddStudentForm.EmailShape) |
| AddStudentForm.StepOneValid | student-pulse-admin/src/components/forms/AddStudentForm.tsx:52-58 | what `trigger(['name', 'email', 'cardUID'])` accepts: the three required fields non-empty and the e-mail matching the pattern |
| AddStudentForm.ClassLevels | student-pulse-admin/src/components/forms/AddStudentForm.tsx:37-41 | Primary offers P1–P6, Secondary S1–S6, TSS Level 3–5, and any other category nothing |
| AddStudentForm.ClassLevelDeterminesCategory | student-pulse-admin/src/components/forms/AddStudentForm.tsx:37-41 | no class level is offered under two categories |
| AddStudentForm.BuildPayload | student-pulse-admin/src/components/forms/AddStudentForm.tsx:73-78 | the payload keeps the typed fields, takes category and class from the selections, has a program exactly for TSS, and carries the selected image or none |
| AddStudentForm.PayloadIgnoresFormSelections | student-pulse-admin/src/components/forms/AddStudentForm.tsx:73-78 | category, class or program in the form data never reach the payload |
| AddStudentForm.SubmitDisabled | student-pulse-admin/src/components/forms/AddStudentForm.tsx:256 | the submit button is disabled exactly while loading, whatever the selections |
| AddStudentForm.Step2Hints | student-pulse-admin/src/components/forms/AddStudentForm.tsx:211-248 | each "… is required" hint shows exactly when its selection is missing |
| AddStudentForm.HintsDoNotBlockSubmit | student-pulse-admin/src/components/forms/AddStudentForm.tsx:211-256 | with every selection missing, a hint shows and submission stays enabled |
| AddStudentForm.Wizard.constructor | student-pulse-admin/src/components/forms/AddStudentForm.tsx:28-33 | a fresh form is on step 1 with every field and selection empty |
| AddStudentForm.Wizard.Valid | student-pulse-admin/src/components/forms/AddStudentForm.tsx:52-58 | the step is 1 or 2, and step 2 is only reached with name, e-mail and card UID that validate (every setter keeps this) |
| AddStudentForm.Wizard.EnterBasics | student-pulse-admin/src/components/forms/AddStudentForm.tsx:113-158 | typing into the step-1 inputs, which only step 1 renders, sets name, e-mail and card UID only and keeps the form's invariant |
| AddStudentForm.Wizard.HandleNextStep | student-pulse-admin/src/components/forms/AddStudentForm.tsx:52-58 | the step becomes 2 exactly when name, e-mail and card UID validate, and stays otherwise |
| AddStudentForm.Wizard.Back | student-pulse-admin/src/components/forms/AddStudentForm.tsx:253 | Back returns to step 1 and keeps everything entered |
| AddStudentForm.Wizard.HandleImageChange | student-pulse-admin/src/components/forms/AddStudentForm.tsx:60-70 | a chosen file replaces the selected image; an empty choice keeps it |
| AddStudentForm.Wizard.SelectCategory | student-pulse-admin/src/components/forms/AddStudentForm.tsx:201 | picking a category keeps the previously chosen class level |
| AddStudentForm.Wizard.SelectClass | student-pulse-admin/src/components/forms/AddStudentForm.tsx:217 | picking a class level changes only the class level |
| AddStudentForm.Wizard.SelectProgram | student-pulse-admin/src/components/forms/AddStudentForm.tsx:236 | picking a program changes only the program |
| AddStudentForm.Wizard.HandleFormSubmit | student-pulse-admin/src/components/forms/AddStudentForm.tsx:72-88 | on step 2, submits BuildPayload of the values typed on step 1 and the selections made before the call; the submitted name, e-mail and card UID are those entered and pass the step-1 validation; then the form is back on step 1 with everything cleared |
| StudentController.Field | student-pulse-admin/backend/src/controllers/studentController.js:31 | destructuring a missing body field gives `undefined` |
| StudentController.Failure | student-pulse-admin/backend/src/controllers/studentController.js:57-60 | a caught error answers 500 with `{error: message}` |
| StudentController.ListStudents | student-pulse-admin/backend/src/controllers/studentController.js:5-13 | fetches all students: 200 with the rows, or 500 with the error message |
| StudentController.GetStudentById | student-pulse-admin/backend/src/controllers/studentController.js:15-27 | 404 "Student not found" when the lookup yields nothing truthy, 200 with the student otherwise, 500 on a database error |
| StudentController.Truthy | student-pulse-admin/backend/src/controllers/studentController.js:32 | JavaScript truthiness of a body value: undefined, null, false, 0 and "" are falsy, everything else truthy |
| StudentController.HasRequiredFields | student-pulse-admin/backend/src/controllers/studentController.js:32-34 | the create guard: name, email and cardUID are all truthy |
| StudentController.CreateStudent | student-pulse-admin/backend/src/controllers/studentController.js:29-61 | 400 without touching storage or database unless name, e-mail and card UID are truthy. Otherwise: `class` is null when falsy; a failed upload leaves `photoURL` out and creation goes on; 201 with the created row, or 500 |
| StudentController.UpdatePaymentStatus | student-pulse-admin/backend/src/controllers/studentController.js:63-76 | 400 with no database call exactly when `hasPaid` is not a boolean; otherwise the update is exactly `{hasPaid}`, answering 200 or 500 |
| StudentController.IsCardStatus | student-pulse-admin/backend/src/controllers/studentController.js:82 | `['active', 'blocked'].includes(cardStatus)`: the value is exactly one of the two strings |
| StudentController.UpdateCardStatus | student-pulse-admin/backend/src/controllers/studentController.js:78-91 | 400 with no database call exactly when `cardStatus` is neither "active" nor "blocked"; otherwise the update is exactly `{cardStatus}`, answering 200 or 500 |
| StudentController.DeleteStudent | student-pulse-admin/backend/src/controllers/studentController.js:93-102 | 204 with no body exactly when the delete succeeds, 500 with the message otherwise |
| StudentController.RejectionIgnoresDatabase | student-pulse-admin/backend/src/controllers/studentController.js:66-85 | a rejected patch answers the same whatever the database would have said |
| StudentController.PatchSendsOneField | student-pulse-admin/backend/src/controllers/studentController.js:70-85 | an accepted patch sends exactly one field to the database |
| StudentController.FailureIsAlways500 | student-pulse-admin/backend/src/controllers/studentController.js:5-102 | every handler answers 500 exactly when the database call it issued failed |
| StudentController.EmptyEmailIsRefused | student-pulse-admin/backend/src/controllers/studentController.js:32-34 | a form whose e-mail is the empty string is answered 400, with no upload and no insert |
| StudentController.EmptyClassIsStoredAsNull | student-pulse-admin/backend/src/controllers/studentController.js:36-60 | a complete form with `class` "" is inserted with a null class, and a failed photo upload leaves the row without `photoURL` while the answer is still 201 |
| Storage.DigitChar | student-pulse-admin/backend/src/utils/storage.js:13 | each digit value prints as its decimal character |
| Storage.Decimal | student-pulse-admin/backend/src/utils/storage.js:13 | a timestamp prints as a non-empty string of digits |
| Storage.DecimalRoundTrip | student-pulse-admin/backend/src/utils/storage.js:13 | reading back the printed timestamp gives the timestamp |
| Storage.UploadPath | student-pulse-admin/backend/src/utils/storage.js:13-14 | the path is "students/" + timestamp + "-" + original name, and ends with the original name |
| Storage.UploadPathsDistinct | student-pulse-admin/backend/src/utils/storage.js:13-14 | equal paths come from the same timestamp and the same name, so the path encodes both |
| Storage.UploadPathAfterFolder | student-pulse-admin/backend/src/utils/storage.js:13-14 | after the folder prefix, the path is the timestamp, a dash and the name |
| Storage.DashAfterDigits | student-pulse-admin/backend/src/utils/storage.js:13 | the first dash after the digits of a timestamp is the separator, whatever the name holds |
| Storage.PublicUrl | student-pulse-admin/backend/src/utils/storage.js:28-32 | the public URL is the project URL, the public-object prefix, "/student-photos/" and the path |
| Storage.UploadStudentPhoto | student-pulse-admin/backend/src/utils/storage.js:12-33 | uploads to the photo bucket at UploadPath, with the file's content type and no upsert; returns the public URL, or fails with "Failed to upload photo: " and the message |
| Storage.Split | student-pulse-admin/backend/src/utils/storage.js:39 | `split` gives at least one piece, and two or more exactly when the separator occurs |
| Storage.JoinSplit | student-pulse-admin/backend/src/utils/storage.js:39 | joining the pieces with the separator gives back the string |
| Storage.SplitStep | student-pulse-admin/backend/src/utils/storage.js:39 | the first piece is the text before the first occurrence, and the rest is the split of what follows it |
| Storage.AroundOccurrence | student-pulse-admin/backend/src/utils/storage.js:39 | a string is the text before an occurrence, the separator, and the text after it |
| Storage.JoinCons | student-pulse-admin/backend/src/utils/storage.js:39 | joining a leading piece puts the separator between it and the joined rest |
| Storage.SplitOnce | student-pulse-admin/backend/src/utils/storage.js:39-42 | a string with one occurrence splits into exactly the text before and the text after |
| Storage.SplitPiecesAreFree | student-pulse-admin/backend/src/utils/storage.js:39-42 | no piece of a split contains the separator |
| Storage.PrefixBeforeFirstIsFree | student-pulse-admin/backend/src/utils/storage.js:39-42 | the text before the first occurrence contains no occurrence |
| Storage.DeletePath | student-pulse-admin/backend/src/utils/storage.js:36-42 | a path is extracted exactly when the URL is present, non-empty and contains "/student-photos/"; it is the second piece of the split, which never contains the marker |
| Storage.DeleteStudentPhoto | student-pulse-admin/backend/src/utils/storage.js:35-51 | removes exactly the extracted path from the bucket, or does nothing; a removal error is only logged |
| Storage.DeleteCallIgnoresReply | student-pulse-admin/backend/src/utils/storage.js:44-50 | the removal issued does not depend on the storage reply |
| Storage.PathHasNoMarker | student-pulse-admin/backend/src/utils/storage.js:13-14 | an upload path whose name has no slash never contains "/student-photos/" |
| Storage.FirstMarkerAfterPrefix | student-pulse-admin/backend/src/utils/storage.js:39 | in a public URL, the first "/student-photos/" is the one after the bucket prefix |
| Storage.UrlSplitsAtBucket | student-pulse-admin/backend/src/utils/storage.js:39-42 | a public URL splits into the bucket prefix and the path |
| Storage.DeleteFindsUploadedPath | student-pulse-admin/backend/src/utils/storage.js:12-51 | for a slash-free file name and a project URL made of characters `encodeURI` leaves unchanged, deleting by the URL an upload returned removes the path that upload wrote |
| Storage.UriUnescaped | student-pulse-admin/backend/src/utils/storage.js:28-30 | the characters `encodeURI` leaves as they are: ASCII letters, digits and `-_.!~*'();/?:@&=+$,#` |
| StudentRoutes.TrimTrailingSlashes | student-pulse-admin/backend/src/routes/studentRoutes.js:15 | trailing slashes are removed, and only those |
| StudentRoutes.LastSegment | student-pulse-admin/backend/src/routes/studentRoutes.js:15 | the last path segment is a slash-free suffix |
| StudentRoutes.LastDot | student-pulse-admin/backend/src/routes/studentRoutes.js:15 | finds the last dot, or reports that there is none |
| StudentRoutes.Extname | student-pulse-admin/backend/src/routes/studentRoutes.js:15 | `path.extname` is empty, or a dot followed by characters that are neither dots nor slashes |
| StudentRoutes.SegmentExtension | student-pulse-admin/backend/src/routes/studentRoutes.js:15 | the extension of one segment has the same shape |
| StudentRoutes.LastSegmentOfBaseName | student-pulse-admin/backend/src/routes/studentRoutes.js:15 | a slash-free name is its own last segment |
| StudentRoutes.LastDotAt | student-pulse-admin/backend/src/routes/studentRoutes.js:15 | a dot with no dot after it is the last dot |
| StudentRoutes.ExtnameOfBaseName | student-pulse-admin/backend/src/routes/studentRoutes.js:15 | the extension of a base name runs from its last dot, except for a leading dot or "..", which give none |
| StudentRoutes.ExtnameKeepsCase | student-pulse-admin/backend/src/routes/studentRoutes.js:15 | `extname("photo.JPG")` is ".JPG": case is kept until the filter lower-cases it |
| StudentRoutes.ExtnameTakesLastDot | student-pulse-admin/backend/src/routes/studentRoutes.js:15 | `extname("archive.tar.gz")` is ".gz" |
| StudentRoutes.ExtnameOfDotFile | student-pulse-admin/backend/src/routes/studentRoutes.js:15 | `extname(".png")` is empty, so a hidden file named ".png" fails the filter |
| StudentRoutes.LowerPrefix | student-pulse-admin/backend/src/routes/studentRoutes.js:15 | lower-casing commutes with taking a prefix |
| StudentRoutes.LowerSuffix | student-pulse-admin/backend/src/routes/studentRoutes.js:15 | lower-casing commutes with taking a suffix |
| StudentRoutes.LowerAppend | student-pulse-admin/backend/src/routes/studentRoutes.js:15 | lower-casing distributes over concatenation |
| StudentRoutes.TrimCommutesWithLower | student-pulse-admin/backend/src/routes/studentRoutes.js:15 | trimming slashes commutes with lower-casing |
| StudentRoutes.LastSegmentCommutesWithLower | student-pulse-admin/backend/src/routes/studentRoutes.js:15 | taking the last segment commutes with lower-casing |
| StudentRoutes.LastDotIgnoresLower | student-pulse-admin/backend/src/routes/studentRoutes.js:15 | lower-casing does not move the last dot |
| StudentRoutes.DotDotIgnoresLower | student-pulse-admin/backend/src/routes/studentRoutes.js:15 | a segment is ".." exactly when its lower-cased form is |
| StudentRoutes.LowerKeepsNoSlash | student-pulse-admin/backend/src/routes/studentRoutes.js:15 | lower-casing introduces no slash |
| StudentRoutes.SegmentExtensionAt | student-pulse-admin/backend/src/routes/studentRoutes.js:15 | a segment's extension runs from its last dot, with the same exceptions |
| StudentRoutes.SegmentExtensionCommutesWithLower | student-pulse-admin/backend/src/routes/studentRoutes.js:15 | a segment's extension commutes with lower-casing |
| StudentRoutes.ExtnameCommutesWithLower | student-pulse-admin/backend/src/routes/studentRoutes.js:15 | lower-casing the extension equals taking the extension of the lower-cased name |
| StudentRoutes.MatchesAllowedTypes | student-pulse-admin/backend/src/routes/studentRoutes.js:14-16 | the test of the pattern `allowedTypes`: one of the words jpeg, jpg, png, gif or webp occurs somewhere in the text, unanchored |
| StudentRoutes.FileFilter | student-pulse-admin/backend/src/routes/studentRoutes.js:13-23 | a file passes when its lower-cased extension and its mimetype, as sent, both match the pattern |
| StudentRoutes.ExtensionCaseIgnored | student-pulse-admin/backend/src/routes/studentRoutes.js:13-19 | two files whose names differ only in letter case are accepted or rejected together |
| StudentRoutes.CheckUpload | student-pulse-admin/backend/src/routes/studentRoutes.js:10-23 | a file is stored exactly when it passes the filter and is at most 5·1024·1024 bytes; a filtered file gets "Only image files are allowed!" |
| StudentRoutes.SizeLimitBoundary | student-pulse-admin/backend/src/routes/studentRoutes.js:12 | a file of exactly 5 MiB is stored and one byte more is rejected as too large |
| StudentRoutes.NoLowerCaseMatch | student-pulse-admin/backend/src/routes/studentRoutes.js:14-16 | a string with no lower-case letter contains no word starting with one |
| StudentRoutes.AllowedTypesStartLowerCase | student-pulse-admin/backend/src/routes/studentRoutes.js:14 | every alternative of the pattern starts with a lower-case letter |
| StudentRoutes.NoLowerCaseNoMatch | student-pulse-admin/backend/src/routes/studentRoutes.js:14-16 | a string with no lower-case letter never matches the pattern |
| StudentRoutes.UpperCaseMimetypeFails | student-pulse-admin/backend/src/routes/studentRoutes.js:16-18 | the mimetype is not lower-cased, so an all-capitals mimetype such as "IMAGE/PNG" is rejected |
| StudentRoutes.IncludesAt | student-pulse-admin/backend/src/routes/studentRoutes.js:14-16 | an occurrence at an index makes `includes` true |
| StudentRoutes.LowerOfLowerCase | student-pulse-admin/backend/src/routes/studentRoutes.js:15 | a string without capitals is its own lower-case form |
| StudentRoutes.ExtnameOfPngx | student-pulse-admin/backend/src/routes/studentRoutes.js:15 | `extname("x.pngx")` is ".pngx" |
| StudentRoutes.PngxExtensionMatches | student-pulse-admin/backend/src/routes/studentRoutes.js:14-15 | the unanchored pattern accepts the extension ".pngx" |
| StudentRoutes.GiftedMimetypeMatches | student-pulse-admin/backend/src/routes/studentRoutes.js:14-16 | the unanchored pattern accepts the mimetype "text/gifted" |
| StudentRoutes.UnanchoredMatchPasses | student-pulse-admin/backend/src/routes/studentRoutes.js:14-19 | a ".pngx" file sent as "text/gifted" passes the image filter |
| StudentRoutes.FitsExactly | student-pulse-admin/backend/src/routes/studentRoutes.js:26-30 | a path fits a pattern segment by segment: a literal up to letter case, `:id` any non-empty segment |
| StudentRoutes.Fits | student-pulse-admin/backend/src/routes/studentRoutes.js:26-30 | the router is not strict: one trailing slash after a non-empty pattern fits as well |
| StudentRoutes.FirstMatch | student-pulse-admin/backend/src/routes/studentRoutes.js:26-30 | no route is dispatched exactly when no registered route fits the verb and the path |
| StudentRoutes.SkipRoute | student-pulse-admin/backend/src/routes/studentRoutes.js:26-30 | routing passes over a route whose verb or pattern does not fit |
| StudentRoutes.TakeRoute | student-pulse-admin/backend/src/routes/studentRoutes.js:26-30 | routing stops at the first route, in registration order, whose verb and pattern fit |
| StudentRoutes.Resolve | student-pulse-admin/backend/src/routes/studentRoutes.js:26-30 | a request is dispatched by the first fitting route of the table (its cases: the Dispatch lemmas and StudentRoutes.OnlyListAnswersGet) |
| StudentRoutes.RouteTable | student-pulse-admin/backend/src/routes/studentRoutes.js:26-30 | five routes, one per handler, and only creation runs the upload middleware |
| StudentRoutes.RouteLiteralsAreLowerCase | student-pulse-admin/backend/src/routes/studentRoutes.js:28-29 | the literal segments "payment" and "card-status" have no capitals, so matching the lowered segment is comparison ignoring case |
| StudentRoutes.DispatchCollection | student-pulse-admin/backend/src/routes/studentRoutes.js:26-27 | GET on the collection lists; POST creates through the upload middleware |
| StudentRoutes.DispatchPayment | student-pulse-admin/backend/src/routes/studentRoutes.js:28 | PATCH `/:id/payment` reaches the payment handler with that id |
| StudentRoutes.DispatchCardStatus | student-pulse-admin/backend/src/routes/studentRoutes.js:29 | PATCH `/:id/card-status` reaches the card-status handler with that id |
| StudentRoutes.IdThenLiteralFits | student-pulse-admin/backend/src/routes/studentRoutes.js:28-29 | a two-segment path fits `:id/<literal>` when the id is non-empty and the second segment lowers to the literal |
| StudentRoutes.CardStatusRouteIgnoresCase | student-pulse-admin/backend/src/routes/studentRoutes.js:29 | PATCH `/:id/<seg>` with `seg` equal to "card-status" up to case reaches the card-status handler, never the payment route |
| StudentRoutes.PaymentRouteIgnoresCase | student-pulse-admin/backend/src/routes/studentRoutes.js:28 | PATCH `/5/PAYMENT`, or any other spelling of "payment" up to case, reaches the payment handler |
| StudentRoutes.PaymentRouteAcceptsTrailingSlash | student-pulse-admin/backend/src/routes/studentRoutes.js:28 | PATCH `/5/payment/`, with one trailing slash, reaches the payment handler too |
| StudentRoutes.DispatchDelete | student-pulse-admin/backend/src/routes/studentRoutes.js:30 | DELETE `/:id` reaches the delete handler with that id |
| StudentRoutes.OnlyListAnswersGet | student-pulse-admin/backend/src/routes/studentRoutes.js:26-30 | no GET below the collection is routed, so get-by-id is unreachable |
| ProtectedRoute.Gate | student-pulse-admin/src/components/auth/ProtectedRoute.tsx:10-40 | spinner while loading; otherwise a replacing redirect to /login without an institution, "Access Restricted" when unpaid, and the children exactly when signed in and paid |
| ProtectedRoute.LoadingIgnoresInstitution | student-pulse-admin/src/components/auth/ProtectedRoute.tsx:13-19 | while loading, the institution does not matter |
| ProtectedRoute.LoginOpensLogoutCloses | student-pulse-admin/src/components/auth/ProtectedRoute.tsx:21-39 | the mock login institution sees the children; nobody signed in is redirected |
| ProtectedRoute.GateAcrossSession | student-pulse-admin/src/components/auth/ProtectedRoute.tsx:10-40 | after a login the gate opens, and after a logout it redirects to /login |
| AuthContext.MockInstitution | student-pulse-admin/src/contexts/AuthContext.tsx:48-54 | the login institution has id 1, the typed e-mail, paid status and plan "pro" |
| AuthContext.UseAuth | student-pulse-admin/src/contexts/AuthContext.tsx:21-27 | returns the context inside a provider and fails with the provider message outside one |
| AuthContext.AuthProvider.constructor | student-pulse-admin/src/contexts/AuthContext.tsx:30-31 | nobody signed in, loading, storage as the browser kept it |
| AuthContext.AuthProvider.Mount | student-pulse-admin/src/contexts/AuthContext.tsx:33-40 | a stored institution is restored and loading ends; an absent or empty entry just ends loading; text `JSON.parse` rejects throws before loading ends |
| AuthContext.AuthProvider.Login | student-pulse-admin/src/contexts/AuthContext.tsx:42-65 | the password is ignored and the mock institution signed in; true with storage equal to memory, or false with storage unchanged when writing throws; loading ends on both paths |
| AuthContext.AuthProvider.Logout | student-pulse-admin/src/contexts/AuthContext.tsx:67-70 | nobody signed in and the storage key removed |
| AuthContext.SessionSurvivesReload | student-pulse-admin/src/contexts/AuthContext.tsx:33-65 | a fresh provider over the storage a login left restores that institution |
| AuthContext.LogoutSurvivesReload | student-pulse-admin/src/contexts/AuthContext.tsx:33-70 | after a logout, a fresh provider restores nobody |

## Left out

- Supabase itself is not part of this model: the REST calls in `backend/src/utils/db.js`, the storage client and the `fetch` wrappers in `src/api/students.ts` are network I/O. Every database or storage answer is a parameter (`DbReply`, `StorageReply`).
- The layout of Supabase public URLs (project URL, `/storage/v1/object/public/`, bucket, path) comes from the client library, not from the repository. `Storage.PublicUrl` assumes it.
- `Storage.PublicUrl`: the client library passes the URL through `encodeURI`, which is not modelled. The model's URL is the real one only when every character is one `encodeURI` keeps (`Storage.UriUnescaped`).
- `Storage.DeleteFindsUploadedPath` is stated for such names only. A name like `my photo.png` comes back as `my%20photo.png`, and the removal then misses the object.
- Timers are not modelled: the 500 ms delay of `handleRFIDLog`, the one-second login delay and the three-second monitor interval. `Monitor.Tick` is one interval firing.
- `Math.random()` and `Date.now()` become parameters, so nothing is said about their distribution.
- `AuthContext.AuthProvider.Login`: the moment during the login delay when `isLoading` is true is not observable in the model. Only the state before and after the call is stated.
- Unicode case mapping: `Js.Lower` lower-cases ASCII `A`–`Z` only, so non-ASCII search terms and file names are outside the model.
- Floating-point percentages and locale date and time formatting (`toLocaleTimeString`, `toLocaleDateString`, `toISOString`) are left out. The ISO timestamp is an opaque string.
- React Query caching, invalidation and refetch scheduling are left out. `StudentsView.Refetch` simply replaces the list.
- Toasts, the `FileReader` image preview, the add-student and details dialogs, and the `showAddForm` flag are presentation only and left out.
- `StudentController.CreateStudent`: the request body is a map of JSON-like values. A body that is not an object, and NaN numbers, are not modelled.
- multer's own errors other than the file filter and the size limit are left out, for example an unexpected field name.
- `StudentRoutes.Extname` models `path.extname` on a base name and on POSIX separators only.
- Express percent-decoding of route parameters is left out; ids are the raw segments.
- Express serves a HEAD request through the GET routes; the model's verbs are GET, POST, PATCH and DELETE only. Beyond letter case and one trailing slash, path-to-regexp details (repeated slashes, query strings, percent-encoded slashes) are not modelled: a path is given already split into segments.
- The browser's own `type="email"` constraint is not modelled. `AddStudentForm.StepOneValid` holds the react-hook-form rules that `trigger` checks: the three `required` rules and the e-mail pattern.
- `AuthContext.AuthProvider.Mount`: a stored entry is modelled as an institution, the empty string, or text that `JSON.parse` rejects. Other JSON values are not modelled.
- `AttendancePage.AttendanceView`: fetching the roster and the records for a date, and the save mutation, are I/O. They enter as parameters and as the returned record list.
- Server bootstrap (`backend/index.js`) and the presentation-only pages are left out: Overview, PlanSubscription, InstitutionProfile, DashboardLayout, LoginPage, RFIDSettings and Index.
