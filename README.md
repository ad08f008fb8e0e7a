# Time clock: a Dafny model of its punch and request logic

The time clock records when employees clock in, go to lunch, return from
lunch and clock out, and it reports the hours they worked. It comes in two
forms:

- a browser client that keeps employees and punches in `localStorage`
  (`public/script.js`);
- an Express/Mongo server with its own browser client (`public/app.js`),
  controllers for login, company settings, punches, employees and weekly
  reports, and session middleware that guards the routes.

This project models the decision logic of both forms and proves what it
promises. The logic covered is:

- the punch gate and the four punch buttons;
- the three versions of the day-hours rule;
- grouping of punches into per-employee, per-day reports;
- the employee and punch stores;
- the controllers' validation orders and the filters they build;
- the guard chain.

## Layout

| file | module | what it holds |
|---|---|---|
| `common.dfy` | `Common` | `Option`, JavaScript truthiness, `trim`, ASCII lower-casing, first-match `find`/`findIndex`, `filter` |
| `sorting.dfy` | `Sorting` | the string order standing in for `localeCompare`, a stable insertion sort standing in for `Array.prototype.sort` and Mongo `sort` |
| `punches.dfy` | `Punches` | the four punch types and their stored names; a day entry |
| `gate.dfy` | `PunchGate` | the gate of `handleEmployeePunch`; the button flags of both clients; the wiring of buttons to punch types |
| `hours.dfy` | `DayHours` | the last-seen scan over a sorted day; the three hours rules and how they relate |
| `grouping.dfy` | `Grouping` | grouping by employee and day (JavaScript object insertion order kept as a key sequence beside a map), day totals, report rows |
| `history.dfy` | `History` | the "my records" views of both clients |
| `text.dfy` | `TextFormat` | phone formatting, punch-type labels, first names, `YYYY-MM-DD` keys, the week range |
| `local_store.dfy` | `LocalStore` | the `localStorage` client as a class `Storage` whose fields are the stored arrays |
| `server_data.dfy` | `ServerData` | the Mongo collections as a class `Db` with the unique indexes as its invariant; shared query helpers |
| `middleware.dfy` | `Guards` | `requireAuth`, `requireCompany`, `requireManager` and the chains the routes mount |
| `auth_controller.dfy` | `AuthController` | `login` |
| `settings_controller.dfy` | `SettingsController` | reading and updating the company name |
| `punch_controller.dfy` | `PunchController` | creating, listing and deleting punches |
| `employee_controller.dfy` | `EmployeeController` | listing, creating, editing, password setting and deactivation of employees |
| `reports_controller.dfy` | `ReportsController` | the weekly report |

### Conventions

- Times are integer milliseconds.
- Hours are kept in milliseconds. The division into hours and the
  two-decimal rounding are not part of the model.
- The conversion of a time to a local (or, in `public/app.js`, UTC) day key
  is a function parameter (`keyOf`, `utcKey`, `dayOf`).
- Parsing a `YYYY-MM-DD` string into a time is also a parameter (`parse`).
- Fresh ids, the current time and temporary passwords are method
  parameters. Fresh ids come with a freshness precondition.
- A bcrypt hash is the datatype `Hash(secret)`, so comparing a password
  with a hash is equality.
- A Mongo `findOne`/`updateOne`/`deleteOne` acts on the first matching
  document of a sequence.

### How the three hours rules differ

- **`public/script.js` (localStorage rule).** It holds raw millisecond
  numbers, so a time of 0 counts as missing. It needs clock-out after
  clock-in, and it subtracts lunch only when the lunch pair is in order.
- **`public/app.js` (history view).** It holds `Date` objects and drops the
  clock guard. Because of the clamp at zero, it agrees with the localStorage
  rule whenever no punch is at the epoch itself
  (`DayHours.AppAgreesWithScript`).
- **The server report.** It also drops the lunch-order guard. An inverted
  lunch pair then adds time, and a day whose clock-out precedes its clock-in
  can still count hours (`DayHours.ServerInvertedLunchAddsTime`,
  `DayHours.ServerInvertedClockCanCount`).

The model keeps each rule as written. It proves where they agree and shows
inputs where they part.

## Model

| member | source | states |
|---|---|---|
| Common.Trim | controllers/employeeController.js:105-108 | `String.prototype.trim`: the result is the input without leading and trailing white space; it is empty exactly when the input is all white space, and otherwise starts and ends with a non-space |
| Common.TrimIdempotent | controllers/employeeController.js:105-108 | trimming twice is trimming once |
| Common.Lower | controllers/employeeController.js:8 | `toLowerCase` on ASCII: same length, each letter A-Z mapped to a-z, everything else kept |
| Common.LowerIdempotent | controllers/employeeController.js:8 | lower-casing twice is lower-casing once |
| Common.Filter | public/script.js:741-746 | `Array.prototype.filter`: no longer than the input; holds exactly the elements that pass |
| Common.FilterConcat | public/script.js:741-746 | filtering distributes over concatenation, so order is kept |
| Common.FilterAllPass | public/script.js:741-746 | a filter that every element passes returns the input unchanged |
| Common.IndexWhere | public/script.js:470 | `findIndex`: a found index is the first element that passes; none exactly when no element passes |
| Common.Find | public/script.js:684 | `find`: a found element is in the input and passes; none exactly when no element passes |
| Sorting.StrLtTransitive | public/script.js:766 | the string order used for names and day keys is transitive |
| Sorting.StrLtTrichotomy | public/script.js:766 | any two strings are equal or ordered one way or the other |
| Sorting.StrLeTotalPreorder | public/script.js:766 | the non-strict string order is a total preorder, so it can drive a sort |
| Sorting.InsertSorted | public/script.js:602 | inserting into a sorted sequence adds exactly that element and keeps it sorted |
| Sorting.SortBy | public/script.js:602 | `Array.prototype.sort` with a total-preorder comparator: a sorted permutation of the input |
| Sorting.SortByMembers | public/script.js:602 | sorting neither adds nor drops elements |
| Sorting.InsertSortedStable | public/script.js:602 | inserting into a sorted sequence puts the new element after every element tied with it |
| Sorting.SortByStable | public/script.js:602 | the sort is stable, as `Array.prototype.sort` is: the elements of each tie class come out in their input order |
| Sorting.SortStrings | public/script.js:616 | sorting day keys gives a sorted permutation with the same members |
| Punches.TypeName | models/Punch.js:12-17 | each punch type's stored name is one of the schema's enum values |
| Punches.TypeNameBijective | models/Punch.js:12-17 | distinct punch types have distinct names, and every enum value is some type's name, so the types and the enum correspond one to one |
| Punches.ParseTypeName | controllers/punchController.js:19-22 | parsing a type's own stored name gives that type back |
| Punches.ParsePunchType | controllers/punchController.js:19-22 | a request's `punch_type` is accepted exactly when it is one of the four stored names, and then names that type |
| PunchGate.Gate | public/script.js:557-573 | a type already recorded today is refused first; anything but a clock-in needs a clock-in today; a return from lunch needs a lunch departure today; otherwise the punch is allowed (both directions) |
| PunchGate.ButtonsAgreeWithGate | public/script.js:527-532 | when a lunch departure today implies a clock-in today, a button is enabled exactly when the gate allows its punch |
| PunchGate.ButtonsDisagreeWithoutInvariant | public/script.js:531-532 | without that invariant they part: after a lone lunch departure, "Return from Lunch" is enabled but the gate refuses it |
| PunchGate.AcceptedRunInvariant | public/script.js:557-581 | any run of gate-accepted punches from an empty day keeps the day consistent: each type at most once, nothing before a clock-in, and a lunch return only when a lunch departure is recorded |
| PunchGate.ManualPunchesBreakInvariant | public/script.js:689-695 | manual punches bypass the gate, so two clock-ins or a lunch departure first are possible and are not accepted runs |
| PunchGate.ButtonAction | public/app.js:129-132 | the element `lunch-in-btn` sends `lunch_out` and `lunch-out-btn` sends `lunch_in` |
| PunchGate.ButtonActionIsBijective | public/script.js:942-945 | every punch type has exactly one button, the same wiring in both clients |
| PunchGate.TodayKinds | public/app.js:386-398 | a type is among today's kinds exactly when some record of today's key has it |
| PunchGate.AppButtonsAgree | public/app.js:393-411 | the no-records branch equals the main branch on an empty day, and each element's flag equals the localStorage client's flag for the punch it sends |
| PunchGate.AppButtonsAgreeWithGate | public/app.js:401-404 | under the day invariant an element of the server client is enabled exactly when the gate allows the punch it sends |
| DayHours.ScanMarks | public/script.js:628-633 | the loop that overwrites one variable per punch type ends with the last-seen time of each type |
| DayHours.LastOfSorted | public/script.js:620-633 | after an ascending sort by time the last-seen time of a type is the latest time of that type |
| DayHours.MarksOrderIndependent | public/script.js:620 | the last-seen marks of a sorted day depend only on the multiset of its entries |
| DayHours.ScriptMillis | public/script.js:636-642 | the localStorage rule never yields a negative time |
| DayHours.ScriptMillisCases | public/script.js:636-642 | zero without an ordered clock pair; the clock span without an ordered lunch pair; span minus lunch on a well-ordered day; never more than the clock span |
| DayHours.AppMillis | public/app.js:457-466 | the history-view rule never yields a negative time |
| DayHours.ServerMillis | controllers/reportsController.js:101-109 | the server rule never yields a negative time |
| DayHours.AppAgreesWithScript | public/app.js:457-466 | with no time at exactly 0 the history-view rule equals the localStorage rule, though it lacks the clock guard |
| DayHours.AppDiffersFromScriptAtZero | public/script.js:636 | a clock-in at the epoch counts as missing in the localStorage rule but not in the history view |
| DayHours.ServerAgreesOnOrderedDays | controllers/reportsController.js:102-108 | on a day with clock-out after clock-in and an ordered lunch pair the server rule equals the history-view rule |
| DayHours.ServerInvertedLunchAddsTime | controllers/reportsController.js:104-107 | an inverted lunch pair adds half an hour on the server and nothing in the clients |
| DayHours.ServerInvertedClockCanCount | controllers/reportsController.js:102-108 | a day whose clock-out precedes its clock-in yields two hours on the server and none in the clients |
| DayHours.DayMillis | controllers/reportsController.js:93-109 | sorting, scanning and applying a rule computes the day's time under that rule, never negative |
| DayHours.DayAppAgreesWithScript | public/app.js:438-466 | for a whole day with no punch at the epoch the history view and the localStorage client agree |
| DayHours.DayMillisOrderIndependent | public/script.js:620 | a day's time depends only on which punches it holds, not on the order they were stored in |
| DayHours.LatestOfDay | public/script.js:620-633 | a type's mark is missing exactly when the day has no punch of it, and otherwise is the latest time of that type |
| DayHours.DuplicateClockInUsesLatest | public/script.js:628-642 | of two clock-ins on one day the later one counts, in whatever order they are stored |
| Grouping.Dedup | controllers/reportsController.js:64-72 | the distinct keys, each once, holding exactly the keys of the input |
| Grouping.DedupFirstAppearance | controllers/reportsController.js:64-72 | distinct keys come in the order of their first appearance |
| Grouping.DedupOfSortedAscends | controllers/reportsController.js:46 | on input sorted by key the distinct keys strictly ascend |
| Grouping.DaysOfMembers | public/script.js:757-760 | an employee's day keys are exactly the days of that employee's punches |
| Grouping.BucketMembers | public/script.js:757-760 | a day bucket holds exactly the entries of that employee's punches of that day |
| Grouping.NoPunchesNoDays | public/script.js:757-760 | an employee absent from the punches has no days and empty buckets |
| Grouping.GroupPunches | controllers/reportsController.js:57-83 | the grouping loop (entries created on first sight, punches pushed into day buckets) computes the grouping function |
| Grouping.GroupAllEmployees | controllers/reportsController.js:64-72 | one entry per employee with punches, in first-appearance order, headed by that employee's first punch |
| Grouping.GroupAllBuckets | controllers/reportsController.js:74-82 | each bucket holds exactly that employee's punches of that day, in input order |
| Grouping.GroupAllFilesEveryPunch | public/script.js:755-760 | every punch is filed under its own employee and day |
| Grouping.GroupAllOrderAscends | controllers/reportsController.js:46 | punches fetched sorted by employee give entries in strictly ascending employee order |
| Grouping.ReportDays | controllers/reportsController.js:86-113 | the loop over an employee's days computes each day's report and a total equal to the sum of the days, never negative |
| Grouping.Arrange | public/script.js:766-768 | arranging day keys ascending or most recent first keeps exactly the same days |
| Grouping.BuildRows | public/script.js:764-806 | the loop building one row per employee computes the rows function: each row has that employee's days in the requested order |
| Grouping.ReportRowsEmployees | public/script.js:755-765 | a report has one row per employee with punches, in first-appearance order |
| Grouping.ReportRowDates | public/script.js:766-768 | a row lists each day its employee punched on exactly once, arranged ascending or most recent first as requested |
| Grouping.ReportRowDay | public/script.js:769-790 | each listed day holds that day's punches in time order and its time under the rule |
| Grouping.ReportRowEntries | public/script.js:757-760 | an entry appears on a row's day exactly when a punch of that employee and day has it |
| Grouping.ReportRowTotal | public/script.js:791 | no day's time is negative and a row's total is the sum of its days |
| Grouping.DatesDistinct | public/script.js:766-768 | a report never lists a date twice for one employee |
| History.HistoryDays | public/script.js:608-620 | the history loop computes the history function: first 100 records, grouped by day, most recent day first |
| History.HistoryDates | public/script.js:609-616 | the listed days are exactly the days of the first 100 records, strictly most recent first |
| History.HistoryEmpty | public/script.js:603-606 | the history is empty exactly when there are no records |
| History.HistoryDay | public/script.js:620-642 | each listed day holds that day's records in time order and its time under the rule |
| History.DisplayEmployeeRecords | public/app.js:414-466 | the server client's history is the shared history of its records keyed by UTC day, empty exactly when there are no records |
| History.AppHistoryAgreesWithScript | public/app.js:457-466 | unless a record sits at the epoch, the server client's history shows the same days and times as the localStorage rule would |
| TextFormat.DigitsOf | public/app.js:666 | `replace(/\D/g, '')` keeps only digits and never lengthens |
| TextFormat.DigitsOfIsFilter | public/app.js:666 | the digits kept are exactly the input filtered by `IsDigit`: every digit stays, in order, and every other character goes |
| TextFormat.FormatPhoneNumber | public/app.js:663-676 | empty for a falsy input; otherwise the layout of the first ten digits, whose digits are exactly those ten |
| TextFormat.LayoutDigits | public/app.js:670-675 | the layout keeps exactly its digits, with dashes after the third and sixth digits and digits everywhere else |
| TextFormat.FormatPhoneNumberIdempotent | public/app.js:663-676 | formatting a formatted number changes nothing |
| TextFormat.PhoneInputHandlerAgrees | public/app.js:171-180 | the inline input handlers produce what `formatPhoneNumber` produces, for every string |
| TextFormat.Split | public/app.js:1045 | `split('_')` gives at least one part |
| TextFormat.FormatPunchTypeByCharacter | public/app.js:1044-1048 | the label keeps the length, turns each '_' into a space and capitalises exactly the first character of each part |
| TextFormat.SplitCount | public/app.js:1045 | the number of parts is one more than the number of underscores |
| TextFormat.TwoPartLabel | public/script.js:125-130 | a two-part name becomes its two parts capitalised and joined by a space |
| TextFormat.PunchTypeLabel | public/script.js:125-130 | each stored type name becomes its label ("Clock In", "Clock Out", "Lunch Out", "Lunch In") |
| TextFormat.GetFirstName | public/script.js:96-100 | "Employee" for a missing or blank name; otherwise the first word of the trimmed name |
| TextFormat.DateKeyShape | public/script.js:102-108 | for four-digit years the key is ten characters, `YYYY-MM-DD`, with month and day padded to two digits |
| TextFormat.DateKeyOrder | controllers/reportsController.js:10-16 | for four-digit years comparing keys as strings is comparing the dates, and equal keys are equal dates |
| TextFormat.FixedDigitsOrder | public/script.js:105-106 | same-width digit strings compare as the numbers they write |
| TextFormat.WeekRange | public/app.js:21-31 | the range starts on a Monday, contains today and ends six days later |
| TextFormat.WeekRangeStable | public/app.js:22-25 | every day of one week gives the same range |
| LocalStore.WithAdmin | public/script.js:64-79 | the list afterwards has an admin; it is unchanged if it had one; otherwise the default admin is put in front |
| LocalStore.IndexOfId | public/script.js:470 | the first employee with that id, and none exactly when no employee has it |
| LocalStore.FindEmployee | public/script.js:684 | the employee found has the requested id, and none exactly when no employee has it |
| LocalStore.AddKeepsNumbersUnique | public/script.js:397-418 | appending an employee whose number no non-admin has keeps non-admin numbers unique |
| LocalStore.EditKeepsNumbersUnique | public/script.js:461-480 | replacing an employee by one with the same id whose number no other non-admin has keeps numbers unique |
| LocalStore.ToggledTwice | public/script.js:495 | toggling a set flag twice restores the employee |
| LocalStore.ToggleTwice | public/script.js:490-496 | toggling the same id twice restores every employee's activity |
| LocalStore.TodayKindsOf | public/script.js:518-525 | a type is among today's kinds exactly when the user has a punch of it with today's key |
| LocalStore.AcceptedPunchKeepsDay | public/script.js:557-581 | a gate-accepted punch keeps its day consistent |
| LocalStore.TodayKindsAppend | public/script.js:535-547 | recording a punch adds exactly its type to its own user's day |
| LocalStore.RemoveById | public/script.js:866-868 | deleting keeps exactly the punches with other ids |
| LocalStore.RemoveByIdKeepsOrder | public/script.js:866-868 | deleting keeps the remaining punches in their order |
| LocalStore.RemoveByIdIdempotent | public/script.js:866-868 | deleting the same id twice deletes nothing more |
| LocalStore.InReportRange | public/script.js:741-746 | a punch is in a report exactly when start <= its day <= end and it matches the employee filter when one is given |
| LocalStore.Selected | public/script.js:741-746 | the selected punches are exactly those in the report range |
| LocalStore.ByName | public/script.js:764-765 | report cards are a permutation of the rows sorted by employee name, and cards with the same name keep their order |
| LocalStore.NewestFirst | public/script.js:602 | the history sorts a user's punches newest first, as a permutation, and punches with the same time keep their stored order |
| LocalStore.HistoryShowsNewest | public/script.js:602-610 | the 100 punches shown are none older than any left out |
| LocalStore.AddOf | public/script.js:384-418 | missing name or number, then a number a non-admin already has, are refused in that order and change nothing; otherwise exactly the new employee is appended; non-admin numbers stay unique |
| LocalStore.EditOf | public/script.js:446-480 | missing fields, a number taken by another non-admin, then an unknown id are refused in that order and change nothing; otherwise only that employee is replaced by the edited record; numbers stay unique |
| LocalStore.Storage.constructor | public/script.js:48-62 | the store starts with the loaded employees, punches and company name |
| LocalStore.Storage.CompanyName | public/script.js:144-151 | a non-empty stored name reads as itself; a missing or empty one reads as "MVC"; the name is never empty |
| LocalStore.Storage.EnsureDefaults | public/script.js:64-87 | the employees become the list with an admin guaranteed; nothing else changes |
| LocalStore.Storage.AddPunch | public/script.js:535-547 | exactly one record is appended, with the given fields and the current time; nothing else changes |
| LocalStore.Storage.HandleEmployeePunch | public/script.js:549-581 | the gate decides on the user's punch types of the current day; an allowed punch appends one record with the trimmed note, a refused one changes nothing |
| LocalStore.Storage.ManualPunch | public/script.js:675-699 | only the admin may record; an unknown employee is refused; otherwise one record of any type is appended with no gate check |
| LocalStore.Storage.DeletePunch | public/script.js:866-868 | the punches become those with other ids; nothing else changes |
| LocalStore.Storage.AddEmployee | public/script.js:384-418 | saves what `AddOf` decides; punches and name unchanged |
| LocalStore.Storage.EditEmployee | public/script.js:446-480 | saves what `EditOf` decides; punches and name unchanged |
| LocalStore.Storage.ToggleEmployeeActive | public/script.js:490-496 | flips only the first employee with that id, or nothing when none has it |
| LocalStore.Storage.GenerateReport | public/script.js:722-806 | missing dates, then start after end, then no selected punches, in that order; otherwise the per-employee rows, each day ascending with its time under the localStorage rule, stably sorted by name |
| LocalStore.Storage.RenderEmployeeRecords | public/script.js:598-642 | the signed-in user's history: their punches newest first, the first 100 grouped by local day |
| ServerData.AppendKeepsUnique | models/Employee.js:19 | appending an element with a new key keeps a unique index unique |
| ServerData.ReplaceKeepsUnique | models/User.js:21 | replacing an element by one whose key no other element has keeps a unique index unique |
| ServerData.Db.constructor | models/Employee.js:19 | an empty database satisfies the unique indexes |
| ServerData.NormalizeCompanyId | controllers/authController.js:5-8 | null exactly when the trimmed id is empty, otherwise the trimmed id |
| ServerData.NormalizeCompanyIdIdempotent | controllers/companySettingsController.js:3-6 | normalising a normalised id changes nothing |
| ServerData.NotesOrNull | controllers/punchController.js:39 | falsy notes become null, others are kept |
| ServerData.EmployeeRoleSeesOwnPunches | controllers/reportsController.js:35-37 | an employee-role caller's filter, whatever employee id the query names, selects only its own punches of its company |
| Guards.RequireAuth | middleware/auth.js:1-8 | passes exactly when the session has a user, else 401 |
| Guards.RequireCompany | middleware/auth.js:10-38 | passes exactly when the session user has a company id whose record is missing or not suspended; 400 without an id, 403 when suspended |
| Guards.RequireManager | middleware/auth.js:40-45 | passes exactly when the role is "manager", else 403, so "super-admin" is refused |
| Guards.RunChain | routes/punchRoutes.js:5-7 | a chain passes exactly when every guard passes; otherwise the first guard that denies answers |
| Guards.RouteAdmits | routes/employeeRoutes.js:6-13 | public routes admit everyone; the others admit exactly a session of a non-suspended company, and the manager-only ones only a manager |
| Guards.RouteDenialOrder | routes/employeeRoutes.js:9-13 | on every guarded route a request without a session gets 401, one without a company id 400, and one of a suspended company 403, each with the source's message |
| AuthController.SessionOf | controllers/authController.js:53-60 | the session copies the account's id, username, role and company; its employee id is the logged-in employee's, else the account's |
| AuthController.Authenticate | controllers/authController.js:49-51 | logs in exactly when an account exists and the password matches its hash; every failure is the same 401 |
| AuthController.Login | controllers/authController.js:14-67 | 400 for a missing company id, then for a missing password, then for neither employee id nor username (each an iff); otherwise a login or 401, and a login only for an account of the company whose hash matches |
| AuthController.LoginByEmployeeId | controllers/authController.js:33-60 | by employee id, a login happens exactly when the first active employee of the company with that id has an employee account with a matching hash; the session is that account with the employee's id and, when non-empty, its name; otherwise 401 |
| AuthController.LoginByUsername | controllers/authController.js:42-60 | by username, a login happens exactly when the company's manager account of that username has a matching hash; the session is that account with no employee name; otherwise 401 |
| AuthController.LoginEmployeeIdWins | controllers/authController.js:33-42 | with an employee id present the username is ignored |
| AuthController.LoginAsEmployee | controllers/authController.js:33-41 | a login by employee id is an employee-role session of an active employee of the company |
| AuthController.LoginAsManager | controllers/authController.js:42-44 | without an employee id only a manager account of the company can log in |
| AuthController.LoginNeedsPassword | controllers/authController.js:49-51 | a password matching no account of the company never logs in |
| SettingsController.GetCompanySettings | controllers/companySettingsController.js:11-25 | 400 exactly when no company can be determined; otherwise the stored name, never empty |
| SettingsController.SessionCompanyWins | controllers/companySettingsController.js:14 | a caller whose session has a company reads that company's stored name (or the default) whatever the query's company id |
| SettingsController.DefaultName | controllers/companySettingsController.js:18-20 | a company without a record or with an empty name reads as "MVC" |
| SettingsController.UpdateCompanySettings | controllers/companySettingsController.js:28-49 | a missing or blank name is refused and changes nothing; otherwise the trimmed name is upserted for the company |
| SettingsController.UpdateThenGet | controllers/companySettingsController.js:38-44 | after an update, reading the settings gives the trimmed name |
| PunchController.EmployeesPunchThemselves | controllers/punchController.js:24-25 | a non-manager always punches for the employee of its own session; the requested employee id never matters |
| PunchController.CreatePunch | controllers/punchController.js:12-48 | invalid type 400, then missing target 400, then no active employee of the company 404; otherwise exactly one punch is appended with that employee, the current time, null for falsy notes and the caller as creator |
| PunchController.EndDayIncluded | controllers/punchController.js:73-77 | the listing's end bound, set a day less a millisecond after the parsed end date, admits the whole end day and nothing after it |
| PunchController.ListPunches | controllers/punchController.js:52-98 | the listing is the newest 500 punches the filter selects |
| PunchController.ListedSound | controllers/punchController.js:80 | at most 500 punches, newest first, each stored and selected |
| PunchController.ListedComplete | controllers/punchController.js:80 | up to the limit every selected punch is listed, as often as stored |
| PunchController.ListedKeepsNewest | controllers/punchController.js:80 | beyond the limit no listed punch is older than a selected one left out |
| PunchController.DeletePunch | controllers/punchController.js:101-115 | 404 when no punch has that id in the company; otherwise the first such punch is removed and nothing else changes |
| PunchController.RemoveAtMembers | controllers/punchController.js:108 | removing one position keeps every other element |
| PunchController.RemoveAtUnique | controllers/punchController.js:108 | removing a punch keeps ids unique |
| PunchController.DeleteRemovesOnlyThatPunch | controllers/punchController.js:108-109 | with unique ids, deleting removes exactly the punch with that id in that company |
| EmployeeController.NormalizeStatus | controllers/employeeController.js:6-11 | always "active", "inactive" or "all"; a lower-cased listing name is kept, anything else is "active" |
| EmployeeController.NormalizeStatusIgnoresCase | controllers/employeeController.js:8 | letter case does not matter |
| EmployeeController.NormalizeStatusIdempotent | controllers/employeeController.js:6-11 | a normalised status normalises to itself |
| EmployeeController.SortByName | controllers/employeeController.js:73 | `sort({ name: 1 })`: a name-sorted permutation |
| EmployeeController.ListPublicEmployees | controllers/employeeController.js:15-40 | 400 exactly when the company id is blank; otherwise the company's active employees, sorted by name, each with as many copies as stored |
| EmployeeController.ListEmployees | controllers/employeeController.js:43-89 | the listing is what the caller may see |
| EmployeeController.EmployeeSeesOnlyItself | controllers/employeeController.js:51-67 | an employee-role caller sees at most its own active record of the company, and sees it exactly when it has an employee id and that record exists |
| EmployeeController.ManagerListing | controllers/employeeController.js:69-73 | anyone else sees by name the company's employees whose activity matches the status, all for "all", each with as many copies as stored |
| EmployeeController.ActiveFlag | controllers/employeeController.js:148 | undefined leaves the flag alone; true, 1 or '1' give true; anything else gives false |
| EmployeeController.CreateOutcome | controllers/employeeController.js:92-133 | missing fields 400; fields blank after trimming fail the schema as a database error, and only they do; a number taken among the company's employees 400 with nothing stored; a number free among employees but taken as a username 400 with the employee already appended; a failure never adds an account, and adds the employee only when the number was free among employees but taken as a username; success exactly when name and number are non-blank and the number is free as both, adding the trimmed active employee and an employee account named by the number with the hashed temporary password |
| EmployeeController.CreateKeepsUnique | controllers/employeeController.js:103-122 | a creation keeps every unique index unique |
| EmployeeController.CreateEmployee | controllers/employeeController.js:92-133 | stores what the creation decides; the database keeps its unique indexes |
| EmployeeController.Edited | controllers/employeeController.js:155-159 | the edit keeps id and company, trims name and number, stores email and phone trimmed or absent and coerces `active` |
| EmployeeController.UpdateOutcome | controllers/employeeController.js:136-179 | missing fields 400, then unknown employee 404; a blank trimmed name or number exactly gives 500; a number another employee of the company has gives 400 with nothing changed; otherwise the edited record replaces only that employee, and the answer is success exactly unless the number changed, the employee has an account and another account of the company has the new number as username (400, employee kept saved, accounts unchanged); on success the account is renamed exactly when the number changed and there is one |
| EmployeeController.UpdateKeepsUnique | controllers/employeeController.js:150-169 | an edit keeps every unique index unique |
| EmployeeController.UpdateEmployee | controllers/employeeController.js:136-179 | stores what the edit decides; the database keeps its unique indexes |
| EmployeeController.RenameOf | controllers/employeeController.js:164-168 | `User.updateOne`: the employee's account, if any, gets the new username unless another account of the company has it; no account is no error; the unique indexes stay unique |
| EmployeeController.RenameAccount | controllers/employeeController.js:164-168 | applies that rename to the database and keeps its unique indexes |
| EmployeeController.PasswordProblem | controllers/employeeController.js:189-194 | a blank password is reported first, then one shorter than six characters |
| EmployeeController.PasswordSetOf | controllers/employeeController.js:182-215 | password problems 400, then unknown employee 404, then no account 404 (forced whenever the employee exists without an account); on success only that account's password changes |
| EmployeeController.SetEmployeePassword | controllers/employeeController.js:182-215 | stores what the password change decides; unique indexes kept |
| EmployeeController.DeactivateEmployee | controllers/employeeController.js:218-232 | 404 when no employee of the company has that id; otherwise only that employee's flag is cleared |
| EmployeeController.DeactivatedIsInactive | controllers/employeeController.js:225 | after deactivation no active employee of the company has that id |
| ReportsController.HeaderOf | controllers/reportsController.js:58-61 | the name falls back from the employee record to the punch's name to "Employee"; the number comes from the record |
| ReportsController.EmployeeThenTimeTotal | controllers/reportsController.js:46 | ordering by employee id then time is a total preorder |
| ReportsController.Fetched | controllers/reportsController.js:46 | the fetched punches are exactly the selected ones, sorted by employee then time |
| ReportsController.Weekly | controllers/reportsController.js:19-122 | 400 for a missing date, then for start after end; otherwise the rows of the punches in [start, end of end day] under the role filter |
| ReportsController.WeeklyRowsAscend | controllers/reportsController.js:46 | rows come out in strictly ascending employee id order |
| ReportsController.WeeklyRowEmployees | controllers/reportsController.js:57-72 | the rows are exactly the employees with a selected punch |
| ReportsController.WeeklyEmployeeScoped | controllers/reportsController.js:35-37 | an employee-role caller's report holds only its own row |
| ReportsController.WeeklyRowHeader | controllers/reportsController.js:58-72 | a row's name is never empty and is the employee record's name when that is non-empty; its number is present exactly when the record has one; the whole header is the one built from the employee's earliest selected punch, so the name falls back to that punch's snapshot and then to "Employee" |
| ReportsController.WeeklyRowDay | controllers/reportsController.js:74-82 | an entry is on a row's day exactly when a selected punch of that employee and day has it |
| ReportsController.WeeklyRowTotal | controllers/reportsController.js:108-114 | no day's time is negative and a row's total is the sum of its days |

## Left out

- The DOM is not modelled: HTML building, modals, messages, dropdowns and event wiring. The button code is modelled only as four computed flags.
- HTTP is not modelled: `fetch`, Express responses and headers, and the mapping of documents to response field names (`employee_id`, `punch_time`, ...). `server.js`, `seed.js` and the schema files are not part of this model. Their unique indexes are kept as the `Db` invariant, and the punch-type enum as a datatype.
- Floating-point hours are not modelled: the division by 3 600 000, `toFixed(2)` and `parseFloat`. Times stay in integer milliseconds, so per-day rounding before the server's sum is not captured.
- Time zones and locale are parameters. The conversion of a time to a local or UTC day key, parsing of date strings, and "now" are passed in. The UTC "today" of `public/app.js` against the local one of `public/script.js` is therefore not compared.
- `localeCompare` is replaced by order on strings, character by character in Unicode scalar value order (Dafny's `char`), which differs from UTF-16 code-unit order for characters outside the Basic Multilingual Plane. Case folding and non-ASCII letters are not modelled; `toLowerCase` and `toUpperCase` act on ASCII letters only.
- EmployeeController.PasswordProblem: the six-character minimum counts Unicode scalar values, whereas `String(password).length` counts UTF-16 code units; a password with characters outside the Basic Multilingual Plane can be measured shorter here.
- Sorting.SortStrings and Grouping.Arrange: day keys are ordered as strings, where the clients (public/script.js:616, public/script.js:768, public/app.js:434) order them by `new Date(key)`. The two agree for keys with four-digit years (TextFormat.DateKeyOrder); invalid dates, which `new Date` turns into NaN comparisons, are not modelled.
- bcrypt and `crypto` are replaced by a hash datatype compared by equality. Temporary passwords, `Date.now` and random ids are parameters.
- Concurrency is not modelled: the interleaving of the asynchronous gate check and the store append, and races between requests.
- `localStorage` serialisation (`safeJsonParse`, `loadArray`, `saveArray`, `saveString`) is not modelled. The store holds typed sequences and a string, so malformed JSON and non-array values cannot arise.
- JavaScript values of the wrong type in request bodies or forms (numbers or objects where strings are expected) are not modelled. The exception is the `active` field of an employee update, which is a small JSON value datatype.
- `CastError` from a malformed Mongo id and other database exceptions (the 500 answers) are not modelled. A lookup with an unknown id finds nothing, so it gives the 404 path.
- `logout`, `me`, the edit-punch placeholder, `loadPunchesForEdit` and the employee-list views of both clients are not modelled; they are UI or one-line session plumbing.
- `requireCompany` also stores `req.companyId` and `req.company`; controllers receive the company id as a parameter instead. The company's `subscriptionEndDate` is loaded but never consulted, so it is left out.
- Mongo sort ties are not modelled as arbitrary: documents that compare equal are assumed to stay in store order (a stable sort).
- AuthController.Login: writing the session is not modelled as a state change; the function returns the session a successful login stores.
- EmployeeController.ListEmployees and ListPublicEmployees return the employee records; the projection to response fields (`active: 1/0`, `null` for missing email) is left out.
- ReportsController.Weekly: the `employee_number` of a row is the record's number or null; an employee record of another company is not used, as in the source's `companyId` filter.
