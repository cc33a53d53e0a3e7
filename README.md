# TemVics employee catalog: a Dafny model of its core

The application is a Next.js employee, attendance and products catalog. Its
core is modelled in two parts.

The **server handlers** work over in-memory tables:

- attendance sign-in and sign-out, with one record per (employee,
  requested date) and the life cycle NoRecord, SignedIn, SignedOut. The
  requested date is the `date` the client sends, not the day of the
  sign-in instant;
- the two read-side joins, the daily records report and the signed-in
  status report;
- user registration, admin-only deletion and the profile update of the
  session's own user.

Each state-changing handler (sign-in, sign-out, register, delete, update)
is a pure step function that returns the HTTP answer and the new table. A
class stores the table, and its method is proved to act exactly as that
function does. The two reports are read-only functions of the tables. The guard chains keep the source's order of
checks, and each error answer keeps the source's status and text.

The **browser pages** cover:

- the shared employee store (`setUser`, fetch, add, merge-update, delete);
- the employee list's fetch rule and its replace and delete updaters;
- grouping of all attendance records by day;
- the 5 MB file filter and the upload form;
- the products page's image list and local delete;
- the sign-in sheet's per-employee map and its updates after a sign-in or
  sign-out.

Modules follow the source files:

- `base.dfy`: `Base`, with Option, time, responses, filter and find-first.
- `models.dfy`: `Models`, with the stored documents.
- `attendance_ledger.dfy`, `attendance_reports.dfy`, `users.dfy`: the server
  handlers.
- `client_data.dfy`: JSON objects, spread, the `_id` filter and fetch
  outcomes.
- `employee_store.dfy`, `employee_list.dfy`, `all_records.dfy`,
  `product_upload.dfy`, `products_page.dfy`, `attendance_page.dfy`: the
  pages.

Modelling conventions:

- **Time.** A `Date` is a natural number of milliseconds. `DayStart(t)` is
  the midnight before `t`.
- **Missing fields.** A field the source tests for falsiness is `""` when
  it is a missing string, and `None` when it is a missing id or number.
  The profile update's `image`, which is never tested for presence, is
  `None` when absent.
- **Crypto.** bcrypt's compare and hash are function-typed parameters that
  are left uninterpreted.
- **Sessions and clocks.** The next-auth session and the clock are inputs.
- **Outside services.** The image host's answer is an input too
  (`UploadOutcome` for the profile update, an `upload` function on the
  products page).
- **Ids.** MongoDB ids are naturals. `UserTable.nextId` stands for fresh
  `_id`s, and its invariant keeps ids and emails pairwise distinct after
  any sequence of calls.
- **Browser objects.** The pages' JSON objects are maps from field names to
  field texts.

Two behaviours of the handlers are worth stating up front:

- records.js never reads `filterType`, so the model has no filter check
  and no answer for an invalid filter type.
- An already closed record is answered with 400 "Already signed out today";
  there is no separate conflict status.

## Model

| member | source | states |
|---|---|---|
| Models.FindUser | src/pages/api/attendance/signIn.js:27-30 | `findById` finds a user exactly when one with that id is stored, and what it finds is stored with that id |
| AttendanceLedger.SignInSpec | src/pages/api/attendance/signIn.js:6-63 | checks run in order: 405, 400 for missing fields, 500 for a date that cannot be made an ISO string, 404, 401. Every failure leaves the table unchanged, and failure happens exactly when a check stops the request. An existing record for (employee, requested date) is returned with "Already signed in" and nothing is added. Otherwise exactly one record (id, day of the requested date, signed in now, not signed out) is appended |
| AttendanceLedger.SignInPreserves | src/pages/api/attendance/signIn.js:39-51 | any sign-in keeps one record per (employee, requested date), sign-in ≤ sign-out ≤ now and a sign-in time on every record, and the table only evolves forward: records are kept and only gain times |
| AttendanceLedger.EvolvesKeepsSignedIn | src/pages/api/attendance/signIn.js:47-51 | forward evolution never yields a record without a sign-in time, since new records are created signed in and old ones only gain a sign-out time |
| AttendanceLedger.TodaysRecord | src/pages/api/attendance/signOut.js:37-43 | the `findOne` finds nothing exactly when no record of the employee has a sign-in time at or after midnight, and otherwise the first one that does |
| AttendanceLedger.SignOutSpec | src/pages/api/attendance/signOut.js:7-62 | 405 with the method in the text, 400, 404 employee, 401, 404 "No sign-in record found" when no record of the employee has a sign-in time since midnight, 400 "Already signed out today" when the first such record is closed. Success comes exactly when that record is open: only it changes, gaining signOutTime = now, and sign-in ≤ sign-out under a monotone clock |
| AttendanceLedger.SignOutPreserves | src/pages/api/attendance/signOut.js:50-56 | any sign-out keeps one record per (employee, requested date), the time ordering and the sign-in times, and the table only evolves forward |
| AttendanceLedger.SignInIdempotent | src/pages/api/attendance/signIn.js:39-51 | a second identical sign-in after a successful one answers "Already signed in" with the same record and leaves the table unchanged |
| AttendanceLedger.SecondSignOutFails | src/pages/api/attendance/signOut.js:50-56 | after a successful sign-out, another one the same day gets 400 "Already signed out today" and changes nothing |
| AttendanceLedger.EvolvesTransitive | src/pages/api/attendance/signOut.js:50-56 | forward evolution of the table composes over any run of handler calls |
| AttendanceLedger.SignedOutIsFinal | src/pages/api/attendance/signOut.js:50-52 | a signed-out record is never changed again: no way back in the life cycle |
| AttendanceLedger.Ledger.Tick | src/pages/api/attendance/signIn.js:50 | the clock that `new Date()` reads only moves forward, the records stay, and the ledger invariant survives the advance |
| AttendanceLedger.Ledger.SignIn | src/pages/api/attendance/signIn.js:6-63 | the early-return method on the stored table answers and updates exactly as `SignInSpec`, keeping the ledger invariant |
| AttendanceLedger.Ledger.SignOut | src/pages/api/attendance/signOut.js:7-62 | the method that finds and mutates the record answers and updates exactly as `SignOutSpec`, keeping the ledger invariant |
| AttendanceReports.MatchFor | src/pages/api/attendance/records.js:28-30 | `find` gives none exactly when no fetched record carries the id, else the first one that does |
| AttendanceReports.SignedInSinceAll | src/pages/api/attendance/status.js:14-23 | the fetched records are exactly the stored ones signed in at or after midnight |
| AttendanceReports.DatedSince | src/pages/api/attendance/records.js:19-22 | the candidates are exactly the stored records dated at or after midnight |
| AttendanceReports.Records | src/pages/api/attendance/records.js:5-44 | non-GET gets 405, and only then. One row per employee, in order, with the employee's name. Each row shows the first candidate of that employee, with "Not Signed In" / "Not Signed Out" for missing times, or both placeholders without a match |
| AttendanceReports.Status | src/pages/api/attendance/status.js:5-44 | non-GET gets 405, and only then. One row per employee, in order, with id and name copied. `signedIn` is true exactly when some stored record of that employee was signed in since midnight. The times are both null, or both from the first such record |
| AttendanceReports.SignedInIffFetched | src/pages/api/attendance/status.js:21-34 | a fetched record carries the id exactly when a stored record signed in since midnight does |
| AttendanceReports.StatusShowsTodaysRecord | src/pages/api/attendance/status.js:26-36 | the status row shows the same record that sign-out closes, or none when sign-out would find none |
| AttendanceReports.StatusAfterSignOut | src/pages/api/attendance/signOut.js:55-58 | after a successful sign-out the status row is signed in, shows the sign-out time `now` and keeps the original sign-in time |
| AttendanceReports.StatusAfterSignIn | src/pages/api/attendance/signIn.js:47-51 | after a sign-in that created a record, the status row at that instant is signed in |
| Users.EmailTaken | src/pages/api/auth/register.js:24-28 | `findOne({email})` finds someone exactly when some stored user has that email |
| Users.RegisterSpec | src/pages/api/auth/register.js:6-58 | 405, 400 for any missing field, 400 "User already exists". Failure leaves the table unchanged, and success comes exactly when all checks pass. Success answers 201 with name, email, role and department (no password) and appends exactly one user carrying the new id and hash(password). Distinct emails and distinct ids are preserved |
| Users.RemovalKeepsDistinct | src/pages/api/user/delete.js:40-41 | removing one user keeps ids and emails distinct, and removes exactly the users with that id |
| Users.DeleteSpec | src/pages/api/user/delete.js:5-46 | 405, 401 without a session, 400 without userId, 500 when the session has no user, 403 unless the requester's stored role is "admin", 404 for an unknown target. Failures change nothing, and success comes exactly when all checks pass. On success exactly the target is removed, the others stay in order, and distinctness is preserved |
| Users.StoredImage | src/pages/api/user/update.js:33-46 | a "data:image" value is replaced by the uploaded URL (a failed upload gives none); any other value is kept as given; an absent image gives `undefined`, which sets nothing |
| Users.UpdateSpec | src/pages/api/user/update.js:14-74 | 405, 401, 400 when age, education, state or religion is falsy, 500 on a failed upload, 404 without a user with the session email. Failures change nothing, and success comes exactly when all checks pass |
| Users.UpdateRewritesFirstMatch | src/pages/api/user/update.js:48-69 | on success the first user with the session email takes age, education, state and religion, and takes the image when the body has one but keeps its stored image when it does not. That user is returned, and every other user is unchanged; no update changes an account's id, name, email, password, role, department or bank fields |
| Users.UserTable.Register | src/pages/api/auth/register.js:6-58 | the insert method acts as `RegisterSpec` and keeps ids fresh and emails and ids distinct |
| Users.UserTable.Delete | src/pages/api/user/delete.js:5-46 | the delete method acts as `DeleteSpec` and keeps the table invariant |
| Users.UserTable.Update | src/pages/api/user/update.js:14-74 | the update method, with `imageUrl` reassigned after the upload, acts as `UpdateSpec` and keeps the table invariant |
| ClientData.Spread | src/store/employeeStore.js:10-13 | `{...a, ...b}` has the fields of both; b's values win and a's others stay |
| ClientData.SpreadNothing | src/store/employeeStore.js:10-13 | spreading null (no fields) leaves an object unchanged |
| ClientData.RemoveById | src/store/employeeStore.js:74-77 | after the `_id` filter no entry has that id, every other entry is kept, and nothing new appears |
| ClientData.RemoveByIdAppend | src/store/employeeStore.js:74-77 | the filter distributes over concatenation, so the kept entries stay in order |
| ClientData.RemoveAbsentId | src/store/employeeStore.js:74-77 | the filter leaves the list unchanged exactly when no entry has that id |
| EmployeeStore.MergeById | src/store/employeeStore.js:64-71 | length and order are kept; a matching entry becomes old ⊕ new (new fields win) and the others are unchanged; ids are kept |
| EmployeeStore.MergeAbsentId | src/store/employeeStore.js:64-71 | an update whose `_id` nobody has is a no-op |
| EmployeeStore.MergeIdempotent | src/store/employeeStore.js:64-71 | updating twice with the same object is updating once |
| EmployeeStore.StoreDecision | src/store/employeeStore.js:34-52 | a list is accepted exactly when the response is ok and `data.employees` or `data` is an array. Otherwise the error is `errorData.error`, `"HTTP Error: <status>"`, "Unexpected data format" or the thrown message |
| EmployeeStore.Store.constructor | src/store/employeeStore.js:4-7 | no user, no employees, not loading, no error |
| EmployeeStore.Store.SetUser | src/store/employeeStore.js:10-13 | the user becomes old fields overridden by new ones; `setUser(null)` keeps every field; nothing else changes |
| EmployeeStore.Store.FetchEmployees | src/store/employeeStore.js:16-53 | loading is false in every outcome; an accepted list replaces the employees with the error cleared; otherwise the employees stay and the error is recorded |
| EmployeeStore.Store.AddEmployee | src/store/employeeStore.js:58-61 | appends at the end, nothing else changes |
| EmployeeStore.Store.UpdateEmployee | src/store/employeeStore.js:64-71 | the employees become `MergeById` of the old ones, nothing else changes |
| EmployeeStore.Store.DeleteEmployee | src/store/employeeStore.js:74-77 | the employees become the `_id` filter of the old ones, nothing else changes |
| EmployeeList.ReplaceById | src/pages/EmployeeList.js:49-55 | length and order are kept; matching entries are replaced wholesale, and the others are unchanged |
| EmployeeList.ReplaceIdempotent | src/pages/EmployeeList.js:49-55 | replacing twice is replacing once |
| EmployeeList.ReplaceVersusMerge | src/pages/EmployeeList.js:49-55 | the page's replace agrees with the store's merge exactly when the update keeps every field of the entries it matches, so replacing can drop fields that merging keeps |
| EmployeeList.DeleteFromList | src/pages/EmployeeList.js:58-60 | the kept entries are exactly those with another id |
| EmployeeList.ListDecision | src/pages/EmployeeList.js:20-24 | the list is accepted exactly when the response is ok and `data.employees` is an array. Otherwise the error is `data.error` or "Invalid response format"; a bare array is refused |
| EmployeeList.ListStricterThanStore | src/pages/EmployeeList.js:20-24 | whatever the page accepts the store accepts with the same list, while a bare array is accepted by the store only |
| EmployeeList.Fetched | src/pages/EmployeeList.js:12-31 | loading is false afterwards; an accepted list is installed, otherwise the list stays and the error is set |
| AllRecords.DayKey | src/pages/AllRecordsPage.js:31 | a record's key is the midnight of its sign-in day; a null sign-in time gives the epoch's day |
| AllRecords.KeysSpec | src/pages/AllRecordsPage.js:30-35 | the keys are exactly the days some record falls on, each once |
| AllRecords.KeysInFirstSeenOrder | src/pages/AllRecordsPage.js:30-35 | days are listed in the order in which their first records come |
| AllRecords.GroupMembers | src/pages/AllRecordsPage.js:32-33 | a group holds exactly the records of its day |
| AllRecords.GroupAppend | src/pages/AllRecordsPage.js:33 | groups grow by appending, so within a group the input order is kept |
| AllRecords.GroupByDate | src/pages/AllRecordsPage.js:29-36 | the reduce loop returns `Keys`, a group for exactly those keys, and each group as `Group` |
| AllRecords.EachRecordInOneGroup | src/pages/AllRecordsPage.js:29-36 | every record's day is a key, and the record lies in that group and no other |
| AllRecords.GroupSizesSum | src/pages/AllRecordsPage.js:30-35 | the group sizes sum to the number of records |
| AllRecords.RowFor | src/pages/AllRecordsPage.js:64-66 | a missing name shows "Unknown", and a missing time shows "Not Signed In" / "Not Signed Out", and only then |
| ProductUpload.HandleFileChange | src/pages/ProductUpload.js:10-22 | the kept files are exactly the selected ones of at most 5·1024·1024 bytes; the alert is raised exactly when one was dropped; without an alert nothing was dropped |
| ProductUpload.KeptInSelectionOrder | src/pages/ProductUpload.js:15 | the kept files keep their selection order |
| ProductUpload.HandleUpload | src/pages/ProductUpload.js:24-36 | no form and no request without files. Otherwise "name", "price", then one "images" entry per file, in order |
| ProductsPage.RemoveAt | src/pages/Products.js:81 | the index filter removes exactly position i when it is in range and nothing otherwise |
| ProductsPage.RemoveImage | src/pages/Products.js:78-83 | exactly the image at the index goes and the others keep their order; name and price stay |
| ProductsPage.HandleDelete | src/pages/Products.js:25-33 | without confirmation, or when the request throws, nothing changes. Otherwise the list holds exactly the products with another `_id`, whatever the response status |
| ProductsPage.HandleEdit | src/pages/Products.js:35-38 | the form copies name, price and images of the edited product |
| ProductsPage.HandleImageUpload | src/pages/Products.js:57-76 | the files are uploaded in order. When every upload answers, the images become the old images followed by one URL per file, in order, and name and price stay. When one throws, no further file is sent and the form keeps its old images, so the URLs uploaded before are lost |
| ProductsPage.RemoveLastUploaded | src/pages/Products.js:75-83 | removing the image just appended restores the form |
| AttendancePage.InitialSheet | src/pages/attendance.js:5-8 | before the first fetch the sheet is loading with no employees and no passwords, so no row is rendered and neither button is enabled |
| AttendancePage.AttendanceMapKeys | src/pages/attendance.js:31-37 | the map has an entry for exactly the fetched ids |
| AttendancePage.AttendanceMapLastWins | src/pages/attendance.js:31-37 | each entry holds the times of the last row with that id |
| AttendancePage.BuildAttendanceMap | src/pages/attendance.js:31-37 | the `forEach` loop builds `AttendanceMapOf` of the rows |
| AttendancePage.Fetched | src/pages/attendance.js:10-45 | a failed fetch only clears loading, and a non-array body changes nothing (loading stays). Rows install the employees and the map described above, and clear loading |
| AttendancePage.SignInEnabled | src/pages/attendance.js:154-184 | the sign-in button is rendered and enabled exactly when the table is rendered (not loading), the id has a row, and the employee has no entry with a sign-in time |
| AttendancePage.SignOutEnabled | src/pages/attendance.js:154-211 | the sign-out button is rendered and enabled exactly when the table is rendered (not loading), the id has a row, and the entry has a sign-in time and no sign-out time; then sign-in is not |
| AttendancePage.FetchedButtons | src/pages/attendance.js:28-39 | after the status rows arrive, each employee's row is rendered; sign-in is enabled exactly without a sign-in time, and sign-out exactly when signed in and not out, as their last row says |
| AttendancePage.HandleSignIn | src/pages/attendance.js:51-91 | without a password there is no request and no change. Otherwise the request carries id, password and today's day. On success only that employee's entry becomes (reply's sign-in time, null) and the password is cleared; on failure nothing changes; a returned sign-in time disables sign-in and, in a rendered row, enables sign-out |
| AttendancePage.HandleSignOut | src/pages/attendance.js:93-134 | same guard and request. On success the entry keeps its sign-in time and takes the reply's sign-out time, the password is cleared, and sign-out is disabled; on failure nothing changes |
| AttendancePage.SignInReply | src/pages/attendance.js:75-81 | the page learns a time exactly when the ledger answered ok, and it is the record's sign-in time |
| AttendancePage.SignOutReply | src/pages/attendance.js:115-124 | the page learns a time exactly when the ledger answered ok, and it is the record's sign-out time |
| AttendancePage.SheetSignInEnablesSignOut | src/pages/attendance.js:79-82 | under the ledger's invariant, in a rendered row, a sheet sign-in the ledger accepts disables the sign-in button and enables the sign-out button, even when that day's record is already closed ("Already signed in" returns it) |
| AttendancePage.SheetSignOutDisablesSignOut | src/pages/attendance.js:119-125 | a sheet sign-out the ledger accepts disables the sign-out button |

## Left out

- Database plumbing (`dbConnect`, mongoose, `.lean()`, `populate`, sorting by sign-in time): tables are sequences and queries are filters. Errors of the store itself, the 500 answers of the `catch` blocks, are not modelled. The exceptions are the cases the model can name: an unparseable sign-in date, a session without a user on delete, and a failed image upload.
- Module paths: delete.js imports `../../lib/mongodb`, `../../models/User` and `./auth/[...nextauth]`. Relative to src/pages/api/user/ these name files that do not exist (the modules are src/lib/mongodb.js, src/models/User.js and src/pages/api/auth/[...nextauth].js), so as written that route cannot load. The model gives the handler the behaviour its body describes.
- Populate target: the Attendance schema's `employeeId` refers to the model "Employee", but only "User", "Attendance" and "Product" are registered, so the `populate("employeeId", "name")` of all-records.js would fail and the handler would answer 500. The all-records page is modelled on the records it would receive.
- Schema validation: the User schema requires `accountNumber` and `bankCode`, which registration never supplies. The real `save` therefore fails with 500. The model states only the handler's own checks and stores those two fields as "".
- Malformed ids: the `CastError` of `findById` on a malformed id belongs to the database and is not modelled; ids are naturals.
- bcrypt and jwt: `compare` and `hash` are parameters, and the token returned by registration is not modelled.
- Dates before 1970: `Time` is a natural number, so a requested sign-in `date` before the epoch, a negative instant that signIn.js accepts, is not represented.
- Time zones: sign-in keys on the UTC date of `toISOString`, while sign-out, status and records compare with local midnight. Both are `DayStart` here, so the divergence between them is not captured.
- `toLocaleDateString` / `toLocaleString` formatting: a day is its midnight and a shown time is the stored instant.
- Concurrency: two simultaneous sign-ins can both pass the existence check. Calls are sequential in the model.
- The week/month/year filter the records page sends: the handler never reads it.
- Cloudinary, multer, sharp and `formatPrice` (floating point): the image host's answer is an input.
- ProductsPage.HandleImageUpload: `upload` yields a URL or a throw. An answer that parses but has no `secure_url`, where the source pushes `undefined`, is not modelled.
- Users.UpdateSpec / Users.StoredImage: an `image` sent as JSON `null` would be written as null; the model has only absent or a string.
- JSON values on the pages are texts. Nested objects, numbers used as `_id`s and non-array values other than the ones listed are not modelled. A Product's `price` is kept as its text.
- Page wiring with no state logic: alerts, the `setTimeout` refetch, `fetchSession`, the products page's `fetchProducts` and `handleUpdate`, the upload result message, the all-records fetch and the rendering.
- Thin handlers outside the core: src/pages/api/employees/index.js, src/pages/api/products/index.js, all-records.js and getAttendance.js are not part of this model.
- The profile update answers with the whole stored document, including the password hash. `Users.UpdateSpec` returns the stored `User` as it is.
