/** attendance.js: the sign-in sheet. It keeps the status rows, a map from
    employee id to the times shown, and the password typed for each
    employee; sign-in and sign-out send a request and, on success, update
    that employee's entry. */
module AttendancePage {
  import opened Base
  import opened Models
  import AttendanceLedger
  import AttendanceReports

  /** The times shown for one employee; None is `null`. */
  datatype Entry = Entry(signInTime: Option<Time>, signOutTime: Option<Time>)

  datatype Page = Page(
    employees: seq<AttendanceReports.StatusRow>,
    attendance: map<UserId, Entry>,
    passwords: map<UserId, string>,
    loading: bool)

  const Initial := Page([], map[], map[], true)

  /** Before the first fetch the sheet is loading: it renders only
      "Loading...", so no row and no button is shown, and nothing is typed. */
  lemma InitialSheet(id: UserId)
    ensures Initial.loading && |Initial.employees| == 0 && PasswordOf(Initial, id) == ""
    ensures !Rendered(Initial, id) && !SignInEnabled(Initial, id) && !SignOutEnabled(Initial, id)
  {
  }

  function EntryOf(row: AttendanceReports.StatusRow): Entry {
    Entry(row.signInTime, row.signOutTime)
  }

  /** The `attendanceMap` that the `forEach` over the status rows builds. */
  function AttendanceMapOf(rows: seq<AttendanceReports.StatusRow>): map<UserId, Entry>
    decreases |rows|
  {
    if rows == [] then map[]
    else AttendanceMapOf(rows[..|rows| - 1])[rows[|rows| - 1].id := EntryOf(rows[|rows| - 1])]
  }

  /** Every fetched id has an entry and nothing else does. */
  lemma {:induction false} AttendanceMapKeys(rows: seq<AttendanceReports.StatusRow>)
    ensures forall id :: id in AttendanceMapOf(rows) <==> exists i :: 0 <= i < |rows| && rows[i].id == id
    decreases |rows|
  {
    if rows != [] {
      var front := rows[..|rows| - 1];
      AttendanceMapKeys(front);
      assert forall i :: 0 <= i < |front| ==> front[i] == rows[i];
    }
  }

  /** A row no later row shares its id with gives that id's entry. */
  lemma {:induction false} LastRowWins(rows: seq<AttendanceReports.StatusRow>, i: nat)
    requires i < |rows| && forall j :: i < j < |rows| ==> rows[j].id != rows[i].id
    ensures rows[i].id in AttendanceMapOf(rows) && AttendanceMapOf(rows)[rows[i].id] == EntryOf(rows[i])
    decreases |rows|
  {
    var n := |rows|;
    if i < n - 1 {
      var front := rows[..n - 1];
      assert forall j :: 0 <= j < |front| ==> front[j] == rows[j];
      LastRowWins(front, i);
    }
  }

  /** An id listed twice shows its last row. */
  lemma AttendanceMapLastWins(rows: seq<AttendanceReports.StatusRow>)
    ensures forall i :: 0 <= i < |rows| && (forall j :: i < j < |rows| ==> rows[j].id != rows[i].id) ==>
      rows[i].id in AttendanceMapOf(rows) && AttendanceMapOf(rows)[rows[i].id] == EntryOf(rows[i])
  {
    forall i | 0 <= i < |rows| && (forall j :: i < j < |rows| ==> rows[j].id != rows[i].id)
      ensures rows[i].id in AttendanceMapOf(rows) && AttendanceMapOf(rows)[rows[i].id] == EntryOf(rows[i])
    {
      LastRowWins(rows, i);
    }
  }

  /** The `forEach` loop itself. */
  method BuildAttendanceMap(rows: seq<AttendanceReports.StatusRow>) returns (m: map<UserId, Entry>)
    ensures m == AttendanceMapOf(rows)
  {
    m := map[];
    var i := 0;
    while i < |rows|
      invariant 0 <= i <= |rows|
      invariant m == AttendanceMapOf(rows[..i])
    {
      assert rows[..i + 1][..i] == rows[..i];
      m := m[rows[i].id := EntryOf(rows[i])];
      i := i + 1;
    }
    assert rows[..i] == rows;
  }

  /** How `fetchEmployees` ends: a thrown error or a failed status, a body
      that is not an array, or the status rows. */
  datatype StatusFetch = FetchFailed | NotArray | Rows(rows: seq<AttendanceReports.StatusRow>)

  function Fetched(page: Page, outcome: StatusFetch): (r: Page)
    ensures outcome.FetchFailed? ==> r == page.(loading := false)
    ensures outcome.NotArray? ==> r == page
    ensures outcome.Rows? ==>
      r.employees == outcome.rows && r.passwords == page.passwords && !r.loading &&
      (forall id :: id in r.attendance <==> exists i :: 0 <= i < |outcome.rows| && outcome.rows[i].id == id) &&
      (forall i :: 0 <= i < |outcome.rows| && (forall j :: i < j < |outcome.rows| ==> outcome.rows[j].id != outcome.rows[i].id) ==>
        r.attendance[outcome.rows[i].id] == Entry(outcome.rows[i].signInTime, outcome.rows[i].signOutTime))
  {
    match outcome
    case FetchFailed => page.(loading := false)
    case NotArray => page
    case Rows(rows) =>
      AttendanceMapKeys(rows);
      AttendanceMapLastWins(rows);
      page.(employees := rows, attendance := AttendanceMapOf(rows), loading := false)
  }

  /** `passwords[employeeId]`, "" when nothing was typed. */
  function PasswordOf(page: Page, id: UserId): string {
    if id in page.passwords then page.passwords[id] else ""
  }

  /** What the page learns from a sign-in or sign-out request: nothing (an
      error status, or a thrown error), or the time in
      `data.attendance`. */
  datatype Reply = Failed | Succeeded(time: Option<Time>)

  /** The table is rendered once loading is over, with one row per status
      row; `id` has a row when some status row carries it. */
  predicate Rendered(page: Page, id: UserId) {
    !page.loading && exists i :: 0 <= i < |page.employees| && page.employees[i].id == id
  }

  /** The row's `record`: `attendance[employee.id] || {}`. */
  function RowEntry(page: Page, id: UserId): Entry {
    if id in page.attendance then page.attendance[id] else Entry(None, None)
  }

  /** In a rendered row the sign-in button is shown while `isSignedIn` is
      false, and then it is enabled: exactly when the employee has no entry
      with a sign-in time. */
  function SignInEnabled(page: Page, id: UserId): (b: bool)
    ensures b <==> Rendered(page, id) && !(id in page.attendance && page.attendance[id].signInTime.Some?)
  {
    var isSignedIn := RowEntry(page, id).signInTime.Some?;
    Rendered(page, id) && !isSignedIn
  }

  /** In a rendered row the sign-out button is shown while `isSignedOut` is
      false and is disabled by `!isSignedIn || isSignedOut`: it is enabled
      exactly when the entry has a sign-in time and no sign-out time. */
  function SignOutEnabled(page: Page, id: UserId): (b: bool)
    ensures b <==> (Rendered(page, id) && id in page.attendance &&
                    page.attendance[id].signInTime.Some? && page.attendance[id].signOutTime.None?)
    ensures b ==> !SignInEnabled(page, id)
  {
    var isSignedIn, isSignedOut := RowEntry(page, id).signInTime.Some?, RowEntry(page, id).signOutTime.Some?;
    Rendered(page, id) && !isSignedOut && !(!isSignedIn || isSignedOut)
  }

  /** Once the status rows are in, each employee's buttons follow the times
      of their last row: sign-in is enabled exactly without a sign-in time,
      and sign-out exactly between sign-in and sign-out. */
  lemma FetchedButtons(page: Page, rows: seq<AttendanceReports.StatusRow>, i: nat)
    requires i < |rows| && forall j :: i < j < |rows| ==> rows[j].id != rows[i].id
    ensures var after := Fetched(page, Rows(rows));
      Rendered(after, rows[i].id) &&
      (SignInEnabled(after, rows[i].id) <==> rows[i].signInTime.None?) &&
      (SignOutEnabled(after, rows[i].id) <==> rows[i].signInTime.Some? && rows[i].signOutTime.None?)
  {
    var after := Fetched(page, Rows(rows));
    assert after.employees[i].id == rows[i].id;
  }

  /** Only `id`'s entry and password may change. */
  ghost predicate OthersUnchanged(before: Page, after: Page, id: UserId) {
    after.employees == before.employees && after.loading == before.loading &&
    (forall k :: k != id ==> (k in after.attendance <==> k in before.attendance)) &&
    (forall k :: k != id && k in before.attendance ==> after.attendance[k] == before.attendance[k]) &&
    (forall k :: k != id ==> (k in after.passwords <==> k in before.passwords)) &&
    (forall k :: k != id && k in before.passwords ==> after.passwords[k] == before.passwords[k])
  }

  /** `handleSignIn`: the request it sends (none without a password) and the
      page after the reply; `clientNow` is the browser's clock. */
  function HandleSignIn(page: Page, id: UserId, clientNow: Time, reply: Reply)
    : (r: (Page, Option<AttendanceLedger.SignInRequest>))
    ensures PasswordOf(page, id) == "" ==> r == (page, None)
    ensures PasswordOf(page, id) != "" ==>
      r.1 == Some(AttendanceLedger.SignInRequest("POST", Some(id), PasswordOf(page, id),
                                                 AttendanceLedger.At(DayStart(clientNow))))
    ensures (PasswordOf(page, id) == "" || reply.Failed?) ==> r.0 == page
    ensures (PasswordOf(page, id) != "" && reply.Succeeded?) ==>
      id in r.0.attendance && r.0.attendance[id] == Entry(reply.time, None) &&
      PasswordOf(r.0, id) == "" && OthersUnchanged(page, r.0, id)
    // the returned time re-enables sign-out, even over an entry signed out before
    ensures (PasswordOf(page, id) != "" && reply.Succeeded?) ==> Rendered(r.0, id) == Rendered(page, id)
    ensures (PasswordOf(page, id) != "" && reply.Succeeded? && reply.time.Some?) ==>
      (SignOutEnabled(r.0, id) <==> Rendered(page, id)) && !SignInEnabled(r.0, id)
  {
    var password := PasswordOf(page, id);
    if password == "" then (page, None)
    else
      var req := AttendanceLedger.SignInRequest("POST", Some(id), password, AttendanceLedger.At(DayStart(clientNow)));
      match reply
      case Failed => (page, Some(req))
      case Succeeded(time) =>
        (page.(attendance := page.attendance[id := Entry(time, None)], passwords := page.passwords[id := ""]),
         Some(req))
  }

  /** `handleSignOut`: like sign-in, but the entry keeps the sign-in time it
      had and takes the sign-out time of the reply. */
  function HandleSignOut(page: Page, id: UserId, reply: Reply)
    : (r: (Page, Option<AttendanceLedger.SignOutRequest>))
    ensures PasswordOf(page, id) == "" ==> r == (page, None)
    ensures PasswordOf(page, id) != "" ==>
      r.1 == Some(AttendanceLedger.SignOutRequest("POST", Some(id), PasswordOf(page, id)))
    ensures (PasswordOf(page, id) == "" || reply.Failed?) ==> r.0 == page
    ensures (PasswordOf(page, id) != "" && reply.Succeeded?) ==>
      id in r.0.attendance &&
      r.0.attendance[id].signInTime == (if id in page.attendance then page.attendance[id].signInTime else None) &&
      r.0.attendance[id].signOutTime == reply.time &&
      PasswordOf(r.0, id) == "" && OthersUnchanged(page, r.0, id)
    ensures (PasswordOf(page, id) != "" && reply.Succeeded? && reply.time.Some?) ==> !SignOutEnabled(r.0, id)
  {
    var password := PasswordOf(page, id);
    if password == "" then (page, None)
    else
      var req := AttendanceLedger.SignOutRequest("POST", Some(id), password);
      match reply
      case Failed => (page, Some(req))
      case Succeeded(time) =>
        var signInTime := if id in page.attendance then page.attendance[id].signInTime else None;
        (page.(attendance := page.attendance[id := Entry(signInTime, time)], passwords := page.passwords[id := ""]),
         Some(req))
  }

  /** What the ledger's answer tells the page: the record's sign-in time after
      a sign-in. */
  function SignInReply(resp: Response<Attendance>): (r: Reply)
    ensures r.Succeeded? <==> resp.Ok?
    ensures resp.Ok? ==> r.time == resp.body.signInTime
  {
    if resp.Ok? then Succeeded(resp.body.signInTime) else Failed
  }

  /** The sign-out time of the closed record after a sign-out. */
  function SignOutReply(resp: Response<Attendance>): (r: Reply)
    ensures r.Succeeded? <==> resp.Ok?
    ensures resp.Ok? ==> r.time == resp.body.signOutTime
  {
    if resp.Ok? then Succeeded(resp.body.signOutTime) else Failed
  }

  /** The sheet against the ledger: a sign-in request sent from the sheet and
      accepted by the ledger leaves the sheet with sign-in disabled and
      sign-out enabled, even for an employee whose record of the day is
      already closed. The ledger's invariant gives every stored record a
      sign-in time. */
  lemma SheetSignInEnablesSignOut(page: Page, id: UserId, clientNow: Time,
                                  records: seq<Attendance>, users: seq<User>, check: PasswordCheck, now: Time)
    requires PasswordOf(page, id) != ""
    requires AttendanceLedger.AllSignedIn(records) && Rendered(page, id)
    ensures var req := HandleSignIn(page, id, clientNow, Failed).1.value;
      var resp := AttendanceLedger.SignInSpec(records, users, check, req, now).0;
      var after := HandleSignIn(page, id, clientNow, SignInReply(resp)).0;
      resp.Ok? ==> SignOutEnabled(after, id) && !SignInEnabled(after, id)
  {
    var req := HandleSignIn(page, id, clientNow, Failed).1.value;
    var resp := AttendanceLedger.SignInSpec(records, users, check, req, now).0;
    if resp.Ok? {
      assert resp.body.signInTime.Some?;
    }
  }

  /** A sign-out the ledger accepts closes the sheet's entry. */
  lemma SheetSignOutDisablesSignOut(page: Page, id: UserId,
                                    records: seq<Attendance>, users: seq<User>, check: PasswordCheck, now: Time)
    requires PasswordOf(page, id) != ""
    ensures var req := HandleSignOut(page, id, Failed).1.value;
      var resp := AttendanceLedger.SignOutSpec(records, users, check, req, now).0;
      resp.Ok? ==> !SignOutEnabled(HandleSignOut(page, id, SignOutReply(resp)).0, id)
  {
  }
}
