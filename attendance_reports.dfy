/** The two read-side joins: records.js (one row per employee with the
    "Not Signed In" / "Not Signed Out" placeholders) and status.js (one row
    per employee with a signed-in flag and null times). Both fetch the
    employees and a slice of the attendance table, then map each employee to
    the first fetched record that carries its id. */
module AttendanceReports {
  import opened Base
  import opened Models
  import opened AttendanceLedger

  const NotSignedIn := "Not Signed In"
  const NotSignedOut := "Not Signed Out"

  /** A displayed time: the stored value, or the placeholder that
      `value || "..."` substitutes for a missing one. */
  datatype Cell = Shown(time: Time) | Placeholder(text: string)

  function CellOf(t: Option<Time>, placeholder: string): Cell {
    if t.Some? then Shown(t.value) else Placeholder(placeholder)
  }

  /** `fetched[j]` is the first fetched record carrying `id`. */
  ghost predicate FirstMatchAt(fetched: seq<Attendance>, id: UserId, j: int) {
    0 <= j < |fetched| && fetched[j].employeeId == id &&
    forall k :: 0 <= k < j ==> fetched[k].employeeId != id
  }

  /** `attendanceRecords.find(rec => rec.employeeId === employee._id)`. */
  function MatchFor(fetched: seq<Attendance>, id: UserId): (r: Option<Attendance>)
    ensures r.None? <==> forall j :: 0 <= j < |fetched| ==> fetched[j].employeeId != id
    ensures r.Some? ==> exists j :: FirstMatchAt(fetched, id, j) && r.value == fetched[j]
  {
    match FirstIndex(fetched, (a: Attendance) => a.employeeId == id)
    case None => None
    case Some(j) => assert FirstMatchAt(fetched, id, j); Some(fetched[j])
  }

  // ---------------------------------------------------------------- records.js

  datatype RecordRow = RecordRow(name: string, signInTime: Cell, signOutTime: Cell)

  /** `Attendance.find({ date: { $gte: today } })`. */
  function DatedSince(records: seq<Attendance>, start: Time): (r: seq<Attendance>)
    ensures forall a :: a in r <==> a in records && a.date >= start
  {
    Filter(records, (a: Attendance) => a.date >= start)
  }

  function RecordRowFor(employee: User, fetched: seq<Attendance>): RecordRow {
    match MatchFor(fetched, employee.id)
    case None => RecordRow(employee.name, Placeholder(NotSignedIn), Placeholder(NotSignedOut))
    case Some(rec) => RecordRow(employee.name, CellOf(rec.signInTime, NotSignedIn), CellOf(rec.signOutTime, NotSignedOut))
  }

  /** records.js `handler`, with `now` the instant of the request. */
  function Records(verb: string, employees: seq<User>, records: seq<Attendance>, now: Time): (r: Response<seq<RecordRow>>)
    ensures verb != "GET" <==> r == Fail(405, "Method Not Allowed")
    ensures r.Ok? ==> r.status == 200 && |r.body| == |employees|
    ensures r.Ok? ==> forall i :: 0 <= i < |employees| ==> r.body[i].name == employees[i].name
    // a row shows the first candidate carrying the employee's id, or the placeholders
    ensures r.Ok? ==> forall i :: 0 <= i < |employees| ==>
      var fetched := DatedSince(records, DayStart(now));
      ((forall j :: 0 <= j < |fetched| ==> fetched[j].employeeId != employees[i].id) &&
       r.body[i].signInTime == Placeholder(NotSignedIn) && r.body[i].signOutTime == Placeholder(NotSignedOut)) ||
      (exists j :: FirstMatchAt(fetched, employees[i].id, j) &&
        r.body[i].signInTime == CellOf(fetched[j].signInTime, NotSignedIn) &&
        r.body[i].signOutTime == CellOf(fetched[j].signOutTime, NotSignedOut))
  {
    if verb != "GET" then Fail(405, "Method Not Allowed")
    else
      var fetched := DatedSince(records, DayStart(now));
      Ok(200, "", seq(|employees|, i requires 0 <= i < |employees| => RecordRowFor(employees[i], fetched)))
  }

  // ----------------------------------------------------------------- status.js

  datatype StatusRow = StatusRow(
    id: UserId, name: string, signedIn: bool, signInTime: Option<Time>, signOutTime: Option<Time>)

  /** `Attendance.find({ signInTime: { $gte: todayStart } })`. */
  function SignedInSinceAll(records: seq<Attendance>, start: Time): (r: seq<Attendance>)
    ensures forall a :: a in r <==> a in records && SignedInSince(a, start)
  {
    Filter(records, (a: Attendance) => SignedInSince(a, start))
  }

  function StatusRowFor(employee: User, fetched: seq<Attendance>): StatusRow {
    match MatchFor(fetched, employee.id)
    case None => StatusRow(employee.id, employee.name, false, None, None)
    case Some(rec) => StatusRow(employee.id, employee.name, true, rec.signInTime, rec.signOutTime)
  }

  /** status.js `handler`, with `now` the instant of the request. */
  function Status(verb: string, employees: seq<User>, records: seq<Attendance>, now: Time): (r: Response<seq<StatusRow>>)
    ensures verb != "GET" <==> r == Fail(405, "Method Not Allowed")
    ensures r.Ok? ==> r.status == 200 && |r.body| == |employees|
    ensures r.Ok? ==> forall i :: 0 <= i < |employees| ==>
      r.body[i].id == employees[i].id && r.body[i].name == employees[i].name
    // signed in exactly when some record of that employee was signed in since midnight
    ensures r.Ok? ==> forall i :: 0 <= i < |employees| ==>
      (r.body[i].signedIn <==>
        exists k :: 0 <= k < |records| && records[k].employeeId == employees[i].id &&
                    SignedInSince(records[k], DayStart(now)))
    ensures r.Ok? ==> forall i :: 0 <= i < |employees| ==>
      var fetched := SignedInSinceAll(records, DayStart(now));
      (!r.body[i].signedIn && r.body[i].signInTime.None? && r.body[i].signOutTime.None?) ||
      (r.body[i].signedIn &&
       exists j :: (FirstMatchAt(fetched, employees[i].id, j) &&
                    r.body[i].signInTime == fetched[j].signInTime && r.body[i].signOutTime == fetched[j].signOutTime))
  {
    if verb != "GET" then Fail(405, "Method Not Allowed")
    else
      var start := DayStart(now);
      var fetched := SignedInSinceAll(records, start);
      var rows := seq(|employees|, i requires 0 <= i < |employees| => StatusRowFor(employees[i], fetched));
      assert forall i :: 0 <= i < |employees| ==>
        (rows[i].signedIn <==>
          exists k :: 0 <= k < |records| && records[k].employeeId == employees[i].id && SignedInSince(records[k], start))
      by {
        forall i | 0 <= i < |employees|
          ensures rows[i].signedIn <==>
            exists k :: 0 <= k < |records| && records[k].employeeId == employees[i].id && SignedInSince(records[k], start)
        {
          SignedInIffFetched(records, start, employees[i].id);
        }
      }
      Ok(200, "", rows)
  }

  /** A fetched record carries `id` exactly when a stored record signed in
      since `start` does. */
  lemma SignedInIffFetched(records: seq<Attendance>, start: Time, id: UserId)
    ensures var fetched := SignedInSinceAll(records, start);
      (exists j :: 0 <= j < |fetched| && fetched[j].employeeId == id) <==>
      (exists k :: 0 <= k < |records| && records[k].employeeId == id && SignedInSince(records[k], start))
  {
    var fetched := SignedInSinceAll(records, start);
    if k :| 0 <= k < |records| && records[k].employeeId == id && SignedInSince(records[k], start) {
      assert records[k] in fetched;
      var j :| 0 <= j < |fetched| && fetched[j] == records[k];
    }
    if j :| 0 <= j < |fetched| && fetched[j].employeeId == id {
      assert fetched[j] in records;
      var k :| 0 <= k < |records| && records[k] == fetched[j];
    }
  }

  /** The status row of an employee shows the record that sign-out closes:
      both pick the first record of that employee signed in since midnight. */
  lemma StatusShowsTodaysRecord(records: seq<Attendance>, employee: User, now: Time)
    ensures var row := StatusRowFor(employee, SignedInSinceAll(records, DayStart(now)));
      match TodaysRecord(records, employee.id, now)
      case None => !row.signedIn
      case Some(k) => row.signedIn && row.signInTime == records[k].signInTime && row.signOutTime == records[k].signOutTime
  {
    var start := DayStart(now);
    FirstOfFilter(records, (a: Attendance) => SignedInSince(a, start), (a: Attendance) => a.employeeId == employee.id,
                  (a: Attendance) => a.employeeId == employee.id && SignedInSince(a, start));
  }

  /** The life cycle as the status report sees it: after any successful
      sign-out at `now`, the employee's row is signed in and shows `now` as
      the sign-out time. */
  lemma StatusAfterSignOut(records: seq<Attendance>, users: seq<User>, check: PasswordCheck,
                           req: SignOutRequest, now: Time, employee: User)
    requires SignOutSpec(records, users, check, req, now).0.Ok?
    requires employee.id == req.employeeId.value
    ensures var table := SignOutSpec(records, users, check, req, now).1;
      var row := StatusRowFor(employee, SignedInSinceAll(table, DayStart(now)));
      row.signedIn && row.signOutTime == Some(now) &&
      row.signInTime == records[TodaysRecord(records, employee.id, now).value].signInTime
  {
    var table := SignOutSpec(records, users, check, req, now).1;
    var k := TodaysRecord(records, employee.id, now).value;
    var p := (a: Attendance) => a.employeeId == employee.id && SignedInSince(a, DayStart(now));
    assert forall j :: 0 <= j < |records| ==> p(table[j]) == p(records[j]);
    assert TodaysRecord(table, employee.id, now) == Some(k) by {
      assert p(table[k]);
      assert forall j :: 0 <= j < k ==> !p(table[j]);
    }
    StatusShowsTodaysRecord(table, employee, now);
  }

  /** After a sign-in that created a record at `now`, the status report at
      the same instant shows the employee as signed in. */
  lemma StatusAfterSignIn(records: seq<Attendance>, users: seq<User>, check: PasswordCheck,
                          req: SignInRequest, now: Time, employee: User)
    requires SignInSpec(records, users, check, req, now).0.Ok?
    requires SignInSpec(records, users, check, req, now).0.message == "Signed in successfully"
    requires employee.id == req.employeeId.value
    ensures StatusRowFor(employee, SignedInSinceAll(SignInSpec(records, users, check, req, now).1, DayStart(now))).signedIn
  {
    var table := SignInSpec(records, users, check, req, now).1;
    var created := table[|table| - 1];
    assert created.employeeId == employee.id && SignedInSince(created, DayStart(now));
    SignedInIffFetched(table, DayStart(now), employee.id);
  }
}
