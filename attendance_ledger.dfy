/** The attendance collection and its two writers, the sign-in and sign-out
    handlers. Each handler is specified by a pure step function (the answer
    and the new table); the `Ledger` class runs it against its stored table
    and clock. Per record the life cycle is NoRecord -> SignedIn -> SignedOut. */
module AttendanceLedger {
  import opened Base
  import opened Models

  /** The `date` field of a sign-in body: missing (falsy), not a date
      (`toISOString` throws), or an instant. */
  datatype DateArg = NoDate | Unparseable | At(t: Time)

  datatype SignInRequest = SignInRequest(
    verb: string, employeeId: Option<UserId>, password: string, date: DateArg)

  datatype SignOutRequest = SignOutRequest(
    verb: string, employeeId: Option<UserId>, password: string)

  /** The record sign-in looks for: this employee under this day key. */
  predicate SameDayKey(r: Attendance, id: UserId, day: Time) {
    r.employeeId == id && r.date == day
  }

  /** The records sign-out and the status report look at: signed in at or
      after `start` (a missing sign-in time never matches `$gte`). */
  predicate SignedInSince(r: Attendance, start: Time) {
    r.signInTime.Some? && r.signInTime.value >= start
  }

  /** At most one record per (employee, day key); the key is the requested
      `date`, not the day of the sign-in instant. */
  ghost predicate UniquePerDay(records: seq<Attendance>) {
    forall i, j :: 0 <= i < j < |records| ==>
      !SameDayKey(records[j], records[i].employeeId, records[i].date)
  }

  /** Every stamp lies in the past of `now`, and no record was signed out
      before it was signed in. */
  ghost predicate TimesOrdered(records: seq<Attendance>, now: Time) {
    forall k :: 0 <= k < |records| ==>
      (records[k].signInTime.Some? ==> records[k].signInTime.value <= now) &&
      (records[k].signOutTime.Some? ==>
        records[k].signInTime.Some? &&
        records[k].signInTime.value <= records[k].signOutTime.value <= now)
  }

  /** Every stored record was created by a sign-in, so it has a sign-in time. */
  ghost predicate AllSignedIn(records: seq<Attendance>) {
    forall k :: 0 <= k < |records| ==> records[k].signInTime.Some?
  }

  /** One record's possible change: none, or SignedIn -> SignedOut with the
      sign-in side untouched. */
  ghost predicate RecordStep(a: Attendance, b: Attendance) {
    b == a || (a.signOutTime.None? && b.signOutTime.Some? && b == a.(signOutTime := b.signOutTime))
  }

  /** The table only grows, old records only take the step above, and every
      new record has been signed in. */
  ghost predicate Evolves(before: seq<Attendance>, after: seq<Attendance>) {
    |before| <= |after| &&
    (forall k :: 0 <= k < |before| ==> RecordStep(before[k], after[k])) &&
    (forall k :: |before| <= k < |after| ==> after[k].signInTime.Some?)
  }

  /** The requests sign-in lets through to the existing-record check. */
  ghost predicate SignInAdmitted(users: seq<User>, check: PasswordCheck, req: SignInRequest) {
    && req.verb == "POST"
    && req.employeeId.Some? && req.password != "" && req.date.At?
    && FindUser(users, req.employeeId.value).Some?
    && check(req.password, FindUser(users, req.employeeId.value).value.password)
  }

  /** signIn.js `handler`: the answer and the new attendance table. */
  function SignInSpec(records: seq<Attendance>, users: seq<User>, check: PasswordCheck,
                      req: SignInRequest, now: Time): (r: (Response<Attendance>, seq<Attendance>))
    ensures req.verb != "POST" ==> r == (Fail(405, "Method Not Allowed"), records)
    ensures req.verb == "POST" && (req.employeeId.None? || req.password == "" || req.date.NoDate?) ==>
      r == (Fail(400, "Employee ID, password, and date are required"), records)
    // a date that cannot be made an ISO string throws into the catch block
    ensures (req.verb == "POST" && req.employeeId.Some? && req.password != "" && req.date.Unparseable?) ==>
      r == (Fail(500, "Failed to sign in. Please try again."), records)
    ensures (req.verb == "POST" && req.employeeId.Some? && req.password != "" && req.date.At? &&
             FindUser(users, req.employeeId.value).None?) ==>
      r == (Fail(404, "Employee not found"), records)
    ensures (req.verb == "POST" && req.employeeId.Some? && req.password != "" && req.date.At? &&
             FindUser(users, req.employeeId.value).Some? &&
             !check(req.password, FindUser(users, req.employeeId.value).value.password)) ==>
      r == (Fail(401, "Invalid password"), records)
    ensures r.0.Fail? <==> !SignInAdmitted(users, check, req)
    ensures r.0.Fail? ==> r.1 == records
    // an existing record for (employee, requested date) is returned unchanged and nothing is added
    ensures (SignInAdmitted(users, check, req) &&
             exists k :: 0 <= k < |records| && SameDayKey(records[k], req.employeeId.value, DayStart(req.date.t))) ==>
      r.1 == records && r.0.status == 200 && r.0.message == "Already signed in" &&
      r.0.body in records && SameDayKey(r.0.body, req.employeeId.value, DayStart(req.date.t))
    // otherwise exactly one record is appended, keyed by the day of `date` and stamped `now`
    ensures (SignInAdmitted(users, check, req) &&
             forall k :: 0 <= k < |records| ==> !SameDayKey(records[k], req.employeeId.value, DayStart(req.date.t))) ==>
      r.0 == Ok(200, "Signed in successfully",
                Attendance(req.employeeId.value, DayStart(req.date.t), Some(now), None)) &&
      r.1 == records + [r.0.body]
  {
    if req.verb != "POST" then (Fail(405, "Method Not Allowed"), records)
    else if req.employeeId.None? || req.password == "" || req.date.NoDate? then
      (Fail(400, "Employee ID, password, and date are required"), records)
    else if req.date.Unparseable? then
      (Fail(500, "Failed to sign in. Please try again."), records)
    else
      var id, day := req.employeeId.value, DayStart(req.date.t);
      match FindUser(users, id)
      case None => (Fail(404, "Employee not found"), records)
      case Some(employee) =>
        if !check(req.password, employee.password) then (Fail(401, "Invalid password"), records)
        else match FirstIndex(records, (a: Attendance) => SameDayKey(a, id, day))
          case Some(k) => (Ok(200, "Already signed in", records[k]), records)
          case None =>
            var created := Attendance(id, day, Some(now), None);
            (Ok(200, "Signed in successfully", created), records + [created])
  }

  /** The requests sign-out lets through to the today's-record lookup. */
  ghost predicate SignOutAdmitted(users: seq<User>, check: PasswordCheck, req: SignOutRequest) {
    && req.verb == "POST"
    && req.employeeId.Some? && req.password != ""
    && FindUser(users, req.employeeId.value).Some?
    && check(req.password, FindUser(users, req.employeeId.value).value.password)
  }

  /** The record sign-out closes: the first one of this employee signed in
      since midnight. */
  function TodaysRecord(records: seq<Attendance>, id: UserId, now: Time): (r: Option<nat>)
    ensures r.None? <==>
      forall j :: 0 <= j < |records| ==> !(records[j].employeeId == id && SignedInSince(records[j], DayStart(now)))
    ensures r.Some? ==>
      r.value < |records| && records[r.value].employeeId == id && SignedInSince(records[r.value], DayStart(now)) &&
      forall j :: 0 <= j < r.value ==> !(records[j].employeeId == id && SignedInSince(records[j], DayStart(now)))
  {
    FirstIndex(records, (a: Attendance) => a.employeeId == id && SignedInSince(a, DayStart(now)))
  }

  /** signOut.js `handler`: the answer and the new attendance table. */
  function SignOutSpec(records: seq<Attendance>, users: seq<User>, check: PasswordCheck,
                       req: SignOutRequest, now: Time): (r: (Response<Attendance>, seq<Attendance>))
    ensures req.verb != "POST" ==> r == (Fail(405, "Method " + req.verb + " Not Allowed"), records)
    ensures req.verb == "POST" && (req.employeeId.None? || req.password == "") ==>
      r == (Fail(400, "Employee ID and password are required"), records)
    ensures (req.verb == "POST" && req.employeeId.Some? && req.password != "" &&
             FindUser(users, req.employeeId.value).None?) ==>
      r == (Fail(404, "Employee not found"), records)
    ensures (req.verb == "POST" && req.employeeId.Some? && req.password != "" &&
             FindUser(users, req.employeeId.value).Some? &&
             !check(req.password, FindUser(users, req.employeeId.value).value.password)) ==>
      r == (Fail(401, "Invalid password"), records)
    ensures (SignOutAdmitted(users, check, req) &&
             forall k :: 0 <= k < |records| ==>
               !(records[k].employeeId == req.employeeId.value && SignedInSince(records[k], DayStart(now)))) ==>
      r == (Fail(404, "No sign-in record found"), records)
    ensures r.0.Fail? ==> r.1 == records
    // success: exactly the first of today's records gains `signOutTime = now`
    ensures r.0.Ok? <==> (SignOutAdmitted(users, check, req) && TodaysRecord(records, req.employeeId.value, now).Some? &&
                          records[TodaysRecord(records, req.employeeId.value, now).value].signOutTime.None?)
    ensures r.0.Ok? ==>
      var k := TodaysRecord(records, req.employeeId.value, now).value;
      r.0.status == 200 && r.0.message == "Sign-out successful" &&
      r.0.body == records[k].(signOutTime := Some(now)) &&
      |r.1| == |records| && r.1[k] == r.0.body &&
      (forall j :: 0 <= j < |records| && j != k ==> r.1[j] == records[j])
    // an already closed record is refused and left as it is
    ensures (SignOutAdmitted(users, check, req) && TodaysRecord(records, req.employeeId.value, now).Some? &&
             records[TodaysRecord(records, req.employeeId.value, now).value].signOutTime.Some?) ==>
      r == (Fail(400, "Already signed out today"), records)
    ensures TimesOrdered(records, now) && r.0.Ok? ==>
      r.0.body.signInTime.Some? && r.0.body.signInTime.value <= r.0.body.signOutTime.value
  {
    if req.verb != "POST" then (Fail(405, "Method " + req.verb + " Not Allowed"), records)
    else if req.employeeId.None? || req.password == "" then
      (Fail(400, "Employee ID and password are required"), records)
    else
      var id := req.employeeId.value;
      match FindUser(users, id)
      case None => (Fail(404, "Employee not found"), records)
      case Some(employee) =>
        if !check(req.password, employee.password) then (Fail(401, "Invalid password"), records)
        else match TodaysRecord(records, id, now)
          case None => (Fail(404, "No sign-in record found"), records)
          case Some(k) =>
            if records[k].signOutTime.Some? then (Fail(400, "Already signed out today"), records)
            else
              var closed := records[k].(signOutTime := Some(now));
              (Ok(200, "Sign-out successful", closed), records[k := closed])
  }

  /** Forward evolution never produces a record without a sign-in time. */
  lemma EvolvesKeepsSignedIn(before: seq<Attendance>, after: seq<Attendance>)
    requires Evolves(before, after) && AllSignedIn(before)
    ensures AllSignedIn(after)
  {
    forall k | 0 <= k < |after| ensures after[k].signInTime.Some? {
      if k < |before| {
        assert RecordStep(before[k], after[k]);
      }
    }
  }

  /** Sign-in keeps one record per (employee, requested date), the time
      ordering and the sign-in times, and moves the table forward. */
  lemma SignInPreserves(records: seq<Attendance>, users: seq<User>, check: PasswordCheck,
                        req: SignInRequest, now: Time)
    ensures var table := SignInSpec(records, users, check, req, now).1;
      (UniquePerDay(records) ==> UniquePerDay(table)) &&
      (TimesOrdered(records, now) ==> TimesOrdered(table, now)) &&
      Evolves(records, table) &&
      (AllSignedIn(records) ==> AllSignedIn(table))
  {
    var (resp, table) := SignInSpec(records, users, check, req, now);
    if resp.Ok? && resp.message == "Signed in successfully" {
      assert table == records + [resp.body];
      assert forall k :: 0 <= k < |records| ==> table[k] == records[k];
    }
    if AllSignedIn(records) {
      EvolvesKeepsSignedIn(records, table);
    }
  }

  /** Sign-out keeps the same invariants: it changes one open record into a
      closed one. */
  lemma SignOutPreserves(records: seq<Attendance>, users: seq<User>, check: PasswordCheck,
                         req: SignOutRequest, now: Time)
    ensures var table := SignOutSpec(records, users, check, req, now).1;
      (UniquePerDay(records) ==> UniquePerDay(table)) &&
      (TimesOrdered(records, now) ==> TimesOrdered(table, now)) &&
      Evolves(records, table) &&
      (AllSignedIn(records) ==> AllSignedIn(table))
  {
    var (resp, table) := SignOutSpec(records, users, check, req, now);
    if resp.Ok? {
      var k := TodaysRecord(records, req.employeeId.value, now).value;
      assert forall j :: 0 <= j < |records| && j != k ==> table[j] == records[j];
      assert table[k] == records[k].(signOutTime := Some(now));
    }
    if AllSignedIn(records) {
      EvolvesKeepsSignedIn(records, table);
    }
  }

  /** Repeating a sign-in that succeeded, on the same day key, answers
      "Already signed in" with the same record and adds nothing: sign-in is
      idempotent under sequential calls. */
  lemma SignInIdempotent(records: seq<Attendance>, users: seq<User>, check: PasswordCheck,
                         req: SignInRequest, now: Time, later: Time)
    requires SignInSpec(records, users, check, req, now).0.Ok?
    ensures var (first, table) := SignInSpec(records, users, check, req, now);
      SignInSpec(table, users, check, req, later) == (Ok(200, "Already signed in", first.body), table)
  {
    var (first, table) := SignInSpec(records, users, check, req, now);
    var id, day := req.employeeId.value, DayStart(req.date.t);
    var p := (a: Attendance) => SameDayKey(a, id, day);
    var k := FirstIndex(records, p);
    if k.None? {
      assert table == records + [first.body];
      assert table[|records|] == first.body;
      assert FirstIndex(table, p) == Some(|records|);
    } else {
      assert table == records;
    }
  }

  /** After a successful sign-out, another one the same day fails with
      "Already signed out today" and changes nothing. */
  lemma SecondSignOutFails(records: seq<Attendance>, users: seq<User>, check: PasswordCheck,
                           req: SignOutRequest, now: Time, later: Time)
    requires SignOutSpec(records, users, check, req, now).0.Ok?
    requires DayStart(later) == DayStart(now)
    ensures var table := SignOutSpec(records, users, check, req, now).1;
      SignOutSpec(table, users, check, req, later) == (Fail(400, "Already signed out today"), table)
  {
    var table := SignOutSpec(records, users, check, req, now).1;
    var id := req.employeeId.value;
    var k := TodaysRecord(records, id, now).value;
    var p := (a: Attendance) => a.employeeId == id && SignedInSince(a, DayStart(now));
    assert forall j :: 0 <= j < |records| ==> p(table[j]) == p(records[j]);
    assert TodaysRecord(table, id, later) == Some(k) by {
      assert p(table[k]);
      assert forall j :: 0 <= j < k ==> !p(table[j]);
    }
  }

  /** Record-wise evolution composes, so any run of handlers keeps the life
      cycle NoRecord -> SignedIn -> SignedOut with no way back. */
  lemma EvolvesTransitive(a: seq<Attendance>, b: seq<Attendance>, c: seq<Attendance>)
    requires Evolves(a, b) && Evolves(b, c)
    ensures Evolves(a, c)
  {
    forall k | 0 <= k < |a| ensures RecordStep(a[k], c[k]) {
      if b[k] != a[k] {
        assert b[k].signOutTime.Some?;
        assert c[k] == b[k];
      }
    }
  }

  /** A signed-out record is never changed again by either handler. */
  lemma SignedOutIsFinal(before: seq<Attendance>, after: seq<Attendance>, k: nat)
    requires Evolves(before, after) && k < |before| && before[k].signOutTime.Some?
    ensures after[k] == before[k]
  {
    assert RecordStep(before[k], after[k]);
  }

  /** The stored attendance table, with the clock that `new Date()` reads. */
  class Ledger {
    var records: seq<Attendance>
    var now: Time

    ghost predicate Valid()
      reads this
    {
      UniquePerDay(records) && TimesOrdered(records, now) && AllSignedIn(records)
    }

    constructor (start: Time)
      ensures Valid() && records == [] && now == start
    {
      records := [];
      now := start;
    }

    /** The clock `new Date()` reads only moves forward, and the invariant
      survives it: the stored stamps stay in the past. */
    method Tick(elapsed: nat)
      requires Valid()
      modifies this
      ensures Valid() && now == old(now) + elapsed && records == old(records)
    {
      now := now + elapsed;
    }

    method SignIn(users: seq<User>, check: PasswordCheck, req: SignInRequest) returns (resp: Response<Attendance>)
      requires Valid()
      modifies this
      ensures Valid() && now == old(now)
      ensures (resp, records) == SignInSpec(old(records), users, check, req, now)
    {
      if req.verb != "POST" {
        return Fail(405, "Method Not Allowed");
      }
      if req.employeeId.None? || req.password == "" || req.date.NoDate? {
        return Fail(400, "Employee ID, password, and date are required");
      }
      if req.date.Unparseable? {
        return Fail(500, "Failed to sign in. Please try again.");
      }
      var id, day := req.employeeId.value, DayStart(req.date.t);
      var employee := FindUser(users, id);
      if employee.None? {
        return Fail(404, "Employee not found");
      }
      if !check(req.password, employee.value.password) {
        return Fail(401, "Invalid password");
      }
      SignInPreserves(records, users, check, req, now);
      var existing := FirstIndex(records, (a: Attendance) => SameDayKey(a, id, day));
      if existing.Some? {
        return Ok(200, "Already signed in", records[existing.value]);
      }
      var created := Attendance(id, day, Some(now), None);
      records := records + [created];
      resp := Ok(200, "Signed in successfully", created);
    }

    method SignOut(users: seq<User>, check: PasswordCheck, req: SignOutRequest) returns (resp: Response<Attendance>)
      requires Valid()
      modifies this
      ensures Valid() && now == old(now)
      ensures (resp, records) == SignOutSpec(old(records), users, check, req, now)
    {
      if req.verb != "POST" {
        return Fail(405, "Method " + req.verb + " Not Allowed");
      }
      if req.employeeId.None? || req.password == "" {
        return Fail(400, "Employee ID and password are required");
      }
      var id := req.employeeId.value;
      var user := FindUser(users, id);
      if user.None? {
        return Fail(404, "Employee not found");
      }
      if !check(req.password, user.value.password) {
        return Fail(401, "Invalid password");
      }
      SignOutPreserves(records, users, check, req, now);
      var found := TodaysRecord(records, id, now);
      if found.None? {
        return Fail(404, "No sign-in record found");
      }
      var k := found.value;
      if records[k].signOutTime.Some? {
        return Fail(400, "Already signed out today");
      }
      records := records[k := records[k].(signOutTime := Some(now))];
      resp := Ok(200, "Sign-out successful", records[k]);
    }
  }
}
