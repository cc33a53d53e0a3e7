/** AllRecordsPage.js: every attendance record, grouped under the date of
    its sign-in, with placeholder texts for missing times. */
module AllRecords {
  import opened Base
  import AttendanceReports

  /** A fetched record: the populated employee name ("" when the employee is
      gone) and the two stored times. */
  datatype RecordView = RecordView(employeeName: string, signInTime: Option<Time>, signOutTime: Option<Time>)

  /** The group key `new Date(record.signInTime).toLocaleDateString()`. A
      stored null sign-in time is the epoch, so it lands on day 0. */
  function DayKey(r: RecordView): (d: Time)
    ensures r.signInTime.None? ==> d == 0
    ensures r.signInTime.Some? ==> d <= r.signInTime.value < d + MillisPerDay && d % MillisPerDay == 0
  {
    DayStart(r.signInTime.GetOr(0))
  }

  /** `Object.keys(grouped)`: each day once, in order of first appearance. */
  function Keys(rs: seq<RecordView>): seq<Time>
    decreases |rs|
  {
    if rs == [] then []
    else
      var ks := Keys(rs[..|rs| - 1]);
      var d := DayKey(rs[|rs| - 1]);
      if d in ks then ks else ks + [d]
  }

  /** The keys are exactly the days some record falls on, each listed once. */
  lemma {:induction false} KeysSpec(rs: seq<RecordView>)
    ensures forall d :: d in Keys(rs) <==> exists i :: 0 <= i < |rs| && DayKey(rs[i]) == d
    ensures forall i, j :: 0 <= i < j < |Keys(rs)| ==> Keys(rs)[i] != Keys(rs)[j]
    decreases |rs|
  {
    if rs != [] {
      var front := rs[..|rs| - 1];
      KeysSpec(front);
      assert forall i :: 0 <= i < |front| ==> front[i] == rs[i];
    }
  }

  /** `rs[n]` is the first record that falls on day `d`. */
  ghost predicate FirstSeenAt(rs: seq<RecordView>, d: Time, n: int) {
    0 <= n < |rs| && DayKey(rs[n]) == d && forall m :: 0 <= m < n ==> DayKey(rs[m]) != d
  }

  /** A day already keyed by the records before the last one is first seen
      among them. */
  lemma SeenInFront(rs: seq<RecordView>, d: Time, m: int)
    requires rs != [] && d in Keys(rs[..|rs| - 1]) && FirstSeenAt(rs, d, m)
    ensures m < |rs| - 1 && FirstSeenAt(rs[..|rs| - 1], d, m)
  {
    var front := rs[..|rs| - 1];
    KeysSpec(front);
    var i0 :| 0 <= i0 < |front| && DayKey(front[i0]) == d;
    assert DayKey(rs[i0]) == d;
  }

  /** `Object.keys` lists the days in the order their first records come. */
  lemma {:induction false} KeysInFirstSeenOrder(rs: seq<RecordView>)
    ensures forall i, j, m, n ::
      (0 <= i < j < |Keys(rs)| && FirstSeenAt(rs, Keys(rs)[i], m) && FirstSeenAt(rs, Keys(rs)[j], n)) ==> m < n
    decreases |rs|
  {
    if rs != [] {
      var front := rs[..|rs| - 1];
      var ks := Keys(front);
      KeysInFirstSeenOrder(front);
      KeysSpec(front);
      forall i, j, m, n | 0 <= i < j < |Keys(rs)| && FirstSeenAt(rs, Keys(rs)[i], m) && FirstSeenAt(rs, Keys(rs)[j], n)
        ensures m < n
      {
        assert Keys(rs)[i] == ks[i];
        SeenInFront(rs, ks[i], m);
        if j < |ks| {
          assert Keys(rs)[j] == ks[j];
          SeenInFront(rs, ks[j], n);
        } else {
          assert Keys(rs)[j] == DayKey(rs[|rs| - 1]) && DayKey(rs[|rs| - 1]) !in ks;
        }
      }
    }
  }

  /** `grouped[d]`: the records of day `d`, in input order. */
  function Group(rs: seq<RecordView>, d: Time): seq<RecordView>
  {
    Filter(rs, (r: RecordView) => DayKey(r) == d)
  }

  /** A group holds exactly the records of its day. */
  lemma GroupMembers(rs: seq<RecordView>, d: Time)
    ensures forall r :: r in Group(rs, d) <==> r in rs && DayKey(r) == d
  {
  }

  /** Groups grow by appending, so each keeps the input order. */
  lemma GroupAppend(a: seq<RecordView>, b: seq<RecordView>, d: Time)
    ensures Group(a + b, d) == Group(a, d) + Group(b, d)
  {
    FilterAppend(a, b, (r: RecordView) => DayKey(r) == d);
  }

  /** `groupByDate`: the reduce over the records into a dictionary of
      arrays, returned with its key order. */
  method GroupByDate(rs: seq<RecordView>) returns (keys: seq<Time>, groups: map<Time, seq<RecordView>>)
    ensures keys == Keys(rs)
    ensures forall d :: d in groups <==> d in keys
    ensures forall d :: d in groups ==> groups[d] == Group(rs, d)
  {
    keys, groups := [], map[];
    var i := 0;
    assert rs[..i] == [];
    while i < |rs|
      invariant 0 <= i <= |rs|
      invariant keys == Keys(rs[..i])
      invariant forall d :: d in groups <==> d in keys
      invariant forall d :: d in groups ==> groups[d] == Group(rs[..i], d)
    {
      var date := DayKey(rs[i]);
      var seen := if date in groups then groups[date] else [];
      var keys', groups' := if date in groups then keys else keys + [date], groups[date := seen + [rs[i]]];
      GroupsStep(rs, i, keys, groups);
      keys, groups, i := keys', groups', i + 1;
    }
    assert rs[..i] == rs;
  }

  /** The loop body of `GroupByDate` keeps its invariant. */
  lemma GroupsStep(rs: seq<RecordView>, i: nat, keys: seq<Time>, groups: map<Time, seq<RecordView>>)
    requires i < |rs| && keys == Keys(rs[..i])
    requires forall d :: d in groups <==> d in keys
    requires forall d :: d in groups ==> groups[d] == Group(rs[..i], d)
    ensures var date := DayKey(rs[i]);
      var keys' := if date in groups then keys else keys + [date];
      var groups' := groups[date := (if date in groups then groups[date] else []) + [rs[i]]];
      keys' == Keys(rs[..i + 1]) &&
      (forall d :: d in groups' <==> d in keys') &&
      (forall d :: d in groups' ==> groups'[d] == Group(rs[..i + 1], d))
  {
    var date := DayKey(rs[i]);
    GroupStep(rs, i);
    var groups' := groups[date := (if date in groups then groups[date] else []) + [rs[i]]];
    forall d | d in groups'
      ensures groups'[d] == Group(rs[..i + 1], d)
    {
      if d != date {
        assert groups'[d] == groups[d];
      }
    }
  }

  /** A day no record falls on has an empty group. */
  lemma {:induction false} AbsentDayEmpty(rs: seq<RecordView>, d: Time)
    requires forall i :: 0 <= i < |rs| ==> DayKey(rs[i]) != d
    ensures Group(rs, d) == []
    decreases |rs|
  {
    if rs != [] {
      assert forall i :: 0 <= i < |rs| - 1 ==> rs[1..][i] == rs[i + 1];
      AbsentDayEmpty(rs[1..], d);
    }
  }

  /** One step of the reduce: the record joins its day's group, and its day
      becomes a new last key when it was not one yet. */
  lemma GroupStep(rs: seq<RecordView>, i: nat)
    requires i < |rs|
    ensures Keys(rs[..i + 1]) ==
      (if DayKey(rs[i]) in Keys(rs[..i]) then Keys(rs[..i]) else Keys(rs[..i]) + [DayKey(rs[i])])
    ensures forall d :: Group(rs[..i + 1], d) == Group(rs[..i], d) + (if d == DayKey(rs[i]) then [rs[i]] else [])
    ensures DayKey(rs[i]) !in Keys(rs[..i]) ==> Group(rs[..i], DayKey(rs[i])) == []
  {
    KeysSpec(rs[..i]);
    assert rs[..i + 1][..i] == rs[..i];
    assert rs[..i + 1] == rs[..i] + [rs[i]];
    forall d
      ensures Group(rs[..i + 1], d) == Group(rs[..i], d) + (if d == DayKey(rs[i]) then [rs[i]] else [])
    {
      GroupAppend(rs[..i], [rs[i]], d);
    }
    if DayKey(rs[i]) !in Keys(rs[..i]) {
      AbsentDayEmpty(rs[..i], DayKey(rs[i]));
    }
  }

  /** Every record lands in exactly one group: the one of its own day. */
  lemma EachRecordInOneGroup(rs: seq<RecordView>, i: nat, d: Time)
    requires i < |rs|
    ensures DayKey(rs[i]) in Keys(rs)
    ensures rs[i] in Group(rs, d) <==> d == DayKey(rs[i])
  {
    KeysSpec(rs);
    GroupMembers(rs, d);
  }

  /** Sum of the sizes of the groups listed in `ks`. */
  function TotalSize(rs: seq<RecordView>, ks: seq<Time>): nat
    decreases |ks|
  {
    if ks == [] then 0 else |Group(rs, ks[0])| + TotalSize(rs, ks[1..])
  }

  lemma {:induction false} TotalSizeSnoc(rs: seq<RecordView>, ks: seq<Time>, d: Time)
    ensures TotalSize(rs, ks + [d]) == TotalSize(rs, ks) + |Group(rs, d)|
    decreases |ks|
  {
    if ks == [] {
      assert TotalSize(rs, [d]) == |Group(rs, d)| + TotalSize(rs, []);
    } else {
      assert (ks + [d])[1..] == ks[1..] + [d];
      TotalSizeSnoc(rs, ks[1..], d);
    }
  }

  /** One more record adds one to the total of distinct keys when its day is
      among them, and nothing otherwise. */
  lemma {:induction false} TotalSizeAddRecord(rs: seq<RecordView>, x: RecordView, ks: seq<Time>)
    requires forall i, j :: 0 <= i < j < |ks| ==> ks[i] != ks[j]
    ensures TotalSize(rs + [x], ks) == TotalSize(rs, ks) + (if DayKey(x) in ks then 1 else 0)
    decreases |ks|
  {
    if ks != [] {
      GroupAppend(rs, [x], ks[0]);
      assert Group([x], ks[0]) == if DayKey(x) == ks[0] then [x] else [];
      TotalSizeAddRecord(rs, x, ks[1..]);
      assert DayKey(x) in ks <==> DayKey(x) == ks[0] || DayKey(x) in ks[1..];
      if DayKey(x) == ks[0] {
        assert DayKey(x) !in ks[1..] by {
          forall j | 0 <= j < |ks[1..]| ensures ks[1..][j] != ks[0] {
            assert ks[1..][j] == ks[j + 1];
          }
        }
      }
    }
  }

  /** The group sizes add up to the number of records. */
  lemma {:induction false} GroupSizesSum(rs: seq<RecordView>)
    ensures TotalSize(rs, Keys(rs)) == |rs|
    decreases |rs|
  {
    if rs != [] {
      var front, x := rs[..|rs| - 1], rs[|rs| - 1];
      assert rs == front + [x];
      GroupSizesSum(front);
      KeysSpec(front);
      var ks := Keys(front);
      TotalSizeAddRecord(front, x, ks);
      if DayKey(x) !in ks {
        TotalSizeSnoc(rs, ks, DayKey(x));
        GroupAppend(front, [x], DayKey(x));
        AbsentDayEmpty(front, DayKey(x));
      }
    }
  }

  /** One table row: the name, or "Unknown", and the two cells. */
  datatype RowView = RowView(employee: string, signInTime: AttendanceReports.Cell, signOutTime: AttendanceReports.Cell)

  function RowFor(r: RecordView): (v: RowView)
    ensures v.employee == if r.employeeName == "" then "Unknown" else r.employeeName
    ensures r.signInTime.None? <==> v.signInTime == AttendanceReports.Placeholder(AttendanceReports.NotSignedIn)
    ensures r.signOutTime.None? <==> v.signOutTime == AttendanceReports.Placeholder(AttendanceReports.NotSignedOut)
    ensures r.signInTime.Some? ==> v.signInTime == AttendanceReports.Shown(r.signInTime.value)
    ensures r.signOutTime.Some? ==> v.signOutTime == AttendanceReports.Shown(r.signOutTime.value)
  {
    RowView(if r.employeeName == "" then "Unknown" else r.employeeName,
            AttendanceReports.CellOf(r.signInTime, AttendanceReports.NotSignedIn),
            AttendanceReports.CellOf(r.signOutTime, AttendanceReports.NotSignedOut))
  }
}
