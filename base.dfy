/** Shared vocabulary: optional values, the clock, HTTP responses and the two
    sequence queries (filter and find-first) that every handler and page uses. */
module Base {

  /** JavaScript's `null`/`undefined` against a present value. */
  datatype Option<T> = None | Some(value: T) {
    function GetOr(default: T): T {
      if Some? then value else default
    }
  }

  /** A `Date`, as milliseconds since the epoch. */
  type Time = nat

  const MillisPerDay: nat := 24 * 60 * 60 * 1000

  /** Midnight at the start of the day that holds `t`. It stands both for the
      date part of `toISOString()` and for `setHours(0, 0, 0, 0)`; time zones
      are not modelled, so the two coincide here. */
  function DayStart(t: Time): (s: Time)
    ensures s <= t < s + MillisPerDay
    ensures s % MillisPerDay == 0
  {
    t - t % MillisPerDay
  }

  /** What a request handler answers: a status with the error text, or a
      status with the success message and the returned value. */
  datatype Response<T> =
    | Fail(status: nat, reason: string)
    | Ok(status: nat, message: string, body: T)

  /** `Array.prototype.filter`: the elements satisfying `p`, in order. */
  function Filter<T(!new)>(s: seq<T>, p: T -> bool): (r: seq<T>)
    ensures |r| <= |s|
    ensures forall x :: x in r <==> x in s && p(x)
    decreases |s|
  {
    if s == [] then []
    else (if p(s[0]) then [s[0]] else []) + Filter(s[1..], p)
  }

  /** Filtering distributes over concatenation, so the kept elements stay in
      their original order. */
  lemma {:induction false} FilterAppend<T(!new)>(a: seq<T>, b: seq<T>, p: T -> bool)
    ensures Filter(a + b, p) == Filter(a, p) + Filter(b, p)
    decreases |a|
  {
    if a == [] {
      assert a + b == b;
    } else {
      assert (a + b)[1..] == a[1..] + b;
      FilterAppend(a[1..], b, p);
    }
  }

  /** When every element passes, nothing is dropped. */
  lemma {:induction false} FilterAllPass<T(!new)>(s: seq<T>, p: T -> bool)
    requires forall i :: 0 <= i < |s| ==> p(s[i])
    ensures Filter(s, p) == s
    decreases |s|
  {
    if s != [] {
      assert forall i :: 0 <= i < |s[1..]| ==> s[1..][i] == s[i + 1];
      FilterAllPass(s[1..], p);
      assert s == [s[0]] + s[1..];
    }
  }

  /** An element that fails makes the result shorter. */
  lemma {:induction false} FilterDropShortens<T(!new)>(s: seq<T>, p: T -> bool, k: nat)
    requires k < |s| && !p(s[k])
    ensures |Filter(s, p)| < |s|
    decreases |s|
  {
    if k > 0 {
      assert s[1..][k - 1] == s[k];
      FilterDropShortens(s[1..], p, k - 1);
    }
  }

  /** Nothing is dropped exactly when every element passes. */
  lemma FilterKeepsAll<T(!new)>(s: seq<T>, p: T -> bool)
    ensures |Filter(s, p)| == |s| <==> forall i :: 0 <= i < |s| ==> p(s[i])
    ensures (forall i :: 0 <= i < |s| ==> p(s[i])) ==> Filter(s, p) == s
  {
    if forall i :: 0 <= i < |s| ==> p(s[i]) {
      FilterAllPass(s, p);
    } else {
      var k :| 0 <= k < |s| && !p(s[k]);
      FilterDropShortens(s, p, k);
    }
  }

  /** `Array.prototype.find` / `findOne`: the index of the first element
      satisfying `p`, if any. */
  function FirstIndex<T>(s: seq<T>, p: T -> bool): (r: Option<nat>)
    ensures r.Some? ==> r.value < |s| && p(s[r.value])
    ensures r.Some? ==> forall j :: 0 <= j < r.value ==> !p(s[j])
    ensures r.None? <==> forall j :: 0 <= j < |s| ==> !p(s[j])
    decreases |s|
  {
    if s == [] then None
    else if p(s[0]) then Some(0)
    else match FirstIndex(s[1..], p)
      case None => None
      case Some(k) => Some(k + 1)
  }

  /** The first element of `Filter(s, q)` satisfying `p` is the first element
      of `s` satisfying both: a query followed by an in-memory `find` sees
      the same record as one query with both conditions. */
  lemma {:induction false} FirstOfFilter<T(!new)>(s: seq<T>, q: T -> bool, p: T -> bool, both: T -> bool)
    requires forall x :: both(x) == (q(x) && p(x))
    ensures FirstIndex(Filter(s, q), p).None? <==> FirstIndex(s, both).None?
    ensures FirstIndex(s, both).Some? ==>
      Filter(s, q)[FirstIndex(Filter(s, q), p).value] == s[FirstIndex(s, both).value]
    decreases |s|
  {
    if s != [] {
      var rest := s[1..];
      FirstOfFilter(rest, q, p, both);
      var f, fr := Filter(s, q), Filter(rest, q);
      var ri := FirstIndex(rest, both);
      if both(s[0]) {
        assert f == [s[0]] + fr;
        assert f[0] == s[0];
        assert FirstIndex(f, p) == Some(0);
        assert FirstIndex(s, both) == Some(0);
      } else {
        assert FirstIndex(s, both) == if ri.None? then None else Some(ri.value + 1);
        if q(s[0]) {
          assert f == [s[0]] + fr;
          assert f[1..] == fr;
          var fi := FirstIndex(fr, p);
          assert FirstIndex(f, p) == if fi.None? then None else Some(fi.value + 1);
        } else {
          assert f == fr;
        }
      }
    }
  }

  /** Decimal digits of a natural number, as template literals print it. */
  function NatToDecimal(n: nat): string
    decreases n
  {
    var digit := ["0123456789"[n % 10]];
    if n < 10 then digit else NatToDecimal(n / 10) + digit
  }
}
