/** employeeStore.js: the shared client store with the signed-in user, the
    employee list, and the loading and error flags. Each action replaces
    fields of the store; the new values are the pure functions below. */
module EmployeeStore {
  import opened Base
  import opened ClientData

  /** `employees.map(emp => emp._id === upd._id ? { ...emp, ...upd } : emp)`.
      Two absent ids compare equal, as `undefined === undefined` does. */
  function MergeById(list: seq<Obj>, upd: Obj): (r: seq<Obj>)
    ensures |r| == |list|
    ensures forall i :: 0 <= i < |list| ==>
      r[i] == (if IdOf(list[i]) == IdOf(upd) then Spread(list[i], upd) else list[i])
    ensures forall i :: 0 <= i < |list| ==> IdOf(r[i]) == IdOf(list[i])
    decreases |list|
  {
    if list == [] then []
    else
      var head := if IdOf(list[0]) == IdOf(upd) then Spread(list[0], upd) else list[0];
      [head] + MergeById(list[1..], upd)
  }

  /** Updating an id nobody carries is a no-op. */
  lemma MergeAbsentId(list: seq<Obj>, upd: Obj)
    requires forall i :: 0 <= i < |list| ==> IdOf(list[i]) != IdOf(upd)
    ensures MergeById(list, upd) == list
  {
  }

  /** Repeating an update changes nothing more. */
  lemma MergeIdempotent(list: seq<Obj>, upd: Obj)
    ensures MergeById(MergeById(list, upd), upd) == MergeById(list, upd)
  {
    var once := MergeById(list, upd);
    forall i | 0 <= i < |list|
      ensures MergeById(once, upd)[i] == once[i]
    {
      if IdOf(list[i]) == IdOf(upd) {
        assert Spread(Spread(list[i], upd), upd) == Spread(list[i], upd);
      }
    }
  }

  /** The response-shape rule of `fetchEmployees`: `data.employees` if it is
      an array, else `data` if it is one; a failed response reports its
      `error`, or the status when it has none. */
  function StoreDecision(outcome: FetchOutcome): (d: Decision)
    ensures outcome.Threw? ==> d == Reject(outcome.message)
    ensures (outcome.Responded? && outcome.ok && outcome.body.ObjectBody? && outcome.body.employees.Some?) ==>
      d == Accept(outcome.body.employees.value)
    ensures (outcome.Responded? && outcome.ok && outcome.body.ArrayBody?) ==> d == Accept(outcome.body.items)
    ensures (outcome.Responded? && outcome.ok && outcome.body.ObjectBody? && outcome.body.employees.None?) ==>
      d == Reject("Unexpected data format")
    ensures (outcome.Responded? && !outcome.ok && outcome.body.ObjectBody? && outcome.body.error != "") ==>
      d == Reject(outcome.body.error)
    ensures (outcome.Responded? && !outcome.ok && !(outcome.body.ObjectBody? && outcome.body.error != "") &&
             !outcome.body.Unreadable?) ==>
      d == Reject("HTTP Error: " + NatToDecimal(outcome.status))
    ensures (outcome.Responded? && outcome.body.Unreadable?) ==> d == Reject(outcome.body.message)
    ensures d.Accept? <==> (outcome.Responded? && outcome.ok &&
                           (outcome.body.ArrayBody? || (outcome.body.ObjectBody? && outcome.body.employees.Some?)))
  {
    match outcome
    case Threw(message) => Reject(message)
    case Responded(ok, status, body) =>
      match body
      case Unreadable(message) => Reject(message)
      case ArrayBody(items) => if ok then Accept(items) else Reject("HTTP Error: " + NatToDecimal(status))
      case ObjectBody(employees, error) =>
        if !ok then Reject(if error != "" then error else "HTTP Error: " + NatToDecimal(status))
        else if employees.Some? then Accept(employees.value)
        else Reject("Unexpected data format")
  }

  class Store {
    var user: Option<Obj>
    var employees: seq<Obj>
    var loading: bool
    var error: Option<string>

    constructor ()
      ensures user.None? && employees == [] && !loading && error.None?
    {
      user := None;
      employees := [];
      loading := false;
      error := None;
    }

    /** `setUser`: the old fields overridden by the new ones; spreading
        `null` adds nothing, so `setUser(null)` keeps every field. */
    method SetUser(u: Option<Obj>)
      modifies this
      ensures user == Some(Spread(old(user).GetOr(map[]), u.GetOr(map[])))
      ensures u.None? ==> user == Some(old(user).GetOr(map[]))
      ensures employees == old(employees) && loading == old(loading) && error == old(error)
    {
      SpreadNothing(user.GetOr(map[]));
      user := Some(Spread(user.GetOr(map[]), u.GetOr(map[])));
    }

    /** `fetchEmployees`: the list or the error is installed, and loading
        is false whatever the outcome. */
    method FetchEmployees(outcome: FetchOutcome)
      modifies this
      ensures !loading && user == old(user)
      ensures StoreDecision(outcome).Accept? ==> employees == StoreDecision(outcome).list && error.None?
      ensures StoreDecision(outcome).Reject? ==>
        employees == old(employees) && error == Some(StoreDecision(outcome).message)
    {
      loading, error := true, None;
      var decision := StoreDecision(outcome);
      match decision
      case Accept(list) =>
        employees, loading := list, false;
      case Reject(message) =>
        error, loading := Some(message), false;
    }

    /** `addEmployee`: appended at the end. */
    method AddEmployee(e: Obj)
      modifies this
      ensures employees == old(employees) + [e]
      ensures user == old(user) && loading == old(loading) && error == old(error)
    {
      employees := employees + [e];
    }

    /** `updateEmployee`: entries with the same `_id` take the new fields. */
    method UpdateEmployee(upd: Obj)
      modifies this
      ensures employees == MergeById(old(employees), upd)
      ensures user == old(user) && loading == old(loading) && error == old(error)
    {
      employees := MergeById(employees, upd);
    }

    /** `deleteEmployee`: every entry with that `_id` goes, the rest stay. */
    method DeleteEmployee(id: Option<string>)
      modifies this
      ensures employees == RemoveById(old(employees), id)
      ensures user == old(user) && loading == old(loading) && error == old(error)
    {
      employees := RemoveById(employees, id);
    }
  }
}
