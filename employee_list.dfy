/** EmployeeList.js: the page's own copy of the employee list, its fetch
    rule, and the two updaters it hands to `setEmployees` after an edit or a
    deletion. */
module EmployeeList {
  import opened Base
  import opened ClientData
  import EmployeeStore

  /** The page's state: list, loading flag and error text. */
  datatype ListState = ListState(employees: seq<Obj>, loading: bool, error: Option<string>)

  /** `handleEmployeeUpdate`: entries with the same `_id` are replaced by the
      updated object as a whole, without merging. */
  function ReplaceById(list: seq<Obj>, upd: Obj): (r: seq<Obj>)
    ensures |r| == |list|
    ensures forall i :: 0 <= i < |list| ==> r[i] == (if IdOf(list[i]) == IdOf(upd) then upd else list[i])
    ensures forall i :: 0 <= i < |list| ==> IdOf(r[i]) == IdOf(list[i])
    decreases |list|
  {
    if list == [] then []
    else [if IdOf(list[0]) == IdOf(upd) then upd else list[0]] + ReplaceById(list[1..], upd)
  }

  /** Replacing twice is replacing once. */
  lemma ReplaceIdempotent(list: seq<Obj>, upd: Obj)
    ensures ReplaceById(ReplaceById(list, upd), upd) == ReplaceById(list, upd)
  {
  }

  /** Replacement and the store's merge agree exactly when the updated object
      keeps every field of the entries it matches with the same value
      (replacing drops a field that merging keeps). */
  lemma ReplaceVersusMerge(list: seq<Obj>, upd: Obj)
    ensures ReplaceById(list, upd) == EmployeeStore.MergeById(list, upd) <==>
      forall i :: 0 <= i < |list| && IdOf(list[i]) == IdOf(upd) ==> Spread(list[i], upd) == upd
  {
    var r, m := ReplaceById(list, upd), EmployeeStore.MergeById(list, upd);
    if r == m {
      forall i | 0 <= i < |list| && IdOf(list[i]) == IdOf(upd)
        ensures Spread(list[i], upd) == upd
      {
        assert r[i] == m[i];
      }
    }
  }

  /** `handleEmployeeDeleted` is the shared `_id` filter. */
  function DeleteFromList(list: seq<Obj>, id: Option<string>): (r: seq<Obj>)
    ensures forall o :: o in r <==> o in list && IdOf(o) != id
  {
    RemoveById(list, id)
  }

  /** The page's acceptance rule: only an ok response whose `employees`
      field is an array; otherwise `data.error`, or a fixed text. */
  function ListDecision(outcome: FetchOutcome): (d: Decision)
    ensures d.Accept? <==> (outcome.Responded? && outcome.ok && outcome.body.ObjectBody? && outcome.body.employees.Some?)
    ensures d.Accept? ==> d.list == outcome.body.employees.value
    ensures outcome.Threw? ==> d == Reject(outcome.message)
    ensures (outcome.Responded? && outcome.body.Unreadable?) ==> d == Reject(outcome.body.message)
    ensures (outcome.Responded? && outcome.body.ObjectBody? && !(outcome.ok && outcome.body.employees.Some?)) ==>
      d == Reject(if outcome.body.error != "" then outcome.body.error else "Invalid response format")
    ensures (outcome.Responded? && outcome.body.ArrayBody?) ==> d == Reject("Invalid response format")
  {
    match outcome
    case Threw(message) => Reject(message)
    case Responded(ok, _, body) =>
      match body
      case Unreadable(message) => Reject(message)
      case ArrayBody(_) => Reject("Invalid response format")
      case ObjectBody(employees, error) =>
        if ok && employees.Some? then Accept(employees.value)
        else Reject(if error != "" then error else "Invalid response format")
  }

  /** The page is stricter than the store: whatever it accepts, the store
      accepts too, with the same list; a bare array is accepted only by the
      store. */
  lemma ListStricterThanStore(outcome: FetchOutcome)
    ensures ListDecision(outcome).Accept? ==> EmployeeStore.StoreDecision(outcome) == ListDecision(outcome)
    ensures (outcome.Responded? && outcome.ok && outcome.body.ArrayBody?) ==>
      EmployeeStore.StoreDecision(outcome).Accept? && ListDecision(outcome).Reject?
  {
  }

  /** The state after `fetchEmployees`: its `finally` clears loading. */
  function Fetched(s: ListState, outcome: FetchOutcome): (r: ListState)
    ensures !r.loading
    ensures ListDecision(outcome).Accept? ==> r.employees == ListDecision(outcome).list && r.error == s.error
    ensures ListDecision(outcome).Reject? ==>
      r.employees == s.employees && r.error == Some(ListDecision(outcome).message)
  {
    match ListDecision(outcome)
    case Accept(list) => s.(employees := list, loading := false)
    case Reject(message) => s.(error := Some(message), loading := false)
  }
}
