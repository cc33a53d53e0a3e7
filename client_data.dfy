/** What the browser side works on: JSON objects keyed by `_id`, object
    spread, the `_id` filter, and the outcome of a `fetch` call. */
module ClientData {
  import opened Base

  /** A JSON object; field values are kept as their text. */
  type Obj = map<string, string>

  const IdKey := "_id"

  /** `obj._id`, None standing for `undefined`. */
  function IdOf(o: Obj): Option<string> {
    if IdKey in o then Some(o[IdKey]) else None
  }

  /** `{ ...a, ...b }`: every field of either, the right one winning. */
  function Spread(a: Obj, b: Obj): (r: Obj)
    ensures r.Keys == a.Keys + b.Keys
    ensures forall k :: k in b ==> r[k] == b[k]
    ensures forall k :: k in a && k !in b ==> r[k] == a[k]
  {
    a + b
  }

  /** Spreading `null` (no fields) leaves an object as it was. */
  lemma SpreadNothing(a: Obj)
    ensures Spread(a, map[]) == a
  {
    assert Spread(a, map[]).Keys == a.Keys;
  }

  /** `list.filter(o => o._id !== id)`. */
  function RemoveById(list: seq<Obj>, id: Option<string>): (r: seq<Obj>)
    ensures forall o :: o in r ==> IdOf(o) != id
    ensures forall o :: o in list && IdOf(o) != id ==> o in r
    ensures forall o :: o in r ==> o in list
  {
    Filter(list, (o: Obj) => IdOf(o) != id)
  }

  /** The others keep their order: removal distributes over concatenation. */
  lemma RemoveByIdAppend(a: seq<Obj>, b: seq<Obj>, id: Option<string>)
    ensures RemoveById(a + b, id) == RemoveById(a, id) + RemoveById(b, id)
  {
    FilterAppend(a, b, (o: Obj) => IdOf(o) != id);
  }

  /** Removing an id nobody carries changes nothing, and only then. */
  lemma RemoveAbsentId(list: seq<Obj>, id: Option<string>)
    ensures (forall i :: 0 <= i < |list| ==> IdOf(list[i]) != id) <==> RemoveById(list, id) == list
  {
    FilterKeepsAll(list, (o: Obj) => IdOf(o) != id);
  }

  /** A parsed response body. */
  datatype Body =
    | ArrayBody(items: seq<Obj>)                                // a JSON array
    | ObjectBody(employees: Option<seq<Obj>>, error: string)    // an object; `error` is "" when absent
    | Unreadable(message: string)                               // `response.json()` throws

  /** What `await fetch(...)` gives: a thrown error or a response. */
  datatype FetchOutcome =
    | Threw(message: string)
    | Responded(ok: bool, status: nat, body: Body)

  /** Whether a fetch yields a list to install or an error text. */
  datatype Decision = Accept(list: seq<Obj>) | Reject(message: string)
}
