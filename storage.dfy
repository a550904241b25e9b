/**
  Browser local storage as the pages use it: three keys holding JSON
  arrays (`requests`, `reservations`, `passengers`) and one
  `budget_<requestId>` key per saved budget. Every page reads and writes
  these keys directly; the page modules take a `Store` and change it.
*/
module Storage {
  import opened Common
  import opened Entities

  class Store {
    var requests: Slot<Request>
    var budgets: map<string, BudgetDoc>
    var reservations: Slot<Reservation>
    var passengers: Slot<Passenger>

    constructor (requests: Slot<Request>, budgets: map<string, BudgetDoc>,
                 reservations: Slot<Reservation>, passengers: Slot<Passenger>)
      ensures this.requests == requests && this.budgets == budgets
      ensures this.reservations == reservations && this.passengers == passengers
    {
      this.requests := requests;
      this.budgets := budgets;
      this.reservations := reservations;
      this.passengers := passengers;
    }
  }

  /**
    `JSON.parse(localStorage.getItem(key) || '[]')` used as an array: an
    absent key reads as the empty list; unparsable text makes `JSON.parse`
    throw, and a parsed value that is not an array makes the array method
    applied to it (`push`, `filter`, `find`, spreading) throw; None stands
    for that exception.
  */
  function ListOrEmpty<T>(s: Slot<T>): (r: Option<seq<T>>)
    ensures s.Absent? ==> r == Some([])
    ensures s.Items? ==> r == Some(s.items)
    ensures (s.Unparsable? || s.NotArray?) ==> r.None?
  {
    match s
    case Absent => Some([])
    case Items(xs) => Some(xs)
    case _ => None
  }

  /**
    The write-back the pages make after changing one record: when the key
    holds text it is parsed and every element whose id is `key` is replaced
    by `v`; an absent key is left absent (nothing is written). None is the
    exception thrown by a failed parse or by `map` on a non-array.
  */
  function ReplaceStored<T>(s: Slot<T>, idOf: T -> string, key: string, v: T): (r: Option<Slot<T>>)
    ensures s.Absent? ==> r == Some(Absent)
    ensures (s.Unparsable? || s.NotArray?) ==> r.None?
    ensures s.Items? ==> r.Some? && r.value.Items? && |r.value.items| == |s.items|
    ensures s.Items? ==> forall i :: 0 <= i < |s.items| ==>
              r.value.items[i] == if idOf(s.items[i]) == key then v else s.items[i]
  {
    match s
    case Absent => Some(Absent)
    case Items(xs) => Some(Items(Replace(xs, idOf, key, v)))
    case _ => None
  }
}
