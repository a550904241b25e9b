/**
  The requests and reservations overview: loading both lists, the age of a
  request in days and the colour that flags old requests, whether a budget
  was saved for a request, and confirming a pending deletion. The older
  copy of this page computes age, colour and the request list the same way.
*/
module ReservasPage {
  import opened Common
  import opened Entities
  import opened Storage

  /** Milliseconds in a day. */
  const DayMs: nat := 1000 * 60 * 60 * 24

  function Abs(x: int): nat {
    if x < 0 then -x else x
  }

  /**
    Age in whole days, rounded up, of a request created at `createdMs`
    seen at `todayMs`, both as milliseconds since the epoch. None when the
    creation date is not a valid date (the difference is NaN).
  */
  function RequestAge(todayMs: int, createdMs: Option<int>): (r: Option<nat>)
    ensures r.Some? <==> createdMs.Some?
    ensures r.Some? ==> (r.value - 1) * DayMs < Abs(todayMs - createdMs.value) <= r.value * DayMs
  {
    if createdMs.None? then None
    else
      var diff := Abs(todayMs - createdMs.value);
      var days := (diff + DayMs - 1) / DayMs;
      Some(days)
  }

  /** The age does not depend on which of the two dates is later. */
  lemma RequestAgeSymmetric(a: int, b: int)
    ensures RequestAge(a, Some(b)) == RequestAge(b, Some(a))
  {
    assert Abs(a - b) == Abs(b - a);
  }

  /** A request created at the current instant is 0 days old; one created within the last day is 1 day old. */
  lemma RequestAgeFirstDay(todayMs: int, createdMs: int)
    requires createdMs < todayMs <= createdMs + DayMs
    ensures RequestAge(todayMs, Some(createdMs)) == Some(1)
    ensures RequestAge(createdMs, Some(createdMs)) == Some(0)
  {
    var r := RequestAge(todayMs, Some(createdMs)).value;
    if r == 0 {
      assert false;
    } else if r >= 2 {
      assert false;
    }
  }

  datatype Color = Success | Warning | Error

  /** Position of a colour on the scale from fresh to overdue. */
  function Rank(c: Color): nat {
    match c
    case Success => 0
    case Warning => 1
    case Error => 2
  }

  /** The colour of a request of the given age: up to 3 days fresh, up to 5 days a warning, older (or NaN) overdue. */
  function RequestColor(age: Option<int>): (c: Color)
    ensures c == Success <==> age.Some? && age.value <= 3
    ensures c == Warning <==> age.Some? && 3 < age.value <= 5
    ensures c == Error <==> age.None? || age.value > 5
  {
    if age.Some? && age.value <= 3 then Success
    else if age.Some? && age.value <= 5 then Warning
    else Error
  }

  /** An older request never gets a fresher colour. */
  lemma ColorMonotone(a: int, b: int)
    requires a <= b
    ensures Rank(RequestColor(Some(a))) <= Rank(RequestColor(Some(b)))
  {
  }

  /** Whether a budget was saved (or approved) for the request: its `budget_<id>` key is present. */
  predicate HasSavedBudget(budgets: map<string, BudgetDoc>, requestId: string) {
    requestId in budgets
  }

  /** Writing a budget for one request marks that request, and only it, as having one. */
  lemma WritingBudgetMarksRequest(budgets: map<string, BudgetDoc>, requestId: string, doc: BudgetDoc, other: string)
    ensures HasSavedBudget(budgets[requestId := doc], other) <==> other == requestId || HasSavedBudget(budgets, other)
  {
  }

  /** A list as the page holds it after loading: a list, or whatever non-array value was stored. */
  datatype Loaded<T> = List(items: seq<T>) | NonList

  /**
    Loading a key into the page: an absent key and text that does not
    parse both give the empty list; a parsed value is taken as it is.
  */
  function LoadList<T>(s: Slot<T>): (r: Loaded<T>)
    ensures s.Absent? || s.Unparsable? ==> r == List([])
    ensures s.Items? ==> r == List(s.items)
    ensures s.NotArray? ==> r.NonList?
  {
    match s
    case Items(xs) => List(xs)
    case NotArray => NonList
    case _ => List([])
  }

  /** The page state a deletion works on: both listed collections, the confirmation dialog and the pending id of each kind. */
  datatype DeleteView = DeleteView(
    requests: seq<Request>,
    reservations: seq<Reservation>,
    dialogOpen: bool,
    requestToDelete: Option<string>,
    reservationToDelete: Option<string>)

  /**
    Confirm the pending deletion. A pending request (a non-empty id) wins:
    every request with that id leaves the page's list, which is written
    to the store, and the dialog closes. Otherwise a pending reservation
    is handled the same way on the reservation list. With neither,
    nothing happens. The lists written are the page's, not re-read from
    the store.
  */
  method DeleteConfirm(store: Store, view: DeleteView) returns (view': DeleteView)
    modifies store
    ensures Given(view.requestToDelete) ==>
              view' == view.(requests := Without(view.requests, RequestId, view.requestToDelete.value),
                             dialogOpen := false, requestToDelete := None) &&
              store.requests == Items(view'.requests) && store.reservations == old(store.reservations)
    ensures !Given(view.requestToDelete) && Given(view.reservationToDelete) ==>
              view' == view.(reservations := Without(view.reservations, ReservationId, view.reservationToDelete.value),
                             dialogOpen := false, reservationToDelete := None) &&
              store.reservations == Items(view'.reservations) && store.requests == old(store.requests)
    ensures !Given(view.requestToDelete) && !Given(view.reservationToDelete) ==> view' == view && unchanged(store)
    ensures store.budgets == old(store.budgets) && store.passengers == old(store.passengers)
  {
    view' := view;
    if Given(view.requestToDelete) {
      var remaining := Without(view.requests, RequestId, view.requestToDelete.value);
      store.requests := Items(remaining);
      view' := view.(requests := remaining, dialogOpen := false, requestToDelete := None);
    } else if Given(view.reservationToDelete) {
      var remaining := Without(view.reservations, ReservationId, view.reservationToDelete.value);
      store.reservations := Items(remaining);
      view' := view.(reservations := remaining, dialogOpen := false, reservationToDelete := None);
    }
  }
}
