/**
  The budget page's storage side: loading the request and any saved budget,
  saving the budget, and approving it, which is the one transition from a
  request to a reservation. Approval performs three separate writes (the
  budget, the reservation list, the request list); an exception part-way
  leaves the earlier writes in place.
*/
module BudgetPage {
  import opened Common
  import opened Entities
  import opened Budget
  import opened Storage

  /**
    What the page loads for `requestId`: the request with that id (if the
    request list is present) and the options of a saved budget (else none).
    None when reading the request list throws, which aborts the load.
  */
  function LoadBudgetPage(requests: Slot<Request>, budgets: map<string, BudgetDoc>, requestId: string)
    : (r: Option<(Option<Request>, seq<BudgetOption>)>)
    ensures requestId == [] ==> r == Some((None, []))
    ensures r.None? <==> requestId != [] && (requests.Unparsable? || requests.NotArray?)
    ensures r.Some? && r.value.0.Some? ==>
              requests.Items? && r.value.0.value in requests.items && r.value.0.value.id == requestId
    ensures r.Some? && r.value.0.Some? ==>
              exists i :: 0 <= i < |requests.items| && requests.items[i] == r.value.0.value
                          && forall j :: 0 <= j < i ==> requests.items[j].id != requestId
    ensures r.Some? && requestId != [] && requests.Items? ==>
              (r.value.0.Some? <==> HasId(requests.items, RequestId, requestId))
    ensures r.Some? && requestId != [] ==>
              r.value.1 == if requestId in budgets then budgets[requestId].budgetOptions else []
  {
    if requestId == [] then Some((None, []))
    else
      var options := if requestId in budgets then budgets[requestId].budgetOptions else [];
      match requests
      case Absent => Some((None, options))
      case Items(xs) =>
        var found := Find(xs, RequestId, requestId);
        Some((found, options))
      case _ => None
  }

  /** The reservation approval creates: booked from the request, priced from every option's items. */
  function NewReservation(requestId: string, details: Request, doc: BudgetDoc, createdAt: string): (r: Reservation)
    ensures r.id == "res_" + requestId && r.requestId == requestId && r.status == "active"
    ensures r.budgetData == doc && r.creationDate == createdAt
    ensures r.passengers == [] && r.payments == Some([])
    ensures r.travelDate == details.travelDate && r.passengerCount == details.passengers
    ensures r.nights == details.nights && r.minors == details.minors && r.infants == details.infants
    ensures r.responsible == details.responsible
    ensures r.totalAmount == TotalAmount(doc.budgetOptions)
    ensures r.totalAmount == CodesTotal(r.reservationCodes)
    ensures |r.reservationCodes| == |AllItems(doc.budgetOptions)|
    ensures forall k :: 0 <= k < |r.reservationCodes| ==>
              r.reservationCodes[k] == ToCode(AllItems(doc.budgetOptions)[k])
  {
    TotalIsSumOfCodes(doc.budgetOptions);
    Reservation(
      "res_" + requestId, requestId, doc, "active", createdAt,
      details.travelDate, [], details.passengers,
      details.nights, details.minors, details.infants, details.responsible,
      TotalAmount(doc.budgetOptions), Codes(doc.budgetOptions), Some([]))
  }

  /**
    Save: aborts when the request id or its details are missing; otherwise
    writes only `budget_<requestId>`, stamped with the save time.
  */
  method SaveBudget(store: Store, requestId: string, details: Option<Request>,
                    options: seq<BudgetOption>, savedAt: string) returns (saved: bool)
    modifies store
    ensures saved <==> requestId != [] && details.Some?
    ensures saved ==>
              store.budgets == old(store.budgets)[requestId := BudgetDoc(requestId, details.value, options, LastModified(savedAt))]
    ensures !saved ==> store.budgets == old(store.budgets)
    ensures store.requests == old(store.requests) && store.reservations == old(store.reservations)
    ensures store.passengers == old(store.passengers)
  {
    if requestId == [] || details.None? {
      return false;
    }
    store.budgets := store.budgets[requestId := BudgetDoc(requestId, details.value, options, LastModified(savedAt))];
    saved := true;
  }

  /**
    Approve: without request details nothing is written. Otherwise the
    budget is stored with its approval time, the new reservation is pushed
    onto the reservation list, and every request with this id is removed;
    `done` is set when all three writes happened. Reading either list can
    throw; the exception is caught and the writes already made remain.
  */
  method ApproveBudget(store: Store, requestId: string, details: Option<Request>,
                       options: seq<BudgetOption>, approvedAt: string, createdAt: string)
    returns (done: bool)
    modifies store
    ensures details.None? ==> !done && unchanged(store)
    ensures details.Some? ==>
              store.budgets == old(store.budgets)[requestId := BudgetDoc(requestId, details.value, options, ApprovalDate(approvedAt))]
    ensures store.passengers == old(store.passengers)
    ensures details.Some? && ListOrEmpty(old(store.reservations)).Some? ==>
              store.reservations == Items(ListOrEmpty(old(store.reservations)).value
                + [NewReservation(requestId, details.value,
                     BudgetDoc(requestId, details.value, options, ApprovalDate(approvedAt)), createdAt)])
    ensures !(details.Some? && ListOrEmpty(old(store.reservations)).Some?) ==>
              store.reservations == old(store.reservations)
    ensures done <==> details.Some? && ListOrEmpty(old(store.reservations)).Some?
                      && ListOrEmpty(old(store.requests)).Some?
    ensures done ==> store.requests == Items(Without(ListOrEmpty(old(store.requests)).value, RequestId, requestId))
    ensures !done ==> store.requests == old(store.requests)
  {
    if details.None? {
      return false;
    }
    var doc := BudgetDoc(requestId, details.value, options, ApprovalDate(approvedAt));
    store.budgets := store.budgets[requestId := doc];

    var existingReservations := ListOrEmpty(store.reservations);
    if existingReservations.None? {
      return false;
    }
    var reservation := NewReservation(requestId, details.value, doc, createdAt);
    store.reservations := Items(existingReservations.value + [reservation]);

    var existingRequests := ListOrEmpty(store.requests);
    if existingRequests.None? {
      return false;
    }
    store.requests := Items(Without(existingRequests.value, RequestId, requestId));
    done := true;
  }

  /** Two options holding one item of final price 100 each approve into a reservation of 200 with two codes. */
  lemma ApproveTwoOptions(details: Request, item: BudgetItem)
    requires item.finalPrice == 100
    ensures var options := [BudgetOption("option-1", [item]), BudgetOption("option-2", [item])];
            var r := NewReservation("1", details, BudgetDoc("1", details, options, ApprovalDate("")), "");
            r.totalAmount == 200 && |r.reservationCodes| == 2
  {
    var o1 := BudgetOption("option-1", [item]);
    var o2 := BudgetOption("option-2", [item]);
    var options := [o1, o2];
    assert [item][1..] == [];
    assert ItemsTotal([item]) == 100;
    assert options[1..] == [o2];
    assert [o2][1..] == [];
    assert TotalAmount([o2]) == 100;
    assert AllItems([o2]) == [item];
    assert AllItems(options) == [item, item];
  }
}
