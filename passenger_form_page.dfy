/**
  The passenger page of one reservation: searching the passenger directory,
  attaching a directory entry to the reservation's roster, and editing or
  removing roster entries. The page keeps the roster (`roster`) and the
  reservation it shows as its own state; storage is changed through the
  `reservations` and `passengers` keys.
*/
module PassengerFormPage {
  import opened Common
  import opened Entities
  import opened Storage

  /** Case-insensitive substring match of the query on document number, first name or last name. */
  predicate Matches(p: Passenger, query: string) {
    var q := Lower(query);
    Includes(Lower(p.documentNumber), q) || Includes(Lower(p.firstName), q) || Includes(Lower(p.lastName), q)
  }

  /** The directory entries that match, in directory order. */
  function Search(directory: seq<Passenger>, query: string): (r: seq<Passenger>)
    ensures |r| <= |directory|
    ensures forall i :: 0 <= i < |r| ==> r[i] in directory && Matches(r[i], query)
    ensures forall i :: 0 <= i < |directory| && Matches(directory[i], query) ==> directory[i] in r
  {
    if directory == [] then []
    else if Matches(directory[0], query) then [directory[0]] + Search(directory[1..], query)
    else Search(directory[1..], query)
  }

  /** Searching two runs of the directory is searching each, so the results keep directory order. */
  lemma {:induction false} SearchConcat(a: seq<Passenger>, b: seq<Passenger>, query: string)
    ensures Search(a + b, query) == Search(a, query) + Search(b, query)
  {
    if a == [] {
      assert a + b == b;
    } else {
      assert (a + b)[1..] == a[1..] + b;
      SearchConcat(a[1..], b, query);
    }
  }

  /** The empty query matches every entry, so the search returns the whole directory. */
  lemma {:induction false} SearchEmptyQuery(directory: seq<Passenger>)
    ensures Search(directory, "") == directory
  {
    if directory != [] {
      assert OccursAt(Lower(directory[0].documentNumber), Lower(""), 0);
      SearchEmptyQuery(directory[1..]);
    }
  }

  /**
    The search button: the results and whether the dialog opens. An absent
    key gives no results and opens the dialog; a stored text that does not
    parse or is not an array is caught, giving no results and leaving the
    dialog as it was.
  */
  function ButtonSearch(passengers: Slot<Passenger>, query: string): (r: (seq<Passenger>, bool))
    ensures passengers.Absent? ==> r == ([], true)
    ensures passengers.Items? ==> r == (Search(passengers.items, query), true)
    ensures (passengers.Unparsable? || passengers.NotArray?) ==> r == ([], false)
  {
    match passengers
    case Absent => ([], true)
    case Items(xs) => (Search(xs, query), true)
    case _ => ([], false)
  }

  /**
    The search-as-you-type results; None when the stored text does not
    parse or is not an array, which throws and leaves the results as they
    were.
  */
  function LiveSearch(passengers: Slot<Passenger>, query: string): (r: Option<seq<Passenger>>)
    ensures query == [] || passengers.Absent? ==> r == Some([])
    ensures query != [] && passengers.Items? ==> r == Some(Search(passengers.items, query))
    ensures query != [] && (passengers.Unparsable? || passengers.NotArray?) ==> r.None?
  {
    if query == [] then Some([])
    else match passengers
      case Absent => Some([])
      case Items(xs) => Some(Search(xs, query))
      case _ => None
  }

  /** Typing an empty query clears the results, while the button with an empty query lists the whole directory. */
  lemma EmptyQueryPaths(directory: seq<Passenger>)
    ensures LiveSearch(Items(directory), "") == Some([])
    ensures ButtonSearch(Items(directory), "") == (directory, true)
  {
    SearchEmptyQuery(directory);
  }

  /** Every stored reservation with id `reservationId` gets `roster` as its passengers; all else is kept. */
  function WithRoster(stored: seq<Reservation>, reservationId: string, roster: seq<Passenger>): (r: seq<Reservation>)
    ensures |r| == |stored|
    ensures forall i :: 0 <= i < |stored| ==> r[i].id == stored[i].id
    ensures forall i :: 0 <= i < |stored| && stored[i].id == reservationId ==>
              r[i] == stored[i].(passengers := roster)
    ensures forall i :: 0 <= i < |stored| && stored[i].id != reservationId ==> r[i] == stored[i]
  {
    if stored == [] then []
    else
      [if stored[0].id == reservationId then stored[0].(passengers := roster) else stored[0]]
      + WithRoster(stored[1..], reservationId, roster)
  }

  /** After the write-back, looking the reservation up again finds it with the new roster. */
  lemma {:induction false} WithRosterFind(stored: seq<Reservation>, reservationId: string, roster: seq<Passenger>)
    requires HasId(stored, ReservationId, reservationId)
    ensures Find(WithRoster(stored, reservationId, roster), ReservationId, reservationId).Some?
    ensures Find(WithRoster(stored, reservationId, roster), ReservationId, reservationId).value.passengers == roster
    ensures Find(WithRoster(stored, reservationId, roster), ReservationId, reservationId).value.id == reservationId
  {
    var r := WithRoster(stored, reservationId, roster);
    var i :| 0 <= i < |stored| && ReservationId(stored[i]) == reservationId;
    assert ReservationId(r[i]) == reservationId;
    var found := Find(r, ReservationId, reservationId);
    var j :| 0 <= j < |r| && r[j] == found.value && ReservationId(r[j]) == reservationId
             && forall k :: 0 <= k < j ==> ReservationId(r[k]) != reservationId;
    assert r[j].id == stored[j].id;
    assert r[j] == stored[j].(passengers := roster);
  }

  /**
    Attach directory entry `p` to the reservation. Nothing happens with no
    reservation loaded or when the roster already holds its id. Otherwise
    the page's roster gets `p` appended first; then, when the key holds a
    list, every stored reservation with id `reservationId` takes the new
    roster and the page shows the first of them. A stored text that does
    not parse or is not an array is caught after the roster was updated.
  */
  method AttachPassenger(store: Store, reservationId: string, reservation: Option<Reservation>,
                         roster: seq<Passenger>, p: Passenger)
    returns (roster': seq<Passenger>, shown: Option<Reservation>)
    modifies store
    ensures store.requests == old(store.requests) && store.budgets == old(store.budgets)
    ensures store.passengers == old(store.passengers)
    ensures reservation.None? || HasId(roster, PassengerId, p.id) ==>
              roster' == roster && shown == reservation && store.reservations == old(store.reservations)
    ensures reservation.Some? && !HasId(roster, PassengerId, p.id) ==> roster' == roster + [p]
    ensures reservation.Some? && !HasId(roster, PassengerId, p.id) && old(store.reservations).Items? ==>
              var written := WithRoster(old(store.reservations).items, reservationId, roster');
              store.reservations == Items(written) &&
              shown == (if HasId(written, ReservationId, reservationId)
                        then Find(written, ReservationId, reservationId) else reservation)
    ensures reservation.Some? && !HasId(roster, PassengerId, p.id) && old(store.reservations).Items? &&
            HasId(old(store.reservations).items, ReservationId, reservationId) ==>
              shown.Some? && shown.value.id == reservationId && shown.value.passengers == roster'
    ensures !old(store.reservations).Items? ==> shown == reservation && store.reservations == old(store.reservations)
    ensures UniqueIds(roster, PassengerId) ==> UniqueIds(roster', PassengerId)
  {
    if reservation.None? {
      return roster, reservation;
    }
    var attached := AppendNew(roster, PassengerId, p);
    if attached.None? {
      return roster, reservation;
    }
    roster' := attached.value;
    shown := reservation;
    if store.reservations.Items? {
      var written := WithRoster(store.reservations.items, reservationId, roster');
      if HasId(store.reservations.items, ReservationId, reservationId) {
        WithRosterFind(store.reservations.items, reservationId, roster');
      }
      store.reservations := Items(written);
      var found := Find(written, ReservationId, reservationId);
      if found.Some? {
        shown := found;
      }
    }
  }

  /**
    Write the roster back to the stored reservation with id `reservationId`:
    every such record becomes the page's reservation with this roster. With
    no reservation loaded, or an absent key, nothing is written; a stored
    text that does not parse or is not an array is caught. The page's
    reservation itself is not updated.
  */
  method UpdateReservation(store: Store, reservationId: string, reservation: Option<Reservation>,
                           roster: seq<Passenger>)
    modifies store
    ensures store.requests == old(store.requests) && store.budgets == old(store.budgets)
    ensures store.passengers == old(store.passengers)
    ensures reservation.None? ==> store.reservations == old(store.reservations)
    ensures reservation.Some? ==>
              var stored := ReplaceStored(old(store.reservations), ReservationId, reservationId,
                                          reservation.value.(passengers := roster));
              store.reservations == (if stored.Some? then stored.value else old(store.reservations))
  {
    if reservation.None? {
      return;
    }
    var stored := ReplaceStored(store.reservations, ReservationId, reservationId,
                                reservation.value.(passengers := roster));
    if stored.Some? {
      store.reservations := stored.value;
    }
  }

  /**
    Save the edited passenger `edited`: in the directory (when the key holds
    a list) and in the roster, every entry with its id is replaced; then the
    roster is written back to the reservation. A directory text that does
    not parse or is not an array throws first, and nothing changes.
  */
  method UpdatePassenger(store: Store, reservationId: string, reservation: Option<Reservation>,
                         roster: seq<Passenger>, edited: Option<Passenger>)
    returns (roster': seq<Passenger>)
    modifies store
    ensures store.requests == old(store.requests) && store.budgets == old(store.budgets)
    ensures edited.None? || ReplaceStored(old(store.passengers), PassengerId, edited.value.id, edited.value).None? ==>
              roster' == roster && unchanged(store)
    ensures edited.Some? && ReplaceStored(old(store.passengers), PassengerId, edited.value.id, edited.value).Some? ==>
              store.passengers == ReplaceStored(old(store.passengers), PassengerId, edited.value.id, edited.value).value &&
              roster' == Replace(roster, PassengerId, edited.value.id, edited.value) &&
              (reservation.None? ==> store.reservations == old(store.reservations)) &&
              (reservation.Some? ==>
                var stored := ReplaceStored(old(store.reservations), ReservationId, reservationId,
                                            reservation.value.(passengers := roster'));
                store.reservations == (if stored.Some? then stored.value else old(store.reservations)))
    ensures |roster'| == |roster|
  {
    if edited.None? {
      return roster;
    }
    var directory := ReplaceStored(store.passengers, PassengerId, edited.value.id, edited.value);
    if directory.None? {
      return roster;
    }
    store.passengers := directory.value;
    roster' := Replace(roster, PassengerId, edited.value.id, edited.value);
    UpdateReservation(store, reservationId, reservation, roster');
  }

  /** Remove every roster entry with id `passengerId` and write the roster back; the directory is untouched. */
  method DeletePassenger(store: Store, reservationId: string, reservation: Option<Reservation>,
                         roster: seq<Passenger>, passengerId: string)
    returns (roster': seq<Passenger>)
    modifies store
    ensures roster' == Without(roster, PassengerId, passengerId)
    ensures store.requests == old(store.requests) && store.budgets == old(store.budgets)
    ensures store.passengers == old(store.passengers)
    ensures reservation.None? ==> store.reservations == old(store.reservations)
    ensures reservation.Some? ==>
              var stored := ReplaceStored(old(store.reservations), ReservationId, reservationId,
                                          reservation.value.(passengers := roster'));
              store.reservations == (if stored.Some? then stored.value else old(store.reservations))
  {
    roster' := Without(roster, PassengerId, passengerId);
    UpdateReservation(store, reservationId, reservation, roster');
  }
}
