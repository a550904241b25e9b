/**
  The passenger directory page: loading the directory with its recovery
  rules, saving it through a filter that drops incomplete records, and
  editing or deleting directory entries. The page keeps the listed
  passengers as its own state and saves the whole list after each change.
*/
module PassengerManagementPage {
  import opened Common
  import opened Entities
  import opened Storage

  /**
    Load the directory. An absent key and a value that is not an array
    both give the empty list, the latter leaving the key as it is; text
    that does not parse gives the empty list and the key is removed.
  */
  method LoadPassengers(store: Store) returns (listed: seq<Passenger>)
    modifies store
    ensures old(store.passengers).Items? ==> listed == old(store.passengers).items
    ensures !old(store.passengers).Items? ==> listed == []
    ensures old(store.passengers).Unparsable? ==> store.passengers == Absent
    ensures !old(store.passengers).Unparsable? ==> store.passengers == old(store.passengers)
    ensures store.requests == old(store.requests) && store.budgets == old(store.budgets)
    ensures store.reservations == old(store.reservations)
  {
    match store.passengers {
      case Absent =>
        listed := [];
      case Unparsable =>
        store.passengers := Absent;
        listed := [];
      case NotArray =>
        listed := [];
      case Items(xs) =>
        listed := xs;
    }
  }

  /** The four fields a directory entry cannot be saved or updated without. */
  predicate HasRequired(p: Passenger) {
    p.documentType != [] && p.documentNumber != [] && p.firstName != [] && p.lastName != []
  }

  /** A record the save keeps: a non-empty id and the required fields. */
  predicate ValidForSave(p: Passenger) {
    p.id != [] && HasRequired(p)
  }

  /** The records the save keeps, in their order. */
  function KeepValid(xs: seq<Passenger>): (r: seq<Passenger>)
    ensures |r| <= |xs|
    ensures forall i :: 0 <= i < |r| ==> r[i] in xs && ValidForSave(r[i])
    ensures forall i :: 0 <= i < |xs| && ValidForSave(xs[i]) ==> xs[i] in r
    ensures |xs| == 1 ==> (r == xs <==> ValidForSave(xs[0])) && (r == [] <==> !ValidForSave(xs[0]))
  {
    if xs == [] then []
    else if ValidForSave(xs[0]) then [xs[0]] + KeepValid(xs[1..])
    else KeepValid(xs[1..])
  }

  /**
    The filter works entry by entry: filtering a concatenation is
    concatenating the filtered parts, so the kept records keep their
    order and their repetitions.
  */
  lemma {:induction false} KeepValidConcat(xs: seq<Passenger>, ys: seq<Passenger>)
    ensures KeepValid(xs + ys) == KeepValid(xs) + KeepValid(ys)
  {
    if xs == [] {
      assert xs + ys == ys;
    } else {
      assert (xs + ys)[1..] == xs[1..] + ys;
      KeepValidConcat(xs[1..], ys);
    }
  }

  /** A list of valid records is saved unchanged. */
  lemma {:induction false} KeepValidAllValid(xs: seq<Passenger>)
    requires forall i :: 0 <= i < |xs| ==> ValidForSave(xs[i])
    ensures KeepValid(xs) == xs
  {
    if xs != [] {
      KeepValidAllValid(xs[1..]);
    }
  }

  /** Filtering twice is filtering once. */
  lemma KeepValidIdempotent(xs: seq<Passenger>)
    ensures KeepValid(KeepValid(xs)) == KeepValid(xs)
  {
    KeepValidAllValid(KeepValid(xs));
  }

  /** The filter keeps unique ids unique. */
  lemma {:induction false} KeepValidUnique(xs: seq<Passenger>)
    requires UniqueIds(xs, PassengerId)
    ensures UniqueIds(KeepValid(xs), PassengerId)
  {
    if xs != [] {
      var rest := KeepValid(xs[1..]);
      KeepValidUnique(xs[1..]);
      if ValidForSave(xs[0]) {
        forall j | 0 <= j < |rest| ensures PassengerId(rest[j]) != PassengerId(xs[0]) {
          var k :| 0 <= k < |xs[1..]| && xs[1..][k] == rest[j];
          assert xs[k + 1] == rest[j];
        }
        var r := [xs[0]] + rest;
        forall i, j | 0 <= i < j < |r| ensures PassengerId(r[i]) != PassengerId(r[j]) {
          assert r[j] == rest[j - 1];
          if i > 0 { assert r[i] == rest[i - 1]; }
        }
      }
    }
  }

  /** Save: the valid records of the list, in order, become the stored directory. */
  method SavePassengers(store: Store, listed: seq<Passenger>)
    modifies store
    ensures store.passengers == Items(KeepValid(listed))
    ensures store.requests == old(store.requests) && store.budgets == old(store.budgets)
    ensures store.reservations == old(store.reservations)
  {
    store.passengers := Items(KeepValid(listed));
  }

  /**
    Save an edited entry: refused when nothing is being edited or a
    required field is empty; otherwise every listed entry with its id is
    replaced and the list is saved.
  */
  method UpdatePassenger(store: Store, listed: seq<Passenger>, edited: Option<Passenger>)
    returns (listed': seq<Passenger>)
    modifies store
    ensures edited.None? || !HasRequired(edited.value) ==> listed' == listed && unchanged(store)
    ensures edited.Some? && HasRequired(edited.value) ==>
              listed' == Replace(listed, PassengerId, edited.value.id, edited.value) &&
              store.passengers == Items(KeepValid(listed'))
    ensures |listed'| == |listed|
    ensures UniqueIds(listed, PassengerId) ==> UniqueIds(listed', PassengerId)
    ensures store.requests == old(store.requests) && store.budgets == old(store.budgets)
    ensures store.reservations == old(store.reservations)
  {
    if edited.None? || !HasRequired(edited.value) {
      return listed;
    }
    listed' := Replace(listed, PassengerId, edited.value.id, edited.value);
    ReplaceKeepsIds(listed, PassengerId, edited.value.id, edited.value);
    SavePassengers(store, listed');
  }

  /** Delete after confirmation: every entry with the id leaves the list, which is saved. */
  method DeletePassenger(store: Store, listed: seq<Passenger>, passengerId: string, confirmed: bool)
    returns (listed': seq<Passenger>)
    modifies store
    ensures !confirmed ==> listed' == listed && unchanged(store)
    ensures confirmed ==> listed' == Without(listed, PassengerId, passengerId) &&
                          store.passengers == Items(KeepValid(listed'))
    ensures store.requests == old(store.requests) && store.budgets == old(store.budgets)
    ensures store.reservations == old(store.reservations)
  {
    if !confirmed {
      return listed;
    }
    listed' := Without(listed, PassengerId, passengerId);
    SavePassengers(store, listed');
  }

  /**
    Editing a valid list with a valid entry stores exactly the edited list:
    the save filter drops nothing.
  */
  lemma UpdateOfValidListDropsNothing(listed: seq<Passenger>, edited: Passenger)
    requires forall i :: 0 <= i < |listed| ==> ValidForSave(listed[i])
    requires ValidForSave(edited)
    ensures KeepValid(Replace(listed, PassengerId, edited.id, edited)) == Replace(listed, PassengerId, edited.id, edited)
  {
    KeepValidAllValid(Replace(listed, PassengerId, edited.id, edited));
  }
}
