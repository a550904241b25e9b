/**
  Creating a passenger in the directory: the four identifying fields are
  required, the id is built from the document, and an id already in the
  directory is refused.
*/
module NewPassengerPage {
  import opened Common
  import opened Entities
  import opened Storage

  /** The creation form; a field never filled in is None. */
  datatype PassengerForm = PassengerForm(
    documentType: Option<string>,
    documentNumber: Option<string>,
    documentExpiryDate: Option<string>,
    hasVisa: Option<bool>,
    visaNumber: Option<string>,
    firstName: Option<string>,
    lastName: Option<string>,
    birthDate: Option<string>,
    nationality: Option<string>,
    email: Option<string>,
    phone: Option<string>,
    gender: Option<string>,
    address: Option<string>,
    emergencyContact: Option<string>,
    emergencyPhone: Option<string>,
    specialNeeds: Option<string>)

  datatype Outcome = Created(passenger: Passenger) | MissingRequired | Duplicate | StorageError

  /** Document type, document number, first name and last name are all filled in. */
  predicate HasRequired(form: PassengerForm) {
    Given(form.documentType) && Given(form.documentNumber) && Given(form.firstName) && Given(form.lastName)
  }

  /** The directory id of a passenger: document type and number joined by `_`. */
  function DirectoryId(documentType: string, documentNumber: string): (r: string)
    ensures |r| == |documentType| + 1 + |documentNumber|
    ensures r[..|documentType|] == documentType && r[|documentType|] == '_'
    ensures r[|documentType| + 1..] == documentNumber
  {
    documentType + "_" + documentNumber
  }

  /** For one document type, two document numbers get the same id only when they are equal. */
  lemma DirectoryIdInjective(documentType: string, n1: string, n2: string)
    requires DirectoryId(documentType, n1) == DirectoryId(documentType, n2)
    ensures n1 == n2
  {
    assert n1 == DirectoryId(documentType, n1)[|documentType| + 1..];
  }

  /** The passenger built from the form: fields left out become empty and the visa flag false. */
  function BuildPassenger(form: PassengerForm): (p: Passenger)
    ensures p.id == DirectoryId(OrEmpty(form.documentType), OrEmpty(form.documentNumber))
    ensures p.documentType == OrEmpty(form.documentType) && p.documentNumber == OrEmpty(form.documentNumber)
    ensures p.firstName == OrEmpty(form.firstName) && p.lastName == OrEmpty(form.lastName)
    ensures p.hasVisa <==> form.hasVisa == Some(true)
    ensures p.documentExpiryDate == OrEmpty(form.documentExpiryDate) && p.visaNumber == OrEmpty(form.visaNumber)
    ensures p.birthDate == OrEmpty(form.birthDate) && p.nationality == OrEmpty(form.nationality)
    ensures p.email == OrEmpty(form.email) && p.phone == OrEmpty(form.phone) && p.gender == OrEmpty(form.gender)
    ensures p.address == OrEmpty(form.address) && p.emergencyContact == OrEmpty(form.emergencyContact)
    ensures p.emergencyPhone == OrEmpty(form.emergencyPhone) && p.specialNeeds == OrEmpty(form.specialNeeds)
  {
    Passenger(
      DirectoryId(OrEmpty(form.documentType), OrEmpty(form.documentNumber)),
      OrEmpty(form.documentType), OrEmpty(form.documentNumber), OrEmpty(form.documentExpiryDate),
      form.hasVisa == Some(true), OrEmpty(form.visaNumber),
      OrEmpty(form.firstName), OrEmpty(form.lastName), OrEmpty(form.birthDate),
      OrEmpty(form.nationality), OrEmpty(form.email), OrEmpty(form.phone), OrEmpty(form.gender),
      OrEmpty(form.address), OrEmpty(form.emergencyContact), OrEmpty(form.emergencyPhone),
      OrEmpty(form.specialNeeds))
  }

  /**
    The outcome of creating from `form` against the stored directory, and
    the directory to store (None: nothing is written). The required fields
    are checked first; then the directory is read (an absent key as the
    empty list), where unparsable text or a non-array throws.
  */
  function Create(passengers: Slot<Passenger>, form: PassengerForm): (r: (Outcome, Option<seq<Passenger>>))
    ensures !HasRequired(form) ==> r == (MissingRequired, None)
    ensures HasRequired(form) && ListOrEmpty(passengers).None? ==> r == (StorageError, None)
    ensures HasRequired(form) && ListOrEmpty(passengers).Some? ==>
              var directory := ListOrEmpty(passengers).value;
              var p := BuildPassenger(form);
              (HasId(directory, PassengerId, p.id) ==> r == (Duplicate, None)) &&
              (!HasId(directory, PassengerId, p.id) ==> r == (Created(p), Some(directory + [p])))
    ensures r.1.Some? && passengers.Items? && UniqueIds(passengers.items, PassengerId) ==>
              UniqueIds(r.1.value, PassengerId)
    ensures r.0.Created? ==> r.1.Some? && |r.1.value| > 0 && r.1.value[|r.1.value| - 1] == r.0.passenger
  {
    if !HasRequired(form) then (MissingRequired, None)
    else
      var existing := ListOrEmpty(passengers);
      if existing.None? then (StorageError, None)
      else
        var p := BuildPassenger(form);
        var appended := AppendNew(existing.value, PassengerId, p);
        if appended.None? then (Duplicate, None) else (Created(p), appended)
  }

  /** A created passenger's id and required fields are never empty. */
  lemma CreatedIsComplete(passengers: Slot<Passenger>, form: PassengerForm)
    requires Create(passengers, form).0.Created?
    ensures var p := Create(passengers, form).0.passenger;
            p.id != [] && p.documentType != [] && p.documentNumber != [] && p.firstName != [] && p.lastName != []
            && p.id == p.documentType + "_" + p.documentNumber
  {
  }

  /** Creating twice from the same form is refused the second time. */
  lemma CreateTwiceIsDuplicate(passengers: Slot<Passenger>, form: PassengerForm)
    requires Create(passengers, form).0.Created?
    ensures Create(Items(Create(passengers, form).1.value), form).0 == Duplicate
  {
    var directory := Create(passengers, form).1.value;
    assert PassengerId(directory[|directory| - 1]) == BuildPassenger(form).id;
  }

  /** The creation handler: writes the key only when a passenger is created. */
  method CreatePassenger(store: Store, form: PassengerForm) returns (outcome: Outcome)
    modifies store
    ensures outcome == Create(old(store.passengers), form).0
    ensures Create(old(store.passengers), form).1.Some? ==>
              store.passengers == Items(Create(old(store.passengers), form).1.value)
    ensures Create(old(store.passengers), form).1.None? ==> store.passengers == old(store.passengers)
    ensures store.requests == old(store.requests) && store.budgets == old(store.budgets)
    ensures store.reservations == old(store.reservations)
  {
    if !HasRequired(form) {
      return MissingRequired;
    }
    var existing := ListOrEmpty(store.passengers);
    if existing.None? {
      return StorageError;
    }
    var p := BuildPassenger(form);
    if HasId(existing.value, PassengerId, p.id) {
      return Duplicate;
    }
    store.passengers := Items(existing.value + [p]);
    outcome := Created(p);
  }
}
