/**
  The new-request form: a chain of checks that stops at the first missing
  field, the request built from the form, and its append to the stored
  request list.
*/
module RequestForm {
  import opened Common
  import opened Entities
  import opened Storage

  /** The travel period is either a start and end date or a year and month. */
  datatype DateMode = Range | Month

  /** The form's text fields, as typed. */
  datatype TravelForm = TravelForm(
    mode: DateMode,
    startDate: string,
    endDate: string,
    year: string,
    month: string,
    passengers: string,
    nights: string,
    minors: string,
    infants: string,
    creationDate: string)

  /** Why a submission was refused: a missing field, or a stored list that could not be read. */
  datatype FormError = NoCreationDate | NoRange | NoMonth | NoPassengers | NoResponsible | StorageError

  /**
    The checks the request forms share, in the order they are made: the
    creation date, then the dates of the chosen mode, then the number of
    passengers. None when all pass.
  */
  function CheckTravel(form: TravelForm): (r: Option<FormError>)
    ensures r == Some(NoCreationDate) <==> form.creationDate == []
    ensures r == Some(NoRange) <==>
              form.creationDate != [] && form.mode == Range && (form.startDate == [] || form.endDate == [])
    ensures r == Some(NoMonth) <==>
              form.creationDate != [] && form.mode == Month && (form.year == [] || form.month == [])
    ensures r == Some(NoPassengers) <==>
              form.creationDate != [] && form.passengers == [] &&
              (form.mode == Range ==> form.startDate != [] && form.endDate != []) &&
              (form.mode == Month ==> form.year != [] && form.month != [])
    ensures r.None? <==>
              form.creationDate != [] && form.passengers != [] &&
              (form.mode == Range ==> form.startDate != [] && form.endDate != []) &&
              (form.mode == Month ==> form.year != [] && form.month != [])
  {
    if form.creationDate == [] then Some(NoCreationDate)
    else if form.mode == Range && (form.startDate == [] || form.endDate == []) then Some(NoRange)
    else if form.mode == Month && (form.year == [] || form.month == []) then Some(NoMonth)
    else if form.passengers == [] then Some(NoPassengers)
    else None
  }

  /** The checks of this form: the shared ones, then the person responsible. */
  function Validate(form: TravelForm, responsible: string): (r: Option<FormError>)
    ensures CheckTravel(form).Some? ==> r == CheckTravel(form)
    ensures r == Some(NoResponsible) <==> CheckTravel(form).None? && responsible == []
    ensures r.None? <==> CheckTravel(form).None? && responsible != []
  {
    if CheckTravel(form).Some? then CheckTravel(form)
    else if responsible == [] then Some(NoResponsible)
    else None
  }

  /** The travel period as text: `start - end` for a range, `year-month` for a month. */
  function TravelDate(form: TravelForm): (r: string)
    ensures form.mode == Range ==>
              |r| == |form.startDate| + 3 + |form.endDate| && r[..|form.startDate|] == form.startDate
              && r[|form.startDate|..|form.startDate| + 3] == " - " && r[|form.startDate| + 3..] == form.endDate
    ensures form.mode == Month ==>
              |r| == |form.year| + 1 + |form.month| && r[..|form.year|] == form.year
              && r[|form.year|] == '-' && r[|form.year| + 1..] == form.month
  {
    match form.mode
    case Range => form.startDate + " - " + form.endDate
    case Month => form.year + "-" + form.month
  }

  /** Index of the first space in `t`, or `|t|` when there is none. */
  function FirstSpace(t: string): (k: nat)
    ensures k <= |t|
    ensures ' ' !in t[..k]
    ensures k < |t| ==> t[k] == ' '
  {
    if t == [] || t[0] == ' ' then 0 else 1 + FirstSpace(t[1..])
  }

  lemma {:induction false} FirstSpaceAfter(t: string, a: string)
    requires ' ' !in a && |a| < |t| && t[..|a|] == a && t[|a|] == ' '
    ensures FirstSpace(t) == |a|
  {
    if a != [] {
      assert t[0] == a[0];
      assert t[1..][..|a| - 1] == a[1..];
      FirstSpaceAfter(t[1..], a[1..]);
    }
  }

  /**
    The inverse of `TravelDate` for a range: split at the first space and
    skip ` - `. The application never reads a travel date back; this
    function exists only to show that the stored text keeps both dates.
  */
  function ParseRange(t: string): (r: Option<(string, string)>)
    ensures r.Some? ==> r.value.0 + " - " + r.value.1 == t
  {
    var k := FirstSpace(t);
    if k + 3 <= |t| && t[k..k + 3] == " - " then
      assert t == t[..k] + t[k..k + 3] + t[k + 3..];
      Some((t[..k], t[k + 3..]))
    else None
  }

  /** A range whose start date has no space is read back from its travel date. */
  lemma ParseRangeRoundTrip(form: TravelForm)
    requires form.mode == Range && ' ' !in form.startDate
    ensures ParseRange(TravelDate(form)) == Some((form.startDate, form.endDate))
  {
    FirstSpaceAfter(TravelDate(form), form.startDate);
  }

  /**
    The request made from the form at millisecond `now`: its id is the
    timestamp in decimal, the counts are parsed as integers with 0 for
    anything that does not parse.
  */
  function BuildRequest(form: TravelForm, responsible: Option<string>, now: nat): (r: Request)
    ensures r.id == NatToDecimal(now) && r.creationDate == form.creationDate
    ensures r.travelDate == TravelDate(form)
    ensures r.passengers == ParseIntOr0(form.passengers) && r.nights == ParseIntOr0(form.nights)
    ensures r.minors == ParseIntOr0(form.minors) && r.infants == ParseIntOr0(form.infants)
    ensures r.responsible == responsible
  {
    Request(NatToDecimal(now), form.creationDate, TravelDate(form),
            ParseIntOr0(form.passengers), ParseIntOr0(form.nights),
            ParseIntOr0(form.minors), ParseIntOr0(form.infants), responsible)
  }

  /** Counts typed as plain decimals are stored as their values. */
  lemma DecimalCountsKept(form: TravelForm, responsible: Option<string>, now: nat, p: nat, n: nat)
    requires form.passengers == NatToDecimal(p) && form.nights == NatToDecimal(n)
    ensures BuildRequest(form, responsible, now).passengers == p
    ensures BuildRequest(form, responsible, now).nights == n
  {
    ParseDecimal(p);
    ParseDecimal(n);
  }

  /**
    The stored request list after appending `request` (an absent key read as
    empty); None when the stored text does not parse or is not an array,
    which is caught and nothing is written.
  */
  function AppendRequest(requests: Slot<Request>, request: Request): (r: Option<seq<Request>>)
    ensures r.None? <==> requests.Unparsable? || requests.NotArray?
    ensures requests.Absent? ==> r == Some([request])
    ensures requests.Items? ==> r == Some(requests.items + [request])
    ensures r.Some? ==> |r.value| > 0 && r.value[|r.value| - 1] == request
  {
    var existing := ListOrEmpty(requests);
    if existing.None? then None
    else
      assert [] + [request] == [request];
      Some(existing.value + [request])
  }

  /**
    What a submission does, given the first failing check (None: all
    passed) and the request it would store: the error it reports and the
    request list it writes (None: nothing is written).
  */
  function Submission(requests: Slot<Request>, refusal: Option<FormError>, request: Request)
    : (r: (Option<FormError>, Option<seq<Request>>))
    ensures refusal.Some? ==> r == (refusal, None)
    ensures refusal.None? && (requests.Unparsable? || requests.NotArray?) ==> r == (Some(StorageError), None)
    ensures refusal.None? && requests.Absent? ==> r == (None, Some([request]))
    ensures refusal.None? && requests.Items? ==> r == (None, Some(requests.items + [request]))
  {
    if refusal.Some? then (refusal, None)
    else
      var appended := AppendRequest(requests, request);
      if appended.None? then (Some(StorageError), None) else (None, appended)
  }

  /**
    Submit the form: on the first failing check nothing is written;
    otherwise the new request is appended to the stored list.
  */
  method Submit(store: Store, form: TravelForm, responsible: string, now: nat)
    returns (error: Option<FormError>)
    modifies store
    ensures var r := Submission(old(store.requests), Validate(form, responsible),
                                BuildRequest(form, Some(responsible), now));
            error == r.0 && store.requests == (if r.1.Some? then Items(r.1.value) else old(store.requests))
    ensures store.budgets == old(store.budgets) && store.reservations == old(store.reservations)
    ensures store.passengers == old(store.passengers)
  {
    var r := Submission(store.requests, Validate(form, responsible), BuildRequest(form, Some(responsible), now));
    error := r.0;
    if r.1.Some? {
      store.requests := Items(r.1.value);
    }
  }
}
