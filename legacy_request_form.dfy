/**
  The older variant of the new-request form: the same checks without the
  person responsible, and a request that carries no `responsible` field.
*/
module LegacyRequestForm {
  import opened Common
  import opened Entities
  import opened Storage
  import opened RequestForm

  /**
    Submit the older form: on the first failing shared check nothing is
    written; otherwise the request, without a responsible person, is
    appended to the stored list.
  */
  method LegacySubmit(store: Store, form: TravelForm, now: nat) returns (error: Option<FormError>)
    modifies store
    ensures var r := Submission(old(store.requests), CheckTravel(form), BuildRequest(form, None, now));
            error == r.0 && store.requests == (if r.1.Some? then Items(r.1.value) else old(store.requests))
    ensures store.budgets == old(store.budgets) && store.reservations == old(store.reservations)
    ensures store.passengers == old(store.passengers)
  {
    var r := Submission(store.requests, CheckTravel(form), BuildRequest(form, None, now));
    error := r.0;
    if r.1.Some? {
      store.requests := Items(r.1.value);
    }
  }

  /**
    The two forms agree except on the responsible person: the newer one
    refuses exactly the forms the older one refuses, plus those with no
    responsible person, and otherwise builds the same request with that
    person added.
  */
  lemma FormsAgree(form: TravelForm, responsible: string, now: nat)
    ensures CheckTravel(form).Some? ==> Validate(form, responsible) == CheckTravel(form)
    ensures CheckTravel(form).None? ==> (Validate(form, responsible).None? <==> responsible != [])
    ensures BuildRequest(form, Some(responsible), now) == BuildRequest(form, None, now).(responsible := Some(responsible))
    ensures BuildRequest(form, None, now).responsible.None?
  {
  }
}
