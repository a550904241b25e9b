/**
  The payment ledger of one reservation: recording and deleting payments,
  and the collected total and remaining balance shown on the page. Amounts
  are added as plain numbers whatever their currency.
*/
module PaymentPage {
  import opened Common
  import opened Entities
  import opened Storage

  /**
    The payment form. A field left blank is None; a blank amount also
    covers an entry that `Number` turns into NaN.
  */
  datatype PaymentForm = PaymentForm(
    date: Option<string>,
    amount: Option<int>,
    currency: Option<PaymentCurrency>,
    paymentMethod: Option<PaymentMethod>,
    paymentType: Option<PaymentType>,
    description: Option<string>,
    receiptNumber: Option<string>,
    kind: Option<PaymentKind>)

  /**
    The payment recorded from the form on day `today`, blanks replaced by
    defaults. The id and the default receipt number read the clock
    separately, at milliseconds `idNow` and `receiptNow`.
  */
  function NewPayment(form: PaymentForm, idNow: nat, receiptNow: nat, today: string): (p: Payment)
    ensures p.id == "payment_" + NatToDecimal(idNow)
    ensures p.date == if Given(form.date) then form.date.value else today
    ensures p.amount == if form.amount.Some? then form.amount.value else 0
    ensures form.currency.None? ==> p.currency == PaymentARS
    ensures form.paymentMethod.None? ==> p.paymentMethod == Efectivo
    ensures form.paymentType.None? ==> p.paymentType == Parcial
    ensures form.kind.None? ==> p.kind == Cobro
    ensures p.description == OrEmpty(form.description)
    ensures p.receiptNumber == if Given(form.receiptNumber) then form.receiptNumber.value
                               else "REC-" + NatToDecimal(receiptNow)
    ensures form.currency.Some? ==> p.currency == form.currency.value
    ensures form.paymentMethod.Some? ==> p.paymentMethod == form.paymentMethod.value
    ensures form.paymentType.Some? ==> p.paymentType == form.paymentType.value
    ensures form.kind.Some? ==> p.kind == form.kind.value
  {
    Payment(
      "payment_" + NatToDecimal(idNow),
      if Given(form.date) then form.date.value else today,
      if form.amount.Some? then form.amount.value else 0,
      if form.currency.Some? then form.currency.value else PaymentARS,
      if form.paymentMethod.Some? then form.paymentMethod.value else Efectivo,
      if form.paymentType.Some? then form.paymentType.value else Parcial,
      OrEmpty(form.description),
      if Given(form.receiptNumber) then form.receiptNumber.value else "REC-" + NatToDecimal(receiptNow),
      if form.kind.Some? then form.kind.value else Cobro)
  }

  /** The amount a payment adds to the collected total: its amount for a `cobro`, nothing for a `pago`. */
  function CollectedAmount(p: Payment): int {
    if p.kind == Cobro then p.amount else 0
  }

  /** Sum of the amounts of the `cobro` payments. */
  function Collected(ps: seq<Payment>): int {
    if ps == [] then 0 else CollectedAmount(ps[0]) + Collected(ps[1..])
  }

  /** Sum of the collected amounts of the payments with id `key`. */
  function CollectedWithId(ps: seq<Payment>, key: string): int {
    if ps == [] then 0
    else (if ps[0].id == key then CollectedAmount(ps[0]) else 0) + CollectedWithId(ps[1..], key)
  }

  /** The page's total paid: 0 with no reservation or no payment list. */
  function TotalPaid(reservation: Option<Reservation>): (r: int)
    ensures reservation.None? || reservation.value.payments.None? ==> r == 0
    ensures reservation.Some? && reservation.value.payments.Some? ==>
              r == Collected(reservation.value.payments.value)
  {
    if reservation.None? || reservation.value.payments.None? then 0
    else Collected(reservation.value.payments.value)
  }

  /** The balance still owed: 0 with no reservation. */
  function Remaining(reservation: Option<Reservation>): (r: int)
    ensures reservation.None? ==> r == 0
    ensures reservation.Some? ==> r + TotalPaid(reservation) == reservation.value.totalAmount
  {
    if reservation.None? then 0 else reservation.value.totalAmount - TotalPaid(reservation)
  }

  lemma {:induction false} CollectedAppend(ps: seq<Payment>, p: Payment)
    ensures Collected(ps + [p]) == Collected(ps) + CollectedAmount(p)
  {
    if ps == [] {
      assert ps + [p] == [p];
      assert [p][1..] == [];
    } else {
      assert (ps + [p])[1..] == ps[1..] + [p];
      CollectedAppend(ps[1..], p);
    }
  }

  /** Deleting by id takes away exactly the collected amount of the deleted payments. */
  lemma {:induction false} CollectedWithout(ps: seq<Payment>, key: string)
    ensures Collected(ps) == Collected(Without(ps, PaymentId, key)) + CollectedWithId(ps, key)
  {
    if ps != [] {
      CollectedWithout(ps[1..], key);
      if ps[0].id != key {
        var rest := Without(ps[1..], PaymentId, key);
        assert ([ps[0]] + rest)[1..] == rest;
      }
    }
  }

  /** Payments with id `key` that are all `pago` contribute nothing. */
  lemma {:induction false} PagoWithIdCollectsNothing(ps: seq<Payment>, key: string)
    requires forall i :: 0 <= i < |ps| && ps[i].id == key ==> ps[i].kind == Pago
    ensures CollectedWithId(ps, key) == 0
  {
    if ps != [] {
      PagoWithIdCollectsNothing(ps[1..], key);
    }
  }

  /** The reservation with one more payment; a missing list counts as empty. */
  function WithPayment(reservation: Reservation, p: Payment): (r: Reservation)
    ensures r.payments.Some?
    ensures r.payments.value == (if reservation.payments.Some? then reservation.payments.value else []) + [p]
    ensures r == reservation.(payments := r.payments)
  {
    reservation.(payments := Some((if reservation.payments.Some? then reservation.payments.value else []) + [p]))
  }

  /** The reservation without the payments whose id is `paymentId`; None when it has no payment list (`filter` on undefined throws). */
  function WithoutPayment(reservation: Reservation, paymentId: string): (r: Option<Reservation>)
    ensures r.Some? <==> reservation.payments.Some?
    ensures r.Some? ==> r.value == reservation.(payments := Some(Without(reservation.payments.value, PaymentId, paymentId)))
  {
    if reservation.payments.None? then None
    else Some(reservation.(payments := Some(Without(reservation.payments.value, PaymentId, paymentId))))
  }

  /** Recording a payment raises the total paid by its collected amount, and lowers the balance by as much. */
  lemma AddPaymentTotals(reservation: Reservation, p: Payment)
    ensures TotalPaid(Some(WithPayment(reservation, p))) == TotalPaid(Some(reservation)) + CollectedAmount(p)
    ensures Remaining(Some(WithPayment(reservation, p))) == Remaining(Some(reservation)) - CollectedAmount(p)
  {
    CollectedAppend(if reservation.payments.Some? then reservation.payments.value else [], p);
  }

  /** Recording a `pago` leaves the total paid unchanged. */
  lemma AddPagoKeepsTotal(reservation: Reservation, p: Payment)
    requires p.kind == Pago
    ensures TotalPaid(Some(WithPayment(reservation, p))) == TotalPaid(Some(reservation))
  {
    AddPaymentTotals(reservation, p);
  }

  /** Deleting lowers the total paid by the collected amount of the deleted payments; deleting only `pago`s changes nothing. */
  lemma DeletePaymentTotals(reservation: Reservation, paymentId: string)
    requires reservation.payments.Some?
    ensures TotalPaid(WithoutPayment(reservation, paymentId))
            == TotalPaid(Some(reservation)) - CollectedWithId(reservation.payments.value, paymentId)
    ensures (forall i :: 0 <= i < |reservation.payments.value| && reservation.payments.value[i].id == paymentId
               ==> reservation.payments.value[i].kind == Pago)
            ==> TotalPaid(WithoutPayment(reservation, paymentId)) == TotalPaid(Some(reservation))
  {
    CollectedWithout(reservation.payments.value, paymentId);
    if forall i :: 0 <= i < |reservation.payments.value| && reservation.payments.value[i].id == paymentId
                   ==> reservation.payments.value[i].kind == Pago {
      PagoWithIdCollectsNothing(reservation.payments.value, paymentId);
    }
  }

  /**
    The reservation the page shows for `reservationId`: None when the
    effect throws (the stored text does not parse or is not an array);
    otherwise the stored reservation with that id, if any.
  */
  function LoadReservation(reservations: Slot<Reservation>, reservationId: string): (r: Option<Option<Reservation>>)
    ensures reservationId == [] || reservations.Absent? ==> r == Some(None)
    ensures reservationId != [] && (reservations.Unparsable? || reservations.NotArray?) ==> r.None?
    ensures reservationId != [] && reservations.Items? ==>
              r.Some? && (r.value.Some? <==> HasId(reservations.items, ReservationId, reservationId))
    ensures r.Some? && r.value.Some? ==> r.value.value.id == reservationId && r.value.value in reservations.items
    ensures r.Some? && r.value.Some? ==>
              exists i :: 0 <= i < |reservations.items| && reservations.items[i] == r.value.value
                          && forall j :: 0 <= j < i ==> reservations.items[j].id != reservationId
  {
    if reservationId == [] then Some(None)
    else match reservations
      case Absent => Some(None)
      case Items(xs) => Some(Find(xs, ReservationId, reservationId))
      case _ => None
  }

  /**
    Record a payment. With no reservation loaded nothing happens. Otherwise
    the stored record with id `reservationId` is replaced by the page's
    reservation with the new payment appended (an absent key is not
    written), and the page shows that reservation. A stored text that
    does not parse or is not an array throws before the page is updated.
  */
  method AddPayment(store: Store, reservationId: string, reservation: Option<Reservation>,
                    form: PaymentForm, idNow: nat, receiptNow: nat, today: string)
    returns (shown: Option<Reservation>)
    modifies store
    ensures store.requests == old(store.requests) && store.budgets == old(store.budgets)
    ensures store.passengers == old(store.passengers)
    ensures reservation.None? ==> shown == reservation && store.reservations == old(store.reservations)
    ensures reservation.Some? ==>
              var updated := WithPayment(reservation.value, NewPayment(form, idNow, receiptNow, today));
              var stored := ReplaceStored(old(store.reservations), ReservationId, reservationId, updated);
              (stored.None? ==> shown == reservation && store.reservations == old(store.reservations)) &&
              (stored.Some? ==> shown == Some(updated) && store.reservations == stored.value)
  {
    if reservation.None? {
      return reservation;
    }
    var updated := WithPayment(reservation.value, NewPayment(form, idNow, receiptNow, today));
    var stored := ReplaceStored(store.reservations, ReservationId, reservationId, updated);
    if stored.None? {
      return reservation;
    }
    store.reservations := stored.value;
    shown := Some(updated);
  }

  /**
    Delete every payment with id `paymentId`. With no reservation loaded,
    or one without a payment list, nothing happens; otherwise as for
    recording.
  */
  method DeletePayment(store: Store, reservationId: string, reservation: Option<Reservation>, paymentId: string)
    returns (shown: Option<Reservation>)
    modifies store
    ensures store.requests == old(store.requests) && store.budgets == old(store.budgets)
    ensures store.passengers == old(store.passengers)
    ensures reservation.None? || reservation.value.payments.None? ==>
              shown == reservation && store.reservations == old(store.reservations)
    ensures reservation.Some? && reservation.value.payments.Some? ==>
              var updated := WithoutPayment(reservation.value, paymentId).value;
              var stored := ReplaceStored(old(store.reservations), ReservationId, reservationId, updated);
              (stored.None? ==> shown == reservation && store.reservations == old(store.reservations)) &&
              (stored.Some? ==> shown == Some(updated) && store.reservations == stored.value)
  {
    if reservation.None? {
      return reservation;
    }
    var updated := WithoutPayment(reservation.value, paymentId);
    if updated.None? {
      return reservation;
    }
    var stored := ReplaceStored(store.reservations, ReservationId, reservationId, updated.value);
    if stored.None? {
      return reservation;
    }
    store.reservations := stored.value;
    shown := updated;
  }
}
