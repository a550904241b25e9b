/**
  The records the pages keep in local storage: trip requests, budgets made
  of options and priced items, reservations, passengers and payments.
  Amounts are integers added as raw numbers whatever their currency tag.
*/
module Entities {
  import opened Common

  datatype Currency = ARS | USD | EUR

  datatype ServiceKind = Aereo | Hotel | Excursion | Traslado

  function ServiceName(k: ServiceKind): (r: string)
    ensures r != [] && r != "otro"
  {
    match k
    case Aereo => "aereo"
    case Hotel => "hotel"
    case Excursion => "excursion"
    case Traslado => "traslado"
  }

  /**
    A trip request. `responsible` is absent on requests made by the older
    form, which has no such field.
  */
  datatype Request = Request(
    id: string,
    creationDate: string,
    travelDate: string,
    passengers: int,
    nights: int,
    minors: int,
    infants: int,
    responsible: Option<string>)

  /** One priced service line of a budget option; `showEndDate` only drives the form. */
  datatype BudgetItem = BudgetItem(
    date: string,
    endDate: string,
    serviceType: Option<ServiceKind>,
    details: string,
    rate: int,
    rateCurrency: Currency,
    expenses: int,
    expensesCurrency: Currency,
    finalPrice: int,
    finalPriceCurrency: Currency,
    showEndDate: bool,
    reservationCode: string)

  datatype BudgetOption = BudgetOption(id: string, items: seq<BudgetItem>)

  /** A saved budget carries the time of its last save, an approved one its approval time. */
  datatype Stamp = LastModified(at: string) | ApprovalDate(at: string)

  /** The document stored under `budget_<requestId>`. */
  datatype BudgetDoc = BudgetDoc(
    requestId: string,
    requestDetails: Request,
    budgetOptions: seq<BudgetOption>,
    stamp: Stamp)

  /** A budget item as copied into a reservation. */
  datatype ReservationCode = ReservationCode(
    serviceType: string,
    code: string,
    date: string,
    endDate: string,
    details: string,
    rate: int,
    rateCurrency: Currency,
    expenses: int,
    expensesCurrency: Currency,
    finalPrice: int,
    finalPriceCurrency: Currency)

  datatype Passenger = Passenger(
    id: string,
    documentType: string,
    documentNumber: string,
    documentExpiryDate: string,
    hasVisa: bool,
    visaNumber: string,
    firstName: string,
    lastName: string,
    birthDate: string,
    nationality: string,
    email: string,
    phone: string,
    gender: string,
    address: string,
    emergencyContact: string,
    emergencyPhone: string,
    specialNeeds: string)

  /** Payments are taken in pesos or dollars only. */
  datatype PaymentCurrency = PaymentARS | PaymentUSD

  datatype PaymentMethod = Efectivo | Transferencia
  datatype PaymentType = Parcial | Total
  /** `cobro`: money received from the client; `pago`: money paid to a supplier. */
  datatype PaymentKind = Cobro | Pago

  datatype Payment = Payment(
    id: string,
    date: string,
    amount: int,
    currency: PaymentCurrency,
    paymentMethod: PaymentMethod,
    paymentType: PaymentType,
    description: string,
    receiptNumber: string,
    kind: PaymentKind)

  /**
    A confirmed booking. `payments` is absent on records written before
    payments existed; the approval always writes an empty list.
  */
  datatype Reservation = Reservation(
    id: string,
    requestId: string,
    budgetData: BudgetDoc,
    status: string,
    creationDate: string,
    travelDate: string,
    passengers: seq<Passenger>,
    passengerCount: int,
    nights: int,
    minors: int,
    infants: int,
    responsible: Option<string>,
    totalAmount: int,
    reservationCodes: seq<ReservationCode>,
    payments: Option<seq<Payment>>)

  // The `id` field of each record kind, for the id-keyed list operations.
  function RequestId(r: Request): string { r.id }
  function OptionId(o: BudgetOption): string { o.id }
  function ReservationId(r: Reservation): string { r.id }
  function PassengerId(p: Passenger): string { p.id }
  function PaymentId(p: Payment): string { p.id }
}
