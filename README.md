# BonViApp travel-agency workflow in Dafny

BonViApp is a single-user travel-agency app that runs in the browser. A
trip **request** (dates, number of travellers, nights, the agent
responsible) gets a **budget** made of alternative **options**. Each option
is a list of priced service **items**. Approving the budget turns the
request into a **reservation**. The reservation then collects **passengers**
from a shared passenger directory and a ledger of **payments**. All state
lives in four local-storage keys: `requests`, `budget_<requestId>`,
`reservations` and `passengers`. Every page handler reads and modifies those
keys directly.

This project models those handlers and proves what they guarantee:

- `Storage.Store` is a class with one field per storage key. `requests`,
  `reservations` and `passengers` are `Slot`s, which are absent, unparsable
  text, a parsed value that is not an array, or a list. `budgets` is a map
  keyed by request id.
- Each page is a module. Handlers that write storage are methods over the
  store. They take the page's React state as parameters and return its new
  value.
- The list transformations behind the handlers are functions with
  contracts. They cover filter by id, replace by id, append if new, the
  budget-option edits, the totals, the search and the save filter. Lemmas
  connect these functions to each other.
- An exception stops the handler's code where it is thrown, and writes
  already made stay. Where a handler wraps its work in try/catch, the catch
  only logs and alerts. So the three writes of budget approval are not
  atomic: a failure after the first write leaves that write in place.
- Clocks are parameters: `Date.now()` in milliseconds and the ISO time
  strings.
- `src/main.tsx` decodes the GitHub Pages redirect query. It is modelled as
  a pure string function and proved equal to a one-pass decoder.

The modules are:

- `common.dfy`: id-keyed list operations, ASCII lower-casing, `includes` and
  `parseInt`.
- `entities.dfy`: the stored records.
- `storage.dfy`: the store.
- `budget.dfy`: the budget builder.
- `budget_page.dfy`: load, save and approve.
- `payment_page.dfy`, `passenger_form_page.dfy`, `new_passenger_page.dfy`,
  `passenger_management_page.dfy`, `request_form.dfy`,
  `legacy_request_form.dfy` and `reservas_page.dfy`: one module per page.
- `redirect.dfy`: the redirect decoder.

Two behaviours of the code are worth stating plainly:

- When the stored passenger directory is not an array, the directory page
  loads an empty list but keeps the key. Only text that does not parse
  removes the key.
- Payments are in pesos or dollars only, as in the payment form's type.

## Model

| member | source | states |
|---|---|---|
| Budget.AddOption | src/pages/reservas/BudgetPage.tsx:90-97 | exactly one option is appended, with empty items and id `option-` plus the new count; earlier options are unchanged |
| Budget.AddAfterDeleteRepeatsId | src/pages/reservas/BudgetPage.tsx:90-97 | with `option-1` and `option-2`, deleting `option-1` then adding yields two options `option-2`: ids are not unique |
| Budget.AddItem | src/pages/reservas/BudgetPage.tsx:99-126 | only options with the id get one more item, the all-zero ARS item with no service type and the end date hidden; other options are unchanged |
| Budget.AddItemKeepsTotal | src/pages/reservas/BudgetPage.tsx:99-126 | adding a blank item never changes the all-options total |
| Budget.ApplyEdit | src/pages/reservas/BudgetPage.tsx:136-142 | each edit sets exactly its own field; a rate edit also sets finalPrice to the new rate plus the expenses, an expenses edit to the new expenses plus the rate; any other edit keeps finalPrice, and a direct finalPrice edit changes nothing |
| Budget.EditKeepsPriceConsistent | src/pages/reservas/BudgetPage.tsx:136-142 | after a rate or expenses edit finalPrice equals rate plus expenses, and no other edit breaks that equality |
| Budget.PairwiseRecomputation | src/pages/reservas/BudgetPage.tsx:136-142 | with expenses 20, setting rate 100 gives 120, then setting expenses 50 gives 150 |
| Budget.ItemChange | src/pages/reservas/BudgetPage.tsx:128-149 | only the item at the index in options with the id is edited; lengths, ids and every other item and option are unchanged |
| Budget.RemoveAt | src/pages/reservas/BudgetPage.tsx:157 | the index filter removes exactly the item at an in-range index and keeps the order of the rest; out of range nothing changes |
| Budget.DeleteItem | src/pages/reservas/BudgetPage.tsx:151-162 | in options with the id, the item at the index is removed and the rest keep their order; other options are unchanged |
| Budget.DeleteOption | src/pages/reservas/BudgetPage.tsx:164-169 | the survivors are exactly the options with another id, none renamed |
| Budget.ToggleEndDate | src/pages/reservas/BudgetPage.tsx:171-189 | flips showEndDate of the one indexed item in options with the id; everything else is unchanged |
| Budget.ToggleTwice | src/pages/reservas/BudgetPage.tsx:171-189 | toggling the same item twice restores the options exactly |
| Budget.ToCode | src/pages/reservas/BudgetPage.tsx:229-243 | a copied item keeps its code, dates, details, the three prices and their three currencies; the service name is the item's, or `otro` with no service type |
| Budget.Codes | src/pages/reservas/BudgetPage.tsx:228-244 | one code per item of every option, in option-then-item order |
| Budget.TotalIsSumOfCodes | src/pages/reservas/BudgetPage.tsx:223-244 | the total over all options equals the sum of the final prices of the reservation codes |
| Budget.CodesTotalConcat | src/pages/reservas/BudgetPage.tsx:223-227 | the sum of prices splits over concatenation |
| Budget.ItemCodesTotal | src/pages/reservas/BudgetPage.tsx:223-244 | copying one option's items keeps their price sum |
| Budget.ItemsTotalAppend | src/pages/reservas/BudgetPage.tsx:223-227 | appending an item adds its final price to the option total |
| BudgetPage.LoadBudgetPage | src/pages/reservas/BudgetPage.tsx:63-88 | with an id, the request found is the first stored one with that id (found exactly when one exists), the options are the saved budget's or none, and an unreadable request list aborts the load |
| BudgetPage.NewReservation | src/pages/reservas/BudgetPage.tsx:210-247 | id `res_` plus the request id, status active, no passengers, empty payments, counts copied from the request, totalAmount = sum over all options = sum over its codes, one code per item |
| BudgetPage.ApproveTwoOptions | src/pages/reservas/BudgetPage.tsx:223-244 | two options with one item of 100 each approve to a total of 200 with two codes |
| BudgetPage.ApproveBudget | src/pages/reservas/BudgetPage.tsx:195-268 | without details nothing is written; otherwise the budget is stored with its approval time, the reservation appended and the request removed, each write made only if the reads before it succeeded |
| BudgetPage.SaveBudget | src/pages/reservas/BudgetPage.tsx:285-319 | aborts without a request id or details; otherwise writes only `budget_<id>` with its save time, leaving requests, reservations and passengers unchanged |
| PaymentPage.NewPayment | src/pages/reservas/PaymentFormPage.tsx:150-160 | id `payment_` plus the first clock reading; blanks default to today, amount 0, ARS, efectivo, parcial, cobro, empty description and receipt `REC-` plus the second, separate clock reading |
| PaymentPage.TotalPaid | src/pages/reservas/PaymentFormPage.tsx:226-231 | the sum of cobro amounts; 0 without a reservation or a payment list |
| PaymentPage.Remaining | src/pages/reservas/PaymentFormPage.tsx:233-236 | remaining plus total paid is the reservation's total; 0 without a reservation |
| PaymentPage.CollectedAppend | src/pages/reservas/PaymentFormPage.tsx:228-230 | appending a payment adds its amount if cobro and nothing if pago |
| PaymentPage.CollectedWithout | src/pages/reservas/PaymentFormPage.tsx:184-187 | deleting by id removes exactly the collected amount of the deleted payments |
| PaymentPage.PagoWithIdCollectsNothing | src/pages/reservas/PaymentFormPage.tsx:228-230 | payments that are all pago contribute nothing to the total |
| PaymentPage.WithPayment | src/pages/reservas/PaymentFormPage.tsx:162-165 | the payment list gets the new payment last, a missing list counting as empty; nothing else changes |
| PaymentPage.WithoutPayment | src/pages/reservas/PaymentFormPage.tsx:184-187 | every payment with the id is filtered out; a reservation without a payment list throws |
| PaymentPage.AddPaymentTotals | src/pages/reservas/PaymentFormPage.tsx:147-179 | recording a payment raises total paid and lowers the balance by its collected amount |
| PaymentPage.AddPagoKeepsTotal | src/pages/reservas/PaymentFormPage.tsx:228-230 | recording a pago leaves total paid unchanged |
| PaymentPage.DeletePaymentTotals | src/pages/reservas/PaymentFormPage.tsx:181-200 | deleting lowers total paid by the deleted cobro amounts; deleting only pagos changes nothing |
| PaymentPage.LoadReservation | src/pages/reservas/PaymentFormPage.tsx:100-113 | the reservation shown is the first stored one with the id, found exactly when one exists; unreadable storage throws |
| PaymentPage.AddPayment | src/pages/reservas/PaymentFormPage.tsx:147-179 | no reservation: nothing happens; else only stored records with the id are replaced by the reservation with the payment appended, an absent key is not written, and unreadable storage throws before the page updates |
| PaymentPage.DeletePayment | src/pages/reservas/PaymentFormPage.tsx:181-200 | as AddPayment with the payment filtered out; also nothing happens without a payment list |
| Storage.ReplaceStored | src/pages/reservas/PaymentFormPage.tsx:167-176 | in the stored list only records with the id are replaced and the length is kept; an absent key stays absent; unreadable text throws |
| PassengerFormPage.Search | src/pages/reservas/PassengerFormPage.tsx:163-167 | the results are directory entries whose lower-cased document number, first or last name includes the lower-cased query, and every such entry is among them |
| PassengerFormPage.SearchConcat | src/pages/reservas/PassengerFormPage.tsx:163-167 | searching splits over concatenation, so results keep directory order |
| PassengerFormPage.SearchEmptyQuery | src/pages/reservas/PassengerFormPage.tsx:163-167 | the empty query returns the whole directory |
| PassengerFormPage.ButtonSearch | src/pages/reservas/PassengerFormPage.tsx:158-179 | an absent key gives no results and opens the dialog; a list gives the search and opens it; unreadable text gives no results and the dialog stays as it was |
| PassengerFormPage.LiveSearch | src/pages/reservas/PassengerFormPage.tsx:590-606 | an empty query or absent key gives no results; otherwise the search; unreadable text throws |
| PassengerFormPage.EmptyQueryPaths | src/pages/reservas/PassengerFormPage.tsx:594-605 | typing an empty query clears the results, the button with it lists the whole directory |
| Common.AppendNew | src/pages/reservas/PassengerFormPage.tsx:195-202 | refused exactly when the id is already present; otherwise the element is appended last and unique ids stay unique |
| PassengerFormPage.WithRoster | src/pages/reservas/PassengerFormPage.tsx:211-226 | only stored reservations with the id get the new roster, and no other field of theirs changes; other reservations are unchanged |
| PassengerFormPage.WithRosterFind | src/pages/reservas/PassengerFormPage.tsx:231-235 | after the write-back, looking the reservation up finds it with the new roster |
| PassengerFormPage.AttachPassenger | src/pages/reservas/PassengerFormPage.tsx:181-248 | no reservation or a duplicate id: nothing changes; else the roster grows by the passenger, stays unique, the stored reservation takes it when the key holds a list, and the page shows it |
| PassengerFormPage.UpdateReservation | src/pages/reservas/PassengerFormPage.tsx:285-320 | with a reservation, stored records with the id become the reservation with the roster; otherwise or on unreadable text nothing is written |
| PassengerFormPage.UpdatePassenger | src/pages/reservas/PassengerFormPage.tsx:255-277 | entries with the id are replaced in the directory (if present) and the roster, lengths kept; unreadable directory text throws first and nothing changes |
| PassengerFormPage.DeletePassenger | src/pages/reservas/PassengerFormPage.tsx:279-283 | every roster entry with the id is removed and the roster written back; the directory is untouched |
| NewPassengerPage.DirectoryId | src/pages/reservas/NewPassengerPage.tsx:70 | the id is the document type, `_`, the document number |
| NewPassengerPage.DirectoryIdInjective | src/pages/reservas/NewPassengerPage.tsx:70 | for one document type, different numbers give different ids |
| NewPassengerPage.BuildPassenger | src/pages/reservas/NewPassengerPage.tsx:84-102 | missing optional fields become empty and the visa flag false |
| NewPassengerPage.Create | src/pages/reservas/NewPassengerPage.tsx:62-110 | a missing required field refuses with no write; unreadable text throws; an existing id refuses; otherwise the passenger is appended last (absent key as empty) and unique ids stay unique |
| NewPassengerPage.CreatedIsComplete | src/pages/reservas/NewPassengerPage.tsx:64-70 | a created passenger has non-empty id and required fields, and its id is type `_` number |
| NewPassengerPage.CreateTwiceIsDuplicate | src/pages/reservas/NewPassengerPage.tsx:77-81 | creating again from the same form is refused as a duplicate |
| NewPassengerPage.CreatePassenger | src/pages/reservas/NewPassengerPage.tsx:62-110 | writes the directory exactly as Create says and nothing else |
| PassengerManagementPage.LoadPassengers | src/pages/reservas/PassengerManagementPage.tsx:51-76 | absent and non-array give the empty list with the key kept; unparsable text gives the empty list and removes the key |
| PassengerManagementPage.KeepValid | src/pages/reservas/PassengerManagementPage.tsx:87-90 | keeps, within the input length, only entries with a non-empty id and required fields, and every such entry |
| PassengerManagementPage.KeepValidConcat | src/pages/reservas/PassengerManagementPage.tsx:87-90 | the filter splits over concatenation, so the kept records keep their order and repetitions |
| PassengerManagementPage.KeepValidAllValid | src/pages/reservas/PassengerManagementPage.tsx:87-90 | a list of valid entries is saved unchanged |
| PassengerManagementPage.KeepValidIdempotent | src/pages/reservas/PassengerManagementPage.tsx:87-90 | filtering twice equals filtering once |
| PassengerManagementPage.KeepValidUnique | src/pages/reservas/PassengerManagementPage.tsx:87-90 | the filter keeps unique ids unique |
| PassengerManagementPage.SavePassengers | src/pages/reservas/PassengerManagementPage.tsx:79-109 | the stored directory becomes the valid entries of the list |
| PassengerManagementPage.UpdatePassenger | src/pages/reservas/PassengerManagementPage.tsx:136-154 | refused with no change when a required field is empty; otherwise entries with the id are replaced, length kept, uniqueness kept, and the list saved |
| PassengerManagementPage.UpdateOfValidListDropsNothing | src/pages/reservas/PassengerManagementPage.tsx:136-154 | editing a valid list with a valid entry stores the edited list whole |
| PassengerManagementPage.DeletePassenger | src/pages/reservas/PassengerManagementPage.tsx:156-163 | without confirmation nothing changes; with it every entry with the id is removed and the list saved |
| RequestForm.CheckTravel | src/pages/reservas/NewRequestForm.tsx:137-155 | reports the first failure in the order creation date, range dates, year and month, passengers, each failure exactly when the earlier checks pass and its own field is missing; none exactly when all are present |
| RequestForm.Validate | src/pages/reservas/NewRequestForm.tsx:137-160 | the shared checks first, then a missing responsible; none exactly when all pass |
| RequestForm.TravelDate | src/pages/reservas/NewRequestForm.tsx:166-168 | `start - end` in range mode, `year-month` in month mode, laid out position by position |
| RequestForm.ParseRangeRoundTrip | src/pages/reservas/NewRequestForm.tsx:166-168 | a range whose start has no space is read back from its travel date |
| RequestForm.BuildRequest | src/pages/reservas/NewRequestForm.tsx:163-174 | id is the time in decimal; counts are parseInt with 0 for NaN; responsible recorded |
| RequestForm.DecimalCountsKept | src/pages/reservas/NewRequestForm.tsx:169-172 | counts typed as decimals are stored as their values |
| Common.ParseDecimal | src/pages/reservas/NewRequestForm.tsx:169-172 | parseInt of a natural number's decimal digits gives that number |
| Common.ParseNegativeDecimal | src/pages/reservas/NewRequestForm.tsx:169-172 | parseInt of `-` and decimal digits gives the negated number |
| RequestForm.AppendRequest | src/pages/reservas/NewRequestForm.tsx:176-185 | the request is appended last, an absent key read as empty; unreadable text is caught with no write |
| RequestForm.Submission | src/pages/reservas/NewRequestForm.tsx:133-193 | a failing check is reported with no write; otherwise the list with the request appended is written, or a storage error with no write |
| RequestForm.Submit | src/pages/reservas/NewRequestForm.tsx:133-193 | writes only the request list, exactly as Submission says |
| LegacyRequestForm.LegacySubmit | bonviapp/src/pages/reservas/NewRequestForm.tsx:51-118 | the shared checks only, then the request without responsible appended, absent key as empty |
| LegacyRequestForm.FormsAgree | bonviapp/src/pages/reservas/NewRequestForm.tsx:57-88 | the newer form refuses what the older one refuses plus a missing responsible, and builds the same request with the responsible added |
| ReservasPage.RequestAge | src/pages/reservas/ReservasPage.tsx:356-362 | the age is the least whole number of days covering the absolute difference; none for an invalid date (the older page, bonviapp/src/pages/reservas/ReservasPage.tsx lines 63-69, computes it the same way) |
| ReservasPage.RequestAgeSymmetric | src/pages/reservas/ReservasPage.tsx:356-362 | the age does not depend on which date is later |
| ReservasPage.RequestAgeFirstDay | src/pages/reservas/ReservasPage.tsx:356-362 | the same instant is 0 days old, anything within the last day 1 day |
| ReservasPage.RequestColor | src/pages/reservas/ReservasPage.tsx:364-368 | success exactly up to 3 days, warning exactly above 3 up to 5, error above 5 or for NaN (the same bands as lines 71-75 of the older page) |
| ReservasPage.ColorMonotone | src/pages/reservas/ReservasPage.tsx:364-368 | an older request never gets a fresher colour |
| ReservasPage.WritingBudgetMarksRequest | src/pages/reservas/ReservasPage.tsx:298-301 | writing a budget marks that request, and only it, as having a saved budget |
| ReservasPage.LoadList | src/pages/reservas/ReservasPage.tsx:266-296 | absent key or unparsable text gives the empty list; a parsed value is taken as it is (the older page loads requests the same way, lines 32-49) |
| ReservasPage.DeleteConfirm | src/pages/reservas/ReservasPage.tsx:326-340 | a pending request wins: its id is filtered from the page's requests, which are written, and the dialog closes; else a pending reservation likewise; else nothing |
| Redirect.Redirect | src/main.tsx:8-14 | a rewrite happens exactly when the character at index 1 is `/`; the new location is the path without its last character, the decoded query, the hash |
| Redirect.DecodeQueryIsDirect | src/main.tsx:9-11 | split on `&`, replacing `~and~` and joining with `?` equals the one-pass decoding |
| Redirect.DecodePlain | src/main.tsx:9-11 | a query with neither `&` nor `~and~` decodes to itself |
| Redirect.DecodeSeparatorsOnly | src/main.tsx:9-11 | without `~and~`, each `&` becomes `?` and every other character is kept |
| Redirect.DecodedAmpersands | src/main.tsx:9-11 | the decoded string holds exactly as many `&` as the query holds `~and~`: a replaced `&` never becomes `?` |
| Redirect.Split | src/main.tsx:9 | at least one piece, none containing the separator, and joining the pieces with the separator gives back the string |

## Left out

- Rendering, styling, themes and the menus are not modelled. Navigation, `alert` and `window.confirm` are not modelled either; a confirmation is a boolean parameter.
- Which budget option tab is selected, set by adding an option and cleared by deleting it, is not modelled. It is display state only.
- Printing and its delay are not modelled, and neither is the `Intl` / `toLocaleDateString` formatting. These are browser I/O and locale formatting.
- JSON parsing and the browser's storage are not modelled. A key holds either a typed list, unparsable text or a non-array value. Stored records always have their fields. A record with a missing or non-string field, or a `null` entry, is not represented.
- Spreading a stored JSON string into its characters is not modelled. The legacy and new request forms would append to such a list. The model treats every non-array value as a throw.
- `Date.now()`, `new Date()` and date parsing are parameters. A creation date reaches the age computation as milliseconds, or as None for an invalid date.
- `console` logging is not modelled, and neither is the read-back after a save, which is a diagnostic only.
- `window.history.replaceState` is not modelled; only the computed location is.
- `Common.LowerChar`: `toLowerCase` is modelled for ASCII letters only. Other letters compare unchanged.
- `Common.ParseIntOr0`: does not model JavaScript's loss of precision on very long digit strings or the Unicode whitespace beyond the common set. A `-0` reads as 0, which is what `|| 0` produces.
- Numbers are unbounded integers. Fractional amounts and NaN in sums are not represented; a blank or NaN payment amount becomes 0, as `|| 0` makes it.
- A budget document that does not parse is caught by the budget page's loader and ignored. It is not modelled, because the budgets map holds parsed documents only.
- `PassengerManagementPage.SavePassengers`: the guard against a non-array argument is not modelled, because every caller passes the page's list. The try/catch around a failing `setItem` is not modelled either.
- `ReservasPage.LoadList`: a non-array value is kept as `NonList`. The page's later use of it is not modelled.
- The read-only reservation details page is not part of this model.
