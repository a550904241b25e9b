/**
  The budget builder: the list of options shown on the budget page and
  the pure transformations its buttons and fields apply to that list, plus
  the totals and the flattened item list that approval copies into a
  reservation.
*/
module Budget {
  import opened Common
  import opened Entities

  // ---------------------------------------------------------------------
  // Options

  /** The option the "add option" button creates: numbered from the current count, with no items. */
  function NewOption(options: seq<BudgetOption>): BudgetOption {
    BudgetOption("option-" + NatToDecimal(|options| + 1), [])
  }

  function AddOption(options: seq<BudgetOption>): (r: seq<BudgetOption>)
    ensures |r| == |options| + 1
    ensures r[..|options|] == options
    ensures r[|options|].items == []
    ensures r[|options|].id == "option-" + NatToDecimal(|options| + 1)
  {
    options + [NewOption(options)]
  }

  function DeleteOption(options: seq<BudgetOption>, optionId: string): (r: seq<BudgetOption>)
    ensures |r| <= |options|
    ensures forall i :: 0 <= i < |r| ==> r[i] in options && r[i].id != optionId
    ensures forall i :: 0 <= i < |options| && options[i].id != optionId ==> options[i] in r
  {
    Without(options, OptionId, optionId)
  }

  /**
    Numbering from the count is not stable under deletion: with options
    `option-1` and `option-2`, deleting the first and adding one yields two
    options called `option-2`.
  */
  lemma AddAfterDeleteRepeatsId()
    ensures var opts := [BudgetOption("option-1", []), BudgetOption("option-2", [])];
            var r := AddOption(DeleteOption(opts, "option-1"));
            |r| == 2 && r[0].id == r[1].id == "option-2" && !UniqueIds(r, OptionId)
  {
    var opts := [BudgetOption("option-1", []), BudgetOption("option-2", [])];
    assert Without(opts[1..], OptionId, "option-1") == [opts[1]];
    assert DeleteOption(opts, "option-1") == [opts[1]];
    assert NatToDecimal(2) == "2";
  }

  /** `options.map(o => o.id === optionId ? f(o) : o)` */
  function UpdateMatching(options: seq<BudgetOption>, optionId: string,
                          f: BudgetOption -> BudgetOption): (r: seq<BudgetOption>)
    ensures |r| == |options|
    ensures forall i :: 0 <= i < |options| ==>
              r[i] == if options[i].id == optionId then f(options[i]) else options[i]
  {
    if options == [] then []
    else [if options[0].id == optionId then f(options[0]) else options[0]]
         + UpdateMatching(options[1..], optionId, f)
  }

  // ---------------------------------------------------------------------
  // Items

  /** The blank line the "add item" button appends: all zero, in pesos, no service type. */
  function ZeroItem(): BudgetItem {
    BudgetItem("", "", None, "", 0, ARS, 0, ARS, 0, ARS, false, "")
  }

  function AddItem(options: seq<BudgetOption>, optionId: string): (r: seq<BudgetOption>)
    ensures |r| == |options|
    ensures forall i :: 0 <= i < |options| ==> r[i].id == options[i].id
    ensures forall i :: 0 <= i < |options| && options[i].id == optionId ==>
              r[i].items == options[i].items + [ZeroItem()]
    ensures forall i :: 0 <= i < |options| && options[i].id != optionId ==> r[i] == options[i]
  {
    UpdateMatching(options, optionId, (o: BudgetOption) => o.(items := o.items + [ZeroItem()]))
  }

  /** One field edit on an item, as the form issues it. */
  datatype ItemEdit =
    | SetDate(date: string)
    | SetEndDate(endDate: string)
    | SetServiceType(serviceType: Option<ServiceKind>)
    | SetDetails(details: string)
    | SetReservationCode(code: string)
    | SetRate(rate: int)
    | SetRateCurrency(rateCurrency: Currency)
    | SetExpenses(expenses: int)
    | SetExpensesCurrency(expensesCurrency: Currency)
    | SetFinalPrice(finalPrice: int)
    | SetFinalPriceCurrency(finalPriceCurrency: Currency)
    | SetShowEndDate(show: bool)

  /**
    `{...item, [field]: value, finalPrice: ...}`: the field takes the value;
    a rate or expenses edit sets the final price to the new value plus the
    other addend, and every other edit keeps the old final price, so an edit
    of `finalPrice` itself is overwritten by that later key and has no effect.
  */
  function ApplyEdit(item: BudgetItem, edit: ItemEdit): (r: BudgetItem)
    ensures edit.SetRate? ==> r == item.(rate := edit.rate, finalPrice := edit.rate + item.expenses)
    ensures edit.SetExpenses? ==> r == item.(expenses := edit.expenses, finalPrice := edit.expenses + item.rate)
    ensures !edit.SetRate? && !edit.SetExpenses? ==>
              r.finalPrice == item.finalPrice && r.rate == item.rate && r.expenses == item.expenses
    ensures edit.SetFinalPrice? ==> r == item
    ensures edit.SetDate? ==> r == item.(date := edit.date)
    ensures edit.SetEndDate? ==> r == item.(endDate := edit.endDate)
    ensures edit.SetServiceType? ==> r == item.(serviceType := edit.serviceType)
    ensures edit.SetDetails? ==> r == item.(details := edit.details)
    ensures edit.SetReservationCode? ==> r == item.(reservationCode := edit.code)
    ensures edit.SetRateCurrency? ==> r == item.(rateCurrency := edit.rateCurrency)
    ensures edit.SetExpensesCurrency? ==> r == item.(expensesCurrency := edit.expensesCurrency)
    ensures edit.SetFinalPriceCurrency? ==> r == item.(finalPriceCurrency := edit.finalPriceCurrency)
    ensures edit.SetShowEndDate? ==> r == item.(showEndDate := edit.show)
  {
    var edited := match edit
      case SetDate(v) => item.(date := v)
      case SetEndDate(v) => item.(endDate := v)
      case SetServiceType(v) => item.(serviceType := v)
      case SetDetails(v) => item.(details := v)
      case SetReservationCode(v) => item.(reservationCode := v)
      case SetRate(v) => item.(rate := v)
      case SetRateCurrency(v) => item.(rateCurrency := v)
      case SetExpenses(v) => item.(expenses := v)
      case SetExpensesCurrency(v) => item.(expensesCurrency := v)
      case SetFinalPrice(v) => item.(finalPrice := v)
      case SetFinalPriceCurrency(v) => item.(finalPriceCurrency := v)
      case SetShowEndDate(v) => item.(showEndDate := v);
    edited.(finalPrice :=
      if edit.SetRate? then edit.rate + item.expenses
      else if edit.SetExpenses? then edit.expenses + item.rate
      else item.finalPrice)
  }

  /** The final price equals rate plus expenses. */
  predicate PriceConsistent(item: BudgetItem) {
    item.finalPrice == item.rate + item.expenses
  }

  /**
    A rate or expenses edit makes the final price consistent whatever it was
    before, and no other edit breaks consistency.
  */
  lemma EditKeepsPriceConsistent(item: BudgetItem, edit: ItemEdit)
    requires PriceConsistent(item) || edit.SetRate? || edit.SetExpenses?
    ensures PriceConsistent(ApplyEdit(item, edit))
  {
  }

  /** Rate 100 over expenses 20 prices the item at 120; expenses 50 then make it 150. */
  lemma PairwiseRecomputation(item: BudgetItem)
    requires item.expenses == 20
    ensures ApplyEdit(item, SetRate(100)).finalPrice == 120
    ensures ApplyEdit(ApplyEdit(item, SetRate(100)), SetExpenses(50)).finalPrice == 150
  {
  }

  /** `items.map((item, index) => index === k ? f(item) : item)` */
  function MapAt(items: seq<BudgetItem>, k: int, f: BudgetItem -> BudgetItem): (r: seq<BudgetItem>)
    ensures |r| == |items|
    ensures forall i :: 0 <= i < |items| ==> r[i] == if i == k then f(items[i]) else items[i]
    decreases |items|
  {
    if items == [] then []
    else [if k == 0 then f(items[0]) else items[0]] + MapAt(items[1..], k - 1, f)
  }

  function ItemChange(options: seq<BudgetOption>, optionId: string, itemIndex: int, edit: ItemEdit): (r: seq<BudgetOption>)
    ensures |r| == |options|
    ensures forall i :: 0 <= i < |options| ==> r[i].id == options[i].id
    ensures forall i :: 0 <= i < |options| && options[i].id != optionId ==> r[i] == options[i]
    ensures forall i :: 0 <= i < |options| && options[i].id == optionId ==>
              |r[i].items| == |options[i].items| &&
              forall j :: 0 <= j < |options[i].items| ==>
                r[i].items[j] == if j == itemIndex then ApplyEdit(options[i].items[j], edit)
                                 else options[i].items[j]
  {
    UpdateMatching(options, optionId, (o: BudgetOption) => o.(items := MapAt(o.items, itemIndex, (it: BudgetItem) => ApplyEdit(it, edit))))
  }

  /** `items.filter((_, index) => index !== k)`, walking the list with a shifted index. */
  function RemoveAt(items: seq<BudgetItem>, k: int): (r: seq<BudgetItem>)
    ensures 0 <= k < |items| ==> r == items[..k] + items[k + 1..]
    ensures !(0 <= k < |items|) ==> r == items
    decreases |items|
  {
    if items == [] then []
    else (if k == 0 then [] else [items[0]]) + RemoveAt(items[1..], k - 1)
  }

  function DeleteItem(options: seq<BudgetOption>, optionId: string, itemIndex: int): (r: seq<BudgetOption>)
    ensures |r| == |options|
    ensures forall i :: 0 <= i < |options| ==> r[i].id == options[i].id
    ensures forall i :: 0 <= i < |options| && options[i].id != optionId ==> r[i] == options[i]
    ensures forall i :: 0 <= i < |options| && options[i].id == optionId ==>
              r[i].items == if 0 <= itemIndex < |options[i].items|
                            then options[i].items[..itemIndex] + options[i].items[itemIndex + 1..]
                            else options[i].items
  {
    UpdateMatching(options, optionId, (o: BudgetOption) => o.(items := RemoveAt(o.items, itemIndex)))
  }

  function ToggleEndDate(options: seq<BudgetOption>, optionId: string, itemIndex: int): (r: seq<BudgetOption>)
    ensures |r| == |options|
    ensures forall i :: 0 <= i < |options| ==> r[i].id == options[i].id
    ensures forall i :: 0 <= i < |options| && options[i].id != optionId ==> r[i] == options[i]
    ensures forall i :: 0 <= i < |options| && options[i].id == optionId ==>
              |r[i].items| == |options[i].items| &&
              forall j :: 0 <= j < |options[i].items| ==>
                r[i].items[j] == if j == itemIndex then options[i].items[j].(showEndDate := !options[i].items[j].showEndDate)
                                 else options[i].items[j]
  {
    UpdateMatching(options, optionId,
      (o: BudgetOption) => o.(items := MapAt(o.items, itemIndex, (it: BudgetItem) => it.(showEndDate := !it.showEndDate))))
  }

  /** Toggling the same item twice restores the options exactly. */
  lemma ToggleTwice(options: seq<BudgetOption>, optionId: string, itemIndex: int)
    ensures ToggleEndDate(ToggleEndDate(options, optionId, itemIndex), optionId, itemIndex) == options
  {
    var once := ToggleEndDate(options, optionId, itemIndex);
    var twice := ToggleEndDate(once, optionId, itemIndex);
    forall i | 0 <= i < |options| ensures twice[i] == options[i] {
      if options[i].id == optionId {
        var its := options[i].items;
        assert once[i].items == MapAt(its, itemIndex, (it: BudgetItem) => it.(showEndDate := !it.showEndDate));
        assert twice[i].items == MapAt(once[i].items, itemIndex, (it: BudgetItem) => it.(showEndDate := !it.showEndDate));
        assert twice[i].items == its;
      }
    }
  }

  // ---------------------------------------------------------------------
  // Totals and the flattened item list

  /** `items.reduce((t, item) => t + item.finalPrice, 0)` */
  function ItemsTotal(items: seq<BudgetItem>): int {
    if items == [] then 0 else items[0].finalPrice + ItemsTotal(items[1..])
  }

  /** Sum of the final prices of every item of every option, currencies ignored. */
  function TotalAmount(options: seq<BudgetOption>): int {
    if options == [] then 0 else ItemsTotal(options[0].items) + TotalAmount(options[1..])
  }

  /** Every item of every option, option by option, in item order. */
  function AllItems(options: seq<BudgetOption>): seq<BudgetItem> {
    if options == [] then [] else options[0].items + AllItems(options[1..])
  }

  /** An item as approval copies it: no service type becomes `otro`. */
  function ToCode(item: BudgetItem): (c: ReservationCode)
    ensures c.serviceType == if item.serviceType.Some? then ServiceName(item.serviceType.value) else "otro"
    ensures c.code == item.reservationCode && c.finalPrice == item.finalPrice
    ensures c.rate == item.rate && c.expenses == item.expenses && c.details == item.details
    ensures c.date == item.date && c.endDate == item.endDate
    ensures c.rateCurrency == item.rateCurrency && c.expensesCurrency == item.expensesCurrency
    ensures c.finalPriceCurrency == item.finalPriceCurrency
  {
    ReservationCode(
      if item.serviceType.Some? then ServiceName(item.serviceType.value) else "otro",
      item.reservationCode,
      item.date, item.endDate, item.details,
      item.rate, item.rateCurrency,
      item.expenses, item.expensesCurrency,
      item.finalPrice, item.finalPriceCurrency)
  }

  function ItemCodes(items: seq<BudgetItem>): (r: seq<ReservationCode>)
    ensures |r| == |items|
    ensures forall j :: 0 <= j < |items| ==> r[j] == ToCode(items[j])
  {
    if items == [] then [] else [ToCode(items[0])] + ItemCodes(items[1..])
  }

  /** `options.flatMap(o => o.items.map(toCode))` */
  function Codes(options: seq<BudgetOption>): (r: seq<ReservationCode>)
    ensures |r| == |AllItems(options)|
    ensures forall k :: 0 <= k < |r| ==> r[k] == ToCode(AllItems(options)[k])
  {
    if options == [] then []
    else
      var head := ItemCodes(options[0].items);
      var rest := Codes(options[1..]);
      assert AllItems(options) == options[0].items + AllItems(options[1..]);
      head + rest
  }

  function CodesTotal(codes: seq<ReservationCode>): int {
    if codes == [] then 0 else codes[0].finalPrice + CodesTotal(codes[1..])
  }

  lemma {:induction false} CodesTotalConcat(a: seq<ReservationCode>, b: seq<ReservationCode>)
    ensures CodesTotal(a + b) == CodesTotal(a) + CodesTotal(b)
  {
    if a == [] {
      assert a + b == b;
    } else {
      assert (a + b)[1..] == a[1..] + b;
      CodesTotalConcat(a[1..], b);
    }
  }

  lemma {:induction false} ItemCodesTotal(items: seq<BudgetItem>)
    ensures CodesTotal(ItemCodes(items)) == ItemsTotal(items)
  {
    if items != [] {
      ItemCodesTotal(items[1..]);
      assert ItemCodes(items)[1..] == ItemCodes(items[1..]);
    }
  }

  /** The total over all options equals the sum over the flattened item copies. */
  lemma {:induction false} TotalIsSumOfCodes(options: seq<BudgetOption>)
    ensures TotalAmount(options) == CodesTotal(Codes(options))
  {
    if options != [] {
      TotalIsSumOfCodes(options[1..]);
      ItemCodesTotal(options[0].items);
      CodesTotalConcat(ItemCodes(options[0].items), Codes(options[1..]));
    }
  }

  lemma {:induction false} ItemsTotalAppend(items: seq<BudgetItem>, x: BudgetItem)
    ensures ItemsTotal(items + [x]) == ItemsTotal(items) + x.finalPrice
  {
    if items != [] {
      assert (items + [x])[1..] == items[1..] + [x];
      ItemsTotalAppend(items[1..], x);
    }
  }

  /** Adding a blank item never changes the total. */
  lemma {:induction false} AddItemKeepsTotal(options: seq<BudgetOption>, optionId: string)
    ensures TotalAmount(AddItem(options, optionId)) == TotalAmount(options)
  {
    if options != [] {
      var r := AddItem(options, optionId);
      assert r[1..] == AddItem(options[1..], optionId);
      AddItemKeepsTotal(options[1..], optionId);
      ItemsTotalAppend(options[0].items, ZeroItem());
    }
  }
}
