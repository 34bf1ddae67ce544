/**
 * The split calculator of the expense screen: the item-quantity selection,
 * the participant selection, the total and per-person share, and the
 * records a successful save dispatches as one expense group.
 */
module Split {
  import opened Types
  import opened Seqs
  import opened Text

  /** Item id to selected quantity. */
  type Quantities = map<string, int>

  /** The name a record gets when its employee cannot be found or has an empty name. */
  const UnknownName: string := "ناشناس"

  /** What joins the item labels of a description. */
  const DescriptionSeparator: string := "، "

  /** The quantity stored for `id`, 0 when there is none (`quantities[id] || 0`). */
  function QuantityOf(q: Quantities, id: string): int {
    if id in q then q[id] else 0
  }

  /** `quantities[id]` used as a condition: an entry is there and it is not 0. */
  predicate IsSelected(q: Quantities, id: string) {
    QuantityOf(q, id) != 0
  }

  /** The selection invariant: every stored quantity is positive. */
  predicate AllPositive(q: Quantities) {
    forall id :: id in q ==> q[id] > 0
  }

  // ---------------------------------------------------------------------------
  // Changing a quantity.
  // ---------------------------------------------------------------------------

  /**
   * The quantities after adding `change` to the entry of `itemId`: the entry
   * stays only while its new quantity is above 0, and no other entry moves.
   */
  function QuantityChanged(q: Quantities, itemId: string, change: int): (r: Quantities)
    ensures var n := QuantityOf(q, itemId) + change;
      && (n > 0 ==> itemId in r && r[itemId] == n)
      && (n <= 0 ==> itemId !in r)
    ensures forall id :: id != itemId ==> (id in r <==> id in q) && QuantityOf(r, id) == QuantityOf(q, id)
    ensures AllPositive(q) ==> AllPositive(r)
  {
    var n := QuantityOf(q, itemId) + change;
    if n > 0 then q[itemId := n] else q - {itemId}
  }

  /** The quantity button handler: copies the map, then stores or deletes one entry. */
  method ChangeQuantity(prev: Quantities, itemId: string, change: int) returns (next: Quantities)
    ensures next == QuantityChanged(prev, itemId, change)
  {
    var newQuantities := prev;
    var currentQuantity := if itemId in newQuantities then newQuantities[itemId] else 0;
    var newQuantity := currentQuantity + change;
    if newQuantity > 0 {
      newQuantities := newQuantities[itemId := newQuantity];
    } else {
      newQuantities := newQuantities - {itemId};
    }
    next := newQuantities;
  }

  // ---------------------------------------------------------------------------
  // Toggling a participant. A `Set` is a sequence without repetitions in
  // insertion order, which is the order `Array.from` produces.
  // ---------------------------------------------------------------------------

  function Except(employeeId: string): string -> bool {
    (id: string) => id != employeeId
  }

  /** The selection with the membership of `employeeId` flipped. */
  function Toggled(selection: seq<string>, employeeId: string): (r: seq<string>)
    ensures forall id :: id in r <==> if id == employeeId then employeeId !in selection else id in selection
    ensures employeeId !in selection ==> r == selection + [employeeId]
    ensures employeeId in selection ==> Subsequence(r, selection)
    ensures Distinct(selection) ==> Distinct(r)
  {
    if employeeId in selection then
      FilterIsSubsequence(selection, Except(employeeId));
      var r := Filter(selection, Except(employeeId));
      if Distinct(selection) then DistinctSubMultiset(selection, r); r else r
    else
      selection + [employeeId]
  }

  /** The participant click handler: copies the set, then deletes or adds one id. */
  method ToggleEmployee(selection: seq<string>, employeeId: string) returns (next: seq<string>)
    ensures next == Toggled(selection, employeeId)
  {
    var newSelection := selection;
    if employeeId in newSelection {
      newSelection := Filter(newSelection, Except(employeeId));
    } else {
      newSelection := newSelection + [employeeId];
    }
    next := newSelection;
  }

  /** Toggling the same id twice gives back the same members. */
  lemma ToggleTwiceSameMembers(selection: seq<string>, employeeId: string)
    ensures forall id :: id in Toggled(Toggled(selection, employeeId), employeeId) <==> id in selection
  {
  }

  /** When the id was not selected, toggling it twice gives back the very same sequence. */
  lemma ToggleTwiceRestoresAbsent(selection: seq<string>, employeeId: string)
    requires employeeId !in selection
    ensures Toggled(Toggled(selection, employeeId), employeeId) == selection
  {
    var once := selection + [employeeId];
    FilterAppend(selection, [employeeId], Except(employeeId));
    FilterKeepsAll(selection, Except(employeeId));
    FilterCons(employeeId, [], Except(employeeId));
    assert Filter(once, Except(employeeId)) == selection;
  }

  /**
   * When the id was selected, toggling it twice moves it to the end, behind
   * the other selected ids, so records built afterwards come out in a
   * different order.
   */
  lemma ToggleTwiceMovesToEnd(selection: seq<string>, employeeId: string)
    requires employeeId in selection
    ensures Toggled(Toggled(selection, employeeId), employeeId) == Filter(selection, Except(employeeId)) + [employeeId]
  {
  }

  // ---------------------------------------------------------------------------
  // Total and per-person share.
  // ---------------------------------------------------------------------------

  /** What one catalog item adds to the total. */
  function Contribution(item: Item, q: Quantities): real {
    if IsSelected(q, item.id) then item.price * QuantityOf(q, item.id) as real else 0.0
  }

  /**
   * The sum over the catalog items that have a selected quantity of price
   * times quantity, added up from the first item on as `reduce` does.
   */
  function TotalCost(items: seq<Item>, q: Quantities): real
    decreases |items|
  {
    if items == [] then 0.0
    else TotalCost(items[..|items| - 1], q) + Contribution(items[|items| - 1], q)
  }

  /** The price of `item` if it has id `id`, else 0. */
  function PriceIfId(item: Item, id: string): real {
    if item.id == id then item.price else 0.0
  }

  /** The sum of the prices of the catalog entries with id `id`. */
  function PriceOf(items: seq<Item>, id: string): real
    decreases |items|
  {
    if items == [] then 0.0
    else PriceOf(items[..|items| - 1], id) + PriceIfId(items[|items| - 1], id)
  }

  /** The total only reads the quantities of ids that are in the catalog. */
  lemma {:induction false} TotalCostReadsCatalogOnly(items: seq<Item>, q1: Quantities, q2: Quantities)
    requires forall k :: 0 <= k < |items| ==> QuantityOf(q1, items[k].id) == QuantityOf(q2, items[k].id)
    ensures TotalCost(items, q1) == TotalCost(items, q2)
    decreases |items|
  {
    if items != [] {
      TotalCostReadsCatalogOnly(items[..|items| - 1], q1, q2);
    }
  }

  /** So a quantity stored for an id outside the catalog adds nothing. */
  lemma UnknownIdAddsNothing(items: seq<Item>, q: Quantities, id: string, n: int)
    requires forall item :: item in items ==> item.id != id
    ensures TotalCost(items, q[id := n]) == TotalCost(items, q)
  {
    TotalCostReadsCatalogOnly(items, q[id := n], q);
  }

  /** With nothing selected the total is 0. */
  lemma {:induction false} NothingSelectedCostsNothing(items: seq<Item>, q: Quantities)
    requires forall item :: item in items ==> !IsSelected(q, item.id)
    ensures TotalCost(items, q) == 0.0
    decreases |items|
  {
    if items != [] {
      assert items[|items| - 1] in items;
      NothingSelectedCostsNothing(items[..|items| - 1], q);
    }
  }

  /** Non-negative prices and positive quantities give a non-negative total. */
  lemma {:induction false} TotalCostNonNegative(items: seq<Item>, q: Quantities)
    requires forall item :: item in items ==> item.price >= 0.0
    requires AllPositive(q)
    ensures TotalCost(items, q) >= 0.0
    decreases |items|
  {
    if items != [] {
      var last := items[|items| - 1];
      assert last in items;
      TotalCostNonNegative(items[..|items| - 1], q);
      if IsSelected(q, last.id) {
        assert last.price * QuantityOf(q, last.id) as real >= 0.0;
      }
    }
  }

  /** An item's contribution is its price times its quantity; an unselected item has quantity 0. */
  lemma ContributionIsPriceTimesQuantity(item: Item, q: Quantities)
    ensures Contribution(item, q) == item.price * QuantityOf(q, item.id) as real
  {
  }

  lemma ScaleShift(price: real, c: int, change: int)
    ensures price * (c + change) as real == price * c as real + change as real * price
  {
  }

  lemma Distribute(c: real, a: real, b: real)
    ensures c * (a + b) == c * a + c * b
  {
  }

  /** The change to one item's contribution when only the quantity of `id` moves, by `change`. */
  lemma ShiftedContribution(item: Item, q: Quantities, q': Quantities, id: string, change: int)
    requires QuantityOf(q', id) == QuantityOf(q, id) + change
    requires forall k :: k != id ==> QuantityOf(q', k) == QuantityOf(q, k)
    ensures Contribution(item, q') == Contribution(item, q) + change as real * PriceIfId(item, id)
  {
    ContributionIsPriceTimesQuantity(item, q);
    ContributionIsPriceTimesQuantity(item, q');
    if item.id == id {
      ScaleShift(item.price, QuantityOf(q, id), change);
    }
  }

  /** `c` times the price of each catalog entry with id `id`, added up entry by entry. */
  function ScaledPrices(items: seq<Item>, id: string, c: real): real
    decreases |items|
  {
    if items == [] then 0.0
    else ScaledPrices(items[..|items| - 1], id, c) + c * PriceIfId(items[|items| - 1], id)
  }

  /** Scaling entry by entry is scaling the sum. */
  lemma {:induction false} ScaledPricesIsScaledSum(items: seq<Item>, id: string, c: real)
    ensures ScaledPrices(items, id, c) == c * PriceOf(items, id)
    decreases |items|
  {
    if items != [] {
      var init, last := items[..|items| - 1], items[|items| - 1];
      ScaledPricesIsScaledSum(init, id, c);
      Distribute(c, PriceOf(init, id), PriceIfId(last, id));
    }
  }

  /** When only the quantity of `id` moves, by `change`, each entry of that id moves the total by `change` times its price. */
  lemma {:induction false} ShiftedTotal(items: seq<Item>, q: Quantities, q': Quantities, id: string, change: int)
    requires QuantityOf(q', id) == QuantityOf(q, id) + change
    requires forall k :: k != id ==> QuantityOf(q', k) == QuantityOf(q, k)
    ensures TotalCost(items, q') == TotalCost(items, q) + ScaledPrices(items, id, change as real)
    decreases |items|
  {
    if items != [] {
      var init, last := items[..|items| - 1], items[|items| - 1];
      ShiftedTotal(init, q, q', id, change);
      ShiftedContribution(last, q, q', id, change);
    }
  }

  /**
   * Pressing + or - on an item shifts the total by the change times the
   * item's catalog price, as long as the quantity does not go below 0.
   */
  lemma QuantityChangeShiftsTotal(items: seq<Item>, q: Quantities, id: string, change: int)
    requires QuantityOf(q, id) + change >= 0
    ensures TotalCost(items, QuantityChanged(q, id, change))
         == TotalCost(items, q) + change as real * PriceOf(items, id)
  {
    var q' := QuantityChanged(q, id, change);
    QuantityChangedMovesOneEntry(q, id, change);
    ShiftedTotal(items, q, q', id, change);
    ScaledPricesIsScaledSum(items, id, change as real);
  }

  /** Unless it would go below 0, the quantity of `id` moves by exactly `change`, and no other quantity moves. */
  lemma QuantityChangedMovesOneEntry(q: Quantities, id: string, change: int)
    requires QuantityOf(q, id) + change >= 0
    ensures QuantityOf(QuantityChanged(q, id, change), id) == QuantityOf(q, id) + change
    ensures forall k :: k != id ==> QuantityOf(QuantityChanged(q, id, change), k) == QuantityOf(q, k)
  {
  }

  /**
   * The share of each selected participant: the total divided by their
   * number, and 0 when nobody is selected.
   */
  function CostPerPerson(total: real, selectedCount: nat): (r: real)
    ensures selectedCount > 0 ==> r * selectedCount as real == total
    ensures selectedCount == 0 ==> r == 0.0
  {
    if selectedCount > 0 then total / selectedCount as real else 0.0
  }

  // ---------------------------------------------------------------------------
  // Building the records of one split.
  // ---------------------------------------------------------------------------

  /** `employees.find(e => e.id === id)`, as the position of the first match. */
  function FindEmployee(employees: seq<Employee>, id: string): (r: Option<nat>)
    ensures r.Some? ==> r.value < |employees| && employees[r.value].id == id
    ensures r.Some? ==> forall j :: 0 <= j < r.value ==> employees[j].id != id
    ensures r.None? ==> forall j :: 0 <= j < |employees| ==> employees[j].id != id
    decreases |employees|
  {
    if employees == [] then None
    else if employees[0].id == id then Some(0)
    else match FindEmployee(employees[1..], id)
      case None => None
      case Some(k) => Some(k + 1)
  }

  /** The name snapshot of a record: the found employee's name unless it is empty, else the placeholder. */
  function EmployeeName(employees: seq<Employee>, id: string): (r: string)
    ensures r != []
    ensures (forall e :: e in employees ==> e.id != id) ==> r == UnknownName
    ensures r != UnknownName ==> exists k :: 0 <= k < |employees| && employees[k].id == id && employees[k].name == r
    ensures forall k :: 0 <= k < |employees| && employees[k].id == id && (forall j :: 0 <= j < k ==> employees[j].id != id) ==>
      r == if employees[k].name != "" then employees[k].name else UnknownName
  {
    match FindEmployee(employees, id)
    case Some(k) => if employees[k].name != "" then employees[k].name else UnknownName
    case None => UnknownName
  }

  function SelectedIn(q: Quantities): Item -> bool {
    (item: Item) => IsSelected(q, item.id)
  }

  /** How one item appears in a description: its name and `(×quantity)`. */
  function ItemLabel(item: Item, q: Quantities): (r: string)
    ensures |r| > |item.name| + 3
    ensures r[..|item.name|] == item.name && r[|item.name|..|item.name| + 3] == " (\U{00D7}" && r[|r| - 1] == ')'
    ensures var digits := r[|item.name| + 3..|r| - 1];
      && digits != [] && (digits[0] == '-' || IsDigit(digits[0]))
      && (forall i :: 0 < i < |digits| ==> IsDigit(digits[i]))
      && ParseInt(digits) == QuantityOf(q, item.id)
  {
    var digits := IntToString(QuantityOf(q, item.id));
    var r := item.name + " (\U{00D7}" + digits + ")";
    IntToStringRoundTrip(QuantityOf(q, item.id));
    assert r[|item.name| + 3..|r| - 1] == digits;
    r
  }

  function LabelIn(q: Quantities): Item -> string {
    (item: Item) => ItemLabel(item, q)
  }

  /** The labels of the selected catalog items, in catalog order, joined by the separator. */
  function Description(items: seq<Item>, q: Quantities): (r: string)
    ensures r == [] <==> forall item :: item in items ==> !IsSelected(q, item.id)
  {
    var chosen := Filter(items, SelectedIn(q));
    var labels := Map(chosen, LabelIn(q));
    assert chosen != [] ==> chosen[0] in chosen && |labels[0]| > 0;
    Join(labels, DescriptionSeparator)
  }

  /**
   * The description grows with the catalog: one more item that is selected
   * adds the separator (when something came before) and its label at the
   * end; an unselected one adds nothing.
   */
  lemma DescriptionSnoc(items: seq<Item>, item: Item, q: Quantities)
    ensures Description(items + [item], q) ==
      if !IsSelected(q, item.id) then Description(items, q)
      else if Description(items, q) == [] then ItemLabel(item, q)
      else Description(items, q) + DescriptionSeparator + ItemLabel(item, q)
  {
    var chosen := Filter(items, SelectedIn(q));
    FilterSnoc(items, item, SelectedIn(q));
    if IsSelected(q, item.id) {
      MapSnoc(chosen, item, LabelIn(q));
      if chosen == [] {
        assert Map(chosen + [item], LabelIn(q)) == [ItemLabel(item, q)];
      } else {
        JoinSnoc(Map(chosen, LabelIn(q)), ItemLabel(item, q), DescriptionSeparator);
        assert chosen[0] in items;
      }
    } else {
      assert chosen + [] == chosen;
    }
  }

  /** The id of a record: the transaction id, a dash, the employee id. */
  function RecordId(transactionId: string, employeeId: string): (r: string)
    ensures |r| == |transactionId| + 1 + |employeeId|
    ensures r[..|transactionId|] == transactionId && r[|transactionId|] == '-'
    ensures r[|transactionId| + 1..] == employeeId
  {
    transactionId + "-" + employeeId
  }

  /** Within one transaction, different employees give different record ids. */
  lemma RecordIdInjective(transactionId: string, a: string, b: string)
    requires RecordId(transactionId, a) == RecordId(transactionId, b)
    ensures a == b
  {
    var n := |transactionId| + 1;
    assert RecordId(transactionId, a)[n..] == a;
    assert RecordId(transactionId, b)[n..] == b;
  }

  function NewRecord(employees: seq<Employee>, transactionId: string, date: string,
                     description: string, amount: real): string -> ExpenseRecord
  {
    (employeeId: string) => ExpenseRecord(RecordId(transactionId, employeeId), transactionId, employeeId,
                                          EmployeeName(employees, employeeId), amount, date, description, false)
  }

  /**
   * One unsettled record per selected employee, in selection order, all
   * sharing the transaction id, date, description and amount.
   */
  function BuildRecords(selection: seq<string>, employees: seq<Employee>, transactionId: string,
                        date: string, description: string, amount: real): (r: seq<ExpenseRecord>)
    ensures |r| == |selection|
    ensures forall k :: 0 <= k < |r| ==>
      && r[k].employeeId == selection[k]
      && r[k].id == RecordId(transactionId, selection[k])
      && r[k].employeeName == EmployeeName(employees, selection[k])
      && r[k].transactionId == transactionId && r[k].date == date
      && r[k].description == description && r[k].amount == amount
      && !r[k].isSettled
    ensures Distinct(selection) ==> forall i, j :: 0 <= i < j < |r| ==> r[i].id != r[j].id
  {
    var r := Map(selection, NewRecord(employees, transactionId, date, description, amount));
    assert forall i, j :: 0 <= i < j < |r| && r[i].id == r[j].id ==> selection[i] == selection[j] by {
      forall i, j | 0 <= i < j < |r| && r[i].id == r[j].id ensures selection[i] == selection[j] {
        RecordIdInjective(transactionId, selection[i], selection[j]);
      }
    }
    r
  }

  /** The sum of the amounts of a list of records, first to last. */
  function SumAmounts(records: seq<ExpenseRecord>): real
    decreases |records|
  {
    if records == [] then 0.0 else SumAmounts(records[..|records| - 1]) + records[|records| - 1].amount
  }

  /** One more record at the end adds its amount. */
  lemma SumAmountsSnoc(records: seq<ExpenseRecord>, x: ExpenseRecord)
    ensures SumAmounts(records + [x]) == SumAmounts(records) + x.amount
  {
    assert (records + [x])[..|records|] == records;
  }

  lemma {:induction false} SumOfEqualAmounts(records: seq<ExpenseRecord>, amount: real)
    requires forall k :: 0 <= k < |records| ==> records[k].amount == amount
    ensures SumAmounts(records) == |records| as real * amount
    decreases |records|
  {
    if records != [] {
      SumOfEqualAmounts(records[..|records| - 1], amount);
    }
  }

  // ---------------------------------------------------------------------------
  // Saving a split.
  // ---------------------------------------------------------------------------

  /** The state of the expense screen that a save reads and resets. */
  datatype SplitForm = SplitForm(quantities: Quantities, selection: seq<string>, date: string)

  /** What a save dispatches, if anything, and the form state it leaves behind. */
  datatype SaveOutcome = SaveOutcome(dispatched: Option<Action>, form: SplitForm)

  /**
   * The save button: refused while the total is 0 or nobody is selected;
   * otherwise one expense group is dispatched and the selections are cleared
   * (the date stays).
   */
  function SaveSplit(form: SplitForm, items: seq<Item>, employees: seq<Employee>, transactionId: string): (r: SaveOutcome)
    ensures r.dispatched.None? <==> TotalCost(items, form.quantities) == 0.0 || |form.selection| == 0
    ensures r.dispatched.None? ==> r.form == form
    ensures r.dispatched.Some? ==> r.form == SplitForm(map[], [], form.date)
    ensures r.dispatched.Some? ==> r.dispatched.value.AddExpenseGroup?
  {
    var total := TotalCost(items, form.quantities);
    if total == 0.0 || |form.selection| == 0 then SaveOutcome(None, form)
    else
      var cost := CostPerPerson(total, |form.selection|);
      var description := Description(items, form.quantities);
      var records := BuildRecords(form.selection, employees, transactionId, form.date, description, cost);
      SaveOutcome(Some(AddExpenseGroup(records)), SplitForm(map[], [], form.date))
  }

  /**
   * A dispatched group has one record per selected employee, in selection
   * order, with distinct ids, and its amounts add up to the total: the
   * split neither loses nor invents money.
   */
  lemma SavedGroupSplitsTotal(form: SplitForm, items: seq<Item>, employees: seq<Employee>, transactionId: string)
    requires Distinct(form.selection)
    requires SaveSplit(form, items, employees, transactionId).dispatched.Some?
    ensures var records := SaveSplit(form, items, employees, transactionId).dispatched.value.records;
      && |records| == |form.selection|
      && (forall k :: 0 <= k < |records| ==>
            && records[k].employeeId == form.selection[k]
            && records[k].id == RecordId(transactionId, form.selection[k])
            && records[k].employeeName == EmployeeName(employees, form.selection[k])
            && records[k].amount == CostPerPerson(TotalCost(items, form.quantities), |form.selection|)
            && records[k].transactionId == transactionId
            && records[k].date == form.date && records[k].description == Description(items, form.quantities)
            && !records[k].isSettled)
      && (forall i, j :: 0 <= i < j < |records| ==> records[i].id != records[j].id)
      && SumAmounts(records) == TotalCost(items, form.quantities)
  {
    var total := TotalCost(items, form.quantities);
    var n := |form.selection|;
    var cost := CostPerPerson(total, n);
    var description := Description(items, form.quantities);
    var records := BuildRecords(form.selection, employees, transactionId, form.date, description, cost);
    assert SaveSplit(form, items, employees, transactionId).dispatched.value.records == records;
    SharesAddUp(records, total, n);
  }

  /** Records that each carry the equal share of `total` among their number add up to `total`. */
  lemma SharesAddUp(records: seq<ExpenseRecord>, total: real, n: nat)
    requires n > 0 && |records| == n
    requires forall k :: 0 <= k < |records| ==> records[k].amount == CostPerPerson(total, n)
    ensures SumAmounts(records) == total
  {
    SumOfEqualAmounts(records, CostPerPerson(total, n));
  }

  /** Two loaves at 1000 and one bottle at 500, split three ways. */
  lemma ThreeWaySplitExample()
    ensures var items := [Item("bread", "Bread", 1000.0), Item("milk", "Milk", 500.0)];
      var q := map["bread" := 2, "milk" := 1];
      && TotalCost(items, q) == 2500.0
      && CostPerPerson(TotalCost(items, q), 3) == 2500.0 / 3.0
  {
    var items := [Item("bread", "Bread", 1000.0), Item("milk", "Milk", 500.0)];
    var q := map["bread" := 2, "milk" := 1];
    assert items[..1] == [items[0]];
    assert TotalCost(items[..1], q) == 2000.0;
  }
}
