/**
 * The application reducer: a total function from a state and an action to
 * the next state. Every case either replaces a scalar field, appends to one
 * of the three lists, replaces list elements by id, removes list elements by
 * key, or flips one flag; nothing else in the state moves.
 */
module Reducer {
  import opened Types
  import opened Seqs

  /** The state the application starts from before anything is restored. */
  const InitialState: AppState := AppState("حسابگر دُنگ", [], [], [], "default")

  // The per-element callbacks the reducer hands to `map` and `filter`.

  function ReplaceEmployee(p: Employee): Employee -> Employee {
    (e: Employee) => if e.id == p.id then p else e
  }

  function OtherEmployee(id: string): Employee -> bool {
    (e: Employee) => e.id != id
  }

  function ReplaceItem(p: Item): Item -> Item {
    (i: Item) => if i.id == p.id then p else i
  }

  function OtherItem(id: string): Item -> bool {
    (i: Item) => i.id != id
  }

  function ReplaceExpense(p: ExpenseRecord): ExpenseRecord -> ExpenseRecord {
    (ex: ExpenseRecord) => if ex.id == p.id then p else ex
  }

  function OtherTransaction(transactionId: string): ExpenseRecord -> bool {
    (ex: ExpenseRecord) => ex.transactionId != transactionId
  }

  function ToggleIfId(id: string): ExpenseRecord -> ExpenseRecord {
    (ex: ExpenseRecord) => if ex.id == id then ex.(isSettled := !ex.isSettled) else ex
  }

  /**
   * One transition. Each action may change only the field it names; the
   * postconditions are that frame, read per field.
   */
  function Reduce(s: AppState, a: Action): (r: AppState)
    ensures a.SetState? ==> r == a.state
    ensures !a.SetState? && !a.SetAppName? ==> r.appName == s.appName
    ensures !a.SetState? && !a.SetTheme? ==> r.theme == s.theme
    ensures !a.SetState? && !(a.AddEmployee? || a.UpdateEmployee? || a.DeleteEmployee?) ==>
              r.employees == s.employees
    ensures !a.SetState? && !(a.AddItem? || a.UpdateItem? || a.DeleteItem?) ==> r.items == s.items
    ensures !a.SetState? && !(a.AddExpenseGroup? || a.UpdateExpense? || a.DeleteExpenseGroup? || a.ToggleSettleExpense?) ==>
              r.expenses == s.expenses
  {
    match a
    case SetState(p) => p
    case SetAppName(name) => s.(appName := name)
    case SetTheme(theme) => s.(theme := theme)
    case AddEmployee(e) => s.(employees := s.employees + [e])
    case UpdateEmployee(e) => s.(employees := Map(s.employees, ReplaceEmployee(e)))
    case DeleteEmployee(id) => s.(employees := Filter(s.employees, OtherEmployee(id)))
    case AddItem(i) => s.(items := s.items + [i])
    case UpdateItem(i) => s.(items := Map(s.items, ReplaceItem(i)))
    case DeleteItem(id) => s.(items := Filter(s.items, OtherItem(id)))
    case AddExpenseGroup(records) => s.(expenses := s.expenses + records)
    case UpdateExpense(ex) => s.(expenses := Map(s.expenses, ReplaceExpense(ex)))
    case DeleteExpenseGroup(tid) => s.(expenses := Filter(s.expenses, OtherTransaction(tid)))
    case ToggleSettleExpense(id) => s.(expenses := Map(s.expenses, ToggleIfId(id)))
    case Unrecognized(_) => s
  }

  /** Restoring a saved state yields exactly that state, whatever came before. */
  lemma SetStateRoundTrip(s: AppState, saved: AppState)
    ensures Reduce(s, SetState(saved)) == saved
    ensures Reduce(InitialState, SetState(saved)) == saved
  {
  }

  /** Renaming the app and switching the theme touch nothing else. */
  lemma SetScalarsOnly(s: AppState, name: string, theme: string)
    ensures Reduce(s, SetAppName(name)) == AppState(name, s.employees, s.items, s.expenses, s.theme)
    ensures Reduce(s, SetTheme(theme)) == AppState(s.appName, s.employees, s.items, s.expenses, theme)
  {
  }

  /** An added employee goes to the end; the old list is a prefix of the new one. */
  lemma AddEmployeeAppends(s: AppState, e: Employee)
    ensures var r := Reduce(s, AddEmployee(e));
      && |r.employees| == |s.employees| + 1
      && r.employees[..|s.employees|] == s.employees
      && r.employees[|s.employees|] == e
  {
    var r := Reduce(s, AddEmployee(e));
    assert r.employees == s.employees + [e];
  }

  /** An added item goes to the end; the old list is a prefix of the new one. */
  lemma AddItemAppends(s: AppState, i: Item)
    ensures var r := Reduce(s, AddItem(i));
      && |r.items| == |s.items| + 1
      && r.items[..|s.items|] == s.items
      && r.items[|s.items|] == i
  {
    var r := Reduce(s, AddItem(i));
    assert r.items == s.items + [i];
  }

  /**
   * Updating an employee keeps the length and order; every element with the
   * payload's id becomes the payload, every other element stays, and a
   * payload whose id matches nothing leaves the state as it was.
   */
  lemma UpdateEmployeeById(s: AppState, p: Employee)
    ensures var r := Reduce(s, UpdateEmployee(p));
      && |r.employees| == |s.employees|
      && (forall k :: 0 <= k < |s.employees| && s.employees[k].id == p.id ==> r.employees[k] == p)
      && (forall k :: 0 <= k < |s.employees| && s.employees[k].id != p.id ==> r.employees[k] == s.employees[k])
    ensures (forall e :: e in s.employees ==> e.id != p.id) ==> Reduce(s, UpdateEmployee(p)) == s
  {
    if forall e :: e in s.employees ==> e.id != p.id {
      MapIdentityOn(s.employees, ReplaceEmployee(p));
    }
  }

  /** Updating an item: as for employees, keyed on the item id. */
  lemma UpdateItemById(s: AppState, p: Item)
    ensures var r := Reduce(s, UpdateItem(p));
      && |r.items| == |s.items|
      && (forall k :: 0 <= k < |s.items| && s.items[k].id == p.id ==> r.items[k] == p)
      && (forall k :: 0 <= k < |s.items| && s.items[k].id != p.id ==> r.items[k] == s.items[k])
    ensures (forall i :: i in s.items ==> i.id != p.id) ==> Reduce(s, UpdateItem(p)) == s
  {
    if forall i :: i in s.items ==> i.id != p.id {
      MapIdentityOn(s.items, ReplaceItem(p));
    }
  }

  /** Updating an expense record: as for employees, keyed on the record id. */
  lemma UpdateExpenseById(s: AppState, p: ExpenseRecord)
    ensures var r := Reduce(s, UpdateExpense(p));
      && |r.expenses| == |s.expenses|
      && (forall k :: 0 <= k < |s.expenses| && s.expenses[k].id == p.id ==> r.expenses[k] == p)
      && (forall k :: 0 <= k < |s.expenses| && s.expenses[k].id != p.id ==> r.expenses[k] == s.expenses[k])
    ensures (forall ex :: ex in s.expenses ==> ex.id != p.id) ==> Reduce(s, UpdateExpense(p)) == s
  {
    if forall ex :: ex in s.expenses ==> ex.id != p.id {
      MapIdentityOn(s.expenses, ReplaceExpense(p));
    }
  }

  /**
   * Deleting an employee removes all and only the elements with that id;
   * the survivors keep their multiplicity and relative order, and the
   * expense records that name the employee are left alone (no cascade).
   */
  lemma DeleteEmployeeById(s: AppState, id: string)
    ensures var r := Reduce(s, DeleteEmployee(id));
      && (forall e :: e in r.employees <==> e in s.employees && e.id != id)
      && (forall e :: multiset(r.employees)[e] == if e.id == id then 0 else multiset(s.employees)[e])
      && Subsequence(r.employees, s.employees)
      && r.expenses == s.expenses
  {
    FilterIsSubsequence(s.employees, OtherEmployee(id));
  }

  /** Deleting an item: as for employees, keyed on the item id. */
  lemma DeleteItemById(s: AppState, id: string)
    ensures var r := Reduce(s, DeleteItem(id));
      && (forall i :: i in r.items <==> i in s.items && i.id != id)
      && (forall i :: multiset(r.items)[i] == if i.id == id then 0 else multiset(s.items)[i])
      && Subsequence(r.items, s.items)
      && r.expenses == s.expenses
  {
    FilterIsSubsequence(s.items, OtherItem(id));
  }

  /** A new expense group lands after the existing records, in payload order. */
  lemma AddExpenseGroupAppends(s: AppState, records: seq<ExpenseRecord>)
    ensures var r := Reduce(s, AddExpenseGroup(records));
      && |r.expenses| == |s.expenses| + |records|
      && r.expenses[..|s.expenses|] == s.expenses
      && r.expenses[|s.expenses|..] == records
  {
  }

  /**
   * Deleting a transaction group removes exactly its records; the others
   * remain in order, and deleting the same group again changes nothing.
   */
  lemma DeleteExpenseGroupByTransaction(s: AppState, tid: string)
    ensures var r := Reduce(s, DeleteExpenseGroup(tid));
      && (forall ex :: ex in r.expenses <==> ex in s.expenses && ex.transactionId != tid)
      && (forall ex :: multiset(r.expenses)[ex] == if ex.transactionId == tid then 0 else multiset(s.expenses)[ex])
      && Subsequence(r.expenses, s.expenses)
    ensures Reduce(Reduce(s, DeleteExpenseGroup(tid)), DeleteExpenseGroup(tid)) == Reduce(s, DeleteExpenseGroup(tid))
  {
    FilterIsSubsequence(s.expenses, OtherTransaction(tid));
    FilterIdempotent(s.expenses, OtherTransaction(tid));
  }

  /**
   * Settling flips `isSettled` on the records with that id and changes no
   * other field of any record; settling twice restores the whole state.
   */
  lemma ToggleSettleFlipsOnlyThatRecord(s: AppState, id: string)
    ensures var r := Reduce(s, ToggleSettleExpense(id));
      && |r.expenses| == |s.expenses|
      && (forall k :: 0 <= k < |s.expenses| && s.expenses[k].id == id ==>
            r.expenses[k] == s.expenses[k].(isSettled := !s.expenses[k].isSettled))
      && (forall k :: 0 <= k < |s.expenses| && s.expenses[k].id != id ==> r.expenses[k] == s.expenses[k])
    ensures Reduce(Reduce(s, ToggleSettleExpense(id)), ToggleSettleExpense(id)) == s
  {
    MapInvolution(s.expenses, ToggleIfId(id));
  }

  /** A tag the reducer does not know leaves the state as it is. */
  lemma UnrecognizedIsIdentity(s: AppState, tag: string)
    ensures Reduce(s, Unrecognized(tag)) == s
  {
  }
}
