/**
 * The data shapes of the expense ledger: participants ("employees"), catalog
 * items, expense records, the single application state and the actions the
 * reducer understands. Money is an exact `real`; strings are `seq<char>`.
 */
module Types {

  datatype Option<T> = None | Some(value: T)

  /** A participant who can be charged a share of an expense. */
  datatype Employee = Employee(id: string, name: string, phone: string)

  /** A purchasable good with a unit price. */
  datatype Item = Item(id: string, name: string, price: real)

  /**
   * One participant's share of one split. `employeeName` is a snapshot taken
   * when the record was built, not a live reference to the employee.
   */
  datatype ExpenseRecord = ExpenseRecord(
    id: string,
    transactionId: string,
    employeeId: string,
    employeeName: string,
    amount: real,
    date: string,
    description: string,
    isSettled: bool)

  /** The single aggregate the reducer transforms. */
  datatype AppState = AppState(
    appName: string,
    employees: seq<Employee>,
    items: seq<Item>,
    expenses: seq<ExpenseRecord>,
    theme: string)

  /**
   * The thirteen action tags, plus `Unrecognized` for a tag the reducer does
   * not know (its `default` branch).
   */
  datatype Action =
    | SetAppName(appName: string)
    | AddEmployee(newEmployee: Employee)
    | UpdateEmployee(employee: Employee)
    | DeleteEmployee(employeeId: string)
    | AddItem(newItem: Item)
    | UpdateItem(item: Item)
    | DeleteItem(itemId: string)
    | AddExpenseGroup(records: seq<ExpenseRecord>)
    | UpdateExpense(record: ExpenseRecord)
    | DeleteExpenseGroup(transactionId: string)
    | ToggleSettleExpense(expenseId: string)
    | SetTheme(theme: string)
    | SetState(state: AppState)
    | Unrecognized(tag: string)
}
