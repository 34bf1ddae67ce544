/**
 * The details screen: the expense list filtered by employee and sorted by
 * date, the outstanding balance of each employee, the grouping of the list
 * into transactions, and the edit, settle and delete handlers that feed the
 * reducer.
 */
module Details {
  import opened Types
  import opened Seqs
  import opened Text
  import opened Sorting
  import opened Reducer
  import Split

  // ---------------------------------------------------------------------------
  // The filtered, date-sorted expense list.
  // ---------------------------------------------------------------------------

  /** The employee filter: the empty id selects every record. */
  function MatchesFilter(filterEmployeeId: string): ExpenseRecord -> bool {
    (ex: ExpenseRecord) => filterEmployeeId == "" || ex.employeeId == filterEmployeeId
  }

  /** The comparator `b.date.localeCompare(a.date)`: `a` goes first when its date sorts after `b`'s. */
  const NewerFirst: (ExpenseRecord, ExpenseRecord) -> bool :=
    (a: ExpenseRecord, b: ExpenseRecord) => Less(b.date, a.date)

  lemma NewerFirstIsStrictWeakOrder()
    ensures StrictWeakOrder(NewerFirst)
  {
    forall a: ExpenseRecord, b: ExpenseRecord | NewerFirst(a, b) ensures !NewerFirst(b, a) {
      LessAsymmetric(b.date, a.date);
    }
    forall a: ExpenseRecord, b: ExpenseRecord, c: ExpenseRecord | !NewerFirst(a, b) && !NewerFirst(b, c)
      ensures !NewerFirst(a, c)
    {
      NotLessTransitive(a.date, b.date, c.date);
    }
  }

  /** Two records are tied under the date comparator exactly when they carry the same date. */
  lemma TiedOnDateIsSameDate(p: ExpenseRecord, e: ExpenseRecord)
    ensures TiedWith(NewerFirst, p)(e) <==> e.date == p.date
  {
    NeitherLessIsEqual(e.date, p.date);
  }

  /** The list the screen shows: the matching records, newest date first. */
  function FilteredExpenses(expenses: seq<ExpenseRecord>, filterEmployeeId: string): (r: seq<ExpenseRecord>)
    ensures |r| <= |expenses|
    ensures forall ex :: ex in r <==> ex in expenses && (filterEmployeeId == "" || ex.employeeId == filterEmployeeId)
  {
    Sort(Filter(expenses, MatchesFilter(filterEmployeeId)), NewerFirst)
  }

  /**
   * The list holds exactly the records of the filtered employee (all
   * records for the empty filter), each as often as in the state, with
   * dates never increasing down the list.
   */
  lemma FilteredExpensesAreMatchesNewestFirst(expenses: seq<ExpenseRecord>, filterEmployeeId: string)
    ensures var r := FilteredExpenses(expenses, filterEmployeeId);
      && (forall ex :: multiset(r)[ex] ==
            if filterEmployeeId == "" || ex.employeeId == filterEmployeeId then multiset(expenses)[ex] else 0)
      && (forall i, j :: 0 <= i < j < |r| ==> !Less(r[i].date, r[j].date))
    ensures filterEmployeeId == "" ==> multiset(FilteredExpenses(expenses, filterEmployeeId)) == multiset(expenses)
  {
    NewerFirstIsStrictWeakOrder();
    SortSorted(Filter(expenses, MatchesFilter(filterEmployeeId)), NewerFirst);
  }

  /** Records with the same date as `p` keep their relative order from the state. */
  lemma FilteredExpensesKeepOrderWithinADate(expenses: seq<ExpenseRecord>, filterEmployeeId: string, p: ExpenseRecord)
    ensures Filter(FilteredExpenses(expenses, filterEmployeeId), TiedWith(NewerFirst, p))
         == Filter(Filter(expenses, MatchesFilter(filterEmployeeId)), TiedWith(NewerFirst, p))
  {
    NewerFirstIsStrictWeakOrder();
    SortStable(Filter(expenses, MatchesFilter(filterEmployeeId)), NewerFirst, p);
  }

  // ---------------------------------------------------------------------------
  // Balances.
  // ---------------------------------------------------------------------------

  /** One line of the balance summary. */
  datatype Balance = Balance(id: string, name: string, total: real)

  /** The records a balance counts: unsettled and passing the employee filter. */
  function Outstanding(filterEmployeeId: string): ExpenseRecord -> bool {
    (ex: ExpenseRecord) => !ex.isSettled && (filterEmployeeId == "" || ex.employeeId == filterEmployeeId)
  }

  /** What the records in `owing` charge to `employeeId`, added up front to back as the `forEach` does. */
  function Owed(owing: seq<ExpenseRecord>, employeeId: string): real
    decreases |owing|
  {
    if owing == [] then 0.0
    else
      var last := owing[|owing| - 1];
      Owed(owing[..|owing| - 1], employeeId) + (if last.employeeId == employeeId then last.amount else 0.0)
  }

  /** Records that all charge other employees add nothing. */
  lemma {:induction false} OwedNothing(owing: seq<ExpenseRecord>, employeeId: string)
    requires forall ex :: ex in owing ==> ex.employeeId != employeeId
    ensures Owed(owing, employeeId) == 0.0
    decreases |owing|
  {
    if owing != [] {
      assert owing[|owing| - 1] in owing;
      OwedNothing(owing[..|owing| - 1], employeeId);
    }
  }

  /** What `employeeId` owes: the amounts of the unsettled, filter-passing records in their name. */
  function OutstandingTotal(expenses: seq<ExpenseRecord>, filterEmployeeId: string, employeeId: string): real {
    Owed(Filter(expenses, Outstanding(filterEmployeeId)), employeeId)
  }

  /** The name of the last employee with id `id` (a later entry overwrites an earlier one). */
  function NameOf(employees: seq<Employee>, id: string): string
    decreases |employees|
  {
    if employees == [] then ""
    else if employees[|employees| - 1].id == id then employees[|employees| - 1].name
    else NameOf(employees[..|employees| - 1], id)
  }

  function EmployeeId(e: Employee): string {
    e.id
  }

  /** The keys of the balance dictionary: employee ids in order of first occurrence. */
  function EmployeeKeys(employees: seq<Employee>): seq<string> {
    Dedup(Map(employees, EmployeeId))
  }

  /** The keys are exactly the ids of the employees. */
  lemma EmployeeKeysAreIds(employees: seq<Employee>)
    ensures forall k :: k in EmployeeKeys(employees) <==> exists e :: e in employees && e.id == k
  {
    var ids := Map(employees, EmployeeId);
    forall k | k in ids ensures exists e :: e in employees && e.id == k {
      var m :| 0 <= m < |ids| && ids[m] == k;
      assert employees[m] in employees;
    }
    forall e | e in employees ensures e.id in ids {
      var m :| 0 <= m < |employees| && employees[m] == e;
      assert ids[m] == e.id;
    }
  }

  function BalanceFor(employees: seq<Employee>, owing: seq<ExpenseRecord>): string -> Balance {
    (id: string) => Balance(id, NameOf(employees, id), Owed(owing, id))
  }

  function NonZero(b: Balance): bool {
    b.total != 0.0
  }

  /** The comparator `b.total - a.total`: `a` goes first when its total is larger. */
  const LargerFirst: (Balance, Balance) -> bool := (a: Balance, b: Balance) => a.total > b.total

  lemma LargerFirstIsStrictWeakOrder()
    ensures StrictWeakOrder(LargerFirst)
  {
  }

  /** Every non-zero line of the dictionary belongs to an existing employee. */
  lemma LinesAreEmployees(employees: seq<Employee>, owing: seq<ExpenseRecord>)
    ensures forall b :: b in Filter(Map(EmployeeKeys(employees), BalanceFor(employees, owing)), NonZero) ==>
      b.total != 0.0 && exists e :: e in employees && e.id == b.id
  {
    MapMembers(EmployeeKeys(employees), BalanceFor(employees, owing));
    EmployeeKeysAreIds(employees);
  }

  /**
   * The balance summary: one line per employee id in dictionary order,
   * the zero totals dropped, then the largest total first.
   */
  function Balances(employees: seq<Employee>, expenses: seq<ExpenseRecord>, filterEmployeeId: string): (r: seq<Balance>)
    ensures forall b :: b in r ==> b.total != 0.0 && exists e :: e in employees && e.id == b.id
  {
    var owing := Filter(expenses, Outstanding(filterEmployeeId));
    var lines := Filter(Map(EmployeeKeys(employees), BalanceFor(employees, owing)), NonZero);
    LinesAreEmployees(employees, owing);
    SortMembers(lines, LargerFirst);
    Sort(lines, LargerFirst)
  }

  /** Adding one record to the end of a list adds its amount to the employee it charges, and nothing to the others. */
  lemma OwedSnoc(owing: seq<ExpenseRecord>, ex: ExpenseRecord, employeeId: string)
    ensures Owed(owing + [ex], employeeId)
         == Owed(owing, employeeId) + (if ex.employeeId == employeeId then ex.amount else 0.0)
  {
    assert (owing + [ex])[..|owing|] == owing;
  }

  /** The same, for one more record of a list read front to back. */
  lemma OwedPrefix(owing: seq<ExpenseRecord>, j: nat, employeeId: string)
    requires j < |owing|
    ensures Owed(owing[..j + 1], employeeId)
         == Owed(owing[..j], employeeId) + (if owing[j].employeeId == employeeId then owing[j].amount else 0.0)
  {
    assert owing[..j + 1] == owing[..j] + [owing[j]];
    OwedSnoc(owing[..j], owing[j], employeeId);
  }

  /** The keys after one more employee: its id is appended unless it is already there. */
  lemma EmployeeKeysSnoc(employees: seq<Employee>, e: Employee)
    ensures EmployeeKeys(employees + [e])
         == if e.id in EmployeeKeys(employees) then EmployeeKeys(employees) else EmployeeKeys(employees) + [e.id]
  {
    MapSnoc(employees, e, EmployeeId);
    var m := Map(employees + [e], EmployeeId);
    assert m[..|m| - 1] == Map(employees, EmployeeId);
  }

  /** The first pass: every employee id becomes a key, at total 0, carrying the last name seen for it. */
  method SeedBalances(employees: seq<Employee>) returns (keys: seq<string>, balances: map<string, Balance>)
    ensures keys == EmployeeKeys(employees)
    ensures forall k :: k in balances <==> k in keys
    ensures forall k :: k in balances ==> balances[k] == Balance(k, NameOf(employees, k), 0.0)
  {
    keys := [];
    balances := map[];
    var i := 0;
    while i < |employees|
      invariant 0 <= i <= |employees|
      invariant keys == EmployeeKeys(employees[..i])
      invariant forall k :: k in balances <==> k in keys
      invariant forall k :: k in balances ==> balances[k] == Balance(k, NameOf(employees[..i], k), 0.0)
    {
      var emp := employees[i];
      assert employees[..i + 1] == employees[..i] + [emp];
      EmployeeKeysSnoc(employees[..i], emp);
      if emp.id !in balances {
        keys := keys + [emp.id];
      }
      balances := balances[emp.id := Balance(emp.id, emp.name, 0.0)];
      i := i + 1;
      assert employees[..i][..i - 1] == employees[..i - 1];
    }
    assert employees[..i] == employees;
  }

  /**
   * The second pass: each record adds its amount to the entry of its
   * employee when there is one; a record of an unknown employee adds to
   * nothing, and no key is created.
   */
  method AddOwed(balances: map<string, Balance>, owing: seq<ExpenseRecord>) returns (next: map<string, Balance>)
    ensures forall k :: k in next <==> k in balances
    ensures forall k :: k in balances ==> next[k] == balances[k].(total := balances[k].total + Owed(owing, k))
  {
    next := balances;
    var j := 0;
    while j < |owing|
      invariant 0 <= j <= |owing|
      invariant forall k :: k in next <==> k in balances
      invariant forall k :: k in balances ==> next[k] == balances[k].(total := balances[k].total + Owed(owing[..j], k))
    {
      next := AddOne(balances, next, owing, j);
      j := j + 1;
    }
    assert owing[..j] == owing;
  }

  /** One step of the second pass, on record `owing[j]`. */
  method AddOne(balances: map<string, Balance>, next: map<string, Balance>, owing: seq<ExpenseRecord>, j: nat)
    returns (after: map<string, Balance>)
    requires j < |owing|
    requires forall k :: k in next <==> k in balances
    requires forall k :: k in balances ==> next[k] == balances[k].(total := balances[k].total + Owed(owing[..j], k))
    ensures forall k :: k in after <==> k in balances
    ensures forall k :: k in balances ==> after[k] == balances[k].(total := balances[k].total + Owed(owing[..j + 1], k))
  {
    var ex := owing[j];
    after := next;
    if ex.employeeId in after {
      var b := after[ex.employeeId];
      after := after[ex.employeeId := b.(total := b.total + ex.amount)];
    }
    forall k | k in balances
      ensures after[k] == balances[k].(total := balances[k].total + Owed(owing[..j + 1], k))
    {
      OwedPrefix(owing, j, k);
    }
  }

  /** `Object.values`: the entries in key order. */
  method ValuesInKeyOrder<V>(keys: seq<string>, balances: map<string, V>) returns (values: seq<V>)
    requires forall k :: k in keys ==> k in balances
    ensures |values| == |keys|
    ensures forall n :: 0 <= n < |keys| ==> values[n] == balances[keys[n]]
  {
    values := [];
    var n := 0;
    while n < |keys|
      invariant 0 <= n <= |keys|
      invariant |values| == n
      invariant forall m :: 0 <= m < n ==> values[m] == balances[keys[m]]
    {
      values := values + [balances[keys[n]]];
      n := n + 1;
    }
  }

  /**
   * The memo that builds the balance summary: a dictionary seeded with every
   * employee at 0, a pass over the outstanding records adding each amount
   * to its employee's entry when there is one, then the entries in key
   * order, without the zero totals, largest first.
   */
  method EmployeeBalances(employees: seq<Employee>, expenses: seq<ExpenseRecord>, filterEmployeeId: string)
    returns (r: seq<Balance>)
    ensures r == Balances(employees, expenses, filterEmployeeId)
  {
    var keys, seeded := SeedBalances(employees);
    var owing := Filter(expenses, Outstanding(filterEmployeeId));
    var balances := AddOwed(seeded, owing);
    var values := ValuesInKeyOrder(keys, balances);
    ghost var expected := Map(keys, BalanceFor(employees, owing));
    forall n | 0 <= n < |keys| ensures values[n] == expected[n] {
    }
    assert values == expected;
    r := Sort(Filter(values, NonZero), LargerFirst);
  }

  /**
   * Every line of the summary is an employee id with a non-zero total, and
   * that total is exactly what the employee owes on the unsettled records
   * passing the filter; a record of an id that is no employee's shows
   * nowhere.
   */
  lemma BalanceLinesAreOutstandingTotals(employees: seq<Employee>, expenses: seq<ExpenseRecord>, filterEmployeeId: string)
    ensures forall b :: b in Balances(employees, expenses, filterEmployeeId) ==>
      && b.total != 0.0
      && b.total == OutstandingTotal(expenses, filterEmployeeId, b.id)
      && b.name == NameOf(employees, b.id)
      && exists e :: e in employees && e.id == b.id
  {
    var owing := Filter(expenses, Outstanding(filterEmployeeId));
    var keys := EmployeeKeys(employees);
    var values := Map(keys, BalanceFor(employees, owing));
    var r := Balances(employees, expenses, filterEmployeeId);
    EmployeeKeysAreIds(employees);
    forall b | b in r
      ensures b.total != 0.0 && b.total == OutstandingTotal(expenses, filterEmployeeId, b.id)
      ensures b.name == NameOf(employees, b.id) && exists e :: e in employees && e.id == b.id
    {
      assert b in multiset(r);
      var n :| 0 <= n < |values| && values[n] == b;
      assert keys[n] in keys;
    }
  }

  /** Every employee who owes a non-zero amount has a line in the summary. */
  lemma BalancesListEveryDebtor(employees: seq<Employee>, expenses: seq<ExpenseRecord>, filterEmployeeId: string)
    ensures forall e :: e in employees && OutstandingTotal(expenses, filterEmployeeId, e.id) != 0.0 ==>
      exists b :: b in Balances(employees, expenses, filterEmployeeId) && b.id == e.id
  {
    var owing := Filter(expenses, Outstanding(filterEmployeeId));
    var keys := EmployeeKeys(employees);
    var values := Map(keys, BalanceFor(employees, owing));
    var r := Balances(employees, expenses, filterEmployeeId);
    EmployeeKeysAreIds(employees);
    forall e | e in employees && OutstandingTotal(expenses, filterEmployeeId, e.id) != 0.0
      ensures exists b :: b in r && b.id == e.id
    {
      assert e.id in keys;
      var n :| 0 <= n < |keys| && keys[n] == e.id;
      var b := values[n];
      assert NonZero(b);
      assert b in Filter(values, NonZero);
      assert b in multiset(r);
    }
  }

  /** A line of the summary is the dictionary entry of its own id. */
  lemma BalanceLineIsEntry(employees: seq<Employee>, expenses: seq<ExpenseRecord>, filterEmployeeId: string, b: Balance)
    requires b in Balances(employees, expenses, filterEmployeeId)
    ensures b == BalanceFor(employees, Filter(expenses, Outstanding(filterEmployeeId)))(b.id)
    ensures b.total != 0.0
  {
    var owing := Filter(expenses, Outstanding(filterEmployeeId));
    var values := Map(EmployeeKeys(employees), BalanceFor(employees, owing));
    assert b in multiset(Balances(employees, expenses, filterEmployeeId));
    assert b in Filter(values, NonZero);
    var n :| 0 <= n < |values| && values[n] == b;
  }

  /** No employee has two lines. */
  lemma BalancesHaveDistinctIds(employees: seq<Employee>, expenses: seq<ExpenseRecord>, filterEmployeeId: string)
    ensures var r := Balances(employees, expenses, filterEmployeeId);
      forall i, j :: 0 <= i < j < |r| ==> r[i].id != r[j].id
  {
    var owing := Filter(expenses, Outstanding(filterEmployeeId));
    var keys := EmployeeKeys(employees);
    var values := Map(keys, BalanceFor(employees, owing));
    var nonZero := Filter(values, NonZero);
    var r := Balances(employees, expenses, filterEmployeeId);
    assert Distinct(values) by {
      forall i, j | 0 <= i < j < |values| ensures values[i] != values[j] {
        assert values[i].id == keys[i] && values[j].id == keys[j];
      }
    }
    DistinctSubMultiset(values, nonZero);
    DistinctSubMultiset(nonZero, r);
    forall i, j | 0 <= i < j < |r| ensures r[i].id != r[j].id {
      BalanceLineIsEntry(employees, expenses, filterEmployeeId, r[i]);
      BalanceLineIsEntry(employees, expenses, filterEmployeeId, r[j]);
    }
  }

  /** Lines run from the largest total down. */
  lemma BalancesLargestFirst(employees: seq<Employee>, expenses: seq<ExpenseRecord>, filterEmployeeId: string)
    ensures var r := Balances(employees, expenses, filterEmployeeId);
      forall i, j :: 0 <= i < j < |r| ==> r[i].total >= r[j].total
  {
    var owing := Filter(expenses, Outstanding(filterEmployeeId));
    LargerFirstIsStrictWeakOrder();
    SortSorted(Filter(Map(EmployeeKeys(employees), BalanceFor(employees, owing)), NonZero), LargerFirst);
  }

  /** Under an employee filter, a line can only be that employee's. */
  lemma FilteredLineIsThatEmployee(employees: seq<Employee>, expenses: seq<ExpenseRecord>, filterEmployeeId: string, b: Balance)
    requires filterEmployeeId != ""
    requires b in Balances(employees, expenses, filterEmployeeId)
    ensures b.id == filterEmployeeId
  {
    BalanceLineIsEntry(employees, expenses, filterEmployeeId, b);
    if b.id != filterEmployeeId {
      OwedNothing(Filter(expenses, Outstanding(filterEmployeeId)), b.id);
    }
  }

  /**
   * Under an employee filter only that employee can have a line, and none
   * at all when all of their records are settled.
   */
  lemma FilteredBalancesShowOnlyThatEmployee(employees: seq<Employee>, expenses: seq<ExpenseRecord>, filterEmployeeId: string)
    requires filterEmployeeId != ""
    ensures forall b :: b in Balances(employees, expenses, filterEmployeeId) ==> b.id == filterEmployeeId
    ensures (forall ex :: ex in expenses && ex.employeeId == filterEmployeeId ==> ex.isSettled) ==>
              Balances(employees, expenses, filterEmployeeId) == []
  {
    forall b | b in Balances(employees, expenses, filterEmployeeId) ensures b.id == filterEmployeeId {
      FilteredLineIsThatEmployee(employees, expenses, filterEmployeeId, b);
    }
    if forall ex :: ex in expenses && ex.employeeId == filterEmployeeId ==> ex.isSettled {
      var r := Balances(employees, expenses, filterEmployeeId);
      FilterKeepsNone(expenses, Outstanding(filterEmployeeId));
      if r != [] {
        BalanceLineIsEntry(employees, expenses, filterEmployeeId, r[0]);
      }
    }
  }

  /**
   * A further record that is already settled, or whose employee id is no
   * employee's, leaves the whole summary as it was.
   */
  lemma IgnoredRecordLeavesBalances(employees: seq<Employee>, expenses: seq<ExpenseRecord>, filterEmployeeId: string,
                                    ex: ExpenseRecord)
    requires ex.isSettled || forall e :: e in employees ==> e.id != ex.employeeId
    ensures Balances(employees, expenses + [ex], filterEmployeeId) == Balances(employees, expenses, filterEmployeeId)
  {
    var owing := Filter(expenses, Outstanding(filterEmployeeId));
    var owing' := Filter(expenses + [ex], Outstanding(filterEmployeeId));
    var keys := EmployeeKeys(employees);
    EmployeeKeysAreIds(employees);
    FilterSnoc(expenses, ex, Outstanding(filterEmployeeId));
    var before := Map(keys, BalanceFor(employees, owing));
    var after := Map(keys, BalanceFor(employees, owing'));
    forall n | 0 <= n < |keys| ensures after[n] == before[n] {
      if owing' != owing {
        assert owing' == owing + [ex];
        OwedSnoc(owing, ex, keys[n]);
        assert keys[n] in keys;
      }
    }
    assert after == before;
  }

  // ---------------------------------------------------------------------------
  // Grouping by transaction.
  // ---------------------------------------------------------------------------

  function TransactionIdOf(ex: ExpenseRecord): string {
    ex.transactionId
  }

  function InTransaction(transactionId: string): ExpenseRecord -> bool {
    (ex: ExpenseRecord) => ex.transactionId == transactionId
  }

  /** The keys of the group dictionary: transaction ids in order of first occurrence. */
  function TransactionKeys(records: seq<ExpenseRecord>): seq<string> {
    Dedup(Map(records, TransactionIdOf))
  }

  /** The group of a transaction: its records, in list order. */
  function GroupFor(records: seq<ExpenseRecord>): string -> seq<ExpenseRecord> {
    (transactionId: string) => Filter(records, InTransaction(transactionId))
  }

  /** The date of a group's first record (groups are never empty). */
  function FirstDate(g: seq<ExpenseRecord>): string {
    if g == [] then "" else g[0].date
  }

  /** The comparator `b[0].date.localeCompare(a[0].date)` on groups. */
  const NewerGroupFirst: (seq<ExpenseRecord>, seq<ExpenseRecord>) -> bool :=
    (a: seq<ExpenseRecord>, b: seq<ExpenseRecord>) => Less(FirstDate(b), FirstDate(a))

  lemma NewerGroupFirstIsStrictWeakOrder()
    ensures StrictWeakOrder(NewerGroupFirst)
  {
    forall a: seq<ExpenseRecord>, b: seq<ExpenseRecord> | NewerGroupFirst(a, b) ensures !NewerGroupFirst(b, a) {
      LessAsymmetric(FirstDate(b), FirstDate(a));
    }
    forall a: seq<ExpenseRecord>, b: seq<ExpenseRecord>, c: seq<ExpenseRecord> |
      !NewerGroupFirst(a, b) && !NewerGroupFirst(b, c)
      ensures !NewerGroupFirst(a, c)
    {
      NotLessTransitive(FirstDate(a), FirstDate(b), FirstDate(c));
    }
  }

  /** The groups the screen shows: one per transaction, the newest first record first. */
  function Groups(records: seq<ExpenseRecord>): (r: seq<seq<ExpenseRecord>>)
    ensures |r| == |TransactionKeys(records)|
    ensures forall g :: g in r ==> exists t :: t in TransactionKeys(records) && g == Filter(records, InTransaction(t))
  {
    var groups := Map(TransactionKeys(records), GroupFor(records));
    MapMembers(TransactionKeys(records), GroupFor(records));
    SortMembers(groups, NewerGroupFirst);
    SortLength(groups, NewerGroupFirst);
    Sort(groups, NewerGroupFirst)
  }

  /** The keys are exactly the transaction ids of the records. */
  lemma TransactionKeysAreIds(records: seq<ExpenseRecord>)
    ensures forall k :: k in TransactionKeys(records) <==> exists ex :: ex in records && ex.transactionId == k
  {
    var ids := Map(records, TransactionIdOf);
    forall k | k in ids ensures exists ex :: ex in records && ex.transactionId == k {
      var m :| 0 <= m < |ids| && ids[m] == k;
      assert records[m] in records;
    }
    forall ex | ex in records ensures ex.transactionId in ids {
      var m :| 0 <= m < |records| && records[m] == ex;
      assert ids[m] == ex.transactionId;
    }
  }

  /** The keys after one more record: its transaction id is appended unless it is already there. */
  lemma TransactionKeysSnoc(records: seq<ExpenseRecord>, ex: ExpenseRecord)
    ensures TransactionKeys(records + [ex]) ==
      if ex.transactionId in TransactionKeys(records) then TransactionKeys(records)
      else TransactionKeys(records) + [ex.transactionId]
  {
    MapSnoc(records, ex, TransactionIdOf);
    var m := Map(records + [ex], TransactionIdOf);
    assert m[..|m| - 1] == Map(records, TransactionIdOf);
  }

  /** A transaction id that no record carries has no records. */
  lemma NoKeyNoGroup(records: seq<ExpenseRecord>, transactionId: string)
    requires transactionId !in TransactionKeys(records)
    ensures Filter(records, InTransaction(transactionId)) == []
  {
    TransactionKeysAreIds(records);
    FilterKeepsNone(records, InTransaction(transactionId));
  }

  /** One more record of the prefix joins the end of its own transaction's group only. */
  lemma GroupPrefix(records: seq<ExpenseRecord>, j: nat, transactionId: string)
    requires j < |records|
    ensures Filter(records[..j + 1], InTransaction(transactionId))
         == Filter(records[..j], InTransaction(transactionId))
            + (if records[j].transactionId == transactionId then [records[j]] else [])
  {
    assert records[..j + 1] == records[..j] + [records[j]];
    FilterSnoc(records[..j], records[j], InTransaction(transactionId));
  }

  /** One more record of the prefix adds its transaction id to the keys when it is new. */
  lemma KeysPrefix(records: seq<ExpenseRecord>, j: nat)
    requires j < |records|
    ensures TransactionKeys(records[..j + 1])
         == if records[j].transactionId in TransactionKeys(records[..j]) then TransactionKeys(records[..j])
            else TransactionKeys(records[..j]) + [records[j].transactionId]
  {
    assert records[..j + 1] == records[..j] + [records[j]];
    TransactionKeysSnoc(records[..j], records[j]);
  }

  /** Pushing the next record onto its own group turns the groups of a prefix into those of the longer prefix. */
  lemma GroupsPrefix(records: seq<ExpenseRecord>, j: nat, groups: map<string, seq<ExpenseRecord>>)
    requires j < |records|
    requires forall k :: k in groups ==> groups[k] == Filter(records[..j], InTransaction(k))
    ensures var tid := records[j].transactionId;
      var pushed := groups[tid := Filter(records[..j], InTransaction(tid)) + [records[j]]];
      forall k :: k in pushed ==> pushed[k] == Filter(records[..j + 1], InTransaction(k))
  {
    var tid := records[j].transactionId;
    var pushed := groups[tid := Filter(records[..j], InTransaction(tid)) + [records[j]]];
    forall k | k in pushed ensures pushed[k] == Filter(records[..j + 1], InTransaction(k)) {
      GroupPrefix(records, j, k);
    }
  }

  /** One step of the dictionary pass: `(acc[tid] ||= []).push(ex)`. */
  method PushRecord(records: seq<ExpenseRecord>, j: nat, keys: seq<string>, groups: map<string, seq<ExpenseRecord>>)
    returns (keys': seq<string>, groups': map<string, seq<ExpenseRecord>>)
    requires j < |records|
    requires keys == TransactionKeys(records[..j])
    requires forall k :: k in groups <==> k in keys
    requires forall k :: k in groups ==> groups[k] == Filter(records[..j], InTransaction(k))
    ensures keys' == TransactionKeys(records[..j + 1])
    ensures forall k :: k in groups' <==> k in keys'
    ensures forall k :: k in groups' ==> groups'[k] == Filter(records[..j + 1], InTransaction(k))
  {
    var ex := records[j];
    var tid := ex.transactionId;
    KeysPrefix(records, j);
    keys' := keys;
    var group := [];
    if tid in groups {
      group := groups[tid];
    } else {
      NoKeyNoGroup(records[..j], tid);
      keys' := keys + [tid];
    }
    GroupsPrefix(records, j, groups);
    groups' := groups[tid := group + [ex]];
  }

  /** The dictionary pass: each record is pushed onto the list of its transaction, created empty when missing. */
  method CollectGroups(records: seq<ExpenseRecord>) returns (keys: seq<string>, groups: map<string, seq<ExpenseRecord>>)
    ensures keys == TransactionKeys(records)
    ensures forall k :: k in groups <==> k in keys
    ensures forall k :: k in groups ==> groups[k] == Filter(records, InTransaction(k))
  {
    keys := [];
    groups := map[];
    var i := 0;
    while i < |records|
      invariant 0 <= i <= |records|
      invariant keys == TransactionKeys(records[..i])
      invariant forall k :: k in groups <==> k in keys
      invariant forall k :: k in groups ==> groups[k] == Filter(records[..i], InTransaction(k))
    {
      keys, groups := PushRecord(records, i, keys, groups);
      i := i + 1;
    }
    assert records[..i] == records;
  }

  /**
   * The memo that groups the shown list: the dictionary pass, then the
   * groups in key order, sorted so that the newest first record comes first.
   */
  method GroupByTransaction(filtered: seq<ExpenseRecord>) returns (r: seq<seq<ExpenseRecord>>)
    ensures r == Groups(filtered)
  {
    var keys, groups := CollectGroups(filtered);
    var values := ValuesInKeyOrder(keys, groups);
    ghost var expected := Map(keys, GroupFor(filtered));
    forall n | 0 <= n < |keys| ensures values[n] == expected[n] {
    }
    assert values == expected;
    r := Sort(values, NewerGroupFirst);
  }

  /** The transaction a group belongs to: that of its first record. */
  function GroupTransaction(g: seq<ExpenseRecord>): string {
    if g == [] then "" else g[0].transactionId
  }

  /** The group built for a key is non-empty and belongs to that key's transaction. */
  lemma KeyGroupIsWhole(records: seq<ExpenseRecord>, k: string)
    requires k in TransactionKeys(records)
    ensures var g := Filter(records, InTransaction(k));
      g != [] && GroupTransaction(g) == k
  {
    TransactionKeysAreIds(records);
    var ex :| ex in records && ex.transactionId == k;
    var g := Filter(records, InTransaction(k));
    assert ex in g;
    assert g[0] in g;
  }

  /** A shown group is the non-empty group of its own transaction. */
  lemma GroupIsWhole(records: seq<ExpenseRecord>, g: seq<ExpenseRecord>)
    requires g in Groups(records)
    ensures g != [] && g == Filter(records, InTransaction(GroupTransaction(g)))
  {
    assert g in multiset(Groups(records));
    var keys := TransactionKeys(records);
    var values := Map(keys, GroupFor(records));
    var n :| 0 <= n < |values| && values[n] == g;
    KeyGroupIsWhole(records, keys[n]);
  }

  /**
   * Every group is non-empty and is exactly the records of the transaction
   * of its first record, in list order.
   */
  lemma GroupsAreWholeTransactions(records: seq<ExpenseRecord>)
    ensures forall g: seq<ExpenseRecord> :: g in Groups(records) ==>
      g != [] && g == Filter(records, InTransaction(GroupTransaction(g)))
  {
    forall g: seq<ExpenseRecord> | g in Groups(records)
      ensures g != [] && g == Filter(records, InTransaction(GroupTransaction(g)))
    {
      GroupIsWhole(records, g);
    }
  }

  /** Different keys give different groups. */
  lemma KeyGroupsDistinct(records: seq<ExpenseRecord>)
    ensures Distinct(Map(TransactionKeys(records), GroupFor(records)))
  {
    var keys := TransactionKeys(records);
    var values := Map(keys, GroupFor(records));
    forall i, j | 0 <= i < j < |values| ensures values[i] != values[j] {
      KeyGroupIsWhole(records, keys[i]);
      KeyGroupIsWhole(records, keys[j]);
    }
  }

  /** Different groups belong to different transactions. */
  lemma GroupsHaveDistinctTransactions(records: seq<ExpenseRecord>)
    ensures var r := Groups(records);
      forall i: int, j: int :: 0 <= i < j < |r| ==> GroupTransaction(r[i]) != GroupTransaction(r[j])
  {
    var r: seq<seq<ExpenseRecord>> := Groups(records);
    KeyGroupsDistinct(records);
    DistinctSubMultiset(Map(TransactionKeys(records), GroupFor(records)), r);
    forall i: int, j: int | 0 <= i < j < |r| ensures GroupTransaction(r[i]) != GroupTransaction(r[j]) {
      GroupIsWhole(records, r[i]);
      GroupIsWhole(records, r[j]);
    }
  }

  /** A record lies in a shown group exactly when the group is its transaction's. */
  lemma RecordInGroupIff(records: seq<ExpenseRecord>, ex: ExpenseRecord, g: seq<ExpenseRecord>)
    requires ex in records && g in Groups(records)
    ensures ex in g <==> GroupTransaction(g) == ex.transactionId
  {
    GroupIsWhole(records, g);
  }

  /** Every record lies in some shown group. */
  lemma RecordHasGroup(records: seq<ExpenseRecord>, ex: ExpenseRecord)
    requires ex in records
    ensures exists g :: g in Groups(records) && ex in g
  {
    TransactionKeysAreIds(records);
    var keys := TransactionKeys(records);
    assert ex.transactionId in keys;
    var n :| 0 <= n < |keys| && keys[n] == ex.transactionId;
    var g := Map(keys, GroupFor(records))[n];
    assert g == Filter(records, InTransaction(ex.transactionId));
    assert ex in g;
    assert g in multiset(Groups(records));
  }

  /**
   * The groups partition the list: a record lies in a group exactly when
   * the group is its transaction's, and every record lies in one.
   */
  lemma GroupsCoverEachRecordOnce(records: seq<ExpenseRecord>)
    ensures forall ex, g :: ex in records && g in Groups(records) ==> (ex in g <==> GroupTransaction(g) == ex.transactionId)
    ensures forall ex :: ex in records ==> exists g :: g in Groups(records) && ex in g
  {
    forall ex, g | ex in records && g in Groups(records) ensures ex in g <==> GroupTransaction(g) == ex.transactionId {
      RecordInGroupIff(records, ex, g);
    }
    forall ex | ex in records ensures exists g :: g in Groups(records) && ex in g {
      RecordHasGroup(records, ex);
    }
  }

  /** Groups run from the newest first record down. */
  lemma GroupsNewestFirst(records: seq<ExpenseRecord>)
    ensures var r := Groups(records);
      forall i, j :: 0 <= i < j < |r| ==> !Less(FirstDate(r[i]), FirstDate(r[j]))
  {
    NewerGroupFirstIsStrictWeakOrder();
    SortSorted(Map(TransactionKeys(records), GroupFor(records)), NewerGroupFirst);
  }

  // ---------------------------------------------------------------------------
  // Editing, settling and deleting.
  // ---------------------------------------------------------------------------

  /** The edit form's submission: the record with the new amount and date. */
  function EditedExpense(expense: ExpenseRecord, amount: real, date: string): (r: ExpenseRecord)
    ensures r.amount == amount && r.date == date
    ensures r.(amount := expense.amount, date := expense.date) == expense
  {
    expense.(amount := amount, date := date)
  }

  /** The settle button. */
  function OnSettle(s: AppState, expenseId: string): (r: AppState)
    ensures r.(expenses := s.expenses) == s && |r.expenses| == |s.expenses|
    ensures forall k :: 0 <= k < |s.expenses| ==> r.expenses[k] == s.expenses[k].(isSettled := r.expenses[k].isSettled)
    ensures forall k :: 0 <= k < |s.expenses| && s.expenses[k].id != expenseId ==> r.expenses[k] == s.expenses[k]
  {
    ToggleSettleFlipsOnlyThatRecord(s, expenseId);
    Reduce(s, ToggleSettleExpense(expenseId))
  }

  /** The delete button: the group goes only once the user confirms. */
  function OnDelete(s: AppState, transactionId: string, confirmed: bool): (r: AppState)
    ensures !confirmed ==> r == s
    ensures r.(expenses := s.expenses) == s
    ensures confirmed ==> forall ex :: ex in r.expenses <==> ex in s.expenses && ex.transactionId != transactionId
  {
    DeleteExpenseGroupByTransaction(s, transactionId);
    if confirmed then Reduce(s, DeleteExpenseGroup(transactionId)) else s
  }

  /** Saving the edit form. */
  function OnSaveEdit(s: AppState, expense: ExpenseRecord, amount: real, date: string): (r: AppState)
    ensures r.(expenses := s.expenses) == s && |r.expenses| == |s.expenses|
    ensures forall k :: 0 <= k < |s.expenses| && s.expenses[k].id != expense.id ==> r.expenses[k] == s.expenses[k]
  {
    UpdateExpenseById(s, EditedExpense(expense, amount, date));
    Reduce(s, UpdateExpense(EditedExpense(expense, amount, date)))
  }

  /**
   * Saving an edit replaces the records with the edited record's id by the
   * edited record, which differs from the original only in amount and date;
   * every other record and every other part of the state stays.
   */
  lemma SaveEditChangesOnlyAmountAndDate(s: AppState, expense: ExpenseRecord, amount: real, date: string)
    ensures var e := EditedExpense(expense, amount, date);
      && e.amount == amount && e.date == date
      && e.(amount := expense.amount, date := expense.date) == expense
    ensures var r := OnSaveEdit(s, expense, amount, date);
      && r.(expenses := s.expenses) == s
      && |r.expenses| == |s.expenses|
      && (forall k :: 0 <= k < |s.expenses| && s.expenses[k].id == expense.id ==>
            r.expenses[k] == EditedExpense(expense, amount, date))
      && (forall k :: 0 <= k < |s.expenses| && s.expenses[k].id != expense.id ==> r.expenses[k] == s.expenses[k])
  {
    UpdateExpenseById(s, EditedExpense(expense, amount, date));
  }

  /** Settling flips the flag of that record only, and settling again undoes it. */
  lemma SettleTogglesThatRecord(s: AppState, expenseId: string)
    ensures var r := OnSettle(s, expenseId);
      && r.(expenses := s.expenses) == s
      && |r.expenses| == |s.expenses|
      && (forall k :: 0 <= k < |s.expenses| ==>
            r.expenses[k] == if s.expenses[k].id == expenseId then s.expenses[k].(isSettled := !s.expenses[k].isSettled)
                             else s.expenses[k])
    ensures OnSettle(OnSettle(s, expenseId), expenseId) == s
  {
    ToggleSettleFlipsOnlyThatRecord(s, expenseId);
  }

  /**
   * A confirmed delete removes the transaction's records, so no group of
   * that transaction is shown under any filter; a declined one changes
   * nothing.
   */
  lemma DeleteRemovesTheGroup(s: AppState, transactionId: string, confirmed: bool, filterEmployeeId: string)
    ensures !confirmed ==> OnDelete(s, transactionId, confirmed) == s
    ensures confirmed ==>
      var r := OnDelete(s, transactionId, confirmed);
      && r.(expenses := s.expenses) == s
      && (forall ex :: ex in r.expenses <==> ex in s.expenses && ex.transactionId != transactionId)
      && (forall g: seq<ExpenseRecord> :: g in Groups(FilteredExpenses(r.expenses, filterEmployeeId)) ==>
            GroupTransaction(g) != transactionId)
  {
    if confirmed {
      var r := OnDelete(s, transactionId, confirmed);
      DeleteExpenseGroupByTransaction(s, transactionId);
      var shown := FilteredExpenses(r.expenses, filterEmployeeId);
      GroupsAreWholeTransactions(shown);
      forall g: seq<ExpenseRecord> | g in Groups(shown) ensures GroupTransaction(g) != transactionId {
        GroupIsWhole(shown, g);
        assert g[0] in g;
        assert g[0] in multiset(shown);
      }
    }
  }

  /**
   * The app starts with its default name and theme and no participants,
   * items or records, so the details screen shows no balance line and no
   * group under any filter.
   */
  lemma InitialStateShowsNothing(filterEmployeeId: string)
    ensures InitialState.appName == "حسابگر دُنگ"
    ensures InitialState.theme == "default"
    ensures InitialState.employees == [] && InitialState.items == [] && InitialState.expenses == []
    ensures Balances(InitialState.employees, InitialState.expenses, filterEmployeeId) == []
    ensures FilteredExpenses(InitialState.expenses, filterEmployeeId) == []
    ensures Groups(FilteredExpenses(InitialState.expenses, filterEmployeeId)) == []
  {
  }
}
