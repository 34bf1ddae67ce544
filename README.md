# Expense-splitting ledger — a Dafny model

This project models the logic of a small browser app for sharing group
expenses. Users keep a list of participants ("employees") and a catalog of
items with unit prices. They pick quantities and participants, and save
the split as one expense group: one record per participant, each carrying an
equal share. The app then shows the records filtered and sorted by date,
grouped by transaction, and summarised as per-participant outstanding
balances. Records can be settled, edited or deleted.

The model has eight modules, one file each:

| module | file | models |
|---|---|---|
| `Types` | types.dfy | the data shapes: `Employee`, `Item`, `ExpenseRecord`, `AppState`, `Action` |
| `Seqs` | seqs.dfy | `filter`/`map` on arrays, distinctness, first-occurrence key order |
| `Text` | text.dfy | string order (for `localeCompare`), `join`, integer-to-text |
| `Sorting` | sorting.dfy | the stable `Array.prototype.sort` with a comparator |
| `Reducer` | reducer.dfy | `appReducer` and `initialState` |
| `Split` | split.dfy | the expense screen: total and share, quantity and participant selection, saving a split |
| `Details` | details.dfy | the details screen: filtered list, balances, grouping, settle/edit/delete |
| `Employees` | employees.dfy | the participant screen: phone normalisation, form guard, save handler |

Pure code is modelled as functions with lemmas. Code that fills a dictionary
in a loop is modelled as methods with loop invariants: the balance summary
and the transaction grouping. So is code that copies a collection and then
mutates it: the quantity map and the participant selection. Each such method
is proved equal to a specification function, and the properties are proved
about that function.

Modelling decisions:
- Money is an exact `real`.
- A JavaScript `Set` of selected ids is a duplicate-free `seq<string>` in insertion order.
- A JavaScript object that gains keys one by one lists them in first-insertion order (`Seqs.Dedup`).
- Clock-derived ids (`Date.now()`) are parameters.
- `window.confirm` is a boolean parameter.

## Model

| member | source | states |
|---|---|---|
| Reducer.Reduce | context/AppContext.tsx:19-50 | each action changes only the field it names: `SET_STATE` replaces the state; every other action keeps the app name, theme, participants, items and records unless it targets that field |
| Reducer.SetStateRoundTrip | context/AppContext.tsx:21-22 | restoring a saved state yields exactly that state, from any state, including the initial one |
| Reducer.SetScalarsOnly | context/AppContext.tsx:23-26 | renaming the app or switching the theme changes that field and nothing else |
| Reducer.AddEmployeeAppends | context/AppContext.tsx:27-28 | an added participant goes last; the old list is a prefix of the new one |
| Reducer.UpdateEmployeeById | context/AppContext.tsx:29-30 | length and order kept; every participant with the payload's id becomes the payload, the others stay; an unknown id leaves the state unchanged |
| Reducer.DeleteEmployeeById | context/AppContext.tsx:31-32 | exactly the participants with that id go; survivors keep multiplicity and order; records are untouched (no cascade) |
| Reducer.AddItemAppends | context/AppContext.tsx:33-34 | an added item goes last; the old catalog is a prefix |
| Reducer.UpdateItemById | context/AppContext.tsx:35-36 | as for participants, keyed on the item id |
| Reducer.DeleteItemById | context/AppContext.tsx:37-38 | as for participants, keyed on the item id; records untouched |
| Reducer.AddExpenseGroupAppends | context/AppContext.tsx:39-40 | the group's records follow the existing ones, in payload order |
| Reducer.UpdateExpenseById | context/AppContext.tsx:41-42 | as for participants, keyed on the record id |
| Reducer.DeleteExpenseGroupByTransaction | context/AppContext.tsx:43-44 | exactly the records of that transaction go, the rest keep order; deleting again changes nothing |
| Reducer.ToggleSettleFlipsOnlyThatRecord | context/AppContext.tsx:45-46 | only `isSettled` of the records with that id flips; toggling twice restores the state |
| Reducer.UnrecognizedIsIdentity | context/AppContext.tsx:47-48 | an unknown action leaves the state as it is |
| Details.InitialStateShowsNothing | context/AppContext.tsx:6-12 | the app starts with its default name and theme and no participants, items or records, so the details screen shows no record, no balance line and no group under any filter |
| Split.QuantityChanged | views/ExpensesView.tsx:59-72 | the entry holds the new quantity when it is above 0 and is absent otherwise; no other entry changes; all-positive quantities stay all-positive |
| Split.ChangeQuantity | views/ExpensesView.tsx:59-72 | the handler's copy-then-store-or-delete yields `QuantityChanged` |
| Split.QuantityChangedMovesOneEntry | views/ExpensesView.tsx:62-69 | for a non-negative new quantity, that item's quantity moves by `change` and every other item's stays |
| Split.QuantityChangeShiftsTotal | views/ExpensesView.tsx:49-72 | changing an item's quantity by `change` moves the total by `change` times that item's catalog price |
| Split.Toggled | views/ExpensesView.tsx:74-82 | membership of exactly that id flips; an absent id is appended; removing keeps the others' order; duplicate-freedom is kept |
| Split.ToggleEmployee | views/ExpensesView.tsx:74-82 | the handler's copy-then-add-or-delete yields `Toggled` |
| Split.ToggleTwiceSameMembers | views/ExpensesView.tsx:74-82 | toggling the same id twice restores the set of selected ids |
| Split.ToggleTwiceRestoresAbsent | views/ExpensesView.tsx:74-82 | for an id that was not selected, toggling twice restores the exact selection |
| Split.ToggleTwiceMovesToEnd | views/ExpensesView.tsx:76-79 | for a selected id, toggling twice moves it to the end of the selection order |
| Split.TotalCost | views/ExpensesView.tsx:50-52 | the sum, over the catalog items with a selected quantity, of price times quantity; carries no contract of its own: what it promises is stated by the lemmas in the next five rows and by `Split.QuantityChangeShiftsTotal` |
| Split.TotalCostReadsCatalogOnly | views/ExpensesView.tsx:50-52 | the total depends only on the quantities of catalog items |
| Split.UnknownIdAddsNothing | views/ExpensesView.tsx:50-52 | a quantity stored for an id that is not in the catalog adds nothing |
| Split.NothingSelectedCostsNothing | views/ExpensesView.tsx:50-52 | with no catalog item selected the total is 0 |
| Split.TotalCostNonNegative | views/ExpensesView.tsx:50-52 | non-negative prices and positive quantities give a non-negative total |
| Split.ContributionIsPriceTimesQuantity | views/ExpensesView.tsx:52 | an item contributes price times its quantity (0 when unselected) |
| Split.CostPerPerson | views/ExpensesView.tsx:54 | with n > 0 selected, n shares make up the total; with none the share is 0 |
| Split.ThreeWaySplitExample | views/ExpensesView.tsx:49-57 | two items at 1000 and one at 500 total 2500, a third each for three people |
| Split.FindEmployee | views/ExpensesView.tsx:102 | the first participant with that id, or none when no participant has it |
| Split.EmployeeName | views/ExpensesView.tsx:102-107 | the first participant with that id gives the name: its own name when that is non-empty, the fallback otherwise; an unknown id gives the fallback; never empty |
| Split.ItemLabel | views/ExpensesView.tsx:98 | a label is the item's name, ` (×`, the quantity in decimal and `)`; the digits between read back as the item's quantity |
| Split.Description | views/ExpensesView.tsx:96-99 | the description is empty exactly when no catalog item is selected |
| Split.DescriptionSnoc | views/ExpensesView.tsx:96-99 | the description lists the labels `name (×qty)` of the selected items in catalog order: one more selected item adds the separator (if anything precedes) and its label at the end, an unselected one adds nothing |
| Split.RecordId | views/ExpensesView.tsx:104 | a record id splits back into the transaction id, a dash and the participant id |
| Split.RecordIdInjective | views/ExpensesView.tsx:104 | within one transaction, equal record ids mean equal participant ids |
| Split.BuildRecords | views/ExpensesView.tsx:101-113 | one unsettled record per selected id, in order, sharing transaction, date, description and amount; distinct ids for distinct participants |
| Split.SaveSplit | views/ExpensesView.tsx:89-119 | refuses to save, and leaves the form as it was, exactly when the total is 0 or nobody is selected; otherwise dispatches one expense group and clears the selections but keeps the date |
| Split.SavedGroupSplitsTotal | views/ExpensesView.tsx:89-119 | a saved group has one unsettled record per selected participant, in selection order; record k has id `transactionId-employeeId`, the participant's looked-up name, the per-person share of the total, and the form's date and the description; the ids are distinct and the amounts add up to the total |
| Split.SharesAddUp | views/ExpensesView.tsx:108 | n records each carrying the n-way share of a total sum to that total |
| Text.LessAsymmetric | views/DetailsView.tsx:53 | the string order never puts two strings both ways round |
| Text.LessTransitive | views/DetailsView.tsx:53 | the string order is transitive |
| Text.LessTotal | views/DetailsView.tsx:53 | two different strings are always ordered |
| Text.NeitherLessIsEqual | views/DetailsView.tsx:53 | comparing equal means being equal |
| Text.Join | views/ExpensesView.tsx:99 | the parts with the separator only between neighbours: length, and the first part leads |
| Text.JoinSnoc | views/ExpensesView.tsx:99 | one more part adds the separator and that part at the end |
| Text.IntToStringRoundTrip | views/ExpensesView.tsx:98 | the decimal rendering of a quantity reads back as that quantity |
| Sorting.Sort | views/DetailsView.tsx:53 | sorting is a permutation of its input |
| Sorting.SortSorted | views/DetailsView.tsx:53 | with a comparator that is a strict weak order, the result is sorted |
| Sorting.SortStable | views/DetailsView.tsx:53 | elements the comparator ties keep their input order |
| Sorting.SortOfSorted | views/DetailsView.tsx:53 | a sorted input comes back unchanged |
| Details.NewerFirstIsStrictWeakOrder | views/DetailsView.tsx:53 | the date comparator is a strict weak order |
| Details.TiedOnDateIsSameDate | views/DetailsView.tsx:53 | two records tie under the comparator exactly when their dates are equal |
| Details.FilteredExpenses | views/DetailsView.tsx:50-54 | a record is listed exactly when it is in the state and passes the filter (every record for the empty filter); the list is no longer than the state's |
| Details.FilteredExpensesAreMatchesNewestFirst | views/DetailsView.tsx:50-54 | the list holds each matching record as often as the state does and nothing else (all records for the empty filter), with dates never increasing |
| Details.FilteredExpensesKeepOrderWithinADate | views/DetailsView.tsx:50-54 | records sharing a date keep their order from the state |
| Details.OwedNothing | views/DetailsView.tsx:63-69 | records of other participants add nothing to a participant's total |
| Details.EmployeeKeysAreIds | views/DetailsView.tsx:59-61 | the dictionary keys are exactly the participants' ids, each once |
| Details.SeedBalances | views/DetailsView.tsx:59-61 | the first pass gives one entry per participant id at total 0, named after the last participant with that id |
| Details.AddOne | views/DetailsView.tsx:65-68 | one record adds its amount to its participant's entry if there is one, and to nothing else |
| Details.AddOwed | views/DetailsView.tsx:63-69 | the second pass adds to every entry what its participant owes on the given records and creates no keys |
| Details.ValuesInKeyOrder | views/DetailsView.tsx:71 | `Object.values` lists the entries in key order |
| Details.LargerFirstIsStrictWeakOrder | views/DetailsView.tsx:73 | the total comparator is a strict weak order |
| Details.Balances | views/DetailsView.tsx:56-74 | every line has a non-zero total and belongs to an existing participant; `Details.BalanceLinesAreOutstandingTotals` and the rows after it state the rest |
| Details.EmployeeBalances | views/DetailsView.tsx:56-74 | the three passes compute the balance summary `Balances` |
| Details.BalanceLinesAreOutstandingTotals | views/DetailsView.tsx:56-74 | every line belongs to an existing participant, carries their name, and has a non-zero total equal to what they owe on unsettled, filter-passing records |
| Details.BalancesListEveryDebtor | views/DetailsView.tsx:71-72 | every participant who owes a non-zero amount has a line |
| Details.BalancesHaveDistinctIds | views/DetailsView.tsx:57-61 | no participant has two lines |
| Details.BalancesLargestFirst | views/DetailsView.tsx:73 | lines run from the largest total down |
| Details.FilteredBalancesShowOnlyThatEmployee | views/DetailsView.tsx:64 | under a filter only that participant can appear, and nobody does when all their records are settled |
| Details.IgnoredRecordLeavesBalances | views/DetailsView.tsx:64-68 | a settled record, or one whose participant does not exist, leaves the summary unchanged |
| Details.TransactionKeysAreIds | views/DetailsView.tsx:78-81 | the group keys are exactly the records' transaction ids, each once |
| Details.PushRecord | views/DetailsView.tsx:79-82 | one step appends the record to its transaction's group, creating it when missing |
| Details.CollectGroups | views/DetailsView.tsx:77-83 | the dictionary maps each transaction id to that transaction's records, in list order |
| Details.Groups | views/DetailsView.tsx:76-85 | one group per distinct transaction id, and each group is all the records of one of those transactions, in list order |
| Details.GroupByTransaction | views/DetailsView.tsx:76-85 | the memo computes the group list `Groups` |
| Details.NewerGroupFirstIsStrictWeakOrder | views/DetailsView.tsx:84 | the group comparator is a strict weak order |
| Details.GroupsAreWholeTransactions | views/DetailsView.tsx:76-85 | every group is non-empty and holds exactly its transaction's records, in list order |
| Details.GroupsHaveDistinctTransactions | views/DetailsView.tsx:76-85 | no two groups belong to the same transaction |
| Details.GroupsCoverEachRecordOnce | views/DetailsView.tsx:76-85 | a record lies in a group exactly when the group is its transaction's, and in some group always |
| Details.GroupsNewestFirst | views/DetailsView.tsx:84 | groups run from the newest first record down |
| Details.EditedExpense | views/DetailsView.tsx:17 | the submitted record carries the form's amount and date and agrees with the original in every other field |
| Details.OnSettle | views/DetailsView.tsx:87-89 | settling changes only the records list, keeps its length, changes at most the settled flag of each record, and leaves records with other ids as they were |
| Details.OnDelete | views/DetailsView.tsx:91-95 | a declined delete changes nothing; a confirmed one changes only the records list, which keeps exactly the records of other transactions |
| Details.OnSaveEdit | views/DetailsView.tsx:101-104 | saving an edit changes only the records list, keeps its length, and leaves records with other ids as they were |
| Details.SaveEditChangesOnlyAmountAndDate | views/DetailsView.tsx:15-18 | the edited record differs from the original only in amount and date; saving it replaces the records with its id and nothing else |
| Details.SettleTogglesThatRecord | views/DetailsView.tsx:87-89 | settling flips that record only; settling twice restores the state |
| Details.DeleteRemovesTheGroup | views/DetailsView.tsx:91-95 | a confirmed delete removes exactly that transaction's records, so no group of it remains under any filter; a declined one changes nothing |
| Employees.StripSeparators | EmployeesView.tsx:34 | a character survives exactly when it is not white space, `-`, `(` or `)`; each survivor keeps its number of occurrences, and the result keeps the input's order |
| Employees.NormalizePhone | EmployeesView.tsx:34-37 | the result starts with `0` and contains no separator |
| Employees.NormalizePhoneCases | EmployeesView.tsx:35-36 | a stripped number starting with `0` is kept; `+98` then `d` becomes `0` then `d`; anything else gets a leading `0` |
| Employees.StripClean | EmployeesView.tsx:34 | stripping text without separators changes nothing |
| Employees.NormalizePhoneIdempotent | EmployeesView.tsx:34-37 | normalising a normalised number changes nothing |
| Employees.SubmitForm | EmployeesView.tsx:17-22 | the form saves exactly when both name and phone are non-empty, and passes them on as they are |
| Employees.SaveEmployee | EmployeesView.tsx:102-107 | editing dispatches an update keeping the edited id; adding dispatches an add with the fresh id; both carry the form's name and phone |
| Employees.SaveEmployeeEffect | EmployeesView.tsx:102-109 | an edit rewrites the participants with that id to the new name and phone and leaves everything else alone; an add appends the new participant |
| Employees.SaveEmployeeKeepsIdsUnique | EmployeesView.tsx:102-107 | participant ids stay unique across a save when a new participant's id is not already taken |

## Left out

- Persistence: the local-storage hook, and the effect that writes the state back, are I/O and are not modelled. Restoring is covered through `SET_STATE`.
- Clock ids: `Date.now()` ids and transaction ids are parameters (`transactionId`, `freshId`). Which ids are fresh is a caller's precondition.
- Browser calls: `alert`, the contact picker, `navigator.share` and the clipboard are not modelled. `window.confirm` is the boolean parameter `confirmed`. The phone number is modelled from the moment the picker returns it.
- Share handler: the share text and `handleShare` are presentation and are not modelled.
- Number representation: IEEE-754 rounding, `Number()` parsing of the edit field, and NaN are not modelled. Amounts are exact reals, and the edited amount arrives as a real. In reals the summation order does not matter; in floating point it can.
- Text.Less: `localeCompare` is modelled as code-point lexicographic order, not locale collation. The model proves only the order properties the sort relies on.
- Seqs.Dedup: an object's key order is modelled as first-insertion order. JavaScript lists integer-like keys first, numerically, and the model does not capture that. Clock-derived ids are far beyond that range.
- Prototype keys: a record whose participant or transaction id names an inherited object property (e.g. `constructor`) behaves differently in JavaScript. That is not modelled.
- Item screen: `ItemForm` and `handleSaveItem` are out of this model; the reducer's item actions are modelled. Modal and editing-dialog state and all rendering are also out of this model.
- Split.QuantityChangeShiftsTotal: stated only when the new quantity is not negative. When it would drop below 0 the entry is deleted, which `QuantityChanged` states, so the total loses the item's whole contribution rather than `change` times its price.
- Split.SavedGroupSplitsTotal: requires a duplicate-free selection, which a JavaScript `Set` always is; `Split.Toggled` preserves it.
- Split.ToggleTwiceSameMembers: "toggling twice restores the selection" holds as a set of ids. As an ordered selection it holds only for an id that was not selected (`Split.ToggleTwiceRestoresAbsent`). Deleting then re-adding a selected id moves it to the end of the `Set`'s insertion order (`Split.ToggleTwiceMovesToEnd`), and that order is the order of the saved records.
- Details.FilteredExpensesKeepOrderWithinADate: stability is stated for records tied with a given record under the comparator. `Details.TiedOnDateIsSameDate` shows that this means records with the same date.
