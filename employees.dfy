/**
 * The participant screen: normalising a phone number picked from the
 * address book, the form's submit guard, and the save handler that turns
 * the form's data into an add or an update of the participant list.
 */
module Employees {
  import opened Types
  import opened Seqs
  import opened Reducer

  // ---------------------------------------------------------------------------
  // Phone normalisation.
  // ---------------------------------------------------------------------------

  /**
   * The characters the class `[\s-()]` matches: JavaScript white space and
   * line terminators, the hyphen and both parentheses. (Beside a class
   * escape such as `\s`, the `-` is an ordinary character.)
   */
  predicate IsSeparator(c: char) {
    || c == ' ' || c == '\t' || c == '\n' || c == '\r'
    || c == '\U{000B}' || c == '\U{000C}'
    || c == '\U{00A0}' || c == '\U{1680}'
    || ('\U{2000}' <= c <= '\U{200A}')
    || c == '\U{2028}' || c == '\U{2029}' || c == '\U{202F}' || c == '\U{205F}'
    || c == '\U{3000}' || c == '\U{FEFF}'
    || c == '-' || c == '(' || c == ')'
  }

  function KeepsChar(c: char): bool {
    !IsSeparator(c)
  }

  /** `replace(/[\s-()]/g, '')`: every separator removed, the rest in order. */
  function StripSeparators(s: string): (r: string)
    ensures forall c :: c in r <==> c in s && !IsSeparator(c)
    ensures forall c :: multiset(r)[c] == if IsSeparator(c) then 0 else multiset(s)[c]
    ensures Subsequence(r, s)
  {
    FilterIsSubsequence(s, KeepsChar);
    Filter(s, KeepsChar)
  }

  /** The stripped text already carries a leading zero. */
  predicate StartsWithZero(t: string) {
    |t| >= 1 && t[0] == '0'
  }

  /** The stripped text carries the international prefix `+98`. */
  predicate StartsWithCountryCode(t: string) {
    |t| >= 3 && t[..3] == "+98"
  }

  /**
   * The number stored for an imported contact: separators stripped; then,
   * unless it already starts with `0`, a `0` in front, replacing a `+98`
   * prefix when there is one.
   */
  function NormalizePhone(phone: string): (r: string)
    ensures |r| >= 1 && r[0] == '0'
    ensures forall c :: c in r ==> !IsSeparator(c)
  {
    var t := StripSeparators(phone);
    if StartsWithZero(t) then t
    else "0" + t[(if StartsWithCountryCode(t) then 3 else 0)..]
  }

  /**
   * The three outcomes, stated on how the stripped text is built: a number
   * that starts with `0` is kept; `+98` followed by `d` becomes `0` followed
   * by `d`; anything else gets a `0` in front.
   */
  lemma NormalizePhoneCases(phone: string)
    ensures var t := StripSeparators(phone);
      && (forall d :: t == "0" + d ==> NormalizePhone(phone) == t)
      && (forall d :: t == "+98" + d ==> NormalizePhone(phone) == "0" + d)
      && (!StartsWithZero(t) && !StartsWithCountryCode(t) ==> NormalizePhone(phone) == "0" + t)
  {
    var t := StripSeparators(phone);
    forall d | t == "+98" + d ensures NormalizePhone(phone) == "0" + d {
      assert t[..3] == "+98" && t[3..] == d;
    }
  }

  /** Stripping text that holds no separator changes nothing. */
  lemma StripClean(t: string)
    requires forall c :: c in t ==> !IsSeparator(c)
    ensures StripSeparators(t) == t
  {
    FilterKeepsAll(t, KeepsChar);
  }

  /** A normalised number is its own normal form. */
  lemma NormalizePhoneIdempotent(phone: string)
    ensures NormalizePhone(NormalizePhone(phone)) == NormalizePhone(phone)
  {
    var r := NormalizePhone(phone);
    StripClean(r);
  }

  // ---------------------------------------------------------------------------
  // The form and the save handler.
  // ---------------------------------------------------------------------------

  /** What the form hands to its `onSave`: a participant without an id. */
  datatype EmployeeData = EmployeeData(name: string, phone: string)

  /** The submit guard: the form saves only when both fields are filled in. */
  function SubmitForm(name: string, phone: string): (r: Option<EmployeeData>)
    ensures r.Some? <==> name != "" && phone != ""
    ensures r.Some? ==> r.value.name == name && r.value.phone == phone
  {
    if name != "" && phone != "" then Some(EmployeeData(name, phone)) else None
  }

  /**
   * The action the save handler dispatches: the participant being edited
   * with the form's name and phone, or a new participant whose id the
   * caller supplies (the app takes it from the clock).
   */
  function SaveEmployee(editing: Option<Employee>, data: EmployeeData, freshId: string): (a: Action)
    ensures editing.Some? ==> a.UpdateEmployee? && a.employee.id == editing.value.id
    ensures editing.None? ==> a.AddEmployee? && a.newEmployee.id == freshId
    ensures a.UpdateEmployee? ==> a.employee.name == data.name && a.employee.phone == data.phone
    ensures a.AddEmployee? ==> a.newEmployee.name == data.name && a.newEmployee.phone == data.phone
  {
    match editing
    case Some(e) => UpdateEmployee(e.(name := data.name, phone := data.phone))
    case None => AddEmployee(Employee(freshId, data.name, data.phone))
  }

  /** No two participants share an id. */
  predicate UniqueIds(employees: seq<Employee>) {
    forall i, j :: 0 <= i < j < |employees| ==> employees[i].id != employees[j].id
  }

  /**
   * Saving while editing rewrites the participants with the edited id to
   * carry the new name and phone and leaves every other participant and the
   * rest of the state alone; saving a new one appends it.
   */
  lemma SaveEmployeeEffect(s: AppState, editing: Option<Employee>, data: EmployeeData, freshId: string)
    ensures var r := Reduce(s, SaveEmployee(editing, data, freshId));
      r.(employees := s.employees) == s
    ensures editing.Some? ==>
      var r := Reduce(s, SaveEmployee(editing, data, freshId));
      && |r.employees| == |s.employees|
      && (forall k :: 0 <= k < |s.employees| && s.employees[k].id == editing.value.id ==>
            r.employees[k] == Employee(editing.value.id, data.name, data.phone))
      && (forall k :: 0 <= k < |s.employees| && s.employees[k].id != editing.value.id ==>
            r.employees[k] == s.employees[k])
    ensures editing.None? ==>
      Reduce(s, SaveEmployee(editing, data, freshId)).employees == s.employees + [Employee(freshId, data.name, data.phone)]
  {
    var a := SaveEmployee(editing, data, freshId);
    if editing.Some? {
      UpdateEmployeeById(s, a.employee);
    }
  }

  /**
   * Ids stay unique across a save, provided a new participant's id is not
   * already taken; an edit never changes an id.
   */
  lemma SaveEmployeeKeepsIdsUnique(s: AppState, editing: Option<Employee>, data: EmployeeData, freshId: string)
    requires UniqueIds(s.employees)
    requires editing.None? ==> forall e :: e in s.employees ==> e.id != freshId
    ensures UniqueIds(Reduce(s, SaveEmployee(editing, data, freshId)).employees)
  {
    var r := Reduce(s, SaveEmployee(editing, data, freshId));
    SaveEmployeeEffect(s, editing, data, freshId);
    if editing.Some? {
      assert forall k :: 0 <= k < |s.employees| ==> r.employees[k].id == s.employees[k].id;
    } else {
      forall i, j | 0 <= i < j < |r.employees| ensures r.employees[i].id != r.employees[j].id {
        if j == |s.employees| {
          assert s.employees[i] in s.employees;
        }
      }
    }
  }
}
