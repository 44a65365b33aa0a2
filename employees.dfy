/**
 * The employee administration screen (`EmployeesViewModel`): the filter the
 * grid applies, loading with ordering and numbering, the filtered list with
 * its renumbering, the save dialog's checks, deleting with its guard against
 * employees that still have tasks, activation, and the date-range shortcuts.
 *
 * The database is a sequence of records handed in and handed back.  The
 * grid rows, the selected row and the database context share employee
 * objects; the model keeps one value per copy and updates every copy with
 * the same `Id`.
 */
module Employees {
  import opened Wrappers
  import opened Text
  import opened Calendar
  import opened Records
  import opened Listing

  // ---------------------------------------------------------------------------
  // The filter
  // ---------------------------------------------------------------------------

  /** `StatusFilterItem`: a label and the `IsActive` value it keeps (`None` keeps all). */
  datatype StatusFilterItem = StatusFilterItem(name: string, isActiveFilter: Option<bool>)

  /** `InitializeStatusFilters`: the three entries of the status box, "all" first. */
  function StatusFilters(): (r: seq<StatusFilterItem>)
    ensures |r| == 3 && r[0].isActiveFilter.None?
    ensures r[1].isActiveFilter == Some(true) && r[2].isActiveFilter == Some(false)
  {
    [ StatusFilterItem("Все сотрудники", None),
      StatusFilterItem("Только активные", Some(true)),
      StatusFilterItem("Только неактивные", Some(false)) ]
  }

  /** What `FilterEmployees` reads: the search text, the status box, the role box and the date bounds (day numbers). */
  datatype EmployeeFilter = EmployeeFilter(
    searchText: string,
    status: Option<StatusFilterItem>,
    role: Option<EmployeeRole>,
    start: Option<int>,
    end: Option<int>)

  const DeletedMessage: string := "Сотрудник успешно УДАЛЕН из базы данных"

  /** The filter the constructor and `ExecuteClearFilters` set: "all" statuses, no role, thirty days either side of today. */
  function DefaultFilter(today: Date): EmployeeFilter
    requires ValidDate(today)
  {
    EmployeeFilter("", Some(StatusFilters()[0]), None, Some(DefaultRange(today).start), Some(DefaultRange(today).end))
  }

  /** `employee.Role?.Name ?? ""`. */
  function RoleName(e: Employee): string
  {
    if e.role.Some? then e.role.value.name else ""
  }

  /** The search text, lower-cased, occurs in a lower-cased name, e-mail or role name. */
  predicate MatchesSearch(search: string, e: Employee)
  {
    var s := ToLower(search);
    Contains(ToLower(e.firstName), s) || Contains(ToLower(e.lastName), s)
    || Contains(ToLower(e.email), s) || Contains(ToLower(RoleName(e)), s)
  }

  /** The inclusive date test on the date part of the creation time. */
  predicate WithinDates(created: Instant, start: Option<int>, end: Option<int>)
  {
    !(start.Some? && DayOf(created) < start.value) && !(end.Some? && DayOf(created) > end.value)
  }

  /** `FilterEmployees`, test by test in the order the source runs them. */
  predicate FilterEmployees(f: EmployeeFilter, e: Employee)
  {
    if !IsNullOrWhiteSpace(f.searchText) && !MatchesSearch(f.searchText, e) then false
    else if f.status.Some? && f.status.value.isActiveFilter.Some? && e.isActive != f.status.value.isActiveFilter.value then false
    else if f.role.Some? && e.roleId != f.role.value.id then false
    else WithinDates(e.created, f.start, f.end)
  }

  /** The filter as the function the list operations take. */
  function AcceptOf(f: EmployeeFilter): Employee -> bool
  {
    e => FilterEmployees(f, e)
  }

  /** Some field holds the lower-cased search text at some position. */
  ghost predicate SearchHit(s: string, e: Employee)
  {
    (exists k :: OccursAt(ToLower(e.firstName), s, k)) || (exists k :: OccursAt(ToLower(e.lastName), s, k))
    || (exists k :: OccursAt(ToLower(e.email), s, k)) || (exists k :: OccursAt(ToLower(RoleName(e)), s, k))
  }

  /**
   * An employee passes exactly when every constraint holds: a non-blank search
   * occurs in a field, a chosen status matches, a chosen role matches, and the
   * creation date lies within the bounds that are set.
   */
  lemma FilterEmployeesIff(f: EmployeeFilter, e: Employee)
    ensures FilterEmployees(f, e) <==>
      (IsNullOrWhiteSpace(f.searchText) || SearchHit(ToLower(f.searchText), e))
      && (f.status.None? || f.status.value.isActiveFilter.None? || e.isActive == f.status.value.isActiveFilter.value)
      && (f.role.None? || e.roleId == f.role.value.id)
      && (f.start.None? || f.start.value <= DayOf(e.created))
      && (f.end.None? || DayOf(e.created) <= f.end.value)
  {
    MatchesSearchIff(f.searchText, e);
  }

  /** The search matches exactly when the lower-cased text occurs somewhere in a lower-cased field. */
  lemma MatchesSearchIff(search: string, e: Employee)
    ensures MatchesSearch(search, e) <==> SearchHit(ToLower(search), e)
  {
    var s := ToLower(search);
    ContainsAt(ToLower(e.firstName), s);
    ContainsAt(ToLower(e.lastName), s);
    ContainsAt(ToLower(e.email), s);
    ContainsAt(ToLower(RoleName(e)), s);
  }

  /** With a blank search, "all" statuses, no role and no dates, every employee passes. */
  lemma EmptyFilterAcceptsAll(search: string, e: Employee)
    requires IsNullOrWhiteSpace(search)
    ensures FilterEmployees(EmployeeFilter(search, Some(StatusFilters()[0]), None, None, None), e)
    ensures FilterEmployees(EmployeeFilter(search, None, None, None, None), e)
  {
  }

  // ---------------------------------------------------------------------------
  // Ordering
  // ---------------------------------------------------------------------------

  /** `OrderBy(e => e.LastName).ThenBy(e => e.FirstName)`, ordinal. */
  predicate ByName(a: Employee, b: Employee)
  {
    (StringLe(a.lastName, b.lastName) && a.lastName != b.lastName)
    || (a.lastName == b.lastName && StringLe(a.firstName, b.firstName))
  }

  lemma ByNameTotal()
    ensures Total(ByName)
  {
    forall a: Employee, b: Employee
      ensures ByName(a, b) || ByName(b, a)
    {
      StringLeTotal(a.lastName, b.lastName);
      StringLeTotal(a.firstName, b.firstName);
    }
  }

  /** The employees in the order the load query returns them. */
  function SortedByName(db: seq<Employee>): (r: seq<Employee>)
    ensures multiset(r) == multiset(db)
    ensures forall i :: 0 < i < |r| ==> ByName(r[i - 1], r[i])
  {
    ByNameTotal();
    SortBy(db, ByName)
  }

  /** The full list after a load: sorted, numbered 1..n, then renumbered by the filter. */
  function LoadedRows(db: seq<Employee>, f: EmployeeFilter): seq<Numbered<Employee>>
  {
    RenumberAll(NumberFrom(SortedByName(db), 1), AcceptOf(f))
  }

  /** The filtered list after a load. */
  function LoadedFiltered(db: seq<Employee>, f: EmployeeFilter): seq<Numbered<Employee>>
  {
    NumberFrom(Select(SortedByName(db), AcceptOf(f)), 1)
  }

  /** After a load the filtered list holds the accepted employees, sorted and numbered 1..n. */
  lemma LoadedFilteredIsSortedAndNumbered(db: seq<Employee>, f: EmployeeFilter)
    ensures Items(LoadedFiltered(db, f)) == Select(SortedByName(db), AcceptOf(f))
    ensures forall k :: 0 <= k < |LoadedFiltered(db, f)| ==> LoadedFiltered(db, f)[k].orderNumber == k + 1
    ensures forall e :: e in db && FilterEmployees(f, e) ==> e in Items(LoadedFiltered(db, f))
    ensures forall k :: 0 <= k < |LoadedFiltered(db, f)| ==> FilterEmployees(f, LoadedFiltered(db, f)[k].item)
  {
    var sorted := SortedByName(db);
    ItemsOfNumberFrom(Select(sorted, AcceptOf(f)), 1);
    forall e | e in db && FilterEmployees(f, e)
      ensures e in Items(LoadedFiltered(db, f))
    {
      assert e in multiset(db);
      assert e in sorted;
      SelectKeepsAccepted(sorted, AcceptOf(f), e);
    }
  }

  // ---------------------------------------------------------------------------
  // Save-dialog checks
  // ---------------------------------------------------------------------------

  /** The message box `ExecuteSaveEmployee` shows for the first failing check, if any. */
  function SaveError(editing: Employee, isEditMode: bool, password: string, confirmPassword: string): Option<string>
  {
    if IsNullOrWhiteSpace(editing.firstName) then Some("Имя обязательно для заполнения")
    else if IsNullOrWhiteSpace(editing.lastName) then Some("Фамилия обязательна для заполнения")
    else if IsNullOrWhiteSpace(editing.email) then Some("Email обязателен для заполнения")
    else if !isEditMode && IsNullOrWhiteSpace(password) then Some("Пароль обязателен для заполнения")
    else if !isEditMode && password != confirmPassword then Some("Пароли не совпадают")
    else if !isEditMode && |password| < 6 then Some("Пароль должен содержать минимум 6 символов")
    else None
  }

  /**
   * Saving goes ahead exactly when the names and e-mail are filled in and, for
   * a new employee only, the password is filled in, confirmed and at least six
   * characters long.
   */
  lemma SaveErrorIff(editing: Employee, isEditMode: bool, password: string, confirmPassword: string)
    ensures SaveError(editing, isEditMode, password, confirmPassword).None? <==>
      !IsNullOrWhiteSpace(editing.firstName) && !IsNullOrWhiteSpace(editing.lastName)
      && !IsNullOrWhiteSpace(editing.email)
      && (isEditMode || (!IsNullOrWhiteSpace(password) && password == confirmPassword && |password| >= 6))
    ensures isEditMode ==> SaveError(editing, isEditMode, password, confirmPassword) == SaveError(editing, true, "", "")
  {
  }

  /** The key the table and the grid rows are looked up by. */
  function EmployeeKey(e: Employee): int
  {
    e.id
  }

  function RowKey(row: Numbered<Employee>): int
  {
    row.item.id
  }

  /** The edit branch: five fields copied, and the password replaced only when a new one was typed. */
  function ApplyEdit(existing: Employee, edited: Employee, password: string): (r: Employee)
    ensures r.id == existing.id && r.created == existing.created
    ensures r.firstName == edited.firstName && r.lastName == edited.lastName && r.email == edited.email
    ensures r.roleId == edited.roleId && r.isActive == edited.isActive
    ensures r.passwordHash == (if IsNullOrWhiteSpace(password) then existing.passwordHash else password)
  {
    var e := existing.(firstName := edited.firstName, lastName := edited.lastName, email := edited.email,
                       roleId := edited.roleId, isActive := edited.isActive);
    if IsNullOrWhiteSpace(password) then e else e.(passwordHash := password)
  }

  /** The database after a save that passed the checks. */
  function SavedTable(db: seq<Employee>, editing: Employee, isEditMode: bool, password: string,
                      newId: int, now: Instant): (r: seq<Employee>)
    ensures !isEditMode ==> r == db + [editing.(id := newId, created := now, passwordHash := password)]
    ensures isEditMode ==> |r| == |db|
  {
    if isEditMode then
      (if FindByKey(db, EmployeeKey, editing.id).Some?
       then UpdateByKey(db, EmployeeKey, editing.id, e => ApplyEdit(e, editing, password))
       else db)
    else db + [editing.(id := newId, created := now, passwordHash := password)]
  }

  /** An edit with a blank password leaves every stored password as it was. */
  lemma EditKeepsPasswords(db: seq<Employee>, editing: Employee, password: string, newId: int, now: Instant)
    requires IsNullOrWhiteSpace(password)
    ensures forall k :: 0 <= k < |db| ==> SavedTable(db, editing, true, password, newId, now)[k].passwordHash == db[k].passwordHash
  {
  }

  // ---------------------------------------------------------------------------
  // Deleting
  // ---------------------------------------------------------------------------

  /** A task the employee manages or programs. */
  predicate InvolvesEmployee(t: TaskItem, id: int)
  {
    t.managerId == id || t.programmerId == Some(id)
  }

  /** The tasks that block deleting the employee. */
  function RelatedTasks(tasks: seq<TaskItem>, id: int): seq<TaskItem>
  {
    Select(tasks, t => InvolvesEmployee(t, id))
  }

  /** Deleting is refused exactly when some task names the employee as manager or programmer. */
  lemma RelatedTasksIff(tasks: seq<TaskItem>, id: int)
    ensures |RelatedTasks(tasks, id)| > 0 <==> exists k :: 0 <= k < |tasks| && InvolvesEmployee(tasks[k], id)
  {
    var r := RelatedTasks(tasks, id);
    if exists k :: 0 <= k < |tasks| && InvolvesEmployee(tasks[k], id) {
      var k :| 0 <= k < |tasks| && InvolvesEmployee(tasks[k], id);
      SelectKeepsAccepted(tasks, t => InvolvesEmployee(t, id), tasks[k]);
    }
    if |r| > 0 {
      assert r[0] in tasks && InvolvesEmployee(r[0], id);
      var k :| 0 <= k < |tasks| && tasks[k] == r[0];
      assert InvolvesEmployee(tasks[k], id);
    }
  }

  /** A row whose employee gets the new `IsActive`; its number stays. */
  function WithActivity(row: Numbered<Employee>, active: bool): (r: Numbered<Employee>)
    ensures r.item.isActive == active && r.item == row.item.(isActive := active)
    ensures r.orderNumber == row.orderNumber
  {
    Numbered(row.item.(isActive := active), row.orderNumber)
  }

  // ---------------------------------------------------------------------------
  // The screen
  // ---------------------------------------------------------------------------

  class EmployeesScreen {
    var employees: seq<Numbered<Employee>>
    var filteredEmployees: seq<Numbered<Employee>>
    var selected: Option<Employee>
    var filter: EmployeeFilter
    var isLoading: bool
    var isDialogOpen: bool
    var editing: Option<Employee>
    var isEditMode: bool
    var password: string
    var confirmPassword: string
    var allRoles: seq<EmployeeRole>
    var statusMessage: string

    /** The rows the grid shows: the filtered list as the view's own filter passes it. */
    function Visible(): seq<Employee>
      reads this
    {
      Select(Items(filteredEmployees), AcceptOf(filter))
    }

    /**
     * The state a finished `ExecuteLoadEmployees` leaves: the table sorted,
     * numbered and filtered under the current filter, the role list, the
     * count on the status line and the busy flag cleared.
     */
    predicate ShowsLoaded(db: seq<Employee>, roles: seq<EmployeeRole>)
      reads this
    {
      employees == LoadedRows(db, filter) && filteredEmployees == LoadedFiltered(db, filter)
      && allRoles == roles && statusMessage == LoadedMessage(|employees|, "сотрудников") && !isLoading
    }

    /**
     * The constructor: "all" statuses, no role, thirty days either side of
     * today; `LoadInitialData` then runs the load of `ExecuteLoadEmployees`
     * at once, so a new screen already shows the loaded table.
     */
    constructor(today: Date, db: seq<Employee>, roles: seq<EmployeeRole>)
      requires ValidDate(today)
      ensures filter == DefaultFilter(today) && ShowsLoaded(db, roles)
      ensures selected.None? && editing.None? && !isEditMode && !isDialogOpen
      ensures password == "" && confirmPassword == ""
    {
      var f := DefaultFilter(today);
      filter := f;
      selected, editing, isEditMode, isDialogOpen := None, None, false, false;
      password, confirmPassword := "", "";
      var rows, shown := NumberAndFilter(SortedByName(db), AcceptOf(f));
      employees, filteredEmployees := rows, shown;
      allRoles := roles;
      statusMessage := LoadedMessage(|rows|, "сотрудников");
      isLoading := false;
    }

    /** `UpdateFilteredEmployees`. */
    method UpdateFilteredEmployees()
      modifies this`employees, this`filteredEmployees
      ensures employees == RenumberAll(old(employees), AcceptOf(filter))
      ensures filteredEmployees == NumberFrom(Select(Items(old(employees)), AcceptOf(filter)), 1)
    {
      employees, filteredEmployees := FilterAndRenumber(employees, AcceptOf(filter));
    }

    /**
     * `ExecuteLoadEmployees`: ordered by last then first name, numbered, then
     * filtered; the role table fills the dialog's role list.
     */
    method LoadEmployees(db: seq<Employee>, roles: seq<EmployeeRole>)
      modifies this`employees, this`filteredEmployees, this`isLoading, this`allRoles, this`statusMessage
      ensures ShowsLoaded(db, roles)
    {
      isLoading := true;
      statusMessage := "Загрузка сотрудников...";
      var rows, shown := NumberAndFilter(SortedByName(db), AcceptOf(filter));
      employees, filteredEmployees := rows, shown;
      allRoles := roles;
      statusMessage := LoadedMessage(|rows|, "сотрудников");
      isLoading := false;
    }

    /**
     * `ExecuteAddEmployee`: an empty active employee stamped `now`, with the
     * first role of the list (role 1 when the list is empty), and blank passwords.
     */
    method AddEmployee(now: Instant)
      modifies this`isEditMode, this`editing, this`password, this`confirmPassword, this`isDialogOpen
      modifies this`statusMessage
      ensures !isEditMode && isDialogOpen && password == "" && confirmPassword == ""
      ensures editing == Some(Employee(0, "", "", "", "", "", if allRoles == [] then 1 else allRoles[0].id,
                                       None, true, now))
      ensures statusMessage == "Добавление нового сотрудника"
    {
      isEditMode := false;
      var roleId := if allRoles == [] then 1 else allRoles[0].id;
      editing := Some(Employee(0, "", "", "", "", "", roleId, None, true, now));
      password := "";
      confirmPassword := "";
      isDialogOpen := true;
      statusMessage := "Добавление нового сотрудника";
    }

    /**
     * `ExecuteEditEmployee`: a copy of the selected employee's key, names,
     * e-mail, role, state and creation time; the stored password is not copied.
     */
    method EditEmployee()
      modifies this`isEditMode, this`editing, this`password, this`confirmPassword, this`isDialogOpen
      modifies this`statusMessage
      ensures old(selected).None? ==> unchanged(this)
      ensures selected.Some? ==>
        var e := selected.value;
        isEditMode && isDialogOpen && password == "" && confirmPassword == ""
        && editing == Some(Employee(e.id, e.firstName, e.lastName, "", e.email, "", e.roleId, None, e.isActive, e.created))
        && statusMessage == "Редактирование сотрудника: " + e.firstName + " " + e.lastName
    {
      if selected.None? {
        return;
      }
      var e := selected.value;
      isEditMode := true;
      editing := Some(Employee(e.id, e.firstName, e.lastName, "", e.email, "", e.roleId, None, e.isActive, e.created));
      password := "";
      confirmPassword := "";
      isDialogOpen := true;
      statusMessage := "Редактирование сотрудника: " + e.firstName + " " + e.lastName;
    }

    /** `ExecuteCancelEdit`. */
    method CancelEdit()
      modifies this`isDialogOpen, this`editing, this`password, this`confirmPassword, this`statusMessage
      ensures !isDialogOpen && editing.None? && password == "" && confirmPassword == ""
      ensures statusMessage == "Редактирование отменено"
    {
      isDialogOpen := false;
      editing := None;
      password := "";
      confirmPassword := "";
      statusMessage := "Редактирование отменено";
    }

    /** `ExecuteSetTodayFilter`: both bounds on today. */
    method SetTodayFilter(today: Date)
      requires ValidDate(today)
      modifies this`filter
      ensures filter == old(filter).(start := Some(DayNumber(today)), end := Some(DayNumber(today)))
      ensures forall e :: FilterEmployees(filter, e) ==> DayOf(e.created) == DayNumber(today)
    {
      filter := filter.(start := Some(DayNumber(today)), end := Some(DayNumber(today)));
    }

    /** `ExecuteClearFilters`. */
    method ClearFilters(today: Date)
      requires ValidDate(today)
      modifies this`filter, this`statusMessage
      ensures filter == DefaultFilter(today)
      ensures statusMessage == "Фильтры очищены"
    {
      filter := DefaultFilter(today);
      statusMessage := "Фильтры очищены";
    }

    /** `ExecuteSetWeekFilter`, with the week starting on the Monday on or before today. */
    method SetWeekFilter(today: Date)
      requires ValidDate(today)
      modifies this`filter
      ensures filter == old(filter).(start := Some(WeekRangeFixed(today).start), end := Some(WeekRangeFixed(today).end))
      ensures filter.start.value <= DayNumber(today) <= filter.end.value
    {
      var r := WeekRangeFixed(today);
      WeekRangeFixedHoldsToday(today);
      filter := filter.(start := Some(r.start), end := Some(r.end));
    }

    /** `ExecuteSetMonthFilter`. */
    method SetMonthFilter(today: Date)
      requires ValidDate(today)
      modifies this`filter
      ensures filter == old(filter).(start := Some(MonthRange(today).start), end := Some(MonthRange(today).end))
    {
      var r := MonthRange(today);
      filter := filter.(start := Some(r.start), end := Some(r.end));
    }

    /**
     * `ExecuteActivateEmployee` (`active` true) and `ExecuteDeactivateEmployee`
     * (`active` false): nothing happens without a selection or when the
     * employee already has that state; otherwise every copy of the employee,
     * the stored record included, gets the new state.
     */
    method SetActivity(active: bool, db: seq<Employee>) returns (db': seq<Employee>)
      modifies this`employees, this`filteredEmployees, this`selected, this`statusMessage
      ensures old(selected).None? || old(selected).value.isActive == active ==>
        db' == db && employees == old(employees) && filteredEmployees == old(filteredEmployees)
        && selected == old(selected) && statusMessage == old(statusMessage)
      ensures old(selected).Some? && old(selected).value.isActive != active ==>
        var id := old(selected).value.id;
        selected == Some(old(selected).value.(isActive := active))
        && employees == UpdateByKey(old(employees), RowKey, id, r => WithActivity(r, active))
        && filteredEmployees == UpdateByKey(old(filteredEmployees), RowKey, id, r => WithActivity(r, active))
        && db' == UpdateByKey(db, EmployeeKey, id, (e: Employee) => e.(isActive := active))
        && statusMessage == if active then "Сотрудник успешно активирован" else "Сотрудник успешно деактивирован"
    {
      db' := db;
      if selected.None? || selected.value.isActive == active {
        return;
      }
      var id := selected.value.id;
      selected := Some(selected.value.(isActive := active));
      employees := UpdateByKey(employees, RowKey, id, r => WithActivity(r, active));
      filteredEmployees := UpdateByKey(filteredEmployees, RowKey, id, r => WithActivity(r, active));
      db' := UpdateByKey(db, EmployeeKey, id, (e: Employee) => e.(isActive := active));
      statusMessage := if active then "Сотрудник успешно активирован" else "Сотрудник успешно деактивирован";
    }

    /**
     * `ExecuteDeleteEmployee`: without a selection, without confirmation, or
     * while a task names the employee, nothing changes; otherwise the record
     * and its grid row are removed, the lists refiltered and the selection cleared.
     */
    method DeleteEmployee(confirmed: bool, db: seq<Employee>, tasks: seq<TaskItem>) returns (db': seq<Employee>)
      modifies this`employees, this`filteredEmployees, this`selected, this`statusMessage
      ensures old(selected).None? || !confirmed || |RelatedTasks(tasks, old(selected).value.id)| > 0 ==>
        db' == db && employees == old(employees) && filteredEmployees == old(filteredEmployees)
        && selected == old(selected) && statusMessage == old(statusMessage)
      ensures old(selected).Some? && confirmed && |RelatedTasks(tasks, old(selected).value.id)| == 0 ==>
        var id := old(selected).value.id;
        db' == RemoveByKey(db, EmployeeKey, id)
        && employees == RenumberAll(RemoveByKey(old(employees), RowKey, id), AcceptOf(filter))
        && filteredEmployees == NumberFrom(Select(Items(RemoveByKey(old(employees), RowKey, id)), AcceptOf(filter)), 1)
        && selected.None? && statusMessage == DeletedMessage
    {
      db' := db;
      if selected.None? || !confirmed {
        return;
      }
      var id := selected.value.id;
      var related := RelatedTasks(tasks, id);
      if |related| > 0 {
        return;
      }
      db' := RemoveByKey(db, EmployeeKey, id);
      employees := RemoveByKey(employees, RowKey, id);
      UpdateFilteredEmployees();
      selected := None;
      statusMessage := DeletedMessage;
    }

    /**
     * `ExecuteSaveEmployee`: the checks run in order and the first failure is
     * shown; a save that passes writes the record, closes the dialog and reloads.
     */
    method SaveEmployee(db: seq<Employee>, roles: seq<EmployeeRole>, newId: int, now: Instant)
      returns (db': seq<Employee>, shown: Option<string>)
      modifies this`employees, this`filteredEmployees, this`isLoading, this`isDialogOpen, this`allRoles
      modifies this`statusMessage, this`editing
      ensures old(editing).None? ==>
        db' == db && shown.None? && employees == old(employees) && filteredEmployees == old(filteredEmployees)
        && isDialogOpen == old(isDialogOpen) && isLoading == old(isLoading) && allRoles == old(allRoles)
        && statusMessage == old(statusMessage) && editing == old(editing)
      ensures old(editing).Some? && SaveError(old(editing).value, isEditMode, password, confirmPassword).Some? ==>
        db' == db && shown == SaveError(old(editing).value, isEditMode, password, confirmPassword)
        && employees == old(employees) && filteredEmployees == old(filteredEmployees)
        && isDialogOpen == old(isDialogOpen) && isLoading == old(isLoading) && allRoles == old(allRoles)
        && statusMessage == old(statusMessage) && editing == old(editing)
      ensures old(editing).Some? && SaveError(old(editing).value, isEditMode, password, confirmPassword).None? ==>
        db' == SavedTable(db, old(editing).value, isEditMode, password, newId, now) && shown.None?
        && !isDialogOpen && ShowsLoaded(db', roles)
        && editing == if isEditMode then old(editing) else Some(db'[|db|])
    {
      db' := db;
      shown := None;
      if editing.None? {
        return;
      }
      var error := SaveError(editing.value, isEditMode, password, confirmPassword);
      if error.Some? {
        shown := error;
        return;
      }
      db' := SavedTable(db, editing.value, isEditMode, password, newId, now);
      if !isEditMode {
        editing := Some(editing.value.(id := newId, created := now, passwordHash := password));
      }
      isDialogOpen := false;
      LoadEmployees(db', roles);
    }
  }
}
