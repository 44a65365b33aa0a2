/**
 * The task administration screen (`TasksViewModel`): the multi-select lists
 * (`SelectableItem<T>`), their summary texts, the task filter with its search,
 * four multi-select constraints and the due-date bounds, loading newest
 * first, clearing the filters, deleting, and the date shortcuts.
 */
module Tasks {
  import opened Wrappers
  import opened Text
  import opened Calendar
  import opened Records
  import opened Listing

  // ---------------------------------------------------------------------------
  // Multi-select lists
  // ---------------------------------------------------------------------------

  /** `SelectableItem<T>`: an entry of a multi-select list. */
  datatype Selectable<T> = Selectable(item: T, isSelected: bool)

  /** `Where(x => x.IsSelected).Select(x => x.Item)`: the selected items, in list order. */
  function SelectedItems<T>(xs: seq<Selectable<T>>): (r: seq<T>)
    ensures |r| <= |xs|
    ensures (forall k :: 0 <= k < |xs| ==> !xs[k].isSelected) <==> r == []
  {
    if xs == [] then []
    else
      var rest := SelectedItems(xs[1..]);
      var r := (if xs[0].isSelected then [xs[0].item] else []) + rest;
      assert forall k :: 1 <= k < |xs| ==> xs[k] == xs[1..][k - 1];
      r
  }

  /** The selected items are exactly the items of the selected entries. */
  lemma {:induction false} SelectedItemsMembers<T>(xs: seq<Selectable<T>>)
    ensures forall k :: 0 <= k < |xs| && xs[k].isSelected ==> xs[k].item in SelectedItems(xs)
    ensures forall x :: x in SelectedItems(xs) <==> exists k :: 0 <= k < |xs| && xs[k].isSelected && xs[k].item == x
  {
    if xs != [] {
      SelectedItemsMembers(xs[1..]);
      assert forall k :: 1 <= k < |xs| ==> xs[k] == xs[1..][k - 1];
    }
  }

  /** The same items, none selected: what a fresh list and the clearing loop leave. */
  function Unselected<T>(xs: seq<T>): (r: seq<Selectable<T>>)
    ensures |r| == |xs|
    ensures forall k :: 0 <= k < |xs| ==> r[k] == Selectable(xs[k], false)
  {
    seq(|xs|, k requires 0 <= k < |xs| => Selectable(xs[k], false))
  }

  /** No entry of the list is selected. */
  predicate NoneSelected<T>(xs: seq<Selectable<T>>)
  {
    forall k :: 0 <= k < |xs| ==> !xs[k].isSelected
  }

  /** A fresh list keeps its items and has nothing selected. */
  lemma UnselectedKeepsItems<T>(xs: seq<T>)
    ensures ItemsOf(Unselected(xs)) == xs && NoneSelected(Unselected(xs))
    ensures SelectedItems(Unselected(xs)) == []
  {
  }

  /** Entry `i` ticked or unticked; a position outside the list changes nothing. */
  function Toggled<T>(xs: seq<Selectable<T>>, i: int, value: bool): (r: seq<Selectable<T>>)
    ensures 0 <= i < |xs| ==> r == xs[i := Selectable(xs[i].item, value)]
    ensures !(0 <= i < |xs|) ==> r == xs
  {
    if 0 <= i < |xs| then xs[i := Selectable(xs[i].item, value)] else xs
  }

  /** The items of a list, selected or not. */
  function ItemsOf<T>(xs: seq<Selectable<T>>): (r: seq<T>)
    ensures |r| == |xs|
    ensures forall k :: 0 <= k < |xs| ==> r[k] == xs[k].item
  {
    seq(|xs|, k requires 0 <= k < |xs| => xs[k].item)
  }

  /** `foreach (var item in list) item.IsSelected = false`. */
  method Deselect<T>(xs: seq<Selectable<T>>) returns (ys: seq<Selectable<T>>)
    ensures ys == Unselected(ItemsOf(xs))
  {
    ys := [];
    var i := 0;
    while i < |xs|
      invariant 0 <= i <= |xs|
      invariant ys == Unselected(ItemsOf(xs)[..i])
    {
      ys := ys + [Selectable(xs[i].item, false)];
      i := i + 1;
    }
    assert ItemsOf(xs)[..i] == ItemsOf(xs);
  }

  /** The text a closed multi-select box shows. */
  const Placeholder: string := "Выберите..."

  /** `names.Any() ? string.Join(", ", names) : "Выберите..."`. */
  function DisplayText(names: seq<string>): string
  {
    if names == [] then Placeholder else Join(", ", names)
  }

  /**
   * Nothing selected shows the placeholder; otherwise every selected name
   * appears in the text at its place in the comma-separated list.
   */
  lemma DisplayTextLists(names: seq<string>)
    ensures names == [] ==> DisplayText(names) == Placeholder
    ensures forall i :: 0 <= i < |names| ==> OccursAt(DisplayText(names), names[i], JoinOffset(", ", names, i))
  {
    forall i | 0 <= i < |names|
      ensures OccursAt(DisplayText(names), names[i], JoinOffset(", ", names, i))
    {
      JoinPartAt(", ", names, i);
    }
  }

  /** The display names: `Name` of statuses, priorities and managers. */
  function NamedNames(xs: seq<Named>): (r: seq<string>)
    ensures |r| == |xs| && forall k :: 0 <= k < |xs| ==> r[k] == xs[k].name
  {
    seq(|xs|, k requires 0 <= k < |xs| => xs[k].name)
  }

  function EmployeeNames(xs: seq<Employee>): (r: seq<string>)
    ensures |r| == |xs| && forall k :: 0 <= k < |xs| ==> r[k] == xs[k].name
  {
    seq(|xs|, k requires 0 <= k < |xs| => xs[k].name)
  }

  /** Clients are shown by `CompanyName`. */
  function CompanyNames(xs: seq<Client>): (r: seq<string>)
    ensures |r| == |xs| && forall k :: 0 <= k < |xs| ==> r[k] == xs[k].companyName
  {
    seq(|xs|, k requires 0 <= k < |xs| => xs[k].companyName)
  }

  /** The keys of a list of records. */
  function Keys<T>(xs: seq<T>, key: T -> int): (r: seq<int>)
    ensures |r| == |xs| && forall k :: 0 <= k < |xs| ==> r[k] == key(xs[k])
  {
    seq(|xs|, k requires 0 <= k < |xs| => key(xs[k]))
  }

  function NamedKey(n: Named): int
  {
    n.id
  }

  function EmployeeKey(e: Employee): int
  {
    e.id
  }

  function ClientKey(c: Client): int
  {
    c.id
  }

  function TaskKey(t: TaskItem): int
  {
    t.id
  }

  // ---------------------------------------------------------------------------
  // The filter
  // ---------------------------------------------------------------------------

  /** What `FilterTasks` reads: the search, the keys selected in the four lists, and the date bounds. */
  datatype TaskFilter = TaskFilter(
    searchText: string,
    statusIds: seq<int>,
    priorityIds: seq<int>,
    managerIds: seq<int>,
    clientIds: seq<int>,
    start: Option<int>,
    end: Option<int>)

  /** `selected.Any() && !selected.Any(s => s.Id == id)` rejects: an empty selection allows every key. */
  predicate Allows(ids: seq<int>, id: int)
  {
    ids == [] || id in ids
  }

  function StatusName(t: TaskItem): string
  {
    if t.status.Some? then t.status.value.name else ""
  }

  function ClientName(t: TaskItem): string
  {
    if t.client.Some? then t.client.value.companyName else ""
  }

  predicate MatchesSearch(search: string, t: TaskItem)
  {
    var s := ToLower(search);
    Contains(ToLower(t.title), s) || Contains(ToLower(t.description), s)
    || Contains(ToLower(ClientName(t)), s) || Contains(ToLower(StatusName(t)), s)
  }

  /** `FilterTasks`, test by test; the date bounds apply to the due date and only when there is one. */
  predicate FilterTasks(f: TaskFilter, t: TaskItem)
  {
    if !IsNullOrWhiteSpace(f.searchText) && !MatchesSearch(f.searchText, t) then false
    else if !Allows(f.statusIds, t.statusId) then false
    else if !Allows(f.priorityIds, t.priorityId) then false
    else if !Allows(f.managerIds, t.managerId) then false
    else if !Allows(f.clientIds, t.clientId) then false
    else if f.start.Some? && t.due.Some? && DayOf(t.due.value) < f.start.value then false
    else if f.end.Some? && t.due.Some? && DayOf(t.due.value) > f.end.value then false
    else true
  }

  function AcceptOf(f: TaskFilter): TaskItem -> bool
  {
    t => FilterTasks(f, t)
  }

  ghost predicate SearchHit(s: string, t: TaskItem)
  {
    (exists k :: OccursAt(ToLower(t.title), s, k)) || (exists k :: OccursAt(ToLower(t.description), s, k))
    || (exists k :: OccursAt(ToLower(ClientName(t)), s, k)) || (exists k :: OccursAt(ToLower(StatusName(t)), s, k))
  }

  lemma MatchesSearchIff(search: string, t: TaskItem)
    ensures MatchesSearch(search, t) <==> SearchHit(ToLower(search), t)
  {
    var s := ToLower(search);
    ContainsAt(ToLower(t.title), s);
    ContainsAt(ToLower(t.description), s);
    ContainsAt(ToLower(ClientName(t)), s);
    ContainsAt(ToLower(StatusName(t)), s);
  }

  /**
   * A task passes exactly when a non-blank search hits one of its texts, each
   * list with a selection contains the task's key, and a due date, if the task
   * has one, lies within the bounds set.
   */
  lemma FilterTasksIff(f: TaskFilter, t: TaskItem)
    ensures FilterTasks(f, t) <==>
      (IsNullOrWhiteSpace(f.searchText) || SearchHit(ToLower(f.searchText), t))
      && (f.statusIds == [] || t.statusId in f.statusIds)
      && (f.priorityIds == [] || t.priorityId in f.priorityIds)
      && (f.managerIds == [] || t.managerId in f.managerIds)
      && (f.clientIds == [] || t.clientId in f.clientIds)
      && (t.due.None? || ((f.start.None? || f.start.value <= DayOf(t.due.value))
                          && (f.end.None? || DayOf(t.due.value) <= f.end.value)))
  {
    MatchesSearchIff(f.searchText, t);
  }

  /** A task without a due date is never excluded by the date bounds, whatever they are. */
  lemma NoDueDateIgnoresDates(f: TaskFilter, t: TaskItem, start: Option<int>, end: Option<int>)
    requires t.due.None?
    ensures FilterTasks(f, t) == FilterTasks(f.(start := start, end := end), t)
  {
  }

  /** With a blank search and no selections, only the due date can exclude a task. */
  lemma ClearedFilterKeepsUndated(f: TaskFilter, t: TaskItem)
    requires IsNullOrWhiteSpace(f.searchText)
    requires f.statusIds == [] && f.priorityIds == [] && f.managerIds == [] && f.clientIds == []
    requires t.due.None?
    ensures FilterTasks(f, t)
  {
  }

  // ---------------------------------------------------------------------------
  // Loading
  // ---------------------------------------------------------------------------

  predicate NewestFirst(a: TaskItem, b: TaskItem)
  {
    a.created >= b.created
  }

  lemma NewestFirstTotal()
    ensures Total(NewestFirst)
  {
  }

  /** `OrderByDescending(t => t.CreatedDate)`: a permutation of the table, newest first. */
  function SortedByCreated(db: seq<TaskItem>): (r: seq<TaskItem>)
    ensures multiset(r) == multiset(db)
    ensures forall i :: 0 < i < |r| ==> r[i - 1].created >= r[i].created
  {
    NewestFirstTotal();
    SortBy(db, NewestFirst)
  }

  /** The managers offered by the manager list: active employees whose role is named "Manager". */
  predicate IsManagerCandidate(e: Employee)
  {
    e.isActive && e.role.Some? && e.role.value.name == "Manager"
  }

  /** The four lookup tables `LoadSupportingData` reads. */
  datatype SupportingTables = SupportingTables(
    statuses: seq<Named>,
    priorities: seq<Named>,
    employees: seq<Employee>,
    clients: seq<Client>)

  /** Which multi-select list an entry belongs to. */
  datatype ListKind = StatusList | PriorityList | ManagerList | ClientList

  // ---------------------------------------------------------------------------
  // The screen
  // ---------------------------------------------------------------------------

  class TasksScreen {
    var tasks: seq<TaskItem>
    var filteredTasks: seq<TaskItem>
    var selected: Option<TaskItem>
    var searchText: string
    var start: Option<int>
    var end: Option<int>
    var statuses: seq<Selectable<Named>>
    var priorities: seq<Selectable<Named>>
    var managers: seq<Selectable<Employee>>
    var clients: seq<Selectable<Client>>
    var statusesText: string
    var prioritiesText: string
    var managersText: string
    var clientsText: string
    var isLoading: bool
    var statusMessage: string

    /** The filter as the screen's state defines it. */
    function Filter(): TaskFilter
      reads this`searchText, this`start, this`end, this`statuses, this`priorities, this`managers, this`clients
    {
      TaskFilter(searchText,
                 Keys(SelectedItems(statuses), NamedKey), Keys(SelectedItems(priorities), NamedKey),
                 Keys(SelectedItems(managers), EmployeeKey), Keys(SelectedItems(clients), ClientKey),
                 start, end)
    }

    /** The rows the grid shows. */
    function Visible(): seq<TaskItem>
      reads this`filteredTasks, this`searchText, this`start, this`end, this`statuses, this`priorities, this`managers, this`clients
    {
      Select(filteredTasks, AcceptOf(Filter()))
    }

    /** The four summary texts agree with the four lists. */
    predicate TextsAgree()
      reads this`statuses, this`priorities, this`managers, this`clients
      reads this`statusesText, this`prioritiesText, this`managersText, this`clientsText
    {
      statusesText == DisplayText(NamedNames(SelectedItems(statuses)))
      && prioritiesText == DisplayText(NamedNames(SelectedItems(priorities)))
      && managersText == DisplayText(EmployeeNames(SelectedItems(managers)))
      && clientsText == DisplayText(CompanyNames(SelectedItems(clients)))
    }

    /**
     * The state a finished `ExecuteLoadTasks` leaves: the tasks newest first
     * and copied to the filtered list, the four lookup lists fresh with
     * nothing selected, their texts, the count on the status line and the
     * busy flag cleared.
     */
    predicate ShowsLoaded(db: seq<TaskItem>, tables: SupportingTables)
      reads this
    {
      tasks == SortedByCreated(db) && filteredTasks == tasks
      && statuses == Unselected(tables.statuses) && priorities == Unselected(tables.priorities)
      && managers == Unselected(Select(tables.employees, IsManagerCandidate))
      && clients == Unselected(tables.clients)
      && NothingSelected() && TextsAgree()
      && statusMessage == LoadedMessage(|tasks|, "задач") && !isLoading
    }

    /** No list has a selection. */
    predicate NothingSelected()
      reads this`statuses, this`priorities, this`managers, this`clients
    {
      NoneSelected(statuses) && NoneSelected(priorities) && NoneSelected(managers) && NoneSelected(clients)
    }

    /** With nothing selected the filter has no list constraints and every text is the placeholder. */
    lemma NothingSelectedClearsLists()
      requires NothingSelected() && TextsAgree()
      ensures Filter().statusIds == [] && Filter().priorityIds == []
      ensures Filter().managerIds == [] && Filter().clientIds == []
      ensures statusesText == Placeholder && prioritiesText == Placeholder
      ensures managersText == Placeholder && clientsText == Placeholder
    {
    }

    /**
     * The constructor: no search and thirty days either side of today;
     * `LoadInitialData` then runs `ExecuteLoadTasks` at once, so a new
     * screen already shows the loaded tasks and lookup lists.
     */
    constructor(today: Date, db: seq<TaskItem>, tables: SupportingTables)
      requires ValidDate(today)
      ensures start == Some(DefaultRange(today).start) && end == Some(DefaultRange(today).end)
      ensures selected.None? && searchText == ""
      ensures ShowsLoaded(db, tables)
    {
      var sorted := SortedByCreated(db);
      tasks, filteredTasks := sorted, sorted;
      selected := None;
      searchText := "";
      start := Some(DefaultRange(today).start);
      end := Some(DefaultRange(today).end);
      statuses := Unselected(tables.statuses);
      priorities := Unselected(tables.priorities);
      managers := Unselected(Select(tables.employees, IsManagerCandidate));
      clients := Unselected(tables.clients);
      UnselectedKeepsItems(tables.statuses);
      UnselectedKeepsItems(tables.priorities);
      UnselectedKeepsItems(Select(tables.employees, IsManagerCandidate));
      UnselectedKeepsItems(tables.clients);
      statusesText, prioritiesText, managersText, clientsText := Placeholder, Placeholder, Placeholder, Placeholder;
      isLoading := false;
      statusMessage := LoadedMessage(|sorted|, "задач");
    }

    /** `UpdateFilteredTasks`: the filtered list is a copy of the whole list; the view does the filtering. */
    method UpdateFilteredTasks()
      modifies this`filteredTasks
      ensures filteredTasks == tasks
    {
      filteredTasks := [];
      var i := 0;
      while i < |tasks|
        invariant 0 <= i <= |tasks|
        invariant filteredTasks == tasks[..i]
      {
        filteredTasks := filteredTasks + [tasks[i]];
        i := i + 1;
      }
    }

    /** `UpdateDisplayText`. */
    method UpdateDisplayText()
      modifies this`statusesText, this`prioritiesText, this`managersText, this`clientsText
      ensures TextsAgree()
    {
      statusesText, prioritiesText, managersText, clientsText :=
        DisplayText(NamedNames(SelectedItems(statuses))), DisplayText(NamedNames(SelectedItems(priorities))),
        DisplayText(EmployeeNames(SelectedItems(managers))), DisplayText(CompanyNames(SelectedItems(clients)));
    }

    /** `LoadSupportingData`: fresh lists with nothing selected; managers are the active "Manager" employees. */
    method LoadSupportingData(tables: SupportingTables)
      modifies this`statuses, this`priorities, this`managers, this`clients
      modifies this`statusesText, this`prioritiesText, this`managersText, this`clientsText
      ensures statuses == Unselected(tables.statuses) && priorities == Unselected(tables.priorities)
      ensures managers == Unselected(Select(tables.employees, IsManagerCandidate))
      ensures clients == Unselected(tables.clients)
      ensures NothingSelected() && TextsAgree()
      ensures statusesText == Placeholder && prioritiesText == Placeholder
      ensures managersText == Placeholder && clientsText == Placeholder
    {
      statuses := Unselected(tables.statuses);
      priorities := Unselected(tables.priorities);
      managers := Unselected(Select(tables.employees, IsManagerCandidate));
      clients := Unselected(tables.clients);
      UpdateDisplayText();
    }

    /** `ExecuteLoadTasks`: newest first, copied to the filtered list, then the lookup lists. */
    method LoadTasks(db: seq<TaskItem>, tables: SupportingTables)
      modifies this`tasks, this`filteredTasks, this`isLoading, this`statusMessage
      modifies this`statuses, this`priorities, this`managers, this`clients
      modifies this`statusesText, this`prioritiesText, this`managersText, this`clientsText
      ensures tasks == SortedByCreated(db) && filteredTasks == tasks
      ensures statuses == Unselected(tables.statuses) && priorities == Unselected(tables.priorities)
      ensures managers == Unselected(Select(tables.employees, IsManagerCandidate))
      ensures clients == Unselected(tables.clients)
      ensures NothingSelected() && TextsAgree()
      ensures statusMessage == LoadedMessage(|tasks|, "задач") && !isLoading
    {
      isLoading := true;
      var sorted := SortedByCreated(db);
      tasks := sorted;
      UpdateFilteredTasks();
      statusMessage := LoadedMessage(|sorted|, "задач");
      isLoading := false;
      LoadSupportingData(tables);
    }

    /**
     * Ticking or unticking entry `i` of a list: the property-changed handler
     * refreshes the view and the summary texts.
     */
    method SetSelection(kind: ListKind, i: int, value: bool)
      modifies this`statuses, this`priorities, this`managers, this`clients
      modifies this`statusesText, this`prioritiesText, this`managersText, this`clientsText
      ensures statuses == if kind == StatusList then Toggled(old(statuses), i, value) else old(statuses)
      ensures priorities == if kind == PriorityList then Toggled(old(priorities), i, value) else old(priorities)
      ensures managers == if kind == ManagerList then Toggled(old(managers), i, value) else old(managers)
      ensures clients == if kind == ClientList then Toggled(old(clients), i, value) else old(clients)
      ensures TextsAgree()
    {
      match kind {
        case StatusList => statuses := Toggled(statuses, i, value);
        case PriorityList => priorities := Toggled(priorities, i, value);
        case ManagerList => managers := Toggled(managers, i, value);
        case ClientList => clients := Toggled(clients, i, value);
      }
      UpdateDisplayText();
    }

    /** `ExecuteClearFilters`: no search, thirty days either side of today, and every list cleared. */
    method ClearFilters(today: Date)
      requires ValidDate(today)
      modifies this`searchText, this`start, this`end, this`statusMessage
      modifies this`statuses, this`priorities, this`managers, this`clients
      modifies this`statusesText, this`prioritiesText, this`managersText, this`clientsText
      ensures searchText == "" && start == Some(DefaultRange(today).start) && end == Some(DefaultRange(today).end)
      ensures ItemsOf(statuses) == ItemsOf(old(statuses)) && ItemsOf(priorities) == ItemsOf(old(priorities))
      ensures ItemsOf(managers) == ItemsOf(old(managers)) && ItemsOf(clients) == ItemsOf(old(clients))
      ensures NothingSelected() && TextsAgree()
      ensures statusMessage == "Фильтры очищены"
    {
      searchText := "";
      start := Some(DefaultRange(today).start);
      end := Some(DefaultRange(today).end);
      ClearSelections();
      statusMessage := "Фильтры очищены";
    }

    /** The four deselecting loops of `ExecuteClearFilters`, then `UpdateDisplayText`. */
    method ClearSelections()
      modifies this`statuses, this`priorities, this`managers, this`clients
      modifies this`statusesText, this`prioritiesText, this`managersText, this`clientsText
      ensures ItemsOf(statuses) == ItemsOf(old(statuses)) && ItemsOf(priorities) == ItemsOf(old(priorities))
      ensures ItemsOf(managers) == ItemsOf(old(managers)) && ItemsOf(clients) == ItemsOf(old(clients))
      ensures NothingSelected() && TextsAgree()
    {
      var s := Deselect(statuses);
      var p := Deselect(priorities);
      var m := Deselect(managers);
      var c := Deselect(clients);
      UnselectedKeepsItems(ItemsOf(statuses));
      UnselectedKeepsItems(ItemsOf(priorities));
      UnselectedKeepsItems(ItemsOf(managers));
      UnselectedKeepsItems(ItemsOf(clients));
      statuses, priorities, managers, clients := s, p, m, c;
      UpdateDisplayText();
    }

    /** `ExecuteSetTodayFilter`. */
    method SetTodayFilter(today: Date)
      requires ValidDate(today)
      modifies this`start, this`end
      ensures start == Some(DayNumber(today)) && end == Some(DayNumber(today))
    {
      start := Some(DayNumber(today));
      end := Some(DayNumber(today));
    }

    /** `ExecuteSetWeekFilter`, with the week starting on the Monday on or before today. */
    method SetWeekFilter(today: Date)
      requires ValidDate(today)
      modifies this`start, this`end
      ensures start == Some(WeekRangeFixed(today).start) && end == Some(WeekRangeFixed(today).end)
      ensures start.value <= DayNumber(today) <= end.value
    {
      var r := WeekRangeFixed(today);
      WeekRangeFixedHoldsToday(today);
      start := Some(r.start);
      end := Some(r.end);
    }

    /** `ExecuteSetMonthFilter`. */
    method SetMonthFilter(today: Date)
      requires ValidDate(today)
      modifies this`start, this`end
      ensures start == Some(MonthRange(today).start) && end == Some(MonthRange(today).end)
    {
      var r := MonthRange(today);
      start := Some(r.start);
      end := Some(r.end);
    }

    /** `ExecuteAddTask`: only a notice; nothing is added. */
    method AddTask()
      modifies this`statusMessage
      ensures statusMessage == "Функция добавления задачи будет реализована в диалоговом окне"
    {
      statusMessage := "Функция добавления задачи будет реализована в диалоговом окне";
    }

    /** `ExecuteEditTask`: only a notice naming the task. */
    method EditTask()
      modifies this`statusMessage
      ensures old(selected).None? ==> statusMessage == old(statusMessage)
      ensures selected.Some? ==> statusMessage == "Редактирование задачи: " + selected.value.title
    {
      if selected.Some? {
        statusMessage := "Редактирование задачи: " + selected.value.title;
      }
    }

    /**
     * `ExecuteDeleteTask`: after confirmation the task goes and the screen is
     * reloaded, which also rebuilds the four lists with nothing selected.
     */
    method DeleteTask(confirmed: bool, db: seq<TaskItem>, tables: SupportingTables) returns (db': seq<TaskItem>)
      modifies this`tasks, this`filteredTasks, this`isLoading, this`statusMessage
      modifies this`statuses, this`priorities, this`managers, this`clients
      modifies this`statusesText, this`prioritiesText, this`managersText, this`clientsText
      ensures old(selected).None? || !confirmed ==>
        db' == db && tasks == old(tasks) && filteredTasks == old(filteredTasks)
        && statuses == old(statuses) && priorities == old(priorities)
        && managers == old(managers) && clients == old(clients)
        && statusesText == old(statusesText) && prioritiesText == old(prioritiesText)
        && managersText == old(managersText) && clientsText == old(clientsText)
        && statusMessage == old(statusMessage) && isLoading == old(isLoading)
      ensures old(selected).Some? && confirmed ==>
        db' == RemoveByKey(db, TaskKey, old(selected).value.id)
        && tasks == SortedByCreated(db') && filteredTasks == tasks
        && statuses == Unselected(tables.statuses) && priorities == Unselected(tables.priorities)
        && managers == Unselected(Select(tables.employees, IsManagerCandidate))
        && clients == Unselected(tables.clients)
        && NothingSelected() && TextsAgree() && !isLoading
        && statusMessage == "Задача успешно удалена"
    {
      db' := db;
      if selected.None? || !confirmed {
        return;
      }
      db' := RemoveByKey(db, TaskKey, selected.value.id);
      LoadTasks(db', tables);
      statusMessage := "Задача успешно удалена";
    }
  }
}
