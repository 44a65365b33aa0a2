/**
 * The client administration screen (`ClientsViewModel`): the search and date
 * filter, loading newest first with numbering, the filtered list with its
 * renumbering, the save dialog's checks, deleting, and the date shortcuts.
 */
module Clients {
  import opened Wrappers
  import opened Text
  import opened Calendar
  import opened Records
  import opened Listing

  // ---------------------------------------------------------------------------
  // The filter
  // ---------------------------------------------------------------------------

  /** What `FilterClients` reads: the search text and the date bounds (day numbers). */
  datatype ClientFilter = ClientFilter(searchText: string, start: Option<int>, end: Option<int>)

  /** The search text, lower-cased, occurs in one of the five lower-cased text fields. */
  predicate MatchesSearch(search: string, c: Client)
  {
    var s := ToLower(search);
    Contains(ToLower(c.companyName), s) || Contains(ToLower(c.contactPerson), s)
    || Contains(ToLower(c.email), s) || Contains(ToLower(c.phone), s) || Contains(ToLower(c.address), s)
  }

  /** `FilterClients`: the search first, then the inclusive date bounds on the creation date. */
  predicate FilterClients(f: ClientFilter, c: Client)
  {
    if !IsNullOrWhiteSpace(f.searchText) && !MatchesSearch(f.searchText, c) then false
    else if f.start.Some? && DayOf(c.created) < f.start.value then false
    else if f.end.Some? && DayOf(c.created) > f.end.value then false
    else true
  }

  function AcceptOf(f: ClientFilter): Client -> bool
  {
    c => FilterClients(f, c)
  }

  /** The lower-cased text occurs at some position of some lower-cased field. */
  ghost predicate SearchHit(s: string, c: Client)
  {
    (exists k :: OccursAt(ToLower(c.companyName), s, k)) || (exists k :: OccursAt(ToLower(c.contactPerson), s, k))
    || (exists k :: OccursAt(ToLower(c.email), s, k)) || (exists k :: OccursAt(ToLower(c.phone), s, k))
    || (exists k :: OccursAt(ToLower(c.address), s, k))
  }

  lemma MatchesSearchIff(search: string, c: Client)
    ensures MatchesSearch(search, c) <==> SearchHit(ToLower(search), c)
  {
    var s := ToLower(search);
    ContainsAt(ToLower(c.companyName), s);
    ContainsAt(ToLower(c.contactPerson), s);
    ContainsAt(ToLower(c.email), s);
    ContainsAt(ToLower(c.phone), s);
    ContainsAt(ToLower(c.address), s);
  }

  /** A client passes exactly when a non-blank search hits a field and the creation day lies within the bounds set. */
  lemma FilterClientsIff(f: ClientFilter, c: Client)
    ensures FilterClients(f, c) <==>
      (IsNullOrWhiteSpace(f.searchText) || SearchHit(ToLower(f.searchText), c))
      && (f.start.None? || f.start.value <= DayOf(c.created))
      && (f.end.None? || DayOf(c.created) <= f.end.value)
  {
    MatchesSearchIff(f.searchText, c);
  }

  /** A search that is a part of the company name, in any letter case, finds the client whatever the other fields hold. */
  lemma CompanyNameIsFound(c: Client, k: int, len: nat)
    requires 0 <= k && k + len <= |c.companyName| && len > 0
    ensures MatchesSearch(c.companyName[k..k + len], c)
  {
    var search := c.companyName[k..k + len];
    var s := ToLower(search);
    assert ToLower(c.companyName)[k..k + len] == s;
    assert OccursAt(ToLower(c.companyName), s, k);
    ContainsAt(ToLower(c.companyName), s);
  }

  // ---------------------------------------------------------------------------
  // Loading
  // ---------------------------------------------------------------------------

  /** `OrderByDescending(c => c.CreatedDate)`: newer first. */
  predicate NewestFirst(a: Client, b: Client)
  {
    a.created >= b.created
  }

  lemma NewestFirstTotal()
    ensures Total(NewestFirst)
  {
  }

  lemma NewestFirstTransitive()
    ensures Transitive(NewestFirst)
  {
  }

  /** The clients in the order the load query returns them: a permutation, newest first. */
  function SortedByCreated(db: seq<Client>): (r: seq<Client>)
    ensures multiset(r) == multiset(db)
    ensures forall i :: 0 < i < |r| ==> r[i - 1].created >= r[i].created
  {
    NewestFirstTotal();
    SortBy(db, NewestFirst)
  }

  function LoadedRows(db: seq<Client>, f: ClientFilter): seq<Numbered<Client>>
  {
    RenumberAll(NumberFrom(SortedByCreated(db), 1), AcceptOf(f))
  }

  function LoadedFiltered(db: seq<Client>, f: ClientFilter): seq<Numbered<Client>>
  {
    NumberFrom(Select(SortedByCreated(db), AcceptOf(f)), 1)
  }

  /** Filtering the newest-first list keeps it newest first. */
  lemma NewestFirstOrderKept(sorted: seq<Client>, accept: Client -> bool)
    requires forall i :: 0 < i < |sorted| ==> sorted[i - 1].created >= sorted[i].created
    ensures forall i :: 0 < i < |Select(sorted, accept)| ==>
      Select(sorted, accept)[i - 1].created >= Select(sorted, accept)[i].created
  {
    NewestFirstTransitive();
    assert SortedBy(sorted, NewestFirst);
    SelectKeepsSorted(sorted, accept, NewestFirst);
  }

  /** The rows the grid shows after a load are newest first. */
  lemma {:induction false} LoadedFilteredOrder(db: seq<Client>, f: ClientFilter)
    ensures forall i :: 0 < i < |LoadedFiltered(db, f)| ==>
      LoadedFiltered(db, f)[i - 1].item.created >= LoadedFiltered(db, f)[i].item.created
  {
    var chosen := Select(SortedByCreated(db), AcceptOf(f));
    var rows := LoadedFiltered(db, f);
    ItemsOfNumberFrom(chosen, 1);
    NewestFirstOrderKept(SortedByCreated(db), AcceptOf(f));
    forall i | 0 < i < |rows|
      ensures rows[i - 1].item.created >= rows[i].item.created
    {
      assert rows[i - 1].item == chosen[i - 1] && rows[i].item == chosen[i];
    }
  }

  /** Every stored client the filter passes is among the rows the grid shows after a load. */
  lemma {:induction false} LoadedFilteredComplete(db: seq<Client>, f: ClientFilter)
    ensures forall c :: c in db && FilterClients(f, c) ==> c in Items(LoadedFiltered(db, f))
  {
    var sorted := SortedByCreated(db);
    ItemsOfNumberFrom(Select(sorted, AcceptOf(f)), 1);
    forall c | c in db && FilterClients(f, c)
      ensures c in Items(LoadedFiltered(db, f))
    {
      assert c in multiset(db);
      assert c in sorted;
      SelectKeepsAccepted(sorted, AcceptOf(f), c);
    }
  }

  /** After a load the filtered list is newest first and holds every stored client the filter passes. */
  lemma {:induction false} LoadedFilteredIsNewestFirst(db: seq<Client>, f: ClientFilter)
    ensures Items(LoadedFiltered(db, f)) == Select(SortedByCreated(db), AcceptOf(f))
    ensures forall i :: 0 < i < |LoadedFiltered(db, f)| ==>
      LoadedFiltered(db, f)[i - 1].item.created >= LoadedFiltered(db, f)[i].item.created
    ensures forall c :: c in db && FilterClients(f, c) ==> c in Items(LoadedFiltered(db, f))
    ensures forall k :: 0 <= k < |LoadedFiltered(db, f)| ==>
      LoadedFiltered(db, f)[k].orderNumber == k + 1 && FilterClients(f, LoadedFiltered(db, f)[k].item)
  {
    ItemsOfNumberFrom(Select(SortedByCreated(db), AcceptOf(f)), 1);
    LoadedFilteredOrder(db, f);
    LoadedFilteredComplete(db, f);
  }

  // ---------------------------------------------------------------------------
  // Saving and deleting
  // ---------------------------------------------------------------------------

  /** The message `ExecuteSaveClient` shows for the first failing check, if any. */
  function SaveError(editing: Client): (r: Option<string>)
    ensures r.None? <==> !IsNullOrWhiteSpace(editing.companyName) && !IsNullOrWhiteSpace(editing.email)
    ensures IsNullOrWhiteSpace(editing.companyName) ==> r == Some("Название компании обязательно для заполнения")
  {
    if IsNullOrWhiteSpace(editing.companyName) then Some("Название компании обязательно для заполнения")
    else if IsNullOrWhiteSpace(editing.email) then Some("Email обязателен для заполнения")
    else None
  }

  function ClientKey(c: Client): int
  {
    c.id
  }

  /** The edit branch: the five text fields copied; key and creation time kept. */
  function ApplyEdit(existing: Client, edited: Client): (r: Client)
    ensures r.id == existing.id && r.created == existing.created
    ensures r.companyName == edited.companyName && r.contactPerson == edited.contactPerson
    ensures r.email == edited.email && r.phone == edited.phone && r.address == edited.address
  {
    existing.(companyName := edited.companyName, contactPerson := edited.contactPerson,
              email := edited.email, phone := edited.phone, address := edited.address)
  }

  /** The table after a save that passed the checks. */
  function SavedTable(db: seq<Client>, editing: Client, isEditMode: bool, newId: int, now: Instant): (r: seq<Client>)
    ensures !isEditMode ==> r == db + [editing.(id := newId, created := now)]
    ensures isEditMode ==> |r| == |db|
    ensures isEditMode ==> forall k :: 0 <= k < |db| ==> r[k].created == db[k].created
  {
    if isEditMode then
      (if FindByKey(db, ClientKey, editing.id).Some?
       then UpdateByKey(db, ClientKey, editing.id, c => ApplyEdit(c, editing))
       else db)
    else db + [editing.(id := newId, created := now)]
  }

  /** Saving an edit twice is the same as saving it once. */
  lemma SaveEditIdempotent(db: seq<Client>, editing: Client, newId: int, now: Instant)
    ensures SavedTable(SavedTable(db, editing, true, newId, now), editing, true, newId, now)
            == SavedTable(db, editing, true, newId, now)
  {
    if FindByKey(db, ClientKey, editing.id).Some? {
      var edit := c => ApplyEdit(c, editing);
      forall c | true
        ensures ClientKey(edit(c)) == ClientKey(c) && edit(edit(c)) == edit(c)
      {
        ApplyEditTwice(c, editing);
      }
      UpdateByKeyTwice(db, ClientKey, editing.id, edit);
    }
  }

  /** Applying the same edit again changes nothing, and an edit keeps the key. */
  lemma ApplyEditTwice(c: Client, editing: Client)
    ensures ApplyEdit(ApplyEdit(c, editing), editing) == ApplyEdit(c, editing)
    ensures ClientKey(ApplyEdit(c, editing)) == ClientKey(c)
  {
  }

  // ---------------------------------------------------------------------------
  // The screen
  // ---------------------------------------------------------------------------

  class ClientsScreen {
    var clients: seq<Numbered<Client>>
    var filteredClients: seq<Numbered<Client>>
    var selected: Option<Client>
    var filter: ClientFilter
    var isLoading: bool
    var isDialogOpen: bool
    var editing: Option<Client>
    var isEditMode: bool
    var statusMessage: string

    /** The rows the grid shows: the filtered list as the view's own filter passes it. */
    function Visible(): seq<Client>
      reads this
    {
      Select(Items(filteredClients), AcceptOf(filter))
    }

    /**
     * The state a finished `ExecuteLoadClients` leaves: the table newest
     * first, numbered and filtered under the current filter, the count on
     * the status line and the busy flag cleared.
     */
    predicate ShowsLoaded(db: seq<Client>)
      reads this
    {
      clients == LoadedRows(db, filter) && filteredClients == LoadedFiltered(db, filter)
      && statusMessage == LoadedMessage(|clients|, "клиентов") && !isLoading
    }

    /**
     * The constructor: no search and thirty days either side of today;
     * `LoadInitialData` then runs the load of `ExecuteLoadClients` at once,
     * so a new screen already shows the loaded table.
     */
    constructor(today: Date, db: seq<Client>)
      requires ValidDate(today)
      ensures filter == ClientFilter("", Some(DefaultRange(today).start), Some(DefaultRange(today).end))
      ensures ShowsLoaded(db)
      ensures selected.None? && editing.None? && !isEditMode && !isDialogOpen
    {
      var f := ClientFilter("", Some(DefaultRange(today).start), Some(DefaultRange(today).end));
      filter := f;
      selected, editing, isEditMode, isDialogOpen := None, None, false, false;
      var rows, shown := NumberAndFilter(SortedByCreated(db), AcceptOf(f));
      clients, filteredClients := rows, shown;
      statusMessage := LoadedMessage(|rows|, "клиентов");
      isLoading := false;
    }

    /** `UpdateFilteredClients`. */
    method UpdateFilteredClients()
      modifies this`clients, this`filteredClients
      ensures clients == RenumberAll(old(clients), AcceptOf(filter))
      ensures filteredClients == NumberFrom(Select(Items(old(clients)), AcceptOf(filter)), 1)
    {
      clients, filteredClients := FilterAndRenumber(clients, AcceptOf(filter));
    }

    /** `ExecuteLoadClients`: newest first, numbered, then filtered. */
    method LoadClients(db: seq<Client>)
      modifies this`clients, this`filteredClients, this`isLoading, this`statusMessage
      ensures ShowsLoaded(db)
    {
      isLoading := true;
      statusMessage := "Загрузка клиентов...";
      var rows, shown := NumberAndFilter(SortedByCreated(db), AcceptOf(filter));
      clients, filteredClients := rows, shown;
      statusMessage := LoadedMessage(|rows|, "клиентов");
      isLoading := false;
    }

    /** `ExecuteAddClient`: an empty client stamped `now`. */
    method AddClient(now: Instant)
      modifies this`isEditMode, this`editing, this`isDialogOpen, this`statusMessage
      ensures !isEditMode && isDialogOpen && editing == Some(Client(0, "", "", "", "", "", now))
      ensures statusMessage == "Добавление нового клиента"
    {
      isEditMode := false;
      editing := Some(Client(0, "", "", "", "", "", now));
      isDialogOpen := true;
      statusMessage := "Добавление нового клиента";
    }

    /** `ExecuteEditClient`: a copy of the selected client. */
    method EditClient()
      modifies this`isEditMode, this`editing, this`isDialogOpen, this`statusMessage
      ensures old(selected).None? ==> unchanged(this)
      ensures selected.Some? ==> isEditMode && isDialogOpen && editing == selected
      ensures selected.Some? ==> statusMessage == "Редактирование клиента: " + selected.value.companyName
    {
      if selected.None? {
        return;
      }
      isEditMode := true;
      editing := selected;
      isDialogOpen := true;
      statusMessage := "Редактирование клиента: " + selected.value.companyName;
    }

    /** `ExecuteCancelEdit`. */
    method CancelEdit()
      modifies this`isDialogOpen, this`editing, this`statusMessage
      ensures !isDialogOpen && editing.None? && statusMessage == "Редактирование отменено"
    {
      isDialogOpen := false;
      editing := None;
      statusMessage := "Редактирование отменено";
    }

    /** `ExecuteClearFilters`. */
    method ClearFilters(today: Date)
      requires ValidDate(today)
      modifies this`filter, this`statusMessage
      ensures filter == ClientFilter("", Some(DefaultRange(today).start), Some(DefaultRange(today).end))
      ensures statusMessage == "Фильтры очищены"
    {
      filter := ClientFilter("", Some(DefaultRange(today).start), Some(DefaultRange(today).end));
      statusMessage := "Фильтры очищены";
    }

    /** `ExecuteSetTodayFilter`. */
    method SetTodayFilter(today: Date)
      requires ValidDate(today)
      modifies this`filter
      ensures filter == old(filter).(start := Some(DayNumber(today)), end := Some(DayNumber(today)))
      ensures forall c :: FilterClients(filter, c) ==> DayOf(c.created) == DayNumber(today)
    {
      filter := filter.(start := Some(DayNumber(today)), end := Some(DayNumber(today)));
    }

    /** `ExecuteSetWeekFilter`, with the week starting on the Monday on or before today. */
    method SetWeekFilter(today: Date)
      requires ValidDate(today)
      modifies this`filter
      ensures filter == old(filter).(start := Some(WeekRangeFixed(today).start), end := Some(WeekRangeFixed(today).end))
      ensures filter.start.value <= DayNumber(today) <= filter.end.value
    {
      var r := WeekRangeFixed(today);
      WeekRangeFixedHoldsToday(today);
      filter := filter.(start := Some(r.start), end := Some(r.end));
    }

    /** `ExecuteSetMonthFilter`. */
    method SetMonthFilter(today: Date)
      requires ValidDate(today)
      modifies this`filter
      ensures filter == old(filter).(start := Some(MonthRange(today).start), end := Some(MonthRange(today).end))
    {
      var r := MonthRange(today);
      filter := filter.(start := Some(r.start), end := Some(r.end));
    }

    /** `ExecuteDeleteClient`: after confirmation the record goes and the lists are reloaded. */
    method DeleteClient(confirmed: bool, db: seq<Client>) returns (db': seq<Client>)
      modifies this`clients, this`filteredClients, this`isLoading, this`statusMessage
      ensures old(selected).None? || !confirmed ==>
        db' == db && clients == old(clients) && filteredClients == old(filteredClients)
        && statusMessage == old(statusMessage) && isLoading == old(isLoading)
      ensures old(selected).Some? && confirmed ==>
        db' == RemoveByKey(db, ClientKey, old(selected).value.id)
        && clients == LoadedRows(db', filter) && filteredClients == LoadedFiltered(db', filter)
        && statusMessage == "Клиент успешно удален" && !isLoading
    {
      db' := db;
      if selected.None? || !confirmed {
        return;
      }
      db' := RemoveByKey(db, ClientKey, selected.value.id);
      LoadClients(db');
      statusMessage := "Клиент успешно удален";
    }

    /**
     * `ExecuteSaveClient`: the first failing check is shown; a save that
     * passes writes the record, closes the dialog and reloads.
     */
    method SaveClient(db: seq<Client>, newId: int, now: Instant) returns (db': seq<Client>, shown: Option<string>)
      modifies this`clients, this`filteredClients, this`isLoading, this`isDialogOpen, this`statusMessage
      ensures old(editing).None? || SaveError(old(editing).value).Some? ==>
        db' == db && clients == old(clients) && filteredClients == old(filteredClients)
        && isDialogOpen == old(isDialogOpen) && isLoading == old(isLoading) && statusMessage == old(statusMessage)
        && shown == (if editing.None? then None else SaveError(editing.value))
      ensures old(editing).Some? && SaveError(old(editing).value).None? ==>
        db' == SavedTable(db, editing.value, isEditMode, newId, now) && shown.None?
        && !isDialogOpen && ShowsLoaded(db')
    {
      db' := db;
      shown := None;
      if editing.None? {
        return;
      }
      var error := SaveError(editing.value);
      if error.Some? {
        shown := error;
        return;
      }
      db' := SavedTable(db, editing.value, isEditMode, newId, now);
      isDialogOpen := false;
      LoadClients(db');
    }
  }
}
