/** The dashboard page (client/src/pages/Dashboard.tsx): the entry list with its heatmap, the
    5-per-page pagination, the dialog of a clicked day, and the edit and delete flows. The pure
    transforms are functions; the page's React state is a class whose methods are the handlers.
    Token acquisition and HTTP calls are outside the model: a handler receives their outcome. */
module Dashboard {
  import opened Wrappers
  import opened Seqs
  import opened JournalEntryModel
  import opened CalendarHeatmap

  /** An entry as the page receives it from GET /journal. The mood is whatever string the
      server stored: an update runs no validators, so it need not be one of the three. */
  datatype Entry = Entry(id: string, text: string, selectedMood: string, sentimentLabel: Label, createdAt: string)

  // ---------------------------------------------------------------------------------------
  // The day of an entry: `createdAt.split('T')[0]`.

  /** The part of `s` before its first 'T', or all of `s` when it has none. */
  function BeforeT(s: string): (day: string)
    ensures day <= s
    ensures 'T' !in day
    ensures |day| < |s| ==> s[|day|] == 'T'
  {
    if s == [] || s[0] == 'T' then []
    else
      var rest := BeforeT(s[1..]);
      assert s == [s[0]] + s[1..];
      [s[0]] + rest
  }

  /** The three properties of `BeforeT` pin it down: no other prefix has them. */
  lemma {:induction false} BeforeTUnique(s: string, p: string)
    requires p <= s && 'T' !in p
    requires |p| < |s| ==> s[|p|] == 'T'
    ensures p == BeforeT(s)
  {
    if p != [] {
      assert p[0] == s[0] && p[0] != 'T';
      assert p[1..] <= s[1..];
      assert 'T' !in p[1..];
      BeforeTUnique(s[1..], p[1..]);
      assert p == [p[0]] + p[1..];
    }
  }

  /** An ISO timestamp "YYYY-MM-DDTHH:MM:SS.sssZ" falls on the day written before its 'T'. */
  lemma DayOfTimestamp(date: string, time: string)
    requires 'T' !in date
    ensures BeforeT(date + "T" + time) == date
  {
    var s := date + "T" + time;
    assert s[|date|] == 'T';
    assert date <= s;
    BeforeTUnique(s, date);
  }

  // ---------------------------------------------------------------------------------------
  // The heatmap: `entries.map(entry => ({ date, count: 1, mood: entry.selectedMood }))`.

  /** The cell of one entry. */
  function Cell(e: Entry): HeatmapData
  {
    HeatmapData(BeforeT(e.createdAt), 1, e.selectedMood)
  }

  /** One cell per entry, in the entries' order: same-day entries are not merged. */
  function ToHeatmap(entries: seq<Entry>): (cells: seq<HeatmapData>)
    ensures |cells| == |entries|
    ensures forall i :: 0 <= i < |entries| ==> cells[i] == Cell(entries[i])
  {
    if entries == [] then [] else [Cell(entries[0])] + ToHeatmap(entries[1..])
  }

  /** The heatmap is the one built from the entries. */
  predicate HeatmapOf(cells: seq<HeatmapData>, entries: seq<Entry>)
  {
    cells == ToHeatmap(entries)
  }

  // ---------------------------------------------------------------------------------------
  // The two filters: the delete and the day dialog.

  /** `prev.filter(e => e._id !== entryToDelete)` */
  function WithoutId(entries: seq<Entry>, id: string): seq<Entry>
  {
    Filter(entries, (e: Entry) => e.id != id)
  }

  /** The entries of the day dialog: `entries.filter(e => e.createdAt.split('T')[0] === selectedDate)`.
      With no date selected (`null`) no entry matches. */
  function DayEntries(entries: seq<Entry>, selected: Option<string>): seq<Entry>
  {
    Filter(entries, (e: Entry) => selected == Some(BeforeT(e.createdAt)))
  }

  /** Deleting removes every entry with that id, each other entry keeping its multiplicity. */
  lemma WithoutIdRemovesExactly(entries: seq<Entry>, id: string)
    ensures forall e :: e in WithoutId(entries, id) <==> e in entries && e.id != id
    ensures forall e :: multiset(WithoutId(entries, id))[e] == if e.id != id then multiset(entries)[e] else 0
  {
    FilterMultiset(entries, (e: Entry) => e.id != id);
  }

  /** Deleting keeps the order: an id that is absent changes nothing, and the id of the entry at
      `k`, when ids are unique, removes exactly that position. */
  lemma WithoutIdKeepsOrder(entries: seq<Entry>, id: string, k: nat)
    requires forall i, j :: 0 <= i < j < |entries| ==> entries[i].id != entries[j].id
    ensures (forall i :: 0 <= i < |entries| ==> entries[i].id != id) ==> WithoutId(entries, id) == entries
    ensures k < |entries| && entries[k].id == id ==> WithoutId(entries, id) == entries[..k] + entries[k + 1..]
  {
    var p := (e: Entry) => e.id != id;
    if forall i :: 0 <= i < |entries| ==> entries[i].id != id {
      FilterKeepsAll(entries, p);
    }
    if k < |entries| && entries[k].id == id {
      FilterRemovesAt(entries, p, k);
    }
  }

  /** The dialog of a day holds exactly the entries written on it, each as often as in the list;
      with no day selected it is empty. */
  lemma DayEntriesMeaning(entries: seq<Entry>, selected: Option<string>)
    ensures forall e :: e in DayEntries(entries, selected) <==>
              e in entries && selected.Some? && BeforeT(e.createdAt) == selected.value
    ensures forall e :: multiset(DayEntries(entries, selected))[e] ==
              if selected == Some(BeforeT(e.createdAt)) then multiset(entries)[e] else 0
    ensures selected.None? ==> DayEntries(entries, selected) == []
  {
    FilterMultiset(entries, (e: Entry) => selected == Some(BeforeT(e.createdAt)));
    if selected.None? {
      assert forall e :: e !in DayEntries(entries, selected);
    }
  }

  /** The number of heatmap cells on a day equals the number of entries its dialog lists. */
  lemma {:induction false} HeatmapDayCountIsDialogSize(entries: seq<Entry>, day: string)
    ensures |Filter(ToHeatmap(entries), (c: HeatmapData) => c.date == day)| == |DayEntries(entries, Some(day))|
  {
    if entries != [] {
      assert ToHeatmap(entries)[1..] == ToHeatmap(entries[1..]);
      HeatmapDayCountIsDialogSize(entries[1..], day);
    }
  }

  /** Clicking the heatmap cell of an entry selects the entry's day, unless that day is empty,
      and the entry is listed in the dialog of the day selected. */
  lemma CellClickShowsItsEntry(entries: seq<Entry>, k: nat)
    requires k < |entries|
    ensures var target := ClickTarget(Some(ToHeatmap(entries)[k]));
            && (target.None? <==> BeforeT(entries[k].createdAt) == "")
            && (target.Some? ==> target.value == BeforeT(entries[k].createdAt) && entries[k] in DayEntries(entries, target))
  {
    DayEntriesMeaning(entries, Some(BeforeT(entries[k].createdAt)));
  }

  // ---------------------------------------------------------------------------------------
  // Pagination: `entries.slice((currentPage - 1) * 5, currentPage * 5)` and
  // `Math.ceil(entries.length / 5)`.

  const PerPage: nat := 5

  function Min(a: int, b: int): int
  {
    if a <= b then a else b
  }

  /** The entries of 1-based page `page`, clipped to the list as `slice` clips. */
  function PageSlice<T>(entries: seq<T>, page: int): (shown: seq<T>)
    requires page >= 1
    ensures |shown| <= PerPage
    ensures var start := (page - 1) * PerPage;
            |shown| == if start >= |entries| then 0 else Min(PerPage, |entries| - start)
    ensures forall i :: 0 <= i < |shown| ==> shown[i] == entries[(page - 1) * PerPage + i]
  {
    var start := Min((page - 1) * PerPage, |entries|);
    var end := Min(page * PerPage, |entries|);
    entries[start..end]
  }

  /** The number of pages: the least count whose pages hold every entry. */
  function PageCount(n: nat): (count: nat)
    ensures n <= count * PerPage
    ensures count > 0 ==> (count - 1) * PerPage < n
  {
    (n + PerPage - 1) / PerPage
  }

  /** Entry `i` is shown on page `i / 5 + 1`, at position `i % 5`. */
  lemma EntryOnItsPage<T>(entries: seq<T>, i: nat)
    requires i < |entries|
    ensures var shown := PageSlice(entries, i / PerPage + 1);
            i % PerPage < |shown| && shown[i % PerPage] == entries[i]
  {
  }

  /** A page shows something exactly when its number is at most the page count. */
  lemma NonEmptyPagesAreCounted<T>(entries: seq<T>, page: int)
    requires page >= 1
    ensures PageSlice(entries, page) != [] <==> page <= PageCount(|entries|)
  {
  }

  /** The pages 1 to `count`, one after the other. */
  function Pages<T>(entries: seq<T>, count: nat): seq<T>
  {
    if count == 0 then [] else Pages(entries, count - 1) + PageSlice(entries, count)
  }

  lemma {:induction false} PagesArePrefix<T>(entries: seq<T>, count: nat)
    ensures Pages(entries, count) == entries[..Min(count * PerPage, |entries|)]
  {
    if count > 0 {
      PagesArePrefix(entries, count - 1);
      var a := Min((count - 1) * PerPage, |entries|);
      var b := Min(count * PerPage, |entries|);
      assert entries[..b] == entries[..a] + entries[a..b];
    }
  }

  /** Reading the pages in order shows every entry once, in list order. */
  lemma PagesCoverTheList<T>(entries: seq<T>)
    ensures Pages(entries, PageCount(|entries|)) == entries
  {
    PagesArePrefix(entries, PageCount(|entries|));
  }

  // ---------------------------------------------------------------------------------------
  // The page's state and its handlers.

  /** How a handler's request ends: the access token could not be obtained (no request is
      sent), the request was sent and failed, or it succeeded. */
  datatype RequestOutcome = TokenFailed | Failed | Succeeded

  /** The body of `PUT /journal/:id` that `handleUpdate` sends. */
  datatype UpdateRequest = UpdateRequest(id: string, text: string, selectedMood: string)

  class DashboardPage {
    var entries: seq<Entry>
    var loading: bool
    var selectedDate: Option<string>
    var modalOpen: bool
    var heatmapData: seq<HeatmapData>
    var currentPage: int
    var editDialogOpen: bool
    var editEntry: Option<Entry>
    var editText: string
    var editMood: string
    var successMsg: string
    var snackbarOpen: bool
    var deleteConfirmOpen: bool
    var entryToDelete: Option<string>

    /** Every handler that sets the entries recomputes the heatmap from them, and the page is a
        1-based page number. */
    ghost predicate Valid()
      reads this
    {
      HeatmapOf(heatmapData, entries) && currentPage >= 1
    }

    /** The entries the list shows. */
    function Shown(): (shown: seq<Entry>)
      reads this
      requires Valid()
      ensures |shown| <= PerPage
    {
      PageSlice(entries, currentPage)
    }

    /** The entries the day dialog shows: those written on the selected day, none when no day
        is selected. */
    function Dialog(): (dialog: seq<Entry>)
      reads this
      ensures forall e :: e in dialog <==> e in entries && selectedDate == Some(BeforeT(e.createdAt))
      ensures selectedDate.None? ==> dialog == []
    {
      DayEntriesMeaning(entries, selectedDate);
      DayEntries(entries, selectedDate)
    }

    /** The initial state of the `useState` hooks. */
    constructor ()
      ensures Valid()
      ensures entries == [] && heatmapData == [] && loading
      ensures selectedDate == None && !modalOpen && currentPage == 1
      ensures !editDialogOpen && editEntry == None && editText == "" && editMood == MoodName(Happy)
      ensures successMsg == "" && !snackbarOpen && !deleteConfirmOpen && entryToDelete == None
    {
      entries := [];
      loading := true;
      selectedDate := None;
      modalOpen := false;
      heatmapData := [];
      currentPage := 1;
      editDialogOpen := false;
      editEntry := None;
      editText := "";
      editMood := MoodName(Happy);
      successMsg := "";
      snackbarOpen := false;
      deleteConfirmOpen := false;
      entryToDelete := None;
    }

    /** `fetchEntries`: the fetched list (None when the request failed) replaces the entries and
        the heatmap; loading ends either way. */
    method FetchEntries(response: Option<seq<Entry>>)
      requires Valid()
      modifies this
      ensures Valid()
      ensures response.Some? ==> entries == response.value
      ensures response.None? ==> entries == old(entries)
      ensures !loading
      ensures unchanged(this`selectedDate, this`modalOpen, this`currentPage, this`editDialogOpen,
                        this`editEntry, this`editText, this`editMood, this`successMsg,
                        this`snackbarOpen, this`deleteConfirmOpen, this`entryToDelete)
    {
      if response.Some? {
        heatmapData := ToHeatmap(response.value);
        entries := response.value;
      }
      loading := false;
    }

    /** `handleDateClick`: the clicked day is selected and its dialog opened. */
    method HandleDateClick(date: string)
      requires Valid()
      modifies this
      ensures Valid()
      ensures selectedDate == Some(date) && modalOpen
      ensures Dialog() == DayEntries(entries, Some(date))
      ensures unchanged(this`entries, this`heatmapData, this`loading, this`currentPage,
                        this`editDialogOpen, this`editEntry, this`editText, this`editMood,
                        this`successMsg, this`snackbarOpen, this`deleteConfirmOpen, this`entryToDelete)
    {
      selectedDate := Some(date);
      modalOpen := true;
    }

    /** The Pagination's `onChange`: it reports a 1-based page. */
    method SetPage(page: int)
      requires Valid() && page >= 1
      modifies this
      ensures Valid() && currentPage == page
      ensures Shown() == PageSlice(entries, page)
      ensures unchanged(this`entries, this`heatmapData, this`loading, this`selectedDate,
                        this`modalOpen, this`editDialogOpen, this`editEntry, this`editText,
                        this`editMood, this`successMsg, this`snackbarOpen, this`deleteConfirmOpen,
                        this`entryToDelete)
    {
      currentPage := page;
    }

    /** `handleEdit`: the edit dialog opens on a copy of the entry's text and mood. */
    method HandleEdit(entry: Entry)
      requires Valid()
      modifies this
      ensures Valid()
      ensures editEntry == Some(entry) && editText == entry.text && editMood == entry.selectedMood
      ensures editDialogOpen
      ensures unchanged(this`entries, this`heatmapData, this`loading, this`selectedDate,
                        this`modalOpen, this`currentPage, this`successMsg, this`snackbarOpen,
                        this`deleteConfirmOpen, this`entryToDelete)
    {
      editEntry := Some(entry);
      editText := entry.text;
      editMood := entry.selectedMood;
      editDialogOpen := true;
    }

    /** `handleUpdate`. Without an entry under edit nothing happens and nothing is sent. When
        the access token cannot be obtained no PUT is sent either. Otherwise the edited text and
        mood are sent for the entry's id; when the PUT succeeds the edit state is reset, and
        when the refetch then succeeds too, the entries and the heatmap are replaced. The
        `finally` block runs on every outcome past the guard, so the snackbar reports "Journal
        entry updated!" even when the token or the PUT failed. */
    method HandleUpdate(put: RequestOutcome, refreshed: Option<seq<Entry>>) returns (sent: Option<UpdateRequest>)
      requires Valid()
      modifies this
      ensures Valid()
      ensures old(editEntry).None? ==> sent == None && unchanged(this)
      ensures old(editEntry).Some? && put.TokenFailed? ==> sent == None
      ensures old(editEntry).Some? && !put.TokenFailed? ==>
                sent == Some(UpdateRequest(old(editEntry).value.id, old(editText), old(editMood)))
      ensures old(editEntry).Some? ==> successMsg == "Journal entry updated!" && snackbarOpen && !loading
      ensures old(editEntry).Some? && put.Succeeded? ==>
                !editDialogOpen && editEntry == None && editText == "" && editMood == MoodName(Happy)
      ensures !put.Succeeded? ==>
                editDialogOpen == old(editDialogOpen) && editEntry == old(editEntry) &&
                editText == old(editText) && editMood == old(editMood)
      ensures old(editEntry).Some? && put.Succeeded? && refreshed.Some? ==> entries == refreshed.value
      ensures old(editEntry).None? || !put.Succeeded? || refreshed.None? ==> entries == old(entries)
      ensures unchanged(this`selectedDate, this`modalOpen, this`currentPage, this`deleteConfirmOpen,
                        this`entryToDelete)
    {
      if editEntry.None? {
        return None;
      }
      if put.TokenFailed? {
        sent := None;
      } else {
        sent := Some(UpdateRequest(editEntry.value.id, editText, editMood));
        if put.Succeeded? {
          ResetEdit();
          if refreshed.Some? {
            Refresh(refreshed.value);
          }
        }
      }
      ReportUpdated();
    }

    /** The `finally` block of `handleUpdate`: the snackbar reports the update and loading ends. */
    method ReportUpdated()
      requires Valid()
      modifies this`successMsg, this`snackbarOpen, this`loading
      ensures Valid()
      ensures successMsg == "Journal entry updated!" && snackbarOpen && !loading
    {
      successMsg := "Journal entry updated!";
      snackbarOpen := true;
      loading := false;
    }

    /** The reset after a successful PUT: the edit dialog closes and its fields return to their
        initial values; the list starts loading. */
    method ResetEdit()
      requires Valid()
      modifies this
      ensures Valid()
      ensures !editDialogOpen && editEntry == None && editText == "" && editMood == MoodName(Happy) && loading
      ensures unchanged(this`entries, this`heatmapData, this`selectedDate, this`modalOpen,
                        this`currentPage, this`successMsg, this`snackbarOpen,
                        this`deleteConfirmOpen, this`entryToDelete)
    {
      editDialogOpen := false;
      editEntry := None;
      editText := "";
      editMood := MoodName(Happy);
      loading := true;
    }

    /** The refetched list replaces the entries, and the heatmap is rebuilt from it. */
    method Refresh(list: seq<Entry>)
      requires Valid()
      modifies this`entries, this`heatmapData
      ensures Valid() && entries == list
    {
      entries := list;
      heatmapData := ToHeatmap(list);
    }

    /** `confirmDelete`: remember the id and ask for confirmation. */
    method ConfirmDelete(entryId: string)
      requires Valid()
      modifies this
      ensures Valid()
      ensures entryToDelete == Some(entryId) && deleteConfirmOpen
      ensures unchanged(this`entries, this`heatmapData, this`loading, this`selectedDate,
                        this`modalOpen, this`currentPage, this`editDialogOpen, this`editEntry,
                        this`editText, this`editMood, this`successMsg, this`snackbarOpen)
    {
      entryToDelete := Some(entryId);
      deleteConfirmOpen := true;
    }

    /** `handleConfirmDelete`. Without an id to delete (none, or the empty string, which the
        guard treats as false) nothing happens. When the access token cannot be obtained no
        DELETE is sent and nothing changes. Otherwise the DELETE is sent; when it succeeds the
        entries lose every record with that id, the heatmap is recomputed from them, and the
        confirmation closes; when it fails nothing changes. */
    method HandleConfirmDelete(delete: RequestOutcome) returns (sent: Option<string>)
      requires Valid()
      modifies this
      ensures Valid()
      ensures old(entryToDelete).None? || old(entryToDelete).value == "" ==> sent == None && unchanged(this)
      ensures old(entryToDelete).Some? && old(entryToDelete).value != "" ==>
                sent == if delete.TokenFailed? then None else old(entryToDelete)
      ensures !delete.Succeeded? ==> unchanged(this)
      ensures sent.Some? && delete.Succeeded? ==>
                && entries == WithoutId(old(entries), sent.value)
                && |heatmapData| == |entries|
                && !deleteConfirmOpen && entryToDelete == None
      ensures unchanged(this`loading, this`selectedDate, this`modalOpen, this`currentPage,
                        this`editDialogOpen, this`editEntry, this`editText, this`editMood,
                        this`successMsg, this`snackbarOpen)
    {
      if entryToDelete.None? || entryToDelete.value == "" {
        return None;
      }
      if delete.TokenFailed? {
        return None;
      }
      var id := entryToDelete.value;
      sent := Some(id);
      if delete.Failed? {
        return;
      }
      var updatedEntries := WithoutId(entries, id);
      heatmapData := ToHeatmap(updatedEntries);
      entries := updatedEntries;
      deleteConfirmOpen := false;
      entryToDelete := None;
    }
  }
}
