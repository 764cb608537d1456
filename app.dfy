/** The application state (src/App.jsx): the records and paths the worker
    returns, the view settings the controls edit, and the requests the state
    changes send to the worker. Each React effect is a method the
    surrounding runtime calls after the state it depends on has changed. */
module App {
  import opened Wrappers
  import opened Seqs
  import opened Text
  import opened Json
  import opened PathCatalog
  import opened Filters
  import opened Ordering
  import opened Worker
  import opened Splice
  import Controls

  // ---------------------------------------------------------------------------
  // Initial columns

  /** The columns shown first, in this order, when the data has them. */
  const DefaultColumns: seq<string> :=
    ["timestamp", "action", "httpRequest.clientIp", "httpRequest.country", "httpRequest.uri", "header.Host", "header.User-Agent"]

  /** Top-level fields never shown by default. */
  const ExcludedColumns: seq<string> := ["formatVersion", "httpSourceId", "httpSourceName", "webaclId"]

  function InPaths(paths: seq<string>): string -> bool {
    c => c in paths
  }

  function OtherTopLevel(defaults: seq<string>): string -> bool {
    p => '.' !in p && p !in defaults
  }

  function NotIn(excluded: seq<string>): string -> bool {
    p => p !in excluded
  }

  /** The columns a first processing shows for given default and excluded
      lists: the defaults present in the data, in their own order, then the
      other top-level fields that are not excluded, in path-list order. */
  function ColumnsFor(defaults: seq<string>, excluded: seq<string>, paths: seq<string>): seq<string> {
    Keep(defaults, InPaths(paths)) + Keep(Keep(paths, OtherTopLevel(defaults)), NotIn(excluded))
  }

  function InitialColumns(paths: seq<string>): seq<string> {
    ColumnsFor(DefaultColumns, ExcludedColumns, paths)
  }

  lemma ColumnsForMembers(defaults: seq<string>, excluded: seq<string>, paths: seq<string>)
    ensures forall c :: c in ColumnsFor(defaults, excluded, paths) <==>
      c in paths && (c in defaults || ('.' !in c && c !in excluded))
  {
    KeepMembers(defaults, InPaths(paths));
    KeepMembers(paths, OtherTopLevel(defaults));
    KeepMembers(Keep(paths, OtherTopLevel(defaults)), NotIn(excluded));
  }

  /** A column is shown at first exactly when the data has it and it is a
      default, or a top-level field that is not excluded. */
  lemma InitialColumnsMembers(paths: seq<string>)
    ensures forall c :: c in InitialColumns(paths) <==>
      c in paths && (c in DefaultColumns || ('.' !in c && c !in ExcludedColumns))
  {
    ColumnsForMembers(DefaultColumns, ExcludedColumns, paths);
  }

  lemma ColumnsForOrder(defaults: seq<string>, excluded: seq<string>, paths: seq<string>)
    ensures var d := Keep(defaults, InPaths(paths));
      var r := ColumnsFor(defaults, excluded, paths);
      && Subsequence(d, defaults) && r[..|d|] == d
      && Subsequence(r[|d|..], paths) && (forall i :: |d| <= i < |r| ==> r[i] !in defaults)
  {
    var d := Keep(defaults, InPaths(paths));
    var top := Keep(paths, OtherTopLevel(defaults));
    var rest := Keep(top, NotIn(excluded));
    var r := ColumnsFor(defaults, excluded, paths);
    assert r[..|d|] == d && r[|d|..] == rest;
    KeepIsSubsequence(defaults, InPaths(paths));
    KeepIsSubsequence(paths, OtherTopLevel(defaults));
    KeepIsSubsequence(top, NotIn(excluded));
    SubsequenceTrans(rest, top, paths);
    KeepMembers(paths, OtherTopLevel(defaults));
    KeepMembers(top, NotIn(excluded));
    forall i | |d| <= i < |r| ensures r[i] !in defaults {
      assert r[i] == rest[i - |d|];
      assert r[i] in top;
    }
  }

  /** The defaults come first, in their fixed order, and the rest follow in
      path-list order. */
  lemma InitialColumnsOrder(paths: seq<string>)
    ensures var d := Keep(DefaultColumns, InPaths(paths));
      var r := InitialColumns(paths);
      && Subsequence(d, DefaultColumns) && r[..|d|] == d
      && Subsequence(r[|d|..], paths) && (forall i :: |d| <= i < |r| ==> r[i] !in DefaultColumns)
  {
    ColumnsForOrder(DefaultColumns, ExcludedColumns, paths);
  }

  /** `timestamp` leads whenever the data has it. */
  lemma InitialColumnsStartWithTimestamp(paths: seq<string>)
    requires "timestamp" in paths
    ensures InitialColumns(paths)[0] == "timestamp"
  {
    assert DefaultColumns[0] == "timestamp";
    assert Keep(DefaultColumns, InPaths(paths)) == ["timestamp"] + Keep(DefaultColumns[1..], InPaths(paths));
  }

  lemma ColumnsForDistinct(defaults: seq<string>, excluded: seq<string>, paths: seq<string>)
    requires NoDups(defaults) && NoDups(paths)
    ensures NoDups(ColumnsFor(defaults, excluded, paths))
  {
    var d := Keep(defaults, InPaths(paths));
    var top := Keep(paths, OtherTopLevel(defaults));
    var rest := Keep(top, NotIn(excluded));
    KeepNoDups(defaults, InPaths(paths));
    KeepNoDups(paths, OtherTopLevel(defaults));
    KeepNoDups(top, NotIn(excluded));
    KeepMembers(defaults, InPaths(paths));
    KeepMembers(paths, OtherTopLevel(defaults));
    KeepMembers(top, NotIn(excluded));
    NoDupsConcat(d, rest);
  }

  /** A path list without repeats gives columns without repeats. */
  lemma InitialColumnsDistinct(paths: seq<string>)
    requires NoDups(paths)
    ensures NoDups(InitialColumns(paths))
  {
    assert NoDups(DefaultColumns);
    ColumnsForDistinct(DefaultColumns, ExcludedColumns, paths);
  }

  // ---------------------------------------------------------------------------
  // Sorting by a column

  /** The sort after a click on the header of `field`. */
  function NextSort(prev: SortConfig, field: string): SortConfig {
    SortConfig(field, if prev.field == field && prev.direction == Asc then Desc else Asc)
  }

  /** A click on a new column sorts it ascending; a click on the sorted column
      flips the direction; so two clicks on one column give both orders. */
  lemma NextSortSpec(prev: SortConfig, field: string)
    ensures NextSort(prev, field).field == field
    ensures prev.field != field ==> NextSort(prev, field).direction == Asc
    ensures prev.field == field ==> NextSort(prev, field).direction != prev.direction
    ensures NextSort(NextSort(prev, field), field).direction != NextSort(prev, field).direction
  {
  }

  // ---------------------------------------------------------------------------
  // The column of a newly added header

  /** `p.toLowerCase() === \`header.${pending.toLowerCase()}\``. */
  predicate MatchesPending(p: string, pending: string) {
    Lower(p) == "header." + Lower(pending)
  }

  /** `allPaths.find(...)`: the first path naming the pending header. */
  function FindPendingPath(paths: seq<string>, pending: string): Option<string>
    decreases |paths|
  {
    if paths == [] then None
    else if MatchesPending(paths[0], pending) then Some(paths[0])
    else FindPendingPath(paths[1..], pending)
  }

  /** The search finds a path exactly when one matches, and then the first. */
  lemma {:induction false} FindPendingPathSpec(paths: seq<string>, pending: string)
    ensures FindPendingPath(paths, pending).None? <==> forall p :: p in paths ==> !MatchesPending(p, pending)
    ensures FindPendingPath(paths, pending).Some? ==>
      exists i :: 0 <= i < |paths| && paths[i] == FindPendingPath(paths, pending).value
        && MatchesPending(paths[i], pending)
        && forall j :: 0 <= j < i ==> !MatchesPending(paths[j], pending)
    decreases |paths|
  {
    if paths != [] && !MatchesPending(paths[0], pending) {
      FindPendingPathSpec(paths[1..], pending);
      assert forall p :: p in paths ==> p == paths[0] || p in paths[1..];
      if FindPendingPath(paths, pending).Some? {
        var i :| 0 <= i < |paths[1..]| && paths[1..][i] == FindPendingPath(paths, pending).value
          && MatchesPending(paths[1..][i], pending)
          && forall j :: 0 <= j < i ==> !MatchesPending(paths[1..][j], pending);
        assert paths[i + 1] == paths[1..][i];
        forall j | 0 <= j < i + 1 ensures !MatchesPending(paths[j], pending) {
          if j > 0 {
            assert paths[j] == paths[1..][j - 1];
          }
        }
      }
    }
  }

  /** `indexOf`: the first position holding `x`, or -1. */
  function IndexOf<T(==)>(s: seq<T>, x: T): (r: int)
    ensures -1 <= r < |s|
    ensures r >= 0 ==> s[r] == x && x !in s[..r]
    ensures r == -1 <==> x !in s
    decreases |s|
  {
    if s == [] then -1
    else if s[0] == x then 0
    else
      var k := IndexOf(s[1..], x);
      assert s[1..] == s[1..][..|s| - 1];
      if k == -1 then -1
      else
        assert s[..k + 1] == [s[0]] + s[1..][..k];
        k + 1
  }

  /** Where the new column goes: right after the first `timestamp`, or at the
      front when `timestamp` is not shown. */
  function InsertionPoint(columns: seq<string>): (r: nat)
    ensures r <= |columns|
  {
    IndexOf(columns, "timestamp") + 1
  }

  function InsertColumn(columns: seq<string>, path: string): seq<string> {
    InsertedAt(columns, InsertionPoint(columns), path)
  }

  /** The new column lands right after the first `timestamp` (at the front
      without one), and taking it out again gives back the columns as they
      were, so every other column keeps its place in order. */
  lemma InsertColumnSpec(columns: seq<string>, path: string)
    ensures var at := InsertionPoint(columns);
      var r := InsertColumn(columns, path);
      && r[at] == path
      && RemovedAt(r, at) == columns
      && multiset(r) == multiset(columns) + multiset{path}
      && ("timestamp" in columns ==> at > 0 && r[at - 1] == "timestamp" && "timestamp" !in r[..at - 1])
      && ("timestamp" !in columns ==> at == 0)
  {
    var at := InsertionPoint(columns);
    var r := InsertColumn(columns, path);
    InsertedAtSpec(columns, at, path);
    RemoveUndoesInsert(columns, at, path);
    if "timestamp" in columns {
      assert r[..at - 1] == columns[..at - 1];
      assert r[at - 1] == columns[at - 1];
    }
  }

  /** A column list without repeats stays without repeats. */
  lemma InsertColumnDistinct(columns: seq<string>, path: string)
    requires NoDups(columns) && path !in columns
    ensures NoDups(InsertColumn(columns, path))
  {
    var at := InsertionPoint(columns);
    InsertedAtSpec(columns, at, path);
    NoDupsCounts(columns);
    assert multiset(columns)[path] == 0;
    NoDupsCounts(InsertColumn(columns, path));
  }

  /** The list update inside the pending-header effect: a copy of the
      columns spliced after `timestamp`, or the column put in front. */
  method InsertAfterTimestamp(columns: seq<string>, path: string) returns (r: seq<string>)
    ensures r == InsertColumn(columns, path)
  {
    var t := IndexOf(columns, "timestamp");
    if t != -1 {
      r := SpliceIn(columns, t + 1, path);
    } else {
      r := [path] + columns;
    }
  }

  /** A processing result keeps the state consistent: the initial columns
      of a strictly increasing path list are distinct. */
  lemma ProcessedConsistent(s: Screen, l: seq<Node>, paths: seq<string>)
    requires Consistent(s) && StrictlyIncreasing(paths)
    ensures Consistent(s.(logs := l, allPaths := paths,
                          visibleColumns := if s.visibleColumns == [] then InitialColumns(paths) else s.visibleColumns))
  {
    assert NoDups(paths);
    InitialColumnsDistinct(paths);
  }

  // ---------------------------------------------------------------------------
  // The state

  /** Everything the application component holds that the model follows. */
  datatype Screen = Screen(
    rawLogs: seq<Node>,
    logs: seq<Node>,
    displayLogs: seq<Node>,
    allPaths: seq<string>,
    filters: seq<Filter>,
    groupBy: Option<string>,
    sortConfig: SortConfig,
    visibleColumns: seq<string>,
    customHeaders: seq<string>,
    pendingHeader: Option<string>,
    timeRange: TimeRange)

  const Initial: Screen :=
    Screen([], [], [], [], [], None, SortConfig("timestamp", Desc), [], [], None, TimeRange(Empty, Empty))

  /** What every reachable state satisfies: the custom headers are distinct
      and non-empty, no column is shown twice, and the time range is still
      the initial empty one, since no control sets it. */
  predicate Consistent(s: Screen) {
    && NoDups(s.customHeaders)
    && (forall h :: h in s.customHeaders ==> h != [])
    && NoDups(s.visibleColumns)
    && s.timeRange == TimeRange(Empty, Empty)
  }

  /** A shortcut: a grouping field and the conditions that go with it. */
  datatype Shortcut = Shortcut(groupBy: string, filters: Option<seq<Filter>>)

  /** The conditions `handleApplyShortcut` installs. */
  function ShortcutFilters(sc: Shortcut): seq<Filter> {
    if sc.filters.Some? && |sc.filters.value| > 0 then sc.filters.value else []
  }

  /** The columns the pending-header effect installs, if it fires: it needs a
      pending header, some paths, a path naming that header, and that path
      not yet shown. */
  function PendingColumns(s: Screen): Option<seq<string>> {
    if s.pendingHeader.Some? && s.pendingHeader.value != [] && |s.allPaths| > 0 then
      match FindPendingPath(s.allPaths, s.pendingHeader.value)
      case Some(p) => if p !in s.visibleColumns then Some(InsertColumn(s.visibleColumns, p)) else None
      case None => None
    else None
  }

  class AppState {
    var rawLogs: seq<Node>
    var logs: seq<Node>
    var displayLogs: seq<Node>
    var allPaths: seq<string>
    var filters: seq<Filter>
    var groupBy: Option<string>
    var sortConfig: SortConfig
    var visibleColumns: seq<string>
    var customHeaders: seq<string>
    var pendingHeader: Option<string>
    var timeRange: TimeRange

    function State(): Screen
      reads this
    {
      Screen(rawLogs, logs, displayLogs, allPaths, filters, groupBy, sortConfig,
             visibleColumns, customHeaders, pendingHeader, timeRange)
    }

    /** The initial `useState` values: no data, newest first. */
    constructor ()
      ensures State() == Initial && Consistent(State())
    {
      rawLogs, logs, displayLogs, allPaths := [], [], [], [];
      filters, groupBy, sortConfig := [], None, SortConfig("timestamp", Desc);
      visibleColumns, customHeaders, pendingHeader := [], [], None;
      timeRange := TimeRange(Empty, Empty);
    }

    /** `handleFileUpload`: keep the raw records and ask for processing with
        the current custom headers. */
    method UploadFile(uploaded: seq<Node>) returns (req: Request)
      modifies this
      ensures State() == old(State()).(rawLogs := uploaded)
      ensures req == ProcessLogs(uploaded, customHeaders)
    {
      rawLogs := uploaded;
      req := ProcessLogs(uploaded, customHeaders);
    }

    /** The effect on `customHeaders` and `rawLogs`: with raw records loaded,
        processing is asked for again. */
    method ReprocessRequest() returns (req: Option<Request>)
      ensures |rawLogs| > 0 <==> req.Some?
      ensures req.Some? ==> req.value == ProcessLogs(rawLogs, customHeaders)
    {
      if |rawLogs| > 0 {
        req := Some(ProcessLogs(rawLogs, customHeaders));
      } else {
        req := None;
      }
    }

    /** `worker.onmessage`: a processing result replaces the records and
        paths and, when no column is shown yet, sets the initial columns; a
        filter result replaces the displayed records. The path list the
        worker sends is strictly increasing. */
    method OnWorkerMessage(resp: Response)
      requires Consistent(State())
      requires resp.LogsProcessed? ==> StrictlyIncreasing(resp.paths)
      modifies this
      ensures Consistent(State())
      ensures resp.LogsProcessed? ==>
        State() == old(State()).(logs := resp.logs, allPaths := resp.paths,
                                 visibleColumns := if old(visibleColumns) == [] then InitialColumns(resp.paths) else old(visibleColumns))
      ensures resp.FilterSortComplete? ==> State() == old(State()).(displayLogs := resp.logs)
    {
      match resp
      case LogsProcessed(l, paths) =>
        ghost var before := State();
        ProcessedConsistent(before, l, paths);
        logs := l;
        allPaths := paths;
        if visibleColumns == [] {
          visibleColumns := InitialColumns(paths);
        }
        assert State() == before.(logs := l, allPaths := paths,
                                  visibleColumns := if before.visibleColumns == [] then InitialColumns(paths) else before.visibleColumns);
      case FilterSortComplete(l) =>
        displayLogs := l;
    }

    /** The effect on `logs`, `filters`, `sortConfig` and `timeRange`: with
        records present, filtering and sorting is asked for; without, the
        display is emptied. */
    method FilterSortRequest() returns (req: Option<Request>)
      modifies this
      ensures |logs| > 0 <==> req.Some?
      ensures req.Some? ==>
        req.value == FilterAndSort(logs, Some(filters), Some(sortConfig), Some(timeRange)) && State() == old(State())
      ensures req.None? ==> State() == old(State()).(displayLogs := [])
    {
      if |logs| > 0 {
        req := Some(FilterAndSort(logs, Some(filters), Some(sortConfig), Some(timeRange)));
      } else {
        displayLogs := [];
        req := None;
      }
    }

    /** The pending-header effect: the first path naming the pending header
        goes into a copy of the column list right after `timestamp`, and the
        pending header is cleared; otherwise nothing changes. */
    method ApplyPendingHeader()
      requires Consistent(State())
      modifies this
      ensures Consistent(State())
      ensures PendingColumns(old(State())).Some? ==>
        State() == old(State()).(visibleColumns := PendingColumns(old(State())).value, pendingHeader := None)
      ensures PendingColumns(old(State())).None? ==> State() == old(State())
    {
      if pendingHeader.Some? && pendingHeader.value != [] && |allPaths| > 0 {
        var matching := FindPendingPath(allPaths, pendingHeader.value);
        if matching.Some? && matching.value !in visibleColumns {
          InsertColumnDistinct(visibleColumns, matching.value);
          visibleColumns := InsertAfterTimestamp(visibleColumns, matching.value);
          pendingHeader := None;
        }
      }
    }

    /** `addCustomHeader`: a non-empty name not yet listed is appended and
        becomes the pending header; anything else is ignored. */
    method AddCustomHeader(name: string)
      requires Consistent(State())
      modifies this
      ensures Consistent(State())
      ensures name != [] && name !in old(customHeaders) ==>
        State() == old(State()).(customHeaders := old(customHeaders) + [name], pendingHeader := Some(name))
      ensures name == [] || name in old(customHeaders) ==> State() == old(State())
    {
      if name != [] && name !in customHeaders {
        NoDupsConcat(customHeaders, [name]);
        customHeaders := customHeaders + [name];
        pendingHeader := Some(name);
      }
    }

    /** `removeCustomHeader`: every occurrence of the name is dropped. */
    method RemoveCustomHeader(name: string)
      requires Consistent(State())
      modifies this
      ensures Consistent(State())
      ensures State() == old(State()).(customHeaders := RemoveAll(old(customHeaders), name))
    {
      RemoveAllNoDups(customHeaders, name);
      RemoveAllMembers(customHeaders, name);
      customHeaders := RemoveAll(customHeaders, name);
    }

    /** `handleApplyShortcut`: group by the shortcut's field and replace the
        conditions by its own, or by none. */
    method ApplyShortcut(sc: Shortcut)
      requires Consistent(State())
      modifies this
      ensures Consistent(State())
      ensures State() == old(State()).(groupBy := Some(sc.groupBy), filters := ShortcutFilters(sc))
    {
      groupBy := Some(sc.groupBy);
      if sc.filters.Some? && |sc.filters.value| > 0 {
        filters := sc.filters.value;
      } else {
        filters := [];
      }
    }

    /** `handleSort`. */
    method HandleSort(field: string)
      requires Consistent(State())
      modifies this
      ensures Consistent(State())
      ensures State() == old(State()).(sortConfig := NextSort(old(sortConfig), field))
    {
      sortConfig := SortConfig(field, if sortConfig.field == field && sortConfig.direction == Asc then Desc else Asc);
    }

    /** The group-by picker: the empty choice means no grouping. */
    method SelectGroupBy(value: string)
      requires Consistent(State())
      modifies this
      ensures Consistent(State())
      ensures State() == old(State()).(groupBy := if value == "" then None else Some(value))
    {
      groupBy := if value == "" then None else Some(value);
    }

    /** A checkbox of the column picker. */
    method ToggleColumn(column: string)
      requires Consistent(State())
      modifies this
      ensures Consistent(State())
      ensures State() == old(State()).(visibleColumns := Controls.ToggleColumn(old(visibleColumns), column))
    {
      Controls.ToggleKeepsDistinct(visibleColumns, column);
      visibleColumns := Controls.ToggleColumn(visibleColumns, column);
    }
  }

  // ---------------------------------------------------------------------------
  // What the state means for the display

  /** Since no control sets a time range, every filter-and-sort request the
      application sends leaves the time window off: the displayed records
      are the filtered records, sorted when a sort field is set. */
  lemma DisplayedRows(s: Screen, keyLe: (Option<Node>, Option<Node>) -> bool)
    requires Consistent(s)
    ensures !WindowActive(Some(s.timeRange))
    ensures Pipeline(s.logs, Some(s.filters), Some(s.sortConfig), Some(s.timeRange), keyLe)
         == if s.sortConfig.field != [] then SortLogs(FilterLogs(s.logs, Some(s.filters)), s.sortConfig.field, s.sortConfig.direction, keyLe)
            else FilterLogs(s.logs, Some(s.filters))
  {
  }

  /** A shortcut's conditions filter exactly as the shortcut's own list would:
      a missing or empty list keeps every record. */
  lemma ShortcutFiltersAgree(logs: seq<Node>, sc: Shortcut)
    ensures FilterLogs(logs, Some(ShortcutFilters(sc))) == FilterLogs(logs, sc.filters)
    ensures sc.filters.None? || sc.filters.value == [] ==> FilterLogs(logs, Some(ShortcutFilters(sc))) == logs
  {
  }

  /** Adding a new custom header and removing it again restores the list. */
  lemma AddThenRemoveHeader(headers: seq<string>, name: string)
    requires name !in headers
    ensures RemoveAll(headers + [name], name) == headers
  {
    var all := headers + [name];
    KeepConcat(headers, [name], Other(name));
    KeepAll(headers, Other(name));
    assert Keep([name], Other(name)) == [];
  }

  /** When the pending effect fires, the header's column is shown once, right
      after `timestamp`, and the rest of the columns keep their order; when it
      does not, the pending header stays set, even when its column is
      already shown. */
  lemma PendingHeaderOutcome(s: Screen)
    requires Consistent(s)
    ensures PendingColumns(s).Some? ==>
      var p := FindPendingPath(s.allPaths, s.pendingHeader.value).value;
      var cols := PendingColumns(s).value;
      && p in s.allPaths && MatchesPending(p, s.pendingHeader.value)
      && NoDups(cols) && cols[InsertionPoint(s.visibleColumns)] == p
      && RemovedAt(cols, InsertionPoint(s.visibleColumns)) == s.visibleColumns
    ensures PendingColumns(s).None? && s.pendingHeader.Some? && s.pendingHeader.value != [] && |s.allPaths| > 0 ==>
      forall p :: p in s.allPaths && MatchesPending(p, s.pendingHeader.value) && p !in s.visibleColumns ==>
        FindPendingPath(s.allPaths, s.pendingHeader.value) != Some(p)
    ensures s.pendingHeader.Some? && FindPendingPath(s.allPaths, s.pendingHeader.value).Some?
            && FindPendingPath(s.allPaths, s.pendingHeader.value).value in s.visibleColumns ==>
      PendingColumns(s).None?
  {
    if s.pendingHeader.Some? && s.pendingHeader.value != [] && |s.allPaths| > 0 {
      FindPendingPathSpec(s.allPaths, s.pendingHeader.value);
      var found := FindPendingPath(s.allPaths, s.pendingHeader.value);
      if found.Some? && found.value !in s.visibleColumns {
        InsertColumnSpec(s.visibleColumns, found.value);
        InsertColumnDistinct(s.visibleColumns, found.value);
      }
    }
  }
}
