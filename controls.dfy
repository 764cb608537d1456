/** The control bar (src/components/Controls.jsx): the filter editor, the
    column picker, the path lists its pickers offer and the custom-header
    input. */
module Controls {
  import opened Wrappers
  import opened Seqs
  import opened Sorting
  import opened Text
  import opened Filters
  import opened Splice

  /** One row of the filter editor. It is an object, not a value:
      `updateFilter` assigns to its properties through a shallow copy of the
      list, so every list holding the same row sees the change. */
  class FilterEntry {
    var field: Option<string>
    var operator: string
    var value: string

    constructor (field: Option<string>, operator: string, value: string)
      ensures this.field == field && this.operator == operator && this.value == value
    {
      this.field := field;
      this.operator := operator;
      this.value := value;
    }

    /** The condition this row currently stands for. */
    function Snapshot(): Filter
      reads this
    {
      Filter(field, operator, value)
    }
  }

  /** The conditions a list of rows currently stands for. */
  function Snapshots(rows: seq<FilterEntry>): seq<Filter>
    reads rows
  {
    seq(|rows|, i reads rows requires 0 <= i < |rows| => rows[i].Snapshot())
  }

  /** The three properties a row's controls edit. */
  datatype FilterKey = FieldKey | OperatorKey | ValueKey

  /** A condition with one property replaced by what its control now shows
      (a field picked from the list is always a string). */
  function Updated(f: Filter, key: FilterKey, val: string): Filter {
    match key
    case FieldKey => f.(field := Some(val))
    case OperatorKey => f.(operator := val)
    case ValueKey => f.(value := val)
  }

  /** The `filters` list the editor shows and replaces through `setFilters`. */
  class FilterList {
    var rows: seq<FilterEntry>

    constructor ()
      ensures rows == []
    {
      rows := [];
    }

    function Current(): seq<Filter>
      reads this, rows
    {
      Snapshots(rows)
    }

    /** `addFilter`: a new row on the first known path (undefined when there
        is none), comparing with `equals` against the empty string. */
    method AddFilter(allPaths: seq<string>)
      modifies this
      ensures |rows| == |old(rows)| + 1 && rows[..|old(rows)|] == old(rows) && fresh(rows[|old(rows)|])
      ensures Current() == old(Current()) + [Filter(if allPaths == [] then None else Some(allPaths[0]), "equals", "")]
    {
      var entry := new FilterEntry(if allPaths == [] then None else Some(allPaths[0]), "equals", "");
      rows := rows + [entry];
    }

    /** `removeFilter(index)`: the row at the position `index` denotes is
        dropped from a copy of the list; a position past the end drops
        nothing. The rows themselves are untouched. */
    method RemoveFilter(index: int)
      modifies this
      ensures rows == RemovedAt(old(rows), index)
    {
      rows := SpliceOut(rows, index);
    }

    /** `updateFilter(index, key, val)`: the list is copied, but the row is
        the same object and is changed in place. So the list as it was
        before the call reads the new value too, and any other position
        holding the same object changes with it. */
    method UpdateFilter(index: int, key: FilterKey, val: string)
      requires 0 <= index < |rows|
      modifies this, rows[index]
      ensures rows == old(rows)
      ensures rows[index].Snapshot() == Updated(old(rows[index].Snapshot()), key, val)
      ensures forall j :: 0 <= j < |rows| && rows[j] != rows[index] ==> rows[j].Snapshot() == old(rows[j].Snapshot())
    {
      var copy := rows;
      var entry := copy[index];
      match key
      case FieldKey => entry.field := Some(val);
      case OperatorKey => entry.operator := val;
      case ValueKey => entry.value := val;
      rows := copy;
    }
  }

  /** Changing a property of a row changes that property and keeps the rest. */
  lemma UpdatedSpec(f: Filter, key: FilterKey, val: string)
    ensures key == FieldKey ==> Updated(f, key, val).field == Some(val)
    ensures key == OperatorKey ==> Updated(f, key, val).operator == val
    ensures key == ValueKey ==> Updated(f, key, val).value == val
    ensures key != FieldKey ==> Updated(f, key, val).field == f.field
    ensures key != OperatorKey ==> Updated(f, key, val).operator == f.operator
    ensures key != ValueKey ==> Updated(f, key, val).value == f.value
  {
  }

  // ---------------------------------------------------------------------------
  // The column picker

  /** `toggleColumn(column)`: a shown column is hidden; `timestamp` comes back
      at the front; any other column is added and the list re-sorted, with
      `timestamp` placed first whether or not it was shown. */
  function ToggleColumn(visible: seq<string>, column: string): seq<string> {
    if column in visible then RemoveAll(visible, column)
    else if column == "timestamp" then ["timestamp"] + visible
    else ["timestamp"] + RemoveAll(SortBy(visible + [column], StrLe), "timestamp")
  }

  /** Hiding a column keeps the other columns, in their order. */
  lemma HideColumnSpec(visible: seq<string>, column: string)
    requires column in visible
    ensures var r := ToggleColumn(visible, column);
      column !in r && Subsequence(r, visible) && forall x :: x != column ==> (x in r <==> x in visible)
  {
    RemoveAllMembers(visible, column);
  }

  /** Showing a column puts `timestamp` first. For a column other than
      `timestamp` the rest is sorted and holds each shown column other than
      `timestamp`, and the new one, as often as before. */
  lemma ShowColumnSpec(visible: seq<string>, column: string)
    requires column !in visible
    ensures var r := ToggleColumn(visible, column);
      r != [] && r[0] == "timestamp" && column in r
    ensures column != "timestamp" ==>
      var rest := ToggleColumn(visible, column)[1..];
      && Sorted(rest, StrLe)
      && "timestamp" !in rest
      && forall x :: x != "timestamp" ==> multiset(rest)[x] == multiset(visible + [column])[x]
  {
    if column != "timestamp" {
      var all := visible + [column];
      var sorted := SortBy(all, StrLe);
      StrLeTotalPreorder();
      SortByCorrect(all, StrLe);
      var rest := RemoveAll(sorted, "timestamp");
      assert ToggleColumn(visible, column)[1..] == rest;
      SubsequenceSorted(rest, sorted, StrLe);
      assert multiset(rest)[column] == multiset(all)[column];
      assert column in all;
    }
  }

  /** A subsequence of a sorted list is sorted. */
  lemma {:induction false} SubsequenceSorted<T>(a: seq<T>, b: seq<T>, le: (T, T) -> bool)
    requires Subsequence(a, b) && Sorted(b, le)
    ensures Sorted(a, le)
    decreases |b|
  {
    if b != [] {
      if Subsequence(a, b[1..]) {
        SubsequenceSorted(a, b[1..], le);
      } else {
        SubsequenceSorted(a[1..], b[1..], le);
        SubsequenceMultiset(a[1..], b[1..]);
        forall j | 0 < j < |a| ensures le(a[0], a[j]) {
          assert a[j] == a[1..][j - 1];
          assert a[j] in multiset(b[1..]);
          var m :| 0 <= m < |b[1..]| && b[1..][m] == a[j];
          assert b[m + 1] == a[j];
        }
      }
    }
  }

  /** Toggling a column flips whether it is shown. */
  lemma ToggleFlips(visible: seq<string>, column: string)
    ensures column in ToggleColumn(visible, column) <==> column !in visible
  {
    if column in visible {
      HideColumnSpec(visible, column);
    } else {
      ShowColumnSpec(visible, column);
    }
  }

  /** Toggling never shows a column twice. */
  lemma ToggleKeepsDistinct(visible: seq<string>, column: string)
    requires NoDups(visible)
    ensures NoDups(ToggleColumn(visible, column))
  {
    if column in visible {
      RemoveAllNoDups(visible, column);
    } else if column == "timestamp" {
      NoDupsConcat(["timestamp"], visible);
    } else {
      SortedInsertDistinct(visible, column);
    }
  }

  lemma SortedInsertDistinct(visible: seq<string>, column: string)
    requires NoDups(visible) && column !in visible
    ensures NoDups(["timestamp"] + RemoveAll(SortBy(visible + [column], StrLe), "timestamp"))
  {
    var all := visible + [column];
    var sorted := SortBy(all, StrLe);
    NoDupsConcat(visible, [column]);
    StrLeTotalPreorder();
    SortByCorrect(all, StrLe);
    NoDupsPermutation(all, sorted);
    RemoveAllNoDups(sorted, "timestamp");
    NoDupsConcat(["timestamp"], RemoveAll(sorted, "timestamp"));
  }

  // ---------------------------------------------------------------------------
  // The paths the pickers offer

  /** `!p.includes('.headers[')`. */
  function NotHeaderEntry(): string -> bool {
    p => !Contains(p, ".headers[")
  }

  /** The paths offered by the group-by, filter-field and column pickers:
      every path except those inside the raw header array. */
  function PickerPaths(allPaths: seq<string>): seq<string> {
    Keep(allPaths, NotHeaderEntry())
  }

  /** The pickers offer exactly the paths not under `.headers[`, in the order
      of the path list, and so still sorted and without repeats. */
  lemma PickerPathsSpec(allPaths: seq<string>)
    ensures forall p :: p in PickerPaths(allPaths) <==> p in allPaths && !Contains(p, ".headers[")
    ensures Subsequence(PickerPaths(allPaths), allPaths)
    ensures Sorted(allPaths, StrLe) ==> Sorted(PickerPaths(allPaths), StrLe)
    ensures NoDups(allPaths) ==> NoDups(PickerPaths(allPaths))
  {
    KeepMembers(allPaths, NotHeaderEntry());
    KeepIsSubsequence(allPaths, NotHeaderEntry());
    if Sorted(allPaths, StrLe) {
      SubsequenceSorted(PickerPaths(allPaths), allPaths, StrLe);
    }
    if NoDups(allPaths) {
      KeepNoDups(allPaths, NotHeaderEntry());
    }
  }

  // ---------------------------------------------------------------------------
  // The custom-header input

  /** The text field beside the add-header button. */
  class HeaderInput {
    var text: string

    constructor ()
      ensures text == ""
    {
      text := "";
    }

    /** `handleAddHeader`: a non-blank entry is passed on trimmed and the
        field is cleared; a blank one is ignored. What is passed on is never
        empty and neither starts nor ends with whitespace. */
    method HandleAddHeader() returns (forwarded: Option<string>)
      modifies this
      ensures forwarded.None? <==> forall k :: 0 <= k < |old(text)| ==> JsSpace(old(text)[k])
      ensures forwarded.None? ==> text == old(text)
      ensures forwarded.Some? ==> forwarded.value == Trim(old(text)) && text == ""
      ensures forwarded.Some? ==>
        forwarded.value != [] && !JsSpace(forwarded.value[0]) && !JsSpace(forwarded.value[|forwarded.value| - 1])
    {
      TrimBlank(text);
      TrimSpec(text);
      var trimmed := Trim(text);
      if trimmed != [] {
        forwarded := Some(trimmed);
        text := "";
      } else {
        forwarded := None;
      }
    }
  }
}
