// The result table (src/components/LogTable.jsx): which view it shows, the
// order of the groups, the rows of a page, the pager buttons, the cell text,
// and the expand/collapse state.

module LogTable {
  import opened Wrappers
  import opened Seqs
  import opened Sorting
  import opened Text
  import opened Json
  import opened Ordering
  import opened Timestamps

  const PageSize: nat := 50

  /** `Math.ceil(n / pageSize)`. */
  function TotalPages(n: nat): nat {
    (n + PageSize - 1) / PageSize
  }

  function Slice<T>(s: seq<T>, start: int, end: int): seq<T> {
    var a, b := ClampIndex(start, |s|), ClampIndex(end, |s|);
    if a < b then s[a..b] else []
  }

  /** `logs.slice((page - 1) * pageSize, page * pageSize)`. */
  function PageRows<T>(logs: seq<T>, page: int): seq<T> {
    Slice(logs, (page - 1) * PageSize, page * PageSize)
  }

  /** `totalPages` is the least number of 50-row pages that hold every record. */
  lemma {:induction false} TotalPagesSpec(n: nat)
    ensures TotalPages(n) * PageSize >= n
    ensures n > 0 ==> (TotalPages(n) - 1) * PageSize < n
    ensures n == 0 <==> TotalPages(n) == 0
  {
  }

  /** Page `p` (from 1) shows the records at positions `(p-1)*50` up to
      `p*50`, at most 50 of them; a page past the last one shows none. */
  lemma PageRowsSpec<T>(logs: seq<T>, page: int)
    requires page >= 1
    ensures |PageRows(logs, page)| <= PageSize
    ensures (page - 1) * PageSize < |logs| ==>
      PageRows(logs, page) == logs[(page - 1) * PageSize .. if page * PageSize < |logs| then page * PageSize else |logs|]
    ensures page > TotalPages(|logs|) ==> PageRows(logs, page) == []
  {
  }

  function PagesFrom<T>(logs: seq<T>, page: nat, last: nat): seq<T>
    requires page >= 1
    decreases last + 1 - page
  {
    if page > last then [] else PageRows(logs, page) + PagesFrom(logs, page + 1, last)
  }

  lemma {:induction false} PagesFromSuffix<T>(logs: seq<T>, page: nat)
    requires page >= 1 && page <= TotalPages(|logs|) + 1
    ensures PagesFrom(logs, page, TotalPages(|logs|))
         == if (page - 1) * PageSize < |logs| then logs[(page - 1) * PageSize ..] else []
    decreases TotalPages(|logs|) + 1 - page
  {
    var total := TotalPages(|logs|);
    TotalPagesSpec(|logs|);
    if page <= total {
      PagesFromSuffix(logs, page + 1);
      var lo := (page - 1) * PageSize;
      var hi := if page * PageSize < |logs| then page * PageSize else |logs|;
      assert lo < |logs|;
      if hi == |logs| {
        assert page == total;
        assert page * PageSize >= |logs|;
        assert logs[hi..] == [];
        assert PagesFrom(logs, page + 1, total) == [];
      }
      assert logs[lo..] == logs[lo..hi] + logs[hi..];
    } else {
      assert (page - 1) * PageSize >= |logs|;
    }
  }

  /** Paging loses and repeats nothing: pages 1 to `totalPages`, one after the
      other, are exactly the records. */
  lemma PagesCoverLogs<T>(logs: seq<T>)
    ensures PagesFrom(logs, 1, TotalPages(|logs|)) == logs
  {
    PagesFromSuffix(logs, 1);
  }

  /** The pager: shown only when there is more than one page, with Previous
      disabled on page 1 and Next on the last page. */
  datatype Pager = Hidden | Shown(previousEnabled: bool, nextEnabled: bool)

  function PagerFor(n: nat, page: int): (r: Pager)
    ensures r.Shown? <==> TotalPages(n) > 1
    ensures r.Shown? ==> (!r.previousEnabled <==> page == 1) && (!r.nextEnabled <==> page == TotalPages(n))
  {
    if TotalPages(n) > 1 then Shown(page != 1, page != TotalPages(n)) else Hidden
  }

  // ---------------------------------------------------------------------------
  // Views

  /** `grouped[b].length - grouped[a].length` as an order: larger groups first. */
  function BySize(a: (string, seq<Node>), b: (string, seq<Node>)): bool {
    |a.1| >= |b.1|
  }

  /** The groups, largest first, equal sizes in key order. */
  function OrderedGroups(logs: seq<Node>, groupBy: string): seq<(string, seq<Node>)> {
    SortBy(GroupLogs(logs, groupBy), BySize)
  }

  datatype View =
    | NoResults
    | Grouped(groups: seq<(string, seq<Node>)>)
    | Flat(rows: seq<Node>, pager: Pager)

  /** Which branch the component renders. */
  function Render(logs: Option<seq<Node>>, groupBy: string, page: int): View {
    if logs.None? || logs.value == [] then NoResults
    else if groupBy != [] then Grouped(OrderedGroups(logs.value, groupBy))
    else Flat(PageRows(logs.value, page), PagerFor(|logs.value|, page))
  }

  /** Group keys are ordered by non-increasing group size; groups of equal
      size keep their key order; no group is lost or added. */
  lemma OrderedGroupsSpec(logs: seq<Node>, groupBy: string)
    ensures var g := OrderedGroups(logs, groupBy);
      && multiset(g) == multiset(GroupLogs(logs, groupBy))
      && (forall i, j :: 0 <= i < j < |g| ==> |g[i].1| >= |g[j].1|)
      && (forall k :: ClassOf(g, BySize, k) == ClassOf(GroupLogs(logs, groupBy), BySize, k))
  {
    assert TotalPreorder(BySize);
    SortByCorrect(GroupLogs(logs, groupBy), BySize);
  }

  /** With no records the table shows the empty state whatever the grouping
      or page; with records and a grouping, every record appears under
      exactly its group, and the groups partition the records. */
  lemma RenderSpec(logs: Option<seq<Node>>, groupBy: string, page: int)
    ensures Render(logs, groupBy, page) == NoResults <==> logs.None? || logs.value == []
    ensures Render(logs, groupBy, page).Grouped? ==>
      multiset(Concat(Render(logs, groupBy, page).groups)) == multiset(logs.value)
    ensures Render(logs, groupBy, page).Flat? && page >= 1 ==> |Render(logs, groupBy, page).rows| <= PageSize
  {
    if logs.Some? && logs.value != [] && groupBy != [] {
      var g := OrderedGroups(logs.value, groupBy);
      OrderedGroupsSpec(logs.value, groupBy);
      ConcatPermutation(g, GroupLogs(logs.value, groupBy));
      GroupsPartition(logs.value, FieldKey(groupBy));
    }
    if logs.Some? && page >= 1 {
      PageRowsSpec(logs.value, page);
    }
  }

  /** Concatenating the same groups in another order gives the same records. */
  lemma {:induction false} ConcatPermutation(a: seq<(string, seq<Node>)>, b: seq<(string, seq<Node>)>)
    requires multiset(a) == multiset(b)
    ensures multiset(Concat(a)) == multiset(Concat(b))
    decreases |a|
  {
    if a != [] {
      var x := a[0];
      assert x in multiset(b);
      var i :| 0 <= i < |b| && b[i] == x;
      var b' := b[..i] + b[i + 1..];
      RemoveFirstPermutation(a, b, i);
      ConcatPermutation(a[1..], b');
      assert multiset(Concat(a)) == multiset(x.1) + multiset(Concat(a[1..]));
      ConcatRemove(b, i);
      assert multiset(Concat(b)) == multiset(x.1) + multiset(Concat(b'));
    }
  }

  /** Taking one group out of the list takes its records out of the concatenation. */
  lemma ConcatRemove(b: seq<(string, seq<Node>)>, i: nat)
    requires i < |b|
    ensures multiset(Concat(b)) == multiset(b[i].1) + multiset(Concat(b[..i] + b[i + 1..]))
  {
    var tail := [b[i]] + b[i + 1..];
    SplitAround(b, i);
    ConcatSplit(b[..i], tail);
    ConcatSplit(b[..i], b[i + 1..]);
    assert tail[1..] == b[i + 1..];
    assert Concat(tail) == b[i].1 + Concat(b[i + 1..]);
    assert Concat(b) == Concat(b[..i]) + (b[i].1 + Concat(b[i + 1..]));
    assert multiset(Concat(b)) == multiset(Concat(b[..i])) + multiset(b[i].1) + multiset(Concat(b[i + 1..]));
  }

  lemma {:induction false} ConcatSplit(a: seq<(string, seq<Node>)>, b: seq<(string, seq<Node>)>)
    ensures Concat(a + b) == Concat(a) + Concat(b)
    decreases |a|
  {
    if a != [] {
      assert (a + b)[1..] == a[1..] + b;
      ConcatSplit(a[1..], b);
    } else {
      assert a + b == b;
    }
  }

  // ---------------------------------------------------------------------------
  // Cells

  /** The largest time, in milliseconds from the epoch, a `Date` can hold. */
  const MaxTime: int := 8_640_000_000_000_000

  /** What `renderCell` returns: a dash, an ISO date of the given instant,
      the JSON text of an object or array, or the `String()` text. */
  datatype Cell = Dash | Time(ms: int) | Json(v: Node) | Text(s: string)

  function RenderCell(log: Node, column: string, useHumanTime: bool): Cell {
    var v := Get(log, column);
    if v.None? || v.value == NullNode || v.value == Leaf(Str("")) then Dash
    else if column == "timestamp" && useHumanTime then
      match ToNumber(v.value)
      case Some(x) =>
        if -MaxTime <= NormalizeTimestamp(x) <= MaxTime then Time(NormalizeTimestamp(x)) else Text(ToStr(v.value))
      case None => Text(ToStr(v.value))
    else if v.value.Arr? || v.value.Obj? then Json(v.value)
    else Text(ToStr(v.value))
  }

  /** A dash stands exactly for an undefined, null or empty-string value, and
      no other cell is ever empty text. */
  lemma RenderCellSpec(log: Node, column: string, useHumanTime: bool)
    ensures RenderCell(log, column, useHumanTime) == Dash <==>
      Get(log, column) in {None, Some(NullNode), Some(Leaf(Str("")))}
    ensures RenderCell(log, column, useHumanTime).Time? ==> column == "timestamp" && useHumanTime
    ensures RenderCell(log, column, useHumanTime).Text? ==> RenderCell(log, column, useHumanTime).s != []
  {
    var v := Get(log, column);
    if v.Some? && v.value.Leaf? && v.value != NullNode && v.value != Leaf(Str("")) {
      match v.value.v
      case Num(x) =>
        if x < 0 { NatToStringRoundTrip(-x); } else { NatToStringRoundTrip(x); }
      case _ =>
    }
  }

  // ---------------------------------------------------------------------------
  // Expand/collapse and page state

  /** `!prev[key]` reads an absent key as collapsed. */
  predicate Expanded(m: map<string, bool>, key: string) {
    key in m && m[key]
  }

  /** `{...prev, [key]: !prev[key]}`. */
  function Toggle(m: map<string, bool>, key: string): (r: map<string, bool>)
    ensures Expanded(r, key) <==> !Expanded(m, key)
    ensures key in r
    ensures forall k :: k != key ==> (k in r <==> k in m) && (k in m ==> r[k] == m[k])
  {
    m[key := !Expanded(m, key)]
  }

  /** Toggling the same key twice shows it as before. */
  lemma ToggleTwice(m: map<string, bool>, key: string, other: string)
    ensures Expanded(Toggle(Toggle(m, key), key), other) == Expanded(m, other)
  {
  }

  /** `log.requestid || idx`, as the property key it becomes. */
  function RowId(log: Node, idx: nat): (r: string)
    ensures !TruthyOpt(Prop(log, "requestid")) ==> r != [] && AllDigits(r) && DigitsValue(r) == idx
  {
    if TruthyOpt(Prop(log, "requestid")) then ToStr(Prop(log, "requestid").value)
    else NatToStringRoundTrip(idx); NatToString(idx)
  }

  /** Rows without a truthy `requestid` are keyed by their index alone: two
      such rows at the same index, on two pages, share one id, so the toggle
      `TableState.ToggleRow` performs for one expands or collapses both. */
  lemma IndexRowIdsShared(a: Node, b: Node, idx: nat, expanded: map<string, bool>)
    requires !TruthyOpt(Prop(a, "requestid")) && !TruthyOpt(Prop(b, "requestid"))
    ensures RowId(a, idx) == NatToString(idx) && RowId(b, idx) == NatToString(idx)
    ensures Expanded(Toggle(expanded, RowId(a, idx)), RowId(b, idx)) <==> !Expanded(expanded, RowId(b, idx))
    ensures Expanded(Toggle(expanded, RowId(a, idx)), RowId(a, idx)) == Expanded(Toggle(expanded, RowId(a, idx)), RowId(b, idx))
  {
  }

  /** Within one list of rows, the ids taken from indices are distinct. */
  lemma IndexRowIdsDistinct(a: Node, b: Node, i: nat, j: nat)
    requires !TruthyOpt(Prop(a, "requestid")) && !TruthyOpt(Prop(b, "requestid"))
    ensures RowId(a, i) == RowId(b, j) <==> i == j
  {
    NatToStringRoundTrip(i);
    NatToStringRoundTrip(j);
  }

  /** The component's own state. It starts on page 1 and the buttons keep it
      there or above. */
  class TableState {
    var expandedGroups: map<string, bool>
    var expandedRows: map<string, bool>
    var page: int

    predicate Valid()
      reads this
    {
      page >= 1
    }

    constructor()
      ensures Valid()
      ensures expandedGroups == map[] && expandedRows == map[] && page == 1
    {
      expandedGroups, expandedRows, page := map[], map[], 1;
    }

    /** `toggleGroup(key)`. */
    method ToggleGroup(key: string)
      modifies this
      ensures expandedGroups == Toggle(old(expandedGroups), key)
      ensures expandedRows == old(expandedRows) && page == old(page)
    {
      expandedGroups := Toggle(expandedGroups, key);
    }

    /** `toggleRow(rowId)`. */
    method ToggleRow(rowId: string)
      modifies this
      ensures expandedRows == Toggle(old(expandedRows), rowId)
      ensures expandedGroups == old(expandedGroups) && page == old(page)
    {
      expandedRows := Toggle(expandedRows, rowId);
    }

    /** A click on Previous, possible only while the pager is shown and the
      button enabled. */
    method ClickPrevious(n: nat)
      requires Valid() && PagerFor(n, page).Shown? && PagerFor(n, page).previousEnabled
      modifies this
      ensures Valid()
      ensures page == old(page) - 1
      ensures expandedGroups == old(expandedGroups) && expandedRows == old(expandedRows)
    {
      page := page - 1;
    }

    /** A click on Next, possible only while the pager is shown and the button
        enabled. */
    method ClickNext(n: nat)
      requires Valid() && PagerFor(n, page).Shown? && PagerFor(n, page).nextEnabled
      modifies this
      ensures Valid()
      ensures page == old(page) + 1
      ensures expandedGroups == old(expandedGroups) && expandedRows == old(expandedRows)
    {
      page := page + 1;
    }
  }

  /** The page is not reset when the records change: on a page past the last
      one, the flat view shows no rows while Next stays enabled. */
  lemma StalePage(logs: seq<Node>, page: int)
    requires logs != [] && page > TotalPages(|logs|) && TotalPages(|logs|) > 1
    ensures Render(Some(logs), "", page) == Flat([], Shown(true, true))
  {
    PageRowsSpec(logs, page);
  }
}
