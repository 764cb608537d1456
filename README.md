# WAF log analyzer — a Dafny model of its core

The WAF log analyzer is a browser application for AWS WAF logs. A user
uploads a file of log records (nested JSON objects). A background worker
then does two jobs:

- it enriches each record with the HTTP headers the user cares about;
- it lists every field path that occurs in the records.

The user can then:

- filter the records with conditions (equals, contains, startsWith,
  endsWith, gt, lt, exists);
- sort by a column;
- group by a field;
- choose the columns to show;
- page through a table fifty rows at a time.

This project models that core in Dafny and proves properties of the model.
The modules follow the program's structure:

| module | models |
|---|---|
| `Wrappers`, `Seqs`, `Sorting`, `Text` | `Option`/`Result`; order-keeping filtering of sequences; a stable sort over a total preorder (the shape of lodash `orderBy` and `Array.prototype.sort`); strings: ASCII lower-casing, JavaScript whitespace trimming, decimal numerals, code-unit order |
| `Json` | log records as JSON-like trees with ordered object fields; JavaScript truthiness; `String()` and `Number()`; property access; lodash `get`; object spread |
| `Flatten` | `flattenObject`: nested records to a flat map from dotted/indexed paths to leaves |
| `PathCatalog` | `getAllPaths`: the sorted, distinct set of flattened keys, over every record or a sample |
| `Enrich` | `enrichLogs`: copying chosen `httpRequest.headers` entries into a top-level `header` object |
| `Filters` | `filterLogs`: the conjunction of filter conditions |
| `Ordering` | `sortLogs` and `groupLogs` |
| `Timestamps`, `Worker` | the worker's message handler: process, or filter + time window + sort |
| `LogTable` | the table: no-results view, paging, groups ordered by size, cell rendering, the expand toggles and the pager buttons |
| `Splice` | the copy-then-`splice` list edits: taking one element out and putting one in, as array algorithms |
| `Controls` | the controls panel: filter rows as mutable objects, column toggling, the path pickers, the custom-header input |
| `App` | the application state: the initial columns, the effects that send worker requests, the pending-header effect, custom headers, shortcuts, sorting |

## How the model is shaped

**Pure helpers become functions.** The helpers in `utils/logHelpers.js` are
modelled as functions, with lemmas about them.

**Loops become methods.** Where the source loops and accumulates
(`flattenObject` writing into `res`, `getAllPaths` filling a `Set`,
`enrichLogs` building `extractedHeaders`), the loop is a method. Each such
method is proved equal to a specification function, and the lemmas are
about that function.

**State that changes becomes classes.**

- The table's local state is `LogTable.TableState`.
- The filter rows, which `updateFilter` mutates in place, are
  `Controls.FilterEntry` objects held by a `Controls.FilterList`.
- The header text box is `Controls.HeaderInput`.
- The application component is `App.AppState`.
  - `AppState.State()` is its whole state, as a `Screen` value.
  - Every method states its new state as an update of `old(State())`.
  - Every method keeps the invariant `Consistent`.

**Outside inputs become parameters.**

- The random sample `getAllPaths` draws is the parameter `sample`. Its
  validity is a precondition: the positions are distinct and in range, and
  there are `sampleSize` of them.
- The order lodash `orderBy` puts on field values is the parameter `keyLe`,
  assumed to be a total preorder.
- The instants the date-time inputs denote are given values
  (`Worker.Bound`).

### Behaviour that follows the code

- **Stale page.** The table's page number is never reset when the records
  change. A page past the end shows no rows but keeps the pager
  (`LogTable.StalePage`).
- **Row ids.** A row without a `requestid` is keyed by its index within the
  page. Expanding row 3 of one page shows row 3 of every page expanded
  (`LogTable.IndexRowIdsShared`). Within one page, such ids are distinct
  (`LogTable.IndexRowIdsDistinct`).
- **Filter with no field.** A filter whose field is missing (`allPaths[0]`
  of an empty list) reads the property named `"undefined"`, as lodash
  `get` does.
- **`exists`.** The `exists` operator passes iff the value is defined and
  not `null`.
- **Null record under a time window.** The worker reads `timestamp` of
  every record that reaches an active time window. A `null` record in the
  list throws there, and the worker posts nothing
  (`Worker.WindowThrowsOnlyUnfiltered`). Only an empty or missing filter
  list lets a `null` record reach the window, since every filter fails on
  it.
- **No time-range or remove-header controls.** The controls panel is never
  given `timeRange`, `setTimeRange` or `onRemoveCustomHeader`. No control
  sets a time range. The application's own requests therefore always leave
  the time window off (`App.DisplayedRows`), and `Consistent` records that
  the range stays empty. `removeCustomHeader` is modelled all the same.
- **Hidden timestamp returns.** Showing any column other than `timestamp`
  puts `timestamp` first, even when the user had hidden it
  (`Controls.ShowColumnSpec`).
- **Shown pending header stays pending.** When the pending header's
  column is already shown, the effect does nothing, so the header stays
  pending (`App.PendingHeaderOutcome`, `App.AppState.ApplyPendingHeader`).
- **Enrichment can throw.** `enrichLogs` throws a `TypeError` for:
  - a `null` header entry;
  - an entry whose `name` is truthy but not a string, while its `value` is
    truthy.

  The worker then posts nothing (`Worker.Reply.Threw`).
- **Non-object records.** Spreading a record that is not an object turns
  it into an object: an array's items or a string's characters keyed by
  position (`Json.Spread`).

## Model

| member | source | states |
|---|---|---|
| Flatten.FlattenInto | src/utils/logHelpers.js:7-25 | the recursive walk performs exactly the specification's sequence of writes into the accumulator, in order |
| Flatten.FlattenObjectSpec | src/utils/logHelpers.js:7-25 | every leaf of the record (a scalar, null or an empty array) appears under its dotted/indexed path; every key of the result is such a path, holding that leaf |
| Flatten.WritesAreLeaves | src/utils/logHelpers.js:21-23 | only scalars, null and empty arrays are ever stored; objects and non-empty arrays are always descended into |
| Flatten.WritesComplete | src/utils/logHelpers.js:8-20 | every leaf address yields a write of that leaf under its path |
| Flatten.WritesSound | src/utils/logHelpers.js:8-22 | every write is under the path of some leaf address |
| Flatten.ApplySpec | src/utils/logHelpers.js:22 | after a run of writes a key is present iff it was present or written; its value is the original or one of the written values |
| Flatten.ApplyConcat | src/utils/logHelpers.js:9-20 | writing two runs one after the other is writing their concatenation |
| PathCatalog.GetAllPaths | src/utils/logHelpers.js:32-56 | the result is strictly increasing; it holds exactly the keys of every record when there are no more than `sampleSize` records, and exactly the keys of the sampled records otherwise |
| PathCatalog.CollectAll | src/utils/logHelpers.js:37-41 | the set built is the union of the flattened keys of all records |
| PathCatalog.CollectSample | src/utils/logHelpers.js:49-52 | the set built is the union of the flattened keys of the sampled records |
| PathCatalog.AddKeys | src/utils/logHelpers.js:40 | adding a record's keys gives the union of the set and those keys |
| PathCatalog.ToSortedArray | src/utils/logHelpers.js:55 | the array has exactly the set's members, in strictly increasing code-unit order |
| PathCatalog.KeysAtSpec | src/utils/logHelpers.js:38-52 | a path is collected iff some chosen record flattens to a map with that key |
| PathCatalog.KeysAtMono | src/utils/logHelpers.js:42-52 | a sample's keys are among all records' keys |
| Text.StrLeTotalPreorder | src/utils/logHelpers.js:55 | the default sort order on strings is total and transitive (and antisymmetric, by `Text.StrLeAntisymmetric`) |
| Text.StrLeAntisymmetric | src/utils/logHelpers.js:55 | two strings each ordered before the other are equal |
| Text.SortedDistinctIsStrict | src/utils/logHelpers.js:55 | a sorted list without repeats is strictly increasing |
| Enrich.HeadersToExtract | src/utils/logHelpers.js:62-63 | a name is extracted iff it is a default header or the lower-cased form of a custom header |
| Enrich.PickedName | src/utils/logHelpers.js:72-80 | an entry is copied only if its value is truthy, its name is a non-empty string, and reading it does not throw |
| Enrich.ExtractHeaders | src/utils/logHelpers.js:70-83 | the loop over the header entries computes `Extract`, or the `TypeError` the first throwing entry raises |
| Enrich.EnrichLog | src/utils/logHelpers.js:65-89 | one record's enrichment, as the loop computes it, equals `EnrichRecord` |
| Enrich.EnrichLogs | src/utils/logHelpers.js:61-91 | the map over all records equals `EnrichAll` with the extracted-name list |
| Enrich.EnrichAllSpec | src/utils/logHelpers.js:65-90 | the batch fails iff some record fails; otherwise it has one enriched record per input record, at the same position |
| Enrich.EnrichAllCons | src/utils/logHelpers.js:65-90 | the batch fails with a first failing record's error, or prepends its enriched first record to the rest |
| Enrich.ExtractFailsIff | src/utils/logHelpers.js:71-73 | extraction throws iff some header entry throws |
| Enrich.ExtractReads | src/utils/logHelpers.js:79-80 | each name of the extracted object holds the value of the last entry copied under that name |
| Enrich.LastPickedFound | src/utils/logHelpers.js:74-80 | a name is present in the extracted object iff some entry is copied under it |
| Enrich.EmptyIffNoKeys | src/utils/logHelpers.js:85 | the extracted object has no keys iff no name reads a value |
| Enrich.EnrichRecordSpec | src/utils/logHelpers.js:66-88 | an enriched record is an object; every field other than `header` reads as in the spread copy; `header` is the extracted object exactly when some entry was copied |
| Enrich.EnrichRecordFails | src/utils/logHelpers.js:67-73 | a record fails iff its headers value is an array with a throwing entry |
| Enrich.CustomHeaderMatches | src/utils/logHelpers.js:63-80 | an entry whose name equals a custom header up to letter case is copied under its own spelling |
| Json.GetWholeKey | src/utils/logHelpers.js:103 | a path that names a property of the value as a whole key reads that property, dots and brackets included |
| Json.GetOfNull | src/utils/logHelpers.js:103 | every path of `null` reads as undefined |
| Json.StringToPathDotted | src/utils/logHelpers.js:137 | a dotted path of two or more plain keys splits into exactly those keys |
| Json.GetDotted | src/utils/logHelpers.js:144 | a dotted path of plain keys that is not itself a property reads by walking its keys one by one |
| Json.PiecesIndex | src/components/LogTable.jsx:47 | a bracketed array index is one key, its decimal text |
| Json.Spread | src/utils/logHelpers.js:66 | spreading any value gives an object |
| Json.SetFieldReads | src/utils/logHelpers.js:86 | after assigning `header`, it reads the new value and every other field reads as before |
| Filters.FilterLogs | src/utils/logHelpers.js:97-131 | no filters keeps the records as they are; otherwise the result is the order-keeping subsequence of the records passing every filter, each kept as often as it occurs |
| Filters.PassesAllConcat | src/utils/logHelpers.js:101 | passing every filter of a concatenated list is passing every filter of each part |
| Filters.FilterConjunction | src/utils/logHelpers.js:97-131 | filtering by one list and then another equals filtering by their concatenation |
| Filters.UndefinedFieldExcluded | src/utils/logHelpers.js:103-106 | a record lacking the field of any filter is never kept |
| Filters.UnknownOperatorOnlyNeedsField | src/utils/logHelpers.js:126-127 | an unknown operator passes exactly the records where the field is defined |
| Filters.TextOperatorsRelate | src/utils/logHelpers.js:108-119 | the text operators ignore letter case in the value; equals implies startsWith, endsWith and contains; startsWith or endsWith implies contains; the empty value is contained in every defined field |
| Filters.NumericAndExistsOperators | src/utils/logHelpers.js:120-125 | gt and lt never both pass; a non-numeric value makes both fail; exists passes iff the value is defined and not null |
| Text.StringToNumberRoundTrip | src/utils/logHelpers.js:121-123 | `Number()` of an integer's decimal text is that integer |
| Text.NatToStringRoundTrip | src/utils/logHelpers.js:18 | an array index's decimal text is a non-empty digit string that denotes the index |
| Text.LowerIdempotent | src/utils/logHelpers.js:108-109 | lower-casing twice is lower-casing once |
| Text.AffixContained | src/utils/logHelpers.js:114-119 | a prefix or suffix is contained |
| Ordering.SortLogsSpec | src/utils/logHelpers.js:143-145 | sorting is a permutation, ordered by the field in the requested direction, and stable (records with equal keys keep their order) |
| Ordering.RecordLeTotalPreorder | src/utils/logHelpers.js:144 | comparing records by one field, ascending or descending, is a total preorder when the value order is |
| Sorting.SortByCorrect | src/utils/logHelpers.js:144 | the stable sort returns a sorted permutation that keeps the order of each class of equal elements |
| Ordering.KeysInOrderSpec | src/utils/logHelpers.js:136-138 | for any key function, the group keys are distinct, every record's key is among them, and each key is some record's key |
| Ordering.KeysInOrderMembers | src/utils/logHelpers.js:137 | a key is listed iff some record has it |
| Ordering.KeysInOrderDistinct | src/utils/logHelpers.js:137 | no key is listed twice |
| Ordering.GroupBySpec | src/utils/logHelpers.js:136-138 | for any key function, and so for `_.get(log, field) \|\| 'Undefined'` (`Ordering.GroupLogs` is `GroupBy` with `FieldKey(field)`), each group is non-empty, holds exactly the records with its key, in their order, no key is listed twice, and every record is in the group of its key |
| Ordering.GroupsPartition | src/utils/logHelpers.js:136-138 | for any key function, the groups together hold every record exactly as often as the input does |
| Ordering.FalsyValuesGroupAsUndefined | src/utils/logHelpers.js:137 | a missing, null, false, zero or empty-string field value groups under "Undefined" |
| Worker.OnMessage | src/workers/logProcessor.worker.js:4-52 | an unknown tag gets no reply; processing either throws the enrichment error or posts the enriched records with the strictly increasing path list of all or of the sampled records; filter-and-sort throws when a `null` record reaches an active time window and otherwise posts the pipeline's result |
| Worker.WindowThrowsOnlyUnfiltered | src/workers/logProcessor.worker.js:15-22 | a `null` record reaches the active time window, and so throws, iff the window is active, the batch holds a `null` record and no filter is given |
| Worker.TimeWindowSpec | src/workers/logProcessor.worker.js:21-39 | the time window keeps, in order, exactly the records inside it, each as often as it occurs |
| Worker.InWindowSpec | src/workers/logProcessor.worker.js:22-38 | a falsy timestamp passes; a numeric one passes iff its normalised value lies within both given bounds, ends included |
| Worker.InactiveWindowKeepsAll | src/workers/logProcessor.worker.js:20 | with no range or two empty ends, the time window drops nothing |
| Worker.SecondsAndMillisecondsAgree | src/workers/logProcessor.worker.js:25-26 | a record stamped in seconds falls in the same windows as one stamped in milliseconds for the same instant |
| Worker.UnsortedPipeline | src/workers/logProcessor.worker.js:15-47 | without a sort field the reply is the order-keeping subsequence of the records passing the filters and the window |
| Worker.SortedPipeline | src/workers/logProcessor.worker.js:42-44 | with a sort field the reply is a stable, sorted permutation of the unsorted reply |
| LogTable.TotalPagesSpec | src/components/LogTable.jsx:30 | the page count is the ceiling of the record count over 50: enough pages to hold every record, without an empty last page |
| LogTable.PageRowsSpec | src/components/LogTable.jsx:29 | a page has at most 50 rows; a page that starts inside the records holds the records from its first position on; a page past the last is empty |
| LogTable.PagesCoverLogs | src/components/LogTable.jsx:29-30 | the pages from 1 to the last, laid end to end, are exactly the records |
| LogTable.PagesFromSuffix | src/components/LogTable.jsx:29-30 | the pages from a given one to the last are exactly the records from that page's first position |
| LogTable.PagerFor | src/components/LogTable.jsx:145-163 | the pager is shown iff there is more than one page; Previous is disabled iff on page 1, Next iff on the last page |
| LogTable.OrderedGroupsSpec | src/components/LogTable.jsx:87-92 | the groups are ordered by decreasing size and are the same groups as `groupLogs` produces, holding every record |
| LogTable.RenderSpec | src/components/LogTable.jsx:13-143 | the no-results view is shown iff there are no records; the grouped view's groups hold every record; the flat view shows at most 50 rows |
| LogTable.ConcatPermutation | src/components/LogTable.jsx:90-92 | reordering the groups does not change the records they hold together |
| LogTable.RenderCellSpec | src/components/LogTable.jsx:46-69 | a cell is a dash iff the value is missing, null or the empty string; a formatted time only for the timestamp column in human-time mode; any other text is non-empty |
| LogTable.Toggle | src/components/LogTable.jsx:32-44 | toggling flips the expanded state of the key and leaves every other key as it was |
| LogTable.ToggleTwice | src/components/LogTable.jsx:32-44 | toggling the same key twice restores every key's expanded state |
| LogTable.RowId | src/components/LogTable.jsx:188 | a row without a truthy `requestid` is keyed by a non-empty digit string that denotes its index |
| LogTable.IndexRowIdsShared | src/components/LogTable.jsx:186-192 | rows without a truthy `requestid` at the same index get the same id, the index's decimal text, so one toggle expands or collapses both |
| LogTable.IndexRowIdsDistinct | src/components/LogTable.jsx:186-188 | rows without a truthy `requestid` get equal ids iff they have the same index |
| LogTable.TableState.constructor | src/components/LogTable.jsx:7-9 | the table starts with no group or row expanded, on page 1 |
| LogTable.TableState.ToggleGroup | src/components/LogTable.jsx:32-37 | a group header click toggles that group and changes nothing else |
| LogTable.TableState.ToggleRow | src/components/LogTable.jsx:39-44 | a row click toggles that row and changes nothing else |
| LogTable.TableState.ClickPrevious | src/components/LogTable.jsx:147-153 | an enabled Previous button moves one page back, staying at page 1 or later |
| LogTable.TableState.ClickNext | src/components/LogTable.jsx:157-163 | an enabled Next button moves one page on |
| LogTable.StalePage | src/components/LogTable.jsx:9-30 | a page number left past the end by shrinking data shows no rows, yet the pager stays with both buttons enabled |
| Splice.SpliceOut | src/components/Controls.jsx:24-28 | copying and splicing one element out yields `RemovedAt`: the list without the element at the (possibly negative) position |
| Splice.RemovedAtSpec | src/components/Controls.jsx:26 | removal takes exactly one copy of the element at the position out, or leaves the list when the position is past the end |
| Splice.SpliceIn | src/App.jsx:128-130 | copying and splicing an element in yields `InsertedAt` |
| Splice.InsertedAtSpec | src/App.jsx:129 | insertion adds one copy of the element at the position and keeps what lies before and after |
| Splice.RemoveUndoesInsert | src/components/Controls.jsx:20-28 | removing what was just inserted, or the filter just appended, gives back the original list |
| Controls.FilterEntry.constructor | src/components/Controls.jsx:21 | a new filter row holds the given field, operator and value |
| Controls.FilterList.constructor | src/App.jsx:17 | the filter list starts empty |
| Controls.FilterList.AddFilter | src/components/Controls.jsx:20-22 | one fresh row is appended, on the first path (or no field when there is none), operator equals, empty value; the earlier rows are the same objects |
| Controls.FilterList.RemoveFilter | src/components/Controls.jsx:24-28 | the list becomes the old list with the row at the position spliced out |
| Controls.FilterList.UpdateFilter | src/components/Controls.jsx:30-34 | the row object is updated in place: the list is the same objects, the row reads the new key's value, and every distinct row is unchanged |
| Controls.UpdatedSpec | src/components/Controls.jsx:32 | an update sets exactly the named key of a filter and keeps the other two |
| Controls.HideColumnSpec | src/components/Controls.jsx:37-38 | hiding a shown column removes every occurrence of it and keeps the others in order |
| Controls.ShowColumnSpec | src/components/Controls.jsx:39-44 | showing a column puts `timestamp` first and shows the column; for a column other than `timestamp` the rest is sorted, without `timestamp`, and holds the other columns and the new one |
| Controls.ToggleFlips | src/components/Controls.jsx:36-46 | after a toggle the column is shown iff it was hidden before |
| Controls.ToggleKeepsDistinct | src/components/Controls.jsx:36-46 | toggling keeps the column list free of repeats |
| Controls.SubsequenceSorted | src/components/Controls.jsx:43 | filtering a sorted list keeps it sorted |
| Controls.PickerPathsSpec | src/components/Controls.jsx:92 | the pickers list exactly the paths without `.headers[`, in their order, sorted and distinct when the paths are |
| Controls.HeaderInput.constructor | src/components/Controls.jsx:48 | the header text box starts empty |
| Controls.HeaderInput.HandleAddHeader | src/components/Controls.jsx:50-55 | nothing is forwarded, and the text box is kept, iff the text is all whitespace; otherwise the trimmed text, which neither starts nor ends with whitespace, is forwarded and the box is cleared |
| Text.TrimSpec | src/components/Controls.jsx:51-52 | trimming takes off exactly the leading and trailing whitespace |
| Text.TrimBlank | src/components/Controls.jsx:51 | the trimmed text is empty iff the text is all whitespace |
| App.ColumnsForMembers | src/App.jsx:43-50 | a column is initially shown iff the data has it and it is a default, or a top-level field not excluded |
| App.InitialColumnsMembers | src/App.jsx:42-53 | the same, for the seven defaults and four excluded fields of the application |
| App.ColumnsForOrder | src/App.jsx:44-50 | the present defaults come first in their own order, then only non-default top-level paths in path-list order |
| App.InitialColumnsOrder | src/App.jsx:44-50 | the same, for the application's lists |
| App.InitialColumnsStartWithTimestamp | src/App.jsx:43-50 | when the data has a timestamp, it is the first column |
| App.ColumnsForDistinct | src/App.jsx:44-50 | distinct defaults and distinct paths give distinct initial columns |
| App.InitialColumnsDistinct | src/App.jsx:44-50 | the initial columns for distinct paths have no repeats |
| App.ProcessedConsistent | src/App.jsx:37-53 | taking a processing result keeps the application state consistent |
| App.NextSortSpec | src/App.jsx:164-169 | a header click sorts by the clicked field; ascending for a new field, the other direction for the same field; repeated clicks alternate |
| App.FindPendingPathSpec | src/App.jsx:115-120 | no path is found iff none names the header, ignoring case; a found path is the first one that does |
| App.IndexOf | src/App.jsx:125 | `indexOf` returns the first position of the element, or -1 exactly when it is absent |
| App.InsertionPoint | src/App.jsx:125-134 | the insertion position lies within the column list |
| App.InsertColumnSpec | src/App.jsx:124-135 | the new column lands right after `timestamp`, or first when there is none; removing it restores the list; one copy is added |
| App.InsertColumnDistinct | src/App.jsx:122-135 | inserting a column not shown yet keeps the columns distinct |
| App.InsertAfterTimestamp | src/App.jsx:124-135 | the index-then-splice code computes `InsertColumn` |
| App.AppState.constructor | src/App.jsx:11-24 | the initial state: no records, no paths, no filters, no grouping, sort by timestamp descending, no columns, no custom or pending header, an empty time range |
| App.AppState.UploadFile | src/App.jsx:76-84 | the uploaded records become the raw records and are sent for processing with the current custom headers |
| App.AppState.ReprocessRequest | src/App.jsx:87-95 | a processing request is sent iff there are raw records, and it carries them and the custom headers |
| App.AppState.OnWorkerMessage | src/App.jsx:34-60 | a processing result replaces the records and paths and sets the initial columns only when none are shown; a filter-sort result replaces the displayed records; consistency is kept |
| App.AppState.FilterSortRequest | src/App.jsx:98-108 | with records present a filter-and-sort request carrying the records, filters, sort and range is sent; otherwise the display is emptied |
| App.AppState.ApplyPendingHeader | src/App.jsx:111-139 | when the pending header's path is found and not shown, it is inserted after `timestamp` and the pending header cleared; otherwise nothing changes; consistency is kept |
| App.AppState.AddCustomHeader | src/App.jsx:141-146 | a non-empty new name is appended and becomes pending; an empty or known name changes nothing |
| App.AppState.RemoveCustomHeader | src/App.jsx:148-150 | every occurrence of the name is dropped from the custom headers |
| App.AppState.ApplyShortcut | src/App.jsx:152-162 | the shortcut's grouping is set and its conditions replace the filters, or none when it has none |
| App.AppState.HandleSort | src/App.jsx:164-169 | the sort becomes the next sort for the clicked field; nothing else changes |
| App.AppState.SelectGroupBy | src/components/Controls.jsx:86-90 | choosing an option groups by it; choosing None clears the grouping |
| App.AppState.ToggleColumn | src/components/Controls.jsx:36-46 | the shown columns become the toggled list; nothing else changes; no column is shown twice |
| App.DisplayedRows | src/App.jsx:98-108 | the application's requests never apply a time window: the records shown are the filtered records, sorted when a sort field is set |
| App.ShortcutFiltersAgree | src/App.jsx:157-161 | a shortcut's installed conditions filter exactly as its own list; a missing or empty list keeps every record |
| App.AddThenRemoveHeader | src/App.jsx:141-150 | adding a new custom header and removing it restores the list |
| App.PendingHeaderOutcome | src/App.jsx:111-139 | when the effect fires, the found path names the header and is shown once right after `timestamp`, the other columns in order; when it does not, no unshown matching path was found; when the found path is already shown, the effect changes nothing |

## Left out

- Floating-point numbers: every number is an integer. `Number()` of a
  string accepts a blank string (0) or an optionally signed decimal
  integer with surrounding whitespace. Every other string is `NaN` here,
  though JavaScript reads some of them (`"0x10"`, `"1e3"`, `"1.5"`,
  `"Infinity"`) as numbers.
- `String()` of an object is `"[object Object]"` and of an array its items
  joined by commas. Number formatting is that of integers only.
- Json.Get: quoted bracket keys (`a["b.c"]`) are not recognised. The
  quotes stay in the pieces, and a dot between them still splits.
  Inherited properties (`constructor`, `toString`) are not properties
  here. A string's `length` counts code points, not UTF-16 code units.
- lodash `orderBy`: the order it puts on field values is the abstract
  total preorder `keyLe`. Its treatment of mixed types, `undefined` and
  `NaN` is not modelled.
- `toLowerCase`: only ASCII letters are lowered. Full Unicode case mapping
  is not modelled.
- Strings are sequences of code points, while JavaScript strings are
  UTF-16 code units. The sort order is the same for characters of the
  Basic Multilingual Plane.
- Key enumeration order: JavaScript lists integer-like object keys first,
  in numeric order. The model keeps every key in insertion order, both for
  `Object.keys` of the group object and for field order when flattening.
- `Math.random`: the sample positions are a parameter.
- `Date` parsing of the range inputs: a bound's instant is given.
- `toISOString` formatting of human-readable times: the rendered cell is
  a `Time` value carrying the normalised instant.
- `JSON.stringify` of object cells and of the expanded-row detail view:
  the cell records that it is JSON text.
- The worker channel is asynchronous. Message ordering and the React
  effect scheduler are not modelled: each effect is a method the caller
  invokes after the state it depends on changed.
- The rendering itself: JSX markup, icons, CSS and the sort-direction icon.
- `src/components/FileUpload.jsx`, `src/components/Shortcuts.jsx` (the
  list of shortcut definitions), the theme toggle, `fileName`,
  `isProcessing` and `useHumanTime` as state: `useHumanTime` is a
  parameter of `RenderCell`.
- The panels' show/hide flags in the controls (`showFilters`,
  `showColumns`).
- App.AppState.ApplyShortcut: the application installs the shortcut's own
  filter objects, which it shares only with the shortcut list literal of
  that one render; nothing reads that literal again, since every render
  builds a fresh one. Here the application holds filters as values, and
  that sharing is not captured. The in-place update is modelled by
  `Controls.FilterList`.
- App.AppState.ApplyPendingHeader: does not re-test `matchingPath` for
  truthiness. A path matching `header.` plus a non-empty name is never
  empty.
- App.AppState.OnWorkerMessage: requires the processing result's path
  list to be strictly increasing. The worker always sends such a list
  (`Worker.OnMessage`).
- PathCatalog.GetAllPaths: requires the sample to be `sampleSize`
  distinct in-range positions. The rejection loop at lines 44-47 that
  draws them is not modelled.
