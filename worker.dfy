// The background worker (src/workers/logProcessor.worker.js): one tagged
// request in, at most one tagged response out.

module Worker {
  import opened Wrappers
  import opened Seqs
  import opened Sorting
  import opened Json
  import opened PathCatalog
  import opened Enrich
  import opened Filters
  import opened Ordering
  import opened Timestamps

  /** One end of the time range: empty (the date-time input left blank), or
      given, with the instant its text denotes in UTC milliseconds, or None
      when the text is not a date (an invalid `Date`, whose time is NaN). */
  datatype Bound = Empty | Given(instant: Option<int>)

  datatype TimeRange = TimeRange(start: Bound, end: Bound)

  datatype SortConfig = SortConfig(field: string, direction: Direction)

  datatype Request =
    | ProcessLogs(rawLogs: seq<Node>, customHeaders: seq<string>)
    | FilterAndSort(logs: seq<Node>, filters: Option<seq<Filter>>, sortConfig: Option<SortConfig>, timeRange: Option<TimeRange>)
    | Unrecognised(tag: string)

  datatype Response =
    | LogsProcessed(logs: seq<Node>, paths: seq<string>)
    | FilterSortComplete(logs: seq<Node>)

  /** What the handler does: post one response, post nothing, or throw. */
  datatype Reply = Post(response: Response) | NoReply | Threw(error: TypeError)

  /** `timeRange && (timeRange.start || timeRange.end)`. */
  predicate WindowActive(timeRange: Option<TimeRange>) {
    timeRange.Some? && (timeRange.value.start.Given? || timeRange.value.end.Given?)
  }

  predicate BeforeStart(ts: int, tr: TimeRange) {
    tr.start.Given? && tr.start.instant.Some? && ts < tr.start.instant.value
  }

  predicate AfterEnd(ts: int, tr: TimeRange) {
    tr.end.Given? && tr.end.instant.Some? && ts > tr.end.instant.value
  }

  /** The callback of `result.filter` for the time window. A record without a
      truthy `timestamp` passes, and so does one whose timestamp is not a
      number, because every comparison with NaN is false. (A null record never
      gets here: reading its `timestamp` throws, see `WindowThrows`.) */
  predicate InWindow(log: Node, tr: TimeRange) {
    var t := Prop(log, "timestamp");
    if !TruthyOpt(t) then true
    else match ToNumber(t.value)
      case None => true
      case Some(x) => !BeforeStart(NormalizeTimestamp(x), tr) && !AfterEnd(NormalizeTimestamp(x), tr)
  }

  function InWindowTest(tr: TimeRange): Node -> bool {
    x => InWindow(x, tr)
  }

  function TimeWindow(logs: seq<Node>, tr: TimeRange): seq<Node> {
    Keep(logs, InWindowTest(tr))
  }

  /** The window reads `log.timestamp` of every record that passed the
      filters, which throws a `TypeError` for a null record. */
  predicate WindowThrows(filtered: seq<Node>, timeRange: Option<TimeRange>) {
    WindowActive(timeRange) && NullNode in filtered
  }

  predicate SortRequested(sortConfig: Option<SortConfig>) {
    sortConfig.Some? && sortConfig.value.field != []
  }

  /** The `FILTER_AND_SORT` stages in order: filter, time window, sort. */
  function Pipeline(logs: seq<Node>, filters: Option<seq<Filter>>, sortConfig: Option<SortConfig>,
                    timeRange: Option<TimeRange>, keyLe: (Option<Node>, Option<Node>) -> bool): seq<Node>
  {
    var filtered := FilterLogs(logs, filters);
    var windowed := if WindowActive(timeRange) then TimeWindow(filtered, timeRange.value) else filtered;
    if SortRequested(sortConfig) then SortLogs(windowed, sortConfig.value.field, sortConfig.value.direction, keyLe)
    else windowed
  }

  /** What survives filtering and the time window. */
  predicate Selected(x: Node, filters: Option<seq<Filter>>, timeRange: Option<TimeRange>) {
    PassesAll(x, filters.GetOr([])) && (WindowActive(timeRange) ==> InWindow(x, timeRange.value))
  }

  /** `self.onmessage`. `sample` stands for the positions `getAllPaths` draws
      at random; `keyLe` for the order `_.orderBy` puts on field values. */
  method OnMessage(req: Request, sample: set<nat>, keyLe: (Option<Node>, Option<Node>) -> bool) returns (reply: Reply)
    requires req.ProcessLogs? && |req.rawLogs| > DefaultSampleSize ==> ValidSample(sample, |req.rawLogs|, DefaultSampleSize)
    ensures req.Unrecognised? ==> reply == NoReply
    ensures req.ProcessLogs? ==>
      match EnrichAll(req.rawLogs, HeadersToExtract(req.customHeaders))
      case Err(e) => reply == Threw(e)
      case Ok(enriched) =>
        && reply.Post? && reply.response.LogsProcessed?
        && reply.response.logs == enriched
        && StrictlyIncreasing(reply.response.paths)
        && (|enriched| <= DefaultSampleSize ==>
              forall p :: p in reply.response.paths <==> p in KeysAt(enriched, AllIndices(|enriched|)))
        && (|enriched| > DefaultSampleSize ==>
              forall p :: p in reply.response.paths <==> p in KeysAt(enriched, sample))
    ensures req.FilterAndSort? ==>
      if WindowThrows(FilterLogs(req.logs, req.filters), req.timeRange) then reply == Threw(NullRecordTimestamp)
      else reply == Post(FilterSortComplete(Pipeline(req.logs, req.filters, req.sortConfig, req.timeRange, keyLe)))
  {
    match req {
      case ProcessLogs(rawLogs, customHeaders) =>
        var enriched := EnrichLogs(rawLogs, customHeaders);
        if enriched.Err? {
          return Threw(enriched.error);
        }
        EnrichAllSpec(rawLogs, HeadersToExtract(customHeaders));
        var paths := GetAllPaths(enriched.value, DefaultSampleSize, sample);
        reply := Post(LogsProcessed(enriched.value, paths));
      case FilterAndSort(logs, filters, sortConfig, timeRange) =>
        var result := FilterLogs(logs, filters);
        if WindowActive(timeRange) {
          if NullNode in result {
            return Threw(NullRecordTimestamp);
          }
          result := TimeWindow(result, timeRange.value);
        }
        if SortRequested(sortConfig) {
          result := SortLogs(result, sortConfig.value.field, sortConfig.value.direction, keyLe);
        }
        reply := Post(FilterSortComplete(result));
      case Unrecognised(_) =>
        reply := NoReply;
    }
  }

  // ---------------------------------------------------------------------------
  // What the pipeline promises

  /** The time window keeps, in order, exactly the records inside it. */
  lemma TimeWindowSpec(logs: seq<Node>, tr: TimeRange)
    ensures Subsequence(TimeWindow(logs, tr), logs)
    ensures forall x :: multiset(TimeWindow(logs, tr))[x] == if InWindow(x, tr) then multiset(logs)[x] else 0
  {
    KeepIsSubsequence(logs, InWindowTest(tr));
    KeepMultiset(logs, InWindowTest(tr));
  }

  /** Without a sort, the response is the order-preserving subsequence of the
      request's records that pass every filter and the window, each as often
      as it was sent. */
  lemma UnsortedPipeline(logs: seq<Node>, filters: Option<seq<Filter>>, sortConfig: Option<SortConfig>,
                         timeRange: Option<TimeRange>, keyLe: (Option<Node>, Option<Node>) -> bool)
    requires !SortRequested(sortConfig)
    ensures Subsequence(Pipeline(logs, filters, sortConfig, timeRange, keyLe), logs)
    ensures forall x :: multiset(Pipeline(logs, filters, sortConfig, timeRange, keyLe))[x]
                     == if Selected(x, filters, timeRange) then multiset(logs)[x] else 0
  {
    var filtered := FilterLogs(logs, filters);
    if WindowActive(timeRange) {
      TimeWindowSpec(filtered, timeRange.value);
      SubsequenceTrans(TimeWindow(filtered, timeRange.value), filtered, logs);
    }
  }

  /** With a sort, the response holds the same records, ordered by the field
      in the requested direction, ties in their order after filtering. */
  lemma SortedPipeline(logs: seq<Node>, filters: Option<seq<Filter>>, sortConfig: Option<SortConfig>,
                       timeRange: Option<TimeRange>, keyLe: (Option<Node>, Option<Node>) -> bool)
    requires SortRequested(sortConfig) && TotalPreorder(keyLe)
    ensures var r := Pipeline(logs, filters, sortConfig, timeRange, keyLe);
      var unsorted := Pipeline(logs, filters, None, timeRange, keyLe);
      var le := RecordLe(sortConfig.value.field, sortConfig.value.direction, keyLe);
      && multiset(r) == multiset(unsorted)
      && Sorted(r, le)
      && forall k :: ClassOf(r, le, k) == ClassOf(unsorted, le, k)
  {
    var unsorted := Pipeline(logs, filters, None, timeRange, keyLe);
    RecordLeTotalPreorder(sortConfig.value.field, sortConfig.value.direction, keyLe);
    SortByCorrect(unsorted, RecordLe(sortConfig.value.field, sortConfig.value.direction, keyLe));
  }

  /** With no time range, or one whose ends are both empty, no record is
      dropped by time. */
  lemma InactiveWindowKeepsAll(logs: seq<Node>, filters: Option<seq<Filter>>, timeRange: Option<TimeRange>,
                               keyLe: (Option<Node>, Option<Node>) -> bool)
    requires !WindowActive(timeRange)
    ensures Pipeline(logs, filters, None, timeRange, keyLe) == FilterLogs(logs, filters)
  {
  }

  /** Checking the window: a falsy timestamp always passes, and a numeric one
      passes exactly when its normalised value lies within both given bounds,
      the bounds themselves included. */
  lemma InWindowSpec(log: Node, tr: TimeRange)
    ensures !TruthyOpt(Prop(log, "timestamp")) ==> InWindow(log, tr)
    ensures TruthyOpt(Prop(log, "timestamp")) && ToNumber(Prop(log, "timestamp").value).Some? ==>
      var ts := NormalizeTimestamp(ToNumber(Prop(log, "timestamp").value).value);
      InWindow(log, tr) <==>
        (tr.start.Given? && tr.start.instant.Some? ==> tr.start.instant.value <= ts)
        && (tr.end.Given? && tr.end.instant.Some? ==> ts <= tr.end.instant.value)
  {
  }

  /** Only a request without conditions can reach the window with a null
      record: any condition reads a field of the record, which `null` lacks. */
  lemma WindowThrowsOnlyUnfiltered(logs: seq<Node>, filters: Option<seq<Filter>>, timeRange: Option<TimeRange>)
    ensures WindowThrows(FilterLogs(logs, filters), timeRange) <==>
      WindowActive(timeRange) && NullNode in logs && (filters.None? || filters.value == [])
  {
    if filters.Some? && filters.value != [] {
      GetOfNull(FieldPath(filters.value[0]));
      assert !PassesAll(NullNode, filters.value);
      assert multiset(FilterLogs(logs, filters))[NullNode] == 0;
    }
  }

  /** A record stamped in seconds and one stamped with the same instant in
      milliseconds are inside the same windows (for instants from 1970-04-26
      on, where the seconds value is at least 10^7). */
  lemma SecondsAndMillisecondsAgree(seconds: int, tr: TimeRange)
    requires 10_000_000 <= seconds < SecondsThreshold
    ensures InWindow(Obj([("timestamp", Leaf(Num(seconds)))]), tr)
        <==> InWindow(Obj([("timestamp", Leaf(Num(seconds * 1000)))]), tr)
  {
    assert NormalizeTimestamp(seconds) == NormalizeTimestamp(seconds * 1000);
  }
}
