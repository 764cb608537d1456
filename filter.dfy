// `filterLogs` (src/utils/logHelpers.js): the records that satisfy every
// field/operator/value condition, in their original order.

module Filters {
  import opened Wrappers
  import opened Seqs
  import opened Text
  import opened Json

  /** One condition. A field never chosen in the editor is `undefined`, which
      `_.get` looks up as the key "undefined". */
  datatype Filter = Filter(field: Option<string>, operator: string, value: string)

  function FieldPath(f: Filter): string {
    f.field.GetOr("undefined")
  }

  /** The operators with a case of their own; any other passes. */
  const KnownOperators: set<string> := {"equals", "contains", "startsWith", "endsWith", "gt", "lt", "exists"}

  /** One condition on one record. */
  predicate Passes(log: Node, f: Filter) {
    ValuePasses(Get(log, FieldPath(f)), f)
  }

  /** The condition on the value `_.get` read (None is `undefined`). */
  predicate ValuePasses(v: Option<Node>, f: Filter) {
    if v.None? then false
    else
      var strLog := Lower(ToStr(v.value));
      var strValue := Lower(f.value);
      match f.operator
      case "equals" => strLog == strValue
      case "contains" => Contains(strLog, strValue)
      case "startsWith" => IsPrefix(strValue, strLog)
      case "endsWith" => IsSuffix(strValue, strLog)
      case "gt" => ToNumber(v.value).Some? && StringToNumber(f.value).Some? && ToNumber(v.value).value > StringToNumber(f.value).value
      case "lt" => ToNumber(v.value).Some? && StringToNumber(f.value).Some? && ToNumber(v.value).value < StringToNumber(f.value).value
      case "exists" => v.value != NullNode
      case _ => true
  }

  /** `filters.every(...)`. */
  predicate PassesAll(log: Node, fs: seq<Filter>) {
    forall i :: 0 <= i < |fs| ==> Passes(log, fs[i])
  }

  /** `filterLogs(logs, filters)`: with no filters the very same list, else the
      records passing all of them, in order and with their multiplicity. */
  function FilterLogs(logs: seq<Node>, filters: Option<seq<Filter>>): (r: seq<Node>)
    ensures filters.None? || filters.value == [] ==> r == logs
    ensures Subsequence(r, logs)
    ensures forall x :: multiset(r)[x] == if PassesAll(x, filters.GetOr([])) then multiset(logs)[x] else 0
  {
    KeepIsSubsequence(logs, x => PassesAll(x, filters.GetOr([])));
    KeepMultiset(logs, x => PassesAll(x, filters.GetOr([])));
    SubsequenceRefl(logs);
    if filters.None? || filters.value == [] then logs
    else Keep(logs, x => PassesAll(x, filters.value))
  }

  lemma PassesAllConcat(log: Node, a: seq<Filter>, b: seq<Filter>)
    ensures PassesAll(log, a + b) <==> PassesAll(log, a) && PassesAll(log, b)
  {
    if PassesAll(log, a) && PassesAll(log, b) {
      forall i | 0 <= i < |a + b| ensures Passes(log, (a + b)[i]) {
        if i >= |a| {
          assert (a + b)[i] == b[i - |a|];
        }
      }
    }
    if PassesAll(log, a + b) {
      forall i | 0 <= i < |a| ensures Passes(log, a[i]) {
        assert (a + b)[i] == a[i];
      }
      forall i | 0 <= i < |b| ensures Passes(log, b[i]) {
        assert (a + b)[|a| + i] == b[i];
      }
    }
  }

  /** Filtering is a conjunction: filtering by `a` and then by `b` is filtering by both. */
  lemma FilterConjunction(logs: seq<Node>, a: seq<Filter>, b: seq<Filter>)
    ensures FilterLogs(FilterLogs(logs, Some(a)), Some(b)) == FilterLogs(logs, Some(a + b))
  {
    if a == [] {
      assert a + b == b;
    } else if b == [] {
      assert a + b == a;
    } else {
      forall x ensures PassesAll(x, a + b) == (PassesAll(x, a) && PassesAll(x, b)) {
        PassesAllConcat(x, a, b);
      }
      KeepKeep(logs, x => PassesAll(x, a), x => PassesAll(x, b), x => PassesAll(x, a + b));
    }
  }

  /** A record whose field is undefined passes no condition on it, so it is
      dropped by any list containing one. */
  lemma UndefinedFieldExcluded(logs: seq<Node>, fs: seq<Filter>, f: Filter, log: Node)
    requires f in fs && Get(log, FieldPath(f)).None?
    ensures log !in FilterLogs(logs, Some(fs))
  {
    var i :| 0 <= i < |fs| && fs[i] == f;
    assert !PassesAll(log, fs);
    assert multiset(FilterLogs(logs, Some(fs)))[log] == 0;
  }

  /** An operator without a case of its own (`isNotEmpty` among them) only
      keeps the records in which the field is defined, whatever the value;
      so a defined empty string passes `isNotEmpty`. */
  lemma UnknownOperatorOnlyNeedsField(log: Node, f: Filter)
    requires f.operator !in KnownOperators
    ensures Passes(log, f) <==> Get(log, FieldPath(f)).Some?
  {
  }

  /** The text comparisons ignore letter case on both sides, and a value that
      equals the field's text also starts, ends and occurs in it. */
  lemma TextOperatorsRelate(log: Node, field: Option<string>, value: string)
    ensures Passes(log, Filter(field, "equals", value)) <==> Passes(log, Filter(field, "equals", Lower(value)))
    ensures Passes(log, Filter(field, "equals", value)) ==>
      Passes(log, Filter(field, "startsWith", value)) && Passes(log, Filter(field, "endsWith", value))
    ensures Passes(log, Filter(field, "startsWith", value)) || Passes(log, Filter(field, "endsWith", value)) ==>
      Passes(log, Filter(field, "contains", value))
    ensures Get(log, FieldPath(Filter(field, "contains", ""))).Some? ==> Passes(log, Filter(field, "contains", ""))
  {
    LowerIdempotent(value);
    var v := Get(log, FieldPath(Filter(field, "contains", value)));
    if v.Some? {
      var strLog := Lower(ToStr(v.value));
      AffixContained(Lower(value), strLog);
      assert IsPrefix([], strLog);
    }
  }

  /** `gt` and `lt` are strict and numeric: never both at once, never with a
      value that is not a number, and `exists` holds exactly for a defined,
      non-null value. */
  lemma NumericAndExistsOperators(log: Node, field: Option<string>, value: string)
    ensures !(Passes(log, Filter(field, "gt", value)) && Passes(log, Filter(field, "lt", value)))
    ensures StringToNumber(value).None? ==>
      !Passes(log, Filter(field, "gt", value)) && !Passes(log, Filter(field, "lt", value))
    ensures Passes(log, Filter(field, "exists", value)) <==>
      Get(log, FieldPath(Filter(field, "exists", value))).Some? && Get(log, FieldPath(Filter(field, "exists", value))).value != NullNode
  {
    var gt, lt, ex := Filter(field, "gt", value), Filter(field, "lt", value), Filter(field, "exists", value);
    assert FieldPath(lt) == FieldPath(gt) && FieldPath(ex) == FieldPath(gt);
    var v := Get(log, FieldPath(gt));
    NumericAndExistsOnValue(v, field, value);
    assert Passes(log, gt) == ValuePasses(v, gt);
    assert Passes(log, lt) == ValuePasses(v, lt);
    assert Passes(log, ex) == ValuePasses(v, ex);
  }

  /** The same three facts about the value read from the record. */
  lemma NumericAndExistsOnValue(v: Option<Node>, field: Option<string>, value: string)
    ensures !(ValuePasses(v, Filter(field, "gt", value)) && ValuePasses(v, Filter(field, "lt", value)))
    ensures StringToNumber(value).None? ==>
      !ValuePasses(v, Filter(field, "gt", value)) && !ValuePasses(v, Filter(field, "lt", value))
    ensures ValuePasses(v, Filter(field, "exists", value)) <==> v.Some? && v.value != NullNode
  {
  }
}
