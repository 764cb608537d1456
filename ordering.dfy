// `sortLogs` and `groupLogs` (src/utils/logHelpers.js).

module Ordering {
  import opened Wrappers
  import opened Seqs
  import opened Sorting
  import opened Json

  datatype Direction = Asc | Desc

  /** The record order `_.orderBy` applies for one field: the order `keyLe` on
      the field values (`_.get(log, field)`, possibly undefined), reversed for
      a descending sort. */
  function RecordLe(field: string, direction: Direction, keyLe: (Option<Node>, Option<Node>) -> bool): (Node, Node) -> bool {
    (a: Node, b: Node) =>
      if direction == Asc then keyLe(Get(a, field), Get(b, field)) else keyLe(Get(b, field), Get(a, field))
  }

  /** `sortLogs(logs, field, direction)`. */
  function SortLogs(logs: seq<Node>, field: string, direction: Direction, keyLe: (Option<Node>, Option<Node>) -> bool): seq<Node> {
    SortBy(logs, RecordLe(field, direction, keyLe))
  }

  lemma RecordLeTotalPreorder(field: string, direction: Direction, keyLe: (Option<Node>, Option<Node>) -> bool)
    requires TotalPreorder(keyLe)
    ensures TotalPreorder(RecordLe(field, direction, keyLe))
  {
    var le := RecordLe(field, direction, keyLe);
    forall a, b ensures le(a, b) || le(b, a) {
      assert keyLe(Get(a, field), Get(b, field)) || keyLe(Get(b, field), Get(a, field));
    }
    forall a, b, c | le(a, b) && le(b, c) ensures le(a, c) {
      if direction == Asc {
        assert keyLe(Get(a, field), Get(b, field)) && keyLe(Get(b, field), Get(c, field));
      } else {
        assert keyLe(Get(c, field), Get(b, field)) && keyLe(Get(b, field), Get(a, field));
      }
    }
  }

  /** For any total preorder on field values, `sortLogs` returns a permutation
      of its input, ordered by the field value in the given direction, in
      which records with equal keys keep their input order. */
  lemma SortLogsSpec(logs: seq<Node>, field: string, direction: Direction, keyLe: (Option<Node>, Option<Node>) -> bool)
    requires TotalPreorder(keyLe)
    ensures multiset(SortLogs(logs, field, direction, keyLe)) == multiset(logs)
    ensures forall i, j :: 0 <= i < j < |SortLogs(logs, field, direction, keyLe)| ==>
      var s := SortLogs(logs, field, direction, keyLe);
      if direction == Asc then keyLe(Get(s[i], field), Get(s[j], field)) else keyLe(Get(s[j], field), Get(s[i], field))
    ensures forall k :: ClassOf(SortLogs(logs, field, direction, keyLe), RecordLe(field, direction, keyLe), k)
                     == ClassOf(logs, RecordLe(field, direction, keyLe), k)
  {
    RecordLeTotalPreorder(field, direction, keyLe);
    SortByCorrect(logs, RecordLe(field, direction, keyLe));
  }

  // ---------------------------------------------------------------------------
  // groupLogs
  //
  // The grouping is stated for any key function on records; `groupLogs` is
  // the instance whose key is `GroupKey` for the chosen field.

  /** `_.get(log, field) || 'Undefined'`, as the property key it becomes. */
  function GroupKey(log: Node, field: string): string {
    var v := Get(log, field);
    if TruthyOpt(v) then ToStr(v.value) else "Undefined"
  }

  /** The key `groupLogs` files a record under when grouping by `field`. */
  function FieldKey(field: string): Node -> string {
    x => GroupKey(x, field)
  }

  function HasKey(key: Node -> string, k: string): Node -> bool {
    x => key(x) == k
  }

  /** The distinct keys, in the order their first record appears. */
  function KeysInOrder(logs: seq<Node>, key: Node -> string): seq<string>
    decreases |logs|
  {
    if logs == [] then []
    else
      var k := key(logs[0]);
      [k] + RemoveAll(KeysInOrder(logs[1..], key), k)
  }

  /** The key list names every record's key, only those, and each once. */
  lemma KeysInOrderSpec(logs: seq<Node>, key: Node -> string)
    ensures NoDups(KeysInOrder(logs, key))
    ensures forall i :: 0 <= i < |logs| ==> key(logs[i]) in KeysInOrder(logs, key)
    ensures forall j :: 0 <= j < |KeysInOrder(logs, key)| ==>
      exists i :: 0 <= i < |logs| && key(logs[i]) == KeysInOrder(logs, key)[j]
  {
    KeysInOrderDistinct(logs, key);
    KeysInOrderMembers(logs, key);
    var keys := KeysInOrder(logs, key);
    forall j | 0 <= j < |keys| ensures exists i :: 0 <= i < |logs| && key(logs[i]) == keys[j] {
      assert keys[j] in keys;
    }
  }

  lemma {:induction false} KeysInOrderDistinct(logs: seq<Node>, key: Node -> string)
    ensures NoDups(KeysInOrder(logs, key))
    decreases |logs|
  {
    if logs != [] {
      KeysInOrderDistinct(logs[1..], key);
      NoDupsRemoveAll(KeysInOrder(logs[1..], key), key(logs[0]));
    }
  }

  lemma {:induction false} KeysInOrderMembers(logs: seq<Node>, key: Node -> string)
    ensures forall k :: k in KeysInOrder(logs, key) <==> exists i :: 0 <= i < |logs| && key(logs[i]) == k
    decreases |logs|
  {
    if logs != [] {
      var rest := KeysInOrder(logs[1..], key);
      var k0 := key(logs[0]);
      KeysInOrderMembers(logs[1..], key);
      RemoveAllMembers(rest, k0);
      forall k ensures k in KeysInOrder(logs, key) <==> exists i :: 0 <= i < |logs| && key(logs[i]) == k {
        if k != k0 && k in rest {
          var i :| 0 <= i < |logs[1..]| && key(logs[1..][i]) == k;
          assert key(logs[i + 1]) == k;
        }
        if exists i :: 0 <= i < |logs| && key(logs[i]) == k {
          var i :| 0 <= i < |logs| && key(logs[i]) == k;
          if i > 0 && k != k0 {
            assert key(logs[1..][i - 1]) == k;
          }
        }
      }
    }
  }

  lemma NoDupsRemoveAll(s: seq<string>, v: string)
    requires NoDups(s)
    ensures NoDups([v] + RemoveAll(s, v))
  {
    var r := RemoveAll(s, v);
    NoDupsCounts(s);
    NoDupsCounts([v] + r);
  }

  /** Each key with its records, in input order. */
  function GroupBy(logs: seq<Node>, key: Node -> string): seq<(string, seq<Node>)> {
    var keys := KeysInOrder(logs, key);
    seq(|keys|, i requires 0 <= i < |keys| => (keys[i], Keep(logs, HasKey(key, keys[i]))))
  }

  /** `groupLogs(logs, field)`. */
  function GroupLogs(logs: seq<Node>, field: string): seq<(string, seq<Node>)> {
    GroupBy(logs, FieldKey(field))
  }

  function Concat(groups: seq<(string, seq<Node>)>): seq<Node> {
    if groups == [] then [] else groups[0].1 + Concat(groups[1..])
  }

  /** Every group is non-empty, holds exactly the records with its key, in
      their input order, and no key is listed twice. */
  lemma GroupBySpec(logs: seq<Node>, key: Node -> string)
    ensures var g := GroupBy(logs, key);
      && (forall i, j :: 0 <= i < j < |g| ==> g[i].0 != g[j].0)
      && (forall i :: 0 <= i < |g| ==> g[i].1 != [])
      && (forall i, x :: 0 <= i < |g| ==> (x in g[i].1 <==> x in logs && key(x) == g[i].0))
      && (forall i :: 0 <= i < |g| ==> Subsequence(g[i].1, logs))
      && (forall x :: x in logs ==> exists i :: 0 <= i < |g| && g[i].0 == key(x))
  {
    var g := GroupBy(logs, key);
    var keys := KeysInOrder(logs, key);
    KeysInOrderSpec(logs, key);
    forall i | 0 <= i < |g|
      ensures g[i].1 != []
      ensures forall x :: x in g[i].1 <==> x in logs && key(x) == g[i].0
      ensures Subsequence(g[i].1, logs)
    {
      KeepMembers(logs, HasKey(key, keys[i]));
      KeepIsSubsequence(logs, HasKey(key, keys[i]));
      var j :| 0 <= j < |logs| && key(logs[j]) == keys[i];
      assert logs[j] in g[i].1;
    }
    forall x | x in logs ensures exists i :: 0 <= i < |g| && g[i].0 == key(x) {
      var j :| 0 <= j < |logs| && logs[j] == x;
      assert key(x) in keys;
      var i :| 0 <= i < |keys| && keys[i] == key(x);
      assert g[i].0 == key(x);
    }
  }

  /** The groups of distinct keys `keys`, concatenated, hold each record whose
      key is listed as often as the input does, and nothing else. */
  lemma {:induction false} ConcatCounts(logs: seq<Node>, key: Node -> string, keys: seq<string>, x: Node)
    requires NoDups(keys)
    ensures var g := seq(|keys|, i requires 0 <= i < |keys| => (keys[i], Keep(logs, HasKey(key, keys[i]))));
      multiset(Concat(g))[x] == if key(x) in keys then multiset(logs)[x] else 0
  {
    var g := seq(|keys|, i requires 0 <= i < |keys| => (keys[i], Keep(logs, HasKey(key, keys[i]))));
    if keys != [] {
      var rest := keys[1..];
      assert NoDups(rest);
      ConcatCounts(logs, key, rest, x);
      var g' := seq(|rest|, i requires 0 <= i < |rest| => (rest[i], Keep(logs, HasKey(key, rest[i]))));
      assert g[1..] == g';
      KeepMultiset(logs, HasKey(key, keys[0]));
      assert keys[0] !in rest;
      assert key(x) in keys <==> key(x) == keys[0] || key(x) in rest;
    }
  }

  /** The groups partition the input: together they are a permutation of it,
      so their sizes add up to the number of records. */
  lemma GroupsPartition(logs: seq<Node>, key: Node -> string)
    ensures multiset(Concat(GroupBy(logs, key))) == multiset(logs)
    ensures |Concat(GroupBy(logs, key))| == |logs|
  {
    var keys := KeysInOrder(logs, key);
    KeysInOrderSpec(logs, key);
    forall x ensures multiset(Concat(GroupBy(logs, key)))[x] == multiset(logs)[x] {
      ConcatCounts(logs, key, keys, x);
      if x in logs {
        var j :| 0 <= j < |logs| && logs[j] == x;
        assert key(x) in keys;
      }
    }
    assert multiset(Concat(GroupBy(logs, key))) == multiset(logs);
    assert |multiset(Concat(GroupBy(logs, key)))| == |multiset(logs)|;
  }

  /** Every falsy field value (missing, null, false, 0, "") lands in "Undefined". */
  lemma FalsyValuesGroupAsUndefined(log: Node, field: string)
    requires Get(log, field) in {None, Some(NullNode), Some(Leaf(Bool(false))), Some(Leaf(Num(0))), Some(Leaf(Str("")))}
    ensures GroupKey(log, field) == "Undefined"
  {
  }
}
