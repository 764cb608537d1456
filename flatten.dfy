/** `flattenObject` (src/utils/logHelpers.js): a record becomes a dictionary
    from path strings to leaf values. Object children extend the path with
    `.key`, array items with `[i]`; scalars and empty arrays are the leaves;
    an empty object contributes nothing. */
module Flatten {
  import opened Wrappers
  import opened Text
  import opened Json

  /** Path of an object child: `prefix.key`, or `key` when the prefix is empty. */
  function ChildPath(prefix: string, key: string): string {
    if prefix == [] then key else prefix + "." + key
  }

  /** Path of an array item: `prefix[i]`, which is `[i]` when the prefix is empty. */
  function ItemPath(prefix: string, i: nat): string {
    prefix + "[" + NatToString(i) + "]"
  }

  /** What `flattenObject` stores: anything but a plain object or a non-empty array. */
  predicate IsFlatLeaf(n: Node) {
    n.Leaf? || n == Arr([])
  }

  function Width(n: Node): nat {
    match n
    case Obj(fs) => |fs|
    case Arr(items) => |items|
    case Leaf(_) => 0
  }

  /** The `i`-th child of an object or array, and the path it is written under. */
  function Child(n: Node, i: nat): Node
    requires i < Width(n)
  {
    if n.Obj? then n.fields[i].1 else n.items[i]
  }

  function ChildPrefix(n: Node, prefix: string, i: nat): string
    requires i < Width(n)
  {
    if n.Obj? then ChildPath(prefix, n.fields[i].0) else ItemPath(prefix, i)
  }

  /** The assignments `res[path] = value` that `flattenObject(n, prefix, res)`
      performs, in the order it performs them. */
  function Writes(n: Node, prefix: string): seq<(string, Node)>
    decreases n, 1
  {
    match n
    case Obj(_) => ChildWrites(n, prefix, 0)
    case Arr(items) => if |items| > 0 then ChildWrites(n, prefix, 0) else [(prefix, n)]
    case Leaf(_) => [(prefix, n)]
  }

  /** The assignments made for the children of `n` from position `from` on. */
  function ChildWrites(n: Node, prefix: string, from: nat): seq<(string, Node)>
    decreases n, 0, Width(n) - from
  {
    match n
    case Obj(fs) =>
      if from >= |fs| then []
      else Writes(fs[from].1, ChildPath(prefix, fs[from].0)) + ChildWrites(n, prefix, from + 1)
    case Arr(items) =>
      if from >= |items| then []
      else Writes(items[from], ItemPath(prefix, from)) + ChildWrites(n, prefix, from + 1)
    case Leaf(_) => []
  }

  /** Performs the assignments in order: a later write to a path replaces an earlier one. */
  function Apply(res: map<string, Node>, ws: seq<(string, Node)>): map<string, Node>
    decreases |ws|
  {
    if ws == [] then res else Apply(res[ws[0].0 := ws[0].1], ws[1..])
  }

  /** `flattenObject(n)`: empty prefix, fresh accumulator. */
  function FlattenObject(n: Node): map<string, Node> {
    Apply(map[], Writes(n, ""))
  }

  /** The recursion of `flattenObject`, writing into the accumulator `res`
      as it walks the children of each object and non-empty array. */
  method FlattenInto(n: Node, prefix: string, res: map<string, Node>) returns (out: map<string, Node>)
    ensures out == Apply(res, Writes(n, prefix))
    decreases n
  {
    if n.Obj? || (n.Arr? && |n.items| > 0) {
      out := res;
      assert Writes(n, prefix) == ChildWrites(n, prefix, 0);
      var i := 0;
      while i < Width(n)
        invariant 0 <= i <= Width(n)
        invariant Apply(out, ChildWrites(n, prefix, i)) == Apply(res, Writes(n, prefix))
      {
        var child, path := Child(n, i), ChildPrefix(n, prefix, i);
        var before := out;
        ChildWritesStep(n, prefix, i);
        ApplyConcat(before, Writes(child, path), ChildWrites(n, prefix, i + 1));
        out := FlattenInto(child, path, before);
        assert Apply(out, ChildWrites(n, prefix, i + 1)) == Apply(before, ChildWrites(n, prefix, i));
        i := i + 1;
      }
      ChildWritesEnd(n, prefix);
      assert Apply(out, ChildWrites(n, prefix, Width(n))) == out;
    } else {
      out := res[prefix := n];
      LeafWrite(res, n, prefix);
    }
  }

  lemma ChildWritesStep(n: Node, prefix: string, i: nat)
    requires i < Width(n)
    ensures ChildWrites(n, prefix, i) == Writes(Child(n, i), ChildPrefix(n, prefix, i)) + ChildWrites(n, prefix, i + 1)
  {
  }

  /** A leaf is stored under its own path. */
  lemma LeafWrite(res: map<string, Node>, n: Node, prefix: string)
    requires !(n.Obj? || (n.Arr? && |n.items| > 0))
    ensures Apply(res, Writes(n, prefix)) == res[prefix := n]
  {
    assert Writes(n, prefix) == [(prefix, n)];
    assert [(prefix, n)][1..] == [];
  }

  lemma ChildWritesEnd(n: Node, prefix: string)
    ensures ChildWrites(n, prefix, Width(n)) == []
  {
  }

  lemma {:induction false} ApplyConcat(res: map<string, Node>, a: seq<(string, Node)>, b: seq<(string, Node)>)
    ensures Apply(res, a + b) == Apply(Apply(res, a), b)
    decreases |a|
  {
    if a != [] {
      assert (a + b)[1..] == a[1..] + b;
      ApplyConcat(res[a[0].0 := a[0].1], a[1..], b);
    } else {
      assert a + b == b;
    }
  }

  /** The result of the assignments holds the paths already present plus every
      written path, and each value is the old one or one that was written there. */
  lemma {:induction false} ApplySpec(res: map<string, Node>, ws: seq<(string, Node)>)
    ensures forall k :: k in Apply(res, ws) <==> k in res || exists i :: 0 <= i < |ws| && ws[i].0 == k
    ensures forall k :: k in Apply(res, ws) ==>
      (k in res && Apply(res, ws)[k] == res[k]) || exists i :: 0 <= i < |ws| && ws[i] == (k, Apply(res, ws)[k])
    decreases |ws|
  {
    if ws != [] {
      var res' := res[ws[0].0 := ws[0].1];
      var r := Apply(res, ws);
      assert r == Apply(res', ws[1..]);
      ApplySpec(res', ws[1..]);
      forall k ensures k in r <==> k in res || exists i :: 0 <= i < |ws| && ws[i].0 == k {
        var inTail := exists i :: 0 <= i < |ws[1..]| && ws[1..][i].0 == k;
        var inAll := exists i :: 0 <= i < |ws| && ws[i].0 == k;
        if inTail {
          var i :| 0 <= i < |ws[1..]| && ws[1..][i].0 == k;
          assert ws[i + 1].0 == k;
        }
        if inAll && ws[0].0 != k {
          var i :| 0 <= i < |ws| && ws[i].0 == k;
          assert ws[1..][i - 1].0 == k;
        }
        assert inAll <==> ws[0].0 == k || inTail;
      }
      forall k | k in r
        ensures (k in res && r[k] == res[k]) || exists i :: 0 <= i < |ws| && ws[i] == (k, r[k])
      {
        if exists i :: 0 <= i < |ws[1..]| && ws[1..][i] == (k, r[k]) {
          var i :| 0 <= i < |ws[1..]| && ws[1..][i] == (k, r[k]);
          assert ws[i + 1] == (k, r[k]);
        } else {
          assert k in res' && r[k] == res'[k];
          if k == ws[0].0 {
            assert ws[0] == (k, r[k]);
          }
        }
      }
    }
  }

  /** Every value `flattenObject` stores is a flat leaf. */
  lemma {:induction false} WritesAreLeaves(n: Node, prefix: string)
    ensures forall i :: 0 <= i < |Writes(n, prefix)| ==> IsFlatLeaf(Writes(n, prefix)[i].1)
    decreases n, 1
  {
    if n.Obj? || (n.Arr? && |n.items| > 0) {
      ChildWritesAreLeaves(n, prefix, 0);
    }
  }

  lemma {:induction false} ChildWritesAreLeaves(n: Node, prefix: string, from: nat)
    ensures forall i :: 0 <= i < |ChildWrites(n, prefix, from)| ==> IsFlatLeaf(ChildWrites(n, prefix, from)[i].1)
    decreases n, 0, Width(n) - from
  {
    if from < Width(n) && !n.Leaf? {
      var child, path := Child(n, from), ChildPrefix(n, prefix, from);
      assert ChildWrites(n, prefix, from) == Writes(child, path) + ChildWrites(n, prefix, from + 1);
      WritesAreLeaves(child, path);
      ChildWritesAreLeaves(n, prefix, from + 1);
    }
  }

  /** The subtree reached by following child positions `a` from `n`. */
  function At(n: Node, a: seq<nat>): Option<Node>
    decreases |a|
  {
    if a == [] then Some(n)
    else match n
      case Obj(fs) => if a[0] < |fs| then At(fs[a[0]].1, a[1..]) else None
      case Arr(items) => if a[0] < |items| then At(items[a[0]], a[1..]) else None
      case Leaf(_) => None
  }

  /** The path string that names position `a` of `n` under `prefix`. */
  function PathAt(n: Node, prefix: string, a: seq<nat>): string
    decreases |a|
  {
    if a == [] then prefix
    else match n
      case Obj(fs) => if a[0] < |fs| then PathAt(fs[a[0]].1, ChildPath(prefix, fs[a[0]].0), a[1..]) else prefix
      case Arr(items) => if a[0] < |items| then PathAt(items[a[0]], ItemPath(prefix, a[0]), a[1..]) else prefix
      case Leaf(_) => prefix
  }

  /** `a` leads from `n` to a flat leaf. */
  ghost predicate LeafAddress(n: Node, a: seq<nat>) {
    At(n, a).Some? && IsFlatLeaf(At(n, a).value)
  }

  /** Every flat leaf of the tree is written, under the path of its position. */
  lemma {:induction false} WritesComplete(n: Node, prefix: string, a: seq<nat>)
    requires LeafAddress(n, a)
    ensures (PathAt(n, prefix, a), At(n, a).value) in Writes(n, prefix)
    decreases n, 1
  {
    if a != [] {
      ChildWritesComplete(n, prefix, 0, a);
    }
  }

  lemma {:induction false} ChildWritesComplete(n: Node, prefix: string, from: nat, a: seq<nat>)
    requires a != [] && from <= a[0] && LeafAddress(n, a)
    ensures (PathAt(n, prefix, a), At(n, a).value) in ChildWrites(n, prefix, from)
    decreases n, 0, Width(n) - from
  {
    AddressStep(n, prefix, a);
    ChildWritesStep(n, prefix, from);
    var w := (PathAt(n, prefix, a), At(n, a).value);
    var child, path := Child(n, from), ChildPrefix(n, prefix, from);
    if a[0] == from {
      WritesComplete(child, path, a[1..]);
      assert w in Writes(child, path);
    } else {
      ChildWritesComplete(n, prefix, from + 1, a);
      assert w in ChildWrites(n, prefix, from + 1);
    }
  }

  /** A non-empty address goes through the child at its first position. */
  lemma AddressStep(n: Node, prefix: string, a: seq<nat>)
    requires a != [] && At(n, a).Some?
    ensures a[0] < Width(n)
    ensures At(n, a) == At(Child(n, a[0]), a[1..])
    ensures PathAt(n, prefix, a) == PathAt(Child(n, a[0]), ChildPrefix(n, prefix, a[0]), a[1..])
  {
  }

  /** Every write names a flat leaf of the tree by the path of its position. */
  lemma {:induction false} WritesSound(n: Node, prefix: string, i: nat)
    requires i < |Writes(n, prefix)|
    ensures exists a :: LeafAddress(n, a) && PathAt(n, prefix, a) == Writes(n, prefix)[i].0
                        && At(n, a).value == Writes(n, prefix)[i].1
    decreases n, 1
  {
    if n.Obj? || (n.Arr? && |n.items| > 0) {
      ChildWritesSound(n, prefix, 0, i);
      var a :| a != [] && 0 <= a[0] && LeafAddress(n, a) && PathAt(n, prefix, a) == ChildWrites(n, prefix, 0)[i].0
               && At(n, a).value == ChildWrites(n, prefix, 0)[i].1;
    } else {
      assert LeafAddress(n, []) && PathAt(n, prefix, []) == prefix;
    }
  }

  lemma {:induction false} ChildWritesSound(n: Node, prefix: string, from: nat, i: nat)
    requires i < |ChildWrites(n, prefix, from)|
    ensures exists a :: a != [] && from <= a[0] && LeafAddress(n, a)
                        && PathAt(n, prefix, a) == ChildWrites(n, prefix, from)[i].0
                        && At(n, a).value == ChildWrites(n, prefix, from)[i].1
    decreases n, 0, Width(n) - from
  {
    var child, path := Child(n, from), ChildPrefix(n, prefix, from);
    var ws := ChildWrites(n, prefix, from);
    assert ws == Writes(child, path) + ChildWrites(n, prefix, from + 1);
    if i < |Writes(child, path)| {
      WritesSound(child, path, i);
      var b :| LeafAddress(child, b) && PathAt(child, path, b) == Writes(child, path)[i].0
               && At(child, b).value == Writes(child, path)[i].1;
      var a := [from] + b;
      assert a[1..] == b;
      assert At(n, a) == At(child, b);
      assert PathAt(n, prefix, a) == PathAt(child, path, b);
    } else {
      ChildWritesSound(n, prefix, from + 1, i - |Writes(child, path)|);
      var a :| a != [] && from + 1 <= a[0] && LeafAddress(n, a)
               && PathAt(n, prefix, a) == ChildWrites(n, prefix, from + 1)[i - |Writes(child, path)|].0
               && At(n, a).value == ChildWrites(n, prefix, from + 1)[i - |Writes(child, path)|].1;
    }
  }

  /** `flattenObject(n)` maps exactly the paths of the flat leaves of `n`, and
      each path to a flat leaf found at a position with that path. */
  lemma FlattenObjectSpec(n: Node)
    ensures forall a :: LeafAddress(n, a) ==> PathAt(n, "", a) in FlattenObject(n)
    ensures forall p :: p in FlattenObject(n) ==>
      IsFlatLeaf(FlattenObject(n)[p])
      && exists a :: LeafAddress(n, a) && PathAt(n, "", a) == p && At(n, a) == Some(FlattenObject(n)[p])
  {
    var ws := Writes(n, "");
    ApplySpec(map[], ws);
    forall a | LeafAddress(n, a) ensures PathAt(n, "", a) in FlattenObject(n) {
      WritesComplete(n, "", a);
      var i :| 0 <= i < |ws| && ws[i] == (PathAt(n, "", a), At(n, a).value);
      assert ws[i].0 == PathAt(n, "", a);
    }
    forall p | p in FlattenObject(n)
      ensures IsFlatLeaf(FlattenObject(n)[p])
      ensures exists a :: LeafAddress(n, a) && PathAt(n, "", a) == p && At(n, a) == Some(FlattenObject(n)[p])
    {
      var i :| 0 <= i < |ws| && ws[i] == (p, FlattenObject(n)[p]);
      WritesSound(n, "", i);
      WritesAreLeaves(n, "");
    }
  }
}
