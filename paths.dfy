// The column catalogue: every flattened path found in a batch of records,
// gathered by `getAllPaths` (src/utils/logHelpers.js).

module PathCatalog {
  import opened Wrappers
  import opened Seqs
  import opened Sorting
  import opened Text
  import opened Json
  import opened Flatten

  /** Batches up to this size are scanned exhaustively. */
  const DefaultSampleSize: nat := 5000

  /** Every flattened path of the records at positions `idx`. */
  function KeysAt(logs: seq<Node>, idx: set<nat>): set<string> {
    set i, p | i in idx && i < |logs| && p in FlattenObject(logs[i]) :: p
  }

  /** The positions `0 .. n-1`. */
  function AllIndices(n: nat): (r: set<nat>)
    ensures forall i :: i in r <==> 0 <= i < n
  {
    if n == 0 then {} else AllIndices(n - 1) + {n - 1}
  }

  /** What the random draw of `getAllPaths` produces once it stops: exactly
      `size` distinct positions of the batch. */
  predicate ValidSample(sample: set<nat>, n: nat, size: nat) {
    |sample| == size && forall i :: i in sample ==> i < n
  }

  /** Strictly increasing in the default order of `Array.prototype.sort`. */
  predicate StrictlyIncreasing(s: seq<string>) {
    forall i, j :: 0 <= i < j < |s| ==> StrLe(s[i], s[j]) && !StrLe(s[j], s[i])
  }

  lemma KeysAtAdd(logs: seq<Node>, idx: set<nat>, i: nat)
    requires i < |logs|
    ensures KeysAt(logs, idx + {i}) == KeysAt(logs, idx) + FlattenObject(logs[i]).Keys
  {
    forall p | p in FlattenObject(logs[i]).Keys ensures p in KeysAt(logs, idx + {i}) {
      assert i in idx + {i} && p in FlattenObject(logs[i]);
    }
  }

  /** `Object.keys(flat).forEach(key => paths.add(key))`. */
  method AddKeys(paths: set<string>, flat: map<string, Node>) returns (r: set<string>)
    ensures r == paths + flat.Keys
  {
    r := paths;
    var todo := flat.Keys;
    while todo != {}
      invariant todo <= flat.Keys
      invariant r == paths + (flat.Keys - todo)
      decreases todo
    {
      var k :| k in todo;
      r := r + {k};
      todo := todo - {k};
    }
  }

  /** `Array.from(paths).sort()`: the distinct paths, in increasing order. */
  method ToSortedArray(paths: set<string>) returns (r: seq<string>)
    ensures forall p :: p in r <==> p in paths
    ensures StrictlyIncreasing(r)
  {
    var s: seq<string> := [];
    var todo := paths;
    while todo != {}
      invariant todo <= paths
      invariant NoDups(s)
      invariant forall p :: p in s <==> p in paths && p !in todo
      decreases todo
    {
      var p :| p in todo;
      assert p !in s;
      s := s + [p];
      todo := todo - {p};
    }
    r := SortBy(s, StrLe);
    StrLeTotalPreorder();
    SortByCorrect(s, StrLe);
    NoDupsPermutation(s, r);
    SortedDistinctIsStrict(r);
    forall p ensures p in r <==> p in s {
      assert p in r <==> p in multiset(r);
      assert p in s <==> p in multiset(s);
    }
  }

  /** `getAllPaths(logs, sampleSize)`. A batch no larger than `sampleSize` is
      scanned in full; a larger one only at the randomly drawn positions
      `sample`. The result lists each path once, in increasing order, and
      never a path no record has. */
  method GetAllPaths(logs: seq<Node>, sampleSize: nat, sample: set<nat>) returns (r: seq<string>)
    requires |logs| > sampleSize ==> ValidSample(sample, |logs|, sampleSize)
    ensures StrictlyIncreasing(r)
    ensures |logs| <= sampleSize ==> forall p :: p in r <==> p in KeysAt(logs, AllIndices(|logs|))
    ensures |logs| > sampleSize ==> forall p :: p in r <==> p in KeysAt(logs, sample)
    ensures forall p :: p in r ==> p in KeysAt(logs, AllIndices(|logs|))
  {
    var paths: set<string>;
    if |logs| <= sampleSize {
      paths := CollectAll(logs);
    } else {
      paths := CollectSample(logs, sample);
      KeysAtMono(logs, sample, AllIndices(|logs|));
    }
    r := ToSortedArray(paths);
  }

  /** The scan of every record of a small batch. */
  method CollectAll(logs: seq<Node>) returns (paths: set<string>)
    ensures paths == KeysAt(logs, AllIndices(|logs|))
  {
    paths := {};
    var i := 0;
    while i < |logs|
      invariant 0 <= i <= |logs|
      invariant paths == KeysAt(logs, AllIndices(i))
    {
      var flat := FlattenInto(logs[i], "", map[]);
      paths := AddKeys(paths, flat);
      KeysAtAdd(logs, AllIndices(i), i);
      assert AllIndices(i + 1) == AllIndices(i) + {i};
      i := i + 1;
    }
  }

  /** The scan of the sampled records of a large batch. */
  method CollectSample(logs: seq<Node>, sample: set<nat>) returns (paths: set<string>)
    ensures paths == KeysAt(logs, sample)
  {
    paths := {};
    var todo := sample;
    while todo != {}
      invariant todo <= sample
      invariant paths == KeysAt(logs, sample - todo)
      decreases todo
    {
      var i :| i in todo;
      if i < |logs| {
        var flat := FlattenInto(logs[i], "", map[]);
        paths := AddKeys(paths, flat);
        KeysAtAdd(logs, sample - todo, i);
      } else {
        KeysAtBeyond(logs, sample - todo, i);
      }
      assert (sample - todo) + {i} == sample - (todo - {i});
      todo := todo - {i};
    }
    assert sample - todo == sample;
  }

  lemma KeysAtBeyond(logs: seq<Node>, idx: set<nat>, i: nat)
    requires i >= |logs|
    ensures KeysAt(logs, idx + {i}) == KeysAt(logs, idx)
  {
  }

  lemma KeysAtMono(logs: seq<Node>, a: set<nat>, b: set<nat>)
    requires a <= b
    ensures KeysAt(logs, a) <= KeysAt(logs, b)
  {
  }

  /** A path is catalogued from the positions `idx` exactly when one of those
      records has a flat leaf (a scalar or an empty array) at that path. */
  lemma KeysAtSpec(logs: seq<Node>, idx: set<nat>, p: string)
    ensures p in KeysAt(logs, idx) <==>
      exists i, a :: i in idx && i < |logs| && LeafAddress(logs[i], a) && PathAt(logs[i], "", a) == p
  {
    if p in KeysAt(logs, idx) {
      var i :| i in idx && i < |logs| && p in FlattenObject(logs[i]);
      FlattenObjectSpec(logs[i]);
      var a :| LeafAddress(logs[i], a) && PathAt(logs[i], "", a) == p && At(logs[i], a) == Some(FlattenObject(logs[i])[p]);
    }
    if exists i, a :: i in idx && i < |logs| && LeafAddress(logs[i], a) && PathAt(logs[i], "", a) == p {
      var i, a :| i in idx && i < |logs| && LeafAddress(logs[i], a) && PathAt(logs[i], "", a) == p;
      FlattenObjectSpec(logs[i]);
      assert p in FlattenObject(logs[i]);
    }
  }
}
