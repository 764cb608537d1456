/** Decoded records and the few JavaScript and lodash operations the engine
    applies to them: truthiness, `String()`, `Number()`, property access,
    `_.get` with a path string, object spread and property assignment. */
module Json {
  import opened Wrappers
  import opened Text

  datatype Scalar = Null | Bool(b: bool) | Num(n: int) | Str(s: string)

  /** A record tree. The entries of an object are its own properties in
      enumeration order; decoded JSON never repeats a key. */
  datatype Node = Leaf(v: Scalar) | Arr(items: seq<Node>) | Obj(fields: seq<(string, Node)>)

  const NullNode := Leaf(Null)

  /** JavaScript truthiness (JSON has no NaN, so only 0 is a falsy number). */
  predicate Truthy(n: Node) {
    match n
    case Leaf(Null) => false
    case Leaf(Bool(b)) => b
    case Leaf(Num(x)) => x != 0
    case Leaf(Str(s)) => s != []
    case _ => true
  }

  /** Truthiness of a value that may be `undefined`. */
  predicate TruthyOpt(v: Option<Node>) {
    v.Some? && Truthy(v.value)
  }

  /** `String(n)`. Arrays join their items with commas, writing null items as
      nothing; every object prints as "[object Object]". */
  function ToStr(n: Node): string
    decreases n, 1
  {
    match n
    case Leaf(Null) => "null"
    case Leaf(Bool(b)) => if b then "true" else "false"
    case Leaf(Num(x)) => IntToString(x)
    case Leaf(Str(s)) => s
    case Arr(_) => JoinFrom(n, 0)
    case Obj(_) => "[object Object]"
  }

  /** The text of the items of array `n` from index `from` on, comma separated. */
  function JoinFrom(n: Node, from: nat): string
    decreases n, 0, (if n.Arr? then |n.items| else 0) - from
  {
    match n
    case Arr(items) =>
      if from >= |items| then []
      else (if from > 0 then "," else "") + (if items[from] == NullNode then "" else ToStr(items[from]))
           + JoinFrom(n, from + 1)
    case _ => []
  }

  /** `Number(n)`; None stands for NaN. Arrays and objects convert through
      their `String()` text. */
  function ToNumber(n: Node): Option<int> {
    match n
    case Leaf(Null) => Some(0)
    case Leaf(Bool(b)) => Some(if b then 1 else 0)
    case Leaf(Num(x)) => Some(x)
    case Leaf(Str(s)) => StringToNumber(s)
    case _ => StringToNumber(ToStr(n))
  }

  /** An array index written canonically ("0", "17", but not "017"). */
  function CanonicalIndex(k: string): Option<nat> {
    if k != [] && AllDigits(k) && (k == "0" || k[0] != '0') then Some(DigitsValue(k)) else None
  }

  function FieldValue(fs: seq<(string, Node)>, key: string): Option<Node> {
    if fs == [] then None
    else if fs[0].0 == key then Some(fs[0].1)
    else FieldValue(fs[1..], key)
  }

  /** `n[key]` for an own data property or `length`; None is `undefined`.
      Strings and arrays answer canonical indices and `length` (a string's
      length counted in characters). Inherited properties are not modelled. */
  function Prop(n: Node, key: string): Option<Node> {
    match n
    case Obj(fs) => FieldValue(fs, key)
    case Arr(items) =>
      if key == "length" then Some(Leaf(Num(|items|)))
      else
        var i := CanonicalIndex(key);
        if i.Some? && i.value < |items| then Some(items[i.value]) else None
    case Leaf(Str(s)) =>
      if key == "length" then Some(Leaf(Num(|s|)))
      else
        var i := CanonicalIndex(key);
        if i.Some? && i.value < |s| then Some(Leaf(Str([s[i.value]]))) else None
    case _ => None
  }

  predicate IsPathDelimiter(c: char) {
    c == '.' || c == '[' || c == ']'
  }

  /** Whether some `[` is followed, further on, by a `]`. */
  predicate HasBracketPair(p: string)
    decreases |p|
  {
    p != [] && (if p[0] == '[' then ']' in p[1..] else HasBracketPair(p[1..]))
  }

  /** lodash's test for a path that has to be parsed: it holds a `.` or a
      bracketed part. */
  predicate IsDeepPath(p: string) {
    '.' in p || HasBracketPair(p)
  }

  /** The length of the run of non-delimiters `s` starts with. */
  function RunLength(s: string): (r: nat)
    ensures r <= |s|
    ensures s != [] && !IsPathDelimiter(s[0]) ==> r >= 1
    decreases |s|
  {
    if s == [] || IsPathDelimiter(s[0]) then 0 else 1 + RunLength(s[1..])
  }

  /** The length of the run of decimal digits `s` starts with. */
  function DigitRun(s: string): (r: nat)
    ensures r <= |s|
    decreases |s|
  {
    if s == [] || !IsDigit(s[0]) then 0 else 1 + DigitRun(s[1..])
  }

  /** A bracketed number at the start of `s` (`[7]`, `[-1]`, `[2.5]`): the
      position of its closing bracket. */
  function BracketNumberEnd(s: string): (r: Option<nat>)
    ensures r.Some? ==> 1 < r.value < |s| && s[r.value] == ']'
  {
    if s == [] || s[0] != '[' then None
    else
      var a := if |s| > 1 && s[1] == '-' then 2 else 1;
      var b := a + DigitRun(s[a..]);
      if b == a then None
      else
        var c := if b + 1 < |s| && s[b] == '.' && IsDigit(s[b + 1]) then b + 1 + DigitRun(s[b + 1..]) else b;
        if c < |s| && s[c] == ']' then Some(c) else None
  }

  /** What may follow an empty key: a `.`, an empty `[]`, or the end. */
  predicate EmptyKeyFollows(s: string) {
    s == [] || s[0] == '.' || (|s| > 1 && s[0] == '[' && s[1] == ']')
  }

  /** An empty key starts here: a `.` or an empty `[]` that is followed by
      another, or by the end. */
  predicate EmptyKeyAt(s: string) {
    || (s != [] && s[0] == '.' && EmptyKeyFollows(s[1..]))
    || (|s| > 1 && s[0] == '[' && s[1] == ']' && EmptyKeyFollows(s[2..]))
  }

  /** The keys lodash's path pattern finds in `s`, scanning from the left: a
      run of non-delimiters, a bracketed number, or an empty key; any other
      character is passed over. */
  function Pieces(s: string): seq<string>
    decreases |s|
  {
    if s == [] then []
    else if !IsPathDelimiter(s[0]) then
      var j := RunLength(s);
      [s[..j]] + Pieces(s[j..])
    else if BracketNumberEnd(s).Some? then
      var j := BracketNumberEnd(s).value;
      [s[1..j]] + Pieces(s[j + 1..])
    else if EmptyKeyAt(s) then [""] + Pieces(s[1..])
    else Pieces(s[1..])
  }

  /** lodash `stringToPath`: a leading `.` also stands for an empty first key. */
  function StringToPath(p: string): seq<string> {
    (if p != [] && p[0] == '.' then [""] else []) + Pieces(p)
  }

  /** lodash `castPath`: a path that is a property of the value itself, or
      that has no `.` and no bracketed part, is a single key. */
  function Segments(n: Node, path: string): seq<string> {
    if !IsDeepPath(path) || Prop(n, path).Some? then [path] else StringToPath(path)
  }

  function Walk(n: Node, keys: seq<string>): Option<Node>
    decreases |keys|
  {
    if keys == [] then Some(n)
    else match Prop(n, keys[0])
      case None => None
      case Some(c) => Walk(c, keys[1..])
  }

  /** `_.get(n, path)`: a path that parses to no keys reads `undefined`. */
  function Get(n: Node, path: string): Option<Node> {
    var keys := Segments(n, path);
    if keys == [] then None else Walk(n, keys)
  }

  // ---------------------------------------------------------------------------
  // What `_.get` reads

  /** A key of the record is read whole, dots and brackets included. */
  lemma GetWholeKey(n: Node, path: string)
    requires Prop(n, path).Some?
    ensures Get(n, path) == Prop(n, path)
  {
    assert Segments(n, path) == [path];
    var c := Prop(n, path).value;
    assert Walk(c, []) == Some(c);
    assert Walk(n, [path]) == Walk(c, [path][1..]);
  }

  /** Nothing can be read from `null`. */
  lemma GetOfNull(path: string)
    ensures Get(NullNode, path) == None
  {
  }

  /** A key without `.`, `[` or `]`. */
  predicate PlainKey(k: string) {
    forall i :: 0 <= i < |k| ==> !IsPathDelimiter(k[i])
  }

  /** Keys joined by dots, as `flattenObject` writes them. */
  function Dotted(ks: seq<string>): string
    requires |ks| >= 1
    decreases |ks|
  {
    if |ks| == 1 then ks[0] else ks[0] + "." + Dotted(ks[1..])
  }

  lemma {:induction false} RunOfKey(k: string, rest: string)
    requires PlainKey(k) && (rest == [] || IsPathDelimiter(rest[0]))
    ensures RunLength(k + rest) == |k|
    decreases |k|
  {
    if k != [] {
      assert (k + rest)[1..] == k[1..] + rest;
      RunOfKey(k[1..], rest);
    }
  }

  /** The keys after a dot are found one by one, empty keys included. */
  lemma {:induction false} PiecesAfterDot(ks: seq<string>)
    requires |ks| >= 1 && forall i :: 0 <= i < |ks| ==> PlainKey(ks[i])
    ensures Pieces("." + Dotted(ks)) == ks
    decreases |ks|
  {
    var s := "." + Dotted(ks);
    var rest := if |ks| == 1 then "" else "." + Dotted(ks[1..]);
    assert Dotted(ks) == ks[0] + rest;
    assert s[1..] == ks[0] + rest;
    if |ks| > 1 {
      PiecesAfterDot(ks[1..]);
      assert ks == [ks[0]] + ks[1..];
    }
    if ks[0] != [] {
      var t := ks[0] + rest;
      assert t[0] == ks[0][0];
      assert !EmptyKeyAt(s);
      assert Pieces(s) == Pieces(t);
      RunOfKey(ks[0], rest);
      assert t[..|ks[0]|] == ks[0] && t[|ks[0]|..] == rest;
      assert Pieces(t) == [ks[0]] + Pieces(rest);
    } else {
      assert s == "." + rest;
      assert EmptyKeyAt(s);
    }
  }

  /** A dotted path of two or more plain keys parses back to those keys, empty
      ones included (`"a."` is `a` then the empty key). */
  lemma StringToPathDotted(ks: seq<string>)
    requires |ks| >= 2 && forall i :: 0 <= i < |ks| ==> PlainKey(ks[i])
    ensures StringToPath(Dotted(ks)) == ks
  {
    var tail := "." + Dotted(ks[1..]);
    assert Dotted(ks) == ks[0] + tail;
    PiecesAfterDot(ks[1..]);
    if ks[0] != [] {
      var t := ks[0] + tail;
      RunOfKey(ks[0], tail);
      assert t[..|ks[0]|] == ks[0] && t[|ks[0]|..] == tail;
      assert t[0] == ks[0][0];
      assert Pieces(t) == [ks[0]] + Pieces(tail);
      assert ks == [ks[0]] + ks[1..];
    } else {
      assert Dotted(ks) == tail;
      assert ks == [""] + ks[1..];
    }
  }

  /** `_.get` on a dotted path of plain keys that is not itself a key of the
      record follows those keys one level at a time. */
  lemma GetDotted(n: Node, ks: seq<string>)
    requires |ks| >= 2 && forall i :: 0 <= i < |ks| ==> PlainKey(ks[i])
    requires Prop(n, Dotted(ks)).None?
    ensures Get(n, Dotted(ks)) == Walk(n, ks)
  {
    StringToPathDotted(ks);
    var tail := "." + Dotted(ks[1..]);
    assert Dotted(ks) == ks[0] + tail;
    assert Dotted(ks)[|ks[0]|] == '.';
  }

  /** An array index written by `flattenObject` (`[7]`) is read as that index. */
  lemma PiecesIndex(i: nat, rest: string)
    ensures Pieces("[" + NatToString(i) + "]" + rest) == [NatToString(i)] + Pieces(rest)
  {
    var d := NatToString(i);
    var s := "[" + d + "]" + rest;
    NatToStringRoundTrip(i);
    DigitRunOf(d, "]" + rest);
    assert s[1..] == d + ("]" + rest);
    assert s[1] == d[0];
    assert s[|d| + 1] == ']';
    assert BracketNumberEnd(s) == Some(|d| + 1);
    assert s[1..|d| + 1] == d;
    assert s[|d| + 2..] == rest;
  }

  lemma {:induction false} DigitRunOf(d: string, rest: string)
    requires AllDigits(d) && (rest == [] || !IsDigit(rest[0]))
    ensures DigitRun(d + rest) == |d|
    decreases |d|
  {
    if d != [] {
      assert (d + rest)[1..] == d[1..] + rest;
      DigitRunOf(d[1..], rest);
    }
  }

  /** `{...n}`: objects are copied; arrays and strings become objects keyed by
      index; every other value spreads to the empty object. */
  function Spread(n: Node): (r: Node)
    ensures r.Obj?
  {
    match n
    case Obj(_) => n
    case Arr(items) => Obj(seq(|items|, i requires 0 <= i < |items| => (NatToString(i), items[i])))
    case Leaf(Str(s)) => Obj(seq(|s|, i requires 0 <= i < |s| => (NatToString(i), Leaf(Str([s[i]])))))
    case _ => Obj([])
  }

  /** `o[key] = v` on an object's entries: an existing key keeps its place and
      takes the new value; a new key goes last. */
  function SetField(fs: seq<(string, Node)>, key: string, v: Node): seq<(string, Node)>
  {
    if fs == [] then [(key, v)]
    else if fs[0].0 == key then [(key, v)] + fs[1..]
    else [fs[0]] + SetField(fs[1..], key, v)
  }

  /** After `o[key] = v`, reading `key` gives `v` and every other key reads as before. */
  lemma {:induction false} SetFieldReads(fs: seq<(string, Node)>, key: string, v: Node, other: string)
    ensures FieldValue(SetField(fs, key, v), key) == Some(v)
    ensures other != key ==> FieldValue(SetField(fs, key, v), other) == FieldValue(fs, other)
  {
    if fs != [] && fs[0].0 != key {
      SetFieldReads(fs[1..], key, v, other);
    }
  }
}
