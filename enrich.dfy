// Header extraction, `enrichLogs` (src/utils/logHelpers.js): selected entries
// of `httpRequest.headers` are copied, under their own spelling, into a new
// top-level `header` object of each record.

module Enrich {
  import opened Wrappers
  import opened Seqs
  import opened Text
  import opened Json

  /** Extracted whatever the user asks for. */
  const DefaultHeaders: seq<string> := ["host", "user-agent", "referer", "x-forwarded-for"]

  const HeadersPath := "httpRequest.headers"

  /** The `TypeError`s the engine raises: `enrichLogs` reading `name` of a
      null entry, or calling `toLowerCase` on a truthy name that is not a
      string; and the worker's time window reading `timestamp` of a null
      record. */
  datatype TypeError = NullHeaderEntry | NameNotAString | NullRecordTimestamp

  /** The lower-case names to extract: the defaults, then the custom ones. */
  function HeadersToExtract(custom: seq<string>): (r: seq<string>)
    ensures forall n :: n in r <==> n in DefaultHeaders || exists c :: c in custom && n == Lower(c)
  {
    var lowered := seq(|custom|, i requires 0 <= i < |custom| => Lower(custom[i]));
    assert forall c :: c in custom ==> Lower(c) in lowered by {
      forall c | c in custom ensures Lower(c) in lowered {
        var i :| 0 <= i < |custom| && custom[i] == c;
        assert lowered[i] == Lower(c);
      }
    }
    DefaultHeaders + lowered
  }

  /** `h.name` when it is a string. */
  function NameOf(h: Node): Option<string> {
    match Prop(h, "name")
    case Some(Leaf(Str(s))) => Some(s)
    case _ => None
  }

  /** The entry makes the callback throw. */
  predicate Throws(h: Node) {
    h == NullNode
    || (TruthyOpt(Prop(h, "name")) && TruthyOpt(Prop(h, "value")) && NameOf(h).None?)
  }

  /** The name under which the entry is copied, if it is copied at all: it has
      a truthy value and a non-empty string name whose lower-case form is wanted. */
  function PickedName(h: Node, wanted: seq<string>): (r: Option<string>)
    ensures r.Some? ==> Prop(h, "value").Some? && r.value != [] && !Throws(h)
  {
    if h != NullNode && TruthyOpt(Prop(h, "name")) && TruthyOpt(Prop(h, "value"))
       && NameOf(h).Some? && Lower(NameOf(h).value) in wanted
    then NameOf(h)
    else None
  }

  /** The `forEach` over the header entries, folded into the object `acc`:
      the first throwing entry ends the walk. */
  function Extract(hs: seq<Node>, wanted: seq<string>, acc: seq<(string, Node)>): Result<seq<(string, Node)>, TypeError>
    decreases |hs|
  {
    if hs == [] then Ok(acc)
    else if hs[0] == NullNode then Err(NullHeaderEntry)
    else if Throws(hs[0]) then Err(NameNotAString)
    else match PickedName(hs[0], wanted)
      case Some(k) => Extract(hs[1..], wanted, SetField(acc, k, Prop(hs[0], "value").value))
      case None => Extract(hs[1..], wanted, acc)
  }

  /** One mapped record: the spread copy, plus `header` when anything was extracted. */
  function EnrichRecord(log: Node, wanted: seq<string>): Result<Node, TypeError> {
    var headers := Get(log, HeadersPath).GetOr(Arr([]));
    if !headers.Arr? then Ok(Spread(log))
    else match Extract(headers.items, wanted, [])
      case Err(e) => Err(e)
      case Ok(ex) => if ex == [] then Ok(Spread(log)) else Ok(Obj(SetField(Spread(log).fields, "header", Obj(ex))))
  }

  /** `logs.map(...)`: the first record that throws ends the map. */
  function EnrichAll(logs: seq<Node>, wanted: seq<string>): Result<seq<Node>, TypeError>
    decreases |logs|
  {
    if logs == [] then Ok([])
    else match EnrichRecord(logs[0], wanted)
      case Err(e) => Err(e)
      case Ok(x) => Prepend([x], EnrichAll(logs[1..], wanted))
  }

  function Prepend(xs: seq<Node>, r: Result<seq<Node>, TypeError>): Result<seq<Node>, TypeError> {
    match r
    case Err(e) => Err(e)
    case Ok(rest) => Ok(xs + rest)
  }

  lemma EnrichAllCons(logs: seq<Node>, wanted: seq<string>)
    requires logs != []
    ensures EnrichRecord(logs[0], wanted).Err? ==> EnrichAll(logs, wanted) == Err(EnrichRecord(logs[0], wanted).error)
    ensures EnrichRecord(logs[0], wanted).Ok? ==>
      EnrichAll(logs, wanted) == Prepend([EnrichRecord(logs[0], wanted).value], EnrichAll(logs[1..], wanted))
  {
  }

  lemma PrependNothing(r: Result<seq<Node>, TypeError>)
    ensures Prepend([], r) == r
  {
    if r.Ok? {
      assert [] + r.value == r.value;
    }
  }

  lemma PrependTwice(out: seq<Node>, x: Node, r: Result<seq<Node>, TypeError>)
    ensures Prepend(out, Prepend([x], r)) == Prepend(out + [x], r)
  {
    if r.Ok? {
      assert out + ([x] + r.value) == (out + [x]) + r.value;
    }
  }

  /** The value the last copied entry named `k` carries, or `d` when none is. */
  function LastPicked(hs: seq<Node>, wanted: seq<string>, k: string, d: Option<Node>): Option<Node>
    decreases |hs|
  {
    if hs == [] then d
    else if PickedName(hs[|hs| - 1], wanted) == Some(k) then Prop(hs[|hs| - 1], "value")
    else LastPicked(hs[..|hs| - 1], wanted, k, d)
  }

  // ---------------------------------------------------------------------------
  // The imperative code

  /** The `headers.forEach` callback writing into `extractedHeaders`. */
  method ExtractHeaders(hs: seq<Node>, wanted: seq<string>) returns (r: Result<seq<(string, Node)>, TypeError>)
    ensures r == Extract(hs, wanted, [])
  {
    var extracted: seq<(string, Node)> := [];
    var i := 0;
    while i < |hs|
      invariant 0 <= i <= |hs|
      invariant Extract(hs[i..], wanted, extracted) == Extract(hs, wanted, [])
    {
      var h := hs[i];
      assert hs[i..][1..] == hs[i + 1..];
      if h == NullNode {
        return Err(NullHeaderEntry);
      }
      var name, value := Prop(h, "name"), Prop(h, "value");
      if TruthyOpt(name) && TruthyOpt(value) {
        if !name.value.Leaf? || !name.value.v.Str? {
          return Err(NameNotAString);
        }
        assert NameOf(h) == Some(name.value.v.s);
        var lower := Lower(name.value.v.s);
        if lower in wanted {
          extracted := SetField(extracted, name.value.v.s, value.value);
        }
      }
      i := i + 1;
    }
    r := Ok(extracted);
  }

  /** The `logs.map` callback for one record. */
  method EnrichLog(log: Node, wanted: seq<string>) returns (r: Result<Node, TypeError>)
    ensures r == EnrichRecord(log, wanted)
  {
    var newLog := Spread(log);
    var headers := Get(log, HeadersPath).GetOr(Arr([]));
    if headers.Arr? {
      var extracted := ExtractHeaders(headers.items, wanted);
      if extracted.Err? {
        return Err(extracted.error);
      }
      if |extracted.value| > 0 {
        newLog := Obj(SetField(newLog.fields, "header", Obj(extracted.value)));
      }
    }
    r := Ok(newLog);
  }

  /** `enrichLogs(logs, customHeaders)`. */
  method EnrichLogs(logs: seq<Node>, customHeaders: seq<string>) returns (r: Result<seq<Node>, TypeError>)
    ensures r == EnrichAll(logs, HeadersToExtract(customHeaders))
  {
    var wanted := HeadersToExtract(customHeaders);
    var out: seq<Node> := [];
    var i := 0;
    assert logs[0..] == logs;
    PrependNothing(EnrichAll(logs, wanted));
    while i < |logs|
      invariant 0 <= i <= |logs|
      invariant Prepend(out, EnrichAll(logs[i..], wanted)) == EnrichAll(logs, wanted)
    {
      var x := EnrichLog(logs[i], wanted);
      EnrichAllCons(logs[i..], wanted);
      assert logs[i..][0] == logs[i] && logs[i..][1..] == logs[i + 1..];
      if x.Err? {
        assert EnrichAll(logs[i..], wanted) == Err(x.error);
        return Err(x.error);
      }
      PrependTwice(out, x.value, EnrichAll(logs[i + 1..], wanted));
      out := out + [x.value];
      i := i + 1;
    }
    assert logs[i..] == [];
    assert out + [] == out;
    r := Ok(out);
  }

  // ---------------------------------------------------------------------------
  // What enrichment promises

  /** The map keeps the records' number and order, and fails exactly when
      some record's headers make the callback throw. */
  lemma {:induction false} EnrichAllSpec(logs: seq<Node>, wanted: seq<string>)
    ensures EnrichAll(logs, wanted).Err? <==> exists i :: 0 <= i < |logs| && EnrichRecord(logs[i], wanted).Err?
    ensures EnrichAll(logs, wanted).Ok? ==>
      |EnrichAll(logs, wanted).value| == |logs|
      && forall i :: 0 <= i < |logs| ==> EnrichRecord(logs[i], wanted) == Ok(EnrichAll(logs, wanted).value[i])
    decreases |logs|
  {
    if logs != [] {
      EnrichAllSpec(logs[1..], wanted);
      if EnrichRecord(logs[0], wanted).Ok? && EnrichAll(logs[1..], wanted).Ok? {
        var rest := EnrichAll(logs[1..], wanted).value;
        forall i | 0 < i < |logs| ensures EnrichRecord(logs[i], wanted) == Ok(EnrichAll(logs, wanted).value[i]) {
          assert logs[1..][i - 1] == logs[i];
        }
      }
      if EnrichAll(logs[1..], wanted).Err? {
        var i :| 0 <= i < |logs[1..]| && EnrichRecord(logs[1..][i], wanted).Err?;
        assert logs[i + 1] == logs[1..][i];
      }
      if exists i :: 0 <= i < |logs| && EnrichRecord(logs[i], wanted).Err? {
        var i :| 0 <= i < |logs| && EnrichRecord(logs[i], wanted).Err?;
        if i > 0 {
          assert logs[1..][i - 1] == logs[i];
        }
      }
    }
  }

  /** The walk over the entries fails exactly when one of them throws. */
  lemma {:induction false} ExtractFailsIff(hs: seq<Node>, wanted: seq<string>, acc: seq<(string, Node)>)
    ensures Extract(hs, wanted, acc).Err? <==> exists j :: 0 <= j < |hs| && Throws(hs[j])
    decreases |hs|
  {
    if hs != [] && !Throws(hs[0]) {
      var next := if PickedName(hs[0], wanted).Some?
        then SetField(acc, PickedName(hs[0], wanted).value, Prop(hs[0], "value").value) else acc;
      ExtractFailsIff(hs[1..], wanted, next);
      if exists j :: 0 <= j < |hs| && Throws(hs[j]) {
        var j :| 0 <= j < |hs| && Throws(hs[j]);
        assert hs[1..][j - 1] == hs[j];
      }
      if exists j :: 0 <= j < |hs[1..]| && Throws(hs[1..][j]) {
        var j :| 0 <= j < |hs[1..]| && Throws(hs[1..][j]);
        assert hs[j + 1] == hs[1..][j];
      }
    }
  }

  lemma {:induction false} LastPickedFirst(hs: seq<Node>, wanted: seq<string>, k: string, d: Option<Node>)
    requires hs != []
    ensures LastPicked(hs, wanted, k, d)
         == LastPicked(hs[1..], wanted, k, if PickedName(hs[0], wanted) == Some(k) then Prop(hs[0], "value") else d)
    decreases |hs|
  {
    if |hs| > 1 {
      var n := |hs|;
      assert hs[1..][|hs[1..]| - 1] == hs[n - 1];
      if PickedName(hs[n - 1], wanted) != Some(k) {
        LastPickedFirst(hs[..n - 1], wanted, k, d);
        assert hs[..n - 1][1..] == hs[1..][..|hs[1..]| - 1];
      }
    }
  }

  /** After the walk, every name reads the value of the LAST entry copied
      under that name, or what the object held before. */
  lemma {:induction false} ExtractReads(hs: seq<Node>, wanted: seq<string>, acc: seq<(string, Node)>, k: string)
    requires Extract(hs, wanted, acc).Ok?
    ensures FieldValue(Extract(hs, wanted, acc).value, k) == LastPicked(hs, wanted, k, FieldValue(acc, k))
    decreases |hs|
  {
    if hs != [] {
      LastPickedFirst(hs, wanted, k, FieldValue(acc, k));
      match PickedName(hs[0], wanted)
      case Some(k') =>
        var v := Prop(hs[0], "value").value;
        SetFieldReads(acc, k', v, k);
        ExtractReads(hs[1..], wanted, SetField(acc, k', v), k);
      case None =>
        ExtractReads(hs[1..], wanted, acc, k);
    }
  }

  /** Some entry is copied under `k` exactly when the last such one is found. */
  lemma {:induction false} LastPickedFound(hs: seq<Node>, wanted: seq<string>, k: string)
    ensures LastPicked(hs, wanted, k, None).Some? <==> exists j :: 0 <= j < |hs| && PickedName(hs[j], wanted) == Some(k)
    decreases |hs|
  {
    if hs != [] {
      var n := |hs|;
      var init := hs[..n - 1];
      LastPickedFound(init, wanted, k);
      if exists j :: 0 <= j < |hs| && PickedName(hs[j], wanted) == Some(k) {
        var j :| 0 <= j < |hs| && PickedName(hs[j], wanted) == Some(k);
        if j < n - 1 {
          assert init[j] == hs[j];
        }
      }
      if exists j :: 0 <= j < |init| && PickedName(init[j], wanted) == Some(k) {
        var j :| 0 <= j < |init| && PickedName(init[j], wanted) == Some(k);
        assert init[j] == hs[j];
      }
    }
  }

  lemma {:induction false} EmptyIffNoKeys(fs: seq<(string, Node)>)
    ensures fs == [] <==> forall k :: FieldValue(fs, k) == None
  {
    if fs != [] {
      assert FieldValue(fs, fs[0].0).Some?;
    }
  }

  /** What one enriched record holds, when enrichment succeeds:
      it is an object; every property other than `header` reads as in the
      spread copy of the record; and if some header entry was copied, `header`
      is an object in which each name reads the value of the last entry copied
      under it, while otherwise `header` too reads as in the copy. */
  lemma EnrichRecordSpec(log: Node, wanted: seq<string>, k: string, name: string)
    requires EnrichRecord(log, wanted).Ok?
    ensures EnrichRecord(log, wanted).value.Obj?
    ensures k != "header" ==> FieldValue(EnrichRecord(log, wanted).value.fields, k) == FieldValue(Spread(log).fields, k)
    ensures var headers := Get(log, HeadersPath).GetOr(Arr([]));
      var out := FieldValue(EnrichRecord(log, wanted).value.fields, "header");
      if headers.Arr? && exists j, n :: 0 <= j < |headers.items| && PickedName(headers.items[j], wanted) == Some(n)
      then out.Some? && out.value.Obj? && FieldValue(out.value.fields, name) == LastPicked(headers.items, wanted, name, None)
      else out == FieldValue(Spread(log).fields, "header")
  {
    var headers := Get(log, HeadersPath).GetOr(Arr([]));
    if headers.Arr? {
      var ex := Extract(headers.items, wanted, []).value;
      EmptyIffNoKeys(ex);
      ExtractReads(headers.items, wanted, [], name);
      if ex != [] {
        SetFieldReads(Spread(log).fields, "header", Obj(ex), k);
        var n :| FieldValue(ex, n) != None;
        ExtractReads(headers.items, wanted, [], n);
        LastPickedFound(headers.items, wanted, n);
      } else {
        if exists j, n :: 0 <= j < |headers.items| && PickedName(headers.items[j], wanted) == Some(n) {
          var j, n :| 0 <= j < |headers.items| && PickedName(headers.items[j], wanted) == Some(n);
          ExtractReads(headers.items, wanted, [], n);
          LastPickedFound(headers.items, wanted, n);
          assert false;
        }
      }
    }
  }

  /** A record fails to enrich exactly when its headers value is an array
      holding an entry that throws. */
  lemma EnrichRecordFails(log: Node, wanted: seq<string>)
    ensures var headers := Get(log, HeadersPath).GetOr(Arr([]));
      EnrichRecord(log, wanted).Err? <==> headers.Arr? && exists j :: 0 <= j < |headers.items| && Throws(headers.items[j])
  {
    var headers := Get(log, HeadersPath).GetOr(Arr([]));
    if headers.Arr? {
      ExtractFailsIff(headers.items, wanted, []);
    }
  }

  /** Matching ignores case on both sides: an entry whose name differs from a
      custom header only in letter case is still copied, under its own spelling. */
  lemma CustomHeaderMatches(h: Node, custom: seq<string>, c: string, s: string)
    requires c in custom
    requires Prop(h, "name") == Some(Leaf(Str(s))) && s != [] && TruthyOpt(Prop(h, "value"))
    requires Lower(s) == Lower(c)
    ensures PickedName(h, HeadersToExtract(custom)) == Some(s)
  {
  }
}
