/** The query codec of router.js: `getParameters` parses a query string into a
    multi-valued map, `getParameterByKey` looks one key up in it, and `buildQuery`
    writes a map back as a query string. `decode` and `encode` stand for the host's
    `decodeURIComponent` and `encodeURIComponent`. */
module Query {
  import opened Wrappers
  import opened Strings

  /** One parsed value: `None` is `undefined`, what a segment without `=` yields. */
  type Value = Option<string>

  /** One key of the parameter object with the list of its values. */
  datatype Entry = Entry(key: string, values: seq<Value>)

  /** The parameter object, as its entries in key-insertion order. */
  type ParameterMap = seq<Entry>

  function Keys(m: ParameterMap): seq<string>
  {
    seq(|m|, i requires 0 <= i < |m| => m[i].key)
  }

  /** A JavaScript object never holds one key twice. */
  ghost predicate DistinctKeys(m: ParameterMap)
  {
    forall i, j | 0 <= i < j < |m| :: m[i].key != m[j].key
  }

  /** Where `key` sits in `m`, if anywhere (the first place it does). */
  function KeyIndex(m: ParameterMap, key: string): (r: Option<nat>)
    ensures r.None? <==> forall j | 0 <= j < |m| :: m[j].key != key
    ensures r.Some? ==> r.value < |m| && m[r.value].key == key
    ensures r.Some? ==> forall j | 0 <= j < r.value :: m[j].key != key
  {
    if m == [] then None
    else if m[0].key == key then Some(0)
    else match KeyIndex(m[1..], key)
      case None => None
      case Some(i) => Some(i + 1)
  }

  /** `m[key]`: the values stored under `key`, or `undefined`. */
  function Lookup(m: ParameterMap, key: string): Option<seq<Value>>
  {
    match KeyIndex(m, key)
    case None => None
    case Some(i) => Some(m[i].values)
  }

  /** `m[key] || []`. */
  function ValuesOrEmpty(m: ParameterMap, key: string): seq<Value>
  {
    match Lookup(m, key)
    case None => []
    case Some(vs) => vs
  }

  /** `(qd[k] = qd[k] || []).push(v)`. */
  function AddValue(m: ParameterMap, key: string, v: Value): ParameterMap
  {
    match KeyIndex(m, key)
    case None => m + [Entry(key, [v])]
    case Some(i) => m[i := Entry(key, m[i].values + [v])]
  }

  /** The total number of values stored in `m`. */
  function TotalValues(m: ParameterMap): nat
  {
    if m == [] then 0 else TotalValues(m[..|m| - 1]) + |m[|m| - 1].values|
  }

  // ---------------------------------------------------------------------------
  // getParameters

  /** `item.split('=')[0]`: the key of a segment, left undecoded. It is the text
      before the first `=`, or the whole segment when there is none. */
  function SegmentKey(segment: string): (key: string)
    ensures '=' !in key
    ensures |key| <= |segment| && segment[..|key|] == key
    ensures |key| < |segment| ==> segment[|key|] == '='
  {
    SplitFirstPiece(segment, '=');
    Split(segment, '=')[0]
  }

  /** `s[1] && decodeURIComponent(s[1])` with `s = item.split('=')`: `undefined` when the
      segment has no `=`, the empty string undecoded, otherwise the decoded text between
      the first and the second `=` (text after a second `=` is dropped). */
  function SegmentValue(segment: string, decode: string -> string): (v: Value)
    ensures v.None? <==> '=' !in segment
    ensures '=' in segment ==>
      var field := Split(segment[|SegmentKey(segment)| + 1..], '=')[0];
      v == if field == "" then Some("") else Some(decode(field))
  {
    SplitFirstPiece(segment, '=');
    var fields := Split(segment, '=');
    if |fields| < 2 then None
    else
      SplitAfterFirst(segment, '=');
      if fields[1] == "" then Some("") else Some(decode(fields[1]))
  }

  /** The parameter object after the `forEach` has visited `segments`, starting from `acc`. */
  function Accumulate(acc: ParameterMap, segments: seq<string>, decode: string -> string): ParameterMap
  {
    if segments == [] then acc
    else
      var last := segments[|segments| - 1];
      AddValue(Accumulate(acc, segments[..|segments| - 1], decode), SegmentKey(last), SegmentValue(last, decode))
  }

  /** What `getParameters(query)` returns. */
  function ParseQuery(query: string, decode: string -> string): ParameterMap
  {
    Accumulate([], Split(query, '&'), decode)
  }

  /** The query `getParameters` and `getParameterByKey` work on: the argument when it is
      a string, otherwise `window.location.search.substring(1)`. */
  function QueryArgument(query: Option<string>, locationSearch: string): string
  {
    match query
    case Some(q) => q
    case None => if |locationSearch| >= 1 then locationSearch[1..] else ""
  }

  /** `getParameters`: one pass over the `&`-separated segments, each one pushed under
      its key. */
  method GetParameters(query: Option<string>, locationSearch: string, decode: string -> string)
    returns (qd: ParameterMap)
    ensures qd == ParseQuery(QueryArgument(query, locationSearch), decode)
    ensures DistinctKeys(qd)
    ensures TotalValues(qd) == |Split(QueryArgument(query, locationSearch), '&')|
  {
    var items := Split(QueryArgument(query, locationSearch), '&');
    qd := [];
    for i := 0 to |items|
      invariant qd == Accumulate([], items[..i], decode)
    {
      assert items[..i + 1][..i] == items[..i];
      qd := AddValue(qd, SegmentKey(items[i]), SegmentValue(items[i], decode));
    }
    assert items[..|items|] == items;
    AccumulateDistinct(items, decode);
    AccumulateCount(items, decode);
  }

  // ---------------------------------------------------------------------------
  // What the parsed object holds

  /** The keys of `segments` in order, repeats included. */
  function SegmentKeys(segments: seq<string>): seq<string>
  {
    seq(|segments|, i requires 0 <= i < |segments| => SegmentKey(segments[i]))
  }

  /** `keys` without repeats, each key where it is first seen. */
  function FirstSeen(keys: seq<string>): (r: seq<string>)
    ensures forall k :: k in r <==> k in keys
    ensures forall i, j | 0 <= i < j < |r| :: r[i] != r[j]
  {
    if keys == [] then []
    else
      var earlier := FirstSeen(keys[..|keys| - 1]);
      var k := keys[|keys| - 1];
      assert forall x :: x in keys <==> x in keys[..|keys| - 1] || x == k by {
        assert keys == keys[..|keys| - 1] + [k];
      }
      if k in earlier then earlier else earlier + [k]
  }

  /** The values of the segments whose key is `key`, in segment order. */
  function ValuesFor(segments: seq<string>, key: string, decode: string -> string): seq<Value>
  {
    if segments == [] then []
    else
      var last := segments[|segments| - 1];
      ValuesFor(segments[..|segments| - 1], key, decode)
        + (if SegmentKey(last) == key then [SegmentValue(last, decode)] else [])
  }

  lemma KeyIndexAppend(m: ParameterMap, e: Entry, key: string)
    ensures KeyIndex(m + [e], key) ==
      if KeyIndex(m, key).Some? then KeyIndex(m, key)
      else if e.key == key then Some(|m|) else None
  {
    var r := KeyIndex(m + [e], key);
    var s := KeyIndex(m, key);
    if s.Some? {
      assert (m + [e])[s.value].key == key;
    } else if e.key == key {
      assert (m + [e])[|m|].key == key;
    }
  }

  lemma KeyIndexSameKeys(m: ParameterMap, m': ParameterMap, key: string)
    requires |m| == |m'| && forall i | 0 <= i < |m| :: m[i].key == m'[i].key
    ensures KeyIndex(m, key) == KeyIndex(m', key)
  {
  }

  /** Adding a value keeps the keys distinct, adds its key at the end when it is new,
      and stores one more value. */
  lemma AddValueEffect(m: ParameterMap, key: string, v: Value)
    requires DistinctKeys(m)
    ensures var m' := AddValue(m, key, v);
      && DistinctKeys(m')
      && Keys(m') == (if key in Keys(m) then Keys(m) else Keys(m) + [key])
      && TotalValues(m') == TotalValues(m) + 1
  {
    var m' := AddValue(m, key, v);
    match KeyIndex(m, key)
    case None =>
      assert key !in Keys(m);
      assert Keys(m') == Keys(m) + [key];
      assert m'[..|m'| - 1] == m;
    case Some(i) =>
      assert key in Keys(m) by { assert Keys(m)[i] == key; }
      assert Keys(m') == Keys(m);
      TotalValuesUpdate(m, i, Entry(key, m[i].values + [v]));
  }

  /** Adding a value touches only its own key, whose list grows by the value at the end. */
  lemma LookupAfterAdd(m: ParameterMap, key: string, v: Value, k: string)
    ensures Lookup(AddValue(m, key, v), k) ==
      if k != key then Lookup(m, k) else Some(ValuesOrEmpty(m, key) + [v])
  {
    var m' := AddValue(m, key, v);
    match KeyIndex(m, key)
    case None =>
      KeyIndexAppend(m, Entry(key, [v]), k);
      if k == key {
        assert Lookup(m', k) == Some([v]);
        assert ValuesOrEmpty(m, key) + [v] == [v];
      } else if KeyIndex(m, k).Some? {
        assert m'[KeyIndex(m, k).value] == m[KeyIndex(m, k).value];
      }
    case Some(i) =>
      KeyIndexSameKeys(m, m', k);
      if k == key {
        assert Lookup(m, key) == Some(m[i].values);
        assert Lookup(m', k) == Some(m'[i].values);
      } else if KeyIndex(m, k).Some? {
        assert m'[KeyIndex(m, k).value] == m[KeyIndex(m, k).value];
      }
  }

  lemma {:induction false} TotalValuesUpdate(m: ParameterMap, i: nat, e: Entry)
    requires i < |m|
    ensures TotalValues(m[i := e]) == TotalValues(m) - |m[i].values| + |e.values|
    decreases |m|
  {
    var n := |m| - 1;
    if i < n {
      TotalValuesUpdate(m[..n], i, e);
      assert m[i := e][..n] == m[..n][i := e];
    } else {
      assert m[i := e][..n] == m[..n];
    }
  }

  lemma {:induction false} AccumulateDistinct(segments: seq<string>, decode: string -> string)
    ensures DistinctKeys(Accumulate([], segments, decode))
  {
    if segments != [] {
      var last := segments[|segments| - 1];
      AccumulateDistinct(segments[..|segments| - 1], decode);
      AddValueEffect(Accumulate([], segments[..|segments| - 1], decode), SegmentKey(last), SegmentValue(last, decode));
    }
  }

  /** Every `&`-separated segment stores exactly one value. */
  lemma {:induction false} AccumulateCount(segments: seq<string>, decode: string -> string)
    ensures TotalValues(Accumulate([], segments, decode)) == |segments|
  {
    if segments != [] {
      var last := segments[|segments| - 1];
      AccumulateDistinct(segments[..|segments| - 1], decode);
      AccumulateCount(segments[..|segments| - 1], decode);
      AddValueEffect(Accumulate([], segments[..|segments| - 1], decode), SegmentKey(last), SegmentValue(last, decode));
    }
  }

  /** The keys of the parsed object are the segment keys, undecoded, in first-seen order. */
  lemma {:induction false} AccumulateKeys(segments: seq<string>, decode: string -> string)
    ensures Keys(Accumulate([], segments, decode)) == FirstSeen(SegmentKeys(segments))
  {
    if segments != [] {
      var n := |segments| - 1;
      var k := SegmentKey(segments[n]);
      AccumulateDistinct(segments[..n], decode);
      AccumulateKeys(segments[..n], decode);
      var earlier := Accumulate([], segments[..n], decode);
      var v := SegmentValue(segments[n], decode);
      assert Accumulate([], segments, decode) == AddValue(earlier, k, v);
      AddKeyFirstSeen(earlier, SegmentKeys(segments[..n]), k, v);
      assert SegmentKeys(segments) == SegmentKeys(segments[..n]) + [k];
    }
  }

  /** One step of `AccumulateKeys`: adding a value under `k` extends the first-seen keys. */
  lemma AddKeyFirstSeen(m: ParameterMap, keys: seq<string>, k: string, v: Value)
    requires DistinctKeys(m) && Keys(m) == FirstSeen(keys)
    ensures Keys(AddValue(m, k, v)) == FirstSeen(keys + [k])
  {
    AddValueEffect(m, k, v);
    assert (keys + [k])[..|keys|] == keys;
  }

  /** Under each key the parsed object holds the values of that key's segments, in
      segment order; a key no segment has is absent. */
  lemma {:induction false} AccumulateValues(segments: seq<string>, key: string, decode: string -> string)
    ensures Lookup(Accumulate([], segments, decode), key) ==
      if ValuesFor(segments, key, decode) == [] then None else Some(ValuesFor(segments, key, decode))
  {
    if segments != [] {
      var n := |segments| - 1;
      var earlier := Accumulate([], segments[..n], decode);
      var k, v := SegmentKey(segments[n]), SegmentValue(segments[n], decode);
      var before := ValuesFor(segments[..n], key, decode);
      var after := ValuesFor(segments, key, decode);
      AccumulateValues(segments[..n], key, decode);
      assert Lookup(earlier, key) == if before == [] then None else Some(before);
      LookupAfterAdd(earlier, k, v, key);
      assert Accumulate([], segments, decode) == AddValue(earlier, k, v);
      if k == key {
        assert after == before + [v];
        assert ValuesOrEmpty(earlier, key) == before;
      } else {
        assert after == before;
      }
    }
  }

  /** What `getParameters(query)` holds: one value per `&`-separated segment, the keys
      undecoded in first-seen order, and under each key its segments' values in order. */
  lemma ParseQueryContents(query: string, key: string, decode: string -> string)
    ensures var segments := Split(query, '&');
      && DistinctKeys(ParseQuery(query, decode))
      && TotalValues(ParseQuery(query, decode)) == |segments|
      && Keys(ParseQuery(query, decode)) == FirstSeen(SegmentKeys(segments))
      && Lookup(ParseQuery(query, decode), key) ==
           if ValuesFor(segments, key, decode) == [] then None else Some(ValuesFor(segments, key, decode))
  {
    var segments := Split(query, '&');
    AccumulateDistinct(segments, decode);
    AccumulateCount(segments, decode);
    AccumulateKeys(segments, decode);
    AccumulateValues(segments, key, decode);
  }

  /** `getParameters("")` is `{"": [undefined]}`. */
  lemma ParseEmptyQuery(decode: string -> string)
    ensures ParseQuery("", decode) == [Entry("", [None])]
  {
    assert Split("", '=') == [""];
  }

  /** `getParameters("a=b=c")` is `{a: [decode("b")]}`: text after a second `=` is lost. */
  lemma ParseExtraEquals(decode: string -> string)
    ensures ParseQuery("a=b=c", decode) == [Entry("a", [Some(decode("b"))])]
  {
    assert Split("a=b=c", '&') == ["a=b=c"] by {
      SplitFirstPiece("a=b=c", '&');
    }
    SplitJoin(["a", "b", "c"], '=');
    assert Join(["a", "b", "c"], '=') == "a=b=c";
    assert [Entry("a", [Some(decode("b"))])][..0] == [];
  }

  lemma AccumulateOneMore(segments: seq<string>, segment: string, decode: string -> string)
    ensures Accumulate([], segments + [segment], decode) ==
      AddValue(Accumulate([], segments, decode), SegmentKey(segment), SegmentValue(segment, decode))
  {
    assert (segments + [segment])[..|segments|] == segments;
  }

  lemma SplitRepeatedKeys(query: string)
    requires query == "a=1&a=2&b="
    ensures Split(query, '&') == ["a=1", "a=2", "b="]
  {
    SplitJoin(["a=1", "a=2", "b="], '&');
    assert Join(["a=1", "a=2", "b="], '&') == "a=1&a=2&b=";
  }

  lemma AccumulateRepeatedKey(decode: string -> string)
    ensures Accumulate([], ["a=1", "a=2"], decode) == [Entry("a", [Some(decode("1")), Some(decode("2"))])]
  {
    var segments := ["a=1", "a=2"];
    SegmentParses("a", "1", decode);
    SegmentParses("a", "2", decode);
    var one := [Entry("a", [Some(decode("1"))])];
    assert Accumulate([], segments[..1], decode) == one by {
      assert segments[..1][..0] == [];
      assert AddValue([], "a", Some(decode("1"))) == one;
    }
    assert Accumulate([], segments, decode) == AddValue(one, "a", Some(decode("2")));
    assert KeyIndex(one, "a") == Some(0);
    assert [Some(decode("1"))] + [Some(decode("2"))] == [Some(decode("1")), Some(decode("2"))];
  }

  lemma SegmentWithEmptyValue(decode: string -> string)
    ensures SegmentKey("b=") == "b" && SegmentValue("b=", decode) == Some("")
  {
    SplitJoin(["b", ""], '=');
    assert Join(["b", ""], '=') == "b=";
  }

  /** `getParameters("a=1&a=2&b=")` is `{a: [decode("1"), decode("2")], b: [""]}`:
      repeated keys accumulate in order and an empty value stays `""`. */
  lemma ParseRepeatedKeys(query: string, decode: string -> string)
    requires query == "a=1&a=2&b="
    ensures ParseQuery(query, decode) ==
      [Entry("a", [Some(decode("1")), Some(decode("2"))]), Entry("b", [Some("")])]
  {
    SplitRepeatedKeys(query);
    AccumulateRepeatedKey(decode);
    SegmentWithEmptyValue(decode);
    AccumulateOneMore(["a=1", "a=2"], "b=", decode);
    assert ["a=1", "a=2"] + ["b="] == ["a=1", "a=2", "b="];
    var two := [Entry("a", [Some(decode("1")), Some(decode("2"))])];
    assert KeyIndex(two, "b") == None;
  }

  // ---------------------------------------------------------------------------
  // getParameterByKey

  /** `getParameterByKey(key, query)`: the values of `key`'s segments in order, or
      `undefined` when no segment has that key. */
  method GetParameterByKey(key: string, query: Option<string>, locationSearch: string, decode: string -> string)
    returns (r: Option<seq<Value>>)
    ensures var segments := Split(QueryArgument(query, locationSearch), '&');
      && (r.None? <==> key !in SegmentKeys(segments))
      && (r.Some? ==> r.value == ValuesFor(segments, key, decode))
  {
    var parameters := GetParameters(query, locationSearch, decode);
    r := Lookup(parameters, key);
    var segments := Split(QueryArgument(query, locationSearch), '&');
    ParseQueryContents(QueryArgument(query, locationSearch), key, decode);
    ValuesForEmpty(segments, key, decode);
  }

  lemma {:induction false} ValuesForEmpty(segments: seq<string>, key: string, decode: string -> string)
    ensures ValuesFor(segments, key, decode) == [] <==> key !in SegmentKeys(segments)
  {
    if segments != [] {
      var n := |segments| - 1;
      ValuesForEmpty(segments[..n], key, decode);
      assert SegmentKeys(segments) == SegmentKeys(segments[..n]) + [SegmentKey(segments[n])];
    }
  }

  // ---------------------------------------------------------------------------
  // buildQuery

  /** JavaScript truthiness of a value: `undefined` and `""` are falsy. */
  predicate Truthy(v: Value)
  {
    v.Some? && v.value != ""
  }

  /** The truthy values of `values`, in order. */
  function TruthyValues(values: seq<Value>): (r: seq<Value>)
    ensures forall i | 0 <= i < |r| :: Truthy(r[i])
  {
    if values == [] then []
    else
      var last := values[|values| - 1];
      TruthyValues(values[..|values| - 1]) + (if Truthy(last) then [last] else [])
  }

  /** The parameter object with its falsy values dropped and the keys left with no value removed. */
  function Filter(m: ParameterMap): ParameterMap
  {
    if m == [] then []
    else
      var last := m[|m| - 1];
      var kept := TruthyValues(last.values);
      Filter(m[..|m| - 1]) + (if kept == [] then [] else [Entry(last.key, kept)])
  }

  /** Every value of the parameter object is falsy. */
  ghost predicate AllFalsy(m: ParameterMap)
  {
    forall i | 0 <= i < |m| :: NoneTruthy(m[i].values)
  }

  ghost predicate NoneTruthy(values: seq<Value>)
  {
    forall j | 0 <= j < |values| :: !Truthy(values[j])
  }

  /** The (key, value) pairs `buildQuery` emits for one key: one per truthy value, in order. */
  function EntryPairs(key: string, values: seq<Value>): (ps: seq<(string, string)>)
    ensures |ps| == |TruthyValues(values)|
    ensures forall i | 0 <= i < |ps| :: ps[i] == (key, TruthyValues(values)[i].value)
  {
    if values == [] then []
    else
      var last := values[|values| - 1];
      EntryPairs(key, values[..|values| - 1]) + (if Truthy(last) then [(key, last.value)] else [])
  }

  /** The (key, value) pairs `buildQuery` emits: keys in map order, then values in list order. */
  function EmittedPairs(m: ParameterMap): (ps: seq<(string, string)>)
    ensures forall i | 0 <= i < |ps| :: ps[i].1 != ""
  {
    if m == [] then []
    else EmittedPairs(m[..|m| - 1]) + EntryPairs(m[|m| - 1].key, m[|m| - 1].values)
  }

  /** `encodeURIComponent(key) + '=' + encodeURIComponent(value)`. */
  function SegmentOf(p: (string, string), encode: string -> string): string
  {
    encode(p.0) + "=" + encode(p.1)
  }

  function Segments(ps: seq<(string, string)>, encode: string -> string): seq<string>
  {
    seq(|ps|, i requires 0 <= i < |ps| => SegmentOf(ps[i], encode))
  }

  /** The query `buildQuery(parameters)` is meant to produce: one `key=value` segment per
      truthy value, joined by `&`. */
  function QueryOf(m: ParameterMap, encode: string -> string): string
  {
    Join(Segments(EmittedPairs(m), encode), '&')
  }

  /** The accumulator of `buildQuery` after emitting `segments`, each followed by `&`. */
  function Terminated(segments: seq<string>): string
  {
    if segments == [] then ""
    else Terminated(segments[..|segments| - 1]) + segments[|segments| - 1] + "&"
  }

  lemma {:induction false} TerminatedJoin(segments: seq<string>)
    ensures segments == [] ==> Terminated(segments) == ""
    ensures segments != [] ==> Terminated(segments) == Join(segments, '&') + "&"
  {
    if |segments| > 1 {
      var n := |segments| - 1;
      TerminatedJoin(segments[..n]);
      JoinAppend(segments[..n], segments[n], '&');
      assert segments[..n] + [segments[n]] == segments;
    }
  }

  lemma EntryPairsStep(key: string, values: seq<Value>, j: nat)
    requires j < |values|
    ensures EntryPairs(key, values[..j + 1]) ==
      EntryPairs(key, values[..j]) + (if Truthy(values[j]) then [(key, values[j].value)] else [])
  {
    assert values[..j + 1][..j] == values[..j];
  }

  lemma SegmentsAppend(ps: seq<(string, string)>, p: (string, string), encode: string -> string)
    ensures Segments(ps + [p], encode) == Segments(ps, encode) + [SegmentOf(p, encode)]
  {
  }

  lemma TerminatedAppend(segments: seq<string>, segment: string)
    ensures Terminated(segments + [segment]) == Terminated(segments) + segment + "&"
  {
    assert (segments + [segment])[..|segments|] == segments;
  }

  /** Emitting one more pair adds its segment and `&`. */
  lemma EmitPair(ps: seq<(string, string)>, p: (string, string), encode: string -> string)
    ensures Terminated(Segments(ps + [p], encode)) ==
      Terminated(Segments(ps, encode)) + (encode(p.0) + "=" + encode(p.1) + "&")
  {
    SegmentsAppend(ps, p, encode);
    var before := Terminated(Segments(ps, encode));
    var segment := SegmentOf(p, encode);
    TerminatedAppend(Segments(ps, encode), segment);
    assert before + segment + "&" == before + (segment + "&");
  }

  /** One turn of the inner loop of `buildQuery`: a truthy value adds its segment and `&`. */
  lemma EmitValue(done: seq<(string, string)>, key: string, values: seq<Value>, j: nat, encode: string -> string)
    requires j < |values|
    ensures Terminated(Segments(done + EntryPairs(key, values[..j + 1]), encode)) ==
      Terminated(Segments(done + EntryPairs(key, values[..j]), encode))
        + (if Truthy(values[j]) then encode(key) + "=" + encode(values[j].value) + "&" else "")
  {
    EntryPairsStep(key, values, j);
    var ps := done + EntryPairs(key, values[..j]);
    if Truthy(values[j]) {
      var p := (key, values[j].value);
      assert done + EntryPairs(key, values[..j + 1]) == ps + [p];
      EmitPair(ps, p, encode);
    } else {
      assert done + EntryPairs(key, values[..j + 1]) == ps;
    }
  }

  /** After the inner loop of `buildQuery`, every pair of the first `i + 1` keys is emitted. */
  lemma EmitEntry(parameters: ParameterMap, i: nat)
    requires i < |parameters|
    ensures EmittedPairs(parameters[..i + 1]) ==
      EmittedPairs(parameters[..i]) + EntryPairs(parameters[i].key, parameters[i].values[..|parameters[i].values|])
  {
    assert parameters[..i + 1][..i] == parameters[..i];
    assert parameters[i].values[..|parameters[i].values|] == parameters[i].values;
  }

  /** `buildQuery`: appends `key=value&` for every truthy value, keys in map order and
      values in list order, then slices the last character off. The result is the `&`-join
      of the segments: no trailing `&`, and `""` when no value is truthy. */
  method BuildQuery(parameters: ParameterMap, encode: string -> string) returns (query: string)
    ensures query == QueryOf(parameters, encode)
  {
    var acc := "";
    for i := 0 to |parameters|
      invariant acc == Terminated(Segments(EmittedPairs(parameters[..i]), encode))
    {
      var key, values := parameters[i].key, parameters[i].values;
      ghost var done := EmittedPairs(parameters[..i]);
      assert done + EntryPairs(key, values[..0]) == done by {
        assert values[..0] == [];
      }
      for j := 0 to |values|
        invariant acc == Terminated(Segments(done + EntryPairs(key, values[..j]), encode))
      {
        EmitValue(done, key, values, j, encode);
        if Truthy(values[j]) {
          var segment := encode(key) + "=" + encode(values[j].value) + "&";
          acc := acc + segment;
        }
      }
      EmitEntry(parameters, i);
    }
    assert parameters[..|parameters|] == parameters;
    ghost var segments := Segments(EmittedPairs(parameters), encode);
    TerminatedJoin(segments);
    query := if acc == "" then "" else acc[..|acc| - 1];
    assert segments != [] ==> acc == Join(segments, '&') + "&";
  }

  lemma {:induction false} TruthyValuesEmpty(values: seq<Value>)
    ensures TruthyValues(values) == [] <==> NoneTruthy(values)
  {
    if values != [] {
      TruthyValuesEmpty(values[..|values| - 1]);
      assert forall j | 0 <= j < |values| - 1 :: values[..|values| - 1][j] == values[j];
    }
  }

  lemma AllFalsyLast(m: ParameterMap)
    requires m != []
    ensures AllFalsy(m) <==> AllFalsy(m[..|m| - 1]) && NoneTruthy(m[|m| - 1].values)
  {
    var n := |m| - 1;
    assert forall i | 0 <= i < n :: m[..n][i] == m[i];
  }

  /** Nothing is emitted, and nothing survives the filter, exactly when every value is falsy. */
  lemma {:induction false} NothingEmitted(m: ParameterMap)
    ensures EmittedPairs(m) == [] <==> AllFalsy(m)
    ensures Filter(m) == [] <==> AllFalsy(m)
  {
    if m != [] {
      var n := |m| - 1;
      NothingEmitted(m[..n]);
      TruthyValuesEmpty(m[n].values);
      AllFalsyLast(m);
      var kept := TruthyValues(m[n].values);
      assert EmittedPairs(m) == EmittedPairs(m[..n]) + EntryPairs(m[n].key, m[n].values);
      assert |EntryPairs(m[n].key, m[n].values)| == |kept|;
      assert Filter(m) == Filter(m[..n]) + (if kept == [] then [] else [Entry(m[n].key, kept)]);
    }
  }

  /** `buildQuery` gives `""` exactly when no value is truthy. */
  lemma BuildQueryEmpty(m: ParameterMap, encode: string -> string)
    ensures QueryOf(m, encode) == "" <==> AllFalsy(m)
  {
    NothingEmitted(m);
    var segments := Segments(EmittedPairs(m), encode);
    if segments != [] {
      assert '=' in segments[0];
    }
  }

  lemma SegmentLastChar(p: (string, string), encode: string -> string)
    requires '&' !in encode(p.1)
    ensures var segment := SegmentOf(p, encode); |segment| > 0 && segment[|segment| - 1] != '&'
  {
    var e := encode(p.1);
    var segment := SegmentOf(p, encode);
    if e == "" {
      assert segment[|segment| - 1] == '=';
    } else {
      assert segment[|segment| - 1] == e[|e| - 1];
    }
  }

  /** When no encoded text holds `&`, the query `buildQuery` builds does not end in `&`. */
  lemma BuildQueryNoTrailingSeparator(m: ParameterMap, encode: string -> string)
    requires forall s :: '&' !in encode(s)
    ensures var q := QueryOf(m, encode); q == "" || q[|q| - 1] != '&'
  {
    var ps := EmittedPairs(m);
    var segments := Segments(ps, encode);
    if segments != [] {
      var n := |segments| - 1;
      var last := segments[n];
      assert last == SegmentOf(ps[n], encode);
      SegmentLastChar(ps[n], encode);
      JoinEndsWithLast(segments, '&');
      var q := Join(segments, '&');
      assert q[|q| - |last|..][|last| - 1] == q[|q| - 1];
    }
  }

  // ---------------------------------------------------------------------------
  // Round trip

  /** What the codec functions are assumed to do for the round trip: encoded text holds
      no `&` and no `=`, decoding undoes encoding, and only `""` encodes to `""`. */
  ghost predicate Codec(encode: string -> string, decode: string -> string)
  {
    && (forall s :: '&' !in encode(s) && '=' !in encode(s))
    && (forall s :: decode(encode(s)) == s)
    && (forall s :: s != "" ==> encode(s) != "")
  }

  /** The parameter object after pushing every pair of `ps` as a present value. */
  function AddPairs(acc: ParameterMap, ps: seq<(string, string)>): ParameterMap
  {
    if ps == [] then acc
    else
      var last := ps[|ps| - 1];
      AddValue(AddPairs(acc, ps[..|ps| - 1]), last.0, Some(last.1))
  }

  lemma {:induction false} AddPairsConcat(acc: ParameterMap, a: seq<(string, string)>, b: seq<(string, string)>)
    ensures AddPairs(acc, a + b) == AddPairs(AddPairs(acc, a), b)
  {
    if b == [] {
      assert a + b == a;
    } else {
      var n := |b| - 1;
      AddPairsConcat(acc, a, b[..n]);
      assert (a + b)[..|a + b| - 1] == a + b[..n];
      assert (a + b)[|a + b| - 1] == b[n];
      assert AddPairs(acc, a + b) == AddValue(AddPairs(acc, a + b[..n]), b[n].0, Some(b[n].1));
    }
  }

  /** A segment `k=e`, with no `=` in `k` or `e` and `e` not empty, parses to key `k`
      and value `decode(e)`. */
  lemma SegmentParses(k: string, e: string, decode: string -> string)
    requires '=' !in k && '=' !in e && e != ""
    ensures SegmentKey(k + "=" + e) == k
    ensures SegmentValue(k + "=" + e, decode) == Some(decode(e))
  {
    SplitJoin([k, e], '=');
    assert Join([k, e], '=') == k + "=" + e;
  }

  lemma {:induction false} AccumulateSegments(acc: ParameterMap, ps: seq<(string, string)>,
                                              encode: string -> string, decode: string -> string)
    requires Codec(encode, decode)
    requires forall i | 0 <= i < |ps| :: encode(ps[i].0) == ps[i].0 && ps[i].1 != ""
    ensures Accumulate(acc, Segments(ps, encode), decode) == AddPairs(acc, ps)
  {
    if ps != [] {
      var n := |ps| - 1;
      assert Segments(ps, encode)[..n] == Segments(ps[..n], encode);
      AccumulateSegments(acc, ps[..n], encode, decode);
      SegmentParses(ps[n].0, encode(ps[n].1), decode);
    }
  }

  /** Pushing one more present value under a key that is new to `acc` or sits last in it. */
  lemma AddToLastEntry(acc: ParameterMap, key: string, kept: seq<Value>, v: Value)
    requires forall i | 0 <= i < |acc| :: acc[i].key != key
    ensures AddValue(acc + (if kept == [] then [] else [Entry(key, kept)]), key, v) == acc + [Entry(key, kept + [v])]
  {
    if kept == [] {
      assert acc + [] == acc;
      assert KeyIndex(acc, key) == None;
      assert kept + [v] == [v];
    } else {
      KeyIndexAppend(acc, Entry(key, kept), key);
      assert (acc + [Entry(key, kept)])[|acc| := Entry(key, kept + [v])] == acc + [Entry(key, kept + [v])];
    }
  }

  lemma {:induction false} AddEntryPairs(acc: ParameterMap, key: string, values: seq<Value>)
    requires forall i | 0 <= i < |acc| :: acc[i].key != key
    ensures AddPairs(acc, EntryPairs(key, values)) ==
      acc + (if TruthyValues(values) == [] then [] else [Entry(key, TruthyValues(values))])
  {
    if values != [] {
      var n := |values| - 1;
      var v := values[n];
      var earlier := EntryPairs(key, values[..n]);
      var kept := TruthyValues(values[..n]);
      AddEntryPairs(acc, key, values[..n]);
      if Truthy(v) {
        var p := (key, v.value);
        assert EntryPairs(key, values) == earlier + [p];
        assert (earlier + [p])[..|earlier|] == earlier;
        assert AddPairs(acc, earlier + [p]) == AddValue(AddPairs(acc, earlier), key, Some(v.value));
        assert Some(v.value) == v;
        assert TruthyValues(values) == kept + [v];
        AddToLastEntry(acc, key, kept, v);
      } else {
        assert EntryPairs(key, values) == earlier;
        assert TruthyValues(values) == kept;
      }
    }
  }

  lemma {:induction false} FilterKeysFrom(m: ParameterMap, key: string)
    requires forall j | 0 <= j < |m| :: m[j].key != key
    ensures forall i | 0 <= i < |Filter(m)| :: Filter(m)[i].key != key
  {
    if m != [] {
      FilterKeysFrom(m[..|m| - 1], key);
    }
  }

  lemma {:induction false} EmittedPairsRebuild(m: ParameterMap)
    requires DistinctKeys(m)
    ensures AddPairs([], EmittedPairs(m)) == Filter(m)
  {
    if m != [] {
      var n := |m| - 1;
      EmittedPairsRebuild(m[..n]);
      AddPairsConcat([], EmittedPairs(m[..n]), EntryPairs(m[n].key, m[n].values));
      FilterKeysFrom(m[..n], m[n].key);
      AddEntryPairs(Filter(m[..n]), m[n].key, m[n].values);
    }
  }

  lemma {:induction false} EmittedKeysUnchanged(m: ParameterMap, encode: string -> string)
    requires forall i | 0 <= i < |m| :: encode(m[i].key) == m[i].key
    ensures forall i | 0 <= i < |EmittedPairs(m)| :: encode(EmittedPairs(m)[i].0) == EmittedPairs(m)[i].0
  {
    if m != [] {
      var n := |m| - 1;
      EmittedKeysUnchanged(m[..n], encode);
      var ps := EmittedPairs(m);
      var earlier := EmittedPairs(m[..n]);
      forall i | 0 <= i < |ps| ensures encode(ps[i].0) == ps[i].0 {
        if i >= |earlier| {
          assert ps[i] == EntryPairs(m[n].key, m[n].values)[i - |earlier|];
        }
      }
    }
  }

  /** `getParameters(buildQuery(m))` gives back `m` without its falsy values and without
      the keys left with none, provided keys are unchanged by encoding, the codec behaves
      as `Codec` says, and some value is truthy. */
  lemma RoundTrip(m: ParameterMap, encode: string -> string, decode: string -> string)
    requires DistinctKeys(m)
    requires Codec(encode, decode)
    requires forall i | 0 <= i < |m| :: encode(m[i].key) == m[i].key
    requires !AllFalsy(m)
    ensures ParseQuery(QueryOf(m, encode), decode) == Filter(m)
  {
    var ps := EmittedPairs(m);
    NothingEmitted(m);
    EmittedKeysUnchanged(m, encode);
    var segments := Segments(ps, encode);
    forall i | 0 <= i < |segments| ensures '&' !in segments[i] {
      assert segments[i] == encode(ps[i].0) + "=" + encode(ps[i].1);
    }
    SplitJoin(segments, '&');
    AccumulateSegments([], ps, encode, decode);
    EmittedPairsRebuild(m);
  }

  /** When every value is falsy, `buildQuery` gives `""`, which parses to `{"": [undefined]}`
      rather than to an empty object. */
  lemma RoundTripAllFalsy(m: ParameterMap, encode: string -> string, decode: string -> string)
    requires AllFalsy(m)
    ensures ParseQuery(QueryOf(m, encode), decode) == [Entry("", [None])]
  {
    BuildQueryEmpty(m, encode);
    ParseEmptyQuery(decode);
  }
}
