/**
  Dynamically typed Go values (`interface{}`) as `encoding/json` handles them:
  `json.Marshal` writes nil, booleans, numbers, strings, slices and
  `map[string]interface{}` (keys in increasing byte order) and refuses
  channels, functions, complex numbers and non-finite floats; `json.Unmarshal`
  into an `interface{}` builds nil, bool, number, string, `[]interface{}` and
  `map[string]interface{}` values, a repeated object key keeping its last value.
 */
module GoValues {
  import opened Prelude
  import opened JsonText
  import JsonParser

  /** A Go value stored in an `interface{}`. */
  datatype Value =
    | Nil
    | Bool(b: bool)
    | Number(n: int)
    | Str(s: string)
    | List(items: seq<Value>)
    | Dict(entries: map<string, Value>)
      /** A value `json.Marshal` cannot write: a channel, a function, a complex number, NaN or an infinity. */
    | Unsupported

  /** A Go slice `[]interface{}`: nil, or made (possibly empty). */
  datatype Slice = NilSlice | Made(elems: seq<Value>)
  {
    function Elems(): seq<Value>
    {
      if NilSlice? then [] else elems
    }

    /** The slice stored in an `interface{}`: a nil slice marshals as `null`. */
    function AsValue(): Value
    {
      if NilSlice? then Nil else List(elems)
    }
  }

  // Go's order on strings: byte-wise, which for UTF-8 text is code-point order.

  predicate Below(a: string, b: string)
  {
    if |a| == 0 then |b| > 0
    else |b| > 0 && (a[0] < b[0] || (a[0] == b[0] && Below(a[1..], b[1..])))
  }

  lemma {:induction false} BelowIrreflexive(a: string)
    ensures !Below(a, a)
  {
    if |a| > 0 {
      BelowIrreflexive(a[1..]);
    }
  }

  lemma {:induction false} BelowTotal(a: string, b: string)
    ensures a == b || Below(a, b) || Below(b, a)
  {
    if |a| > 0 && |b| > 0 && a[0] == b[0] {
      BelowTotal(a[1..], b[1..]);
      if a[1..] == b[1..] {
        assert a == [a[0]] + a[1..] && b == [b[0]] + b[1..];
      }
    }
  }

  lemma {:induction false} BelowTransitive(a: string, b: string, c: string)
    requires Below(a, b) && Below(b, c)
    ensures Below(a, c)
  {
    if |a| > 0 && a[0] == b[0] && b[0] == c[0] {
      BelowTransitive(a[1..], b[1..], c[1..]);
    }
  }

  /** `k` is the smallest of `keys`. */
  predicate IsLeast(k: string, keys: set<string>)
  {
    k in keys && forall k' :: k' in keys ==> !Below(k', k)
  }

  lemma {:induction false} LeastExists(keys: set<string>)
    requires keys != {}
    ensures exists k :: IsLeast(k, keys)
    decreases keys
  {
    var x :| x in keys;
    if keys == {x} {
      BelowIrreflexive(x);
      assert IsLeast(x, keys);
    } else {
      var rest := keys - {x};
      LeastExists(rest);
      var m :| IsLeast(m, rest);
      if Below(x, m) {
        forall k' | k' in keys
          ensures !Below(k', x)
        {
          if k' == x {
            BelowIrreflexive(x);
          } else if Below(k', x) {
            BelowTransitive(k', x, m);
          }
        }
        assert IsLeast(x, keys);
      } else {
        assert IsLeast(m, keys);
      }
    }
  }

  lemma LeastUnique(keys: set<string>)
    ensures forall a, b :: IsLeast(a, keys) && IsLeast(b, keys) ==> a == b
  {
    forall a, b | IsLeast(a, keys) && IsLeast(b, keys)
      ensures a == b
    {
      BelowTotal(a, b);
    }
  }

  /** The keys of a map in the order `json.Marshal` writes them. */
  function SortedKeys(keys: set<string>): (r: seq<string>)
    ensures |r| == |keys|
    ensures forall i :: 0 <= i < |r| ==> r[i] in keys
    ensures forall k :: k in keys ==> k in r
    decreases keys
  {
    if keys == {} then []
    else
      LeastExists(keys);
      LeastUnique(keys);
      var k :| IsLeast(k, keys);
      [k] + SortedKeys(keys - {k})
  }

  /** The keys come out strictly increasing, hence each exactly once. */
  lemma {:induction false} SortedKeysIncrease(keys: set<string>)
    ensures var r := SortedKeys(keys);
      forall i, j :: 0 <= i < j < |r| ==> Below(r[i], r[j])
    decreases keys
  {
    if keys != {} {
      var r := SortedKeys(keys);
      var k := r[0];
      var rest := keys - {k};
      LeastExists(keys);
      LeastUnique(keys);
      assert IsLeast(k, keys) && r[1..] == SortedKeys(rest);
      SortedKeysIncrease(rest);
      forall i, j | 0 <= i < j < |r|
        ensures Below(r[i], r[j])
      {
        if i == 0 {
          assert r[j] in rest;
          BelowTotal(k, r[j]);
        }
      }
    }
  }

  /** The JSON text tree `json.Marshal` writes for a value, or `None` when it refuses it. */
  function ToJson(v: Value): Option<Json>
    decreases v, 1
  {
    match v
    case Nil => Some(JNull)
    case Bool(b) => Some(JBool(b))
    case Number(n) => Some(JNumber(n))
    case Str(s) => Some(JString(s))
    case List(items) =>
      (match ItemsToJson(items)
       case None => None
       case Some(js) => Some(JArray(js)))
    case Dict(entries) =>
      (match EntriesToJson(v, SortedKeys(entries.Keys))
       case None => None
       case Some(ms) => Some(JObject(ms)))
    case Unsupported => None
  }

  function ItemsToJson(items: seq<Value>): Option<seq<Json>>
    decreases items
  {
    if |items| == 0 then Some([])
    else
      match (ItemsToJson(items[..|items| - 1]), ToJson(items[|items| - 1]))
      case (Some(js), Some(j)) => Some(js + [j])
      case _ => None
  }

  /** The members for the keys `ks` of a map, in the order of `ks`. */
  function EntriesToJson(v: Value, ks: seq<string>): Option<seq<Member>>
    requires v.Dict? && forall i :: 0 <= i < |ks| ==> ks[i] in v.entries
    decreases v, 0, |ks|
  {
    if |ks| == 0 then Some([])
    else
      var k := ks[|ks| - 1];
      match (EntriesToJson(v, ks[..|ks| - 1]), ToJson(v.entries[k]))
      case (Some(ms), Some(j)) => Some(ms + [Member(k, j)])
      case _ => None
  }

  /** Values `json.Marshal` accepts: nothing unsupported anywhere inside. */
  predicate Encodable(v: Value)
  {
    match v
    case Unsupported => false
    case List(items) => forall i :: 0 <= i < |items| ==> Encodable(items[i])
    case Dict(entries) => forall k :: k in entries ==> Encodable(entries[k])
    case _ => true
  }

  /** The value `json.Unmarshal` stores in an `interface{}` for a JSON value. */
  function ToValue(j: Json): Value
  {
    match j
    case JNull => Nil
    case JBool(b) => Bool(b)
    case JNumber(n) => Number(n)
    case JString(s) => Str(s)
    case JArray(items) => List(seq(|items|, i requires 0 <= i < |items| => ToValue(items[i])))
    case JObject(members) => Dict(MembersToMap(members))
  }

  /** The map an object's members decode to: a later member overrides an earlier one with the same key. */
  function MembersToMap(ms: seq<Member>): map<string, Value>
    decreases ms
  {
    if |ms| == 0 then map[]
    else
      var last := ms[|ms| - 1];
      MembersToMap(ms[..|ms| - 1])[last.key := ToValue(last.value)]
  }

  /** `json.Marshal` into text: `None` is its "unsupported type/value" error. */
  function Marshal(v: Value): (r: Option<string>)
    ensures r.Some? <==> Encodable(v)
  {
    ToJsonToValue(v);
    match ToJson(v)
    case None => None
    case Some(j) => Some(Print(j))
  }

  /** `json.Unmarshal` of a text into an `interface{}`: `None` is a syntax error. */
  function Unmarshal(text: string): Option<Value>
  {
    match JsonParser.Parse(text)
    case None => None
    case Some(j) => Some(ToValue(j))
  }

  // What marshalling and unmarshalling preserve.

  /**
    `json.Marshal` accepts exactly the encodable values, and unmarshalling its
    output tree gives the value back.
   */
  lemma {:induction false} ToJsonToValue(v: Value)
    ensures ToJson(v).Some? <==> Encodable(v)
    ensures ToJson(v).Some? ==> ToValue(ToJson(v).value) == v
    decreases v, 2
  {
    if v.List? {
      ListToJsonToValue(v);
    } else if v.Dict? {
      DictToJsonToValue(v);
    }
  }

  lemma {:induction false} ListToJsonToValue(v: Value)
    requires v.List?
    ensures ToJson(v).Some? <==> Encodable(v)
    ensures ToJson(v).Some? ==> ToValue(ToJson(v).value) == v
    decreases v, 1
  {
    ItemsToJsonToValue(v.items);
    if ItemsToJson(v.items).Some? {
      var js := ItemsToJson(v.items).value;
      assert ToValue(JArray(js)).items == v.items;
    }
  }

  lemma {:induction false} DictToJsonToValue(v: Value)
    requires v.Dict?
    ensures ToJson(v).Some? <==> Encodable(v)
    ensures ToJson(v).Some? ==> ToValue(ToJson(v).value) == v
    decreases v, 1
  {
    var ks := SortedKeys(v.entries.Keys);
    var r := EntriesToJson(v, ks);
    assert ToJson(v) == if r.Some? then Some(JObject(r.value)) else None;
    EntriesToJsonToValue(v, ks);
    EncodableDict(v, ks);
    if r.Some? {
      MapOverAllKeys(v.entries, ks);
    }
  }

  /** A map is encodable when the values under all of its keys, listed in `ks`, are. */
  lemma EncodableDict(v: Value, ks: seq<string>)
    requires v.Dict? && forall k :: k in v.entries <==> k in ks
    ensures Encodable(v) <==> forall i :: 0 <= i < |ks| ==> Encodable(v.entries[ks[i]])
  {
    if forall i :: 0 <= i < |ks| ==> Encodable(v.entries[ks[i]]) {
      forall k | k in v.entries
        ensures Encodable(v.entries[k])
      {
        var i :| 0 <= i < |ks| && ks[i] == k;
      }
    }
  }

  lemma {:induction false} ItemsToJsonToValue(items: seq<Value>)
    ensures ItemsToJson(items).Some? <==> forall i :: 0 <= i < |items| ==> Encodable(items[i])
    ensures ItemsToJson(items).Some? ==>
      var js := ItemsToJson(items).value;
      |js| == |items| && forall i :: 0 <= i < |js| ==> ToValue(js[i]) == items[i]
    decreases items
  {
    if |items| > 0 {
      var front, last := items[..|items| - 1], items[|items| - 1];
      ItemsToJsonToValue(front);
      ToJsonToValue(last);
      if ItemsToJson(items).Some? {
        var js := ItemsToJson(items).value;
        assert js == ItemsToJson(front).value + [ToJson(last).value];
        forall i | 0 <= i < |js|
          ensures ToValue(js[i]) == items[i]
        {
          if i < |items| - 1 {
            assert items[i] == front[i];
          }
        }
      } else if ItemsToJson(front).None? {
        var i :| 0 <= i < |front| && !Encodable(front[i]);
        assert items[i] == front[i];
      }
    }
  }

  lemma MapOverAllKeys(e: map<string, Value>, ks: seq<string>)
    requires forall k :: k in e <==> k in ks
    ensures (map k | k in ks :: e[k]) == e
  {
  }

  lemma {:induction false} EntriesToJsonToValue(v: Value, ks: seq<string>)
    requires v.Dict? && forall i :: 0 <= i < |ks| ==> ks[i] in v.entries
    ensures EntriesToJson(v, ks).Some? <==> forall i :: 0 <= i < |ks| ==> Encodable(v.entries[ks[i]])
    ensures EntriesToJson(v, ks).Some? ==>
      MembersToMap(EntriesToJson(v, ks).value) == map k | k in ks :: v.entries[k]
    decreases v, 0, |ks|
  {
    if |ks| > 0 {
      var front, k := ks[..|ks| - 1], ks[|ks| - 1];
      EntriesToJsonToValue(v, front);
      assert v.entries[k] < v;
      ToJsonToValue(v.entries[k]);
      var r := EntriesToJson(v, ks);
      if r.Some? {
        var m := Member(k, ToJson(v.entries[k]).value);
        assert r.value == EntriesToJson(v, front).value + [m];
        MembersToMapSnoc(EntriesToJson(v, front).value, m);
        MapExtend(v.entries, ks);
      } else if EntriesToJson(v, front).None? {
        var i :| 0 <= i < |front| && !Encodable(v.entries[front[i]]);
        assert ks[i] == front[i];
      }
    }
  }

  lemma MembersToMapSnoc(ms: seq<Member>, m: Member)
    ensures MembersToMap(ms + [m]) == MembersToMap(ms)[m.key := ToValue(m.value)]
  {
    assert (ms + [m])[..|ms|] == ms;
  }

  lemma MapExtend(e: map<string, Value>, ks: seq<string>)
    requires |ks| > 0 && forall i :: 0 <= i < |ks| ==> ks[i] in e
    ensures (map k | k in ks[..|ks| - 1] :: e[k])[ks[|ks| - 1] := e[ks[|ks| - 1]]] == map k | k in ks :: e[k]
  {
    assert forall k :: k in ks <==> k in ks[..|ks| - 1] || k == ks[|ks| - 1];
  }

  /** Whatever `json.Unmarshal` builds, `json.Marshal` accepts. */
  lemma {:induction false} ToValueEncodable(j: Json)
    ensures Encodable(ToValue(j))
    decreases j
  {
    match j
    case JArray(items) =>
      forall i | 0 <= i < |items|
        ensures Encodable(ToValue(items[i]))
      {
        ToValueEncodable(items[i]);
      }
    case JObject(ms) =>
      var m := MembersToMap(ms);
      forall k | k in m
        ensures Encodable(m[k])
      {
        var i := MembersToMapSource(ms, k);
        assert ms[i] in ms;
        ToValueEncodable(ms[i].value);
      }
    case _ =>
  }

  /** The member whose value a key of the decoded map holds: the last one with that key. */
  lemma {:induction false} MembersToMapSource(ms: seq<Member>, k: string) returns (i: nat)
    requires k in MembersToMap(ms)
    ensures i < |ms| && ms[i].key == k && MembersToMap(ms)[k] == ToValue(ms[i].value)
    ensures forall i' :: i < i' < |ms| ==> ms[i'].key != k
  {
    var last := ms[|ms| - 1];
    if last.key == k {
      i := |ms| - 1;
    } else {
      i := MembersToMapSource(ms[..|ms| - 1], k);
    }
  }

  /** Unmarshalling the text `json.Marshal` writes gives back the value it was given. */
  lemma UnmarshalMarshal(v: Value)
    requires Encodable(v)
    ensures Marshal(v).Some? && Unmarshal(Marshal(v).value) == Some(v)
  {
    ToJsonToValue(v);
    JsonParser.ParseOfPrint(ToJson(v).value);
  }

  /** A single key is its own order. */
  lemma SortedSingle(a: string)
    ensures SortedKeys({a}) == [a]
  {
    LeastExists({a});
    LeastUnique({a});
    assert {a} - {a} == {};
  }

  /** Two keys come out smaller first. */
  lemma SortedPair(a: string, b: string)
    requires Below(a, b)
    ensures SortedKeys({a, b}) == [a, b]
  {
    BelowIrreflexive(a);
    assert a != b;
    assert IsLeast(a, {a, b}) by {
      if Below(b, a) {
        BelowTransitive(a, b, a);
      }
    }
    LeastExists({a, b});
    LeastUnique({a, b});
    assert {a, b} - {a} == {b};
    SortedSingle(b);
  }

  /** A map with two entries becomes an object with the smaller key first. */
  lemma ToJsonPair(a: string, x: Value, b: string, y: Value)
    requires Below(a, b) && ToJson(x).Some? && ToJson(y).Some?
    ensures ToJson(Dict(map[a := x, b := y]))
      == Some(JObject([Member(a, ToJson(x).value), Member(b, ToJson(y).value)]))
  {
    var v := Dict(map[a := x, b := y]);
    BelowIrreflexive(a);
    PairEntries(v, a, x, b, y);
    ToJsonDict(v, [a, b]);
  }

  lemma PairEntries(v: Value, a: string, x: Value, b: string, y: Value)
    requires Below(a, b) && ToJson(x).Some? && ToJson(y).Some?
    requires v == Dict(map[a := x, b := y])
    ensures SortedKeys(v.entries.Keys) == [a, b]
    ensures EntriesToJson(v, [a, b]) == Some([Member(a, ToJson(x).value), Member(b, ToJson(y).value)])
  {
    BelowIrreflexive(a);
    assert a != b;
    assert v.entries.Keys == {a, b};
    SortedPair(a, b);
    PairMembers(v, a, b, ToJson(x).value, ToJson(y).value);
  }

  lemma PairMembers(v: Value, a: string, b: string, jx: Json, jy: Json)
    requires v.Dict? && a in v.entries && b in v.entries
    requires ToJson(v.entries[a]) == Some(jx) && ToJson(v.entries[b]) == Some(jy)
    ensures EntriesToJson(v, [a, b]) == Some([Member(a, jx), Member(b, jy)])
  {
    var none: seq<string> := [];
    assert EntriesToJson(v, none) == Some([]);
    EntriesStep(v, none, a);
    assert none + [a] == [a];
    var first: seq<Member> := [];
    assert first + [Member(a, jx)] == [Member(a, jx)];
    assert EntriesToJson(v, [a]) == Some([Member(a, jx)]);
    EntriesStep(v, [a], b);
    assert [a] + [b] == [a, b];
    assert [Member(a, jx)] + [Member(b, jy)] == [Member(a, jx), Member(b, jy)];
  }

  /** A map whose members for its sorted keys are known becomes the object of those members. */
  lemma ToJsonDict(v: Value, ks: seq<string>)
    requires v.Dict? && SortedKeys(v.entries.Keys) == ks && EntriesToJson(v, ks).Some?
    ensures ToJson(v) == Some(JObject(EntriesToJson(v, ks).value))
  {
  }

  /** One more key: its member goes at the end. */
  lemma EntriesStep(v: Value, ks: seq<string>, k: string)
    requires v.Dict? && k in v.entries && forall i :: 0 <= i < |ks| ==> ks[i] in v.entries
    requires EntriesToJson(v, ks).Some? && ToJson(v.entries[k]).Some?
    ensures EntriesToJson(v, ks + [k]) == Some(EntriesToJson(v, ks).value + [Member(k, ToJson(v.entries[k]).value)])
  {
    assert (ks + [k])[..|ks|] == ks;
  }
}
