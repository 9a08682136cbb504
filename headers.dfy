/**
  The headers of a Celery protocol-2 message (`CeleryHeadersV2`): the task name,
  the task id (also the root id), the `pid@hostname` origin and `argsrepr`, the
  text form of the arguments. Header blocks are pooled like task messages:
  `buildCeleryHeadersV2` takes a reset block from the pool and fills it in.
 */
module CeleryHeaders {
  import opened Prelude
  import opened JsonText
  import opened GoValues
  import Uuid

  /** The fields of `CeleryHeadersV2`, as a value (the message holds a copy). */
  datatype Headers = Headers(
    lang: string,
    task: string,
    id: string,
    rootId: string,
    parentId: string,
    group: string,
    expires: Value,
    shadow: Value,
    retries: int,
    eta: Value,
    argsrepr: string,
    timeLimit: (Value, Value),
    origin: string)

  /** What `reset` leaves: language "py", a soft time limit of 60 and no hard one, everything else empty. */
  const DEFAULT_HEADERS: Headers :=
    Headers("py", "", "", "", "", "", Nil, Nil, 0, Nil, "", (Number(60), Nil), "")

  /** A `*CeleryHeadersV2` handed out by the pool and filled in place. */
  class HeaderBlock {
    var fields: Headers

    /** The pool's `New`: a zero block, then `reset`. */
    constructor ()
      ensures fields == DEFAULT_HEADERS
    {
      fields := DEFAULT_HEADERS;
    }

    /** `reset` */
    method Reset()
      modifies this
      ensures fields == DEFAULT_HEADERS
    {
      fields := DEFAULT_HEADERS;
    }
  }

  /** `celeryHeadersPoolV2`: distinct reset blocks waiting to be reused, the most recently released first. */
  class HeadersPool {
    var free: seq<HeaderBlock>
    ghost var Repr: set<object>

    ghost predicate Valid()
      reads this, Repr
    {
      this in Repr
      && (forall i :: 0 <= i < |free| ==> free[i] in Repr && free[i].fields == DEFAULT_HEADERS)
      && (forall i, j :: 0 <= i < j < |free| ==> free[i] != free[j])
    }

    constructor ()
      ensures Valid() && free == [] && fresh(Repr)
    {
      free := [];
      Repr := {this};
    }

    /** `Get`: a reset block, from the pool or newly made. */
    method Get() returns (h: HeaderBlock)
      requires Valid()
      modifies this
      ensures Valid() && Repr <= old(Repr) && h !in Repr
      ensures h.fields == DEFAULT_HEADERS
      ensures old(free) == [] ==> fresh(h) && free == []
      ensures old(free) != [] ==> h == old(free[|free| - 1]) && h in old(Repr) && free == old(free[..|free| - 1])
    {
      if free == [] {
        h := new HeaderBlock();
      } else {
        h := free[|free| - 1];
        free := free[..|free| - 1];
        Repr := Repr - {h};
      }
    }

    /** `Put`: a reset block the pool does not hold yet becomes the next to be handed out. */
    method Put(h: HeaderBlock)
      requires Valid() && h.fields == DEFAULT_HEADERS && h !in Repr
      modifies this
      ensures Valid() && free == old(free) + [h] && Repr == old(Repr) + {h}
    {
      free := free + [h];
      Repr := Repr + {h};
    }
  }

  /**
    `formatArgsrepr`: without keyword arguments, the marshalled positional
    arguments ("[]" for a nil slice); with them, the marshalled object
    `{"args": …, "kwargs": …}`, where a nil slice is null. Whenever marshalling
    fails the text is "[]".
   */
  function FormatArgsrepr(args: Slice, kwargs: map<string, Value>): (r: string)
    ensures |r| >= 2 && (r[0] == '[' || r[0] == '{')
    ensures |kwargs| == 0 ==> r[0] == '['
  {
    if |kwargs| == 0 then
      if args.NilSlice? then "[]"
      else
        match Marshal(List(args.elems))
        case None => "[]"
        case Some(text) => text
    else
      match Marshal(Dict(map["args" := args.AsValue(), "kwargs" := Dict(kwargs)]))
      case None => "[]"
      case Some(text) => text
  }

  /** `fmt.Sprintf("%d@%s", pid, hostname)` */
  function Origin(pid: int, hostname: string): (r: string)
    ensures SplitAt(r) == (FormatInt(pid), hostname)
  {
    FormatIntHasNoAt(pid);
    SplitAtFirst(FormatInt(pid), hostname);
    FormatInt(pid) + "@" + hostname
  }

  /** The text before the first '@' and the text after it (all of it and nothing when there is none). */
  function SplitAt(s: string): (string, string)
  {
    if |s| == 0 then ("", "")
    else if s[0] == '@' then ("", s[1..])
    else
      var (before, after) := SplitAt(s[1..]);
      ([s[0]] + before, after)
  }

  /**
    `buildCeleryHeadersV2`: a block from the pool with the origin, a fresh task
    id used as both id and root id, the task name and `argsrepr`; every other
    field keeps its reset value. The process id, the host name and the random
    bytes of the id are parameters.
   */
  method BuildHeaders(pool: HeadersPool, task: string, args: Slice, kwargs: map<string, Value>,
                      pid: int, hostname: string, random: seq<byte>) returns (h: HeaderBlock)
    requires pool.Valid() && |random| == 16
    modifies pool, pool.Repr
    ensures pool.Valid() && pool.Repr <= old(pool.Repr) && h !in pool.Repr
    ensures fresh(h) || h in old(pool.Repr)
    ensures h.fields == DEFAULT_HEADERS.(origin := Origin(pid, hostname), id := Uuid.NewString(random),
      rootId := Uuid.NewString(random), task := task, argsrepr := FormatArgsrepr(args, kwargs))
    ensures h.fields.id == h.fields.rootId && h.fields.id != "" && h.fields.lang == "py"
  {
    h := pool.Get();
    var origin := Origin(pid, hostname);
    h.fields := h.fields.(origin := origin);
    var taskId := Uuid.NewString(random);
    h.fields := h.fields.(id := taskId, rootId := taskId);
    h.fields := h.fields.(task := task);
    h.fields := h.fields.(argsrepr := FormatArgsrepr(args, kwargs));
  }

  /** `getCeleryMessageHeadersV2`: headers for positional arguments only. */
  method GetHeaders(pool: HeadersPool, task: string, args: Slice, pid: int, hostname: string, random: seq<byte>)
    returns (h: HeaderBlock)
    requires pool.Valid() && |random| == 16
    modifies pool, pool.Repr
    ensures pool.Valid() && pool.Repr <= old(pool.Repr) && h !in pool.Repr
    ensures fresh(h) || h in old(pool.Repr)
    ensures h.fields == DEFAULT_HEADERS.(origin := Origin(pid, hostname), id := Uuid.NewString(random),
      rootId := Uuid.NewString(random), task := task, argsrepr := FormatArgsrepr(args, map[]))
  {
    h := BuildHeaders(pool, task, args, map[], pid, hostname, random);
  }

  /** `releaseCeleryMessageHeadersV2`: reset the block and give it back to the pool. */
  method ReleaseHeaders(pool: HeadersPool, h: HeaderBlock)
    requires pool.Valid() && h !in pool.Repr
    modifies pool, h
    ensures pool.Valid() && h.fields == DEFAULT_HEADERS
    ensures pool.free == old(pool.free) + [h]
  {
    h.Reset();
    pool.Put(h);
  }

  // What `argsrepr` holds.

  /** No arguments at all, nil or empty, give "[]". */
  lemma ArgsreprEmpty(args: Slice, kwargs: map<string, Value>)
    requires args.Elems() == [] && |kwargs| == 0
    ensures FormatArgsrepr(args, kwargs) == "[]"
  {
    EmptyListText();
  }

  /** An empty list marshals as "[]". */
  lemma EmptyListText()
    ensures Marshal(List([])) == Some("[]")
  {
    var items: seq<Value> := [];
    assert ItemsToJson(items) == Some([]);
    assert Print(JArray([])) == "[" + "" + "]" == "[]";
  }

  /** Without keyword arguments, `argsrepr` is JSON that reads back as the positional arguments. */
  lemma ArgsreprPositional(args: Slice, kwargs: map<string, Value>)
    requires |kwargs| == 0 && Encodable(List(args.Elems()))
    ensures Unmarshal(FormatArgsrepr(args, kwargs)) == Some(List(args.Elems()))
  {
    EmptyListText();
    UnmarshalMarshal(List(args.Elems()));
  }

  /** With keyword arguments, `argsrepr` is the object with "args" first and "kwargs" second. */
  lemma ArgsreprWithKwargs(args: Slice, kwargs: map<string, Value>)
    requires |kwargs| > 0 && Encodable(args.AsValue()) && Encodable(Dict(kwargs))
    ensures Marshal(args.AsValue()).Some? && Marshal(Dict(kwargs)).Some?
    ensures FormatArgsrepr(args, kwargs)
      == "{" + Quote("args") + ":" + Marshal(args.AsValue()).value + "," + Quote("kwargs") + ":" + Marshal(Dict(kwargs)).value + "}"
  {
    ToJsonToValue(args.AsValue());
    ToJsonToValue(Dict(kwargs));
    PayloadText(args.AsValue(), Dict(kwargs));
  }

  /** With keyword arguments, `argsrepr` reads back as the object holding both. */
  lemma ArgsreprWithKwargsReadsBack(args: Slice, kwargs: map<string, Value>)
    requires |kwargs| > 0 && Encodable(args.AsValue()) && Encodable(Dict(kwargs))
    ensures Unmarshal(FormatArgsrepr(args, kwargs)) == Some(Dict(map["args" := args.AsValue(), "kwargs" := Dict(kwargs)]))
  {
    var payload := Dict(map["args" := args.AsValue(), "kwargs" := Dict(kwargs)]);
    assert Encodable(payload) by {
      assert payload.entries.Keys == {"args", "kwargs"};
    }
    UnmarshalMarshal(payload);
  }

  /** With keyword arguments, `argsrepr` is an object, neither "[]" nor empty, and it names "kwargs". */
  lemma ArgsreprMentionsKwargs(args: Slice, kwargs: map<string, Value>)
    requires |kwargs| > 0 && Encodable(args.AsValue()) && Encodable(Dict(kwargs))
    ensures FormatArgsrepr(args, kwargs) != "[]" && FormatArgsrepr(args, kwargs) != ""
    ensures Contains(FormatArgsrepr(args, kwargs), "\"kwargs\"")
  {
    ArgsreprWithKwargs(args, kwargs);
    KeyQuotes();
    ObjectText(Marshal(args.AsValue()).value, Marshal(Dict(kwargs)).value);
  }

  lemma ObjectText(a: string, k: string)
    ensures var r := "{" + "\"args\"" + ":" + a + "," + "\"kwargs\"" + ":" + k + "}";
      r[0] == '{' && Contains(r, "\"kwargs\"")
  {
    var key := "\"kwargs\"";
    var before := "{" + "\"args\"" + ":" + a + ",";
    var after := ":" + k + "}";
    var r := before + key + after;
    assert r == "{" + "\"args\"" + ":" + a + "," + key + ":" + k + "}";
    assert r[|before|..][..|key|] == key;
  }

  /** `strings.Contains` */
  predicate Contains(s: string, t: string)
  {
    exists i :: 0 <= i <= |s| - |t| && s[i..][..|t|] == t
  }

  /** The object `{"args": a, "kwargs": k}` as `json.Marshal` writes it. */
  lemma PayloadText(a: Value, k: Value)
    requires ToJson(a).Some? && ToJson(k).Some?
    ensures Marshal(Dict(map["args" := a, "kwargs" := k]))
      == Some("{" + Quote("args") + ":" + Print(ToJson(a).value) + "," + Quote("kwargs") + ":" + Print(ToJson(k).value) + "}")
  {
    var ja, jk := ToJson(a).value, ToJson(k).value;
    assert Below("args", "kwargs");
    ToJsonPair("args", a, "kwargs", k);
    PairText("args", ja, "kwargs", jk);
  }

  /** The two keys are written as they are, between quotes. */
  lemma KeyQuotes()
    ensures Quote("args") == "\"args\"" && Quote("kwargs") == "\"kwargs\""
  {
    EscapeLetters("args");
    EscapeLetters("kwargs");
  }

  lemma PairText(a: string, x: Json, b: string, y: Json)
    ensures Print(JObject([Member(a, x), Member(b, y)])) == "{" + Quote(a) + ":" + Print(x) + "," + Quote(b) + ":" + Print(y) + "}"
  {
    var ms := [Member(a, x), Member(b, y)];
    var first, second := PrintMember(ms[0]), PrintMember(ms[1]);
    assert ms[1..] == [Member(b, y)];
    assert PrintMembers(ms[1..]) == second;
    assert Print(JObject(ms)) == "{" + (first + "," + second) + "}";
    RegroupPair(Quote(a), Print(x), Quote(b), Print(y));
  }

  lemma RegroupPair(qa: string, px: string, qb: string, py: string)
    ensures "{" + ((qa + ":" + px) + "," + (qb + ":" + py)) + "}" == "{" + qa + ":" + px + "," + qb + ":" + py + "}"
  {
  }

  /** When the arguments cannot be marshalled, `argsrepr` falls back to "[]". */
  lemma ArgsreprFallback(args: Slice, kwargs: map<string, Value>)
    requires if |kwargs| == 0 then !Encodable(args.AsValue()) else !Encodable(args.AsValue()) || !Encodable(Dict(kwargs))
    ensures FormatArgsrepr(args, kwargs) == "[]"
  {
    if |kwargs| == 0 {
    } else {
      var payload := Dict(map["args" := args.AsValue(), "kwargs" := Dict(kwargs)]);
      assert !Encodable(payload) by {
        assert payload.entries["args"] == args.AsValue() && payload.entries["kwargs"] == Dict(kwargs);
      }
    }
  }

  /** A process id is written without an '@'. */
  lemma FormatIntHasNoAt(pid: int)
    ensures forall i :: 0 <= i < |FormatInt(pid)| ==> FormatInt(pid)[i] != '@'
  {
    var digits := FormatInt(pid);
    assert forall i :: 0 <= i < |digits| ==> digits[i] != '@' by {
      if pid < 0 {
        assert digits == "-" + Digits(-pid);
        forall i | 0 < i < |digits|
          ensures digits[i] != '@'
        {
          assert digits[i] == Digits(-pid)[i - 1];
        }
      }
    }
  }

  lemma {:induction false} SplitAtFirst(before: string, after: string)
    requires forall i :: 0 <= i < |before| ==> before[i] != '@'
    ensures SplitAt(before + "@" + after) == (before, after)
  {
    var s := before + "@" + after;
    if |before| == 0 {
      assert s == "@" + after;
    } else {
      SplitAtFirst(before[1..], after);
      assert s[1..] == before[1..] + "@" + after;
      assert before == [before[0]] + before[1..];
    }
  }

  /** A released block is back in its reset state: no task name and no id. */
  method ReleaseClearsHeaders(pool: HeadersPool, task: string, args: Slice, random: seq<byte>) returns (h: HeaderBlock)
    requires pool.Valid() && |random| == 16
    modifies pool, pool.Repr
    ensures pool.Valid()
    ensures h.fields.task == "" && h.fields.id == ""
  {
    h := GetHeaders(pool, task, args, 1, "host", random);
    assert h.fields.id != "";
    ReleaseHeaders(pool, h);
  }
}
