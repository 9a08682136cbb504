/**
  The pooled task-message objects: a `TaskMessageV2` holds the positional
  arguments, a keyword-argument map it owns and updates in place, and the embed
  block. Messages come from a pool of reset messages and go back to it, reset,
  when released. Building a message copies the caller's keyword arguments into
  the message's own map, so later changes to the caller's map do not reach it.
 */
module TaskMessages {
  import opened Prelude
  import opened GoValues
  import opened TaskCodec
  import Base64

  /** A Go `map[string]interface{}`: a reference, so every holder sees an update made through another. */
  class GoMap {
    var entries: map<string, Value>

    /** `make(map[string]interface{})` */
    constructor ()
      ensures entries == map[]
    {
      entries := map[];
    }

    /** `m[k] = v` */
    method Set(k: string, v: Value)
      modifies this
      ensures entries == old(entries)[k := v]
    {
      entries := entries[k := v];
    }

    /** `delete(m, k)` */
    method Delete(k: string)
      modifies this
      ensures entries == old(entries) - {k}
    {
      entries := entries - {k};
    }

    /** `for k := range m { delete(m, k) }` */
    method Clear()
      modifies this
      ensures entries == map[]
    {
      var pending := entries.Keys;
      while pending != {}
        invariant entries.Keys == pending
        decreases pending
      {
        var k :| k in pending;
        Delete(k);
        pending := pending - {k};
      }
      assert entries.Keys == {};
    }

    /** `for k, v := range src { m[k] = v }` over the entries `src` held when the loop began. */
    method CopyEntries(src: map<string, Value>)
      modifies this
      ensures entries == old(entries) + src
    {
      var pending := src.Keys;
      while pending != {}
        invariant pending <= src.Keys
        invariant entries.Keys == old(entries).Keys + (src.Keys - pending)
        invariant forall k :: k in entries ==> entries[k] == if k in src && k !in pending then src[k] else old(entries)[k]
        decreases pending
      {
        var k :| k in pending;
        Set(k, src[k]);
        pending := pending - {k};
      }
    }
  }

  /** A `TaskMessageV2`. */
  class TaskMessage {
    var args: seq<Value>
    var kwargs: GoMap
    var embed: Embed

    /** The state `reset` leaves: no arguments, an empty keyword map, an empty embed block. */
    predicate IsReset()
      reads this, kwargs
    {
      args == [] && kwargs.entries == map[] && embed == EMPTY_EMBED
    }

    /** The body this message stands for. */
    function Contents(): Body
      reads this, kwargs
    {
      Body(args, kwargs.entries, embed)
    }

    /** The pool's `New`: a zero message, then `reset`, which makes its keyword map. */
    constructor ()
      ensures IsReset() && fresh(kwargs)
    {
      args := [];
      kwargs := new GoMap();
      embed := EMPTY_EMBED;
    }

    /** `reset`: truncates the arguments, empties the keyword map in place and clears the embed block. */
    method Reset()
      modifies this, kwargs
      ensures IsReset() && kwargs == old(kwargs)
    {
      args := [];
      kwargs.Clear();
      embed := EMPTY_EMBED;
    }

    /**
      `Encode`: the base64 body of `[args, kwargs, embed]`. It fails exactly when
      a value inside cannot be marshalled, and what it writes decodes back to this
      message's contents.
     */
    function Encode(): (r: Result<string, EncodeError>)
      reads this, kwargs
      ensures r.Ok? <==> BodyEncodable(Contents())
      ensures r.Ok? ==> DecodeBody(r.value) == Ok(Contents())
    {
      var r := EncodeBody(Contents());
      if r.Ok? then DecodeEncodeBody(Contents()); r else r
    }
  }

  /**
    `taskMessagePoolV2`: the messages waiting to be reused, each reset and none
    sharing its object or its keyword map with another. The most recently
    released message is handed out first.
   */
  class TaskPool {
    var free: seq<TaskMessage>
    ghost var Repr: set<object>

    ghost predicate Valid()
      reads this, Repr
    {
      this in Repr
      && (forall i :: 0 <= i < |free| ==> free[i] in Repr && free[i].kwargs in Repr)
      && (forall i :: 0 <= i < |free| ==> free[i].IsReset())
      && (forall i, j :: 0 <= i < j < |free| ==> free[i] != free[j] && free[i].kwargs != free[j].kwargs)
    }

    constructor ()
      ensures Valid() && free == [] && fresh(Repr)
    {
      free := [];
      Repr := {this};
    }

    /** `Get`: a reset message, taken from the pool or newly made when it is empty. */
    method Get() returns (m: TaskMessage)
      requires Valid()
      modifies this
      ensures Valid() && Repr <= old(Repr)
      ensures m.IsReset()
      ensures m !in Repr && m.kwargs !in Repr
      ensures old(free) == [] ==> fresh(m) && fresh(m.kwargs) && free == []
      ensures old(free) != [] ==> m == old(free[|free| - 1]) && m.kwargs in old(Repr) && free == old(free[..|free| - 1])
    {
      if free == [] {
        m := new TaskMessage();
      } else {
        m := free[|free| - 1];
        free := free[..|free| - 1];
        Repr := Repr - {m, m.kwargs};
      }
    }

    /** `Put`: a reset message the pool does not hold yet becomes the next to be handed out. */
    method Put(m: TaskMessage)
      requires Valid() && m.IsReset()
      requires m !in Repr && m.kwargs !in Repr
      modifies this
      ensures Valid()
      ensures free == old(free) + [m] && Repr == old(Repr) + {m, m.kwargs}
    {
      free := free + [m];
      Repr := Repr + {m, m.kwargs};
    }
  }

  /** `releaseTaskMessageV2`: reset the message and give it back to the pool. */
  method ReleaseTaskMessage(pool: TaskPool, m: TaskMessage)
    requires pool.Valid() && m !in pool.Repr && m.kwargs !in pool.Repr
    modifies pool, m, m.kwargs
    ensures pool.Valid() && m.IsReset()
    ensures pool.free == old(pool.free) + [m]
  {
    m.Reset();
    pool.Put(m);
  }

  /**
    `getTaskMessageV2WithKwargs`: a message from the pool holding `args`, a copy
    of the entries of `kwargs` (nil gives none) and an empty embed block. When
    `kwargs` is the message's own map it is emptied before the copy, so nothing
    is copied.
   */
  method GetTaskMessageWithKwargs(pool: TaskPool, args: seq<Value>, kwargs: GoMap?) returns (m: TaskMessage)
    requires pool.Valid()
    modifies pool, pool.Repr
    ensures pool.Valid() && pool.Repr <= old(pool.Repr)
    ensures m !in pool.Repr && m.kwargs !in pool.Repr
    ensures fresh(m) || m in old(pool.Repr)
    ensures m.args == args && m.embed == EMPTY_EMBED
    ensures kwargs == null ==> m.kwargs.entries == map[]
    ensures kwargs != null ==> m.kwargs.entries == if kwargs == m.kwargs then map[] else old(kwargs.entries)
    ensures kwargs != null && kwargs !in old(pool.Repr) ==> kwargs != m.kwargs && kwargs.entries == old(kwargs.entries)
  {
    m := pool.Get();
    m.args := args;
    m.kwargs.Clear();
    if kwargs != null {
      m.kwargs.CopyEntries(kwargs.entries);
    }
    m.embed := EMPTY_EMBED;
  }

  /** `getTaskMessageV2`: positional arguments only. */
  method GetTaskMessage(pool: TaskPool, args: seq<Value>) returns (m: TaskMessage)
    requires pool.Valid()
    modifies pool, pool.Repr
    ensures pool.Valid() && pool.Repr <= old(pool.Repr)
    ensures m !in pool.Repr && m.kwargs !in pool.Repr
    ensures fresh(m) || m in old(pool.Repr)
    ensures m.args == args && m.kwargs.entries == map[] && m.embed == EMPTY_EMBED
  {
    m := GetTaskMessageWithKwargs(pool, args, null);
  }

  /**
    `DecodeTaskMessageV2`: a message from the pool filled from the body, or the
    first error the decoder meets. A text that is not base64 leaves the pool
    alone; any later error gives the message back to the pool.
   */
  method DecodeTaskMessage(pool: TaskPool, wire: string) returns (r: Result<TaskMessage, DecodeError>)
    requires pool.Valid()
    modifies pool, pool.Repr
    ensures pool.Valid()
    ensures r.Err? ==> DecodeBody(wire) == Err(r.error)
    ensures r.Ok? ==> DecodeBody(wire) == Ok(r.value.Contents())
    ensures r.Ok? ==> r.value !in pool.Repr && r.value.kwargs !in pool.Repr && (fresh(r.value) || r.value in old(pool.Repr))
    ensures r.Err? && old(pool.free) != [] ==> pool.free == old(pool.free)
    ensures r.Err? && old(pool.free) == [] ==> r.error == InvalidBase64 || (|pool.free| == 1 && fresh(pool.free[0]))
    ensures Base64.Decode(wire).None? ==> pool.free == old(pool.free)
  {
    var bytes := Base64.Decode(wire);
    if bytes.None? {
      return Err(InvalidBase64);
    }
    var m := pool.Get();
    var filled := Fill(m, bytes.value);
    if filled.Err? {
      ghost var before := pool.free;
      ReleaseTaskMessage(pool, m);
      assert old(pool.free) != [] ==> old(pool.free) == before + [m];
      return Err(filled.error);
    }
    return Ok(m);
  }

  /** The JSON steps of `DecodeTaskMessageV2` on a message taken from the pool. */
  method Fill(m: TaskMessage, bytes: seq<byte>) returns (r: Result<(), DecodeError>)
    requires m.IsReset()
    modifies m, m.kwargs
    ensures m.kwargs == old(m.kwargs)
    ensures r.Err? ==> DecodePayload(bytes) == Err(r.error)
    ensures r.Ok? ==> DecodePayload(bytes) == Ok(m.Contents())
  {
    var slots := Slots(bytes);
    if slots.Err? {
      return Err(slots.error);
    }
    var args := DecodeArgs(slots.value[0]);
    if args.Err? {
      return Err(args.error);
    }
    m.args := args.value;
    var kwargs := DecodeKwargs(slots.value[1]);
    if kwargs.Err? {
      return Err(kwargs.error);
    }
    m.kwargs.Clear();
    m.kwargs.CopyEntries(kwargs.value);
    assert m.kwargs.entries == kwargs.value;
    var embed := DecodeEmbed(slots.value[2], m.embed);
    if embed.Err? {
      return Err(embed.error);
    }
    m.embed := embed.value;
    return Ok(());
  }

  // The behaviour the package's own tests describe, as properties of the model.

  /** A message built from keyword arguments keeps its own copy: changing the caller's map later does not reach it. */
  method KwargsDoNotLeak(pool: TaskPool) returns (m: TaskMessage)
    requires pool.Valid()
    modifies pool, pool.Repr
    ensures pool.Valid()
    ensures m.kwargs.entries == map["user" := Str("demo")] && m.args == [Number(1), Number(2)]
  {
    var kwargs := new GoMap();
    kwargs.Set("user", Str("demo"));
    m := GetTaskMessageWithKwargs(pool, [Number(1), Number(2)], kwargs);
    kwargs.Set("user", Str("mutated"));
  }

  /** A message whose contents can be marshalled survives `Encode` followed by `DecodeTaskMessageV2`. */
  method EncodeDecode(pool: TaskPool, m: TaskMessage) returns (decoded: Result<TaskMessage, DecodeError>)
    requires pool.Valid() && m !in pool.Repr && m.kwargs !in pool.Repr
    requires BodyEncodable(m.Contents())
    modifies pool, pool.Repr
    ensures pool.Valid()
    ensures decoded.Ok? && decoded.value.Contents() == m.Contents()
  {
    var wire := m.Encode();
    decoded := DecodeTaskMessage(pool, wire.value);
  }

  /** An empty message encodes, and decoding what it wrote gives a message without arguments. */
  method EncodeEmptyRoundTrip(pool: TaskPool) returns (decoded: Result<TaskMessage, DecodeError>)
    requires pool.Valid()
    modifies pool, pool.Repr
    ensures pool.Valid()
    ensures decoded.Ok? && decoded.value.args == [] && decoded.value.kwargs.entries == map[]
  {
    var m := GetTaskMessage(pool, []);
    ResetEncodable(m);
    decoded := EncodeDecode(pool, m);
  }

  lemma ResetEncodable(m: TaskMessage)
    requires m.IsReset()
    ensures BodyEncodable(m.Contents())
  {
  }
}
