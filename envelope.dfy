/**
  The message sent to the broker (`CeleryMessageV2`): the encoded task body, a
  copy of the headers, the delivery properties and the content type and
  encoding. Envelopes are pooled like task messages. On the receiving side the
  envelope's declared formats are checked before its body is decoded.
 */
module CeleryEnvelope {
  import opened Prelude
  import opened GoValues
  import opened TaskCodec
  import opened TaskMessages
  import opened CeleryHeaders
  import Uuid

  datatype DeliveryInfo = DeliveryInfo(routingKey: string, exchange: string)

  /** `CeleryPropertiesV2` */
  datatype Properties = Properties(
    priority: int,
    bodyEncoding: string,
    correlationId: string,
    replyTo: string,
    deliveryInfo: DeliveryInfo,
    deliveryMode: int,
    deliveryTag: string)

  const CONTENT_TYPE := "application/json"
  const CONTENT_ENCODING := "utf-8"
  const BODY_ENCODING := "base64"

  /**
    `CeleryPropertiesV2.reset`: priority 0, base64 bodies, no correlation id,
    routing key "celery" on the default exchange, persistent delivery (mode 2),
    and fresh UUIDs for the reply queue and the delivery tag, made from the
    given random bytes.
   */
  function ResetProperties(replyRandom: seq<byte>, tagRandom: seq<byte>): (p: Properties)
    requires |replyRandom| == 16 && |tagRandom| == 16
    ensures PropertiesReset(p)
  {
    Properties(0, BODY_ENCODING, "", Uuid.NewString(replyRandom), DeliveryInfo("celery", ""), 2, Uuid.NewString(tagRandom))
  }

  /** The properties `reset` leaves, whatever UUIDs it drew. */
  predicate PropertiesReset(p: Properties)
  {
    p.priority == 0 && p.bodyEncoding == BODY_ENCODING && p.correlationId == ""
    && |p.replyTo| == 36 && p.deliveryInfo == DeliveryInfo("celery", "")
    && p.deliveryMode == 2 && |p.deliveryTag| == 36
  }

  /** A `*CeleryMessageV2`. */
  class CeleryMessage {
    var body: string
    var headers: Headers
    var properties: Properties
    var contentType: string
    var contentEncoding: string

    /** The state `reset` leaves. */
    predicate IsReset()
      reads this
    {
      body == "" && headers == DEFAULT_HEADERS && PropertiesReset(properties)
      && contentType == CONTENT_TYPE && contentEncoding == CONTENT_ENCODING
    }

    /** The pool's `New`: a zero envelope, then `reset`. */
    constructor (replyRandom: seq<byte>, tagRandom: seq<byte>)
      requires |replyRandom| == 16 && |tagRandom| == 16
      ensures IsReset() && properties == ResetProperties(replyRandom, tagRandom)
    {
      body := "";
      headers := DEFAULT_HEADERS;
      properties := ResetProperties(replyRandom, tagRandom);
      contentType := CONTENT_TYPE;
      contentEncoding := CONTENT_ENCODING;
    }

    /** `reset`: the headers reset, no body, JSON in UTF-8, and the properties reset. */
    method Reset(replyRandom: seq<byte>, tagRandom: seq<byte>)
      requires |replyRandom| == 16 && |tagRandom| == 16
      modifies this
      ensures IsReset() && properties == ResetProperties(replyRandom, tagRandom)
    {
      headers := DEFAULT_HEADERS;
      body := "";
      contentType := CONTENT_TYPE;
      contentEncoding := CONTENT_ENCODING;
      properties := ResetProperties(replyRandom, tagRandom);
    }

    /**
      `GetTaskMessageV2`: the task message in the body, or nothing when the
      envelope declares another content type, body encoding or content encoding
      (checked in that order) or when the body does not decode.
     */
    method GetTaskMessage(pool: TaskPool) returns (r: Option<TaskMessage>)
      requires pool.Valid() && this !in pool.Repr
      modifies pool, pool.Repr
      ensures pool.Valid()
      ensures r.None? <==> Receive(contentType, properties.bodyEncoding, contentEncoding, body).Err?
      ensures r.Some? ==> Receive(contentType, properties.bodyEncoding, contentEncoding, body) == Ok(r.value.Contents())
      ensures r.Some? ==> r.value !in pool.Repr && r.value.kwargs !in pool.Repr
    {
      if contentType != CONTENT_TYPE {
        return None;
      }
      if properties.bodyEncoding != BODY_ENCODING {
        return None;
      }
      if contentEncoding != CONTENT_ENCODING {
        return None;
      }
      var decoded := DecodeTaskMessage(pool, body);
      if decoded.Err? {
        return None;
      }
      return Some(decoded.value);
    }
  }

  /** Why a received envelope yields no task message (the source logs the reason and returns nil). */
  datatype ReceiveError =
    | UnsupportedContentType(contentType: string)
    | UnsupportedBodyEncoding(bodyEncoding: string)
    | UnsupportedContentEncoding(contentEncoding: string)
    | UndecodableBody(cause: DecodeError)

  /**
    The receiving checks in order, then the body decoder: a body is delivered
    exactly when the envelope declares JSON, base64 and UTF-8 and the body
    decodes, and the first declaration that differs is the one reported.
   */
  function Receive(contentType: string, bodyEncoding: string, contentEncoding: string, body: string)
    : (r: Result<Body, ReceiveError>)
    ensures r.Ok? <==> contentType == CONTENT_TYPE && bodyEncoding == BODY_ENCODING
                       && contentEncoding == CONTENT_ENCODING && DecodeBody(body).Ok?
    ensures r.Ok? ==> DecodeBody(body) == Ok(r.value)
    ensures contentType != CONTENT_TYPE ==> r == Err(UnsupportedContentType(contentType))
    ensures contentType == CONTENT_TYPE && bodyEncoding != BODY_ENCODING ==> r == Err(UnsupportedBodyEncoding(bodyEncoding))
    ensures (contentType == CONTENT_TYPE && bodyEncoding == BODY_ENCODING && contentEncoding != CONTENT_ENCODING)
      ==> r == Err(UnsupportedContentEncoding(contentEncoding))
    ensures (contentType == CONTENT_TYPE && bodyEncoding == BODY_ENCODING && contentEncoding == CONTENT_ENCODING
             && DecodeBody(body).Err?) ==> r == Err(UndecodableBody(DecodeBody(body).error))
  {
    if contentType != CONTENT_TYPE then Err(UnsupportedContentType(contentType))
    else if bodyEncoding != BODY_ENCODING then Err(UnsupportedBodyEncoding(bodyEncoding))
    else if contentEncoding != CONTENT_ENCODING then Err(UnsupportedContentEncoding(contentEncoding))
    else
      match DecodeBody(body)
      case Err(e) => Err(UndecodableBody(e))
      case Ok(b) => Ok(b)
  }

  /** `celeryMessagePoolV2`: distinct reset envelopes waiting to be reused, the most recently released first. */
  class MessagePool {
    var free: seq<CeleryMessage>
    ghost var Repr: set<object>

    ghost predicate Valid()
      reads this, Repr
    {
      this in Repr
      && (forall i :: 0 <= i < |free| ==> free[i] in Repr && free[i].IsReset())
      && (forall i, j :: 0 <= i < j < |free| ==> free[i] != free[j])
    }

    constructor ()
      ensures Valid() && free == [] && fresh(Repr)
    {
      free := [];
      Repr := {this};
    }

    /** `Get`: a reset envelope, from the pool or newly made from the given random bytes. */
    method Get(replyRandom: seq<byte>, tagRandom: seq<byte>) returns (m: CeleryMessage)
      requires Valid() && |replyRandom| == 16 && |tagRandom| == 16
      modifies this
      ensures Valid() && Repr <= old(Repr) && m !in Repr
      ensures m.IsReset()
      ensures old(free) == [] ==> fresh(m) && free == [] && m.properties == ResetProperties(replyRandom, tagRandom)
      ensures old(free) != [] ==> m == old(free[|free| - 1]) && m in old(Repr) && free == old(free[..|free| - 1])
    {
      if free == [] {
        m := new CeleryMessage(replyRandom, tagRandom);
      } else {
        m := free[|free| - 1];
        free := free[..|free| - 1];
        Repr := Repr - {m};
      }
    }

    /** `Put`: a reset envelope the pool does not hold yet becomes the next to be handed out. */
    method Put(m: CeleryMessage)
      requires Valid() && m.IsReset() && m !in Repr
      modifies this
      ensures Valid() && free == old(free) + [m] && Repr == old(Repr) + {m}
    {
      free := free + [m];
      Repr := Repr + {m};
    }
  }

  /**
    `getCeleryMessageV2`: an envelope from the pool carrying the encoded body and
    a copy of the headers, correlated by the task id; every other field keeps its
    reset value.
   */
  method GetCeleryMessage(pool: MessagePool, body: string, headers: Headers,
                          replyRandom: seq<byte>, tagRandom: seq<byte>) returns (m: CeleryMessage)
    requires pool.Valid() && |replyRandom| == 16 && |tagRandom| == 16
    modifies pool, pool.Repr
    ensures pool.Valid() && pool.Repr <= old(pool.Repr) && m !in pool.Repr
    ensures fresh(m) || m in old(pool.Repr)
    ensures m.body == body && m.headers == headers
    ensures m.properties.correlationId == headers.id
    ensures PropertiesReset(m.properties.(correlationId := ""))
    ensures m.contentType == CONTENT_TYPE && m.contentEncoding == CONTENT_ENCODING
  {
    m := pool.Get(replyRandom, tagRandom);
    var reset := m.properties;
    assert PropertiesReset(reset);
    m.body := body;
    m.headers := headers;
    m.properties := reset.(correlationId := headers.id);
    assert m.properties.(correlationId := "") == reset;
  }

  /** `releaseCeleryMessageV2`: reset the envelope and give it back to the pool. */
  method ReleaseCeleryMessage(pool: MessagePool, m: CeleryMessage, replyRandom: seq<byte>, tagRandom: seq<byte>)
    requires pool.Valid() && m !in pool.Repr && |replyRandom| == 16 && |tagRandom| == 16
    modifies pool, m
    ensures pool.Valid() && m.IsReset() && m.body == ""
    ensures pool.free == old(pool.free) + [m]
  {
    m.Reset(replyRandom, tagRandom);
    pool.Put(m);
  }

  // Sending and receiving.

  /** What a sender writes into an envelope, the receiver reads back. */
  lemma ReceiveSent(b: Body)
    requires BodyEncodable(b)
    ensures EncodeBody(b).Ok?
    ensures Receive(CONTENT_TYPE, BODY_ENCODING, CONTENT_ENCODING, EncodeBody(b).value) == Ok(b)
  {
    DecodeEncodeBody(b);
  }

  /**
    The sending side: a task message with the given positional arguments is
    taken from the pool and encoded, and the text is put in an envelope with
    the headers.
   */
  method Send(tasks: TaskPool, envelopes: MessagePool, headers: Headers, args: seq<Value>,
              replyRandom: seq<byte>, tagRandom: seq<byte>) returns (envelope: CeleryMessage)
    requires tasks.Valid() && envelopes.Valid() && |replyRandom| == 16 && |tagRandom| == 16
    requires tasks.Repr !! envelopes.Repr
    requires Encodable(List(args))
    modifies tasks, tasks.Repr, envelopes, envelopes.Repr
    ensures tasks.Valid() && envelopes.Valid() && envelope !in tasks.Repr
    ensures tasks.Repr <= old(tasks.Repr) && envelopes.Repr <= old(envelopes.Repr)
    ensures envelope.headers == headers && envelope.properties.correlationId == headers.id
    ensures Receive(envelope.contentType, envelope.properties.bodyEncoding, envelope.contentEncoding, envelope.body)
         == Ok(Body(args, map[], EMPTY_EMBED))
  {
    var task := GetTaskMessage(tasks, args);
    ghost var sent := task.Contents();
    assert BodyEncodable(sent);
    var wire := task.Encode();
    envelope := GetCeleryMessage(envelopes, wire.value, headers, replyRandom, tagRandom);
    assert DecodeBody(envelope.body) == Ok(sent);
  }

  /**
    A task message encoded and put in an envelope with its headers is found
    again in that envelope, with the envelope correlated to the task id.
   */
  method SendAndReceive(tasks: TaskPool, envelopes: MessagePool, headers: Headers, args: seq<Value>,
                        replyRandom: seq<byte>, tagRandom: seq<byte>) returns (received: Option<TaskMessage>)
    requires tasks.Valid() && envelopes.Valid() && |replyRandom| == 16 && |tagRandom| == 16
    requires tasks.Repr !! envelopes.Repr
    requires Encodable(List(args))
    modifies tasks, tasks.Repr, envelopes, envelopes.Repr
    ensures tasks.Valid() && envelopes.Valid()
    ensures received.Some? && received.value.args == args && received.value.kwargs.entries == map[]
  {
    var envelope := Send(tasks, envelopes, headers, args, replyRandom, tagRandom);
    received := envelope.GetTaskMessage(tasks);
    assert received.Some?;
    assert received.value.Contents() == Body(args, map[], EMPTY_EMBED);
  }
}
