/**
  The body of a Celery protocol-2 task message: the JSON array
  `[args, kwargs, embed]`, written as UTF-8 and then as standard padded base64.
  `embed` is an object with the four fields callbacks, errbacks, chain and chord.
  This module holds the pure encoding and decoding; the pooled message objects
  that use them are in TaskMessages.
 */
module TaskCodec {
  import opened Prelude
  import opened JsonText
  import opened GoValues
  import Base64
  import Utf8
  import JsonParser

  /** The `embed` block; a field nobody set is nil. */
  datatype Embed = Embed(callbacks: Value, errbacks: Value, chain: Value, chord: Value)

  const EMPTY_EMBED: Embed := Embed(Nil, Nil, Nil, Nil)

  datatype EmbedField = Callbacks | Errbacks | Chain | Chord

  /** The JSON name of a field, from its struct tag. */
  function FieldName(f: EmbedField): string
  {
    match f
    case Callbacks => "callbacks"
    case Errbacks => "errbacks"
    case Chain => "chain"
    case Chord => "chord"
  }

  function GetField(e: Embed, f: EmbedField): Value
  {
    match f
    case Callbacks => e.callbacks
    case Errbacks => e.errbacks
    case Chain => e.chain
    case Chord => e.chord
  }

  function SetField(e: Embed, f: EmbedField, v: Value): (r: Embed)
    ensures GetField(r, f) == v
    ensures forall g :: g != f ==> GetField(r, g) == GetField(e, g)
  {
    match f
    case Callbacks => e.(callbacks := v)
    case Errbacks => e.(errbacks := v)
    case Chain => e.(chain := v)
    case Chord => e.(chord := v)
  }

  /** What a decoded body holds: positional arguments, keyword arguments and the embed block. */
  datatype Body = Body(args: seq<Value>, kwargs: map<string, Value>, embed: Embed)

  // Decoding.

  /**
    The character `encoding/json` compares when it matches an object key with a
    field name without regard to case: the smallest member of the character's
    simple case-folding orbit. For the ASCII field names here only three kinds of
    character matter: ASCII letters, the Kelvin sign U+212A (which folds with k)
    and the long s U+017F (which folds with s).
   */
  function FoldChar(c: char): (r: char)
    ensures 'a' <= c <= 'z' ==> r as int == c as int - 32
    ensures r == 'K' <==> c == 'K' || c == 'k' || c == 0x212A as char
    ensures r == 'S' <==> c == 'S' || c == 's' || c == 0x017F as char
  {
    if 'a' <= c <= 'z' then (c as int - 32) as char
    else if c == 0x212A as char then 'K'
    else if c == 0x017F as char then 'S'
    else c
  }

  predicate FoldEqual(a: string, b: string)
  {
    |a| == |b| && forall i :: 0 <= i < |a| ==> FoldChar(a[i]) == FoldChar(b[i])
  }

  /** The field a JSON key sets, or `None` when it names none of them. */
  function FieldOf(key: string): (r: Option<EmbedField>)
    ensures r.Some? ==> FoldEqual(key, FieldName(r.value))
    ensures r.None? ==> forall f :: !FoldEqual(key, FieldName(f))
  {
    if FoldEqual(key, "callbacks") then Some(Callbacks)
    else if FoldEqual(key, "errbacks") then Some(Errbacks)
    else if FoldEqual(key, "chain") then Some(Chain)
    else if FoldEqual(key, "chord") then Some(Chord)
    else None
  }

  /**
    Decoding an object's members into the embed block: each member whose key
    matches a field sets that field, unknown keys are skipped, and a later member
    overrides an earlier one.
   */
  function DecodeEmbedMembers(e: Embed, ms: seq<Member>): Embed
  {
    if |ms| == 0 then e
    else
      var before := DecodeEmbedMembers(e, ms[..|ms| - 1]);
      var last := ms[|ms| - 1];
      match FieldOf(last.key)
      case None => before
      case Some(f) => SetField(before, f, ToValue(last.value))
  }

  /** Why a body does not decode, in the order the decoder meets the problems. */
  datatype DecodeError =
      /** The text is not standard padded base64. */
    | InvalidBase64
      /** The bytes are not one JSON document. */
    | InvalidJson
      /** The document is neither an array nor null. */
    | PayloadNotArray
      /** The document is an array of a length other than three (null counts as length zero). */
    | PayloadLength(n: nat)
      /** The first slot is neither an array nor null. */
    | ArgsNotArray
      /** The second slot is neither an object nor null. */
    | KwargsNotObject
      /** The third slot is neither an object nor null. */
    | EmbedNotObject

  /** `json.Unmarshal` of the bytes into `[]json.RawMessage`, followed by the length check. */
  function Slots(bytes: seq<byte>): (r: Result<seq<Json>, DecodeError>)
    ensures r.Ok? ==> |r.value| == 3
  {
    match JsonParser.Parse(Utf8.Decode(bytes))
    case None => Err(InvalidJson)
    case Some(JNull) => Err(PayloadLength(0))
    case Some(JArray(items)) => if |items| != 3 then Err(PayloadLength(|items|)) else Ok(items)
    case Some(_) => Err(PayloadNotArray)
  }

  /** `json.Unmarshal` of the first slot into `[]interface{}`; null leaves the slice empty. */
  function DecodeArgs(j: Json): (r: Result<seq<Value>, DecodeError>)
    ensures r.Ok? <==> j.JNull? || j.JArray?
    ensures j.JArray? ==> r == Ok(ToValue(j).items)
  {
    match j
    case JNull => Ok([])
    case JArray(_) => Ok(ToValue(j).items)
    case _ => Err(ArgsNotArray)
  }

  /** `json.Unmarshal` of the second slot into `map[string]interface{}`; null leaves the map empty. */
  function DecodeKwargs(j: Json): (r: Result<map<string, Value>, DecodeError>)
    ensures r.Ok? <==> j.JNull? || j.JObject?
    ensures j.JObject? ==> r == Ok(ToValue(j).entries)
  {
    match j
    case JNull => Ok(map[])
    case JObject(_) => Ok(ToValue(j).entries)
    case _ => Err(KwargsNotObject)
  }

  /** `json.Unmarshal` of the third slot into the embed block `e`; null leaves it as it is. */
  function DecodeEmbed(j: Json, e: Embed): (r: Result<Embed, DecodeError>)
    ensures r.Ok? <==> j.JNull? || j.JObject?
    ensures j.JNull? ==> r == Ok(e)
  {
    match j
    case JNull => Ok(e)
    case JObject(ms) => Ok(DecodeEmbedMembers(e, ms))
    case _ => Err(EmbedNotObject)
  }

  /** The JSON steps of `DecodeTaskMessageV2` on a reset message, the first failure winning. */
  function DecodePayload(bytes: seq<byte>): (r: Result<Body, DecodeError>)
    ensures Slots(bytes).Err? ==> r == Err(Slots(bytes).error)
    ensures r.Ok? <==>
      && Slots(bytes).Ok?
      && (Slots(bytes).value[0].JNull? || Slots(bytes).value[0].JArray?)
      && (Slots(bytes).value[1].JNull? || Slots(bytes).value[1].JObject?)
      && (Slots(bytes).value[2].JNull? || Slots(bytes).value[2].JObject?)
    ensures r.Ok? ==>
      && (Slots(bytes).value[0].JNull? ==> r.value.args == [])
      && (Slots(bytes).value[1].JNull? ==> r.value.kwargs == map[])
      && (Slots(bytes).value[2].JNull? ==> r.value.embed == EMPTY_EMBED)
  {
    match Slots(bytes)
    case Err(e) => Err(e)
    case Ok(slots) =>
      match DecodeArgs(slots[0])
      case Err(e) => Err(e)
      case Ok(args) =>
        match DecodeKwargs(slots[1])
        case Err(e) => Err(e)
        case Ok(kwargs) =>
          match DecodeEmbed(slots[2], EMPTY_EMBED)
          case Err(e) => Err(e)
          case Ok(embed) => Ok(Body(args, kwargs, embed))
  }

  /** `DecodeTaskMessageV2`: base64 first, then the JSON steps. */
  function DecodeBody(wire: string): (r: Result<Body, DecodeError>)
    ensures Base64.Decode(wire).None? ==> r == Err(InvalidBase64)
    ensures |Base64.StripNewlines(wire)| % 4 != 0 ==> r == Err(InvalidBase64)
    ensures Base64.StripNewlines(wire) == "" ==> r == Err(InvalidJson)
  {
    match Base64.Decode(wire)
    case None => Err(InvalidBase64)
    case Some(bytes) => DecodePayload(bytes)
  }

  // Encoding.

  /** `json.Marshal` refused a value: an unsupported type or value somewhere inside. */
  datatype EncodeError = UnsupportedValue

  predicate EmbedEncodable(e: Embed)
  {
    Encodable(e.callbacks) && Encodable(e.errbacks) && Encodable(e.chain) && Encodable(e.chord)
  }

  predicate BodyEncodable(b: Body)
  {
    Encodable(List(b.args)) && Encodable(Dict(b.kwargs)) && EmbedEncodable(b.embed)
  }

  /** The embed block as an object, its members in field order. */
  function EmbedToJson(e: Embed): Option<Json>
  {
    match (ToJson(e.callbacks), ToJson(e.errbacks), ToJson(e.chain), ToJson(e.chord))
    case (Some(a), Some(b), Some(c), Some(d)) =>
      Some(JObject([Member("callbacks", a), Member("errbacks", b), Member("chain", c), Member("chord", d)]))
    case _ => None
  }

  /** The document `[args, kwargs, embed]`. */
  function PayloadJson(b: Body): Option<Json>
  {
    match (ToJson(List(b.args)), ToJson(Dict(b.kwargs)), EmbedToJson(b.embed))
    case (Some(a), Some(k), Some(e)) => Some(JArray([a, k, e]))
    case _ => None
  }

  /** `TaskMessageV2.Encode`: the base64 text of the marshalled payload. */
  function EncodeBody(b: Body): (r: Result<string, EncodeError>)
    ensures r.Ok? <==> BodyEncodable(b)
    ensures r.Ok? ==> |r.value| % 4 == 0
  {
    ToJsonToValue(List(b.args));
    ToJsonToValue(Dict(b.kwargs));
    ToJsonToValue(b.embed.callbacks);
    ToJsonToValue(b.embed.errbacks);
    ToJsonToValue(b.embed.chain);
    ToJsonToValue(b.embed.chord);
    match PayloadJson(b)
    case None => Err(UnsupportedValue)
    case Some(j) => Ok(Base64.Encode(Utf8.Encode(Print(j))))
  }

  // What encoding and decoding promise.

  /** Each field name matches its own field and no other. */
  lemma FieldOfName(f: EmbedField)
    ensures FieldOf(FieldName(f)) == Some(f)
  {
    match f
    case Callbacks =>
    case Errbacks =>
    case Chain =>
    case Chord =>
      assert FoldChar("chord"[2]) != FoldChar("chain"[2]);
  }

  /** A key matches a field whatever the case of its letters. */
  lemma FieldOfUpperCase()
    ensures FieldOf("CallBacks") == Some(Callbacks)
  {
  }

  /** A key that folds to none of the four names is skipped. */
  lemma FieldOfUnknown()
    ensures FieldOf("kwargs") == None
  {
  }

  /** The Kelvin sign U+212A stands for the letter k in a key. */
  lemma FieldOfKelvin()
    ensures FieldOf("callbac" + [0x212A as char] + "s") == Some(Callbacks)
  {
    var key := "callbac" + [0x212A as char] + "s";
    assert forall i :: 0 <= i < 9 ==> FoldChar(key[i]) == FoldChar("callbacks"[i]);
  }

  /** Members whose keys name no field leave the embed block as it was. */
  lemma {:induction false} UnknownMembersIgnored(e: Embed, ms: seq<Member>)
    requires forall i :: 0 <= i < |ms| ==> FieldOf(ms[i].key).None?
    ensures DecodeEmbedMembers(e, ms) == e
  {
    if |ms| > 0 {
      UnknownMembersIgnored(e, ms[..|ms| - 1]);
    }
  }

  /** A field that no member names keeps the value it had. */
  lemma {:induction false} UnnamedFieldKept(e: Embed, ms: seq<Member>, f: EmbedField)
    requires forall i :: 0 <= i < |ms| ==> FieldOf(ms[i].key) != Some(f)
    ensures GetField(DecodeEmbedMembers(e, ms), f) == GetField(e, f)
  {
    if |ms| > 0 {
      UnnamedFieldKept(e, ms[..|ms| - 1], f);
    }
  }

  /** A field takes the value of the last member that names it. */
  lemma {:induction false} LastNamingMember(e: Embed, ms: seq<Member>, i: nat, f: EmbedField)
    requires i < |ms| && FieldOf(ms[i].key) == Some(f)
    requires forall k :: i < k < |ms| ==> FieldOf(ms[k].key) != Some(f)
    ensures GetField(DecodeEmbedMembers(e, ms), f) == ToValue(ms[i].value)
  {
    if i < |ms| - 1 {
      LastNamingMember(e, ms[..|ms| - 1], i, f);
    }
  }

  /** The last member naming a field decides it, whatever came before. */
  lemma LastMemberWins(e: Embed, ms: seq<Member>, m: Member, f: EmbedField)
    requires FieldOf(m.key) == Some(f)
    ensures GetField(DecodeEmbedMembers(e, ms + [m]), f) == ToValue(m.value)
    ensures forall g :: g != f ==> GetField(DecodeEmbedMembers(e, ms + [m]), g) == GetField(DecodeEmbedMembers(e, ms), g)
  {
    assert (ms + [m])[..|ms|] == ms;
  }

  /** Decoding the body the encoder wrote gives back what it was given. */
  lemma DecodeEncodeBody(b: Body)
    requires EncodeBody(b).Ok?
    ensures DecodeBody(EncodeBody(b).value) == Ok(b)
  {
    var j := PayloadJson(b).value;
    var bytes := Utf8.Encode(Print(j));
    Base64.DecodeEncode(bytes);
    SlotsOfPrinted(j);
    var a, k, e := j.items[0], j.items[1], j.items[2];
    ArgsRoundTrip(b.args);
    KwargsRoundTrip(b.kwargs);
    EmbedRoundTrip(b.embed);
  }

  lemma SlotsOfPrinted(j: Json)
    requires j.JArray? && |j.items| == 3
    ensures Slots(Utf8.Encode(Print(j))) == Ok(j.items)
  {
    Utf8.DecodeEncode(Print(j));
    JsonParser.ParseOfPrint(j);
  }

  lemma ArgsRoundTrip(args: seq<Value>)
    requires ToJson(List(args)).Some?
    ensures DecodeArgs(ToJson(List(args)).value) == Ok(args)
  {
    ToJsonToValue(List(args));
  }

  lemma KwargsRoundTrip(kwargs: map<string, Value>)
    requires ToJson(Dict(kwargs)).Some?
    ensures DecodeKwargs(ToJson(Dict(kwargs)).value) == Ok(kwargs)
  {
    ToJsonToValue(Dict(kwargs));
  }

  lemma EmbedRoundTrip(e: Embed)
    requires EmbedToJson(e).Some?
    ensures DecodeEmbed(EmbedToJson(e).value, EMPTY_EMBED) == Ok(e)
  {
    var ms := EmbedToJson(e).value.members;
    ToJsonToValue(e.callbacks);
    ToJsonToValue(e.errbacks);
    ToJsonToValue(e.chain);
    ToJsonToValue(e.chord);
    FieldOfName(Callbacks);
    FieldOfName(Errbacks);
    FieldOfName(Chain);
    FieldOfName(Chord);
    EmbedStep(EMPTY_EMBED, [], ms[0]);
    assert [] + [ms[0]] == ms[..1];
    EmbedStep(EMPTY_EMBED, ms[..1], ms[1]);
    assert ms[..1] + [ms[1]] == ms[..2];
    EmbedStep(EMPTY_EMBED, ms[..2], ms[2]);
    assert ms[..2] + [ms[2]] == ms[..3];
    EmbedStep(EMPTY_EMBED, ms[..3], ms[3]);
    assert ms[..3] + [ms[3]] == ms;
  }

  /** One more member: the field its key names is set to its value. */
  lemma EmbedStep(e: Embed, ms: seq<Member>, m: Member)
    requires FieldOf(m.key).Some?
    ensures DecodeEmbedMembers(e, ms + [m]) == SetField(DecodeEmbedMembers(e, ms), FieldOf(m.key).value, ToValue(m.value))
  {
    assert (ms + [m])[..|ms|] == ms;
  }

  // The decoder's answers on malformed bodies.

  /**
    A text whose length, line breaks aside, is not a multiple of four is refused
    before any JSON is looked at.
   */
  lemma DecodeBadLength(wire: string)
    requires |wire| % 4 != 0
    requires forall i :: 0 <= i < |wire| ==> wire[i] != '\n' && wire[i] != '\r'
    ensures DecodeBody(wire) == Err(InvalidBase64)
  {
    Base64.StripNewlinesNone(wire);
  }

  lemma DecodeNotBase64()
    ensures DecodeBody("not-valid-base64!") == Err(InvalidBase64)
  {
    DecodeBadLength("not-valid-base64!");
  }

  /** The empty text decodes to no bytes, which are not a JSON document. */
  lemma DecodeEmptyText()
    ensures DecodeBody("") == Err(InvalidJson)
  {
  }

  /** Valid base64 of bytes that are not JSON is refused as such. */
  lemma DecodeNotJson(bytes: seq<byte>)
    requires JsonParser.Parse(Utf8.Decode(bytes)) == None
    ensures DecodeBody(Base64.Encode(bytes)) == Err(InvalidJson)
  {
    Base64.DecodeEncode(bytes);
  }

  lemma DecodeWords()
    ensures DecodeBody(Base64.Encode(Utf8.Encode("invalid json"))) == Err(InvalidJson)
  {
    Base64.DecodeEncode(Utf8.Encode("invalid json"));
    Utf8.DecodeEncode("invalid json");
    WordsNotJson();
  }

  lemma WordsNotJson()
    ensures JsonParser.Parse("invalid json") == None
  {
  }

  /**
    A JSON document that is not an array of three is refused, however it is
    laid out: null counts as length zero, an array of another length by its
    length, anything else as not an array.
   */
  lemma DecodeWrongShape(bytes: seq<byte>, j: Json)
    requires JsonParser.Parse(Utf8.Decode(bytes)) == Some(j)
    requires !(j.JArray? && |j.items| == 3)
    ensures var r := DecodeBody(Base64.Encode(bytes));
      && (j.JNull? ==> r == Err(PayloadLength(0)))
      && (j.JArray? ==> r == Err(PayloadLength(|j.items|)))
      && (!j.JNull? && !j.JArray? ==> r == Err(PayloadNotArray))
  {
    Base64.DecodeEncode(bytes);
  }

  /**
    The slots are checked in order, args, then kwargs, then embed, and the first
    slot of the wrong kind decides the error.
   */
  lemma DecodeSlotErrors(a: Json, k: Json, e: Json)
    ensures var r := DecodeBody(Base64.Encode(Utf8.Encode(Print(JArray([a, k, e])))));
      && (!a.JNull? && !a.JArray? ==> r == Err(ArgsNotArray))
      && ((a.JNull? || a.JArray?) && !k.JNull? && !k.JObject? ==> r == Err(KwargsNotObject))
      && ((a.JNull? || a.JArray?) && (k.JNull? || k.JObject?) && !e.JNull? && !e.JObject? ==> r == Err(EmbedNotObject))
  {
    var j := JArray([a, k, e]);
    Base64.DecodeEncode(Utf8.Encode(Print(j)));
    SlotsOfPrinted(j);
  }

  /** The two-element payload of the wrong-length test, with its spaces, is refused by its length. */
  lemma DecodeSpacedPair()
    ensures DecodeBody(Base64.Encode(Utf8.Encode("[[1, 2], {\"key\": \"value\"}]"))) == Err(PayloadLength(2))
  {
    var text := "[[1, 2], {\"key\": \"value\"}]";
    SpacedPairParses();
    Utf8.DecodeEncode(text);
    DecodeWrongShape(Utf8.Encode(text), JArray([JArray([JNumber(1), JNumber(2)]), JObject([Member("key", JString("value"))])]));
  }

  lemma SpacedPairParses()
    ensures JsonParser.Parse("[[1, 2], {\"key\": \"value\"}]")
      == Some(JArray([JArray([JNumber(1), JNumber(2)]), JObject([Member("key", JString("value"))])]))
  {
    var obj := "{" + (Print(JString("key")) + (": " + (Print(JString("value")) + "}")));
    var pairs := "[" + (Print(JNumber(1)) + (", " + (Print(JNumber(2)) + "]")));
    JsonParser.SpacedNumbers(1, 2, ", " + (obj + "]"));
    JsonParser.ParsePrintString("value", "}" + "]");
    JsonParser.SpacedMember("key", JString("value"), Print(JString("value")), "]");
    JsonParser.SpacedDocument(JArray([JNumber(1), JNumber(2)]), pairs, JObject([Member("key", JString("value"))]), obj);
    SpacedPairText();
  }

  /** The test's text, cut at its values. */
  lemma SpacedPairText()
    ensures "[[1, 2], {\"key\": \"value\"}]"
      == "[" + ("[" + (Print(JNumber(1)) + (", " + (Print(JNumber(2)) + "]")))
         + (", " + ("{" + (Print(JString("key")) + (": " + (Print(JString("value")) + "}"))) + "]")))
  {
    calc {
      "[" + ("[" + (Print(JNumber(1)) + (", " + (Print(JNumber(2)) + "]")))
        + (", " + ("{" + (Print(JString("key")) + (": " + (Print(JString("value")) + "}"))) + "]")));
      { PrintedPieces(); }
      "[" + ("[" + ("1" + (", " + ("2" + "]"))) + (", " + ("{" + ("\"key\"" + (": " + ("\"value\"" + "}"))) + "]")));
      { SpacedPairPieces(); }
      "[" + ("[1, 2]" + (", " + ("{\"key\": \"value\"}" + "]")));
      { SpacedPairWhole(); }
      "[[1, 2], {\"key\": \"value\"}]";
    }
  }

  lemma SpacedPairPieces()
    ensures "[1, 2]" == "[" + ("1" + (", " + ("2" + "]")))
    ensures "{\"key\": \"value\"}" == "{" + ("\"key\"" + (": " + ("\"value\"" + "}")))
  {
  }

  lemma SpacedPairWhole()
    ensures "[[1, 2], {\"key\": \"value\"}]" == "[" + ("[1, 2]" + (", " + ("{\"key\": \"value\"}" + "]")))
  {
  }

  lemma PrintedPieces()
    ensures Print(JNumber(1)) == "1" && Print(JNumber(2)) == "2"
    ensures Print(JString("key")) == "\"key\"" && Print(JString("value")) == "\"value\""
  {
    EscapeLetters("key");
    EscapeLetters("value");
  }
}
