# Celery protocol-2 task messages (gocelery `message_v2.go`)

This project models how gocelery builds, encodes, sends, receives and decodes
Celery task messages in protocol version 2, and proves properties of that
model in Dafny.

- **Task body.** A task body is the JSON document `[args, kwargs, embed]`. It
  is written in UTF-8 and sent as standard padded base64.
- **Envelope.** The envelope (`CeleryMessageV2`) carries:
  - the encoded body;
  - a copy of the headers (task name, task id, `pid@hostname` origin, and
    `argsrepr`, the text form of the arguments);
  - delivery properties;
  - the declared content type and encodings.
- **Pools.** Task messages, header blocks and envelopes come from pools of
  reset objects and go back to them, reset, when released.

The model is layered as follows.

- `prelude.dfy`: `Option`, `Result` and `byte`.
- `base64.dfy`: the standard alphabet with padding, as in RFC 4648 section 4.
  The decoder skips CR and LF, as Go's decoder does.
- `utf8.dfy`: UTF-8 encoding of text and Go's lenient decoding. An invalid
  byte becomes U+FFFD.
- `json_text.dfy` and `json_parser.dfy`: JSON syntax trees, Go's compact
  printer with its string escapes, and a recursive-descent parser.
- `go_values.dfy`: Go's `interface{}` values, as `json.Marshal` writes them
  (map keys in byte order) and as `json.Unmarshal` reads them (a repeated
  key keeps its last value).
- `uuid.dfy`: the text of a version-4 UUID made from sixteen random bytes.
- `task_codec.dfy`: the body codec as pure functions:
  - `EncodeBody`, which is `TaskMessageV2.Encode`;
  - `DecodeBody`, which is `DecodeTaskMessageV2`, including each way it
    fails;
  - the embed block's case-insensitive field matching.
- `task_message.dfy`: the pooled `TaskMessageV2` objects. The keyword map is
  a Go map: a reference object updated in place.
- `headers.dfy`: the pooled header blocks, `buildCeleryHeadersV2` and
  `formatArgsrepr`.
- `envelope.dfy`: the pooled envelopes, their reset, `getCeleryMessageV2`
  and the receiving side, `GetTaskMessageV2`.

Some details come from the code itself rather than from the protocol's
description. In each of them the model does what the code does:

- **Empty payload.** A `null` payload is rejected with "payload length 0",
  because `json.Unmarshal` leaves the slice empty.
- **Null slots.** A `null` args or kwargs slot decodes to an empty one.
- **Embed keys.** Embed keys match field names in any letter case, with Go's
  folding of the Kelvin sign and the long s.

## Model

| member | source | states |
|---|---|---|
| Base64.Encode | message_v2.go:314 | the text is a whole number of four-character groups and holds no line break |
| Base64.EncodedLength | message_v2.go:314 | the text has 4·⌈n/3⌉ characters for n bytes |
| Base64.Decode | message_v2.go:262-265 | a text whose length without CR/LF is not a multiple of four is rejected; an empty text is no bytes; an accepted text holds, apart from CR/LF, only alphabet characters and '=' in its last two places |
| Base64.DecodeEncode | message_v2.go:262 | decoding what the encoder wrote gives back the bytes |
| Base64.DecodeIgnoresNewlines | message_v2.go:262 | a CR or LF inserted anywhere does not change the decoded result |
| Utf8.Encode | message_v2.go:310 | encoding never shortens the text |
| Utf8.Decode | message_v2.go:268 | decoding never yields more characters than bytes |
| Utf8.DecodeEncode | message_v2.go:268 | decoding the UTF-8 encoding of a text gives back the text |
| Utf8.EncodeAscii | message_v2.go:310 | ASCII text encodes byte for byte |
| JsonText.Quote | message_v2.go:310 | a string is written with a quote at each end |
| JsonText.EscapeLetters | message_v2.go:183 | letters and digits are written as they are |
| JsonText.FormatInt | message_v2.go:160 | `%d` writes a sign or a digit first |
| JsonText.Print | message_v2.go:310 | `json.Marshal`'s text is never empty and starts as a JSON value starts; `JsonParser.ParseOfPrint` reads it back |
| JsonParser.Parse | message_v2.go:268-271 | a text that is empty or only whitespace is not a document; `ParseOfPrint`, `SpacedDocument` and `TaskCodec.WordsNotJson` say what else it accepts and refuses |
| JsonParser.ParseOfPrint | message_v2.go:268 | parsing what the printer wrote gives back the document |
| JsonParser.ParseFormatInt | message_v2.go:278 | a printed integer reads back as that number |
| JsonParser.ParseValueSpace | message_v2.go:268 | a space before a value does not change what is read |
| JsonParser.SpacedNumbers | message_v2_edge_test.go:36 | `[x, y]`, with a space after the comma, reads as the array of the two numbers |
| JsonParser.SpacedMember | message_v2_edge_test.go:36 | `{"key": value}`, with a space after the colon, reads as the one-member object |
| JsonParser.SpacedDocument | message_v2_edge_test.go:36 | `[a, o]`, with a space after the comma, is the two-element document when its parts read as `a` and `o` |
| GoValues.SortedKeys | message_v2.go:310 | the keys of a map, each exactly once |
| GoValues.SortedKeysIncrease | message_v2.go:310 | map keys are written in increasing byte order |
| GoValues.ToJsonToValue | message_v2.go:310 | a value converts to JSON exactly when it is marshallable, and converts back to itself |
| GoValues.UnmarshalMarshal | message_v2.go:310 | a marshallable value reads back as itself after `json.Marshal` and `json.Unmarshal` |
| GoValues.Marshal | message_v2.go:310-313 | `json.Marshal` succeeds exactly on the values holding nothing it cannot write; `UnmarshalMarshal` reads its text back |
| GoValues.MembersToMapSource | message_v2.go:285 | each key of a decoded object takes the value of its last member |
| GoValues.ToJsonPair | message_v2.go:179-183 | a two-key map is written as its two members in key order |
| Uuid.SetVersion | message_v2.go:161 | byte 6 carries version 4, byte 8 variant 10, and the other bytes are the random ones |
| Uuid.NewString | message_v2.go:161 | the text has 36 characters, dashes at 8, 13, 18 and 23, and '4' at 14 |
| Uuid.NewStringShape | message_v2.go:161 | the text is non-empty and has dashes at exactly those four places |
| TaskCodec.SetField | message_v2.go:195-200 | setting one embed field changes that field and no other |
| TaskCodec.FoldChar | message_v2.go:296 | folding maps each lower-case ASCII letter to its capital and folds the Kelvin sign to K and the long s to S |
| TaskCodec.FieldOf | message_v2.go:296 | a key selects a field exactly when it equals the field's name after folding |
| TaskCodec.FieldOfName | message_v2.go:196-199 | each tag name selects its own field |
| TaskCodec.FieldOfUpperCase | message_v2.go:296 | "CallBacks" selects `callbacks` |
| TaskCodec.FieldOfUnknown | message_v2.go:296 | "kwargs" selects no embed field |
| TaskCodec.FieldOfKelvin | message_v2.go:296 | a Kelvin sign in place of 'k' still selects `callbacks` |
| TaskCodec.UnknownMembersIgnored | message_v2.go:296 | members naming no field leave the embed block unchanged |
| TaskCodec.UnnamedFieldKept | message_v2.go:296 | an embed field that no member names keeps its previous value |
| TaskCodec.LastNamingMember | message_v2.go:296 | an embed field takes the value of the last member naming it |
| TaskCodec.LastMemberWins | message_v2.go:296 | the last member naming a field decides it and leaves the other fields as they were |
| TaskCodec.EmbedStep | message_v2.go:296 | each member naming a field sets that field to its value |
| TaskCodec.Slots | message_v2.go:267-275 | a payload that decodes has exactly three slots |
| TaskCodec.DecodeArgs | message_v2.go:277-281 | the args slot decodes exactly when it is an array or null, to the array's elements |
| TaskCodec.DecodeKwargs | message_v2.go:284-288 | the kwargs slot decodes exactly when it is an object or null, to the object's entries |
| TaskCodec.DecodeEmbed | message_v2.go:296-299 | the embed slot decodes exactly when it is an object or null; null leaves the block as it was |
| TaskCodec.DecodePayload | message_v2.go:267-299 | the document's shape is checked before its slots; a body is produced exactly when the three slots have the right kinds, and a null slot gives an empty one |
| TaskCodec.DecodeBody | message_v2.go:261-302 | base64 is checked first: text that is not base64, or whose length without CR/LF is not a multiple of four, fails as such, and the empty text fails as invalid JSON; `DecodeEncodeBody` and the lemmas below say the rest |
| TaskCodec.EncodeBody | message_v2.go:305-316 | encoding succeeds exactly when args, kwargs and the embed block hold nothing unmarshallable, and the text is whole base64 groups; `DecodeEncodeBody` decodes it back |
| TaskCodec.DecodeEncodeBody | message_v2.go:261-316 | decoding the text the encoder wrote gives back the same args, kwargs and embed block |
| TaskCodec.SlotsOfPrinted | message_v2.go:267-275 | a printed three-element array splits back into its three slots |
| TaskCodec.ArgsRoundTrip | message_v2.go:277-282 | marshalled args decode to themselves |
| TaskCodec.KwargsRoundTrip | message_v2.go:284-294 | marshalled kwargs decode to themselves |
| TaskCodec.EmbedRoundTrip | message_v2.go:296-299 | a marshalled embed block decodes to itself |
| TaskCodec.DecodeBadLength | message_v2.go:262-265 | a text without line breaks whose length is not a multiple of four fails as invalid base64 |
| TaskCodec.DecodeNotBase64 | message_v2_edge_test.go:16-21 | "not-valid-base64!" fails as invalid base64 |
| TaskCodec.DecodeEmptyText | message_v2_edge_test.go:8-13 | the empty text fails as invalid JSON |
| TaskCodec.DecodeNotJson | message_v2.go:268-271 | valid base64 of bytes that do not parse fails as invalid JSON |
| TaskCodec.DecodeWords | message_v2_edge_test.go:24-31 | the base64 of the words "invalid json" fails as invalid JSON |
| TaskCodec.WordsNotJson | message_v2_edge_test.go:26 | "invalid json" is not a JSON document |
| TaskCodec.DecodeWrongShape | message_v2.go:267-275 | for any bytes that parse, with or without whitespace: null fails with length 0, an array of other than three elements with its length, and anything else as not an array |
| TaskCodec.DecodeSlotErrors | message_v2.go:277-299 | in a three-element payload the first slot of the wrong kind decides the error: args, then kwargs, then embed |
| TaskCodec.DecodeSpacedPair | message_v2_edge_test.go:34-43 | the test's two-element payload `[[1, 2], {"key": "value"}]` fails with length 2 |
| TaskCodec.SpacedPairParses | message_v2_edge_test.go:36 | the test's payload text, spaces included, reads as the two-element array |
| TaskMessages.GoMap.constructor | message_v2.go:215 | a new map is empty |
| TaskMessages.GoMap.Set | message_v2.go:248 | the key now maps to the value and nothing else changes |
| TaskMessages.GoMap.Delete | message_v2.go:218 | the key is gone and nothing else changes |
| TaskMessages.GoMap.Clear | message_v2.go:217-219 | deleting every key while ranging over the map empties it |
| TaskMessages.GoMap.CopyEntries | message_v2.go:247-249 | the map holds its old entries overwritten by the source's |
| TaskMessages.TaskMessage.constructor | message_v2.go:224-230 | a new message is reset and owns a fresh keyword map |
| TaskMessages.TaskMessage.Reset | message_v2.go:210-222 | no args, the same keyword map emptied in place, an empty embed block |
| TaskMessages.TaskMessage.Encode | message_v2.go:305-316 | encoding succeeds exactly when the contents are marshallable, and then decodes back to the contents |
| TaskMessages.TaskPool.constructor | message_v2.go:224-230 | the pool starts empty |
| TaskMessages.TaskPool.Get | message_v2.go:237 | a reset message is handed out, the last one put back or a new one, and it is no longer the pool's |
| TaskMessages.TaskPool.Put | message_v2.go:257 | the reset message becomes the next to be handed out |
| TaskMessages.ReleaseTaskMessage | message_v2.go:255-258 | the message is reset and returned to the pool |
| TaskMessages.GetTaskMessageWithKwargs | message_v2.go:236-253 | the message holds the args, a copy of the caller's kwargs (none when nil) and an empty embed; the caller's map is untouched and not shared |
| TaskMessages.GetTaskMessage | message_v2.go:232-234 | the message holds the args, no kwargs and an empty embed |
| TaskMessages.DecodeTaskMessage | message_v2.go:261-302 | it fails exactly as the body decoder does and otherwise holds the decoded body; on failure the message goes back to the pool |
| TaskMessages.Fill | message_v2.go:266-301 | a reset message is filled with exactly what the JSON steps decode |
| TaskMessages.KwargsDoNotLeak | message_v2_test.go:72-84 | changing the caller's map after building the message leaves the message's kwargs as they were |
| TaskMessages.EncodeDecode | message_v2.go:261-316 | a marshallable message survives `Encode` followed by `DecodeTaskMessageV2` |
| TaskMessages.EncodeEmptyRoundTrip | message_v2_edge_test.go:46-64 | an empty message encodes and decodes to a message with no args |
| CeleryHeaders.HeaderBlock.constructor | message_v2.go:145-151 | a new block has the reset values |
| CeleryHeaders.HeaderBlock.Reset | message_v2.go:129-143 | language "py", time limit (60, nil), and every other field empty |
| CeleryHeaders.HeadersPool.constructor | message_v2.go:145-151 | the pool starts empty |
| CeleryHeaders.HeadersPool.Get | message_v2.go:158 | a reset block is handed out, the last one put back or a new one |
| CeleryHeaders.HeadersPool.Put | message_v2.go:192 | the reset block becomes the next to be handed out |
| CeleryHeaders.BuildHeaders | message_v2.go:157-166 | the reset block with the origin, one fresh UUID as id and root id, the task name and `argsrepr`; the id is non-empty and the language is "py" |
| CeleryHeaders.FormatArgsrepr | message_v2.go:168-188 | `argsrepr` is JSON-like text opening with '[' or '{', and with '[' when there are no kwargs; the `Argsrepr` lemmas below give it exactly |
| CeleryHeaders.GetHeaders | message_v2.go:153-155 | the same headers without keyword arguments |
| CeleryHeaders.ReleaseHeaders | message_v2.go:190-193 | the block is reset and returned to the pool |
| CeleryHeaders.ArgsreprEmpty | message_v2.go:169-172 | with no args and no kwargs, nil or empty, `argsrepr` is "[]" |
| CeleryHeaders.ArgsreprPositional | message_v2.go:173-177 | without kwargs, `argsrepr` reads back as the positional args |
| CeleryHeaders.ArgsreprWithKwargs | message_v2.go:179-187 | with kwargs, `argsrepr` is the object with "args" first and "kwargs" second |
| CeleryHeaders.ArgsreprWithKwargsReadsBack | message_v2.go:179-187 | with kwargs, `argsrepr` reads back as the object holding both |
| CeleryHeaders.ArgsreprMentionsKwargs | message_v2_test.go:86-94 | with kwargs, `argsrepr` is neither "[]" nor empty and contains `"kwargs"` |
| CeleryHeaders.ObjectText | message_v2_edge_test.go:105-109 | the argsrepr object text starts with '{' and contains `"kwargs"` |
| CeleryHeaders.PayloadText | message_v2.go:179-183 | the two-key payload object as `json.Marshal` writes it |
| CeleryHeaders.PairText | message_v2.go:183 | a two-member object is written as both members, separated by a comma, between braces |
| CeleryHeaders.ArgsreprFallback | message_v2.go:168-188 | whenever marshalling fails, `argsrepr` is "[]" |
| CeleryHeaders.Origin | message_v2.go:160 | the origin splits at its first '@' into the process id and the host name |
| CeleryHeaders.SplitAtFirst | message_v2.go:160 | text with no '@', then '@', then anything, splits back into its two parts |
| CeleryHeaders.ReleaseClearsHeaders | message_v2_edge_test.go:132-149 | a released block has no task name and no id |
| CeleryEnvelope.ResetProperties | message_v2.go:65-76 | priority 0, base64 bodies, no correlation id, routing key "celery", delivery mode 2, and two 36-character UUIDs |
| CeleryEnvelope.CeleryMessage.constructor | message_v2.go:32-38 | a new envelope is in the reset state |
| CeleryEnvelope.CeleryMessage.Reset | message_v2.go:24-30 | reset headers, no body, "application/json", "utf-8", and reset properties |
| CeleryEnvelope.CeleryMessage.GetTaskMessage | message_v2.go:85-108 | a task message exactly when the three declarations match and the body decodes, holding the decoded body |
| CeleryEnvelope.Receive | message_v2.go:86-106 | a body is delivered exactly when the declarations match and it decodes; content type, then body encoding, then content encoding, then the body's own decoding error: the first that fails is the one reported |
| CeleryEnvelope.MessagePool.constructor | message_v2.go:32-38 | the pool starts empty |
| CeleryEnvelope.MessagePool.Get | message_v2.go:41 | a reset envelope is handed out, the last one put back or a new one |
| CeleryEnvelope.MessagePool.Put | message_v2.go:51 | the reset envelope becomes the next to be handed out |
| CeleryEnvelope.GetCeleryMessage | message_v2.go:40-47 | the envelope carries the body and the headers, its correlation id is the task id, and every other field keeps its reset value |
| CeleryEnvelope.ReleaseCeleryMessage | message_v2.go:49-52 | the envelope is reset, with an empty body, and returned to the pool |
| CeleryEnvelope.ReceiveSent | message_v2.go:85-108 | what the sender encodes under the default declarations, the receiver decodes back |
| CeleryEnvelope.Send | message_v2_test.go:48-70 | the envelope of an encoded task carries its headers, is correlated by the task id, and its body decodes to the task |
| CeleryEnvelope.SendAndReceive | message_v2.go:85-108 | a task sent in an envelope is received with the same args and no kwargs |

## Left out

- **Pool order.** `sync.Pool` may hand out any pooled object, or a new one,
  at any time. The model hands out the most recently released object first,
  and makes a new one only when the pool is empty.
- **Reclaimed objects.** The model does not capture the garbage collector
  reclaiming pooled objects, or pools shared between goroutines.
- **Double release.** `Put` requires that the object is not already pooled,
  so the model has no double release.
- **Randomness and the host.** `uuid.New`'s randomness, `os.Getpid` and
  `os.Hostname` are parameters: sixteen random bytes per UUID, a process id
  and a host name. An error from `os.Hostname` is not modelled; its empty
  result is one of the host names the parameter can take.
- **Logging.** The `log.Println` calls on the receiving side are left out.
  `Receive` names the reason, but `GetTaskMessage` returns no task message,
  as the source does.
- **Floating point.** Numbers are integers. A JSON number with a fraction or
  an exponent is rejected by the parser. Go decodes every number into a
  `float64`, so integers beyond 2^53 lose precision there but not in the
  model. Non-finite floats are among the `Unsupported` values that
  `json.Marshal` refuses.
- **Numbers beyond `float64`.** Go decodes a JSON number into `interface{}`
  as a `float64` and fails with an `UnmarshalTypeError` when an integer
  literal is beyond `float64`'s range (about 1.8·10^308). The model reads
  every integer, so `DecodeTaskMessageV2` on such a body fails in Go but
  succeeds in the model.
- **Nesting depth.** Go's JSON scanner refuses documents nested more than
  10000 levels deep. The parser here has no depth limit, so such a body
  fails in Go but can decode in the model.
- **Unsupported values.** Go's unmarshallable values (channels, functions,
  complex numbers, NaN and infinities) are one `Unsupported` value. The
  error text `json.Marshal` gives is not modelled.
- **Error texts.** `DecodeError` names which step failed, not the error
  text.
- **Aliasing inside values.** The keyword map of a task message is a
  reference object. Values nested inside it (maps and slices within
  `interface{}`) are copied values, so the shallow-copy aliasing of nested
  maps is not modelled.
- TaskMessages.TaskMessage.Reset: a nil slice of args and an empty one are
  the same value, because `Encode` writes both as `[]` and no caller can tell
  them apart.
- TaskMessages.TaskMessage.Reset: the branch of `reset` that makes a keyword
  map when it is nil is not modelled. Every message the pools make already
  has one, and the model's keyword map is never null.
- TaskMessages.GetTaskMessageWithKwargs: the isolation of the caller's map is
  stated only for a map the pool does not hold.
- CeleryEnvelope.CeleryMessage.GetTaskMessage: it requires that the envelope
  is not an object of the task pool.
- **Invalid UTF-8 in strings.** Text from callers is a sequence of Unicode
  characters. Invalid UTF-8 inside Go strings given by callers is not
  modelled.
- **The `"invalid json"` test.** The literal base64 text of this test is
  stated as the base64 encoding of the UTF-8 bytes of the words
  (`TaskCodec.DecodeWords`), not as the literal characters.
- **The wrong-length test.** The literal base64 text of this test is stated
  as the base64 encoding of the UTF-8 bytes of its payload
  (`TaskCodec.DecodeSpacedPair`), not as the literal characters.
- **`gocelery_v2.go`.** It is not part of this model.
- **JSON marshalling of the envelope.** The broker-side JSON of the envelope
  itself is not modelled.
