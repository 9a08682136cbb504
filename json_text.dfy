/**
  JSON documents (RFC 8259) as a syntax tree, and the compact text Go's
  `json.Marshal` writes for them: no whitespace, object members in the order the
  tree holds them, integers in decimal, and strings escaped the way Go's encoder
  escapes them with HTML escaping on (the default for `json.Marshal`).
 */
module JsonText {

  /** A JSON value. Objects keep their members in document order, duplicates included. */
  datatype Json =
    | JNull
    | JBool(b: bool)
    | JNumber(n: int)
    | JString(s: string)
    | JArray(items: seq<Json>)
    | JObject(members: seq<Member>)

  /** One `"key": value` pair of an object. */
  datatype Member = Member(key: string, value: Json)

  predicate IsDigit(c: char) { '0' <= c <= '9' }

  /** The lower-case hexadecimal digit Go's encoder uses. */
  function HexDigit(d: int): (c: char)
    requires 0 <= d < 16
  {
    if d < 10 then ('0' as int + d) as char else ('a' as int + d - 10) as char
  }

  /** The decimal digits of a natural number, most significant first. */
  function Digits(n: nat): (r: string)
    ensures |r| >= 1
    ensures forall i :: 0 <= i < |r| ==> IsDigit(r[i])
    ensures r[0] == '0' ==> n == 0
  {
    if n < 10 then [('0' as int + n) as char]
    else Digits(n / 10) + [('0' as int + n % 10) as char]
  }

  /** An integer as `strconv.FormatInt(n, 10)` writes it (and `%d`). */
  function FormatInt(n: int): (r: string)
    ensures |r| >= 1 && (r[0] == '-' || IsDigit(r[0]))
  {
    if n < 0 then "-" + Digits(-n) else Digits(n)
  }

  /** `\u00XY` for a code point below 0x100. */
  function ShortUnicodeEscape(v: int): string
    requires 0 <= v < 0x100
  {
    "\\u00" + [HexDigit(v / 16), HexDigit(v % 16)]
  }

  /**
    How Go's encoder writes one character inside a string: the quote and the
    backslash escaped, \b \f \n \r \t by their short escapes, the remaining
    control characters and the HTML-sensitive '<', '>' and '&' as \u00XX, the line
    and paragraph separators U+2028 and U+2029 as \u2028 and \u2029, and every
    other character as itself.
   */
  function EscapeChar(c: char): (r: string)
    ensures |r| >= 1
  {
    if c == '"' || c == '\\' then ['\\', c]
    else if c == 0x08 as char then "\\b"
    else if c == 0x0C as char then "\\f"
    else if c == '\n' then "\\n"
    else if c == '\r' then "\\r"
    else if c == '\t' then "\\t"
    else if c < ' ' || c == '<' || c == '>' || c == '&' then ShortUnicodeEscape(c as int)
    else if c == 0x2028 as char then "\\u2028"
    else if c == 0x2029 as char then "\\u2029"
    else [c]
  }

  function Escape(s: string): string
  {
    if |s| == 0 then "" else EscapeChar(s[0]) + Escape(s[1..])
  }

  /** A string literal: the escaped characters between double quotes. */
  function Quote(s: string): (r: string)
    ensures |r| >= 2 && r[0] == '"' && r[|r| - 1] == '"'
  {
    "\"" + Escape(s) + "\""
  }

  /** The compact text of a value. */
  function Print(j: Json): (r: string)
    ensures |r| >= 1
    ensures r[0] in "ntf-\"[{" || IsDigit(r[0])
  {
    match j
    case JNull => "null"
    case JBool(b) => if b then "true" else "false"
    case JNumber(n) => FormatInt(n)
    case JString(s) => Quote(s)
    case JArray(items) => "[" + PrintItems(items) + "]"
    case JObject(members) => "{" + PrintMembers(members) + "}"
  }

  /** Array elements separated by commas. */
  function PrintItems(items: seq<Json>): string
  {
    if |items| == 0 then ""
    else if |items| == 1 then Print(items[0])
    else Print(items[0]) + "," + PrintItems(items[1..])
  }

  function PrintMember(m: Member): string
  {
    Quote(m.key) + ":" + Print(m.value)
  }

  /** Object members separated by commas. */
  function PrintMembers(members: seq<Member>): string
  {
    if |members| == 0 then ""
    else if |members| == 1 then PrintMember(members[0])
    else PrintMember(members[0]) + "," + PrintMembers(members[1..])
  }

  /** Letters and digits need no escaping. */
  lemma {:induction false} EscapeLetters(s: string)
    requires forall i :: 0 <= i < |s| ==> 'a' <= s[i] <= 'z' || 'A' <= s[i] <= 'Z' || IsDigit(s[i])
    ensures Escape(s) == s
  {
    if |s| > 0 {
      EscapeLetters(s[1..]);
      assert s == [s[0]] + s[1..];
    }
  }
}
