/**
  A JSON reader with the acceptance rules of Go's `encoding/json` decoder:
  whitespace is space, tab, line feed and carriage return; a document is one value
  with nothing but whitespace around it; strings may not hold raw control
  characters; the escapes are \" \\ \/ \b \f \n \r \t and \uXXXX, where a
  surrogate pair is combined and a lone surrogate becomes U+FFFD.
  Numbers are read as integers only (see the README).
 */
module JsonParser {
  import opened Prelude
  import opened JsonText

  const REPLACEMENT: char := 0xFFFD as char

  predicate IsWhitespace(c: char) { c == ' ' || c == '\t' || c == '\n' || c == '\r' }

  /** The text after its leading whitespace. */
  function SkipWs(s: string): (r: string)
    ensures |r| <= |s|
    ensures |r| > 0 ==> !IsWhitespace(r[0])
    ensures |s| > 0 && !IsWhitespace(s[0]) ==> r == s
  {
    if |s| > 0 && IsWhitespace(s[0]) then SkipWs(s[1..]) else s
  }

  function HexValue(c: char): Option<int>
  {
    if '0' <= c <= '9' then Some(c as int - '0' as int)
    else if 'a' <= c <= 'f' then Some(c as int - 'a' as int + 10)
    else if 'A' <= c <= 'F' then Some(c as int - 'A' as int + 10)
    else None
  }

  /** The value of four hexadecimal digits at the front of the text. */
  function Hex4(s: string): (r: Option<int>)
    ensures r.Some? ==> |s| >= 4 && 0 <= r.value < 0x10000
  {
    if |s| < 4 then None
    else match (HexValue(s[0]), HexValue(s[1]), HexValue(s[2]), HexValue(s[3]))
      case (Some(a), Some(b), Some(c), Some(d)) =>
        if 0 <= a < 16 && 0 <= b < 16 && 0 <= c < 16 && 0 <= d < 16
        then Some(((a * 16 + b) * 16 + c) * 16 + d)
        else None
      case _ => None
  }

  /** The character a one-letter escape stands for. */
  function ShortEscape(c: char): Option<char>
  {
    if c == '"' || c == '\\' || c == '/' then Some(c)
    else if c == 'b' then Some(0x08 as char)
    else if c == 'f' then Some(0x0C as char)
    else if c == 'n' then Some('\n')
    else if c == 'r' then Some('\r')
    else if c == 't' then Some('\t')
    else None
  }

  /**
    The rest of a string literal after its opening quote: the characters read so
    far are `acc`; the result is the string's content and the text after the
    closing quote.
   */
  function ParseString(s: string, acc: string): (r: Option<(string, string)>)
    ensures r.Some? ==> |r.value.1| < |s|
    decreases |s|
  {
    if |s| == 0 then None
    else if s[0] == '"' then Some((acc, s[1..]))
    else if s[0] == '\\' then
      if |s| < 2 then None
      else if s[1] != 'u' then
        match ShortEscape(s[1])
        case None => None
        case Some(c) => ParseString(s[2..], acc + [c])
      else
        match Hex4(s[2..])
        case None => None
        case Some(x) =>
          if 0xD800 <= x < 0xE000 then
            var low := if x < 0xDC00 && |s| >= 8 && s[6] == '\\' && s[7] == 'u' then Hex4(s[8..]) else None;
            if low.Some? && 0xDC00 <= low.value < 0xE000 then
              ParseString(s[12..], acc + [(0x10000 + (x - 0xD800) * 0x400 + (low.value - 0xDC00)) as char])
            else ParseString(s[6..], acc + [REPLACEMENT])
          else ParseString(s[6..], acc + [x as char])
    else if s[0] < ' ' then None
    else ParseString(s[1..], acc + [s[0]])
  }

  /** The length of the run of decimal digits at the front of the text. */
  function DigitSpan(s: string): (k: nat)
    ensures k <= |s|
    ensures forall i :: 0 <= i < k ==> IsDigit(s[i])
    ensures k < |s| ==> !IsDigit(s[k])
  {
    if |s| > 0 && IsDigit(s[0]) then 1 + DigitSpan(s[1..]) else 0
  }

  /** The number a run of decimal digits denotes. */
  function DigitsValue(ds: string): nat
    requires forall i :: 0 <= i < |ds| ==> IsDigit(ds[i])
  {
    if |ds| == 0 then 0
    else
      assert IsDigit(ds[|ds| - 1]);
      DigitsValue(ds[..|ds| - 1]) * 10 + (ds[|ds| - 1] as int - '0' as int)
  }

  /**
    A number: an optional minus sign, then 0 or a digit run without a leading
    zero. A fraction or an exponent is refused (integers only).
   */
  function ParseNumber(s: string): (r: Option<(Json, string)>)
    requires |s| > 0
    ensures r.Some? ==> |r.value.1| < |s|
  {
    var neg := s[0] == '-';
    var t := if neg then s[1..] else s;
    if |t| == 0 || !IsDigit(t[0]) then None
    else
      var k := if t[0] == '0' then 1 else DigitSpan(t);
      var magnitude := DigitsValue(t[..k]);
      var rest := t[k..];
      if |rest| > 0 && (rest[0] == '.' || rest[0] == 'e' || rest[0] == 'E') then None
      else Some((JNumber(if neg then -(magnitude as int) else magnitude), rest))
  }

  /** A keyword (`null`, `true`, `false`) at the front of the text. */
  function ParseLiteral(s: string, word: string, v: Json): (r: Option<(Json, string)>)
    requires |word| > 0
    ensures r.Some? ==> |r.value.1| < |s|
  {
    if |s| >= |word| && s[..|word|] == word then Some((v, s[|word|..])) else None
  }

  /** One value after optional whitespace, and the text after it. */
  function ParseValue(s: string): (r: Option<(Json, string)>)
    ensures r.Some? ==> |r.value.1| < |s|
    decreases |s|, 0
  {
    var t := SkipWs(s);
    if |t| == 0 then None
    else if t[0] == 'n' then ParseLiteral(t, "null", JNull)
    else if t[0] == 't' then ParseLiteral(t, "true", JBool(true))
    else if t[0] == 'f' then ParseLiteral(t, "false", JBool(false))
    else if t[0] == '"' then
      match ParseString(t[1..], "")
      case None => None
      case Some((str, rest)) => Some((JString(str), rest))
    else if t[0] == '[' then ParseArray(t[1..])
    else if t[0] == '{' then ParseObject(t[1..])
    else if t[0] == '-' || IsDigit(t[0]) then ParseNumber(t)
    else None
  }

  /** An array after its '[': either ']' at once, or a list of elements. */
  function ParseArray(s: string): (r: Option<(Json, string)>)
    ensures r.Some? ==> |r.value.1| < |s|
    decreases |s|, 2
  {
    var u := SkipWs(s);
    if |u| > 0 && u[0] == ']' then Some((JArray([]), u[1..])) else ParseElements(u, [])
  }

  /** An object after its '{': either '}' at once, or a list of members. */
  function ParseObject(s: string): (r: Option<(Json, string)>)
    ensures r.Some? ==> |r.value.1| < |s|
    decreases |s|, 2
  {
    var u := SkipWs(s);
    if |u| > 0 && u[0] == '}' then Some((JObject([]), u[1..])) else ParseMembers(u, [])
  }

  /** The elements of a non-empty array after '[', up to and including ']'. */
  function ParseElements(s: string, acc: seq<Json>): (r: Option<(Json, string)>)
    ensures r.Some? ==> |r.value.1| < |s|
    decreases |s|, 1
  {
    match ParseValue(s)
    case None => None
    case Some((v, rest)) =>
      var t := SkipWs(rest);
      if |t| == 0 then None
      else if t[0] == ',' then ParseElements(t[1..], acc + [v])
      else if t[0] == ']' then Some((JArray(acc + [v]), t[1..]))
      else None
  }

  /** The members of a non-empty object after '{', up to and including '}'. */
  function ParseMembers(s: string, acc: seq<Member>): (r: Option<(Json, string)>)
    ensures r.Some? ==> |r.value.1| < |s|
    decreases |s|, 1
  {
    var t := SkipWs(s);
    if |t| == 0 || t[0] != '"' then None
    else
      match ParseString(t[1..], "")
      case None => None
      case Some((key, r1)) =>
        var u := SkipWs(r1);
        if |u| == 0 || u[0] != ':' then None
        else
          match ParseValue(u[1..])
          case None => None
          case Some((v, r2)) =>
            var w := SkipWs(r2);
            if |w| == 0 then None
            else if w[0] == ',' then ParseMembers(w[1..], acc + [Member(key, v)])
            else if w[0] == '}' then Some((JObject(acc + [Member(key, v)]), w[1..]))
            else None
  }

  /** A whole document: one value with only whitespace around it (`json.Unmarshal`'s syntax check). */
  function Parse(text: string): (r: Option<Json>)
    ensures SkipWs(text) == "" ==> r.None?
  {
    match ParseValue(text)
    case None => None
    case Some((v, rest)) => if SkipWs(rest) == "" then Some(v) else None
  }

  // Reading back what the printer writes.

  /** What may follow a printed value inside a document: nothing, a comma or a closing bracket. */
  predicate Delimited(rest: string)
  {
    |rest| == 0 || rest[0] == ',' || rest[0] == ']' || rest[0] == '}'
  }

  lemma HexValueHexDigit(d: int)
    requires 0 <= d < 16
    ensures HexValue(HexDigit(d)) == Some(d)
  {
  }

  lemma ParseShortUnicodeEscape(c: char, tail: string, acc: string)
    requires c as int < 0x100
    ensures ParseString(ShortUnicodeEscape(c as int) + tail, acc) == ParseString(tail, acc + [c])
  {
    var v := c as int;
    var u := ShortUnicodeEscape(v) + tail;
    HexValueHexDigit(v / 16);
    HexValueHexDigit(v % 16);
    assert u[0] == '\\' && u[1] == 'u';
    assert u[2..][0] == '0' && u[2..][1] == '0';
    assert u[2..][2] == HexDigit(v / 16) && u[2..][3] == HexDigit(v % 16);
    assert Hex4(u[2..]) == Some(v);
    assert u[6..] == tail;
  }

  lemma ParseSeparatorEscape(c: char, tail: string, acc: string)
    requires c == 0x2028 as char || c == 0x2029 as char
    ensures ParseString(EscapeChar(c) + tail, acc) == ParseString(tail, acc + [c])
  {
    var u := EscapeChar(c) + tail;
    assert u[0] == '\\' && u[1] == 'u';
    assert u[2..][..4] == EscapeChar(c)[2..];
    assert Hex4(u[2..]) == Some(c as int);
    assert u[6..] == tail;
  }

  /** The reader turns the escaped form of one character back into that character. */
  lemma ParseEscapeChar(c: char, tail: string, acc: string)
    ensures ParseString(EscapeChar(c) + tail, acc) == ParseString(tail, acc + [c])
  {
    var u := EscapeChar(c) + tail;
    if c == '"' || c == '\\' || c == 0x08 as char || c == 0x0C as char || c == '\n' || c == '\r' || c == '\t' {
      assert u[0] == '\\' && u[2..] == tail;
    } else if c < ' ' || c == '<' || c == '>' || c == '&' {
      ParseShortUnicodeEscape(c, tail, acc);
    } else if c == 0x2028 as char || c == 0x2029 as char {
      ParseSeparatorEscape(c, tail, acc);
    } else {
      assert u[0] == c && u[1..] == tail;
    }
  }

  /** A quoted string reads back as the string, with the text after the closing quote left over. */
  lemma {:induction false} ParseEscape(s: string, rest: string, acc: string)
    ensures ParseString(Escape(s) + "\"" + rest, acc) == Some((acc + s, rest))
    decreases |s|
  {
    if |s| == 0 {
      assert Escape(s) + "\"" + rest == "\"" + rest;
      assert acc + s == acc;
    } else {
      var tail := Escape(s[1..]) + "\"" + rest;
      assert Escape(s) + "\"" + rest == EscapeChar(s[0]) + tail;
      ParseEscapeChar(s[0], tail, acc);
      ParseEscape(s[1..], rest, acc + [s[0]]);
      AppendHead(acc, s);
    }
  }

  lemma {:induction false} DigitSpanDigits(ds: string, rest: string)
    requires forall i :: 0 <= i < |ds| ==> IsDigit(ds[i])
    requires |rest| == 0 || !IsDigit(rest[0])
    ensures DigitSpan(ds + rest) == |ds|
    decreases |ds|
  {
    if |ds| > 0 {
      assert (ds + rest)[1..] == ds[1..] + rest;
      DigitSpanDigits(ds[1..], rest);
    } else {
      assert ds + rest == rest;
    }
  }

  lemma {:induction false} DigitsValueDigits(n: nat)
    ensures DigitsValue(Digits(n)) == n
  {
    if n >= 10 {
      var ds := Digits(n);
      assert ds[..|ds| - 1] == Digits(n / 10);
      DigitsValueDigits(n / 10);
    }
  }

  lemma ParseNaturalDigits(n: nat, rest: string)
    requires Delimited(rest)
    ensures var t := Digits(n) + rest;
      var k := if t[0] == '0' then 1 else DigitSpan(t);
      k <= |t| && t[..k] == Digits(n) && t[k..] == rest
  {
    var t := Digits(n) + rest;
    if t[0] == '0' {
      assert Digits(n) == "0";
    } else {
      DigitSpanDigits(Digits(n), rest);
    }
    assert t[..|Digits(n)|] == Digits(n);
  }

  /** An integer in decimal reads back as itself, whatever delimiter follows it. */
  lemma ParseFormatInt(n: int, rest: string)
    requires Delimited(rest)
    ensures ParseNumber(FormatInt(n) + rest) == Some((JNumber(n), rest))
  {
    var m: nat := if n < 0 then -n else n;
    FormatIntText(n, rest);
    ParseSigned(FormatInt(n) + rest, m, rest, n < 0);
  }

  lemma FormatIntText(n: int, rest: string)
    ensures var m: nat := if n < 0 then -n else n;
      FormatInt(n) + rest == if n < 0 then "-" + (Digits(m) + rest) else Digits(m) + rest
  {
    if n < 0 {
      assert FormatInt(n) == "-" + Digits(-n);
    }
  }

  lemma ParseSigned(s: string, m: nat, rest: string, neg: bool)
    requires Delimited(rest)
    requires s == if neg then "-" + (Digits(m) + rest) else Digits(m) + rest
    ensures ParseNumber(s) == Some((JNumber(if neg then -(m as int) else m), rest))
  {
    var t := Digits(m) + rest;
    DigitsText(m, rest);
    var k := if t[0] == '0' then 1 else DigitSpan(t);
    if neg {
      assert s[0] == '-' && s[1..] == t;
    }
    ParseNumberShape(s, t, neg, k, m, rest);
  }

  /** The facts `ParseNumber` needs about the digits of a magnitude followed by a delimiter. */
  lemma DigitsText(m: nat, rest: string)
    requires Delimited(rest)
    ensures var t := Digits(m) + rest;
      var k := if t[0] == '0' then 1 else DigitSpan(t);
      |t| > 0 && t[0] != '-' && IsDigit(t[0]) && k <= |t| && t[k..] == rest
      && (forall i :: 0 <= i < k ==> IsDigit(t[i])) && DigitsValue(t[..k]) == m
  {
    ParseNaturalDigits(m, rest);
    DigitsValueDigits(m);
  }

  /** How `ParseNumber` reads a digit run of value `mag` after an optional minus sign. */
  lemma ParseNumberShape(s: string, t: string, neg: bool, k: nat, mag: nat, rest: string)
    requires |s| > 0 && (s[0] == '-') == neg && t == (if neg then s[1..] else s)
    requires |t| > 0 && IsDigit(t[0]) && k == (if t[0] == '0' then 1 else DigitSpan(t))
    requires k <= |t| && t[k..] == rest && Delimited(rest)
    requires forall i :: 0 <= i < k ==> IsDigit(t[i])
    requires DigitsValue(t[..k]) == mag
    ensures ParseNumber(s) == Some((JNumber(if neg then -(mag as int) else mag), rest))
  {
  }

  lemma SkipPrinted(j: Json, rest: string)
    ensures SkipWs(Print(j) + rest) == Print(j) + rest
  {
    var s := Print(j) + rest;
    assert s[0] == Print(j)[0];
  }

  /** The text of any value reads back as that value, with a delimited rest left over. */
  lemma {:induction false} ParsePrint(j: Json, rest: string)
    requires Delimited(rest)
    ensures ParseValue(Print(j) + rest) == Some((j, rest))
    decreases j, 3
  {
    if j.JNull? || j.JBool? {
      ParsePrintLiteral(j, rest);
    } else if j.JNumber? {
      ParsePrintNumber(j.n, rest);
    } else if j.JString? {
      ParsePrintString(j.s, rest);
    } else {
      ParsePrintBracketed(j, rest);
    }
  }

  lemma ParsePrintNumber(n: int, rest: string)
    requires Delimited(rest)
    ensures ParseValue(Print(JNumber(n)) + rest) == Some((JNumber(n), rest))
  {
    ParseFormatInt(n, rest);
    ParseValueNumber(FormatInt(n) + rest);
  }

  /** `ParseValue` on text that starts like a number hands it to `ParseNumber`. */
  lemma ParseValueNumber(s: string)
    requires |s| > 0 && (s[0] == '-' || IsDigit(s[0]))
    ensures ParseValue(s) == ParseNumber(s)
  {
    var t := SkipWs(s);
    assert t == s;
    assert t[0] != 'n' && t[0] != 't' && t[0] != 'f' && t[0] != '"' && t[0] != '[' && t[0] != '{';
  }

  lemma {:induction false} ParsePrintBracketed(j: Json, rest: string)
    requires j.JArray? || j.JObject?
    requires Delimited(rest)
    ensures ParseValue(Print(j) + rest) == Some((j, rest))
    decreases j, 2
  {
    BracketedText(j, rest);
    ParseValueOpen(Print(j) + rest);
    if j.JArray? {
      ParsePrintArray(j.items, rest);
    } else {
      ParsePrintObject(j.members, rest);
    }
  }

  lemma ParsePrintLiteral(j: Json, rest: string)
    requires j.JNull? || j.JBool?
    ensures ParseValue(Print(j) + rest) == Some((j, rest))
  {
    var s := Print(j) + rest;
    SkipPrinted(j, rest);
    if j.JNull? {
      assert s[..4] == "null" && s[4..] == rest;
    } else if j.b {
      assert s[..4] == "true" && s[4..] == rest;
    } else {
      assert s[..5] == "false" && s[5..] == rest;
    }
  }

  lemma ParsePrintString(str: string, rest: string)
    ensures ParseValue(Print(JString(str)) + rest) == Some((JString(str), rest))
  {
    var s := Print(JString(str)) + rest;
    SkipPrinted(JString(str), rest);
    assert s[1..] == Escape(str) + "\"" + rest;
    ParseEscape(str, rest, "");
    assert "" + str == str;
  }

  /** The text of an array or object is its opening bracket followed by the rest of the text. */
  lemma BracketedText(j: Json, rest: string)
    requires j.JArray? || j.JObject?
    ensures var s := Print(j) + rest;
      |s| > 0 && (s[0] == '[' || s[0] == '{') && (s[0] == '[') == j.JArray?
      && s[1..] == if j.JArray? then PrintItems(j.items) + "]" + rest else PrintMembers(j.members) + "}" + rest
  {
    var s := Print(j) + rest;
    if j.JArray? {
      assert s == "[" + (PrintItems(j.items) + "]" + rest);
    } else {
      assert s == "{" + (PrintMembers(j.members) + "}" + rest);
    }
  }

  /** `ParseValue` on text that starts with a bracket hands the rest to `ParseArray` or `ParseObject`. */
  lemma ParseValueOpen(s: string)
    requires |s| > 0 && (s[0] == '[' || s[0] == '{')
    ensures ParseValue(s) == if s[0] == '[' then ParseArray(s[1..]) else ParseObject(s[1..])
  {
    assert SkipWs(s) == s;
  }

  lemma {:induction false} ParsePrintArray(items: seq<Json>, rest: string)
    requires Delimited(rest)
    ensures ParseArray(PrintItems(items) + "]" + rest) == Some((JArray(items), rest))
    decreases JArray(items), 1
  {
    var u := PrintItems(items) + "]" + rest;
    if |items| == 0 {
      assert u == "]" + rest;
      assert SkipWs(u) == u;
    } else {
      FirstOfItems(items, "]" + rest);
      assert u == PrintItems(items) + ("]" + rest);
      ParseElementsPrint(items, [], rest);
      assert [] + items == items;
    }
  }

  lemma {:induction false} ParsePrintObject(members: seq<Member>, rest: string)
    requires Delimited(rest)
    ensures ParseObject(PrintMembers(members) + "}" + rest) == Some((JObject(members), rest))
    decreases JObject(members), 1
  {
    var u := PrintMembers(members) + "}" + rest;
    if |members| == 0 {
      assert u == "}" + rest;
      assert SkipWs(u) == u;
    } else {
      FirstOfMembers(members, rest);
      ParseMembersPrint(members, [], rest);
      assert [] + members == members;
    }
  }

  lemma FirstOfMembers(ms: seq<Member>, rest: string)
    requires |ms| > 0
    ensures SkipWs(PrintMembers(ms) + "}" + rest) == PrintMembers(ms) + "}" + rest
  {
    MembersText(ms, rest);
    MemberText(ms[0], MembersTail(ms, rest));
  }

  /** A non-empty printed element list starts where a value starts, so no whitespace is skipped. */
  lemma FirstOfItems(items: seq<Json>, rest: string)
    requires |items| > 0
    ensures SkipWs(PrintItems(items) + rest) == PrintItems(items) + rest
  {
    var s := PrintItems(items) + rest;
    assert s[0] == Print(items[0])[0];
  }

  /** One step of `ParseElements` once the next value has been read. */
  lemma ParseElementsStep(s: string, acc: seq<Json>, v: Json, after: string)
    requires ParseValue(s) == Some((v, after))
    requires |after| > 0 && (after[0] == ',' || after[0] == ']')
    ensures ParseElements(s, acc)
      == if after[0] == ',' then ParseElements(after[1..], acc + [v]) else Some((JArray(acc + [v]), after[1..]))
  {
    assert SkipWs(after) == after;
  }

  /** What follows the first element of a non-empty element list in the text of an array. */
  function ItemsTail(items: seq<Json>, rest: string): string
    requires |items| > 0
  {
    if |items| == 1 then "]" + rest else "," + PrintItems(items[1..]) + "]" + rest
  }

  lemma ItemsText(items: seq<Json>, rest: string)
    requires |items| > 0
    ensures PrintItems(items) + "]" + rest == Print(items[0]) + ItemsTail(items, rest)
    ensures var a := ItemsTail(items, rest);
      |a| > 0 && a[1..] == (if |items| == 1 then rest else PrintItems(items[1..]) + "]" + rest)
      && a[0] == (if |items| == 1 then ']' else ',')
  {
    if |items| == 1 {
      RegroupLast(PrintItems(items), Print(items[0]), "]", rest);
    } else {
      RegroupNext(PrintItems(items), Print(items[0]), PrintItems(items[1..]), "]", rest);
    }
  }

  /** Regrouping the text of a list whose last entry is `head`. */
  lemma RegroupLast(whole: string, head: string, close: string, rest: string)
    requires whole == head && |close| == 1
    ensures whole + close + rest == head + (close + rest)
    ensures (close + rest)[0] == close[0] && (close + rest)[1..] == rest
  {
  }

  /** Regrouping the text of a list whose first entry `head` is followed by a comma and `more`. */
  lemma RegroupNext(whole: string, head: string, more: string, close: string, rest: string)
    requires whole == head + "," + more
    ensures whole + close + rest == head + ("," + more + close + rest)
    ensures ("," + more + close + rest)[0] == ',' && ("," + more + close + rest)[1..] == more + close + rest
  {
  }

  /** The first element of a printed list reads back, and reading moves on past its delimiter. */
  lemma {:induction false} ParseElementsFirst(items: seq<Json>, acc: seq<Json>, rest: string)
    requires |items| > 0 && Delimited(rest)
    ensures ParseElements(PrintItems(items) + "]" + rest, acc)
      == if |items| == 1 then Some((JArray(acc + items), rest))
         else ParseElements(PrintItems(items[1..]) + "]" + rest, acc + [items[0]])
    decreases items, 0
  {
    var after := ItemsTail(items, rest);
    ItemsText(items, rest);
    ParsePrint(items[0], after);
    ParseElementsStep(Print(items[0]) + after, acc, items[0], after);
    if |items| == 1 {
      AppendHead(acc, items);
    }
  }

  /** The elements of a non-empty array read back, followed by the closing bracket. */
  lemma {:induction false} ParseElementsPrint(items: seq<Json>, acc: seq<Json>, rest: string)
    requires |items| > 0 && Delimited(rest)
    ensures ParseElements(PrintItems(items) + "]" + rest, acc) == Some((JArray(acc + items), rest))
    decreases items, 1
  {
    ParseElementsFirst(items, acc, rest);
    if |items| > 1 {
      ParseElementsPrint(items[1..], acc + [items[0]], rest);
      AppendHead(acc, items);
    }
  }

  /** The text of one member: its quoted key, then a colon and the value. */
  lemma MemberText(m: Member, after: string)
    ensures var t := PrintMember(m) + after;
      |t| > 0 && t[0] == '"' && t[1..] == Escape(m.key) + "\"" + (":" + Print(m.value) + after)
  {
    var t := PrintMember(m) + after;
    assert t == "\"" + (Escape(m.key) + "\"" + (":" + Print(m.value) + after));
  }

  lemma ParseMemberPrint(m: Member, after: string)
    ensures var t := PrintMember(m) + after;
      |t| > 0 && t[0] == '"' && ParseString(t[1..], "") == Some((m.key, ":" + Print(m.value) + after))
  {
    MemberText(m, after);
    ParseEscape(m.key, ":" + Print(m.value) + after, "");
    assert "" + m.key == m.key;
  }

  /** What follows the first member of a non-empty member list in the text of an object. */
  function MembersTail(ms: seq<Member>, rest: string): string
    requires |ms| > 0
  {
    if |ms| == 1 then "}" + rest else "," + PrintMembers(ms[1..]) + "}" + rest
  }

  lemma MembersText(ms: seq<Member>, rest: string)
    requires |ms| > 0
    ensures PrintMembers(ms) + "}" + rest == PrintMember(ms[0]) + MembersTail(ms, rest)
    ensures var a := MembersTail(ms, rest);
      |a| > 0 && a[1..] == (if |ms| == 1 then rest else PrintMembers(ms[1..]) + "}" + rest)
      && a[0] == (if |ms| == 1 then '}' else ',')
  {
    if |ms| == 1 {
      RegroupLast(PrintMembers(ms), PrintMember(ms[0]), "}", rest);
    } else {
      RegroupNext(PrintMembers(ms), PrintMember(ms[0]), PrintMembers(ms[1..]), "}", rest);
    }
  }

  lemma ColonText(v: Json, after: string)
    ensures var u := ":" + Print(v) + after; |u| > 0 && u[0] == ':' && u[1..] == Print(v) + after
  {
    var u := ":" + Print(v) + after;
    assert u == ":" + (Print(v) + after);
  }

  /** The first member of a printed list reads back, and reading moves on past its delimiter. */
  lemma {:induction false} ParseMembersFirst(ms: seq<Member>, acc: seq<Member>, rest: string)
    requires |ms| > 0 && Delimited(rest)
    ensures ParseMembers(PrintMembers(ms) + "}" + rest, acc)
      == if |ms| == 1 then Some((JObject(acc + ms), rest))
         else ParseMembers(PrintMembers(ms[1..]) + "}" + rest, acc + [ms[0]])
    decreases ms, 0
  {
    var after := MembersTail(ms, rest);
    MembersText(ms, rest);
    assert ms[0].value < ms[0];
    ParsePrint(ms[0].value, after);
    ParseMemberPrint(ms[0], after);
    ColonText(ms[0].value, after);
    ParseMembersStep(PrintMember(ms[0]) + after, acc, ms[0].key, ":" + Print(ms[0].value) + after, ms[0].value, after);
    if |ms| == 1 {
      AppendHead(acc, ms);
    }
  }

  /** The members of a non-empty object read back, followed by the closing brace. */
  lemma {:induction false} ParseMembersPrint(ms: seq<Member>, acc: seq<Member>, rest: string)
    requires |ms| > 0 && Delimited(rest)
    ensures ParseMembers(PrintMembers(ms) + "}" + rest, acc) == Some((JObject(acc + ms), rest))
    decreases ms, 1
  {
    ParseMembersFirst(ms, acc, rest);
    if |ms| > 1 {
      ParseMembersPrint(ms[1..], acc + [ms[0]], rest);
      AppendHead(acc, ms);
    }
  }

  /** One step of `ParseMembers` once a key, a colon and a value have been read. */
  lemma ParseMembersStep(s: string, acc: seq<Member>, key: string, u: string, v: Json, after: string)
    requires |s| > 0 && s[0] == '"' && ParseString(s[1..], "") == Some((key, u))
    requires |u| > 0 && u[0] == ':' && ParseValue(u[1..]) == Some((v, after))
    requires |after| > 0 && (after[0] == ',' || after[0] == '}')
    ensures ParseMembers(s, acc)
      == if after[0] == ',' then ParseMembers(after[1..], acc + [Member(key, v)])
         else Some((JObject(acc + [Member(key, v)]), after[1..]))
  {
    assert SkipWs(s) == s;
    assert SkipWs(u) == u;
    assert SkipWs(after) == after;
  }

  /** Reading the compact text of a document gives the document back. */
  lemma ParseOfPrint(j: Json)
    ensures Parse(Print(j)) == Some(j)
  {
    ParsePrint(j, "");
    assert Print(j) + "" == Print(j);
  }

  // Whitespace after a separator: the parser skips it before every value.

  lemma ParseValueSpace(s: string)
    ensures ParseValue(" " + s) == ParseValue(s)
  {
    assert (" " + s)[1..] == s;
    assert SkipWs(" " + s) == SkipWs(s);
  }

  lemma ParseElementsSpace(s: string, acc: seq<Json>)
    ensures ParseElements(" " + s, acc) == ParseElements(s, acc)
  {
    ParseValueSpace(s);
  }

  /** `[` followed by text that starts a value hands that text to `ParseElements`. */
  lemma ParseValueArray(u: string)
    requires |u| > 0 && !IsWhitespace(u[0]) && u[0] != ']'
    ensures ParseValue("[" + u) == ParseElements(u, [])
  {
    ParseValueOpen("[" + u);
    assert ("[" + u)[1..] == u;
  }

  /** `{` followed by a quote hands the text to `ParseMembers`. */
  lemma ParseValueObject(u: string)
    requires |u| > 0 && u[0] == '"'
    ensures ParseValue("{" + u) == ParseMembers(u, [])
  {
    ParseValueOpen("{" + u);
    assert ("{" + u)[1..] == u;
  }

  /** An element followed by `, ` continues with the next element. */
  lemma ParseElementsComma(s: string, acc: seq<Json>, v: Json, t: string)
    requires ParseValue(s) == Some((v, ", " + t))
    ensures ParseElements(s, acc) == ParseElements(t, acc + [v])
  {
    ParseElementsStep(s, acc, v, ", " + t);
    assert (", " + t)[1..] == " " + t;
    ParseElementsSpace(t, acc + [v]);
  }

  /** An element followed by `]` closes the array. */
  lemma ParseElementsClose(s: string, acc: seq<Json>, v: Json, rest: string)
    requires ParseValue(s) == Some((v, "]" + rest))
    ensures ParseElements(s, acc) == Some((JArray(acc + [v]), rest))
  {
    ParseElementsStep(s, acc, v, "]" + rest);
    assert ("]" + rest)[1..] == rest;
  }

  /** `[x, y]`, with a space after the comma. */
  lemma SpacedNumbers(x: int, y: int, rest: string)
    requires Delimited(rest)
    ensures ParseValue("[" + (Print(JNumber(x)) + (", " + (Print(JNumber(y)) + "]"))) + rest)
      == Some((JArray([JNumber(x), JNumber(y)]), rest))
  {
    var px, py := Print(JNumber(x)), Print(JNumber(y));
    var u := px + (", " + (py + ("]" + rest)));
    assert "[" + (px + (", " + (py + "]"))) + rest == "[" + u;
    ParseValueArray(u);
    ParsePrintNumber(x, ", " + (py + ("]" + rest)));
    ParseElementsComma(u, [], JNumber(x), py + ("]" + rest));
    ParsePrintNumber(y, "]" + rest);
    ParseElementsClose(py + ("]" + rest), [JNumber(x)], JNumber(y), rest);
    assert [] + [JNumber(x)] == [JNumber(x)];
    assert [JNumber(x)] + [JNumber(y)] == [JNumber(x), JNumber(y)];
  }

  /** A quoted key reads back as the key, with what follows its closing quote left over. */
  lemma ParseQuotedKey(key: string, after: string)
    ensures ParseString((Print(JString(key)) + after)[1..], "") == Some((key, after))
  {
    assert (Print(JString(key)) + after)[1..] == Escape(key) + "\"" + after;
    ParseEscape(key, after, "");
    assert "" + key == key;
  }

  /** The member list `"key": value}`, with a space after the colon. */
  lemma SpacedMembers(key: string, v: Json, vText: string, rest: string)
    requires ParseValue(vText + ("}" + rest)) == Some((v, "}" + rest))
    ensures ParseMembers(Print(JString(key)) + (": " + (vText + ("}" + rest))), [])
      == Some((JObject([Member(key, v)]), rest))
  {
    var after := ": " + (vText + ("}" + rest));
    var u := Print(JString(key)) + after;
    ParseQuotedKey(key, after);
    assert after[1..] == " " + (vText + ("}" + rest));
    ParseValueSpace(vText + ("}" + rest));
    ParseMembersStep(u, [], key, after, v, "}" + rest);
    assert ("}" + rest)[1..] == rest;
    assert [] + [Member(key, v)] == [Member(key, v)];
  }

  /** `{"key": value}`, with a space after the colon. */
  lemma SpacedMember(key: string, v: Json, vText: string, rest: string)
    requires ParseValue(vText + ("}" + rest)) == Some((v, "}" + rest))
    ensures ParseValue("{" + (Print(JString(key)) + (": " + (vText + "}"))) + rest)
      == Some((JObject([Member(key, v)]), rest))
  {
    var u := Print(JString(key)) + (": " + (vText + ("}" + rest)));
    assert "{" + (Print(JString(key)) + (": " + (vText + "}"))) + rest == "{" + u;
    ParseValueObject(u);
    SpacedMembers(key, v, vText, rest);
  }

  /** The element list `a, o]`, with a space after the comma. */
  lemma SpacedElements(a: Json, aText: string, o: Json, oText: string)
    requires ParseValue(aText + (", " + (oText + "]"))) == Some((a, ", " + (oText + "]")))
    requires ParseValue(oText + "]") == Some((o, "]"))
    ensures ParseElements(aText + (", " + (oText + "]")), []) == Some((JArray([a, o]), ""))
  {
    ParseElementsComma(aText + (", " + (oText + "]")), [], a, oText + "]");
    ParseElementsStep(oText + "]", [a], o, "]");
    assert "]"[1..] == [];
    assert [] + [a] == [a];
    assert [a] + [o] == [a, o];
  }

  /** `[a, o]`, with a space after the comma, is a whole document when its parts parse. */
  lemma SpacedDocument(a: Json, aText: string, o: Json, oText: string)
    requires |aText| > 0 && !IsWhitespace(aText[0]) && aText[0] != ']'
    requires ParseValue(aText + (", " + (oText + "]"))) == Some((a, ", " + (oText + "]")))
    requires ParseValue(oText + "]") == Some((o, "]"))
    ensures Parse("[" + (aText + (", " + (oText + "]")))) == Some(JArray([a, o]))
  {
    var u := aText + (", " + (oText + "]"));
    assert u[0] == aText[0];
    ParseValueArray(u);
    SpacedElements(a, aText, o, oText);
    assert SkipWs("") == "";
  }
}
