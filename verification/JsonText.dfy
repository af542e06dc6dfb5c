/** JSON strings without a JSON library (`llm.rs`): the printer of request bodies, the string
    parser, and the text search for a field of a response. Section 7 of RFC 8259. */
module JsonText {
  import opened Options
  import opened Text

  datatype Error = ExpectedQuote | Unterminated | FieldNotFound | Malformed | NotAString
  datatype Result = Ok(value: string) | Err(error: Error)

  // ----- printing -----

  function HexDigit(n: nat): char
    requires n < 16
  {
    "0123456789abcdef"[n]
  }

  /** `{:04x}` of a control character's code. */
  function Hex4(n: nat): (s: string)
    requires n < 0x1_0000
    ensures |s| == 4
  {
    [HexDigit(n / 0x1000), HexDigit(n / 0x100 % 16), HexDigit(n / 16 % 16), HexDigit(n % 16)]
  }

  function EscapeChar(c: char): string {
    if c == '"' then "\\\""
    else if c == '\\' then "\\\\"
    else if c == '\n' then "\\n"
    else if c == '\r' then "\\r"
    else if c == '\t' then "\\t"
    else if c < ' ' then "\\u" + Hex4(c as nat)
    else [c]
  }

  function EscapedBody(s: string): string {
    if s == "" then "" else EscapeChar(s[0]) + EscapedBody(s[1..])
  }

  /** The JSON string literal of `s`, quotes included. */
  function JsonString(s: string): string {
    "\"" + EscapedBody(s) + "\""
  }

  method JsonEscape(s: string) returns (out: string)
    ensures out == JsonString(s)
  {
    out := "\"";
    for i := 0 to |s|
      invariant out == "\"" + EscapedBody(s[..i])
    {
      OpenedSnoc(s, i);
      out := out + EscapeChar(s[i]);
    }
    assert s[..|s|] == s;
    out := out + "\"";
  }

  lemma OpenedSnoc(s: string, i: nat)
    requires i < |s|
    ensures "\"" + EscapedBody(s[..i + 1]) == "\"" + EscapedBody(s[..i]) + EscapeChar(s[i])
  {
    EscapedBodySnoc(s[..i], s[i]);
    assert s[..i + 1] == s[..i] + [s[i]];
    Regroup("\"", EscapedBody(s[..i]), EscapeChar(s[i]));
  }

  lemma Regroup(a: string, b: string, c: string)
    ensures a + (b + c) == a + b + c
  {
  }

  lemma {:induction false} EscapedBodySnoc(s: string, c: char)
    ensures EscapedBody(s + [c]) == EscapedBody(s) + EscapeChar(c)
  {
    if s == "" {
      assert EscapedBody([c]) == EscapeChar(c) + EscapedBody([c][1..]);
    } else {
      assert (s + [c])[1..] == s[1..] + [c];
      EscapedBodySnoc(s[1..], c);
    }
  }

  // ----- parsing -----

  function HexValue(c: char): Option<nat> {
    if '0' <= c <= '9' then Some(c as nat - '0' as nat)
    else if 'a' <= c <= 'f' then Some(c as nat - 'a' as nat + 10)
    else if 'A' <= c <= 'F' then Some(c as nat - 'A' as nat + 10)
    else None
  }

  /** The value of hexadecimal digits, read left to right onto `acc`. */
  function HexDigits(s: string, acc: nat): Option<nat> {
    if s == "" then Some(acc)
    else
      match HexValue(s[0])
      case None => None
      case Some(d) => HexDigits(s[1..], acc * 16 + d)
  }

  /** `u32::from_str_radix(_, 16)`: at least one digit, after an optional plus sign. */
  function FromHex(s: string): Option<nat> {
    var digits := if s != "" && s[0] == '+' then s[1..] else s;
    if digits == "" then None else HexDigits(digits, 0)
  }

  /** What a `\u` escape contributes: nothing when the digits are not hexadecimal or name a
      surrogate. */
  function CodePoint(hex: string): string {
    match FromHex(hex)
    case None => ""
    case Some(cp) =>
      if cp < 0xD800 || 0xE000 <= cp < 0x11_0000 then [cp as char] else ""
  }

  function EscapeMeaning(c: char): char {
    match c
    case '"' => '"'
    case '\\' => '\\'
    case 'n' => '\n'
    case 'r' => '\r'
    case 't' => '\t'
    case '/' => '/'
    case _ => '?'
  }

  function Prepend(out: string, r: Result): Result {
    match r
    case Ok(v) => Ok(out + v)
    case Err(e) => Err(e)
  }

  function Min(a: nat, b: nat): nat { if a < b then a else b }

  /** The rest of a string literal, up to the closing quote. */
  function ParseBody(s: string): Result {
    if s == "" then Err(Unterminated)
    else if s[0] == '"' then Ok("")
    else if s[0] != '\\' then Prepend([s[0]], ParseBody(s[1..]))
    else if |s| == 1 then Err(Unterminated)
    else if s[1] == 'u' then
      var end := Min(6, |s|);
      Prepend(CodePoint(s[2..end]), ParseBody(s[end..]))
    else Prepend([EscapeMeaning(s[1])], ParseBody(s[2..]))
  }

  function ParsedString(s: string): Result {
    if s == "" || s[0] != '"' then Err(ExpectedQuote) else ParseBody(s[1..])
  }

  method ParseJsonString(s: string) returns (r: Result)
    ensures r == ParsedString(s)
  {
    if s == "" || s[0] != '"' {
      return Err(ExpectedQuote);
    }
    var out := "";
    var i := 1;
    while i < |s|
      invariant 1 <= i <= |s|
      invariant ParsedString(s) == Prepend(out, ParseBody(s[i..]))
      decreases |s| - i
    {
      var c := s[i];
      NextToken(s, i);
      if c == '"' {
        return Ok(out);
      } else if c != '\\' {
        PrependTwice(out, [c], ParseBody(s[i + 1..]));
        out := out + [c];
        i := i + 1;
      } else if i + 1 == |s| {
        return Err(Unterminated);
      } else if s[i + 1] == 'u' {
        var end := Min(i + 6, |s|);
        var decoded := CodePoint(s[i + 2..end]);
        PrependTwice(out, decoded, ParseBody(s[end..]));
        out := out + decoded;
        i := end;
      } else {
        var decoded := EscapeMeaning(s[i + 1]);
        PrependTwice(out, [decoded], ParseBody(s[i + 2..]));
        out := out + [decoded];
        i := i + 2;
      }
    }
    r := Err(Unterminated);
  }

  lemma PrependTwice(a: string, b: string, r: Result)
    ensures Prepend(a, Prepend(b, r)) == Prepend(a + b, r)
  {
    if r.Ok? { assert a + (b + r.value) == a + b + r.value; }
  }

  /** One turn of the parser's loop, as a step of `ParseBody`. */
  lemma NextToken(s: string, i: nat)
    requires i < |s|
    ensures s[i] != '"' && s[i] != '\\' ==> ParseBody(s[i..]) == Prepend([s[i]], ParseBody(s[i + 1..]))
    ensures s[i] == '\\' && i + 1 < |s| && s[i + 1] == 'u' ==>
              ParseBody(s[i..]) == Prepend(CodePoint(s[i + 2..Min(i + 6, |s|)]), ParseBody(s[Min(i + 6, |s|)..]))
    ensures s[i] == '\\' && i + 1 < |s| && s[i + 1] != 'u' ==>
              ParseBody(s[i..]) == Prepend([EscapeMeaning(s[i + 1])], ParseBody(s[i + 2..]))
  {
    var t := s[i..];
    assert t[1..] == s[i + 1..];
    if |t| >= 2 {
      var end := Min(6, |t|);
      assert t[2..] == s[i + 2..];
      assert t[2..end] == s[i + 2..Min(i + 6, |s|)];
      assert t[end..] == s[Min(i + 6, |s|)..];
    }
  }

  lemma HexDigitValue(n: nat)
    requires n < 16
    ensures HexValue(HexDigit(n)) == Some(n) && HexDigit(n) != '+'
  {
  }

  /** Four hexadecimal digits, read left to right. */
  lemma FourDigits(h: string, a: nat, b: nat, c: nat, d: nat)
    requires |h| == 4
    requires HexValue(h[0]) == Some(a) && HexValue(h[1]) == Some(b)
    requires HexValue(h[2]) == Some(c) && HexValue(h[3]) == Some(d)
    ensures HexDigits(h, 0) == Some(((a * 16 + b) * 16 + c) * 16 + d)
  {
    var h1, h2, h3 := h[1..], h[1..][1..], h[1..][1..][1..];
    assert h1[0] == h[1] && h2[0] == h[2] && h3[0] == h[3] && h3[1..] == "";
    assert HexDigits(h, 0) == HexDigits(h1, a);
    assert HexDigits(h1, a) == HexDigits(h2, a * 16 + b);
    assert HexDigits(h2, a * 16 + b) == HexDigits(h3, (a * 16 + b) * 16 + c);
  }

  lemma CodePointOf(h: string, n: nat)
    requires |h| == 4 && h[0] != '+' && HexDigits(h, 0) == Some(n) && n < 0x1_0000
    ensures CodePoint(h) == if 0xD800 <= n < 0xE000 then "" else [n as char]
  {
  }

  /** The printed code of a control character reads back as that character. */
  lemma CodePointOfHex4(c: char)
    requires c < ' '
    ensures CodePoint(Hex4(c as nat)) == [c]
  {
    HexDigitsOfHex4(c as nat);
    CodePointOf(Hex4(c as nat), c as nat);
  }

  lemma HexDigitsOfHex4(n: nat)
    requires n < 0x100
    ensures HexDigits(Hex4(n), 0) == Some(n) && Hex4(n)[0] != '+'
  {
    HexDigitValue(0);
    HexDigitValue(n / 16);
    HexDigitValue(n % 16);
    SmallHex4(n);
    FourDigits(Hex4(n), 0, 0, n / 16, n % 16);
  }

  lemma SmallHex4(n: nat)
    requires n < 0x100
    ensures Hex4(n) == [HexDigit(0), HexDigit(0), HexDigit(n / 16), HexDigit(n % 16)]
  {
  }

  lemma ParsePlain(c: char, rest: string)
    requires c != '"' && c != '\\'
    ensures ParseBody([c] + rest) == Prepend([c], ParseBody(rest))
  {
    assert ([c] + rest)[1..] == rest;
  }

  lemma ParseShort(e: char, rest: string)
    requires e != 'u'
    ensures ParseBody(['\\', e] + rest) == Prepend([EscapeMeaning(e)], ParseBody(rest))
  {
    assert (['\\', e] + rest)[2..] == rest;
  }

  lemma ParseCode(h: string, rest: string)
    requires |h| == 4
    ensures ParseBody("\\u" + h + rest) == Prepend(CodePoint(h), ParseBody(rest))
  {
    var t := "\\u" + h + rest;
    assert t[2..6] == h && t[6..] == rest;
  }

  lemma ParseEscapedChar(c: char, rest: string)
    ensures ParseBody(EscapeChar(c) + rest) == Prepend([c], ParseBody(rest))
  {
    if |EscapeChar(c)| == 1 {
      ParsePlain(c, rest);
    } else if |EscapeChar(c)| == 2 {
      assert EscapeChar(c) == ['\\', EscapeChar(c)[1]];
      ParseShort(EscapeChar(c)[1], rest);
    } else {
      ParseCode(Hex4(c as nat), rest);
      CodePointOfHex4(c);
    }
  }

  lemma {:induction false} ParseEscapedBody(s: string, rest: string)
    ensures ParseBody(EscapedBody(s) + "\"" + rest) == Ok(s)
  {
    if s == "" {
      assert EscapedBody(s) + "\"" + rest == "\"" + rest;
    } else {
      var tail := EscapedBody(s[1..]) + "\"" + rest;
      assert EscapedBody(s) + "\"" + rest == EscapeChar(s[0]) + tail;
      ParseEscapedChar(s[0], tail);
      ParseEscapedBody(s[1..], rest);
      assert s == [s[0]] + s[1..];
    }
  }

  /** Print, then parse: the original string, whatever follows the literal. */
  lemma JsonRoundTrip(s: string, rest: string)
    ensures ParsedString(JsonString(s) + rest) == Ok(s)
  {
    assert (JsonString(s) + rest)[1..] == EscapedBody(s) + "\"" + rest;
    ParseEscapedBody(s, rest);
  }

  lemma EscapeHasNoControls(c: char)
    ensures forall i | 0 <= i < |EscapeChar(c)| :: EscapeChar(c)[i] >= ' '
  {
    assert forall d: nat | d < 16 :: HexDigit(d) >= ' ';
  }

  /** A printed body stays inside its quotes: no control character is left in it. */
  lemma {:induction false} PrintedHasNoControls(s: string)
    ensures forall c | c in EscapedBody(s) :: c >= ' '
  {
    if s != "" {
      PrintedHasNoControls(s[1..]);
      EscapeHasNoControls(s[0]);
    }
  }

  // ----- fields -----

  function Quoted(field: string): string {
    "\"" + field + "\""
  }

  /** The string value of a field, found by searching for its quoted name. */
  function JsonField(json: string, field: string): Result {
    match Find(json, Quoted(field))
    case None => Err(FieldNotFound)
    case Some(pos) => ValueAfterKey(json[pos + |Quoted(field)|..])
  }

  function ValueAfterKey(s: string): Result {
    var afterKey := TrimStart(s);
    if afterKey == "" || afterKey[0] != ':' then Err(Malformed)
    else
      var afterColon := TrimStart(afterKey[1..]);
      if afterColon == "" || afterColon[0] != '"' then Err(NotAString)
      else ParsedString(afterColon)
  }

  /** A printed field is recovered from any object in which its quoted name first occurs as
      that field's key. */
  lemma FieldRecovered(json: string, pre: string, field: string, ws1: string, ws2: string,
                       s: string, rest: string)
    requires json == pre + Quoted(field) + (ws1 + (":" + (ws2 + (JsonString(s) + rest))))
    requires forall c | c in ws1 || c in ws2 :: IsWhitespace(c)
    requires forall j: nat | j < |pre| :: !OccursAt(json, Quoted(field), j)
    ensures JsonField(json, field) == Ok(s)
  {
    ValueSearched(json, pre, field, ws1 + (":" + (ws2 + (JsonString(s) + rest))));
    ValueRecovered(ws1, ws2, s, rest);
  }

  /** The errors of the field search: no such name, no colon behind it, no string behind that. */
  lemma FieldErrors(json: string, pre: string, field: string, ws1: string, ws2: string, rest: string)
    requires forall c | c in ws1 || c in ws2 :: IsWhitespace(c)
    requires rest != "" ==> !IsWhitespace(rest[0])
    requires forall j: nat | j < |pre| :: !OccursAt(json, Quoted(field), j)
    ensures (forall j: nat :: !OccursAt(json, Quoted(field), j)) ==> JsonField(json, field) == Err(FieldNotFound)
    ensures json == pre + Quoted(field) + (ws1 + rest) && (rest == "" || rest[0] != ':') ==>
              JsonField(json, field) == Err(Malformed)
    ensures json == pre + Quoted(field) + (ws1 + (":" + (ws2 + rest))) && (rest == "" || rest[0] != '"') ==>
              JsonField(json, field) == Err(NotAString)
  {
    if json == pre + Quoted(field) + (ws1 + rest) {
      ValueSearched(json, pre, field, ws1 + rest);
      TrimStartLeaves(ws1, rest);
    }
    if json == pre + Quoted(field) + (ws1 + (":" + (ws2 + rest))) {
      ValueSearched(json, pre, field, ws1 + (":" + (ws2 + rest)));
      TrimStartLeaves(ws1, ":" + (ws2 + rest));
      TrimStartLeaves(ws2, rest);
      assert (":" + (ws2 + rest))[1..] == ws2 + rest;
    }
  }

  lemma ValueSearched(json: string, pre: string, field: string, after: string)
    requires json == pre + Quoted(field) + after
    requires forall j: nat | j < |pre| :: !OccursAt(json, Quoted(field), j)
    ensures JsonField(json, field) == ValueAfterKey(after)
  {
    assert json[|pre|..|pre| + |Quoted(field)|] == Quoted(field);
    FindIs(json, Quoted(field), |pre|);
    assert json[|pre| + |Quoted(field)|..] == after;
  }

  lemma {:induction false} TrimStartLeaves(ws: string, s: string)
    requires forall c | c in ws :: IsWhitespace(c)
    requires s != "" ==> !IsWhitespace(s[0])
    ensures TrimStart(ws + s) == s
  {
    if ws == "" {
      assert ws + s == s;
    } else {
      assert (ws + s)[1..] == ws[1..] + s;
      TrimStartLeaves(ws[1..], s);
    }
  }

  lemma ValueRecovered(ws1: string, ws2: string, s: string, rest: string)
    requires forall c | c in ws1 || c in ws2 :: IsWhitespace(c)
    ensures ValueAfterKey(ws1 + (":" + (ws2 + (JsonString(s) + rest)))) == Ok(s)
  {
    var value := JsonString(s) + rest;
    TrimStartDrops(ws1, ":" + (ws2 + value));
    assert (":" + (ws2 + value))[1..] == ws2 + value;
    TrimStartDrops(ws2, value);
    JsonRoundTrip(s, rest);
  }
}
