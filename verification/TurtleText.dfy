/** Turtle string literals: the three escapers (`dispatch.rs`, `carrier.rs`, `ffi.rs`), the
    line scanner `extract_property`, and the event lines the one prints and the other reads. */
module TurtleText {
  import opened Options
  import opened Text

  // ----- escaping -----

  /** `str::replace` of one character by a string. */
  function Replace(s: string, c: char, to: string): string {
    if s == "" then "" else (if s[0] == c then to else [s[0]]) + Replace(s[1..], c, to)
  }

  /** The dispatcher's escaper: four passes over the whole string, backslashes first. */
  function DispatchEscape(s: string): string {
    Replace(Replace(Replace(Replace(s, '\\', "\\\\"), '"', "\\\""), '\n', "\\n"), '\r', "\\r")
  }

  function EscapeChar(c: char): string {
    match c
    case '"' => "\\\""
    case '\\' => "\\\\"
    case '\n' => "\\n"
    case '\r' => "\\r"
    case _ => [c]
  }

  /** The escaped form of a string, character by character. */
  function Escaped(s: string): string {
    if s == "" then "" else EscapeChar(s[0]) + Escaped(s[1..])
  }

  lemma {:induction false} EscapedSnoc(s: string, c: char)
    ensures Escaped(s + [c]) == Escaped(s) + EscapeChar(c)
  {
    if s == "" {
      assert Escaped([c]) == EscapeChar(c) + Escaped([c][1..]);
    } else {
      assert (s + [c])[1..] == s[1..] + [c];
      EscapedSnoc(s[1..], c);
    }
  }

  /** The single-pass escaper of the event printer. */
  method CarrierEscape(s: string) returns (out: string)
    ensures out == Escaped(s)
  {
    out := "";
    for i := 0 to |s|
      invariant out == Escaped(s[..i])
    {
      assert s[..i + 1] == s[..i] + [s[i]];
      EscapedSnoc(s[..i], s[i]);
      match s[i]
      case '"' => out := out + "\\\"";
      case '\\' => out := out + "\\\\";
      case '\n' => out := out + "\\n";
      case '\r' => out := out + "\\r";
      case c => out := out + [c];
    }
    assert s[..|s|] == s;
  }

  /** The single-pass escaper of the FFI shim. */
  method FfiEscape(s: string) returns (out: string)
    ensures out == Escaped(s)
  {
    out := "";
    for i := 0 to |s|
      invariant out == Escaped(s[..i])
    {
      assert s[..i + 1] == s[..i] + [s[i]];
      EscapedSnoc(s[..i], s[i]);
      match s[i]
      case '\\' => out := out + "\\\\";
      case '"' => out := out + "\\\"";
      case '\n' => out := out + "\\n";
      case '\r' => out := out + "\\r";
      case c => out := out + [c];
    }
    assert s[..|s|] == s;
  }

  lemma {:induction false} ReplaceConcat(a: string, b: string, c: char, to: string)
    ensures Replace(a + b, c, to) == Replace(a, c, to) + Replace(b, c, to)
  {
    if a == "" {
      assert a + b == b;
    } else {
      assert (a + b)[1..] == a[1..] + b;
      ReplaceConcat(a[1..], b, c, to);
    }
  }

  lemma DispatchEscapeConcat(a: string, b: string)
    ensures DispatchEscape(a + b) == DispatchEscape(a) + DispatchEscape(b)
  {
    ReplaceConcat(a, b, '\\', "\\\\");
    var a1, b1 := Replace(a, '\\', "\\\\"), Replace(b, '\\', "\\\\");
    ReplaceConcat(a1, b1, '"', "\\\"");
    var a2, b2 := Replace(a1, '"', "\\\""), Replace(b1, '"', "\\\"");
    ReplaceConcat(a2, b2, '\n', "\\n");
    ReplaceConcat(Replace(a2, '\n', "\\n"), Replace(b2, '\n', "\\n"), '\r', "\\r");
  }

  lemma ReplaceIn(s: string, c: char, to: string)
    ensures |s| == 1 ==> Replace(s, c, to) == if s[0] == c then to else s
    ensures |s| == 2 ==>
              Replace(s, c, to) == (if s[0] == c then to else [s[0]]) + (if s[1] == c then to else [s[1]])
  {
    if |s| == 1 {
      assert s[1..] == "";
    } else if |s| == 2 {
      assert s[1..][1..] == "";
    }
  }

  lemma DispatchEscapeChar(c: char)
    ensures DispatchEscape([c]) == EscapeChar(c)
  {
    ReplaceIn([c], '\\', "\\\\");
    var s1 := Replace([c], '\\', "\\\\");
    ReplaceIn(s1, '"', "\\\"");
    var s2 := Replace(s1, '"', "\\\"");
    ReplaceIn(s2, '\n', "\\n");
    var s3 := Replace(s2, '\n', "\\n");
    ReplaceIn(s3, '\r', "\\r");
  }

  /** Replacing four characters one after the other is the same as one pass over the string:
      no later replacement touches what an earlier one wrote. */
  lemma {:induction false} DispatchEscapeIsSinglePass(s: string)
    ensures DispatchEscape(s) == Escaped(s)
  {
    if s != "" {
      assert s == [s[0]] + s[1..];
      DispatchEscapeConcat([s[0]], s[1..]);
      DispatchEscapeChar(s[0]);
      DispatchEscapeIsSinglePass(s[1..]);
    }
  }

  /** Reading the body of a STRING_LITERAL_QUOTE back (sections 6.4 and 6.5 of RDF 1.1
      Turtle): a quote, line feed or carriage return cannot stand for itself, and a backslash
      starts one of the eight ECHAR escapes. */
  function Unescape(s: string): Option<string> {
    if s == "" then Some("")
    else if s[0] == '\\' then
      if |s| == 1 then None
      else
        match (EscapeMeaning(s[1]), Unescape(s[2..]))
        case (Some(c), Some(rest)) => Some([c] + rest)
        case _ => None
    else if s[0] == '"' || s[0] == '\n' || s[0] == '\r' then None
    else
      match Unescape(s[1..])
      case Some(rest) => Some([s[0]] + rest)
      case None => None
  }

  function EscapeMeaning(c: char): Option<char> {
    match c
    case 't' => Some('\t')
    case 'b' => Some('\U{0008}')
    case 'n' => Some('\n')
    case 'r' => Some('\r')
    case 'f' => Some('\U{000C}')
    case '"' => Some('"')
    case '\'' => Some('\'')
    case '\\' => Some('\\')
    case _ => None
  }

  lemma EscapedConcat(a: string, b: string)
    ensures Escaped(a + b) == Escaped(a) + Escaped(b)
  {
    DispatchEscapeConcat(a, b);
    DispatchEscapeIsSinglePass(a);
    DispatchEscapeIsSinglePass(b);
    DispatchEscapeIsSinglePass(a + b);
  }

  predicate NeedsEscape(c: char) {
    c == '"' || c == '\\' || c == '\n' || c == '\r'
  }

  lemma UnescapePlain(c: char, rest: string)
    requires !NeedsEscape(c)
    ensures Unescape([c] + rest) == match Unescape(rest) case Some(v) => Some([c] + v) case None => None
  {
    assert ([c] + rest)[1..] == rest;
  }

  lemma UnescapeEchar(c: char, d: char, rest: string)
    requires EscapeMeaning(c) == Some(d)
    ensures Unescape(['\\', c] + rest) == match Unescape(rest) case Some(v) => Some([d] + v) case None => None
  {
    assert (['\\', c] + rest)[2..] == rest;
  }

  lemma EscapedIsEchar(c: char) returns (e: char)
    requires NeedsEscape(c)
    ensures EscapeChar(c) == ['\\', e] && EscapeMeaning(e) == Some(c)
  {
    e := EscapeChar(c)[1];
  }

  lemma UnescapeChar(c: char, rest: string)
    requires Unescape(rest).Some?
    ensures Unescape(EscapeChar(c) + rest) == Some([c] + Unescape(rest).value)
  {
    if NeedsEscape(c) {
      var e := EscapedIsEchar(c);
      UnescapeEchar(e, c, rest);
    } else {
      assert EscapeChar(c) == [c];
      UnescapePlain(c, rest);
    }
  }

  /** Every escaped string is a legal literal body, and reads back as the original. */
  lemma {:induction false} UnescapeEscaped(s: string)
    ensures Unescape(Escaped(s)) == Some(s)
  {
    if s != "" {
      UnescapeEscaped(s[1..]);
      UnescapeChar(s[0], Escaped(s[1..]));
      assert s == [s[0]] + s[1..];
    }
  }

  lemma EscapedInjective(a: string, b: string)
    requires Escaped(a) == Escaped(b)
    ensures a == b
  {
    UnescapeEscaped(a);
    UnescapeEscaped(b);
  }

  /** A body that reads back has no raw line break, so an event stays on one line. */
  lemma {:induction false} LegalBodyIsOneLine(s: string)
    requires Unescape(s).Some?
    ensures '\n' !in s && '\r' !in s
  {
    if s != "" {
      if s[0] == '\\' {
        LegalBodyIsOneLine(s[2..]);
        assert s == s[..2] + s[2..];
      } else {
        LegalBodyIsOneLine(s[1..]);
        assert s == s[..1] + s[1..];
      }
    }
  }

  /** The escaped form is the string itself exactly when nothing in it needs escaping. */
  lemma {:induction false} EscapedIsIdentityIff(s: string)
    ensures |s| <= |Escaped(s)|
    ensures Escaped(s) == s <==> forall c | c in s :: !NeedsEscape(c)
  {
    if s != "" {
      EscapedIsIdentityIff(s[1..]);
      assert s == [s[0]] + s[1..];
      assert !NeedsEscape(s[0]) ==> Escaped(s)[1..] == Escaped(s[1..]);
    }
  }

  lemma PlainIsItself(s: string)
    requires forall i | 0 <= i < |s| :: !NeedsEscape(s[i])
    ensures Escaped(s) == s
  {
    EscapedIsIdentityIff(s);
  }

  // ----- scanning -----

  /** The scanner's loop from position `i` on: the first quote that no backslash escapes, and
      0 when there is none (or when it stands at 0). */
  function ClosingQuote(inner: string, i: nat, escaped: bool): (end: nat)
    requires i <= |inner|
    ensures end < |inner| || end == 0
    decreases |inner| - i
  {
    if i == |inner| then 0
    else if escaped then ClosingQuote(inner, i + 1, false)
    else if inner[i] == '\\' then ClosingQuote(inner, i + 1, true)
    else if inner[i] == '"' then i
    else ClosingQuote(inner, i + 1, false)
  }

  function Until(s: string): string {
    if s == "" || s[0] == ' ' || s[0] == ';' || s[0] == '.' then "" else [s[0]] + Until(s[1..])
  }

  /** The value of a property on a line, by text search. */
  function PropertyOf(line: string, prop: string): Option<string> {
    match Find(line, prop + " ")
    case None => None
    case Some(pos) =>
      FieldValue(Trim(line[pos + |prop + " "|..]))
  }

  /** The value at the start of `after`: a quoted literal's raw body, or a bare token. */
  function FieldValue(after: string): Option<string> {
    if after != "" && after[0] == '"' then
      var end := ClosingQuote(after[1..], 0, false);
      if end > 0 then Some(after[1..][..end]) else None
    else
      var val := Trim(Until(after));
      if val != "" then Some(val) else None
  }

  method ExtractProperty(line: string, prop: string) returns (r: Option<string>)
    ensures r == PropertyOf(line, prop)
  {
    var search := prop + " ";
    var found := Find(line, search);
    if found == None {
      return None;
    }
    var after := Trim(line[found.value + |search|..]);
    if after != "" && after[0] == '"' {
      r := ScanLiteral(after[1..]);
    } else {
      var val := Trim(Until(after));
      r := if val != "" then Some(val) else None;
    }
  }

  method ScanLiteral(inner: string) returns (r: Option<string>)
    ensures r == var end := ClosingQuote(inner, 0, false); if end > 0 then Some(inner[..end]) else None
  {
    var end := 0;
    var escaped := false;
    for i := 0 to |inner|
      invariant end == 0 && ClosingQuote(inner, 0, false) == ClosingQuote(inner, i, escaped)
    {
      var c := inner[i];
      if escaped {
        escaped := false;
      } else if c == '\\' {
        escaped := true;
      } else if c == '"' {
        end := i;
        break;
      }
    }
    r := if end > 0 then Some(inner[..end]) else None;
  }

  /** A literal body as the scanner understands it: plain characters other than quote and
      backslash, and pairs of a backslash and any character. */
  predicate IsBody(b: string) {
    if b == "" then true
    else if b[0] == '\\' then |b| >= 2 && IsBody(b[2..])
    else b[0] != '"' && IsBody(b[1..])
  }

  /** The scanner stops at `n > 0` exactly when a non-empty body of that length is followed by
      a quote; so it returns the first literal token, whatever comes after. */
  lemma ClosingQuoteIff(inner: string, n: nat)
    requires 0 < n < |inner|
    ensures ClosingQuote(inner, 0, false) == n <==> IsBody(inner[..n]) && inner[n] == '"'
  {
    ClosingQuoteFrom(inner, 0, n);
  }

  lemma {:induction false} ClosingQuoteFrom(inner: string, i: nat, n: nat)
    requires i <= n < |inner| && 0 < n
    ensures ClosingQuote(inner, i, false) == n <==> IsBody(inner[i..n]) && inner[n] == '"'
    decreases n - i
  {
    var b := inner[i..n];
    if b == "" {
      ClosingQuotePast(inner, n + 1);
    } else if b[0] == '\\' {
      if |b| >= 2 {
        assert b[2..] == inner[i + 2..n];
        ClosingQuoteFrom(inner, i + 2, n);
      } else {
        ClosingQuotePast(inner, i + 2);
      }
    } else if b[0] != '"' {
      assert b[1..] == inner[i + 1..n];
      ClosingQuoteFrom(inner, i + 1, n);
    }
  }

  lemma {:induction false} ClosingQuotePast(inner: string, i: nat)
    requires i <= |inner|
    ensures ClosingQuote(inner, i, false) == 0 || ClosingQuote(inner, i, false) >= i
    ensures ClosingQuote(inner, i, true) == 0 || ClosingQuote(inner, i, true) > i
    decreases |inner| - i
  {
    if i < |inner| { ClosingQuotePast(inner, i + 1); }
  }

  lemma {:induction false} EscapedIsBody(s: string)
    ensures IsBody(Escaped(s))
  {
    if s != "" {
      EscapedIsBody(s[1..]);
      var e := Escaped(s);
      assert |EscapeChar(s[0])| == 1 ==> e[1..] == Escaped(s[1..]);
      assert |EscapeChar(s[0])| == 2 ==> e[2..] == Escaped(s[1..]);
    }
  }

  /** The field `prop "v"` as a line carries it. */
  function Field(prop: string, v: string): string {
    prop + " " + "\"" + Escaped(v) + "\""
  }

  /** Print, then scan: when the field is where its name first occurs, the scanner returns
      the escaped value, whatever surrounds it; an empty value is reported as absent. */
  lemma PrintThenScan(pre: string, prop: string, v: string, suffix: string)
    requires forall j: nat | j < |pre| :: !OccursAt(pre + Field(prop, v) + suffix, prop + " ", j)
    ensures PropertyOf(pre + Field(prop, v) + suffix, prop) == if v == "" then None else Some(Escaped(v))
  {
    var literal := "\"" + Escaped(v) + "\"";
    var line := pre + Field(prop, v) + suffix;
    assert line == pre + (prop + " ") + (literal + suffix);
    ScansFromField(line, pre, prop, literal + suffix);
    TrimLiteral(literal, suffix);
    LiteralThenAnything(v, TrimEnd(suffix));
  }

  lemma TrimLiteral(literal: string, suffix: string)
    requires |literal| >= 2 && literal[0] == '"' && literal[|literal| - 1] == '"'
    ensures Trim(literal + suffix) == literal + TrimEnd(suffix)
  {
    TrimEndKeeps(literal, suffix);
    assert TrimStart(literal + suffix) == literal + suffix;
  }

  lemma ScansFromField(line: string, pre: string, prop: string, after: string)
    requires line == pre + (prop + " ") + after
    requires forall j: nat | j < |pre| :: !OccursAt(line, prop + " ", j)
    ensures PropertyOf(line, prop) == FieldValue(Trim(after))
  {
    var search := prop + " ";
    assert line[|pre|..|pre| + |search|] == search;
    FindIs(line, search, |pre|);
    assert line[|pre| + |search|..] == after;
  }

  lemma LiteralThenAnything(v: string, rest: string)
    ensures FieldValue("\"" + Escaped(v) + "\"" + rest) == if v == "" then None else Some(Escaped(v))
  {
    var after := "\"" + Escaped(v) + "\"" + rest;
    var inner := after[1..];
    assert inner == Escaped(v) + "\"" + rest;
    if v != "" {
      EscapedIsBody(v);
      EscapedIsIdentityIff(v);
      assert inner[..|Escaped(v)|] == Escaped(v);
      ClosingQuoteIff(inner, |Escaped(v)|);
    }
  }

  // ----- bare tokens -----

  predicate IsSeparator(c: char) {
    c == ' ' || c == ';' || c == '.'
  }

  /** A word as it stands on a line: it does not end early and is not trimmed. */
  predicate IsWord(w: string) {
    w != "" && forall i | 0 <= i < |w| :: !IsWhitespace(w[i]) && !IsSeparator(w[i])
  }

  /** What may follow it: nothing, or a separator first. */
  predicate Follows(rest: string) {
    rest == "" || IsSeparator(rest[0])
  }

  lemma {:induction false} UntilWord(w: string, rest: string)
    requires forall i | 0 <= i < |w| :: !IsSeparator(w[i])
    requires Follows(rest)
    ensures Until(w + rest) == w
  {
    if w != "" {
      assert (w + rest)[1..] == w[1..] + rest;
      UntilWord(w[1..], rest);
    } else {
      assert w + rest == rest;
    }
  }

  lemma TrimWord(w: string)
    requires IsWord(w)
    ensures Trim(w) == w && TrimStart(w) == w
  {
  }

  lemma FollowsTrimmed(rest: string)
    requires Follows(rest)
    ensures Follows(TrimEnd(rest))
  {
    assert TrimEnd(rest) <= rest;
  }

  /** A bare token where the property's name first occurs is read as it stands. */
  lemma BareTokenRead(pre: string, prop: string, word: string, suffix: string)
    requires IsWord(word) && word[0] != '"' && Follows(suffix)
    requires forall j: nat | j < |pre| :: !OccursAt(pre + (prop + " ") + (word + suffix), prop + " ", j)
    ensures PropertyOf(pre + (prop + " ") + (word + suffix), prop) == Some(word)
  {
    ScansFromField(pre + (prop + " ") + (word + suffix), pre, prop, word + suffix);
    TrimEndKeeps(word, suffix);
    assert TrimStart(word + suffix) == word + suffix;
    FollowsTrimmed(suffix);
    UntilWord(word, TrimEnd(suffix));
    TrimWord(word);
  }

  // ----- event headers -----

  /** A fixed C buffer as text: up to the first NUL. */
  function CStrFromBuf(buf: string): (s: string)
    ensures '\0' !in s
  {
    if buf == "" || buf[0] == '\0' then "" else [buf[0]] + CStrFromBuf(buf[1..])
  }

  /** The text of a buffer is what stands before its first NUL, or all of it without one. */
  lemma {:induction false} CStrIs(s: string, rest: string)
    requires forall i | 0 <= i < |s| :: s[i] != '\0'
    ensures CStrFromBuf(s) == s && CStrFromBuf(s + "\0" + rest) == s
  {
    if s == "" {
      assert s + "\0" + rest == "\0" + rest;
    } else {
      CStrIs(s[1..], rest);
      assert (s + "\0" + rest)[1..] == s[1..] + "\0" + rest;
      assert s == [s[0]] + s[1..];
    }
  }

  function Header(class_: string, accountBuf: string): string {
    var acct := CStrFromBuf(accountBuf);
    "[] a carrier:" + class_ + if acct == "" then "" else " ; " + Field("carrier:account", acct)
  }
}
