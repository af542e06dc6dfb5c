/** What the two literal readers of `llm.rs` make of each part of a literal, and when that is what
    the standards say: section 7 of RFC 8259 and section 6.4 of RDF 1.1 Turtle. The readers are
    taken as they are; only their results are spoken of. */
module LiteralReading {
  import opened Options
  import opened JsonText
  import CompletionText
  import TurtleText

  // ----- the JSON reader, part by part -----

  /** A result and the result of reading on: the same error, or the part in front. */
  predicate Continues(r: Result, part: string, rest: Result) {
    match rest
    case Ok(v) => r == Ok(part + v)
    case Err(e) => r == Err(e)
  }

  /** Where a literal starts, ends, and breaks off. */
  lemma Ends(s: string, rest: string)
    ensures (s == "" || s[0] != '"') ==> ParsedString(s) == Err(ExpectedQuote)
    ensures ParsedString("\"" + "\"" + rest) == Ok("")
    ensures ParsedString("\"") == Err(Unterminated)
    ensures ParsedString("\"" + "\\") == Err(Unterminated)
  {
    assert ("\"" + "\"" + rest)[1..] == "\"" + rest;
    assert ("\"" + "\\")[1..] == "\\";
  }

  lemma AfterQuote(part: string, rest: string)
    ensures ParsedString("\"" + part + rest) == ParseBody(part + rest)
    ensures ParsedString("\"" + rest) == ParseBody(rest)
  {
    assert ("\"" + part + rest)[1..] == part + rest;
    assert ("\"" + rest)[1..] == rest;
  }

  lemma PlainRead(c: char, rest: string)
    requires c != '"' && c != '\\'
    ensures Continues(ParsedString("\"" + [c] + rest), [c], ParsedString("\"" + rest))
  {
    AfterQuote([c], rest);
    assert ([c] + rest)[1..] == rest;
  }

  /** The two-character escapes of section 7, apart from `\b` and `\f`. */
  function ShortMeaning(c: char): Option<char> {
    if c == '"' then Some('"')
    else if c == '\\' then Some('\\')
    else if c == '/' then Some('/')
    else if c == 'n' then Some('\n')
    else if c == 'r' then Some('\r')
    else if c == 't' then Some('\t')
    else None
  }

  /** Each of them is read as it should be; any other is read as a question mark. */
  lemma ShortRead(c: char, rest: string)
    requires c != 'u'
    ensures Continues(ParsedString("\"" + ['\\', c] + rest),
                      match ShortMeaning(c) case Some(d) => [d] case None => "?",
                      ParsedString("\"" + rest))
  {
    AfterQuote(['\\', c], rest);
    assert (['\\', c] + rest)[2..] == rest;
  }

  /** Digit `c` has the value `v`: 0 to 9 from U+0030, a to f from U+0061, A to F from U+0041. */
  predicate Denotes(c: char, v: nat) {
    || (v < 10 && c as nat == 0x30 + v)
    || (10 <= v < 16 && c as nat == 0x61 + (v - 10))
    || (10 <= v < 16 && c as nat == 0x41 + (v - 10))
  }

  ghost predicate IsHex(c: char) {
    exists v: nat :: Denotes(c, v)
  }

  lemma HexValueIs(c: char, v: nat)
    ensures Denotes(c, v) <==> HexValue(c) == Some(v)
  {
  }

  predicate IsSurrogate(cp: nat) {
    0xD800 <= cp < 0xE000
  }

  /** `h` is four hexadecimal digits of `cp`. */
  ghost predicate IsCode(h: string, cp: nat) {
    |h| == 4 && exists a: nat, b: nat, c: nat, d: nat ::
      && Denotes(h[0], a) && Denotes(h[1], b) && Denotes(h[2], c) && Denotes(h[3], d)
      && cp == 0x1000 * a + 0x100 * b + 0x10 * c + d
  }

  /** A code is read as its character, and that of a surrogate as nothing. */
  lemma CodeRead(h: string, cp: nat, rest: string)
    requires IsCode(h, cp)
    ensures cp < 0x1_0000
    ensures Continues(ParsedString("\"" + ("\\u" + h) + rest), if IsSurrogate(cp) then "" else [cp as char],
                      ParsedString("\"" + rest))
  {
    CodeContinues(h, rest);
    CodePointIs(h, cp);
  }

  lemma CodePointIs(h: string, cp: nat)
    requires IsCode(h, cp)
    ensures cp < 0x1_0000
    ensures CodePoint(h) == if IsSurrogate(cp) then "" else [cp as char]
  {
    var a, b, c, d := DigitsOfCode(h, cp);
    FourDigits(h, a, b, c, d);
    CodePointOf(h, cp);
  }

  lemma DigitsOfCode(h: string, cp: nat) returns (a: nat, b: nat, c: nat, d: nat)
    requires IsCode(h, cp)
    ensures cp < 0x1_0000 && cp == ((a * 16 + b) * 16 + c) * 16 + d
    ensures h[0] != '+' && HexValue(h[0]) == Some(a) && HexValue(h[1]) == Some(b)
    ensures HexValue(h[2]) == Some(c) && HexValue(h[3]) == Some(d)
  {
    a, b, c, d :|
      && Denotes(h[0], a) && Denotes(h[1], b) && Denotes(h[2], c) && Denotes(h[3], d)
      && cp == 0x1000 * a + 0x100 * b + 0x10 * c + d;
    DigitRead(h[0], a);
    DigitRead(h[1], b);
    DigitRead(h[2], c);
    DigitRead(h[3], d);
  }

  lemma DigitRead(c: char, v: nat)
    requires Denotes(c, v)
    ensures HexValue(c) == Some(v) && v < 16 && c != '+'
  {
    HexValueIs(c, v);
  }

  lemma CodeContinues(h: string, rest: string)
    requires |h| == 4
    ensures Continues(ParsedString("\"" + ("\\u" + h) + rest), CodePoint(h), ParsedString("\"" + rest))
  {
    AfterQuote("\\u" + h, rest);
    var s := "\\u" + h + rest;
    assert s[2..6] == h && s[6..] == rest;
  }

  /** Three digits behind a plus sign count as well, which section 7 does not provide for. */
  lemma SignedCodeRead(h: string, b: nat, c: nat, d: nat, rest: string)
    requires |h| == 4 && h[0] == '+' && Denotes(h[1], b) && Denotes(h[2], c) && Denotes(h[3], d)
    ensures var cp := 0x100 * b + 0x10 * c + d;
            Continues(ParsedString("\"" + ("\\u" + h) + rest), [cp as char], ParsedString("\"" + rest))
  {
    CodeContinues(h, rest);
    HexValueIs(h[1], b);
    HexValueIs(h[2], c);
    HexValueIs(h[3], d);
    HexValueIs('0', 0);
    FourDigits("0" + h[1..], 0, b, c, d);
    assert ("0" + h[1..])[1..] == h[1..];
  }

  /** Otherwise the four characters contribute nothing. */
  lemma BadCodeRead(h: string, i: nat, rest: string)
    requires |h| == 4 && i < 4 && !IsHex(h[i]) && (i == 0 ==> h[0] != '+')
    ensures Continues(ParsedString("\"" + ("\\u" + h) + rest), "", ParsedString("\"" + rest))
  {
    CodeContinues(h, rest);
    if HexValue(h[i]).Some? {
      HexValueIs(h[i], HexValue(h[i]).value);
    }
    if h[0] == '+' {
      assert h[1..][i - 1] == h[i];
      BadDigit(h[1..], 0, i - 1);
    } else {
      BadDigit(h, 0, i);
    }
  }

  lemma {:induction false} BadDigit(h: string, acc: nat, i: nat)
    requires i < |h| && HexValue(h[i]) == None
    ensures HexDigits(h, acc) == None
  {
    if i > 0 && HexValue(h[0]).Some? {
      BadDigit(h[1..], acc * 16 + HexValue(h[0]).value, i - 1);
    }
  }

  /** A literal that breaks off within the four characters is not terminated. */
  lemma CutCodeRead(h: string)
    requires |h| < 4
    ensures ParsedString("\"" + ("\\u" + h)) == Err(Unterminated)
  {
    var s := "\\u" + h;
    assert ("\"" + s)[1..] == s;
    assert s[|s|..] == "" && s[0] == '\\' && s[1] == 'u' && Min(6, |s|) == |s|;
    assert ParseBody(s) == Prepend(CodePoint(s[2..|s|]), ParseBody(s[|s|..]));
  }

  // ----- whole JSON literals -----

  /** A part of a string literal as section 7 has them: a character that stands for itself, a
      two-character escape, the code of a character, or the codes of a surrogate pair. */
  datatype Part =
    | Plain(c: char)
    | Short(c: char)
    | Code(hex: string, cp: nat)
    | Pair(high: string, low: string, c: char)

  ghost predicate IsPair(high: string, low: string, c: char) {
    exists hi: nat, lo: nat ::
      && IsCode(high, hi) && IsCode(low, lo) && 0xD800 <= hi < 0xDC00 <= lo < 0xE000
      && c as nat == 0x1_0000 + (hi - 0xD800) * 0x400 + (lo - 0xDC00)
  }

  ghost predicate PartOk(p: Part) {
    match p
    case Plain(c) => c >= ' ' && c != '"' && c != '\\'
    case Short(c) => c in {'"', '\\', '/', 'b', 'f', 'n', 'r', 't'}
    case Code(h, cp) => cp < 0x1_0000 && !IsSurrogate(cp) && IsCode(h, cp)
    case Pair(high, low, c) => IsPair(high, low, c)
  }

  function PartText(p: Part): string {
    match p
    case Plain(c) => [c]
    case Short(c) => ['\\', c]
    case Code(h, _) => "\\u" + h
    case Pair(high, low, _) => ("\\u" + high) + ("\\u" + low)
  }

  /** What the part stands for by section 7. */
  ghost function PartMeaning(p: Part): char
    requires PartOk(p)
  {
    match p
    case Plain(c) => c
    case Short(c) =>
      if c == 'b' then '\U{0008}' else if c == 'f' then '\U{000C}' else ShortMeaning(c).value
    case Code(_, cp) => cp as char
    case Pair(_, _, c) => c
  }

  function Written(ps: seq<Part>): string {
    if ps == [] then "" else PartText(ps[0]) + Written(ps[1..])
  }

  ghost function Meaning(ps: seq<Part>): string
    requires forall p | p in ps :: PartOk(p)
  {
    if ps == [] then "" else [PartMeaning(ps[0])] + Meaning(ps[1..])
  }

  /** The reader knows the part: all but two short escapes, and surrogate pairs. */
  predicate IsKnown(p: Part) {
    !p.Pair? && (p.Short? ==> p.c != 'b' && p.c != 'f')
  }

  /** What the reader makes of the part. */
  ghost function PartRead(p: Part): string
    requires PartOk(p)
  {
    if p.Pair? then "" else if IsKnown(p) then [PartMeaning(p)] else "?"
  }

  lemma PartIsRead(p: Part, rest: string)
    requires PartOk(p)
    ensures Continues(ParsedString("\"" + PartText(p) + rest), PartRead(p), ParsedString("\"" + rest))
  {
    match p
    case Plain(c) => PlainRead(c, rest);
    case Short(c) => ShortRead(c, rest);
    case Code(h, cp) => CodeRead(h, cp, rest);
    case Pair(high, low, c) => PairRead(high, low, c, rest);
  }

  lemma PairRead(high: string, low: string, c: char, rest: string)
    requires IsPair(high, low, c)
    ensures Continues(ParsedString("\"" + (("\\u" + high) + ("\\u" + low)) + rest), "", ParsedString("\"" + rest))
  {
    var hi: nat, lo: nat :| IsCode(high, hi) && IsCode(low, lo) && 0xD800 <= hi < 0xDC00 <= lo < 0xE000;
    CodeRead(high, hi, ("\\u" + low) + rest);
    CodeRead(low, lo, rest);
    BothNothing("\\u" + high, "\\u" + low, rest);
  }

  lemma BothNothing(x: string, y: string, rest: string)
    requires Continues(ParsedString("\"" + x + (y + rest)), "", ParsedString("\"" + (y + rest)))
    requires Continues(ParsedString("\"" + y + rest), "", ParsedString("\"" + rest))
    ensures Continues(ParsedString("\"" + (x + y) + rest), "", ParsedString("\"" + rest))
  {
    Regroup("\"", x, y, rest);
    assert "\"" + (y + rest) == "\"" + y + rest;
  }

  lemma Regroup(a: string, b: string, c: string, d: string)
    ensures a + (b + c) + d == a + b + (c + d)
  {
  }

  ghost function AllRead(ps: seq<Part>): string
    requires forall p | p in ps :: PartOk(p)
  {
    if ps == [] then "" else PartRead(ps[0]) + AllRead(ps[1..])
  }

  lemma {:induction false} LiteralRead(ps: seq<Part>, rest: string)
    requires forall p | p in ps :: PartOk(p)
    ensures ParsedString("\"" + Written(ps) + ("\"" + rest)) == Ok(AllRead(ps))
  {
    if ps == [] {
      Ends("", rest);
      Regroup("\"", "", "\"", rest);
    } else {
      LiteralRead(ps[1..], rest);
      PartIsRead(ps[0], Written(ps[1..]) + ("\"" + rest));
      OnePartMore(PartText(ps[0]), Written(ps[1..]), "\"" + rest, PartRead(ps[0]), AllRead(ps[1..]));
    }
  }

  lemma OnePartMore(part: string, written: string, rest: string, read: string, value: string)
    requires ParsedString("\"" + written + rest) == Ok(value)
    requires Continues(ParsedString("\"" + part + (written + rest)), read, ParsedString("\"" + (written + rest)))
    ensures ParsedString("\"" + (part + written) + rest) == Ok(read + value)
  {
    Regroup("\"", part, written, rest);
    assert "\"" + (written + rest) == "\"" + written + rest;
  }

  /** The reader returns what section 7 says, for any literal and whatever follows it, if and only
      if the literal has no `\b`, no `\f` and no surrogate pair. */
  lemma ReadsAsStandardIff(ps: seq<Part>, rest: string)
    requires forall p | p in ps :: PartOk(p)
    ensures ParsedString("\"" + Written(ps) + ("\"" + rest)) == Ok(Meaning(ps))
       <==> forall p | p in ps :: IsKnown(p)
  {
    LiteralRead(ps, rest);
    ReadIsMeaningIff(ps);
  }

  lemma {:induction false} ReadIsMeaningIff(ps: seq<Part>)
    requires forall p | p in ps :: PartOk(p)
    ensures |AllRead(ps)| <= |Meaning(ps)| == |ps|
    ensures AllRead(ps) == Meaning(ps) <==> forall p | p in ps :: IsKnown(p)
  {
    if ps != [] {
      ReadIsMeaningIff(ps[1..]);
      assert ps == [ps[0]] + ps[1..];
      KnownIff(ps[0]);
      if !ps[0].Pair? {
        SameConsIff(PartRead(ps[0]), AllRead(ps[1..]), [PartMeaning(ps[0])], Meaning(ps[1..]));
      }
    }
  }

  lemma KnownIff(p: Part)
    requires PartOk(p)
    ensures PartRead(p) == [PartMeaning(p)] <==> IsKnown(p)
    ensures |PartRead(p)| == if p.Pair? then 0 else 1
  {
  }

  lemma SameConsIff(a: string, b: string, c: string, d: string)
    requires |a| == |c|
    ensures a + b == c + d <==> a == c && b == d
  {
    if a + b == c + d {
      assert a == (a + b)[..|a|] && b == (a + b)[|a|..];
      assert c == (c + d)[..|c|] && d == (c + d)[|c|..];
    }
  }

  /** The printer of request bodies writes a literal that means its string by section 7. */
  lemma {:induction false} PrintsStandard(s: string) returns (ps: seq<Part>)
    ensures forall p | p in ps :: PartOk(p)
    ensures Written(ps) == EscapedBody(s) && Meaning(ps) == s
  {
    if s == "" {
      ps := [];
    } else {
      var rest := PrintsStandard(s[1..]);
      var p := PartOf(s[0]);
      ps := [p] + rest;
      assert ps[1..] == rest;
      assert s == [s[0]] + s[1..];
    }
  }

  lemma PartOf(c: char) returns (p: Part)
    ensures PartOk(p) && PartText(p) == EscapeChar(c) && PartMeaning(p) == c
  {
    if |EscapeChar(c)| == 6 {
      p := Code(Hex4(c as nat), c as nat);
      ControlCode(c as nat);
    } else {
      p := ShortPartOf(c);
    }
  }

  lemma ShortPartOf(c: char) returns (p: Part)
    requires |EscapeChar(c)| != 6
    ensures PartOk(p) && PartText(p) == EscapeChar(c) && PartMeaning(p) == c
  {
    p := if |EscapeChar(c)| == 1 then Plain(c) else Short(EscapeChar(c)[1]);
  }

  lemma ControlCode(n: nat)
    requires n < 0x20
    ensures IsCode(Hex4(n), n)
  {
    SmallHex4(n);
    DigitDenotes(0);
    DigitDenotes(n / 16);
    DigitDenotes(n % 16);
    var h := Hex4(n);
    assert Denotes(h[0], 0) && Denotes(h[1], 0) && Denotes(h[2], n / 16) && Denotes(h[3], n % 16);
  }

  lemma DigitDenotes(v: nat)
    requires v < 16
    ensures Denotes(HexDigit(v), v)
  {
    HexDigitValue(v);
    HexValueIs(HexDigit(v), v);
  }

  // ----- the Turtle reader, part by part -----

  /** A value and the value of reading on: none, or the part in front. */
  predicate GoesOn(r: Option<string>, part: string, rest: Option<string>) {
    match rest
    case Some(v) => r == Some(part + v)
    case None => r == None
  }

  lemma TurtleEnds(s: string, rest: string)
    ensures (s == "" || s[0] != '"') ==> CompletionText.ShortValue(s) == None
    ensures CompletionText.ShortValue("\"" + "\"" + rest) == Some("")
    ensures CompletionText.ShortValue("\"") == None
    ensures CompletionText.ShortValue("\"" + "\\") == None
  {
    assert ("\"" + "\"" + rest)[1..] == "\"" + rest;
    assert ("\"" + "\\")[1..] == "\\";
  }

  lemma TurtleAfterQuote(part: string, rest: string)
    ensures CompletionText.ShortValue("\"" + part + rest) == CompletionText.ShortBody(part + rest)
    ensures CompletionText.ShortValue("\"" + rest) == CompletionText.ShortBody(rest)
  {
    assert ("\"" + part + rest)[1..] == part + rest;
    assert ("\"" + rest)[1..] == rest;
  }

  lemma TurtlePlainRead(c: char, rest: string)
    requires c != '"' && c != '\\'
    ensures GoesOn(CompletionText.ShortValue("\"" + [c] + rest), [c], CompletionText.ShortValue("\"" + rest))
  {
    TurtleAfterQuote([c], rest);
    assert ([c] + rest)[1..] == rest;
  }

  /** The escapes that the reader knows, of those in section 6.4. */
  function TurtleMeaning(c: char): Option<char> {
    if c == '"' then Some('"')
    else if c == '\\' then Some('\\')
    else if c == 'n' then Some('\n')
    else if c == 't' then Some('\t')
    else None
  }

  /** Each of them is read as it should be; any other is read as a question mark. */
  lemma TurtleShortRead(c: char, rest: string)
    ensures GoesOn(CompletionText.ShortValue("\"" + ['\\', c] + rest),
                   match TurtleMeaning(c) case Some(d) => [d] case None => "?",
                   CompletionText.ShortValue("\"" + rest))
  {
    TurtleAfterQuote(['\\', c], rest);
    assert (['\\', c] + rest)[2..] == rest;
  }

  // ----- whole Turtle literals -----

  /** A part of a STRING_LITERAL_QUOTE: a character that stands for itself, an ECHAR escape, or a
      UCHAR escape with its digits. */
  datatype TurtlePart = Char(c: char) | Echar(c: char) | Uchar(letter: char, hex: string, c: char)

  /** The hexadecimal digits of a number. */
  predicate IsNumber(h: string, n: nat) {
    if h == "" then n == 0 else Denotes(h[|h| - 1], n % 16) && IsNumber(h[..|h| - 1], n / 16)
  }

  ghost predicate TurtlePartOk(p: TurtlePart) {
    match p
    case Char(c) => c != '"' && c != '\\' && c != '\n' && c != '\r'
    case Echar(c) => c in {'t', 'b', 'n', 'r', 'f', '"', '\'', '\\'}
    case Uchar(letter, hex, c) =>
      (if letter == 'u' then |hex| == 4 else letter == 'U' && |hex| == 8) && IsNumber(hex, c as nat)
  }

  function TurtlePartText(p: TurtlePart): string {
    match p
    case Char(c) => [c]
    case Echar(c) => ['\\', c]
    case Uchar(letter, hex, _) => ['\\', letter] + hex
  }

  /** What the part stands for by section 6.4. */
  ghost function TurtlePartMeaning(p: TurtlePart): char {
    match p
    case Char(c) => c
    case Echar(c) =>
      if c == 't' then '\t' else if c == 'b' then '\U{0008}' else if c == 'n' then '\n'
      else if c == 'r' then '\r' else if c == 'f' then '\U{000C}' else c
    case Uchar(_, _, c) => c
  }

  function TurtleWritten(ps: seq<TurtlePart>): string {
    if ps == [] then "" else TurtlePartText(ps[0]) + TurtleWritten(ps[1..])
  }

  ghost function TurtleMeanings(ps: seq<TurtlePart>): string {
    if ps == [] then "" else [TurtlePartMeaning(ps[0])] + TurtleMeanings(ps[1..])
  }

  /** The reader knows four of the eight ECHAR escapes, and no UCHAR. */
  predicate TurtleKnown(p: TurtlePart) {
    !p.Uchar? && (p.Echar? ==> p.c in {'n', 't', '"', '\\'})
  }

  /** What the reader makes of the part. */
  ghost function TurtlePartRead(p: TurtlePart): string {
    if p.Uchar? then "?" + p.hex else if TurtleKnown(p) then [TurtlePartMeaning(p)] else "?"
  }

  lemma TurtlePartIsRead(p: TurtlePart, rest: string)
    requires TurtlePartOk(p)
    ensures GoesOn(CompletionText.ShortValue("\"" + TurtlePartText(p) + rest), TurtlePartRead(p),
                   CompletionText.ShortValue("\"" + rest))
  {
    match p
    case Char(c) => TurtlePlainRead(c, rest);
    case Echar(c) => TurtleShortRead(c, rest);
    case Uchar(letter, hex, c) =>
      DigitsArePlain(hex, c as nat);
      TurtleShortRead(letter, hex + rest);
      PlainRun(hex, rest);
      TwoParts(['\\', letter], hex, rest, "?", hex);
  }

  lemma {:induction false} DigitsArePlain(h: string, n: nat)
    requires IsNumber(h, n)
    ensures forall i | 0 <= i < |h| :: h[i] != '"' && h[i] != '\\'
  {
    if h != "" {
      DigitsArePlain(h[..|h| - 1], n / 16);
      assert h == h[..|h| - 1] + [h[|h| - 1]];
      HexValueIs(h[|h| - 1], n % 16);
    }
  }

  lemma {:induction false} PlainRun(s: string, rest: string)
    requires forall i | 0 <= i < |s| :: s[i] != '"' && s[i] != '\\'
    ensures GoesOn(CompletionText.ShortValue("\"" + s + rest), s, CompletionText.ShortValue("\"" + rest))
  {
    if s == "" {
      assert "\"" + s + rest == "\"" + rest;
      assert forall v: string :: "" + v == v;
    } else {
      PlainRun(s[1..], rest);
      TurtlePlainRead(s[0], s[1..] + rest);
      TwoParts([s[0]], s[1..], rest, [s[0]], s[1..]);
      assert [s[0]] + s[1..] == s;
    }
  }

  lemma TwoParts(x: string, y: string, rest: string, readX: string, readY: string)
    requires GoesOn(CompletionText.ShortValue("\"" + x + (y + rest)), readX,
                    CompletionText.ShortValue("\"" + (y + rest)))
    requires GoesOn(CompletionText.ShortValue("\"" + y + rest), readY, CompletionText.ShortValue("\"" + rest))
    ensures GoesOn(CompletionText.ShortValue("\"" + (x + y) + rest), readX + readY,
                   CompletionText.ShortValue("\"" + rest))
  {
    Regroup("\"", x, y, rest);
    assert "\"" + (y + rest) == "\"" + y + rest;
    if CompletionText.ShortValue("\"" + rest).Some? {
      var v := CompletionText.ShortValue("\"" + rest).value;
      assert readX + (readY + v) == readX + readY + v;
    }
  }

  ghost function TurtleAllRead(ps: seq<TurtlePart>): string {
    if ps == [] then "" else TurtlePartRead(ps[0]) + TurtleAllRead(ps[1..])
  }

  lemma {:induction false} TurtleLiteralRead(ps: seq<TurtlePart>, rest: string)
    requires forall p | p in ps :: TurtlePartOk(p)
    ensures GoesOn(CompletionText.ShortValue("\"" + TurtleWritten(ps) + rest), TurtleAllRead(ps),
                   CompletionText.ShortValue("\"" + rest))
  {
    if ps == [] {
      assert "\"" + "" + rest == "\"" + rest;
      assert forall v: string :: "" + v == v;
    } else {
      TurtleLiteralRead(ps[1..], rest);
      TurtlePartIsRead(ps[0], TurtleWritten(ps[1..]) + rest);
      TwoParts(TurtlePartText(ps[0]), TurtleWritten(ps[1..]), rest, TurtlePartRead(ps[0]), TurtleAllRead(ps[1..]));
    }
  }

  /** The reader returns what section 6.4 says, for any literal and whatever follows it, if and
      only if every escape in it is one of the four. */
  lemma TurtleReadsAsStandardIff(ps: seq<TurtlePart>, rest: string)
    requires forall p | p in ps :: TurtlePartOk(p)
    ensures CompletionText.ShortValue("\"" + TurtleWritten(ps) + ("\"" + rest)) == Some(TurtleMeanings(ps))
       <==> forall p | p in ps :: TurtleKnown(p)
  {
    TurtleLiteralRead(ps, "\"" + rest);
    TurtleEnds("", rest);
    assert "\"" + ("\"" + rest) == "\"" + "\"" + rest;
    assert TurtleAllRead(ps) + "" == TurtleAllRead(ps);
    TurtleReadIsMeaningIff(ps);
  }

  lemma {:induction false} TurtleReadIsMeaningIff(ps: seq<TurtlePart>)
    requires forall p | p in ps :: TurtlePartOk(p)
    ensures |TurtleAllRead(ps)| >= |TurtleMeanings(ps)| == |ps|
    ensures TurtleAllRead(ps) == TurtleMeanings(ps) <==> forall p | p in ps :: TurtleKnown(p)
  {
    if ps != [] {
      TurtleReadIsMeaningIff(ps[1..]);
      assert ps == [ps[0]] + ps[1..];
      TurtleKnownIff(ps[0]);
      if !ps[0].Uchar? {
        SameConsIff(TurtlePartRead(ps[0]), TurtleAllRead(ps[1..]), [TurtlePartMeaning(ps[0])], TurtleMeanings(ps[1..]));
      }
    }
  }

  lemma TurtleKnownIff(p: TurtlePart)
    requires TurtlePartOk(p)
    ensures TurtlePartRead(p) == [TurtlePartMeaning(p)] <==> TurtleKnown(p)
    ensures if p.Uchar? then |TurtlePartRead(p)| >= 5 else |TurtlePartRead(p)| == 1
  {
  }

  /** The Turtle escapers write a literal body that means its string by section 6.4. */
  lemma {:induction false} EscapesStandard(s: string) returns (ps: seq<TurtlePart>)
    ensures forall p | p in ps :: TurtlePartOk(p)
    ensures TurtleWritten(ps) == TurtleText.Escaped(s) && TurtleMeanings(ps) == s
  {
    if s == "" {
      ps := [];
    } else {
      var rest := EscapesStandard(s[1..]);
      var p := if TurtleText.NeedsEscape(s[0]) then Echar(TurtleText.EscapeChar(s[0])[1]) else Char(s[0]);
      ps := [p] + rest;
      assert ps[1..] == rest;
      assert s == [s[0]] + s[1..];
    }
  }

  /** Reading a body back by `Unescape` is reading it by section 6.4, numeric escapes aside. */
  lemma {:induction false} UnescapeIsStandard(ps: seq<TurtlePart>)
    requires forall p | p in ps :: TurtlePartOk(p) && !p.Uchar?
    ensures TurtleText.Unescape(TurtleWritten(ps)) == Some(TurtleMeanings(ps))
  {
    if ps != [] {
      UnescapeIsStandard(ps[1..]);
      var p := ps[0];
      assert TurtlePartOk(p) && !p.Uchar?;
      if p.Echar? {
        TurtleText.UnescapeEchar(p.c, TurtlePartMeaning(p), TurtleWritten(ps[1..]));
      } else {
        TurtleText.UnescapePlain(p.c, TurtleWritten(ps[1..]));
      }
    }
  }
}
