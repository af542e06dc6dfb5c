/** The Turtle that the platform language model is asked in and answers in (`llm.rs`): the
    long-literal printer of requests, and the readers of a response's completion. A reader's
    error is `None`. */
module CompletionText {
  import opened Options
  import opened Text
  import TurtleText

  const QUOTES: string := "\"\"\""

  // ----- the short literal -----

  function EscapeMeaning(c: char): char {
    match c
    case '"' => '"'
    case '\\' => '\\'
    case 'n' => '\n'
    case 't' => '\t'
    case _ => '?'
  }

  function Prepend(c: char, r: Option<string>): Option<string> {
    match r
    case Some(v) => Some([c] + v)
    case None => None
  }

  /** The rest of a short literal, up to its closing quote. */
  function ShortBody(s: string): Option<string> {
    if s == "" then None
    else if s[0] == '"' then Some("")
    else if s[0] != '\\' then Prepend(s[0], ShortBody(s[1..]))
    else if |s| == 1 then None
    else Prepend(EscapeMeaning(s[1]), ShortBody(s[2..]))
  }

  function ShortValue(s: string): Option<string> {
    if s == "" || s[0] != '"' then None else ShortBody(s[1..])
  }

  function Onto(out: string, r: Option<string>): Option<string> {
    match r
    case Some(v) => Some(out + v)
    case None => None
  }

  lemma OntoMore(out: string, c: char, r: Option<string>)
    ensures Onto(out + [c], r) == Onto(out, Prepend(c, r))
  {
    if r.Some? { assert out + [c] + r.value == out + ([c] + r.value); }
  }

  lemma OntoEnds(out: string, r: Option<string>)
    ensures Onto("", r) == r && Onto(out, Some("")) == Some(out)
  {
    assert out + "" == out;
    if r.Some? { assert "" + r.value == r.value; }
  }

  method ParseTurtleString(s: string) returns (r: Option<string>)
    ensures r == ShortValue(s)
  {
    if s == "" || s[0] != '"' {
      return None;
    }
    var out := "";
    var i := 1;
    OntoEnds("", ShortBody(s[1..]));
    while i < |s|
      invariant 1 <= i <= |s|
      invariant ShortValue(s) == Onto(out, ShortBody(s[i..]))
      decreases |s| - i
    {
      assert s[i..][1..] == s[i + 1..];
      if s[i] == '"' {
        OntoEnds(out, None);
        return Some(out);
      } else if s[i] != '\\' {
        OntoMore(out, s[i], ShortBody(s[i + 1..]));
        out := out + [s[i]];
        i := i + 1;
      } else if i + 1 == |s| {
        return None;
      } else {
        assert s[i..][2..] == s[i + 2..];
        OntoMore(out, EscapeMeaning(s[i + 1]), ShortBody(s[i + 2..]));
        out := out + [EscapeMeaning(s[i + 1])];
        i := i + 2;
      }
    }
    r := None;
  }

  lemma {:induction false} ShortBodyOfEscaped(s: string, rest: string)
    ensures ShortBody(TurtleText.Escaped(s) + "\"" + rest) == Some(TurtleText.Replace(s, '\r', "?"))
  {
    if s == "" {
      assert TurtleText.Escaped(s) + "\"" + rest == "\"" + rest;
    } else {
      var e := TurtleText.EscapeChar(s[0]);
      var tail := TurtleText.Escaped(s[1..]) + "\"" + rest;
      var t := e + tail;
      assert TurtleText.Escaped(s) + "\"" + rest == t;
      assert |e| == 1 ==> t[1..] == tail;
      assert |e| == 2 ==> t[2..] == tail;
      ShortBodyOfEscaped(s[1..], rest);
    }
  }

  lemma {:induction false} ReplaceIsIdentityIff(s: string, c: char, d: char)
    requires c != d
    ensures |TurtleText.Replace(s, c, [d])| == |s|
    ensures TurtleText.Replace(s, c, [d]) == s <==> forall i | 0 <= i < |s| :: s[i] != c
  {
    if s != "" {
      ReplaceIsIdentityIff(s[1..], c, d);
      var r := TurtleText.Replace(s, c, [d]);
      assert s == [s[0]] + s[1..];
      assert r[1..] == TurtleText.Replace(s[1..], c, [d]);
    }
  }

  /** The reader undoes the escapers of the other modules exactly on strings without a carriage
      return, whatever follows: it does not know the escape they print for one. */
  lemma ShortRoundTripIff(s: string, rest: string)
    ensures ShortValue("\"" + TurtleText.Escaped(s) + "\"" + rest) == Some(s)
       <==> forall i | 0 <= i < |s| :: s[i] != '\r'
  {
    OpenQuote(TurtleText.Escaped(s), "\"", rest);
    ShortBodyOfEscaped(s, rest);
    ReplaceIsIdentityIff(s, '\r', '?');
  }

  lemma OpenQuote(a: string, b: string, c: string)
    ensures ShortValue("\"" + a + b + c) == ShortBody(a + b + c)
  {
    assert ("\"" + a + b + c)[1..] == a + b + c;
  }

  // ----- the long literal -----

  predicate StartsWithQuotes(s: string) {
    |s| >= 3 && s[0] == '"' && s[1] == '"' && s[2] == '"'
  }

  /** `str::replace` of three quotes by three escaped ones. */
  function ReplaceQuotes(s: string): string {
    if s == "" then ""
    else if StartsWithQuotes(s) then "\\\"\\\"\\\"" + ReplaceQuotes(s[3..])
    else [s[0]] + ReplaceQuotes(s[1..])
  }

  /** The body the printer puts between its quotes: two replacements over the whole string. */
  function LongEscape(s: string): string {
    ReplaceQuotes(TurtleText.Replace(s, '\\', "\\\\"))
  }

  /** The same in one pass. */
  function LongBody(s: string): string {
    if s == "" then ""
    else if StartsWithQuotes(s) then "\\\"\\\"\\\"" + LongBody(s[3..])
    else if s[0] == '\\' then "\\\\" + LongBody(s[1..])
    else [s[0]] + LongBody(s[1..])
  }

  lemma {:induction false} ReplaceKeepsStart(s: string)
    ensures StartsWithQuotes(TurtleText.Replace(s, '\\', "\\\\")) <==> StartsWithQuotes(s)
    ensures StartsWithQuotes(s) ==>
              TurtleText.Replace(s, '\\', "\\\\")[3..] == TurtleText.Replace(s[3..], '\\', "\\\\")
  {
    if |s| >= 1 && s[0] == '"' && |s| >= 2 && s[1] == '"' && |s| >= 3 {
      var t := s[1..];
      var u := t[1..];
      var r := TurtleText.Replace(u, '\\', "\\\\");
      assert TurtleText.Replace(s, '\\', "\\\\") == "\"" + ("\"" + r);
      assert r[0] == s[2];
      assert s[2] == '"' ==> r == "\"" + TurtleText.Replace(u[1..], '\\', "\\\\") && u[1..] == s[3..];
    } else if |s| == 2 && s[0] == '"' && s[1] == '"' {
      assert TurtleText.Replace(s[1..][1..], '\\', "\\\\") == "";
    } else if |s| >= 2 && s[0] == '"' {
      assert TurtleText.Replace(s, '\\', "\\\\")[1] == TurtleText.Replace(s[1..], '\\', "\\\\")[0];
    }
  }

  /** Two passes are one: the second finds no quotes that the first wrote. */
  lemma {:induction false} LongEscapeIsSinglePass(s: string)
    ensures LongEscape(s) == LongBody(s)
  {
    if s != "" {
      var r := TurtleText.Replace(s, '\\', "\\\\");
      ReplaceKeepsStart(s);
      if StartsWithQuotes(s) {
        LongEscapeIsSinglePass(s[3..]);
      } else {
        LongEscapeIsSinglePass(s[1..]);
        var rest := TurtleText.Replace(s[1..], '\\', "\\\\");
        if s[0] == '\\' {
          assert r[1..] == "\\" + rest;
          assert ReplaceQuotes(r) == "\\" + ReplaceQuotes("\\" + rest);
          assert ("\\" + rest)[1..] == rest;
        } else {
          assert r[1..] == rest;
        }
      }
    }
  }

  /** Reading a STRING_LITERAL_LONG_QUOTE after its opening quotes (section 6.5 of RDF 1.1
      Turtle): the first three quotes in a row end it, a backslash starts an escape. Its value,
      and what follows it. */
  function LongValue(s: string): Option<(string, string)> {
    if StartsWithQuotes(s) then Some(("", s[3..]))
    else if s == "" then None
    else if s[0] != '\\' then Before(s[0], LongValue(s[1..]))
    else if |s| == 1 then None
    else
      match TurtleText.EscapeMeaning(s[1])
      case Some(c) => Before(c, LongValue(s[2..]))
      case None => None
  }

  function Before(c: char, r: Option<(string, string)>): Option<(string, string)> {
    match r
    case Some((v, rest)) => Some(([c] + v, rest))
    case None => None
  }

  function TrailingQuotes(s: string): nat {
    if s != "" && s[|s| - 1] == '"' then 1 + TrailingQuotes(s[..|s| - 1]) else 0
  }

  predicate AllQuotes(s: string) {
    forall i | 0 <= i < |s| :: s[i] == '"'
  }

  /** Taking characters off the front leaves the run at the end, unless it reaches that far. */
  lemma {:induction false} TrailingAfterDrop(s: string, k: nat)
    requires k <= |s|
    ensures AllQuotes(s) ==> TrailingQuotes(s) == |s|
    ensures !AllQuotes(s[k..]) ==> TrailingQuotes(s) == TrailingQuotes(s[k..])
    ensures AllQuotes(s[k..]) && k > 0 && s[k - 1] != '"' ==> TrailingQuotes(s) == |s| - k
    decreases |s|
  {
    if s != "" && s[|s| - 1] == '"' {
      var init := s[..|s| - 1];
      if k < |s| {
        assert s[k..][..|s| - k - 1] == init[k..];
        TrailingAfterDrop(init, k);
      } else {
        TrailingAfterDrop(init, 0);
      }
      if AllQuotes(s) { assert AllQuotes(init); }
    }
  }

  lemma AllQuotesTrail(s: string)
    requires AllQuotes(s)
    ensures TrailingQuotes(s) == |s|
  {
    TrailingAfterDrop(s, 0);
  }

  /** The condition survives three quotes taken off the front. */
  lemma TrailingAfterThree(s: string)
    requires StartsWithQuotes(s)
    ensures TrailingQuotes(s) % 3 == TrailingQuotes(s[3..]) % 3
  {
    TrailingAfterDrop(s, 3);
    if AllQuotes(s[3..]) {
      AllQuotesTrail(s[3..]);
      assert forall i | 3 <= i < |s| :: s[i] == s[3..][i - 3];
      AllQuotesTrail(s);
    }
  }

  /** It survives any other character, too. */
  lemma TrailingAfterOne(s: string)
    requires s != "" && (s[0] != '"' || !AllQuotes(s[1..]))
    ensures TrailingQuotes(s) == TrailingQuotes(s[1..])
  {
    TrailingAfterDrop(s, 1);
    if AllQuotes(s[1..]) { AllQuotesTrail(s[1..]); }
  }

  /** A long literal reads back, and ends where it was ended, exactly when the run of quotes at
      the end of the text is a multiple of three long. A remainder stays unescaped and runs
      into the closing quotes. */
  lemma LongRoundTripIff(s: string, rest: string)
    ensures LongValue(LongEscape(s) + QUOTES + rest) == Some((s, rest)) <==> TrailingQuotes(s) % 3 == 0
  {
    LongEscapeIsSinglePass(s);
    LongBodyReadsBackIff(s, rest);
  }

  function LongText(s: string, rest: string): string {
    LongBody(s) + QUOTES + rest
  }

  lemma {:induction false} LongBodyReadsBackIff(s: string, rest: string)
    ensures LongValue(LongText(s, rest)) == Some((s, rest)) <==> TrailingQuotes(s) % 3 == 0
    decreases |s|
  {
    if s == "" {
      assert LongText(s, rest) == QUOTES + rest;
      assert (QUOTES + rest)[3..] == rest;
    } else if StartsWithQuotes(s) {
      TrailingAfterThree(s);
      LongBodyReadsBackIff(s[3..], rest);
      QuotesRead(s, rest);
    } else if s[0] == '"' && AllQuotes(s[1..]) {
      FewQuotesLost(s, rest);
    } else {
      TrailingAfterOne(s);
      LongBodyReadsBackIff(s[1..], rest);
      OneRead(s, rest);
    }
  }

  lemma QuotesRead(s: string, rest: string)
    requires StartsWithQuotes(s)
    ensures LongValue(LongText(s, rest)) == Some((s, rest))
       <==> LongValue(LongText(s[3..], rest)) == Some((s[3..], rest))
  {
    EscapedQuotesRead(LongText(s[3..], rest));
    assert LongText(s, rest) == "\\\"\\\"\\\"" + LongText(s[3..], rest);
    assert s == QUOTES + s[3..];
  }

  lemma OneRead(s: string, rest: string)
    requires s != "" && !StartsWithQuotes(s)
    requires s[0] == '"' ==> !AllQuotes(s[1..])
    ensures LongValue(LongText(s, rest)) == Some((s, rest))
       <==> LongValue(LongText(s[1..], rest)) == Some((s[1..], rest))
  {
    assert s == [s[0]] + s[1..];
    if s[0] == '\\' {
      var tail := LongText(s[1..], rest);
      assert LongText(s, rest) == "\\\\" + tail;
      assert ("\\\\" + tail)[2..] == tail;
    } else {
      PlainRead(s, rest);
    }
  }

  lemma EscapedQuotesRead(tail: string)
    ensures LongValue("\\\"\\\"\\\"" + tail) ==
            match LongValue(tail) case Some((v, rest)) => Some((QUOTES + v, rest)) case None => None
  {
    var t := "\\\"\\\"\\\"" + tail;
    assert t[2..] == "\\\"\\\"" + tail;
    assert t[2..][2..] == "\\\"" + tail;
    assert t[2..][2..][2..] == tail;
    var one := Before('"', LongValue(tail));
    assert LongValue(t[2..][2..]) == one;
    assert LongValue(t[2..]) == Before('"', one);
    assert LongValue(t) == Before('"', Before('"', one));
    if LongValue(tail).Some? {
      var v := LongValue(tail).value.0;
      assert ['"'] + (['"'] + (['"'] + v)) == QUOTES + v;
    }
  }

  /** One or two quotes at the very end are taken for the start of the closing ones. */
  lemma FewQuotesLost(s: string, rest: string)
    requires s != "" && s[0] == '"' && AllQuotes(s[1..]) && !StartsWithQuotes(s)
    ensures LongValue(LongText(s, rest)) != Some((s, rest))
    ensures TrailingQuotes(s) % 3 != 0
  {
    assert forall i | 1 <= i < |s| :: s[i] == s[1..][i - 1];
    AllQuotesTrail(s);
    assert 1 <= |s| <= 2;
    if |s| == 1 {
      assert s[1..] == "";
      Opens(s, rest);
    } else {
      assert s[1..][1..] == "";
      assert LongBody(s[1..]) == s[1..];
      Opens(s, rest);
    }
  }

  lemma Opens(quotes: string, rest: string)
    requires quotes != "" && AllQuotes(quotes)
    ensures StartsWithQuotes(quotes + QUOTES + rest)
  {
  }

  /** Any other first character is read as itself. */
  lemma PlainRead(s: string, rest: string)
    requires s != "" && s[0] != '\\' && !StartsWithQuotes(s)
    requires s[0] == '"' ==> !AllQuotes(s[1..])
    ensures LongValue(LongText(s, rest)) == Before(s[0], LongValue(LongText(s[1..], rest)))
  {
    var tail := LongText(s[1..], rest);
    assert LongText(s, rest) == [s[0]] + tail;
    assert ([s[0]] + tail)[1..] == tail;
    if s[0] == '"' {
      assert |s| >= 2;
      if s[1] == '"' {
        var k :| 0 <= k < |s| - 1 && s[1..][k] != '"';
        assert k != 0;
        assert s[2] != '"';
        BodyStart(s[1..][1..]);
        assert LongBody(s[1..]) == ['"'] + LongBody(s[1..][1..]);
        assert tail[1] != '"';
      } else {
        BodyStart(s[1..]);
        assert tail[0] != '"';
      }
    }
  }

  lemma BodyStart(s: string)
    requires s != "" && s[0] != '"'
    ensures LongBody(s) != "" && LongBody(s)[0] == s[0]
  {
  }

  // ----- the completion in a response -----

  const MARKER: string := "antenna:completion"

  function Completion(turtle: string): Option<string> {
    match Find(turtle, MARKER)
    case None => None
    case Some(pos) => CompletionValue(TrimStart(turtle[pos + |MARKER|..]))
  }

  function CompletionValue(after: string): Option<string> {
    if StartsWithQuotes(after) then
      match Find(after[3..], QUOTES)
      case Some(end) => Some(after[3..][..end])
      case None => None
    else if after != "" && after[0] == '"' then ShortValue(after)
    else None
  }

  /** Text that a long literal holds as it is: no backslash, no three quotes in a row, no quote
      at the end. */
  predicate IsPlain(s: string) {
    && PrintsAsIs(s)
    && (s == "" || s[|s| - 1] != '"')
  }

  /** The reader of a long completion does not undo the long-literal printer: it takes the raw
      body up to the first three quotes. It returns the text exactly when the text is plain. */
  lemma LongCompletionIff(s: string, rest: string)
    ensures CompletionValue(QUOTES + LongText(s, rest)) == Some(s) <==> IsPlain(s)
  {
    LongCompletion(LongText(s, rest));
    LongBodyIsIdentityIff(s);
    if IsPlain(s) {
      assert LongText(s, rest) == s + QUOTES + rest;
      PlainFirstQuotes(s, rest);
    } else {
      NotPlainNotReturned(s, rest);
    }
  }

  lemma LongCompletion(inner: string)
    ensures CompletionValue(QUOTES + inner) ==
            match Find(inner, QUOTES) case Some(end) => Some(inner[..end]) case None => None
  {
    assert (QUOTES + inner)[3..] == inner;
  }

  lemma NotPlainNotReturned(s: string, rest: string)
    requires !IsPlain(s)
    ensures var inner := LongText(s, rest);
            !(Find(inner, QUOTES) == Some(|s|) && inner[..|s|] == s)
  {
    LongBodyIsIdentityIff(s);
    if LongBody(s) == s {
      QuoteBefore(s, rest);
    } else {
      BodyGoesOn(s, LongBody(s), QUOTES + rest);
    }
  }

  lemma BodyGoesOn(s: string, body: string, after: string)
    requires body == LongBody(s) != s && |s| <= |body|
    ensures !((body + after)[..|s|] == s && OccursAt(body + after, QUOTES, |s|))
  {
    LongBodyIsIdentityIff(s);
    if s <= body {
      PrefixThenBackslash(s);
      assert |s| + 3 <= |body + after| ==> (body + after)[|s|..|s| + 3][0] == '\\';
    }
  }

  lemma QuoteBefore(s: string, rest: string)
    requires s != "" && s[|s| - 1] == '"'
    ensures OccursAt(s + QUOTES + rest, QUOTES, |s| - 1)
  {
  }

  lemma PlainFirstQuotes(s: string, rest: string)
    requires IsPlain(s)
    ensures Find(s + QUOTES + rest, QUOTES) == Some(|s|) && (s + QUOTES + rest)[..|s|] == s
  {
    var inner := s + QUOTES + rest;
    PrintsAsIsIff(s);
    assert inner[|s|..|s| + 3] == QUOTES;
    forall j: nat | j < |s| ensures !OccursAt(inner, QUOTES, j) {
      var w := inner[j..j + 3];
      assert w[0] == inner[j] && w[1] == inner[j + 1] && w[2] == inner[j + 2];
      if j + 3 <= |s| {
        assert !StartsWithQuotes(s[j..]);
      } else {
        assert w[|s| - 1 - j] == s[|s| - 1];
      }
    }
    FindIs(inner, QUOTES, |s|);
  }

  /** Nothing in the text is changed by the printer. */
  predicate PrintsAsIs(s: string) {
    s == "" || (s[0] != '\\' && !StartsWithQuotes(s) && PrintsAsIs(s[1..]))
  }

  lemma {:induction false} LongBodyIsIdentityIff(s: string)
    ensures |s| <= |LongBody(s)| && (|s| == |LongBody(s)| ==> LongBody(s) == s)
    ensures LongBody(s) == s <==> PrintsAsIs(s)
  {
    if s != "" {
      if StartsWithQuotes(s) {
        LongBodyIsIdentityIff(s[3..]);
      } else {
        LongBodyIsIdentityIff(s[1..]);
        assert s == [s[0]] + s[1..];
        assert s[0] != '\\' ==> LongBody(s)[1..] == LongBody(s[1..]);
      }
    }
  }

  lemma {:induction false} PrintsAsIsIff(s: string)
    ensures PrintsAsIs(s) <==> forall i | 0 <= i < |s| :: s[i] != '\\' && !StartsWithQuotes(s[i..])
  {
    if s != "" {
      PrintsAsIsIff(s[1..]);
      assert s[0..] == s;
      assert forall i | 0 <= i < |s| - 1 :: s[1..][i..] == s[i + 1..];
      forall i | 1 <= i < |s| ensures s[i] == s[1..][i - 1] && s[i..] == s[1..][i - 1..] {
      }
    }
  }

  /** The long-literal printer leaves a text as it is exactly when it has no backslash and no
      three quotes in a row. */
  lemma LongEscapeIsIdentityIff(s: string)
    ensures LongEscape(s) == s <==> forall i | 0 <= i < |s| :: s[i] != '\\' && !StartsWithQuotes(s[i..])
  {
    LongEscapeIsSinglePass(s);
    LongBodyIsIdentityIff(s);
    PrintsAsIsIff(s);
  }

  /** Where a printed body starts with the text and goes on, it goes on with a backslash. */
  lemma {:induction false} PrefixThenBackslash(s: string)
    requires s <= LongBody(s) && LongBody(s) != s
    ensures |s| < |LongBody(s)| && LongBody(s)[|s|] == '\\'
  {
    LongBodyIsIdentityIff(s);
    var t := s[1..];
    if s[0] == '\\' {
      assert LongBody(s)[1..] == Backslashes(1) + LongBody(t);
      BackslashesOnly(t, 1);
      BackslashesDouble(t);
    } else {
      assert LongBody(s)[1..] == LongBody(t);
      PrefixThenBackslash(t);
    }
  }

  function Backslashes(k: nat): (s: string)
    ensures |s| == k && forall i | 0 <= i < k :: s[i] == '\\'
  {
    seq(k, i => '\\')
  }

  predicate OnlyBackslashes(s: string) {
    forall i | 0 <= i < |s| :: s[i] == '\\'
  }

  lemma {:induction false} BackslashesOnly(t: string, k: nat)
    requires k >= 1 && t <= Backslashes(k) + LongBody(t)
    ensures OnlyBackslashes(t)
    decreases |t|
  {
    if t != "" {
      var more := Backslashes(k) + LongBody(t);
      assert t[0] == more[0] == '\\';
      assert more[1..] == Backslashes(k + 1) + LongBody(t[1..]);
      BackslashesOnly(t[1..], k + 1);
      assert t == [t[0]] + t[1..];
    }
  }

  lemma {:induction false} BackslashesDouble(t: string)
    requires OnlyBackslashes(t)
    ensures |LongBody(t)| == 2 * |t| && OnlyBackslashes(LongBody(t))
  {
    if t != "" { BackslashesDouble(t[1..]); }
  }

  /** An empty short literal directly followed by a quote, which together start a long one. */
  predicate OpensLong(s: string, rest: string) {
    s == "" && rest != "" && rest[0] == '"'
  }

  /** A completion printed as a short literal by any of the Turtle escapers is returned exactly
      when it has no carriage return and, if it opens a long literal, that is empty too. */
  lemma ShortCompletionIff(s: string, rest: string)
    ensures CompletionValue("\"" + TurtleText.Escaped(s) + "\"" + rest) == Some(s) <==>
            if OpensLong(s, rest) then StartsWithQuotes(rest[1..])
            else forall i | 0 <= i < |s| :: s[i] != '\r'
  {
    if OpensLong(s, rest) {
      EmptyThenQuote(rest);
    } else {
      ShortIsNotLong(s, rest);
      ShortRoundTripIff(s, rest);
    }
  }

  lemma EmptyThenQuote(rest: string)
    requires rest != "" && rest[0] == '"'
    ensures CompletionValue("\"" + TurtleText.Escaped("") + "\"" + rest) == Some("") <==> StartsWithQuotes(rest[1..])
  {
    var inner := rest[1..];
    assert "\"" + TurtleText.Escaped("") + "\"" + rest == QUOTES + inner;
    LongCompletion(inner);
    if |inner| >= 3 {
      var w := inner[0..3];
      assert w[0] == inner[0] && w[1] == inner[1] && w[2] == inner[2];
    }
    if StartsWithQuotes(inner) {
      FindIs(inner, QUOTES, 0);
    }
  }

  lemma ShortIsNotLong(s: string, rest: string)
    requires !OpensLong(s, rest)
    ensures var after := "\"" + TurtleText.Escaped(s) + "\"" + rest;
            after[0] == '"' && !StartsWithQuotes(after)
  {
    var after := "\"" + TurtleText.Escaped(s) + "\"" + rest;
    if s != "" {
      assert after[1] == TurtleText.EscapeChar(s[0])[0] != '"';
    }
  }

  /** The completion is what follows the first marker. */
  lemma CompletionFound(pre: string, after: string)
    requires forall j: nat | j < |pre| :: !OccursAt(pre + MARKER + (" " + after), MARKER, j)
    requires after != "" && after[0] == '"'
    ensures Completion(pre + MARKER + (" " + after)) == CompletionValue(after)
  {
    var turtle := pre + MARKER + (" " + after);
    assert turtle[|pre|..|pre| + |MARKER|] == MARKER;
    FindIs(turtle, MARKER, |pre|);
    assert turtle[|pre| + |MARKER|..] == " " + after;
    assert (" " + after)[1..] == after;
    assert TrimStart(" " + after) == TrimStart(after) == after;
  }
}
