/** The string operations of Rust that the scanners and printers are written with, over
    sequences of Unicode scalar values. */
module Text {
  import opened Options

  // ----- find -----

  predicate OccursAt(s: string, pat: string, i: nat) {
    i + |pat| <= |s| && s[i..i + |pat|] == pat
  }

  /** `str::find`: the first occurrence. */
  function Find(s: string, pat: string): (r: Option<nat>)
    ensures r.Some? ==> OccursAt(s, pat, r.value) && forall j: nat | j < r.value :: !OccursAt(s, pat, j)
    ensures r.None? ==> forall j: nat :: !OccursAt(s, pat, j)
  {
    FindFrom(s, pat, 0)
  }

  function FindFrom(s: string, pat: string, from: nat): (r: Option<nat>)
    ensures r.Some? ==>
              && from <= r.value && OccursAt(s, pat, r.value)
              && forall j: nat | from <= j < r.value :: !OccursAt(s, pat, j)
    ensures r.None? ==> forall j: nat | from <= j :: !OccursAt(s, pat, j)
    decreases |s| - from
  {
    if from + |pat| > |s| then None
    else if OccursAt(s, pat, from) then Some(from)
    else FindFrom(s, pat, from + 1)
  }

  lemma FindIs(s: string, pat: string, i: nat)
    requires OccursAt(s, pat, i)
    requires forall j: nat | j < i :: !OccursAt(s, pat, j)
    ensures Find(s, pat) == Some(i)
  {
    var r := Find(s, pat);
    if r.Some? && r.value < i { assert false; }
  }

  /** `str::contains`. */
  predicate Contains(s: string, pat: string) {
    Find(s, pat).Some?
  }

  lemma OccursMeansContains(s: string, pat: string, i: nat)
    requires OccursAt(s, pat, i)
    ensures Contains(s, pat)
  {
  }

  /** A text cut at a character that is not in the pattern: an occurrence lies on one side. */
  lemma ContainsAround(a: string, d: char, b: string, pat: string)
    requires forall i | 0 <= i < |pat| :: pat[i] != d
    requires pat != ""
    ensures Contains(a + [d] + b, pat) <==> Contains(a, pat) || Contains(b, pat)
  {
    var s := a + [d] + b;
    if Contains(a, pat) {
      ContainsWider("", a, [d] + b, pat);
      assert s == "" + a + ([d] + b);
    }
    if Contains(b, pat) {
      ContainsWider(a + [d], b, "", pat);
      assert s == a + [d] + b + "";
    }
    if Contains(s, pat) {
      OccursOnOneSide(a, d, b, pat, Find(s, pat).value);
    }
  }

  lemma ContainsWider(a: string, s: string, b: string, pat: string)
    requires Contains(s, pat)
    ensures Contains(a + s + b, pat)
  {
    var j := Find(s, pat).value;
    assert (a + s + b)[|a| + j..|a| + j + |pat|] == s[j..j + |pat|];
    OccursMeansContains(a + s + b, pat, |a| + j);
  }

  lemma OccursOnOneSide(a: string, d: char, b: string, pat: string, j: nat)
    requires OccursAt(a + [d] + b, pat, j)
    requires forall i | 0 <= i < |pat| :: pat[i] != d
    requires pat != ""
    ensures Contains(a, pat) || Contains(b, pat)
  {
    var s := a + [d] + b;
    OccursMeansEqual(s, pat, j);
    assert s[|a|] == d;
    if j + |pat| <= |a| {
      assert a[j..j + |pat|] == s[j..j + |pat|];
      OccursMeansContains(a, pat, j);
    } else if j > |a| {
      var k := j - |a| - 1;
      assert b[k..k + |pat|] == s[j..j + |pat|];
      OccursMeansContains(b, pat, k);
    }
  }

  lemma OccursMeansEqual(s: string, pat: string, j: nat)
    requires OccursAt(s, pat, j)
    ensures forall p | j <= p < j + |pat| :: s[p] == pat[p - j]
  {
    forall p | j <= p < j + |pat| ensures s[p] == pat[p - j] {
      assert s[j..j + |pat|][p - j] == s[p];
    }
  }

  lemma Differs(s: string, pat: string, j: nat, p: nat)
    requires p < |pat| && (j + p < |s| ==> s[j + p] != pat[p])
    ensures !OccursAt(s, pat, j)
  {
    assert j + |pat| <= |s| ==> s[j..j + |pat|][p] == s[j + p];
  }

  lemma ContainsCons(c: char, s: string, pat: string)
    requires pat != ""
    ensures Contains([c] + s, pat) <==> pat <= [c] + s || Contains(s, pat)
  {
    var t := [c] + s;
    if pat <= t {
      assert t[0..|pat|] == pat;
      OccursMeansContains(t, pat, 0);
    } else if Contains(s, pat) {
      OccursShifted(c, s, pat, Find(s, pat).value);
      OccursMeansContains(t, pat, Find(s, pat).value + 1);
    }
    if Contains(t, pat) && Find(t, pat).value > 0 {
      var j := Find(t, pat).value - 1;
      OccursShifted(c, s, pat, j);
      OccursMeansContains(s, pat, j);
    }
  }

  lemma OccursShifted(c: char, s: string, pat: string, j: nat)
    ensures OccursAt([c] + s, pat, j + 1) <==> OccursAt(s, pat, j)
  {
    if j + |pat| <= |s| {
      assert ([c] + s)[j + 1..j + 1 + |pat|] == s[j..j + |pat|];
    }
  }

  lemma LacksFirst(s: string, pat: string)
    requires pat != "" && forall i | 0 <= i < |s| :: s[i] != pat[0]
    ensures !Contains(s, pat)
  {
    forall j: nat | j + |pat| <= |s| ensures !OccursAt(s, pat, j) {
      assert s[j..j + |pat|][0] == s[j];
    }
  }

  // ----- trim -----

  /** `char::is_whitespace`: the Unicode White_Space property. */
  predicate IsWhitespace(c: char) {
    || '\U{0009}' <= c <= '\U{000D}' || c == ' ' || c == '\U{0085}' || c == '\U{00A0}'
    || c == '\U{1680}' || '\U{2000}' <= c <= '\U{200A}' || c == '\U{2028}' || c == '\U{2029}'
    || c == '\U{202F}' || c == '\U{205F}' || c == '\U{3000}'
  }

  function TrimStart(s: string): (r: string)
    ensures r != "" ==> !IsWhitespace(r[0])
    ensures |r| <= |s|
  {
    if s != "" && IsWhitespace(s[0]) then TrimStart(s[1..]) else s
  }

  function TrimEnd(s: string): (r: string)
    ensures r != "" ==> !IsWhitespace(r[|r| - 1])
    ensures r <= s
  {
    if s != "" && IsWhitespace(s[|s| - 1]) then TrimEnd(s[..|s| - 1]) else s
  }

  function Trim(s: string): string {
    TrimEnd(TrimStart(s))
  }

  /** Trimming the end stops at the last character that is not white space. */
  lemma {:induction false} TrimEndKeeps(a: string, b: string)
    requires a != "" && !IsWhitespace(a[|a| - 1])
    ensures TrimEnd(a + b) == a + TrimEnd(b)
  {
    if b == "" {
      assert a + b == a;
    } else if IsWhitespace(b[|b| - 1]) {
      assert (a + b)[..|a + b| - 1] == a + b[..|b| - 1];
      TrimEndKeeps(a, b[..|b| - 1]);
    }
  }

  lemma {:induction false} TrimStartDrops(ws: string, s: string)
    requires forall c | c in ws :: IsWhitespace(c)
    requires s != "" && !IsWhitespace(s[0])
    ensures TrimStart(ws + s) == s
  {
    if ws == "" {
      assert ws + s == s;
    } else {
      assert (ws + s)[1..] == ws[1..] + s;
      TrimStartDrops(ws[1..], s);
    }
  }

  // ----- lines -----

  /** `str::lines`: pieces ended by a line feed, each without a carriage return before it;
      no empty piece after a final line feed. */
  function Lines(s: string): seq<string> {
    if s == "" then []
    else
      match Find(s, "\n")
      case None => [s]
      case Some(i) =>
        [if i > 0 && s[i - 1] == '\r' then s[..i - 1] else s[..i]] + Lines(s[i + 1..])
  }

  /** What stands after a line: nothing, a line feed, or a carriage return and a line feed. */
  datatype LineEnd = NoEnd | Lf | CrLf

  datatype Line = Line(text: string, end: LineEnd)

  function EndText(e: LineEnd): string {
    match e
    case NoEnd => ""
    case Lf => "\n"
    case CrLf => "\r\n"
  }

  predicate NoLineFeed(s: string) {
    forall i | 0 <= i < |s| :: s[i] != '\n'
  }

  /** A line of a text, the last one or not: only the last has no end, and what stands before a
      bare line feed is not a carriage return. */
  predicate LineOk(l: Line, last: bool) {
    && NoLineFeed(l.text)
    && (l.end == NoEnd <==> last)
    && (l.end == Lf && l.text != "" ==> l.text[|l.text| - 1] != '\r')
  }

  /** A text as its lines, the unended last one, perhaps empty, included. */
  predicate LinesOk(ls: seq<Line>) {
    ls != [] && LineOk(ls[0], |ls| == 1) && (|ls| > 1 ==> LinesOk(ls[1..]))
  }

  function Joined(ls: seq<Line>): string {
    if ls == [] then "" else ls[0].text + EndText(ls[0].end) + Joined(ls[1..])
  }

  function Texts(ls: seq<Line>): seq<string> {
    if ls == [] then [] else [ls[0].text] + Texts(ls[1..])
  }

  /** `lines` reads joined lines back, whichever way each is ended; only the empty piece after
      the last line end is left out. */
  lemma {:induction false} LinesOfJoined(ls: seq<Line>)
    requires LinesOk(ls)
    ensures |Texts(ls)| == |ls|
    ensures Lines(Joined(ls)) == if ls[|ls| - 1].text == "" then Texts(ls)[..|ls| - 1] else Texts(ls)
  {
    if |ls| == 1 {
      LastLine(ls[0]);
    } else {
      var rest := ls[1..];
      LinesOfJoined(rest);
      assert ls[|ls| - 1] == rest[|rest| - 1];
      FirstLine(ls[0], Joined(rest));
      assert ([ls[0].text] + Texts(rest))[..|ls| - 1] == [ls[0].text] + Texts(rest)[..|ls| - 2];
    }
  }

  lemma LastLine(l: Line)
    requires LineOk(l, true)
    ensures Lines(Joined([l])) == if l.text == "" then [] else [l.text]
    ensures Texts([l]) == [l.text]
  {
    assert Joined([l]) == l.text + "" + Joined([]);
    assert Joined([l]) == l.text;
    forall j: nat | j < |l.text| ensures !OccursAt(l.text, "\n", j) {
      assert l.text[j..j + 1][0] == l.text[j];
    }
  }

  lemma FirstLine(l: Line, rest: string)
    requires LineOk(l, false)
    ensures Lines(l.text + EndText(l.end) + rest) == [l.text] + Lines(rest)
  {
    if l.end == Lf {
      CutAtLineFeed(l.text, rest);
    } else {
      assert EndText(CrLf) == "\r" + "\n";
      Regroup(l.text, "\r", "\n");
      CutAtLineFeed(l.text + "\r", rest);
      assert (l.text + "\r")[..|l.text|] == l.text;
    }
  }

  lemma Regroup(a: string, b: string, c: string)
    ensures a + (b + c) == a + b + c
  {
  }

  lemma CutAtLineFeed(before: string, rest: string)
    requires NoLineFeed(before)
    ensures Lines(before + "\n" + rest) ==
            [if before != "" && before[|before| - 1] == '\r' then before[..|before| - 1] else before] + Lines(rest)
  {
    var s, n := before + "\n" + rest, |before|;
    LineFeedFound(before, rest);
    LinesUnfold(s, n);
    assert s[..n] == before && s[n + 1..] == rest;
    assert n > 0 ==> s[n - 1] == before[n - 1] && s[..n - 1] == before[..n - 1];
  }

  lemma LinesUnfold(s: string, n: nat)
    requires Find(s, "\n") == Some(n)
    ensures Lines(s) == [if n > 0 && s[n - 1] == '\r' then s[..n - 1] else s[..n]] + Lines(s[n + 1..])
  {
  }

  lemma LineFeedFound(before: string, rest: string)
    requires NoLineFeed(before)
    ensures Find(before + "\n" + rest, "\n") == Some(|before|)
  {
    var s := before + "\n" + rest;
    assert s[|before|..|before| + 1] == "\n";
    forall j: nat | j < |before| ensures !OccursAt(s, "\n", j) {
      assert s[j..j + 1][0] == before[j];
    }
    FindIs(s, "\n", |before|);
  }

  /** Every text is such a join. */
  lemma {:induction false} EveryTextIsJoined(s: string) returns (ls: seq<Line>)
    ensures LinesOk(ls) && Joined(ls) == s
  {
    match Find(s, "\n") {
      case None =>
        forall i | 0 <= i < |s| ensures s[i] != '\n' {
          assert !OccursAt(s, "\n", i) && s[i..i + 1][0] == s[i];
        }
        ls := [Line(s, NoEnd)];
        assert Joined([]) == "" && ls[1..] == [];
      case Some(i) =>
        var rest := EveryTextIsJoined(s[i + 1..]);
        var l := EndedLine(s, i);
        ls := [l] + rest;
        assert ls[1..] == rest;
        assert s == s[..i + 1] + s[i + 1..];
    }
  }

  /** The text up to a first line feed as a line. */
  lemma EndedLine(s: string, i: nat) returns (l: Line)
    requires Find(s, "\n") == Some(i)
    ensures LineOk(l, false) && l.text + EndText(l.end) == s[..i + 1]
  {
    forall j | 0 <= j < i ensures s[j] != '\n' {
      assert !OccursAt(s, "\n", j) && s[j..j + 1][0] == s[j];
    }
    assert s[i] == s[i..i + 1][0] == '\n';
    if i > 0 && s[i - 1] == '\r' {
      l := Line(s[..i - 1], CrLf);
    } else {
      l := Line(s[..i], Lf);
    }
  }

  // ----- decimal numbers -----

  function Digits(n: nat): string {
    if n < 10 then ["0123456789"[n]] else Digits(n / 10) + ["0123456789"[n % 10]]
  }

  predicate IsNumeral(s: string) {
    forall i | 0 <= i < |s| :: '0' <= s[i] <= '9'
  }

  function Number(s: string): nat
    requires IsNumeral(s)
  {
    if s == "" then 0 else 10 * Number(s[..|s| - 1]) + (s[|s| - 1] as int - '0' as int)
  }

  lemma {:induction false} NumberOfDigits(n: nat)
    ensures IsNumeral(Digits(n)) && Number(Digits(n)) == n
  {
    DigitIs(n % 10);
    if n < 10 {
      NumberOfDigit(n);
    } else {
      NumberOfDigits(n / 10);
      NumberSnoc(Digits(n / 10), n % 10);
    }
  }

  lemma DigitIs(d: nat)
    requires d < 10
    ensures '0' <= "0123456789"[d] <= '9' && "0123456789"[d] as int - '0' as int == d
  {
  }

  lemma NumberOfDigit(d: nat)
    requires d < 10
    ensures IsNumeral(Digits(d)) && Number(Digits(d)) == d
  {
    DigitIs(d);
    NumberSnoc("", d);
    assert "" + ["0123456789"[d]] == Digits(d);
  }

  lemma NumberSnoc(s: string, d: nat)
    requires IsNumeral(s) && d < 10
    ensures IsNumeral(s + ["0123456789"[d]]) && Number(s + ["0123456789"[d]]) == 10 * Number(s) + d
  {
    DigitIs(d);
    assert (s + ["0123456789"[d]])[..|s|] == s;
  }
}
