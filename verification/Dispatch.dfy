/** How the dispatcher reads a line (`dispatch.rs`): it drops leading `@prefix` and `@base`
    directives, finds the line's `rdf:type` by text search, and routes by its namespace. */
module Dispatch {
  import opened Options
  import opened Text
  import opened TurtleText

  // ----- directives -----

  /** The first full stop outside angle brackets, from position `i` on. */
  function StopFrom(s: string, i: nat, inIri: bool): (r: Option<nat>)
    requires i <= |s|
    ensures r.Some? ==> i <= r.value < |s|
    decreases |s| - i
  {
    if i == |s| then None
    else if s[i] == '<' then StopFrom(s, i + 1, true)
    else if s[i] == '>' then StopFrom(s, i + 1, false)
    else if s[i] == '.' && !inIri then Some(i)
    else StopFrom(s, i + 1, inIri)
  }

  /** The line without its leading directives: nothing, when one of them has no end. */
  function Stripped(line: string): string
    decreases |line|
  {
    var s := TrimStart(line);
    if s == "" || s[0] != '@' then s
    else
      match StopFrom(s, 0, false)
      case Some(stop) => Stripped(s[stop + 1..])
      case None => ""
  }

  method StripLeadingDirectives(line: string) returns (s: string)
    ensures s == Stripped(line)
  {
    s := TrimStart(line);
    TrimStartTwice(line);
    while s != "" && s[0] == '@'
      invariant TrimStart(s) == s && Stripped(s) == Stripped(line)
      decreases |s|
    {
      var end := DirectiveEnd(s);
      match end {
        case Some(e) =>
          TrimStartTwice(s[e..]);
          s := TrimStart(s[e..]);
        case None =>
          return "";
      }
    }
  }

  /** The scan for the end of a directive: one past its full stop. */
  method DirectiveEnd(s: string) returns (end: Option<nat>)
    ensures match StopFrom(s, 0, false)
            case Some(stop) => end == Some(stop + 1)
            case None => end == None
  {
    var inIri := false;
    end := None;
    for i := 0 to |s|
      invariant end == None && StopFrom(s, 0, false) == StopFrom(s, i, inIri)
    {
      var c := s[i];
      if c == '<' {
        inIri := true;
      } else if c == '>' {
        inIri := false;
      } else if c == '.' && !inIri {
        end := Some(i + 1);
        break;
      }
    }
  }

  lemma {:induction false} TrimStartTwice(s: string)
    ensures TrimStart(TrimStart(s)) == TrimStart(s)
  {
  }

  /** A directive as the stripper sees one: it starts with `@` and its first full stop outside
      angle brackets is its last character. */
  predicate IsDirective(d: string) {
    d != "" && d[0] == '@' && StopFrom(d, 0, false) == Some(|d| - 1)
  }

  /** What follows a full stop does not matter to the scan. */
  lemma {:induction false} StopIsLocal(d: string, rest: string, i: nat, inIri: bool)
    requires i < |d|
    ensures StopFrom(d + rest, i, inIri) == Some(|d| - 1) <==> StopFrom(d, i, inIri) == Some(|d| - 1)
    decreases |d| - i
  {
    if i + 1 < |d| {
      StopIsLocal(d, rest, i + 1, true);
      StopIsLocal(d, rest, i + 1, false);
    }
  }

  lemma DirectiveStripped(d: string, rest: string)
    requires IsDirective(d)
    ensures Stripped(d + rest) == Stripped(rest)
  {
    StopIsLocal(d, rest, 0, false);
    assert (d + rest)[|d|..] == rest;
    assert TrimStart(d + rest) == d + rest;
  }

  lemma {:induction false} SpaceStripped(ws: string, rest: string)
    requires forall i | 0 <= i < |ws| :: IsWhitespace(ws[i])
    ensures Stripped(ws + rest) == Stripped(rest)
  {
    if ws == "" {
      assert ws + rest == rest;
    } else {
      assert (ws + rest)[1..] == ws[1..] + rest;
      SpaceStripped(ws[1..], rest);
      assert TrimStart(ws + rest) == TrimStart(ws[1..] + rest);
    }
  }

  /** A directive and the white space after it. */
  datatype Leading = Leading(directive: string, space: string)

  predicate LeadingOk(l: Leading) {
    IsDirective(l.directive) && forall i | 0 <= i < |l.space| :: IsWhitespace(l.space[i])
  }

  function Prologue(ls: seq<Leading>): string {
    if ls == [] then "" else ls[0].directive + ls[0].space + Prologue(ls[1..])
  }

  /** However many directives are bundled in front of a line, what is left is what the line
      alone would leave. */
  lemma {:induction false} PrologueStripped(ls: seq<Leading>, line: string)
    requires forall i | 0 <= i < |ls| :: LeadingOk(ls[i])
    ensures Stripped(Prologue(ls) + line) == Stripped(line)
  {
    if ls == [] {
      assert Prologue(ls) + line == line;
    } else {
      var rest := Prologue(ls[1..]) + line;
      assert Prologue(ls) + line == ls[0].directive + (ls[0].space + rest);
      assert LeadingOk(ls[0]);
      DirectiveStripped(ls[0].directive, ls[0].space + rest);
      SpaceStripped(ls[0].space, rest);
      PrologueStripped(ls[1..], line);
    }
  }

  /** What is left starts with neither white space nor a directive, and stripping it again
      changes nothing. */
  lemma {:induction false} StrippedIsBare(line: string)
    ensures Stripped(line) != "" ==> !IsWhitespace(Stripped(line)[0]) && Stripped(line)[0] != '@'
    ensures Stripped(Stripped(line)) == Stripped(line)
    decreases |line|
  {
    var s := TrimStart(line);
    TrimStartTwice(line);
    if s != "" && s[0] == '@' && StopFrom(s, 0, false).Some? {
      StrippedIsBare(s[StopFrom(s, 0, false).value + 1..]);
    }
  }

  // ----- which prefix declarations are directives -----

  function PrefixDeclaration(name: string, iri: string): string {
    "@prefix " + (name + (": <" + (iri + "> .")))
  }

  predicate NoBrackets(s: string) {
    forall i | 0 <= i < |s| :: s[i] != '<' && s[i] != '>'
  }

  /** A prefix declaration is dropped whole exactly when the prefix has no full stop in it;
      the IRI may have any. Turtle allows full stops inside a prefix (PN_PREFIX, section 6.5 of
      RDF 1.1 Turtle), and such a declaration is cut in the middle. */
  lemma PrefixDroppedIff(name: string, iri: string)
    requires NoBrackets(name) && NoBrackets(iri)
    ensures IsDirective(PrefixDeclaration(name, iri)) <==> forall i | 0 <= i < |name| :: name[i] != '.'
  {
    var d := PrefixDeclaration(name, iri);
    var named := "@prefix " + name;
    assert d == named + (": <" + (iri + "> ."));
    assert forall i | 8 <= i < |named| :: named[i] == name[i - 8];
    if i :| 0 <= i < |name| && name[i] == '.' {
      assert named[i + 8] == '.';
      StopsEarly(d, 0, i + 8);
    } else {
      assert forall i | 0 <= i < |named| :: named[i] != '.';
      SkipsOver(d, 0, |named| + 3, false);
      InsideIri(d, |named| + 3, |named| + 3 + |iri|);
    }
  }

  /** Outside brackets a full stop ahead ends the scan there or before. */
  lemma {:induction false} StopsEarly(d: string, i: nat, k: nat)
    requires i <= k < |d| && d[k] == '.'
    requires forall j | i <= j < k :: d[j] != '<' && d[j] != '>'
    ensures StopFrom(d, i, false).Some? && StopFrom(d, i, false).value <= k
    decreases k - i
  {
    if i < k { StopsEarly(d, i + 1, k); }
  }

  /** The scan passes over what is neither a full stop nor, before the last character, a
      bracket. */
  lemma {:induction false} SkipsOver(d: string, i: nat, k: nat, inIri: bool)
    requires i < k <= |d| && d[k - 1] == '<'
    requires forall j | i <= j < k - 1 :: d[j] != '<' && d[j] != '>' && (d[j] != '.' || inIri)
    ensures StopFrom(d, i, inIri) == StopFrom(d, k, true)
    decreases k - i
  {
    if i + 1 < k { SkipsOver(d, i + 1, k, inIri); }
  }

  lemma {:induction false} InsideIri(d: string, i: nat, k: nat)
    requires i <= k && k + 3 == |d| && d[k] == '>' && d[k + 1] == ' ' && d[k + 2] == '.'
    requires forall j | i <= j < k :: d[j] != '<' && d[j] != '>'
    ensures StopFrom(d, i, true) == Some(|d| - 1)
    decreases k - i
  {
    if i < k {
      InsideIri(d, i + 1, k);
    } else {
      assert StopFrom(d, k + 2, false) == Some(k + 2);
      assert StopFrom(d, k + 1, false) == StopFrom(d, k + 2, false);
    }
  }

  // ----- the type of a line -----

  const SP_NS := "http://spinrdf.org/sp#"
  const ANTENNA_NS := "http://resonator.network/v2/antenna#"
  const CARRIER_NS := "http://resonator.network/v2/carrier#"
  const DESIGN_NS := "http://resonator.network/v2/design#"

  function Namespace(prefix: string): Option<string> {
    if prefix == "sp" then Some(SP_NS)
    else if prefix == "spin" then Some("http://spinrdf.org/spin#")
    else if prefix == "carrier" then Some(CARRIER_NS)
    else if prefix == "antenna" then Some(ANTENNA_NS)
    else if prefix == "design" then Some(DESIGN_NS)
    else if prefix == "rdf" then Some("http://www.w3.org/1999/02/22-rdf-syntax-ns#")
    else None
  }

  /** `extract_type`: the word after the first ` a `. */
  function TypeOf(line: string): Option<string> {
    var l := Trim(line);
    match Find(l, " a ")
    case None => None
    case Some(pos) => TypeWord(TrimStart(l[pos + 3..]))
  }

  function TypeWord(after: string): Option<string> {
    if after != "" && after[0] == '<' then
      match Find(after, ">")
      case Some(end) => if end >= 1 then Some(after[1..end]) else None
      case None => None
    else Expanded(Trim(Until(after)))
  }

  /** A prefixed name of a known prefix, written out. */
  function Expanded(name: string): Option<string> {
    match Find(name, ":")
    case None => None
    case Some(colon) =>
      match Namespace(name[..colon])
      case Some(ns) => Some(ns + name[colon + 1..])
      case None => None
  }

  lemma OccursLocally(s: string, rest: string, pat: string, i: nat)
    requires i + |pat| <= |s|
    ensures OccursAt(s + rest, pat, i) <==> OccursAt(s, pat, i)
  {
    assert (s + rest)[i..i + |pat|] == s[i..i + |pat|];
  }

  /** The first occurrence of a pattern that ends `pre + pat` is at the end of `pre`. */
  lemma FoundAfter(pre: string, pat: string, rest: string)
    requires forall j: nat | j < |pre| :: !OccursAt(pre + pat, pat, j)
    ensures Find(pre + pat + rest, pat) == Some(|pre|)
    ensures (pre + pat + rest)[|pre| + |pat|..] == rest
  {
    assert OccursAt(pre + pat, pat, |pre|);
    forall j: nat | j <= |pre| {
      OccursLocally(pre + pat, rest, pat, j);
    }
    FindIs(pre + pat + rest, pat, |pre|);
  }

  lemma TrimKeeps(head: string, rest: string)
    requires head != "" && !IsWhitespace(head[0]) && !IsWhitespace(head[|head| - 1])
    ensures Trim(head + rest) == head + TrimEnd(rest)
  {
    TrimEndKeeps(head, rest);
    assert TrimStart(head + rest) == head + rest;
  }

  /** A line with the type `word` where ` a ` first occurs: the word is what gets read. */
  lemma TypeWordRead(pre: string, word: string, rest: string)
    requires pre != "" && !IsWhitespace(pre[0])
    requires forall j: nat | j < |pre| :: !OccursAt(pre + " a ", " a ", j)
    requires word != "" && !IsWhitespace(word[0]) && !IsWhitespace(word[|word| - 1])
    ensures TypeOf(pre + " a " + word + rest) == TypeWord(word + TrimEnd(rest))
  {
    TrimKeeps(pre + " a " + word, rest);
    Regroup(pre + " a ", word, TrimEnd(rest));
    TypeOfTrimmed(pre + " a " + word + rest, pre, word + TrimEnd(rest));
  }

  lemma Regroup(a: string, b: string, c: string)
    ensures a + b + c == a + (b + c)
  {
  }

  lemma TypeOfTrimmed(line: string, pre: string, after: string)
    requires Trim(line) == pre + " a " + after
    requires forall j: nat | j < |pre| :: !OccursAt(pre + " a ", " a ", j)
    requires after != "" && !IsWhitespace(after[0])
    ensures TypeOf(line) == TypeWord(after)
  {
    FoundAfter(pre, " a ", after);
  }

  /** The six prefixes that are known without a declaration, and what they stand for. */
  predicate StandsFor(prefix: string, iri: string) {
    || (prefix == "sp" && iri == "http://spinrdf.org/sp#")
    || (prefix == "spin" && iri == "http://spinrdf.org/spin#")
    || (prefix == "carrier" && iri == "http://resonator.network/v2/carrier#")
    || (prefix == "antenna" && iri == "http://resonator.network/v2/antenna#")
    || (prefix == "design" && iri == "http://resonator.network/v2/design#")
    || (prefix == "rdf" && iri == "http://www.w3.org/1999/02/22-rdf-syntax-ns#")
  }

  lemma NamespaceIs(prefix: string, iri: string)
    ensures Namespace(prefix) == Some(iri) <==> StandsFor(prefix, iri)
  {
  }

  /** A type written with a known prefix is read as its full IRI. */
  lemma PrefixedTypeRead(pre: string, prefix: string, iri: string, local: string, rest: string)
    requires pre != "" && !IsWhitespace(pre[0])
    requires forall j: nat | j < |pre| :: !OccursAt(pre + " a ", " a ", j)
    requires StandsFor(prefix, iri) && IsWord(local) && Follows(rest)
    ensures TypeOf(pre + " a " + (prefix + ":" + local) + rest) == Some(iri + local)
  {
    var word := prefix + ":" + local;
    KnownName(prefix, iri, local);
    TypeWordRead(pre, word, rest);
    NameRead(word, rest);
  }

  lemma KnownName(prefix: string, iri: string, local: string)
    requires StandsFor(prefix, iri) && IsWord(local)
    ensures var word := prefix + ":" + local;
            IsWord(word) && word[0] != '<' && Expanded(word) == Some(iri + local)
  {
    NamespaceIs(prefix, iri);
    KnownPrefix(prefix);
    ExpandedName(prefix, local);
    WordsJoined(prefix, local);
  }

  lemma WordsJoined(prefix: string, local: string)
    requires IsWord(prefix) && IsWord(local)
    ensures IsWord(prefix + ":" + local)
  {
  }

  /** With any other prefix it is not read at all. */
  lemma UnknownTypeNotRead(pre: string, prefix: string, local: string, rest: string)
    requires pre != "" && !IsWhitespace(pre[0])
    requires forall j: nat | j < |pre| :: !OccursAt(pre + " a ", " a ", j)
    requires forall iri :: !StandsFor(prefix, iri)
    requires IsWord(prefix) && prefix[0] != '<' && forall i | 0 <= i < |prefix| :: prefix[i] != ':'
    requires IsWord(local) && Follows(rest)
    ensures TypeOf(pre + " a " + (prefix + ":" + local) + rest) == None
  {
    var word := prefix + ":" + local;
    if Namespace(prefix).Some? {
      NamespaceIs(prefix, Namespace(prefix).value);
    }
    TypeWordRead(pre, word, rest);
    NameRead(word, rest);
    ColonFound(prefix, local);
  }

  lemma ColonFound(prefix: string, local: string)
    requires forall i | 0 <= i < |prefix| :: prefix[i] != ':'
    ensures var name := prefix + ":" + local;
            Find(name, ":") == Some(|prefix|) && name[..|prefix|] == prefix && name[|prefix| + 1..] == local
  {
    var name := prefix + ":" + local;
    assert name[|prefix|..|prefix| + 1] == ":";
    forall j: nat | j < |prefix| ensures !OccursAt(name, ":", j) {
      assert name[j..j + 1][0] == prefix[j];
    }
    FindIs(name, ":", |prefix|);
  }

  lemma NameRead(word: string, rest: string)
    requires IsWord(word) && word[0] != '<' && Follows(rest)
    ensures TypeWord(word + TrimEnd(rest)) == Expanded(word)
  {
    FollowsTrimmed(rest);
    UntilWord(word, TrimEnd(rest));
    TrimWord(word);
  }

  lemma KnownPrefix(prefix: string)
    requires Namespace(prefix).Some?
    ensures IsWord(prefix) && forall i | 0 <= i < |prefix| :: prefix[i] != ':' && prefix[i] != '<'
  {
  }

  lemma ExpandedName(prefix: string, local: string)
    requires Namespace(prefix).Some?
    ensures Expanded(prefix + ":" + local) == Some(Namespace(prefix).value + local)
  {
    KnownPrefix(prefix);
    ColonFound(prefix, local);
  }

  /** A type written as an IRI is read as that IRI, whatever follows. */
  lemma IriTypeRead(pre: string, iri: string, rest: string)
    requires pre != "" && !IsWhitespace(pre[0])
    requires forall j: nat | j < |pre| :: !OccursAt(pre + " a ", " a ", j)
    requires forall i | 0 <= i < |iri| :: iri[i] != '>'
    ensures TypeOf(pre + " a " + ("<" + iri + ">") + rest) == Some(iri)
  {
    var word := "<" + iri + ">";
    TypeWordRead(pre, word, rest);
    var after := word + TrimEnd(rest);
    assert after[|iri| + 1..|iri| + 2] == ">";
    forall j: nat | j < |iri| + 1 ensures !OccursAt(after, ">", j) {
      assert after[j..j + 1][0] == word[j];
    }
    FindIs(after, ">", |iri| + 1);
    assert after[1..|iri| + 1] == iri;
  }

  /** The event printer and the type scanner agree: a printed header carries its class, whatever
      the account buffer holds. */
  lemma HeaderTypeRead(class_: string, accountBuf: string, rest: string)
    requires IsWord(class_) && Follows(rest)
    ensures TypeOf(Header(class_, accountBuf) + rest) == Some(CARRIER_NS + class_)
  {
    var acct := CStrFromBuf(accountBuf);
    var field := if acct == "" then "" else " ; " + Field("carrier:account", acct);
    HeaderParts(class_, field, rest);
    BracketsFirst();
    PrefixedTypeRead("[]", "carrier", CARRIER_NS, class_, field + rest);
  }

  lemma HeaderParts(class_: string, field: string, rest: string)
    ensures "[] a carrier:" + class_ + field + rest == "[]" + " a " + ("carrier" + ":" + class_) + (field + rest)
  {
  }

  lemma BracketsFirst()
    ensures forall j: nat | j < |"[]"| :: !OccursAt("[]" + " a ", " a ", j)
  {
    assert ("[]" + " a ")[0..3][0] == '[' && ("[]" + " a ")[1..4][0] == ']';
  }

  // ----- routing -----

  datatype Route = Dropped | Spin(type_: string) | Carrier(type_: string) | Design(type_: string)
                 | Blocklist | Insert(line: string)

  /** Where `dispatch` sends a line. */
  function RouteOf(line: string): Route {
    if line == "" || line[0] == '#' then Dropped
    else
      var s := Stripped(line);
      if s == "" then Dropped else RouteBare(s)
  }

  function RouteBare(s: string): (r: Route)
    ensures !r.Dropped?
  {
    match TypeOf(s)
    case None => Insert(s)
    case Some(t) =>
      if SP_NS <= t then Spin(t)
      else if CARRIER_NS <= t then Carrier(t)
      else if DESIGN_NS <= t then Design(t)
      else if t == ANTENNA_NS + "SubscribeBlocklist" then Blocklist
      else Insert(s)
  }

  /** Where a line of type `t` is to go: by the vocabulary of its type. */
  predicate GoesTo(t: string, line: string, r: Route) {
    if "http://spinrdf.org/sp#" <= t then r == Spin(t)
    else if "http://resonator.network/v2/carrier#" <= t then r == Carrier(t)
    else if "http://resonator.network/v2/design#" <= t then r == Design(t)
    else if t == "http://resonator.network/v2/antenna#" + "SubscribeBlocklist" then r == Blocklist
    else r == Insert(line)
  }

  /** A line that starts with neither white space, a comment sign nor a directive. */
  predicate IsBareLine(line: string) {
    line != "" && !IsWhitespace(line[0]) && line[0] != '#' && line[0] != '@'
  }

  lemma BareLineRoute(line: string)
    requires IsBareLine(line)
    ensures RouteOf(line) == RouteBare(line)
    ensures TypeOf(line).Some? ==> GoesTo(TypeOf(line).value, line, RouteOf(line))
    ensures TypeOf(line).None? ==> RouteOf(line) == Insert(line)
  {
    assert Stripped(line) == line;
  }

  /** A statement with its type written as an IRI goes where that IRI says, whatever follows. */
  lemma IriTypedRoute(pre: string, iri: string, rest: string)
    requires IsBareLine(pre)
    requires forall j: nat | j < |pre| :: !OccursAt(pre + " a ", " a ", j)
    requires forall i | 0 <= i < |iri| :: iri[i] != '>'
    ensures var line := pre + " a " + ("<" + iri + ">") + rest; GoesTo(iri, line, RouteOf(line))
  {
    IriTypeRead(pre, iri, rest);
    BareLineRoute(pre + " a " + ("<" + iri + ">") + rest);
  }

  /** And with a known prefix where the IRI it stands for says: both spellings route alike. */
  lemma PrefixTypedRoute(pre: string, prefix: string, iri: string, local: string, rest: string)
    requires IsBareLine(pre)
    requires forall j: nat | j < |pre| :: !OccursAt(pre + " a ", " a ", j)
    requires StandsFor(prefix, iri) && IsWord(local) && Follows(rest)
    ensures var line := pre + " a " + (prefix + ":" + local) + rest; GoesTo(iri + local, line, RouteOf(line))
  {
    PrefixedTypeRead(pre, prefix, iri, local, rest);
    BareLineRoute(pre + " a " + (prefix + ":" + local) + rest);
  }

  /** Behind any directives a bare line goes where it goes alone, and comments and empty lines go
      nowhere. */
  lemma BundledRoute(ls: seq<Leading>, line: string)
    requires forall i | 0 <= i < |ls| :: LeadingOk(ls[i])
    ensures IsBareLine(line) ==> RouteOf(Prologue(ls) + line) == RouteOf(line)
    ensures line == "" || line[0] == '#' ==> RouteOf(line) == Dropped
  {
    if ls == [] {
      assert Prologue(ls) + line == line;
    } else {
      BundledRoutesAlikeIff(ls, line);
    }
  }

  /** Bundling directives in front of a line leaves its route as it was, unless the line is a
      comment: a comment is dropped, but behind a directive it is not seen as one. */
  lemma BundledRoutesAlikeIff(ls: seq<Leading>, line: string)
    requires ls != [] && forall i | 0 <= i < |ls| :: LeadingOk(ls[i])
    ensures RouteOf(Prologue(ls) + line) == RouteOf(line) <==> line == "" || line[0] != '#'
  {
    PrologueStripped(ls, line);
    PrologueStart(ls, line);
    SameRest(Prologue(ls) + line, line);
  }

  lemma PrologueStart(ls: seq<Leading>, line: string)
    requires ls != [] && LeadingOk(ls[0])
    ensures Prologue(ls) + line != "" && (Prologue(ls) + line)[0] == '@'
  {
  }

  lemma SameRest(bundled: string, line: string)
    requires bundled != "" && bundled[0] == '@' && Stripped(bundled) == Stripped(line)
    ensures RouteOf(bundled) == RouteOf(line) <==> line == "" || line[0] != '#'
  {
    if line != "" && line[0] == '#' {
      assert Stripped(line) == line;
    }
  }
}
