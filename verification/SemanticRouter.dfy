/** The semantic router of `dag.rs`: it latches the latest message of two inputs, and when
    both are there asks a language model, once more if the answer does not parse, and emits. */
module SemanticRouter {
  import opened Options
  import opened Text
  import Dispatch
  import ErrorLines
  import TurtleText

  /** What the backend answers to one request. */
  datatype Reply = Answer(raw: string) | Failed

  datatype ParseOutcome = Triples(count: nat) | ParseError(message: string)

  /** The Turtle parser, which this model does not look into. */
  type Parser = string -> ParseOutcome

  const TURTLE_PREFIXES :=
    "@prefix res: <https://resonator.network/> .\n"
    + "@prefix antenna: <http://resonator.network/v2/antenna#> .\n"
    + "@prefix rdfs: <http://www.w3.org/2000/01/rdf-schema#> .\n"
    + "@prefix xsd: <http://www.w3.org/2001/XMLSchema#> .\n"
    + "@prefix rdf: <http://www.w3.org/1999/02/22-rdf-syntax-ns#> .\n"

  datatype Validation = Valid(turtle: string) | Invalid(error: string)

  function Validate(parse: Parser, raw: string): Validation {
    var full := TURTLE_PREFIXES + "\n" + Trim(raw);
    match parse(full)
    case ParseError(e) => Invalid("Turtle parse error: " + e)
    case Triples(n) => if n == 0 then Invalid("LLM produced no triples") else Valid(full)
  }

  function Apostrophes(s: string): string {
    TurtleText.Replace(s, '"', "'")
  }

  function ErrorStatement(error: string): string {
    "@prefix antenna: <http://resonator.network/v2/antenna#> .\n"
    + "[] a antenna:Error ; " + "antenna:message" + " " + "\"" + Apostrophes(error) + "\"" + " ." + "\n"
  }

  // ----- what a firing is to do -----

  /** The text that is parsed, and emitted when it is accepted. */
  function Prefixed(raw: string): string {
    TURTLE_PREFIXES + "\n" + Trim(raw)
  }

  predicate Accepted(parse: Parser, raw: string) {
    parse(Prefixed(raw)).Triples? && parse(Prefixed(raw)).count > 0
  }

  /** Why an answer is not accepted. */
  function Complaint(parse: Parser, raw: string): string {
    match parse(Prefixed(raw))
    case ParseError(e) => "Turtle parse error: " + e
    case Triples(_) => "LLM produced no triples"
  }

  /** The first answer came and was not accepted. */
  predicate AsksAgain(parse: Parser, first: Reply) {
    first.Answer? && !Accepted(parse, first.raw)
  }

  /** A second request exactly after a first answer that is not accepted; an accepted answer is
      emitted; a second answer that is not gives the statement of its own error; nothing is
      emitted exactly when the last request failed. */
  predicate Outcome(parse: Parser, first: Reply, second: Reply, calls: nat, emitted: Option<string>) {
    && calls == (if AsksAgain(parse, first) then 2 else 1)
    && (first.Answer? && Accepted(parse, first.raw) ==> emitted == Some(Prefixed(first.raw)))
    && (AsksAgain(parse, first) && second.Answer? ==>
          emitted == Some(if Accepted(parse, second.raw) then Prefixed(second.raw)
                          else ErrorStatement(Complaint(parse, second.raw))))
    && (emitted == None <==> first.Failed? || (AsksAgain(parse, first) && second.Failed?))
  }

  /** One firing's dialogue with the backend: how many requests, and what is emitted. */
  function Dialogue(parse: Parser, first: Reply, second: Reply): (r: (nat, Option<string>))
    ensures Outcome(parse, first, second, r.0, r.1)
  {
    match first
    case Failed => (1, None)
    case Answer(raw) =>
      match Validate(parse, raw)
      case Valid(turtle) => (1, Some(turtle))
      case Invalid(_) => (2, SecondEmit(parse, second))
  }

  /** What the second answer comes to. */
  function SecondEmit(parse: Parser, second: Reply): Option<string> {
    match second
    case Failed => None
    case Answer(raw) =>
      match Validate(parse, raw)
      case Valid(turtle) => Some(turtle)
      case Invalid(err2) => Some(ErrorStatement(err2))
  }

  // ----- the latch -----

  /** A latched message and its position in its input stream. */
  datatype Slot = Empty | Latched(index: nat, text: string)

  /** One firing: the two messages paired, how far each input had been read by then, and the
      outcome of the dialogue. */
  datatype Firing = Firing(a: nat, textA: string, seenA: nat, b: nat, textB: string, seenB: nat,
                           calls: nat, emitted: Option<string>)

  datatype State = State(slotA: Slot, slotB: Slot, seenA: nat, seenB: nat, firings: seq<Firing>)

  const START := State(Empty, Empty, 0, 0, [])

  /** One turn of the thread's loop: what each ring held when drained (nothing where the poll
      reported nothing), and what the backend would answer. */
  datatype Round = Round(a: seq<string>, b: seq<string>, first: Reply, second: Reply)

  /** Draining a ring that held `batch`, whose first message is number `seen` of the stream. */
  function Latch(slot: Slot, batch: seq<string>, seen: nat): Slot {
    if batch == [] then slot
    else
      var n := |batch| - 1;
      if batch[n] != "" then Latched(seen + n, batch[n]) else Latch(slot, batch[..n], seen)
  }

  function Turn(parse: Parser, s: State, r: Round): State {
    var slotA, slotB := Latch(s.slotA, r.a, s.seenA), Latch(s.slotB, r.b, s.seenB);
    var seenA, seenB := s.seenA + |r.a|, s.seenB + |r.b|;
    if slotA.Latched? && slotB.Latched? then
      var (calls, emitted) := Dialogue(parse, r.first, r.second);
      var f := Firing(slotA.index, slotA.text, seenA, slotB.index, slotB.text, seenB, calls, emitted);
      State(Empty, Empty, seenA, seenB, s.firings + [f])
    else
      State(slotA, slotB, seenA, seenB, s.firings)
  }

  /** The thread's state as the source keeps it, turn by turn. */
  class Router {
    const parse: Parser
    var slotA: Option<string>
    var slotB: Option<string>
    var emits: seq<string>
    var requests: nat

    /** The same state with stream positions and history. */
    ghost var st: State

    ghost predicate Valid()
      reads this
    {
      && slotA == TextOf(st.slotA)
      && slotB == TextOf(st.slotB)
      && emits == Emits(st.firings)
      && requests == Requests(st.firings)
    }

    constructor (parse: Parser)
      ensures Valid() && st == START && this.parse == parse
    {
      this.parse := parse;
      slotA, slotB, emits, requests := None, None, [], 0;
      st := START;
    }

    method Step(r: Round)
      requires Valid()
      modifies this
      ensures Valid() && st == Turn(parse, old(st), r)
    {
      slotA := Drain(slotA, r.a, st.slotA, st.seenA);
      slotB := Drain(slotB, r.b, st.slotB, st.seenB);
      st := Turn(parse, st, r);
      if slotA.Some? && slotB.Some? {
        TurnFires(parse, old(st), r);
        Fire(r.first, r.second);
        slotA := None;
        slotB := None;
      }
    }

    /** Latch the latest non-empty message of a ring that is drained. */
    method Drain(slot: Option<string>, batch: seq<string>, ghost tagged: Slot, ghost seen: nat)
      returns (r: Option<string>)
      requires slot == TextOf(tagged)
      ensures r == TextOf(Latch(tagged, batch, seen))
    {
      r := slot;
      for i := 0 to |batch|
        invariant r == TextOf(Latch(tagged, batch[..i], seen))
      {
        assert batch[..i + 1][..i] == batch[..i];
        if batch[i] != "" {
          r := Some(batch[i]);
        }
      }
      assert batch[..|batch|] == batch;
    }

    /** Ask, ask again with the parse error, emit. */
    method Fire(first: Reply, second: Reply)
      modifies this`emits, this`requests
      ensures requests == old(requests) + if AsksAgain(parse, first) then 2 else 1
      ensures first.Answer? && Accepted(parse, first.raw) ==> emits == old(emits) + [Prefixed(first.raw)]
      ensures AsksAgain(parse, first) && second.Answer? && Accepted(parse, second.raw) ==>
                emits == old(emits) + [Prefixed(second.raw)]
      ensures AsksAgain(parse, first) && second.Answer? && !Accepted(parse, second.raw) ==>
                emits == old(emits) + [ErrorStatement(Complaint(parse, second.raw))]
      ensures emits == old(emits) <==> first.Failed? || (AsksAgain(parse, first) && second.Failed?)
      ensures requests == old(requests) + Dialogue(parse, first, second).0
      ensures emits == old(emits) + AsSeq(Dialogue(parse, first, second).1)
    {
      requests := requests + 1;
      match first
      case Answer(raw) =>
        ValidateIs(parse, raw);
        var v := Validate(parse, raw);
        match v {
          case Valid(turtle) => emits := emits + [turtle];
          case Invalid(_) => Retry(second);
        }
      case Failed =>
    }

    method Retry(second: Reply)
      modifies this`emits, this`requests
      ensures requests == old(requests) + 1
      ensures emits == old(emits) + AsSeq(SecondEmit(parse, second))
      ensures second.Answer? && Accepted(parse, second.raw) ==> emits == old(emits) + [Prefixed(second.raw)]
      ensures second.Answer? && !Accepted(parse, second.raw) ==>
                emits == old(emits) + [ErrorStatement(Complaint(parse, second.raw))]
      ensures emits == old(emits) <==> second.Failed?
    {
      requests := requests + 1;
      match second
      case Answer(raw) =>
        ValidateIs(parse, raw);
        var v := Validate(parse, raw);
        match v {
          case Valid(turtle) => emits := emits + [turtle];
          case Invalid(err2) => emits := emits + [ErrorStatement(err2)];
        }
      case Failed =>
    }
  }

  lemma ValidateIs(parse: Parser, raw: string)
    ensures Validate(parse, raw) ==
            if Accepted(parse, raw) then Valid(Prefixed(raw)) else Invalid(Complaint(parse, raw))
  {
  }

  function TextOf(s: Slot): Option<string> {
    if s.Empty? then None else Some(s.text)
  }

  function AsSeq(o: Option<string>): seq<string> {
    if o.None? then [] else [o.value]
  }

  function Emits(fs: seq<Firing>): seq<string> {
    if fs == [] then [] else Emits(fs[..|fs| - 1]) + AsSeq(fs[|fs| - 1].emitted)
  }

  function Requests(fs: seq<Firing>): nat {
    if fs == [] then 0 else Requests(fs[..|fs| - 1]) + fs[|fs| - 1].calls
  }

  lemma FiringSnoc(fs: seq<Firing>, f: Firing)
    ensures Emits(fs + [f]) == Emits(fs) + AsSeq(f.emitted)
    ensures Requests(fs + [f]) == Requests(fs) + f.calls
  {
    assert (fs + [f])[..|fs|] == fs;
  }

  /** A turn that finds both slots full adds one firing, with its dialogue. */
  lemma TurnFires(parse: Parser, s: State, r: Round)
    requires Latch(s.slotA, r.a, s.seenA).Latched? && Latch(s.slotB, r.b, s.seenB).Latched?
    ensures var fs, d := Turn(parse, s, r).firings, Dialogue(parse, r.first, r.second);
            Emits(fs) == Emits(s.firings) + AsSeq(d.1) && Requests(fs) == Requests(s.firings) + d.0
  {
    var fs := Turn(parse, s, r).firings;
    FiringSnoc(s.firings, fs[|s.firings|]);
  }

  // ----- whole runs -----

  function Run(parse: Parser, rounds: seq<Round>): State {
    if rounds == [] then START
    else Turn(parse, Run(parse, rounds[..|rounds| - 1]), rounds[|rounds| - 1])
  }

  /** Everything the router read from its first input, in order. */
  function StreamA(rounds: seq<Round>): seq<string> {
    if rounds == [] then [] else StreamA(rounds[..|rounds| - 1]) + rounds[|rounds| - 1].a
  }

  function StreamB(rounds: seq<Round>): seq<string> {
    if rounds == [] then [] else StreamB(rounds[..|rounds| - 1]) + rounds[|rounds| - 1].b
  }

  /** Message `i` is the latest non-empty one among `stream[from..to]`. */
  predicate IsLatest(stream: seq<string>, i: nat, text: string, from: nat, to: nat) {
    && from <= i < to <= |stream|
    && stream[i] == text && text != ""
    && forall k | i < k < to :: stream[k] == ""
  }

  /** The slot holds the latest non-empty message since position `from`, if there is one. */
  predicate SlotOk(stream: seq<string>, slot: Slot, from: nat) {
    && from <= |stream|
    && match slot
       case Empty => forall k | from <= k < |stream| :: stream[k] == ""
       case Latched(i, text) => IsLatest(stream, i, text, from, |stream|)
  }

  function FiredA(fs: seq<Firing>, m: nat): nat
    requires m <= |fs|
  {
    if m == 0 then 0 else fs[m - 1].seenA
  }

  function FiredB(fs: seq<Firing>, m: nat): nat
    requires m <= |fs|
  {
    if m == 0 then 0 else fs[m - 1].seenB
  }

  /** Firing `m` pairs the latest non-empty messages of both inputs since firing `m - 1`. */
  predicate PairsLatest(a: seq<string>, b: seq<string>, fs: seq<Firing>, m: nat)
    requires m < |fs|
  {
    && IsLatest(a, fs[m].a, fs[m].textA, FiredA(fs, m), fs[m].seenA)
    && IsLatest(b, fs[m].b, fs[m].textB, FiredB(fs, m), fs[m].seenB)
  }

  lemma {:induction false} LatchOk(stream: seq<string>, batch: seq<string>, slot: Slot, from: nat)
    requires SlotOk(stream, slot, from)
    ensures SlotOk(stream + batch, Latch(slot, batch, |stream|), from)
  {
    if batch == [] {
      assert stream + batch == stream;
    } else {
      var n := |batch| - 1;
      LatchOk(stream, batch[..n], slot, from);
      assert stream + batch == (stream + batch[..n]) + [batch[n]];
    }
  }

  lemma LongerStreamsPairToo(a: seq<string>, b: seq<string>, a': seq<string>, b': seq<string>,
                             fs: seq<Firing>, m: nat)
    requires m < |fs| && PairsLatest(a, b, fs, m) && a <= a' && b <= b'
    ensures PairsLatest(a', b', fs, m)
  {
  }

  /** The router's contract over any run, whatever arrives when and whatever the backend
      answers: each firing pairs the latest messages since the one before, and what has come
      since the last firing is still in the slots, not both of them full. */
  lemma {:induction false} RunPairsLatest(parse: Parser, rounds: seq<Round>)
    ensures var s, a, b := Run(parse, rounds), StreamA(rounds), StreamB(rounds);
            && s.seenA == |a| && s.seenB == |b|
            && SlotOk(a, s.slotA, FiredA(s.firings, |s.firings|))
            && SlotOk(b, s.slotB, FiredB(s.firings, |s.firings|))
            && (s.slotA.Empty? || s.slotB.Empty?)
            && forall m: nat | m < |s.firings| :: PairsLatest(a, b, s.firings, m)
  {
    if rounds != [] {
      var n := |rounds| - 1;
      RunPairsLatest(parse, rounds[..n]);
      TurnPairsLatest(parse, Run(parse, rounds[..n]), rounds[n], StreamA(rounds[..n]), StreamB(rounds[..n]));
    }
  }

  lemma TurnPairsLatest(parse: Parser, s: State, r: Round, a: seq<string>, b: seq<string>)
    requires s.seenA == |a| && s.seenB == |b|
    requires SlotOk(a, s.slotA, FiredA(s.firings, |s.firings|))
    requires SlotOk(b, s.slotB, FiredB(s.firings, |s.firings|))
    requires forall m: nat | m < |s.firings| :: PairsLatest(a, b, s.firings, m)
    ensures var s', a', b' := Turn(parse, s, r), a + r.a, b + r.b;
            && s'.seenA == |a'| && s'.seenB == |b'|
            && SlotOk(a', s'.slotA, FiredA(s'.firings, |s'.firings|))
            && SlotOk(b', s'.slotB, FiredB(s'.firings, |s'.firings|))
            && (s'.slotA.Empty? || s'.slotB.Empty?)
            && forall m: nat | m < |s'.firings| :: PairsLatest(a', b', s'.firings, m)
  {
    var s', a', b' := Turn(parse, s, r), a + r.a, b + r.b;
    LatchOk(a, r.a, s.slotA, FiredA(s.firings, |s.firings|));
    LatchOk(b, r.b, s.slotB, FiredB(s.firings, |s.firings|));
    forall m: nat | m < |s'.firings| ensures PairsLatest(a', b', s'.firings, m) {
      if m < |s.firings| {
        LongerStreamsPairToo(a, b, a', b', s.firings, m);
        assert FiredA(s'.firings, m) == FiredA(s.firings, m);
        assert FiredB(s'.firings, m) == FiredB(s.firings, m);
      }
    }
  }

  lemma NeighboursAdvance(a: seq<string>, b: seq<string>, fs: seq<Firing>, n: nat)
    requires 0 < n < |fs| && PairsLatest(a, b, fs, n - 1) && PairsLatest(a, b, fs, n)
    ensures fs[n - 1].a < fs[n].a && fs[n - 1].b < fs[n].b
  {
  }

  lemma {:induction false} PairsAdvance(a: seq<string>, b: seq<string>, fs: seq<Firing>, m: nat, n: nat)
    requires m < n < |fs| && forall k: nat | k < |fs| :: PairsLatest(a, b, fs, k)
    ensures fs[m].a < fs[n].a && fs[m].b < fs[n].b
    decreases n
  {
    NeighboursAdvance(a, b, fs, n);
    if m + 1 < n { PairsAdvance(a, b, fs, m, n - 1); }
  }

  /** So the pairs advance in both inputs, and no message is used twice. */
  lemma FiringsAdvance(parse: Parser, rounds: seq<Round>, m: nat, n: nat)
    requires m < n < |Run(parse, rounds).firings|
    ensures Run(parse, rounds).firings[m].a < Run(parse, rounds).firings[n].a
    ensures Run(parse, rounds).firings[m].b < Run(parse, rounds).firings[n].b
  {
    RunPairsLatest(parse, rounds);
    PairsAdvance(StreamA(rounds), StreamB(rounds), Run(parse, rounds).firings, m, n);
  }

  /** Firing `f` had the dialogue of the round in which both its messages had just been read. */
  ghost predicate AnsweredInRound(parse: Parser, rounds: seq<Round>, f: Firing, n: nat) {
    && n < |rounds|
    && f.seenA == |StreamA(rounds[..n + 1])| && f.seenB == |StreamB(rounds[..n + 1])|
    && Outcome(parse, rounds[n].first, rounds[n].second, f.calls, f.emitted)
  }

  /** Every firing of a run asks and emits as it is to, on what the backend answers in its round. */
  lemma {:induction false} FiringsHaveOutcomes(parse: Parser, rounds: seq<Round>, m: nat) returns (n: nat)
    requires m < |Run(parse, rounds).firings|
    ensures AnsweredInRound(parse, rounds, Run(parse, rounds).firings[m], n)
  {
    var k := |rounds| - 1;
    var before := Run(parse, rounds[..k]);
    if m < |before.firings| {
      n := FiringsHaveOutcomes(parse, rounds[..k], m);
      assert rounds[..k][..n + 1] == rounds[..n + 1];
    } else {
      n := k;
      RunPairsLatest(parse, rounds);
      assert rounds[..k + 1] == rounds;
    }
  }

  /** An emit is Turtle that parses to at least one triple, or the error statement. */
  ghost predicate ValidEmit(parse: Parser, e: string) {
    (parse(e).Triples? && parse(e).count > 0) || exists err :: e == ErrorStatement(err)
  }

  lemma OutcomeIsValid(parse: Parser, first: Reply, second: Reply, calls: nat, emitted: Option<string>)
    requires Outcome(parse, first, second, calls, emitted)
    ensures 1 <= calls <= 2 && (emitted.Some? ==> ValidEmit(parse, emitted.value))
  {
  }

  /** Cost and output over any run: one or two requests a firing, at most one emit, and every
      emit is Turtle that parses to at least one triple, or the error statement. */
  lemma {:induction false} EmitsAreValid(parse: Parser, rounds: seq<Round>)
    ensures var fs := Run(parse, rounds).firings;
            && |fs| <= Requests(fs) <= 2 * |fs|
            && |Emits(fs)| <= |fs|
            && forall e | e in Emits(fs) :: ValidEmit(parse, e)
  {
    if rounds != [] {
      var n := |rounds| - 1;
      EmitsAreValid(parse, rounds[..n]);
      var before, after := Run(parse, rounds[..n]), Run(parse, rounds);
      if |after.firings| > |before.firings| {
        var f := after.firings[|before.firings|];
        FiringSnoc(before.firings, f);
        OutcomeIsValid(parse, rounds[n].first, rounds[n].second, f.calls, f.emitted);
      }
    }
  }

  // ----- the error statement -----

  /** The error statement reads back as its message (quotes turned into apostrophes) exactly
      when the message holds no backslash and no line break: those are not escaped. */
  lemma ErrorMessageReadsBackIff(error: string)
    ensures TurtleText.Unescape(Apostrophes(error)) == Some(Apostrophes(error))
       <==> forall i | 0 <= i < |error| :: error[i] != '\\' && error[i] != '\n' && error[i] != '\r'
  {
    QuoteFree(error);
    UnescapeIdentityIff(Apostrophes(error));
    assert |Apostrophes(error)| == |error|;
  }

  lemma {:induction false} QuoteFree(error: string)
    ensures var body := Apostrophes(error);
            && |body| == |error|
            && forall i | 0 <= i < |body| :: body[i] == if error[i] == '"' then '\'' else error[i]
  {
    if error != "" { QuoteFree(error[1..]); }
  }

  lemma {:induction false} UnescapeIdentityIff(s: string)
    ensures TurtleText.Unescape(s).Some? ==> |TurtleText.Unescape(s).value| <= |s|
    ensures TurtleText.Unescape(s) == Some(s)
       <==> forall i | 0 <= i < |s| :: s[i] != '\\' && s[i] != '"' && s[i] != '\n' && s[i] != '\r'
  {
    if s != "" {
      if s[0] == '\\' {
        if |s| > 1 { UnescapeIdentityIff(s[2..]); }
      } else {
        UnescapeIdentityIff(s[1..]);
        assert s == [s[0]] + s[1..];
      }
    }
  }

  /** A quote becomes an apostrophe, every other character stays. */
  lemma {:induction false} ApostrophesForQuotes(s: string)
    ensures |Apostrophes(s)| == |s|
    ensures forall i | 0 <= i < |s| :: Apostrophes(s)[i] == if s[i] == '"' then '\'' else s[i]
  {
    if s != "" { ApostrophesForQuotes(s[1..]); }
  }

  /** Where it reads back it is a declaration and an error line, in which a reader of lines finds
      the error type and the message. */
  lemma ErrorStatementReads(error: string) returns (line: string)
    requires error != ""
    requires forall i | 0 <= i < |error| :: error[i] != '\\' && error[i] != '\n' && error[i] != '\r'
    ensures ErrorStatement(error) == "@prefix antenna: <http://resonator.network/v2/antenna#> .\n" + (line + "\n")
    ensures Dispatch.TypeOf(line) == Some("http://resonator.network/v2/antenna#" + "Error")
    ensures TurtleText.PropertyOf(line, "antenna:message") == Some(Apostrophes(error))
  {
    line := ErrorLines.ErrorLine(Apostrophes(error));
    ApostrophesForQuotes(error);
    TurtleText.PlainIsItself(Apostrophes(error));
    ErrorLines.ErrorRead(Apostrophes(error));
    StatementOf("@prefix antenna: <http://resonator.network/v2/antenna#> .\n", "[] a antenna:Error ; ",
                "antenna:message", Apostrophes(error), " .", "\n");
  }

  lemma StatementOf(a: string, b: string, prop: string, v: string, c: string, d: string)
    requires TurtleText.Escaped(v) == v
    ensures a + b + prop + " " + "\"" + v + "\"" + c + d == a + (b + TurtleText.Field(prop, v) + c + d)
  {
  }
}
