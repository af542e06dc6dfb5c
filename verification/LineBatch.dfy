/** Splitting one FFI call into ring entries: `push_turtle_lines` and a run of calls to it. */
module LineBatch {
  import opened Text
  import opened Framing
  import Channel = ChannelProtocol

  /** The ring entry a line becomes, if any. */
  function Entry(line: string): seq<string> {
    var t := Trim(line);
    if t == "" then [] else [t]
  }

  /** The lines a batch is to enqueue: trimmed, blank ones left out. */
  function Payload(lines: seq<string>): seq<string> {
    if lines == [] then [] else Entry(lines[0]) + Payload(lines[1..])
  }

  lemma {:induction false} PayloadIsTrimmed(lines: seq<string>)
    ensures forall l | l in Payload(lines) ::
              l != "" && !IsWhitespace(l[0]) && !IsWhitespace(l[|l| - 1])
  {
    if lines != [] {
      TrimIsTight(lines[0]);
      PayloadIsTrimmed(lines[1..]);
    }
  }

  lemma TrimIsTight(s: string)
    ensures Trim(s) != "" ==> !IsWhitespace(Trim(s)[0]) && !IsWhitespace(Trim(s)[|Trim(s)| - 1])
  {
    assert Trim(s) <= TrimStart(s);
  }

  // ----- what the payload of a text is -----

  /** A line as written: the part to be sent, perhaps nothing, with white space around it. */
  datatype Piece = Piece(before: string, core: string, after: string, end: LineEnd)

  predicate IsBlank(s: string) {
    forall c | c in s :: IsWhitespace(c)
  }

  predicate IsTight(s: string) {
    s != "" ==> !IsWhitespace(s[0]) && !IsWhitespace(s[|s| - 1])
  }

  predicate PieceOk(p: Piece) {
    IsBlank(p.before) && IsTight(p.core) && IsBlank(p.after)
  }

  function Whole(p: Piece): Line {
    Line(p.before + p.core + p.after, p.end)
  }

  function Wholes(ps: seq<Piece>): seq<Line> {
    if ps == [] then [] else [Whole(ps[0])] + Wholes(ps[1..])
  }

  /** The parts to be sent, in order. */
  function Cores(ps: seq<Piece>): seq<string> {
    if ps == [] then [] else (if ps[0].core == "" then [] else [ps[0].core]) + Cores(ps[1..])
  }

  /** The text is these pieces, one a line, each line but the last ended in one of two ways. */
  ghost predicate IsWritten(ps: seq<Piece>, text: string) {
    (forall p | p in ps :: PieceOk(p)) && LinesOk(Wholes(ps)) && text == Joined(Wholes(ps))
  }

  ghost predicate IsPayload(text: string, payload: seq<string>) {
    exists ps :: IsWritten(ps, text) && payload == Cores(ps)
  }

  /** However a text is written as pieces, its payload is their cores. */
  lemma PayloadOfWritten(ps: seq<Piece>, text: string)
    requires IsWritten(ps, text)
    ensures Payload(Lines(text)) == Cores(ps)
  {
    LinesOfJoined(Wholes(ps));
    LastText(Wholes(ps));
    PayloadWithoutEmptyLast(Texts(Wholes(ps)));
    PayloadOfTexts(ps);
  }

  lemma PayloadWithoutEmptyLast(texts: seq<string>)
    requires texts != []
    ensures texts[|texts| - 1] == "" ==> Payload(texts[..|texts| - 1]) == Payload(texts)
  {
    if texts[|texts| - 1] == "" {
      assert texts == texts[..|texts| - 1] + [""];
      PayloadIgnoresBlank(texts[..|texts| - 1]);
    }
  }

  lemma {:induction false} LastText(ls: seq<Line>)
    requires ls != []
    ensures |Texts(ls)| == |ls| && Texts(ls)[|ls| - 1] == ls[|ls| - 1].text
  {
    if |ls| > 1 { LastText(ls[1..]); }
  }

  lemma {:induction false} PayloadIgnoresBlank(texts: seq<string>)
    ensures Payload(texts + [""]) == Payload(texts)
  {
    if texts == [] {
      assert texts + [""] == [""] && [""][1..] == [];
    } else {
      assert (texts + [""])[1..] == texts[1..] + [""];
      PayloadIgnoresBlank(texts[1..]);
    }
  }

  lemma {:induction false} PayloadOfTexts(ps: seq<Piece>)
    requires forall p | p in ps :: PieceOk(p)
    ensures Payload(Texts(Wholes(ps))) == Cores(ps)
  {
    if ps != [] {
      EntryOfPiece(ps[0]);
      PayloadOfTexts(ps[1..]);
      PayloadCons(Whole(ps[0]).text, Texts(Wholes(ps[1..])));
      assert Wholes(ps)[1..] == Wholes(ps[1..]);
      assert Texts(Wholes(ps)) == [Whole(ps[0]).text] + Texts(Wholes(ps[1..]));
    }
  }

  lemma PayloadCons(line: string, lines: seq<string>)
    ensures Payload([line] + lines) == Entry(line) + Payload(lines)
  {
    assert ([line] + lines)[1..] == lines;
  }

  lemma EntryOfPiece(p: Piece)
    requires PieceOk(p)
    ensures Entry(Whole(p).text) == if p.core == "" then [] else [p.core]
  {
    if p.core == "" {
      assert p.before + p.core + p.after == p.before + p.after;
      BlankTrimsAway(p.before + p.after);
    } else {
      assert p.before + p.core + p.after == p.before + (p.core + p.after);
      TrimStartDrops(p.before, p.core + p.after);
      TrimEndKeeps(p.core, p.after);
      BlankEndTrimsAway(p.after);
      assert p.core + "" == p.core;
    }
  }

  lemma {:induction false} BlankTrimsAway(s: string)
    requires IsBlank(s)
    ensures TrimStart(s) == ""
  {
    if s != "" { BlankTrimsAway(s[1..]); }
  }

  lemma {:induction false} BlankEndTrimsAway(s: string)
    requires IsBlank(s)
    ensures TrimEnd(s) == ""
  {
    if s != "" { BlankEndTrimsAway(s[..|s| - 1]); }
  }

  /** Every text is written as some pieces. */
  lemma EveryTextIsWritten(text: string) returns (ps: seq<Piece>)
    ensures IsWritten(ps, text)
  {
    var ls := EveryTextIsJoined(text);
    ps := PiecesOf(ls);
  }

  lemma {:induction false} PiecesOf(ls: seq<Line>) returns (ps: seq<Piece>)
    ensures (forall p | p in ps :: PieceOk(p)) && Wholes(ps) == ls
  {
    if ls == [] {
      ps := [];
    } else {
      var rest := PiecesOf(ls[1..]);
      var first := PieceOf(ls[0]);
      ps := [first] + rest;
      assert ps[1..] == rest;
    }
  }

  lemma PieceOf(l: Line) returns (p: Piece)
    ensures PieceOk(p) && Whole(p) == l
  {
    var start := BlankPrefix(l.text);
    var stop := |l.text[start..]| - BlankSuffix(l.text[start..]);
    p := Piece(l.text[..start], l.text[start..][..stop], l.text[start..][stop..], l.end);
    CoreIsTight(l.text);
    InThreeParts(l.text, start, stop);
  }

  lemma InThreeParts(s: string, i: nat, j: nat)
    requires i <= |s| && j <= |s| - i
    ensures s[..i] + s[i..][..j] + s[i..][j..] == s
  {
  }

  lemma CoreIsTight(s: string)
    ensures var rest := s[BlankPrefix(s)..]; IsTight(rest[..|rest| - BlankSuffix(rest)])
  {
    var rest := s[BlankPrefix(s)..];
    assert rest != "" ==> rest[0] == s[BlankPrefix(s)];
    TightWithoutSuffix(rest);
  }

  lemma TightWithoutSuffix(s: string)
    requires s != "" ==> !IsWhitespace(s[0])
    ensures IsTight(s[..|s| - BlankSuffix(s)])
  {
    PrefixIsTight(s, |s| - BlankSuffix(s));
  }

  lemma PrefixIsTight(s: string, k: nat)
    requires k <= |s|
    requires k > 0 ==> !IsWhitespace(s[0]) && !IsWhitespace(s[k - 1])
    ensures IsTight(s[..k])
  {
  }

  /** How many white space characters a text starts with. */
  function BlankPrefix(s: string): (n: nat)
    ensures n <= |s| && IsBlank(s[..n]) && (n < |s| ==> !IsWhitespace(s[n]))
  {
    if s != "" && IsWhitespace(s[0]) then
      assert s[..1 + BlankPrefix(s[1..])] == [s[0]] + s[1..][..BlankPrefix(s[1..])];
      1 + BlankPrefix(s[1..])
    else 0
  }

  /** How many it ends with. */
  function BlankSuffix(s: string): (n: nat)
    ensures n <= |s| && IsBlank(s[|s| - n..]) && (n < |s| ==> !IsWhitespace(s[|s| - n - 1]))
  {
    if s != "" && IsWhitespace(s[|s| - 1]) then
      var m := BlankSuffix(s[..|s| - 1]);
      assert s[|s| - 1 - m..] == s[..|s| - 1][|s| - 1 - m..] + [s[|s| - 1]];
      m + 1
    else 0
  }

  lemma TextHasPayload(text: string)
    ensures IsPayload(text, Payload(Lines(text)))
  {
    var ps := EveryTextIsWritten(text);
    PayloadOfWritten(ps, text);
  }

  // ----- one batch -----

  /** One call of the push closure and its answer. */
  datatype Attempt = Attempt(line: string, ok: bool)

  /** The lines that went in. */
  function Accepted(log: seq<Attempt>): seq<string> {
    if log == [] then []
    else Accepted(log[..|log| - 1]) + if log[|log| - 1].ok then [log[|log| - 1].line] else []
  }

  /** The ring's writer as the batch sees it: each line is sent, and the answer is not the
      batch's to choose. */
  class Sink {
    const answer: nat -> bool
    var log: seq<Attempt>

    constructor (answer: nat -> bool)
      ensures log == []
    {
      this.answer := answer;
      log := [];
    }

    method Push(line: string) returns (ok: bool)
      modifies this
      ensures log == old(log) + [Attempt(line, ok)]
    {
      ok := answer(|log|);
      log := log + [Attempt(line, ok)];
    }
  }

  /** What one batch did: it sent lines of the payload in order, stopped after the first
      refusal, and returned 0 exactly when nothing was refused. */
  predicate BatchOutcome(payload: seq<string>, attempts: seq<Attempt>, rc: int) {
    && |attempts| <= |payload|
    && (forall i | 0 <= i < |attempts| :: attempts[i].line == payload[i])
    && (forall i | 0 <= i < |attempts| - 1 :: attempts[i].ok)
    && (rc == 0 || rc == -3)
    && (rc == 0 ==> |attempts| == |payload| && (attempts != [] ==> attempts[|attempts| - 1].ok))
    && (rc == -3 ==> attempts != [] && !attempts[|attempts| - 1].ok)
  }

  /** The lines as written, without the white space around them, in order. */
  method PushTurtleLines(input: string, sink: Sink) returns (rc: int, ghost attempts: seq<Attempt>)
    modifies sink
    ensures sink.log == old(sink.log) + attempts
    ensures forall ps | IsWritten(ps, input) :: BatchOutcome(Cores(ps), attempts, rc)
    ensures exists ps :: IsWritten(ps, input)
    ensures BatchOutcome(Payload(Lines(input)), attempts, rc)
  {
    rc, attempts := PushLines(Lines(input), sink);
    forall ps | IsWritten(ps, input) ensures Payload(Lines(input)) == Cores(ps) {
      PayloadOfWritten(ps, input);
    }
    TextHasPayload(input);
  }

  method PushLines(lines: seq<string>, sink: Sink) returns (rc: int, ghost attempts: seq<Attempt>)
    modifies sink
    ensures sink.log == old(sink.log) + attempts
    ensures BatchOutcome(Payload(lines), attempts, rc)
  {
    attempts := [];
    for i := 0 to |lines|
      invariant sink.log == old(sink.log) + attempts
      invariant AllWentIn(Payload(lines), attempts)
      invariant Payload(lines[i..]) == Payload(lines)[|attempts|..]
    {
      PayloadNext(lines, i);
      var trimmed := Trim(lines[i]);
      if trimmed != "" {
        var ok := sink.Push(trimmed);
        NextIsLine(Payload(lines), attempts, Payload(lines[i..]), trimmed, ok);
        attempts := attempts + [Attempt(trimmed, ok)];
        if !ok {
          return -3, attempts;
        }
      }
    }
    rc := 0;
    AllIn(Payload(lines), attempts);
  }

  lemma AllIn(payload: seq<string>, sent: seq<Attempt>)
    requires AllWentIn(payload, sent) && payload[|sent|..] == []
    ensures BatchOutcome(payload, sent, 0)
  {
  }

  lemma NextIsLine(payload: seq<string>, sent: seq<Attempt>, left: seq<string>, line: string, ok: bool)
    requires AllWentIn(payload, sent) && left == payload[|sent|..]
    requires left != [] && left[0] == line
    ensures if ok then AllWentIn(payload, sent + [Attempt(line, ok)])
            else BatchOutcome(payload, sent + [Attempt(line, ok)], -3)
    ensures payload[|sent| + 1..] == left[1..]
  {
    assert payload[|sent|] == line;
  }

  ghost predicate AllWentIn(payload: seq<string>, sent: seq<Attempt>) {
    && |sent| <= |payload|
    && forall j | 0 <= j < |sent| :: sent[j] == Attempt(payload[j], true)
  }

  lemma PayloadNext(lines: seq<string>, i: nat)
    requires i < |lines|
    ensures Trim(lines[i]) == "" ==> Payload(lines[i..]) == Payload(lines[i + 1..])
    ensures Trim(lines[i]) != "" ==>
              && Payload(lines[i..]) != []
              && Payload(lines[i..])[0] == Trim(lines[i])
              && Payload(lines[i..])[1..] == Payload(lines[i + 1..])
  {
    assert lines[i..][1..] == lines[i + 1..];
  }

  /** A batch enqueues exactly the lines up to the first refusal: all of them when it returns
      0, and all before the refused one when it returns -3. */
  lemma {:induction false} BatchAccepts(payload: seq<string>, attempts: seq<Attempt>, rc: int)
    requires BatchOutcome(payload, attempts, rc)
    ensures Accepted(attempts) == payload[..if rc == 0 then |payload| else |attempts| - 1]
  {
    AllOkAccepted(if rc == 0 then attempts else attempts[..|attempts| - 1]);
    var n := |Accepted(attempts)|;
    assert forall j | 0 <= j < n :: Accepted(attempts)[j] == payload[j];
  }

  lemma {:induction false} AllOkAccepted(log: seq<Attempt>)
    requires forall i | 0 <= i < |log| :: log[i].ok
    ensures |Accepted(log)| == |log|
    ensures forall i | 0 <= i < |log| :: Accepted(log)[i] == log[i].line
  {
    if log != [] { AllOkAccepted(log[..|log| - 1]); }
  }

  lemma {:induction false} AcceptedConcat(a: seq<Attempt>, b: seq<Attempt>)
    ensures Accepted(a + b) == Accepted(a) + Accepted(b)
  {
    if b == [] {
      assert a + b == a;
    } else {
      assert (a + b)[..|a + b| - 1] == a + b[..|b| - 1];
      AcceptedConcat(a, b[..|b| - 1]);
    }
  }

  /** What became of one call: its payload, how much of it went in, and what it returned. */
  datatype Batch = Batch(payload: seq<string>, taken: nat, rc: int)

  predicate Faithful(b: Batch) {
    b.taken <= |b.payload| && (b.rc == 0 <==> b.taken == |b.payload|)
  }

  /** What a run of calls enqueues: from each batch its payload, or the part before the line
      that was refused. */
  function Enqueued(batches: seq<Batch>): seq<string>
    requires forall b | b in batches :: Faithful(b)
  {
    if batches == [] then []
    else
      var last := batches[|batches| - 1];
      assert Faithful(last);
      Enqueued(batches[..|batches| - 1]) + last.payload[..last.taken]
  }

  /** Each batch is of its input, and taken whole exactly when its call returned 0; together they
      put in the ring what they report. */
  ghost predicate BatchesOk(inputs: seq<string>, batches: seq<Batch>, log: seq<Attempt>) {
    && OfInputs(inputs, batches)
    && (forall b | b in batches :: Faithful(b))
    && Accepted(log) == Enqueued(batches)
  }

  ghost predicate OfInputs(inputs: seq<string>, batches: seq<Batch>) {
    && |batches| == |inputs|
    && forall i | 0 <= i < |inputs| :: IsPayload(inputs[i], batches[i].payload)
  }

  /** A caller that sends batch after batch. */
  method SendBatches(inputs: seq<string>, sink: Sink) returns (batches: seq<Batch>)
    requires sink.log == []
    modifies sink
    ensures BatchesOk(inputs, batches, sink.log)
  {
    batches := [];
    for i := 0 to |inputs|
      invariant BatchesOk(inputs[..i], batches, sink.log)
    {
      ghost var before := sink.log;
      var b := SendBatch(inputs[i], sink);
      OneMoreBatch(inputs, i, batches, before, b, sink.log);
      batches := batches + [b];
    }
    assert inputs[..|inputs|] == inputs;
  }

  lemma OneMoreBatch(inputs: seq<string>, i: nat, batches: seq<Batch>, log: seq<Attempt>,
                     b: Batch, log': seq<Attempt>)
    requires i < |inputs| && BatchesOk(inputs[..i], batches, log)
    requires IsPayload(inputs[i], b.payload) && Faithful(b)
    requires Accepted(log') == Accepted(log) + b.payload[..b.taken]
    ensures BatchesOk(inputs[..i + 1], batches + [b], log')
  {
    PrefixSnoc(inputs, i);
    EnqueuedSnoc(batches, b);
    MoreInputs(inputs[..i], batches, inputs[i], b);
  }

  lemma PrefixSnoc(s: seq<string>, i: nat)
    requires i < |s|
    ensures s[..i + 1] == s[..i] + [s[i]]
  {
  }

  lemma MoreInputs(inputs: seq<string>, batches: seq<Batch>, input: string, b: Batch)
    requires OfInputs(inputs, batches) && IsPayload(input, b.payload)
    ensures OfInputs(inputs + [input], batches + [b])
  {
  }

  method SendBatch(input: string, sink: Sink) returns (b: Batch)
    modifies sink
    ensures IsPayload(input, b.payload) && Faithful(b)
    ensures Accepted(sink.log) == Accepted(old(sink.log)) + b.payload[..b.taken]
  {
    var sentBefore := |sink.log|;
    var payload := Payload(Lines(input));
    ghost var attempts;
    var rc;
    rc, attempts := PushTurtleLines(input, sink);
    TextHasPayload(input);
    AcceptedConcat(old(sink.log), attempts);
    BatchAccepts(payload, attempts, rc);
    b := Batch(payload, if rc == 0 then |payload| else |sink.log| - sentBefore - 1, rc);
  }

  lemma EnqueuedSnoc(batches: seq<Batch>, b: Batch)
    requires (forall x | x in batches :: Faithful(x)) && Faithful(b)
    ensures forall x | x in batches + [b] :: Faithful(x)
    ensures Enqueued(batches + [b]) == Enqueued(batches) + b.payload[..b.taken]
  {
    assert (batches + [b])[..|batches|] == batches;
  }

  /** The channel ran the calls the batches made. */
  ghost predicate SameCalls(log: seq<Channel.SendResult>, attempts: seq<Attempt>, encode: string -> Message) {
    && |log| == |attempts|
    && forall i | 0 <= i < |log| :: log[i] == Channel.SendResult(encode(attempts[i].line), attempts[i].ok)
  }

  lemma {:induction false} SentIsAccepted(log: seq<Channel.SendResult>, attempts: seq<Attempt>,
                                          encode: string -> Message)
    requires SameCalls(log, attempts, encode)
    ensures |Channel.Sent(log)| == |Accepted(attempts)|
    ensures forall i | 0 <= i < |Accepted(attempts)| :: Channel.Sent(log)[i] == encode(Accepted(attempts)[i])
  {
    if log != [] {
      SentIsAccepted(log[..|log| - 1], attempts[..|attempts| - 1], encode);
    }
  }

  /** End to end: when the channel ran the calls that these batches made, the worker's `recv`
      results are the encodings of a prefix of what the batches enqueued. */
  lemma WorkerReceivesPrefix(states: seq<Channel.State>, steps: seq<Channel.Step>, i: nat,
                             batches: seq<Batch>, attempts: seq<Attempt>, encode: string -> Message)
    requires Channel.IsRun(states, steps) && i < |states|
    requires states[i].writer == Channel.WIdle
    requires SameCalls(states[i].log, attempts, encode)
    requires (forall b | b in batches :: Faithful(b)) && Accepted(attempts) == Enqueued(batches)
    ensures |states[i].ring.popped| <= |Enqueued(batches)|
    ensures forall j | 0 <= j < |states[i].ring.popped| ::
              states[i].ring.popped[j] == encode(Enqueued(batches)[j])
  {
    Channel.SendsExactlyOnce(states, steps, i);
    SentIsAccepted(states[i].log, attempts, encode);
  }
}
