/** A channel: the ring of `RingProtocol` plus the clock pipe that wakes its reader.

    The writer runs `send`: up to twenty `push` attempts, then a one-byte signal, which is
    lost when the pipe is full. The reader runs the poll loop of a node thread: wait until
    the pipe is readable, take at most eight bytes from it, pop until the ring is empty. Its
    view of the ring may be stale, as long as it covers the messages that were signalled
    before it last took bytes from the pipe. */
module ChannelProtocol {
  import opened Framing
  import Ring = RingProtocol

  const MAX_ATTEMPTS: nat := 20
  const CONSUME_BYTES: nat := 8

  datatype Writer =
    | WIdle
    | WTrying(data: Message, attempt: nat)
    | WSignal(data: Message)

  datatype Reader = RPoll | RReady | RDrain

  /** One finished call of `send` and what it returned. */
  datatype SendResult = SendResult(data: Message, ok: bool)

  /** `signalled` counts the messages whose signal has been written, or lost on a full pipe;
      `covered` is what that count was at the reader's last consume. */
  datatype State = State(
    ring: Ring.State, pipe: nat, pipeCapacity: nat,
    writer: Writer, reader: Reader, signalled: nat, covered: nat, log: seq<SendResult>)

  datatype Step =
    | StartSend(data: Message)
    | WriterRing(ringStep: Ring.Step)
    | Signal
    | PollReturns
    | Consume
    | ReaderRing(ringStep: Ring.Step)

  predicate Init(s: State) {
    && Ring.Init(s.ring)
    && s.pipe == 0 && 0 < s.pipeCapacity
    && s.writer == WIdle && s.reader == RPoll && s.signalled == 0 && s.covered == 0 && s.log == []
  }

  predicate Next(s: State, s': State, step: Step)
    requires 0 < |s.ring.buf| < 0x1_0000_0000
  {
    match step
    case StartSend(data) =>
      && s.writer == WIdle
      && s' == s.(writer := WTrying(data, 0))
    case WriterRing(r) =>
      && s.writer.WTrying?
      && (r == Ring.BeginPush(s.writer.data) || r.LoadTail? || r.WriteByte? || r.PublishHead?)
      && Ring.Next(s.ring, s'.ring, r)
      && if r.PublishHead? then
           s' == s.(ring := s'.ring, writer := WSignal(s.writer.data))
         else if r.LoadTail? && s'.ring.prod.PIdle? then
           s' == AttemptFailed(s).(ring := s'.ring)
         else
           s' == s.(ring := s'.ring)
    case Signal =>
      && s.writer.WSignal?
      && s' == s.(pipe := if s.pipe < s.pipeCapacity then s.pipe + 1 else s.pipe,
                  writer := WIdle, signalled := s.signalled + 1,
                  log := s.log + [SendResult(s.writer.data, true)])
    case PollReturns =>
      && s.reader == RPoll && s.pipe > 0
      && s' == s.(reader := RReady)
    case Consume =>
      && s.reader == RReady
      && s' == s.(pipe := if s.pipe <= CONSUME_BYTES then 0 else s.pipe - CONSUME_BYTES,
                  reader := RDrain, covered := s.signalled)
    case ReaderRing(r) =>
      && s.reader == RDrain
      && (r.BeginPop? || (r.LoadHead? && r.k >= s.covered)
          || r.ReadLengthByte? || r.ReadDataByte? || r.PublishTail?)
      && Ring.Next(s.ring, s'.ring, r)
      && s' == s.(ring := s'.ring,
                  reader := if r.LoadHead? && s'.ring.cons.CIdle? then RPoll else RDrain)
  }

  /** A refused push: sleep and try again, or after the last attempt give up. */
  function AttemptFailed(s: State): State
    requires s.writer.WTrying?
  {
    if s.writer.attempt + 1 < MAX_ATTEMPTS
    then s.(writer := WTrying(s.writer.data, s.writer.attempt + 1))
    else s.(writer := WIdle, log := s.log + [SendResult(s.writer.data, false)])
  }

  /** The messages whose `send` returned true, in order. */
  function Sent(log: seq<SendResult>): seq<Message> {
    if log == [] then []
    else Sent(log[..|log| - 1]) + if log[|log| - 1].ok then [log[|log| - 1].data] else []
  }

  lemma SentSnoc(log: seq<SendResult>, r: SendResult)
    ensures Sent(log + [r]) == Sent(log) + if r.ok then [r.data] else []
  {
    assert (log + [r])[..|log|] == log;
  }

  ghost predicate WriterOk(s: State) {
    match s.writer
    case WIdle => s.ring.prod == Ring.PIdle && s.ring.pushed == Sent(s.log)
    case WTrying(data, attempt) =>
      && attempt < MAX_ATTEMPTS
      && (s.ring.prod.PIdle? || s.ring.prod.data == data)
      && s.ring.pushed == Sent(s.log)
    case WSignal(data) => s.ring.prod == Ring.PIdle && s.ring.pushed == Sent(s.log) + [data]
  }

  ghost predicate ReaderOk(s: State)
    requires Ring.Inv(s.ring)
  {
    && (s.reader != RDrain ==> s.ring.cons == Ring.CIdle)
    && (s.reader == RReady ==> s.pipe > 0)
    && (s.reader == RPoll && Ring.Queue(s.ring) != [] ==> s.pipe > 0 || s.writer.WSignal?)
  }

  /** Every message in the ring is signalled, except the one whose signal comes next; a signal
      since the last consume is still in the pipe. */
  ghost predicate SignalsOk(s: State) {
    && |s.ring.pushed| == s.signalled + (if s.writer.WSignal? then 1 else 0)
    && s.covered <= s.signalled
    && (s.signalled > s.covered && s.reader == RDrain ==> s.pipe > 0)
  }

  ghost predicate Inv(s: State) {
    Ring.Inv(s.ring) && 0 < s.pipeCapacity && WriterOk(s) && ReaderOk(s) && SignalsOk(s)
  }

  lemma WriterRingInv(s: State, s': State, r: Ring.Step)
    requires Inv(s) && Next(s, s', WriterRing(r))
    ensures Inv(s')
  {
    Ring.RefinesFifo(s.ring, s'.ring, r);
    if r.LoadTail? && s'.ring.prod.PIdle? {
      SentSnoc(s.log, SendResult(s.writer.data, false));
    }
  }

  lemma ReaderRingInv(s: State, s': State, r: Ring.Step)
    requires Inv(s) && Next(s, s', ReaderRing(r))
    ensures Inv(s')
  {
    Ring.RefinesFifo(s.ring, s'.ring, r);
    if r.LoadHead? { Ring.EmptyIff(s.ring, s'.ring, r.k); }
  }

  lemma NextInv(s: State, s': State, step: Step)
    requires Inv(s) && Next(s, s', step)
    ensures Inv(s')
  {
    match step
    case WriterRing(r) => WriterRingInv(s, s', r);
    case ReaderRing(r) => ReaderRingInv(s, s', r);
    case Signal => SentSnoc(s.log, SendResult(s.writer.data, true));
    case _ =>
  }

  ghost predicate IsRun(states: seq<State>, steps: seq<Step>) {
    && |states| == |steps| + 1
    && Init(states[0])
    && forall i | 0 <= i < |steps| ::
         0 < |states[i].ring.buf| < 0x1_0000_0000 && Next(states[i], states[i + 1], steps[i])
  }

  lemma {:induction false} RunInv(states: seq<State>, steps: seq<Step>)
    requires IsRun(states, steps)
    ensures forall i | 0 <= i < |states| :: Inv(states[i])
  {
    if steps == [] {
      Ring.InitInv(states[0].ring);
    } else {
      var n := |steps| - 1;
      RunInv(states[..n + 1], steps[..n]);
      assert Inv(states[..n + 1][n]);
      NextInv(states[n], states[n + 1], steps[n]);
      forall i | 0 <= i < |states| ensures Inv(states[i]) {
        if i <= n { assert Inv(states[..n + 1][i]); }
      }
    }
  }

  /** No lost wake-up: a reader about to block on a non-empty ring will be woken, because a
      signal byte is in the pipe or the writer is about to write one. */
  lemma NoLostWakeUp(states: seq<State>, steps: seq<Step>, i: nat)
    requires IsRun(states, steps) && i < |states|
    requires states[i].reader == RPoll && states[i].ring.pushed != states[i].ring.popped
    ensures states[i].pipe > 0 || states[i].writer.WSignal?
  {
    RunInv(states, steps);
    assert Inv(states[i]);
  }

  /** Exactly once: between calls of `send`, the ring has taken precisely the messages whose
      `send` returned true, each once and in call order, and the reader has received a prefix
      of them. */
  lemma SendsExactlyOnce(states: seq<State>, steps: seq<Step>, i: nat)
    requires IsRun(states, steps) && i < |states|
    requires states[i].writer == WIdle
    ensures states[i].ring.pushed == Sent(states[i].log)
    ensures |states[i].ring.popped| <= |Sent(states[i].log)|
    ensures states[i].ring.popped == Sent(states[i].log)[..|states[i].ring.popped|]
  {
    RunInv(states, steps);
    assert Inv(states[i]);
  }

  /** A message counts as sent the moment it is in the ring: `send` cannot fail any more. */
  lemma InRingWillReportTrue(states: seq<State>, steps: seq<Step>, i: nat)
    requires IsRun(states, steps) && i < |steps|
    requires states[i].ring.pushed != states[i + 1].ring.pushed
    ensures states[i].writer.WTrying?
    ensures states[i + 1].writer == WSignal(states[i].writer.data)
    ensures states[i + 1].ring.pushed == states[i].ring.pushed + [states[i].writer.data]
  {
    RunInv(states, steps);
    assert Inv(states[i]) && Next(states[i], states[i + 1], steps[i]);
    if steps[i].WriterRing? || steps[i].ReaderRing? {
      Ring.RefinesFifo(states[i].ring, states[i + 1].ring, steps[i].ringStep);
    }
  }

  // ----- the calls of a run -----

  /** The messages that `send` was called with, in order. */
  function Called(steps: seq<Step>): seq<Message> {
    if steps == [] then []
    else
      var last := steps[|steps| - 1];
      Called(steps[..|steps| - 1]) + if last.StartSend? then [last.data] else []
  }

  function Answered(log: seq<SendResult>): seq<Message> {
    if log == [] then [] else Answered(log[..|log| - 1]) + [log[|log| - 1].data]
  }

  function Current(w: Writer): seq<Message> {
    if w.WIdle? then [] else [w.data]
  }

  /** Every call is answered once, in order, except the one in progress. */
  lemma {:induction false} CallsAnswered(states: seq<State>, steps: seq<Step>, n: nat)
    requires IsRun(states, steps) && n < |states|
    ensures Called(steps[..n]) == Answered(states[n].log) + Current(states[n].writer)
  {
    if n > 0 {
      CallsAnswered(states, steps, n - 1);
      assert steps[..n][..n - 1] == steps[..n - 1];
      assert Next(states[n - 1], states[n], steps[n - 1]);
      AnswersGrow(states[n - 1], states[n], steps[n - 1]);
    }
  }

  lemma AnswersGrow(s: State, s': State, step: Step)
    requires 0 < |s.ring.buf| < 0x1_0000_0000 && Next(s, s', step)
    ensures Answered(s'.log) + Current(s'.writer) ==
            Answered(s.log) + Current(s.writer) + if step.StartSend? then [step.data] else []
  {
    if s'.log != s.log {
      assert s'.log[..|s.log|] == s.log;
    }
  }

  predicate IsRefusal(s': State, step: Step) {
    step.WriterRing? && step.ringStep.LoadTail? && s'.ring.prod.PIdle?
  }

  /** Step `k` is an attempt that the ring refused. */
  predicate RefusedAt(states: seq<State>, steps: seq<Step>, k: nat)
    requires k < |steps| < |states|
  {
    IsRefusal(states[k + 1], steps[k])
  }

  /** How many of the steps from `i` up to `j` are refused attempts. */
  function Refusals(states: seq<State>, steps: seq<Step>, i: nat, j: nat): nat
    requires i <= j <= |steps| < |states|
    decreases j
  {
    if i == j then 0
    else Refusals(states, steps, i, j - 1) + if RefusedAt(states, steps, j - 1) then 1 else 0
  }

  /** The call at step `j` is still trying before step `n`, its answer not given, and has had as
      many refusals as it has counted. */
  predicate TriesSince(states: seq<State>, steps: seq<Step>, j: nat, n: nat)
    requires |steps| < |states|
  {
    && j < n <= |steps|
    && states[n].writer.WTrying?
    && steps[j] == StartSend(states[n].writer.data)
    && states[j + 1].log == states[n].log
    && Refusals(states, steps, j + 1, n) == states[n].writer.attempt
  }

  predicate StillTrying(states: seq<State>, steps: seq<Step>, n: nat)
    requires n < |steps| < |states|
  {
    && states[n].writer.WTrying? && states[n + 1].writer.WTrying?
    && states[n].writer.data == states[n + 1].writer.data
    && states[n].log == states[n + 1].log
    && states[n + 1].writer.attempt == states[n].writer.attempt + if RefusedAt(states, steps, n) then 1 else 0
  }

  /** How a call comes to be trying at `n`: it has just started, or it was trying before. */
  predicate CameToTry(states: seq<State>, steps: seq<Step>, n: nat)
    requires |steps| < |states|
  {
    && 0 < n <= |steps|
    && if steps[n - 1].StartSend? then TriesSince(states, steps, n - 1, n) else StillTrying(states, steps, n - 1)
  }

  lemma TryingBefore(states: seq<State>, steps: seq<Step>, n: nat)
    requires IsRun(states, steps) && n < |states| && states[n].writer.WTrying?
    ensures CameToTry(states, steps, n)
  {
    assert n > 0;
    assert Next(states[n - 1], states[n], steps[n - 1]);
  }

  lemma {:induction false} AttemptsAreRefusals(states: seq<State>, steps: seq<Step>, n: nat) returns (j: nat)
    requires n <= |steps| < |states| && states[n].writer.WTrying?
    requires forall k: nat | k <= |steps| && states[k].writer.WTrying? :: CameToTry(states, steps, k)
    ensures TriesSince(states, steps, j, n)
  {
    assert CameToTry(states, steps, n);
    if steps[n - 1].StartSend? {
      j := n - 1;
    } else {
      j := AttemptsAreRefusals(states, steps, n - 1);
    }
  }

  lemma AttemptEnds(s: State, s': State, step: Step)
    requires 0 < |s.ring.buf| < 0x1_0000_0000 && Next(s, s', step) && s.writer.WTrying?
    requires s.writer.attempt < 20
    ensures s'.log == s.log + [SendResult(s.writer.data, false)] <==> IsRefusal(s', step) && s.writer.attempt == 19
  {
  }

  lemma AllCameToTry(states: seq<State>, steps: seq<Step>)
    requires IsRun(states, steps)
    ensures forall k: nat | k <= |steps| && states[k].writer.WTrying? :: CameToTry(states, steps, k)
  {
    forall k: nat | k <= |steps| && states[k].writer.WTrying? ensures CameToTry(states, steps, k) {
      TryingBefore(states, steps, k);
    }
  }

  /** Step `n` answers the call in progress with false. */
  predicate AnswersFalse(states: seq<State>, n: nat)
    requires n + 1 < |states| && states[n].writer.WTrying?
  {
    states[n + 1].log == states[n].log + [SendResult(states[n].writer.data, false)]
  }

  lemma EndOfTrying(states: seq<State>, steps: seq<Step>, n: nat)
    requires IsRun(states, steps) && n < |steps| && states[n].writer.WTrying?
    ensures AnswersFalse(states, n) <==> RefusedAt(states, steps, n) && states[n].writer.attempt == 19
  {
    RunInv(states, steps);
    assert Inv(states[n]) && Next(states[n], states[n + 1], steps[n]);
    AttemptEnds(states[n], states[n + 1], steps[n]);
  }

  lemma OneMoreRefusal(states: seq<State>, steps: seq<Step>, j: nat, n: nat)
    requires n < |steps| < |states| && TriesSince(states, steps, j, n)
    ensures Refusals(states, steps, j + 1, n + 1) ==
            states[n].writer.attempt + if RefusedAt(states, steps, n) then 1 else 0
  {
  }

  /** While a message is being tried, its `send` returns false exactly at the twentieth refused
      attempt since the call. */
  lemma FalseAfterTwenty(states: seq<State>, steps: seq<Step>, n: nat) returns (j: nat)
    requires IsRun(states, steps) && n < |steps| && states[n].writer.WTrying?
    ensures j < n && steps[j] == StartSend(states[n].writer.data) && states[j + 1].log == states[n].log
    ensures AnswersFalse(states, n)
       <==> RefusedAt(states, steps, n) && Refusals(states, steps, j + 1, n + 1) == 20
  {
    AllCameToTry(states, steps);
    j := AttemptsAreRefusals(states, steps, n);
    EndOfTrying(states, steps, n);
    OneMoreRefusal(states, steps, j, n);
  }

  /** And a call that is not trying does not return false. */
  lemma FalseOnlyWhileTrying(states: seq<State>, steps: seq<Step>, n: nat, data: Message)
    requires IsRun(states, steps) && n < |steps|
    requires states[n + 1].log == states[n].log + [SendResult(data, false)]
    ensures states[n].writer.WTrying? && states[n].writer.data == data
  {
    assert Next(states[n], states[n + 1], steps[n]);
    LastAnswer(states[n].log, states[n + 1].log, SendResult(data, false));
  }

  lemma LastAnswer(log: seq<SendResult>, log': seq<SendResult>, r: SendResult)
    requires log' == log + [r]
    ensures log' != log && log'[|log|] == r
  {
  }
}
