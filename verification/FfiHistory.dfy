/** The embedded form's runs read off their steps alone: which documents the workers offered to OUT
    and what is drained of them, and which lines the calls put on IN. */
module FfiHistory {
  import opened Options
  import opened Text
  import opened LineBatch
  import opened FfiLifecycle
  import Dispatch
  import TurtleText

  // ----- the error document -----

  /** A reader of lines takes it for an error with this message. */
  ghost predicate ReadsAsError(line: string, message: string) {
    && Dispatch.TypeOf(line) == Some("http://resonator.network/v2/antenna#Error")
    && var property := "<" + "http://resonator.network/v2/antenna#message" + ">";
       if message == "" then TurtleText.PropertyOf(line, property) == None
       else
         exists body ::
           TurtleText.PropertyOf(line, property) == Some(body) && TurtleText.Unescape(body) == Some(message)
  }

  /** The document that a panicked worker leaves reads back as an error with the panic's message. */
  lemma ErrorDocReadsBack(message: string)
    ensures ReadsAsError(ErrorDoc(message), message)
  {
    Dispatch.BracketsFirst();
    Dispatch.IriTypeRead("[]", ERROR_TYPE, " ; " + TurtleText.Field(MESSAGE_PROPERTY, message) + " .");
    MessageRead(message);
    TurtleText.UnescapeEscaped(message);
  }

  function Head(): string {
    "[]" + " a " + ("<" + ERROR_TYPE + ">") + " ; "
  }

  lemma MessageRead(message: string)
    ensures TurtleText.PropertyOf(ErrorDoc(message), MESSAGE_PROPERTY) ==
            if message == "" then None else Some(TurtleText.Escaped(message))
  {
    Regroup("[]" + " a " + ("<" + ERROR_TYPE + ">"), " ; ", TurtleText.Field(MESSAGE_PROPERTY, message), " .");
    NotInHead(TurtleText.Field(MESSAGE_PROPERTY, message) + " .");
    TurtleText.PrintThenScan(Head(), MESSAGE_PROPERTY, message, " .");
  }

  lemma Regroup(a: string, b: string, c: string, d: string)
    ensures a + (b + c + d) == a + b + c + d == a + b + (c + d)
  {
  }

  /** The property's name starts like the type's IRI in front of it, but goes on differently. */
  lemma NotInHead(rest: string)
    ensures forall j: nat | j < |Head()| :: !OccursAt(Head() + rest, MESSAGE_PROPERTY + " ", j)
  {
    TypeGoesOn();
    forall j: nat | j < |Head()| ensures !OccursAt(Head() + rest, MESSAGE_PROPERTY + " ", j) {
      OneBracket(j);
      Differs(Head() + rest, MESSAGE_PROPERTY + " ", j, if j == 5 then 37 else 0);
    }
  }

  lemma OneBracket(j: nat)
    requires j < |Head()|
    ensures Head()[j] == '<' ==> j == 5
  {
    NoBracket();
    var word := "<" + ERROR_TYPE + ">";
    assert |ERROR_TYPE| > 0;
  }

  lemma NoBracket()
    ensures forall i | 0 <= i < |ERROR_TYPE| :: ERROR_TYPE[i] != '<'
  {
  }

  lemma TypeGoesOn()
    ensures |Head()| > 42 && Head()[42] == 'E'
    ensures |MESSAGE_PROPERTY| > 37 && MESSAGE_PROPERTY[0] == '<' && MESSAGE_PROPERTY[37] == 'm'
  {
  }

  // ----- what the workers offered -----

  /** An offer to OUT and whether OUT took it: a document that a tick emitted, or the error
      document after a panic. */
  datatype Offer = Doc(text: string, ok: bool) | Panic(message: string, ok: bool)

  /** The message of worker `i`'s last panic. */
  function LastPanic(steps: seq<Step>, i: nat): string {
    if steps == [] then ""
    else
      var last := steps[|steps| - 1];
      if last.Work? && last.worker == i && last.w.TickPanics? then last.w.message
      else LastPanic(steps[..|steps| - 1], i)
  }

  /** What worker `i` offered, in order. */
  function Offers(steps: seq<Step>, i: nat): seq<Offer> {
    if steps == [] then []
    else
      var before, last := steps[..|steps| - 1], steps[|steps| - 1];
      Offers(before, i)
      + if last.Work? && last.worker == i then OfferOf(last.w, LastPanic(before, i)) else []
  }

  function OfferOf(w: WorkerStep, panic: string): seq<Offer> {
    match w
    case Emit(doc, ok) => [Doc(doc, ok)]
    case PushError(ok) => [Panic(panic, ok)]
    case _ => []
  }

  /** A line is what was offered. */
  ghost predicate Carries(line: string, o: Offer) {
    match o
    case Doc(text, _) => line == text
    case Panic(message, _) => ReadsAsError(line, message)
  }

  ghost predicate Matches(attempts: seq<Attempt>, offers: seq<Offer>) {
    && |attempts| == |offers|
    && forall k | 0 <= k < |offers| :: Carries(attempts[k].line, offers[k]) && attempts[k].ok == offers[k].ok
  }

  ghost predicate OffersMade(h: Handle, steps: seq<Step>, i: nat) {
    Matches(h.attempts, Offers(steps, i)) && h.panicMessage == LastPanic(steps, i)
  }

  lemma OfferMade(h: Handle, w: WorkerStep, steps: seq<Step>, i: nat)
    requires OffersMade(h, steps, i) && WorkerCan(h, w)
    ensures OffersMade(WorkerDoes(h, w), steps + [Work(i, w)], i)
  {
    StepOffers(steps, i, w);
    if w.Emit? {
      MatchesNext(h.attempts, Offers(steps, i), Attempt(w.doc, w.ok), Doc(w.doc, w.ok));
    } else if w.PushError? {
      ErrorDocReadsBack(h.panicMessage);
      MatchesNext(h.attempts, Offers(steps, i), Attempt(ErrorDoc(h.panicMessage), w.ok), Panic(h.panicMessage, w.ok));
    } else {
      assert WorkerDoes(h, w).attempts == h.attempts;
      assert Offers(steps, i) + [] == Offers(steps, i);
    }
  }

  lemma StepOffers(steps: seq<Step>, i: nat, w: WorkerStep)
    ensures Offers(steps + [Work(i, w)], i) == Offers(steps, i) + OfferOf(w, LastPanic(steps, i))
    ensures LastPanic(steps + [Work(i, w)], i) == if w.TickPanics? then w.message else LastPanic(steps, i)
  {
    assert (steps + [Work(i, w)])[..|steps|] == steps;
  }

  lemma MatchesNext(attempts: seq<Attempt>, offers: seq<Offer>, a: Attempt, o: Offer)
    requires Matches(attempts, offers) && Carries(a.line, o) && a.ok == o.ok
    ensures Matches(attempts + [a], offers + [o])
  {
  }

  /** No other step touches what a handle has offered. */
  lemma OthersOfferNothing(s: State, step: Step, i: nat)
    requires Enabled(s, step) && i < |s.handles| && !(step.Work? && step.worker == i)
    ensures i < |Apply(s, step).handles|
    ensures Apply(s, step).handles[i].attempts == s.handles[i].attempts
    ensures Apply(s, step).handles[i].panicMessage == s.handles[i].panicMessage
  {
  }

  lemma SameOffers(h: Handle, h': Handle, steps: seq<Step>, step: Step, i: nat)
    requires OffersMade(h, steps, i) && !(step.Work? && step.worker == i)
    requires h'.attempts == h.attempts && h'.panicMessage == h.panicMessage
    ensures OffersMade(h', steps + [step], i)
  {
    assert (steps + [step])[..|steps|] == steps;
  }

  lemma NewHandle(s: State, step: Step, i: nat)
    requires Enabled(s, step) && |s.handles| <= i < |Apply(s, step).handles|
    ensures Apply(s, step).handles[i] == NEW_HANDLE
  {
  }

  /** Over any run, what a handle records as offered is what its worker's steps offered, one by
      one; a handle that is not there yet has been offered nothing. */
  lemma {:induction false} AttemptsAreOffers(states: seq<State>, steps: seq<Step>, n: nat, i: nat)
    requires IsRun(states, steps) && n < |states|
    ensures OffersMade(if i < |states[n].handles| then states[n].handles[i] else NEW_HANDLE, steps[..n], i)
  {
    if n > 0 {
      var s, step, before := states[n - 1], steps[n - 1], steps[..n - 1];
      AttemptsAreOffers(states, steps, n - 1, i);
      assert Enabled(s, step) && states[n] == Apply(s, step);
      assert steps[..n] == before + [step];
      if step.Work? && step.worker == i {
        OfferMade(s.handles[i], step.w, before, i);
      } else if i < |s.handles| {
        OthersOfferNothing(s, step, i);
        SameOffers(s.handles[i], states[n].handles[i], before, step, i);
      } else {
        if i < |states[n].handles| { NewHandle(s, step, i); }
        SameOffers(NEW_HANDLE, NEW_HANDLE, before, step, i);
      }
    }
  }

  /** The offers that OUT took. */
  function Taken(offers: seq<Offer>): seq<Offer> {
    if offers == [] then []
    else Taken(offers[..|offers| - 1]) + if offers[|offers| - 1].ok then [offers[|offers| - 1]] else []
  }

  lemma {:induction false} AcceptedAreTaken(attempts: seq<Attempt>, offers: seq<Offer>)
    requires Matches(attempts, offers)
    ensures |Accepted(attempts)| == |Taken(offers)|
    ensures forall k | 0 <= k < |Taken(offers)| :: Carries(Accepted(attempts)[k], Taken(offers)[k])
  {
    if offers != [] {
      AcceptedAreTaken(attempts[..|attempts| - 1], offers[..|offers| - 1]);
    }
  }

  /** Over any run, what is drained from a handle is, in order, what its worker's steps offered and
      OUT took: the emitted documents as they are, then after a panic a document that reads as an
      error with the panic's message. What OUT took and is not drained is still in it. */
  lemma DrainsWhatWasOffered(states: seq<State>, steps: seq<Step>, n: nat, i: nat)
    requires IsRun(states, steps) && n < |states| && i < |states[n].handles|
    ensures var h, taken := states[n].handles[i], Taken(Offers(steps[..n], i));
            && |h.drained| + |h.outQueue| == |taken|
            && forall k | 0 <= k < |h.drained| :: Carries(h.drained[k], taken[k])
  {
    var h := states[n].handles[i];
    RunInv(states, steps, n);
    assert HandleOk(h);
    AttemptsAreOffers(states, steps, n, i);
    AcceptedAreTaken(h.attempts, Offers(steps[..n], i));
    assert forall k | 0 <= k < |h.drained| :: h.drained[k] == (h.drained + h.outQueue)[k];
  }

  /** The last thing a poisoned handle was offered is the error document of its worker's panic. */
  ghost predicate PanicIsLast(h: Handle, steps: seq<Step>, i: nat) {
    h.poisoned || h.worker == ErrorPushed ==>
      var offers := Offers(steps, i);
      offers != [] && offers[|offers| - 1].Panic? && offers[|offers| - 1].message == LastPanic(steps, i)
  }

  lemma WorkKeepsPanicLast(h: Handle, w: WorkerStep, steps: seq<Step>, i: nat)
    requires HandleOk(h) && PanicIsLast(h, steps, i) && WorkerCan(h, w)
    ensures PanicIsLast(WorkerDoes(h, w), steps + [Work(i, w)], i)
  {
    assert (steps + [Work(i, w)])[..|steps|] == steps;
  }

  lemma OthersKeepPanicLast(s: State, step: Step, steps: seq<Step>, i: nat)
    requires Enabled(s, step) && i < |s.handles| && !(step.Work? && step.worker == i)
    requires PanicIsLast(s.handles[i], steps, i)
    ensures i < |Apply(s, step).handles| && PanicIsLast(Apply(s, step).handles[i], steps + [step], i)
  {
    assert (steps + [step])[..|steps|] == steps;
  }

  lemma {:induction false} PoisonedAfterPanic(states: seq<State>, steps: seq<Step>, n: nat, i: nat)
    requires IsRun(states, steps) && n < |states| && i < |states[n].handles|
    ensures PanicIsLast(states[n].handles[i], steps[..n], i)
  {
    assert n > 0;
    var s, step, before := states[n - 1], steps[n - 1], steps[..n - 1];
    assert Enabled(s, step) && states[n] == Apply(s, step);
    assert steps[..n] == before + [step];
    if i >= |s.handles| {
      NewHandle(s, step, i);
    } else {
      PoisonedAfterPanic(states, steps, n - 1, i);
      RunInv(states, steps, n - 1);
      assert HandleOk(s.handles[i]);
      if step.Work? && step.worker == i {
        WorkKeepsPanicLast(s.handles[i], step.w, before, i);
      } else {
        OthersKeepPanicLast(s, step, before, i);
      }
    }
  }

  // ----- what the calls put on IN -----

  /** The send in progress: its handle, its text, and how many of its lines have gone in. */
  datatype CurrentSend = NoSend | Send(to: nat, text: string, lines: nat)

  function LastSend(steps: seq<Step>): CurrentSend {
    if steps == [] then NoSend
    else AfterStep(LastSend(steps[..|steps| - 1]), steps[|steps| - 1])
  }

  function AfterStep(sent: CurrentSend, step: Step): CurrentSend {
    match step
    case SendCall(Some(h), Str(text)) => Send(h, text, 0)
    case SendLine(true) => if sent.Send? then sent.(lines := sent.lines + 1) else sent
    case _ => sent
  }

  /** The lines that the steps put on handle `i`'s ring: for each line that went in, the next of
      the text that its call was given. */
  function Entered(steps: seq<Step>, i: nat): seq<string> {
    if steps == [] then []
    else
      var before := steps[..|steps| - 1];
      Entered(before, i) + if steps[|steps| - 1] == SendLine(true) then NextLine(LastSend(before), i) else []
  }

  function NextLine(sent: CurrentSend, i: nat): seq<string> {
    match sent
    case Send(to, text, lines) =>
      if to == i && lines < |Payload(Lines(text))| then [Payload(Lines(text))[lines]] else []
    case NoSend => []
  }

  /** The call in progress agrees with the steps. */
  predicate SendOk(c: Call, sent: CurrentSend) {
    c.Sending? ==> sent.Send? && c.h == sent.to && c.payload == Payload(Lines(sent.text)) && c.sent == sent.lines
  }

  lemma SendSteps(s: State, step: Step, steps: seq<Step>)
    requires Enabled(s, step) && SendOk(s.call, LastSend(steps))
    ensures SendOk(Apply(s, step).call, LastSend(steps + [step]))
  {
    assert (steps + [step])[..|steps|] == steps;
    match step
    case SendCall(h, argument) => SendBegins(s, h, argument, LastSend(steps));
    case SendLine(ok) => SendGoesOn(s, ok, LastSend(steps));
    case _ => NotSending(s, step);
  }

  lemma SendBegins(s: State, h: Option<nat>, argument: Argument, sent: CurrentSend)
    requires Enabled(s, SendCall(h, argument))
    ensures SendOk(Apply(s, SendCall(h, argument)).call, AfterStep(sent, SendCall(h, argument)))
  {
  }

  lemma SendGoesOn(s: State, ok: bool, sent: CurrentSend)
    requires Enabled(s, SendLine(ok)) && SendOk(s.call, sent)
    ensures SendOk(Apply(s, SendLine(ok)).call, AfterStep(sent, SendLine(ok)))
  {
  }

  /** No other step begins or moves a send. */
  lemma NotSending(s: State, step: Step)
    requires Enabled(s, step) && !step.SendCall? && !step.SendLine?
    ensures Apply(s, step).call.Sending? ==> Apply(s, step).call == s.call
  {
  }

  lemma EnteredSteps(s: State, step: Step, steps: seq<Step>, i: nat)
    requires Enabled(s, step) && SendOk(s.call, LastSend(steps)) && i < |s.handles|
    requires s.handles[i].entered == Entered(steps, i)
    ensures i < |Apply(s, step).handles| && Apply(s, step).handles[i].entered == Entered(steps + [step], i)
  {
    assert (steps + [step])[..|steps|] == steps;
  }

  lemma NotThereYet(s: State, step: Step, steps: seq<Step>, i: nat)
    requires Enabled(s, step) && SendOk(s.call, LastSend(steps)) && i >= |s.handles|
    requires Entered(steps, i) == []
    ensures Entered(steps + [step], i) == []
  {
    assert (steps + [step])[..|steps|] == steps;
  }

  /** Over any run, the lines that entered a handle's IN ring are, in order, those of the texts its
      sends were given, each as far as its lines went in. */
  lemma {:induction false} EnteredAsGiven(states: seq<State>, steps: seq<Step>, n: nat, i: nat)
    requires IsRun(states, steps) && n < |states|
    ensures SendOk(states[n].call, LastSend(steps[..n]))
    ensures Entered(steps[..n], i) == if i < |states[n].handles| then states[n].handles[i].entered else []
  {
    if n > 0 {
      var s, step, before := states[n - 1], steps[n - 1], steps[..n - 1];
      EnteredAsGiven(states, steps, n - 1, i);
      assert Enabled(s, step) && states[n] == Apply(s, step);
      assert steps[..n] == before + [step];
      SendSteps(s, step, before);
      if i < |s.handles| {
        EnteredSteps(s, step, before, i);
      } else {
        NotThereYet(s, step, before, i);
        if i < |states[n].handles| { NewHandle(s, step, i); }
      }
    }
  }

  // ----- when a handle is told to stop, poisoned and freed -----

  function LastDestroyed(steps: seq<Step>): Option<nat> {
    if steps == [] then None
    else
      match steps[|steps| - 1]
      case DestroyCall(Some(h)) => Some(h)
      case _ => LastDestroyed(steps[..|steps| - 1])
  }

  /** The steps by which a handle's own destroy call tells its worker to stop, and frees it, and by
      which its worker poisons it. */
  predicate IsStop(before: seq<Step>, step: Step, i: nat) {
    step == SetDone && LastDestroyed(before) == Some(i)
  }

  predicate IsFree(before: seq<Step>, step: Step, i: nat) {
    step == JoinReturns && LastDestroyed(before) == Some(i)
  }

  function Stops(steps: seq<Step>, i: nat): nat {
    if steps == [] then 0
    else
      var before := steps[..|steps| - 1];
      Stops(before, i) + if IsStop(before, steps[|steps| - 1], i) then 1 else 0
  }

  function Frees(steps: seq<Step>, i: nat): nat {
    if steps == [] then 0
    else
      var before := steps[..|steps| - 1];
      Frees(before, i) + if IsFree(before, steps[|steps| - 1], i) then 1 else 0
  }

  function Poisonings(steps: seq<Step>, i: nat): nat {
    if steps == [] then 0
    else Poisonings(steps[..|steps| - 1], i) + if steps[|steps| - 1] == Work(i, SetPoison) then 1 else 0
  }

  /** The call in progress agrees with the steps. */
  predicate DestroyOk(c: Call, steps: seq<Step>) {
    c.Destroying? || c.Joining? ==> LastDestroyed(steps) == Some(c.h)
  }

  predicate FlagsOk(h: Handle, steps: seq<Step>, i: nat) {
    && (h.done <==> Stops(steps, i) > 0)
    && (h.poisoned <==> Poisonings(steps, i) > 0)
    && h.frees == Frees(steps, i)
  }

  lemma DestroySteps(s: State, step: Step, steps: seq<Step>)
    requires Enabled(s, step) && DestroyOk(s.call, steps)
    ensures DestroyOk(Apply(s, step).call, steps + [step])
  {
    assert (steps + [step])[..|steps|] == steps;
  }

  lemma CountsSnoc(steps: seq<Step>, step: Step, i: nat)
    ensures Stops(steps + [step], i) == Stops(steps, i) + if IsStop(steps, step, i) then 1 else 0
    ensures Frees(steps + [step], i) == Frees(steps, i) + if IsFree(steps, step, i) then 1 else 0
    ensures Poisonings(steps + [step], i) == Poisonings(steps, i) + if step == Work(i, SetPoison) then 1 else 0
  {
    assert (steps + [step])[..|steps|] == steps;
  }

  lemma FlagSteps(s: State, step: Step, steps: seq<Step>, i: nat)
    requires Enabled(s, step) && DestroyOk(s.call, steps) && i < |s.handles|
    requires FlagsOk(s.handles[i], steps, i)
    ensures i < |Apply(s, step).handles| && FlagsOk(Apply(s, step).handles[i], steps + [step], i)
  {
    CountsSnoc(steps, step, i);
    if step.Work? {
      WorkFlags(s, step.worker, step.w, i);
    } else if step == SetDone || step == JoinReturns {
      DestroyFlags(s, step, steps, i);
    } else {
      SameFlags(s, step, i);
    }
  }

  lemma WorkFlags(s: State, worker: nat, w: WorkerStep, i: nat)
    requires Enabled(s, Work(worker, w)) && i < |s.handles|
    ensures var h, h' := s.handles[i], Apply(s, Work(worker, w)).handles[i];
            && h'.done == h.done && h'.frees == h.frees
            && (h'.poisoned <==> h.poisoned || (worker == i && w == SetPoison))
  {
  }

  lemma DestroyFlags(s: State, step: Step, steps: seq<Step>, i: nat)
    requires Enabled(s, step) && DestroyOk(s.call, steps) && i < |s.handles|
    requires step == SetDone || step == JoinReturns
    ensures var h, h' := s.handles[i], Apply(s, step).handles[i];
            && (h'.done <==> h.done || IsStop(steps, step, i))
            && h'.frees == h.frees + (if IsFree(steps, step, i) then 1 else 0)
            && h'.poisoned == h.poisoned
  {
  }

  lemma SameFlags(s: State, step: Step, i: nat)
    requires Enabled(s, step) && i < |s.handles| && !step.Work? && step != SetDone && step != JoinReturns
    ensures var h, h' := s.handles[i], Apply(s, step).handles[i];
            h'.done == h.done && h'.frees == h.frees && h'.poisoned == h.poisoned
  {
  }

  lemma NoFlagsYet(s: State, step: Step, steps: seq<Step>, i: nat)
    requires Enabled(s, step) && DestroyOk(s.call, steps) && i >= |s.handles|
    requires FlagsOk(NEW_HANDLE, steps, i)
    ensures FlagsOk(NEW_HANDLE, steps + [step], i)
  {
    CountsSnoc(steps, step, i);
  }

  /** Over any run, a worker is told to stop exactly by the destroy of its own handle, the handle is
      poisoned exactly by its own worker, and freed exactly by its own destroy. */
  lemma {:induction false} FlagsFromSteps(states: seq<State>, steps: seq<Step>, n: nat, i: nat)
    requires IsRun(states, steps) && n < |states|
    ensures DestroyOk(states[n].call, steps[..n])
    ensures FlagsOk(if i < |states[n].handles| then states[n].handles[i] else NEW_HANDLE, steps[..n], i)
  {
    if n > 0 {
      var s, step, before := states[n - 1], steps[n - 1], steps[..n - 1];
      FlagsFromSteps(states, steps, n - 1, i);
      assert Enabled(s, step) && states[n] == Apply(s, step);
      assert steps[..n] == before + [step];
      DestroySteps(s, step, before);
      if i < |s.handles| {
        FlagSteps(s, step, before, i);
      } else {
        NoFlagsYet(s, step, before, i);
        if i < |states[n].handles| { NewHandle(s, step, i); }
      }
    }
  }
}
