/** The embedded form (`ffi.rs`): the process-wide handle, its worker thread and poison flag,
    and the C calls on it.

    The C calls come one after another, as their contract says; the worker runs beside them.
    Both are cut into the steps that the other side can see. The contract on handles (one that
    `antenna_create` returned and `antenna_destroy` has not been given, or null) is part of
    when a call may start. */
module FfiLifecycle {
  import opened Options
  import opened Text
  import opened LineBatch
  import TurtleText

  /** The worker's place in its loop: at the test of `done`, inside a tick, or after a panic
      on its way to poisoning the handle. */
  datatype Worker = AtTop | InTick | Panicked | ErrorPushed | Exited

  /** A handle with its two rings as queues, and what has gone through them: the lines that
      entered IN and those the worker received, every send on OUT, and the documents drained. */
  datatype Handle = Handle(
    inQueue: seq<string>, entered: seq<string>, received: seq<string>,
    outQueue: seq<string>, attempts: seq<Attempt>, drained: seq<string>,
    done: bool, poisoned: bool, worker: Worker, panicMessage: string, frees: nat)

  const NEW_HANDLE := Handle([], [], [], [], [], [], false, false, AtTop, "", 0)

  datatype WorkerStep =
    | TestDone
    | Receive
    | Emit(doc: string, ok: bool)
    | TickEnds
    | TickPanics(message: string)
    | PushError(ok: bool)
    | SetPoison

  const ERROR_TYPE := "http://resonator.network/v2/antenna#Error"
  const MESSAGE_PROPERTY: string := "<" + "http://resonator.network/v2/antenna#message" + ">"

  /** The error document for a panic in a tick: a typed node with the panic's message. */
  function ErrorDoc(message: string): string {
    "[]" + " a " + ("<" + ERROR_TYPE + ">") + (" ; " + TurtleText.Field(MESSAGE_PROPERTY, message) + " .")
  }

  function SendOut(h: Handle, doc: string, ok: bool): Handle {
    h.(attempts := h.attempts + [Attempt(doc, ok)],
       outQueue := if ok then h.outQueue + [doc] else h.outQueue)
  }

  predicate WorkerCan(h: Handle, w: WorkerStep) {
    match w
    case TestDone => h.worker == AtTop
    case Receive => h.worker == InTick && h.inQueue != []
    case Emit(_, _) => h.worker == InTick
    case TickEnds => h.worker == InTick
    case TickPanics(_) => h.worker == InTick
    case PushError(_) => h.worker == Panicked
    case SetPoison => h.worker == ErrorPushed
  }

  function WorkerDoes(h: Handle, w: WorkerStep): Handle
    requires WorkerCan(h, w)
  {
    match w
    case TestDone => h.(worker := if h.done then Exited else InTick)
    case Receive => h.(inQueue := h.inQueue[1..], received := h.received + [h.inQueue[0]])
    case Emit(doc, ok) => SendOut(h, doc, ok)
    case TickEnds => h.(worker := AtTop)
    case TickPanics(message) => h.(worker := Panicked, panicMessage := message)
    case PushError(ok) => SendOut(h, ErrorDoc(h.panicMessage), ok).(worker := ErrorPushed)
    case SetPoison => h.(poisoned := true, worker := Exited)
  }

  function Enter(h: Handle, line: string): Handle {
    h.(inQueue := h.inQueue + [line], entered := h.entered + [line])
  }

  function Take(h: Handle): Handle
    requires h.outQueue != []
  {
    h.(outQueue := h.outQueue[1..], drained := h.drained + [h.outQueue[0]])
  }

  // ----- the calls -----

  datatype Argument = NullBytes | BadUtf8 | Str(text: string)

  datatype Call =
    | Idle
    | Creating(h: nat)
    | Sending(h: nat, payload: seq<string>, sent: nat)
    | Draining(h: nat, count: nat)
    | Destroying(h: nat)
    | Joining(h: nat)

  /** What a finished call returned. A send that got as far as pushing also records its payload
      and how many lines of it went in. */
  datatype Returned =
    | Created(handle: Option<nat>)
    | Refused(rc: int)
    | Sent(h: nat, payload: seq<string>, sent: nat, rc: int)
    | Drained(h: nat, count: nat)
    | Destroyed(h: nat)

  /** `live` is the process-wide slot; `given` are the handles the caller may still use. */
  datatype State = State(live: Option<nat>, handles: seq<Handle>, call: Call, given: set<nat>,
                         log: seq<Returned>)

  const MAX_COUNT: nat := 0x7FFF_FFFF

  datatype Step =
    | CreateCall(opens: bool)
    | CreatePublish
    | SendCall(to: Option<nat>, argument: Argument)
    | SendLine(ok: bool)
    | SendDone
    | DrainCall(from: Option<nat>, hasCallback: bool)
    | DrainNext
    | DestroyCall(what: Option<nat>)
    | SetDone
    | JoinReturns
    | Work(worker: nat, w: WorkerStep)

  predicate Usable(s: State, h: Option<nat>) {
    h.Some? ==> h.value in s.given && h.value < |s.handles|
  }

  predicate CallOk(s: State) {
    s.call.Idle? || s.call.h < |s.handles|
  }

  predicate Enabled(s: State, step: Step) {
    match step
    case CreateCall(_) => s.call == Idle
    case CreatePublish => s.call.Creating?
    case SendCall(h, _) => s.call == Idle && Usable(s, h)
    case SendLine(_) => CallOk(s) && s.call.Sending? && s.call.sent < |s.call.payload|
    case SendDone => s.call.Sending? && s.call.sent == |s.call.payload|
    case DrainCall(h, _) => s.call == Idle && Usable(s, h)
    case DrainNext => CallOk(s) && s.call.Draining?
    case DestroyCall(h) => s.call == Idle && Usable(s, h)
    case SetDone => CallOk(s) && s.call.Destroying?
    case JoinReturns => CallOk(s) && s.call.Joining? && s.handles[s.call.h].worker == Exited
    case Work(h, w) => h < |s.handles| && WorkerCan(s.handles[h], w)
  }

  function Return(s: State, r: Returned): State {
    s.(call := Idle, log := s.log + [r])
  }

  function With(s: State, i: nat, h: Handle): State
    requires i < |s.handles|
  {
    s.(handles := s.handles[i := h])
  }

  function Apply(s: State, step: Step): State
    requires Enabled(s, step)
  {
    match step
    case CreateCall(opens) => BeginCreate(s, opens)
    case CreatePublish =>
      Return(s, Created(Some(s.call.h))).(live := Some(s.call.h), given := s.given + {s.call.h})
    case SendCall(h, argument) => BeginSend(s, h, argument)
    case SendLine(ok) =>
      var c := s.call;
      if ok then With(s, c.h, Enter(s.handles[c.h], c.payload[c.sent])).(call := c.(sent := c.sent + 1))
      else Return(s, Sent(c.h, c.payload, c.sent, -3))
    case SendDone => Return(s, Sent(s.call.h, s.call.payload, s.call.sent, 0))
    case DrainCall(h, hasCallback) =>
      if h == None then Return(s, Refused(-1))
      else if !hasCallback then Return(s, Refused(0))
      else s.(call := Draining(h.value, 0))
    case DrainNext =>
      var c := s.call;
      if s.handles[c.h].outQueue == [] then Return(s, Drained(c.h, c.count))
      else
        With(s, c.h, Take(s.handles[c.h])).(
          call := c.(count := if c.count < MAX_COUNT then c.count + 1 else c.count))
    case DestroyCall(h) =>
      if h == None then s
      else s.(live := if s.live == h then None else s.live, given := s.given - {h.value},
              call := Destroying(h.value))
    case SetDone =>
      With(s, s.call.h, s.handles[s.call.h].(done := true)).(call := Joining(s.call.h))
    case JoinReturns =>
      var h := s.handles[s.call.h];
      Return(With(s, s.call.h, h.(frees := h.frees + 1)), Destroyed(s.call.h))
    case Work(h, w) => With(s, h, WorkerDoes(s.handles[h], w))
  }

  /** A live handle is handed out again; otherwise a new one is opened, if that succeeds, with
      its worker running before the slot is set. */
  function BeginCreate(s: State, opens: bool): State {
    if s.live.Some? then Return(s, Created(s.live)).(given := s.given + {s.live.value})
    else if !opens then Return(s, Created(None))
    else s.(handles := s.handles + [NEW_HANDLE], call := Creating(|s.handles|))
  }

  function BeginSend(s: State, h: Option<nat>, argument: Argument): State
    requires Usable(s, h)
  {
    if h == None || argument == NullBytes then Return(s, Refused(-1))
    else if s.handles[h.value].poisoned then Return(s, Refused(-4))
    else if argument == BadUtf8 then Return(s, Refused(-2))
    else s.(call := Sending(h.value, Payload(Lines(argument.text)), 0))
  }

  // ----- what each handle keeps -----

  ghost predicate HandleOk(h: Handle) {
    && h.received + h.inQueue == h.entered
    && h.drained + h.outQueue == Accepted(h.attempts)
    && (h.poisoned ==> h.worker == Exited)
    && (h.poisoned || h.worker == ErrorPushed ==>
          h.attempts != [] && h.attempts[|h.attempts| - 1].line == ErrorDoc(h.panicMessage))
    && (h.worker == Exited ==> h.done || h.poisoned)
    && (h.frees > 0 ==> h.worker == Exited && h.done)
    && h.frees <= 1
  }

  /** What time does to a handle: histories grow, flags stay up, and from the poison on, the
      worker is gone and OUT takes nothing more. */
  ghost predicate Later(h: Handle, h': Handle) {
    && h.entered <= h'.entered && h.received <= h'.received
    && h.attempts <= h'.attempts && h.drained <= h'.drained
    && h.frees <= h'.frees
    && (h.done ==> h'.done)
    && (h.worker == Exited ==>
          && h'.worker == Exited && h'.attempts == h.attempts && h'.received == h.received
          && h'.poisoned == h.poisoned && h'.panicMessage == h.panicMessage)
  }

  lemma SendOutOk(h: Handle, doc: string, ok: bool)
    requires h.drained + h.outQueue == Accepted(h.attempts)
    ensures var h' := SendOut(h, doc, ok); h'.drained + h'.outQueue == Accepted(h'.attempts)
    ensures h.attempts <= SendOut(h, doc, ok).attempts
  {
    var h' := SendOut(h, doc, ok);
    assert h'.attempts[..|h.attempts|] == h.attempts;
    assert Accepted(h'.attempts) == Accepted(h.attempts) + if ok then [doc] else [];
  }

  lemma ReceiveKeeps(h: Handle)
    requires HandleOk(h) && WorkerCan(h, Receive)
    ensures HandleOk(WorkerDoes(h, Receive)) && Later(h, WorkerDoes(h, Receive))
  {
    assert h.inQueue == [h.inQueue[0]] + h.inQueue[1..];
  }

  lemma EmitKeeps(h: Handle, doc: string, ok: bool)
    requires HandleOk(h) && WorkerCan(h, Emit(doc, ok))
    ensures HandleOk(WorkerDoes(h, Emit(doc, ok))) && Later(h, WorkerDoes(h, Emit(doc, ok)))
  {
    SendOutOk(h, doc, ok);
  }

  lemma PushErrorKeeps(h: Handle, ok: bool)
    requires HandleOk(h) && WorkerCan(h, PushError(ok))
    ensures HandleOk(WorkerDoes(h, PushError(ok))) && Later(h, WorkerDoes(h, PushError(ok)))
  {
    SendOutOk(h, ErrorDoc(h.panicMessage), ok);
  }

  /** The steps that touch no queue. */
  lemma MoveKeeps(h: Handle, w: WorkerStep)
    requires HandleOk(h) && WorkerCan(h, w) && !w.Receive? && !w.Emit? && !w.PushError?
    ensures HandleOk(WorkerDoes(h, w)) && Later(h, WorkerDoes(h, w))
  {
  }

  lemma WorkerKeeps(h: Handle, w: WorkerStep)
    requires HandleOk(h) && WorkerCan(h, w)
    ensures HandleOk(WorkerDoes(h, w)) && Later(h, WorkerDoes(h, w))
  {
    match w
    case Receive => ReceiveKeeps(h);
    case Emit(doc, ok) => EmitKeeps(h, doc, ok);
    case PushError(ok) => PushErrorKeeps(h, ok);
    case _ => MoveKeeps(h, w);
  }

  lemma EnterKeeps(h: Handle, line: string)
    requires HandleOk(h)
    ensures HandleOk(Enter(h, line)) && Later(h, Enter(h, line))
  {
  }

  lemma TakeKeeps(h: Handle)
    requires HandleOk(h) && h.outQueue != []
    ensures HandleOk(Take(h)) && Later(h, Take(h))
  {
    assert h.outQueue == [h.outQueue[0]] + h.outQueue[1..];
  }

  lemma LaterTransitive(a: Handle, b: Handle, c: Handle)
    requires Later(a, b) && Later(b, c)
    ensures Later(a, c)
  {
  }

  // ----- what the process keeps -----

  predicate InUse(s: State, i: nat)
    requires i < |s.handles|
  {
    s.handles[i].frees == 0
  }

  /** The slot, the call in progress and the caller's handles agree on which handle is alive. */
  ghost predicate RegistryOk(s: State) {
    && CallOk(s)
    && s.given == (if s.live.Some? then {s.live.value} else {})
    && (s.live.Some? ==> s.live.value < |s.handles| && InUse(s, s.live.value))
    && (s.call.Sending? || s.call.Draining? ==> s.live == Some(s.call.h))
    && (s.call.Creating? || s.call.Destroying? || s.call.Joining? ==>
          s.live == None && InUse(s, s.call.h))
    && (s.call.Joining? ==> s.handles[s.call.h].done)
    && (forall i: nat | i < |s.handles| && InUse(s, i) ::
          s.live == Some(i) || (s.live == None && !s.call.Idle? && s.call.h == i))
  }

  ghost predicate HandlesOk(s: State) {
    forall i | 0 <= i < |s.handles| :: HandleOk(s.handles[i])
  }

  /** The lines that finished sends put on a handle's IN ring. */
  function EnteredBy(log: seq<Returned>, h: nat): seq<string> {
    if log == [] then []
    else
      var last := log[|log| - 1];
      EnteredBy(log[..|log| - 1], h)
      + if last.Sent? && last.h == h && last.sent <= |last.payload| then last.payload[..last.sent] else []
  }

  function InProgress(c: Call, h: nat): seq<string> {
    if c.Sending? && c.h == h && c.sent <= |c.payload| then c.payload[..c.sent] else []
  }

  /** Every line on an IN ring was put there by a send: a finished one, or the current one. */
  ghost predicate EnteredOk(s: State) {
    && (s.call.Sending? ==> s.call.sent <= |s.call.payload|)
    && forall i: nat | i < |s.handles| ::
         s.handles[i].entered == EnteredBy(s.log, i) + InProgress(s.call, i)
  }

  /** A send reports 0 exactly when all of its lines went in, and -3 otherwise. */
  predicate ReportOk(r: Returned) {
    r.Sent? ==> if r.rc == 0 then r.sent == |r.payload| else r.rc == -3 && r.sent < |r.payload|
  }

  ghost predicate LogOk(s: State) {
    forall k | 0 <= k < |s.log| ::
      ReportOk(s.log[k]) && (s.log[k].Sent? ==> s.log[k].h < |s.handles|)
  }

  ghost predicate Inv(s: State) {
    RegistryOk(s) && HandlesOk(s) && EnteredOk(s) && LogOk(s)
  }

  lemma {:induction false} EnteredByNew(log: seq<Returned>, h: nat)
    requires forall k | 0 <= k < |log| && log[k].Sent? :: log[k].h < h
    ensures EnteredBy(log, h) == []
  {
    if log != [] { EnteredByNew(log[..|log| - 1], h); }
  }

  lemma EnteredBySnoc(log: seq<Returned>, r: Returned, h: nat)
    ensures EnteredBy(log + [r], h) ==
            EnteredBy(log, h) + if r.Sent? && r.h == h && r.sent <= |r.payload| then r.payload[..r.sent] else []
  {
    assert (log + [r])[..|log|] == log;
  }

  /** The step a caller's or the worker's step makes on one handle. */
  ghost predicate Advances(s: State, s': State) {
    && |s.handles| <= |s'.handles|
    && s.log <= s'.log
    && forall i: nat | i < |s.handles| :: Later(s.handles[i], s'.handles[i])
  }

  lemma WithKeeps(s: State, i: nat, h: Handle)
    requires i < |s.handles| && HandlesOk(s) && HandleOk(h) && Later(s.handles[i], h)
    ensures HandlesOk(With(s, i, h)) && Advances(s, With(s, i, h))
  {
  }

  lemma WorkHandles(s: State, i: nat, w: WorkerStep)
    requires HandlesOk(s) && Enabled(s, Work(i, w))
    ensures HandlesOk(Apply(s, Work(i, w))) && Advances(s, Apply(s, Work(i, w)))
  {
    WorkerKeeps(s.handles[i], w);
    WithKeeps(s, i, WorkerDoes(s.handles[i], w));
  }

  lemma RingHandles(s: State, step: Step)
    requires HandlesOk(s) && Enabled(s, step) && (step.SendLine? || step.DrainNext?)
    ensures HandlesOk(Apply(s, step)) && Advances(s, Apply(s, step))
  {
    var c := s.call;
    var h := s.handles[c.h];
    if step.SendLine? && step.ok {
      EnterKeeps(h, c.payload[c.sent]);
      WithKeeps(s, c.h, Enter(h, c.payload[c.sent]));
    } else if step.DrainNext? && h.outQueue != [] {
      TakeKeeps(h);
      WithKeeps(s, c.h, Take(h));
    }
  }

  lemma DoneHandles(s: State)
    requires HandlesOk(s) && Enabled(s, SetDone)
    ensures HandlesOk(Apply(s, SetDone)) && Advances(s, Apply(s, SetDone))
  {
    WithKeeps(s, s.call.h, s.handles[s.call.h].(done := true));
  }

  lemma FreeHandles(s: State)
    requires HandlesOk(s) && Enabled(s, JoinReturns) && RegistryOk(s)
    ensures HandlesOk(Apply(s, JoinReturns)) && Advances(s, Apply(s, JoinReturns))
  {
    var h := s.handles[s.call.h];
    WithKeeps(s, s.call.h, h.(frees := h.frees + 1));
  }

  lemma SameHandles(s: State, s': State)
    requires HandlesOk(s) && s.log <= s'.log
    requires s'.handles == s.handles || s'.handles == s.handles + [NEW_HANDLE]
    ensures HandlesOk(s') && Advances(s, s')
  {
    assert HandleOk(NEW_HANDLE);
  }

  lemma CallHandles(s: State, step: Step)
    requires HandlesOk(s) && Enabled(s, step)
    requires !step.Work? && !step.SendLine? && !step.DrainNext? && !step.SetDone? && !step.JoinReturns?
    ensures HandlesOk(Apply(s, step)) && Advances(s, Apply(s, step))
  {
    SameHandles(s, Apply(s, step));
  }

  lemma HandlesStep(s: State, step: Step)
    requires Inv(s) && Enabled(s, step)
    ensures HandlesOk(Apply(s, step)) && Advances(s, Apply(s, step))
  {
    match step
    case Work(i, w) => WorkHandles(s, i, w);
    case SendLine(_) => RingHandles(s, step);
    case DrainNext => RingHandles(s, step);
    case SetDone => DoneHandles(s);
    case JoinReturns => FreeHandles(s);
    case _ => CallHandles(s, step);
  }

  /** The registry does not look inside a handle that is neither freed nor told to stop. */
  lemma SameRegistry(s: State, i: nat, h: Handle)
    requires RegistryOk(s) && i < |s.handles|
    requires h.frees == s.handles[i].frees && (s.handles[i].done ==> h.done)
    ensures RegistryOk(With(s, i, h))
  {
    var s' := With(s, i, h);
    forall k: nat | k < |s'.handles| && InUse(s', k)
      ensures s'.live == Some(k) || (s'.live == None && !s'.call.Idle? && s'.call.h == k)
    {
      assert InUse(s, k);
    }
  }

  lemma WorkRegistry(s: State, i: nat, w: WorkerStep)
    requires RegistryOk(s) && Enabled(s, Work(i, w))
    ensures RegistryOk(Apply(s, Work(i, w)))
  {
    SameRegistry(s, i, WorkerDoes(s.handles[i], w));
  }

  lemma OpenRegistry(s: State, step: Step)
    requires RegistryOk(s) && Enabled(s, step)
    requires step.CreateCall? || step.CreatePublish?
    ensures RegistryOk(Apply(s, step))
  {
  }

  lemma DestroyRegistry(s: State, step: Step)
    requires RegistryOk(s) && Enabled(s, step)
    requires step.DestroyCall? || step.SetDone? || step.JoinReturns?
    ensures RegistryOk(Apply(s, step))
  {
  }

  lemma UseRegistry(s: State, step: Step)
    requires RegistryOk(s) && Enabled(s, step)
    requires step.SendCall? || step.SendLine? || step.SendDone? || step.DrainCall? || step.DrainNext?
    ensures RegistryOk(Apply(s, step))
  {
  }

  lemma RegistryStep(s: State, step: Step)
    requires Inv(s) && Enabled(s, step)
    ensures RegistryOk(Apply(s, step))
  {
    match step
    case Work(i, w) => WorkRegistry(s, i, w);
    case CreateCall(_) => OpenRegistry(s, step);
    case CreatePublish => OpenRegistry(s, step);
    case DestroyCall(_) => DestroyRegistry(s, step);
    case SetDone => DestroyRegistry(s, step);
    case JoinReturns => DestroyRegistry(s, step);
    case _ => UseRegistry(s, step);
  }

  lemma StartEnters(s: State, h: nat, payload: seq<string>)
    requires EnteredOk(s) && s.call == Idle
    ensures EnteredOk(s.(call := Sending(h, payload, 0)))
  {
    assert payload[..0] == [];
  }

  lemma RefusalEnters(s: State, rc: int)
    requires EnteredOk(s) && s.call == Idle
    ensures EnteredOk(Return(s, Refused(rc)))
  {
    forall i: nat | i < |s.handles| {
      EnteredBySnoc(s.log, Refused(rc), i);
    }
  }

  lemma SendCallEnters(s: State, h: Option<nat>, argument: Argument)
    requires EnteredOk(s) && s.call == Idle && Usable(s, h)
    ensures EnteredOk(BeginSend(s, h, argument))
  {
    RefusalEnters(s, -1);
    RefusalEnters(s, -2);
    RefusalEnters(s, -4);
    if h.Some? && argument.Str? {
      StartEnters(s, h.value, Payload(Lines(argument.text)));
    }
  }

  lemma SendOneEnters(s: State)
    requires EnteredOk(s) && Enabled(s, SendLine(true))
    ensures EnteredOk(Apply(s, SendLine(true)))
  {
    var c := s.call;
    assert c.payload[..c.sent + 1] == c.payload[..c.sent] + [c.payload[c.sent]];
  }

  lemma SendReturnEnters(s: State, rc: int)
    requires EnteredOk(s) && s.call.Sending?
    ensures EnteredOk(Return(s, Sent(s.call.h, s.call.payload, s.call.sent, rc)))
  {
    forall i: nat | i < |s.handles| {
      EnteredBySnoc(s.log, Sent(s.call.h, s.call.payload, s.call.sent, rc), i);
    }
  }

  ghost predicate QuietLog(log: seq<Returned>, log': seq<Returned>) {
    log' == log || (log' != [] && log'[..|log'| - 1] == log && !log'[|log'| - 1].Sent?)
  }

  lemma QuietLogEnters(log: seq<Returned>, log': seq<Returned>, h: nat)
    requires QuietLog(log, log')
    ensures EnteredBy(log', h) == EnteredBy(log, h)
  {
  }

  /** A step that is no part of a send: it may return from another call and open a handle. */
  ghost predicate Quiet(s: State, s': State) {
    && QuietLog(s.log, s'.log)
    && (s'.call == s.call || (!s.call.Sending? && !s'.call.Sending?))
    && |s.handles| <= |s'.handles|
    && (forall i | 0 <= i < |s.handles| :: s'.handles[i].entered == s.handles[i].entered)
    && (forall i | |s.handles| <= i < |s'.handles| :: s'.handles[i].entered == [])
  }

  lemma QuietKeeps(s: State, s': State)
    requires EnteredOk(s) && LogOk(s) && CallOk(s) && Quiet(s, s')
    ensures EnteredOk(s')
  {
    forall i: nat | i < |s'.handles|
      ensures s'.handles[i].entered == EnteredBy(s'.log, i) + InProgress(s'.call, i)
    {
      QuietLogEnters(s.log, s'.log, i);
      if i >= |s.handles| { NewHandleEnters(s, i); }
    }
  }

  lemma NewHandleEnters(s: State, i: nat)
    requires LogOk(s) && CallOk(s) && i >= |s.handles|
    ensures EnteredBy(s.log, i) == [] && InProgress(s.call, i) == []
  {
    EnteredByNew(s.log, i);
  }

  lemma QuietSteps(s: State, step: Step)
    requires Enabled(s, step) && CallOk(s)
    requires !step.SendCall? && !step.SendLine? && !step.SendDone?
    ensures Quiet(s, Apply(s, step))
  {
    match step
    case Work(i, w) => QuietWith(s, i, WorkerDoes(s.handles[i], w));
    case DrainNext => QuietOnHandle(s, step);
    case SetDone => QuietOnHandle(s, step);
    case JoinReturns => QuietOnHandle(s, step);
    case _ => QuietOffHandles(s, step);
  }

  lemma QuietWith(s: State, i: nat, h: Handle)
    requires i < |s.handles| && h.entered == s.handles[i].entered
    ensures Quiet(s, With(s, i, h))
  {
  }

  lemma QuietOnHandle(s: State, step: Step)
    requires Enabled(s, step) && (step.DrainNext? || step.SetDone? || step.JoinReturns?)
    ensures Quiet(s, Apply(s, step))
  {
    var s' := Apply(s, step);
    assert s'.log != s.log ==> s'.log[..|s'.log| - 1] == s.log;
  }

  lemma QuietOffHandles(s: State, step: Step)
    requires Enabled(s, step)
    requires step.CreateCall? || step.CreatePublish? || step.DrainCall? || step.DestroyCall?
    ensures Quiet(s, Apply(s, step))
  {
    var s' := Apply(s, step);
    assert s'.log != s.log ==> s'.log[..|s'.log| - 1] == s.log;
  }

  lemma EnteredStep(s: State, step: Step)
    requires EnteredOk(s) && LogOk(s) && CallOk(s) && Enabled(s, step)
    ensures EnteredOk(Apply(s, step))
  {
    match step
    case SendCall(h, argument) => SendCallEnters(s, h, argument);
    case SendLine(ok) => if ok { SendOneEnters(s); } else { SendReturnEnters(s, -3); }
    case SendDone => SendReturnEnters(s, 0);
    case _ =>
      QuietSteps(s, step);
      QuietKeeps(s, Apply(s, step));
  }

  lemma LogStep(s: State, step: Step)
    requires LogOk(s) && EnteredOk(s) && CallOk(s) && Enabled(s, step)
    ensures LogOk(Apply(s, step))
  {
  }

  lemma StepKeeps(s: State, step: Step)
    requires Inv(s) && Enabled(s, step)
    ensures Inv(Apply(s, step)) && Advances(s, Apply(s, step))
  {
    HandlesStep(s, step);
    RegistryStep(s, step);
    EnteredStep(s, step);
    LogStep(s, step);
  }

  // ----- whole runs -----

  predicate Init(s: State) {
    s == State(None, [], Idle, {}, [])
  }

  ghost predicate IsRun(states: seq<State>, steps: seq<Step>) {
    && |states| == |steps| + 1
    && Init(states[0])
    && forall i | 0 <= i < |steps| ::
         Enabled(states[i], steps[i]) && states[i + 1] == Apply(states[i], steps[i])
  }

  lemma {:induction false} RunInv(states: seq<State>, steps: seq<Step>, i: nat)
    requires IsRun(states, steps) && i < |states|
    ensures Inv(states[i])
  {
    if i > 0 {
      RunInv(states, steps, i - 1);
      assert Enabled(states[i - 1], steps[i - 1]);
      StepKeeps(states[i - 1], steps[i - 1]);
    }
  }

  lemma AdvancesTransitive(a: State, b: State, c: State)
    requires Advances(a, b) && Advances(b, c)
    ensures Advances(a, c)
  {
    forall i: nat | i < |a.handles| ensures Later(a.handles[i], c.handles[i]) {
      LaterTransitive(a.handles[i], b.handles[i], c.handles[i]);
    }
  }

  lemma OneStepAdvances(states: seq<State>, steps: seq<Step>, n: nat)
    requires IsRun(states, steps) && n < |steps|
    ensures Advances(states[n], states[n + 1])
  {
    RunInv(states, steps, n);
    assert Enabled(states[n], steps[n]);
    StepKeeps(states[n], steps[n]);
  }

  /** A sequence in which every state advances to the next. */
  ghost predicate AllAdvance(states: seq<State>) {
    forall k: nat | k + 1 < |states| :: AdvancesAt(states, k)
  }

  ghost predicate AdvancesAt(states: seq<State>, k: nat)
    requires k + 1 < |states|
  {
    Advances(states[k], states[k + 1])
  }

  lemma RunAllAdvance(states: seq<State>, steps: seq<Step>)
    requires IsRun(states, steps)
    ensures AllAdvance(states)
  {
    forall k: nat | k + 1 < |states| ensures AdvancesAt(states, k) {
      OneStepAdvances(states, steps, k);
    }
  }

  lemma SelfAdvances(s: State)
    ensures Advances(s, s)
  {
  }

  lemma {:induction false} ChainAdvances(states: seq<State>, i: nat, j: nat)
    requires AllAdvance(states) && i <= j < |states|
    ensures Advances(states[i], states[j])
    decreases j
  {
    if i < j {
      ChainAdvances(states, i, j - 1);
      assert AdvancesAt(states, j - 1);
      AdvancesTransitive(states[i], states[j - 1], states[j]);
    } else {
      SelfAdvances(states[i]);
    }
  }

  lemma RunAdvances(states: seq<State>, steps: seq<Step>, i: nat, j: nat)
    requires IsRun(states, steps) && i <= j < |states|
    ensures Advances(states[i], states[j])
  {
    RunAllAdvance(states, steps);
    ChainAdvances(states, i, j);
  }

  /** At most one handle is alive, and while one is in the caller's hands it is the one in the
      slot. */
  lemma AtMostOneAlive(states: seq<State>, steps: seq<Step>, n: nat, i: nat, j: nat)
    requires IsRun(states, steps) && n < |states|
    requires i < |states[n].handles| && j < |states[n].handles|
    requires InUse(states[n], i) && InUse(states[n], j)
    ensures i == j
    ensures states[n].call == Idle ==> states[n].live == Some(i) && states[n].given == {i}
  {
    RunInv(states, steps, n);
  }

  /** A create either hands out the one handle alive, touching nothing, or opens a new one, or
      fails; the last two only when no handle is alive. */
  lemma CreateRebindsIff(states: seq<State>, steps: seq<Step>, n: nat)
    requires IsRun(states, steps) && n < |steps| && steps[n].CreateCall?
    ensures forall i: nat | i < |states[n].handles| && InUse(states[n], i) ::
              states[n + 1] == Return(states[n], Created(Some(i)))
    ensures (forall i: nat | i < |states[n].handles| :: !InUse(states[n], i)) ==>
              if steps[n].opens then
                states[n + 1].handles == states[n].handles + [NEW_HANDLE]
                && states[n + 1].call == Creating(|states[n].handles|)
              else
                states[n + 1] == Return(states[n], Created(None))
  {
    var s := states[n];
    RunInv(states, steps, n);
    assert Enabled(s, steps[n]) && states[n + 1] == Apply(s, steps[n]);
    if s.live.Some? {
      assert InUse(s, s.live.value);
      assert s.given + {s.live.value} == s.given;
    }
  }

  /** A handle is freed at most once, only after its worker has gone, and no step of a call
      ever touches a freed handle. */
  lemma FreedOnceAndNeverUsed(states: seq<State>, steps: seq<Step>, n: nat, i: nat)
    requires IsRun(states, steps) && n < |steps| && i < |states[n].handles|
    requires !InUse(states[n], i)
    ensures states[n].handles[i].frees == 1 && states[n].handles[i].worker == Exited
    ensures states[n + 1].handles[i] == states[n].handles[i]
    ensures !states[n].call.Idle? ==> states[n].call.h != i
    ensures i !in states[n].given
  {
    RunInv(states, steps, n);
    assert HandleOk(states[n].handles[i]);
    assert Enabled(states[n], steps[n]);
  }

  /** The poison comes after the error document was offered to OUT; from then on the worker is
      gone, OUT takes nothing more and IN is read no more. */
  lemma PoisonIsFinal(states: seq<State>, steps: seq<Step>, n: nat, m: nat, i: nat)
    requires IsRun(states, steps) && n <= m < |states| && i < |states[n].handles|
    requires states[n].handles[i].poisoned
    ensures |states[m].handles| >= |states[n].handles|
    ensures var h, h' := states[n].handles[i], states[m].handles[i];
            && h.attempts != []
            && h.attempts[|h.attempts| - 1].line == ErrorDoc(h.panicMessage)
            && h'.poisoned && h'.worker == Exited
            && h'.attempts == h.attempts && h'.received == h.received
  {
    RunInv(states, steps, n);
    RunAdvances(states, steps, n, m);
    assert HandleOk(states[n].handles[i]) && Later(states[n].handles[i], states[m].handles[i]);
  }

  /** A send that starts after the poison is refused with -4, whatever its bytes, and changes no
      handle. */
  lemma SendAfterPoison(states: seq<State>, steps: seq<Step>, n: nat, m: nat, i: nat, argument: Argument)
    requires IsRun(states, steps) && n <= m < |steps| && i < |states[n].handles|
    requires states[n].handles[i].poisoned
    requires steps[m] == SendCall(Some(i), argument) && argument != NullBytes
    ensures states[m + 1] == Return(states[m], Refused(-4))
  {
    PoisonIsFinal(states, steps, n, m, i);
    assert Enabled(states[m], steps[m]);
  }

  /** What has been drained is a prefix, in order, of the documents OUT accepted. */
  lemma DrainsInOrder(states: seq<State>, steps: seq<Step>, n: nat, i: nat)
    requires IsRun(states, steps) && n < |states| && i < |states[n].handles|
    ensures states[n].handles[i].drained <= Accepted(states[n].handles[i].attempts)
  {
    RunInv(states, steps, n);
    var h := states[n].handles[i];
    assert HandleOk(h);
    assert h.drained <= h.drained + h.outQueue;
  }

  /** A drain that returns after the poison has delivered all there will ever be, the error
      document last if OUT took it. */
  lemma DrainAfterPoison(states: seq<State>, steps: seq<Step>, n: nat, m: nat)
    requires IsRun(states, steps) && n < |steps| && n < m < |states|
    requires CallOk(states[n]) && states[n].call.Draining? && steps[n] == DrainNext
    requires states[n + 1].call == Idle && states[n].handles[states[n].call.h].poisoned
    ensures var i := states[n].call.h;
            && i < |states[m].handles|
            && states[m].handles[i].drained == Accepted(states[m].handles[i].attempts)
            && states[m].handles[i].drained == states[n].handles[i].drained
            && states[m].handles[i].attempts != []
            && (states[m].handles[i].attempts[|states[m].handles[i].attempts| - 1].ok ==>
                  states[m].handles[i].drained != []
                  && states[m].handles[i].drained[|states[m].handles[i].drained| - 1]
                     == ErrorDoc(states[n].handles[i].panicMessage))
  {
    var i := states[n].call.h;
    assert Enabled(states[n], steps[n]);
    assert states[n].handles[i].outQueue == [];
    PoisonIsFinal(states, steps, n, m, i);
    RunInv(states, steps, n);
    RunAdvances(states, steps, n, m);
    DrainsInOrder(states, steps, m, i);
    assert HandleOk(states[n].handles[i]) && Later(states[n].handles[i], states[m].handles[i]);
  }

  /** The lines on a handle's IN ring are, over any run, the lines its sends report as gone in,
      call after call; what the worker received is a prefix of them. */
  lemma SendsConserved(states: seq<State>, steps: seq<Step>, n: nat, i: nat)
    requires IsRun(states, steps) && n < |states| && i < |states[n].handles|
    requires !states[n].call.Sending?
    ensures states[n].handles[i].entered == EnteredBy(states[n].log, i)
    ensures states[n].handles[i].received <= EnteredBy(states[n].log, i)
    ensures forall k | 0 <= k < |states[n].log| :: ReportOk(states[n].log[k])
  {
    RunInv(states, steps, n);
    var h := states[n].handles[i];
    assert HandleOk(h);
    assert h.received <= h.received + h.inQueue;
  }

  // ----- the calls as they run -----

  lemma RunSnoc(states: seq<State>, steps: seq<Step>, step: Step, next: State)
    requires IsRun(states, steps)
    requires Enabled(states[|steps|], step) && next == Apply(states[|steps|], step)
    ensures IsRun(states + [next], steps + [step])
  {
  }

  /** A count saturated at the largest C int. */
  function AtMost(n: int): int {
    if n < MAX_COUNT then n else MAX_COUNT
  }

  /** The first line that the ring refuses, from line `i` on; `n` when it takes all. */
  function FirstRefused(accepts: nat -> bool, i: nat, n: nat): nat
    requires i <= n
    decreases n - i
  {
    if i == n || !accepts(i) then i else FirstRefused(accepts, i + 1, n)
  }

  lemma {:induction false} FirstRefusedIs(accepts: nat -> bool, i: nat, k: nat, n: nat)
    requires i <= k <= n && (forall j | i <= j < k :: accepts(j)) && (k == n || !accepts(k))
    ensures FirstRefused(accepts, i, n) == k
    decreases k - i
  {
    if i < k { FirstRefusedIs(accepts, i + 1, k, n); }
  }

  /** A send returns 0 when the ring takes every line, and -3 when it refuses one. */
  ghost predicate SendReport(payload: seq<string>, accepts: nat -> bool, rc: int) {
    if forall j | 0 <= j < |payload| :: accepts(j) then rc == 0 else rc == -3
  }

  function SendRecord(h: nat, payload: seq<string>, accepts: nat -> bool): Returned {
    var sent := FirstRefused(accepts, 0, |payload|);
    Sent(h, payload, sent, if sent == |payload| then 0 else -3)
  }

  /** The process: the slot, the handles, and what the workers will get to do while calls run,
      with the run of the machine made so far. */
  class Process {
    var live: Option<nat>
    var handles: seq<Handle>
    var script: seq<(nat, WorkerStep)>
    ghost var call: Call
    ghost var given: set<nat>
    ghost var log: seq<Returned>
    ghost var states: seq<State>
    ghost var steps: seq<Step>

    ghost function Value(): State
      reads this
    {
      State(live, handles, call, given, log)
    }

    ghost predicate Valid()
      reads this
    {
      IsRun(states, steps) && states[|steps|] == Value()
    }

    constructor (script: seq<(nat, WorkerStep)>)
      ensures Valid() && call == Idle && live == None && handles == []
    {
      live, handles, call, given, log := None, [], Idle, {}, [];
      this.script := script;
      states, steps := [State(None, [], Idle, {}, [])], [];
    }

    ghost method Record(step: Step)
      requires IsRun(states, steps) && Enabled(states[|steps|], step)
      requires Value() == Apply(states[|steps|], step)
      modifies this`states, this`steps
      ensures Valid()
    {
      RunSnoc(states, steps, step, Value());
      states, steps := states + [Value()], steps + [step];
    }

    /** Let a worker take its next step, if it can be taken now. */
    method Elapse()
      requires Valid()
      modifies this`handles, this`script, this`states, this`steps
      ensures Valid() && |handles| == |old(handles)|
      ensures if old(script) == [] then handles == old(handles) && script == [] else |script| < |old(script)|
      ensures forall i | 0 <= i < |handles| :: handles[i].drained == old(handles)[i].drained
    {
      if script != [] {
        var (h, w) := script[0];
        script := script[1..];
        if h < |handles| && WorkerCan(handles[h], w) {
          handles := handles[h := WorkerDoes(handles[h], w)];
          Record(Work(h, w));
        }
      }
    }

    method Create(opens: bool) returns (h: Option<nat>)
      requires Valid() && call == Idle
      modifies this
      ensures Valid() && call == Idle && live == h
      ensures h == if old(live).Some? then old(live) else if opens then Some(|old(handles)|) else None
    {
      if live.Some? {
        h := live;
        given, log := given + {live.value}, log + [Created(live)];
        Record(CreateCall(opens));
      } else if !opens {
        h := None;
        log := log + [Created(None)];
        Record(CreateCall(opens));
      } else {
        h := Some(|handles|);
        handles, call := handles + [NEW_HANDLE], Creating(|handles|);
        Record(CreateCall(opens));
        Elapse();
        Publish(h.value);
      }
    }

    method Publish(h: nat)
      requires Valid() && call == Creating(h)
      modifies this
      ensures Valid() && call == Idle && live == Some(h)
    {
      live := Some(h);
      given, log, call := given + {h}, log + [Created(Some(h))], Idle;
      Record(CreatePublish);
    }

    method Send(h: Option<nat>, argument: Argument, accepts: nat -> bool) returns (rc: int)
      requires Valid() && call == Idle && Usable(Value(), h)
      modifies this
      ensures Valid() && call == Idle
      ensures rc == -1 <==> h == None || argument == NullBytes
      ensures rc == -4 <==> h.Some? && argument != NullBytes && old(handles)[h.value].poisoned
      ensures rc == -2 <==> h.Some? && argument == BadUtf8 && !old(handles)[h.value].poisoned
      ensures rc == -1 || rc == -2 || rc == -4 ==> handles == old(handles)
      ensures rc == 0 || rc == -3 ==>
                && h.Some? && argument.Str?
                && SendReport(Payload(Lines(argument.text)), accepts, rc)
                && log == old(log) + [SendRecord(h.value, Payload(Lines(argument.text)), accepts)]
    {
      if h == None || argument == NullBytes {
        rc := -1;
      } else if handles[h.value].poisoned {
        rc := -4;
      } else if argument == BadUtf8 {
        rc := -2;
      } else {
        var payload := Payload(Lines(argument.text));
        call := Sending(h.value, payload, 0);
        Record(SendCall(h, argument));
        rc := SendLines(h.value, payload, accepts);
        return;
      }
      log := log + [Refused(rc)];
      Record(SendCall(h, argument));
    }

    method SendLines(h: nat, payload: seq<string>, accepts: nat -> bool) returns (rc: int)
      requires Valid() && call == Sending(h, payload, 0) && h < |handles|
      modifies this
      ensures Valid() && call == Idle && (rc == 0 || rc == -3)
      ensures SendReport(payload, accepts, rc) && log == old(log) + [SendRecord(h, payload, accepts)]
    {
      for i := 0 to |payload|
        invariant Valid() && call == Sending(h, payload, i) && h < |handles|
        invariant log == old(log)
        invariant forall j | 0 <= j < i :: accepts(j)
      {
        Elapse();
        if !accepts(i) {
          FirstRefusedIs(accepts, 0, i, |payload|);
          rc := -3;
          log, call := log + [Sent(h, payload, i, -3)], Idle;
          Record(SendLine(false));
          return;
        }
        SendOne(h, payload, i);
      }
      rc := 0;
      FirstRefusedIs(accepts, 0, |payload|, |payload|);
      log, call := log + [Sent(h, payload, |payload|, 0)], Idle;
      Record(SendDone);
    }

    method SendOne(h: nat, payload: seq<string>, i: nat)
      requires Valid() && call == Sending(h, payload, i) && h < |handles| && i < |payload|
      modifies this`handles, this`call, this`states, this`steps
      ensures Valid() && call == Sending(h, payload, i + 1) && h < |handles|
    {
      handles := handles[h := Enter(handles[h], payload[i])];
      call := Sending(h, payload, i + 1);
      Record(SendLine(true));
    }

    method Drain(h: Option<nat>, hasCallback: bool) returns (count: int)
      requires Valid() && call == Idle && Usable(Value(), h)
      modifies this
      ensures Valid() && call == Idle
      ensures count == -1 <==> h == None
      ensures h.Some? && !hasCallback ==> count == 0 && handles == old(handles)
      ensures h.Some? && hasCallback ==>
                && h.value < |handles| && handles[h.value].outQueue == []
                && count == AtMost(|handles[h.value].drained| - |old(handles)[h.value].drained|)
    {
      if h == None || !hasCallback {
        count := if h == None then -1 else 0;
        log := log + [Refused(count)];
        Record(DrainCall(h, hasCallback));
        return;
      }
      call := Draining(h.value, 0);
      Record(DrainCall(h, hasCallback));
      count := DrainAll(h.value);
    }

    method DrainAll(h: nat) returns (count: nat)
      requires Valid() && call == Draining(h, 0) && h < |handles|
      modifies this
      ensures Valid() && call == Idle && h < |handles| && handles[h].outQueue == []
      ensures count == AtMost(|handles[h].drained| - |old(handles)[h].drained|)
    {
      count := 0;
      Elapse();
      while handles[h].outQueue != []
        invariant Valid() && call == Draining(h, count) && h < |handles|
        invariant count == AtMost(|handles[h].drained| - |old(handles)[h].drained|)
        decreases |script|, |handles[h].outQueue|
      {
        count := TakeOne(h, count);
        Elapse();
      }
      log, call := log + [Drained(h, count)], Idle;
      Record(DrainNext);
    }

    method TakeOne(h: nat, count: nat) returns (next: nat)
      requires Valid() && call == Draining(h, count) && h < |handles| && handles[h].outQueue != []
      modifies this`handles, this`call, this`states, this`steps
      ensures handles == old(handles)[h := Take(old(handles)[h])]
      ensures Valid() && call == Draining(h, next) && next == if count < MAX_COUNT then count + 1 else count
    {
      handles := handles[h := Take(handles[h])];
      next := if count < MAX_COUNT then count + 1 else count;
      call := Draining(h, next);
      Record(DrainNext);
    }

    method Destroy(h: Option<nat>)
      requires Valid() && call == Idle && Usable(Value(), h)
      modifies this
      ensures Valid() && call == Idle
      ensures h == None ==> handles == old(handles) && live == old(live)
      ensures h.Some? ==> live == None && h.value < |handles| && handles[h.value].frees == 1
    {
      if h == None {
        Record(DestroyCall(h));
        return;
      }
      if live == h {
        live := None;
      }
      given, call := given - {h.value}, Destroying(h.value);
      Record(DestroyCall(h));
      Elapse();
      Stop(h.value);
      Join(h.value);
      Free(h.value);
    }

    method Stop(h: nat)
      requires Valid() && call == Destroying(h) && h < |handles|
      modifies this`handles, this`call, this`states, this`steps
      ensures Valid() && call == Joining(h) && h < |handles|
    {
      handles := handles[h := handles[h].(done := true)];
      call := Joining(h);
      Record(SetDone);
    }

    /** Wait for the worker; when nothing else is due, it ends its tick and sees `done`. */
    method Join(h: nat)
      requires Valid() && call == Joining(h) && h < |handles|
      modifies this`handles, this`script, this`states, this`steps
      ensures Valid() && h < |handles| && handles[h].worker == Exited
    {
      while handles[h].worker != Exited
        invariant Valid() && h < |handles|
        decreases |script|, Distance(handles[h].worker)
      {
        if script != [] {
          Elapse();
        } else {
          WindDown(h);
        }
      }
    }

    method WindDown(h: nat)
      requires Valid() && call == Joining(h) && h < |handles| && handles[h].worker != Exited
      modifies this`handles, this`states, this`steps
      ensures Valid() && |handles| == |old(handles)|
      ensures Distance(handles[h].worker) < Distance(old(handles)[h].worker)
    {
      RunInv(states, steps, |steps|);
      var w := LastSteps(handles[h].worker);
      CloserToExit(handles[h]);
      handles := handles[h := WorkerDoes(handles[h], w)];
      Record(Work(h, w));
    }

    method Free(h: nat)
      requires Valid() && call == Joining(h) && h < |handles| && handles[h].worker == Exited
      modifies this
      ensures Valid() && call == Idle && h < |handles| && handles[h].frees == 1 && live == None
    {
      RunInv(states, steps, |steps|);
      handles := handles[h := handles[h].(frees := handles[h].frees + 1)];
      log, call := log + [Destroyed(h)], Idle;
      Record(JoinReturns);
    }
  }

  /** How a worker gets out, once it is told to. */
  function LastSteps(w: Worker): WorkerStep
    requires w != Exited
  {
    match w
    case AtTop => TestDone
    case InTick => TickEnds
    case Panicked => PushError(true)
    case ErrorPushed => SetPoison
  }

  lemma CloserToExit(h: Handle)
    requires h.worker != Exited && h.done
    ensures WorkerCan(h, LastSteps(h.worker))
    ensures Distance(WorkerDoes(h, LastSteps(h.worker)).worker) < Distance(h.worker)
  {
  }

  function Distance(w: Worker): nat {
    match w
    case InTick => 3
    case AtTop => 2
    case Panicked => 2
    case ErrorPushed => 1
    case Exited => 0
  }
}
