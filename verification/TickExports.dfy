/** The automatic export over whole runs of the tick: which events trigger it, what becomes of a
    requested path, and whose archive is exported. */
module TickExports {
  import opened Options
  import opened Text
  import opened CarrierEvents
  import opened Tick
  import TurtleText

  // ----- which events export -----

  /** Entry `i` takes a path, and the event is no account-ready one; with `known`, an account is
      active by then. */
  predicate Diverts(log: seq<Entry>, i: nat, known: bool)
    requires i < |log|
  {
    Takes(log, i) && log[i].event.class_ != AccountReady && (known ==> log[i].after != "")
  }

  ghost predicate NoneDiverts(log: seq<Entry>, known: bool) {
    forall i: nat | i < |log| :: !Diverts(log, i, known)
  }

  /** Entry `k` is an export, and follows an account-ready event. */
  ghost predicate FollowsReady(log: seq<Entry>, k: nat) {
    ExportedAt(log, k) && k > 0 && log[k - 1].Marked? && log[k - 1].event.class_ == AccountReady
  }

  ghost predicate AllFollowReady(log: seq<Entry>) {
    forall k: nat | ExportedAt(log, k) :: FollowsReady(log, k)
  }

  /** All exports follow account-ready events exactly when no entry diverts a path to an export. */
  lemma FollowIff(log: seq<Entry>)
    requires InOrder(log)
    ensures AllFollowReady(log) <==> NoneDiverts(log, true)
  {
    forall i: nat | i < |log| && Diverts(log, i, true) ensures ExportedAt(log, i + 1) && !FollowsReady(log, i + 1) {
      assert MarkedOk(log, i);
    }
    forall k: nat | ExportedAt(log, k) && !FollowsReady(log, k) ensures k > 0 && Diverts(log, k - 1, true) {
      assert Justified(log, k);
    }
  }

  // ----- the same, seen from the events that come in -----

  /** An event that is no account-ready one takes the pending path: it carries the mark while a
      path is pending; with `known`, an account is active by the time it was looked at. */
  ghost predicate Intrudes(s: State, e: CarrierEvents.Event, known: bool) {
    && s.pendingExport.Some?
    && CarriesMark(e) && e.class_ != AccountReady
    && (known ==> Learned(s.accountId, e) != "")
  }

  /** Of the events that arrive from state `s` on, the last does so, or one before it. */
  ghost predicate SomeIntrudes(s: State, es: seq<CarrierEvents.Event>, known: bool) {
    && es != []
    && var before := es[..|es| - 1];
       SomeIntrudes(s, before, known) || Intrudes(Events(s, before), es[|es| - 1], known)
  }

  /** The state in which a tick meets its events. */
  function BeforeEvents(s: State, f: Found): State {
    Bootstrap(Startup(s, f.resolution))
  }

  ghost predicate TickIntrudes(s: State, f: Found, known: bool) {
    f.carrierOk && SomeIntrudes(BeforeEvents(s, f), f.events, known)
  }

  /** Nowhere in the run: not in the last tick, nor before it. */
  ghost predicate NoneIntrudes(s: State, ticks: seq<Found>, known: bool) {
    ticks != [] ==>
      var before := ticks[..|ticks| - 1];
      NoneIntrudes(s, before, known) && !TickIntrudes(Run(s, before), ticks[|ticks| - 1], known)
  }

  lemma UnmarkedDivertsNone(log: seq<Entry>, e: Entry, known: bool)
    requires !e.Marked?
    ensures NoneDiverts(log + [e], known) <==> NoneDiverts(log, known)
  {
    var log' := log + [e];
    forall i: nat | i < |log| ensures Diverts(log', i, known) <==> Diverts(log, i, known) {
      assert log'[..i] == log[..i];
    }
  }

  lemma MarkedDivertsIff(log: seq<Entry>, m: Entry, known: bool)
    requires m.Marked?
    ensures NoneDiverts(log + [m], known) <==>
            && NoneDiverts(log, known)
            && !(PendingOf(log).Some? && m.event.class_ != AccountReady && (known ==> m.after != ""))
  {
    var log' := log + [m];
    assert log'[..|log|] == log;
    assert Diverts(log', |log|, known) <==>
           PendingOf(log).Some? && m.event.class_ != AccountReady && (known ==> m.after != "");
    forall i: nat | i < |log| ensures Diverts(log', i, known) <==> Diverts(log, i, known) {
      assert log'[..i] == log[..i];
    }
  }

  lemma TakeExportDiverts(s: State, e: CarrierEvents.Event, known: bool)
    requires s.pendingExport == PendingOf(s.log)
    ensures NoneDiverts(TakeExport(s, e).log, known) <==>
            && NoneDiverts(s.log, known)
            && !(s.pendingExport.Some? && e.class_ != AccountReady && (known ==> Learned(s.accountId, e) != ""))
  {
    var id := Learned(s.accountId, e);
    var m := Marked(e, s.accountId, id);
    MarkedDivertsIff(s.log, m, known);
    if s.pendingExport.Some? && id != "" {
      UnmarkedDivertsNone(s.log + [m], Exported(id, s.pendingExport.value), known);
    }
  }

  lemma ArrivalDiverts(s: State, e: CarrierEvents.Event, known: bool)
    requires s.pendingExport == PendingOf(s.log)
    ensures NoneDiverts(Arrival(s, e).log, known) <==> NoneDiverts(s.log, known) && !Intrudes(s, e, known)
  {
    IsMarkedIff(e);
    if IsMarked(e) {
      TakeExportDiverts(s, e, known);
      UnmarkedDivertsNone(TakeExport(s, e).log, Out(Print(e)), known);
    } else {
      UnmarkedDivertsNone(s.log, Out(Print(e)), known);
    }
  }

  lemma {:induction false} EventsDivert(s: State, es: seq<CarrierEvents.Event>, known: bool)
    requires LogOk(s)
    ensures NoneDiverts(Events(s, es).log, known) <==> NoneDiverts(s.log, known) && !SomeIntrudes(s, es, known)
  {
    if es != [] {
      var n := |es| - 1;
      EventsDivert(s, es[..n], known);
      EventsExtend(s, es[..n]);
      ArrivalDiverts(Events(s, es[..n]), es[n], known);
    }
  }

  // ----- the other parts of a tick divert nothing -----

  lemma {:induction false} OutsDivertNone(log: seq<Entry>, lines: seq<string>, known: bool)
    ensures NoneDiverts(log + Outs(lines), known) <==> NoneDiverts(log, known)
  {
    if lines == [] {
      assert log + Outs(lines) == log;
    } else {
      var n := |lines| - 1;
      OutsDivertNone(log, lines[..n], known);
      UnmarkedDivertsNone(log + Outs(lines[..n]), Out(lines[n]), known);
      assert log + Outs(lines) == log + Outs(lines[..n]) + [Out(lines[n])];
    }
  }

  lemma StartupDivertsNone(s: State, r: Resolution, known: bool)
    ensures NoneDiverts(Startup(s, r).log, known) <==> NoneDiverts(s.log, known)
  {
    if !s.startupEmitted {
      OutsDivertNone(s.log, Bundle(r), known);
      if s.pendingLoad.Some? {
        UnmarkedDivertsNone(s.log + Outs(Bundle(r)), Load(s.pendingLoad.value), known);
      }
    }
  }

  lemma BootstrapDivertsNone(s: State, known: bool)
    ensures NoneDiverts(Bootstrap(s).log, known) <==> NoneDiverts(s.log, known)
  {
    if s.bootstrapEmit.Some? { UnmarkedDivertsNone(s.log, Out(s.bootstrapEmit.value), known); }
  }

  lemma {:induction false} PerformAllDivertsNone(s: State, es: seq<Effect>, known: bool)
    ensures NoneDiverts(PerformAll(s, es).log, known) <==> NoneDiverts(s.log, known)
  {
    if es != [] {
      var t := PerformAll(s, es[..|es| - 1]);
      PerformAllDivertsNone(s, es[..|es| - 1], known);
      match es[|es| - 1]
      case Send(line) => UnmarkedDivertsNone(t.log, Out(line), known);
      case RequestExport(path) => UnmarkedDivertsNone(t.log, Requested(path), known);
    }
  }

  lemma {:induction false} InputsDivertNone(s: State, inputs: seq<Input>, known: bool)
    ensures NoneDiverts(Inputs(s, inputs).log, known) <==> NoneDiverts(s.log, known)
  {
    if inputs != [] {
      var n := |inputs| - 1;
      InputsDivertNone(s, inputs[..n], known);
      PerformAllDivertsNone(Inputs(s, inputs[..n]), inputs[n].effects, known);
    }
  }

  lemma {:induction false} EmitsDivertNone(s: State, emits: seq<Input>, known: bool)
    ensures NoneDiverts(Emits(s, emits).log, known) <==> NoneDiverts(s.log, known)
  {
    if emits != [] {
      var n := |emits| - 1;
      EmitsDivertNone(s, emits[..n], known);
      PerformAllDivertsNone(Emits(s, emits[..n]), emits[n].effects, known);
    }
  }

  lemma BeforeEventsDivertsNone(s: State, f: Found, known: bool)
    requires LogOk(s)
    ensures NoneDiverts(BeforeEvents(s, f).log, known) <==> NoneDiverts(s.log, known)
    ensures LogOk(BeforeEvents(s, f))
  {
    StartupDivertsNone(s, f.resolution, known);
    BootstrapDivertsNone(Startup(s, f.resolution), known);
    StartupExtends(s, f.resolution);
    BootstrapExtends(Startup(s, f.resolution));
  }

  lemma AfterEventsDivertsNone(s: State, f: Found, known: bool)
    ensures NoneDiverts(Emits(Inputs(s, f.inputs), f.emits).log, known) <==> NoneDiverts(s.log, known)
  {
    InputsDivertNone(s, f.inputs, known);
    EmitsDivertNone(Inputs(s, f.inputs), f.emits, known);
  }

  lemma TurnDiverts(s: State, f: Found, known: bool)
    requires LogOk(s)
    ensures NoneDiverts(Turn(s, f).log, known) <==> NoneDiverts(s.log, known) && !TickIntrudes(s, f, known)
  {
    BeforeEventsDivertsNone(s, f, known);
    if f.carrierOk {
      EventsDivert(BeforeEvents(s, f), f.events, known);
      AfterEventsDivertsNone(Events(BeforeEvents(s, f), f.events), f, known);
    }
  }

  lemma {:induction false} RunDiverts(s: State, ticks: seq<Found>, known: bool)
    requires IsInitial(s)
    ensures NoneDiverts(Run(s, ticks).log, known) <==> NoneIntrudes(s, ticks, known)
  {
    if ticks != [] {
      var n := |ticks| - 1;
      RunDiverts(s, ticks[..n], known);
      RunLogOk(s, ticks[..n]);
      TurnDiverts(Run(s, ticks[..n]), ticks[n], known);
    }
  }

  /** Over any run every export follows an account-ready event, if and only if no other event that
      carries the mark in its account or a field ever came while a path was pending and, by then,
      an account active. */
  lemma ExportsFollowReadyIff(s: State, ticks: seq<Found>)
    requires IsInitial(s)
    ensures AllFollowReady(Run(s, ticks).log) <==> NoneIntrudes(s, ticks, true)
  {
    RunLogOk(s, ticks);
    FollowIff(Run(s, ticks).log);
    RunDiverts(s, ticks, true);
  }

  /** Over any run every path that is taken is taken by an account-ready event, to be exported or
      lost, if and only if no other event that carries the mark ever came while a path was
      pending. */
  lemma PathsTakenByReadyIff(s: State, ticks: seq<Found>)
    requires IsInitial(s)
    ensures NoneDiverts(Run(s, ticks).log, false) <==> NoneIntrudes(s, ticks, false)
  {
    RunDiverts(s, ticks, false);
  }

  /** In particular when no event but account-ready ones carries the mark at all. */
  lemma UnmarkedEventsKeepExports(s: State, ticks: seq<Found>)
    requires IsInitial(s)
    requires forall f | f in ticks :: OthersUnmarked(f.events)
    ensures AllFollowReady(Run(s, ticks).log) && NoneDiverts(Run(s, ticks).log, false)
  {
    UnmarkedRun(s, ticks, true);
    UnmarkedRun(s, ticks, false);
    ExportsFollowReadyIff(s, ticks);
    PathsTakenByReadyIff(s, ticks);
  }

  ghost predicate OthersUnmarked(es: seq<CarrierEvents.Event>) {
    forall e | e in es && e.class_ != AccountReady :: !CarriesMark(e)
  }

  lemma {:induction false} UnmarkedEvents(s: State, es: seq<CarrierEvents.Event>, known: bool)
    requires OthersUnmarked(es)
    ensures !SomeIntrudes(s, es, known)
  {
    if es != [] { UnmarkedEvents(s, es[..|es| - 1], known); }
  }

  lemma {:induction false} UnmarkedRun(s: State, ticks: seq<Found>, known: bool)
    requires forall f | f in ticks :: OthersUnmarked(f.events)
    ensures NoneIntrudes(s, ticks, known)
  {
    if ticks != [] {
      var before, f := ticks[..|ticks| - 1], ticks[|ticks| - 1];
      UnmarkedRun(s, before, known);
      UnmarkedEvents(BeforeEvents(Run(s, before), f), f.events, known);
    }
  }

  /** What happens to a requested path when an event passes the test: it is exported then, or
      lost for good when no account is active even after that event. */
  lemma PathTakenOnce(s: State, ticks: seq<Found>)
    requires IsInitial(s)
    ensures var log := Run(s, ticks).log; forall i: nat | i < |log| && Takes(log, i) :: TakenOnce(log, i)
  {
    var log := Run(s, ticks).log;
    RunLogOk(s, ticks);
    forall i: nat | i < |log| && Takes(log, i) {
      TakenIsExportedOrLost(log, i);
    }
  }

  /** Nothing is pending after entry `i`, and the path is exported next exactly when an account
      is active. */
  predicate TakenOnce(log: seq<Entry>, i: nat)
    requires i < |log| && log[i].Marked?
  {
    && PendingOf(log[..i + 1]) == None
    && (ExportedAt(log, i + 1) <==> log[i].after != "")
    && (ExportedAt(log, i + 1) ==> Some(log[i + 1].path) == PendingOf(log[..i]))
  }

  lemma TakenIsExportedOrLost(log: seq<Entry>, i: nat)
    requires InOrder(log) && i < |log| && Takes(log, i)
    ensures TakenOnce(log, i)
  {
    assert MarkedOk(log, i);
    PendingAfter(log[..i + 1]);
    if ExportedAt(log, i + 1) { assert Justified(log, i + 1); }
  }

  // ----- where the logged events come from -----

  /** Every event logged in `t` and not before comes from `es`. */
  ghost predicate MarkedFrom(s: State, t: State, es: seq<CarrierEvents.Event>) {
    forall m | m in t.log && m.Marked? :: m in s.log || m.event in es
  }

  lemma ArrivalMarks(s: State, e: CarrierEvents.Event)
    ensures MarkedFrom(s, Arrival(s, e), [e])
  {
  }

  lemma {:induction false} EventsMark(s: State, es: seq<CarrierEvents.Event>)
    ensures MarkedFrom(s, Events(s, es), es)
  {
    if es != [] {
      var n := |es| - 1;
      EventsMark(s, es[..n]);
      ArrivalMarks(Events(s, es[..n]), es[n]);
      assert forall e | e in es[..n] || e in [es[n]] :: e in es;
    }
  }

  lemma {:induction false} PerformAllMarks(s: State, es: seq<Effect>)
    ensures MarkedFrom(s, PerformAll(s, es), [])
  {
    if es != [] { PerformAllMarks(s, es[..|es| - 1]); }
  }

  lemma {:induction false} InputsMark(s: State, inputs: seq<Input>)
    ensures MarkedFrom(s, Inputs(s, inputs), [])
  {
    if inputs != [] {
      var n := |inputs| - 1;
      InputsMark(s, inputs[..n]);
      PerformAllMarks(Inputs(s, inputs[..n]), inputs[n].effects);
    }
  }

  lemma {:induction false} EmitsMark(s: State, emits: seq<Input>)
    ensures MarkedFrom(s, Emits(s, emits), [])
  {
    if emits != [] {
      var n := |emits| - 1;
      EmitsMark(s, emits[..n]);
      PerformAllMarks(Emits(s, emits[..n]), emits[n].effects);
    }
  }

  lemma TurnMarks(s: State, f: Found)
    ensures MarkedFrom(s, Turn(s, f), f.events)
  {
    var s1 := Startup(s, f.resolution);
    var s2 := Bootstrap(s1);
    assert MarkedFrom(s, s1, []);
    assert MarkedFrom(s1, s2, []);
    if f.carrierOk {
      var s3 := Events(s2, f.events);
      EventsMark(s2, f.events);
      InputsMark(s3, f.inputs);
      EmitsMark(Inputs(s3, f.inputs), f.emits);
    }
  }

  /** Every event logged as passing the test is an event of one of the ticks, and an account-ready
      one or one that carries the mark. */
  lemma {:induction false} MarkedComeIn(s: State, ticks: seq<Found>)
    requires IsInitial(s)
    ensures forall m | m in Run(s, ticks).log && m.Marked? ::
              && (exists f :: f in ticks && m.event in f.events)
              && (m.event.class_ == AccountReady || CarriesMark(m.event))
  {
    RunMarks(s, ticks);
    RunLogOk(s, ticks);
    forall m | m in Run(s, ticks).log && m.Marked? ensures m.event.class_ == AccountReady || CarriesMark(m.event) {
      assert Genuine(m);
      IsMarkedIff(m.event);
    }
  }

  lemma {:induction false} RunMarks(s: State, ticks: seq<Found>)
    requires IsInitial(s)
    ensures forall m | m in Run(s, ticks).log && m.Marked? :: exists f :: f in ticks && m.event in f.events
  {
    if ticks != [] {
      var n := |ticks| - 1;
      RunMarks(s, ticks[..n]);
      TurnMarks(Run(s, ticks[..n]), ticks[n]);
      assert forall f | f in ticks[..n] :: f in ticks;
      assert ticks[n] in ticks;
    }
  }

  // ----- cases -----

  /** A text message with the mark in its body takes the pending path: it triggers the export, or
      loses the path when no account is active and its header names none. */
  lemma TextMessageTakesPath(s: State, accountBuf: string, contactBuf: string, conversationBuf: string,
                             messageBuf: string, body: string, atMs: int)
    requires Contains(body, READY_MARK) && s.pendingExport.Some?
    ensures PathTaken(s, TextMessageEvent(accountBuf, contactBuf, conversationBuf, messageBuf, body, atMs))
  {
    var e := TextMessageEvent(accountBuf, contactBuf, conversationBuf, messageBuf, body, atMs);
    TextMessageShape(accountBuf, contactBuf, conversationBuf, messageBuf, body, atMs);
    TextMessagePasses(e, body);
    MarkedTakesPath(s, e);
  }

  /** The event clears the pending path, and exports it if an account is active by then. */
  predicate PathTaken(s: State, e: CarrierEvents.Event)
    requires s.pendingExport.Some?
  {
    var id := Learned(s.accountId, e);
    && Arrival(s, e).pendingExport == None
    && Arrival(s, e).log == s.log + [Marked(e, s.accountId, id)]
       + (if id == "" then [] else [Exported(id, s.pendingExport.value)]) + [Out(Print(e))]
  }

  lemma MarkedTakesPath(s: State, e: CarrierEvents.Event)
    requires s.pendingExport.Some? && IsMarked(e)
    ensures PathTaken(s, e)
  {
  }

  /** Whose archive is exported: the event's account exactly when no account was active before,
      or that one was (as it is printed, escaped). So the first account's archive is exported
      for a second account's request. */
  lemma ExportedAccountIff(s: State, ticks: seq<Found>)
    requires IsInitial(s)
    ensures var log := Run(s, ticks).log;
            forall k: nat | ExportedAt(log, k) :: k > 0 && OwnAccountIff(log[k - 1], log[k].account)
  {
    var log := Run(s, ticks).log;
    RunLogOk(s, ticks);
    forall k: nat | ExportedAt(log, k) ensures k > 0 && OwnAccountIff(log[k - 1], log[k].account) {
      assert Justified(log, k) && Genuine(log[k - 1]);
      LearnedAccount(log[k - 1]);
    }
  }

  predicate OwnAccountIff(m: Entry, account: string) {
    && m.Marked?
    && (AccountOf(m.event) != "" ==>
          (account == TurtleText.Escaped(AccountOf(m.event)) <==>
           m.before == "" || m.before == TurtleText.Escaped(AccountOf(m.event))))
  }

  lemma LearnedAccount(m: Entry)
    requires m.Marked? && Genuine(m)
    ensures OwnAccountIff(m, m.after)
  {
    if AccountOf(m.event) != "" { AccountRoundTrip(m.event); }
  }

  /** Such a case: the account-ready event of any account, while another is active. */
  lemma ActiveAccountExported(s: State, accountBuf: string, selfUriBuf: string, nameBuf: string, atMs: int)
    requires s.accountId != "" && s.pendingExport.Some?
    ensures var e := AccountReadyEvent(accountBuf, selfUriBuf, nameBuf, atMs);
            Arrival(s, e).log == s.log
              + [Marked(e, s.accountId, s.accountId), Exported(s.accountId, s.pendingExport.value), Out(Print(e))]
  {
    var e := AccountReadyEvent(accountBuf, selfUriBuf, nameBuf, atMs);
    IsMarkedIff(e);
    ActiveKept(s, e);
  }

  lemma ActiveKept(s: State, e: CarrierEvents.Event)
    requires s.accountId != "" && s.pendingExport.Some? && IsMarked(e)
    ensures Arrival(s, e).log == s.log
              + [Marked(e, s.accountId, s.accountId), Exported(s.accountId, s.pendingExport.value), Out(Print(e))]
  {
  }

  // ----- which request an export answers -----

  /** The request that a pending path comes from. */
  lemma {:induction false} PendingSince(log: seq<Entry>) returns (r: nat)
    requires PendingOf(log).Some?
    ensures r < |log| && log[r] == Requested(PendingOf(log).value)
    ensures forall x | r < x < |log| :: !log[x].Requested? && !log[x].Marked?
  {
    var n := |log| - 1;
    if log[n].Requested? {
      r := n;
    } else {
      r := PendingSince(log[..n]);
    }
  }

  /** `log[r]` is the request that the export at `k` answers: the last one before the event at
      `k - 1` that passed the test, with no such event in between. */
  ghost predicate Answers(log: seq<Entry>, k: nat, r: nat)
    requires k < |log| && log[k].Exported?
  {
    && r < k - 1
    && log[r] == Requested(log[k].path)
    && log[k - 1].Marked?
    && forall x | r < x < k - 1 :: !log[x].Requested? && !log[x].Marked?
  }

  /** Every export over any run answers a request, and no other export answers the same one. */
  lemma ExportAnswersRequest(s: State, ticks: seq<Found>, k: nat) returns (r: nat)
    requires IsInitial(s) && ExportedAt(Run(s, ticks).log, k)
    ensures Answers(Run(s, ticks).log, k, r)
    ensures forall m: nat | ExportedAt(Run(s, ticks).log, m) :: Answers(Run(s, ticks).log, m, r) ==> m == k
  {
    RunLogOk(s, ticks);
    r := RequestIn(Run(s, ticks).log, k);
  }

  lemma RequestIn(log: seq<Entry>, k: nat) returns (r: nat)
    requires InOrder(log) && ExportedAt(log, k)
    ensures Answers(log, k, r)
    ensures forall m: nat | ExportedAt(log, m) :: Answers(log, m, r) ==> m == k
  {
    r := RequestOf(log, k);
    AnsweredOnce(log, k, r);
  }

  lemma AnsweredOnce(log: seq<Entry>, k: nat, r: nat)
    requires k < |log| && log[k].Exported? && Answers(log, k, r)
    ensures forall m: nat | ExportedAt(log, m) :: Answers(log, m, r) ==> m == k
  {
  }

  lemma RequestOf(log: seq<Entry>, k: nat) returns (r: nat)
    requires k < |log| && log[k].Exported? && Justified(log, k)
    ensures Answers(log, k, r)
  {
    var earlier := log[..k - 1];
    r := PendingSince(earlier);
    forall x | r < x < k - 1 ensures !log[x].Requested? && !log[x].Marked? {
      assert log[x] == earlier[x];
    }
  }
}
