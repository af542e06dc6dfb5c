/** The worker's tick (`lib.rs`): startup one-shots, carrier events, account id, the pending
    auto-export, and input draining, over whole runs. */
module Tick {
  import opened Options
  import opened Text
  import opened CarrierEvents
  import TurtleText

  /** What the tick does, in order. `Marked` is an event that passed the text test for
      account-ready events, with the active account before and after it was looked at. */
  datatype Entry =
    | Out(line: string)
    | Load(account: string)
    | Marked(event: CarrierEvents.Event, before: string, after: string)
    | Requested(path: string)
    | Exported(account: string, path: string)

  /** What the dispatcher does for a line: it sends output, and for an account creation with
      an export path it records the path. Which it does is up to the line. */
  datatype Effect = Send(line: string) | RequestExport(path: string)

  datatype Input = Input(line: string, effects: seq<Effect>)

  datatype Resolution = Resolved(triples: seq<string>) | ResolveFailed(message: string)

  /** What one tick finds: the resolver's answer, whether the carrier's turn succeeds, the
      events it has queued, the input lines, and the script emits. */
  datatype Found = Found(resolution: Resolution, carrierOk: bool, events: seq<CarrierEvents.Event>,
                         inputs: seq<Input>, emits: seq<Input>)

  datatype State = State(accountId: string, bootstrapEmit: Option<string>, pendingLoad: Option<string>,
                         startupEmitted: bool, pendingExport: Option<string>, log: seq<Entry>)

  function Log(s: State, e: Entry): State {
    s.(log := s.log + [e])
  }

  function Outs(lines: seq<string>): seq<Entry> {
    seq(|lines|, i requires 0 <= i < |lines| => Out(lines[i]))
  }

  const MARKER_START := "[] a design:ThemeBundleComplete ; design:bundleSize "

  function BundleMarker(n: nat): string {
    MARKER_START + Digits(n) + " ."
  }

  /** The number a client reads from a bundle marker. */
  function BundleSize(marker: string): Option<nat> {
    if MARKER_START <= marker && |marker| >= |MARKER_START| + 2
       && IsNumeral(marker[|MARKER_START|..|marker| - 2])
    then Some(Number(marker[|MARKER_START|..|marker| - 2]))
    else None
  }

  const FAILURE: string := "ResolveActiveTheme failed: "

  /** The answer to `design:ResolveActiveTheme`: the triples, then their number; or an error. */
  function Bundle(r: Resolution): seq<string> {
    match r
    case Resolved(triples) => triples + [BundleMarker(|triples|)]
    case ResolveFailed(message) =>
      ["[] a antenna:Error ; " + "antenna:message" + " " + "\"" + (FAILURE + TurtleText.DispatchEscape(message))
       + "\"" + " ."]
  }

  /** A client that counts the lines before the marker finds the number the marker gives. */
  lemma MarkerCountsTriples(triples: seq<string>)
    ensures var b := Bundle(Resolved(triples));
            && b != [] && b[..|b| - 1] == triples
            && BundleSize(b[|b| - 1]) == Some(|triples|)
  {
    var d := Digits(|triples|);
    NumberOfDigits(|triples|);
    MarkerMiddle(MARKER_START, d, " .");
  }

  lemma MarkerMiddle(a: string, b: string, c: string)
    ensures a <= a + b + c && (a + b + c)[|a|..|a + b + c| - |c|] == b
  {
  }

  // ----- the parts of a tick -----

  function Startup(s: State, r: Resolution): State {
    if s.startupEmitted then s
    else
      var s1 := s.(startupEmitted := true, log := s.log + Outs(Bundle(r)));
      match s1.pendingLoad
      case Some(id) => Log(s1.(pendingLoad := None), Load(id))
      case None => s1
  }

  function Bootstrap(s: State): State {
    match s.bootstrapEmit
    case Some(turtle) => Log(s.(bootstrapEmit := None), Out(turtle))
    case None => s
  }

  /** The active account after an event that passed the test: the one already there, else the
      one scanned from the line. */
  function Learned(before: string, e: CarrierEvents.Event): string {
    if before != "" then before
    else
      match TurtleText.PropertyOf(Print(e), "carrier:account")
      case Some(v) => v
      case None => ""
  }

  /** Learn the account and take the pending export; the archive of the active account is
      exported when there is one by then. */
  function TakeExport(s: State, e: CarrierEvents.Event): State {
    var id := Learned(s.accountId, e);
    var s1 := Log(s.(accountId := id, pendingExport := None), Marked(e, s.accountId, id));
    match s.pendingExport
    case Some(path) => if id == "" then s1 else Log(s1, Exported(id, path))
    case None => s1
  }

  function Arrival(s: State, e: CarrierEvents.Event): State {
    Log(if IsMarked(e) then TakeExport(s, e) else s, Out(Print(e)))
  }

  function Events(s: State, es: seq<CarrierEvents.Event>): State {
    if es == [] then s else Arrival(Events(s, es[..|es| - 1]), es[|es| - 1])
  }

  function Perform(s: State, e: Effect): State {
    match e
    case Send(line) => Log(s, Out(line))
    case RequestExport(path) => Log(s.(pendingExport := Some(path)), Requested(path))
  }

  function PerformAll(s: State, es: seq<Effect>): State {
    if es == [] then s else Perform(PerformAll(s, es[..|es| - 1]), es[|es| - 1])
  }

  function Inputs(s: State, inputs: seq<Input>): State {
    if inputs == [] then s
    else
      var last := inputs[|inputs| - 1];
      var s1 := Inputs(s, inputs[..|inputs| - 1]);
      if last.line == "" then s1 else PerformAll(s1, last.effects)
  }

  /** Script emits are dispatched as they come. */
  function Emits(s: State, emits: seq<Input>): State {
    if emits == [] then s
    else PerformAll(Emits(s, emits[..|emits| - 1]), emits[|emits| - 1].effects)
  }

  /** Everything after the startup block. */
  function Rest(s: State, f: Found): State {
    var s1 := Bootstrap(s);
    if !f.carrierOk then s1
    else Emits(Inputs(Events(s1, f.events), f.inputs), f.emits)
  }

  function Turn(s: State, f: Found): State {
    Rest(Startup(s, f.resolution), f)
  }

  // ----- the tick as it runs -----

  class AntennaContext {
    var accountId: string
    var bootstrapEmit: Option<string>
    var pendingLoad: Option<string>
    var startupEmitted: bool
    var pendingExport: Option<string>
    var log: seq<Entry>

    function Value(): State
      reads this
    {
      State(accountId, bootstrapEmit, pendingLoad, startupEmitted, pendingExport, log)
    }

    method Tick(f: Found)
      modifies this
      ensures Value() == Turn(old(Value()), f)
    {
      StartUp(f.resolution);
      if bootstrapEmit.Some? {
        var turtle := bootstrapEmit.value;
        bootstrapEmit := None;
        log := log + [Out(turtle)];
      }
      if !f.carrierOk {
        return;
      }
      DrainEvents(f.events);
      DrainInputs(f.inputs);
      DispatchEmits(f.emits);
    }

    /** The first-tick block. */
    method StartUp(resolution: Resolution)
      modifies this
      ensures Value() == Startup(old(Value()), resolution)
    {
      if !startupEmitted {
        startupEmitted := true;
        log := log + Outs(Bundle(resolution));
        if pendingLoad.Some? {
          var id := pendingLoad.value;
          pendingLoad := None;
          log := log + [Load(id)];
        }
      }
    }

    method DrainEvents(events: seq<CarrierEvents.Event>)
      modifies this
      ensures Value() == Events(old(Value()), events)
    {
      for i := 0 to |events|
        invariant Value() == Events(old(Value()), events[..i])
      {
        assert events[..i + 1][..i] == events[..i];
        HandleEvent(events[i]);
      }
      assert events[..|events|] == events;
    }

    /** The carrier sent the event's line; the tick sees nothing else of it. */
    method HandleEvent(e: CarrierEvents.Event)
      modifies this
      ensures Value() == Arrival(old(Value()), e)
    {
      var turtle := Print(e);
      if Contains(turtle, READY_MARK) {
        TakeTheExport(e, turtle);
      }
      log := log + [Out(turtle)];
    }

    /** An event that passed the test: learn the account, take the pending export. */
    method TakeTheExport(e: CarrierEvents.Event, turtle: string)
      requires turtle == Print(e)
      modifies this
      ensures Value() == TakeExport(old(Value()), e)
    {
      var before := accountId;
      LearnAccount(e, turtle);
      log := log + [Marked(e, before, accountId)];
      var requested := pendingExport;
      pendingExport := None;
      if requested.Some? && accountId != "" {
        log := log + [Exported(accountId, requested.value)];
      }
    }

    method LearnAccount(e: CarrierEvents.Event, turtle: string)
      requires turtle == Print(e)
      modifies this`accountId
      ensures accountId == Learned(old(accountId), e)
    {
      if accountId == "" {
        var id := TurtleText.ExtractProperty(turtle, "carrier:account");
        if id.Some? && id.value != "" {
          accountId := id.value;
        }
      }
    }

    method DrainInputs(inputs: seq<Input>)
      modifies this
      ensures Value() == Inputs(old(Value()), inputs)
    {
      for i := 0 to |inputs|
        invariant Value() == Inputs(old(Value()), inputs[..i])
      {
        assert inputs[..i + 1][..i] == inputs[..i];
        if inputs[i].line != "" {
          Dispatch(inputs[i].effects);
        }
      }
      assert inputs[..|inputs|] == inputs;
    }

    method DispatchEmits(emits: seq<Input>)
      modifies this
      ensures Value() == Emits(old(Value()), emits)
    {
      for i := 0 to |emits|
        invariant Value() == Emits(old(Value()), emits[..i])
      {
        assert emits[..i + 1][..i] == emits[..i];
        Dispatch(emits[i].effects);
      }
      assert emits[..|emits|] == emits;
    }

    method Dispatch(effects: seq<Effect>)
      modifies this
      ensures Value() == PerformAll(old(Value()), effects)
    {
      for i := 0 to |effects|
        invariant Value() == PerformAll(old(Value()), effects[..i])
      {
        assert effects[..i + 1][..i] == effects[..i];
        match effects[i]
        case Send(line) =>
          log := log + [Out(line)];
        case RequestExport(path) =>
          pendingExport := Some(path);
          log := log + [Requested(path)];
      }
      assert effects[..|effects|] == effects;
    }
  }

  // ----- whole runs -----

  predicate IsInitial(s: State) {
    !s.startupEmitted && s.pendingExport == None && s.log == []
  }

  function Run(s: State, ticks: seq<Found>): State {
    if ticks == [] then s else Turn(Run(s, ticks[..|ticks| - 1]), ticks[|ticks| - 1])
  }

  /** What every part of a tick keeps: the log only grows, the account id only goes from empty
      to something, the pending export is what the log says, and every export is justified. */
  ghost predicate Extends(s: State, t: State) {
    && s.log <= t.log
    && (s.accountId != "" ==> t.accountId == s.accountId)
    && (s.startupEmitted ==> t.startupEmitted)
    && (LogOk(s) ==> LogOk(t))
  }

  /** The path last requested and not yet taken. */
  function PendingOf(log: seq<Entry>): Option<string> {
    if log == [] then None
    else
      match log[|log| - 1]
      case Requested(path) => Some(path)
      case Marked(_, _, _) => None
      case _ => PendingOf(log[..|log| - 1])
  }

  /** An export comes right after an event that passed the test, for the account active then,
      and its path is the one pending at that event. */
  ghost predicate Justified(log: seq<Entry>, k: nat)
    requires k < |log| && log[k].Exported?
  {
    && k > 0 && log[k - 1].Marked?
    && log[k].account == log[k - 1].after
    && log[k].account != ""
    && PendingOf(log[..k - 1]) == Some(log[k].path)
  }

  /** Entry `i` takes a path. */
  predicate Takes(log: seq<Entry>, i: nat)
    requires i < |log|
  {
    log[i].Marked? && PendingOf(log[..i]).Some?
  }

  predicate ExportedAt(log: seq<Entry>, k: nat) {
    k < |log| && log[k].Exported?
  }

  /** An event that passed the test is followed by an export exactly when it took a path and an
      account was active. */
  ghost predicate MarkedOk(log: seq<Entry>, i: nat)
    requires i < |log| && log[i].Marked?
  {
    Takes(log, i) && log[i].after != "" <==> ExportedAt(log, i + 1)
  }

  /** An entry says of an event what the tick found: that it passed the test, and the account. */
  predicate Genuine(m: Entry) {
    m.Marked? ==> IsMarked(m.event) && m.after == Learned(m.before, m.event)
  }

  ghost predicate AllGenuine(log: seq<Entry>) {
    forall i | 0 <= i < |log| :: Genuine(log[i])
  }

  ghost predicate LogOk(s: State) {
    s.pendingExport == PendingOf(s.log) && InOrder(s.log) && AllGenuine(s.log)
  }

  ghost predicate InOrder(log: seq<Entry>) {
    && (forall k: nat | k < |log| && log[k].Exported? :: Justified(log, k))
    && (forall i: nat | i < |log| && log[i].Marked? :: MarkedOk(log, i))
  }

  lemma MarkedStaysOk(log: seq<Entry>, e: Entry, i: nat)
    requires i < |log| && log[i].Marked? && MarkedOk(log, i)
    requires !e.Exported?
    ensures MarkedOk(log + [e], i)
  {
    assert (log + [e])[..i] == log[..i];
  }

  lemma JustifiedStays(log: seq<Entry>, e: Entry, k: nat)
    requires k < |log| && log[k].Exported? && Justified(log, k)
    ensures Justified(log + [e], k)
  {
    assert (log + [e])[..k - 1] == log[..k - 1];
  }

  /** Appending an entry that is neither an event that passed the test nor an export keeps the
      log in order. */
  lemma LogExtends(s: State, t: State, e: Entry)
    requires t.log == s.log + [e] && !e.Exported? && !e.Marked?
    requires t.startupEmitted == s.startupEmitted
    requires s.accountId != "" ==> t.accountId == s.accountId
    requires t.pendingExport == if e.Requested? then Some(e.path) else s.pendingExport
    ensures Extends(s, t)
  {
    assert t.log[..|s.log|] == s.log;
    if LogOk(s) {
      forall k: nat | k < |t.log| && t.log[k].Exported? ensures Justified(t.log, k) {
        JustifiedStays(s.log, e, k);
      }
      forall i: nat | i < |t.log| && t.log[i].Marked? ensures MarkedOk(t.log, i) {
        MarkedStaysOk(s.log, e, i);
      }
    }
  }

  lemma ArrivalExtends(s: State, e: CarrierEvents.Event)
    ensures Extends(s, Arrival(s, e))
  {
    if !IsMarked(e) {
      LogExtends(s, Arrival(s, e), Out(Print(e)));
    } else {
      var t := TakeExport(s, e);
      TakeExportExtends(s, e);
      LogExtends(t, Arrival(s, e), Out(Print(e)));
    }
  }

  lemma TakeExportExtends(s: State, e: CarrierEvents.Event)
    requires IsMarked(e)
    ensures Extends(s, TakeExport(s, e))
  {
    if LogOk(s) {
      if s.pendingExport.Some? && Learned(s.accountId, e) != "" {
        ExportTakenOk(s, e);
      } else {
        NothingExportedOk(s, e);
      }
    }
  }

  lemma ExportTakenOk(s: State, e: CarrierEvents.Event)
    requires IsMarked(e) && LogOk(s) && s.pendingExport.Some? && Learned(s.accountId, e) != ""
    ensures LogOk(TakeExport(s, e))
  {
    var id := Learned(s.accountId, e);
    var m, x := Marked(e, s.accountId, id), Exported(id, s.pendingExport.value);
    assert TakeExport(s, e).log == s.log + [m, x];
    TwoMoreInOrder(s.log, m, x);
    TwoMoreGenuine(s.log, m, x);
    NonePendingAfter(s.log, m, x);
  }

  lemma TwoMoreGenuine(log: seq<Entry>, m: Entry, x: Entry)
    requires AllGenuine(log) && Genuine(m) && Genuine(x)
    ensures AllGenuine(log + [m, x])
  {
  }

  lemma PendingAfter(log: seq<Entry>)
    requires log != [] && log[|log| - 1].Marked?
    ensures PendingOf(log) == None
  {
  }

  lemma NonePendingAfter(log: seq<Entry>, m: Entry, x: Entry)
    requires m.Marked? && x.Exported?
    ensures PendingOf(log + [m, x]) == None
  {
    var log' := log + [m, x];
    assert log'[..|log'| - 1] == log + [m];
    PendingAfter(log + [m]);
  }

  lemma TwoMoreInOrder(log: seq<Entry>, m: Entry, x: Entry)
    requires InOrder(log) && m.Marked? && x.Exported?
    requires m.after != "" && PendingOf(log) == Some(x.path) && x.account == m.after
    ensures InOrder(log + [m, x])
  {
    var log' := log + [m, x];
    NewPairInOrder(log, m, x);
    forall k: nat | k < |log'| && log'[k].Exported? ensures Justified(log', k) {
      if k < |log| { TwoMore(log, m, x, k); }
    }
    forall i: nat | i < |log'| && log'[i].Marked? ensures MarkedOk(log', i) {
      if i < |log| { TwoMore(log, m, x, i); }
    }
  }

  lemma NewPairInOrder(log: seq<Entry>, m: Entry, x: Entry)
    requires m.Marked? && x.Exported? && m.after != "" && PendingOf(log) == Some(x.path) && x.account == m.after
    ensures Justified(log + [m, x], |log| + 1) && MarkedOk(log + [m, x], |log|)
  {
    var log' := log + [m, x];
    assert log'[..|log|] == log && log'[|log|] == m && log'[|log| + 1] == x;
  }

  /** An event and its export disturb nothing before them. */
  lemma TwoMore(log: seq<Entry>, m: Entry, x: Entry, i: nat)
    requires i < |log| && m.Marked? && x.Exported?
    ensures log[i].Exported? && Justified(log, i) ==> Justified(log + [m, x], i)
    ensures log[i].Marked? && MarkedOk(log, i) ==> MarkedOk(log + [m, x], i)
  {
    var log' := log + [m, x];
    assert log'[..i] == log[..i];
    if i > 0 { assert log'[..i - 1] == log[..i - 1]; }
  }

  lemma NothingExportedOk(s: State, e: CarrierEvents.Event)
    requires IsMarked(e) && LogOk(s) && (s.pendingExport.None? || Learned(s.accountId, e) == "")
    ensures LogOk(TakeExport(s, e))
  {
    var m := Marked(e, s.accountId, Learned(s.accountId, e));
    OneMoreInOrder(s.log, m);
    OneMoreGenuine(s.log, m);
    PendingAfter(s.log + [m]);
  }

  lemma OneMoreInOrder(log: seq<Entry>, m: Entry)
    requires InOrder(log) && m.Marked? && (PendingOf(log).None? || m.after == "")
    ensures InOrder(log + [m])
  {
    var log' := log + [m];
    assert log'[..|log|] == log;
    forall k: nat | k < |log'| && log'[k].Exported? ensures Justified(log', k) {
      JustifiedStays(log, m, k);
    }
    forall i: nat | i < |log'| && log'[i].Marked? ensures MarkedOk(log', i) {
      if i < |log| { MarkedStaysOk(log, m, i); }
    }
  }

  lemma OneMoreGenuine(log: seq<Entry>, m: Entry)
    requires AllGenuine(log) && Genuine(m)
    ensures AllGenuine(log + [m])
  {
  }

  lemma {:induction false} EventsExtend(s: State, es: seq<CarrierEvents.Event>)
    ensures Extends(s, Events(s, es))
  {
    if es != [] {
      EventsExtend(s, es[..|es| - 1]);
      ArrivalExtends(Events(s, es[..|es| - 1]), es[|es| - 1]);
    }
  }

  lemma {:induction false} PerformAllExtends(s: State, es: seq<Effect>)
    ensures Extends(s, PerformAll(s, es))
  {
    if es != [] {
      var t := PerformAll(s, es[..|es| - 1]);
      PerformAllExtends(s, es[..|es| - 1]);
      match es[|es| - 1]
      case Send(line) => LogExtends(t, PerformAll(s, es), Out(line));
      case RequestExport(path) => LogExtends(t, PerformAll(s, es), Requested(path));
    }
  }

  lemma {:induction false} InputsExtend(s: State, inputs: seq<Input>)
    ensures Extends(s, Inputs(s, inputs))
  {
    if inputs != [] {
      InputsExtend(s, inputs[..|inputs| - 1]);
      PerformAllExtends(Inputs(s, inputs[..|inputs| - 1]), inputs[|inputs| - 1].effects);
    }
  }

  lemma {:induction false} EmitsExtend(s: State, emits: seq<Input>)
    ensures Extends(s, Emits(s, emits))
  {
    if emits != [] {
      EmitsExtend(s, emits[..|emits| - 1]);
      PerformAllExtends(Emits(s, emits[..|emits| - 1]), emits[|emits| - 1].effects);
    }
  }

  lemma BootstrapExtends(s: State)
    ensures Extends(s, Bootstrap(s))
  {
    if s.bootstrapEmit.Some? {
      LogExtends(s, Bootstrap(s), Out(s.bootstrapEmit.value));
    }
  }

  lemma RestExtends(s: State, f: Found)
    ensures Extends(s, Rest(s, f))
  {
    var s1 := Bootstrap(s);
    BootstrapExtends(s);
    if f.carrierOk {
      var s2 := Events(s1, f.events);
      EventsExtend(s1, f.events);
      InputsExtend(s2, f.inputs);
      EmitsExtend(Inputs(s2, f.inputs), f.emits);
    }
  }

  lemma {:induction false} OutsExtend(s: State, lines: seq<string>)
    ensures Extends(s, s.(log := s.log + Outs(lines)))
  {
    if lines == [] {
      assert s.log + Outs(lines) == s.log;
    } else {
      var n := |lines| - 1;
      OutsExtend(s, lines[..n]);
      assert s.log + Outs(lines) == (s.log + Outs(lines[..n])) + [Out(lines[n])];
      LogExtends(s.(log := s.log + Outs(lines[..n])), s.(log := s.log + Outs(lines)), Out(lines[n]));
    }
  }

  lemma StartupExtends(s: State, r: Resolution)
    ensures Extends(s, Startup(s, r))
  {
    if !s.startupEmitted {
      OutsExtend(s, Bundle(r));
      var s1 := s.(startupEmitted := true, log := s.log + Outs(Bundle(r)));
      if s.pendingLoad.Some? {
        LogExtends(s1, Startup(s, r), Load(s.pendingLoad.value));
      }
    }
  }

  lemma TurnExtends(s: State, f: Found)
    ensures Extends(s, Turn(s, f))
  {
    StartupExtends(s, f.resolution);
    RestExtends(Startup(s, f.resolution), f);
  }

  lemma LastTurnExtends(s: State, ticks: seq<Found>)
    requires ticks != []
    ensures Extends(Run(s, ticks[..|ticks| - 1]), Run(s, ticks))
  {
    TurnExtends(Run(s, ticks[..|ticks| - 1]), ticks[|ticks| - 1]);
  }

  lemma PrefixOfPrefix(ticks: seq<Found>, m: nat, n: nat)
    requires n <= m <= |ticks|
    ensures ticks[..m][..n] == ticks[..n]
  {
  }

  lemma {:induction false} RunExtends(s: State, ticks: seq<Found>, n: nat)
    requires n <= |ticks|
    ensures Extends(Run(s, ticks[..n]), Run(s, ticks))
    decreases |ticks|
  {
    if n == |ticks| {
      assert ticks[..n] == ticks;
    } else {
      var m := |ticks| - 1;
      RunExtends(s, ticks[..m], n);
      PrefixOfPrefix(ticks, m, n);
      LastTurnExtends(s, ticks);
      ExtendsChain(Run(s, ticks[..n]), Run(s, ticks[..m]), Run(s, ticks));
    }
  }

  lemma ExtendsChain(s: State, t: State, u: State)
    requires Extends(s, t) && Extends(t, u)
    ensures Extends(s, u)
  {
  }

  /** Over any run of ticks the account id changes at most once, and only from empty. */
  lemma AccountIdSetOnce(s: State, ticks: seq<Found>, i: nat, j: nat)
    requires i <= j <= |ticks|
    ensures Run(s, ticks[..i]).accountId != "" ==>
              Run(s, ticks[..j]).accountId == Run(s, ticks[..i]).accountId
  {
    assert ticks[..j][..i] == ticks[..i];
    RunExtends(s, ticks[..j], i);
  }

  lemma FirstTick(s: State, ticks: seq<Found>)
    requires ticks != []
    ensures Run(s, ticks[..1]) == Rest(Startup(s, ticks[0].resolution), ticks[0])
    ensures Run(s, ticks[..1]).startupEmitted
  {
    var one := ticks[..1];
    assert one == [ticks[0]] && one[..0] == [];
    assert Run(s, one) == Turn(Run(s, one[..0]), one[0]);
    RestExtends(Startup(s, ticks[0].resolution), ticks[0]);
  }

  /** The startup resolve comes before any other output: a run's log starts with the theme
      bundle, closed by a marker that counts the triples sent. */
  lemma StartupComesFirst(s: State, ticks: seq<Found>)
    requires IsInitial(s) && ticks != []
    ensures Outs(Bundle(ticks[0].resolution)) <= Run(s, ticks).log
  {
    StartupLog(s, ticks[0].resolution);
    FirstTick(s, ticks);
    RestExtends(Startup(s, ticks[0].resolution), ticks[0]);
    RunExtends(s, ticks, 1);
  }

  lemma StartupLog(s: State, r: Resolution)
    requires IsInitial(s)
    ensures Outs(Bundle(r)) <= Startup(s, r).log
  {
    assert s.log + Outs(Bundle(r)) == Outs(Bundle(r));
  }

  /** The startup block runs exactly once: every tick but the first is a tick without it. */
  lemma {:induction false} StartupOnce(s: State, ticks: seq<Found>, i: nat)
    requires 0 < i < |ticks|
    ensures Run(s, ticks[..i]).startupEmitted
    ensures Turn(Run(s, ticks[..i]), ticks[i]) == Rest(Run(s, ticks[..i]), ticks[i])
  {
    var before := ticks[..i];
    assert before[..1] == ticks[..1];
    FirstTick(s, ticks);
    RunExtends(s, before, 1);
  }

  lemma RunLogOk(s: State, ticks: seq<Found>)
    requires IsInitial(s)
    ensures LogOk(Run(s, ticks))
  {
    RunExtends(s, ticks, 0);
    assert ticks[..0] == [];
  }

  /** Every export over any run follows an event that passed the test, for the account active
      then, with the path pending at that event. */
  lemma ExportsJustified(s: State, ticks: seq<Found>)
    requires IsInitial(s)
    ensures var log := Run(s, ticks).log; forall k: nat | ExportedAt(log, k) :: Justified(log, k)
  {
    RunLogOk(s, ticks);
  }
}
