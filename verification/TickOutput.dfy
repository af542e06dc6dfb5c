/** What a worker says over a whole run: every line it sends and every account it loads, in order,
    from what its ticks find. */
module TickOutput {
  import opened Options
  import opened Text
  import opened Tick
  import CarrierEvents
  import Dispatch
  import ErrorLines
  import TurtleText

  // ----- what there is to say -----

  /** The lines and loads of a log; the rest is bookkeeping. */
  function Said(log: seq<Entry>): seq<Entry> {
    if log == [] then []
    else
      var last := log[|log| - 1];
      Said(log[..|log| - 1]) + if last.Out? || last.Load? then [last] else []
  }

  function EventLines(es: seq<CarrierEvents.Event>): seq<Entry> {
    if es == [] then [] else EventLines(es[..|es| - 1]) + [Out(CarrierEvents.Print(es[|es| - 1]))]
  }

  /** The lines that dispatching sends. */
  function SentLines(effects: seq<Effect>): seq<Entry> {
    if effects == [] then []
    else
      SentLines(effects[..|effects| - 1])
      + match effects[|effects| - 1] case Send(line) => [Out(line)] case RequestExport(_) => []
  }

  /** The lines that dispatching a list of inputs sends; empty input lines are passed over, but
      not empty script emits. */
  function Dispatched(inputs: seq<Input>, passOver: bool): seq<Entry> {
    if inputs == [] then []
    else
      var last := inputs[|inputs| - 1];
      Dispatched(inputs[..|inputs| - 1], passOver)
      + if passOver && last.line == "" then [] else SentLines(last.effects)
  }

  /** What a tick says of its events, inputs and emits. */
  function SaidOf(f: Found): seq<Entry> {
    if f.carrierOk then EventLines(f.events) + Dispatched(f.inputs, true) + Dispatched(f.emits, false) else []
  }

  function SaidOfAll(ticks: seq<Found>): seq<Entry> {
    if ticks == [] then [] else SaidOfAll(ticks[..|ticks| - 1]) + SaidOf(ticks[|ticks| - 1])
  }

  function LoadOf(account: Option<string>): seq<Entry> {
    if account.Some? then [Load(account.value)] else []
  }

  function LineOf(line: Option<string>): seq<Entry> {
    if line.Some? then [Out(line.value)] else []
  }

  // ----- the error line -----

  /** When resolving fails, the line said instead of a theme reads back as an error with the
      failure's message. */
  lemma FailureReadsBack(message: string)
    ensures |Bundle(ResolveFailed(message))| == 1
    ensures var line := Bundle(ResolveFailed(message))[0];
            && Dispatch.TypeOf(line) == Some("http://resonator.network/v2/antenna#" + "Error")
            && exists body ::
                 && TurtleText.PropertyOf(line, "antenna:message") == Some(body)
                 && TurtleText.Unescape(body) == Some("ResolveActiveTheme failed: " + message)
  {
    FailureIsField(message);
    ErrorLines.ErrorRead(FAILURE + message);
    TurtleText.UnescapeEscaped(FAILURE + message);
  }

  lemma FailureIsField(message: string)
    ensures Bundle(ResolveFailed(message)) ==
            [ErrorLines.ErrorLine(FAILURE + message)]
  {
    TurtleText.DispatchEscapeIsSinglePass(message);
    TurtleText.EscapedConcat(FAILURE, message);
    FailureIsPlain();
    InOneField("[] a antenna:Error ; ", "antenna:message", FAILURE + TurtleText.Escaped(message), " .");
  }

  lemma InOneField(a: string, prop: string, body: string, b: string)
    ensures a + prop + " " + "\"" + body + "\"" + b == a + (prop + " " + "\"" + body + "\"") + b
  {
  }

  lemma FailureIsPlain()
    ensures TurtleText.Escaped(FAILURE) == FAILURE
  {
    FailureHasNothingToEscape();
    TurtleText.PlainIsItself(FAILURE);
  }

  lemma FailureHasNothingToEscape()
    ensures forall i | 0 <= i < |FAILURE| :: !TurtleText.NeedsEscape(FAILURE[i])
  {
  }

  // ----- each part of a tick -----

  lemma SaidSnoc(log: seq<Entry>, e: Entry)
    ensures Said(log + [e]) == Said(log) + if e.Out? || e.Load? then [e] else []
  {
    assert (log + [e])[..|log|] == log;
  }

  lemma {:induction false} SaidOuts(log: seq<Entry>, lines: seq<string>)
    ensures Said(log + Outs(lines)) == Said(log) + Outs(lines)
  {
    if lines == [] {
      assert log + Outs(lines) == log;
    } else {
      var n := |lines| - 1;
      SaidOuts(log, lines[..n]);
      OutsSnoc(log, lines);
      SaidSnoc(log + Outs(lines[..n]), Out(lines[n]));
      OutsSnoc(Said(log), lines);
    }
  }

  lemma OutsSnoc(log: seq<Entry>, lines: seq<string>)
    requires lines != []
    ensures log + Outs(lines) == log + Outs(lines[..|lines| - 1]) + [Out(lines[|lines| - 1])]
  {
  }

  lemma ArrivalSays(s: State, e: CarrierEvents.Event)
    ensures Said(Arrival(s, e).log) == Said(s.log) + [Out(CarrierEvents.Print(e))]
  {
    if CarrierEvents.IsMarked(e) {
      TakingSaysNothing(s, e);
      SaidSnoc(TakeExport(s, e).log, Out(CarrierEvents.Print(e)));
    } else {
      SaidSnoc(s.log, Out(CarrierEvents.Print(e)));
    }
  }

  lemma TakingSaysNothing(s: State, e: CarrierEvents.Event)
    ensures Said(TakeExport(s, e).log) == Said(s.log)
  {
    var id := Learned(s.accountId, e);
    SaidSnoc(s.log, Marked(e, s.accountId, id));
    if s.pendingExport.Some? {
      SaidSnoc(s.log + [Marked(e, s.accountId, id)], Exported(id, s.pendingExport.value));
    }
  }

  lemma LastEventSays(s: State, es: seq<CarrierEvents.Event>)
    requires es != []
    ensures Said(Events(s, es).log) ==
            Said(Events(s, es[..|es| - 1]).log) + [Out(CarrierEvents.Print(es[|es| - 1]))]
  {
    ArrivalSays(Events(s, es[..|es| - 1]), es[|es| - 1]);
  }

  lemma {:induction false} EventsSay(s: State, es: seq<CarrierEvents.Event>)
    ensures Said(Events(s, es).log) == Said(s.log) + EventLines(es)
  {
    if es == [] {
      assert Said(s.log) + [] == Said(s.log);
    } else {
      EventsSay(s, es[..|es| - 1]);
      LastEventSays(s, es);
      Regroup(Said(s.log), EventLines(es[..|es| - 1]), [Out(CarrierEvents.Print(es[|es| - 1]))]);
    }
  }

  lemma {:induction false} PerformingSays(s: State, effects: seq<Effect>)
    ensures Said(PerformAll(s, effects).log) == Said(s.log) + SentLines(effects)
  {
    if effects != [] {
      var n := |effects| - 1;
      var before := PerformAll(s, effects[..n]);
      PerformingSays(s, effects[..n]);
      match effects[n]
      case Send(line) => SaidSnoc(before.log, Out(line));
      case RequestExport(path) => SaidSnoc(before.log, Requested(path));
    }
  }

  lemma {:induction false} InputsSay(s: State, inputs: seq<Input>)
    ensures Said(Inputs(s, inputs).log) == Said(s.log) + Dispatched(inputs, true)
  {
    if inputs != [] {
      var n := |inputs| - 1;
      InputsSay(s, inputs[..n]);
      PerformingSays(Inputs(s, inputs[..n]), inputs[n].effects);
    }
  }

  lemma {:induction false} EmitsSay(s: State, emits: seq<Input>)
    ensures Said(Emits(s, emits).log) == Said(s.log) + Dispatched(emits, false)
  {
    if emits != [] {
      var n := |emits| - 1;
      EmitsSay(s, emits[..n]);
      PerformingSays(Emits(s, emits[..n]), emits[n].effects);
    }
  }

  lemma BootstrapSays(s: State)
    ensures Said(Bootstrap(s).log) == Said(s.log) + LineOf(s.bootstrapEmit)
  {
    if s.bootstrapEmit.Some? { SaidSnoc(s.log, Out(s.bootstrapEmit.value)); }
  }

  lemma RestSays(s: State, f: Found)
    ensures Said(Rest(s, f).log) == Said(s.log) + LineOf(s.bootstrapEmit) + SaidOf(f)
  {
    var s1 := Bootstrap(s);
    BootstrapSays(s);
    if f.carrierOk {
      var s2 := Events(s1, f.events);
      EventsSay(s1, f.events);
      InputsSay(s2, f.inputs);
      EmitsSay(Inputs(s2, f.inputs), f.emits);
      InFour(Said(s1.log), EventLines(f.events), Dispatched(f.inputs, true), Dispatched(f.emits, false));
    }
  }

  lemma InFour(a: seq<Entry>, b: seq<Entry>, c: seq<Entry>, d: seq<Entry>)
    ensures a + b + c + d == a + (b + c + d)
  {
  }

  lemma StartupSays(s: State, r: Resolution)
    requires !s.startupEmitted
    ensures Said(Startup(s, r).log) == Said(s.log) + Outs(Bundle(r)) + LoadOf(s.pendingLoad)
  {
    SaidOuts(s.log, Bundle(r));
    if s.pendingLoad.Some? { SaidSnoc(s.log + Outs(Bundle(r)), Load(s.pendingLoad.value)); }
  }

  // ----- whole runs -----

  /** The one-shots have been done. */
  predicate StartedUp(s: State) {
    s.startupEmitted && s.bootstrapEmit == None && s.pendingLoad == None
  }

  lemma {:induction false} EventsKeepStarted(s: State, es: seq<CarrierEvents.Event>)
    requires StartedUp(s)
    ensures StartedUp(Events(s, es))
  {
    if es != [] { EventsKeepStarted(s, es[..|es| - 1]); }
  }

  lemma {:induction false} PerformingKeepsStarted(s: State, effects: seq<Effect>)
    requires StartedUp(s)
    ensures StartedUp(PerformAll(s, effects))
  {
    if effects != [] { PerformingKeepsStarted(s, effects[..|effects| - 1]); }
  }

  lemma {:induction false} InputsKeepStarted(s: State, inputs: seq<Input>)
    requires StartedUp(s)
    ensures StartedUp(Inputs(s, inputs))
  {
    if inputs != [] {
      var n := |inputs| - 1;
      InputsKeepStarted(s, inputs[..n]);
      PerformingKeepsStarted(Inputs(s, inputs[..n]), inputs[n].effects);
    }
  }

  lemma {:induction false} EmitsKeepStarted(s: State, emits: seq<Input>)
    requires StartedUp(s)
    ensures StartedUp(Emits(s, emits))
  {
    if emits != [] {
      var n := |emits| - 1;
      EmitsKeepStarted(s, emits[..n]);
      PerformingKeepsStarted(Emits(s, emits[..n]), emits[n].effects);
    }
  }

  lemma RestStarts(s: State, f: Found)
    requires s.startupEmitted && s.pendingLoad == None
    ensures StartedUp(Rest(s, f))
  {
    var s1 := Bootstrap(s);
    if f.carrierOk {
      EventsKeepStarted(s1, f.events);
      InputsKeepStarted(Events(s1, f.events), f.inputs);
      EmitsKeepStarted(Inputs(Events(s1, f.events), f.inputs), f.emits);
    }
  }

  /** The theme bundle, the deferred account and the bootstrap line. */
  function OneShots(s: State, r: Resolution): seq<Entry> {
    Outs(Bundle(r)) + LoadOf(s.pendingLoad) + LineOf(s.bootstrapEmit)
  }

  lemma FirstTickSays(s: State, f: Found)
    requires IsInitial(s)
    ensures Said(Turn(s, f).log) == OneShots(s, f.resolution) + SaidOf(f) && StartedUp(Turn(s, f))
  {
    var s1 := Startup(s, f.resolution);
    StartupSays(s, f.resolution);
    FromNothing(Outs(Bundle(f.resolution)), LoadOf(s.pendingLoad));
    RestSays(s1, f);
    RestStarts(s1, f);
  }

  lemma FromNothing(a: seq<Entry>, b: seq<Entry>)
    ensures Said([]) + a + b == a + b
  {
  }

  lemma LaterTickSays(s: State, f: Found)
    requires StartedUp(s)
    ensures Said(Turn(s, f).log) == Said(s.log) + SaidOf(f) && StartedUp(Turn(s, f))
  {
    RestSays(s, f);
    RestStarts(s, f);
    assert Said(s.log) + [] == Said(s.log);
  }

  /** The output of a whole run: the theme bundle, the deferred account, the bootstrap line, each
      once and in this order, then tick by tick the events, the answers to input and the answers
      to script emits; nothing from a tick whose carrier failed, except these one-shots. */
  lemma {:induction false} RunSays(s: State, ticks: seq<Found>)
    requires IsInitial(s) && ticks != []
    ensures Said(Run(s, ticks).log) == OneShots(s, ticks[0].resolution) + SaidOfAll(ticks)
    ensures StartedUp(Run(s, ticks))
  {
    var n := |ticks| - 1;
    if n == 0 {
      FirstTickSays(s, ticks[0]);
      OneTick(s, ticks);
    } else {
      RunSays(s, ticks[..n]);
      LaterTickSays(Run(s, ticks[..n]), ticks[n]);
      Regroup(OneShots(s, ticks[0].resolution), SaidOfAll(ticks[..n]), SaidOf(ticks[n]));
    }
  }

  lemma OneTick(s: State, ticks: seq<Found>)
    requires |ticks| == 1
    ensures Run(s, ticks) == Turn(s, ticks[0]) && SaidOfAll(ticks) == SaidOf(ticks[0])
  {
    assert ticks[..0] == [];
    assert SaidOfAll([]) + SaidOf(ticks[0]) == SaidOf(ticks[0]);
  }

  lemma Regroup(a: seq<Entry>, b: seq<Entry>, c: seq<Entry>)
    ensures a + b + c == a + (b + c)
  {
  }
}
