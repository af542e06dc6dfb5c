/** The WebSocket forwarder (`ws.rs`): outgoing messages go to whichever client is connected.

    The accept thread serves one client at a time and announces each on a registration queue;
    the forwarder thread takes registrations and messages from their queues in its loop. The
    clients are numbered in the order in which they register. */
module WsForwarder {
  import opened Options

  /** A message, with the number of clients registered when it was queued, and how many of
      those registrations the forwarder had not taken by then. */
  datatype Message = Message(text: string, stamp: nat, pending: nat)

  datatype Outcome = Delivered(client: nat) | ClientGone(client: nat) | NoClient

  /** Where the forwarder is in its loop: at the top, waiting for a message, holding one, or
      holding one with the registrations looked at again. */
  datatype Phase = Top | Waiting | Holding | Rechecked

  /** The registration queue holds the clients from `taken` up to `registered`; the outgoing
      queue holds the messages from `received` on. */
  datatype State = State(
    registered: nat, taken: nat, gone: set<nat>, inboxes: seq<seq<string>>,
    sent: seq<Message>, received: nat,
    current: Option<nat>, phase: Phase, outcomes: seq<Outcome>)

  const START := State(0, 0, {}, [], [], 0, None, Top, [])

  datatype Event = Register | Disconnect | Enqueue(text: string)

  datatype Step = Others(event: Event) | TakeAtTop | Timeout | Receive | Recheck | Forward

  /** Is the client that registered last still there? Only it can be. */
  predicate Connected(s: State) {
    s.registered > 0 && s.registered - 1 !in s.gone
  }

  /** What the accept thread and the worker do. A client waits for the one before it to go. */
  function Happens(s: State, e: Event): State {
    match e
    case Register =>
      if Connected(s) then s
      else s.(registered := s.registered + 1, inboxes := s.inboxes + [[]])
    case Disconnect => if Connected(s) then s.(gone := s.gone + {s.registered - 1}) else s
    case Enqueue(text) => s.(sent := s.sent + [Message(text, s.registered, Pending(s))])
  }

  function Pending(s: State): nat {
    if s.taken <= s.registered then s.registered - s.taken else 0
  }

  /** `try_recv` on the registration queue. */
  function TakeRegistration(s: State): State {
    if s.taken < s.registered then s.(current := Some(s.taken), taken := s.taken + 1) else s
  }

  predicate Enabled(s: State, step: Step) {
    match step
    case Others(_) => true
    case TakeAtTop => s.phase == Top
    case Timeout => s.phase == Waiting && s.received >= |s.sent|
    case Receive => s.phase == Waiting && s.received < |s.sent|
    case Recheck => s.phase == Holding
    case Forward =>
      && s.phase == Rechecked && 0 < s.received <= |s.sent|
      && (s.current.Some? ==> s.current.value < |s.inboxes|)
  }

  function Apply(s: State, step: Step): State
    requires Enabled(s, step)
  {
    match step
    case Others(e) => Happens(s, e)
    case TakeAtTop => TakeRegistration(s).(phase := Waiting)
    case Timeout => s.(phase := Top)
    case Receive => s.(received := s.received + 1, phase := Holding)
    case Recheck => TakeRegistration(s).(phase := Rechecked)
    case Forward => Forwarded(s).(phase := Top)
  }

  /** Sending to a client that has gone fails and makes the forwarder forget it. */
  function Forwarded(s: State): State
    requires 0 < s.received <= |s.sent|
    requires s.current.Some? ==> s.current.value < |s.inboxes|
  {
    match s.current
    case None => s.(outcomes := s.outcomes + [NoClient])
    case Some(c) =>
      if c in s.gone then s.(current := None, outcomes := s.outcomes + [ClientGone(c)])
      else
        var text := s.sent[s.received - 1].text;
        s.(inboxes := s.inboxes[c := s.inboxes[c] + [text]], outcomes := s.outcomes + [Delivered(c)])
  }

  // ----- the invariant -----

  /** The messages given to a client, in the order they were queued. */
  function Given(sent: seq<Message>, outcomes: seq<Outcome>, client: nat): seq<string>
    requires |outcomes| <= |sent|
  {
    if outcomes == [] then []
    else
      var n := |outcomes| - 1;
      Given(sent, outcomes[..n], client) + if outcomes[n] == Delivered(client) then [sent[n].text] else []
  }

  ghost predicate ClientsOk(s: State) {
    && s.taken <= s.registered == |s.inboxes|
    && (forall c: nat | c + 1 < s.registered :: c in s.gone)
    && (s.current.Some? ==> s.taken > 0 && s.current.value == s.taken - 1)
    && (s.current.None? ==> s.taken == 0 || s.taken - 1 in s.gone)
  }

  predicate InHand(s: State) {
    s.phase == Holding || s.phase == Rechecked
  }

  /** How far the registrations were taken when a message was queued is how far they are
      taken now, at least; and one further, or all of them, once the look after its receipt
      is over. */
  ghost predicate MessagesOk(s: State) {
    && |s.outcomes| + (if InHand(s) then 1 else 0) == s.received <= |s.sent|
    && (forall i | 0 <= i < |s.sent| ::
          s.sent[i].pending <= s.sent[i].stamp <= s.registered && s.sent[i].stamp - s.sent[i].pending <= s.taken)
    && (s.phase == Rechecked ==>
          var m := s.sent[s.received - 1]; s.taken >= m.stamp || s.taken > m.stamp - m.pending)
  }

  ghost predicate InboxesOk(s: State) {
    && |s.outcomes| <= |s.sent|
    && forall c: nat | c < |s.inboxes| :: s.inboxes[c] == Given(s.sent, s.outcomes, c)
  }

  /** A message goes to the client it was queued for, unless that client has gone; never to an
      earlier one. */
  ghost predicate OutcomeOk(s: State, m: Message, o: Outcome) {
    && (o.Delivered? ==> m.stamp <= o.client + 1 <= s.registered)
    && (m.stamp > 0 && m.pending <= 1 && m.stamp - 1 !in s.gone ==> o == Delivered(m.stamp - 1))
  }

  ghost predicate OutcomesOk(s: State) {
    && |s.outcomes| <= |s.sent|
    && forall i | 0 <= i < |s.outcomes| :: OutcomeOk(s, s.sent[i], s.outcomes[i])
  }

  ghost predicate Inv(s: State) {
    ClientsOk(s) && MessagesOk(s) && InboxesOk(s) && OutcomesOk(s)
  }

  lemma {:induction false} GivenLonger(sent: seq<Message>, m: Message, outcomes: seq<Outcome>, client: nat)
    requires |outcomes| <= |sent|
    ensures Given(sent + [m], outcomes, client) == Given(sent, outcomes, client)
  {
    if outcomes != [] { GivenLonger(sent, m, outcomes[..|outcomes| - 1], client); }
  }

  lemma GivenSnoc(sent: seq<Message>, outcomes: seq<Outcome>, o: Outcome, client: nat)
    requires |outcomes| < |sent|
    ensures Given(sent, outcomes + [o], client) ==
            Given(sent, outcomes, client) + if o == Delivered(client) then [sent[|outcomes|].text] else []
  {
    assert (outcomes + [o])[..|outcomes|] == outcomes;
  }

  lemma {:induction false} GivenNobody(sent: seq<Message>, outcomes: seq<Outcome>, client: nat)
    requires |outcomes| <= |sent|
    requires forall i | 0 <= i < |outcomes| :: outcomes[i] != Delivered(client)
    ensures Given(sent, outcomes, client) == []
  {
    if outcomes != [] { GivenNobody(sent, outcomes[..|outcomes| - 1], client); }
  }

  lemma HappensKeeps(s: State, e: Event)
    requires Inv(s)
    ensures Inv(Happens(s, e))
  {
    HappensInboxes(s, e);
    var s' := Happens(s, e);
    forall i | 0 <= i < |s'.outcomes| ensures OutcomeOk(s', s'.sent[i], s'.outcomes[i]) {
      assert OutcomeOk(s, s.sent[i], s.outcomes[i]);
    }
  }

  lemma HappensInboxes(s: State, e: Event)
    requires InboxesOk(s) && OutcomesOk(s) && |s.inboxes| == s.registered
    ensures InboxesOk(Happens(s, e))
  {
    var s' := Happens(s, e);
    forall c: nat | c < |s'.inboxes| ensures s'.inboxes[c] == Given(s'.sent, s'.outcomes, c) {
      if e.Enqueue? {
        GivenLonger(s.sent, s'.sent[|s.sent|], s.outcomes, c);
      } else if c == |s.inboxes| {
        assert forall i | 0 <= i < |s.outcomes| :: OutcomeOk(s, s.sent[i], s.outcomes[i]);
        GivenNobody(s.sent, s.outcomes, c);
      }
    }
  }

  lemma ForwardOutcome(s: State)
    requires Inv(s) && Enabled(s, Forward)
    ensures var o := Forwarded(s).outcomes;
            |o| == |s.outcomes| + 1 == s.received && OutcomeOk(s, s.sent[|s.outcomes|], o[|s.outcomes|])
  {
  }

  lemma ForwardInboxes(s: State)
    requires InboxesOk(s) && Enabled(s, Forward) && |s.outcomes| + 1 == s.received
    ensures InboxesOk(Forwarded(s))
  {
    var s' := Forwarded(s);
    forall c: nat | c < |s'.inboxes| ensures s'.inboxes[c] == Given(s'.sent, s'.outcomes, c) {
      GivenSnoc(s.sent, s.outcomes, s'.outcomes[|s.outcomes|], c);
    }
  }

  lemma ForwardKeeps(s: State)
    requires Inv(s) && Enabled(s, Forward)
    ensures Inv(Apply(s, Forward))
  {
    var s' := Apply(s, Forward);
    ForwardOutcome(s);
    ForwardInboxes(s);
    forall i | 0 <= i < |s'.outcomes| ensures OutcomeOk(s', s'.sent[i], s'.outcomes[i]) {
      if i < |s.outcomes| { assert OutcomeOk(s, s.sent[i], s.outcomes[i]); }
    }
  }

  lemma LoopKeeps(s: State, step: Step)
    requires Inv(s) && Enabled(s, step) && !step.Others? && !step.Forward?
    ensures Inv(Apply(s, step))
  {
    var s' := Apply(s, step);
    forall i | 0 <= i < |s'.outcomes| ensures OutcomeOk(s', s'.sent[i], s'.outcomes[i]) {
      assert OutcomeOk(s, s.sent[i], s.outcomes[i]);
    }
  }

  // ----- whole runs -----

  ghost predicate IsRun(states: seq<State>, steps: seq<Step>) {
    && |states| == |steps| + 1
    && states[0] == START
    && forall i | 0 <= i < |steps| ::
         Enabled(states[i], steps[i]) && states[i + 1] == Apply(states[i], steps[i])
  }

  lemma {:induction false} RunInv(states: seq<State>, steps: seq<Step>, i: nat)
    requires IsRun(states, steps) && i < |states|
    ensures Inv(states[i])
  {
    if i > 0 {
      var step := steps[i - 1];
      RunInv(states, steps, i - 1);
      assert Enabled(states[i - 1], step);
      match step
      case Others(e) => HappensKeeps(states[i - 1], e);
      case Forward => ForwardKeeps(states[i - 1]);
      case _ => LoopKeeps(states[i - 1], step);
    }
  }

  /** A message queued while at most one registration is pending reaches the client that is
      connected then, unless that client goes away. */
  lemma ReachesTheConnectedClient(states: seq<State>, steps: seq<Step>, n: nat, i: nat)
    requires IsRun(states, steps) && n < |states| && i < |states[n].outcomes| <= |states[n].sent|
    requires states[n].sent[i].stamp > 0 && states[n].sent[i].pending <= 1
    requires states[n].sent[i].stamp - 1 !in states[n].gone
    ensures states[n].outcomes[i] == Delivered(states[n].sent[i].stamp - 1)
  {
    RunInv(states, steps, n);
    assert OutcomeOk(states[n], states[n].sent[i], states[n].outcomes[i]);
  }

  /** No message is ever given to a client earlier than the one registered last when it was
      queued. */
  lemma NeverToAnEarlierClient(states: seq<State>, steps: seq<Step>, n: nat, i: nat)
    requires IsRun(states, steps) && n < |states| && i < |states[n].outcomes| <= |states[n].sent|
    requires states[n].outcomes[i].Delivered?
    ensures states[n].outcomes[i].client + 1 >= states[n].sent[i].stamp
  {
    RunInv(states, steps, n);
    assert OutcomeOk(states[n], states[n].sent[i], states[n].outcomes[i]);
  }

  /** Whether a message about to be forwarded gets through: exactly when a client is connected
      and the forwarder has taken its registration. */
  lemma GetsThroughIff(states: seq<State>, steps: seq<Step>, n: nat)
    requires IsRun(states, steps) && n < |steps| && steps[n] == Forward
    ensures |states[n + 1].outcomes| == |states[n].outcomes| + 1
    ensures states[n + 1].outcomes[|states[n].outcomes|].Delivered? <==>
              Connected(states[n]) && states[n].taken == states[n].registered
  {
    RunInv(states, steps, n);
    assert Enabled(states[n], steps[n]);
  }

  /** How often the forwarder will still look at the registrations before it forwards message
      `i`: twice a message, less the looks already made for the one it is on. */
  function Looks(s: State, i: nat): int {
    2 * (i + 1 - s.received)
    + match s.phase
      case Waiting => -1
      case Holding => 1
      case _ => 0
  }

  /** Nobody comes or goes in this step. */
  predicate Settled(step: Step) {
    step != Others(Register) && step != Others(Disconnect)
  }

  lemma LooksStep(s: State, step: Step, i: nat)
    requires Inv(s) && Enabled(s, step) && Settled(step)
    requires |s.outcomes| <= i < |s.sent|
    ensures var s' := Apply(s, step);
            && s'.registered == s.registered && s'.gone == s.gone
            && (|s'.outcomes| <= i ==> (Pending(s') <= Looks(s', i) <==> Pending(s) <= Looks(s, i)))
  {
  }

  lemma {:induction false} LooksRun(states: seq<State>, steps: seq<Step>, n: nat, p: nat, i: nat)
    requires IsRun(states, steps) && n <= p < |states|
    requires |states[p].outcomes| <= i < |states[n].sent|
    requires forall k | n <= k < p :: Settled(steps[k])
    ensures states[p].registered == states[n].registered && states[p].gone == states[n].gone
    ensures Pending(states[p]) <= Looks(states[p], i) <==> Pending(states[n]) <= Looks(states[n], i)
    decreases p
  {
    if n < p {
      var q := p - 1;
      assert Enabled(states[q], steps[q]) && states[p] == Apply(states[q], steps[q]);
      RunInv(states, steps, q);
      SentGrows(states, steps, n, q);
      LooksRun(states, steps, n, q, i);
      LooksStep(states[q], steps[q], i);
    }
  }

  lemma {:induction false} SentGrows(states: seq<State>, steps: seq<Step>, n: nat, p: nat)
    requires IsRun(states, steps) && n <= p < |states|
    ensures |states[n].sent| <= |states[p].sent|
    decreases p
  {
    if n < p {
      SentGrows(states, steps, n, p - 1);
      assert Enabled(states[p - 1], steps[p - 1]);
    }
  }

  /** What decides at queueing time: when nobody comes or goes until the message is forwarded, it
      gets through if and only if a client is connected and no more registrations are pending
      than the forwarder will look at before. From an idle wait it will look once. */
  lemma QueuedGetsThroughIff(states: seq<State>, steps: seq<Step>, n: nat, p: nat)
    requires IsRun(states, steps) && n < p < |steps|
    requires steps[n].Others? && steps[n].event.Enqueue?
    requires steps[p] == Forward && |states[p].outcomes| == |states[n].sent|
    requires forall k | n <= k < p :: Settled(steps[k])
    ensures |states[p + 1].outcomes| == |states[n].sent| + 1
    ensures states[p + 1].outcomes[|states[n].sent|].Delivered? <==>
              Connected(states[n]) && Pending(states[n]) <= Looks(states[n], |states[n].sent|)
  {
    var i := |states[n].sent|;
    assert Enabled(states[n], steps[n]) && states[n + 1] == Apply(states[n], steps[n]);
    assert Enabled(states[p], steps[p]);
    RunInv(states, steps, n);
    RunInv(states, steps, p);
    LooksRun(states, steps, n + 1, p, i);
    GetsThroughIff(states, steps, p);
    assert Looks(states[p], i) == 0;
  }

  /** The texts that were queued, in order. */
  function Queued(steps: seq<Step>): seq<string> {
    if steps == [] then []
    else
      Queued(steps[..|steps| - 1])
      + match steps[|steps| - 1] case Others(Enqueue(text)) => [text] case _ => []
  }

  ghost predicate SentAsQueued(sent: seq<Message>, texts: seq<string>) {
    |sent| == |texts| && forall k | 0 <= k < |texts| :: sent[k].text == texts[k]
  }

  lemma QueuedStep(s: State, step: Step, steps: seq<Step>)
    requires Enabled(s, step) && SentAsQueued(s.sent, Queued(steps))
    ensures SentAsQueued(Apply(s, step).sent, Queued(steps + [step]))
  {
    assert (steps + [step])[..|steps|] == steps;
  }

  /** The outgoing queue has taken the queued texts and nothing else. */
  lemma {:induction false} OutgoingIsQueued(states: seq<State>, steps: seq<Step>, n: nat)
    requires IsRun(states, steps) && n < |states|
    ensures SentAsQueued(states[n].sent, Queued(steps[..n]))
  {
    if n > 0 {
      OutgoingIsQueued(states, steps, n - 1);
      assert Enabled(states[n - 1], steps[n - 1]);
      QueuedStep(states[n - 1], steps[n - 1], steps[..n - 1]);
      assert steps[..n] == steps[..n - 1] + [steps[n - 1]];
    }
  }

  /** `order` picks the positions of `whole` that make up `part`, in increasing order. */
  ghost predicate Picks(part: seq<string>, whole: seq<string>, order: seq<nat>) {
    && |order| == |part|
    && (forall k | 0 <= k < |order| :: order[k] < |whole| && whole[order[k]] == part[k])
    && (forall k | 0 < k < |order| :: order[k - 1] < order[k])
  }

  lemma {:induction false} GivenInOrder(sent: seq<Message>, texts: seq<string>, outcomes: seq<Outcome>, client: nat)
    returns (order: seq<nat>)
    requires |outcomes| <= |sent| && SentAsQueued(sent, texts)
    ensures Picks(Given(sent, outcomes, client), texts, order)
    ensures forall k | 0 <= k < |order| :: order[k] < |outcomes|
  {
    if outcomes == [] {
      order := [];
    } else {
      var n := |outcomes| - 1;
      order := GivenInOrder(sent, texts, outcomes[..n], client);
      if outcomes[n] == Delivered(client) {
        PicksNext(Given(sent, outcomes[..n], client), texts, order, n);
        order := order + [n];
      }
    }
  }

  lemma PicksNext(part: seq<string>, whole: seq<string>, order: seq<nat>, n: nat)
    requires Picks(part, whole, order) && n < |whole|
    requires forall k | 0 <= k < |order| :: order[k] < n
    ensures Picks(part + [whole[n]], whole, order + [n])
  {
  }

  /** Each client receives a subsequence of the texts queued, in order. */
  lemma ReceivesSubsequence(states: seq<State>, steps: seq<Step>, n: nat, client: nat) returns (order: seq<nat>)
    requires IsRun(states, steps) && n < |states| && client < |states[n].inboxes|
    ensures Picks(states[n].inboxes[client], Queued(steps[..n]), order)
  {
    RunInv(states, steps, n);
    OutgoingIsQueued(states, steps, n);
    order := GivenInOrder(states[n].sent, Queued(steps[..n]), states[n].outcomes, client);
  }

  lemma RunSnoc(states: seq<State>, steps: seq<Step>, step: Step, next: State)
    requires IsRun(states, steps)
    requires Enabled(states[|steps|], step) && next == Apply(states[|steps|], step)
    ensures IsRun(states + [next], steps + [step])
  {
  }

  /** Two clients came while the forwarder waited, and the first has left. */
  lemma TwoCame() returns (states: seq<State>, steps: seq<Step>)
    ensures IsRun(states, steps)
    ensures states[|steps|] == State(2, 0, {0}, [[], []], [], 0, None, Waiting, [])
  {
    var s1 := START.(phase := Waiting);
    var s2 := s1.(registered := 1, inboxes := [[]]);
    var s3 := s2.(gone := {0});
    states, steps := [START, s1], [TakeAtTop];
    RunSnoc(states, steps, Others(Register), s2);
    RunSnoc(states + [s2], steps + [Others(Register)], Others(Disconnect), s3);
    states, steps := states + [s2] + [s3], steps + [Others(Register)] + [Others(Disconnect)];
    var s4 := s3.(registered := 2, inboxes := [[], []]);
    assert s3.inboxes + [[]] == [[], []];
    RunSnoc(states, steps, Others(Register), s4);
    states, steps := states + [s4], steps + [Others(Register)];
  }

  /** With two registrations pending, a message queued for a connected client can be lost. */
  lemma TwoPendingLoses(text: string) returns (states: seq<State>, steps: seq<Step>)
    ensures IsRun(states, steps)
    ensures var s := states[|steps|];
            Connected(s) && s.sent == [Message(text, 2, 2)] && s.outcomes == [ClientGone(0)]
  {
    states, steps := TwoCame();
    var s := states[|steps|];
    var s1 := s.(sent := [Message(text, 2, 2)]);
    var s2 := s1.(received := 1, phase := Holding);
    assert s.sent + [Message(text, 2, 2)] == s1.sent;
    RunSnoc(states, steps, Others(Enqueue(text)), s1);
    RunSnoc(states + [s1], steps + [Others(Enqueue(text))], Receive, s2);
    states, steps := states + [s1] + [s2], steps + [Others(Enqueue(text))] + [Receive];
    var s3 := s2.(current := Some(0), taken := 1, phase := Rechecked);
    var s4 := s3.(current := None, outcomes := [ClientGone(0)], phase := Top);
    RunSnoc(states, steps, Recheck, s3);
    RunSnoc(states + [s3], steps + [Recheck], Forward, s4);
    states, steps := states + [s3] + [s4], steps + [Recheck] + [Forward];
  }

  // ----- the loop as it runs -----

  function Meanwhile(events: seq<Event>): seq<Step> {
    seq(|events|, i requires 0 <= i < |events| => Others(events[i]))
  }

  /** One way round the loop, with what the other threads do while it waits for a message,
      before it looks at the registrations again, and before it forwards. */
  function TurnSteps(first: seq<Event>, got: bool, second: seq<Event>, third: seq<Event>): seq<Step> {
    [TakeAtTop] + Meanwhile(first)
    + if got then HandOnSteps(second, third) else [Timeout]
  }

  function HandOnSteps(second: seq<Event>, third: seq<Event>): seq<Step> {
    [Receive] + Meanwhile(second) + [Recheck] + Meanwhile(third) + [Forward]
  }

  lemma Regroup(a: seq<Step>, b: seq<Step>, c: seq<Step>, d: seq<Step>)
    ensures a + b + c + d == a + (b + c + d)
  {
  }

  /** The forwarder and its queues, with the run of the machine that they have made. */
  class Forwarder {
    var registered: nat
    var taken: nat
    var gone: set<nat>
    var inboxes: seq<seq<string>>
    var sent: seq<Message>
    var received: nat
    var current: Option<nat>
    var outcomes: seq<Outcome>
    ghost var phase: Phase
    ghost var states: seq<State>
    ghost var steps: seq<Step>

    ghost function Value(): State
      reads this
    {
      State(registered, taken, gone, inboxes, sent, received, current, phase, outcomes)
    }

    ghost predicate Valid()
      reads this
    {
      IsRun(states, steps) && states[|steps|] == Value()
    }

    constructor ()
      ensures Valid() && phase == Top && steps == []
    {
      registered, taken, gone, inboxes := 0, 0, {}, [];
      sent, received, current, outcomes, phase := [], 0, None, [], Top;
      states, steps := [START], [];
    }

    ghost method Record(step: Step)
      requires IsRun(states, steps)
      requires Enabled(states[|steps|], step) && Value() == Apply(states[|steps|], step)
      modifies this`states, this`steps
      ensures Valid() && steps == old(steps) + [step]
    {
      RunSnoc(states, steps, step, Value());
      states, steps := states + [Value()], steps + [step];
    }

    /** `try_recv` on the registration queue, at the top or after a message. */
    method Take(ghost step: Step)
      requires Valid() && Enabled(Value(), step) && (step == TakeAtTop || step == Recheck)
      modifies this`taken, this`current, this`phase, this`states, this`steps
      ensures Valid() && steps == old(steps) + [step]
      ensures phase == if step == Recheck then Rechecked else Waiting
    {
      if taken < registered {
        current := Some(taken);
        taken := taken + 1;
      }
      phase := if step == Recheck then Rechecked else Waiting;
      Record(step);
    }

    /** What the other threads do in the meantime. */
    method Elapse(events: seq<Event>)
      requires Valid()
      modifies this`registered, this`gone, this`inboxes, this`sent, this`states, this`steps
      ensures Valid() && steps == old(steps) + Meanwhile(events)
      ensures old(sent) <= sent
    {
      for i := 0 to |events|
        invariant Valid() && steps == old(steps) + Meanwhile(events[..i])
        invariant old(sent) <= sent
      {
        RunInv(states, steps, |steps|);
        assert Meanwhile(events[..i + 1]) == Meanwhile(events[..i]) + [Others(events[i])];
        One(events[i]);
        Record(Others(events[i]));
      }
      assert events[..|events|] == events;
    }

    method One(e: Event)
      requires taken <= registered
      modifies this`registered, this`gone, this`inboxes, this`sent
      ensures Value() == Happens(old(Value()), e)
    {
      var connected := registered > 0 && registered - 1 !in gone;
      match e
      case Register =>
        if !connected {
          registered := registered + 1;
          inboxes := inboxes + [[]];
        }
      case Disconnect =>
        if connected {
          gone := gone + {registered - 1};
        }
      case Enqueue(text) =>
        sent := sent + [Message(text, registered, registered - taken)];
    }

    method SendOn()
      requires Valid() && phase == Rechecked
      modifies this`inboxes, this`current, this`outcomes, this`phase, this`states, this`steps
      ensures Valid() && phase == Top && steps == old(steps) + [Forward]
    {
      RunInv(states, steps, |steps|);
      match current {
        case None =>
          outcomes := outcomes + [NoClient];
        case Some(c) =>
          if c in gone {
            current := None;
            outcomes := outcomes + [ClientGone(c)];
          } else {
            inboxes := inboxes[c := inboxes[c] + [sent[received - 1].text]];
            outcomes := outcomes + [Delivered(c)];
          }
      }
      phase := Top;
      Record(Forward);
    }

    method Turn(first: seq<Event>, second: seq<Event>, third: seq<Event>) returns (got: bool)
      requires Valid() && phase == Top
      modifies this
      ensures Valid() && phase == Top
      ensures steps == old(steps) + TurnSteps(first, got, second, third)
      ensures received == old(received) + if got then 1 else 0
    {
      ghost var before := steps;
      Take(TakeAtTop);
      Elapse(first);
      got := received < |sent|;
      if !got {
        GiveUp();
      } else {
        HandOn(second, third);
      }
      Regroup(before, [TakeAtTop], Meanwhile(first), if got then HandOnSteps(second, third) else [Timeout]);
    }

    /** Take a message, look at the registrations again, forward. */
    method HandOn(second: seq<Event>, third: seq<Event>)
      requires Valid() && phase == Waiting && received < |sent|
      modifies this
      ensures Valid() && phase == Top && received == old(received) + 1
      ensures steps == old(steps) + HandOnSteps(second, third)
    {
      ghost var before := steps;
      ReceiveOne();
      Elapse(second);
      Take(Recheck);
      Elapse(third);
      SendOn();
      Regroup(before, [Receive], Meanwhile(second), [Recheck]);
      Regroup(before, [Receive] + Meanwhile(second) + [Recheck], Meanwhile(third), [Forward]);
    }

    /** `recv_timeout` ran out: back to the top. */
    method GiveUp()
      requires Valid() && phase == Waiting && received >= |sent|
      modifies this`phase, this`states, this`steps
      ensures Valid() && phase == Top && steps == old(steps) + [Timeout]
    {
      phase := Top;
      Record(Timeout);
    }

    method ReceiveOne()
      requires Valid() && phase == Waiting && received < |sent|
      modifies this`received, this`phase, this`states, this`steps
      ensures Valid() && phase == Holding && received == old(received) + 1
      ensures steps == old(steps) + [Receive]
    {
      received := received + 1;
      phase := Holding;
      Record(Receive);
    }
  }
}
