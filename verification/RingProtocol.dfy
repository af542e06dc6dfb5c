/** The same ring under concurrency: one producer thread inside `push` and one consumer
    thread inside `pop`, interleaved at every load, single-byte access and publish.

    A counter loaded from the other side may be stale. The producer may read any tail
    between the last one it saw and the current one; the consumer may read any head that
    was ever published since its own tail. */
module RingProtocol {
  import opened Words
  import opened Framing
  import opened RingSlots

  /** Where the producer is inside `push`. */
  datatype Producer =
    | PIdle
    | PLoaded(data: Message, head: u32)
    | PWriting(data: Message, head: u32, i: nat)

  /** Where the consumer is inside `pop`. */
  datatype Consumer =
    | CIdle
    | CLoaded(tail: u32)
    | CLength(tail: u32, bytes: seq<byte>)
    | CData(tail: u32, len: u32, bytes: seq<byte>)

  /** The shared memory, the two program counters, and the history of the run: the messages
      published and delivered so far, and the tail position the producer last saw. */
  datatype State = State(
    buf: seq<byte>, head: u32, tail: u32,
    prod: Producer, cons: Consumer,
    pushed: seq<Message>, popped: seq<seq<byte>>, seenTail: nat)

  datatype Step =
    | BeginPush(data: Message)
    | LoadTail(view: nat)
    | WriteByte
    | PublishHead
    | BeginPop
    | LoadHead(k: nat)
    | ReadLengthByte
    | ReadDataByte
    | PublishTail

  predicate Init(s: State) {
    && 0 < |s.buf| < MODULUS
    && MODULUS % |s.buf| == 0
    && s.head == 0 && s.tail == 0
    && s.prod == PIdle && s.cons == CIdle
    && s.pushed == [] && s.popped == [] && s.seenTail == 0
  }

  predicate Next(s: State, s': State, step: Step)
    requires 0 < |s.buf| < MODULUS
  {
    var cap := |s.buf|;
    match step
    case BeginPush(data) =>
      && s.prod == PIdle
      && s' == s.(prod := PLoaded(data, s.head))
    case LoadTail(view) =>
      && s.prod.PLoaded?
      && s.seenTail <= view <= |Stream(s.pushed)|
      && (|s.popped| <= |s.pushed| ==> view <= |Stream(s.pushed[..|s.popped|])|)
      && s' == if WrapAdd(Truncate(|s.prod.data|), 4) > cap - WrapSub(s.prod.head, view % MODULUS)
               then s.(prod := PIdle, seenTail := view)
               else s.(prod := PWriting(s.prod.data, s.prod.head, 0), seenTail := view)
    case WriteByte =>
      && s.prod.PWriting? && s.prod.i < 4 + |s.prod.data|
      && s' == s.(buf := s.buf[Slot(s.prod.head, s.prod.i, cap) := Frame(s.prod.data)[s.prod.i]],
                  prod := s.prod.(i := s.prod.i + 1))
    case PublishHead =>
      && s.prod.PWriting? && s.prod.i == 4 + |s.prod.data|
      && s' == s.(head := WrapAdd(s.prod.head, 4 + |s.prod.data|), prod := PIdle,
                  pushed := s.pushed + [s.prod.data])
    case BeginPop =>
      && s.cons == CIdle
      && s' == s.(cons := CLoaded(s.tail))
    case LoadHead(k) =>
      && s.cons.CLoaded?
      && |s.popped| <= k <= |s.pushed|
      && s' == if s.cons.tail == |Stream(s.pushed[..k])| % MODULUS
               then s.(cons := CIdle)
               else s.(cons := CLength(s.cons.tail, []))
    case ReadLengthByte =>
      && s.cons.CLength?
      && var bytes := s.cons.bytes + [s.buf[Slot(s.cons.tail, |s.cons.bytes|, cap)]];
      s' == if |bytes| == 4
            then s.(cons := CData(s.cons.tail, FromLittleEndian(bytes), []))
            else s.(cons := CLength(s.cons.tail, bytes))
    case ReadDataByte =>
      && s.cons.CData? && |s.cons.bytes| < s.cons.len
      && var b := s.buf[Slot(s.cons.tail, 4 + |s.cons.bytes|, cap)];
      s' == s.(cons := CData(s.cons.tail, s.cons.len, s.cons.bytes + [b]))
    case PublishTail =>
      && s.cons.CData? && |s.cons.bytes| == s.cons.len
      && s' == s.(tail := WrapAdd(s.cons.tail, 4 + s.cons.len), cons := CIdle,
                  popped := s.popped + [s.cons.bytes])
  }

  // ----- the invariant -----

  /** How many bytes the consumer has given back, over the whole run. */
  function Tail(s: State): nat
    requires |s.popped| <= |s.pushed|
  {
    |Stream(s.pushed[..|s.popped|])|
  }

  /** How many bytes the producer has published, over the whole run. */
  function Head(s: State): nat {
    |Stream(s.pushed)|
  }

  /** The messages in flight. */
  function Queue(s: State): seq<Message>
    requires |s.popped| <= |s.pushed|
  {
    s.pushed[|s.popped|..]
  }

  ghost predicate Counters(s: State) {
    && 0 < |s.buf| < MODULUS
    && MODULUS % |s.buf| == 0
    && |s.popped| <= |s.pushed|
    && s.popped == s.pushed[..|s.popped|]
    && s.head == Head(s) % MODULUS
    && s.tail == Tail(s) % MODULUS
    && s.seenTail <= Tail(s) <= Head(s) <= s.seenTail + |s.buf|
  }

  /** Every published, unread byte is where the consumer will look for it. */
  ghost predicate Resident(s: State)
    requires Counters(s)
  {
    forall p | Tail(s) <= p < Head(s) :: s.buf[p % |s.buf|] == Stream(s.pushed)[p]
  }

  ghost predicate ProducerOk(s: State)
    requires Counters(s)
  {
    match s.prod
    case PIdle => true
    case PLoaded(_, h) => h == s.head
    case PWriting(data, h, i) =>
      && h == s.head
      && i <= 4 + |data|
      && Head(s) + 4 + |data| <= s.seenTail + |s.buf|
      && forall j | 0 <= j < i :: s.buf[(Head(s) + j) % |s.buf|] == Frame(data)[j]
  }

  ghost predicate ConsumerOk(s: State)
    requires Counters(s)
  {
    match s.cons
    case CIdle => true
    case CLoaded(t) => t == s.tail
    case CLength(t, bytes) =>
      && t == s.tail
      && Queue(s) != []
      && |bytes| < 4
      && bytes == Frame(Queue(s)[0])[..|bytes|]
    case CData(t, len, bytes) =>
      && t == s.tail
      && Queue(s) != []
      && len == |Queue(s)[0]|
      && |bytes| <= len
      && bytes == Queue(s)[0][..|bytes|]
  }

  ghost predicate Inv(s: State) {
    Counters(s) && Resident(s) && ProducerOk(s) && ConsumerOk(s)
  }

  lemma InitInv(s: State)
    requires Init(s)
    ensures Inv(s)
  {
  }

  // ----- what each thread's arithmetic means -----

  /** The slot of counter value `p mod 2^32`, `i` bytes on, is that of position `p + i`. */
  lemma SlotOfPosition(p: nat, i: nat, cap: nat)
    requires 0 < cap && MODULUS % cap == 0
    ensures Slot(p % MODULUS, i, cap) == (p + i) % cap
  {
    AddToPosition(p, i);
    ModOfMod(p + i, cap, MODULUS);
  }

  lemma AddToPosition(p: nat, n: nat)
    ensures WrapAdd(p % MODULUS, n) == (p + n) % MODULUS
  {
  }

  lemma DifferenceOfPositions(p: nat, q: nat)
    requires q <= p < q + MODULUS
    ensures WrapSub(p % MODULUS, q % MODULUS) == p - q
  {
  }

  /** The producer refuses exactly the messages that do not fit what it sees as free, and
      with an up-to-date tail that is what is free. */
  lemma RefusesIffFull(s: State, s': State, view: nat)
    requires Inv(s) && Next(s, s', LoadTail(view))
    ensures s'.prod == PIdle <==> Head(s) - view + 4 + |s.prod.data| > |s.buf|
    ensures view == Tail(s) && s'.prod == PIdle ==>
              |Stream(Queue(s))| + |Frame(s.prod.data)| > |s.buf|
  {
    DifferenceOfPositions(Head(s), view);
    TruncateSmall(|s.prod.data|, 4);
    StreamSplit(s.pushed, |s.popped|);
  }

  /** The consumer reports empty exactly when its view of the head shows no new message. */
  lemma EmptyIff(s: State, s': State, k: nat)
    requires Inv(s) && Next(s, s', LoadHead(k))
    ensures s'.cons == CIdle <==> k == |s.popped|
  {
    ViewIsTailIff(s.pushed, |s.popped|, k, |s.buf|);
  }

  lemma ViewIsTailIff(ms: seq<Message>, n: nat, k: nat, cap: nat)
    requires n <= k <= |ms| && cap < MODULUS
    requires |Stream(ms)| <= |Stream(ms[..n])| + cap
    ensures |Stream(ms[..k])| % MODULUS == |Stream(ms[..n])| % MODULUS <==> k == n
  {
    StreamSplit(ms, k);
    StreamSplit(ms[..k], n);
    assert ms[..k][..n] == ms[..n];
    DifferenceOfPositions(|Stream(ms[..k])|, |Stream(ms[..n])|);
  }

  // ----- every step keeps the invariant -----

  lemma LoadTailInv(s: State, s': State, view: nat)
    requires Inv(s) && Next(s, s', LoadTail(view))
    ensures Inv(s')
  {
    RefusesIffFull(s, s', view);
  }

  /** No unread or already written position shares the slot of the next byte. */
  lemma SlotIsFree(s: State, p: nat)
    requires Inv(s) && s.prod.PWriting? && s.prod.i < 4 + |s.prod.data|
    requires Tail(s) <= p < Head(s) + s.prod.i
    ensures p % |s.buf| != (Head(s) + s.prod.i) % |s.buf|
  {
    if p % |s.buf| == (Head(s) + s.prod.i) % |s.buf| { ModDistinct(p, Head(s) + s.prod.i, |s.buf|); }
  }

  lemma WriteByteResident(s: State, s': State)
    requires Inv(s) && Next(s, s', WriteByte)
    ensures Counters(s') && Resident(s')
  {
    SlotOfPosition(Head(s), s.prod.i, |s.buf|);
    forall p | Tail(s) <= p < Head(s) ensures s'.buf[p % |s.buf|] == s.buf[p % |s.buf|] {
      SlotIsFree(s, p);
    }
  }

  lemma WriteByteProducer(s: State, s': State)
    requires Inv(s) && Next(s, s', WriteByte) && Counters(s')
    ensures ProducerOk(s')
  {
    NextSlotIsFree(s);
    ByteLands(s, s');
    FrameGrows(s, s');
  }

  lemma ByteLands(s: State, s': State)
    requires Counters(s) && ProducerOk(s) && Next(s, s', WriteByte)
    ensures s'.buf == s.buf[(Head(s) + s.prod.i) % |s.buf| := Frame(s.prod.data)[s.prod.i]]
  {
    SlotOfPosition(Head(s), s.prod.i, |s.buf|);
  }

  lemma NextSlotIsFree(s: State)
    requires Inv(s) && s.prod.PWriting? && s.prod.i < 4 + |s.prod.data|
    ensures forall j | 0 <= j < s.prod.i :: Apart(Head(s), j, s.prod.i, |s.buf|)
  {
    forall j | 0 <= j < s.prod.i ensures Apart(Head(s), j, s.prod.i, |s.buf|) {
      SlotIsFree(s, Head(s) + j);
    }
  }

  lemma FrameGrows(s: State, s': State)
    requires Counters(s) && ProducerOk(s) && s.prod.PWriting? && s.prod.i < 4 + |s.prod.data|
    requires s' == s.(buf := s'.buf, prod := s.prod.(i := s.prod.i + 1)) && Counters(s')
    requires s'.buf == s.buf[(Head(s) + s.prod.i) % |s.buf| := Frame(s.prod.data)[s.prod.i]]
    requires forall j | 0 <= j < s.prod.i :: Apart(Head(s), j, s.prod.i, |s.buf|)
    ensures ProducerOk(s')
  {
    BytesWritten(s.buf, Head(s), Frame(s.prod.data), s.prod.i);
  }

  /** The positions `i` and `j` places on do not share a slot. */
  predicate Apart(p: nat, i: nat, j: nat, cap: nat)
    requires cap > 0
  {
    (p + i) % cap != (p + j) % cap
  }

  /** One more byte of a frame in its slot, none of the others touched. */
  lemma BytesWritten(buf: seq<byte>, head: nat, frame: seq<byte>, i: nat)
    requires buf != [] && i < |frame|
    requires forall j | 0 <= j < i :: buf[(head + j) % |buf|] == frame[j]
    requires forall j | 0 <= j < i :: Apart(head, j, i, |buf|)
    ensures var buf' := buf[(head + i) % |buf| := frame[i]];
            forall j | 0 <= j < i + 1 :: buf'[(head + j) % |buf|] == frame[j]
  {
    forall j | 0 <= j < i + 1 ensures buf[(head + i) % |buf| := frame[i]][(head + j) % |buf|] == frame[j] {
      if j < i { assert Apart(head, j, i, |buf|); }
    }
  }

  lemma WriteByteInv(s: State, s': State)
    requires Inv(s) && Next(s, s', WriteByte)
    ensures Inv(s')
  {
    WriteByteResident(s, s');
    WriteByteProducer(s, s');
  }

  lemma PublishHeadInv(s: State, s': State)
    requires Inv(s) && Next(s, s', PublishHead)
    ensures Inv(s')
  {
    var data := s.prod.data;
    StreamSnoc(s.pushed, data);
    assert s'.pushed[..|s.popped|] == s.pushed[..|s.popped|];
    AddToPosition(Head(s), 4 + |data|);
    assert Counters(s');
    NewFrameResident(s, s', data);
    if s.cons.CLength? || s.cons.CData? {
      assert Queue(s')[0] == Queue(s)[0];
    }
  }

  /** Once published, the frame just written is part of the unread bytes. */
  lemma NewFrameResident(s: State, s': State, data: Message)
    requires Counters(s) && Resident(s) && Counters(s')
    requires s'.buf == s.buf && Tail(s') == Tail(s)
    requires Stream(s'.pushed) == Stream(s.pushed) + Frame(data)
    requires forall j | 0 <= j < 4 + |data| :: s.buf[(Head(s) + j) % |s.buf|] == Frame(data)[j]
    ensures Resident(s')
  {
    forall p | Tail(s') <= p < Head(s')
      ensures s'.buf[p % |s'.buf|] == Stream(s'.pushed)[p]
    {
      if p >= Head(s) {
        var j := p - Head(s);
        assert s.buf[(Head(s) + j) % |s.buf|] == Frame(data)[j];
      }
    }
  }

  lemma LoadHeadInv(s: State, s': State, k: nat)
    requires Inv(s) && Next(s, s', LoadHead(k))
    ensures Inv(s')
  {
    EmptyIff(s, s', k);
    SameRing(s, s');
  }

  /** The byte `n` places after the tail is byte `n` of the oldest message's frame. */
  lemma ReadsFrame(s: State, n: nat)
    requires Counters(s) && Resident(s) && Queue(s) != []
    requires n < 4 + |Queue(s)[0]|
    ensures s.buf[Slot(s.tail, n, |s.buf|)] == Frame(Queue(s)[0])[n]
  {
    FrameAt(s.pushed, |s.popped|);
    SlotOfPosition(Tail(s), n, |s.buf|);
    OldestFrame(s, n);
  }

  /** The stream goes on, after what was delivered, with the oldest message's frame. */
  lemma OldestFrame(s: State, n: nat)
    requires Counters(s) && Queue(s) != [] && n < 4 + |Queue(s)[0]|
    ensures Tail(s) + n < Head(s) && Stream(s.pushed)[Tail(s) + n] == Frame(Queue(s)[0])[n]
  {
    FrameAt(s.pushed, |s.popped|);
    if n < 4 {
      assert Stream(s.pushed)[Tail(s)..Tail(s) + 4][n] == Stream(s.pushed)[Tail(s) + n];
    } else {
      assert Stream(s.pushed)[Tail(s) + 4..Tail(s) + 4 + |Queue(s)[0]|][n - 4] == Stream(s.pushed)[Tail(s) + n];
    }
  }

  lemma ReadLengthByteInv(s: State, s': State)
    requires Inv(s) && Next(s, s', ReadLengthByte)
    ensures Inv(s')
  {
    ReadsFrame(s, |s.cons.bytes|);
    LengthBytes(Queue(s)[0], s.cons.bytes + [s.buf[Slot(s.cons.tail, |s.cons.bytes|, |s.buf|)]]);
    SameRing(s, s');
  }

  /** A step of the consumer before it publishes leaves ring and producer as they are. */
  lemma SameRing(s: State, s': State)
    requires Counters(s) && Resident(s) && ProducerOk(s)
    requires s' == s.(cons := s'.cons)
    ensures Counters(s') && Resident(s') && ProducerOk(s') && Queue(s') == Queue(s)
  {
  }

  lemma LengthBytes(m: Message, bytes: seq<byte>)
    requires 1 <= |bytes| <= 4
    requires bytes[..|bytes| - 1] == Frame(m)[..|bytes| - 1] && bytes[|bytes| - 1] == Frame(m)[|bytes| - 1]
    ensures bytes == Frame(m)[..|bytes|]
    ensures |bytes| == 4 ==> FromLittleEndian(bytes) == |m|
  {
    LittleEndianRoundTrip(|m|);
    if |bytes| == 4 { assert Frame(m)[..4] == ToLittleEndian(|m|); }
  }

  lemma ReadDataByteInv(s: State, s': State)
    requires Inv(s) && Next(s, s', ReadDataByte)
    ensures Inv(s')
  {
    ReadsFrame(s, 4 + |s.cons.bytes|);
    SameRing(s, s');
  }

  lemma PublishTailInv(s: State, s': State)
    requires Inv(s) && Next(s, s', PublishTail)
    ensures Inv(s')
  {
    TailMoves(s, s');
    TailCounters(s, s');
    assert s'.cons == CIdle;
  }

  /** The tail moves past the frame of the oldest message, which has been read whole. */
  lemma TailMoves(s: State, s': State)
    requires Counters(s) && ConsumerOk(s) && Next(s, s', PublishTail)
    ensures |s'.popped| <= |s.pushed| && s'.popped == s.pushed[..|s'.popped|]
    ensures Tail(s') == Tail(s) + 4 + s.cons.len && Tail(s') <= Head(s)
    ensures s'.tail == Tail(s') % MODULUS
  {
    FrameAt(s.pushed, |s.popped|);
    AddToPosition(Tail(s), 4 + s.cons.len);
    assert s.cons.bytes == s.pushed[|s.popped|];
  }

  lemma TailCounters(s: State, s': State)
    requires Counters(s) && Resident(s) && ProducerOk(s)
    requires s' == s.(tail := s'.tail, cons := s'.cons, popped := s'.popped)
    requires |s'.popped| <= |s.pushed| && s'.popped == s.pushed[..|s'.popped|]
    requires Tail(s) <= Tail(s') <= Head(s) && s'.tail == Tail(s') % MODULUS
    ensures Counters(s') && Resident(s') && ProducerOk(s')
  {
  }

  lemma NextInv(s: State, s': State, step: Step)
    requires Inv(s) && Next(s, s', step)
    ensures Inv(s')
  {
    match step
    case BeginPush(_) =>
    case LoadTail(view) => LoadTailInv(s, s', view);
    case WriteByte => WriteByteInv(s, s');
    case PublishHead => PublishHeadInv(s, s');
    case BeginPop =>
    case LoadHead(k) => LoadHeadInv(s, s', k);
    case ReadLengthByte => ReadLengthByteInv(s, s');
    case ReadDataByte => ReadDataByteInv(s, s');
    case PublishTail => PublishTailInv(s, s');
  }

  // ----- runs -----

  ghost predicate IsRun(states: seq<State>, steps: seq<Step>) {
    && |states| == |steps| + 1
    && Init(states[0])
    && forall i | 0 <= i < |steps| ::
         0 < |states[i].buf| < MODULUS && Next(states[i], states[i + 1], steps[i])
  }

  lemma {:induction false} RunInv(states: seq<State>, steps: seq<Step>)
    requires IsRun(states, steps)
    ensures forall i | 0 <= i < |states| :: Inv(states[i])
  {
    if steps == [] {
      InitInv(states[0]);
    } else {
      var n := |steps| - 1;
      RunInv(states[..n + 1], steps[..n]);
      assert Inv(states[..n + 1][n]);
      NextInv(states[n], states[n + 1], steps[n]);
      forall i | 0 <= i < |states| ensures Inv(states[i]) {
        if i <= n { assert Inv(states[..n + 1][i]); }
      }
    }
  }

  /** Safety over whole runs: whatever the interleaving, however stale the views and however
      often the counters wrap, the consumer has received exactly the first messages pushed,
      byte for byte and in order. */
  lemma DeliveredIsPrefix(states: seq<State>, steps: seq<Step>, i: nat)
    requires IsRun(states, steps) && i < |states|
    ensures |states[i].popped| <= |states[i].pushed|
    ensures states[i].popped == states[i].pushed[..|states[i].popped|]
  {
    RunInv(states, steps);
    assert Inv(states[i]);
  }

  /** Refinement: in any reachable state each step is a step of a FIFO queue. Publishing the
      head appends the message being pushed; publishing the tail removes the oldest message,
      and that is the one delivered; every other step leaves the queue alone. */
  lemma RefinesFifo(s: State, s': State, step: Step)
    requires Inv(s) && Next(s, s', step)
    ensures Inv(s')
    ensures step.PublishHead? ==> Queue(s') == Queue(s) + [s.prod.data] && s'.popped == s.popped
    ensures step.PublishTail? ==>
              && Queue(s) != [] && Queue(s') == Queue(s)[1..]
              && s'.popped == s.popped + [Queue(s)[0]]
    ensures !step.PublishHead? && !step.PublishTail? ==>
              Queue(s') == Queue(s) && s'.popped == s.popped && s'.pushed == s.pushed
  {
    NextInv(s, s', step);
  }

  // ----- regions -----

  /** The slots between tail and head, from the machine's own counters. */
  function Unread(s: State): set<nat>
    requires 0 < |s.buf|
  {
    set j: nat | 0 <= j < WrapSub(s.head, s.tail) :: Slot(s.tail, j, |s.buf|)
  }

  /** The slots the push in progress may still write. */
  function WriteRegion(s: State): set<nat>
    requires 0 < |s.buf|
  {
    if s.prod.PWriting?
    then set j: nat | s.prod.i <= j < 4 + |s.prod.data| :: Slot(s.prod.head, j, |s.buf|)
    else {}
  }

  /** The slots the pop in progress may still read: the rest of the length, then as many
      bytes as the length it has read or will read says. */
  function ReadRegion(s: State): set<nat>
    requires 0 < |s.buf| && |s.popped| <= |s.pushed|
  {
    match s.cons
    case CLength(t, bytes) =>
      var len := if Queue(s) == [] then 0 else |Queue(s)[0]|;
      set j: nat | |bytes| <= j < 4 + len :: Slot(t, j, |s.buf|)
    case CData(t, len, bytes) =>
      set j: nat | 4 + |bytes| <= j < 4 + len :: Slot(t, j, |s.buf|)
    case _ => {}
  }

  /** At every interleaving point the two threads work on disjoint bytes, and the counters
      bound the occupied part of the ring. */
  lemma RegionsDisjoint(states: seq<State>, steps: seq<Step>, i: nat)
    requires IsRun(states, steps) && i < |states|
    ensures Inv(states[i])
    ensures WrapSub(states[i].head, states[i].tail) <= |states[i].buf|
    ensures ReadRegion(states[i]) <= Unread(states[i])
    ensures WriteRegion(states[i]) !! Unread(states[i])
  {
    RunInv(states, steps);
    assert Inv(states[i]);
    var s := states[i];
    DifferenceOfPositions(Head(s), Tail(s));
    ReadsUnread(s);
    WritesFree(s);
  }

  lemma ReadsUnread(s: State)
    requires Inv(s)
    ensures ReadRegion(s) <= Unread(s)
  {
    DifferenceOfPositions(Head(s), Tail(s));
    if s.cons.CLength? || s.cons.CData? {
      FrameAt(s.pushed, |s.popped|);
    }
  }

  lemma WritesFree(s: State)
    requires Inv(s)
    ensures WriteRegion(s) !! Unread(s)
  {
    DifferenceOfPositions(Head(s), Tail(s));
    if s.prod.PWriting? {
      var cap := |s.buf|;
      forall j: nat, k: nat | s.prod.i <= j < 4 + |s.prod.data| && k < WrapSub(s.head, s.tail)
        ensures Slot(s.prod.head, j, cap) != Slot(s.tail, k, cap)
      {
        SlotOfPosition(Head(s), j, cap);
        SlotOfPosition(Tail(s), k, cap);
        if (Head(s) + j) % cap == (Tail(s) + k) % cap {
          ModDistinct(Tail(s) + k, Head(s) + j, cap);
        }
      }
    }
  }
}
