/** The bytes of the ring beyond what the queue of messages needs: which capacities give a
    message back at every counter value, and what an oversized message does to the queue. */
module RingBytes {
  import opened Words
  import opened RingSlots

  /** What a reader finds in `n` slots from counter value `c` on. */
  function ReadBack(b: seq<byte>, c: u32, n: nat): (r: seq<byte>)
    requires b != []
    ensures |r| == n
  {
    seq(n, k requires 0 <= k < n => b[Slot(c, k, |b|)])
  }

  /** A stored byte stays until a later one goes to the same slot. */
  lemma {:induction false} StoredAt(b: seq<byte>, head: u32, frame: seq<byte>, n: nat, j: nat)
    requires b != [] && j < n <= |frame|
    requires forall i | j < i < n :: Slot(head, i, |b|) != Slot(head, j, |b|)
    ensures Stored(b, head, frame, n)[Slot(head, j, |b|)] == frame[j]
    decreases n
  {
    if j + 1 < n { StoredAt(b, head, frame, n - 1, j); }
  }

  // ----- one message through an empty ring -----

  /** A message that fits, stored from a counter value on, is read back. */
  predicate ReadsBack(b: seq<byte>, head: u32, data: seq<byte>)
    requires b != []
  {
    ReadBack(Stored(b, head, StoredFrame(data), 4 + |data|), head, 4 + |data|) == StoredFrame(data)
  }

  /** A ring that can hold a frame gives back every message that fits, at every counter value, if
      and only if its capacity divides 2^32. */
  lemma ReadsBackIff(cap: u32)
    requires 4 <= cap
    ensures (forall b: seq<byte>, head: u32, data: seq<byte> | |b| == cap && 4 + |data| <= cap ::
               ReadsBack(b, head, data)) <==> MODULUS % cap == 0
  {
    if MODULUS % cap == 0 {
      forall b: seq<byte>, head: u32, data: seq<byte> | |b| == cap && 4 + |data| <= cap
        ensures ReadsBack(b, head, data)
      {
        DividingReadsBack(b, head, data);
      }
    } else {
      LosesByte(cap);
    }
  }

  lemma DividingReadsBack(b: seq<byte>, head: u32, data: seq<byte>)
    requires 4 + |data| <= |b| && MODULUS % |b| == 0
    ensures ReadsBack(b, head, data)
  {
    var frame := StoredFrame(data);
    var n := |frame|;
    forall j | 0 <= j < n ensures Stored(b, head, frame, n)[Slot(head, j, |b|)] == frame[j] {
      forall i | j < i < n ensures Slot(head, i, |b|) != Slot(head, j, |b|) {
        SlotDistinct(head, j, i, |b|);
      }
      StoredAt(b, head, frame, n, j);
    }
  }

  /** The counter value from which the last byte of a full ring is the first after the wrap. */
  function AtWrap(cap: u32): u32
    requires 1 < cap
  {
    MODULUS - cap + 1
  }

  /** The byte that shares its slot with the last one. */
  function Shared(cap: u32): nat
    requires 0 < cap && MODULUS % cap != 0
  {
    cap - 1 - MODULUS % cap
  }

  /** Across the wrap two bytes of one frame share a slot when the capacity does not divide 2^32. */
  lemma SharedSlot(cap: u32)
    requires 1 < cap && MODULUS % cap != 0
    ensures Shared(cap) < cap - 1
    ensures Slot(AtWrap(cap), Shared(cap), cap) == Slot(AtWrap(cap), cap - 1, cap)
  {
    var r := MODULUS % cap;
    assert MODULUS == cap * (MODULUS / cap) + r;
    assert WrapAdd(AtWrap(cap), cap - 1) == 0;
    assert WrapAdd(AtWrap(cap), Shared(cap)) == MODULUS - r;
    ModUnique(MODULUS - r, cap, MODULUS / cap, 0);
    ModUnique(0, cap, 0, 0);
  }

  /** Data for which the two bytes differ. */
  function Differing(cap: u32): (data: seq<byte>)
    requires 5 <= cap && MODULUS % cap != 0
    ensures |data| == cap - 4
  {
    var k := Shared(cap);
    var last: byte := if k < 4 && ToLittleEndian(Truncate(cap - 4))[k] != 0 then 0 else 1;
    seq(cap - 5, i => 0) + [last]
  }

  lemma DifferingBytes(cap: u32)
    requires 5 <= cap && MODULUS % cap != 0
    ensures var frame := StoredFrame(Differing(cap));
            Shared(cap) < cap - 1 && |frame| == cap && frame[Shared(cap)] != frame[cap - 1]
  {
    var data, k := Differing(cap), Shared(cap);
    var frame := StoredFrame(data);
    SharedSlot(cap);
    assert frame[cap - 1] == data[cap - 5];
    if k < 4 {
      assert frame[k] == ToLittleEndian(Truncate(cap - 4))[k];
    } else {
      assert frame[k] == data[k - 4] == 0;
    }
  }

  lemma ByteLost(b: seq<byte>, cap: u32)
    requires 5 <= cap && MODULUS % cap != 0 && |b| == cap
    ensures !ReadsBack(b, AtWrap(cap), Differing(cap))
  {
    var head, k := AtWrap(cap), Shared(cap);
    var frame := StoredFrame(Differing(cap));
    SharedSlot(cap);
    DifferingBytes(cap);
    StoredAt(b, head, frame, cap, cap - 1);
    var r := ReadBack(Stored(b, head, frame, cap), head, cap);
    assert r[k] == frame[cap - 1];
  }

  lemma FourDivides(cap: u32)
    requires 4 <= cap && MODULUS % cap != 0
    ensures 5 <= cap
  {
    assert MODULUS % 4 == 0;
  }

  lemma LosesByte(cap: u32)
    requires 4 <= cap && MODULUS % cap != 0
    ensures exists b: seq<byte>, head: u32, data: seq<byte> ::
              |b| == cap && 4 + |data| <= cap && !ReadsBack(b, head, data)
  {
    FourDivides(cap);
    var b: seq<byte> := seq(cap, i => 0);
    ByteLost(b, cap);
    assert |Differing(cap)| == cap - 4;
  }

  // ----- an oversized message -----

  /** The last byte of a frame of `f` bytes that goes to the slot of byte `k` of the queue, when
      the frame starts after `n` queued bytes. */
  function LastOver(k: nat, n: nat, f: nat, cap: nat): (j: int)
    requires 0 < cap <= f && k < n
    ensures f - cap <= j < f
  {
    f - 1 - (n + f - 1 - k) % cap
  }

  /** Each queued byte is repeated by the last byte of the frame that goes to its slot. */
  predicate Repeats(frame: seq<byte>, stream: seq<byte>, cap: nat)
    requires 0 < cap <= |frame|
  {
    Last(frame, |stream|, cap) == stream
  }

  /** A frame at least as long as the ring leaves the queued bytes as they were, if and only if it
      repeats them. */
  lemma QueueSurvivesIff(b: seq<byte>, tail: u32, stream: seq<byte>, frame: seq<byte>)
    requires b != [] && MODULUS % |b| == 0 && |b| <= |frame|
    ensures var b' := Stored(b, WrapAdd(tail, |stream|), frame, |frame|);
            ReadBack(b', tail, |stream|) == stream <==> Repeats(frame, stream, |b|)
  {
    FoundAfter(b, tail, |stream|, frame);
  }

  /** The last bytes of the frame that go to the slots of `n` queued ones. */
  function Last(frame: seq<byte>, n: nat, cap: nat): (r: seq<byte>)
    requires 0 < cap <= |frame|
    ensures |r| == n
  {
    seq(n, k requires 0 <= k < n => frame[LastOver(k, n, |frame|, cap)])
  }

  lemma FoundAfter(b: seq<byte>, tail: u32, n: nat, frame: seq<byte>)
    requires b != [] && MODULUS % |b| == 0 && |b| <= |frame|
    ensures ReadBack(Stored(b, WrapAdd(tail, n), frame, |frame|), tail, n) == Last(frame, n, |b|)
  {
    var r := ReadBack(Stored(b, WrapAdd(tail, n), frame, |frame|), tail, n);
    forall k | 0 <= k < n ensures r[k] == Last(frame, n, |b|)[k] {
      OverwrittenBy(b, tail, n, frame, k);
    }
  }

  lemma OverwrittenBy(b: seq<byte>, tail: u32, n: nat, frame: seq<byte>, k: nat)
    requires b != [] && MODULUS % |b| == 0 && |b| <= |frame| && k < n
    ensures Stored(b, WrapAdd(tail, n), frame, |frame|)[Slot(tail, k, |b|)] == frame[LastOver(k, n, |frame|, |b|)]
  {
    var cap, j, head := |b|, LastOver(k, n, |frame|, |b|), WrapAdd(tail, n);
    SameSlot(tail, n, k, |frame|, cap);
    forall i | j < i < |frame| ensures Slot(head, i, cap) != Slot(head, j, cap) {
      SlotDistinct(head, j, i, cap);
    }
    StoredAt(b, head, frame, |frame|, j);
  }

  lemma SameSlot(tail: u32, n: nat, k: nat, f: nat, cap: nat)
    requires 0 < cap <= f && k < n && MODULUS % cap == 0
    ensures Slot(WrapAdd(tail, n), LastOver(k, n, f, cap), cap) == Slot(tail, k, cap)
  {
    var j, m := LastOver(k, n, f, cap), (n + f - 1 - k) / cap;
    SlotShift(tail, n, j, cap);
    SlotIsMod(tail, n + j, cap);
    SlotIsMod(tail, k, cap);
    DivMod(n + f - 1 - k, cap);
    AddMultiple(tail + k, cap, m);
  }

  lemma DivMod(x: int, c: int)
    requires 0 < c
    ensures x == c * (x / c) + x % c
  {
  }

  lemma AddMultiple(y: int, c: int, m: int)
    requires 0 < c
    ensures (y + c * m) % c == y % c
  {
    assert y == c * (y / c) + y % c;
    assert y + c * m == c * (y / c + m) + y % c;
    ModUnique(y + c * m, c, y / c + m, y % c);
  }
}
