/** The slot arithmetic of `channel.rs`: where a ring with free-running wrapping counters keeps
    its bytes, which messages it accepts, and what it stores for one. */
module RingSlots {
  import opened Words

  /** Where the byte `k` places after counter value `c` lives in a ring of `cap` bytes. */
  function Slot(c: u32, k: nat, cap: nat): (s: nat)
    requires 0 < cap
    ensures s < cap
  {
    WrapAdd(c, k) % cap
  }

  lemma SlotShift(c: u32, n: nat, k: nat, cap: nat)
    requires 0 < cap
    ensures Slot(WrapAdd(c, n), k, cap) == Slot(c, n + k, cap)
  {
    WrapAddAssoc(c, n, k);
  }

  lemma SlotIsMod(c: u32, k: nat, cap: nat)
    requires 0 < cap && MODULUS % cap == 0
    ensures Slot(c, k, cap) == (c + k) % cap
  {
    ModOfMod(c + k, cap, MODULUS);
  }

  lemma SlotDistinct(c: u32, i: nat, j: nat, cap: nat)
    requires 0 < cap && MODULUS % cap == 0
    requires i < j < i + cap
    ensures Slot(c, i, cap) != Slot(c, j, cap)
  {
    SlotIsMod(c, i, cap);
    SlotIsMod(c, j, cap);
    if (c + i) % cap == (c + j) % cap {
      ModDistinct(c + i, c + j, cap);
    }
  }

  /** Consecutive counter values, wrap-around included, address consecutive slots of the
      ring exactly when the capacity divides 2^32. */
  lemma SlotsContiguousIff(cap: u32)
    requires 0 < cap
    ensures (forall c: u32 :: Slot(c, 1, cap) == (Slot(c, 0, cap) + 1) % cap) <==> MODULUS % cap == 0
  {
    if MODULUS % cap == 0 {
      forall c: u32 ensures Slot(c, 1, cap) == (Slot(c, 0, cap) + 1) % cap {
        SlotIsMod(c, 1, cap);
        SuccMod(c, cap);
        SlotIsMod(c, 0, cap);
      }
    } else {
      var last: u32 := 0xFFFF_FFFF;
      SuccMod(last, cap);
      assert WrapAdd(last, 1) == 0 && WrapAdd(last, 0) == last;
      assert Slot(last, 1, cap) != (Slot(last, 0, cap) + 1) % cap;
    }
  }

  lemma SuccMod(x: nat, cap: nat)
    requires 0 < cap
    ensures (x % cap + 1) % cap == (x + 1) % cap
  {
    var q, r := x / cap, x % cap;
    assert x == cap * q + r;
    if r + 1 == cap {
      assert cap * (q + 1) == cap * q + cap;
      ModUnique(x + 1, cap, q + 1, 0);
    } else {
      ModUnique(x + 1, cap, q, r + 1);
      ModUnique(r + 1, cap, 0, r + 1);
    }
  }

  /** Whether `push` takes a message of `n` bytes, as computed: the length is cut to 32 bits
      and the prefix is added to it with wrap-around. */
  predicate Accepts(n: nat, head: u32, tail: u32, cap: nat) {
    WrapAdd(Truncate(n), 4) <= cap - WrapSub(head, tail)
  }

  /** The test is the intended one for every message whose frame length fits a `u32`. For a
      longer message it is wrong exactly when the wrapped length is small enough to pass. */
  lemma AcceptsIffFits(n: nat, head: u32, tail: u32, cap: u32)
    requires WrapSub(head, tail) <= cap
    ensures (Accepts(n, head, tail, cap) <==> n + 4 <= cap - WrapSub(head, tail))
       <==> n + 4 < MODULUS || cap - WrapSub(head, tail) < (n + 4) % MODULUS
  {
    assert WrapAdd(Truncate(n), 4) == (n + 4) % MODULUS;
  }

  /** Such a message exists for every state of every ring: one of 2^32 - 4 bytes looks as if its
      frame were empty, so it is accepted and the head stays where it is. */
  lemma OversizedIsAccepted(head: u32, tail: u32, cap: u32)
    requires WrapSub(head, tail) <= cap
    ensures Accepts(0xFFFF_FFFC, head, tail, cap)
    ensures NewHead(0xFFFF_FFFC, head) == head
  {
  }

  /** The head after a message of `n` bytes was accepted. */
  function NewHead(n: nat, head: u32): u32 {
    WrapAdd(head, WrapAdd(Truncate(n), 4))
  }

  /** What `push` stores: the length, cut to 32 bits, then the data. */
  function StoredFrame(data: seq<byte>): (f: seq<byte>)
    ensures |f| == 4 + |data|
  {
    ToLittleEndian(Truncate(|data|)) + data
  }

  /** A buffer after the first `n` bytes of a frame were stored from counter value `head` on. */
  function Stored(b: seq<byte>, head: u32, frame: seq<byte>, n: nat): (r: seq<byte>)
    requires b != [] && n <= |frame|
    ensures |r| == |b|
  {
    if n == 0 then b else Stored(b, head, frame, n - 1)[Slot(head, n - 1, |b|) := frame[n - 1]]
  }
}
