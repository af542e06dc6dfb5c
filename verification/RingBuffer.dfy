/** The single-producer single-consumer byte ring of `channel.rs`, as one thread at a time
    sees it: two free-running `u32` counters and a byte buffer changed in place, behaving
    as a queue of messages. */
module RingBuffer {
  import opened Options
  import opened Words
  import opened Framing
  import opened RingSlots
  import opened RingBytes

  class RingBuffer {
    var head: u32
    var tail: u32
    const buf: array<byte>

    /** The messages between `tail` and `head`, oldest first. */
    ghost var msgs: seq<Message>

    ghost predicate Valid()
      reads this, buf
    {
      && 0 < buf.Length < MODULUS
      && MODULUS % buf.Length == 0
      && Holds(Stream(msgs))
    }

    /** The occupied part of the ring, from `tail` to `head`, is the byte stream `s`. */
    ghost predicate Holds(s: seq<byte>)
      requires buf.Length > 0
      reads this, buf
    {
      && |s| <= buf.Length
      && head == WrapAdd(tail, |s|)
      && forall k | 0 <= k < |s| :: buf[Slot(tail, k, buf.Length)] == s[k]
    }

    constructor (capacity: nat)
      ensures msgs == [] && head == tail == 0 && buf.Length == capacity && fresh(buf)
      ensures Valid() <==> 0 < capacity < MODULUS && MODULUS % capacity == 0
    {
      head, tail := 0, 0;
      buf := new byte[capacity];
      msgs := [];
    }

    /** Write a length-prefixed message, or refuse and change nothing. */
    method Push(data: seq<byte>) returns (ok: bool)
      requires Valid()
      modifies this, buf
      ensures ok <==> Accepts(|data|, old(head), old(tail), buf.Length)
      ensures !ok ==> Valid() && unchanged(this) && unchanged(buf)
      ensures ok ==>
                && head == NewHead(|data|, old(head))
                && buf[..] == Stored(old(buf[..]), old(head), StoredFrame(data), 4 + |data|)
      ensures |data| + 4 < MODULUS ==>
                && Valid()
                && (ok <==> |Stream(old(msgs))| + 4 + |data| <= buf.Length)
                && msgs == if ok then old(msgs) + [data] else old(msgs)
      ensures ok && |data| + 4 >= MODULUS ==>
                (Written(Stream(old(msgs))) <==> Repeats(StoredFrame(data), Stream(old(msgs)), buf.Length))
      ensures tail == old(tail)
    {
      ghost var stream := Stream(msgs);
      ghost var fits := |data| + 4 < MODULUS;
      var len := Truncate(|data|);
      var total := WrapAdd(len, 4);
      if fits { TruncateSmall(|data|, 4); }
      var used := WrapSub(head, tail);
      WrapSubAdd(tail, |stream|);
      var free := buf.Length - used;
      if total > free {
        return false;
      }
      ghost var before := buf[..];
      WriteFrame(data, len, stream, fits);
      if !fits { Overwritten(before, stream, StoredFrame(data)); }
      Publish(stream, StoredFrame(data), total, fits);
      if fits {
        StreamSnoc(msgs, data);
        msgs := msgs + [data];
      }
      ok := true;
    }

    /** A frame at least as long as the ring: whether the queued bytes are still there. */
    lemma Overwritten(before: seq<byte>, stream: seq<byte>, frame: seq<byte>)
      requires 0 < buf.Length <= |frame| && MODULUS % buf.Length == 0 && |before| == buf.Length
      requires head == WrapAdd(tail, |stream|) && buf[..] == Stored(before, head, frame, |frame|)
      ensures Written(stream) <==> Repeats(frame, stream, buf.Length)
    {
      QueueSurvivesIff(before, tail, stream, frame);
      assert ReadBack(buf[..], tail, |stream|) == stream <==> Written(stream);
    }

    /** The byte stores of `push`: four length bytes, then the data. */
    method WriteFrame(data: seq<byte>, len: u32, ghost stream: seq<byte>, ghost fits: bool)
      requires 0 < buf.Length && MODULUS % buf.Length == 0
      requires len == Truncate(|data|) && head == WrapAdd(tail, |stream|)
      requires fits ==> |stream| + 4 + |data| <= buf.Length && Written(stream)
      modifies buf
      ensures buf[..] == Stored(old(buf[..]), head, StoredFrame(data), 4 + |data|)
      ensures fits ==> Written(stream + StoredFrame(data))
    {
      ghost var frame := StoredFrame(data);
      ghost var before := buf[..];
      assert stream + frame[..0] == stream;
      var lenBytes := ToLittleEndian(len);
      for i := 0 to 4
        invariant fits ==> Written(stream + frame[..i])
        invariant buf[..] == Stored(before, head, frame, i)
      {
        Put(stream, frame, i, lenBytes[i], fits);
      }
      for i := 0 to |data|
        invariant fits ==> Written(stream + frame[..4 + i])
        invariant buf[..] == Stored(before, head, frame, 4 + i)
      {
        Put(stream, frame, 4 + i, data[i], fits);
      }
      assert frame[..4 + |data|] == frame;
    }

    /** The bytes from `tail` on are those of `s`, published or not. */
    ghost predicate Written(s: seq<byte>)
      requires buf.Length > 0
      reads this, buf
    {
      forall k | 0 <= k < |s| :: buf[Slot(tail, k, buf.Length)] == s[k]
    }

    /** One byte store of `push`: byte `i` of the frame goes to the slot after the bytes
        already there, and disturbs none of them as long as the frame fits. */
    method Put(ghost stream: seq<byte>, ghost frame: seq<byte>, i: nat, b: byte, ghost fits: bool)
      requires 0 < buf.Length && MODULUS % buf.Length == 0
      requires head == WrapAdd(tail, |stream|)
      requires i < |frame| && frame[i] == b
      requires fits ==> |stream| + |frame| <= buf.Length && Written(stream + frame[..i])
      modifies buf
      ensures buf[..] == old(buf[..])[Slot(head, i, buf.Length) := b]
      ensures fits ==> Written(stream + frame[..i + 1])
    {
      var idx := Slot(head, i, buf.Length);
      SlotShift(tail, |stream|, i, buf.Length);
      buf[idx] := b;
      ghost var s := stream + frame[..i + 1];
      forall k | fits && 0 <= k < |s|
        ensures buf[Slot(tail, k, buf.Length)] == s[k]
      {
        if k < |s| - 1 {
          assert s[k] == (stream + frame[..i])[k];
          SlotDistinct(tail, k, |stream| + i, buf.Length);
        }
      }
    }

    /** The new head makes the bytes written after the stream part of it. */
    method Publish(ghost stream: seq<byte>, ghost frame: seq<byte>, total: u32, ghost fits: bool)
      requires 0 < buf.Length && head == WrapAdd(tail, |stream|)
      requires fits ==> total == |frame| && |stream| + |frame| <= buf.Length && Written(stream + frame)
      modifies this`head
      ensures head == WrapAdd(old(head), total)
      ensures fits ==> Holds(stream + frame)
    {
      WrapAddAssoc(tail, |stream|, total);
      head := WrapAdd(head, total);
    }

    /** Read a length-prefixed message; `None` when the ring is empty. */
    method Pop() returns (r: Option<seq<byte>>)
      requires Valid()
      modifies this
      ensures Valid() && head == old(head)
      ensures old(msgs) == [] ==> r == None && unchanged(this)
      ensures old(msgs) != [] ==> r.Some? && r.value == old(msgs)[0] && msgs == old(msgs)[1..]
    {
      StreamLength(msgs);
      if tail == head {
        return None;
      }
      assert msgs != [];
      ghost var stream := Stream(msgs);
      assert stream == Frame(msgs[0]) + Stream(msgs[1..]);

      var data := ReadFrame(stream, msgs[0]);
      Advance(stream, 4 + |data|);
      msgs := msgs[1..];
      r := Some(data);
    }

    /** The loads of `pop`: four length bytes, then that many message bytes. */
    method ReadFrame(ghost stream: seq<byte>, ghost m: Message) returns (data: seq<byte>)
      requires 0 < buf.Length && Holds(stream) && Frame(m) <= stream
      ensures data == m
    {
      var lenBytes := Fetch(stream, 0, 4);
      assert lenBytes == ToLittleEndian(|m|);
      LittleEndianRoundTrip(|m|);
      data := Fetch(stream, 4, FromLittleEndian(lenBytes));
    }

    /** Copy `n` bytes out of the ring, one load at a time. */
    method Fetch(ghost stream: seq<byte>, from: nat, n: nat) returns (r: seq<byte>)
      requires 0 < buf.Length && Holds(stream) && from + n <= |stream|
      ensures r == stream[from..from + n]
    {
      var data := new byte[n];
      for i := 0 to n
        invariant data[..i] == stream[from..from + i]
      {
        data[i] := buf[Slot(tail, from + i, buf.Length)];
      }
      r := data[..];
    }

    /** Publishing a new tail gives up the first `n` bytes of the stream. */
    method Advance(ghost stream: seq<byte>, n: nat)
      requires 0 < buf.Length && Holds(stream) && n <= |stream|
      modifies this`tail
      ensures Holds(stream[n..])
    {
      ghost var before := tail;
      tail := WrapAdd(tail, n);
      WrapAddAssoc(before, n, |stream| - n);
      forall k | 0 <= k < |stream| - n
        ensures buf[Slot(tail, k, buf.Length)] == stream[n + k]
      {
        SlotShift(before, n, k, buf.Length);
      }
    }
  }
}
