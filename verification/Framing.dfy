/** The byte layout of a channel: each message is preceded by its length as a
    little-endian `u32`, and messages follow each other without gaps. */
module Framing {
  import opened Words

  type Message = m: seq<byte> | |m| + 4 < 0x1_0000_0000

  function Frame(m: Message): (f: seq<byte>)
    ensures |f| == 4 + |m|
  {
    ToLittleEndian(|m|) + m
  }

  function Stream(ms: seq<Message>): seq<byte> {
    if ms == [] then [] else Frame(ms[0]) + Stream(ms[1..])
  }

  lemma {:induction false} StreamConcat(a: seq<Message>, b: seq<Message>)
    ensures Stream(a + b) == Stream(a) + Stream(b)
  {
    if a == [] {
      assert a + b == b;
    } else {
      assert (a + b)[1..] == a[1..] + b;
      StreamConcat(a[1..], b);
    }
  }

  lemma StreamSnoc(a: seq<Message>, m: Message)
    ensures Stream(a + [m]) == Stream(a) + Frame(m)
  {
    StreamConcat(a, [m]);
    assert Stream([m]) == Frame(m) + Stream([m][1..]);
  }

  /** Cutting a message list at `k` cuts its stream at a frame boundary. */
  lemma StreamSplit(ms: seq<Message>, k: nat)
    requires k <= |ms|
    ensures Stream(ms) == Stream(ms[..k]) + Stream(ms[k..])
    ensures |Stream(ms[k..])| >= 4 * (|ms| - k)
  {
    assert ms == ms[..k] + ms[k..];
    StreamConcat(ms[..k], ms[k..]);
    StreamLength(ms[k..]);
  }

  lemma {:induction false} StreamLength(ms: seq<Message>)
    ensures |Stream(ms)| >= 4 * |ms|
  {
    if ms != [] { StreamLength(ms[1..]); }
  }

  /** The reader's view: the four bytes at a frame boundary are the length of the message
      that follows them, and the message itself is the next that many bytes. */
  lemma FrameAt(ms: seq<Message>, k: nat)
    requires k < |ms|
    ensures |Stream(ms[..k])| + 4 + |ms[k]| == |Stream(ms[..k + 1])| <= |Stream(ms)|
    ensures Stream(ms)[|Stream(ms[..k])|..|Stream(ms[..k])| + 4] == ToLittleEndian(|ms[k]|)
    ensures Stream(ms)[|Stream(ms[..k])| + 4..|Stream(ms[..k + 1])|] == ms[k]
  {
    assert ms[..k + 1] == ms[..k] + [ms[k]];
    StreamSnoc(ms[..k], ms[k]);
    StreamSplit(ms, k + 1);
  }

  /** The framing is injective: a byte stream has at most one reading as messages. */
  lemma {:induction false} StreamInjective(a: seq<Message>, b: seq<Message>)
    requires Stream(a) == Stream(b)
    ensures a == b
  {
    if a == [] || b == [] {
      StreamLength(a);
      StreamLength(b);
    } else {
      FrameAt(a, 0);
      FrameAt(b, 0);
      assert a[..0] == [] && b[..0] == [];
      LittleEndianRoundTrip(|a[0]|);
      LittleEndianRoundTrip(|b[0]|);
      assert Stream(a[1..]) == Stream(a)[4 + |a[0]|..];
      assert Stream(b[1..]) == Stream(b)[4 + |b[0]|..];
      StreamInjective(a[1..], b[1..]);
    }
  }
}
