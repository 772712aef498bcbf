/**
 OpenFlow framing: a byte stream is a concatenation of messages, each carrying its own
 length in bytes 2 and 3. `Frames` is the reference way of cutting a stream.
 */
module Framing {
  import opened Bytes

  const HEADER_SIZE: nat := 8
  const PACKET_IN: u8 := 10

  type Message = Bytes

  /** A message whose length field states its size. */
  predicate WellFormed(m: Message) {
    |m| >= HEADER_SIZE && U16At(m, 2) == |m|
  }

  ghost predicate AllWellFormed(ms: seq<Message>) {
    forall m :: m in ms ==> WellFormed(m)
  }

  function Concat(ms: seq<Message>): Bytes {
    if ms == [] then [] else ms[0] + Concat(ms[1..])
  }

  /** The number of PACKET_IN messages, by the type byte. */
  function PacketIns(ms: seq<Message>): nat {
    if ms == [] then 0
    else PacketIns(ms[..|ms| - 1]) + if IsPacketIn(ms[|ms| - 1]) then 1 else 0
  }

  predicate IsPacketIn(m: Message) {
    |m| >= HEADER_SIZE && m[1] == PACKET_IN
  }

  /** The stream starts with a complete message. */
  predicate StartsWithMessage(b: Bytes) {
    |b| >= HEADER_SIZE && HEADER_SIZE <= U16At(b, 2) <= |b|
  }

  datatype Cut = Cut(messages: seq<Message>, rest: Bytes) {
    function After(ms: seq<Message>): Cut {
      Cut(ms + messages, rest)
    }

    lemma AfterCons(ms: seq<Message>)
      requires ms != []
      ensures After(ms[1..]).After([ms[0]]) == After(ms)
    {
      assert [ms[0]] + (ms[1..] + messages) == ms + messages;
    }
  }

  /** Cut a stream into its leading complete messages and what is left. A length field
      below the header size ends the cutting: no message can be that short. */
  function Frames(b: Bytes): Cut {
    if !StartsWithMessage(b) then
      Cut([], b)
    else
      var n := U16At(b, 2);
      Frames(b[n..]).After([b[..n]])
  }

  /** A remainder from which no further message can be cut. */
  predicate Incomplete(b: Bytes) {
    !StartsWithMessage(b)
  }

  lemma {:induction false} ConcatAppend(a: seq<Message>, b: seq<Message>)
    ensures Concat(a + b) == Concat(a) + Concat(b)
  {
    if a == [] {
      assert a + b == b;
    } else {
      assert (a + b)[0] == a[0] && (a + b)[1..] == a[1..] + b;
      ConcatAppend(a[1..], b);
    }
  }

  lemma ConcatSnoc(a: seq<Message>, m: Message)
    ensures Concat(a + [m]) == Concat(a) + m
  {
    ConcatAppend(a, [m]);
    assert Concat([m]) == m + Concat([]) == m;
  }

  lemma {:induction false} PacketInsAppend(a: seq<Message>, b: seq<Message>)
    ensures PacketIns(a + b) == PacketIns(a) + PacketIns(b)
  {
    if b == [] {
      assert a + b == a;
    } else {
      var n := |b| - 1;
      assert (a + b)[..|a + b| - 1] == a + b[..n];
      PacketInsAppend(a, b[..n]);
    }
  }

  lemma FramesCons(m: Message, b: Bytes)
    requires WellFormed(m)
    ensures Frames(m + b) == Frames(b).After([m])
  {
    assert U16At(m + b, 2) == U16At(m, 2);
    assert (m + b)[..|m|] == m && (m + b)[|m|..] == b;
  }

  /** Cutting a stream that starts with well-formed messages yields those messages first:
      framing inverts concatenation, whatever follows. */
  lemma {:induction false} FramesOfConcat(ms: seq<Message>, tail: Bytes)
    requires AllWellFormed(ms)
    ensures Frames(Concat(ms) + tail) == Frames(tail).After(ms)
  {
    var c := Frames(tail);
    if ms == [] {
      assert Concat(ms) + tail == tail;
    } else {
      FramesOfConcat(ms[1..], tail);
      FramesCons(ms[0], Concat(ms[1..]) + tail);
      ConcatHead(ms, tail);
      c.AfterCons(ms);
    }
  }

  lemma ConcatHead(ms: seq<Message>, tail: Bytes)
    requires ms != []
    ensures Concat(ms) + tail == ms[0] + (Concat(ms[1..]) + tail)
  {
  }

  /** The converse: any stream is the concatenation of its cut, every piece is well formed
      and the remainder holds no further message. */
  lemma {:induction false} ConcatOfFrames(b: Bytes)
    ensures Concat(Frames(b).messages) + Frames(b).rest == b
    ensures AllWellFormed(Frames(b).messages)
    ensures Incomplete(Frames(b).rest)
    decreases |b|
  {
    if StartsWithMessage(b) {
      var n := U16At(b, 2);
      var c := Frames(b[n..]);
      ConcatOfFrames(b[n..]);
      Prepended(b[..n], c.messages, c.rest);
      assert b == b[..n] + b[n..];
    }
  }

  lemma Prepended(m: Message, ms: seq<Message>, rest: Bytes)
    requires WellFormed(m) && AllWellFormed(ms)
    ensures Concat([m] + ms) + rest == m + (Concat(ms) + rest)
    ensures AllWellFormed([m] + ms)
  {
    assert ([m] + ms)[1..] == ms;
  }
}
