/**
  The reader loop's framing step (core/zinx/znet/connection.go, StartReader):
  read exactly the header, let the codec unpack it, then read the body the
  header announces. The codec's byte layout belongs to a separate component,
  so `Pack` and `UnPack` are arbitrary functions here.
 */
module Framing {
  import opened Types

  /** What `Packet().UnPack` recovers from a header: the command id and the
      total frame length (header included). */
  datatype Header = Header(msgId: Uint32, msgLen: Uint32)

  /** A decoded message. `data` stays empty when the frame has no body. */
  datatype Message = Message(msgId: Uint32, msgLen: Uint32, data: Bytes)

  /** The server's `Packet()`: header length, `Pack` (None is the pack error)
      and `UnPack` (None is the unpack error). */
  datatype Codec = Codec(headLen: nat, pack: (Uint32, Bytes) -> Option<Bytes>, unpack: Bytes -> Option<Header>)

  /** Length of the body announced by `h`: `msgLen - headLen` when
      `msgLen > headLen`, otherwise no body at all. */
  function BodyLen(headLen: nat, h: Header): nat
  {
    if h.msgLen > headLen then h.msgLen - headLen else 0
  }

  /** Why a framing step ends the reader loop: a short header read, an unpack
      error, or a short body read. */
  datatype FrameError = ShortHead | BadHead | ShortBody

  datatype FrameResult = Frame(msg: Message, rest: Bytes) | Fail(err: FrameError)

  /** One iteration of the reader loop on the unread bytes `input`: on
      success it consumes the header and exactly the body the header
      announces (`ReadFrameConsumes` says which bytes go where). */
  function ReadFrame(c: Codec, input: Bytes): (r: FrameResult)
    ensures r.Frame? ==>
      && |input| == c.headLen + |r.msg.data| + |r.rest|
      && |r.msg.data| == BodyLen(c.headLen, Header(r.msg.msgId, r.msg.msgLen))
  {
    if |input| < c.headLen then Fail(ShortHead)
    else
      match c.unpack(input[..c.headLen])
      case None => Fail(BadHead)
      case Some(h) =>
        var n := BodyLen(c.headLen, h);
        if |input| < c.headLen + n then Fail(ShortBody)
        else Frame(Message(h.msgId, h.msgLen, input[c.headLen..c.headLen + n]), input[c.headLen + n..])
  }

  /** A successful framing step takes the header first, hands it to
      `UnPack`, takes the body right after it and leaves the rest unread. */
  lemma ReadFrameConsumes(c: Codec, input: Bytes)
    requires ReadFrame(c, input).Frame?
    ensures var r := ReadFrame(c, input);
      && c.unpack(input[..c.headLen]) == Some(Header(r.msg.msgId, r.msg.msgLen))
      && input == input[..c.headLen] + r.msg.data + r.rest
  {
    var r := ReadFrame(c, input);
    assert input == input[..c.headLen] + input[c.headLen..c.headLen + |r.msg.data|] + input[c.headLen + |r.msg.data|..];
  }

  /** The three ways a framing step fails, each exactly when its condition
      holds: too few bytes for a header, a header the codec rejects, too few
      bytes for the announced body. */
  lemma ReadFrameFailures(c: Codec, input: Bytes)
    ensures ReadFrame(c, input) == Fail(ShortHead) <==> |input| < c.headLen
    ensures ReadFrame(c, input) == Fail(BadHead) <==> |input| >= c.headLen && c.unpack(input[..c.headLen]).None?
    ensures ReadFrame(c, input) == Fail(ShortBody) <==>
      && |input| >= c.headLen
      && c.unpack(input[..c.headLen]).Some?
      && |input| < c.headLen + BodyLen(c.headLen, c.unpack(input[..c.headLen]).value)
  {
  }

  /** Everything the reader loop decodes from `input` before it stops: the
      messages in stream order, the bytes left at the failing step, and why it
      stopped. */
  datatype Decoded = Decoded(msgs: seq<Message>, rest: Bytes, err: FrameError)

  function DecodeAll(c: Codec, input: Bytes): Decoded
    requires c.headLen > 0
    decreases |input|
  {
    match ReadFrame(c, input)
    case Fail(e) => Decoded([], input, e)
    case Frame(m, rest) =>
      var d := DecodeAll(c, rest);
      Decoded([m] + d.msgs, d.rest, d.err)
  }

  /** The reader stops on bytes it has not consumed, exactly where a framing
      step fails, and for the reason that step gives. */
  lemma {:induction false} DecodeAllStops(c: Codec, input: Bytes)
    requires c.headLen > 0
    ensures IsSuffix(DecodeAll(c, input).rest, input)
    ensures ReadFrame(c, DecodeAll(c, input).rest) == Fail(DecodeAll(c, input).err)
    decreases |input|
  {
    match ReadFrame(c, input)
    case Fail(_) =>
    case Frame(_, rest) =>
      DecodeAllStops(c, rest);
      assert IsSuffix(rest, input);
      SuffixOfSuffix(input, rest, DecodeAll(c, rest).rest);
  }

  /** `x` is what remains of `a` after some prefix of it was consumed. */
  predicate IsSuffix(x: Bytes, a: Bytes)
  {
    |x| <= |a| && x == a[|a| - |x|..]
  }

  lemma SuffixOfSuffix(a: Bytes, b: Bytes, x: Bytes)
    requires IsSuffix(b, a) && IsSuffix(x, b)
    ensures IsSuffix(x, a)
  {
  }

  /** How `DecodeAll` unfolds by one framing step. */
  lemma DecodeAllStep(c: Codec, input: Bytes)
    requires c.headLen > 0
    ensures ReadFrame(c, input).Fail? ==> DecodeAll(c, input) == Decoded([], input, ReadFrame(c, input).err)
    ensures ReadFrame(c, input).Frame? ==>
      var f := ReadFrame(c, input);
      var d := DecodeAll(c, f.rest);
      DecodeAll(c, input) == Decoded([f.msg] + d.msgs, d.rest, d.err)
  {
  }

  /** Having decoded `got` so far with `input` still unread, the loop is on
      its way to the outcome `d` of decoding the whole stream. */
  predicate Resumes(c: Codec, d: Decoded, got: seq<Message>, input: Bytes)
    requires c.headLen > 0
  {
    var e := DecodeAll(c, input);
    d == Decoded(got + e.msgs, e.rest, e.err)
  }

  /** A successful framing step keeps the loop on its way, on fewer bytes. */
  lemma ResumesAfterFrame(c: Codec, d: Decoded, got: seq<Message>, input: Bytes)
    requires c.headLen > 0 && Resumes(c, d, got, input) && ReadFrame(c, input).Frame?
    ensures |ReadFrame(c, input).rest| < |input|
    ensures Resumes(c, d, got + [ReadFrame(c, input).msg], ReadFrame(c, input).rest)
  {
    var f := ReadFrame(c, input);
    DecodeAllStep(c, input);
    assert got + DecodeAll(c, input).msgs == (got + [f.msg]) + DecodeAll(c, f.rest).msgs;
  }

  /** A failed framing step is where the loop stops: everything has been
      decoded and the unread bytes are the remainder. */
  lemma ResumesAtFailure(c: Codec, d: Decoded, got: seq<Message>, input: Bytes)
    requires c.headLen > 0 && Resumes(c, d, got, input) && ReadFrame(c, input).Fail?
    ensures got == d.msgs && input == d.rest
  {
    DecodeAllStep(c, input);
    assert got + [] == got;
  }

  /** One frame as a peer puts it on the wire. */
  datatype WireFrame = WireFrame(head: Bytes, body: Bytes)

  /** A header the codec accepts, followed by exactly the body it announces. */
  predicate WellFormed(c: Codec, f: WireFrame)
  {
    && |f.head| == c.headLen
    && c.unpack(f.head).Some?
    && |f.body| == BodyLen(c.headLen, c.unpack(f.head).value)
  }

  /** The message a well-formed frame carries. */
  function MessageOf(c: Codec, f: WireFrame): Message
    requires WellFormed(c, f)
  {
    var h := c.unpack(f.head).value;
    Message(h.msgId, h.msgLen, f.body)
  }

  function MessagesOf(c: Codec, fs: seq<WireFrame>): (ms: seq<Message>)
    requires forall i :: 0 <= i < |fs| ==> WellFormed(c, fs[i])
    ensures |ms| == |fs|
  {
    if fs == [] then [] else [MessageOf(c, fs[0])] + MessagesOf(c, fs[1..])
  }

  /** The bytes of a sequence of frames, back to back. */
  function Flatten(fs: seq<WireFrame>): Bytes
  {
    if fs == [] then [] else fs[0].head + fs[0].body + Flatten(fs[1..])
  }

  /** A well-formed frame is read back whole, and nothing after it is touched. */
  lemma ReadWellFormed(c: Codec, f: WireFrame, tail: Bytes)
    requires WellFormed(c, f)
    ensures ReadFrame(c, f.head + f.body + tail) == Frame(MessageOf(c, f), tail)
  {
    var input := f.head + f.body + tail;
    assert input[..c.headLen] == f.head;
    assert input[c.headLen..c.headLen + |f.body|] == f.body;
    assert input[c.headLen + |f.body|..] == tail;
  }

  /** A peer that writes well-formed frames and then something the reader
      cannot frame (for instance a truncated header when it closes) has every
      frame dispatched, in order, and the loop stops at the tail. */
  lemma {:induction false} DecodeFlatten(c: Codec, fs: seq<WireFrame>, tail: Bytes)
    requires c.headLen > 0
    requires forall i :: 0 <= i < |fs| ==> WellFormed(c, fs[i])
    requires ReadFrame(c, tail).Fail?
    ensures DecodeAll(c, Flatten(fs) + tail) == Decoded(MessagesOf(c, fs), tail, ReadFrame(c, tail).err)
    decreases |fs|
  {
    if fs == [] {
      assert Flatten(fs) + tail == tail;
    } else {
      var rest := Flatten(fs[1..]) + tail;
      assert Flatten(fs) + tail == fs[0].head + fs[0].body + rest;
      ReadWellFormed(c, fs[0], rest);
      DecodeFlatten(c, fs[1..], tail);
    }
  }

  /** A header announcing a body, followed by fewer bytes than announced (the
      peer closed mid-payload), ends the loop with a short body read. */
  lemma TruncatedBody(c: Codec, head: Bytes, partial: Bytes)
    requires |head| == c.headLen && c.unpack(head).Some?
    requires |partial| < BodyLen(c.headLen, c.unpack(head).value)
    ensures ReadFrame(c, head + partial) == Fail(ShortBody)
  {
    assert (head + partial)[..c.headLen] == head;
  }
}
