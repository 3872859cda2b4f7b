/**
 The wire format between client and gateway: EncodeFrame, TryDecodeFrame and the loop that cuts a TCP
 stream into frames. Reads may split the stream anywhere; the frames dispatched are those of a greedy
 parse of all bytes received.
 */
module Framing {

  type byte = x: int | 0 <= x < 256
  type uint16 = x: int | 0 <= x < 0x1_0000

  const MAX_FRAME_SIZE := 1024 * 1024
  const FRAME_HEADER_SIZE := 8
  const FLAG_HEARTBEAT := 8

  datatype Packet = Packet(msgId: uint16, flags: uint16, body: seq<byte>)

  datatype Decoded = NeedMore | Malformed | Got(packet: Packet)

  function U16(hi: byte, lo: byte): uint16 {
    hi as int * 0x100 + lo as int
  }

  function U32(b0: byte, b1: byte, b2: byte, b3: byte): nat {
    b0 as int * 0x100_0000 + b1 as int * 0x1_0000 + b2 as int * 0x100 + b3 as int
  }

  /** The length field at the front of a buffer. */
  function LengthField(buf: seq<byte>): nat
    requires FRAME_HEADER_SIZE <= |buf|
  {
    U32(buf[0], buf[1], buf[2], buf[3])
  }

  function PutU16(v: uint16): seq<byte> {
    [v / 0x100, v % 0x100]
  }

  function PutU32(v: nat): seq<byte>
    requires v < 0x1_0000_0000
  {
    [v / 0x100_0000, v / 0x1_0000 % 0x100, v / 0x100 % 0x100, v % 0x100]
  }

  /** The length field is 32 bits wide. */
  function FrameLength(body: seq<byte>): nat {
    (FRAME_HEADER_SIZE + |body|) % 0x1_0000_0000
  }

  /** The bytes of a frame; EncodeFrame panics when the length field has wrapped below 8. */
  function Encoded(p: Packet): seq<byte>
    requires FRAME_HEADER_SIZE <= FrameLength(p.body)
  {
    PutU32(FrameLength(p.body)) + PutU16(p.msgId) + PutU16(p.flags) + p.body[..FrameLength(p.body) - FRAME_HEADER_SIZE]
  }

  function Decode(buf: seq<byte>): Decoded {
    if |buf| < FRAME_HEADER_SIZE then NeedMore
    else
      var frameLen := LengthField(buf);
      if frameLen < FRAME_HEADER_SIZE || frameLen > MAX_FRAME_SIZE then Malformed
      else if |buf| < frameLen then NeedMore
      else Got(Packet(U16(buf[4], buf[5]), U16(buf[6], buf[7]), buf[FRAME_HEADER_SIZE..frameLen]))
  }

  /** A frame that fits the limit the decoder enforces. */
  predicate Fits(p: Packet) {
    FRAME_HEADER_SIZE + |p.body| <= MAX_FRAME_SIZE
  }

  /* ---------- the two operations on buffers ---------- */

  /** null stands for the run-time panic on a wrapped length field. */
  method EncodeFrame(msgId: uint16, flags: uint16, body: seq<byte>) returns (frame: array?<byte>)
    ensures frame != null <==> FRAME_HEADER_SIZE <= FrameLength(body)
    ensures frame != null ==> fresh(frame) && frame[..] == Encoded(Packet(msgId, flags, body))
  {
    var frameLen := (FRAME_HEADER_SIZE + |body|) % 0x1_0000_0000;
    if frameLen < FRAME_HEADER_SIZE { return null; }
    frame := new byte[frameLen];
    frame[0], frame[1] := frameLen / 0x100_0000, frameLen / 0x1_0000 % 0x100;
    frame[2], frame[3] := frameLen / 0x100 % 0x100, frameLen % 0x100;
    frame[4], frame[5] := msgId / 0x100, msgId % 0x100;
    frame[6], frame[7] := flags / 0x100, flags % 0x100;
    forall k | FRAME_HEADER_SIZE <= k < frameLen {
      frame[k] := body[k - FRAME_HEADER_SIZE];
    }
    ghost var p := Packet(msgId, flags, body);
    assert forall k :: 0 <= k < frameLen ==> frame[..][k] == Encoded(p)[k];
  }

  /** The out-parameters keep the values they had (0, 0, no bytes) unless a frame was decoded. */
  method TryDecodeFrame(buf: seq<byte>) returns (ok: bool, err: bool, msgId: uint16, flags: uint16, body: seq<byte>)
    ensures ok <==> Decode(buf).Got?
    ensures err <==> Decode(buf).Malformed?
    ensures ok ==> Decode(buf) == Got(Packet(msgId, flags, body))
    ensures ok ==> FRAME_HEADER_SIZE + |body| <= |buf|
    ensures !ok ==> msgId == 0 && flags == 0 && body == []
  {
    ok, err, msgId, flags, body := false, false, 0, 0, [];
    if |buf| < FRAME_HEADER_SIZE { return; }
    var frameLen := LengthField(buf);
    if frameLen < FRAME_HEADER_SIZE {
      err := true;
      return;
    }
    if frameLen > MAX_FRAME_SIZE {
      err := true;
      return;
    }
    if |buf| < frameLen { return; }
    ok, msgId, flags, body := true, U16(buf[4], buf[5]), U16(buf[6], buf[7]), buf[FRAME_HEADER_SIZE..frameLen];
  }

  /* ---------- printer and parser ---------- */

  lemma PutU32Law(v: nat)
    requires v < 0x1_0000_0000
    ensures var b := PutU32(v); U32(b[0], b[1], b[2], b[3]) == v
  {
    var v1, v2 := v / 0x100, v / 0x1_0000;
    assert v1 / 0x100 == v2 && v2 / 0x100 == v / 0x100_0000 && v2 < 0x1_0000;
    assert v == v1 * 0x100 + v % 0x100 && v1 == v2 * 0x100 + v1 % 0x100;
    assert v2 == v2 / 0x100 * 0x100 + v2 % 0x100;
  }

  lemma HeaderOf(p: Packet, more: seq<byte>)
    requires FRAME_HEADER_SIZE <= FrameLength(p.body)
    ensures var buf := Encoded(p) + more;
            && |buf| == FrameLength(p.body) + |more| && LengthField(buf) == FrameLength(p.body)
            && U16(buf[4], buf[5]) == p.msgId && U16(buf[6], buf[7]) == p.flags
            && buf[FRAME_HEADER_SIZE..FrameLength(p.body)] == p.body[..FrameLength(p.body) - FRAME_HEADER_SIZE]
  {
    PutU32Law(FrameLength(p.body));
  }

  /** Encoding then decoding gives the frame back exactly when it fits the 1 MiB limit; a panic gives nothing back. */
  lemma RoundTrip(p: Packet, more: seq<byte>)
    ensures (FRAME_HEADER_SIZE <= FrameLength(p.body) && Decode(Encoded(p) + more) == Got(p)) <==>
            8 + |p.body| <= 1048576
  {
    WrappedLength(p.body);
    if FRAME_HEADER_SIZE <= FrameLength(p.body) {
      HeaderOf(p, more);
      WhatComesBack(p, more);
      assert Fits(p) ==> p.body[..|p.body|] == p.body;
    }
  }

  /**
   The bytes on the wire: length, message id and flags, most significant byte first, then the body. The
   length counts the eight bytes of the header.
   */
  lemma WireLayout(p: Packet)
    requires 8 + |p.body| <= 1048576
    ensures Fits(p) && |Encoded(p)| == 8 + |p.body|
    ensures var b := Encoded(p);
            && BigEndian(b[..4]) == 8 + |p.body| && b[4] as int * 256 + b[5] as int == p.msgId
            && b[6] as int * 256 + b[7] as int == p.flags
            && forall k :: 0 <= k < |p.body| ==> b[8 + k] == p.body[k]
  {
    HeaderOf(p, []);
    assert Encoded(p) + [] == Encoded(p);
    assert p.body[..|p.body|] == p.body;
    FourBytes(Encoded(p));
  }

  /** Bytes as a number, the most significant one first. */
  function BigEndian(bytes: seq<byte>): nat {
    if bytes == [] then 0 else BigEndian(bytes[..|bytes| - 1]) * 256 + bytes[|bytes| - 1] as nat
  }

  lemma FourBytes(buf: seq<byte>)
    requires 4 <= |buf|
    ensures BigEndian(buf[..4]) == U32(buf[0], buf[1], buf[2], buf[3])
  {
    assert buf[..4][..3] == buf[..3] && buf[..3][..2] == buf[..2] && buf[..2][..1] == buf[..1] && buf[..1][..0] == [];
    assert BigEndian(buf[..1]) == buf[0] as nat;
    assert BigEndian(buf[..2]) == buf[0] as nat * 256 + buf[1] as nat;
    assert BigEndian(buf[..3]) == (buf[0] as nat * 256 + buf[1] as nat) * 256 + buf[2] as nat;
  }

  /**
   A length below 8 or above 1048576 is an error as soon as eight bytes are there; otherwise that many bytes
   are awaited.
   */
  lemma LengthDecides(buf: seq<byte>)
    ensures |buf| < 8 ==> Decode(buf).NeedMore?
    ensures 8 <= |buf| ==> var n := BigEndian(buf[..4]);
              && (Decode(buf).Malformed? <==> n < 8 || 1048576 < n)
              && (Decode(buf).Got? <==> 8 <= n <= 1048576 && n <= |buf|)
  {
    if 8 <= |buf| { FourBytes(buf); }
  }

  lemma WrappedLength(body: seq<byte>)
    ensures if FRAME_HEADER_SIZE + |body| <= MAX_FRAME_SIZE then FrameLength(body) == FRAME_HEADER_SIZE + |body|
            else FrameLength(body) > MAX_FRAME_SIZE || FrameLength(body) < FRAME_HEADER_SIZE + |body|
  {
  }

  lemma WhatComesBack(p: Packet, more: seq<byte>)
    requires FRAME_HEADER_SIZE <= FrameLength(p.body)
    ensures Decode(Encoded(p) + more) == if FrameLength(p.body) > MAX_FRAME_SIZE then Malformed
                                         else Got(p.(body := p.body[..FrameLength(p.body) - FRAME_HEADER_SIZE]))
  {
    HeaderOf(p, more);
  }

  /** What was decoded is what stands at the front of the buffer. */
  lemma DecodedIsPrefix(buf: seq<byte>)
    requires Decode(buf).Got?
    ensures var p := Decode(buf).packet;
            Fits(p) && FRAME_HEADER_SIZE + |p.body| <= |buf| && Encoded(p) == buf[..FRAME_HEADER_SIZE + |p.body|]
  {
    var p := Decode(buf).packet;
    var n := FRAME_HEADER_SIZE + |p.body|;
    U32Bytes(buf[0], buf[1], buf[2], buf[3]);
    assert FrameLength(p.body) == n == LengthField(buf);
    assert PutU16(p.msgId) == [buf[4], buf[5]] && PutU16(p.flags) == [buf[6], buf[7]];
    assert p.body[..n - FRAME_HEADER_SIZE] == buf[FRAME_HEADER_SIZE..n];
    assert buf[..n]
      == [buf[0], buf[1], buf[2], buf[3]] + [buf[4], buf[5]] + [buf[6], buf[7]] + buf[FRAME_HEADER_SIZE..n];
  }

  lemma U32Bytes(b0: byte, b1: byte, b2: byte, b3: byte)
    ensures U32(b0, b1, b2, b3) < 0x1_0000_0000 && PutU32(U32(b0, b1, b2, b3)) == [b0, b1, b2, b3]
  {
    var v := U32(b0, b1, b2, b3);
    assert v / 0x100 == b0 as int * 0x1_0000 + b1 as int * 0x100 + b2 as int;
    assert v / 0x1_0000 == b0 as int * 0x100 + b1 as int;
    assert v / 0x100_0000 == b0 as int;
  }

  /** The greedy parse: frames from the front until more bytes are needed or the length field is bad. */
  datatype Parsed = Parsed(packets: seq<Packet>, rest: seq<byte>, bad: bool)

  function Parse(bytes: seq<byte>): Parsed
    decreases |bytes|
  {
    match Decode(bytes)
    case NeedMore => Parsed([], bytes, false)
    case Malformed => Parsed([], bytes, true)
    case Got(p) =>
      var tail := Parse(bytes[FRAME_HEADER_SIZE + |p.body|..]);
      Parsed([p] + tail.packets, tail.rest, tail.bad)
  }

  predicate AllFit(packets: seq<Packet>) {
    forall k :: 0 <= k < |packets| ==> Fits(packets[k])
  }

  function Printed(packets: seq<Packet>): seq<byte>
    requires AllFit(packets)
  {
    if packets == [] then []
    else
      assert Fits(packets[0]);
      Encoded(packets[0]) + Printed(packets[1..])
  }

  /** A frame in front of some bytes is the first packet of the parse. */
  lemma ParseAfter(p: Packet, tail: seq<byte>)
    requires Fits(p)
    ensures Parse(Encoded(p) + tail) == Parsed([p] + Parse(tail).packets, Parse(tail).rest, Parse(tail).bad)
  {
    RoundTrip(p, tail);
    HeaderOf(p, tail);
    assert (Encoded(p) + tail)[FRAME_HEADER_SIZE + |p.body|..] == tail;
    ParseStep(Encoded(p) + tail, p, tail);
  }

  /** A concatenation of encoded frames parses to exactly those frames, in order. */
  lemma {:induction false} ParsePrinted(packets: seq<Packet>, rest: seq<byte>)
    requires AllFit(packets)
    requires Decode(rest).NeedMore?
    ensures Parse(Printed(packets) + rest) == Parsed(packets, rest, false)
  {
    if packets == [] {
      assert Printed(packets) + rest == rest;
    } else {
      assert packets == [packets[0]] + packets[1..];
      PrintOneMore(packets[0], packets[1..], rest);
      ParsePrinted(packets[1..], rest);
      ParseAfter(packets[0], Printed(packets[1..]) + rest);
    }
  }

  lemma PrintOneMore(p: Packet, packets: seq<Packet>, rest: seq<byte>)
    requires Fits(p) && AllFit(packets)
    ensures AllFit([p] + packets) && Printed([p] + packets) + rest == Encoded(p) + (Printed(packets) + rest)
  {
    assert ([p] + packets)[1..] == packets;
  }

  /** One frame at the front, then the rest. */
  lemma ParseStep(bytes: seq<byte>, p: Packet, tail: seq<byte>)
    requires Decode(bytes) == Got(p) && tail == bytes[FRAME_HEADER_SIZE + |p.body|..]
    ensures Parse(bytes) == Parsed([p] + Parse(tail).packets, Parse(tail).rest, Parse(tail).bad)
  {
  }

  lemma FrontAndTail(bytes: seq<byte>, p: Packet, tail: seq<byte>)
    requires Decode(bytes) == Got(p) && tail == bytes[FRAME_HEADER_SIZE + |p.body|..]
    ensures Fits(p) && Encoded(p) + tail == bytes
  {
    DecodedIsPrefix(bytes);
    Halves(bytes, FRAME_HEADER_SIZE + |p.body|);
  }

  lemma Halves(bytes: seq<byte>, n: nat)
    requires n <= |bytes|
    ensures bytes[..n] + bytes[n..] == bytes
  {
  }

  lemma PrintAfter(bytes: seq<byte>, p: Packet, tail: seq<byte>)
    requires Decode(bytes) == Got(p) && tail == bytes[FRAME_HEADER_SIZE + |p.body|..] && AllFit(Parse(tail).packets)
    requires Printed(Parse(tail).packets) + Parse(tail).rest == tail
    ensures AllFit(Parse(bytes).packets) && Printed(Parse(bytes).packets) + Parse(bytes).rest == bytes
  {
    FrontAndTail(bytes, p, tail);
    ParseStep(bytes, p, tail);
    PrintOneMore(p, Parse(tail).packets, Parse(tail).rest);
  }

  /** Nothing is lost or invented: printing what was parsed, and the rest, gives the bytes back. */
  lemma {:induction false} PrintParsed(bytes: seq<byte>)
    ensures AllFit(Parse(bytes).packets)
    ensures Printed(Parse(bytes).packets) + Parse(bytes).rest == bytes
    ensures if Parse(bytes).bad then Decode(Parse(bytes).rest).Malformed? else Decode(Parse(bytes).rest).NeedMore?
    decreases |bytes|
  {
    if Decode(bytes).Got? {
      var p := Decode(bytes).packet;
      var tail := bytes[FRAME_HEADER_SIZE + |p.body|..];
      ParseStep(bytes, p, tail);
      PrintParsed(tail);
      PrintAfter(bytes, p, tail);
    } else {
      assert [] + bytes == bytes;
    }
  }

  /* ---------- chunking ---------- */

  lemma DecodeMonotone(bytes: seq<byte>, more: seq<byte>)
    requires !Decode(bytes).NeedMore?
    ensures Decode(bytes + more) == Decode(bytes)
  {
    var n := LengthField(bytes);
    assert LengthField(bytes + more) == n;
    if FRAME_HEADER_SIZE <= n <= |bytes| {
      assert (bytes + more)[FRAME_HEADER_SIZE..n] == bytes[FRAME_HEADER_SIZE..n];
    }
  }

  /** The parse p of some bytes, continued with more. */
  function Continue(p: Parsed, more: seq<byte>): Parsed {
    var r := Parse(p.rest + more);
    Parsed(p.packets + r.packets, r.rest, r.bad)
  }

  /** More bytes never change what was parsed already. */
  lemma {:induction false} ParseConcat(bytes: seq<byte>, more: seq<byte>)
    ensures var p, q := Parse(bytes), Parse(bytes + more);
            if p.bad then q.bad && q.packets == p.packets else q == Continue(p, more)
    decreases |bytes|
  {
    match Decode(bytes)
    case NeedMore =>
      assert [] + Parse(bytes + more).packets == Parse(bytes + more).packets;
    case Malformed =>
      DecodeMonotone(bytes, more);
    case Got(p) =>
      DecodeMonotone(bytes, more);
      var n := FRAME_HEADER_SIZE + |p.body|;
      var tail := bytes[n..];
      assert (bytes + more)[n..] == tail + more;
      ParseStep(bytes, p, tail);
      ParseStep(bytes + more, p, tail + more);
      ParseConcat(tail, more);
      if !Parse(tail).bad { ConsAssoc(p, Parse(tail).packets, Parse(Parse(tail).rest + more).packets); }
  }

  lemma ConsAssoc(p: Packet, a: seq<Packet>, b: seq<Packet>)
    ensures [p] + (a + b) == ([p] + a) + b
  {
  }

  /* ---------- the connection loop ---------- */

  /** A read that fails ends the connection; bytes that came with the error are not looked at. */
  datatype Read = Data(bytes: seq<byte>) | Failed(bytes: seq<byte>)

  datatype Status = Waiting | ReadFailed | FrameError

  datatype Handler = Login | Register | Match | OpInput | RankQuery | Unknown

  /** What a frame makes the gateway do. */
  datatype Effect = Refresh | Pong | Handle(handler: Handler, body: seq<byte>)

  predicate IsHeartbeat(flags: uint16) {
    flags / FLAG_HEARTBEAT % 2 == 1
  }

  function HandlerOf(msgId: uint16): Handler {
    match msgId
    case 1 => Login
    case 10 => Register
    case 3 => Match
    case 5 => OpInput
    case 8 => RankQuery
    case _ => Unknown
  }

  function EffectsOf(p: Packet): seq<Effect> {
    [Refresh] + [if IsHeartbeat(p.flags) then Pong else Handle(HandlerOf(p.msgId), p.body)]
  }

  function AllEffects(packets: seq<Packet>): seq<Effect> {
    if packets == [] then [] else AllEffects(packets[..|packets| - 1]) + EffectsOf(packets[|packets| - 1])
  }

  /** The bytes that came in before the first failed read. */
  function Received(input: seq<Read>): seq<byte> {
    if input == [] || input[0].Failed? then [] else input[0].bytes + Received(input[1..])
  }

  predicate SomeFailed(input: seq<Read>) {
    exists k :: 0 <= k < |input| && input[k].Failed?
  }

  lemma {:induction false} ReceivedPrefix(input: seq<Read>, i: nat)
    requires i < |input| && forall k :: 0 <= k < i ==> input[k].Data?
    ensures input[i].Data? ==> Received(input[..i + 1]) == Received(input[..i]) + input[i].bytes
    ensures input[i].Failed? ==> Received(input) == Received(input[..i])
  {
    if i != 0 {
      ReceivedPrefix(input[1..], i - 1);
      assert input[..i + 1][1..] == input[1..][..i] && input[..i][1..] == input[1..][..i - 1];
    } else if input[0].Data? {
      assert input[..1][1..] == [];
    }
  }

  lemma {:induction false} ReceivedGrows(input: seq<Read>, i: nat)
    requires i <= |input| && forall k :: 0 <= k < i ==> input[k].Data?
    ensures Received(input) == Received(input[..i]) + Received(input[i..])
  {
    if i != 0 {
      ReceivedGrows(input[1..], i - 1);
      assert input[..i][1..] == input[1..][..i - 1] && input[i..] == input[1..][i - 1..];
    } else {
      assert input[i..] == input;
    }
  }

  lemma {:induction false} EffectsConcat(packets: seq<Packet>, more: seq<Packet>)
    ensures AllEffects(packets + more) == AllEffects(packets) + AllEffects(more)
  {
    if more == [] {
      assert packets + more == packets;
    } else {
      assert (packets + more)[..|packets + more| - 1] == packets + more[..|more| - 1];
      EffectsConcat(packets, more[..|more| - 1]);
    }
  }

  lemma EffectsOfOneMore(packets: seq<Packet>, p: Packet)
    ensures AllEffects(packets + [p]) == AllEffects(packets) + EffectsOf(p)
  {
    assert (packets + [p])[..|packets|] == packets;
  }

  /** Packets cut off already, in front of the parse of what is left. */
  function Prepend(done: seq<Packet>, q: Parsed): Parsed {
    Parsed(done + q.packets, q.rest, q.bad)
  }

  lemma CutOff(done: seq<Packet>, buf: seq<byte>, p: Packet)
    requires Decode(buf) == Got(p)
    ensures Prepend(done, Parse(buf)) == Prepend(done + [p], Parse(buf[FRAME_HEADER_SIZE + |p.body|..]))
  {
    var tail := buf[FRAME_HEADER_SIZE + |p.body|..];
    ParseStep(buf, p, tail);
    assert done + ([p] + Parse(tail).packets) == (done + [p]) + Parse(tail).packets;
  }

  lemma NothingToCutOff(done: seq<Packet>, buf: seq<byte>)
    requires !Decode(buf).Got?
    ensures Prepend(done, Parse(buf)) == Parsed(done, buf, Decode(buf).Malformed?)
  {
    assert done + [] == done;
  }

  /** The inner loop: cuts off and dispatches frames while the buffer holds a whole one. */
  method DispatchFrames(bytes: seq<byte>) returns (buf: seq<byte>, effects: seq<Effect>, err: bool)
    ensures var p := Parse(bytes);
            effects == AllEffects(p.packets) && err == p.bad && (!err ==> buf == p.rest)
  {
    buf, effects, err := bytes, [], false;
    ghost var done: seq<Packet> := [];
    assert [] + Parse(bytes).packets == Parse(bytes).packets;
    while |buf| > 0
      invariant effects == AllEffects(done) && !err
      invariant Parse(bytes) == Prepend(done, Parse(buf))
      decreases |buf|
    {
      var ok, bad, msgId, flags, body := TryDecodeFrame(buf);
      if bad {
        NothingToCutOff(done, buf);
        err := true;
        return;
      }
      if !ok {
        NothingToCutOff(done, buf);
        return;
      }
      ghost var p := Packet(msgId, flags, body);
      CutOff(done, buf, p);
      EffectsOfOneMore(done, p);
      buf := buf[FRAME_HEADER_SIZE + |body|..];
      done := done + [p];
      ghost var before := effects;
      effects := effects + [Refresh];
      if IsHeartbeat(flags) {
        effects := effects + [Pong];
        assert effects == before + EffectsOf(p);
        continue;
      }
      effects := effects + [Handle(HandlerOf(msgId), body)];
      assert effects == before + EffectsOf(p);
    }
    NothingToCutOff(done, buf);
  }

  /** What the loop has done after i successful reads. */
  ghost predicate Caught(input: seq<Read>, i: nat, effects: seq<Effect>, buf: seq<byte>)
    requires i <= |input|
  {
    && (forall k :: 0 <= k < i ==> input[k].Data?)
    && var p := Parse(Received(input[..i])); effects == AllEffects(p.packets) && buf == p.rest && !p.bad
  }

  lemma CaughtUp(input: seq<Read>, i: nat, effects: seq<Effect>, buf: seq<byte>)
    requires i < |input| && Caught(input, i, effects, buf) && input[i].Data?
    requires !Parse(buf + input[i].bytes).bad
    ensures var r := Parse(buf + input[i].bytes); Caught(input, i + 1, effects + AllEffects(r.packets), r.rest)
  {
    ReceivedPrefix(input, i);
    var before := Parse(Received(input[..i]));
    ParseConcat(Received(input[..i]), input[i].bytes);
    EffectsConcat(before.packets, Parse(buf + input[i].bytes).packets);
  }

  lemma ReceivedAround(input: seq<Read>, i: nat)
    requires i < |input| && forall k :: 0 <= k <= i ==> input[k].Data?
    ensures Received(input) == Received(input[..i]) + input[i].bytes + Received(input[i + 1..])
  {
    ReceivedPrefix(input, i);
    ReceivedGrows(input, i + 1);
  }

  lemma BrokenOff(input: seq<Read>, i: nat, effects: seq<Effect>, buf: seq<byte>)
    requires i < |input| && Caught(input, i, effects, buf) && input[i].Data?
    requires Parse(buf + input[i].bytes).bad
    ensures var p := Parse(Received(input));
            p.bad && AllEffects(p.packets) == effects + AllEffects(Parse(buf + input[i].bytes).packets)
  {
    ReceivedAround(input, i);
    BadStaysBad(Received(input[..i]), input[i].bytes, Received(input[i + 1..]));
    EffectsConcat(Parse(Received(input[..i])).packets, Parse(buf + input[i].bytes).packets);
  }

  /** A bad length field ends the parse, whatever follows. */
  lemma BadStaysBad(bytes: seq<byte>, more: seq<byte>, rest: seq<byte>)
    requires !Parse(bytes).bad && Parse(Parse(bytes).rest + more).bad
    ensures var p := Parse(bytes + more + rest);
            p.bad && p.packets == Parse(bytes).packets + Parse(Parse(bytes).rest + more).packets
  {
    ParseConcat(bytes, more);
    ParseConcat(bytes + more, rest);
  }

  datatype Service = Service(effects: seq<Effect>, status: Status)

  /** What a connection comes to: the greedy parse of all bytes received, whatever the reads were. */
  ghost function Served(input: seq<Read>): Service {
    var p := Parse(Received(input));
    Service(AllEffects(p.packets), if p.bad then FrameError else if SomeFailed(input) then ReadFailed else Waiting)
  }

  /**
   The connection loop. Whatever the reads, the effects are those of the greedy parse of the bytes
   received, and the connection ends with a frame error exactly when that parse hits a bad length.
   */
  method HandleClientConnection(input: seq<Read>) returns (effects: seq<Effect>, status: Status)
    ensures Service(effects, status) == Served(input)
  {
    var buf: seq<byte> := [];
    effects := [];
    for i := 0 to |input|
      invariant Caught(input, i, effects, buf)
    {
      if input[i].Failed? {
        ReceivedPrefix(input, i);
        return effects, ReadFailed;
      }
      var rest, more, err := DispatchFrames(buf + input[i].bytes);
      if err {
        BrokenOff(input, i, effects, buf);
        return effects + more, FrameError;
      }
      CaughtUp(input, i, effects, buf);
      buf := rest;
      effects := effects + more;
    }
    assert input[..|input|] == input;
    status := Waiting;
  }

  /** Successful reads that deliver the given pieces of a stream. */
  function Deliver(pieces: seq<seq<byte>>): seq<Read> {
    if pieces == [] then [] else [Data(pieces[0])] + Deliver(pieces[1..])
  }

  function Join(pieces: seq<seq<byte>>): seq<byte> {
    if pieces == [] then [] else pieces[0] + Join(pieces[1..])
  }

  lemma {:induction false} DeliveredIsReceived(pieces: seq<seq<byte>>)
    ensures Received(Deliver(pieces)) == Join(pieces)
  {
    if pieces != [] { DeliveredIsReceived(pieces[1..]); }
  }

  lemma {:induction false} NoneFailed(pieces: seq<seq<byte>>)
    ensures !SomeFailed(Deliver(pieces))
  {
    if pieces != [] {
      NoneFailed(pieces[1..]);
      var rest := Deliver(pieces[1..]);
      forall k | 0 <= k < |Deliver(pieces)| ensures !Deliver(pieces)[k].Failed? {
        if 0 < k { assert Deliver(pieces)[k] == rest[k - 1]; }
      }
    }
  }

  /**
   However a run of encoded frames is cut into pieces, the connection handles exactly these frames, in order,
   and then waits for more.
   */
  lemma StreamArrives(packets: seq<Packet>, pieces: seq<seq<byte>>)
    requires AllFit(packets)
    requires Join(pieces) == Printed(packets)
    ensures Served(Deliver(pieces)) == Service(AllEffects(packets), Waiting)
  {
    DeliveredIsReceived(pieces);
    NoneFailed(pieces);
    ParsePrinted(packets, []);
    assert Printed(packets) + [] == Printed(packets);
  }

  lemma {:induction false} ReceivedUntil(pieces: seq<seq<byte>>, last: seq<byte>, more: seq<Read>)
    ensures Received(Deliver(pieces) + [Failed(last)] + more) == Join(pieces)
    ensures SomeFailed(Deliver(pieces) + [Failed(last)] + more)
  {
    var input := Deliver(pieces) + [Failed(last)] + more;
    if pieces == [] {
      assert input[0] == Failed(last);
    } else {
      var rest := Deliver(pieces[1..]) + [Failed(last)] + more;
      assert input == [Data(pieces[0])] + rest;
      assert input[1..] == rest;
      ReceivedUntil(pieces[1..], last, more);
      var k :| 0 <= k < |rest| && rest[k].Failed?;
      assert input[k + 1] == rest[k];
    }
  }

  /**
   A read that fails ends the connection: what came before it is handled, unless a bad length has ended it
   already, and neither the bytes that came with the failure nor anything later.
   */
  lemma FailureEnds(pieces: seq<seq<byte>>, last: seq<byte>, more: seq<Read>)
    ensures var s := Served(Deliver(pieces) + [Failed(last)] + more);
            s == Service(Served(Deliver(pieces)).effects, if Parse(Join(pieces)).bad then FrameError else ReadFailed)
  {
    ReceivedUntil(pieces, last, more);
    DeliveredIsReceived(pieces);
  }

  /** What the gateway does with a packet besides noting that the client is there. */
  ghost predicate GoesTo(p: Packet, e: Effect) {
    if p.flags / 8 % 2 == 1 then e == Pong
    else
      && e.Handle? && e.body == p.body
      && (e.handler == Login <==> p.msgId == 1) && (e.handler == Register <==> p.msgId == 10)
      && (e.handler == Match <==> p.msgId == 3) && (e.handler == OpInput <==> p.msgId == 5)
      && (e.handler == RankQuery <==> p.msgId == 8)
  }

  /** Each packet makes two effects: it counts as a sign of life, and goes where its flags and id say. */
  ghost predicate Dispatched(packets: seq<Packet>, effects: seq<Effect>) {
    && |effects| == 2 * |packets|
    && forall k :: 0 <= k < |packets| ==> effects[2 * k] == Refresh && GoesTo(packets[k], effects[2 * k + 1])
  }

  lemma DispatchOneMore(packets: seq<Packet>, effects: seq<Effect>, p: Packet, e: Effect)
    requires Dispatched(packets, effects) && GoesTo(p, e)
    ensures Dispatched(packets + [p], effects + [Refresh, e])
  {
    var ps, es := packets + [p], effects + [Refresh, e];
    forall k | 0 <= k < |ps| ensures es[2 * k] == Refresh && GoesTo(ps[k], es[2 * k + 1]) {
      if k < |packets| { assert es[2 * k] == effects[2 * k] && es[2 * k + 1] == effects[2 * k + 1]; }
    }
  }

  lemma {:induction false} PacketsAreDispatched(packets: seq<Packet>)
    ensures Dispatched(packets, AllEffects(packets))
  {
    if packets != [] {
      var init, last := packets[..|packets| - 1], packets[|packets| - 1];
      PacketsAreDispatched(init);
      var e := EffectsOf(last)[1];
      assert EffectsOf(last) == [Refresh, e];
      DispatchOneMore(init, AllEffects(init), last, e);
      assert packets == init + [last];
    }
  }

  /**
   However a stream of frames is cut into reads, its packets are dispatched one by one: a heartbeat is
   answered, and any other goes with its body to the handler of its message id.
   */
  lemma StreamIsDispatched(packets: seq<Packet>, pieces: seq<seq<byte>>)
    requires AllFit(packets) && Join(pieces) == Printed(packets)
    ensures Dispatched(packets, Served(Deliver(pieces)).effects)
  {
    StreamArrives(packets, pieces);
    PacketsAreDispatched(packets);
  }
}
