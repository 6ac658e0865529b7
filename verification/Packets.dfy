/** Whole packets of frames: `BuildDataPacket` and `ProcessFrameData`, and the round trip between
    them. */
module Packets {
  import opened Wrappers
  import opened Bytes
  import opened DataIo
  import opened Numbers
  import opened Visitor
  import opened AckFrames
  import opened AckReading
  import opened AckRoundTrip
  import opened Frames
  import opened FrameReading

  ghost predicate ValidFrames(h: Header, frames: seq<Frame>) {
    ValidHeader(h) && forall i :: 0 <= i < |frames| ==> ValidFrame(h, frames[i])
  }

  // ---------------------------------------------------------------------------
  // Writing a packet
  // ---------------------------------------------------------------------------

  /** The frames written one after the other into `free` bytes; none if one of them fails. */
  function PacketBytes(h: Header, frames: seq<Frame>, free: nat): Option<seq<Byte>>
    requires ValidFrames(h, frames)
  {
    if frames == [] then Some([]) else
    var b := FrameBytes(h, frames[0], |frames| == 1, free);
    if b.None? || |b.value| > free then None else
    var rest := PacketBytes(h, frames[1..], free - |b.value|);
    if rest.None? then None else Some(b.value + rest.value)
  }

  lemma Concat4(s: seq<Byte>, a: seq<Byte>, b: seq<Byte>, c: seq<Byte>, d: seq<Byte>)
    ensures s + (a + b + c + d) == s + a + b + c + d
  {
  }

  /** The loop body of `BuildDataPacket`. */
  method AppendFrame(h: Header, f: Frame, last: bool, w: DataWriter) returns (ok: bool)
    requires ValidHeader(h) && ValidFrame(h, f) && w.Valid()
    modifies w
    ensures w.Valid()
    ensures var free := w.capacity - old(|w.buffer|);
            var b := FrameBytes(h, f, last, free);
            ok <==> b.Some? && |b.value| <= free
    ensures ok ==>
      w.buffer == old(w.buffer) + FrameBytes(h, f, last, w.capacity - old(|w.buffer|)).value
  {
    hide AckBytes, Encode, MinBytes, StreamOffsetSize, StreamTypeByte, String16, Truncate, WellFormed, Zeros;
    ghost var s := w.buffer;
    match f {
      case PaddingFrame(n) =>
        ok := AppendPaddingFrame(n, w);
      case StreamFrame(id, fin, offset, data) =>
        StreamSizesFit(id, offset);
        Concat5(s, [StreamTypeByte(fin, !last, MinBytes(id), StreamOffsetSize(offset))],
                Encode(id, MinBytes(id)), Encode(offset, StreamOffsetSize(offset)),
                if last then [] else Encode(|data|, 2), data);
        ok := AppendStreamFrame(id, fin, offset, data, last, w);
      case Ack(ack) =>
        ok := AppendAckFrameAndTypeByte(ack, w);
      case StopWaitingFrame(least) =>
        Concat2(s, [STOP_WAITING_FRAME], Encode(h.packetNumber - least, h.packetNumberLength));
        ok := AppendStopWaitingFrame(h, least, w);
      case MtuDiscoveryFrame =>
        ok := w.WriteBytes([PING_FRAME]);
      case PingFrame =>
        ok := w.WriteBytes([PING_FRAME]);
      case RstStreamFrame(id, code, offset) =>
        Concat4(s, [RST_STREAM_FRAME], Encode(id, 4), Encode(offset, 8), Encode(code, 4));
        ok := AppendRstStreamFrame(id, code, offset, w);
      case ConnectionCloseFrame(code, details) =>
        Concat3(s, [CONNECTION_CLOSE_FRAME], Encode(code, 4), String16(Truncate(details)));
        ok := AppendConnectionCloseFrame(code, details, w);
      case GoAwayFrame(code, id, reason) =>
        Concat4(s, [GOAWAY_FRAME], Encode(code, 4), Encode(id, 4), String16(Truncate(reason)));
        ok := AppendGoAwayFrame(code, id, reason, w);
      case WindowUpdateFrame(id, offset) =>
        Concat3(s, [WINDOW_UPDATE_FRAME], Encode(id, 4), Encode(offset, 8));
        ok := AppendWindowUpdateFrame(id, offset, w);
      case BlockedFrame(id) =>
        Concat2(s, [BLOCKED_FRAME], Encode(id, 4));
        ok := AppendBlockedFrame(id, w);
    }
  }

  /** `BuildDataPacket`, after the packet header: the length of the packet, or 0 on failure. */
  method BuildDataPacket(h: Header, frames: seq<Frame>, w: DataWriter) returns (length: nat)
    requires ValidFrames(h, frames) && w.Valid()
    modifies w
    ensures w.Valid()
    ensures var packet := PacketBytes(h, frames, w.capacity - old(|w.buffer|));
            && (packet.None? ==> length == 0)
            && (packet.Some? ==> w.buffer == old(w.buffer) + packet.value && length == |w.buffer|)
  {
    hide FrameBytes;
    ghost var start, goal := w.buffer, PacketBytes(h, frames, w.capacity - |w.buffer|);
    var i, ok := 0, true;
    assert frames[0..] == frames;
    while ok && i < |frames|
      invariant 0 <= i <= |frames| && w.Valid()
      invariant ok ==> Completes(goal, start, w.buffer, PacketBytes(h, frames[i..], w.capacity - |w.buffer|))
      invariant !ok ==> goal.None?
      decreases ok, |frames| - i
    {
      FirstFrame(h, frames, i, w.capacity - |w.buffer|, goal, start, w.buffer);
      ok := AppendFrame(h, frames[i], i == |frames| - 1, w);
      i := i + 1;
    }
    length := if ok then |w.buffer| else 0;
  }

  /** From `start`, the whole packet is what the buffer holds and what is still to be written. */
  ghost predicate Completes(goal: Option<seq<Byte>>, start: seq<Byte>, buffer: seq<Byte>, more: Option<seq<Byte>>) {
    if goal.None? then more.None? else more.Some? && start + goal.value == buffer + more.value
  }

  lemma FirstFrame(h: Header, frames: seq<Frame>, i: nat, free: nat, goal: Option<seq<Byte>>,
                   start: seq<Byte>, buffer: seq<Byte>)
    requires ValidFrames(h, frames) && i < |frames|
    requires Completes(goal, start, buffer, PacketBytes(h, frames[i..], free))
    ensures var b := FrameBytes(h, frames[i], i == |frames| - 1, free);
            if b.None? || |b.value| > free then goal.None?
            else Completes(goal, start, buffer + b.value, PacketBytes(h, frames[i + 1..], free - |b.value|))
  {
    assert frames[i..][0] == frames[i] && frames[i..][1..] == frames[i + 1..];
    var b := FrameBytes(h, frames[i], i == |frames| - 1, free);
    if b.Some? && |b.value| <= free {
      var more := PacketBytes(h, frames[i + 1..], free - |b.value|);
      if more.Some? {
        Concat2(buffer, b.value, more.value);
      }
    }
  }

  // ---------------------------------------------------------------------------
  // Reading a packet
  // ---------------------------------------------------------------------------

  /** The loop of `ProcessFrameData`: each turn takes at least the type byte. */
  function ParseFrames(h: Header, s: seq<Byte>): Parsed
    decreases |s|
  {
    if s == [] then Parsed(true, [], []) else
    FrameConsumes(h, s[0], s[1..]);
    var first := ParseFrame(h, s[0], s[1..]);
    if !first.ok then Parsed(false, first.log + [OnError(FrameError(s[0]))], []) else
    var more := ParseFrames(h, first.rest);
    Parsed(more.ok, first.log + more.log, more.rest)
  }

  /** `ProcessFrameData`, on any bytes at all. */
  method ProcessFrameData(reader: DataReader, h: Header, visitor: EventLog) returns (ok: bool)
    requires reader.Valid()
    modifies reader`pos, visitor
    ensures reader.Valid()
    ensures old(reader.Rest()) == [] ==> !ok && visitor.log == old(visitor.log) + [OnError(MissingPayload)]
    ensures old(reader.Rest()) != [] ==>
      ok == ParseFrames(h, old(reader.Rest())).ok
    ensures old(reader.Rest()) != [] ==>
      visitor.log == old(visitor.log) + ParseFrames(h, old(reader.Rest())).log
  {
    if reader.pos == |reader.data| {
      visitor.Notify(OnError(MissingPayload));
      return false;
    }
    ghost var start, goal := visitor.log, ParseFrames(h, reader.Rest());
    ok := true;
    while ok && reader.pos < |reader.data|
      invariant reader.Valid()
      invariant ok ==> goal.ok == ParseFrames(h, reader.Rest()).ok
      invariant ok ==> start + goal.log == visitor.log + ParseFrames(h, reader.Rest()).log
      invariant !ok ==> !goal.ok && visitor.log == start + goal.log
      decreases ok, |reader.Rest()|
    {
      ghost var s := reader.Rest();
      var typeByte;
      ok, typeByte := reader.ReadBytes(1);
      var frameType := typeByte[0];
      ghost var first := ParseFrame(h, frameType, s[1..]);
      FrameConsumes(h, frameType, s[1..]);
      ghost var more := ParseFrames(h, first.rest).log;
      LogConcat(visitor.log, first.log, if first.ok then more else [OnError(FrameError(frameType))]);
      ok := ProcessFrame(reader, h, visitor, frameType);
      if !ok {
        visitor.Notify(OnError(FrameError(frameType)));
      }
    }
  }

  // ---------------------------------------------------------------------------
  // The round trip of one frame
  // ---------------------------------------------------------------------------

  /** What a frame written with `free` bytes left is reported as: error strings cut to 256 bytes,
      error codes clamped, MTU discovery as a ping, an ACK as far as its blocks were written. A stream
      frame that is the last of its packet has no length: of 2^16 bytes of data or more the reader's
      16-bit length keeps the low bits only. The framer refuses packets above libquic's kMaxPacketSize
      before it reads a frame, so this does not happen to packets it receives. */
  function FrameEvents(h: Header, f: Frame, free: nat): seq<Event>
    requires ValidFrame(h, f)
  {
    match f
    case PaddingFrame(n) => [OnPaddingFrame(if n > 0 then n else free)]
    case StreamFrame(id, fin, offset, data) => [OnStreamFrame(id, fin, offset, data[..|data| % U16])]
    case Ack(ack) => AckLog(ack, NumBlocksWritten(ack, free))
    case StopWaitingFrame(least) => [OnStopWaitingFrame(least)]
    case MtuDiscoveryFrame => [OnPingFrame]
    case PingFrame => [OnPingFrame]
    case RstStreamFrame(id, code, offset) => [OnRstStreamFrame(id, Clamp(code, QUIC_STREAM_LAST_ERROR), offset)]
    case ConnectionCloseFrame(code, details) =>
      [OnConnectionCloseFrame(Clamp(code, QUIC_LAST_ERROR), Truncate(details))]
    case GoAwayFrame(code, id, reason) => [OnGoAwayFrame(Clamp(code, QUIC_LAST_ERROR), id, Truncate(reason))]
    case WindowUpdateFrame(id, offset) => [OnWindowUpdateFrame(id, offset)]
    case BlockedFrame(id) => [OnBlockedFrame(id)]
  }

  /** The frame can be read where it was written: an ACK frame needs room for a block. */
  ghost predicate Readable(h: Header, f: Frame, free: nat)
    requires ValidFrame(h, f)
  {
    f.Ack? ==> Roomy(f.ack, free)
  }

  /** `b` followed by `rest` reads as the given events and leaves `rest`. */
  ghost predicate ReadsAs(h: Header, b: seq<Byte>, rest: seq<Byte>, events: seq<Event>) {
    && b != [] && b[0] != PADDING_FRAME
    && ParseFrame(h, b[0], b[1..] + rest).ok
    && ParseFrame(h, b[0], b[1..] + rest).log == events
    && ParseFrame(h, b[0], b[1..] + rest).rest == rest
  }

  lemma StreamTypeFields(fin: bool, hasLength: bool, idSize: nat, offsetSize: nat)
    requires 1 <= idSize <= 4 && offsetSize <= 8 && offsetSize != 1
    ensures var t := StreamTypeByte(fin, hasLength, idSize, offsetSize);
            var bits := (t / 4) % 8;
            && t >= 0x80 && t % 4 + 1 == idSize
            && (if bits > 0 then bits + 1 else 0) == offsetSize
            && ((t / 32) % 2 == 1 <==> hasLength) && ((t / 64) % 2 == 1 <==> fin)
  {
  }

  lemma LastDataReadsBack(data: seq<Byte>, id: nat, fin: bool, offset: nat)
    ensures ParseStreamData([] + data + [], false, id, fin, offset)
         == Parsed(true, [OnStreamFrame(id, fin, offset, data[..|data| % U16])], [])
  {
    assert [] + data + [] == data;
  }

  lemma SizedDataReadsBack(data: seq<Byte>, id: nat, fin: bool, offset: nat, rest: seq<Byte>)
    requires |data| < U16
    ensures var r := ParseStreamData(Encode(|data|, 2) + data + rest, true, id, fin, offset);
            && r.ok && r.log == [OnStreamFrame(id, fin, offset, data[..|data| % U16])] && r.rest == rest
  {
    hide ParseStreamData, Decode, Encode;
    String16ReadsBack(data, rest);
    SizedData(String16(data) + rest, data, id, fin, offset, rest);
    WholeData(data);
  }

  lemma WholeData(data: seq<Byte>)
    requires |data| < U16
    ensures data[..|data| % U16] == data
  {
  }

  lemma SizedData(s: seq<Byte>, data: seq<Byte>, id: nat, fin: bool, offset: nat, rest: seq<Byte>)
    requires |s| >= 2 && Decode(s[..2]) == |data| && |s[2..]| >= |data|
    requires s[2..][..|data|] == data && s[2..][|data|..] == rest
    ensures ParseStreamData(s, true, id, fin, offset).ok
    ensures ParseStreamData(s, true, id, fin, offset).log == [OnStreamFrame(id, fin, offset, data)]
    ensures ParseStreamData(s, true, id, fin, offset).rest == rest
  {
  }

  lemma StreamFieldsReadBack(t: Byte, id: nat, n: nat, offset: nat, m: nat, hasLength: bool, fin: bool, tail: seq<Byte>)
    requires id < Pow256(n) && offset < Pow256(m)
    requires var bits := (t / 4) % 8; t % 4 + 1 == n && (if bits > 0 then bits + 1 else 0) == m
    requires ((t / 32) % 2 == 1 <==> hasLength) && ((t / 64) % 2 == 1 <==> fin)
    ensures ParseStream(t, Encode(id, n) + (Encode(offset, m) + tail))
         == ParseStreamData(tail, hasLength, id, fin, offset)
  {
    ReadField(id, n, Encode(offset, m) + tail);
    ReadField(offset, m, tail);
  }

  lemma StreamReadsBack(h: Header, id: nat, fin: bool, offset: nat, data: seq<Byte>, last: bool, rest: seq<Byte>)
    requires id < U32 && offset < U64 && (if last then rest == [] else |data| < U16)
    requires 1 <= MinBytes(id) <= 4 && StreamOffsetSize(offset) <= 8
    ensures ReadsAs(h, [StreamTypeByte(fin, !last, MinBytes(id), StreamOffsetSize(offset))]
                       + Encode(id, MinBytes(id)) + Encode(offset, StreamOffsetSize(offset))
                       + (if last then [] else Encode(|data|, 2)) + data,
                    rest, [OnStreamFrame(id, fin, offset, data[..|data| % U16])])
  {
    hide ParseStream, ParseStreamData, Encode, Decode, ReadsAs, MinBytes, StreamOffsetSize, StreamTypeByte;
    var n, m := MinBytes(id), StreamOffsetSize(offset);
    var t, c := StreamTypeByte(fin, !last, n, m), if last then [] else Encode(|data|, 2);
    StreamSizesFit(id, offset);
    StreamTypeFields(fin, !last, n, m);
    StreamFieldsReadBack(t, id, n, offset, m, !last, fin, c + data + rest);
    if last {
      LastDataReadsBack(data, id, fin, offset);
    } else {
      SizedDataReadsBack(data, id, fin, offset, rest);
    }
    StreamInPacket(h, t, Encode(id, n), Encode(offset, m), c, data, rest,
                   [OnStreamFrame(id, fin, offset, data[..|data| % U16])]);
  }

  lemma StreamInPacket(h: Header, t: Byte, a: seq<Byte>, b: seq<Byte>, c: seq<Byte>, d: seq<Byte>, rest: seq<Byte>,
                       log: seq<Event>)
    requires t >= 0x80
    requires ParseStream(t, a + (b + (c + d + rest))).ok
    requires ParseStream(t, a + (b + (c + d + rest))).log == log
    requires ParseStream(t, a + (b + (c + d + rest))).rest == rest
    ensures ReadsAs(h, [t] + a + b + c + d, rest, log)
  {
    StreamPieces(t, a, b, c, d, rest);
  }

  lemma StreamPieces(t: Byte, a: seq<Byte>, b: seq<Byte>, c: seq<Byte>, d: seq<Byte>, rest: seq<Byte>)
    ensures var s := [t] + a + b + c + d;
            s[0] == t && s[1..] + rest == a + (b + (c + d + rest))
  {
    assert ([t] + a + b + c + d)[1..] == a + b + c + d;
  }

  lemma String16ReadsBack(s: seq<Byte>, rest: seq<Byte>)
    requires |s| < U16
    ensures var t := String16(s) + rest;
            && Decode(t[..2]) == |s| && |t[2..]| >= |s| && t[2..][..|s|] == s && t[2..][|s|..] == rest
  {
    SmallPowers();
    assert String16(s) + rest == Encode(|s|, 2) + (s + rest);
    ReadField(|s|, 2, s + rest);
  }

  lemma Pieces2(t: Byte, a: seq<Byte>, b: seq<Byte>, rest: seq<Byte>)
    ensures var s := [t] + a + b;
            s[0] == t && s[1..] + rest == a + (b + rest)
  {
    assert ([t] + a + b)[1..] == a + b;
  }

  lemma Pieces3(t: Byte, a: seq<Byte>, b: seq<Byte>, c: seq<Byte>, rest: seq<Byte>)
    ensures var s := [t] + a + b + c;
            s[0] == t && s[1..] + rest == a + (b + (c + rest))
  {
    assert ([t] + a + b + c)[1..] == a + b + c;
  }

  lemma RstStreamReadsBack(h: Header, id: nat, code: nat, offset: nat, rest: seq<Byte>)
    requires id < U32 && code < U32 && offset < U64
    ensures ReadsAs(h, [RST_STREAM_FRAME] + Encode(id, 4) + Encode(offset, 8) + Encode(code, 4), rest,
                    [OnRstStreamFrame(id, Clamp(code, QUIC_STREAM_LAST_ERROR), offset)])
  {
    SmallPowers();
    Pieces3(RST_STREAM_FRAME, Encode(id, 4), Encode(offset, 8), Encode(code, 4), rest);
    ReadField(id, 4, Encode(offset, 8) + (Encode(code, 4) + rest));
    ReadField(offset, 8, Encode(code, 4) + rest);
    ReadField(code, 4, rest);
  }

  lemma ConnectionCloseReadsBack(h: Header, code: nat, details: seq<Byte>, rest: seq<Byte>)
    requires code < U32 && |details| < U16
    ensures ReadsAs(h, [CONNECTION_CLOSE_FRAME] + Encode(code, 4) + String16(details), rest,
                    [OnConnectionCloseFrame(Clamp(code, QUIC_LAST_ERROR), details)])
  {
    SmallPowers();
    Pieces2(CONNECTION_CLOSE_FRAME, Encode(code, 4), String16(details), rest);
    ReadField(code, 4, String16(details) + rest);
    String16ReadsBack(details, rest);
  }

  lemma GoAwayReadsBack(h: Header, code: nat, id: nat, reason: seq<Byte>, rest: seq<Byte>)
    requires code < U32 && id < U32 && |reason| < U16
    ensures ReadsAs(h, [GOAWAY_FRAME] + Encode(code, 4) + Encode(id, 4) + String16(reason), rest,
                    [OnGoAwayFrame(Clamp(code, QUIC_LAST_ERROR), id, reason)])
  {
    SmallPowers();
    Pieces3(GOAWAY_FRAME, Encode(code, 4), Encode(id, 4), String16(reason), rest);
    ReadField(code, 4, Encode(id, 4) + (String16(reason) + rest));
    ReadField(id, 4, String16(reason) + rest);
    String16ReadsBack(reason, rest);
  }

  lemma WindowUpdateReadsBack(h: Header, id: nat, offset: nat, rest: seq<Byte>)
    requires id < U32 && offset < U64
    ensures ReadsAs(h, [WINDOW_UPDATE_FRAME] + Encode(id, 4) + Encode(offset, 8), rest,
                    [OnWindowUpdateFrame(id, offset)])
  {
    SmallPowers();
    Pieces2(WINDOW_UPDATE_FRAME, Encode(id, 4), Encode(offset, 8), rest);
    ReadField(id, 4, Encode(offset, 8) + rest);
    ReadField(offset, 8, rest);
  }

  lemma OneFieldReadsBack(t: Byte, v: nat, n: nat, rest: seq<Byte>)
    requires v < Pow256(n)
    ensures var s := [t] + Encode(v, n);
            && s[0] == t && |s[1..] + rest| >= n
            && Decode((s[1..] + rest)[..n]) == v && (s[1..] + rest)[n..] == rest
  {
    assert ([t] + Encode(v, n))[1..] == Encode(v, n);
    ReadField(v, n, rest);
  }

  lemma AckFrameReadsBack(h: Header, ack: AckFrame, free: nat, rest: seq<Byte>)
    requires WellFormed(ack) && Roomy(ack, free)
    ensures ReadsAs(h, AckBytes(ack, free), rest, AckLog(ack, NumBlocksWritten(ack, free)))
  {
    AckReadsBack(ack, free, rest);
    TypeByteFields(AllBlocks(ack) != [], MinPacketNumberLength(ack.largestAcked), BlockLengthWidth(ack));
    WrittenPieces(ack, free, rest);
  }

  lemma StopWaitingReadsBack(h: Header, least: nat, rest: seq<Byte>)
    requires least <= h.packetNumber && h.packetNumber - least < Pow256(h.packetNumberLength)
    ensures ReadsAs(h, [STOP_WAITING_FRAME] + Encode(h.packetNumber - least, h.packetNumberLength), rest,
                    [OnStopWaitingFrame(least)])
  {
    OneFieldReadsBack(STOP_WAITING_FRAME, h.packetNumber - least, h.packetNumberLength, rest);
  }

  lemma BlockedReadsBack(h: Header, id: nat, rest: seq<Byte>)
    requires id < U32
    ensures ReadsAs(h, [BLOCKED_FRAME] + Encode(id, 4), rest, [OnBlockedFrame(id)])
  {
    SmallPowers();
    OneFieldReadsBack(BLOCKED_FRAME, id, 4, rest);
  }

  lemma PingReadsBack(h: Header, rest: seq<Byte>)
    ensures ReadsAs(h, [PING_FRAME], rest, [OnPingFrame])
  {
    assert [PING_FRAME][1..] + rest == rest;
  }

  /** Every frame but padding reads back as its events, whatever follows it. Only the last stream
      frame of a packet leaves out its length. */
  lemma FrameReadsBack(h: Header, f: Frame, last: bool, free: nat, rest: seq<Byte>)
    requires ValidHeader(h) && ValidFrame(h, f) && FrameBytes(h, f, last, free).Some?
    requires !f.PaddingFrame? && Readable(h, f, free) && (last ==> rest == [])
    ensures ReadsAs(h, FrameBytes(h, f, last, free).value, rest, FrameEvents(h, f, free))
  {
    match f {
      case StreamFrame(id, fin, offset, data) =>
        StreamSizesFit(id, offset);
        StreamReadsBack(h, id, fin, offset, data, last, rest);
      case Ack(ack) =>
        AckFrameReadsBack(h, ack, free, rest);
      case StopWaitingFrame(least) =>
        StopWaitingReadsBack(h, least, rest);
      case MtuDiscoveryFrame =>
        PingReadsBack(h, rest);
      case PingFrame =>
        PingReadsBack(h, rest);
      case RstStreamFrame(id, code, offset) =>
        RstStreamReadsBack(h, id, code, offset, rest);
      case ConnectionCloseFrame(code, details) =>
        ConnectionCloseReadsBack(h, code, Truncate(details), rest);
      case GoAwayFrame(code, id, reason) =>
        GoAwayReadsBack(h, code, id, Truncate(reason), rest);
      case WindowUpdateFrame(id, offset) =>
        WindowUpdateReadsBack(h, id, offset, rest);
      case BlockedFrame(id) =>
        BlockedReadsBack(h, id, rest);
    }
  }
}
