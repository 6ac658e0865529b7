/** What the frames of quic-test/myquic/my_quic_framer.cc look like on the wire, field by field, and
    what a reader is told about them, each said of the frame's own fields. */
module FrameMeaning {
  import opened AckFrames
  import opened AckRoundTrip
  import opened Bytes
  import opened Frames
  import opened FrameReading
  import opened Numbers
  import opened Packets
  import opened Visitor
  import opened Wrappers

  // ---------------------------------------------------------------------------
  // The wire
  // ---------------------------------------------------------------------------

  lemma RstStreamLayout(h: Frames.Header, id: nat, code: nat, offset: nat, last: bool, free: nat)
    requires ValidFrame(h, RstStreamFrame(id, code, offset))
    ensures var b := FrameBytes(h, RstStreamFrame(id, code, offset), last, free).value;
            && |b| == 17 && b[0] == RST_STREAM_FRAME
            && FieldAt(b, 1, 4, id) && FieldAt(b, 5, 8, offset) && FieldAt(b, 13, 4, code)
  {
    hide Encode, Decode, Pow256, FieldAt;
    SmallPowers();
    var t, x, y, z := [RST_STREAM_FRAME], Encode(id, 4), Encode(offset, 8), Encode(code, 4);
    var b := t + x + y + z;
    WrittenField(t, id, 4, y + z);
    WrittenField(t + x, offset, 8, z);
    WrittenField(t + x + y, code, 4, []);
    assert b == t + x + (y + z) == t + x + y + z + [];
  }

  /** The first 256 bytes of a string, or all of it. */
  lemma ErrorString(s: seq<Byte>)
    ensures Truncate(s) == s[..Min(256, |s|)]
  {
  }

  lemma ConnectionCloseLayout(h: Frames.Header, code: nat, details: seq<Byte>, last: bool, free: nat)
    requires ValidFrame(h, ConnectionCloseFrame(code, details))
    ensures var b, n := FrameBytes(h, ConnectionCloseFrame(code, details), last, free).value, Min(256, |details|);
            && |b| == 7 + n && b[0] == CONNECTION_CLOSE_FRAME
            && FieldAt(b, 1, 4, code) && FieldAt(b, 5, 2, n) && b[7..] == details[..n]
  {
    hide Encode, Decode, Pow256, FieldAt, Truncate;
    SmallPowers();
    ErrorString(details);
    var n := Min(256, |details|);
    var t, x, y, z := [CONNECTION_CLOSE_FRAME], Encode(code, 4), Encode(n, 2), details[..n];
    var b := t + x + (y + z);
    WrittenField(t, code, 4, y + z);
    WrittenField(t + x, n, 2, z);
    assert b == t + x + y + z;
  }

  lemma GoAwayLayout(h: Frames.Header, code: nat, id: nat, reason: seq<Byte>, last: bool, free: nat)
    requires ValidFrame(h, GoAwayFrame(code, id, reason))
    ensures var b, n := FrameBytes(h, GoAwayFrame(code, id, reason), last, free).value, Min(256, |reason|);
            && |b| == 11 + n && b[0] == GOAWAY_FRAME
            && FieldAt(b, 1, 4, code) && FieldAt(b, 5, 4, id) && FieldAt(b, 9, 2, n) && b[11..] == reason[..n]
  {
    hide Encode, Decode, Pow256, FieldAt, Truncate;
    SmallPowers();
    ErrorString(reason);
    var n := Min(256, |reason|);
    var t, x, w, y, z := [GOAWAY_FRAME], Encode(code, 4), Encode(id, 4), Encode(n, 2), reason[..n];
    var b := t + x + w + (y + z);
    WrittenField(t, code, 4, w + (y + z));
    WrittenField(t + x, id, 4, y + z);
    WrittenField(t + x + w, n, 2, z);
    assert b == t + x + (w + (y + z)) == t + x + w + y + z;
  }

  lemma WindowUpdateLayout(h: Frames.Header, id: nat, offset: nat, last: bool, free: nat)
    requires id < U32 && offset < U64
    ensures var b := FrameBytes(h, WindowUpdateFrame(id, offset), last, free).value;
            |b| == 13 && b[0] == WINDOW_UPDATE_FRAME && FieldAt(b, 1, 4, id) && FieldAt(b, 5, 8, offset)
  {
    hide Encode, Decode, Pow256, FieldAt;
    SmallPowers();
    var t, x, y := [WINDOW_UPDATE_FRAME], Encode(id, 4), Encode(offset, 8);
    WrittenField(t, id, 4, y);
    WrittenField(t + x, offset, 8, []);
    assert t + x + y == t + x + y + [];
  }

  lemma BlockedLayout(h: Frames.Header, id: nat, last: bool, free: nat)
    requires id < U32
    ensures var b := FrameBytes(h, BlockedFrame(id), last, free).value;
            |b| == 5 && b[0] == BLOCKED_FRAME && FieldAt(b, 1, 4, id)
    ensures FrameBytes(h, PingFrame, last, free) == FrameBytes(h, MtuDiscoveryFrame, last, free) == Some([PING_FRAME])
  {
    hide Encode, Decode, Pow256, FieldAt;
    SmallPowers();
    WrittenField([BLOCKED_FRAME], id, 4, []);
    assert [BLOCKED_FRAME] + Encode(id, 4) == [BLOCKED_FRAME] + Encode(id, 4) + [];
  }

  lemma StopWaitingLayout(h: Frames.Header, least: nat, last: bool, free: nat)
    requires least <= h.packetNumber
    ensures var n, b := h.packetNumberLength, FrameBytes(h, StopWaitingFrame(least), last, free);
            && (b.Some? <==> h.packetNumber - least < Pow256(n))
            && (b.Some? ==> |b.value| == 1 + n && b.value[0] == STOP_WAITING_FRAME
                            && FieldAt(b.value, 1, n, h.packetNumber - least))
  {
    hide Encode, Decode, Pow256, FieldAt;
    if h.packetNumber - least < Pow256(h.packetNumberLength) {
      var x := Encode(h.packetNumber - least, h.packetNumberLength);
      WrittenField([STOP_WAITING_FRAME], h.packetNumber - least, h.packetNumberLength, []);
      assert [STOP_WAITING_FRAME] + x == [STOP_WAITING_FRAME] + x + [];
    }
  }

  /** Padding is so many zeros, or all the rest of the packet if the count is negative. */
  lemma PaddingLayout(h: Frames.Header, n: int, last: bool, free: nat)
    ensures var b := FrameBytes(h, PaddingFrame(n), last, free);
            && (b.Some? <==> n != 0)
            && (b.Some? && free > 0 ==> |b.value| == (if n > 0 then n else free)
                                        && forall k :: 0 <= k < |b.value| ==> b.value[k] == 0)
  {
  }

  /** A stream frame: four facts in the type byte, then id, offset unless 0, length unless the frame
      is the last of its packet, and the data. */
  lemma StreamLayout(h: Frames.Header, id: nat, fin: bool, offset: nat, data: seq<Byte>, last: bool, free: nat)
    requires ValidFrame(h, StreamFrame(id, fin, offset, data)) && (!last ==> |data| < U16)
    ensures var b, m, n := FrameBytes(h, StreamFrame(id, fin, offset, data), last, free).value,
                           MinBytes(id), StreamOffsetSize(offset);
            && 1 <= m <= 4 && n <= 8 && n != 1 && (n == 0 <==> offset == 0)
            && |b| == 1 + m + n + (if last then 0 else 2) + |data|
            && b[0] == 128 + (if fin then 64 else 0) + (if last then 0 else 32)
                       + 4 * (if n == 0 then 0 else n - 1) + (m - 1)
            && FieldAt(b, 1, m, id) && FieldAt(b, 1 + m, n, offset)
            && (!last ==> FieldAt(b, 1 + m + n, 2, |data|)) && b[|b| - |data|..] == data
  {
    hide Encode, Decode, Pow256, FieldAt, MinBytes, StreamOffsetSize, StreamTypeByte;
    SmallPowers();
    StreamSizesFit(id, offset);
    OffsetSizeZero(offset);
    var m, n := MinBytes(id), StreamOffsetSize(offset);
    TypeByteBits(fin, !last, m, n);
    var t, x, y := [StreamTypeByte(fin, !last, m, n)], Encode(id, m), Encode(offset, n);
    var z := if last then [] else Encode(|data|, 2);
    FourParts(t, x, y, z, data);
    WrittenField(t, id, m, y + z + data);
    WrittenField(t + x, offset, n, z + data);
    if !last {
      WrittenField(t + x + y, |data|, 2, data);
    }
  }

  lemma TypeByteBits(fin: bool, hasLength: bool, m: nat, n: nat)
    requires 1 <= m <= 4 && n <= 8
    ensures StreamTypeByte(fin, hasLength, m, n) as int
         == 128 + (if fin then 64 else 0) + (if hasLength then 32 else 0) + 4 * (if n == 0 then 0 else n - 1) + (m - 1)
  {
  }

  lemma FourParts(t: seq<Byte>, x: seq<Byte>, y: seq<Byte>, z: seq<Byte>, data: seq<Byte>)
    requires |t| == 1
    ensures var b := t + x + y + z + data;
            && b == t + x + (y + z + data) == t + x + y + (z + data) && b[0] == t[0]
            && |b| == 1 + |x| + |y| + |z| + |data| && b[|b| - |data|..] == data
  {
  }

  lemma OffsetSizeZero(offset: nat)
    ensures StreamOffsetSize(offset) == 0 <==> offset == 0
  {
  }

  lemma {:induction false} BlocksLayout(bs: seq<Block>, w: nat, j: nat)
    requires j < |bs|
    ensures |EncodeBlocks(bs, w)| == |bs| * (w + 1) && 0 <= j * (w + 1) && (j + 1) * (w + 1) <= |bs| * (w + 1)
    ensures EncodeBlocks(bs, w)[j * (w + 1)..(j + 1) * (w + 1)] == Encode(bs[j].gap, 1) + Encode(bs[j].len, w)
  {
    hide Encode;
    EncodeBlocksSize(bs, w);
    Multiples(j, |bs|, w + 1);
    if j > 0 {
      BlocksLayout(bs[1..], w, j - 1);
      Multiples(j - 1, |bs| - 1, w + 1);
      assert bs[1..][j - 1] == bs[j];
    } else {
      OneTime(w + 1);
    }
  }

  lemma Multiples(j: nat, n: nat, b: nat)
    requires j < n
    ensures 0 <= j * b <= (j + 1) * b <= n * b && (j + 1) * b == j * b + b && (n - 1) * b == n * b - b
    ensures j > 0 ==> (j - 1) * b == j * b - b
  {
  }

  lemma OneTime(b: nat)
    ensures 0 * b == 0 && 1 * b == b
  {
  }

  /** The bits that tell a width of 1, 2, 4 or 6 bytes. */
  function WidthBits(w: nat): nat {
    if w == 1 then 0 else if w == 2 then 1 else if w == 4 then 2 else 3
  }

  /** An ACK frame: two widths and whether there are further blocks in the type byte, then the largest
      acked, the delay, the number of further blocks unless it is 0, the length of the newest
      interval, the blocks, and no timestamps. */
  lemma AckLayout(f: AckFrame, free: nat)
    requires WellFormed(f)
    ensures var b, k := AckBytes(f, free), NumBlocksWritten(f, free);
            var la, w, c := MinPacketNumberLength(f.largestAcked), BlockLengthWidth(f), if k > 0 then 1 else 0;
            && |b| == 4 + la + c + w + k * (w + 1) && b[|b| - 1] == 0
            && b[0] == 64 + (if |f.packets| > 1 then 32 else 0) + 4 * WidthBits(la) + WidthBits(w)
            && FieldAt(b, 1, la, f.largestAcked) && FieldAt(b, 1 + la, 2, f.delay)
            && (k > 0 ==> FieldAt(b, 3 + la, 1, k)) && FieldAt(b, 3 + la + c, w, f.largestAcked + 1 - TopStart(f))
            && b[3 + la + c + w..|b| - 1] == EncodeBlocks(AllBlocks(f)[..k], w)
  {
    hide Encode, Decode, Pow256, FieldAt, Info, AllBlocks, EncodeBlocks, TruncatingDiv, Below, AckTypeByte, WidthBits,
         BlockLengthWidth, NumBlocksWritten, IsLength;
    var k, la, w := NumBlocksWritten(f, free), MinPacketNumberLength(f.largestAcked), BlockLengthWidth(f);
    InfoFacts(f);
    NoneCounted(f);
    AckSize(f, free);
    MinLengthFits(f.largestAcked);
    FirstLengthFits(f);
    SmallPowers();
    var t := [AckTypeByte(Info(f).numAckBlocks != 0, la, w)];
    var x, y, c := Encode(f.largestAcked, la), Encode(f.delay, 2), if k > 0 then Encode(k, 1) else [];
    var z, bs := Encode(Info(f).firstBlockLength, w), EncodeBlocks(AllBlocks(f)[..k], w);
    SixParts(t, x, y, c, z, bs);
    WrittenField(t, f.largestAcked, la, y + c + z + bs + [0]);
    WrittenField(t + x, f.delay, 2, c + z + bs + [0]);
    if k > 0 {
      WrittenField(t + x + y, k, 1, z + bs + [0]);
    }
    WrittenField(t + x + y + c, Info(f).firstBlockLength, w, bs + [0]);
    AckTypeBits(Info(f).numAckBlocks != 0, la, w);
  }

  lemma NoneCounted(f: AckFrame)
    requires WellFormed(f)
    ensures Info(f).numAckBlocks != 0 <==> |f.packets| > 1
  {
    InfoFacts(f);
  }

  lemma AckTypeBits(multiple: bool, la: nat, w: nat)
    ensures AckTypeByte(multiple, la, w) as int == 64 + (if multiple then 32 else 0) + 4 * WidthBits(la) + WidthBits(w)
  {
  }

  lemma SixParts(t: seq<Byte>, x: seq<Byte>, y: seq<Byte>, c: seq<Byte>, z: seq<Byte>, bs: seq<Byte>)
    requires |t| == 1
    ensures var b := t + x + y + c + z + bs + [0];
            && b == t + x + (y + c + z + bs + [0]) == t + x + y + (c + z + bs + [0])
            && b == t + x + y + c + (z + bs + [0]) == t + x + y + c + z + (bs + [0])
            && b[0] == t[0] && b[|b| - 1] == 0 && b[|t + x + y + c + z|..|b| - 1] == bs
  {
  }

  // ---------------------------------------------------------------------------
  // The reports
  // ---------------------------------------------------------------------------

  /** An error code below the limit is kept, any other becomes the limit. */
  lemma CodeKept(code: nat, limit: nat)
    ensures code < limit ==> Clamp(code, limit) == code
    ensures code >= limit ==> Clamp(code, limit) == limit
  {
  }

  /** The event tells the frame's own fields. */
  ghost predicate Tells(e: Event, f: Frame) {
    match f
    case StreamFrame(id, fin, offset, data) => |data| < U16 ==> e == OnStreamFrame(id, fin, offset, data)
    case StopWaitingFrame(least) => e == OnStopWaitingFrame(least)
    case MtuDiscoveryFrame => e == OnPingFrame
    case PingFrame => e == OnPingFrame
    case RstStreamFrame(id, code, offset) => e == OnRstStreamFrame(id, Min(code, QUIC_STREAM_LAST_ERROR), offset)
    case ConnectionCloseFrame(code, details) =>
      e == OnConnectionCloseFrame(Min(code, QUIC_LAST_ERROR), details[..Min(256, |details|)])
    case GoAwayFrame(code, id, reason) =>
      e == OnGoAwayFrame(Min(code, QUIC_LAST_ERROR), id, reason[..Min(256, |reason|)])
    case WindowUpdateFrame(id, offset) => e == OnWindowUpdateFrame(id, offset)
    case BlockedFrame(id) => e == OnBlockedFrame(id)
    case PaddingFrame(_) => e.OnPaddingFrame?
    case Ack(_) => true
  }

  /** A frame that was written, neither padding nor an ACK, is read as one event with its own fields:
      strings by their first 256 bytes, error codes up to the limit. */
  lemma WrittenFrameTells(h: Frames.Header, f: Frame, last: bool, free: nat, rest: seq<Byte>)
    requires ValidHeader(h) && ValidFrame(h, f) && FrameBytes(h, f, last, free).Some?
    requires !f.PaddingFrame? && !f.Ack? && (last ==> rest == [])
    ensures var b := FrameBytes(h, f, last, free).value;
            && b != [] && ParseFrame(h, b[0], b[1..] + rest).ok && ParseFrame(h, b[0], b[1..] + rest).rest == rest
            && |ParseFrame(h, b[0], b[1..] + rest).log| == 1 && Tells(ParseFrame(h, b[0], b[1..] + rest).log[0], f)
  {
    hide ParseFrame, FrameBytes, Tells;
    FrameReadsBack(h, f, last, free, rest);
    EventTells(h, f, free);
  }

  lemma EventTells(h: Frames.Header, f: Frame, free: nat)
    requires ValidFrame(h, f) && !f.PaddingFrame? && !f.Ack?
    ensures |FrameEvents(h, f, free)| == 1 && Tells(FrameEvents(h, f, free)[0], f)
  {
    if f.StreamFrame? && |f.data| < U16 {
      assert f.data[..|f.data| % U16] == f.data;
    }
  }

  /** The error raised for a frame that cannot be read tells its type. */
  lemma ErrorTellsType(t: Byte)
    ensures FrameError(t) == InvalidStreamData <==> 128 <= t
    ensures FrameError(t) == InvalidAckData <==> 64 <= t < 128
    ensures FrameError(t) == InvalidRstStreamData <==> t == RST_STREAM_FRAME
    ensures FrameError(t) == InvalidConnectionCloseData <==> t == CONNECTION_CLOSE_FRAME
    ensures FrameError(t) == InvalidGoAwayData <==> t == GOAWAY_FRAME
    ensures FrameError(t) == InvalidWindowUpdateData <==> t == WINDOW_UPDATE_FRAME
    ensures FrameError(t) == InvalidBlockedData <==> t == BLOCKED_FRAME
    ensures FrameError(t) == InvalidStopWaitingData <==> t == STOP_WAITING_FRAME
  {
  }

  /** Types that mean nothing are refused. */
  lemma UnknownRefused(h: Frames.Header, t: Byte, s: seq<Byte>)
    requires 8 <= t < 64
    ensures ParseFrame(h, t, s) == FAILED && FrameError(t) == InvalidFrameData
  {
  }
}
