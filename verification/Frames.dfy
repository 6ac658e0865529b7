/** The other frames of version 43: their layout, and the methods that write and read them. */
module Frames {
  import opened Wrappers
  import opened Bytes
  import opened DataIo
  import opened Numbers
  import opened AckFrames

  /** The parts of the packet header that frames depend on. */
  datatype Header = Header(packetNumber: nat, packetNumberLength: nat)

  datatype Frame =
    | PaddingFrame(numPaddingBytes: int)
    | StreamFrame(streamId: nat, fin: bool, offset: nat, data: seq<Byte>)
    | Ack(ack: AckFrame)
    | StopWaitingFrame(leastUnacked: nat)
    | MtuDiscoveryFrame
    | PingFrame
    | RstStreamFrame(rstStreamId: nat, rstErrorCode: nat, byteOffset: nat)
    | ConnectionCloseFrame(errorCode: nat, errorDetails: seq<Byte>)
    | GoAwayFrame(goAwayErrorCode: nat, lastGoodStreamId: nat, reasonPhrase: seq<Byte>)
    | WindowUpdateFrame(windowStreamId: nat, windowOffset: nat)
    | BlockedFrame(blockedStreamId: nat)

  // Error codes from here on up are libquic's and not part of this model: any values will do.
  const QUIC_STREAM_LAST_ERROR: nat
  const QUIC_LAST_ERROR: nat

  const MAX_ERROR_STRING_LENGTH: nat := 256

  const PADDING_FRAME: Byte := 0
  const RST_STREAM_FRAME: Byte := 1
  const CONNECTION_CLOSE_FRAME: Byte := 2
  const GOAWAY_FRAME: Byte := 3
  const WINDOW_UPDATE_FRAME: Byte := 4
  const BLOCKED_FRAME: Byte := 5
  const STOP_WAITING_FRAME: Byte := 6
  const PING_FRAME: Byte := 7

  /** The fields have the widths of their C++ types; an ACK frame is well formed; a stop-waiting
      frame does not run ahead of the packet it is sent in. */
  ghost predicate ValidFrame(h: Header, f: Frame) {
    match f
    case StreamFrame(id, _, offset, _) => id < U32 && offset < U64
    case Ack(ack) => WellFormed(ack)
    case StopWaitingFrame(least) => least <= h.packetNumber
    case RstStreamFrame(id, code, offset) => id < U32 && code < U32 && offset < U64
    case ConnectionCloseFrame(code, _) => code < U32
    case GoAwayFrame(code, id, _) => code < U32 && id < U32
    case WindowUpdateFrame(id, offset) => id < U32 && offset < U64
    case BlockedFrame(id) => id < U32
    case _ => true
  }

  ghost predicate ValidHeader(h: Header) {
    IsLength(h.packetNumberLength)
  }

  // ---------------------------------------------------------------------------
  // Sizes of variable-width fields
  // ---------------------------------------------------------------------------

  /** The least positive number of bytes that hold `v`. */
  function MinBytes(v: nat): (n: nat)
    ensures n >= 1
  {
    if v < 256 then 1 else 1 + MinBytes(v / 256)
  }

  lemma {:induction false} MinBytesFits(v: nat)
    ensures v < Pow256(MinBytes(v))
    ensures MinBytes(v) > 1 ==> Pow256(MinBytes(v) - 1) <= v
  {
    if v >= 256 {
      MinBytesFits(v / 256);
    }
  }

  lemma {:induction false} MinBytesAtMost(v: nat, n: nat)
    requires v < Pow256(n) && n > 0
    ensures MinBytes(v) <= n
  {
    if v >= 256 {
      MinBytesAtMost(v / 256, n - 1);
    }
  }

  /** `GetStreamIdSize`: shifts until nothing is left, which a 32-bit id is after four times. */
  method GetStreamIdSize(streamId: nat) returns (n: nat)
    requires streamId < U32
    ensures n == MinBytes(streamId) && 1 <= n <= 4
  {
    SmallPowers();
    MinBytesAtMost(streamId, 4);
    var id: nat := streamId / 256;
    n := 1;
    while id != 0
      invariant MinBytes(streamId) == n + (if id == 0 then 0 else MinBytes(id))
      decreases id
    {
      id := id / 256;
      n := n + 1;
    }
  }

  function StreamOffsetSize(offset: nat): (n: nat)
    ensures n != 1
  {
    if offset == 0 then 0 else if MinBytes(offset) < 2 then 2 else MinBytes(offset)
  }

  /** `GetStreamOffsetSize` outside version 41: no encoding for one byte. */
  method GetStreamOffsetSize(offset: nat) returns (n: nat)
    requires offset < U64
    ensures n == StreamOffsetSize(offset) && n <= 8
  {
    SmallPowers();
    MinBytesAtMost(offset, 8);
    if offset == 0 {
      return 0;
    }
    var o: nat := offset / 256 / 256;
    n := 2;
    while o != 0
      invariant StreamOffsetSize(offset) == n + (if o == 0 then 0 else MinBytes(o))
      decreases o
    {
      o := o / 256;
      n := n + 1;
    }
  }

  lemma StreamSizesFit(streamId: nat, offset: nat)
    requires streamId < U32 && offset < U64
    ensures streamId < Pow256(MinBytes(streamId)) && 1 <= MinBytes(streamId) <= 4
    ensures offset < Pow256(StreamOffsetSize(offset)) && StreamOffsetSize(offset) <= 8
  {
    SmallPowers();
    MinBytesFits(streamId);
    MinBytesAtMost(streamId, 4);
    MinBytesFits(offset);
    MinBytesAtMost(offset, 8);
  }

  // ---------------------------------------------------------------------------
  // Layout
  // ---------------------------------------------------------------------------

  function StreamTypeByte(fin: bool, hasLength: bool, idSize: nat, offsetSize: nat): Byte
    requires 1 <= idSize <= 4 && offsetSize <= 8
  {
    0x80 + (if fin then 0x40 else 0) + (if hasLength then 0x20 else 0)
      + 4 * (if offsetSize > 0 then offsetSize - 1 else 0) + (idSize - 1)
  }

  function Truncate(s: seq<Byte>): (t: seq<Byte>)
    ensures |t| <= MAX_ERROR_STRING_LENGTH
  {
    if |s| <= MAX_ERROR_STRING_LENGTH then s else s[..MAX_ERROR_STRING_LENGTH]
  }

  /** A string preceded by its 16-bit length. */
  function String16(s: seq<Byte>): seq<Byte> {
    Encode(|s|, 2) + s
  }

  /** The bytes of a frame, type byte included, written with `free` bytes left in the packet; none
      if the frame cannot be written whatever the space. */
  function FrameBytes(h: Header, f: Frame, last: bool, free: nat): Option<seq<Byte>>
    requires ValidFrame(h, f)
  {
    match f
    case PaddingFrame(n) =>
      if n == 0 then None else if n < 0 then Some(Zeros(if free == 0 then 1 else free)) else Some(Zeros(n))
    case StreamFrame(id, fin, offset, data) =>
      if !last && |data| >= U16 then None else
      StreamSizesFit(id, offset);
      Some([StreamTypeByte(fin, !last, MinBytes(id), StreamOffsetSize(offset))]
           + Encode(id, MinBytes(id)) + Encode(offset, StreamOffsetSize(offset))
           + (if last then [] else Encode(|data|, 2)) + data)
    case Ack(ack) => Some(AckBytes(ack, free))
    case StopWaitingFrame(least) =>
      if h.packetNumber - least >= Pow256(h.packetNumberLength) then None else
      Some([STOP_WAITING_FRAME] + Encode(h.packetNumber - least, h.packetNumberLength))
    case MtuDiscoveryFrame => Some([PING_FRAME])
    case PingFrame => Some([PING_FRAME])
    case RstStreamFrame(id, code, offset) =>
      Some([RST_STREAM_FRAME] + Encode(id, 4) + Encode(offset, 8) + Encode(code, 4))
    case ConnectionCloseFrame(code, details) =>
      Some([CONNECTION_CLOSE_FRAME] + Encode(code, 4) + String16(Truncate(details)))
    case GoAwayFrame(code, id, reason) =>
      Some([GOAWAY_FRAME] + Encode(code, 4) + Encode(id, 4) + String16(Truncate(reason)))
    case WindowUpdateFrame(id, offset) =>
      Some([WINDOW_UPDATE_FRAME] + Encode(id, 4) + Encode(offset, 8))
    case BlockedFrame(id) => Some([BLOCKED_FRAME] + Encode(id, 4))
  }

  // ---------------------------------------------------------------------------
  // Writing
  // ---------------------------------------------------------------------------

  method WriteString16(s: seq<Byte>, w: DataWriter) returns (ok: bool)
    requires w.Valid() && |s| < U16
    modifies w
    ensures w.Valid()
    ensures ok <==> old(|w.buffer|) + |String16(s)| <= w.capacity
    ensures ok ==> w.buffer == old(w.buffer) + String16(s)
  {
    Concat2(w.buffer, Encode(|s|, 2), s);
    ok := w.WriteUInt(2, |s|);
    if ok {
      ok := w.WriteBytes(s);
    }
  }

  /** `AppendTypeByte` and `AppendStreamFrame`. */
  method AppendStreamFrame(id: nat, fin: bool, offset: nat, data: seq<Byte>, noLength: bool, w: DataWriter)
    returns (ok: bool)
    requires w.Valid() && id < U32 && offset < U64
    modifies w
    ensures w.Valid()
    ensures ok <==>
      && (noLength || |data| < U16)
      && old(|w.buffer|) + 1 + MinBytes(id) + StreamOffsetSize(offset) + (if noLength then 0 else 2) + |data|
         <= w.capacity
    ensures 1 <= MinBytes(id) <= 4 && StreamOffsetSize(offset) <= 8
    ensures ok ==>
      w.buffer == old(w.buffer) + [StreamTypeByte(fin, !noLength, MinBytes(id), StreamOffsetSize(offset))]
                  + Encode(id, MinBytes(id)) + Encode(offset, StreamOffsetSize(offset))
                  + (if noLength then [] else Encode(|data|, 2)) + data
  {
    var idSize := GetStreamIdSize(id);
    var offsetSize := GetStreamOffsetSize(offset);
    ok := w.WriteBytes([StreamTypeByte(fin, !noLength, idSize, offsetSize)]);
    if ok {
      ok := w.WriteUInt(idSize, id);
    }
    if ok {
      ok := w.WriteUInt(offsetSize, offset);
    }
    if ok && !noLength {
      ok := |data| < U16;
      if ok {
        ok := w.WriteUInt(2, |data|);
      }
    }
    if ok {
      ok := w.WriteBytes(data);
    }
  }

  /** `AppendTypeByte` and `AppendPaddingFrame`. */
  method AppendPaddingFrame(n: int, w: DataWriter) returns (ok: bool)
    requires w.Valid()
    modifies w
    ensures w.Valid()
    ensures ok <==> n != 0 && old(|w.buffer|) + (if n > 0 then n else 1) <= w.capacity
    ensures ok ==> w.buffer == old(w.buffer) + Zeros(if n > 0 then n else w.capacity - old(|w.buffer|))
  {
    ok := w.WriteBytes([PADDING_FRAME]);
    if ok {
      if n == 0 {
        ok := false;
      } else if n < 0 {
        w.WritePadding();
      } else {
        ok := w.WriteBytes(Zeros(n - 1));
      }
    }
  }

  /** `AppendTypeByte` and `AppendStopWaitingFrame`. */
  method AppendStopWaitingFrame(h: Header, least: nat, w: DataWriter) returns (ok: bool)
    requires w.Valid() && least <= h.packetNumber
    modifies w
    ensures w.Valid()
    ensures ok <==>
      && h.packetNumber - least < Pow256(h.packetNumberLength)
      && old(|w.buffer|) + 1 + h.packetNumberLength <= w.capacity
    ensures ok ==>
      w.buffer == old(w.buffer) + [STOP_WAITING_FRAME] + Encode(h.packetNumber - least, h.packetNumberLength)
  {
    ok := w.WriteBytes([STOP_WAITING_FRAME]);
    var delta := h.packetNumber - least;
    if ok {
      ok := delta < Pow256(h.packetNumberLength);
      if ok {
        ok := w.WriteUInt(h.packetNumberLength, delta);
      }
    }
  }

  /** `AppendTypeByte` and `AppendRstStreamFrame`. */
  method AppendRstStreamFrame(id: nat, code: nat, offset: nat, w: DataWriter) returns (ok: bool)
    requires w.Valid()
    modifies w
    ensures w.Valid()
    ensures ok <==> old(|w.buffer|) + 17 <= w.capacity
    ensures ok ==>
      w.buffer == old(w.buffer) + [RST_STREAM_FRAME] + Encode(id, 4) + Encode(offset, 8) + Encode(code, 4)
  {
    ok := w.WriteBytes([RST_STREAM_FRAME]);
    if ok {
      ok := w.WriteUInt(4, id);
    }
    if ok {
      ok := w.WriteUInt(8, offset);
    }
    if ok {
      ok := w.WriteUInt(4, code);
    }
  }

  /** `AppendTypeByte` and `AppendConnectionCloseFrame`. */
  method AppendConnectionCloseFrame(code: nat, details: seq<Byte>, w: DataWriter) returns (ok: bool)
    requires w.Valid()
    modifies w
    ensures w.Valid()
    ensures ok <==> old(|w.buffer|) + 5 + |String16(Truncate(details))| <= w.capacity
    ensures ok ==>
      w.buffer == old(w.buffer) + [CONNECTION_CLOSE_FRAME] + Encode(code, 4) + String16(Truncate(details))
  {
    ok := w.WriteBytes([CONNECTION_CLOSE_FRAME]);
    if ok {
      ok := w.WriteUInt(4, code);
    }
    if ok {
      ok := WriteString16(Truncate(details), w);
    }
  }

  /** `AppendTypeByte` and `AppendGoAwayFrame`. */
  method AppendGoAwayFrame(code: nat, id: nat, reason: seq<Byte>, w: DataWriter) returns (ok: bool)
    requires w.Valid()
    modifies w
    ensures w.Valid()
    ensures ok <==> old(|w.buffer|) + 9 + |String16(Truncate(reason))| <= w.capacity
    ensures ok ==>
      w.buffer == old(w.buffer) + [GOAWAY_FRAME] + Encode(code, 4) + Encode(id, 4) + String16(Truncate(reason))
  {
    ok := w.WriteBytes([GOAWAY_FRAME]);
    if ok {
      ok := w.WriteUInt(4, code);
    }
    if ok {
      ok := w.WriteUInt(4, id);
    }
    if ok {
      ok := WriteString16(Truncate(reason), w);
    }
  }

  /** `AppendTypeByte` and `AppendWindowUpdateFrame`. */
  method AppendWindowUpdateFrame(id: nat, offset: nat, w: DataWriter) returns (ok: bool)
    requires w.Valid()
    modifies w
    ensures w.Valid()
    ensures ok <==> old(|w.buffer|) + 13 <= w.capacity
    ensures ok ==> w.buffer == old(w.buffer) + [WINDOW_UPDATE_FRAME] + Encode(id, 4) + Encode(offset, 8)
  {
    ok := w.WriteBytes([WINDOW_UPDATE_FRAME]);
    if ok {
      ok := w.WriteUInt(4, id);
    }
    if ok {
      ok := w.WriteUInt(8, offset);
    }
  }

  /** `AppendTypeByte` and `AppendBlockedFrame`. */
  method AppendBlockedFrame(id: nat, w: DataWriter) returns (ok: bool)
    requires w.Valid()
    modifies w
    ensures w.Valid()
    ensures ok <==> old(|w.buffer|) + 5 <= w.capacity
    ensures ok ==> w.buffer == old(w.buffer) + [BLOCKED_FRAME] + Encode(id, 4)
  {
    ok := w.WriteBytes([BLOCKED_FRAME]);
    if ok {
      ok := w.WriteUInt(4, id);
    }
  }
}
