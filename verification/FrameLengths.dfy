/** Predicting the size of a frame before it is written: `ComputeFrameLength` and
    `GetSerializedFrameLength`. */
module FrameLengths {
  import opened AckFrames
  import opened AckRoundTrip
  import opened Frames
  import opened Numbers

  const MIN_TRUNCATED_ACK_SIZE: nat := 10

  /** `ComputeFrameLength`. The caller never asks for padding. */
  function ComputeFrameLength(h: Header, f: Frame, last: bool): nat
    requires ValidFrame(h, f) && !f.PaddingFrame?
  {
    match f
    case StreamFrame(id, _, offset, data) =>
      1 + MinBytes(id) + StreamOffsetSize(offset) + (if last then 0 else 2) + |data|
    case Ack(ack) => AckFrameSize(ack)
    case StopWaitingFrame(_) => 1 + h.packetNumberLength
    case MtuDiscoveryFrame => 1
    case PingFrame => 1
    case RstStreamFrame(_, _, _) => 1 + 4 + 8 + 4
    case ConnectionCloseFrame(_, details) => 1 + 4 + 2 + |Truncate(details)|
    case GoAwayFrame(_, _, reason) => 1 + 4 + 2 + 4 + |Truncate(reason)|
    case WindowUpdateFrame(_, _) => 1 + 4 + 8
    case BlockedFrame(_) => 1 + 4
  }

  /** `GetSerializedFrameLength`: how much of the free bytes the frame will take; 0 if it is not to
      be sent in this packet. A negative padding count is a huge number once converted. */
  function GetSerializedFrameLength(h: Header, f: Frame, free: nat, first: bool, last: bool): nat
    requires ValidFrame(h, f)
  {
    if f.PaddingFrame? then
      if f.numPaddingBytes < 0 || free < f.numPaddingBytes then free else f.numPaddingBytes
    else
      var len := ComputeFrameLength(h, f, last);
      if len <= free then len
      else if !first then 0
      else if f.Ack? && free >= MIN_TRUNCATED_ACK_SIZE then free
      else 0
  }

  /** The prediction is exact for every frame that can be written at all, unless an ACK is cut. */
  lemma LengthIsExact(h: Header, f: Frame, last: bool, free: nat)
    requires ValidFrame(h, f) && !f.PaddingFrame? && FrameBytes(h, f, last, free).Some?
    requires f.Ack? ==> AckFrameSize(f.ack) <= free
    ensures |FrameBytes(h, f, last, free).value| == ComputeFrameLength(h, f, last)
  {
    if f.Ack? {
      FullSize(f.ack, free);
    }
  }

  /** The answer, in terms of the bytes then written: a frame that fits whole takes exactly the answer;
      one that does not is not to be sent, except that an ACK frame that comes first in a packet with
      ten free bytes is promised to be cut to the free bytes. Padding takes what there is of it. */
  lemma SerializedLengthFits(h: Header, f: Frame, free: nat, first: bool, last: bool)
    requires ValidFrame(h, f)
    ensures GetSerializedFrameLength(h, f, free, first, last) <= free
    ensures FrameBytes(h, f, last, free).Some? ==>
              var n, bytes := GetSerializedFrameLength(h, f, free, first, last), |FrameBytes(h, f, last, free).value|;
              if f.PaddingFrame? then n == Min(bytes, free)
              else if f.Ack? then
                if AckFrameSize(f.ack) <= free then n == bytes
                else n == if first && free >= MIN_TRUNCATED_ACK_SIZE then free else 0
              else n == if bytes <= free then bytes else 0
  {
    if FrameBytes(h, f, last, free).Some? && !f.PaddingFrame? {
      if f.Ack? ==> AckFrameSize(f.ack) <= free {
        LengthIsExact(h, f, last, free);
      }
    }
  }

  /** A promise to cut an ACK frame is kept exactly when the frame has blocks to drop and at most
      the count byte does not fit. */
  lemma TruncationPromise(ack: AckFrame, free: nat)
    requires WellFormed(ack) && AckFrameSize(ack) > free >= MIN_TRUNCATED_ACK_SIZE
    ensures |AckBytes(ack, free)| <= free
       <==> AllBlocks(ack) != [] && AvailableBlockBytes(ack, free) >= -1
  {
    hide AckBytes, AllBlocks, Info, TruncatingDiv;
    var a, w := AvailableBlockBytes(ack, free), BlockLengthWidth(ack);
    InfoFacts(ack);
    if a >= 0 {
      NeverTooLong(ack, free);
    } else {
      NegativeSpace(ack, free);
    }
  }

  lemma NegativeSpace(ack: AckFrame, free: nat)
    requires WellFormed(ack) && AvailableBlockBytes(ack, free) < 0
    ensures |AckBytes(ack, free)| <= free
       <==> AllBlocks(ack) != [] && AvailableBlockBytes(ack, free) == -1
  {
    hide AckBytes, AllBlocks, Info, TruncatingDiv;
    var a, w, k := AvailableBlockBytes(ack, free), BlockLengthWidth(ack), NumBlocksWritten(ack, free);
    InfoFacts(ack);
    QuotientFacts(a, w);
    AckSize(ack, free);
    ProductAtLeast(k, w);
  }

  lemma ProductAtLeast(k: nat, w: nat)
    ensures k * (w + 1) >= k
  {
  }

  /** The promise can be broken: one packet acknowledged, with ten bytes left. */
  lemma BrokenPromiseExample()
    ensures var h, ack := Header(1, 1), AckFrame(0x1_0000_0000, 0, [Interval(0x1_0000_0000, 0x1_0000_0001)]);
            && WellFormed(ack)
            && GetSerializedFrameLength(h, Ack(ack), 10, true, true) == 10
            && |AckBytes(ack, 10)| > 10
  {
    var ack := AckFrame(0x1_0000_0000, 0, [Interval(0x1_0000_0000, 0x1_0000_0001)]);
    assert Below(ack.packets, 0, 0x1_0000_0000);
    assert WellFormed(ack) && Info(ack) == AckFrameInfo(1, 1, 0);
    InfoFacts(ack);
    TruncationPromise(ack, 10);
  }
}
