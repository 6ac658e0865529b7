/** How mininet-webrtc/sender.cc cuts a video frame into segments, and that the segments, sent as
    messages and put together by their index, give back the frame. */
module VideoFrames {
  import opened BinStream
  import opened Bytes
  import opened Numbers
  import opened SimProto
  import opened Wrappers

  const MAX_SPLIT_NUMBER: nat := 1024

  /** The number of segments of a frame. */
  function Total(len: nat): nat {
    if len <= SIM_VIDEO_SIZE then 1 else (len + SIM_VIDEO_SIZE - 1) / SIM_VIDEO_SIZE
  }

  /** What a frame must be for `SendVideo`: not empty, and short enough for its assertion. */
  predicate Sendable(data: seq<Byte>) {
    data != [] && |data| / SIM_VIDEO_SIZE < MAX_SPLIT_NUMBER
  }

  lemma TotalBounds(len: nat)
    requires len > 0
    ensures SIM_VIDEO_SIZE * (Total(len) - 1) < len <= SIM_VIDEO_SIZE * Total(len)
    ensures len / SIM_VIDEO_SIZE < MAX_SPLIT_NUMBER ==> 1 <= Total(len) <= MAX_SPLIT_NUMBER
  {
  }

  /** The size of segment `i`. */
  function PieceSize(len: nat, i: nat): nat
    requires SIM_VIDEO_SIZE * i <= len
  {
    Min(SIM_VIDEO_SIZE, len - SIM_VIDEO_SIZE * i)
  }

  /** The bytes of segment `i`. */
  function Piece(data: seq<Byte>, i: nat): seq<Byte>
    requires SIM_VIDEO_SIZE * i <= |data|
  {
    data[SIM_VIDEO_SIZE * i..SIM_VIDEO_SIZE * i + PieceSize(|data|, i)]
  }

  method FrameSplit(splits: array<nat>, size: nat) returns (ret: nat)
    requires splits.Length == MAX_SPLIT_NUMBER && size > 0 && size / SIM_VIDEO_SIZE < MAX_SPLIT_NUMBER
    modifies splits
    ensures ret == Total(size) && 1 <= ret <= MAX_SPLIT_NUMBER
    ensures forall i :: 0 <= i < ret ==> SIM_VIDEO_SIZE * i < size && splits[i] == PieceSize(size, i)
  {
    TotalBounds(size);
    if size <= SIM_VIDEO_SIZE {
      ret := 1;
      splits[0] := size;
    } else {
      ret := size / SIM_VIDEO_SIZE;
      for i := 0 to ret
        invariant forall j :: 0 <= j < i ==> splits[j] == SIM_VIDEO_SIZE
      {
        splits[i] := SIM_VIDEO_SIZE;
      }
      var remain := size % SIM_VIDEO_SIZE;
      assert size == SIM_VIDEO_SIZE * ret + remain;
      if remain > 0 {
        splits[ret] := remain;
        ret := ret + 1;
      }
    }
  }

  /** What all segments of one frame have in common. */
  datatype Frame = Frame(
    packetSeed: nat, fid: nat, transSeq: nat, timestamp: nat, ftype: nat, payloadType: nat, data: seq<Byte>)

  predicate ValidFrame(f: Frame) {
    && FitsU32(f.packetSeed) && FitsU32(f.fid) && FitsU16(f.transSeq) && FitsU32(f.timestamp) && FitsU8(f.ftype)
    && FitsU8(f.payloadType)
    && Sendable(f.data)
  }

  /** The transport sequence number of segment `i`. */
  function Key(transSeq: nat, i: nat): nat {
    (transSeq + i) % 0x1_0000
  }

  /** Segment `i` of a frame, as `SendVideo` builds it. */
  function SegmentOf(f: Frame, i: nat): Segment
    requires SIM_VIDEO_SIZE * i <= |f.data|
  {
    Segment((f.packetSeed + i) % 0x1_0000_0000, f.fid, f.timestamp, i, Total(|f.data|), f.ftype, f.payloadType,
            1, 0, Key(f.transSeq, i), Piece(f.data, i))
  }

  lemma SegmentsAreValid(f: Frame, i: nat)
    requires ValidFrame(f) && i < Total(|f.data|)
    ensures SIM_VIDEO_SIZE * i < |f.data| && ValidSegment(SegmentOf(f, i))
    ensures SegmentOf(f, i).data != []
  {
    TotalBounds(|f.data|);
  }

  /** The keys of one frame are distinct, although the counter wraps. */
  lemma KeysDiffer(transSeq: nat, i: nat, j: nat)
    requires i < j < 0x1_0000
    ensures Key(transSeq, i) != Key(transSeq, j)
  {
  }

  // ---------------------------------------------------------------------------
  // Putting a frame together
  // ---------------------------------------------------------------------------

  /** The first segment that arrived with an index. */
  function Find(arrived: seq<Segment>, index: nat): Option<Segment> {
    if arrived == [] then None
    else if arrived[0].index == index then Some(arrived[0])
    else Find(arrived[1..], index)
  }

  /** The data of the segments with the first `n` indices; a missing one leaves a hole. */
  function Assemble(arrived: seq<Segment>, n: nat): seq<Byte> {
    if n == 0 then [] else
    Assemble(arrived, n - 1) + (match Find(arrived, n - 1) case None => [] case Some(s) => s.data)
  }

  /** What the receiver makes of segment `i`, sent at some time under some header. */
  ghost predicate Delivered(s: Segment, f: Frame, i: nat)
    requires ValidFrame(f)
  {
    && i < Total(|f.data|) && SIM_VIDEO_SIZE * i <= |f.data|
    && exists h, sendTs ::
         && ValidHeader(h) && h.mid == SIM_SEG && FitsU16(sendTs)
         && Receive(Datagram(h, Seg(SegmentOf(f, i).(sendTs := sendTs)))).Some?
         && Receive(Datagram(h, Seg(SegmentOf(f, i).(sendTs := sendTs)))).value.1 == Seg(s)
  }

  /** Index, total, place and data of a delivered segment are those it was sent with. */
  lemma DeliveredWhole(s: Segment, f: Frame, i: nat)
    requires ValidFrame(f) && Delivered(s, f, i)
    ensures s.index == i && s.total == Total(|f.data|) && s.fid == f.fid && s.data == Piece(f.data, i)
    ensures s.transportSeq == Key(f.transSeq, i) && s.timestamp == f.timestamp
  {
    hide Receive, Datagram, SegmentOf, Total, Piece, Key, Sendable, Carried;
    var h, sendTs :|
      && ValidHeader(h) && h.mid == SIM_SEG && FitsU16(sendTs)
      && Receive(Datagram(h, Seg(SegmentOf(f, i).(sendTs := sendTs)))).Some?
      && Receive(Datagram(h, Seg(SegmentOf(f, i).(sendTs := sendTs)))).value.1 == Seg(s);
    SegmentsAreValid(f, i);
    SegmentIsCarried(f, i, sendTs);
    MessageReadsBack(h, Seg(SegmentOf(f, i).(sendTs := sendTs)));
  }

  lemma SegmentIsCarried(f: Frame, i: nat, sendTs: nat)
    requires ValidFrame(f) && i < Total(|f.data|) && SIM_VIDEO_SIZE * i <= |f.data|
    ensures var s := Carried(SegmentOf(f, i).(sendTs := sendTs));
            && s.index == i && s.total == Total(|f.data|) && s.fid == f.fid && s.data == Piece(f.data, i)
            && s.transportSeq == Key(f.transSeq, i) && s.timestamp == f.timestamp
  {
    hide Key, Piece;
    TotalBounds(|f.data|);
  }

  /** A message that reaches the receiver unharmed delivers its segment. */
  lemma SentIsDelivered(f: Frame, i: nat, h: Header, sendTs: nat)
    requires ValidFrame(f) && i < Total(|f.data|) && ValidHeader(h) && h.mid == SIM_SEG && FitsU16(sendTs)
    ensures SIM_VIDEO_SIZE * i <= |f.data| && Delivered(Carried(SegmentOf(f, i).(sendTs := sendTs)), f, i)
  {
    hide Receive, Datagram, SegmentOf, Piece, Key, Sendable, Carried;
    SegmentsAreValid(f, i);
    MessageReadsBack(h, Seg(SegmentOf(f, i).(sendTs := sendTs)));
  }

  lemma {:induction false} FindDelivered(arrived: seq<Segment>, index: nat, k: nat)
    requires k < |arrived| && arrived[k].index == index
    ensures Find(arrived, index).Some? && Find(arrived, index).value in arrived
    ensures Find(arrived, index).value.index == index
  {
    if arrived[0].index != index {
      FindDelivered(arrived[1..], index, k - 1);
    }
  }

  ghost predicate OfFrame(s: Segment, f: Frame)
    requires ValidFrame(f)
  {
    exists i: nat :: Delivered(s, f, i)
  }

  /** The segments of a frame, delivered in any order and any number of times, each at least once. */
  ghost predicate AllDelivered(arrived: seq<Segment>, f: Frame)
    requires ValidFrame(f)
  {
    && (forall k :: 0 <= k < |arrived| ==> OfFrame(arrived[k], f))
    && (forall i: nat :: i < Total(|f.data|) ==> Arrived(arrived, f, i))
  }

  ghost predicate Arrived(arrived: seq<Segment>, f: Frame, i: nat)
    requires ValidFrame(f)
  {
    exists k :: 0 <= k < |arrived| && Delivered(arrived[k], f, i)
  }

  lemma FoundPiece(arrived: seq<Segment>, f: Frame, i: nat)
    requires ValidFrame(f) && AllDelivered(arrived, f) && i < Total(|f.data|)
    ensures SIM_VIDEO_SIZE * i < |f.data|
    ensures Find(arrived, i).Some? && Find(arrived, i).value.data == Piece(f.data, i)
  {
    hide Delivered;
    SegmentsAreValid(f, i);
    assert Arrived(arrived, f, i);
    var k :| 0 <= k < |arrived| && Delivered(arrived[k], f, i);
    DeliveredWhole(arrived[k], f, i);
    FindDelivered(arrived, i, k);
    var m :| 0 <= m < |arrived| && arrived[m] == Find(arrived, i).value;
    assert OfFrame(arrived[m], f);
    var j: nat :| Delivered(arrived[m], f, j);
    DeliveredWhole(arrived[m], f, j);
  }

  lemma {:induction false} AssembledPrefix(arrived: seq<Segment>, f: Frame, n: nat)
    requires ValidFrame(f) && AllDelivered(arrived, f) && n <= Total(|f.data|)
    ensures Assemble(arrived, n) == f.data[..Min(SIM_VIDEO_SIZE * n, |f.data|)]
  {
    hide AllDelivered;
    if n > 0 {
      AssembledPrefix(arrived, f, n - 1);
      FoundPiece(arrived, f, n - 1);
      NextPiece(f.data, n - 1);
    }
  }

  lemma NextPiece(data: seq<Byte>, i: nat)
    requires SIM_VIDEO_SIZE * i < |data|
    ensures data[..Min(SIM_VIDEO_SIZE * i, |data|)] + Piece(data, i) == data[..Min(SIM_VIDEO_SIZE * (i + 1), |data|)]
  {
  }

  /** The video path: whatever the frame, its segments put together by index are the frame. */
  lemma FrameArrives(arrived: seq<Segment>, f: Frame)
    requires ValidFrame(f) && AllDelivered(arrived, f)
    ensures Assemble(arrived, Total(|f.data|)) == f.data
  {
    hide AllDelivered;
    AssembledPrefix(arrived, f, Total(|f.data|));
    TotalBounds(|f.data|);
    assert f.data[..|f.data|] == f.data;
  }

  // ---------------------------------------------------------------------------
  // The receiver's buffer
  // ---------------------------------------------------------------------------

  /** The bytes of a segment's message besides its data. */
  function Overhead(s: Segment): nat {
    28 + (if s.packetId > U16_MAX then 2 else 0) + (if s.fid > U16_MAX then 2 else 0)
    + (if s.total > U8_MAX then 2 else 0)
  }

  /** A segment's message fits the receiver's buffer of 1024 bytes exactly if its data leaves room for
      the overhead: the 1000 bytes of every segment but a frame's last do not. */
  lemma FitsReceiverIff(h: Header, s: Segment)
    ensures |Datagram(h, Seg(s))| <= DEFAULT_PACKET_SIZE <==> |s.data| <= DEFAULT_PACKET_SIZE - Overhead(s)
    ensures |s.data| == SIM_VIDEO_SIZE ==> |Datagram(h, Seg(s))| > DEFAULT_PACKET_SIZE
  {
    hide Encode, Crc;
  }

  /** The first segment of a frame of 1001 bytes, as the sender makes it, is 4 bytes too long. */
  lemma FullSegmentExample(h: Header)
    ensures var f := Frame(1, 1, 1, 0, 0, 0, Zeros(1001));
            && ValidFrame(f) && Total(|f.data|) == 2
            && |Datagram(h, Seg(SegmentOf(f, 0)))| == DEFAULT_PACKET_SIZE + 4
  {
    hide Encode, Crc, Zeros;
  }
}
