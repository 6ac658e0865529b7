/** The video sender of mininet-webrtc/sender.cc: it queues the segments of a frame under their
    transport sequence numbers, sends them when the pacer asks, fills requests for padding, and keeps
    round-trip times. Sockets, the pacer and the clock are parameters and logs. */
module VideoSender {
  import opened BinStream
  import opened Bytes
  import opened Maps
  import opened Numbers
  import opened SimCodec
  import opened SimProto
  import opened VideoFrames
  import opened Wrappers

  const SIM_SEGMENT_HEADER_SIZE: nat := 30
  const MAX_PAD_SIZE: nat := 500
  const PROTOCOL_VER: nat := 1
  /** The sizes of the header and padding structures in memory: the compiler's choice. */
  type StructureSize = n: nat | n < 0x1_0000
  const PAD_HEADER_SIZE: StructureSize

  /** What the padding structure for a key happens to hold: any function will do. */
  const PAD_MEMORY: (nat, nat) -> Byte

  function Leftover(seqno: nat, n: nat): (s: seq<Byte>)
    ensures |s| == n
  {
    seq(n, i requires 0 <= i => PAD_MEMORY(seqno, i))
  }

  /** One packet told to the congestion controller, with its size and the time it was sent. */
  datatype Told = Told(seqno: nat, overhead: nat, now: nat)

  /** One call of the pacer's InsertPacket. */
  datatype Queued = Queued(seqno: nat, now: int, overhead: nat)

  /** The first `n` segments of the frame are inserted, where nothing is pending under their keys. */
  function InsertAll(m: map<nat, Segment>, f: Frame, n: nat): map<nat, Segment>
    requires ValidFrame(f) && n <= Total(|f.data|)
  {
    if n == 0 then m else
    SegmentsAreValid(f, n - 1);
    var before := InsertAll(m, f, n - 1);
    if Key(f.transSeq, n - 1) in before then before
    else before[Key(f.transSeq, n - 1) := SegmentOf(f, n - 1)]
  }

  /** A segment is pending after the insertion exactly if nothing was pending under its key, or
      that very segment was; everything that was pending still is, unchanged. */
  lemma {:induction false} InsertedIff(m: map<nat, Segment>, f: Frame, n: nat, i: nat)
    requires ValidFrame(f) && i < n <= Total(|f.data|)
    ensures SIM_VIDEO_SIZE * i <= |f.data|
    ensures var k, r := Key(f.transSeq, i), InsertAll(m, f, n);
            k in r && (r[k] == SegmentOf(f, i) <==> (k in m ==> m[k] == SegmentOf(f, i)))
    ensures forall k :: k in m ==> k in InsertAll(m, f, n) && InsertAll(m, f, n)[k] == m[k]
  {
    hide SegmentOf, Key, Sendable;
    SegmentsAreValid(f, i);
    InsertKeeps(m, f, i);
    InsertKeepsFrom(m, f, i + 1, n);
    InsertKeeps(m, f, n);
    KeyIsNew(m, f, i);
  }

  lemma {:induction false} InsertKeeps(m: map<nat, Segment>, f: Frame, n: nat)
    requires ValidFrame(f) && n <= Total(|f.data|)
    ensures forall k :: k in m ==> k in InsertAll(m, f, n) && InsertAll(m, f, n)[k] == m[k]
  {
    hide SegmentOf, Key, Sendable;
    if n > 0 {
      InsertKeeps(m, f, n - 1);
    }
  }

  lemma {:induction false} InsertKeepsFrom(m: map<nat, Segment>, f: Frame, i: nat, n: nat)
    requires ValidFrame(f) && i <= n <= Total(|f.data|)
    ensures forall k :: k in InsertAll(m, f, i) ==>
              k in InsertAll(m, f, n) && InsertAll(m, f, n)[k] == InsertAll(m, f, i)[k]
    decreases n
  {
    hide SegmentOf, Key, Sendable;
    if i < n {
      InsertKeepsFrom(m, f, i, n - 1);
    }
  }

  /** Only the keys of earlier segments are new. */
  lemma {:induction false} NewKeys(m: map<nat, Segment>, f: Frame, n: nat, k: nat)
    requires ValidFrame(f) && n <= Total(|f.data|) && k in InsertAll(m, f, n) && k !in m
    ensures exists j :: 0 <= j < n && k == Key(f.transSeq, j)
  {
    hide SegmentOf, Key, Sendable;
    if k in InsertAll(m, f, n - 1) {
      NewKeys(m, f, n - 1, k);
    } else {
      assert k == Key(f.transSeq, n - 1);
    }
  }

  lemma KeyIsNew(m: map<nat, Segment>, f: Frame, i: nat)
    requires ValidFrame(f) && i < Total(|f.data|)
    ensures Key(f.transSeq, i) in InsertAll(m, f, i) ==> Key(f.transSeq, i) in m
  {
    hide SegmentOf, Key;
    TotalBounds(|f.data|);
    var k := Key(f.transSeq, i);
    if k in InsertAll(m, f, i) && k !in m {
      NewKeys(m, f, i, k);
      var j :| 0 <= j < i && k == Key(f.transSeq, j);
      KeysDiffer(f.transSeq, j, i);
    }
  }

  /** After 65536 segments the keys come round. */
  lemma KeysComeRound(transSeq: nat)
    requires FitsU16(transSeq)
    ensures Key(transSeq, 0x1_0000) == transSeq
  {
  }

  /** A segment left pending by the first frame displaces one of a frame that comes 65536 segments
      later: the old data is sent in its place. */
  lemma DisplacedExample()
    ensures var f, g := Frame(1, 1, 1, 0, 0, 0, [7]), Frame(0x1_0001, 65, 1, 40000, 0, 0, [8]);
            var m := InsertAll(map[], f, 1);
            && ValidFrame(f) && ValidFrame(g) && g.packetSeed == f.packetSeed + 0x1_0000
            && g.transSeq == Key(f.transSeq, 0x1_0000) && m == map[1 := SegmentOf(f, 0)]
            && InsertAll(m, g, 1) == m && SegmentOf(f, 0).data == [7] && SegmentOf(g, 0).data == [8]
  {
    KeysComeRound(1);
    var f := Frame(1, 1, 1, 0, 0, 0, [7]);
    assert InsertAll(map[], f, 0) == map[];
  }

  /** With nothing pending under its keys, the whole frame is pending. */
  lemma WholeFrameQueued(m: map<nat, Segment>, f: Frame, i: nat)
    requires ValidFrame(f) && i < Total(|f.data|)
    requires forall j :: 0 <= j < Total(|f.data|) ==> Key(f.transSeq, j) !in m
    ensures SIM_VIDEO_SIZE * i <= |f.data|
    ensures var r := InsertAll(m, f, Total(|f.data|));
            Key(f.transSeq, i) in r && r[Key(f.transSeq, i)] == SegmentOf(f, i)
  {
    hide SegmentOf, Key, Sendable, InsertAll;
    InsertedIff(m, f, Total(|f.data|), i);
  }

  /** The data of the segments pending under `n` successive keys. */
  function QueuedData(m: map<nat, Segment>, transSeq: nat, n: nat): seq<Byte> {
    if n == 0 then [] else
    var k := Key(transSeq, n - 1);
    QueuedData(m, transSeq, n - 1) + (if k in m then m[k].data else [])
  }

  /** The video data is pending in segments under successive keys: together they hold the data, and
      each tells its place and what the caller said of the frame. */
  ghost predicate HoldsVideo(m: map<nat, Segment>, packetSeed: nat, fid: nat, transSeq: nat, timestamp: nat,
                             ftype: nat, payloadType: nat, data: seq<Byte>) {
    && QueuedData(m, transSeq, Total(|data|)) == data
    && forall i: nat :: i < Total(|data|) ==>
         HoldsSegment(m, packetSeed, fid, transSeq, timestamp, ftype, payloadType, |data|, i)
  }

  ghost predicate HoldsSegment(m: map<nat, Segment>, packetSeed: nat, fid: nat, transSeq: nat, timestamp: nat,
                               ftype: nat, payloadType: nat, len: nat, i: nat) {
    var k := (transSeq + i) % U16;
    && k == Key(transSeq, i) && k in m && 1 <= |m[k].data| <= SIM_VIDEO_SIZE
    && m[k].packetId == (packetSeed + i) % U32 && m[k].fid == fid && m[k].timestamp == timestamp
    && m[k].index == i && m[k].total == Total(len) && m[k].transportSeq == k
    && m[k].ftype == ftype && m[k].payloadType == payloadType && m[k].remb == 1
  }

  lemma {:induction false} QueuedPrefix(m: map<nat, Segment>, f: Frame, n: nat)
    requires ValidFrame(f) && n <= Total(|f.data|)
    requires forall j :: 0 <= j < Total(|f.data|) ==> Key(f.transSeq, j) !in m
    ensures QueuedData(InsertAll(m, f, Total(|f.data|)), f.transSeq, n) == f.data[..Min(SIM_VIDEO_SIZE * n, |f.data|)]
  {
    hide Key, Total, Sendable, InsertAll, PieceSize, Piece;
    if n > 0 {
      QueuedPrefix(m, f, n - 1);
      WholeFrameQueued(m, f, n - 1);
      SegmentsAreValid(f, n - 1);
      NextPiece(f.data, n - 1);
    }
  }

  /** Over free keys a frame is pending whole. */
  lemma VideoIsHeld(m: map<nat, Segment>, f: Frame)
    requires ValidFrame(f)
    requires forall j :: 0 <= j < Total(|f.data|) ==> Key(f.transSeq, j) !in m
    ensures HoldsVideo(InsertAll(m, f, Total(|f.data|)), f.packetSeed, f.fid, f.transSeq, f.timestamp, f.ftype,
                       f.payloadType, f.data)
  {
    hide Total, InsertAll, QueuedData, Piece, PieceSize;
    var r := InsertAll(m, f, Total(|f.data|));
    forall i: nat | i < Total(|f.data|)
      ensures HoldsSegment(r, f.packetSeed, f.fid, f.transSeq, f.timestamp, f.ftype, f.payloadType, |f.data|, i)
    {
      WholeFrameQueued(m, f, i);
      SegmentsAreValid(f, i);
    }
    QueuedPrefix(m, f, Total(|f.data|));
    TotalBounds(|f.data|);
    assert f.data[..|f.data|] == f.data;
  }

  lemma HeldOverFree(m: map<nat, Segment>, f: Frame)
    requires ValidFrame(f)
    ensures (forall i: nat :: i < Total(|f.data|) ==> Key(f.transSeq, i) !in m) ==>
              HoldsVideo(InsertAll(m, f, Total(|f.data|)), f.packetSeed, f.fid, f.transSeq, f.timestamp, f.ftype,
                         f.payloadType, f.data)
  {
    hide HoldsVideo, InsertAll, Key, Total;
    if forall i: nat :: i < Total(|f.data|) ==> Key(f.transSeq, i) !in m {
      VideoIsHeld(m, f);
    }
  }

  /** What the segments of a frame take in a packet, by key; a key keeps its first entry. */
  function LengthsAll(f: Frame, n: nat): map<nat, nat>
    requires ValidFrame(f) && n <= Total(|f.data|)
  {
    if n == 0 then map[] else
    SegmentsAreValid(f, n - 1);
    var before := LengthsAll(f, n - 1);
    if Key(f.transSeq, n - 1) in before then before
    else before[Key(f.transSeq, n - 1) := PieceSize(|f.data|, n - 1) + SIM_SEGMENT_HEADER_SIZE]
  }

  lemma {:induction false} LengthKeys(f: Frame, n: nat, k: nat)
    requires ValidFrame(f) && n <= Total(|f.data|) && k in LengthsAll(f, n)
    ensures exists j :: 0 <= j < n && k == Key(f.transSeq, j)
  {
    hide Key, Sendable;
    if k in LengthsAll(f, n - 1) {
      LengthKeys(f, n - 1, k);
    } else {
      assert k == Key(f.transSeq, n - 1);
    }
  }

  /** Every segment of the frame has an entry of its own. */
  lemma LengthKeyIsNew(f: Frame, n: nat)
    requires ValidFrame(f) && n < Total(|f.data|)
    ensures Key(f.transSeq, n) !in LengthsAll(f, n)
  {
    hide Key, LengthsAll, Total;
    var k := Key(f.transSeq, n);
    if k in LengthsAll(f, n) {
      TotalBounds(|f.data|);
      LengthKeys(f, n, k);
      var j :| 0 <= j < n && k == Key(f.transSeq, j);
      KeysDiffer(f.transSeq, j, n);
    }
  }

  lemma {:induction false} LengthsOfAll(f: Frame, n: nat)
    requires ValidFrame(f) && n <= Total(|f.data|)
    ensures |LengthsAll(f, n)| == n
    ensures forall i: nat :: i < n ==>
              SIM_VIDEO_SIZE * i <= |f.data| && Key(f.transSeq, i) in LengthsAll(f, n)
              && LengthsAll(f, n)[Key(f.transSeq, i)] == PieceSize(|f.data|, i) + SIM_SEGMENT_HEADER_SIZE
  {
    hide Key, PieceSize, Sendable, Total;
    if n > 0 {
      LengthsOfAll(f, n - 1);
      SegmentsAreValid(f, n - 1);
      LengthKeyIsNew(f, n - 1);
    }
  }

  lemma NextKey(transSeq: nat, i: nat)
    ensures (Key(transSeq, i) + 1) % 0x1_0000 == Key(transSeq, i + 1)
  {
  }

  lemma NextId(seed: nat, i: nat)
    ensures ((seed + i) % 0x1_0000_0000 + 1) % 0x1_0000_0000 == (seed + i + 1) % 0x1_0000_0000
  {
  }

  /** The cursor into the frame moves by whole segments up to its end. */
  lemma NextPosition(len: nat, i: nat)
    requires SIM_VIDEO_SIZE * i < len
    ensures Min(SIM_VIDEO_SIZE * i, len) == SIM_VIDEO_SIZE * i
    ensures SIM_VIDEO_SIZE * i + PieceSize(len, i) <= len
    ensures Min(SIM_VIDEO_SIZE * i, len) + PieceSize(len, i) == Min(SIM_VIDEO_SIZE * (i + 1), len)
  {
  }

  ghost predicate Ascending(q: seq<Queued>) {
    forall i, j :: 0 <= i < j < |q| ==> q[i].seqno < q[j].seqno
  }

  /** The packets handed to the pacer for a frame: one per segment, in the order of the keys. */
  ghost predicate QueuedInOrder(q: seq<Queued>, f: Frame, now: int)
    requires ValidFrame(f)
  {
    && |q| == Total(|f.data|)
    && Ascending(q)
    && (forall i: nat :: i < Total(|f.data|) ==> QueueEntry(f, i, now) in q)
  }

  function QueueEntry(f: Frame, i: nat, now: int): Queued
    requires ValidFrame(f) && i < Total(|f.data|)
  {
    SegmentsAreValid(f, i);
    Queued(Key(f.transSeq, i), now, PieceSize(|f.data|, i) + SIM_SEGMENT_HEADER_SIZE)
  }

  /** The entries of a map as packets for the pacer, in the order of the keys. */
  ghost function Ordered(m: map<nat, nat>, now: int): seq<Queued>
    decreases m.Keys
  {
    if m == map[] then [] else
    var k := Least(m);
    [Queued(k, now, m[k])] + Ordered(m - {k}, now)
  }

  lemma {:induction false} OrderedHolds(m: map<nat, nat>, now: int, k: nat)
    requires k in m
    ensures Queued(k, now, m[k]) in Ordered(m, now)
    decreases m.Keys
  {
    var first := Least(m);
    if k != first {
      OrderedHolds(m - {first}, now, k);
    }
  }

  /** The packets name keys of the map. */
  ghost predicate KeysIn(q: seq<Queued>, m: map<nat, nat>) {
    forall i :: 0 <= i < |q| ==> q[i].seqno in m
  }

  lemma AscendingCons(x: Queued, q: seq<Queued>, m: map<nat, nat>)
    requires x.seqno in m && Ascending(q) && KeysIn(q, m - {x.seqno}) && forall k :: k in m ==> x.seqno <= k
    ensures Ascending([x] + q) && KeysIn([x] + q, m)
  {
    forall i | 0 <= i < |q|
      ensures q[i].seqno in m && x.seqno < q[i].seqno
    {
    }
  }

  lemma {:induction false} OrderedAscends(m: map<nat, nat>, now: int)
    ensures |Ordered(m, now)| == |m| && Ascending(Ordered(m, now)) && KeysIn(Ordered(m, now), m)
    decreases m.Keys
  {
    hide Ascending, KeysIn;
    if m == map[] {
      NothingAscends(m);
    } else {
      var first := Least(m);
      assert (m - {first}).Keys == m.Keys - {first};
      OrderedAscends(m - {first}, now);
      AscendingCons(Queued(first, now, m[first]), Ordered(m - {first}, now), m);
    }
  }

  lemma NothingAscends(m: map<nat, nat>)
    ensures Ascending([]) && KeysIn([], m)
  {
  }

  /** Every segment of a frame is in the queue once, in the order of the keys. */
  lemma FrameIsQueued(f: Frame, now: int)
    requires ValidFrame(f)
    ensures QueuedInOrder(Ordered(LengthsAll(f, Total(|f.data|)), now), f, now)
  {
    hide LengthsAll, Ordered, Key, Total, PieceSize, Sendable;
    var lens := LengthsAll(f, Total(|f.data|));
    LengthsOfAll(f, Total(|f.data|));
    OrderedAscends(lens, now);
    forall i: nat | i < Total(|f.data|)
      ensures QueueEntry(f, i, now) in Ordered(lens, now)
    {
      OrderedHolds(lens, now, Key(f.transSeq, i));
    }
  }

  /** A call of `TimeToSendPacket`. */
  datatype Call = Call(seqno: nat, now: nat)

  /** What a call sends: the segment pending under the key, its send time counted from the frame's. */
  function SentBy(m: map<nat, Segment>, uid: nat, firstTs: int, c: Call): seq<seq<Byte>> {
    if c.seqno !in m then [] else
    var seg := m[c.seqno];
    [Datagram(Header(PROTOCOL_VER, SIM_SEG, uid), Seg(seg.(sendTs := (c.now - firstTs - seg.timestamp) % 0x1_0000)))]
  }

  /** The frame a sender with these counters makes of some video data. */
  function FrameOf(packetSeed: nat, frameSeed: nat, transSeq: nat, firstTs: int, payloadType: nat, ftype: int,
                   data: seq<Byte>, now: int): Frame {
    Frame(packetSeed, frameSeed, transSeq, (now - (if firstTs == -1 then now else firstTs)) % U32,
          ftype % 0x100, payloadType, data)
  }

  class Sender {
    const uid: nat
    const stream: Stream
    /** Whether there is a congestion controller. */
    const hasController: bool
    var running: bool
    var firstTs: int
    var packetSeed: nat
    var frameSeed: nat
    var transSeq: nat
    var pending: map<nat, Segment>
    /** What the controller, the pacer and the network were given. */
    var told: seq<Told>
    var queue: seq<Queued>
    var network: seq<seq<Byte>>

    ghost predicate Valid()
      reads this, stream, stream.data
    {
      && stream.Valid()
      && FitsU32(packetSeed) && FitsU32(frameSeed) && FitsU16(transSeq) && FitsU32(uid)
      && forall k :: k in pending ==> pending[k].transportSeq == k && ValidSegment(pending[k])
    }

    constructor (uid: nat, hasController: bool)
      requires FitsU32(uid)
      ensures Valid() && fresh(stream) && fresh(stream.data) && pending == map[] && queue == [] && network == []
      ensures this.hasController == hasController && told == []
      ensures !running && firstTs == -1 && packetSeed == 1 && frameSeed == 1 && transSeq == 1
    {
      this.uid, this.hasController := uid, hasController;
      stream := new Stream();
      running, firstTs, packetSeed, frameSeed, transSeq := false, -1, 1, 1, 1;
      pending, told, queue, network := map[], [], [], [];
    }

    /** The frame a call of `SendVideo` cuts up. */
    ghost function FrameFor(payloadType: nat, ftype: int, data: seq<Byte>, now: int): Frame
      reads this
    {
      FrameOf(packetSeed, frameSeed, transSeq, firstTs, payloadType, ftype, data, now)
    }

    /** Segment `i` of a frame is made and put into the pending map; the counters wrap. */
    method AddSegment(i: nat, total: nat, timestamp: nat, ftype: nat, payloadType: nat, data: seq<Byte>,
                      ghost f: Frame, ghost before: map<nat, Segment>)
      returns (seqno: nat, overhead: nat)
      requires Valid() && ValidFrame(f) && i < total == Total(|f.data|)
      requires SIM_VIDEO_SIZE * i < |f.data| && data == Piece(f.data, i)
      requires frameSeed == f.fid && timestamp == f.timestamp && ftype == f.ftype && payloadType == f.payloadType
      requires packetSeed == (f.packetSeed + i) % 0x1_0000_0000 && transSeq == Key(f.transSeq, i)
      requires pending == InsertAll(before, f, i)
      modifies this`packetSeed, this`transSeq, this`pending
      ensures Valid() && pending == InsertAll(before, f, i + 1)
      ensures packetSeed == (f.packetSeed + i + 1) % 0x1_0000_0000 && transSeq == Key(f.transSeq, i + 1)
      ensures seqno == Key(f.transSeq, i) && overhead == |data| + SIM_SEGMENT_HEADER_SIZE
    {
      hide Key, Total, Min, PieceSize, Piece, Sendable, Stream.Valid;
      var seg := Segment(packetSeed, frameSeed, timestamp, i, total, ftype, payloadType, 1, 0, transSeq, data);
      assert seg == SegmentOf(f, i);
      SegmentsAreValid(f, i);
      NextKey(f.transSeq, i);
      NextId(f.packetSeed, i);
      seqno, overhead := transSeq, |data| + SIM_SEGMENT_HEADER_SIZE;
      packetSeed := (packetSeed + 1) % 0x1_0000_0000;
      transSeq := (transSeq + 1) % 0x1_0000;
      if seg.transportSeq !in pending {
        pending := pending[seg.transportSeq := seg];
      }
    }

    /** All segments of a frame; `lens` is what each takes in a packet. */
    method QueueSegments(splits: array<nat>, total: nat, timestamp: nat, ftype: nat, payloadType: nat, data: seq<Byte>,
                         ghost f: Frame)
      returns (lens: map<nat, nat>)
      requires Valid() && ValidFrame(f) && total == Total(|data|) && splits.Length == MAX_SPLIT_NUMBER
      requires total <= MAX_SPLIT_NUMBER
      requires forall i :: 0 <= i < total ==> SIM_VIDEO_SIZE * i < |data| && splits[i] == PieceSize(|data|, i)
      requires f == Frame(packetSeed, frameSeed, transSeq, timestamp, ftype, payloadType, data)
      modifies this`packetSeed, this`transSeq, this`pending
      ensures Valid() && pending == InsertAll(old(pending), f, total)
      ensures packetSeed == (old(packetSeed) + total) % 0x1_0000_0000 && transSeq == Key(old(transSeq), total)
      ensures lens == LengthsAll(f, total)
    {
      hide Key, SegmentOf, Total, Min, PieceSize, Sendable, Sender.Valid;
      lens := map[];
      var pos := 0;
      StartOf(f);
      for i := 0 to total
        invariant Valid() && pos == Min(SIM_VIDEO_SIZE * i, |data|)
        invariant pending == InsertAll(old(pending), f, i)
        invariant packetSeed == (f.packetSeed + i) % 0x1_0000_0000 && transSeq == Key(f.transSeq, i)
        invariant lens == LengthsAll(f, i)
      {
        NextPosition(|data|, i);
        var seqno, overhead :=
          AddSegment(i, total, timestamp, ftype, payloadType, data[pos..pos + splits[i]], f, old(pending));
        pos := pos + splits[i];
        if seqno !in lens {
          lens := lens[seqno := overhead];
        }
      }
    }

    /** The packets go to the pacer in the order of the map. */
    method InsertPackets(lens: map<nat, nat>, now: int)
      modifies this`queue
      ensures queue == old(queue) + Ordered(lens, now)
    {
      var left := lens;
      while left != map[]
        invariant queue + Ordered(left, now) == old(queue) + Ordered(lens, now)
        decreases |left|
      {
        LeastKey(left);
        var seqno :| seqno in left && forall k :: k in left ==> seqno <= k;
        assert seqno == Least(left);
        assert (left - {seqno}).Keys == left.Keys - {seqno};
        queue := queue + [Queued(seqno, now, left[seqno])];
        left := left - {seqno};
      }
    }

    /** `SendVideo`: the frame's segments wait under their keys and the pacer knows of each. */
    method SendVideo(payloadType: nat, ftype: int, data: seq<Byte>, now: int)
      requires Valid() && FitsU8(payloadType) && |data| / SIM_VIDEO_SIZE < MAX_SPLIT_NUMBER
      modifies this
      ensures Valid() && network == old(network) && told == old(told) && running == old(running)
      ensures !running || data == [] ==> unchanged(this)
      ensures running && data != [] ==>
                var f := old(FrameFor(payloadType, ftype, data, now));
                && ValidFrame(f)
                && pending == InsertAll(old(pending), f, Total(|data|))
                && packetSeed == (old(packetSeed) + Total(|data|)) % 0x1_0000_0000
                && transSeq == Key(old(transSeq), Total(|data|))
                && frameSeed == (old(frameSeed) + 1) % 0x1_0000_0000
                && firstTs == (if old(firstTs) == -1 then now else old(firstTs))
                && queue == old(queue) + Ordered(LengthsAll(f, Total(|data|)), now)
      ensures running && data != []
              && (forall i: nat :: i < Total(|data|) ==> Key(old(transSeq), i) !in old(pending)) ==>
                HoldsVideo(pending, old(packetSeed), old(frameSeed), old(transSeq), (now - firstTs) % U32,
                           ftype % 0x100, payloadType, data)
    {
      hide Key, Total, PieceSize, InsertAll, LengthsAll, Ordered, Stream.Valid, HoldsVideo;
      if running && data != [] {
        ghost var f := FrameFor(payloadType, ftype, data, now);
        HeldOverFree(pending, f);
        if firstTs == -1 {
          firstTs := now;
        }
        var timestamp := (now - firstTs) % 0x1_0000_0000;
        var splits := new nat[MAX_SPLIT_NUMBER];
        var total := FrameSplit(splits, |data|);
        var lens := QueueSegments(splits, total, timestamp, ftype % 0x100, payloadType, data, f);
        frameSeed := (frameSeed + 1) % 0x1_0000_0000;
        InsertPackets(lens, now);
      }
    }

    /** `get_segment_t`: the segment leaves the map. */
    method GetSegment(seqno: nat) returns (seg: Option<Segment>)
      requires Valid()
      modifies this`pending
      ensures Valid() && pending == old(pending) - {seqno}
      ensures if seqno in old(pending) then seg == Some(old(pending)[seqno]) else seg == None
    {
      if seqno in pending {
        seg := Some(pending[seqno]);
        pending := pending - {seqno};
      } else {
        seg := None;
      }
    }

    /** A segment goes out as one message; its send time counts from the frame's. */
    method SendSegment(seg: Segment, now: nat)
      requires Valid() && ValidSegment(seg)
      modifies this`network, stream, stream.data
      ensures Valid() && (stream.data == old(stream.data) || fresh(stream.data))
      ensures var sent := seg.(sendTs := (now - firstTs - seg.timestamp) % 0x1_0000);
              network == old(network) + [Datagram(Header(PROTOCOL_VER, SIM_SEG, uid), Seg(sent))]
    {
      hide Datagram, Stream.Valid;
      var sent := seg.(sendTs := (now - firstTs - seg.timestamp) % 0x1_0000);
      EncodeMsg(stream, Header(PROTOCOL_VER, SIM_SEG, uid), Seg(sent));
      network := network + [stream.data[..stream.used]];
    }

    /** The pacer asks for the packet with a key. */
    method TimeToSendPacket(seqno: nat, now: nat)
      requires Valid()
      modifies this`network, this`pending, this`told, stream, stream.data
      ensures Valid() && (stream.data == old(stream.data) || fresh(stream.data))
      ensures pending == old(pending) - {seqno}
      ensures network == old(network) + SentBy(old(pending), uid, firstTs, Call(seqno, now))
      ensures told == old(told) + if hasController && seqno in old(pending)
                                  then [Told(seqno, |old(pending)[seqno].data| + SIM_SEGMENT_HEADER_SIZE, now)] else []
    {
      hide Datagram, Stream.Valid;
      var seg := GetSegment(seqno);
      if seg.Some? {
        SendSegment(seg.value, now);
        var overhead := (|seg.value.data| + SIM_SEGMENT_HEADER_SIZE) % 0x1_0000;
        if hasController {
          told := told + [Told(seqno, overhead, now)];
        }
      }
    }

    // -------------------------------------------------------------------------
    // Padding
    // -------------------------------------------------------------------------

    /** One padding message of `payload` bytes, whatever they hold. */
    method SendPadding(payload: nat, ts: nat) returns (overhead: nat)
      requires Valid() && payload <= MAX_PAD_SIZE && FitsU32(ts)
      modifies this`network, this`transSeq, this`told, stream, stream.data
      ensures Valid() && (stream.data == old(stream.data) || fresh(stream.data))
      ensures overhead == PAD_HEADER_SIZE + payload && transSeq == (old(transSeq) + 1) % 0x1_0000
      ensures told == old(told) + (if hasController then [Told(old(transSeq), overhead, ts)] else [])
      ensures network == old(network) +
                [Datagram(Header(PROTOCOL_VER, SIM_PAD, uid), Pad(ts, old(transSeq), Leftover(old(transSeq), payload)))]
    {
      hide Datagram, Stream.Valid;
      var seqno := transSeq;
      var pad := Pad(ts, seqno, Leftover(seqno, payload));
      transSeq := (transSeq + 1) % 0x1_0000;
      overhead := PAD_HEADER_SIZE + payload;
      EncodeMsg(stream, Header(PROTOCOL_VER, SIM_PAD, uid), pad);
      network := network + [stream.data[..stream.used]];
      if hasController {
        told := told + [Told(seqno, overhead, ts)];
      }
    }

    /** A request for padding below 100 bytes is ignored; otherwise messages go out until less than
        100 bytes remain, counting in the 32-bit signed number that the request is cut to. `payloads`
        are their sizes. */
    method TimeToSendPadding(bytes: nat, ts: nat) returns (answer: nat, ghost payloads: seq<nat>)
      requires Valid() && FitsU32(ts)
      modifies this`network, this`transSeq, this`told, stream, stream.data
      ensures Valid() && answer == bytes && (stream.data == old(stream.data) || fresh(stream.data))
      ensures payloads == RequestPayloads(bytes) && (FillsRequest(bytes, payloads) <==> bytes < 0x8000_0000)
      ensures network == old(network) + PadMessages(uid, payloads, ts, old(transSeq))
      ensures told == old(told) + (if hasController then PadsTold(payloads, ts, old(transSeq)) else [])
      ensures transSeq == (old(transSeq) + |payloads|) % 0x1_0000
    {
      hide Datagram, Stream.Valid, Leftover, PadMessages, PadsTold, Signed, ValidSegment, FillsRequest;
      answer, payloads := bytes, [];
      NoPads(uid, ts, transSeq, network);
      if bytes >= 100 {
        var remain := Signed(bytes % 0x1_0000_0000, 4);
        payloads := PadPayloads(remain);
        ghost var rest := payloads;
        while remain > 0
          invariant Valid() && (stream.data == old(stream.data) || fresh(stream.data))
          invariant |rest| <= |payloads| && rest == PadPayloads(remain)
          invariant transSeq == (old(transSeq) + |payloads| - |rest|) % 0x1_0000
          invariant network + PadMessages(uid, rest, ts, transSeq) ==
                    old(network) + PadMessages(uid, payloads, ts, old(transSeq))
          invariant told + (if hasController then PadsTold(rest, ts, transSeq) else []) ==
                    old(told) + (if hasController then PadsTold(payloads, ts, old(transSeq)) else [])
          decreases remain
        {
          ghost var before := told;
          ghost var sent := network;
          ghost var seqno := transSeq;
          if remain >= MAX_PAD_SIZE {
            var overhead := SendPadding(MAX_PAD_SIZE, ts);
            remain := remain - overhead;
            NextPad(uid, MAX_PAD_SIZE, PadPayloads(remain), ts, seqno, sent);
            NextTold(MAX_PAD_SIZE, PadPayloads(remain), ts, seqno, before);
          } else {
            if remain >= 100 {
              var overhead := SendPadding(remain, ts);
              assert [remain] + [] == [remain];
              NextPad(uid, remain, [], ts, seqno, sent);
              NextTold(remain, [], ts, seqno, before);
            }
            remain := 0;
          }
          rest := PadPayloads(remain);
        }
        NoPads(uid, ts, transSeq, network);
      }
      RequestFilledIff(bytes);
    }
  }

  lemma NextPad(uid: nat, payload: nat, more: seq<nat>, ts: nat, seqno: nat, sent: seq<seq<Byte>>)
    ensures var message := Datagram(Header(PROTOCOL_VER, SIM_PAD, uid), Pad(ts, seqno, Leftover(seqno, payload)));
            sent + PadMessages(uid, [payload] + more, ts, seqno) ==
            sent + [message] + PadMessages(uid, more, ts, (seqno + 1) % 0x1_0000)
  {
    hide Datagram, Leftover;
    assert ([payload] + more)[1..] == more;
  }

  lemma NextTold(payload: nat, more: seq<nat>, ts: nat, seqno: nat, before: seq<Told>)
    ensures before + PadsTold([payload] + more, ts, seqno) ==
            before + [Told(seqno, PAD_HEADER_SIZE + payload, ts)] + PadsTold(more, ts, (seqno + 1) % 0x1_0000)
  {
    assert ([payload] + more)[1..] == more;
  }

  lemma NoPads(uid: nat, ts: nat, seqno: nat, sent: seq<seq<Byte>>)
    ensures sent + PadMessages(uid, [], ts, seqno) == sent && PadsTold([], ts, seqno) == []
  {
  }

  /** The sizes of the padding messages for a request. */
  function PadPayloads(remain: int): seq<nat>
    decreases remain
  {
    if remain >= MAX_PAD_SIZE then [MAX_PAD_SIZE] + PadPayloads(remain - (PAD_HEADER_SIZE + MAX_PAD_SIZE))
    else if remain >= 100 then [remain]
    else []
  }

  /** The sizes of the messages for a request, which is cut to a signed number of 32 bits. */
  function RequestPayloads(bytes: nat): seq<nat> {
    if bytes < 100 then [] else PadPayloads(Signed(bytes % 0x1_0000_0000, 4))
  }

  function PadMessages(uid: nat, payloads: seq<nat>, ts: nat, transSeq: nat): seq<seq<Byte>> {
    if payloads == [] then [] else
    [Datagram(Header(PROTOCOL_VER, SIM_PAD, uid), Pad(ts, transSeq, Leftover(transSeq, payloads[0])))]
    + PadMessages(uid, payloads[1..], ts, (transSeq + 1) % 0x1_0000)
  }

  function PadsTold(payloads: seq<nat>, ts: nat, transSeq: nat): seq<Told> {
    if payloads == [] then [] else
    [Told(transSeq, PAD_HEADER_SIZE + payloads[0], ts)] + PadsTold(payloads[1..], ts, (transSeq + 1) % 0x1_0000)
  }

  function PadOverhead(payloads: seq<nat>): nat {
    if payloads == [] then 0 else PAD_HEADER_SIZE + payloads[0] + PadOverhead(payloads[1..])
  }

  /** What is left unfilled of a request is less than 100 bytes, and what is too much at most one
      header. */
  predicate FillsRequest(bytes: nat, payloads: seq<nat>) {
    bytes - 100 < PadOverhead(payloads) <= bytes + PAD_HEADER_SIZE
  }

  /** A request is filled exactly if it is below 2^31 bytes: a larger one is cut to a negative
      number, for which nothing is sent, or to one that is too small. */
  lemma RequestFilledIff(bytes: nat)
    ensures FillsRequest(bytes, RequestPayloads(bytes)) <==> bytes < 0x8000_0000
  {
    hide Signed, PadPayloads, PadOverhead;
    if bytes >= 100 {
      CutRequest(bytes);
      PaddingBounds(Signed(bytes % 0x1_0000_0000, 4));
    }
    NoOverhead();
  }

  lemma CutRequest(bytes: nat)
    ensures var remain := Signed(bytes % 0x1_0000_0000, 4);
            && -0x8000_0000 <= remain < 0x8000_0000
            && (bytes < 0x8000_0000 ==> remain == bytes)
            && (0x8000_0000 <= bytes < 0x1_0000_0000 ==> remain < 0)
  {
    SmallPowers();
  }

  lemma NoOverhead()
    ensures PadOverhead([]) == 0 && forall remain: int :: remain < 100 ==> PadPayloads(remain) == []
  {
  }

  /** For 2^31 bytes nothing is sent. */
  lemma UnfilledExample()
    ensures RequestPayloads(0x8000_0000) == [] && !FillsRequest(0x8000_0000, RequestPayloads(0x8000_0000))
  {
    CutRequest(0x8000_0000);
  }

  lemma {:induction false} PaddingBounds(remain: int)
    ensures remain - 100 < PadOverhead(PadPayloads(remain))
    ensures PadOverhead(PadPayloads(remain)) <= if remain + PAD_HEADER_SIZE >= 0 then remain + PAD_HEADER_SIZE else 0
    decreases remain
  {
    if remain >= MAX_PAD_SIZE {
      PaddingBounds(remain - (PAD_HEADER_SIZE + MAX_PAD_SIZE));
    }
  }

  /** No message pads less than 100 bytes or more than the 500 a receiver has room for. */
  lemma {:induction false} PaddingSizes(remain: int, k: nat)
    requires k < |PadPayloads(remain)|
    ensures 100 <= PadPayloads(remain)[k] <= PADDING_DATA_SIZE
    decreases remain
  {
    if remain >= MAX_PAD_SIZE && k > 0 {
      PaddingSizes(remain - (PAD_HEADER_SIZE + MAX_PAD_SIZE), k - 1);
    }
  }

  lemma StartOf(f: Frame)
    requires ValidFrame(f)
    ensures Min(SIM_VIDEO_SIZE * 0, |f.data|) == 0 && Key(f.transSeq, 0) == f.transSeq
    ensures (f.packetSeed + 0) % 0x1_0000_0000 == f.packetSeed
  {
  }
}
