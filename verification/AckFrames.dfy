/** The ACK frame of quic-test/myquic/my_quic_framer.cc in the layout of version 43: a run-length
    coded list of acknowledged intervals, newest first. Gaps above 255 are split by empty blocks,
    field widths are chosen per frame, and the number of blocks is capped by space and by 255. */
module AckFrames {
  import opened Bytes
  import opened DataIo
  import opened Numbers

  /** A half-open interval of acknowledged packet numbers. */
  datatype Interval = Interval(lo: nat, hi: nat) {
    function Length(): int {
      hi - lo
    }
  }

  /** `packets` is in ascending order; `delay` is the 16-bit form the delay has on the wire. */
  datatype AckFrame = AckFrame(largestAcked: nat, delay: nat, packets: seq<Interval>)

  /** One encoded block: `gap` packets missing below the previous block, then `len` packets. */
  datatype Block = Block(gap: nat, len: nat)

  datatype AckFrameInfo = AckFrameInfo(maxBlockLength: nat, firstBlockLength: nat, numAckBlocks: nat)

  const MAX_U8: nat := 255
  const PACKET_NUMBER_LIMIT: nat := 0x1_0000_0000_0000

  /** The intervals `p[..i]`, newest first, lie below packet `start`: non-empty, separated by at
      least one missing packet, and made of packet numbers from 1 up. */
  ghost predicate Below(p: seq<Interval>, i: nat, start: nat)
    requires i <= |p|
  {
    i > 0 ==>
      && 1 <= p[i - 1].lo < p[i - 1].hi < start
      && Below(p, i - 1, p[i - 1].lo)
  }

  /** The frames of the framer's callers. */
  ghost predicate WellFormed(f: AckFrame) {
    var n := |f.packets|;
    && f.delay < 0x1_0000
    && if n == 0 then f.largestAcked == 0 else
         && 1 <= Top(f).lo < Top(f).hi == f.largestAcked + 1 <= PACKET_NUMBER_LIMIT
         && Below(f.packets, n - 1, Top(f).lo)
  }

  /** `Below` says that the intervals are sorted, pairwise disjoint and not even adjacent. */
  lemma {:induction false} BelowMeans(p: seq<Interval>, i: nat, start: nat)
    requires i <= |p|
    ensures Below(p, i, start) <==>
            && (forall k :: 0 <= k < i ==> 1 <= p[k].lo < p[k].hi < start)
            && (forall j, k :: 0 <= j < k < i ==> p[j].hi < p[k].lo)
  {
    if i > 0 {
      BelowMeans(p, i - 1, p[i - 1].lo);
      assert Below(p, i, start) ==> p[i - 1].lo < start;
    }
  }

  // ---------------------------------------------------------------------------
  // Field widths
  // ---------------------------------------------------------------------------

  /** The widths a packet number can have outside version 41. */
  predicate IsLength(len: nat) {
    len == 1 || len == 2 || len == 4 || len == 6
  }

  function MinPacketNumberLength(n: nat): (len: nat)
    ensures IsLength(len)
  {
    if n < 0x100 then 1 else if n < 0x1_0000 then 2 else if n < 0x1_0000_0000 then 4 else 6
  }

  function PacketNumberFlags(len: nat): (flags: nat)
    ensures flags < 4
  {
    if len == 1 then 0 else if len == 2 then 1 else if len == 4 then 2 else 3
  }

  function ReadPacketNumberLength(flags: nat): (len: nat)
    requires flags < 4
    ensures IsLength(len)
    ensures PacketNumberFlags(len) == flags
  {
    if flags == 0 then 1 else if flags == 1 then 2 else if flags == 2 then 4 else 6
  }

  /** A number below 2^48 fits its width, and no smaller width of the wire format holds it. */
  lemma MinLengthFits(n: nat)
    requires n < PACKET_NUMBER_LIMIT
    ensures n < Pow256(MinPacketNumberLength(n))
    ensures forall w :: IsLength(w) && n < Pow256(w) ==> MinPacketNumberLength(n) <= w
  {
    SmallPowers();
  }

  // ---------------------------------------------------------------------------
  // The block list of a frame
  // ---------------------------------------------------------------------------

  /** How many blocks a gap of `gap` packets and the interval below it take. */
  function NumEncodedGaps(gap: nat): nat {
    (gap + MAX_U8 - 1) / MAX_U8
  }

  /** The blocks for one interval: empty blocks while the gap is too long for one byte. */
  function GapBlocks(gap: nat, len: nat): (bs: seq<Block>)
    requires gap > 0
    ensures |bs| == NumEncodedGaps(gap) > 0
  {
    if gap <= MAX_U8 then [Block(gap, len)] else [Block(MAX_U8, 0)] + GapBlocks(gap - MAX_U8, len)
  }

  lemma {:induction false} GapBlocksAt(gap: nat, len: nat, k: nat)
    requires gap > 0 && k < |GapBlocks(gap, len)|
    ensures GapBlocks(gap, len)[k]
         == if k < |GapBlocks(gap, len)| - 1 then Block(MAX_U8, 0) else Block(gap - k * MAX_U8, len)
    ensures 0 < GapBlocks(gap, len)[k].gap <= MAX_U8
  {
    if gap > MAX_U8 && k > 0 {
      GapBlocksAt(gap - MAX_U8, len, k - 1);
    }
  }

  /** The blocks for the intervals `p[..i]`, newest first, below packet `start`. */
  function Blocks(p: seq<Interval>, i: nat, start: nat): (bs: seq<Block>)
    requires i <= |p| && Below(p, i, start)
    ensures |bs| >= i
    decreases i
  {
    if i == 0 then [] else
    GapBlocks(start - p[i - 1].hi, p[i - 1].Length()) + Blocks(p, i - 1, p[i - 1].lo)
  }

  function Top(f: AckFrame): Interval
    requires f.packets != []
  {
    f.packets[|f.packets| - 1]
  }

  function AllBlocks(f: AckFrame): seq<Block>
    requires WellFormed(f)
  {
    if f.packets == [] then [] else Blocks(f.packets, |f.packets| - 1, Top(f).lo)
  }

  // ---------------------------------------------------------------------------
  // Scanning a frame before writing it
  // ---------------------------------------------------------------------------

  /** What the scan makes of one more interval. */
  function Bump(info: AckFrameInfo, gap: nat, len: nat): AckFrameInfo {
    info.(numAckBlocks := info.numAckBlocks + NumEncodedGaps(gap),
          maxBlockLength := if info.maxBlockLength < len then len else info.maxBlockLength)
  }

  /** The scan over the intervals below the newest: it stops once 255 blocks are counted. */
  function Scan(p: seq<Interval>, i: nat, start: nat, info: AckFrameInfo): (r: AckFrameInfo)
    requires i <= |p| && Below(p, i, start)
    ensures r.firstBlockLength == info.firstBlockLength
    ensures info.maxBlockLength <= r.maxBlockLength && info.numAckBlocks <= r.numAckBlocks
    decreases i
  {
    if i == 0 || info.numAckBlocks >= MAX_U8 then info else
    Scan(p, i - 1, p[i - 1].lo, Bump(info, start - p[i - 1].hi, p[i - 1].Length()))
  }

  function Info(f: AckFrame): AckFrameInfo
    requires WellFormed(f)
  {
    if f.packets == [] then AckFrameInfo(0, 0, 0) else
    var len := Top(f).Length();
    Scan(f.packets, |f.packets| - 1, Top(f).lo, AckFrameInfo(len, len, 0))
  }

  /** The scan counts the blocks of the frame, exactly unless it stopped at 255. */
  lemma {:induction false} ScanCounts(p: seq<Interval>, i: nat, start: nat, info: AckFrameInfo)
    requires i <= |p| && Below(p, i, start)
    ensures var n, r := |Blocks(p, i, start)|, Scan(p, i, start, info);
            && r.numAckBlocks <= info.numAckBlocks + n
            && (r.numAckBlocks < MAX_U8 ==> r.numAckBlocks == info.numAckBlocks + n)
            && (r.maxBlockLength <= info.maxBlockLength || r.maxBlockLength < start)
    decreases i
  {
    if i > 0 && info.numAckBlocks < MAX_U8 {
      ScanCounts(p, i - 1, p[i - 1].lo, Bump(info, start - p[i - 1].hi, p[i - 1].Length()));
    }
  }

  lemma InfoFacts(f: AckFrame)
    requires WellFormed(f)
    ensures Info(f).maxBlockLength < PACKET_NUMBER_LIMIT
    ensures Info(f).numAckBlocks <= |AllBlocks(f)|
    ensures Info(f).numAckBlocks < MAX_U8 ==> Info(f).numAckBlocks == |AllBlocks(f)|
    ensures AllBlocks(f) == [] <==> |f.packets| <= 1
  {
    if f.packets != [] {
      var len := Top(f).Length();
      ScanCounts(f.packets, |f.packets| - 1, Top(f).lo, AckFrameInfo(len, len, 0));
    }
  }

  /** Although the scan stops early, the largest length it saw bounds every block that can be
      emitted, because at most 255 are. */
  lemma {:induction false} ScanCovers(p: seq<Interval>, i: nat, start: nat, info: AckFrameInfo, k: nat)
    requires i <= |p| && Below(p, i, start)
    requires k < |Blocks(p, i, start)| && info.numAckBlocks + k < MAX_U8
    ensures Blocks(p, i, start)[k].len <= Scan(p, i, start, info).maxBlockLength
    decreases i
  {
    var gap, len := start - p[i - 1].hi, p[i - 1].Length();
    var next, below := Bump(info, gap, len), Blocks(p, i - 1, p[i - 1].lo);
    assert Scan(p, i, start, info) == Scan(p, i - 1, p[i - 1].lo, next);
    var here := GapBlocks(gap, len);
    assert Blocks(p, i, start) == here + below;
    if k < |here| {
      GapBlocksAt(gap, len, k);
    } else {
      assert Blocks(p, i, start)[k] == below[k - |here|];
      ScanCovers(p, i - 1, p[i - 1].lo, next, k - |here|);
    }
  }

  /** `GetAckFrameInfo`. */
  method GetAckFrameInfo(f: AckFrame) returns (info: AckFrameInfo)
    requires WellFormed(f)
    ensures info == Info(f)
  {
    info := AckFrameInfo(0, 0, 0);
    if f.packets == [] {
      return;
    }
    var i := |f.packets| - 1;
    var len := f.packets[i].Length();
    info := AckFrameInfo(len, len, 0);
    var previousStart := f.packets[i].lo;
    ghost var final := Scan(f.packets, i, previousStart, info);
    while i > 0 && info.numAckBlocks < MAX_U8
      invariant 0 <= i < |f.packets| && previousStart == f.packets[i].lo
      invariant Below(f.packets, i, previousStart)
      invariant Scan(f.packets, i, previousStart, info) == final
    {
      ghost var before := info;
      i := i - 1;
      var interval := f.packets[i];
      var totalGap := previousStart - interval.hi;
      info := info.(numAckBlocks := info.numAckBlocks + (totalGap + MAX_U8 - 1) / MAX_U8);
      if info.maxBlockLength < interval.Length() {
        info := info.(maxBlockLength := interval.Length());
      }
      assert info == Bump(before, totalGap, interval.Length());
      previousStart := interval.lo;
    }
  }

  // ---------------------------------------------------------------------------
  // Writing
  // ---------------------------------------------------------------------------

  function BlockLengthWidth(f: AckFrame): (w: nat)
    requires WellFormed(f)
    ensures IsLength(w)
  {
    MinPacketNumberLength(Info(f).maxBlockLength)
  }

  /** `GetMinAckFrameSize`: type byte, largest acked, delay and number of timestamps. */
  function MinAckFrameSize(largestAckedLength: nat): nat {
    1 + largestAckedLength + 2 + 1
  }

  /** The space for blocks after the first, given the free bytes of the packet. */
  function AvailableBlockBytes(f: AckFrame, free: nat): int
    requires WellFormed(f)
  {
    free - BlockLengthWidth(f) - MinAckFrameSize(MinPacketNumberLength(f.largestAcked))
      - (if Info(f).numAckBlocks != 0 then 1 else 0)
  }

  /** Division that truncates toward zero, as the source's integer division does. */
  function TruncatingDiv(a: int, b: int): int
    requires b > 0
  {
    if a >= 0 then a / b else -((-a) / b)
  }

  lemma QuotientFacts(a: int, w: nat)
    requires IsLength(w)
    ensures var q, b := TruncatingDiv(a, w + 1), w + 1;
            && (a >= 0 ==> 0 <= q * b <= a < (q + 1) * b)
            && (-b < a < 0 ==> q == 0)
            && (a <= -b ==> a <= q <= -1)
  {
    if w == 1 {
    } else if w == 2 {
    } else if w == 4 {
    } else {
    }
  }

  /** The number of blocks written, for `count` blocks wanted and `available` bytes. A negative
      quotient becomes a huge `size_t`. */
  function CappedBlocks(count: nat, available: int, w: nat): int {
    var q := TruncatingDiv(available, w + 1);
    var maxNum := if q < 0 then q + 0x1_0000_0000_0000_0000 else q;
    var num := if count < maxNum then count else maxNum;
    if num > MAX_U8 then MAX_U8 else num
  }

  function NumBlocksWritten(f: AckFrame, free: nat): (k: nat)
    requires WellFormed(f)
    ensures k <= |AllBlocks(f)| && k <= MAX_U8
  {
    InfoFacts(f);
    QuotientFacts(AvailableBlockBytes(f, free), BlockLengthWidth(f));
    CappedBlocks(Info(f).numAckBlocks, AvailableBlockBytes(f, free), BlockLengthWidth(f))
  }

  function EncodeBlock(b: Block, w: nat): (s: seq<Byte>)
    ensures |s| == 1 + w
  {
    Encode(b.gap, 1) + Encode(b.len, w)
  }

  function EncodeBlocks(bs: seq<Block>, w: nat): seq<Byte> {
    if bs == [] then [] else EncodeBlock(bs[0], w) + EncodeBlocks(bs[1..], w)
  }

  lemma NoBlocks(w: nat)
    ensures EncodeBlocks([], w) == []
  {
  }

  lemma {:induction false} EncodeBlocksSize(bs: seq<Block>, w: nat)
    ensures |EncodeBlocks(bs, w)| == |bs| * (w + 1)
  {
    if bs != [] {
      EncodeBlocksSize(bs[1..], w);
    }
  }

  lemma {:induction false} EncodeBlocksAppend(a: seq<Block>, b: seq<Block>, w: nat)
    ensures EncodeBlocks(a + b, w) == EncodeBlocks(a, w) + EncodeBlocks(b, w)
  {
    if a == [] {
      assert a + b == b;
    } else {
      assert (a + b)[1..] == a[1..] + b;
      EncodeBlocksAppend(a[1..], b, w);
    }
  }

  function AckTypeByte(multiple: bool, largestAckedLength: nat, blockLength: nat): Byte {
    0x40 + (if multiple then 0x20 else 0) + 4 * PacketNumberFlags(largestAckedLength)
      + PacketNumberFlags(blockLength)
  }

  /** The fields up to and including the first block length, for widths `la` and `w`. */
  function AckFields(f: AckFrame, info: AckFrameInfo, k: nat, la: nat, w: nat): (s: seq<Byte>)
    ensures |s| == 3 + la + (if k > 0 then 1 else 0) + w
  {
    [AckTypeByte(info.numAckBlocks != 0, la, w)]
    + Encode(f.largestAcked, la)
    + Encode(f.delay, 2)
    + (if k > 0 then Encode(k, 1) else [])
    + Encode(info.firstBlockLength, w)
  }

  function AckPrefix(f: AckFrame, k: nat): seq<Byte>
    requires WellFormed(f)
  {
    AckFields(f, Info(f), k, MinPacketNumberLength(f.largestAcked), BlockLengthWidth(f))
  }

  /** The frame written into `free` bytes: the first `k` blocks and no timestamps. */
  function AckBytes(f: AckFrame, free: nat): seq<Byte>
    requires WellFormed(f)
  {
    var k := NumBlocksWritten(f, free);
    AckPrefix(f, k) + EncodeBlocks(AllBlocks(f)[..k], BlockLengthWidth(f)) + [0]
  }

  method AppendAckBlock(gap: nat, width: nat, len: nat, w: DataWriter) returns (ok: bool)
    requires w.Valid()
    modifies w
    ensures w.Valid()
    ensures ok <==> old(|w.buffer|) + 1 + width <= w.capacity
    ensures ok ==> w.buffer == old(w.buffer) + EncodeBlock(Block(gap, len), width)
  {
    ok := w.WriteUInt(1, gap);
    if ok {
      ok := w.WriteUInt(width, len);
    }
  }

  lemma EncodeBlocksSnoc(bs: seq<Block>, b: Block, w: nat)
    ensures EncodeBlocks(bs + [b], w) == EncodeBlocks(bs, w) + EncodeBlock(b, w)
  {
    EncodeBlocksAppend(bs, [b], w);
    assert [b][1..] == [];
    assert EncodeBlocks([b], w) == EncodeBlock(b, w) + EncodeBlocks([], w);
  }

  /** The inner loop of `AppendAckFrameAndTypeByte` and the block after it: the blocks for one
      interval, cut off when `room` blocks are written. */
  method AppendGapBlocks(gap: nat, len: nat, room: nat, width: nat, w: DataWriter)
    returns (ok: bool, written: nat)
    requires w.Valid() && gap > 0 && room > 0
    modifies w
    ensures w.Valid()
    ensures ok ==> written == Min(NumEncodedGaps(gap), room)
    ensures ok <==>
      old(|w.buffer|) + |EncodeBlocks(GapBlocks(gap, len)[..Min(NumEncodedGaps(gap), room)], width)|
      <= w.capacity
    ensures ok ==> w.buffer == old(w.buffer) + EncodeBlocks(GapBlocks(gap, len)[..written], width)
  {
    hide Encode, EncodeBlock, EncodeBlocks, GapBlocks;
    NoBlocks(width);
    var numEncodedGaps := (gap + MAX_U8 - 1) / MAX_U8;
    ghost var all := GapBlocks(gap, len)[..Min(numEncodedGaps, room)];
    ghost var start := w.buffer;
    written := 0;
    ok := true;
    while ok && written + 1 < numEncodedGaps && written < room
      invariant w.Valid() && 0 <= written <= |all|
      invariant ok ==> written < numEncodedGaps
      invariant ok ==> w.buffer == start + EncodeBlocks(all[..written], width)
      invariant !ok ==> |start| + |EncodeBlocks(all, width)| > w.capacity
      decreases ok, |all| - written
    {
      GapBlocksAt(gap, len, written);
      NextBlock(all, written, width);
      ok := AppendAckBlock(MAX_U8, width, 0, w);
      written := written + 1;
    }
    if ok && written < room {
      GapBlocksAt(gap, len, written);
      NextBlock(all, written, width);
      ok := AppendAckBlock(gap - (numEncodedGaps - 1) * MAX_U8, width, len, w);
      written := written + 1;
    }
    assert ok ==> all[..written] == all;
  }

  /** One more block: what it adds, and that it takes no more than all of them. */
  lemma NextBlock(bs: seq<Block>, k: nat, width: nat)
    requires k < |bs|
    ensures EncodeBlocks(bs[..k + 1], width) == EncodeBlocks(bs[..k], width) + EncodeBlock(bs[k], width)
    ensures |EncodeBlocks(bs[..k], width)| + 1 + width <= |EncodeBlocks(bs, width)|
    ensures k + 1 == |bs| ==> bs[..k + 1] == bs
  {
    assert bs == bs[..k] + ([bs[k]] + bs[k + 1..]);
    assert bs[..k] + [bs[k]] == bs[..k + 1];
    EncodeBlocksAppend(bs[..k], [bs[k]] + bs[k + 1..], width);
    EncodeBlocksSnoc(bs[..k], bs[k], width);
  }

  /** The block loop of `AppendAckFrameAndTypeByte`. */
  method AppendAckBlocks(p: seq<Interval>, num: nat, width: nat, w: DataWriter) returns (ok: bool)
    requires p != [] && Below(p, |p| - 1, p[|p| - 1].lo) && w.Valid()
    requires 0 < num <= |Blocks(p, |p| - 1, p[|p| - 1].lo)|
    modifies w
    ensures w.Valid()
    ensures ok <==>
      old(|w.buffer|) + |EncodeBlocks(Blocks(p, |p| - 1, p[|p| - 1].lo)[..num], width)| <= w.capacity
    ensures ok ==>
      w.buffer == old(w.buffer) + EncodeBlocks(Blocks(p, |p| - 1, p[|p| - 1].lo)[..num], width)
  {
    hide Encode, EncodeBlock, EncodeBlocks, GapBlocks;
    NoBlocks(width);
    var written := 0;
    var i := |p| - 1;
    var previousStart := p[i].lo;
    ghost var start, done := w.buffer, [];
    ghost var goal := EncodeBlocks(Blocks(p, i, previousStart)[..num], width);
    ok := true;
    while ok && i > 0 && written < num
      invariant 0 <= i < |p| && previousStart == p[i].lo && Below(p, i, previousStart)
      invariant w.Valid() && 0 <= written <= num
      invariant ok ==> num - written <= |Blocks(p, i, previousStart)|
      invariant ok ==> w.buffer == start + done
      invariant ok ==> goal == done + EncodeBlocks(Blocks(p, i, previousStart)[..num - written], width)
      invariant !ok ==> |start| + |goal| > w.capacity
      decreases ok, i
    {
      i := i - 1;
      var totalGap, len := previousStart - p[i].hi, p[i].Length();
      ghost var room := num - written;
      ghost var n', below := Min(NumEncodedGaps(totalGap), room), Blocks(p, i, p[i].lo);
      ghost var more := EncodeBlocks(GapBlocks(totalGap, len)[..n'], width);
      Peel(p, i, previousStart, room, width);
      Concat2(start, done, more);
      Concat2(done, more, EncodeBlocks(below[..room - n'], width));
      var n;
      ok, n := AppendGapBlocks(totalGap, len, num - written, width, w);
      done := done + more;
      written := written + if ok then n else 0;
      previousStart := p[i].lo;
    }
  }

  /** The first `room` blocks: those of the newest interval, then of the others. */
  lemma Peel(p: seq<Interval>, i: nat, start: nat, room: nat, width: nat)
    requires i < |p| && Below(p, i + 1, start) && room <= |Blocks(p, i + 1, start)|
    ensures var here, below := GapBlocks(start - p[i].hi, p[i].Length()), Blocks(p, i, p[i].lo);
            var n := Min(|here|, room);
            && 0 <= room - n <= |below|
            && EncodeBlocks(Blocks(p, i + 1, start)[..room], width)
               == EncodeBlocks(here[..n], width) + EncodeBlocks(below[..room - n], width)
  {
    hide EncodeBlocks, GapBlocks;
    var here, below := GapBlocks(start - p[i].hi, p[i].Length()), Blocks(p, i, p[i].lo);
    var n := Min(|here|, room);
    assert Blocks(p, i + 1, start) == here + below;
    assert (here + below)[..room] == here[..n] + below[..room - n];
    EncodeBlocksAppend(here[..n], below[..room - n], width);
  }

  method AppendAckFields(f: AckFrame, info: AckFrameInfo, num: nat, la: nat, width: nat, w: DataWriter)
    returns (ok: bool)
    requires w.Valid()
    modifies w
    ensures w.Valid()
    ensures ok <==> old(|w.buffer|) + 3 + la + (if num > 0 then 1 else 0) + width <= w.capacity
    ensures ok ==>
      w.buffer == old(w.buffer) + [AckTypeByte(info.numAckBlocks != 0, la, width)]
                  + Encode(f.largestAcked, la) + Encode(f.delay, 2)
                  + (if num > 0 then Encode(num, 1) else []) + Encode(info.firstBlockLength, width)
  {
    ok := w.WriteBytes([AckTypeByte(info.numAckBlocks != 0, la, width)]);
    if ok {
      ok := w.WriteUInt(la, f.largestAcked);
    }
    if ok {
      ok := w.WriteUInt(2, f.delay);
    }
    if ok && num > 0 {
      ok := w.WriteUInt(1, num);
    }
    if ok {
      ok := w.WriteUInt(width, info.firstBlockLength);
    }
  }

  lemma AckFieldsInPieces(start: seq<Byte>, f: AckFrame, info: AckFrameInfo, num: nat, la: nat, width: nat)
    ensures start + AckFields(f, info, num, la, width)
         == start + [AckTypeByte(info.numAckBlocks != 0, la, width)] + Encode(f.largestAcked, la)
            + Encode(f.delay, 2) + (if num > 0 then Encode(num, 1) else [])
            + Encode(info.firstBlockLength, width)
    ensures |AckFields(f, info, num, la, width)| == 3 + la + (if num > 0 then 1 else 0) + width
  {
    Concat5(start, [AckTypeByte(info.numAckBlocks != 0, la, width)], Encode(f.largestAcked, la),
            Encode(f.delay, 2), if num > 0 then Encode(num, 1) else [],
            Encode(info.firstBlockLength, width));
  }

  /** `AppendAckFrameAndTypeByte`: it succeeds exactly when the whole frame fits, and then has
      appended the frame for the space there was. */
  method AppendAckFrameAndTypeByte(f: AckFrame, w: DataWriter) returns (ok: bool)
    requires WellFormed(f) && w.Valid()
    modifies w
    ensures w.Valid()
    ensures ok <==> |AckBytes(f, w.capacity - old(|w.buffer|))| <= w.capacity - old(|w.buffer|)
    ensures ok ==> w.buffer == old(w.buffer) + AckBytes(f, w.capacity - old(|w.buffer|))
  {
    hide Encode, EncodeBlocks, Scan, Below, Blocks, AckBytes, AckFields, CappedBlocks;
    var info := GetAckFrameInfo(f);
    var la := MinPacketNumberLength(f.largestAcked);
    var width := MinPacketNumberLength(info.maxBlockLength);
    var available := w.capacity - |w.buffer| - width - MinAckFrameSize(la)
                     - (if info.numAckBlocks != 0 then 1 else 0);
    var num := CappedBlocks(info.numAckBlocks, available, width);
    ghost var k := NumBlocksWritten(f, w.capacity - |w.buffer|);
    assert num == k;
    AckFieldsInPieces(w.buffer, f, info, num, la, width);
    AckBytesInPieces(w.buffer, f, w.capacity - |w.buffer|, k);
    ok := AppendAckFields(f, info, num, la, width, w);
    if ok && num > 0 {
      ok := AppendAckBlocks(f.packets, num, width, w);
    }
    if ok {
      ok := w.WriteBytes([0]);
    }
  }

  lemma AckBytesInPieces(start: seq<Byte>, f: AckFrame, free: nat, k: nat)
    requires WellFormed(f) && k == NumBlocksWritten(f, free)
    ensures var fields, blocks := AckPrefix(f, k), EncodeBlocks(AllBlocks(f)[..k], BlockLengthWidth(f));
            && start + AckBytes(f, free) == start + fields + blocks + [0]
            && |AckBytes(f, free)| == |fields| + |blocks| + 1
            && (k == 0 ==> start + fields + blocks == start + fields && blocks == [])
  {
    Concat3(start, AckPrefix(f, k), EncodeBlocks(AllBlocks(f)[..k], BlockLengthWidth(f)), [0]);
  }
}
