/** What reading a written ACK frame gives back, and exactly when it gives back the frame. */
module AckRoundTrip {
  import opened Bytes
  import opened Visitor
  import opened AckFrames
  import opened AckReading
  import opened Numbers

  /** Lowest packet number of the newest interval; one above the largest acked for an empty frame. */
  function TopStart(f: AckFrame): nat {
    if f.packets == [] then 1 else Top(f).lo
  }

  /** The ranges below the newest interval. */
  function LowerRanges(f: AckFrame, k: nat): seq<Event>
    requires WellFormed(f)
  {
    if f.packets == [] then [] else Reports(f.packets, |f.packets| - 1, Top(f).lo, k)
  }

  /** The ranges of a frame of which the first `k` blocks are written. */
  function AckRanges(f: AckFrame, k: nat): seq<Event>
    requires WellFormed(f)
  {
    [OnAckRange(TopStart(f), f.largestAcked + 1, AllBlocks(f) == [])] + LowerRanges(f, k)
  }

  function AckLog(f: AckFrame, k: nat): seq<Event>
    requires WellFormed(f)
  {
    [OnAckFrameStart(f.largestAcked, f.delay)] + AckRanges(f, k)
  }

  /** There is room for at least one block after the first, if the frame has one. */
  ghost predicate Roomy(f: AckFrame, free: nat)
    requires WellFormed(f)
  {
    AllBlocks(f) == [] || AvailableBlockBytes(f, free) >= BlockLengthWidth(f) + 1
  }

  // ---------------------------------------------------------------------------
  // Widths and sizes
  // ---------------------------------------------------------------------------

  /** Every length that is written fits the width chosen for the frame. */
  lemma LengthsFit(f: AckFrame, m: nat)
    requires WellFormed(f) && m < |AllBlocks(f)| && m < MAX_U8
    ensures AllBlocks(f)[m].len < Pow256(BlockLengthWidth(f))
  {
    var len := Top(f).Length();
    ScanCovers(f.packets, |f.packets| - 1, Top(f).lo, AckFrameInfo(len, len, 0), m);
    InfoFacts(f);
    MinLengthFits(Info(f).maxBlockLength);
  }

  lemma FirstLengthFits(f: AckFrame)
    requires WellFormed(f)
    ensures Info(f).firstBlockLength < Pow256(BlockLengthWidth(f))
    ensures Info(f).firstBlockLength == f.largestAcked + 1 - TopStart(f)
  {
    InfoFacts(f);
    MinLengthFits(Info(f).maxBlockLength);
  }

  lemma RoomyWritesBlocks(f: AckFrame, free: nat)
    requires WellFormed(f)
    ensures Roomy(f, free) && AllBlocks(f) != [] ==> NumBlocksWritten(f, free) > 0
  {
    InfoFacts(f);
    QuotientFacts(AvailableBlockBytes(f, free), BlockLengthWidth(f));
  }

  /** `GetAckFrameSize`. */
  function AckFrameSize(f: AckFrame): nat
    requires WellFormed(f)
  {
    var w, n := BlockLengthWidth(f), Info(f).numAckBlocks;
    MinAckFrameSize(MinPacketNumberLength(f.largestAcked)) + w
    + (if n != 0 then 1 + (if n < MAX_U8 then n else MAX_U8) * (w + 1) else 0)
  }

  lemma AckSize(f: AckFrame, free: nat)
    requires WellFormed(f)
    ensures var k, w := NumBlocksWritten(f, free), BlockLengthWidth(f);
            |AckBytes(f, free)|
            == MinAckFrameSize(MinPacketNumberLength(f.largestAcked)) + w + (if k > 0 then 1 else 0) + k * (w + 1)
  {
    EncodeBlocksSize(AllBlocks(f)[..NumBlocksWritten(f, free)], BlockLengthWidth(f));
  }

  /** With enough space the frame takes exactly the predicted bytes and no block is dropped below
      the limit of 255. */
  lemma FullSize(f: AckFrame, free: nat)
    requires WellFormed(f) && AckFrameSize(f) <= free
    ensures |AckBytes(f, free)| == AckFrameSize(f)
    ensures NumBlocksWritten(f, free) == Min(|AllBlocks(f)|, MAX_U8)
  {
    AckSize(f, free);
    InfoFacts(f);
    var w, n, a := BlockLengthWidth(f), Info(f).numAckBlocks, AvailableBlockBytes(f, free);
    var m := if n < MAX_U8 then n else MAX_U8;
    assert n != 0 ==> a >= m * (w + 1);
    AllCounted(n, a, w, m);
  }

  lemma AllCounted(n: nat, a: int, w: nat, m: nat)
    requires IsLength(w) && m == (if n < MAX_U8 then n else MAX_U8)
    requires a >= if n != 0 then m * (w + 1) else 0
    ensures CappedBlocks(n, a, w) == m
  {
    QuotientFacts(a, w);
    QuotientAtLeast(a, w, m);
  }

  lemma QuotientAtLeast(a: int, w: nat, m: nat)
    requires IsLength(w) && a >= m * (w + 1)
    ensures TruncatingDiv(a, w + 1) >= m
  {
    if w == 1 {
    } else if w == 2 {
    } else if w == 4 {
    } else {
    }
  }

  /** Whatever the space, once it is not negative the frame never passes the capacity. */
  lemma NeverTooLong(f: AckFrame, free: nat)
    requires WellFormed(f) && AvailableBlockBytes(f, free) >= 0
    ensures |AckBytes(f, free)| <= free
  {
    AckSize(f, free);
    InfoFacts(f);
    CappedFits(Info(f).numAckBlocks, AvailableBlockBytes(f, free), BlockLengthWidth(f));
  }

  /** A frame that drops blocks below the limit of 255 has no room for one more. */
  lemma CutOnlyIfFull(f: AckFrame, free: nat)
    requires WellFormed(f) && AvailableBlockBytes(f, free) >= 0
    ensures var k, w := NumBlocksWritten(f, free), BlockLengthWidth(f);
            k < Min(|AllBlocks(f)|, MAX_U8) ==> |AckBytes(f, free)| + (if k == 0 then 1 else 0) + 1 + w > free
  {
    hide AckBytes, Info, AllBlocks, TruncatingDiv, Below;
    var k, w, a := NumBlocksWritten(f, free), BlockLengthWidth(f), AvailableBlockBytes(f, free);
    AckSize(f, free);
    InfoFacts(f);
    if k < Min(|AllBlocks(f)|, MAX_U8) {
      OneMoreBlock(Info(f).numAckBlocks, a, w, k);
    }
  }

  lemma OneMoreBlock(count: nat, a: nat, w: nat, k: nat)
    requires IsLength(w) && k == CappedBlocks(count, a, w) && k < count && k < MAX_U8
    ensures k * (w + 1) + w + 1 > a
  {
    QuotientFacts(a, w);
    if k * (w + 1) + w + 1 <= a {
      assert (k + 1) * (w + 1) == k * (w + 1) + w + 1;
      QuotientAtLeast(a, w, k + 1);
    }
  }

  lemma CappedFits(count: nat, a: nat, w: nat)
    requires IsLength(w)
    ensures var k := CappedBlocks(count, a, w); 0 <= k <= count && k * (w + 1) <= a
  {
    var k, q := CappedBlocks(count, a, w), TruncatingDiv(a, w + 1);
    QuotientFacts(a, w);
    assert k <= q;
    assert k * (w + 1) <= q * (w + 1);
  }

  // ---------------------------------------------------------------------------
  // Reading back
  // ---------------------------------------------------------------------------

  lemma TypeByteFields(multiple: bool, la: nat, w: nat)
    requires IsLength(la) && IsLength(w)
    ensures var t := AckTypeByte(multiple, la, w);
            && ((t / 32) % 2 == 1 <==> multiple)
            && ReadPacketNumberLength(t % 4) == w
            && ReadPacketNumberLength((t / 4) % 4) == la
            && 0x40 <= t < 0x80
  {
  }

  /** The fields before the ranges. */
  lemma ParseHead(multiple: bool, la: nat, w: nat, largest: nat, delay: nat, num: nat, rest: seq<Byte>)
    requires IsLength(la) && IsLength(w) && largest < Pow256(la) && delay < 0x1_0000 && num < 0x100
    requires !multiple ==> num == 0
    ensures var s := Encode(largest, la) + (Encode(delay, 2) + ((if multiple then Encode(num, 1) else []) + rest));
            var p, r := ParseAck(AckTypeByte(multiple, la, w), s), ParseRanges(rest, w, num, multiple, largest);
            && p.ok == r.ok && p.log == [OnAckFrameStart(largest, delay)] + r.log && p.rest == r.rest
  {
    var count := if multiple then Encode(num, 1) else [];
    TypeByteFields(multiple, la, w);
    SmallPowers();
    ReadField(largest, la, Encode(delay, 2) + (count + rest));
    ReadField(delay, 2, count + rest);
    if multiple {
      ReadField(num, 1, rest);
    } else {
      assert count + rest == rest;
    }
  }

  /** A first block, then blocks that parse, then no timestamps. */
  lemma ParseRangesStep(first: nat, w: nat, num: nat, multiple: bool, largest: nat, tail: seq<Byte>, rest: seq<Byte>)
    requires first < Pow256(w) && first <= largest + 1 && (first == 0 ==> largest == 0 && num == 0)
    requires ParseBlocks(tail, w, num, largest + 1 - first).ok
    requires ParseBlocks(tail, w, num, largest + 1 - first).rest == [0] + rest
    ensures var r := ParseRanges(Encode(first, w) + tail, w, num, multiple, largest);
            && r.ok && r.rest == rest
            && r.log == [OnAckRange(largest + 1 - first, largest + 1, !multiple)]
                        + ParseBlocks(tail, w, num, largest + 1 - first).log
  {
    ReadField(first, w, tail);
    NoTimestamps(rest);
  }

  lemma WrittenBlocks(f: AckFrame, k: nat, rest: seq<Byte>)
    requires WellFormed(f) && k <= |AllBlocks(f)| && k <= MAX_U8
    requires Info(f).firstBlockLength <= f.largestAcked + 1
    ensures var w := BlockLengthWidth(f);
            var top := f.largestAcked + 1 - Info(f).firstBlockLength;
            var r := ParseBlocks(EncodeBlocks(AllBlocks(f)[..k], w) + rest, w, k, top);
            r.ok && r.rest == rest && r.log == LowerRanges(f, k)
  {
    hide ParseBlocks, EncodeBlocks, Reports, Below, Blocks, Scan;
    var w, bs := BlockLengthWidth(f), AllBlocks(f)[..k];
    forall m | 0 <= m < k
      ensures AllBlocks(f)[m].len < Pow256(w)
    {
      LengthsFit(f, m);
    }
    if f.packets != [] {
      LowerBelow(f);
      ReplayIsReports(f.packets, |f.packets| - 1, Top(f).lo, k, w);
    }
    FirstLengthFits(f);
    ParseEncodedBlocks(bs, w, TopStart(f), rest);
  }

  /** The ranges of a frame written with its count byte. */
  lemma ParseWrittenRanges(f: AckFrame, k: nat, w: nat, first: nat, multiple: bool, rest: seq<Byte>)
    requires WellFormed(f) && k <= |AllBlocks(f)| && k <= MAX_U8
    requires w == BlockLengthWidth(f) && first == Info(f).firstBlockLength
    requires multiple == (AllBlocks(f) != [])
    ensures var s := Encode(first, w) + (EncodeBlocks(AllBlocks(f)[..k], w) + ([0] + rest));
            var r := ParseRanges(s, w, k, multiple, f.largestAcked);
            r.ok && r.log == AckRanges(f, k) && r.rest == rest
  {
    hide ParseRanges, ParseBlocks, EncodeBlocks, Encode, Decode, LowerRanges;
    FirstLengthFits(f);
    EmptyFrameLength(f, k);
    var tail := EncodeBlocks(AllBlocks(f)[..k], w) + ([0] + rest);
    WrittenBlocks(f, k, [0] + rest);
    ParseRangesStep(first, w, k, multiple, f.largestAcked, tail, rest);
  }

  lemma EmptyFrameLength(f: AckFrame, k: nat)
    requires WellFormed(f) && k <= |AllBlocks(f)|
    ensures Info(f).firstBlockLength == 0 ==> f.largestAcked == 0 && k == 0
  {
  }

  lemma NoTimestamps(rest: seq<Byte>)
    ensures ParseTimestamps([0] + rest).ok && ParseTimestamps([0] + rest).log == []
    ensures ParseTimestamps([0] + rest).rest == rest
  {
    assert ([0] + rest)[1..] == rest;
  }

  /** The frame in the pieces the parser takes. */
  lemma WrittenPieces(f: AckFrame, free: nat, rest: seq<Byte>)
    requires WellFormed(f)
    ensures var k, w, la := NumBlocksWritten(f, free), BlockLengthWidth(f), MinPacketNumberLength(f.largestAcked);
            var bytes := AckBytes(f, free);
            && bytes[0] == AckTypeByte(AllBlocks(f) != [], la, w)
            && bytes[1..] + rest
               == Encode(f.largestAcked, la) + (Encode(f.delay, 2) + ((if k > 0 then Encode(k, 1) else [])
                  + (Encode(Info(f).firstBlockLength, w) + (EncodeBlocks(AllBlocks(f)[..k], w) + ([0] + rest)))))
  {
    InfoFacts(f);
    var k, w, la := NumBlocksWritten(f, free), BlockLengthWidth(f), MinPacketNumberLength(f.largestAcked);
    Regroup(AckTypeByte(AllBlocks(f) != [], la, w), Encode(f.largestAcked, la), Encode(f.delay, 2),
            if k > 0 then Encode(k, 1) else [], Encode(Info(f).firstBlockLength, w),
            EncodeBlocks(AllBlocks(f)[..k], w), rest);
  }

  lemma Regroup(t: Byte, a: seq<Byte>, b: seq<Byte>, c: seq<Byte>, d: seq<Byte>, e: seq<Byte>, rest: seq<Byte>)
    ensures var s := [t] + a + b + c + d + e + [0];
            s[0] == t && s[1..] + rest == a + (b + (c + (d + (e + ([0] + rest)))))
  {
    var s := [t] + a + b + c + d + e + [0];
    assert s[1..] == a + b + c + d + e + [0];
  }

  /** Reading a written frame that had room for a block: the ranges are the newest intervals of
      the frame, whole, unchanged and in descending order, as many as their blocks were written. */
  lemma AckReadsBack(f: AckFrame, free: nat, rest: seq<Byte>)
    requires WellFormed(f) && Roomy(f, free)
    ensures var r := ParseAck(AckBytes(f, free)[0], AckBytes(f, free)[1..] + rest);
            r.ok && r.log == AckLog(f, NumBlocksWritten(f, free)) && r.rest == rest
  {
    var k, w, la := NumBlocksWritten(f, free), BlockLengthWidth(f), MinPacketNumberLength(f.largestAcked);
    var first, bs := Info(f).firstBlockLength, AllBlocks(f)[..k];
    RoomyWritesBlocks(f, free);
    WrittenPieces(f, free, rest);
    MinLengthFits(f.largestAcked);
    ParseHead(AllBlocks(f) != [], la, w, f.largestAcked, f.delay, k,
              Encode(first, w) + (EncodeBlocks(bs, w) + ([0] + rest)));
    ParseWrittenRanges(f, k, w, first, AllBlocks(f) != [], rest);
  }

  /** Event `j + 1` of the log reports interval `j` from the newest. */
  ghost predicate ReportsInterval(f: AckFrame, log: seq<Event>, j: nat)
    requires j < |f.packets|
  {
    && j + 1 < |log| && log[j + 1].OnAckRange?
    && log[j + 1].lo == f.packets[|f.packets| - 1 - j].lo
    && log[j + 1].hi == f.packets[|f.packets| - 1 - j].hi
  }

  lemma LowerBelow(f: AckFrame)
    requires WellFormed(f) && f.packets != []
    ensures Below(f.packets, |f.packets| - 1, Top(f).lo)
  {
  }

  lemma IntervalReported(f: AckFrame, k: nat, j: nat)
    requires WellFormed(f) && f.packets != [] && j < |AckLog(f, k)| - 1 && j < |f.packets|
    ensures ReportsInterval(f, AckLog(f, k), j)
  {
    hide Reports, Reported, Blocks, Below;
    LowerBelow(f);
    var lower := Reports(f.packets, |f.packets| - 1, Top(f).lo, k);
    ReportsArePrefix(f.packets, |f.packets| - 1, Top(f).lo, k);
    assert j > 0 ==> AckLog(f, k)[j + 1] == lower[j - 1];
  }

  lemma AckLogReports(f: AckFrame, k: nat)
    requires WellFormed(f) && f.packets != [] && k <= |AllBlocks(f)|
    ensures var log, n := AckLog(f, k), |f.packets|;
            && 2 <= |log| <= n + 1 && log[0] == OnAckFrameStart(f.largestAcked, f.delay)
            && (forall j :: 0 <= j < |log| - 1 ==> ReportsInterval(f, log, j))
            && (|log| == n + 1 <==> k == |AllBlocks(f)|)
  {
    hide Reports, Reported, Blocks, ReportsInterval, Below;
    LowerBelow(f);
    var p, i, lo := f.packets, |f.packets| - 1, Top(f).lo;
    ReportsArePrefix(p, i, lo, k);
    ReportsComplete(p, i, lo, k);
    forall j | 0 <= j < |AckLog(f, k)| - 1
      ensures ReportsInterval(f, AckLog(f, k), j)
    {
      IntervalReported(f, k, j);
    }
  }

  /** At most the final report of a frame is marked as the last range: it is, exactly when the
      final block written is not empty. */
  lemma AckLogMarksLast(f: AckFrame, k: nat)
    requires WellFormed(f) && f.packets != [] && k <= |AllBlocks(f)| && (k == 0 ==> AllBlocks(f) == [])
    ensures var log := AckLog(f, k);
            && (forall j :: 1 <= j < |log| - 1 ==> log[j].OnAckRange? && !log[j].lastRange)
            && (log[|log| - 1].OnAckRange? && log[|log| - 1].lastRange
                <==> k == 0 || AllBlocks(f)[k - 1].len > 0)
  {
    var p, i, lo := f.packets, |f.packets| - 1, Top(f).lo;
    InfoFacts(f);
    var log, lower := AckLog(f, k), LowerRanges(f, k);
    if k > 0 {
      ReportsMarkLast(p, i, lo, k);
      assert log == [log[0], log[1]] + lower;
    }
  }

  /** The round trip in the frame's own terms: a written frame that had room for a block is read
      without error, its bytes are consumed exactly, and the ranges reported are its newest
      intervals, all of them when no block was cut. */
  lemma AckRoundTrips(f: AckFrame, free: nat, rest: seq<Byte>)
    requires WellFormed(f) && f.packets != [] && Roomy(f, free)
    ensures var r := ParseAck(AckBytes(f, free)[0], AckBytes(f, free)[1..] + rest);
            && r.ok && r.rest == rest && 2 <= |r.log| <= |f.packets| + 1
            && r.log[0] == OnAckFrameStart(f.largestAcked, f.delay)
            && (forall j :: 0 <= j < |r.log| - 1 ==> ReportsInterval(f, r.log, j))
            && (|r.log| == |f.packets| + 1 <==> NumBlocksWritten(f, free) == |AllBlocks(f)|)
  {
    AckReadsBack(f, free, rest);
    AckLogReports(f, NumBlocksWritten(f, free));
  }

  // ---------------------------------------------------------------------------
  // Exactly when a written frame can be read
  // ---------------------------------------------------------------------------

  /** A frame can be written without room for a block: then it has no count byte either, although
      its type byte announces one. */
  lemma CrampedWritesNone(f: AckFrame, free: nat)
    requires WellFormed(f) && !Roomy(f, free) && |AckBytes(f, free)| <= free
    ensures NumBlocksWritten(f, free) == 0
  {
    AckSize(f, free);
    InfoFacts(f);
    var a, w := AvailableBlockBytes(f, free), BlockLengthWidth(f);
    QuotientFacts(a, w);
    assert NumBlocksWritten(f, free) * (w + 1) >= 0;
  }

  /** A length moved up by one byte, as the parser then reads it, is never the length itself. */
  lemma {:induction false} ShiftedLength(first: nat, w: nat)
    requires w > 0 && 0 < first < Pow256(w)
    ensures Decode(Encode(first, w)[1..] + [0]) != first
  {
    var e := Encode(first, w);
    DecodeEncode(first, w);
    if Decode(e[1..] + [0]) == first {
      DecodeInjective(e, e[1..] + [0]);
      AllDigitsZero(e, 0);
      DecodeZeros(e);
      assert false;
    }
  }

  lemma {:induction false} AllDigitsZero(e: seq<Byte>, i: nat)
    requires e != [] && e == e[1..] + [0] && i <= |e|
    ensures forall j :: i <= j < |e| ==> e[j] == 0
    decreases |e| - i
  {
    if i < |e| {
      AllDigitsZero(e, i + 1);
      assert e[i] == (e[1..] + [0])[i];
    }
  }

  lemma {:induction false} DecodeZeros(e: seq<Byte>)
    requires forall j :: 0 <= j < |e| ==> e[j] == 0
    ensures Decode(e) == 0
  {
    if e != [] {
      DecodeZeros(e[..|e| - 1]);
    }
  }

  /** What the parser makes of such a frame: it takes the first byte of the first block length for
      the count. */
  lemma ParseCramped(f: AckFrame, free: nat, rest: seq<Byte>)
    requires WellFormed(f) && AllBlocks(f) != [] && NumBlocksWritten(f, free) == 0
    ensures var w, first := BlockLengthWidth(f), Info(f).firstBlockLength;
            var t := Encode(first, w)[1..] + [0] + rest;
            ParseAck(AckBytes(f, free)[0], AckBytes(f, free)[1..] + rest).log
            == [OnAckFrameStart(f.largestAcked, f.delay)]
               + ParseRanges(t, w, Encode(first, w)[0], true, f.largestAcked).log
  {
    hide ParseAck, ParseRanges, AckBytes, AckTypeByte, Decode, Info, Roomy, AllBlocks, EncodeBlocks, Below;
    var w, la, first := BlockLengthWidth(f), MinPacketNumberLength(f.largestAcked), Info(f).firstBlockLength;
    var e := Encode(first, w);
    WrittenPieces(f, free, rest);
    MinLengthFits(f.largestAcked);
    assert AllBlocks(f)[..0] == [];
    NoBlocks(w);
    OneByte(e[0]);
    CrampedTail(e, rest);
    ParseHead(true, la, w, f.largestAcked, f.delay, e[0], e[1..] + [0] + rest);
  }

  lemma OneByte(b: Byte)
    ensures Encode(b, 1) == [b]
  {
  }

  lemma CrampedTail(e: seq<Byte>, rest: seq<Byte>)
    requires e != []
    ensures [] + (e + ([] + ([0] + rest))) == [e[0]] + (e[1..] + [0] + rest)
  {
  }

  /** The newest interval is reported. */
  ghost predicate ReportsTop(f: AckFrame, log: seq<Event>) {
    |log| >= 2 && log[1].OnAckRange? && log[1].lo == TopStart(f) && log[1].hi == f.largestAcked + 1
  }

  /** A frame that was written without error can be read exactly when it had room for a block:
      otherwise, whatever follows it, not even its newest interval is reported. */
  lemma AckReadableIff(f: AckFrame, free: nat, rest: seq<Byte>)
    requires WellFormed(f) && |AckBytes(f, free)| <= free
    ensures ReportsTop(f, ParseAck(AckBytes(f, free)[0], AckBytes(f, free)[1..] + rest).log)
       <==> Roomy(f, free)
  {
    if Roomy(f, free) {
      AckReadsBack(f, free, rest);
    } else {
      var w, first := BlockLengthWidth(f), Info(f).firstBlockLength;
      CrampedWritesNone(f, free);
      ParseCramped(f, free, rest);
      FirstLengthFits(f);
      InfoFacts(f);
      ShiftedLength(first, w);
      CrampedTop(f, Encode(first, w), rest);
    }
  }

  lemma CrampedTop(f: AckFrame, e: seq<Byte>, rest: seq<Byte>)
    requires WellFormed(f) && f.packets != [] && |e| > 0 && Decode(e[1..] + [0]) != f.largestAcked + 1 - TopStart(f)
    ensures var log := ParseRanges(e[1..] + [0] + rest, |e|, e[0], true, f.largestAcked).log;
            log == [] || (log[0].OnAckRange? && log[0].lo != TopStart(f))
  {
    var t := e[1..] + [0] + rest;
    assert t[..|e|] == e[1..] + [0];
  }

  function TwoPackets(): AckFrame {
    AckFrame(3, 0, [Interval(1, 2), Interval(3, 4)])
  }

  lemma TwoPacketsFacts()
    ensures WellFormed(TwoPackets()) && AllBlocks(TwoPackets()) != []
    ensures BlockLengthWidth(TwoPackets()) == 1 && AvailableBlockBytes(TwoPackets(), 7) == 0
  {
    var f := TwoPackets();
    assert Below(f.packets, 1, 3) && WellFormed(f);
    assert Scan(f.packets, 1, 3, AckFrameInfo(1, 1, 0)) == Bump(AckFrameInfo(1, 1, 0), 1, 1);
  }

  /** Such frames exist: two packets acknowledged out of three, written into seven bytes, which
      leaves no byte for blocks. The newest interval is not reported. */
  lemma CrampedExample()
    ensures WellFormed(TwoPackets()) && |AckBytes(TwoPackets(), 7)| <= 6
    ensures !ReportsTop(TwoPackets(), ParseAck(AckBytes(TwoPackets(), 7)[0], AckBytes(TwoPackets(), 7)[1..] + []).log)
  {
    TwoPacketsFacts();
    QuotientFacts(0, 1);
    AckSize(TwoPackets(), 7);
    AckReadableIff(TwoPackets(), 7, []);
  }
}
