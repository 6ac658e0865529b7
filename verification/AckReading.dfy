/** Reading an ACK frame (version 43) and what reading a written frame gives back. */
module AckReading {
  import opened Bytes
  import opened DataIo
  import opened Visitor
  import opened AckFrames

  // ---------------------------------------------------------------------------
  // The parser
  // ---------------------------------------------------------------------------

  /** What one turn of the block loop reads, reports and leaves. */
  datatype BlockStep = BlockStep(ok: bool, log: seq<Event>, rest: seq<Byte>, first: nat)

  function ParseBlock(s: seq<Byte>, w: nat, last: bool, first: nat): BlockStep {
    if |s| < 1 + w then BlockStep(false, [], [], first) else
    var gap, len := Decode(s[..1]), Decode(s[1..][..w]);
    if first < gap + len then BlockStep(false, [], [], first) else
    var lo := first - (gap + len);
    BlockStep(true, if len > 0 then [OnAckRange(lo, lo + len, last)] else [], s[1..][w..], lo)
  }

  /** The blocks after the first: `left` of them are still to come, below packet `first`. */
  function ParseBlocks(s: seq<Byte>, w: nat, left: nat, first: nat): Parsed
    decreases left
  {
    if left == 0 then Parsed(true, [], s) else
    var step := ParseBlock(s, w, left == 1, first);
    if !step.ok then Parsed(false, [], []) else
    var r := ParseBlocks(step.rest, w, left - 1, step.first);
    r.(log := step.log + r.log)
  }

  /** The timestamps at the end of the frame are skipped: they are not reported. */
  function ParseTimestamps(s: seq<Byte>): Parsed {
    if |s| < 1 then Parsed(false, [], []) else
    var skip := TimestampBytes(s[0]);
    if |s| < 1 + skip then Parsed(false, [], []) else Parsed(true, [], s[1 + skip..])
  }

  function TimestampBytes(count: nat): nat {
    if count == 0 then 0 else 5 + 3 * (count - 1)
  }

  /** From the first block length on. */
  function ParseRanges(s: seq<Byte>, w: nat, num: nat, multiple: bool, largest: nat): Parsed {
    if |s| < w then Parsed(false, [], []) else
    var len := Decode(s[..w]);
    if len == 0 && (largest != 0 || num != 0) then Parsed(false, [], s[w..])
    else if len > largest + 1 then Parsed(false, [], s[w..])
    else
      var lo := largest + 1 - len;
      var top := OnAckRange(lo, largest + 1, !multiple);
      var r := ParseBlocks(s[w..], w, num, lo);
      if !r.ok then r.(log := [top] + r.log) else
      var t := ParseTimestamps(r.rest);
      t.(log := [top] + r.log)
  }

  /** `ProcessAckFrame`, from the byte after the type byte. */
  function ParseAck(frameType: Byte, s: seq<Byte>): Parsed {
    var multiple := (frameType / 32) % 2 == 1;
    var w := ReadPacketNumberLength(frameType % 4);
    var la := ReadPacketNumberLength((frameType / 4) % 4);
    if |s| < la + 2 then Parsed(false, [], []) else
    var largest, delay := Decode(s[..la]), Decode(s[la..][..2]);
    var start := OnAckFrameStart(largest, delay);
    var s' := s[la..][2..];
    if multiple && |s'| < 1 then Parsed(false, [start], []) else
    var num := if multiple then Decode(s'[..1]) else 0;
    var r := ParseRanges(if multiple then s'[1..] else s', w, num, multiple, largest);
    r.(log := [start] + r.log)
  }

  // ---------------------------------------------------------------------------
  // Soundness on arbitrary bytes
  // ---------------------------------------------------------------------------

  ghost predicate IsRange(e: Event) {
    e.OnAckRange?
  }

  /** The reported ranges lie below `top`, are in descending order and pairwise disjoint; only the
      last of them can be marked as the last range. */
  ghost predicate Descending(log: seq<Event>, top: nat) {
    && (forall i :: 0 <= i < |log| ==> IsRange(log[i]) && log[i].lo <= log[i].hi <= top)
    && (forall i, j :: 0 <= i < j < |log| ==> log[j].hi <= log[i].lo)
    && (forall i :: 0 <= i < |log| - 1 ==> IsRange(log[i]) && !log[i].lastRange)
  }

  lemma DescendingCons(e: Event, log: seq<Event>, top: nat)
    requires IsRange(e) && e.lo <= e.hi <= top && (e.lastRange ==> log == [])
    requires Descending(log, e.lo)
    ensures Descending([e] + log, top)
  {
    var all := [e] + log;
    forall i | 0 <= i < |all|
      ensures IsRange(all[i]) && all[i].lo <= all[i].hi <= top
    {
      assert i > 0 ==> all[i] == log[i - 1];
    }
    forall i, j | 0 <= i < j < |all|
      ensures all[j].hi <= all[i].lo
    {
      assert all[j] == log[j - 1];
      assert i > 0 ==> all[i] == log[i - 1];
    }
    forall i | 0 <= i < |all| - 1
      ensures IsRange(all[i]) && !all[i].lastRange
    {
      assert i > 0 ==> all[i] == log[i - 1];
    }
  }

  lemma BlockIsSound(s: seq<Byte>, w: nat, last: bool, first: nat)
    ensures var step := ParseBlock(s, w, last, first);
            step.ok ==>
              && step.first <= first && |step.rest| < |s|
              && (step.log == []
                  || exists hi :: step.first < hi <= first && step.log == [OnAckRange(step.first, hi, last)])
  {
    var step := ParseBlock(s, w, last, first);
    if step.ok && step.log != [] {
      var hi := step.log[0].hi;
      assert step.first < hi <= first && step.log == [OnAckRange(step.first, hi, last)];
    }
  }

  lemma {:induction false} BlocksAreSound(s: seq<Byte>, w: nat, left: nat, first: nat)
    ensures Descending(ParseBlocks(s, w, left, first).log, first)
    ensures left == 0 ==> ParseBlocks(s, w, left, first).log == []
    ensures |ParseBlocks(s, w, left, first).rest| <= |s|
    decreases left
  {
    if left > 0 {
      var step := ParseBlock(s, w, left == 1, first);
      BlockIsSound(s, w, left == 1, first);
      if step.ok {
        var r := ParseBlocks(step.rest, w, left - 1, step.first);
        BlocksAreSound(step.rest, w, left - 1, step.first);
        StepThenBlocks(step, left == 1, r.log, first);
      }
    }
  }

  lemma DescendingBelow(log: seq<Event>, low: nat, top: nat)
    requires Descending(log, low) && low <= top
    ensures Descending(log, top)
  {
  }

  lemma StepThenBlocks(step: BlockStep, last: bool, log: seq<Event>, first: nat)
    requires step.first <= first && Descending(log, step.first) && (last ==> log == [])
    requires step.log == []
             || exists hi :: step.first < hi <= first && step.log == [OnAckRange(step.first, hi, last)]
    ensures Descending(step.log + log, first)
  {
    hide Descending;
    if step.log != [] {
      var hi :| step.first < hi <= first && step.log == [OnAckRange(step.first, hi, last)];
      DescendingCons(OnAckRange(step.first, hi, last), log, first);
    } else {
      assert step.log + log == log;
      DescendingBelow(log, step.first, first);
    }
  }

  lemma RangesAreSound(s: seq<Byte>, w: nat, num: nat, multiple: bool, largest: nat)
    requires !multiple ==> num == 0
    ensures Descending(ParseRanges(s, w, num, multiple, largest).log, largest + 1)
  {
    hide Decode, ParseBlocks, ParseTimestamps, Descending;
    if |s| >= w {
      var len := Decode(s[..w]);
      if len <= largest + 1 && !(len == 0 && (largest != 0 || num != 0)) {
        var lo := largest + 1 - len;
        BlocksAreSound(s[w..], w, num, lo);
        DescendingCons(OnAckRange(lo, largest + 1, !multiple), ParseBlocks(s[w..], w, num, lo).log, largest + 1);
      }
    }
    NothingDescends(largest + 1);
  }

  lemma NothingDescends(top: nat)
    ensures Descending([], top)
  {
  }

  /** Whatever the bytes: the frame reports one start, then descending, pairwise disjoint ranges
      of packet numbers up to the largest acked. */
  lemma AckIsSound(frameType: Byte, s: seq<Byte>)
    ensures var log := ParseAck(frameType, s).log;
            log == [] || (log[0].OnAckFrameStart? && log[0].largestAcked < PACKET_NUMBER_LIMIT
                          && Descending(log[1..], log[0].largestAcked + 1))
  {
    var multiple := (frameType / 32) % 2 == 1;
    var w := ReadPacketNumberLength(frameType % 4);
    var la := ReadPacketNumberLength((frameType / 4) % 4);
    if |s| >= la + 2 {
      var largest, s' := Decode(s[..la]), s[la..][2..];
      DecodeBound(s[..la]);
      SmallPowers();
      if !multiple || |s'| >= 1 {
        var num := if multiple then Decode(s'[..1]) else 0;
        RangesAreSound(if multiple then s'[1..] else s', w, num, multiple, largest);
      }
    }
  }

  /** A frame is refused, without a range, if its first block is empty although packets are acked or
      further blocks are announced, or longer than the packets up to the largest acked. */
  lemma FirstBlockChecked(s: seq<Byte>, w: nat, num: nat, multiple: bool, largest: nat)
    requires |s| >= w
    ensures var len, r := Decode(s[..w]), ParseRanges(s, w, num, multiple, largest);
            if len > largest + 1 || (len == 0 && (largest > 0 || num > 0)) then !r.ok && r.log == []
            else r.log != [] && r.log[0] == OnAckRange(largest + 1 - len, largest + 1, !multiple)
  {
    hide ParseBlocks, ParseTimestamps, Decode;
  }

  /** The timestamps a reader skips: five bytes for the first and three for any further one. */
  lemma TimestampsSkipped(s: seq<Byte>, count: Byte)
    ensures TimestampBytes(0) == 0 && TimestampBytes(1) == 5
    ensures count > 0 ==> TimestampBytes(count as nat + 1) == TimestampBytes(count) + 3
    ensures ParseTimestamps([count] + s).ok <==> |s| >= TimestampBytes(count)
    ensures ParseTimestamps([count] + s).ok ==> ParseTimestamps([count] + s).rest == s[TimestampBytes(count)..]
  {
  }

  lemma RangesConsume(s: seq<Byte>, w: nat, num: nat, multiple: bool, largest: nat)
    ensures |ParseRanges(s, w, num, multiple, largest).rest| <= |s|
  {
    if |s| >= w && Decode(s[..w]) <= largest + 1 {
      BlocksAreSound(s[w..], w, num, largest + 1 - Decode(s[..w]));
    }
  }

  lemma AckConsumes(frameType: Byte, s: seq<Byte>)
    ensures |ParseAck(frameType, s).rest| <= |s|
  {
    var multiple := (frameType / 32) % 2 == 1;
    var w := ReadPacketNumberLength(frameType % 4);
    var la := ReadPacketNumberLength((frameType / 4) % 4);
    if |s| >= la + 2 {
      var largest, s' := Decode(s[..la]), s[la..][2..];
      if !multiple || |s'| >= 1 {
        var num := if multiple then Decode(s'[..1]) else 0;
        RangesConsume(if multiple then s'[1..] else s', w, num, multiple, largest);
      }
    }
  }

  // ---------------------------------------------------------------------------
  // The methods of the source
  // ---------------------------------------------------------------------------

  lemma LogConcat(a: seq<Event>, b: seq<Event>, c: seq<Event>)
    ensures a + (b + c) == a + b + c
  {
  }

  /** One turn of the block loop of `ProcessAckFrame`. */
  method ProcessAckBlock(reader: DataReader, visitor: EventLog, w: nat, last: bool, first: nat)
    returns (ok: bool, firstReceived: nat)
    requires reader.Valid()
    modifies reader`pos, visitor
    ensures reader.Valid()
    ensures ok == ParseBlock(old(reader.Rest()), w, last, first).ok
    ensures visitor.log == old(visitor.log) + ParseBlock(old(reader.Rest()), w, last, first).log
    ensures ok ==> reader.Rest() == ParseBlock(old(reader.Rest()), w, last, first).rest
    ensures firstReceived == ParseBlock(old(reader.Rest()), w, last, first).first
  {
    firstReceived := first;
    var gap, len := 0, 0;
    ok, gap := reader.ReadUInt(1);
    if ok {
      ok, len := reader.ReadUInt(w);
    }
    ok := ok && gap + len <= firstReceived;
    if ok {
      firstReceived := firstReceived - (gap + len);
      if len > 0 {
        visitor.Notify(OnAckRange(firstReceived, firstReceived + len, last));
      }
    }
  }

  /** The block loop of `ProcessAckFrame`. */
  method ProcessAckBlocks(reader: DataReader, visitor: EventLog, w: nat, num: nat, first: nat)
    returns (ok: bool)
    requires reader.Valid()
    modifies reader`pos, visitor
    ensures reader.Valid()
    ensures ok == ParseBlocks(old(reader.Rest()), w, num, first).ok
    ensures visitor.log == old(visitor.log) + ParseBlocks(old(reader.Rest()), w, num, first).log
    ensures ok ==> reader.Rest() == ParseBlocks(old(reader.Rest()), w, num, first).rest
  {
    ghost var goal := ParseBlocks(reader.Rest(), w, num, first);
    ghost var start := visitor.log;
    var firstReceived := first;
    var i := 0;
    ok := true;
    while ok && i < num
      invariant reader.Valid() && 0 <= i <= num
      invariant !ok ==> !goal.ok && visitor.log == start + goal.log
      invariant ok ==> goal.ok == ParseBlocks(reader.Rest(), w, num - i, firstReceived).ok
      invariant ok ==> goal.rest == ParseBlocks(reader.Rest(), w, num - i, firstReceived).rest
      invariant ok ==>
        start + goal.log == visitor.log + ParseBlocks(reader.Rest(), w, num - i, firstReceived).log
      decreases ok, num - i
    {
      ghost var step := ParseBlock(reader.Rest(), w, i + 1 == num, firstReceived);
      LogConcat(visitor.log, step.log, ParseBlocks(step.rest, w, num - i - 1, step.first).log);
      ok, firstReceived := ProcessAckBlock(reader, visitor, w, i + 1 == num, firstReceived);
      i := i + 1;
    }
  }

  method ProcessTimestamps(reader: DataReader) returns (ok: bool)
    requires reader.Valid()
    modifies reader`pos
    ensures reader.Valid()
    ensures ok == ParseTimestamps(old(reader.Rest())).ok
    ensures ok ==> reader.Rest() == ParseTimestamps(old(reader.Rest())).rest
  {
    var count: seq<Byte>;
    ok, count := reader.ReadBytes(1);
    if ok {
      var skipped;
      ok, skipped := reader.ReadBytes(TimestampBytes(count[0]));
    }
  }

  method ProcessRanges(reader: DataReader, visitor: EventLog, w: nat, num: nat, multiple: bool, largest: nat)
    returns (ok: bool)
    requires reader.Valid()
    modifies reader`pos, visitor
    ensures reader.Valid()
    ensures ok == ParseRanges(old(reader.Rest()), w, num, multiple, largest).ok
    ensures visitor.log == old(visitor.log) + ParseRanges(old(reader.Rest()), w, num, multiple, largest).log
    ensures ok ==> reader.Rest() == ParseRanges(old(reader.Rest()), w, num, multiple, largest).rest
  {
    var len;
    ok, len := reader.ReadUInt(w);
    ok := ok && !(len == 0 && (largest != 0 || num != 0)) && len <= largest + 1;
    if ok {
      var firstReceived := largest + 1 - len;
      visitor.Notify(OnAckRange(firstReceived, largest + 1, !multiple));
      LogConcat(old(visitor.log), [OnAckRange(firstReceived, largest + 1, !multiple)],
                ParseBlocks(reader.Rest(), w, num, firstReceived).log);
      ok := ProcessAckBlocks(reader, visitor, w, num, firstReceived);
      if ok {
        ok := ProcessTimestamps(reader);
      }
    }
  }

  /** `ProcessAckFrame`. */
  method ProcessAckFrame(reader: DataReader, visitor: EventLog, frameType: Byte) returns (ok: bool)
    requires reader.Valid()
    modifies reader`pos, visitor
    ensures reader.Valid()
    ensures ok == ParseAck(frameType, old(reader.Rest())).ok
    ensures visitor.log == old(visitor.log) + ParseAck(frameType, old(reader.Rest())).log
    ensures ok ==> reader.Rest() == ParseAck(frameType, old(reader.Rest())).rest
  {
    var multiple := (frameType / 32) % 2 == 1;
    var w := ReadPacketNumberLength(frameType % 4);
    var la := ReadPacketNumberLength((frameType / 4) % 4);
    var largest, delay, num := 0, 0, 0;
    ok, largest := reader.ReadUInt(la);
    if ok {
      ok, delay := reader.ReadUInt(2);
    }
    if ok {
      visitor.Notify(OnAckFrameStart(largest, delay));
      if multiple {
        ok, num := reader.ReadUInt(1);
      }
      if ok {
        LogConcat(old(visitor.log), [OnAckFrameStart(largest, delay)],
                  ParseRanges(reader.Rest(), w, num, multiple, largest).log);
        ok := ProcessRanges(reader, visitor, w, num, multiple, largest);
      }
    }
  }

  // ---------------------------------------------------------------------------
  // Reading back a written frame
  // ---------------------------------------------------------------------------

  /** What the blocks report below packet `first`. */
  function Replay(bs: seq<Block>, first: nat): seq<Event> {
    if bs == [] || first < bs[0].gap + bs[0].len then [] else
    var lo := first - (bs[0].gap + bs[0].len);
    BlockReport(bs[0], lo, |bs| == 1) + Replay(bs[1..], lo)
  }

  /** The blocks never reach below zero. */
  ghost predicate Fits(bs: seq<Block>, first: nat, w: nat) {
    bs != [] ==>
      && bs[0].gap < 0x100 && bs[0].len < Pow256(w) && bs[0].gap + bs[0].len <= first
      && Fits(bs[1..], first - (bs[0].gap + bs[0].len), w)
  }

  function BlockReport(b: Block, lo: nat, last: bool): seq<Event> {
    if b.len > 0 then [OnAckRange(lo, lo + b.len, last)] else []
  }

  lemma ParseEncodedBlock(b: Block, w: nat, last: bool, first: nat, rest: seq<Byte>)
    requires b.gap < 0x100 && b.len < Pow256(w) && b.gap + b.len <= first
    ensures var step, lo := ParseBlock(EncodeBlock(b, w) + rest, w, last, first), first - (b.gap + b.len);
            step.ok && step.log == BlockReport(b, lo, last) && step.rest == rest && step.first == lo
  {
    hide Encode, Decode, Pow256;
    SmallPowers();
    assert EncodeBlock(b, w) + rest == Encode(b.gap, 1) + (Encode(b.len, w) + rest);
    ReadField(b.gap, 1, Encode(b.len, w) + rest);
    ReadField(b.len, w, rest);
  }

  lemma EncodeBlocksCons(bs: seq<Block>, w: nat, rest: seq<Byte>)
    requires bs != []
    ensures EncodeBlocks(bs, w) + rest == EncodeBlock(bs[0], w) + (EncodeBlocks(bs[1..], w) + rest)
  {
  }

  lemma ParseBlocksStep(s: seq<Byte>, w: nat, left: nat, first: nat, step: BlockStep)
    requires left > 0 && step == ParseBlock(s, w, left == 1, first) && step.ok
    ensures var r, below := ParseBlocks(s, w, left, first), ParseBlocks(step.rest, w, left - 1, step.first);
            r.ok == below.ok && r.log == step.log + below.log && r.rest == below.rest
  {
  }

  lemma NothingEncoded(w: nat, first: nat, rest: seq<Byte>)
    ensures EncodeBlocks([], w) + rest == rest && Replay([], first) == []
    ensures ParseBlocks(rest, w, 0, first) == Parsed(true, [], rest)
  {
  }

  lemma ReplayStep(bs: seq<Block>, first: nat)
    requires bs != [] && bs[0].gap + bs[0].len <= first
    ensures var lo := first - (bs[0].gap + bs[0].len);
            Replay(bs, first) == BlockReport(bs[0], lo, |bs| == 1) + Replay(bs[1..], lo)
  {
  }

  lemma {:induction false} ParseEncodedBlocks(bs: seq<Block>, w: nat, first: nat, rest: seq<Byte>)
    requires Fits(bs, first, w)
    ensures var r := ParseBlocks(EncodeBlocks(bs, w) + rest, w, |bs|, first);
            r.ok && r.log == Replay(bs, first) && r.rest == rest
    decreases |bs|
  {
    hide ParseBlock, ParseBlocks, BlockReport, EncodeBlock, EncodeBlocks, Replay, Pow256;
    if bs == [] {
      NothingEncoded(w, first, rest);
    } else {
      var b, last := bs[0], |bs| == 1;
      var s, below := EncodeBlocks(bs, w) + rest, EncodeBlocks(bs[1..], w) + rest;
      var lo := first - (b.gap + b.len);
      EncodeBlocksCons(bs, w, rest);
      ParseEncodedBlock(b, w, last, first, below);
      var step := ParseBlock(s, w, last, first);
      ParseBlocksStep(s, w, |bs|, first, step);
      ParseEncodedBlocks(bs[1..], w, lo, rest);
      ReplayStep(bs, first);
    }
  }

  /** The ranges reported for `p[..i]` when only the first `k` blocks are written: whole intervals,
      newest first, as long as the blocks last. */
  function Reports(p: seq<Interval>, i: nat, start: nat, k: nat): seq<Event>
    requires i <= |p| && Below(p, i, start)
    decreases i
  {
    if i == 0 then [] else
    var n := NumEncodedGaps(start - p[i - 1].hi);
    if k < n then [] else
    [OnAckRange(p[i - 1].lo, p[i - 1].hi, k == n)] + Reports(p, i - 1, p[i - 1].lo, k - n)
  }

  lemma {:induction false} WholeGap(gap: nat, len: nat, tail: seq<Block>, start: nat, w: nat)
    requires 0 < gap && 0 < len < Pow256(w) && gap + len <= start
    requires Fits(tail, start - gap - len, w)
    ensures Fits(GapBlocks(gap, len) + tail, start, w)
    ensures Replay(GapBlocks(gap, len) + tail, start)
         == [OnAckRange(start - gap - len, start - gap, tail == [])] + Replay(tail, start - gap - len)
    decreases gap
  {
    hide Replay, Pow256;
    var all := GapBlocks(gap, len) + tail;
    if gap <= MAX_U8 {
      assert all[1..] == tail && all[0] == Block(gap, len);
      ReplayStep(all, start);
    } else {
      WholeGap(gap - MAX_U8, len, tail, start - MAX_U8, w);
      assert all[1..] == GapBlocks(gap - MAX_U8, len) + tail && all[0] == Block(MAX_U8, 0);
      ReplayStep(all, start);
    }
  }

  lemma {:induction false} PartOfGap(gap: nat, len: nat, n: nat, start: nat, w: nat)
    requires 0 < gap <= start && n < NumEncodedGaps(gap)
    ensures Fits(GapBlocks(gap, len)[..n], start, w) && Replay(GapBlocks(gap, len)[..n], start) == []
    decreases gap
  {
    if n > 0 {
      PartOfGap(gap - MAX_U8, len, n - 1, start - MAX_U8, w);
      assert GapBlocks(gap, len)[..n][1..] == GapBlocks(gap - MAX_U8, len)[..n - 1];
    }
  }

  lemma {:induction false} ReplayIsReports(p: seq<Interval>, i: nat, start: nat, k: nat, w: nat)
    requires i <= |p| && Below(p, i, start) && k <= |Blocks(p, i, start)|
    requires forall m :: 0 <= m < k ==> Blocks(p, i, start)[m].len < Pow256(w)
    ensures Fits(Blocks(p, i, start)[..k], start, w)
    ensures Replay(Blocks(p, i, start)[..k], start) == Reports(p, i, start, k)
    decreases i
  {
    if i > 0 {
      hide Replay, Fits, GapBlocks, Pow256, Reports;
      var gap, len, lo := start - p[i - 1].hi, p[i - 1].Length(), p[i - 1].lo;
      var here, below, n := GapBlocks(gap, len), Blocks(p, i - 1, lo), NumEncodedGaps(gap);
      CutBlocks(here, below, k);
      ReportsStep(p, i, start, k);
      if k < n {
        PartOfGap(gap, len, k, start, w);
      } else {
        LastGapBlock(gap, len);
        LengthsBelow(here, below, k, w);
        ReplayIsReports(p, i - 1, lo, k - n, w);
        WholeGap(gap, len, below[..k - n], start, w);
        assert below[..k - n] == [] <==> k == n;
      }
    } else {
      NoBlocksNoReports(p, start, w);
    }
  }

  lemma NoBlocksNoReports(p: seq<Interval>, start: nat, w: nat)
    ensures Fits([], start, w) && Replay([], start) == [] && Reports(p, 0, start, 0) == []
  {
  }

  lemma ReportsStep(p: seq<Interval>, i: nat, start: nat, k: nat)
    requires 0 < i <= |p| && Below(p, i, start)
    ensures var n := NumEncodedGaps(start - p[i - 1].hi);
            Reports(p, i, start, k)
            == if k < n then []
               else [OnAckRange(p[i - 1].lo, p[i - 1].hi, k == n)] + Reports(p, i - 1, p[i - 1].lo, k - n)
  {
  }

  lemma LastGapBlock(gap: nat, len: nat)
    requires gap > 0
    ensures GapBlocks(gap, len)[|GapBlocks(gap, len)| - 1].len == len
  {
    GapBlocksAt(gap, len, |GapBlocks(gap, len)| - 1);
  }

  lemma CutBlocks(here: seq<Block>, below: seq<Block>, k: nat)
    requires k <= |here + below|
    ensures (here + below)[..k] == if k < |here| then here[..k] else here + below[..k - |here|]
  {
  }

  lemma LengthsBelow(here: seq<Block>, below: seq<Block>, k: nat, w: nat)
    requires 0 < |here| <= k <= |here + below|
    requires forall m :: 0 <= m < k ==> (here + below)[m].len < Pow256(w)
    ensures here[|here| - 1].len < Pow256(w)
    ensures forall m :: 0 <= m < k - |here| ==> below[m].len < Pow256(w)
  {
    assert (here + below)[|here| - 1] == here[|here| - 1];
    forall m | 0 <= m < k - |here|
      ensures below[m].len < Pow256(w)
    {
      assert (here + below)[|here| + m] == below[m];
    }
  }

  /** How many whole intervals of `p[..i]` the first `k` blocks hold. */
  function Reported(p: seq<Interval>, i: nat, start: nat, k: nat): (m: nat)
    requires i <= |p| && Below(p, i, start)
    ensures m <= i
    decreases i
  {
    if i == 0 then 0 else
    var n := NumEncodedGaps(start - p[i - 1].hi);
    if k < n then 0 else 1 + Reported(p, i - 1, p[i - 1].lo, k - n)
  }

  /** The reports are the newest intervals, in descending order and unchanged. */
  lemma {:induction false} ReportsArePrefix(p: seq<Interval>, i: nat, start: nat, k: nat)
    requires i <= |p| && Below(p, i, start)
    ensures |Reports(p, i, start, k)| == Reported(p, i, start, k)
    ensures forall j :: 0 <= j < Reported(p, i, start, k) ==>
              && Reports(p, i, start, k)[j].OnAckRange?
              && Reports(p, i, start, k)[j].lo == p[i - 1 - j].lo
              && Reports(p, i, start, k)[j].hi == p[i - 1 - j].hi
    decreases i
  {
    if i > 0 && k >= NumEncodedGaps(start - p[i - 1].hi) {
      var lo, k' := p[i - 1].lo, k - NumEncodedGaps(start - p[i - 1].hi);
      ReportsArePrefix(p, i - 1, lo, k');
      var log, rest := Reports(p, i, start, k), Reports(p, i - 1, lo, k');
      forall j | 0 <= j < |log|
        ensures log[j].OnAckRange? && log[j].lo == p[i - 1 - j].lo && log[j].hi == p[i - 1 - j].hi
      {
        assert j > 0 ==> log[j] == rest[j - 1];
      }
    }
  }

  /** Nothing is missing from the reports exactly when no block was cut. */
  lemma {:induction false} ReportsComplete(p: seq<Interval>, i: nat, start: nat, k: nat)
    requires i <= |p| && Below(p, i, start) && k <= |Blocks(p, i, start)|
    ensures Reported(p, i, start, k) == i <==> k == |Blocks(p, i, start)|
    decreases i
  {
    if i > 0 && k >= NumEncodedGaps(start - p[i - 1].hi) {
      ReportsComplete(p, i - 1, p[i - 1].lo, k - NumEncodedGaps(start - p[i - 1].hi));
    }
  }

  /** Only the final report can be marked as the last range, and it is exactly when `last` holds. */
  ghost predicate MarksLast(log: seq<Event>, last: bool) {
    && (forall j :: 0 <= j < |log| - 1 ==> log[j].OnAckRange? && !log[j].lastRange)
    && ((log != [] && log[|log| - 1].OnAckRange? && log[|log| - 1].lastRange) <==> last)
  }

  /** The final block written is not empty exactly if the final report is marked as the last range. */
  lemma {:induction false} ReportsMarkLast(p: seq<Interval>, i: nat, start: nat, k: nat)
    requires i <= |p| && Below(p, i, start) && 0 < k <= |Blocks(p, i, start)|
    ensures MarksLast(Reports(p, i, start, k), Blocks(p, i, start)[k - 1].len > 0)
    decreases i
  {
    hide GapBlocks, NumEncodedGaps, MarksLast, Reports;
    var gap, len, lo := start - p[i - 1].hi, p[i - 1].Length(), p[i - 1].lo;
    var n := NumEncodedGaps(gap);
    var here, below := GapBlocks(gap, len), Blocks(p, i - 1, lo);
    assert Blocks(p, i, start)[k - 1] == if k <= n then here[k - 1] else below[k - 1 - n];
    if k <= n {
      CutMarksLast(p, i, start, k);
    } else {
      ReportsMarkLast(p, i - 1, lo, k - n);
      var e, rest := OnAckRange(p[i - 1].lo, p[i - 1].hi, false), Reports(p, i - 1, lo, k - n);
      MoreReports(p, i, start, k);
      LastOfCons(e, rest, below[k - 1 - n].len > 0);
    }
  }

  lemma CutMarksLast(p: seq<Interval>, i: nat, start: nat, k: nat)
    requires 0 < i <= |p| && Below(p, i, start) && 0 < k <= NumEncodedGaps(start - p[i - 1].hi)
    ensures MarksLast(Reports(p, i, start, k), GapBlocks(start - p[i - 1].hi, p[i - 1].Length())[k - 1].len > 0)
  {
    hide GapBlocks, NumEncodedGaps;
    GapBlocksAt(start - p[i - 1].hi, p[i - 1].Length(), k - 1);
    NothingWithoutBlocks(p, i - 1, p[i - 1].lo);
  }

  lemma MoreReports(p: seq<Interval>, i: nat, start: nat, k: nat)
    requires 0 < i <= |p| && Below(p, i, start) && k > NumEncodedGaps(start - p[i - 1].hi)
    ensures Reports(p, i, start, k) == [OnAckRange(p[i - 1].lo, p[i - 1].hi, false)]
                                       + Reports(p, i - 1, p[i - 1].lo, k - NumEncodedGaps(start - p[i - 1].hi))
  {
    hide NumEncodedGaps;
  }

  lemma NothingWithoutBlocks(p: seq<Interval>, i: nat, start: nat)
    requires i <= |p| && Below(p, i, start)
    ensures Reports(p, i, start, 0) == []
  {
  }

  lemma LastOfCons(e: Event, rest: seq<Event>, last: bool)
    requires e.OnAckRange? && !e.lastRange && MarksLast(rest, last)
    ensures MarksLast([e] + rest, last)
  {
    forall j | 0 <= j < |[e] + rest| - 1
      ensures ([e] + rest)[j].OnAckRange? && !([e] + rest)[j].lastRange
    {
      assert j > 0 ==> ([e] + rest)[j] == rest[j - 1];
    }
    assert ([e] + rest)[|rest|] == if rest == [] then e else rest[|rest| - 1];
  }
}
