/** The IETF form of the ACK frame in quic-test/myquic/my_quic_framer.cc: written as section 19.3.1
    of RFC 9000 has it, and read back by the framer's own reader, which slides the first block down
    instead of reading each block's length. */
module IetfAck {
  import opened AckFrames
  import opened Bytes
  import opened DataIo
  import opened Numbers
  import opened VarInts
  import opened Wrappers

  datatype Delay = Microseconds(us: nat) | Infinite

  /** `packets` in ascending order. */
  datatype IetfAckFrame = IetfAckFrame(largestAcked: nat, delay: Delay, packets: seq<Interval>)

  /** The type byte is libquic's. */
  const IETF_ACK: Byte
  const INFINITE_DELAY: nat := 0x3fff_ffff_fff8

  ghost predicate WellFormedIetf(f: IetfAckFrame) {
    var n := |f.packets|;
    && (f.delay.Microseconds? ==> f.delay.us < U64 / 2)
    && f.largestAcked < VAR_LIMIT
    && (n > 0 ==> 1 <= f.packets[n - 1].lo < f.packets[n - 1].hi == f.largestAcked + 1
                  && Below(f.packets, n - 1, f.packets[n - 1].lo))
  }

  // ---------------------------------------------------------------------------
  // Writing
  // ---------------------------------------------------------------------------

  /** A gap and a length for each interval of `p[..i]`, newest first; both are one less than the
      number of packets they stand for. */
  function BlockTokens(p: seq<Interval>, i: nat, previous: nat): seq<nat>
    requires i <= |p| && Below(p, i, previous)
  {
    if i == 0 then [] else
    [previous - p[i - 1].hi - 1, p[i - 1].hi - p[i - 1].lo - 1] + BlockTokens(p, i - 1, p[i - 1].lo)
  }

  function Tokens(f: IetfAckFrame): seq<nat>
    requires WellFormedIetf(f) && f.packets != [] && f.delay.Microseconds?
  {
    var n := |f.packets|;
    var top := f.packets[n - 1];
    [f.largestAcked, f.delay.us / 8, n - 1, top.hi - top.lo - 1] + BlockTokens(f.packets, n - 1, top.lo)
  }

  /** No more intervals fit below a number than there are numbers below it. */
  lemma {:induction false} FewIntervals(p: seq<Interval>, i: nat, start: nat)
    requires i <= |p| && Below(p, i, start)
    ensures i == 0 || i < start
  {
    if i > 0 {
      FewIntervals(p, i - 1, p[i - 1].lo);
    }
  }

  lemma PairBytes(a: nat, b: nat, rest: seq<nat>)
    ensures VarBytes([a, b] + rest) == VarInt(a) + VarInt(b) + VarBytes(rest)
  {
    hide VarInt;
    assert ([a, b] + rest)[1..] == [b] + rest && ([b] + rest)[1..] == rest;
  }

  method AppendIetfBlocks(p: seq<Interval>, n: nat, first: nat, writer: DataWriter) returns (ok: bool)
    requires n <= |p| && Below(p, n, first) && first < VAR_LIMIT && writer.Valid()
    modifies writer
    ensures writer.Valid()
    ensures ok <==> old(|writer.buffer|) + |VarBytes(BlockTokens(p, n, first))| <= writer.capacity
    ensures ok ==> writer.buffer == old(writer.buffer) + VarBytes(BlockTokens(p, n, first))
  {
    hide VarInt, VarLength, VarBytes, Below, BlockTokens;
    ok := true;
    var i: nat, previous: nat := n, first;
    ghost var before, all := writer.buffer, VarBytes(BlockTokens(p, n, first));
    while ok && i > 0
      invariant writer.Valid() && i <= n && previous < VAR_LIMIT && Below(p, i, previous)
      invariant ok ==> writer.buffer + VarBytes(BlockTokens(p, i, previous)) == before + all
      invariant !ok ==> |before| + |all| > writer.capacity
      decreases ok, i
    {
      var itr := p[i - 1];
      BlockStep(p, i, previous);
      ghost var rest := VarBytes(BlockTokens(p, i - 1, itr.lo));
      Concat3(writer.buffer, VarInt(previous - itr.hi - 1), VarInt(itr.hi - itr.lo - 1), rest);
      assert before + all == writer.buffer + VarInt(previous - itr.hi - 1) + VarInt(itr.hi - itr.lo - 1) + rest;
      ok := AppendIetfBlock(previous - itr.hi, itr, writer);
      previous, i := itr.lo, i - 1;
    }
    NoBlocks(p, previous);
  }

  lemma BlockStep(p: seq<Interval>, i: nat, previous: nat)
    requires 0 < i <= |p| && Below(p, i, previous)
    ensures var itr := p[i - 1];
            && 1 <= itr.lo < itr.hi < previous && Below(p, i - 1, itr.lo)
            && VarBytes(BlockTokens(p, i, previous)) ==
               VarInt(previous - itr.hi - 1) + VarInt(itr.hi - itr.lo - 1) + VarBytes(BlockTokens(p, i - 1, itr.lo))
  {
    hide VarInt, VarBytes;
    var itr := p[i - 1];
    PairBytes(previous - itr.hi - 1, itr.hi - itr.lo - 1, BlockTokens(p, i - 1, itr.lo));
  }

  lemma NoBlocks(p: seq<Interval>, previous: nat)
    ensures VarBytes(BlockTokens(p, 0, previous)) == []
  {
  }

  /** The frame is written whole, or the call fails: without packets, with an infinite delay, or
      without room. */
  method AppendIetfAckFrame(f: IetfAckFrame, writer: DataWriter) returns (ok: bool)
    requires WellFormedIetf(f) && writer.Valid()
    modifies writer
    ensures writer.Valid()
    ensures ok <==> f.packets != [] && f.delay.Microseconds?
                    && old(|writer.buffer|) + 1 + |VarBytes(Tokens(f))| <= writer.capacity
    ensures ok ==> writer.buffer == old(writer.buffer) + [IETF_ACK] + VarBytes(Tokens(f))
  {
    hide VarInt, VarLength, BlockTokens, VarBytes, Tokens, Below;
    var n := |f.packets|;
    ok := AppendIetfHeader(f, writer);
    if ok {
      ok := n != 0;
    }
    if ok {
      HeaderBytes(f);
      FewIntervals(f.packets, n - 1, f.packets[n - 1].lo);
      ok := AppendIetfBlock(n, f.packets[n - 1], writer);
    }
    if ok {
      ok := AppendIetfBlocks(f.packets, n - 1, f.packets[n - 1].lo, writer);
    }
    if f.packets != [] && f.delay.Microseconds? {
      HeaderBytes(f);
    }
  }

  /** The type, the largest acknowledged number and the delay in units of eight microseconds. */
  method AppendIetfHeader(f: IetfAckFrame, writer: DataWriter) returns (ok: bool)
    requires f.largestAcked < VAR_LIMIT && (f.delay.Microseconds? ==> f.delay.us < U64 / 2) && writer.Valid()
    modifies writer
    ensures writer.Valid()
    ensures ok <==> f.delay.Microseconds? && old(|writer.buffer|) + 1 + |VarInt(f.largestAcked)|
                    + |VarInt(f.delay.us / 8)| <= writer.capacity
    ensures ok ==> writer.buffer == old(writer.buffer) + [IETF_ACK] + VarInt(f.largestAcked) + VarInt(f.delay.us / 8)
  {
    hide VarInt, VarLength;
    ok := writer.WriteBytes([IETF_ACK]);
    if ok {
      ok := WriteVarInt62(writer, f.largestAcked);
    }
    if ok {
      ok := f.delay.Microseconds?;
    }
    if ok {
      ok := WriteVarInt62(writer, f.delay.us / 8);
    }
  }

  /** The number of blocks for the first one, the gap for any further one; then its length. */
  method AppendIetfBlock(n: nat, top: Interval, writer: DataWriter) returns (ok: bool)
    requires 0 < n <= VAR_LIMIT && 1 <= top.lo < top.hi <= VAR_LIMIT && writer.Valid()
    modifies writer
    ensures writer.Valid()
    ensures ok <==> old(|writer.buffer|) + |VarInt(n - 1)| + |VarInt(top.hi - top.lo - 1)| <= writer.capacity
    ensures ok ==> writer.buffer == old(writer.buffer) + VarInt(n - 1) + VarInt(top.hi - top.lo - 1)
  {
    hide VarInt, VarLength;
    ok := WriteVarInt62(writer, n - 1);
    if ok {
      ok := WriteVarInt62(writer, top.hi - top.lo - 1);
    }
  }

  lemma HeaderBytes(f: IetfAckFrame)
    requires WellFormedIetf(f) && f.packets != [] && f.delay.Microseconds?
    ensures var n := |f.packets|;
            var top := f.packets[n - 1];
            VarBytes(Tokens(f)) == VarInt(f.largestAcked) + VarInt(f.delay.us / 8)
              + VarInt(n - 1) + VarInt(top.hi - top.lo - 1) + VarBytes(BlockTokens(f.packets, n - 1, top.lo))
  {
    hide VarInt, BlockTokens;
    var n := |f.packets|;
    var top := f.packets[n - 1];
    var rest := BlockTokens(f.packets, n - 1, top.lo);
    var more := [n - 1, top.hi - top.lo - 1] + rest;
    PairBytes(f.largestAcked, f.delay.us / 8, more);
    PairBytes(n - 1, top.hi - top.lo - 1, rest);
    assert Tokens(f) == [f.largestAcked, f.delay.us / 8] + more;
  }

  // ---------------------------------------------------------------------------
  // Reading
  // ---------------------------------------------------------------------------

  /** The ranges added so far, and whether all blocks could be read; then `rest` follows. */
  datatype Blocks = Blocks(ok: bool, ranges: seq<Interval>, rest: seq<Byte>)

  /** Subtraction of 64-bit unsigned numbers. */
  function Minus(a: nat, b: nat): nat {
    (a - b) % U64
  }

  function Prepend(r: Interval, b: Blocks): Blocks {
    b.(ranges := [r] + b.ranges)
  }

  /** The loop of the framer's reader: the whole block slides down. */
  function ReadBlocks(s: seq<Byte>, count: nat, low: nat, high: nat): Blocks
    decreases count
  {
    if count == 0 then Blocks(true, [], s) else
    match ReadVar(s)
    case None => Blocks(false, [], [])
    case Some(gap) =>
      match ReadVar(AfterVar(s))
      case None => Blocks(false, [], [])
      case Some(length) =>
        var down := length + gap + 2;
        var r := Interval(Minus(low, down), Minus(high, down));
        Prepend(r, ReadBlocks(AfterVar(AfterVar(s)), count - 1, r.lo, r.hi))
  }

  /** The frame read, in the reader's order, and what follows it. */
  datatype IetfRead = IetfRead(ok: bool, largestAcked: nat, delay: Delay, ranges: seq<Interval>, rest: seq<Byte>)

  /** The delay the reader stores for the number on the wire, shifted in 64 bits. */
  function StoredDelay(v: nat): Delay {
    var us := v * 8 % U64;
    if us == INFINITE_DELAY then Infinite else Microseconds(us)
  }

  function ParseIetf(s: seq<Byte>): IetfRead {
    var failed := IetfRead(false, 0, Microseconds(0), [], []);
    match ReadVar(s)
    case None => failed
    case Some(largest) =>
      match ReadVar(AfterVar(s))
      case None => failed.(largestAcked := largest)
      case Some(delay) =>
        ParseIetfBlocks(AfterVar(AfterVar(s)), largest, StoredDelay(delay))
  }

  function ParseIetfBlocks(s: seq<Byte>, largest: nat, delay: Delay): IetfRead {
    var failed := IetfRead(false, largest, delay, [], []);
    match ReadVar(s)
    case None => failed
    case Some(count) =>
      match ReadVar(AfterVar(s))
      case None => failed
      case Some(first) =>
        var r := Interval(Minus(largest, first), (largest + 1) % U64);
        var b := Prepend(r, ReadBlocks(AfterVar(AfterVar(s)), count, r.lo, r.hi));
        IetfRead(b.ok, largest, delay, b.ranges, b.rest)
  }

  /** Number `n` of those that follow one another, if so many can be read. */
  function NumberAt(s: seq<Byte>, n: nat): Option<nat> {
    if ReadVar(s).None? || n == 0 then ReadVar(s) else NumberAt(AfterVar(s), n - 1)
  }

  lemma TwoOn(s: seq<Byte>, n: nat)
    requires n >= 2
    ensures NumberAt(s, n).Some? <==> ReadVar(s).Some? && ReadVar(AfterVar(s)).Some?
                                      && NumberAt(AfterVar(AfterVar(s)), n - 2).Some?
    ensures NumberAt(s, n).Some? ==> NumberAt(s, n) == NumberAt(AfterVar(AfterVar(s)), n - 2)
  {
    hide ReadVar, AfterVar;
    if ReadVar(s).Some? {
      assert NumberAt(AfterVar(s), n - 1).Some? ==> ReadVar(AfterVar(s)).Some?;
    }
  }

  lemma {:induction false} BlocksReadIff(s: seq<Byte>, count: nat, low: nat, high: nat)
    ensures var b := ReadBlocks(s, count, low, high);
            && (b.ok <==> count == 0 || NumberAt(s, 2 * count - 1).Some?) && (b.ok ==> |b.ranges| == count)
    decreases count
  {
    hide ReadVar, AfterVar, Minus, NumberAt;
    if count > 0 {
      if count == 1 {
        FirstTwo(s);
      } else {
        TwoOn(s, 2 * count - 1);
      }
      if ReadVar(s).Some? && ReadVar(AfterVar(s)).Some? {
        var down := ReadVar(AfterVar(s)).value + ReadVar(s).value + 2;
        BlocksReadIff(AfterVar(AfterVar(s)), count - 1, Minus(low, down), Minus(high, down));
      }
    }
  }

  lemma FirstTwo(s: seq<Byte>)
    ensures NumberAt(s, 0) == ReadVar(s)
    ensures NumberAt(s, 1) == if ReadVar(s).None? then None else ReadVar(AfterVar(s))
  {
    hide ReadVar, AfterVar;
  }

  /** On any bytes a frame is accepted exactly if its four numbers, and two more for every further
      block, can all be read, and then reports one range more than it has further blocks. One that ends
      before the first block reports no range; the largest acked and the delay are stored before that. */
  lemma AcceptedIff(s: seq<Byte>)
    ensures var r, count := ParseIetf(s), NumberAt(s, 2);
            && (r.ok <==> NumberAt(s, 3).Some? && count.Some? && NumberAt(s, 3 + 2 * count.value).Some?)
            && (r.ok ==> |r.ranges| == 1 + count.value)
            && (r.ranges == [] <==> NumberAt(s, 3).None?)
            && r.largestAcked == (match NumberAt(s, 0) case Some(v) => v case None => 0)
            && r.delay == (match NumberAt(s, 1) case Some(v) => StoredDelay(v) case None => Microseconds(0))
  {
    hide ReadVar, AfterVar, Minus, NumberAt, ReadBlocks, StoredDelay;
    FirstTwo(s);
    TwoOn(s, 2);
    TwoOn(s, 3);
    if ReadVar(s).Some? && ReadVar(AfterVar(s)).Some? {
      var t := AfterVar(AfterVar(s));
      FirstTwo(t);
      if NumberAt(s, 3).Some? {
        var largest, count, first := ReadVar(s).value, ReadVar(t).value, ReadVar(AfterVar(t)).value;
        TwoOn(s, 3 + 2 * count);
        if count > 0 {
          TwoOn(t, 1 + 2 * count);
        }
        BlocksReadIff(AfterVar(AfterVar(t)), count, Minus(largest, first), (largest + 1) % U64);
      }
    }
  }

  method ProcessIetfBlocks(reader: DataReader, blocks: nat, blockLow: nat, blockHigh: nat)
    returns (ok: bool, ranges: seq<Interval>)
    requires reader.Valid()
    modifies reader
    ensures reader.Valid()
    ensures ok == ReadBlocks(old(reader.Rest()), blocks, blockLow, blockHigh).ok
    ensures ranges == ReadBlocks(old(reader.Rest()), blocks, blockLow, blockHigh).ranges
    ensures ok ==> reader.Rest() == ReadBlocks(old(reader.Rest()), blocks, blockLow, blockHigh).rest
  {
    hide ReadVar, AfterVar, Minus;
    ok, ranges := true, [];
    var count, low, high := blocks, blockLow, blockHigh;
    ghost var all := ReadBlocks(reader.Rest(), count, low, high);
    while ok && count != 0
      invariant reader.Valid()
      invariant ok ==> var b := ReadBlocks(reader.Rest(), count, low, high);
                       all.ok == b.ok && all.ranges == ranges + b.ranges && all.rest == b.rest
      invariant !ok ==> !all.ok && all.ranges == ranges
      decreases ok, count
    {
      var gap := ReadVarInt62(reader);
      ok := gap.Some?;
      if ok {
        var length := ReadVarInt62(reader);
        ok := length.Some?;
        if ok {
          low := Minus(low, length.value + gap.value + 2);
          high := Minus(high, length.value + gap.value + 2);
          count := count - 1;
          Regrouped(ranges, Interval(low, high), ReadBlocks(reader.Rest(), count, low, high).ranges);
          ranges := ranges + [Interval(low, high)];
        }
      }
    }
  }

  lemma Regrouped(ranges: seq<Interval>, r: Interval, more: seq<Interval>)
    ensures ranges + ([r] + more) == ranges + [r] + more
  {
  }

  /** The type byte has been read; `ranges` are those handed to `AddRange`, in order. */
  method ProcessIetfAckFrame(reader: DataReader) returns (ok: bool, largest: nat, delay: Delay, ranges: seq<Interval>)
    requires reader.Valid()
    modifies reader
    ensures reader.Valid()
    ensures var r := ParseIetf(old(reader.Rest()));
            && ok == r.ok && largest == r.largestAcked && delay == r.delay && ranges == r.ranges
            && (ok ==> reader.Rest() == r.rest)
  {
    hide ReadVar, AfterVar, Minus, StoredDelay;
    largest, delay, ranges := 0, Microseconds(0), [];
    var v := ReadVarInt62(reader);
    ok := v.Some?;
    if ok {
      largest := v.value;
      v := ReadVarInt62(reader);
      ok := v.Some?;
      if ok {
        delay := DelayOf(v.value);
        ok, ranges := ProcessIetfFirst(reader, largest, delay);
      }
    }
  }

  method DelayOf(v: nat) returns (delay: Delay)
    ensures delay == StoredDelay(v)
  {
    var us := v * 8 % U64;
    if us == INFINITE_DELAY {
      delay := Infinite;
    } else {
      delay := Microseconds(us);
    }
  }

  method ProcessIetfFirst(reader: DataReader, largest: nat, ghost delay: Delay)
    returns (ok: bool, ranges: seq<Interval>)
    requires reader.Valid()
    modifies reader
    ensures reader.Valid()
    ensures var r := ParseIetfBlocks(old(reader.Rest()), largest, delay);
            && r.largestAcked == largest && r.delay == delay
            && ok == r.ok && ranges == r.ranges && (ok ==> reader.Rest() == r.rest)
  {
    hide ReadVar, AfterVar, Minus;
    ranges := [];
    var count := ReadVarInt62(reader);
    ok := count.Some?;
    if ok {
      var first := ReadVarInt62(reader);
      ok := first.Some?;
      if ok {
        var blockHigh, blockLow := (largest + 1) % U64, Minus(largest, first.value);
        var more;
        ok, more := ProcessIetfBlocks(reader, count.value, blockLow, blockHigh);
        ranges := [Interval(blockLow, blockHigh)] + more;
      }
    }
  }

  // ---------------------------------------------------------------------------
  // Section 19.3.1 of RFC 9000
  // ---------------------------------------------------------------------------

  /** The blocks below a range whose smallest number is `smallest`, read as the RFC says; nothing if
      a number comes out negative. */
  function RfcBlocks(s: seq<Byte>, count: nat, smallest: nat): Option<(seq<Interval>, seq<Byte>)>
    decreases count
  {
    if count == 0 then Some(([], s)) else
    match ReadVar(s)
    case None => None
    case Some(gap) =>
      match ReadVar(AfterVar(s))
      case None => None
      case Some(length) =>
        var largest := smallest - gap - 2;
        if largest - length < 0 then None else
        match RfcBlocks(AfterVar(AfterVar(s)), count - 1, largest - length)
        case None => None
        case Some(more) => Some(([Interval(largest - length, largest + 1)] + more.0, more.1))
  }

  /** The intervals of a frame (without its type byte), newest first, and what follows it. */
  function RfcParse(s: seq<Byte>): Option<(seq<Interval>, seq<Byte>)> {
    match ReadVar(s)
    case None => None
    case Some(largest) =>
      match ReadVar(AfterVar(s))
      case None => None
      case Some(_) => RfcRanges(AfterVar(AfterVar(s)), largest)
  }

  function RfcRanges(s: seq<Byte>, largest: nat): Option<(seq<Interval>, seq<Byte>)> {
    match ReadVar(s)
    case None => None
    case Some(count) =>
      match ReadVar(AfterVar(s))
      case None => None
      case Some(first) =>
        if first > largest then None else
        match RfcBlocks(AfterVar(AfterVar(s)), count, largest - first)
        case None => None
        case Some(more) => Some(([Interval(largest - first, largest + 1)] + more.0, more.1))
  }

  /** The intervals `p[..i]`, newest first. */
  function Newest(p: seq<Interval>, i: nat): (r: seq<Interval>)
    requires i <= |p|
    ensures |r| == i && forall k :: 0 <= k < i ==> r[k] == p[i - 1 - k]
  {
    if i == 0 then [] else [p[i - 1]] + Newest(p, i - 1)
  }

  lemma PairReadsBack(a: nat, b: nat, more: seq<Byte>)
    requires a < VAR_LIMIT && b < VAR_LIMIT
    ensures var s := VarInt(a) + VarInt(b) + more;
            ReadVar(s) == Some(a) && ReadVar(AfterVar(s)) == Some(b) && AfterVar(AfterVar(s)) == more
  {
    hide VarInt, ReadVar, AfterVar;
    var s := VarInt(a) + VarInt(b) + more;
    assert s == VarInt(a) + (VarInt(b) + more);
    VarReadsBack(a, VarInt(b) + more);
    VarReadsBack(b, more);
  }

  lemma {:induction false} RfcBlocksReadBack(p: seq<Interval>, i: nat, previous: nat, rest: seq<Byte>)
    requires i <= |p| && Below(p, i, previous) && previous < VAR_LIMIT
    ensures RfcBlocks(VarBytes(BlockTokens(p, i, previous)) + rest, i, previous) == Some((Newest(p, i), rest))
  {
    hide VarInt, ReadVar, AfterVar, VarBytes, BlockTokens, Below;
    if i == 0 {
      NoBlocks(p, previous);
      assert [] + rest == rest;
    } else {
      var itr := p[i - 1];
      BlockStep(p, i, previous);
      var more := VarBytes(BlockTokens(p, i - 1, itr.lo)) + rest;
      var gap, length := previous - itr.hi - 1, itr.hi - itr.lo - 1;
      assert VarBytes(BlockTokens(p, i, previous)) + rest == VarInt(gap) + VarInt(length) + more;
      PairReadsBack(gap, length, more);
      RfcBlocksReadBack(p, i - 1, itr.lo, rest);
    }
  }

  lemma HeaderReadsBack(f: IetfAckFrame, rest: seq<Byte>)
    requires WellFormedIetf(f) && f.packets != [] && f.delay.Microseconds?
    ensures var n := |f.packets|;
            var top := f.packets[n - 1];
            var s := VarBytes(Tokens(f)) + rest;
            && ReadVar(s) == Some(f.largestAcked) && ReadVar(AfterVar(s)) == Some(f.delay.us / 8)
            && var t := AfterVar(AfterVar(s));
               && ReadVar(t) == Some(n - 1) && ReadVar(AfterVar(t)) == Some(top.hi - top.lo - 1)
               && AfterVar(AfterVar(t)) == VarBytes(BlockTokens(f.packets, n - 1, top.lo)) + rest
  {
    hide VarInt, ReadVar, AfterVar, VarBytes, Tokens, BlockTokens, Below;
    var n := |f.packets|;
    var top := f.packets[n - 1];
    HeaderBytes(f);
    FewIntervals(f.packets, n - 1, top.lo);
    var blocks := VarBytes(BlockTokens(f.packets, n - 1, top.lo)) + rest;
    var more := VarInt(n - 1) + VarInt(top.hi - top.lo - 1) + blocks;
    assert VarBytes(Tokens(f)) + rest == VarInt(f.largestAcked) + VarInt(f.delay.us / 8) + more;
    PairReadsBack(f.largestAcked, f.delay.us / 8, more);
    PairReadsBack(n - 1, top.hi - top.lo - 1, blocks);
  }

  /** What is written says, to a reader of the RFC, exactly the intervals of the frame. */
  lemma RfcReadsBack(f: IetfAckFrame, rest: seq<Byte>)
    requires WellFormedIetf(f) && f.packets != [] && f.delay.Microseconds?
    ensures RfcParse(VarBytes(Tokens(f)) + rest) == Some((Newest(f.packets, |f.packets|), rest))
  {
    hide ReadVar, AfterVar, VarBytes, Tokens, BlockTokens, RfcBlocks;
    var n := |f.packets|;
    HeaderReadsBack(f, rest);
    RfcBlocksReadBack(f.packets, n - 1, f.packets[n - 1].lo, rest);
  }

  // ---------------------------------------------------------------------------
  // What the framer's own reader makes of it
  // ---------------------------------------------------------------------------

  /** The intervals `p[..i]`, newest first, each with its own lower end and the same width. */
  function SameWidth(p: seq<Interval>, i: nat, width: nat): (r: seq<Interval>)
    requires i <= |p|
    ensures |r| == i && forall k :: 0 <= k < i ==> r[k] == Interval(p[i - 1 - k].lo, p[i - 1 - k].lo + width)
  {
    if i == 0 then [] else [Interval(p[i - 1].lo, p[i - 1].lo + width)] + SameWidth(p, i - 1, width)
  }

  lemma {:induction false} OwnBlocksRead(p: seq<Interval>, i: nat, previous: nat, width: nat, rest: seq<Byte>)
    requires i <= |p| && Below(p, i, previous) && previous + width <= VAR_LIMIT
    ensures ReadBlocks(VarBytes(BlockTokens(p, i, previous)) + rest, i, previous, previous + width) ==
            Blocks(true, SameWidth(p, i, width), rest)
  {
    hide VarInt, ReadVar, AfterVar, VarBytes, BlockTokens, Below;
    if i == 0 {
      NoBlocks(p, previous);
      assert [] + rest == rest;
    } else {
      var itr := p[i - 1];
      BlockStep(p, i, previous);
      var more := VarBytes(BlockTokens(p, i - 1, itr.lo)) + rest;
      var gap, length := previous - itr.hi - 1, itr.hi - itr.lo - 1;
      assert VarBytes(BlockTokens(p, i, previous)) + rest == VarInt(gap) + VarInt(length) + more;
      PairReadsBack(gap, length, more);
      OwnBlocksRead(p, i - 1, itr.lo, width, rest);
    }
  }

  /** The framer's own reader gets every lower end right and gives every range the first one's
      width; the delay loses its low three bits. */
  lemma OwnReadsBack(f: IetfAckFrame, rest: seq<Byte>)
    requires WellFormedIetf(f) && f.packets != [] && f.delay.Microseconds?
    ensures var top := f.packets[|f.packets| - 1];
            ParseIetf(VarBytes(Tokens(f)) + rest) ==
              IetfRead(true, f.largestAcked, StoredDelay(f.delay.us / 8),
                       SameWidth(f.packets, |f.packets|, top.hi - top.lo), rest)
  {
    hide ReadVar, AfterVar, VarBytes, Tokens, BlockTokens, ReadBlocks, StoredDelay;
    var n := |f.packets|;
    var top := f.packets[n - 1];
    HeaderReadsBack(f, rest);
    OwnBlocksRead(f.packets, n - 1, top.lo, top.hi - top.lo, rest);
  }

  lemma DelayKept(us: nat)
    requires us < U64 / 2
    ensures StoredDelay(us / 8) == if us / 8 * 8 == INFINITE_DELAY then Infinite else Microseconds(us - us % 8)
  {
  }

  ghost predicate Covers(r: seq<Interval>, n: nat) {
    exists k :: 0 <= k < |r| && r[k].lo <= n < r[k].hi
  }

  ghost predicate SamePackets(a: seq<Interval>, b: seq<Interval>) {
    forall n: nat :: Covers(a, n) <==> Covers(b, n)
  }

  /** Reading a written frame back gives the packets of the frame exactly when all its intervals
      have the same length. */
  lemma OwnExactIff(f: IetfAckFrame, rest: seq<Byte>)
    requires WellFormedIetf(f) && f.packets != [] && f.delay.Microseconds?
    ensures SamePackets(ParseIetf(VarBytes(Tokens(f)) + rest).ranges, f.packets) <==>
            forall k :: 0 <= k < |f.packets| ==> f.packets[k].Length() == f.packets[|f.packets| - 1].Length()
  {
    hide ParseIetf, Tokens, VarBytes, SamePackets, Below, SameWidth;
    var p, n := f.packets, |f.packets|;
    var width := p[n - 1].hi - p[n - 1].lo;
    OwnReadsBack(f, rest);
    IntervalsApart(f);
    if k :| 0 <= k < n && p[k].Length() != width {
      OtherLength(p, width, k);
    } else {
      AllSameLength(p, width);
    }
  }

  lemma IntervalsApart(f: IetfAckFrame)
    requires WellFormedIetf(f) && f.packets != []
    ensures forall k :: 0 <= k < |f.packets| ==> f.packets[k].lo < f.packets[k].hi
    ensures forall i, j :: 0 <= i < j < |f.packets| ==> f.packets[i].hi < f.packets[j].lo
  {
    var n := |f.packets|;
    BelowMeans(f.packets, n - 1, f.packets[n - 1].lo);
  }

  lemma AllSameLength(p: seq<Interval>, width: nat)
    requires forall k :: 0 <= k < |p| ==> p[k].Length() == width
    ensures SamePackets(SameWidth(p, |p|, width), p)
  {
    hide SameWidth, Covers;
    forall m: nat
      ensures Covers(SameWidth(p, |p|, width), m) <==> Covers(p, m)
    {
      SameLengths(p, width, m);
    }
  }

  lemma SameLengths(p: seq<Interval>, width: nat, m: nat)
    requires forall k :: 0 <= k < |p| ==> p[k].Length() == width
    ensures Covers(SameWidth(p, |p|, width), m) <==> Covers(p, m)
  {
    var n, r := |p|, SameWidth(p, |p|, width);
    if Covers(r, m) {
      var k :| 0 <= k < n && r[k].lo <= m < r[k].hi;
      assert p[n - 1 - k].lo <= m < p[n - 1 - k].hi;
    }
    if Covers(p, m) {
      var k :| 0 <= k < n && p[k].lo <= m < p[k].hi;
      assert r[n - 1 - k].lo <= m < r[n - 1 - k].hi;
    }
  }

  /** An interval of another length is cut or overshoots: one packet tells. */
  lemma OtherLength(p: seq<Interval>, width: nat, k: nat)
    requires k < |p| && p[k].Length() != width
    requires forall j :: 0 <= j < |p| ==> p[j].lo < p[j].hi
    requires forall i, j :: 0 <= i < j < |p| ==> p[i].hi < p[j].lo
    ensures !SamePackets(SameWidth(p, |p|, width), p)
  {
    var n, r := |p|, SameWidth(p, |p|, width);
    var m := if p[k].Length() < width then p[k].hi else p[k].lo + width;
    if p[k].Length() < width {
      assert r[n - 1 - k].lo <= m < r[n - 1 - k].hi;
      assert Covers(r, m) && !Covers(p, m);
    } else {
      assert p[k].lo <= m < p[k].hi;
      assert Covers(p, m) && !Covers(r, m);
    }
  }

  function UnequalIntervals(): IetfAckFrame {
    IetfAckFrame(4, Microseconds(0), [Interval(1, 2), Interval(3, 5)])
  }

  /** Such frames are written: packets 1, 3 and 4 are acknowledged, and 2 is read as well. */
  lemma UnequalExample(rest: seq<Byte>)
    ensures WellFormedIetf(UnequalIntervals())
    ensures var r := ParseIetf(VarBytes(Tokens(UnequalIntervals())) + rest).ranges;
            Covers(r, 2) && !Covers(UnequalIntervals().packets, 2)
  {
    hide ParseIetf, Tokens, VarBytes;
    var f := UnequalIntervals();
    assert Below(f.packets, 1, 3);
    OwnReadsBack(f, rest);
    var r := SameWidth(f.packets, 2, 2);
    assert r[1].lo <= 2 < r[1].hi;
  }

  // ---------------------------------------------------------------------------
  // What the framer's own reader makes of any bytes
  // ---------------------------------------------------------------------------

  /** How far each further block slides down, as far as they can be read. */
  function Slides(s: seq<Byte>, count: nat): seq<nat>
    decreases count
  {
    if count == 0 then [] else
    match ReadVar(s)
    case None => []
    case Some(gap) =>
      match ReadVar(AfterVar(s))
      case None => []
      case Some(length) => [length + gap + 2] + Slides(AfterVar(AfterVar(s)), count - 1)
  }

  function Sum(xs: seq<nat>): nat {
    if xs == [] then 0 else xs[0] + Sum(xs[1..])
  }

  lemma MinusTwice(a: nat, b: nat, c: nat)
    ensures Minus(Minus(a, b), c) == Minus(a, b + c)
  {
  }

  /** Every range is the first one, slid down in 64 bits by all slides so far. */
  lemma {:induction false} RangesSlide(s: seq<Byte>, count: nat, low: nat, high: nat, k: nat)
    requires k < |ReadBlocks(s, count, low, high).ranges|
    ensures |Slides(s, count)| == |ReadBlocks(s, count, low, high).ranges|
    ensures var down := Sum(Slides(s, count)[..k + 1]);
            ReadBlocks(s, count, low, high).ranges[k] == Interval(Minus(low, down), Minus(high, down))
    decreases count
  {
    hide ReadVar, AfterVar, Minus;
    var gap, more := ReadVar(s).value, AfterVar(s);
    var down, rest := ReadVar(more).value + gap + 2, AfterVar(more);
    var low', high' := Minus(low, down), Minus(high, down);
    var slides := Slides(rest, count - 1);
    RangesLength(s, count, low, high);
    assert Slides(s, count)[..k + 1] == [down] + slides[..k];
    assert ([down] + slides[..k])[1..] == slides[..k];
    if k > 0 {
      RangesSlide(rest, count - 1, low', high', k - 1);
      MinusTwice(low, down, Sum(slides[..k]));
      MinusTwice(high, down, Sum(slides[..k]));
    } else {
      assert slides[..0] == [];
    }
  }

  lemma {:induction false} RangesLength(s: seq<Byte>, count: nat, low: nat, high: nat)
    ensures |Slides(s, count)| == |ReadBlocks(s, count, low, high).ranges|
    decreases count
  {
    hide ReadVar, AfterVar, Minus;
    if count > 0 && ReadVar(s).Some? && ReadVar(AfterVar(s)).Some? {
      var down := ReadVar(AfterVar(s)).value + ReadVar(s).value + 2;
      RangesLength(AfterVar(AfterVar(s)), count - 1, Minus(low, down), Minus(high, down));
    }
  }

  /** The range names packets: it is not empty and reaches at most the largest acked. */
  predicate IsReal(r: Interval, largest: nat) {
    r.lo < r.hi <= largest + 1
  }

  lemma RealIff(largest: nat, first: nat, down: nat)
    requires largest < VAR_LIMIT && first < VAR_LIMIT
    ensures IsReal(Interval(Minus(Minus(largest, first), down), Minus((largest + 1) % U64, down)), largest)
       <==> first + down % U64 <= largest
  {
    hide Minus;
    MinusWhole(Minus(largest, first), down);
    MinusWhole((largest + 1) % U64, down);
    MinusStep(largest, first);
    MinusStep(Minus(largest, first), down % U64);
    MinusStep((largest + 1) % U64, down % U64);
  }

  lemma MinusWhole(a: nat, b: nat)
    ensures Minus(a, b) == Minus(a, b % U64)
  {
    assert b == U64 * (b / U64) + b % U64;
  }

  lemma MinusStep(a: nat, b: nat)
    requires a < U64 && b < U64
    ensures Minus(a, b) == if b <= a then a - b else U64 + a - b
  {
  }

  /** On any bytes, exactly which ranges name packets: those whose slides so far, in 64 bits, and the
      first block together do not pass the largest acked. The others have wrapped. */
  lemma RangeIsRealIff(s: seq<Byte>, largest: nat, delay: Delay, k: nat)
    requires largest < VAR_LIMIT && k < |ParseIetfBlocks(s, largest, delay).ranges|
    ensures ReadVar(s).Some? && ReadVar(AfterVar(s)).Some?
    ensures var count, first, rest := ReadVar(s).value, ReadVar(AfterVar(s)).value, AfterVar(AfterVar(s));
            && k <= |Slides(rest, count)|
            && (IsReal(ParseIetfBlocks(s, largest, delay).ranges[k], largest)
                <==> first + Sum(Slides(rest, count)[..k]) % U64 <= largest)
  {
    hide ReadVar, AfterVar, Minus, ReadBlocks, Slides, IsReal;
    var count, first, rest := ReadVar(s).value, ReadVar(AfterVar(s)).value, AfterVar(AfterVar(s));
    var low, high := Minus(largest, first), (largest + 1) % U64;
    ReadVarBound(AfterVar(s));
    RangesLength(rest, count, low, high);
    if k > 0 {
      RangesSlide(rest, count, low, high, k - 1);
      RealIff(largest, first, Sum(Slides(rest, count)[..k]));
    } else {
      assert Slides(rest, count)[..0] == [];
      MinusNothing(largest, first);
      RealIff(largest, first, 0);
    }
  }

  lemma MinusNothing(largest: nat, first: nat)
    ensures Minus(Minus(largest, first), 0) == Minus(largest, first)
    ensures Minus((largest + 1) % U64, 0) == (largest + 1) % U64
  {
  }

  /** Four bytes are enough: largest acked 0, no delay, no further blocks, a first block of 2 packets. */
  lemma WrapExample()
    ensures ParseIetf([0, 0, 0, 1]).ok && ParseIetf([0, 0, 0, 1]).ranges == [Interval(U64 - 1, 1)]
  {
    var s: seq<Byte> := [0, 0, 0, 1];
    hide ReadVar, AfterVar;
    assert s == [0] + [0, 0, 1] && [0, 0, 1] == [0] + [0, 1] && [0, 1] == [0] + [1] && [1] == [1] + [];
    OneByteVar(0, [0, 0, 1]);
    OneByteVar(0, [0, 1]);
    OneByteVar(0, [1]);
    OneByteVar(1, []);
  }
}
