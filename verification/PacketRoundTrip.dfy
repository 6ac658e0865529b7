/** Reading a packet that `BuildDataPacket` wrote. */
module PacketRoundTrip {
  import opened Wrappers
  import opened Bytes
  import opened Visitor
  import opened AckFrames
  import opened AckReading
  import opened AckRoundTrip
  import opened Frames
  import opened FrameReading
  import opened Packets

  /** Padding before a log: it merges with padding that the log starts with. */
  function AddPadding(n: nat, log: seq<Event>): seq<Event> {
    if log != [] && log[0].OnPaddingFrame? then [OnPaddingFrame(n + log[0].numPaddingBytes)] + log[1..]
    else [OnPaddingFrame(n)] + log
  }

  /** What the frames of a written packet are reported as. */
  function PacketEvents(h: Header, frames: seq<Frame>, free: nat): seq<Event>
    requires ValidFrames(h, frames)
  {
    if frames == [] then [] else
    var b := FrameBytes(h, frames[0], |frames| == 1, free);
    if b.None? || |b.value| > free then [] else
    var more := PacketEvents(h, frames[1..], free - |b.value|);
    if frames[0].PaddingFrame? then AddPadding(|b.value|, more) else FrameEvents(h, frames[0], free) + more
  }

  /** Every ACK frame of the packet had room for a block where it was written. */
  ghost predicate AllReadable(h: Header, frames: seq<Frame>, free: nat)
    requires ValidFrames(h, frames)
  {
    frames == [] ||
    (Readable(h, frames[0], free)
     && var b := FrameBytes(h, frames[0], |frames| == 1, free);
        (b.Some? && |b.value| <= free ==> AllReadable(h, frames[1..], free - |b.value|)))
  }

  // ---------------------------------------------------------------------------
  // Padding
  // ---------------------------------------------------------------------------

  lemma {:induction false} LeadingZerosOfPadding(n: nat, t: seq<Byte>)
    ensures LeadingZeros(Zeros(n) + t) == n + LeadingZeros(t)
  {
    if n == 0 {
      assert Zeros(n) + t == t;
    } else {
      assert (Zeros(n) + t)[1..] == Zeros(n - 1) + t;
      LeadingZerosOfPadding(n - 1, t);
    }
  }

  /** Only a zero byte starts a padding report. */
  lemma OnlyZeroIsPadding(h: Header, t: Byte, s: seq<Byte>)
    requires t != PADDING_FRAME
    ensures var r := ParseFrame(h, t, s);
            && (r.log == [] || !r.log[0].OnPaddingFrame?)
            && (r.ok ==> r.log != [])
  {
  }

  lemma ParsePaddingRun(h: Header, n: nat, t: seq<Byte>)
    requires n > 0
    ensures var z := LeadingZeros(t);
            var r := ParseFrame(h, 0, Zeros(n - 1) + t);
            r.ok && r.log == [OnPaddingFrame(n + z)] && r.rest == t[z..]
  {
    hide ParseStream, ParseAck, ParseRstStream, ParseConnectionClose, ParseGoAway, ParseWindowUpdate,
      ParseBlocked, ParseStopWaiting, LeadingZeros, Zeros;
    LeadingZerosOfPadding(n - 1, t);
    assert (Zeros(n - 1) + t)[n - 1 + LeadingZeros(t)..] == t[LeadingZeros(t)..];
  }

  lemma ParseFramesStep(h: Header, s: seq<Byte>)
    requires s != [] && ParseFrame(h, s[0], s[1..]).ok
    ensures var first := ParseFrame(h, s[0], s[1..]);
            var r, more := ParseFrames(h, s), ParseFrames(h, first.rest);
            r.ok == more.ok && r.log == first.log + more.log && r.rest == more.rest
  {
  }

  /** A run of zero bytes merges with the zero bytes after it. */
  lemma PaddingReadsBack(h: Header, n: nat, t: seq<Byte>)
    requires n > 0
    ensures var r, more := ParseFrames(h, Zeros(n) + t), ParseFrames(h, t);
            r.ok == more.ok && r.log == AddPadding(n, more.log) && r.rest == more.rest
  {
    hide ParseFrame, LeadingZeros;
    var s, z := Zeros(n) + t, LeadingZeros(t);
    assert s[0] == 0 && s[1..] == Zeros(n - 1) + t;
    ParsePaddingRun(h, n, t);
    ParseFramesStep(h, s);
    if t == [] || t[0] != 0 {
      NoLeadingZeros(t);
      assert t[0..] == t;
      NoPaddingFirst(h, t);
    } else {
      ZeroFirst(h, t);
    }
  }

  lemma NoLeadingZeros(t: seq<Byte>)
    requires t == [] || t[0] != 0
    ensures LeadingZeros(t) == 0
  {
  }

  lemma ZeroFirst(h: Header, t: seq<Byte>)
    requires t != [] && t[0] == 0
    ensures var r, z := ParseFrames(h, t), LeadingZeros(t);
            var more := ParseFrames(h, t[z..]);
            r.ok == more.ok && r.log == [OnPaddingFrame(z)] + more.log && r.rest == more.rest
  {
    hide ParseFrame, LeadingZeros;
    assert Zeros(0) + t[1..] == t[1..];
    ParsePaddingRun(h, 1, t[1..]);
    ParseFramesStep(h, t);
    LeadingZerosCons(t);
  }

  lemma LeadingZerosCons(t: seq<Byte>)
    requires t != [] && t[0] == 0
    ensures LeadingZeros(t) == 1 + LeadingZeros(t[1..])
    ensures t[1..][LeadingZeros(t[1..])..] == t[LeadingZeros(t)..]
  {
  }

  lemma NoPaddingFirst(h: Header, t: seq<Byte>)
    requires t == [] || t[0] != 0
    ensures ParseFrames(h, t).log == [] || !ParseFrames(h, t).log[0].OnPaddingFrame?
  {
    hide ParseFrame;
    if t != [] {
      OnlyZeroIsPadding(h, t[0], t[1..]);
    }
  }

  // ---------------------------------------------------------------------------
  // The round trip
  // ---------------------------------------------------------------------------

  lemma PaddingBytes(h: Header, n: int, last: bool, free: nat)
    requires ValidHeader(h) && FrameBytes(h, PaddingFrame(n), last, free).Some?
    ensures var b := FrameBytes(h, PaddingFrame(n), last, free).value;
            |b| > 0 && b == Zeros(|b|)
  {
  }

  lemma FrameThenRest(h: Header, b: seq<Byte>, rest: seq<Byte>, events: seq<Event>)
    requires ReadsAs(h, b, rest, events)
    ensures var r, more := ParseFrames(h, b + rest), ParseFrames(h, rest);
            r.ok == more.ok && r.log == events + more.log && r.rest == more.rest
  {
    hide ParseFrame;
    assert (b + rest)[0] == b[0] && (b + rest)[1..] == b[1..] + rest;
    ParseFramesStep(h, b + rest);
  }

  /** A written packet, every ACK frame of which had room for a block, is read without error to
      its end and reports exactly its frames. */
  lemma {:induction false} PacketReadsBack(h: Header, frames: seq<Frame>, free: nat)
    requires ValidFrames(h, frames) && PacketBytes(h, frames, free).Some?
    requires AllReadable(h, frames, free)
    ensures var r := ParseFrames(h, PacketBytes(h, frames, free).value);
            r.ok && r.log == PacketEvents(h, frames, free) && r.rest == []
  {
    hide ParseFrame, FrameBytes, FrameEvents, ParseFrames, ReadsAs, AddPadding, ValidFrame, Roomy,
      PacketBytes, PacketEvents, ValidFrames;
    if frames == [] {
      NothingReadsBack(h, free);
    } else {
      var f, last := frames[0], |frames| == 1;
      ValidUnfold(h, frames);
      BytesUnfold(h, frames, free);
      EventsUnfold(h, frames, free);
      var b := FrameBytes(h, f, last, free).value;
      var rest := PacketBytes(h, frames[1..], free - |b|).value;
      PacketReadsBack(h, frames[1..], free - |b|);
      if f.PaddingFrame? {
        PaddingBytes(h, f.numPaddingBytes, last, free);
        PaddingReadsBack(h, |b|, rest);
      } else {
        FrameReadsBack(h, f, last, free, rest);
        FrameThenRest(h, b, rest, FrameEvents(h, f, free));
      }
    }
  }

  lemma NothingReadsBack(h: Header, free: nat)
    requires ValidFrames(h, [])
    ensures PacketBytes(h, [], free) == Some([]) && PacketEvents(h, [], free) == []
    ensures ParseFrames(h, []) == Parsed(true, [], [])
  {
  }

  lemma ValidUnfold(h: Header, frames: seq<Frame>)
    requires ValidFrames(h, frames) && frames != []
    ensures ValidHeader(h) && ValidFrame(h, frames[0]) && ValidFrames(h, frames[1..])
  {
    hide ValidFrame;
  }

  lemma BytesUnfold(h: Header, frames: seq<Frame>, free: nat)
    requires ValidFrames(h, frames) && frames != [] && PacketBytes(h, frames, free).Some?
    ensures var b := FrameBytes(h, frames[0], |frames| == 1, free);
            && b.Some? && |b.value| <= free
            && var rest := PacketBytes(h, frames[1..], free - |b.value|);
            && rest.Some? && PacketBytes(h, frames, free).value == b.value + rest.value
            && (|frames| == 1 ==> rest.value == [])
  {
    hide FrameBytes, ValidFrame;
  }

  lemma EventsUnfold(h: Header, frames: seq<Frame>, free: nat)
    requires ValidFrames(h, frames) && frames != []
    ensures var f, b := frames[0], FrameBytes(h, frames[0], |frames| == 1, free);
            b.Some? && |b.value| <= free ==>
              var more := PacketEvents(h, frames[1..], free - |b.value|);
              PacketEvents(h, frames, free)
              == if f.PaddingFrame? then AddPadding(|b.value|, more) else FrameEvents(h, f, free) + more
  {
    hide FrameBytes, FrameEvents, AddPadding, ValidFrame, PacketBytes;
  }

  // ---------------------------------------------------------------------------
  // Exactly when a packet can be read
  // ---------------------------------------------------------------------------

  lemma AckOkReportsRange(frameType: Byte, s: seq<Byte>)
    ensures ParseAck(frameType, s).ok ==> |ParseAck(frameType, s).log| >= 2
  {
  }

  /** An ACK frame without room for a block spoils the log of its packet at its second event. */
  lemma CrampedAckSpoils(h: Header, ack: AckFrame, free: nat, rest: seq<Byte>)
    requires WellFormed(ack) && |AckBytes(ack, free)| <= free && !Roomy(ack, free)
    ensures !ReportsTop(ack, ParseFrames(h, AckBytes(ack, free) + rest).log)
  {
    hide ParseAck, AckBytes, ReportsTop, ParseFrames;
    var b := AckBytes(ack, free);
    AckReadableIff(ack, free, rest);
    CrampedHead(ack, free, rest);
    assert (b + rest)[0] == b[0] && (b + rest)[1..] == b[1..] + rest;
    AckOkReportsRange(b[0], b[1..] + rest);
    SecondEvent(h, ack, b + rest, ParseAck(b[0], b[1..] + rest));
  }

  lemma CrampedHead(ack: AckFrame, free: nat, rest: seq<Byte>)
    requires WellFormed(ack) && |AckBytes(ack, free)| <= free && !Roomy(ack, free)
    ensures var b := AckBytes(ack, free);
            b != [] && 0x40 <= b[0] < 0x80 && |ParseAck(b[0], b[1..] + rest).log| >= 1
  {
    hide ParseAck, AckBytes, ParseRanges, AckTypeByte;
    CrampedWritesNone(ack, free);
    ParseCramped(ack, free, rest);
    WrittenPieces(ack, free, rest);
    TypeByteFields(AllBlocks(ack) != [], MinPacketNumberLength(ack.largestAcked), BlockLengthWidth(ack));
    AckSize(ack, free);
  }

  lemma SecondEvent(h: Header, ack: AckFrame, s: seq<Byte>, first: Parsed)
    requires s != [] && 0x40 <= s[0] < 0x80 && first == ParseAck(s[0], s[1..])
    requires |first.log| >= 1 && !ReportsTop(ack, first.log) && (first.ok ==> |first.log| >= 2)
    ensures !ReportsTop(ack, ParseFrames(h, s).log)
  {
    hide ParseAck;
    var log := ParseFrames(h, s).log;
    if first.ok {
      ParseFramesStep(h, s);
    }
    if |first.log| >= 2 {
      assert log[1] == first.log[1];
    }
  }

  /** Every padding report in a log counts at least one byte. */
  ghost predicate PositivePadding(log: seq<Event>) {
    log != [] && log[0].OnPaddingFrame? ==> log[0].numPaddingBytes > 0
  }

  lemma AddPaddingInjective(n: nat, x: seq<Event>, y: seq<Event>)
    requires PositivePadding(x) && PositivePadding(y) && AddPadding(n, x) == AddPadding(n, y)
    ensures x == y
  {
    var p, q := AddPadding(n, x), AddPadding(n, y);
    assert p[0] == q[0] && p[1..] == q[1..];
    if x != [] && x[0].OnPaddingFrame? {
      assert y != [] && y[0].OnPaddingFrame?;
      assert x == [x[0]] + p[1..] && y == [y[0]] + q[1..];
    } else {
      assert x == p[1..] && y == q[1..];
    }
  }

  lemma ParsedPaddingIsPositive(h: Header, s: seq<Byte>)
    ensures PositivePadding(ParseFrames(h, s).log)
  {
    hide ParseFrame;
    if s != [] && s[0] == 0 {
      assert s[1..] == Zeros(0) + s[1..];
      ParsePaddingRun(h, 1, s[1..]);
      ParseFramesStep(h, s);
    } else {
      NoPaddingFirst(h, s);
    }
  }

  lemma EventsStartWithoutPadding(h: Header, f: Frame, last: bool, free: nat)
    requires ValidHeader(h) && ValidFrame(h, f) && !f.PaddingFrame?
    ensures FrameEvents(h, f, free) != [] && !FrameEvents(h, f, free)[0].OnPaddingFrame?
  {
  }

  lemma EventPaddingIsPositive(h: Header, frames: seq<Frame>, free: nat)
    requires ValidFrames(h, frames) && PacketBytes(h, frames, free).Some?
    ensures PositivePadding(PacketEvents(h, frames, free))
  {
    hide FrameBytes, FrameEvents;
    if frames != [] {
      if frames[0].PaddingFrame? {
        PaddingBytes(h, frames[0].numPaddingBytes, |frames| == 1, free);
      } else {
        EventsStartWithoutPadding(h, frames[0], |frames| == 1, free);
      }
    }
  }

  lemma AckEventsReportTop(h: Header, ack: AckFrame, free: nat, more: seq<Event>)
    requires WellFormed(ack)
    ensures ReportsTop(ack, FrameEvents(h, Ack(ack), free) + more)
  {
    hide Reports;
    var log := FrameEvents(h, Ack(ack), free);
    assert (log + more)[1] == log[1] == AckRanges(ack, NumBlocksWritten(ack, free))[0];
  }

  /** A packet that was written reports exactly its frames if and only if every ACK frame in it
      had room for a block. */
  lemma {:induction false} PacketReadableIff(h: Header, frames: seq<Frame>, free: nat)
    requires ValidFrames(h, frames) && PacketBytes(h, frames, free).Some?
    ensures ParseFrames(h, PacketBytes(h, frames, free).value).log == PacketEvents(h, frames, free)
       <==> AllReadable(h, frames, free)
  {
    hide ParseFrame, FrameBytes, FrameEvents, ParseFrames, ReadsAs, AddPadding, ReportsTop, Roomy, PositivePadding,
      ValidFrame, ValidFrames, PacketBytes, PacketEvents;
    if AllReadable(h, frames, free) {
      PacketReadsBack(h, frames, free);
    } else {
      ValidUnfold(h, frames);
      BytesUnfold(h, frames, free);
      EventsUnfold(h, frames, free);
      var f, last := frames[0], |frames| == 1;
      var b := FrameBytes(h, f, last, free).value;
      var free' := free - |b|;
      var rest := PacketBytes(h, frames[1..], free').value;
      if !Readable(h, f, free) {
        CrampedFrame(h, f, last, free, rest, PacketEvents(h, frames[1..], free'));
      } else {
        PacketReadableIff(h, frames[1..], free');
        if f.PaddingFrame? {
          PaddingBytes(h, f.numPaddingBytes, last, free);
          PaddingReadsBack(h, |b|, rest);
          ParsedPaddingIsPositive(h, rest);
          EventPaddingIsPositive(h, frames[1..], free');
          if ParseFrames(h, b + rest).log == PacketEvents(h, frames, free) {
            AddPaddingInjective(|b|, ParseFrames(h, rest).log, PacketEvents(h, frames[1..], free'));
          }
        } else {
          FrameReadsBack(h, f, last, free, rest);
          FrameThenRest(h, b, rest, FrameEvents(h, f, free));
          CancelLeft(FrameEvents(h, f, free), ParseFrames(h, rest).log, PacketEvents(h, frames[1..], free'));
        }
      }
    }
  }

  lemma CancelLeft(a: seq<Event>, x: seq<Event>, y: seq<Event>)
    ensures a + x == a + y ==> x == y
  {
    if a + x == a + y {
      assert (a + x)[|a|..] == x && (a + y)[|a|..] == y;
    }
  }

  lemma CrampedFrame(h: Header, f: Frame, last: bool, free: nat, rest: seq<Byte>, more: seq<Event>)
    requires ValidHeader(h) && ValidFrame(h, f) && !Readable(h, f, free)
    requires FrameBytes(h, f, last, free).Some? && |FrameBytes(h, f, last, free).value| <= free
    ensures ParseFrames(h, FrameBytes(h, f, last, free).value + rest).log != FrameEvents(h, f, free) + more
  {
    hide ParseFrames, AckBytes, AckLog, ReportsTop, Roomy;
    CrampedAckSpoils(h, f.ack, free, rest);
    AckEventsReportTop(h, f.ack, free, more);
  }
}
