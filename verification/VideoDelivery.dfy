/** The video path as a whole: a frame is queued, the pacer asks for its packets, the datagrams reach
    the receiver in some order, and the segments put together are the frame. */
module VideoDelivery {
  import opened Bytes
  import opened Numbers
  import opened SimProto
  import opened VideoFrames
  import opened VideoSender

  /** What calls of the pacer send, one after the other: a segment sent is pending no more. */
  function SentFor(m: map<nat, Segment>, uid: nat, firstTs: int, calls: seq<Call>): seq<seq<Byte>>
    decreases |calls|
  {
    if calls == [] then [] else
    SentBy(m, uid, firstTs, calls[0]) + SentFor(m - {calls[0].seqno}, uid, firstTs, calls[1..])
  }

  /** The segments of a frame among the datagrams that arrive. */
  function SegmentsOf(arrivals: seq<seq<Byte>>, fid: nat): seq<Segment> {
    if arrivals == [] then [] else
    (match Receive(arrivals[0])
     case None => []
     case Some(r) => if r.1.Seg? && r.1.segment.fid == fid then [r.1.segment] else [])
    + SegmentsOf(arrivals[1..], fid)
  }

  /** The datagram carries this segment, with some send time. */
  ghost predicate Carries(d: seq<Byte>, seg: Segment, uid: nat) {
    exists ts :: FitsU16(ts) && d == Datagram(Header(PROTOCOL_VER, SIM_SEG, uid), Seg(seg.(sendTs := ts)))
  }

  ghost predicate CarriesPending(d: seq<Byte>, m: map<nat, Segment>, uid: nat) {
    exists k :: k in m && Carries(d, m[k], uid)
  }

  lemma CallCarries(m: map<nat, Segment>, uid: nat, firstTs: int, c: Call)
    requires c.seqno in m
    ensures |SentBy(m, uid, firstTs, c)| == 1 && Carries(SentBy(m, uid, firstTs, c)[0], m[c.seqno], uid)
  {
    hide Datagram;
    var seg := m[c.seqno];
    var ts := (c.now - firstTs - seg.timestamp) % 0x1_0000;
    assert FitsU16(ts);
  }

  /** Only pending segments are sent. */
  lemma {:induction false} OnlyPending(m: map<nat, Segment>, uid: nat, firstTs: int, calls: seq<Call>, d: seq<Byte>)
    requires d in SentFor(m, uid, firstTs, calls)
    ensures CarriesPending(d, m, uid)
    decreases |calls|
  {
    hide SentBy, Carries;
    var c := calls[0];
    if d in SentFor(m - {c.seqno}, uid, firstTs, calls[1..]) {
      OnlyPending(m - {c.seqno}, uid, firstTs, calls[1..], d);
      var k :| k in m - {c.seqno} && Carries(d, (m - {c.seqno})[k], uid);
      assert Carries(d, m[k], uid);
    } else {
      NothingSent(m, uid, firstTs, c);
      CallCarries(m, uid, firstTs, c);
    }
  }

  lemma NothingSent(m: map<nat, Segment>, uid: nat, firstTs: int, c: Call)
    ensures c.seqno !in m ==> SentBy(m, uid, firstTs, c) == []
  {
    hide Datagram;
  }

  /** Every pending segment that is asked for is sent. */
  lemma {:induction false} AskedIsSent(m: map<nat, Segment>, uid: nat, firstTs: int, calls: seq<Call>, k: nat, j: nat)
    requires k in m && j < |calls| && calls[j].seqno == k
    ensures exists d :: d in SentFor(m, uid, firstTs, calls) && Carries(d, m[k], uid)
    decreases |calls|
  {
    hide SentBy, Carries;
    var c := calls[0];
    if c.seqno == k {
      CallCarries(m, uid, firstTs, c);
      assert SentBy(m, uid, firstTs, c)[0] in SentFor(m, uid, firstTs, calls);
    } else {
      AskedIsSent(m - {c.seqno}, uid, firstTs, calls[1..], k, j - 1);
      var d :| d in SentFor(m - {c.seqno}, uid, firstTs, calls[1..]) && Carries(d, (m - {c.seqno})[k], uid);
      assert d in SentFor(m, uid, firstTs, calls) && Carries(d, m[k], uid);
    }
  }

  // ---------------------------------------------------------------------------
  // At the receiver
  // ---------------------------------------------------------------------------

  lemma {:induction false} SegmentArrived(arrivals: seq<seq<Byte>>, fid: nat, s: Segment)
    requires s in SegmentsOf(arrivals, fid)
    ensures s.fid == fid && exists d :: d in arrivals && Receive(d).Some? && Receive(d).value.1 == Seg(s)
  {
    hide Receive;
    if s in SegmentsOf(arrivals[1..], fid) {
      SegmentArrived(arrivals[1..], fid, s);
      var d :| d in arrivals[1..] && Receive(d).Some? && Receive(d).value.1 == Seg(s);
      assert d in arrivals;
    } else {
      assert arrivals[0] in arrivals;
    }
  }

  lemma {:induction false} ArrivedSegment(arrivals: seq<seq<Byte>>, fid: nat, d: seq<Byte>, s: Segment)
    requires d in arrivals && Receive(d).Some? && Receive(d).value.1 == Seg(s) && s.fid == fid
    ensures s in SegmentsOf(arrivals, fid)
  {
    hide Receive;
    if arrivals[0] != d {
      ArrivedSegment(arrivals[1..], fid, d, s);
    }
  }

  /** What a datagram with a segment says to the receiver. */
  lemma CarriedArrives(d: seq<Byte>, seg: Segment, uid: nat) returns (ts: nat)
    requires Carries(d, seg, uid) && ValidSegment(seg) && FitsU32(uid)
    ensures FitsU16(ts) && d == Datagram(Header(PROTOCOL_VER, SIM_SEG, uid), Seg(seg.(sendTs := ts)))
    ensures Receive(d).Some? && Receive(d).value.1 == Seg(Carried(seg.(sendTs := ts)))
    ensures Carried(seg.(sendTs := ts)).fid == seg.fid
  {
    hide Receive, Datagram;
    ts :| FitsU16(ts) && d == Datagram(Header(PROTOCOL_VER, SIM_SEG, uid), Seg(seg.(sendTs := ts)));
    MessageReadsBack(Header(PROTOCOL_VER, SIM_SEG, uid), Seg(seg.(sendTs := ts)));
  }

  lemma FrameSegment(d: seq<Byte>, f: Frame, i: nat, uid: nat)
    requires ValidFrame(f) && FitsU32(uid) && i < Total(|f.data|) && SIM_VIDEO_SIZE * i <= |f.data|
    requires Carries(d, SegmentOf(f, i), uid)
    ensures Receive(d).Some? && Receive(d).value.1.Seg? && Receive(d).value.1.segment.fid == f.fid
    ensures Delivered(Receive(d).value.1.segment, f, i)
  {
    hide Receive, Datagram, Carried, Total, Key, Piece, Sendable;
    SegmentsAreValid(f, i);
    var ts := CarriedArrives(d, SegmentOf(f, i), uid);
  }

  /** The send time a segment arrives with: added to the frame's time it is the time since the first
      frame at which the pacer asked, in 16 bits. */
  lemma SendTimeArrives(m: map<nat, Segment>, uid: nat, firstTs: int, c: Call)
    requires c.seqno in m && ValidSegment(m[c.seqno]) && FitsU32(uid)
    ensures |SentBy(m, uid, firstTs, c)| == 1
    ensures var r := Receive(SentBy(m, uid, firstTs, c)[0]);
            && r.Some? && r.value.1.Seg? && r.value.1.segment.timestamp == m[c.seqno].timestamp
            && r.value.1.segment.data == m[c.seqno].data && r.value.1.segment.sendTs < U16
            && (m[c.seqno].timestamp + r.value.1.segment.sendTs) % U16 == (c.now - firstTs) % U16
  {
    hide Receive, Datagram;
    var seg := m[c.seqno];
    var ts := (c.now - firstTs - seg.timestamp) % U16;
    MessageReadsBack(Header(PROTOCOL_VER, SIM_SEG, uid), Seg(seg.(sendTs := ts)));
    WrappedBack(seg.timestamp, c.now - firstTs);
  }

  lemma WrappedBack(a: nat, b: int)
    ensures (a + (b - a) % U16) % U16 == b % U16
  {
  }

  // ---------------------------------------------------------------------------
  // The round trip
  // ---------------------------------------------------------------------------

  /** The segments pending besides the frame's are sound and of other frames, and its keys are free. */
  ghost predicate Ready(m: map<nat, Segment>, f: Frame)
    requires ValidFrame(f)
  {
    && (forall k :: k in m ==> ValidSegment(m[k]) && m[k].fid != f.fid)
    && (forall i: nat :: i < Total(|f.data|) ==> Key(f.transSeq, i) !in m)
  }

  /** Of the segments pending once the frame is queued, those of the frame are its own. */
  lemma {:induction false} PendingIsFrame(m: map<nat, Segment>, f: Frame, n: nat, k: nat)
    requires ValidFrame(f) && n <= Total(|f.data|) && Ready(m, f) && k in InsertAll(m, f, n)
    ensures ValidSegment(InsertAll(m, f, n)[k])
    ensures InsertAll(m, f, n)[k].fid == f.fid ==>
              exists i: nat :: i < n && SIM_VIDEO_SIZE * i <= |f.data| && InsertAll(m, f, n)[k] == SegmentOf(f, i)
  {
    hide Key, Total, Sendable, Piece;
    if n > 0 {
      SegmentsAreValid(f, n - 1);
      if k in InsertAll(m, f, n - 1) {
        PendingIsFrame(m, f, n - 1, k);
      }
    }
  }

  /** The pacer asks for every packet it was given for the frame. */
  ghost predicate AllAsked(calls: seq<Call>, f: Frame, now: int)
    requires ValidFrame(f)
  {
    forall q :: q in Ordered(LengthsAll(f, Total(|f.data|)), now) ==>
      exists j :: 0 <= j < |calls| && calls[j].seqno == q.seqno
  }

  /** The datagrams that arrive are those sent, in any order and any number of times. */
  ghost predicate SameDatagrams(arrivals: seq<seq<Byte>>, sent: seq<seq<Byte>>) {
    forall d :: d in arrivals <==> d in sent
  }

  lemma EachDelivered(m: map<nat, Segment>, f: Frame, uid: nat, firstTs: int, calls: seq<Call>, now: int,
                      arrivals: seq<seq<Byte>>, i: nat)
    requires ValidFrame(f) && FitsU32(uid) && Ready(m, f) && AllAsked(calls, f, now) && i < Total(|f.data|)
    requires SameDatagrams(arrivals, SentFor(InsertAll(m, f, Total(|f.data|)), uid, firstTs, calls))
    ensures Arrived(SegmentsOf(arrivals, f.fid), f, i)
  {
    hide Key, Total, Sendable, SegmentOf, InsertAll, SentFor, Receive, Carries, LengthsAll, Ordered, SegmentsOf;
    hide Delivered;
    var all, k := InsertAll(m, f, Total(|f.data|)), Key(f.transSeq, i);
    WholeFrameQueued(m, f, i);
    FrameIsQueued(f, now);
    assert QueueEntry(f, i, now) in Ordered(LengthsAll(f, Total(|f.data|)), now);
    var j :| 0 <= j < |calls| && calls[j].seqno == k;
    AskedIsSent(all, uid, firstTs, calls, k, j);
    var d :| d in SentFor(all, uid, firstTs, calls) && Carries(d, all[k], uid);
    FrameSegment(d, f, i, uid);
    ArrivedSegment(arrivals, f.fid, d, Receive(d).value.1.segment);
  }

  lemma OnlyFrame(m: map<nat, Segment>, f: Frame, uid: nat, firstTs: int, calls: seq<Call>,
                  arrivals: seq<seq<Byte>>, s: Segment)
    requires ValidFrame(f) && FitsU32(uid) && Ready(m, f) && s in SegmentsOf(arrivals, f.fid)
    requires SameDatagrams(arrivals, SentFor(InsertAll(m, f, Total(|f.data|)), uid, firstTs, calls))
    ensures OfFrame(s, f)
  {
    hide Key, Total, Sendable, SegmentOf, InsertAll, SentFor, Receive, Carries, SegmentsOf, Ready, Delivered, Carried;
    var all := InsertAll(m, f, Total(|f.data|));
    SegmentArrived(arrivals, f.fid, s);
    var d :| d in arrivals && Receive(d).Some? && Receive(d).value.1 == Seg(s);
    OnlyPending(all, uid, firstTs, calls, d);
    var k :| k in all && Carries(d, all[k], uid);
    PendingIsFrame(m, f, Total(|f.data|), k);
    var ts := CarriedArrives(d, all[k], uid);
    var i: nat :| i < Total(|f.data|) && SIM_VIDEO_SIZE * i <= |f.data| && all[k] == SegmentOf(f, i);
    FrameSegment(d, f, i, uid);
  }

  /** The video path: once a frame is queued and the pacer has asked for all its packets, among any
      other packets, in any order and as often as it likes, the receiver that gets the datagrams, in
      any order and as often as the network likes, puts together the frame. */
  lemma VideoRoundTrip(m: map<nat, Segment>, f: Frame, uid: nat, firstTs: int, calls: seq<Call>, now: int,
                       arrivals: seq<seq<Byte>>)
    requires ValidFrame(f) && FitsU32(uid) && Ready(m, f) && AllAsked(calls, f, now)
    requires SameDatagrams(arrivals, SentFor(InsertAll(m, f, Total(|f.data|)), uid, firstTs, calls))
    ensures Assemble(SegmentsOf(arrivals, f.fid), Total(|f.data|)) == f.data
  {
    hide InsertAll, SentFor, SegmentsOf, Ready, AllAsked, SameDatagrams, OfFrame, Arrived, Total, Sendable;
    var segments := SegmentsOf(arrivals, f.fid);
    forall k | 0 <= k < |segments|
      ensures OfFrame(segments[k], f)
    {
      OnlyFrame(m, f, uid, firstTs, calls, arrivals, segments[k]);
    }
    forall i: nat | i < Total(|f.data|)
      ensures Arrived(segments, f, i)
    {
      EachDelivered(m, f, uid, firstTs, calls, now, arrivals, i);
    }
    FrameArrives(segments, f);
  }

  /** The same for the video data and time passed to `SendVideo`, by a sender with these counters. */
  lemma SentVideoArrives(m: map<nat, Segment>, packetSeed: nat, frameSeed: nat, transSeq: nat, firstTs: int,
                         payloadType: nat, ftype: int, data: seq<Byte>, uid: nat, calls: seq<Call>, now: int,
                         arrivals: seq<seq<Byte>>)
    requires FitsU32(packetSeed) && FitsU32(frameSeed) && FitsU16(transSeq) && FitsU8(payloadType) && Sendable(data)
    requires FitsU32(uid)
    requires var f := FrameOf(packetSeed, frameSeed, transSeq, firstTs, payloadType, ftype, data, now);
             && Ready(m, f) && AllAsked(calls, f, now)
             && SameDatagrams(arrivals, SentFor(InsertAll(m, f, Total(|data|)), uid,
                                                if firstTs == -1 then now else firstTs, calls))
    ensures Assemble(SegmentsOf(arrivals, frameSeed), Total(|data|)) == data
  {
    hide Total, Sendable, InsertAll, SentFor, SegmentsOf, Ready, AllAsked, SameDatagrams, Assemble;
    var f := FrameOf(packetSeed, frameSeed, transSeq, firstTs, payloadType, ftype, data, now);
    VideoRoundTrip(m, f, uid, if firstTs == -1 then now else firstTs, calls, now, arrivals);
  }
}
