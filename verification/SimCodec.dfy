/** The encoding and decoding functions of mininet-webrtc/razor/sim_proto.inl and sim_proto.c as they
    drive a stream, proved against the formats of `SimProto`. */
module SimCodec {
  import opened BinStream
  import opened Bytes
  import opened SimProto
  import opened Wrappers
  import Crc32

  method MaskOf(s: Segment) returns (mask: nat)
    ensures mask == Mask(s)
  {
    mask := s.ftype % 2;
    if s.packetId > U16_MAX {
      mask := mask + 128;
    }
    if s.fid > U16_MAX {
      mask := mask + 64;
    }
    if s.total > U8_MAX {
      mask := mask + 32;
    }
    if s.remb == 0 {
      mask := mask + 16;
    }
  }

  /** A number is written in four bytes if it does not fit two. */
  method WriteId(strm: Stream, id: nat)
    requires strm.Valid()
    modifies strm, strm.data
    ensures strm.Valid() && (strm.data == old(strm.data) || fresh(strm.data))
    ensures strm.put == old(strm.put) + Encode(id, IdWidth(id > U16_MAX))
    ensures strm.got == old(strm.got) && strm.rsize == old(strm.rsize)
  {
    hide Encode, Stream.Valid;
    if id > U16_MAX {
      strm.WriteUInt(4, id);
    } else {
      strm.WriteUInt(2, id);
    }
  }

  method SegmentHeadEncode(strm: Stream, s: Segment)
    requires strm.Valid()
    modifies strm, strm.data
    ensures strm.Valid() && (strm.data == old(strm.data) || fresh(strm.data))
    ensures strm.put == old(strm.put) + EncodeSegmentHead(s)
    ensures strm.got == old(strm.got) && strm.rsize == old(strm.rsize)
  {
    hide Encode, Mask, IdWidth, Stream.Valid;
    var mask := MaskOf(s);
    strm.WriteUInt(1, mask);
    strm.WriteUInt(1, s.payloadType);
    WriteId(strm, s.packetId);
    WriteId(strm, s.fid);
    strm.WriteUInt(4, s.timestamp);
    Concat5(old(strm.put), Encode(Mask(s), 1), Encode(s.payloadType, 1),
            Encode(s.packetId, IdWidth(s.packetId > U16_MAX)),
            Encode(s.fid, IdWidth(s.fid > U16_MAX)), Encode(s.timestamp, 4));
  }

  /** Index and total in two bytes each if the total needs them. */
  method PositionEncode(strm: Stream, s: Segment)
    requires strm.Valid()
    modifies strm, strm.data
    ensures strm.Valid() && (strm.data == old(strm.data) || fresh(strm.data))
    ensures strm.put == old(strm.put) + EncodePosition(s)
    ensures strm.got == old(strm.got) && strm.rsize == old(strm.rsize)
  {
    hide Encode, Stream.Valid;
    if s.total > U8_MAX {
      strm.WriteUInt(2, s.index);
      strm.WriteUInt(2, s.total);
      Concat2(old(strm.put), Encode(s.index, 2), Encode(s.total, 2));
    } else {
      strm.WriteUInt(1, s.index);
      strm.WriteUInt(1, s.total);
      Concat2(old(strm.put), Encode(s.index, 1), Encode(s.total, 1));
    }
  }

  method SegmentTailEncode(strm: Stream, s: Segment)
    requires strm.Valid()
    modifies strm, strm.data
    ensures strm.Valid() && (strm.data == old(strm.data) || fresh(strm.data))
    ensures strm.put == old(strm.put) + EncodeSegmentTail(s)
    ensures strm.got == old(strm.got) && strm.rsize == old(strm.rsize)
  {
    hide Encode, Stream.Valid;
    strm.WriteUInt(2, s.sendTs);
    strm.WriteUInt(2, s.transportSeq);
    strm.WriteData(s.data);
    Concat2(old(strm.put), Encode(s.sendTs, 2), Encode(s.transportSeq, 2));
    Concat3(old(strm.put), Encode(s.sendTs, 2) + Encode(s.transportSeq, 2), Encode(|s.data|, 2), s.data);
  }

  method SegmentEncode(strm: Stream, s: Segment)
    requires strm.Valid()
    modifies strm, strm.data
    ensures strm.Valid() && (strm.data == old(strm.data) || fresh(strm.data))
    ensures strm.put == old(strm.put) + EncodeSegment(s)
    ensures strm.got == old(strm.got) && strm.rsize == old(strm.rsize)
  {
    hide EncodeSegmentHead, EncodePosition, EncodeSegmentTail, Stream.Valid;
    SegmentHeadEncode(strm, s);
    PositionEncode(strm, s);
    SegmentTailEncode(strm, s);
    Concat3(old(strm.put), EncodeSegmentHead(s), EncodePosition(s), EncodeSegmentTail(s));
  }

  method SegmentHeadDecode(strm: Stream)
    returns (mask: nat, payloadType: nat, packetId: nat, fid: nat, timestamp: nat)
    requires strm.Valid()
    modifies strm`rptr, strm`rsize, strm`got
    ensures strm.Valid()
    ensures SegmentHead(mask, payloadType, packetId, fid, timestamp, strm.Unread()) ==
            DecodeSegmentHead(old(strm.Unread()))
  {
    hide TakenUInt, Stream.Valid, Set;
    mask := strm.ReadUInt(1);
    payloadType := strm.ReadUInt(1);
    packetId := strm.ReadUInt(if Set(mask, 128) then 4 else 2);
    fid := strm.ReadUInt(if Set(mask, 64) then 4 else 2);
    timestamp := strm.ReadUInt(4);
  }

  method PositionDecode(strm: Stream, mask: nat) returns (index: nat, total: nat)
    requires strm.Valid()
    modifies strm`rptr, strm`rsize, strm`got
    ensures strm.Valid() && (index, total, strm.Unread()) == DecodePosition(old(strm.Unread()), mask)
  {
    hide TakenUInt, Stream.Valid, Set;
    if Set(mask, 32) {
      index := strm.ReadUInt(2);
      total := strm.ReadUInt(2);
    } else {
      index := strm.ReadUInt(1);
      total := strm.ReadUInt(1);
    }
  }

  method SegmentTailDecode(strm: Stream) returns (sendTs: nat, transportSeq: nat, data: seq<Byte>)
    requires strm.Valid()
    modifies strm`rptr, strm`rsize, strm`got
    ensures strm.Valid()
    ensures SegmentTail(sendTs, transportSeq, data, strm.Unread()) == DecodeSegmentTail(old(strm.Unread()))
  {
    hide TakenUInt, TakenData, Stream.Valid;
    sendTs := strm.ReadUInt(2);
    transportSeq := strm.ReadUInt(2);
    var size;
    size, data := strm.ReadData(SIM_VIDEO_SIZE);
  }

  method SegmentDecode(strm: Stream) returns (s: Segment)
    requires strm.Valid()
    modifies strm`rptr, strm`rsize, strm`got
    ensures strm.Valid() && (s, strm.Unread()) == DecodeSegment(old(strm.Unread()))
  {
    hide DecodeSegmentHead, DecodePosition, DecodeSegmentTail, Stream.Valid, Set;
    var mask, payloadType, packetId, fid, timestamp := SegmentHeadDecode(strm);
    var index, total := PositionDecode(strm, mask);
    var remb := if Set(mask, 16) then 0 else 0xff;
    var sendTs, transportSeq, data := SegmentTailDecode(strm);
    s := Segment(packetId, fid, timestamp, index, total, mask % 2, payloadType, remb, sendTs, transportSeq, data);
  }

  // ---------------------------------------------------------------------------
  // The other bodies
  // ---------------------------------------------------------------------------

  method SegmentAckEncode(strm: Stream, base: nat, acked: nat, nack: seq<nat>)
    requires strm.Valid()
    modifies strm, strm.data
    ensures strm.Valid() && (strm.data == old(strm.data) || fresh(strm.data))
    ensures strm.put == old(strm.put) + EncodeSegmentAck(base, acked, nack)
    ensures strm.got == old(strm.got) && strm.rsize == old(strm.rsize)
  {
    hide Encode, EncodeWords, Stream.Valid;
    strm.WriteUInt(4, base);
    strm.WriteUInt(4, acked);
    strm.WriteUInt(1, |nack|);
    WordsEncode(strm, nack);
    var a, b, c := Encode(base, 4), Encode(acked, 4), Encode(|nack|, 1);
    Concat3(old(strm.put), a, b, c);
    Concat2(old(strm.put), a + b + c, EncodeWords(nack));
  }

  lemma WordsSnoc(v: seq<nat>, x: nat)
    ensures EncodeWords(v + [x]) == EncodeWords(v) + Encode(x, 2)
  {
    hide Encode;
    if v == [] {
      assert ([] + [x])[1..] == [];
      assert EncodeWords([x]) == Encode(x, 2) + EncodeWords([]);
    } else {
      assert (v + [x])[1..] == v[1..] + [x];
      WordsSnoc(v[1..], x);
    }
  }

  method WordsEncode(strm: Stream, v: seq<nat>)
    requires strm.Valid()
    modifies strm, strm.data
    ensures strm.Valid() && (strm.data == old(strm.data) || fresh(strm.data))
    ensures strm.put == old(strm.put) + EncodeWords(v)
    ensures strm.got == old(strm.got) && strm.rsize == old(strm.rsize)
  {
    hide Encode, EncodeWords, Stream.Valid;
    NoWords();
    for i := 0 to |v|
      invariant strm.Valid() && (strm.data == old(strm.data) || fresh(strm.data))
      invariant strm.put == old(strm.put) + EncodeWords(v[..i])
      invariant strm.got == old(strm.got) && strm.rsize == old(strm.rsize)
    {
      strm.WriteUInt(2, v[i]);
      WordsSnoc(v[..i], v[i]);
      assert v[..i + 1] == v[..i] + [v[i]];
      Concat2(old(strm.put), EncodeWords(v[..i]), Encode(v[i], 2));
    }
    assert v[..|v|] == v;
  }

  lemma NoWords()
    ensures EncodeWords([]) == []
  {
  }

  method SegmentAckDecode(strm: Stream) returns (b: Body)
    requires strm.Valid()
    modifies strm`rptr, strm`rsize, strm`got
    ensures strm.Valid() && (b, strm.Unread()) == DecodeSegmentAck(old(strm.Unread()))
  {
    hide TakenUInt, DecodeWords, Stream.Valid;
    var base := strm.ReadUInt(4);
    var acked := strm.ReadUInt(4);
    var count := strm.ReadUInt(1);
    var nack := WordsDecode(strm, if count < NACK_NUM then count else NACK_NUM);
    b := SegAck(base, acked, nack);
  }

  method WordsDecode(strm: Stream, n: nat) returns (v: seq<nat>)
    requires strm.Valid()
    modifies strm`rptr, strm`rsize, strm`got
    ensures strm.Valid() && (v, strm.Unread()) == DecodeWords(old(strm.Unread()), n)
  {
    hide TakenUInt, Stream.Valid;
    v := [];
    ghost var all := DecodeWords(strm.Unread(), n);
    for i := 0 to n
      invariant strm.Valid()
      invariant var more := DecodeWords(strm.Unread(), n - i);
                all.0 == v + more.0 && all.1 == more.1
    {
      var x := strm.ReadUInt(2);
      ghost var more := DecodeWords(strm.Unread(), n - i - 1).0;
      assert v + ([x] + more) == v + [x] + more;
      v := v + [x];
    }
    assert v + [] == v;
  }

  method FeedbackEncode(strm: Stream, base: nat, feedback: seq<Byte>)
    requires strm.Valid()
    modifies strm, strm.data
    ensures strm.Valid() && (strm.data == old(strm.data) || fresh(strm.data))
    ensures strm.put == old(strm.put) + EncodeFeedback(base, feedback)
    ensures strm.got == old(strm.got) && strm.rsize == old(strm.rsize)
  {
    hide Encode, Stream.Valid;
    strm.WriteUInt(4, base);
    strm.WriteData(feedback);
    Concat3(old(strm.put), Encode(base, 4), Encode(|feedback|, 2), feedback);
  }

  method FeedbackDecode(strm: Stream) returns (b: Body)
    requires strm.Valid()
    modifies strm`rptr, strm`rsize, strm`got
    ensures strm.Valid() && (b, strm.Unread()) == DecodeFeedback(old(strm.Unread()))
  {
    hide TakenUInt, TakenData, Stream.Valid;
    var base := strm.ReadUInt(4);
    var _, feedback := strm.ReadData(SIM_FEEDBACK_SIZE);
    b := Feedback(base, feedback);
  }

  method PadEncode(strm: Stream, sendTs: nat, transportSeq: nat, padding: seq<Byte>)
    requires strm.Valid()
    modifies strm, strm.data
    ensures strm.Valid() && (strm.data == old(strm.data) || fresh(strm.data))
    ensures strm.put == old(strm.put) + EncodePad(sendTs, transportSeq, padding)
    ensures strm.got == old(strm.got) && strm.rsize == old(strm.rsize)
  {
    hide Encode, Stream.Valid;
    strm.WriteUInt(4, sendTs);
    strm.WriteUInt(2, transportSeq);
    strm.WriteData(padding);
    Concat2(old(strm.put), Encode(sendTs, 4), Encode(transportSeq, 2));
    Concat3(old(strm.put), Encode(sendTs, 4) + Encode(transportSeq, 2), Encode(|padding|, 2), padding);
  }

  method PadDecode(strm: Stream) returns (b: Body)
    requires strm.Valid()
    modifies strm`rptr, strm`rsize, strm`got
    ensures strm.Valid() && (b, strm.Unread()) == DecodePad(old(strm.Unread()))
  {
    hide TakenUInt, TakenData, Stream.Valid;
    var sendTs := strm.ReadUInt(4);
    var transportSeq := strm.ReadUInt(2);
    var _, padding := strm.ReadData(PADDING_DATA_SIZE);
    b := Pad(sendTs, transportSeq, padding);
  }

  // ---------------------------------------------------------------------------
  // Messages
  // ---------------------------------------------------------------------------

  method EncodeHeaderTo(strm: Stream, h: Header)
    requires strm.Valid()
    modifies strm, strm.data
    ensures strm.Valid() && (strm.data == old(strm.data) || fresh(strm.data))
    ensures strm.put == old(strm.put) + EncodeHeader(h)
    ensures strm.got == old(strm.got) && strm.rsize == old(strm.rsize)
  {
    hide Encode, Stream.Valid;
    strm.WriteUInt(1, h.ver);
    strm.WriteUInt(1, h.mid);
    strm.WriteUInt(4, h.uid);
    Concat3(old(strm.put), Encode(h.ver, 1), Encode(h.mid, 1), Encode(h.uid, 4));
  }

  method EncodeBodyTo(strm: Stream, b: Body)
    requires strm.Valid()
    modifies strm, strm.data
    ensures strm.Valid() && (strm.data == old(strm.data) || fresh(strm.data))
    ensures strm.put == old(strm.put) + EncodeBody(b)
    ensures strm.got == old(strm.got) && strm.rsize == old(strm.rsize)
  {
    hide Encode, Stream.Valid, EncodeSegment, EncodeSegmentAck, EncodeFeedback, EncodePad, Unsigned;
    match b
    case Ping(ts) => strm.WriteUInt(8, Unsigned(ts, 8));
    case Seg(s) => SegmentEncode(strm, s);
    case SegAck(base, acked, nack) => SegmentAckEncode(strm, base, acked, nack);
    case Feedback(base, feedback) => FeedbackEncode(strm, base, feedback);
    case Pad(ts, transportSeq, padding) => PadEncode(strm, ts, transportSeq, padding);
  }

  /** What is in the buffer before the first read is what was put into it. */
  lemma BufferIsPut(strm: Stream)
    requires strm.Valid() && strm.got == [] && strm.rsize == 0
    ensures strm.used <= strm.data.Length && strm.data[..strm.used] == strm.put
  {
  }

  /** `sim_encode_msg`: the stream holds the datagram and nothing else. */
  method EncodeMsg(strm: Stream, h: Header, b: Body)
    requires strm.Valid()
    modifies strm, strm.data
    ensures strm.Valid() && (strm.data == old(strm.data) || fresh(strm.data))
    ensures strm.put == Datagram(h, b) && strm.got == [] && strm.rsize == 0
    ensures strm.used <= strm.data.Length && strm.data[..strm.used] == Datagram(h, b)
  {
    hide Encode, Stream.Valid, EncodeHeader, EncodeBody, Crc;
    strm.Rewind(true);
    RewoundIsEmpty(strm);
    EncodeHeaderTo(strm, h);
    EncodeBodyTo(strm, b);
    BufferIsPut(strm);
    assert strm.put == EncodeHeader(h) + EncodeBody(b);
    var crc := CrcOf(strm.data[..strm.used]);
    strm.WriteUInt(4, crc);
    BufferIsPut(strm);
  }

  lemma RewoundIsEmpty(strm: Stream)
    requires strm.Valid() && strm.put == strm.Unread() && strm.Unread() == []
    ensures strm.put == []
  {
  }

  method CrcOf(s: seq<Byte>) returns (crc: nat)
    ensures crc == Crc(s)
  {
    hide Crc32.Checksum;
    var c := Crc32.Crc32(CRC_VAL, Words(s));
    crc := Value(c);
  }

  /** `sim_decode_header`, on a stream that holds a received datagram. */
  method DecodeHeaderFrom(strm: Stream) returns (h: Option<Header>)
    requires strm.Valid() && strm.got == [] && strm.rsize == 0 && strm.used >= 4
    modifies strm`rptr, strm`rsize, strm`got
    ensures strm.Valid() && strm.put == old(strm.put)
    ensures h.Some? <==> ChecksOut(strm.put)
    ensures if h.Some? then (h.value, strm.Unread()) == DecodeHeader(strm.put) else strm.Unread() == strm.put
  {
    hide Encode, Decode, Crc, TakenUInt;
    BufferIsPut(strm);
    hide Stream.Valid;
    var n := strm.used - 4;
    var src := Decode(strm.data[n..strm.used]);
    var crc := CrcOf(strm.data[..n]);
    assert strm.data[n..strm.used] == strm.put[n..] && strm.data[..n] == strm.put[..n];
    if src == crc {
      var ver := strm.ReadUInt(1);
      var mid := strm.ReadUInt(1);
      var uid := strm.ReadUInt(4);
      h := Some(Header(ver, mid, uid));
    } else {
      h := None;
    }
  }

  /** `sim_decode_msg`. */
  method DecodeMsg(strm: Stream, mid: nat) returns (b: Option<Body>)
    requires strm.Valid()
    modifies strm`rptr, strm`rsize, strm`got
    ensures strm.Valid()
    ensures var r := DecodeBody(old(strm.Unread()), mid);
            && (b.Some? <==> r.Some?)
            && (b.Some? ==> (b.value, strm.Unread()) == r.value)
  {
    hide Stream.Valid, TakenUInt, Signed, DecodeSegment, DecodeSegmentAck, DecodeFeedback, DecodePad;
    b := None;
    if mid == SIM_PING || mid == SIM_PONG {
      var ts := strm.ReadUInt(8);
      b := Some(Ping(Signed(ts, 8)));
    } else if mid == SIM_SEG {
      var s := SegmentDecode(strm);
      b := Some(Seg(s));
    } else if mid == SIM_SEG_ACK {
      var ack := SegmentAckDecode(strm);
      b := Some(ack);
    } else if mid == SIM_FEEDBACK {
      var feedback := FeedbackDecode(strm);
      b := Some(feedback);
    } else if mid == SIM_PAD {
      var pad := PadDecode(strm);
      b := Some(pad);
    }
  }

  /** A datagram that arrives: checked, then decoded. */
  method ReceiveDatagram(d: seq<Byte>) returns (r: Option<(Header, Body)>)
    requires 4 <= |d| <= DEFAULT_PACKET_SIZE
    ensures r.Some? <==> Receive(d).Some?
    ensures r.Some? ==> r.value.0 == Receive(d).value.0 && r.value.1 == Receive(d).value.1
  {
    hide DecodeBody, DecodeHeader, ChecksOut;
    var strm := new Stream.Received(d);
    r := None;
    var h := DecodeHeaderFrom(strm);
    if h.Some? {
      var b := DecodeMsg(strm, h.value.mid);
      if b.Some? {
        r := Some((h.value, b.value));
      }
    }
  }
}
