/** What the messages of mininet-webrtc/razor/sim_proto.inl look like on the wire, field by field. */
module MessageLayouts {
  import opened BinStream
  import opened Bytes
  import opened Numbers
  import opened SimProto

  /** A datagram: version, message id, user id, the body, and the checksum of all that. */
  lemma DatagramLayout(h: Header, b: Body)
    requires ValidHeader(h)
    ensures var d, n := Datagram(h, b), |EncodeBody(b)|;
            && |d| == 10 + n && d[0] == h.ver && d[1] == h.mid && FieldAt(d, 2, 4, h.uid)
            && d[6..6 + n] == EncodeBody(b) && FieldAt(d, 6 + n, 4, Crc(d[..6 + n]))
  {
    hide Encode, Decode, Pow256, FieldAt, EncodeBody, Crc;
    SmallPowers();
    var x, y, z, body := Encode(h.ver, 1), Encode(h.mid, 1), Encode(h.uid, 4), EncodeBody(b);
    OneByteField(h.ver);
    OneByteField(h.mid);
    var s := x + y + z + body;
    var c := Encode(Crc(s), 4);
    WrittenField(x + y, h.uid, 4, body + c);
    WrittenField(s, Crc(s), 4, []);
    assert s + c == x + y + z + (body + c) == s + c + [];
    assert (s + c)[..6 + |body|] == s;
  }

  lemma OneByteField(v: nat)
    requires v < 256
    ensures Encode(v, 1) == [v]
  {
  }

  /** The width of a field that is long only if its value needs it. */
  function Wide(wide: bool, long: nat, short: nat): nat {
    if wide then long else short
  }

  /** A segment: five facts in the first byte, then its fields, three of them long only if needed. */
  lemma SegmentLayout(s: Segment)
    requires ValidSegment(s)
    ensures var b := EncodeSegment(s);
            var p, f, t := Wide(s.packetId > 65535, 4, 2), Wide(s.fid > 65535, 4, 2), Wide(s.total > 255, 2, 1);
            && |b| == 12 + p + f + 2 * t + |s.data|
            && b[0] == Wide(s.packetId > 65535, 128, 0) + Wide(s.fid > 65535, 64, 0) + Wide(s.total > 255, 32, 0)
                       + Wide(s.remb == 0, 16, 0) + s.ftype % 2
            && b[1] == s.payloadType && FieldAt(b, 2, p, s.packetId) && FieldAt(b, 2 + p, f, s.fid)
            && FieldAt(b, 2 + p + f, 4, s.timestamp)
            && FieldAt(b, 6 + p + f, t, if t == 1 then s.index % 256 else s.index)
            && FieldAt(b, 6 + p + f + t, t, s.total)
            && FieldAt(b, 6 + p + f + 2 * t, 2, s.sendTs) && FieldAt(b, 8 + p + f + 2 * t, 2, s.transportSeq)
            && FieldAt(b, 10 + p + f + 2 * t, 2, |s.data|) && b[12 + p + f + 2 * t..] == s.data
  {
    hide FieldAt, EncodeSegmentHead, EncodePosition, EncodeSegmentTail, Wide;
    var x, y, z := EncodeSegmentHead(s), EncodePosition(s), EncodeSegmentTail(s);
    HeadFields(s, y + z);
    PositionFields(s, x, z);
    TailFields(s, x + y);
    assert x + y + z == x + (y + z);
  }

  lemma HeadFields(s: Segment, after: seq<Byte>)
    requires ValidSegment(s)
    ensures var b, p, f := EncodeSegmentHead(s) + after, Wide(s.packetId > 65535, 4, 2), Wide(s.fid > 65535, 4, 2);
            && |EncodeSegmentHead(s)| == 6 + p + f
            && b[0] == Wide(s.packetId > 65535, 128, 0) + Wide(s.fid > 65535, 64, 0) + Wide(s.total > 255, 32, 0)
                       + Wide(s.remb == 0, 16, 0) + s.ftype % 2
            && b[1] == s.payloadType && FieldAt(b, 2, p, s.packetId) && FieldAt(b, 2 + p, f, s.fid)
            && FieldAt(b, 2 + p + f, 4, s.timestamp)
  {
    hide Encode, Decode, Pow256, FieldAt, Mask;
    SmallPowers();
    MaskFits(s);
    OneByteField(Mask(s));
    OneByteField(s.payloadType);
    var m, y := Encode(Mask(s), 1), Encode(s.payloadType, 1);
    var p, f := Encode(s.packetId, IdWidth(s.packetId > U16_MAX)), Encode(s.fid, IdWidth(s.fid > U16_MAX));
    var ts := Encode(s.timestamp, 4);
    FiveParts(m, y, p, f, ts, after);
    WrittenField(m + y, s.packetId, |p|, f + ts + after);
    WrittenField(m + y + p, s.fid, |f|, ts + after);
    WrittenField(m + y + p + f, s.timestamp, 4, after);
  }

  lemma FiveParts(m: seq<Byte>, y: seq<Byte>, p: seq<Byte>, f: seq<Byte>, ts: seq<Byte>, after: seq<Byte>)
    ensures var b := m + y + p + f + ts + after;
            b == m + y + p + (f + ts + after) == m + y + p + f + (ts + after)
  {
  }

  lemma PositionFields(s: Segment, before: seq<Byte>, after: seq<Byte>)
    requires ValidSegment(s)
    ensures var b, t := before + EncodePosition(s) + after, Wide(s.total > 255, 2, 1);
            && |EncodePosition(s)| == 2 * t
            && FieldAt(b, |before|, t, if t == 1 then s.index % 256 else s.index)
            && FieldAt(b, |before| + t, t, s.total)
  {
    hide Encode, Decode, Pow256, FieldAt;
    SmallPowers();
    IndexField(s);
    var n := if s.total > U8_MAX then 2 else 1;
    var i, t := Encode(s.index, n), Encode(s.total, n);
    assert before + (i + t) + after == before + i + (t + after) == before + i + t + after;
    WrittenField(before, if n == 1 then s.index % 256 else s.index, n, t + after);
    WrittenField(before + i, s.total, n, after);
  }

  lemma TailFields(s: Segment, before: seq<Byte>)
    requires ValidSegment(s)
    ensures var b, n := before + EncodeSegmentTail(s), |before|;
            && |b| == n + 6 + |s.data| && FieldAt(b, n, 2, s.sendTs) && FieldAt(b, n + 2, 2, s.transportSeq)
            && FieldAt(b, n + 4, 2, |s.data|) && b[n + 6..] == s.data
  {
    hide Encode, Decode, Pow256, FieldAt;
    SmallPowers();
    var u, v, w, d := Encode(s.sendTs, 2), Encode(s.transportSeq, 2), Encode(|s.data|, 2), s.data;
    assert before + (u + v + w + d) == before + u + (v + w + d) == before + u + v + (w + d) == before + u + v + w + d;
    WrittenField(before, s.sendTs, 2, v + w + d);
    WrittenField(before + u, s.transportSeq, 2, w + d);
    WrittenField(before + u + v, |s.data|, 2, d);
  }

  lemma MaskFits(s: Segment)
    ensures Mask(s) == Wide(s.packetId > 65535, 128, 0) + Wide(s.fid > 65535, 64, 0) + Wide(s.total > 255, 32, 0)
                       + Wide(s.remb == 0, 16, 0) + s.ftype % 2 < 256
  {
  }

  lemma IndexField(s: Segment)
    ensures s.total <= U8_MAX ==> Encode(s.index, 1) == Encode(s.index % 256, 1)
  {
  }

  /** Feedback and padding: numbers, a 16-bit length and bytes. */
  lemma FeedbackLayout(base: nat, feedback: seq<Byte>)
    requires ValidBody(Feedback(base, feedback))
    ensures var b := EncodeFeedback(base, feedback);
            |b| == 6 + |feedback| && FieldAt(b, 0, 4, base) && FieldAt(b, 4, 2, |feedback|) && b[6..] == feedback
  {
    hide Encode, Decode, Pow256, FieldAt;
    SmallPowers();
    var x, y := Encode(base, 4), Encode(|feedback|, 2);
    WrittenField([], base, 4, y + feedback);
    WrittenField(x, |feedback|, 2, feedback);
    assert x + y + feedback == [] + x + (y + feedback);
  }

  lemma PadLayout(ts: nat, transportSeq: nat, padding: seq<Byte>)
    requires ValidBody(Pad(ts, transportSeq, padding))
    ensures var b := EncodePad(ts, transportSeq, padding);
            && |b| == 8 + |padding| && FieldAt(b, 0, 4, ts) && FieldAt(b, 4, 2, transportSeq)
            && FieldAt(b, 6, 2, |padding|) && b[8..] == padding
  {
    hide Encode, Decode, Pow256, FieldAt;
    SmallPowers();
    var x, y, z := Encode(ts, 4), Encode(transportSeq, 2), Encode(|padding|, 2);
    WrittenField([], ts, 4, y + z + padding);
    WrittenField(x, transportSeq, 2, z + padding);
    WrittenField(x + y, |padding|, 2, padding);
    assert x + y + z + padding == [] + x + (y + z + padding) == x + y + (z + padding);
  }

  /** An acknowledgement: two packet ids, and a counted list of 16-bit numbers. */
  lemma SegmentAckLayout(base: nat, acked: nat, nack: seq<nat>, j: nat)
    requires ValidBody(SegAck(base, acked, nack)) && j < |nack|
    ensures var b := EncodeSegmentAck(base, acked, nack);
            && |b| == 9 + 2 * |nack| && FieldAt(b, 0, 4, base) && FieldAt(b, 4, 4, acked) && b[8] == |nack|
            && FieldAt(b, 9 + 2 * j, 2, nack[j])
  {
    hide Encode, Decode, Pow256, EncodeWords;
    SmallPowers();
    var x, y, z, w := Encode(base, 4), Encode(acked, 4), Encode(|nack|, 1), EncodeWords(nack);
    OneByteField(|nack|);
    WrittenField([], base, 4, y + z + w);
    WrittenField(x, acked, 4, z + w);
    assert x + y + z + w == [] + x + (y + z + w) == x + y + (z + w);
    WordsLayout(nack, j);
    assert (x + y + z + w)[9 + 2 * j..9 + 2 * j + 2] == w[2 * j..2 * j + 2];
  }

  lemma {:induction false} WordsLayout(v: seq<nat>, j: nat)
    requires j < |v| && forall k :: 0 <= k < |v| ==> FitsU16(v[k])
    ensures |EncodeWords(v)| == 2 * |v| && Decode(EncodeWords(v)[2 * j..2 * j + 2]) == v[j]
  {
    hide Encode, Decode, Pow256;
    SmallPowers();
    DecodeEncode(v[0], 2);
    if |v| > 1 {
      WordsLayout(v[1..], if j > 0 then j - 1 else 0);
    }
    var w, rest := EncodeWords(v), EncodeWords(v[1..]);
    assert w == Encode(v[0], 2) + rest;
    if j > 0 {
      assert w[2 * j..2 * j + 2] == rest[2 * (j - 1)..2 * (j - 1) + 2];
    } else {
      assert w[..2] == Encode(v[0], 2);
    }
  }

  /** A list that is announced longer than 80 numbers is read up to there. */
  lemma LongListIsCut(base: nat, acked: nat, count: nat, rest: seq<Byte>)
    requires base < U32 && acked < U32 && count < 256
    ensures var r := DecodeSegmentAck(Encode(base, 4) + (Encode(acked, 4) + (Encode(count, 1) + rest)));
            && r.0.SegAck? && r.0.basePacketId == base && r.0.ackedPacketId == acked
            && |r.0.nack| == Min(count, 80) && r == (SegAck(base, acked, r.0.nack), DecodeWords(rest, Min(count, 80)).1)
  {
    hide Encode, TakenUInt, Pow256, DecodeWords;
    SmallPowers();
    NumberReadsBack(base, 4, Encode(acked, 4) + (Encode(count, 1) + rest));
    NumberReadsBack(acked, 4, Encode(count, 1) + rest);
    NumberReadsBack(count, 1, rest);
    ListLength(rest, Min(count, 80));
  }

  lemma {:induction false} ListLength(q: seq<Byte>, n: nat)
    ensures |DecodeWords(q, n).0| == n
    decreases n
  {
    hide TakenUInt;
    if n > 0 {
      ListLength(TakenUInt(q, 2).1, n - 1);
    }
  }
}
