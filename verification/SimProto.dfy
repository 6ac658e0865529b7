/** The messages of mininet-webrtc/razor/sim_proto.inl and sim_proto.c: a header, a body that is
    encoded compactly, and a CRC-32 over both. Only the bodies the video sender and receiver use are
    modelled. */
module SimProto {
  import opened BinStream
  import opened Bytes
  import opened Numbers
  import opened Wrappers
  import Crc32

  const SIM_PING: nat := 0x15
  const SIM_PONG: nat := 0x16
  const SIM_SEG: nat := 0x17
  const SIM_SEG_ACK: nat := 0x18
  const SIM_FEEDBACK: nat := 0x19
  const SIM_PAD: nat := 0x1b

  const SIM_VIDEO_SIZE: nat := 1000
  const SIM_FEEDBACK_SIZE: nat := 1000
  const PADDING_DATA_SIZE: nat := 500
  const NACK_NUM: nat := 80
  const CRC_VAL: bv32 := 0x0e3dfc0a
  const U16_MAX: nat := 65535
  const U8_MAX: nat := 255

  datatype Header = Header(ver: nat, mid: nat, uid: nat)

  datatype Segment = Segment(
    packetId: nat, fid: nat, timestamp: nat, index: nat, total: nat, ftype: nat, payloadType: nat,
    remb: nat, sendTs: nat, transportSeq: nat, data: seq<Byte>)

  datatype Body =
    | Ping(ts: int)
    | Seg(segment: Segment)
    | SegAck(basePacketId: nat, ackedPacketId: nat, nack: seq<nat>)
    | Feedback(base: nat, feedback: seq<Byte>)
    | Pad(sendTs: nat, transportSeq: nat, padding: seq<Byte>)

  // ---------------------------------------------------------------------------
  // Values that fit the fields of the structures
  // ---------------------------------------------------------------------------

  predicate FitsU8(v: nat) { v < 0x100 }
  predicate FitsU16(v: nat) { v < U16 }
  predicate FitsU32(v: nat) { v < U32 }

  predicate ValidHeader(h: Header) {
    FitsU8(h.ver) && FitsU8(h.mid) && FitsU32(h.uid)
  }

  predicate ValidSegment(s: Segment) {
    && FitsU32(s.packetId) && FitsU32(s.fid) && FitsU32(s.timestamp) && FitsU16(s.index) && FitsU16(s.total)
    && FitsU8(s.ftype) && FitsU8(s.payloadType) && FitsU8(s.remb) && FitsU16(s.sendTs) && FitsU16(s.transportSeq)
    && |s.data| <= SIM_VIDEO_SIZE
  }

  // ---------------------------------------------------------------------------
  // Segments: the first byte says which fields are short
  // ---------------------------------------------------------------------------

  function Mask(s: Segment): nat {
    s.ftype % 2 + (if s.packetId > U16_MAX then 128 else 0) + (if s.fid > U16_MAX then 64 else 0)
    + (if s.total > U8_MAX then 32 else 0) + (if s.remb == 0 then 16 else 0)
  }

  /** The bit of this weight is set. */
  predicate Set(mask: nat, weight: nat)
    requires weight > 0
  {
    mask / weight % 2 == 1
  }

  function IdWidth(wide: bool): nat {
    if wide then 4 else 2
  }

  function EncodeSegmentHead(s: Segment): seq<Byte> {
    Encode(Mask(s), 1) + Encode(s.payloadType, 1) + Encode(s.packetId, IdWidth(s.packetId > U16_MAX))
    + Encode(s.fid, IdWidth(s.fid > U16_MAX)) + Encode(s.timestamp, 4)
  }

  function EncodePosition(s: Segment): seq<Byte> {
    var n := if s.total > U8_MAX then 2 else 1;
    Encode(s.index, n) + Encode(s.total, n)
  }

  function EncodeSegmentTail(s: Segment): seq<Byte> {
    Encode(s.sendTs, 2) + Encode(s.transportSeq, 2) + Encode(|s.data|, 2) + s.data
  }

  function EncodeSegment(s: Segment): seq<Byte> {
    EncodeSegmentHead(s) + EncodePosition(s) + EncodeSegmentTail(s)
  }

  /** The fields of the head, and the bytes after it. */
  datatype SegmentHead =
    SegmentHead(mask: nat, payloadType: nat, packetId: nat, fid: nat, timestamp: nat, rest: seq<Byte>)

  function DecodeSegmentHead(q: seq<Byte>): SegmentHead {
    var (mask, q1) := TakenUInt(q, 1);
    var (payloadType, q2) := TakenUInt(q1, 1);
    var (packetId, q3) := TakenUInt(q2, IdWidth(Set(mask, 128)));
    var (fid, q4) := TakenUInt(q3, IdWidth(Set(mask, 64)));
    var (timestamp, q5) := TakenUInt(q4, 4);
    SegmentHead(mask, payloadType, packetId, fid, timestamp, q5)
  }

  function DecodePosition(q: seq<Byte>, mask: nat): (nat, nat, seq<Byte>) {
    var n := if Set(mask, 32) then 2 else 1;
    var (index, q1) := TakenUInt(q, n);
    var (total, q2) := TakenUInt(q1, n);
    (index, total, q2)
  }

  datatype SegmentTail = SegmentTail(sendTs: nat, transportSeq: nat, data: seq<Byte>, rest: seq<Byte>)

  function DecodeSegmentTail(q: seq<Byte>): SegmentTail {
    var (sendTs, q1) := TakenUInt(q, 2);
    var (transportSeq, q2) := TakenUInt(q1, 2);
    var d := TakenData(q2, SIM_VIDEO_SIZE);
    SegmentTail(sendTs, transportSeq, d.bytes, d.rest)
  }

  /** The segment read, and the bytes left. */
  function DecodeSegment(q: seq<Byte>): (Segment, seq<Byte>) {
    var h := DecodeSegmentHead(q);
    var (index, total, q1) := DecodePosition(h.rest, h.mask);
    var t := DecodeSegmentTail(q1);
    (Segment(h.packetId, h.fid, h.timestamp, index, total, h.mask % 2, h.payloadType,
             if Set(h.mask, 16) then 0 else 0xff, t.sendTs, t.transportSeq, t.data),
     t.rest)
  }

  /** What survives: one bit of the frame type, whether there is remb, and the low byte of the index
      of a frame of at most 255 segments. */
  function Carried(s: Segment): Segment {
    s.(ftype := s.ftype % 2, remb := if s.remb == 0 then 0 else 0xff,
       index := if s.total > U8_MAX then s.index else s.index % 256)
  }

  lemma MaskBits(s: Segment)
    ensures var m := Mask(s);
            && FitsU8(m) && m % 2 == s.ftype % 2
            && (Set(m, 128) <==> s.packetId > U16_MAX) && (Set(m, 64) <==> s.fid > U16_MAX)
            && (Set(m, 32) <==> s.total > U8_MAX) && (Set(m, 16) <==> s.remb == 0)
  {
    MaskDigits(if s.packetId > U16_MAX then 1 else 0, if s.fid > U16_MAX then 1 else 0,
               if s.total > U8_MAX then 1 else 0, if s.remb == 0 then 1 else 0, s.ftype % 2);
  }

  lemma MaskDigits(a: nat, b: nat, c: nat, d: nat, bit: nat)
    requires a <= 1 && b <= 1 && c <= 1 && d <= 1 && bit <= 1
    ensures var m := bit + 128 * a + 64 * b + 32 * c + 16 * d;
            m / 128 % 2 == a && m / 64 % 2 == b && m / 32 % 2 == c && m / 16 % 2 == d && m % 2 == bit && m < 256
  {
    var m := bit + 128 * a + 64 * b + 32 * c + 16 * d;
    assert m / 16 == 8 * a + 4 * b + 2 * c + d && m / 32 == 4 * a + 2 * b + c && m / 64 == 2 * a + b && m / 128 == a;
  }

  lemma Split5(a: seq<Byte>, b: seq<Byte>, c: seq<Byte>, d: seq<Byte>, e: seq<Byte>, rest: seq<Byte>)
    ensures a + b + c + d + e + rest == a + (b + (c + (d + (e + rest))))
  {
  }

  lemma Split4(a: seq<Byte>, b: seq<Byte>, c: seq<Byte>, d: seq<Byte>, rest: seq<Byte>)
    ensures a + b + c + d + rest == a + (b + (c + d + rest))
  {
  }

  lemma Split3(a: seq<Byte>, b: seq<Byte>, c: seq<Byte>, rest: seq<Byte>)
    ensures a + b + c + rest == a + (b + (c + rest))
  {
  }

  lemma HeadReadsBack(s: Segment, rest: seq<Byte>)
    requires ValidSegment(s)
    ensures DecodeSegmentHead(EncodeSegmentHead(s) + rest) ==
            SegmentHead(Mask(s), s.payloadType, s.packetId, s.fid, s.timestamp, rest)
  {
    hide Encode, TakenUInt, Mask, Set, Pow256;
    MaskBits(s);
    SmallPowers();
    var wide, wideF := IdWidth(s.packetId > U16_MAX), IdWidth(s.fid > U16_MAX);
    var e, d, c := Encode(s.timestamp, 4), Encode(s.fid, wideF), Encode(s.packetId, wide);
    var b, a := Encode(s.payloadType, 1), Encode(Mask(s), 1);
    Split5(a, b, c, d, e, rest);
    NumberReadsBack(Mask(s), 1, b + (c + (d + (e + rest))));
    NumberReadsBack(s.payloadType, 1, c + (d + (e + rest)));
    NumberReadsBack(s.packetId, wide, d + (e + rest));
    NumberReadsBack(s.fid, wideF, e + rest);
    NumberReadsBack(s.timestamp, 4, rest);
  }

  lemma LowByte(v: nat)
    ensures Encode(v, 1) == Encode(v % 256, 1)
  {
    assert Encode(v, 1) == Encode(v / 256, 0) + [v % 256];
  }

  lemma PositionReadsBack(s: Segment, rest: seq<Byte>)
    requires ValidSegment(s)
    ensures DecodePosition(EncodePosition(s) + rest, Mask(s)) == (Carried(s).index, s.total, rest)
  {
    hide Encode, TakenUInt, Mask, Set, Pow256;
    MaskBits(s);
    SmallPowers();
    var n := if s.total > U8_MAX then 2 else 1;
    LowByte(s.index);
    assert EncodePosition(s) + rest == Encode(s.index, n) + (Encode(s.total, n) + rest);
    NumberReadsBack(Carried(s).index, n, Encode(s.total, n) + rest);
    NumberReadsBack(s.total, n, rest);
  }

  lemma TailReadsBack(s: Segment, rest: seq<Byte>)
    requires ValidSegment(s)
    ensures DecodeSegmentTail(EncodeSegmentTail(s) + rest) == SegmentTail(s.sendTs, s.transportSeq, s.data, rest)
  {
    hide Encode, TakenUInt, TakenData, Pow256;
    SmallPowers();
    var a, b := Encode(s.sendTs, 2), Encode(s.transportSeq, 2);
    var d := Encode(|s.data|, 2) + s.data + rest;
    Split4(a, b, Encode(|s.data|, 2), s.data, rest);
    NumberReadsBack(s.sendTs, 2, b + d);
    NumberReadsBack(s.transportSeq, 2, d);
    DataReadsBack(s.data, SIM_VIDEO_SIZE, rest);
  }

  /** A segment reads back, up to what is not carried, whatever follows it. */
  lemma SegmentReadsBack(s: Segment, rest: seq<Byte>)
    requires ValidSegment(s)
    ensures DecodeSegment(EncodeSegment(s) + rest) == (Carried(s), rest)
  {
    hide EncodeSegmentHead, EncodePosition, EncodeSegmentTail, Mask, Set;
    hide DecodeSegmentHead, DecodePosition, DecodeSegmentTail;
    var a, b, c := EncodeSegmentHead(s), EncodePosition(s), EncodeSegmentTail(s);
    MaskBits(s);
    Split3(a, b, c, rest);
    HeadReadsBack(s, b + (c + rest));
    PositionReadsBack(s, c + rest);
    TailReadsBack(s, rest);
  }

  /** Nothing is lost exactly if the frame type is a bit, remb is 0 or 255, and an index above 255
      goes with a total above 255. */
  lemma SegmentExactIff(s: Segment, rest: seq<Byte>)
    requires ValidSegment(s)
    ensures DecodeSegment(EncodeSegment(s) + rest) == (s, rest) <==>
            s.ftype <= 1 && (s.remb == 0 || s.remb == 0xff) && (s.total > U8_MAX || s.index <= U8_MAX)
  {
    hide DecodeSegment, EncodeSegment;
    SegmentReadsBack(s, rest);
  }

  /** A segment that loses its index: 256 of a total of 2 arrives as 0. */
  lemma SegmentExample(rest: seq<Byte>)
    ensures var s := Segment(1, 1, 0, 256, 2, 0, 0, 0, 0, 1, [7]);
            ValidSegment(s) && DecodeSegment(EncodeSegment(s) + rest) == (s.(index := 0), rest)
  {
    hide DecodeSegment, EncodeSegment;
    SegmentReadsBack(Segment(1, 1, 0, 256, 2, 0, 0, 0, 0, 1, [7]), rest);
  }

  // ---------------------------------------------------------------------------
  // The other bodies
  // ---------------------------------------------------------------------------

  function EncodeWords(v: seq<nat>): seq<Byte> {
    if v == [] then [] else Encode(v[0], 2) + EncodeWords(v[1..])
  }

  function DecodeWords(q: seq<Byte>, n: nat): (seq<nat>, seq<Byte>) {
    if n == 0 then ([], q) else
    var (v, q1) := TakenUInt(q, 2);
    var (more, q2) := DecodeWords(q1, n - 1);
    ([v] + more, q2)
  }

  function EncodeSegmentAck(base: nat, acked: nat, nack: seq<nat>): seq<Byte> {
    Encode(base, 4) + Encode(acked, 4) + Encode(|nack|, 1) + EncodeWords(nack)
  }

  /** At most 80 numbers are read: the rest stays. */
  function DecodeSegmentAck(q: seq<Byte>): (Body, seq<Byte>) {
    var (base, q1) := TakenUInt(q, 4);
    var (acked, q2) := TakenUInt(q1, 4);
    var (count, q3) := TakenUInt(q2, 1);
    var (nack, q4) := DecodeWords(q3, if count < NACK_NUM then count else NACK_NUM);
    (SegAck(base, acked, nack), q4)
  }

  function EncodeFeedback(base: nat, feedback: seq<Byte>): seq<Byte> {
    Encode(base, 4) + Encode(|feedback|, 2) + feedback
  }

  function DecodeFeedback(q: seq<Byte>): (Body, seq<Byte>) {
    var (base, q1) := TakenUInt(q, 4);
    var d := TakenData(q1, SIM_FEEDBACK_SIZE);
    (Feedback(base, d.bytes), d.rest)
  }

  function EncodePad(sendTs: nat, transportSeq: nat, padding: seq<Byte>): seq<Byte> {
    Encode(sendTs, 4) + Encode(transportSeq, 2) + Encode(|padding|, 2) + padding
  }

  function DecodePad(q: seq<Byte>): (Body, seq<Byte>) {
    var (sendTs, q1) := TakenUInt(q, 4);
    var (transportSeq, q2) := TakenUInt(q1, 2);
    var d := TakenData(q2, PADDING_DATA_SIZE);
    (Pad(sendTs, transportSeq, d.bytes), d.rest)
  }

  function EncodePing(ts: int): seq<Byte> {
    Encode(Unsigned(ts, 8), 8)
  }

  function DecodePing(q: seq<Byte>): (Body, seq<Byte>) {
    var (v, q1) := TakenUInt(q, 8);
    (Ping(Signed(v, 8)), q1)
  }

  predicate ValidBody(b: Body) {
    match b
    case Ping(ts) => 0 <= 2 * ts + 0x1_0000_0000_0000_0000 && 2 * ts < 0x1_0000_0000_0000_0000
    case Seg(s) => ValidSegment(s)
    case SegAck(base, acked, nack) =>
      FitsU32(base) && FitsU32(acked) && |nack| <= NACK_NUM && forall k :: 0 <= k < |nack| ==> FitsU16(nack[k])
    case Feedback(base, feedback) => FitsU32(base) && |feedback| <= SIM_FEEDBACK_SIZE
    case Pad(ts, transportSeq, padding) => FitsU32(ts) && FitsU16(transportSeq) && |padding| <= PADDING_DATA_SIZE
  }

  predicate Fits(b: Body, mid: nat) {
    match b
    case Ping(_) => mid == SIM_PING || mid == SIM_PONG
    case Seg(_) => mid == SIM_SEG
    case SegAck(_, _, _) => mid == SIM_SEG_ACK
    case Feedback(_, _) => mid == SIM_FEEDBACK
    case Pad(_, _, _) => mid == SIM_PAD
  }

  function EncodeBody(b: Body): seq<Byte> {
    match b
    case Ping(ts) => EncodePing(ts)
    case Seg(s) => EncodeSegment(s)
    case SegAck(base, acked, nack) => EncodeSegmentAck(base, acked, nack)
    case Feedback(base, feedback) => EncodeFeedback(base, feedback)
    case Pad(ts, transportSeq, padding) => EncodePad(ts, transportSeq, padding)
  }

  /** `sim_decode_msg`: nothing for a message id that is not modelled. */
  function DecodeBody(q: seq<Byte>, mid: nat): Option<(Body, seq<Byte>)> {
    if mid == SIM_PING || mid == SIM_PONG then Some(DecodePing(q))
    else if mid == SIM_SEG then var (s, rest) := DecodeSegment(q); Some((Seg(s), rest))
    else if mid == SIM_SEG_ACK then Some(DecodeSegmentAck(q))
    else if mid == SIM_FEEDBACK then Some(DecodeFeedback(q))
    else if mid == SIM_PAD then Some(DecodePad(q))
    else None
  }

  function CarriedBody(b: Body): Body {
    if b.Seg? then Seg(Carried(b.segment)) else b
  }

  lemma {:induction false} WordsReadBack(v: seq<nat>, rest: seq<Byte>)
    requires forall k :: 0 <= k < |v| ==> FitsU16(v[k])
    ensures DecodeWords(EncodeWords(v) + rest, |v|) == (v, rest)
  {
    hide Encode, TakenUInt, Pow256;
    if v == [] {
      assert EncodeWords(v) + rest == rest;
    } else {
      SmallPowers();
      assert EncodeWords(v) + rest == Encode(v[0], 2) + (EncodeWords(v[1..]) + rest);
      NumberReadsBack(v[0], 2, EncodeWords(v[1..]) + rest);
      WordsReadBack(v[1..], rest);
      assert [v[0]] + v[1..] == v;
    }
  }

  lemma SegmentAckReadsBack(base: nat, acked: nat, nack: seq<nat>, rest: seq<Byte>)
    requires ValidBody(SegAck(base, acked, nack))
    ensures DecodeSegmentAck(EncodeSegmentAck(base, acked, nack) + rest) == (SegAck(base, acked, nack), rest)
  {
    hide Encode, TakenUInt, EncodeWords, DecodeWords, Pow256;
    SmallPowers();
    var a, b, c, d := Encode(base, 4), Encode(acked, 4), Encode(|nack|, 1), EncodeWords(nack);
    Split4(a, b, c, d, rest);
    assert c + d + rest == c + (d + rest);
    NumberReadsBack(base, 4, b + (c + d + rest));
    NumberReadsBack(acked, 4, c + d + rest);
    NumberReadsBack(|nack|, 1, d + rest);
    WordsReadBack(nack, rest);
  }

  lemma FeedbackReadsBack(base: nat, feedback: seq<Byte>, rest: seq<Byte>)
    requires ValidBody(Feedback(base, feedback))
    ensures DecodeFeedback(EncodeFeedback(base, feedback) + rest) == (Feedback(base, feedback), rest)
  {
    hide Encode, TakenUInt, TakenData, Pow256;
    SmallPowers();
    var a, b := Encode(base, 4), Encode(|feedback|, 2);
    assert a + b + feedback + rest == a + (b + feedback + rest);
    NumberReadsBack(base, 4, b + feedback + rest);
    DataReadsBack(feedback, SIM_FEEDBACK_SIZE, rest);
  }

  lemma PadReadsBack(sendTs: nat, transportSeq: nat, padding: seq<Byte>, rest: seq<Byte>)
    requires ValidBody(Pad(sendTs, transportSeq, padding))
    ensures DecodePad(EncodePad(sendTs, transportSeq, padding) + rest) == (Pad(sendTs, transportSeq, padding), rest)
  {
    hide Encode, TakenUInt, TakenData, Pow256;
    SmallPowers();
    var a, b, c := Encode(sendTs, 4), Encode(transportSeq, 2), Encode(|padding|, 2);
    Split4(a, b, c, padding, rest);
    NumberReadsBack(sendTs, 4, b + (c + padding + rest));
    NumberReadsBack(transportSeq, 2, c + padding + rest);
    DataReadsBack(padding, PADDING_DATA_SIZE, rest);
  }

  lemma PingReadsBack(ts: int, rest: seq<Byte>)
    requires ValidBody(Ping(ts))
    ensures DecodePing(EncodePing(ts) + rest) == (Ping(ts), rest)
  {
    hide Encode, TakenUInt, Pow256, Signed, Unsigned;
    SmallPowers();
    SignedUnsigned(ts, 8);
    NumberReadsBack(Unsigned(ts, 8), 8, rest);
  }

  lemma BodyReadsBack(b: Body, mid: nat, rest: seq<Byte>)
    requires ValidBody(b) && Fits(b, mid)
    ensures DecodeBody(EncodeBody(b) + rest, mid) == Some((CarriedBody(b), rest))
  {
    hide EncodeSegment, DecodeSegment, EncodeSegmentAck, DecodeSegmentAck, EncodeFeedback, DecodeFeedback;
    hide EncodePad, DecodePad, EncodePing, DecodePing, Carried;
    match b
    case Ping(ts) => PingReadsBack(ts, rest);
    case Seg(s) => SegmentReadsBack(s, rest);
    case SegAck(base, acked, nack) => SegmentAckReadsBack(base, acked, nack, rest);
    case Feedback(base, feedback) => FeedbackReadsBack(base, feedback, rest);
    case Pad(ts, transportSeq, padding) => PadReadsBack(ts, transportSeq, padding, rest);
  }

  // ---------------------------------------------------------------------------
  // The checksum over bytes
  // ---------------------------------------------------------------------------

  /** The byte as a bit vector. */
  function Word(b: Byte): (w: bv8)
    ensures w as int == b
  {
    if b == 0 then 0 else
    var w := Word(b - 1);
    Successor(w);
    w + 1
  }

  lemma Successor(w: bv8)
    requires w as int < 255
    ensures (w + 1) as int == w as int + 1
  {
  }

  function Words(s: seq<Byte>): (r: seq<bv8>)
    ensures |r| == |s| && forall i :: 0 <= i < |s| ==> r[i] == Word(s[i])
  {
    if s == [] then [] else [Word(s[0])] + Words(s[1..])
  }

  function Value(c: bv32): (n: nat)
    ensures FitsU32(n)
  {
    c as int
  }

  lemma ValueInjective(a: bv32, b: bv32)
    requires Value(a) == Value(b)
    ensures a == b
  {
    assert (a as int) as bv32 == a;
    assert (b as int) as bv32 == b;
  }

  /** The checksum of a message. */
  function Crc(s: seq<Byte>): (n: nat)
    ensures FitsU32(n)
  {
    Value(Crc32.Checksum(CRC_VAL, Words(s)))
  }

  /** Messages of one length that differ in four consecutive bytes or fewer have different checksums. */
  lemma CrcDetects(a: seq<Byte>, b: seq<Byte>, i: nat)
    requires |a| == |b| && a != b
    requires forall k :: 0 <= k < |a| && !(i <= k < i + 4) ==> a[k] == b[k]
    ensures Crc(a) != Crc(b)
  {
    hide Word, Crc32.Checksum, Value;
    var k :| 0 <= k < |a| && a[k] != b[k];
    assert Word(a[k]) as int != Word(b[k]) as int;
    assert Words(a)[k] != Words(b)[k];
    Crc32.FourBytesDetected(CRC_VAL, Words(a), Words(b), i);
    if Crc(a) == Crc(b) {
      ValueInjective(Crc32.Checksum(CRC_VAL, Words(a)), Crc32.Checksum(CRC_VAL, Words(b)));
    }
  }

  // ---------------------------------------------------------------------------
  // Datagrams
  // ---------------------------------------------------------------------------

  function EncodeHeader(h: Header): seq<Byte> {
    Encode(h.ver, 1) + Encode(h.mid, 1) + Encode(h.uid, 4)
  }

  function DecodeHeader(q: seq<Byte>): (Header, seq<Byte>) {
    var (ver, q1) := TakenUInt(q, 1);
    var (mid, q2) := TakenUInt(q1, 1);
    var (uid, q3) := TakenUInt(q2, 4);
    (Header(ver, mid, uid), q3)
  }

  /** `sim_encode_msg`. */
  function Datagram(h: Header, b: Body): seq<Byte> {
    var s := EncodeHeader(h) + EncodeBody(b);
    s + Encode(Crc(s), 4)
  }

  /** The last four bytes are the checksum of the others. */
  predicate ChecksOut(d: seq<Byte>) {
    |d| >= 4 && Decode(d[|d| - 4..]) == Crc(d[..|d| - 4])
  }

  /** `sim_decode_header` and `sim_decode_msg` on a datagram: what the message says and what is left
      of the stream. */
  function Receive(d: seq<Byte>): Option<(Header, Body, seq<Byte>)> {
    if !ChecksOut(d) then None else
    var (h, q) := DecodeHeader(d);
    match DecodeBody(q, h.mid)
    case None => None
    case Some(r) => Some((h, r.0, r.1))
  }

  lemma HeaderReadsBack(h: Header, rest: seq<Byte>)
    requires ValidHeader(h)
    ensures DecodeHeader(EncodeHeader(h) + rest) == (h, rest)
  {
    hide Encode, TakenUInt, Pow256;
    SmallPowers();
    var a, b, c := Encode(h.ver, 1), Encode(h.mid, 1), Encode(h.uid, 4);
    Split3(a, b, c, rest);
    NumberReadsBack(h.ver, 1, b + (c + rest));
    NumberReadsBack(h.mid, 1, c + rest);
    NumberReadsBack(h.uid, 4, rest);
  }

  lemma DatagramChecksOut(h: Header, b: Body)
    ensures ChecksOut(Datagram(h, b))
  {
    hide Encode, Decode, EncodeHeader, EncodeBody, Crc, Pow256;
    var s := EncodeHeader(h) + EncodeBody(b);
    var d, n := Datagram(h, b), |s|;
    SmallPowers();
    DecodeEncode(Crc(s), 4);
    assert d[|d| - 4..] == Encode(Crc(s), 4) && d[..|d| - 4] == s;
  }

  /** A message sent whole is received: same header, and the body up to what is not carried. The
      four bytes of the checksum stay behind. */
  lemma MessageReadsBack(h: Header, b: Body)
    requires ValidHeader(h) && ValidBody(b) && Fits(b, h.mid)
    ensures var crc := Encode(Crc(EncodeHeader(h) + EncodeBody(b)), 4);
            Receive(Datagram(h, b)) == Some((h, CarriedBody(b), crc))
  {
    hide Encode, Decode, EncodeHeader, DecodeHeader, EncodeBody, DecodeBody, ChecksOut, Crc;
    var s, t := EncodeHeader(h), EncodeBody(b);
    var crc := Encode(Crc(s + t), 4);
    DatagramChecksOut(h, b);
    assert Datagram(h, b) == s + (t + crc);
    HeaderReadsBack(h, t + crc);
    BodyReadsBack(b, h.mid, crc);
  }
}
