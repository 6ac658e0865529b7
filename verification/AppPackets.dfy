/** The packets the test applications of quic-test/mybbr exchange: a flags byte, then a packet number
    in the fewest bytes that hold it (quic-test/myquic/my_quic_header.cc). */
module AppPackets {
  import opened AckFrames
  import opened Bytes
  import opened DataIo

  const MAX_PACKET_SIZE: nat := 1400

  const TYPE_STREAM: nat := 0
  const TYPE_PADDING: nat := 1
  const TYPE_ACK: nat := 2

  function FlagsByte(kind: nat, seqLen: nat): Byte
    requires kind < 16
  {
    PacketNumberFlags(seqLen) * 16 + kind
  }

  /** The header of a packet: a number too long for six bytes loses its high ones. */
  function PacketHeader(kind: nat, seqno: nat): seq<Byte>
    requires kind < 16
  {
    var n := MinPacketNumberLength(seqno);
    [FlagsByte(kind, n)] + Encode(seqno, n)
  }

  /** Kind and number as a receiver reads them; what is missing reads as 0. */
  function ParseHeader(data: seq<Byte>): (nat, nat) {
    var flags := if data == [] then 0 else data[0];
    var n := ReadPacketNumberLength(flags / 16 % 4);
    (flags % 16, if |data| < 1 + n then 0 else Decode(data[1..1 + n]))
  }

  lemma FlagsRead(kind: nat, seqLen: nat)
    requires kind < 16 && IsLength(seqLen)
    ensures FlagsByte(kind, seqLen) % 16 == kind
    ensures ReadPacketNumberLength(FlagsByte(kind, seqLen) / 16 % 4) == seqLen
  {
  }

  /** A header: the kind in the low half of the first byte, above it two bits for the width of the
      number, and the number. */
  lemma HeaderLayout(kind: nat, seqno: nat)
    requires kind < 16 && seqno < PACKET_NUMBER_LIMIT
    ensures var b := PacketHeader(kind, seqno);
            && |b| >= 2 && b[0] % 16 == kind && FieldAt(b, 1, |b| - 1, seqno)
            && b[0] / 16 == match |b| - 1 case 1 => 0 case 2 => 1 case 4 => 2 case _ => 3
  {
    hide Encode, Decode, Pow256, FieldAt;
    var n := MinPacketNumberLength(seqno);
    MinLengthFits(seqno);
    WrittenField([FlagsByte(kind, n)], seqno, n, []);
    assert PacketHeader(kind, seqno) == [FlagsByte(kind, n)] + Encode(seqno, n) + [];
  }

  /** A header reads back, whatever follows, exactly if its number is below 2^48. */
  lemma HeaderReadsBackIff(kind: nat, seqno: nat, rest: seq<Byte>)
    requires kind < 16
    ensures ParseHeader(PacketHeader(kind, seqno) + rest) == (kind, seqno) <==> seqno < PACKET_NUMBER_LIMIT
  {
    hide Encode, Decode, Pow256, MinPacketNumberLength, FlagsByte, ReadPacketNumberLength;
    var n := MinPacketNumberLength(seqno);
    var data := PacketHeader(kind, seqno) + rest;
    FlagsRead(kind, n);
    assert data[0] == FlagsByte(kind, n) && data[1..1 + n] == Encode(seqno, n);
    if seqno < PACKET_NUMBER_LIMIT {
      MinLengthFits(seqno);
      DecodeEncode(seqno, n);
    } else {
      DecodeBound(Encode(seqno, n));
      LongNumber(seqno);
    }
  }

  lemma LongNumber(seqno: nat)
    requires seqno >= PACKET_NUMBER_LIMIT
    ensures Pow256(MinPacketNumberLength(seqno)) <= seqno
  {
    SmallPowers();
  }

  /** What is missing reads as 0. */
  lemma ShortHeader(data: seq<Byte>)
    ensures data == [] ==> ParseHeader(data) == (TYPE_STREAM, 0)
    ensures |data| == 1 ==> ParseHeader(data) == (data[0] % 16, 0)
  {
  }

  method ReadHeader(data: seq<Byte>) returns (kind: nat, seqno: nat)
    ensures (kind, seqno) == ParseHeader(data)
  {
    hide Decode, ReadPacketNumberLength;
    var reader := new DataReader(data);
    var ok, bytes := reader.ReadBytes(1);
    var flags := if ok then bytes[0] else 0;
    kind := flags % 16;
    var seqLen := ReadPacketNumberLength(flags / 16 % 4);
    ok, bytes := reader.ReadBytes(seqLen);
    seqno := 0;
    if ok {
      seqno := Decode(bytes);
      assert data[1..][..seqLen] == data[1..1 + seqLen];
    }
  }

  method WriteHeader(kind: nat, seqno: nat, capacity: nat) returns (bytes: seq<Byte>)
    requires kind < 16 && capacity >= 7
    ensures bytes == PacketHeader(kind, seqno)
  {
    hide Encode;
    var seqLen := MinPacketNumberLength(seqno);
    var writer := new DataWriter(capacity);
    var _ := writer.WriteBytes([FlagsByte(kind, seqLen)]);
    var _ := writer.WriteUInt(seqLen, seqno);
    bytes := writer.buffer;
  }
}
