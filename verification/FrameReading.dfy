/** Reading the frames of version 43. */
module FrameReading {
  import opened Bytes
  import opened DataIo
  import opened Numbers
  import opened Visitor
  import opened AckReading
  import opened Frames

  const FAILED: Parsed := Parsed(false, [], [])

  function Clamp(code: nat, limit: nat): nat {
    if code >= limit then limit else code
  }

  /** How many zero bytes `s` starts with. */
  function LeadingZeros(s: seq<Byte>): (n: nat)
    ensures n <= |s|
    ensures n < |s| ==> s[n] != 0
    ensures forall i :: 0 <= i < n ==> s[i] == 0
  {
    if s == [] || s[0] != 0 then 0 else 1 + LeadingZeros(s[1..])
  }

  // ---------------------------------------------------------------------------
  // One function per frame, from the byte after the type byte
  // ---------------------------------------------------------------------------

  function ParsePadding(s: seq<Byte>): Parsed {
    Parsed(true, [OnPaddingFrame(1 + LeadingZeros(s))], s[LeadingZeros(s)..])
  }

  /** The data of a stream frame: a 16-bit length and that many bytes, or all that is left. The
      length reported is cut to 16 bits. */
  function ParseStreamData(s: seq<Byte>, hasLength: bool, id: nat, fin: bool, offset: nat): Parsed {
    if !hasLength then Parsed(true, [OnStreamFrame(id, fin, offset, s[..|s| % U16])], [])
    else if |s| < 2 || |s[2..]| < Decode(s[..2]) then FAILED
    else
      var n := Decode(s[..2]);
      DecodeBound(s[..2]);
      SmallPowers();
      Parsed(true, [OnStreamFrame(id, fin, offset, s[2..][..n])], s[2..][n..])
  }

  function ParseStream(frameType: Byte, s: seq<Byte>): Parsed {
    var idSize := frameType % 4 + 1;
    var offsetBits := (frameType / 4) % 8;
    var offsetSize := if offsetBits > 0 then offsetBits + 1 else 0;
    var hasLength, fin := (frameType / 32) % 2 == 1, (frameType / 64) % 2 == 1;
    if |s| < idSize || |s[idSize..]| < offsetSize then FAILED else
    ParseStreamData(s[idSize..][offsetSize..], hasLength,
                    Decode(s[..idSize]), fin, Decode(s[idSize..][..offsetSize]))
  }

  function ParseRstStream(s: seq<Byte>): Parsed {
    if |s| < 16 then FAILED else
    Parsed(true, [OnRstStreamFrame(Decode(s[..4]), Clamp(Decode(s[4..][8..][..4]), QUIC_STREAM_LAST_ERROR),
                                   Decode(s[4..][..8]))],
           s[4..][8..][4..])
  }

  function ParseConnectionClose(s: seq<Byte>): Parsed {
    if |s| < 6 || |s[4..][2..]| < Decode(s[4..][..2]) then FAILED else
    var n := Decode(s[4..][..2]);
    Parsed(true, [OnConnectionCloseFrame(Clamp(Decode(s[..4]), QUIC_LAST_ERROR), s[4..][2..][..n])],
           s[4..][2..][n..])
  }

  function ParseGoAway(s: seq<Byte>): Parsed {
    if |s| < 10 || |s[4..][4..][2..]| < Decode(s[4..][4..][..2]) then FAILED else
    var n := Decode(s[4..][4..][..2]);
    Parsed(true, [OnGoAwayFrame(Clamp(Decode(s[..4]), QUIC_LAST_ERROR), Decode(s[4..][..4]),
                                s[4..][4..][2..][..n])],
           s[4..][4..][2..][n..])
  }

  function ParseWindowUpdate(s: seq<Byte>): Parsed {
    if |s| < 12 then FAILED else
    Parsed(true, [OnWindowUpdateFrame(Decode(s[..4]), Decode(s[4..][..8]))], s[4..][8..])
  }

  function ParseBlocked(s: seq<Byte>): Parsed {
    if |s| < 4 then FAILED else Parsed(true, [OnBlockedFrame(Decode(s[..4]))], s[4..])
  }

  function ParseStopWaiting(h: Header, s: seq<Byte>): Parsed {
    var n := h.packetNumberLength;
    if |s| < n || h.packetNumber < Decode(s[..n]) then FAILED else
    Parsed(true, [OnStopWaitingFrame(h.packetNumber - Decode(s[..n]))], s[n..])
  }

  /** The error raised when the frame of this type cannot be read. */
  function FrameError(frameType: Byte): QuicError {
    if frameType >= 0x80 then InvalidStreamData
    else if frameType >= 0x40 then InvalidAckData
    else if frameType == RST_STREAM_FRAME then InvalidRstStreamData
    else if frameType == CONNECTION_CLOSE_FRAME then InvalidConnectionCloseData
    else if frameType == GOAWAY_FRAME then InvalidGoAwayData
    else if frameType == WINDOW_UPDATE_FRAME then InvalidWindowUpdateData
    else if frameType == BLOCKED_FRAME then InvalidBlockedData
    else if frameType == STOP_WAITING_FRAME then InvalidStopWaitingData
    else InvalidFrameData
  }

  /** One turn of `ProcessFrameData`, after the type byte. */
  function ParseFrame(h: Header, frameType: Byte, s: seq<Byte>): Parsed {
    if frameType >= 0x80 then ParseStream(frameType, s)
    else if frameType >= 0x40 then ParseAck(frameType, s)
    else if frameType == PADDING_FRAME then ParsePadding(s)
    else if frameType == RST_STREAM_FRAME then ParseRstStream(s)
    else if frameType == CONNECTION_CLOSE_FRAME then ParseConnectionClose(s)
    else if frameType == GOAWAY_FRAME then ParseGoAway(s)
    else if frameType == WINDOW_UPDATE_FRAME then ParseWindowUpdate(s)
    else if frameType == BLOCKED_FRAME then ParseBlocked(s)
    else if frameType == STOP_WAITING_FRAME then ParseStopWaiting(h, s)
    else if frameType == PING_FRAME then Parsed(true, [OnPingFrame], s)
    else FAILED
  }

  // ---------------------------------------------------------------------------
  // The methods of the source
  // ---------------------------------------------------------------------------

  /** `ReadStringPiece16`. */
  method ReadString16(reader: DataReader) returns (ok: bool, bytes: seq<Byte>)
    requires reader.Valid()
    modifies reader`pos
    ensures reader.Valid()
    ensures var s := old(reader.Rest());
            ok <==> |s| >= 2 && |s[2..]| >= Decode(s[..2])
    ensures ok ==> bytes == old(reader.Rest())[2..][..Decode(old(reader.Rest())[..2])]
    ensures ok ==> reader.Rest() == old(reader.Rest())[2..][Decode(old(reader.Rest())[..2])..]
  {
    var n;
    bytes := [];
    ok, n := reader.ReadUInt(2);
    if ok {
      ok, bytes := reader.ReadBytes(n);
    }
  }

  method ProcessPaddingFrame(reader: DataReader, visitor: EventLog)
    requires reader.Valid()
    modifies reader`pos, visitor
    ensures reader.Valid()
    ensures visitor.log == old(visitor.log) + ParsePadding(old(reader.Rest())).log
    ensures reader.Rest() == ParsePadding(old(reader.Rest())).rest
  {
    ghost var s := reader.Rest();
    var numPaddingBytes := 1;
    while reader.pos < |reader.data| && reader.data[reader.pos] == 0
      invariant reader.Valid() && visitor.log == old(visitor.log)
      invariant 1 <= numPaddingBytes <= 1 + LeadingZeros(s)
      invariant numPaddingBytes - 1 <= |s| && reader.Rest() == s[numPaddingBytes - 1..]
      decreases |reader.data| - reader.pos
    {
      assert reader.Rest()[0] == 0 == s[numPaddingBytes - 1];
      var ok, next := reader.ReadBytes(1);
      numPaddingBytes := numPaddingBytes + 1;
    }
    assert numPaddingBytes - 1 < |s| ==> s[numPaddingBytes - 1] == reader.Rest()[0] != 0;
    assert numPaddingBytes - 1 == LeadingZeros(s);
    visitor.Notify(OnPaddingFrame(numPaddingBytes));
  }

  method ProcessStreamFrame(reader: DataReader, visitor: EventLog, frameType: Byte) returns (ok: bool)
    requires reader.Valid()
    modifies reader`pos, visitor
    ensures reader.Valid()
    ensures ok == ParseStream(frameType, old(reader.Rest())).ok
    ensures visitor.log == old(visitor.log) + ParseStream(frameType, old(reader.Rest())).log
    ensures ok ==> reader.Rest() == ParseStream(frameType, old(reader.Rest())).rest
  {
    var idSize := frameType % 4 + 1;
    var offsetBits := (frameType / 4) % 8;
    var offsetSize := if offsetBits > 0 then offsetBits + 1 else 0;
    var hasLength, fin := (frameType / 32) % 2 == 1, (frameType / 64) % 2 == 1;
    var id, offset := 0, 0;
    ok, id := reader.ReadUInt(idSize);
    if ok {
      ok, offset := reader.ReadUInt(offsetSize);
    }
    if ok {
      ok := ProcessStreamData(reader, visitor, hasLength, id, fin, offset);
    }
  }

  method ProcessStreamData(reader: DataReader, visitor: EventLog, hasLength: bool, id: nat, fin: bool, offset: nat)
    returns (ok: bool)
    requires reader.Valid()
    modifies reader`pos, visitor
    ensures reader.Valid()
    ensures ok == ParseStreamData(old(reader.Rest()), hasLength, id, fin, offset).ok
    ensures visitor.log == old(visitor.log) + ParseStreamData(old(reader.Rest()), hasLength, id, fin, offset).log
    ensures ok ==> reader.Rest() == ParseStreamData(old(reader.Rest()), hasLength, id, fin, offset).rest
  {
    var data;
    ghost var s := reader.Rest();
    if hasLength {
      ok, data := ReadString16(reader);
      if ok {
        DecodeBound(s[..2]);
        SmallPowers();
        assert data[..|data| % U16] == data;
      }
    } else {
      ok, data := reader.ReadBytes(|reader.data| - reader.pos);
      assert data == s && reader.Rest() == [];
    }
    if ok {
      var length := |data| % U16;
      visitor.Notify(OnStreamFrame(id, fin, offset, data[..length]));
    }
  }

  method ProcessRstStreamFrame(reader: DataReader, visitor: EventLog) returns (ok: bool)
    requires reader.Valid()
    modifies reader`pos, visitor
    ensures reader.Valid()
    ensures ok == ParseRstStream(old(reader.Rest())).ok
    ensures visitor.log == old(visitor.log) + ParseRstStream(old(reader.Rest())).log
    ensures ok ==> reader.Rest() == ParseRstStream(old(reader.Rest())).rest
  {
    var id, offset, code := 0, 0, 0;
    ok, id := reader.ReadUInt(4);
    if ok {
      ok, offset := reader.ReadUInt(8);
    }
    if ok {
      ok, code := reader.ReadUInt(4);
    }
    if ok {
      visitor.Notify(OnRstStreamFrame(id, Clamp(code, QUIC_STREAM_LAST_ERROR), offset));
    }
  }

  method ProcessConnectionCloseFrame(reader: DataReader, visitor: EventLog) returns (ok: bool)
    requires reader.Valid()
    modifies reader`pos, visitor
    ensures reader.Valid()
    ensures ok == ParseConnectionClose(old(reader.Rest())).ok
    ensures visitor.log == old(visitor.log) + ParseConnectionClose(old(reader.Rest())).log
    ensures ok ==> reader.Rest() == ParseConnectionClose(old(reader.Rest())).rest
  {
    var code, details := 0, [];
    ok, code := reader.ReadUInt(4);
    if ok {
      ok, details := ReadString16(reader);
    }
    if ok {
      visitor.Notify(OnConnectionCloseFrame(Clamp(code, QUIC_LAST_ERROR), details));
    }
  }

  method ProcessGoAwayFrame(reader: DataReader, visitor: EventLog) returns (ok: bool)
    requires reader.Valid()
    modifies reader`pos, visitor
    ensures reader.Valid()
    ensures ok == ParseGoAway(old(reader.Rest())).ok
    ensures visitor.log == old(visitor.log) + ParseGoAway(old(reader.Rest())).log
    ensures ok ==> reader.Rest() == ParseGoAway(old(reader.Rest())).rest
  {
    var code, id, reason := 0, 0, [];
    ok, code := reader.ReadUInt(4);
    if ok {
      ok, id := reader.ReadUInt(4);
    }
    if ok {
      ok, reason := ReadString16(reader);
    }
    if ok {
      visitor.Notify(OnGoAwayFrame(Clamp(code, QUIC_LAST_ERROR), id, reason));
    }
  }

  method ProcessWindowUpdateFrame(reader: DataReader, visitor: EventLog) returns (ok: bool)
    requires reader.Valid()
    modifies reader`pos, visitor
    ensures reader.Valid()
    ensures ok == ParseWindowUpdate(old(reader.Rest())).ok
    ensures visitor.log == old(visitor.log) + ParseWindowUpdate(old(reader.Rest())).log
    ensures ok ==> reader.Rest() == ParseWindowUpdate(old(reader.Rest())).rest
  {
    var id, offset := 0, 0;
    ok, id := reader.ReadUInt(4);
    if ok {
      ok, offset := reader.ReadUInt(8);
    }
    if ok {
      visitor.Notify(OnWindowUpdateFrame(id, offset));
    }
  }

  method ProcessBlockedFrame(reader: DataReader, visitor: EventLog) returns (ok: bool)
    requires reader.Valid()
    modifies reader`pos, visitor
    ensures reader.Valid()
    ensures ok == ParseBlocked(old(reader.Rest())).ok
    ensures visitor.log == old(visitor.log) + ParseBlocked(old(reader.Rest())).log
    ensures ok ==> reader.Rest() == ParseBlocked(old(reader.Rest())).rest
  {
    var id;
    ok, id := reader.ReadUInt(4);
    if ok {
      visitor.Notify(OnBlockedFrame(id));
    }
  }

  method ProcessStopWaitingFrame(reader: DataReader, h: Header, visitor: EventLog) returns (ok: bool)
    requires reader.Valid()
    modifies reader`pos, visitor
    ensures reader.Valid()
    ensures ok == ParseStopWaiting(h, old(reader.Rest())).ok
    ensures visitor.log == old(visitor.log) + ParseStopWaiting(h, old(reader.Rest())).log
    ensures ok ==> reader.Rest() == ParseStopWaiting(h, old(reader.Rest())).rest
  {
    var delta;
    ok, delta := reader.ReadUInt(h.packetNumberLength);
    ok := ok && delta <= h.packetNumber;
    if ok {
      visitor.Notify(OnStopWaitingFrame(h.packetNumber - delta));
    }
  }

  method ProcessFrame(reader: DataReader, h: Header, visitor: EventLog, frameType: Byte) returns (ok: bool)
    requires reader.Valid()
    modifies reader`pos, visitor
    ensures reader.Valid()
    ensures ok == ParseFrame(h, frameType, old(reader.Rest())).ok
    ensures visitor.log == old(visitor.log) + ParseFrame(h, frameType, old(reader.Rest())).log
    ensures ok ==> reader.Rest() == ParseFrame(h, frameType, old(reader.Rest())).rest
  {
    ok := true;
    if frameType >= 0x80 {
      ok := ProcessStreamFrame(reader, visitor, frameType);
    } else if frameType >= 0x40 {
      ok := ProcessAckFrame(reader, visitor, frameType);
    } else if frameType == PADDING_FRAME {
      ProcessPaddingFrame(reader, visitor);
    } else if frameType == RST_STREAM_FRAME {
      ok := ProcessRstStreamFrame(reader, visitor);
    } else if frameType == CONNECTION_CLOSE_FRAME {
      ok := ProcessConnectionCloseFrame(reader, visitor);
    } else if frameType == GOAWAY_FRAME {
      ok := ProcessGoAwayFrame(reader, visitor);
    } else if frameType == WINDOW_UPDATE_FRAME {
      ok := ProcessWindowUpdateFrame(reader, visitor);
    } else if frameType == BLOCKED_FRAME {
      ok := ProcessBlockedFrame(reader, visitor);
    } else if frameType == STOP_WAITING_FRAME {
      ok := ProcessStopWaitingFrame(reader, h, visitor);
    } else if frameType == PING_FRAME {
      visitor.Notify(OnPingFrame);
    } else {
      ok := false;
    }
  }

  lemma FrameConsumes(h: Header, frameType: Byte, s: seq<Byte>)
    ensures |ParseFrame(h, frameType, s).rest| <= |s|
  {
    if 0x40 <= frameType < 0x80 {
      AckConsumes(frameType, s);
    }
  }
}
