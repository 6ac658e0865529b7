/** The variable-length integers of section 16 of RFC 9000, which libquic's reader and writer put
    under the names ReadVarInt62 and WriteVarInt62. */
module VarInts {
  import opened Bytes
  import opened DataIo
  import opened Wrappers

  const VAR_LIMIT: nat := 0x4000_0000_0000_0000

  function VarLength(v: nat): nat {
    if v < 0x40 then 1 else if v < 0x4000 then 2 else if v < 0x4000_0000 then 4 else 8
  }

  /** The two high bits that tell the length, in place. */
  function Tag(len: nat): nat {
    if len == 2 then 0x4000 else if len == 4 then 0x8000_0000
    else if len == 8 then 0xC000_0000_0000_0000 else 0
  }

  function VarInt(v: nat): (s: seq<Byte>)
    ensures |s| == VarLength(v)
  {
    Encode(v + Tag(VarLength(v)), VarLength(v))
  }

  /** The length the first byte tells. */
  function LengthOf(first: Byte): nat {
    if first < 0x40 then 1 else if first < 0x80 then 2 else if first < 0xC0 then 4 else 8
  }

  /** The value read, or nothing if the bytes end early. */
  function ReadVar(s: seq<Byte>): (v: Option<nat>)
    ensures v.Some? ==> s != [] && LengthOf(s[0]) <= |s|
  {
    if s == [] || |s| < LengthOf(s[0]) then None else
    var n := LengthOf(s[0]);
    FirstDigit(s[..n]);
    SmallPowers();
    OddPowers();
    Some(Decode(s[..n]) - Tag(n))
  }

  function AfterVar(s: seq<Byte>): seq<Byte>
    requires ReadVar(s).Some?
  {
    s[LengthOf(s[0])..]
  }

  lemma ReadVarBound(s: seq<Byte>)
    requires ReadVar(s).Some?
    ensures ReadVar(s).value < VAR_LIMIT
  {
    hide Decode;
    var n := LengthOf(s[0]);
    FirstDigit(s[..n]);
    SmallPowers();
    OddPowers();
  }

  lemma OddPowers()
    ensures Pow256(3) == 0x100_0000 && Pow256(7) == 0x100_0000_0000_0000
  {
    assert Pow256(5) == 0x100_0000_0000;
  }

  /** The first byte is the most significant digit. */
  lemma {:induction false} FirstDigit(s: seq<Byte>)
    requires s != []
    ensures s[0] * Pow256(|s| - 1) <= Decode(s) < (s[0] + 1) * Pow256(|s| - 1)
  {
    var t := s[..|s| - 1];
    if t != [] {
      FirstDigit(t);
      DigitStep(s[0], Pow256(|s| - 2), Decode(t), s[|s| - 1]);
    }
  }

  lemma DigitStep(d: nat, p: nat, v: nat, b: Byte)
    requires d * p <= v < (d + 1) * p
    ensures d * (256 * p) <= 256 * v + b < (d + 1) * (256 * p)
  {
    assert d * (256 * p) == 256 * (d * p);
    assert (d + 1) * (256 * p) == 256 * ((d + 1) * p);
  }

  /** A variable-length integer reads back, whatever follows it. */
  lemma VarReadsBack(v: nat, rest: seq<Byte>)
    requires v < VAR_LIMIT
    ensures ReadVar(VarInt(v) + rest) == Some(v) && AfterVar(VarInt(v) + rest) == rest
  {
    hide Encode, Decode;
    SmallPowers();
    OddPowers();
    var n := VarLength(v);
    DecodeEncode(v + Tag(n), n);
    FirstDigit(VarInt(v));
    TaggedFirst(VarInt(v), v);
    assert (VarInt(v) + rest)[..n] == VarInt(v);
    assert (VarInt(v) + rest)[n..] == rest;
  }

  lemma TaggedFirst(s: seq<Byte>, v: nat)
    requires v < VAR_LIMIT && |s| == VarLength(v) && Decode(s) == v + Tag(|s|)
    ensures LengthOf(s[0]) == |s|
  {
    hide Decode;
    FirstDigit(s);
    SmallPowers();
    OddPowers();
  }

  lemma OneByteVar(b: Byte, rest: seq<Byte>)
    requires b < 0x40
    ensures ReadVar([b] + rest) == Some(b as nat) && AfterVar([b] + rest) == rest
  {
    VarReadsBack(b, rest);
    assert VarInt(b) == Encode(b, 1) == [b];
  }

  /** The two high bits of the first byte tell the length, the other bits are the number, and the length
      is the least that holds it. */
  lemma VarLayout(v: nat)
    requires v < VAR_LIMIT
    ensures var b, n := VarInt(v), |VarInt(v)|;
            && n == (if v < 64 then 1 else if v < 16384 then 2 else if v < 1073741824 then 4 else 8)
            && b[0] / 64 == (if n == 1 then 0 else if n == 2 then 1 else if n == 4 then 2 else 3)
            && Decode(b) == v + b[0] / 64 * (64 * Pow256(n - 1))
  {
    hide Encode, Decode;
    SmallPowers();
    OddPowers();
    var n := VarLength(v);
    DecodeEncode(v + Tag(n), n);
    FirstDigit(VarInt(v));
  }

  /** Several integers one after the other. */
  function VarBytes(ts: seq<nat>): seq<Byte> {
    if ts == [] then [] else VarInt(ts[0]) + VarBytes(ts[1..])
  }

  method WriteVarInt62(writer: DataWriter, v: nat) returns (ok: bool)
    requires writer.Valid() && v < VAR_LIMIT
    modifies writer
    ensures writer.Valid()
    ensures ok <==> old(|writer.buffer|) + |VarInt(v)| <= writer.capacity
    ensures writer.buffer == if ok then old(writer.buffer) + VarInt(v) else old(writer.buffer)
  {
    ok := writer.WriteBytes(VarInt(v));
  }

  method ReadVarInt62(reader: DataReader) returns (v: Option<nat>)
    requires reader.Valid()
    modifies reader
    ensures reader.Valid() && v == ReadVar(old(reader.Rest()))
    ensures v.Some? ==> reader.Rest() == AfterVar(old(reader.Rest()))
  {
    v := ReadVar(reader.Rest());
    if v.Some? {
      var _, _ := reader.ReadBytes(LengthOf(reader.Rest()[0]));
    }
  }
}
