/** The byte stream of mininet-webrtc/razor/cf_stream.c: one growing buffer with a read and a write
    position, proved to be a first-in-first-out queue of bytes. */
module BinStream {
  import opened Bytes
  import opened Numbers

  const DEFAULT_PACKET_SIZE: nat := 1024
  const READ_DATA_ERROR: nat := 0xffff

  // ---------------------------------------------------------------------------
  // What the reading functions do to a queue of bytes
  // ---------------------------------------------------------------------------

  /** A short read gives 0 and takes nothing. */
  function TakenUInt(q: seq<Byte>, n: nat): (nat, seq<Byte>) {
    if |q| < n then (0, q) else (Decode(q[..n]), q[n..])
  }

  datatype DataRead = DataRead(result: nat, bytes: seq<Byte>, rest: seq<Byte>)

  /** A 16-bit length and so many bytes: on an error the length is gone. */
  function TakenData(q: seq<Byte>, size: nat): DataRead {
    var (len, rest) := TakenUInt(q, 2);
    if len > size || len > |rest| then DataRead(READ_DATA_ERROR, [], rest)
    else DataRead(len, rest[..len], rest[len..])
  }

  function TakenBlock(q: seq<Byte>, size: nat): DataRead {
    if |q| < size then DataRead(READ_DATA_ERROR, [], q)
    else DataRead(size % 0x1_0000, q[..size], q[size..])
  }

  /** A signed number of `n` bytes as the unsigned one with the same bits. */
  function Unsigned(v: int, n: nat): nat {
    v % Pow256(n)
  }

  function Signed(u: nat, n: nat): int {
    if 2 * u < Pow256(n) then u else u - Pow256(n)
  }

  lemma SignedUnsigned(v: int, n: nat)
    requires 0 <= 2 * v + Pow256(n) && 2 * v < Pow256(n)
    ensures Unsigned(v, n) < Pow256(n) && Signed(Unsigned(v, n), n) == v
  {
    var p := Pow256(n);
    if v < 0 {
      ModNegative(v, p);
    } else {
      ModSmall(v, p);
    }
  }

  lemma ModNegative(v: int, p: nat)
    requires v < 0 <= v + p
    ensures v % p == v + p
  {
    ModSmall(v + p, p);
    assert v == -1 * p + (v + p);
  }

  lemma ModSmall(v: nat, p: nat)
    requires v < p
    ensures v % p == v
  {
  }

  /** A number written is read back if it fits its width, whatever follows. */
  lemma NumberReadsBack(v: nat, n: nat, rest: seq<Byte>)
    requires v < Pow256(n)
    ensures TakenUInt(Encode(v, n) + rest, n) == (v, rest)
  {
    ReadField(v, n, rest);
  }

  /** The length field holds the length modulo 2^16. */
  lemma LengthField(len: nat)
    ensures Decode(Encode(len, 2)) == len % 0x1_0000
  {
    var low := len % 256;
    var high := len / 256 % 256;
    assert Encode(len, 2) == [high, low] by {
      assert Encode(len / 256, 1) == Encode(len / 256 / 256, 0) + [high];
    }
    TwoDigits(high, low);
    LowDigits(len);
  }

  lemma TwoDigits(high: Byte, low: Byte)
    ensures Decode([high, low]) == 256 * high + low
  {
    assert [high, low][..1] == [high] && [high][..0] == [];
    assert Decode([high]) == high;
  }

  lemma LowDigits(len: nat)
    ensures 256 * (len / 256 % 256) + len % 256 == len % 0x1_0000
  {
  }

  /** A length-prefixed string, read with room for it, comes back exactly if it is shorter than
      2^16 bytes. */
  lemma DataReadsBack(s: seq<Byte>, size: nat, rest: seq<Byte>)
    requires |s| <= size
    ensures TakenData(Encode(|s|, 2) + s + rest, size) == DataRead(|s|, s, rest) <==> |s| < 0x1_0000
  {
    hide TakenData;
    if |s| < 0x1_0000 {
      ShortDataReadsBack(s, size, rest);
    } else {
      LongDataDoesNot(s, size, rest);
    }
  }

  lemma ShortDataReadsBack(s: seq<Byte>, size: nat, rest: seq<Byte>)
    requires |s| <= size && |s| < 0x1_0000
    ensures TakenData(Encode(|s|, 2) + s + rest, size) == DataRead(|s|, s, rest)
  {
    hide Encode, Decode, TakenUInt;
    LengthIsTaken(s, rest);
    assert (s + rest)[..|s|] == s && (s + rest)[|s|..] == rest;
  }

  lemma LongDataDoesNot(s: seq<Byte>, size: nat, rest: seq<Byte>)
    requires |s| >= 0x1_0000
    ensures TakenData(Encode(|s|, 2) + s + rest, size).result != |s|
  {
    hide Encode, Decode, TakenUInt;
    LengthIsTaken(s, rest);
  }

  lemma LengthIsTaken(s: seq<Byte>, rest: seq<Byte>)
    ensures TakenUInt(Encode(|s|, 2) + s + rest, 2) == (|s| % 0x1_0000, s + rest)
  {
    hide Encode, Decode;
    LengthField(|s|);
    SplitFirst(Encode(|s|, 2), s, rest);
  }

  lemma SplitFirst(a: seq<Byte>, b: seq<Byte>, c: seq<Byte>)
    ensures (a + b + c)[..|a|] == a && (a + b + c)[|a|..] == b + c
  {
    assert a + b + c == a + (b + c);
  }

  lemma SplitSlice(s: seq<Byte>, i: nat, n: nat, j: nat)
    requires i + n <= j <= |s|
    ensures s[i..j][..n] == s[i..i + n] && s[i..j][n..] == s[i + n..j]
    ensures s[i..j] == s[i..i + n] + s[i + n..j]
  {
  }

  /** The lengths that can be taken for the error are 65535 and those that are cut to it: so many bytes
      arrive and the result says they did not. */
  lemma ErrorIsAmbiguous(s: seq<Byte>, size: nat, rest: seq<Byte>)
    requires |s| <= size
    ensures TakenData(Encode(|s|, 2) + s + rest, size).result == READ_DATA_ERROR <==> |s| % 0x1_0000 == 0xffff
  {
    hide Encode, Decode, TakenUInt;
    LengthIsTaken(s, rest);
  }

  /** A number that is not all there reads as 0 and takes nothing; a string whose length is too large
      reads as the error, with its length gone. */
  lemma ShortReads(q: seq<Byte>, n: nat, size: nat)
    ensures |q| < n ==> TakenUInt(q, n) == (0, q)
    ensures |q| < 2 ==> TakenData(q, size) == DataRead(0, [], q)
    ensures |q| >= 2 && Decode(q[..2]) > Min(size, |q| - 2) ==> TakenData(q, size) == DataRead(65535, [], q[2..])
    ensures |q| >= 2 && Decode(q[..2]) <= Min(size, |q| - 2) ==>
              var d := TakenData(q, size);
              d.result == Decode(q[..2]) == |d.bytes| && q == q[..2] + d.bytes + d.rest
  {
    hide Decode;
    if |q| >= 2 && Decode(q[..2]) <= Min(size, |q| - 2) {
      var len := Decode(q[..2]);
      assert q == q[..2] + q[2..] && q[2..] == q[2..][..len] + q[2..][len..];
    }
  }

  /** Both happen: 65535 bytes read as an error, one byte more as nothing. */
  lemma LongStringExample(rest: seq<Byte>)
    ensures TakenData(Encode(0xffff, 2) + Zeros(0xffff) + rest, 0x1_0000).result == READ_DATA_ERROR
    ensures TakenData(Encode(0x1_0000, 2) + Zeros(0x1_0000) + rest, 0x1_0000) == DataRead(0, [], Zeros(0x1_0000) + rest)
  {
    hide Zeros, Decode, Encode;
    ErrorIsAmbiguous(Zeros(0xffff), 0x1_0000, rest);
    var s := Zeros(0x1_0000) + rest;
    LengthCut();
    assert Encode(0x1_0000, 2) + Zeros(0x1_0000) + rest == Encode(0, 2) + s;
    SmallPowers();
    ReadField(0, 2, s);
  }

  lemma LengthCut()
    ensures Encode(0x1_0000, 2) == Encode(0, 2)
  {
    assert Encode(0x100, 1) == [0];
  }

  // ---------------------------------------------------------------------------
  // The stream
  // ---------------------------------------------------------------------------

  class Stream {
    var data: array<Byte>
    var rptr: nat
    var rsize: nat
    var wptr: nat
    var used: nat

    /** What has been written and read since the last rewind. */
    ghost var put: seq<Byte>
    ghost var got: seq<Byte>
    /** The bytes that growing has copied since the buffer was last made small. */
    ghost var copied: nat

    /** The pointers agree with the counters, what was read and what is left make up what was
        written, and growing has copied less than the buffer holds. */
    ghost predicate Valid()
      reads this, data
    {
      && rptr == rsize <= wptr == used <= data.Length
      && DEFAULT_PACKET_SIZE <= data.Length
      && put == got + data[rsize..used]
      && copied + DEFAULT_PACKET_SIZE <= data.Length
    }

    ghost function Unread(): seq<Byte>
      requires Valid()
      reads this, data
    {
      data[rsize..used]
    }

    constructor ()
      ensures Valid() && fresh(data) && put == [] && got == [] && data.Length == DEFAULT_PACKET_SIZE
    {
      data := new Byte[DEFAULT_PACKET_SIZE];
      rptr, rsize, wptr, used := 0, 0, 0, 0;
      put, got, copied := [], [], 0;
    }

    /** A received datagram: the bytes are put into a fresh buffer as they are. */
    constructor Received(datagram: seq<Byte>)
      requires |datagram| <= DEFAULT_PACKET_SIZE
      ensures Valid() && fresh(data) && put == datagram && got == [] && Unread() == datagram && rsize == 0
    {
      data := new Byte[DEFAULT_PACKET_SIZE](i => if 0 <= i < |datagram| then datagram[i] else 0);
      rptr, rsize, wptr, used := 0, 0, |datagram|, |datagram|;
      put, got, copied := datagram, [], 0;
      new;
      assert data[0..used] == datagram;
    }

    method AvailableRead() returns (n: nat)
      requires Valid()
      ensures n == |Unread()|
    {
      n := used - rsize;
    }

    /** The buffer doubles until it is big enough; a request it already meets changes nothing. */
    method Resize(newSize: nat)
      requires Valid()
      modifies this`data, this`rptr, this`wptr, this`copied
      ensures Valid() && Unread() == old(Unread()) && newSize <= data.Length
      ensures if newSize <= old(data.Length) then data == old(data) && copied == old(copied)
              else fresh(data) && data.Length < 2 * newSize && copied == old(copied) + old(data.Length)
      ensures data[..used] == old(data[..used])
    {
      if newSize > data.Length {
        var allocSize := data.Length;
        while newSize > allocSize
          invariant data.Length <= allocSize < 2 * newSize
          invariant allocSize == data.Length || 2 * data.Length <= allocSize
          decreases newSize - allocSize
        {
          allocSize := allocSize * 2;
        }
        var bigger := new Byte[allocSize];
        forall i | 0 <= i < data.Length {
          bigger[i] := data[i];
        }
        assert bigger[..used] == data[..used];
        assert bigger[rsize..used] == bigger[..used][rsize..] && data[rsize..used] == data[..used][rsize..];
        copied := copied + data.Length;
        data := bigger;
        wptr := used;
        rptr := rsize;
      }
    }

    /** Bytes go in at the write pointer. */
    method Copy(bytes: seq<Byte>)
      requires Valid() && used + |bytes| <= data.Length
      modifies this`wptr, this`used, this`put, data
      ensures Valid() && Unread() == old(Unread()) + bytes && put == old(put) + bytes
      ensures data[..used] == old(data[..used]) + bytes
    {
      forall i | 0 <= i < |bytes| {
        data[wptr + i] := bytes[i];
      }
      wptr := wptr + |bytes|;
      used := used + |bytes|;
      put := put + bytes;
      assert data[..used] == old(data[..used]) + bytes;
      assert data[rsize..used] == data[..used][rsize..] == old(data[rsize..used]) + bytes;
    }

    /** `mach_block_write`. */
    method WriteBlock(bytes: seq<Byte>)
      requires Valid()
      modifies this, data
      ensures Valid() && (data == old(data) || fresh(data))
      ensures Unread() == old(Unread()) + bytes && put == old(put) + bytes && got == old(got)
      ensures rsize == old(rsize)
      ensures data[..used] == old(data[..used]) + bytes
      ensures data.Length == old(data.Length) || data.Length < 2 * used
    {
      Resize(used + |bytes|);
      Copy(bytes);
    }

    /** The functions that write an integer of `n` bytes; higher bytes are cut off. */
    method WriteUInt(n: nat, v: nat)
      requires Valid()
      modifies this, data
      ensures Valid() && (data == old(data) || fresh(data))
      ensures Unread() == old(Unread()) + Encode(v, n) && put == old(put) + Encode(v, n) && got == old(got)
      ensures rsize == old(rsize)
      ensures data.Length == old(data.Length) || data.Length < 2 * used
      ensures old(used) + n <= old(data.Length) ==> data == old(data)
      ensures used == old(used) + n
    {
      Resize(used + n);
      Copy(Encode(v, n));
    }

    /** `mach_data_write`: a 16-bit length, then the bytes. */
    method WriteData(bytes: seq<Byte>)
      requires Valid()
      modifies this, data
      ensures Valid() && (data == old(data) || fresh(data)) && got == old(got) && rsize == old(rsize)
      ensures put == old(put) + Encode(|bytes|, 2) + bytes
      ensures Unread() == old(Unread()) + Encode(|bytes|, 2) + bytes
      ensures data.Length == old(data.Length) || data.Length < 2 * used
    {
      Resize(used + |bytes| + 2);
      WriteUInt(2, |bytes|);
      Copy(bytes);
    }

    /** Bytes come out at the read pointer. */
    method Take(n: nat) returns (bytes: seq<Byte>)
      requires Valid() && n <= |Unread()|
      modifies this`rptr, this`rsize, this`got
      ensures Valid() && bytes == old(Unread())[..n] && Unread() == old(Unread())[n..] && got == old(got) + bytes
    {
      SplitSlice(data[..], rptr, n, used);
      bytes := data[rptr..rptr + n];
      rptr := rptr + n;
      rsize := rsize + n;
      got := got + bytes;
    }

    /** The functions that read an unsigned integer of `n` bytes. */
    method ReadUInt(n: nat) returns (v: nat)
      requires Valid()
      modifies this`rptr, this`rsize, this`got
      ensures Valid() && (v, Unread()) == TakenUInt(old(Unread()), n)
      ensures put == old(put)
    {
      if used < rsize + n {
        v := 0;
      } else {
        var bytes := Take(n);
        v := Decode(bytes);
      }
    }

    method ReadData(size: nat) returns (result: nat, bytes: seq<Byte>)
      requires Valid()
      modifies this`rptr, this`rsize, this`got
      ensures Valid() && DataRead(result, bytes, Unread()) == TakenData(old(Unread()), size)
    {
      var len := ReadUInt(2);
      if len > size || rsize + len > used {
        result, bytes := READ_DATA_ERROR, [];
      } else {
        bytes := Take(len);
        result := len;
      }
    }

    method ReadBlock(size: nat) returns (result: nat, bytes: seq<Byte>)
      requires Valid()
      modifies this`rptr, this`rsize, this`got
      ensures Valid() && DataRead(result, bytes, Unread()) == TakenBlock(old(Unread()), size)
    {
      if rsize + size > used {
        result, bytes := READ_DATA_ERROR, [];
      } else {
        bytes := Take(size);
        result := size % 0x1_0000;
      }
    }

    /** `bin_stream_rewind`: everything still in the buffer is read again, or thrown away. */
    method Rewind(reset: bool)
      requires Valid()
      modifies this`rptr, this`rsize, this`wptr, this`used, this`put, this`got
      ensures Valid() && got == [] && put == Unread() && rsize == 0
      ensures Unread() == if reset then [] else old(data[..used])
    {
      if reset {
        wptr := 0;
        used := 0;
      }
      rptr := 0;
      rsize := 0;
      put, got := data[..used], [];
    }

    /** `bin_stream_reduce`: a buffer grown past twice the default starts anew. */
    method Reduce()
      requires Valid()
      modifies this
      ensures Valid() && data.Length <= 2 * DEFAULT_PACKET_SIZE && (data == old(data) || fresh(data))
      ensures if old(data.Length) > 2 * DEFAULT_PACKET_SIZE
              then put == [] && got == [] && data.Length == DEFAULT_PACKET_SIZE
              else data == old(data) && put == old(put) && got == old(got) && Unread() == old(Unread())
    {
      if data.Length > DEFAULT_PACKET_SIZE * 2 {
        data := new Byte[DEFAULT_PACKET_SIZE];
        rptr := 0;
        wptr := 0;
        rsize := 0;
        used := 0;
        put, got, copied := [], [], 0;
      }
    }

    /** `bin_stream_move`: the unread bytes move to the front when the buffer is nearly full. */
    method Move()
      requires Valid()
      modifies this`rptr, this`rsize, this`wptr, this`used, data
      ensures Valid() && Unread() == old(Unread()) && put == old(put) && got == old(got)
      ensures rsize == 0 || (rsize == old(rsize) && used == old(used))
      ensures used + 256 < data.Length || rsize <= data.Length / 2
    {
      if used == rsize && rsize > 0 {
        rptr := 0;
        wptr := 0;
        used := 0;
        rsize := 0;
      }
      if used > rsize && rsize > data.Length / 2 && used + 256 >= data.Length {
        var size := used - rsize;
        ghost var unread := data[rsize..used];
        forall i | 0 <= i < size {
          data[i] := data[rptr + i];
        }
        wptr := size;
        rptr := 0;
        rsize := 0;
        used := size;
        assert data[..size] == unread;
      }
    }

    /** `bin_stream_reset`, apart from the magic number. */
    method Reset()
      requires Valid()
      modifies this
      ensures Valid() && put == [] && got == [] && Unread() == [] && data.Length <= 2 * DEFAULT_PACKET_SIZE
    {
      Rewind(true);
      Reduce();
    }
  }
}
