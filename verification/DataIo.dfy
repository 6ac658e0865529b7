/** The data writer and reader the framer drives: a bounded output buffer and an input cursor.
    Their classes belong to libquic and are not part of the repository; only what the framer relies
    on is modelled. */
module DataIo {
  import opened Bytes

  class DataWriter {
    const capacity: nat
    var buffer: seq<Byte>

    ghost predicate Valid()
      reads this
    {
      |buffer| <= capacity
    }

    constructor (capacity: nat)
      ensures Valid() && buffer == [] && this.capacity == capacity
    {
      this.capacity := capacity;
      buffer := [];
    }

    /** A write that does not fit leaves the buffer alone and fails. */
    method WriteBytes(bytes: seq<Byte>) returns (ok: bool)
      requires Valid()
      modifies this
      ensures Valid()
      ensures ok <==> old(|buffer|) + |bytes| <= capacity
      ensures buffer == if ok then old(buffer) + bytes else old(buffer)
    {
      ok := |buffer| + |bytes| <= capacity;
      if ok {
        buffer := buffer + bytes;
      }
    }

    method WriteUInt(n: nat, v: nat) returns (ok: bool)
      requires Valid()
      modifies this
      ensures Valid()
      ensures ok <==> old(|buffer|) + n <= capacity
      ensures buffer == if ok then old(buffer) + Encode(v, n) else old(buffer)
    {
      ok := WriteBytes(Encode(v, n));
    }

    /** Fills the rest of the buffer with zero bytes. */
    method WritePadding()
      requires Valid()
      modifies this
      ensures Valid() && |buffer| == capacity
      ensures buffer == old(buffer) + seq(capacity - old(|buffer|), _ => 0)
    {
      buffer := buffer + seq(capacity - |buffer|, _ => 0);
    }
  }

  class DataReader {
    const data: seq<Byte>
    var pos: nat

    ghost predicate Valid()
      reads this
    {
      pos <= |data|
    }

    /** The bytes not yet read. */
    function Rest(): (s: seq<Byte>)
      requires Valid()
      reads this
    {
      data[pos..]
    }

    constructor (data: seq<Byte>)
      ensures Valid() && Rest() == data
    {
      this.data := data;
      pos := 0;
    }

    /** A failed read moves the cursor to the end. */
    method ReadBytes(n: nat) returns (ok: bool, bytes: seq<Byte>)
      requires Valid()
      modifies this`pos
      ensures Valid()
      ensures ok <==> n <= |old(Rest())|
      ensures ok ==> bytes == old(Rest())[..n] && Rest() == old(Rest())[n..]
      ensures !ok ==> bytes == [] && Rest() == []
    {
      ok := n <= |data| - pos;
      if ok {
        bytes := data[pos..pos + n];
        pos := pos + n;
      } else {
        bytes := [];
        pos := |data|;
      }
    }

    method ReadUInt(n: nat) returns (ok: bool, v: nat)
      requires Valid()
      modifies this`pos
      ensures Valid()
      ensures ok <==> n <= |old(Rest())|
      ensures ok ==> v == Decode(old(Rest())[..n]) && Rest() == old(Rest())[n..]
      ensures !ok ==> Rest() == []
    {
      var bytes;
      ok, bytes := ReadBytes(n);
      v := Decode(bytes);
    }
  }
}
