/** Bytes and big-endian integers: what the framer's reader and writer, and the razor byte stream,
    put on the wire (network byte order for every version above 38). */
module Bytes {

  type Byte = b: int | 0 <= b < 256

  function Zeros(n: nat): (s: seq<Byte>)
    ensures |s| == n
  {
    seq(n, _ => 0)
  }

  function Pow256(n: nat): (p: nat)
    ensures p > 0
  {
    if n == 0 then 1 else 256 * Pow256(n - 1)
  }

  /** The `n` low bytes of `v`, most significant first; higher bytes are cut off. */
  function Encode(v: nat, n: nat): (s: seq<Byte>)
    ensures |s| == n
    decreases n
  {
    if n == 0 then [] else Encode(v / 256, n - 1) + [v % 256]
  }

  function Decode(s: seq<Byte>): nat {
    if s == [] then 0 else 256 * Decode(s[..|s| - 1]) + s[|s| - 1]
  }

  lemma {:induction false} DecodeEncode(v: nat, n: nat)
    requires v < Pow256(n)
    ensures Decode(Encode(v, n)) == v
  {
    if n > 0 {
      DecodeEncode(v / 256, n - 1);
      assert Encode(v, n)[..n - 1] == Encode(v / 256, n - 1);
    }
  }

  lemma {:induction false} EncodeDecode(s: seq<Byte>)
    ensures Encode(Decode(s), |s|) == s
  {
    if s != [] {
      var t := s[..|s| - 1];
      EncodeDecode(t);
      assert Decode(s) / 256 == Decode(t) && Decode(s) % 256 == s[|s| - 1];
      assert s == t + [s[|s| - 1]];
    }
  }

  lemma {:induction false} DecodeBound(s: seq<Byte>)
    ensures Decode(s) < Pow256(|s|)
  {
    if s != [] {
      DecodeBound(s[..|s| - 1]);
    }
  }

  lemma DecodeInjective(a: seq<Byte>, b: seq<Byte>)
    requires |a| == |b| && Decode(a) == Decode(b)
    ensures a == b
  {
    EncodeDecode(a);
    EncodeDecode(b);
  }

  lemma SmallPowers()
    ensures Pow256(0) == 1 && Pow256(1) == 0x100 && Pow256(2) == 0x1_0000
    ensures Pow256(4) == 0x1_0000_0000 && Pow256(6) == 0x1_0000_0000_0000
    ensures Pow256(8) == 0x1_0000_0000_0000_0000
  {
    assert Pow256(3) == 0x100_0000;
    assert Pow256(5) == 0x100_0000_0000;
    assert Pow256(7) == 0x100_0000_0000_0000;
  }

  /** Reading back a field that is followed by other bytes. */
  lemma ReadField(v: nat, n: nat, rest: seq<Byte>)
    requires v < Pow256(n)
    ensures Decode((Encode(v, n) + rest)[..n]) == v && (Encode(v, n) + rest)[n..] == rest
  {
    DecodeEncode(v, n);
    assert (Encode(v, n) + rest)[..n] == Encode(v, n);
  }

  /** A number of `n` bytes stands at `k`. */
  predicate FieldAt(b: seq<Byte>, k: nat, n: nat, v: nat) {
    k + n <= |b| && Decode(b[k..k + n]) == v
  }

  lemma WrittenField(before: seq<Byte>, v: nat, n: nat, after: seq<Byte>)
    requires v < Pow256(n)
    ensures FieldAt(before + Encode(v, n) + after, |before|, n, v)
  {
    DecodeEncode(v, n);
    assert (before + Encode(v, n) + after)[|before|..|before| + n] == Encode(v, n);
  }

  /** Appending piece by piece is appending the whole. */
  lemma Concat5(s: seq<Byte>, a: seq<Byte>, b: seq<Byte>, c: seq<Byte>, d: seq<Byte>, e: seq<Byte>)
    ensures s + (a + b + c + d + e) == s + a + b + c + d + e
  {
  }

  lemma Concat2(s: seq<Byte>, a: seq<Byte>, b: seq<Byte>)
    ensures s + (a + b) == s + a + b
  {
  }

  lemma Concat3(s: seq<Byte>, a: seq<Byte>, b: seq<Byte>, c: seq<Byte>)
    ensures s + (a + b + c) == s + a + b + c
  {
  }
}
