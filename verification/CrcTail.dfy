/** What a change of the last bytes of a message does to its CRC-32: the difference of the checksums
    is the difference of the bytes, packed into one word and shifted through the register. The
    module works out for which changes of one, two or three bytes the low bytes of that difference
    are zero. */
module CrcTail {
  import opened Crc32

  /** Up to four bytes as one word, the first in the low bits. */
  function Pack(bs: seq<bv8>): bv32 {
    if bs == [] then 0 else Above(bs[0], Pack(bs[1..]))
  }

  function Above(b: bv8, w: bv32): bv32 {
    (b as bv32) | (w << 8)
  }

  lemma LowByteOnly(w: bv32, b: bv8)
    ensures Above(b, w) & 0xff == b as bv32
  {
  }

  lemma HighBytes(w: bv32, b: bv8)
    requires w < 0x100_0000
    ensures Above(b, w) >> 8 == w
  {
  }

  lemma AboveBound(w: bv32, b: bv8)
    ensures w == 0 ==> Above(b, w) < 0x100
    ensures w < 0x100 ==> Above(b, w) < 0x1_0000
    ensures w < 0x1_0000 ==> Above(b, w) < 0x100_0000
  {
  }

  lemma {:induction false} PackBound(bs: seq<bv8>)
    requires |bs| <= 3
    ensures |bs| == 0 ==> Pack(bs) == 0
    ensures |bs| <= 1 ==> Pack(bs) < 0x100
    ensures |bs| <= 2 ==> Pack(bs) < 0x1_0000
    ensures Pack(bs) < 0x100_0000
  {
    hide Above;
    if bs != [] {
      PackBound(bs[1..]);
      AboveBound(Pack(bs[1..]), bs[0]);
    }
  }

  lemma {:induction false} WordBitsSplit(w: bv32, m: nat, n: nat)
    ensures WordBits(w, m + n) == WordBits(w, m) + WordBits(Drop(w, m), n)
    decreases m
  {
    if m > 0 {
      WordBitsSplit(Half(w), m - 1, n);
    }
  }

  /** The low bits of a word do not depend on the others. */
  lemma LowByteBits(w: bv32)
    ensures WordBits(w, 8) == WordBits(w & 0xff, 8)
  {
    var v := w & 0xff;
    SplitByte(w);
    XorWithZero(v, w & 0xffffff00);
  }

  lemma XorWithZero(v: bv32, u: bv32)
    requires u & 0xff == 0
    ensures WordBits(Xor(v, u), 8) == WordBits(v, 8)
  {
  }

  lemma PackStep(b: bv8, w: bv32)
    requires w < 0x100_0000
    ensures WordBits(Above(b, w), 8) == ByteBits(b) && Drop(Above(b, w), 8) == w
  {
    hide WordBits, Drop, Above;
    LowByteOnly(w, b);
    HighBytes(w, b);
    Drop8(Above(b, w));
    LowByteBits(Above(b, w));
  }

  lemma {:induction false} PackBits(bs: seq<bv8>)
    requires |bs| <= 3
    ensures WordBits(Pack(bs), 8 * |bs|) == Bits(bs) && Drop(Pack(bs), 8 * |bs|) == 0
  {
    hide WordBits, Drop, Bits, ByteBits, Above;
    if bs != [] {
      var w, rest := Pack(bs), bs[1..];
      PackBits(rest);
      PackBound(rest);
      PackStep(bs[0], Pack(rest));
      WordBitsSplit(w, 8, 8 * |rest|);
      DropSplit(w, 8, 8 * |rest|);
      BitsCons(bs);
    } else {
      NoBits();
    }
  }

  lemma BitsCons(bs: seq<bv8>)
    requires bs != []
    ensures Bits(bs) == ByteBits(bs[0]) + Bits(bs[1..])
  {
  }

  lemma NoBits()
    ensures WordBits(0, 0) == Bits([]) && Drop(0, 0) == 0
  {
  }

  lemma {:induction false} ZeroRunLinear(x: bv32, y: bv32, n: nat)
    ensures ZeroRun(Xor(x, y), n) == Xor(ZeroRun(x, n), ZeroRun(y, n))
    decreases n
  {
    hide Xor, Shift;
    if n > 0 {
      ShiftLinear(x, y);
      ZeroRunLinear(Shift(x), Shift(y), n - 1);
    }
  }

  /** A common part of two words cancels in their difference. */
  lemma CommonCancels(c: bv32, x: bv32, y: bv32)
    ensures Xor(Xor(c, x), Xor(c, y)) == Xor(x, y)
    ensures Xor(Xor(x, c), Xor(y, c)) == Xor(x, y)
  {
    hide Xor;
    XorCommutes(c, x);
    XorCommutes(c, y);
    XorAssociative(x, c, Xor(c, y));
    XorCancels(c, y);
  }

  /** The checksums of two messages that differ only in their last bytes differ by those bytes,
      shifted through the register. */
  lemma TailDifference(crc: bv32, a: seq<bv8>, p: seq<bv8>, q: seq<bv8>)
    requires |p| == |q| <= 3
    ensures Xor(Checksum(crc, a + p), Checksum(crc, a + q)) == ZeroRun(Xor(Pack(p), Pack(q)), 8 * |p|)
  {
    hide Xor, Pack, ZeroRun, BitSerial, WordBits, Drop;
    var start := Xor(crc, ALL_ONES);
    var c := BitSerial(start, Bits(a));
    Fed(start, a, p);
    Fed(start, a, q);
    CommonCancels(ALL_ONES, BitSerial(start, Bits(a + p)), BitSerial(start, Bits(a + q)));
    ZeroRunLinear(Xor(c, Pack(p)), Xor(c, Pack(q)), 8 * |p|);
    CommonCancels(c, Pack(p), Pack(q));
  }

  lemma Fed(start: bv32, a: seq<bv8>, p: seq<bv8>)
    requires |p| <= 3
    ensures BitSerial(start, Bits(a + p)) == ZeroRun(Xor(BitSerial(start, Bits(a)), Pack(p)), 8 * |p|)
  {
    hide Xor, Pack, ZeroRun, BitSerial, WordBits, Drop;
    var c := BitSerial(start, Bits(a));
    BitsAppend(a, p);
    BitSerialAppend(start, Bits(a), Bits(p));
    Feed(c, Pack(p), 8 * |p|);
    PackBits(p);
    XorZero(BitSerial(c, Bits(p)));
  }

  // ---------------------------------------------------------------------------
  // Changes that leave the low bytes of the checksum alone
  // ---------------------------------------------------------------------------

  lemma {:induction false} ZeroRunBytes(w: bv32)
    ensures ZeroRun(w, 8) == MaskShift8(w)
    ensures ZeroRun(w, 16) == MaskShift8(MaskShift8(w))
    ensures ZeroRun(w, 24) == MaskShift8(MaskShift8(MaskShift8(w)))
  {
    hide MaskShift8, Shift8;
    ZeroRunByte(w);
    ZeroRunByte(MaskShift8(w));
    ZeroRunByte(MaskShift8(MaskShift8(w)));
    ZeroRunSplit(w, 8, 8);
    ZeroRunSplit(w, 8, 16);
    ZeroRunSplit(MaskShift8(w), 8, 8);
  }

  lemma ZeroRunByte(w: bv32)
    ensures ZeroRun(w, 8) == MaskShift8(w)
  {
    hide MaskShift8, Shift8, ZeroRun;
    ZeroRun8(w);
    SameShift8(w);
  }

  lemma {:induction false} ZeroRunSplit(w: bv32, m: nat, n: nat)
    ensures ZeroRun(w, m + n) == ZeroRun(ZeroRun(w, m), n)
    decreases m
  {
    if m > 0 {
      ZeroRunSplit(Shift(w), m - 1, n);
    }
  }

  lemma OneByteKernel(w: bv32)
    requires w < 0x100 && MaskShift8(w) & 0xff == 0
    ensures w == 0
  {
  }

  lemma TwoByteKernel(w: bv32)
    requires w < 0x1_0000 && MaskShift8(MaskShift8(w)) & 0xffff == 0
    ensures w == 0 || w == 0xd861
  {
  }

  lemma TwoBytePattern()
    ensures MaskShift8(MaskShift8(0xd861)) == 0xf4ee_0000
  {
  }

  /** The shift undone. */
  function Unshift(c: bv32): bv32 {
    if c & 0x8000_0000 != 0 then ((c ^ POLYNOMIAL) << 1) | 1 else c << 1
  }

  function Unshift8(c: bv32): bv32 {
    Unshift(Unshift(Unshift(Unshift(Unshift(Unshift(Unshift(Unshift(c))))))))
  }

  lemma Unshifted(c: bv32)
    ensures Unshift(MaskShift(c)) == c
  {
  }

  lemma Unshifted8(c: bv32)
    ensures Unshift8(MaskShift8(c)) == c
  {
    hide MaskShift, Unshift;
    Unshifted(c);
    Unshifted(MaskShift(c));
    Unshifted(MaskShift(MaskShift(c)));
    Unshifted(MaskShift(MaskShift(MaskShift(c))));
    Unshifted(MaskShift(MaskShift(MaskShift(MaskShift(c)))));
    Unshifted(MaskShift(MaskShift(MaskShift(MaskShift(MaskShift(c))))));
    Unshifted(MaskShift(MaskShift(MaskShift(MaskShift(MaskShift(MaskShift(c)))))));
    Unshifted(MaskShift(MaskShift(MaskShift(MaskShift(MaskShift(MaskShift(MaskShift(c))))))));
  }

  lemma TopByteKernel(r: bv32)
    requires r & 0xff_ffff == 0 && Unshift8(Unshift8(Unshift8(r))) < 0x100_0000
    ensures r == 0
  {
  }

  lemma ThreeByteKernel(w: bv32)
    requires w < 0x100_0000 && MaskShift8(MaskShift8(MaskShift8(w))) & 0xff_ffff == 0
    ensures w == 0
  {
    hide MaskShift8, Unshift8;
    var x := MaskShift8(w);
    var y := MaskShift8(x);
    Unshifted8(w);
    Unshifted8(x);
    Unshifted8(y);
    TopByteKernel(MaskShift8(y));
    UnshiftZero();
  }

  lemma UnshiftZero()
    ensures Unshift8(0) == 0
  {
  }

  // ---------------------------------------------------------------------------
  // The check value
  // ---------------------------------------------------------------------------

  lemma OneByteFed(start: bv32, a: seq<bv8>, b: bv8)
    ensures BitSerial(start, Bits(a + [b])) == MaskShift8(Xor(BitSerial(start, Bits(a)), b as bv32))
  {
    hide BitSerial, ZeroRun, MaskShift8, Above, Xor;
    Fed(start, a, [b]);
    assert [b][1..] == [];
    OneByteWord(b);
    ZeroRunByte(Xor(BitSerial(start, Bits(a)), b as bv32));
  }

  lemma OneByteWord(b: bv8)
    ensures Above(b, 0) == b as bv32
  {
  }

  /** The digits from 1 to 9 have the check value that catalogues of the code give for it. */
  lemma CheckValue()
    ensures Checksum(0, [0x31, 0x32, 0x33, 0x34, 0x35, 0x36, 0x37, 0x38, 0x39]) == 0xcbf4_3926
  {
    hide BitSerial, Bits, MaskShift8;
    var digits: seq<bv8> := [0x31, 0x32, 0x33, 0x34, 0x35, 0x36, 0x37, 0x38, 0x39];
    NoBytesFed(ALL_ONES);
    OneByteFed(ALL_ONES, digits[..0], digits[0]);
    OneByteFed(ALL_ONES, digits[..1], digits[1]);
    OneByteFed(ALL_ONES, digits[..2], digits[2]);
    OneByteFed(ALL_ONES, digits[..3], digits[3]);
    OneByteFed(ALL_ONES, digits[..4], digits[4]);
    OneByteFed(ALL_ONES, digits[..5], digits[5]);
    OneByteFed(ALL_ONES, digits[..6], digits[6]);
    OneByteFed(ALL_ONES, digits[..7], digits[7]);
    OneByteFed(ALL_ONES, digits[..8], digits[8]);
    NinePrefixes(digits);
    Registers();
  }

  lemma NoBytesFed(start: bv32)
    ensures BitSerial(start, Bits([])) == start
  {
  }

  lemma NinePrefixes(s: seq<bv8>)
    requires |s| == 9
    ensures forall i :: 0 <= i < 9 ==> s[..i] + [s[i]] == s[..i + 1]
    ensures s[..0] == [] && s[..9] == s
  {
  }

  /** The register after each of the digits. */
  lemma Registers()
    ensures MaskShift8(Xor(0xffffffff, 0x31)) == 0x7c231048
    ensures MaskShift8(Xor(0x7c231048, 0x32)) == 0xb0acbb32
    ensures MaskShift8(Xor(0xb0acbb32, 0x33)) == 0x77b79c2d
    ensures MaskShift8(Xor(0x77b79c2d, 0x34)) == 0x641c1f5c
    ensures MaskShift8(Xor(0x641c1f5c, 0x35)) == 0x340ac5e3
    ensures MaskShift8(Xor(0x340ac5e3, 0x36)) == 0xf68d2c9e
    ensures MaskShift8(Xor(0xf68d2c9e, 0x37)) == 0xaffc9660
    ensures MaskShift8(Xor(0xaffc9660, 0x38)) == 0x651f2550
    ensures MaskShift8(Xor(0x651f2550, 0x39)) == 0x340bc6d9
  {
  }
}
