/** The table-driven CRC-32 of mininet-webrtc/razor/cf_crc32.c.

    The reference it is compared with is a 32-bit shift register with feedback that takes the
    message one bit at a time, least significant bit of each byte first: the CRC-32 of section 8
    of RFC 1952. The module shows that the table form computes the register, and that the register
    detects every burst of at most 32 bits, wherever it starts. */
module Crc32 {

  /** The feedback polynomial, in the bit order of the register. */
  const POLYNOMIAL: bv32 := 0xedb88320

  const ALL_ONES: bv32 := 0xffffffff

  /** The 256 constants of the source, laid out as 16 rows of 16. */
  const CRC32_TAB: seq<seq<bv32>> := [
    [ 0x00000000, 0x77073096, 0xee0e612c, 0x990951ba, 0x076dc419, 0x706af48f, 0xe963a535, 0x9e6495a3,
      0x0edb8832, 0x79dcb8a4, 0xe0d5e91e, 0x97d2d988, 0x09b64c2b, 0x7eb17cbd, 0xe7b82d07, 0x90bf1d91 ],
    [ 0x1db71064, 0x6ab020f2, 0xf3b97148, 0x84be41de, 0x1adad47d, 0x6ddde4eb, 0xf4d4b551, 0x83d385c7,
      0x136c9856, 0x646ba8c0, 0xfd62f97a, 0x8a65c9ec, 0x14015c4f, 0x63066cd9, 0xfa0f3d63, 0x8d080df5 ],
    [ 0x3b6e20c8, 0x4c69105e, 0xd56041e4, 0xa2677172, 0x3c03e4d1, 0x4b04d447, 0xd20d85fd, 0xa50ab56b,
      0x35b5a8fa, 0x42b2986c, 0xdbbbc9d6, 0xacbcf940, 0x32d86ce3, 0x45df5c75, 0xdcd60dcf, 0xabd13d59 ],
    [ 0x26d930ac, 0x51de003a, 0xc8d75180, 0xbfd06116, 0x21b4f4b5, 0x56b3c423, 0xcfba9599, 0xb8bda50f,
      0x2802b89e, 0x5f058808, 0xc60cd9b2, 0xb10be924, 0x2f6f7c87, 0x58684c11, 0xc1611dab, 0xb6662d3d ],
    [ 0x76dc4190, 0x01db7106, 0x98d220bc, 0xefd5102a, 0x71b18589, 0x06b6b51f, 0x9fbfe4a5, 0xe8b8d433,
      0x7807c9a2, 0x0f00f934, 0x9609a88e, 0xe10e9818, 0x7f6a0dbb, 0x086d3d2d, 0x91646c97, 0xe6635c01 ],
    [ 0x6b6b51f4, 0x1c6c6162, 0x856530d8, 0xf262004e, 0x6c0695ed, 0x1b01a57b, 0x8208f4c1, 0xf50fc457,
      0x65b0d9c6, 0x12b7e950, 0x8bbeb8ea, 0xfcb9887c, 0x62dd1ddf, 0x15da2d49, 0x8cd37cf3, 0xfbd44c65 ],
    [ 0x4db26158, 0x3ab551ce, 0xa3bc0074, 0xd4bb30e2, 0x4adfa541, 0x3dd895d7, 0xa4d1c46d, 0xd3d6f4fb,
      0x4369e96a, 0x346ed9fc, 0xad678846, 0xda60b8d0, 0x44042d73, 0x33031de5, 0xaa0a4c5f, 0xdd0d7cc9 ],
    [ 0x5005713c, 0x270241aa, 0xbe0b1010, 0xc90c2086, 0x5768b525, 0x206f85b3, 0xb966d409, 0xce61e49f,
      0x5edef90e, 0x29d9c998, 0xb0d09822, 0xc7d7a8b4, 0x59b33d17, 0x2eb40d81, 0xb7bd5c3b, 0xc0ba6cad ],
    [ 0xedb88320, 0x9abfb3b6, 0x03b6e20c, 0x74b1d29a, 0xead54739, 0x9dd277af, 0x04db2615, 0x73dc1683,
      0xe3630b12, 0x94643b84, 0x0d6d6a3e, 0x7a6a5aa8, 0xe40ecf0b, 0x9309ff9d, 0x0a00ae27, 0x7d079eb1 ],
    [ 0xf00f9344, 0x8708a3d2, 0x1e01f268, 0x6906c2fe, 0xf762575d, 0x806567cb, 0x196c3671, 0x6e6b06e7,
      0xfed41b76, 0x89d32be0, 0x10da7a5a, 0x67dd4acc, 0xf9b9df6f, 0x8ebeeff9, 0x17b7be43, 0x60b08ed5 ],
    [ 0xd6d6a3e8, 0xa1d1937e, 0x38d8c2c4, 0x4fdff252, 0xd1bb67f1, 0xa6bc5767, 0x3fb506dd, 0x48b2364b,
      0xd80d2bda, 0xaf0a1b4c, 0x36034af6, 0x41047a60, 0xdf60efc3, 0xa867df55, 0x316e8eef, 0x4669be79 ],
    [ 0xcb61b38c, 0xbc66831a, 0x256fd2a0, 0x5268e236, 0xcc0c7795, 0xbb0b4703, 0x220216b9, 0x5505262f,
      0xc5ba3bbe, 0xb2bd0b28, 0x2bb45a92, 0x5cb36a04, 0xc2d7ffa7, 0xb5d0cf31, 0x2cd99e8b, 0x5bdeae1d ],
    [ 0x9b64c2b0, 0xec63f226, 0x756aa39c, 0x026d930a, 0x9c0906a9, 0xeb0e363f, 0x72076785, 0x05005713,
      0x95bf4a82, 0xe2b87a14, 0x7bb12bae, 0x0cb61b38, 0x92d28e9b, 0xe5d5be0d, 0x7cdcefb7, 0x0bdbdf21 ],
    [ 0x86d3d2d4, 0xf1d4e242, 0x68ddb3f8, 0x1fda836e, 0x81be16cd, 0xf6b9265b, 0x6fb077e1, 0x18b74777,
      0x88085ae6, 0xff0f6a70, 0x66063bca, 0x11010b5c, 0x8f659eff, 0xf862ae69, 0x616bffd3, 0x166ccf45 ],
    [ 0xa00ae278, 0xd70dd2ee, 0x4e048354, 0x3903b3c2, 0xa7672661, 0xd06016f7, 0x4969474d, 0x3e6e77db,
      0xaed16a4a, 0xd9d65adc, 0x40df0b66, 0x37d83bf0, 0xa9bcae53, 0xdebb9ec5, 0x47b2cf7f, 0x30b5ffe9 ],
    [ 0xbdbdf21c, 0xcabac28a, 0x53b39330, 0x24b4a3a6, 0xbad03605, 0xcdd70693, 0x54de5729, 0x23d967bf,
      0xb3667a2e, 0xc4614ab8, 0x5d681b02, 0x2a6f2b94, 0xb40bbe37, 0xc30c8ea1, 0x5a05df1b, 0x2d02ef8d ]
  ]

  lemma TableSize()
    ensures |CRC32_TAB| == 16 && forall i :: 0 <= i < 16 ==> |CRC32_TAB[i]| == 16
  {
  }

  // The exclusive or is named so that its algebra is used through the lemmas below.
  function Xor(a: bv32, b: bv32): bv32 {
    a ^ b
  }

  function Half(a: bv32): bv32 {
    a >> 1
  }

  predicate Low(a: bv32) {
    a & 1 == 1
  }

  function Bit(b: bool): bv32 {
    if b then 1 else 0
  }

  /** Entry `i` of the table. */
  function Tab(i: bv32): bv32
    requires i < 256
  {
    TableSize();
    CRC32_TAB[(i >> 4) as int][(i & 0xf) as int]
  }

  /** One turn of the loop in `crc32`. */
  function TableStep(crc: bv32, b: bv8): bv32 {
    Xor(Tab(Xor(crc, b as bv32) & 0xff), crc >> 8)
  }

  /** The register takes a zero bit. */
  function Shift(c: bv32): bv32 {
    if Low(c) then Xor(POLYNOMIAL, Half(c)) else Half(c)
  }

  /** The register takes one message bit. */
  function BitStep(c: bv32, b: bool): bv32 {
    Shift(Xor(c, Bit(b)))
  }

  /** The register takes a whole bit string. */
  function BitSerial(c: bv32, bits: seq<bool>): bv32
    decreases |bits|
  {
    if bits == [] then c else BitSerial(BitStep(c, bits[0]), bits[1..])
  }

  /** The `n` low bits of a word, least significant first. */
  function WordBits(w: bv32, n: nat): (bits: seq<bool>)
    ensures |bits| == n
    decreases n
  {
    if n == 0 then [] else [Low(w)] + WordBits(Half(w), n - 1)
  }

  function ByteBits(b: bv8): seq<bool> {
    WordBits(b as bv32, 8)
  }

  /** The message as a bit string. */
  function Bits(buf: seq<bv8>): (bits: seq<bool>)
    ensures |bits| == 8 * |buf|
  {
    if buf == [] then [] else ByteBits(buf[0]) + Bits(buf[1..])
  }

  /** The CRC of a message, continuing from the CRC `crc` of what came before it. */
  function Checksum(crc: bv32, buf: seq<bv8>): bv32 {
    Xor(BitSerial(Xor(crc, ALL_ONES), Bits(buf)), ALL_ONES)
  }

  /** The function of the source: its loop computes the bit-serial checksum. */
  method Crc32(crc: bv32, buf: seq<bv8>) returns (r: bv32)
    ensures r == Checksum(crc, buf)
  {
    var c := Xor(crc, ALL_ONES);
    ghost var start := c;
    var i := 0;
    while i < |buf|
      invariant 0 <= i <= |buf|
      invariant BitSerial(start, Bits(buf)) == BitSerial(c, Bits(buf[i..]))
    {
      TableStepIsByte(c, buf[i]);
      BitSerialAppend(c, ByteBits(buf[i]), Bits(buf[i..][1..]));
      assert buf[i..][1..] == buf[i + 1..];
      c := Xor(Tab(Xor(c, buf[i] as bv32) & 0xff), c >> 8);
      i := i + 1;
    }
    r := Xor(c, ALL_ONES);
  }

  // ---------------------------------------------------------------------------
  // Algebra of the register
  // ---------------------------------------------------------------------------

  lemma XorAssociative(a: bv32, b: bv32, c: bv32)
    ensures Xor(Xor(a, b), c) == Xor(a, Xor(b, c))
  {
  }

  lemma XorCommutes(a: bv32, b: bv32)
    ensures Xor(a, b) == Xor(b, a)
  {
  }

  lemma XorCancels(a: bv32, b: bv32)
    ensures Xor(a, Xor(a, b)) == b
  {
  }

  lemma HalfOfXor(x: bv32, y: bv32)
    ensures Half(Xor(x, y)) == Xor(Half(x), Half(y))
  {
  }

  lemma LowOfXor(x: bv32, y: bv32)
    ensures Low(Xor(x, y)) <==> (Low(x) != Low(y))
  {
    assert (x ^ y) & 1 == (x & 1) ^ (y & 1);
  }

  /** The register is linear over exclusive or. */
  lemma ShiftLinear(x: bv32, y: bv32)
    ensures Shift(Xor(x, y)) == Xor(Shift(x), Shift(y))
  {
    var p, a, b := POLYNOMIAL, Half(x), Half(y);
    HalfOfXor(x, y);
    LowOfXor(x, y);
    XorAssociative(p, a, b);
    XorCommutes(p, b);
    XorAssociative(a, p, b);
    XorCommutes(p, a);
    XorAssociative(p, a, Xor(p, b));
    XorCommutes(a, p);
    XorCancels(p, Xor(a, b));
  }

  /** A shift loses nothing: distinct states stay distinct. */
  lemma ShiftInjective(x: bv32, y: bv32)
    requires Shift(x) == Shift(y)
    ensures x == y
  {
  }

  lemma XorInjective(x: bv32, y: bv32, c: bv32)
    requires Xor(c, x) == Xor(c, y)
    ensures x == y
  {
  }

  lemma {:induction false} BitSerialAppend(c: bv32, x: seq<bool>, y: seq<bool>)
    ensures BitSerial(c, x + y) == BitSerial(BitSerial(c, x), y)
    decreases |x|
  {
    if x == [] {
      assert x + y == y;
    } else {
      assert (x + y)[1..] == x[1..] + y;
      BitSerialAppend(BitStep(c, x[0]), x[1..], y);
    }
  }

  /** For a fixed message the register is a bijection of its state. */
  lemma {:induction false} BitSerialInjective(c: bv32, d: bv32, bits: seq<bool>)
    requires BitSerial(c, bits) == BitSerial(d, bits)
    ensures c == d
    decreases |bits|
  {
    if bits != [] {
      BitSerialInjective(BitStep(c, bits[0]), BitStep(d, bits[0]), bits[1..]);
      ShiftInjective(Xor(c, Bit(bits[0])), Xor(d, Bit(bits[0])));
      XorCommutes(c, Bit(bits[0]));
      XorCommutes(d, Bit(bits[0]));
      XorInjective(c, d, Bit(bits[0]));
    }
  }

  // ---------------------------------------------------------------------------
  // Feeding a word at once
  // ---------------------------------------------------------------------------

  /** `n` zero bits. */
  function ZeroRun(c: bv32, n: nat): bv32
    decreases n
  {
    if n == 0 then c else ZeroRun(Shift(c), n - 1)
  }

  /** What is left of a word after its `n` low bits. */
  function Drop(w: bv32, n: nat): bv32
    decreases n
  {
    if n == 0 then w else Drop(Half(w), n - 1)
  }

  lemma SplitLow(c: bv32, w: bv32)
    ensures Xor(c, w) == Xor(Xor(c, Bit(Low(w))), w & 0xfffffffe)
  {
    assert w & 1 == Bit(Low(w));
    assert w == (w & 1) ^ (w & 0xfffffffe);
    assert c ^ ((w & 1) ^ (w & 0xfffffffe)) == (c ^ (w & 1)) ^ (w & 0xfffffffe);
  }

  lemma ShiftEven(w: bv32)
    ensures Shift(w & 0xfffffffe) == Half(w)
  {
  }

  lemma ShiftWord(c: bv32, w: bv32)
    ensures Shift(Xor(c, w)) == Xor(BitStep(c, Low(w)), Half(w))
  {
    SplitLow(c, w);
    ShiftLinear(Xor(c, Bit(Low(w))), w & 0xfffffffe);
    ShiftEven(w);
  }

  /** Adding a word to the state and shifting `n` times is taking the word's `n` low bits one by
      one, except for the part of the word not yet shifted out. */
  lemma {:induction false} Feed(c: bv32, w: bv32, n: nat)
    ensures ZeroRun(Xor(c, w), n) == Xor(BitSerial(c, WordBits(w, n)), Drop(w, n))
    decreases n
  {
    if n > 0 {
      ShiftWord(c, w);
      Feed(BitStep(c, Low(w)), Half(w), n - 1);
      assert WordBits(w, n)[1..] == WordBits(Half(w), n - 1);
    }
  }

  lemma {:induction false} DropSplit(w: bv32, m: nat, n: nat)
    ensures Drop(w, m + n) == Drop(Drop(w, m), n)
    decreases m
  {
    if m > 0 {
      DropSplit(Half(w), m - 1, n);
    }
  }

  lemma {:induction false} DropZero(n: nat)
    ensures Drop(0, n) == 0
  {
    if n > 0 {
      DropZero(n - 1);
    }
  }

  function Quarter(w: bv32): bv32 {
    w >> 2
  }

  lemma DropOne(w: bv32)
    ensures Drop(w, 1) == Half(w)
  {
  }

  lemma DropTwo(w: bv32)
    ensures Drop(w, 2) == Quarter(w)
  {
    assert (w >> 1) >> 1 == w >> 2;
  }

  lemma QuartersAdd(w: bv32)
    ensures Quarter(Quarter(Quarter(Quarter(w)))) == w >> 8
    ensures Half(Quarter(Quarter(Quarter(w)))) == w >> 7
  {
  }

  lemma Drop8(w: bv32)
    ensures Drop(w, 8) == w >> 8
  {
    hide Drop, Quarter, Half;
    var x := Quarter(w);
    var y := Quarter(x);
    DropSplit(w, 2, 6);
    DropSplit(x, 2, 4);
    DropSplit(y, 2, 2);
    DropTwo(w);
    DropTwo(x);
    DropTwo(y);
    DropTwo(Quarter(y));
    QuartersAdd(w);
  }

  lemma Drop7(w: bv32)
    ensures Drop(w, 7) == w >> 7
  {
    hide Drop, Quarter, Half;
    var x := Quarter(w);
    var y := Quarter(x);
    DropSplit(w, 2, 5);
    DropSplit(x, 2, 3);
    DropSplit(y, 2, 1);
    DropTwo(w);
    DropTwo(x);
    DropTwo(y);
    DropOne(Quarter(y));
    QuartersAdd(w);
  }

  lemma ShiftsAdd(w: bv32)
    ensures (((w >> 8) >> 8) >> 8) >> 7 == w >> 31
  {
  }

  lemma Drop31(w: bv32)
    ensures Drop(w, 31) == w >> 31
  {
    var x := w >> 8;
    var y := x >> 8;
    var z := y >> 8;
    DropSplit(w, 8, 23);
    DropSplit(x, 8, 15);
    DropSplit(y, 8, 7);
    Drop8(w);
    Drop8(x);
    Drop8(y);
    Drop7(z);
    ShiftsAdd(w);
  }

  lemma {:induction false} BitSerialOfZeros(c: bv32, n: nat)
    ensures BitSerial(c, WordBits(0, n)) == ZeroRun(c, n)
  {
    Feed(c, 0, n);
    DropZero(n);
  }

  // ---------------------------------------------------------------------------
  // The table refines the register
  // ---------------------------------------------------------------------------

  function Shift8(c: bv32): bv32 {
    Shift(Shift(Shift(Shift(Shift(Shift(Shift(Shift(c))))))))
  }

  lemma ZeroRun8(c: bv32)
    ensures ZeroRun(c, 8) == Shift8(c)
  {
    var d := Shift(Shift(Shift(Shift(c))));
    assert ZeroRun(c, 8) == ZeroRun(d, 4);
    assert ZeroRun(d, 4) == Shift(Shift(Shift(Shift(d))));
  }

  // The shift again, without a condition: the feedback is masked by the low bit.
  function Feedback(c: bv32): bv32 {
    (0 - (c & 1)) & POLYNOMIAL
  }

  function MaskShift(c: bv32): bv32 {
    Xor(Half(c), Feedback(c))
  }

  function MaskShift8(c: bv32): bv32 {
    MaskShift(MaskShift(MaskShift(MaskShift(MaskShift(MaskShift(MaskShift(MaskShift(c))))))))
  }

  lemma MaskedFeedback(c: bv32)
    ensures Feedback(c) == if Low(c) then POLYNOMIAL else 0
  {
  }

  lemma SameShift(c: bv32)
    ensures MaskShift(c) == Shift(c)
  {
    hide Xor, Half, Low, Feedback;
    MaskedFeedback(c);
    XorCommutes(POLYNOMIAL, Half(c));
    XorZero(Half(c));
  }

  lemma SameShift8(c: bv32)
    ensures MaskShift8(c) == Shift8(c)
  {
    hide MaskShift, Shift;
    SameShift(c);
    SameShift(Shift(c));
    SameShift(Shift(Shift(c)));
    SameShift(Shift(Shift(Shift(c))));
    SameShift(Shift(Shift(Shift(Shift(c)))));
    SameShift(Shift(Shift(Shift(Shift(Shift(c))))));
    SameShift(Shift(Shift(Shift(Shift(Shift(Shift(c)))))));
    SameShift(Shift(Shift(Shift(Shift(Shift(Shift(Shift(c))))))));
  }

  lemma TableRows0(i: bv32)
    requires i < 32
    ensures Tab(i) == MaskShift8(i)
  {
  }

  lemma TableRows1(i: bv32)
    requires 32 <= i < 64
    ensures Tab(i) == MaskShift8(i)
  {
  }

  lemma TableRows2(i: bv32)
    requires 64 <= i < 96
    ensures Tab(i) == MaskShift8(i)
  {
  }

  lemma TableRows3(i: bv32)
    requires 96 <= i < 128
    ensures Tab(i) == MaskShift8(i)
  {
  }

  lemma TableRows4(i: bv32)
    requires 128 <= i < 160
    ensures Tab(i) == MaskShift8(i)
  {
  }

  lemma TableRows5(i: bv32)
    requires 160 <= i < 192
    ensures Tab(i) == MaskShift8(i)
  {
  }

  lemma TableRows6(i: bv32)
    requires 192 <= i < 224
    ensures Tab(i) == MaskShift8(i)
  {
  }

  lemma TableRows7(i: bv32)
    requires 224 <= i < 256
    ensures Tab(i) == MaskShift8(i)
  {
  }

  /** Every constant of the table is its index shifted through the register eight times. */
  lemma TableEntry(i: bv32)
    requires i < 256
    ensures Tab(i) == ZeroRun(i, 8)
  {
    hide Tab, MaskShift8, Shift8;
    ZeroRun8(i);
    SameShift8(i);
    if i < 32 {
      TableRows0(i);
    } else if i < 64 {
      TableRows1(i);
    } else if i < 96 {
      TableRows2(i);
    } else if i < 128 {
      TableRows3(i);
    } else if i < 160 {
      TableRows4(i);
    } else if i < 192 {
      TableRows5(i);
    } else if i < 224 {
      TableRows6(i);
    } else {
      TableRows7(i);
    }
  }

  lemma LowByteZero(w: bv32)
    requires w & 0xff == 0
    ensures WordBits(w, 8) == WordBits(0, 8)
  {
    assert !Low(w) && !Low(w >> 1) && !Low(w >> 2) && !Low(w >> 3);
    assert !Low(w >> 4) && !Low(w >> 5) && !Low(w >> 6) && !Low(w >> 7);
    assert WordBits(w, 8) == [false, false, false, false] + WordBits(w >> 4, 4);
    assert WordBits(w >> 4, 4) == [false, false, false, false];
    assert WordBits(0, 8) == [false, false, false, false] + WordBits(0, 4);
    assert WordBits(0, 4) == [false, false, false, false];
  }

  lemma SplitByte(x: bv32)
    ensures x == Xor(x & 0xff, x & 0xffffff00)
    ensures (x & 0xffffff00) & 0xff == 0 && (x & 0xffffff00) >> 8 == x >> 8
  {
  }

  lemma ByteAboveState(c: bv32, w: bv32)
    requires w < 256
    ensures w >> 8 == 0 && Xor(c, w) >> 8 == c >> 8
  {
  }

  lemma ByteIsSmall(x: bv32)
    ensures x & 0xff < 256
  {
  }

  lemma XorZero(c: bv32)
    ensures Xor(c, 0) == c
  {
  }

  /** Eight shifts of a state: the table handles its low byte, a plain shift the rest. */
  lemma ZeroRunByTable(x: bv32)
    ensures ZeroRun(x, 8) == Xor(Tab(x & 0xff), x >> 8)
  {
    var lo, hi := x & 0xff, x & 0xffffff00;
    SplitByte(x);
    Feed(lo, hi, 8);
    LowByteZero(hi);
    BitSerialOfZeros(lo, 8);
    ByteIsSmall(x);
    TableEntry(lo);
    Drop8(hi);
  }

  /** One turn of the loop is eight turns of the register. */
  lemma TableStepIsByte(c: bv32, b: bv8)
    ensures TableStep(c, b) == BitSerial(c, ByteBits(b))
  {
    var w := b as bv32;
    Feed(c, w, 8);
    Drop8(w);
    ByteAboveState(c, w);
    XorZero(BitSerial(c, ByteBits(b)));
    ZeroRunByTable(Xor(c, w));
  }

  lemma {:induction false} BitsAppend(a: seq<bv8>, b: seq<bv8>)
    ensures Bits(a + b) == Bits(a) + Bits(b)
  {
    if a == [] {
      assert a + b == b;
    } else {
      assert (a + b)[1..] == a[1..] + b;
      BitsAppend(a[1..], b);
    }
  }

  /** A checksum may be computed in pieces. */
  lemma ChecksumChains(crc: bv32, a: seq<bv8>, b: seq<bv8>)
    ensures Checksum(Checksum(crc, a), b) == Checksum(crc, a + b)
  {
    var c := BitSerial(Xor(crc, ALL_ONES), Bits(a));
    XorCommutes(c, ALL_ONES);
    XorCommutes(Xor(c, ALL_ONES), ALL_ONES);
    XorCancels(ALL_ONES, c);
    BitsAppend(a, b);
    BitSerialAppend(Xor(crc, ALL_ONES), Bits(a), Bits(b));
  }

  // ---------------------------------------------------------------------------
  // Burst detection
  // ---------------------------------------------------------------------------

  /** The word whose low bits are `bits`. */
  function WordOf(bits: seq<bool>): bv32 {
    if bits == [] then 0 else Push(WordOf(bits[1..]), bits[0])
  }

  function Push(w: bv32, b: bool): bv32 {
    Xor(w << 1, Bit(b))
  }

  lemma TopClear(w: bv32, n: nat)
    requires n <= 31 && Drop(w, n) == 0
    ensures w >> 31 == 0
  {
    DropSplit(w, n, 31 - n);
    DropZero(31 - n);
    Drop31(w);
  }

  lemma PushBit(w: bv32, b: bool)
    requires w >> 31 == 0
    ensures Half(Push(w, b)) == w && (Low(Push(w, b)) <==> b)
  {
  }

  lemma {:induction false} WordOfBits(bits: seq<bool>)
    requires |bits| <= 32
    ensures WordBits(WordOf(bits), |bits|) == bits && Drop(WordOf(bits), |bits|) == 0
  {
    if bits != [] {
      WordOfBits(bits[1..]);
      TopClear(WordOf(bits[1..]), |bits| - 1);
      PushBit(WordOf(bits[1..]), bits[0]);
    }
  }

  lemma {:induction false} ZeroRunInjective(c: bv32, d: bv32, n: nat)
    requires ZeroRun(c, n) == ZeroRun(d, n)
    ensures c == d
    decreases n
  {
    if n > 0 {
      ZeroRunInjective(Shift(c), Shift(d), n - 1);
      ShiftInjective(c, d);
    }
  }

  /** From one state, two different windows of at most 32 bits lead to different states. */
  lemma WindowDetected(c: bv32, x: seq<bool>, y: seq<bool>)
    requires |x| == |y| <= 32 && x != y
    ensures BitSerial(c, x) != BitSerial(c, y)
  {
    var n, v, w := |x|, WordOf(x), WordOf(y);
    WordOfBits(x);
    WordOfBits(y);
    Feed(c, v, n);
    Feed(c, w, n);
    if BitSerial(c, x) == BitSerial(c, y) {
      ZeroRunInjective(Xor(c, v), Xor(c, w), n);
      XorInjective(v, w, c);
      assert false;
    }
  }

  lemma ThreeParts(c: bv32, x: seq<bool>, start: nat, n: nat)
    requires start + n <= |x|
    ensures BitSerial(c, x)
         == BitSerial(BitSerial(BitSerial(c, x[..start]), x[start..start + n]), x[start + n..])
  {
    assert x == x[..start] + (x[start..start + n] + x[start + n..]);
    BitSerialAppend(c, x[..start], x[start..start + n] + x[start + n..]);
    BitSerialAppend(BitSerial(c, x[..start]), x[start..start + n], x[start + n..]);
  }

  lemma OnlyWindowDiffers(x: seq<bool>, y: seq<bool>, start: nat, n: nat)
    requires |x| == |y| && start + n <= |x| && x != y
    requires forall k :: 0 <= k < |x| && !(start <= k < start + n) ==> x[k] == y[k]
    ensures x[..start] == y[..start] && x[start + n..] == y[start + n..]
    ensures x[start..start + n] != y[start..start + n]
  {
    if x[start..start + n] == y[start..start + n] {
      forall k | 0 <= k < |x|
        ensures x[k] == y[k]
      {
        if start <= k < start + n {
          assert x[k] == x[start..start + n][k - start] == y[start..start + n][k - start];
        }
      }
      assert false;
    }
  }

  lemma BurstBits(c: bv32, x: seq<bool>, y: seq<bool>, start: nat, n: nat)
    requires |x| == |y| && n <= 32 && start + n <= |x| && x != y
    requires forall k :: 0 <= k < |x| && !(start <= k < start + n) ==> x[k] == y[k]
    ensures BitSerial(c, x) != BitSerial(c, y)
  {
    var p, q := x[start..start + n], y[start..start + n];
    var d := BitSerial(c, x[..start]);
    OnlyWindowDiffers(x, y, start, n);
    ThreeParts(c, x, start, n);
    ThreeParts(c, y, start, n);
    WindowDetected(d, p, q);
    if BitSerial(c, x) == BitSerial(c, y) {
      BitSerialInjective(BitSerial(d, p), BitSerial(d, q), x[start + n..]);
      assert false;
    }
  }

  /** Any two different messages of one length that differ only inside a window of 32 consecutive
      bits have different checksums, whatever the start value and wherever the window lies. */
  lemma BurstDetected(crc: bv32, a: seq<bv8>, b: seq<bv8>, start: nat, n: nat)
    requires |a| == |b| && n <= 32 && start + n <= 8 * |a|
    requires Bits(a) != Bits(b)
    requires forall k :: 0 <= k < 8 * |a| && !(start <= k < start + n) ==> Bits(a)[k] == Bits(b)[k]
    ensures Checksum(crc, a) != Checksum(crc, b)
  {
    var c := Xor(crc, ALL_ONES);
    BurstBits(c, Bits(a), Bits(b), start, n);
    if Checksum(crc, a) == Checksum(crc, b) {
      XorCommutes(BitSerial(c, Bits(a)), ALL_ONES);
      XorCommutes(BitSerial(c, Bits(b)), ALL_ONES);
      XorInjective(BitSerial(c, Bits(a)), BitSerial(c, Bits(b)), ALL_ONES);
      assert false;
    }
  }

  lemma ByteBitsInjective(a: bv8, b: bv8)
    requires a != b
    ensures ByteBits(a) != ByteBits(b)
  {
    if ByteBits(a) == ByteBits(b) {
      var v, w := a as bv32, b as bv32;
      Feed(0, v, 8);
      Feed(0, w, 8);
      Drop8(v);
      Drop8(w);
      assert v >> 8 == 0 && w >> 8 == 0;
      ZeroRunInjective(Xor(0, v), Xor(0, w), 8);
      XorInjective(v, w, 0);
      assert false;
    }
  }

  lemma {:induction false} BitsAt(a: seq<bv8>, i: nat)
    requires i < |a|
    ensures Bits(a)[8 * i..8 * i + 8] == ByteBits(a[i])
  {
    BitsAppend(a[..i], a[i..]);
    assert a == a[..i] + a[i..];
    assert a[i..] == [a[i]] + a[i..][1..];
  }

  lemma SameByteSameBit(a: seq<bv8>, b: seq<bv8>, m: nat)
    requires |a| == |b| && m < 8 * |a| && a[m / 8] == b[m / 8]
    ensures Bits(a)[m] == Bits(b)[m]
  {
    hide ByteBits;
    var j := m / 8;
    BitsAt(a, j);
    BitsAt(b, j);
    assert Bits(a)[m] == Bits(a)[8 * j..8 * j + 8][m - 8 * j];
    assert Bits(b)[m] == Bits(b)[8 * j..8 * j + 8][m - 8 * j];
  }

  /** The byte-aligned case: a change confined to four consecutive bytes is always seen. */
  lemma FourBytesDetected(crc: bv32, a: seq<bv8>, b: seq<bv8>, i: nat)
    requires |a| == |b| && a != b
    requires forall k :: 0 <= k < |a| && !(i <= k < i + 4) ==> a[k] == b[k]
    ensures Checksum(crc, a) != Checksum(crc, b)
  {
    var k :| 0 <= k < |a| && a[k] != b[k];
    ByteBitsInjective(a[k], b[k]);
    BitsAt(a, k);
    BitsAt(b, k);
    var n := if i + 4 <= |a| then 32 else 8 * (|a| - i);
    forall m | 0 <= m < 8 * |a| && !(8 * i <= m < 8 * i + n)
      ensures Bits(a)[m] == Bits(b)[m]
    {
      assert a[m / 8] == b[m / 8];
      SameByteSameBit(a, b, m);
    }
    BurstDetected(crc, a, b, 8 * i, n);
  }
}
