/** Which changes of up to four consecutive bytes the checksum of a message detects. The checksum is
    sent most significant byte first, while the register it comes from works from the low bits up,
    so a change that runs from the message into the checksum is not a burst of the code: one
    pattern of such a change goes unseen, and no other. */
module Corruption {
  import opened BinStream
  import opened Bytes
  import opened CrcTail
  import opened SimProto
  import opened Wrappers
  import Crc32

  // ---------------------------------------------------------------------------
  // The checksum field in words
  // ---------------------------------------------------------------------------

  function LowByte(c: bv32): bv8 {
    (c & 0xff) as bv8
  }

  function Down8(c: bv32): bv32 {
    c >> 8
  }

  function Down16(c: bv32): bv32 {
    c >> 16
  }

  function Down24(c: bv32): bv32 {
    c >> 24
  }

  /** The four bytes of a word, most significant first. */
  function BigEndian(c: bv32): (bs: seq<bv8>)
    ensures |bs| == 4
  {
    [LowByte(Down24(c)), LowByte(Down16(c)), LowByte(Down8(c)), LowByte(c)]
  }

  function Number(w: bv8): (b: Byte)
    ensures Word(b) == w
  {
    NumberFits(w);
    w as int
  }

  lemma NumberFits(w: bv8)
    ensures 0 <= w as int < 256 && Word(w as int) == w
  {
    hide Word;
    var b: Byte := w as int;
    assert Word(b) as int == w as int;
    assert (Word(b) as int) as bv8 == Word(b) && (w as int) as bv8 == w;
  }

  lemma HalfNumber(x: bv16)
    ensures x as int == 256 * (((x >> 8) as bv8) as int) + (((x & 0xff) as bv8) as int)
  {
  }

  lemma HalvesNumber(x: bv16, y: bv16)
    ensures (((x as bv32) << 16) | (y as bv32)) as int == 65536 * (x as int) + (y as int)
  {
  }

  function HighHalf(c: bv32): bv16 {
    (c >> 16) as bv16
  }

  function LowHalf(c: bv32): bv16 {
    (c & 0xffff) as bv16
  }

  lemma Halves(c: bv32)
    ensures ((HighHalf(c) as bv32) << 16) | (LowHalf(c) as bv32) == c
    ensures LowByte(Down24(c)) == (HighHalf(c) >> 8) as bv8 && LowByte(Down16(c)) == (HighHalf(c) & 0xff) as bv8
    ensures LowByte(Down8(c)) == (LowHalf(c) >> 8) as bv8 && LowByte(c) == (LowHalf(c) & 0xff) as bv8
  {
  }

  /** A word as a number, by its bytes. */
  lemma WordNumber(c: bv32)
    ensures c as int == 256 * (256 * (256 * (LowByte(Down24(c)) as int) + (LowByte(Down16(c)) as int))
                               + (LowByte(Down8(c)) as int)) + (LowByte(c) as int)
  {
    hide HighHalf, LowHalf, LowByte, Down8, Down16, Down24;
    Halves(c);
    HalvesNumber(HighHalf(c), LowHalf(c));
    HalfNumber(HighHalf(c));
    HalfNumber(LowHalf(c));
  }

  function Numbers(bs: seq<bv8>): seq<Byte>
    requires |bs| == 4
  {
    [Number(bs[0]), Number(bs[1]), Number(bs[2]), Number(bs[3])]
  }

  lemma NumbersOfWords(bs: seq<bv8>)
    requires |bs| == 4
    ensures Words(Numbers(bs)) == bs
  {
    hide Word;
  }

  lemma FourBytes(t: seq<Byte>)
    requires |t| == 4
    ensures Decode(t) == 256 * (256 * (256 * (t[0] as int) + (t[1] as int)) + (t[2] as int)) + (t[3] as int)
  {
    assert t[..3][..2] == t[..2] && t[..2][..1] == t[..1] && t[..1][..0] == [];
    assert Decode(t[..1]) == t[0] as int;
    assert Decode(t[..2]) == 256 * Decode(t[..1]) + t[1] as int;
    assert Decode(t[..3]) == 256 * Decode(t[..2]) + t[2] as int;
  }

  lemma DecodeNumbers(c: bv32)
    ensures Decode(Numbers(BigEndian(c))) == Value(c)
  {
    hide Decode, Word, LowByte, Down8, Down16, Down24;
    FourBytes(Numbers(BigEndian(c)));
    WordNumber(c);
  }

  /** The bytes sent for a checksum are those of the word. */
  lemma ChecksumBytes(c: bv32)
    ensures Words(Encode(Value(c), 4)) == BigEndian(c)
  {
    hide Word, BigEndian, Encode, Decode, Words, Number, Numbers, Value;
    DecodeNumbers(c);
    NumbersOfWords(BigEndian(c));
    NumbersLength(BigEndian(c));
    EncodeDecode(Numbers(BigEndian(c)));
  }

  lemma NumbersLength(bs: seq<bv8>)
    requires |bs| == 4
    ensures |Numbers(bs)| == 4
  {
  }

  lemma WordsInjective(s: seq<Byte>, t: seq<Byte>)
    requires Words(s) == Words(t)
    ensures s == t
  {
    hide Word;
    assert |s| == |Words(s)| == |t|;
    forall k | 0 <= k < |s|
      ensures s[k] == t[k]
    {
      assert Words(s)[k] == Words(t)[k];
      assert Word(s[k]) as int == s[k] && Word(t[k]) as int == t[k];
    }
  }

  lemma WordsDiffer(s: seq<Byte>, t: seq<Byte>)
    requires s != t
    ensures Words(s) != Words(t)
  {
    hide Words;
    if Words(s) == Words(t) {
      WordsInjective(s, t);
    }
  }

  /** The checksum check, in words. */
  lemma ChecksOutWords(d: seq<Byte>)
    requires |d| >= 4
    ensures ChecksOut(d)
       <==> Words(d[|d| - 4..]) == BigEndian(Crc32.Checksum(CRC_VAL, Words(d[..|d| - 4])))
  {
    hide Word, Words, BigEndian, Crc32.Checksum, Value, Encode, Decode;
    var t, c := d[|d| - 4..], Crc32.Checksum(CRC_VAL, Words(d[..|d| - 4]));
    ChecksumBytes(c);
    SmallPowers();
    DecodeEncode(Value(c), 4);
    EncodeDecode(t);
    if Words(t) == BigEndian(c) {
      WordsInjective(t, Encode(Value(c), 4));
    }
  }

  function Xor8(x: bv8, y: bv8): bv8 {
    x ^ y
  }

  lemma LowByteXor(x: bv32, y: bv32)
    ensures LowByte(Crc32.Xor(x, y)) == Xor8(LowByte(x), LowByte(y))
  {
  }

  lemma DownXor8(x: bv32, y: bv32)
    ensures Down8(Crc32.Xor(x, y)) == Crc32.Xor(Down8(x), Down8(y))
  {
  }

  lemma DownXor16(x: bv32, y: bv32)
    ensures Down16(Crc32.Xor(x, y)) == Crc32.Xor(Down16(x), Down16(y))
  {
  }

  lemma DownXor24(x: bv32, y: bv32)
    ensures Down24(Crc32.Xor(x, y)) == Crc32.Xor(Down24(x), Down24(y))
  {
  }

  lemma BigEndianXor(x: bv32, y: bv32)
    ensures var b, c, d := BigEndian(x), BigEndian(y), BigEndian(Crc32.Xor(x, y));
            d == [Xor8(b[0], c[0]), Xor8(b[1], c[1]), Xor8(b[2], c[2]), Xor8(b[3], c[3])]
  {
    hide Crc32.Xor, Xor8, LowByte, Down8, Down16, Down24;
    DownXor8(x, y);
    DownXor16(x, y);
    DownXor24(x, y);
    LowByteXor(x, y);
    LowByteXor(Down8(x), Down8(y));
    LowByteXor(Down16(x), Down16(y));
    LowByteXor(Down24(x), Down24(y));
  }

  // ---------------------------------------------------------------------------
  // A change across the end of the message
  // ---------------------------------------------------------------------------

  lemma LowBytesZero(c: bv32)
    ensures var b := BigEndian(c);
            && (b[3] == 0 ==> c & 0xff == 0)
            && (b[3] == 0 && b[2] == 0 ==> c & 0xffff == 0)
            && (b[3] == 0 && b[2] == 0 && b[1] == 0 ==> c & 0xff_ffff == 0)
  {
  }

  lemma UnseenByte(a: bv8, b: bv8)
    requires a == Xor8(a, b)
    ensures b == 0
  {
  }

  lemma FlippedByte(a: bv8, b: bv8, m: bv8)
    ensures Xor8(a, b) == m <==> a == Xor8(b, m)
  {
    hide Xor8;
    Xor8Cancels(a, b);
    Xor8Cancels(m, b);
  }

  lemma Xor8Cancels(a: bv8, b: bv8)
    ensures Xor8(b, Xor8(a, b)) == a && Xor8(Xor8(b, a), b) == a
  {
  }

  lemma Xor8Commutes(a: bv8, b: bv8)
    ensures Xor8(a, b) == Xor8(b, a) && Xor8(a, 0) == a
  {
  }

  lemma DifferenceBound(x: bv32, y: bv32)
    ensures x < 0x100 && y < 0x100 ==> Crc32.Xor(x, y) < 0x100
    ensures x < 0x1_0000 && y < 0x1_0000 ==> Crc32.Xor(x, y) < 0x1_0000
    ensures x < 0x100_0000 && y < 0x100_0000 ==> Crc32.Xor(x, y) < 0x100_0000
  {
  }

  lemma {:induction false} PackInjective(p: seq<bv8>, q: seq<bv8>)
    requires |p| == |q| <= 3 && Pack(p) == Pack(q)
    ensures p == q
  {
    hide Above;
    if p != [] {
      PackBound(p[1..]);
      PackBound(q[1..]);
      AboveInjective(p[0], Pack(p[1..]), q[0], Pack(q[1..]));
      PackInjective(p[1..], q[1..]);
      assert p == [p[0]] + p[1..] && q == [q[0]] + q[1..];
    }
  }

  lemma AboveInjective(a: bv8, x: bv32, b: bv8, y: bv32)
    requires x < 0x100_0000 && y < 0x100_0000 && Above(a, x) == Above(b, y)
    ensures a == b && x == y
  {
  }

  lemma NoDifference(x: bv32, y: bv32)
    requires Crc32.Xor(x, y) == 0
    ensures x == y
  {
  }

  /** The two changed bytes of the one pattern. */
  lemma PatternBytes(a: bv8, b: bv8, c: bv8, d: bv8)
    ensures Crc32.Xor(Pack([a, b]), Pack([c, d])) == 0xd861 <==> Xor8(a, c) == 0x61 && Xor8(b, d) == 0xd8
  {
    PackTwo(a, b);
    PackTwo(c, d);
    PairXor(a, b, c, d);
  }

  lemma PackTwo(a: bv8, b: bv8)
    ensures Pack([a, b]) == (a as bv32) | ((b as bv32) << 8)
  {
    assert [a, b][1..] == [b] && [b][1..] == [];
    assert Pack([a, b]) == Above(a, Pack([b])) && Pack([b]) == Above(b, Pack([]));
    AboveNothing(b);
  }

  lemma AboveNothing(b: bv8)
    ensures Above(b, 0) == b as bv32
  {
  }

  lemma PairXor(a: bv8, b: bv8, c: bv8, d: bv8)
    ensures ((a as bv32) | ((b as bv32) << 8)) ^ ((c as bv32) | ((d as bv32) << 8)) == 0xd861
       <==> a ^ c == 0x61 && b ^ d == 0xd8
  {
  }

  /** A difference whose low bytes are zero is the one pattern, or none. */
  lemma UnseenDifference(x: bv32, k: nat)
    requires k == 1 ==> x < 0x100
    requires k == 2 ==> x < 0x1_0000
    requires k == 3 ==> x < 0x100_0000
    requires 1 <= k <= 3 && forall j :: 4 - k <= j < 4 ==> BigEndian(Crc32.ZeroRun(x, 8 * k))[j] == 0
    ensures x == 0 || (k == 2 && x == 0xd861)
  {
    hide BigEndian, Crc32.ZeroRun, Crc32.MaskShift8;
    ZeroRunBytes(x);
    var b := BigEndian(Crc32.ZeroRun(x, 8 * k));
    LowBytesZero(Crc32.ZeroRun(x, 8 * k));
    assert b[3] == 0;
    if k == 1 {
      OneByteKernel(x);
    } else if k == 2 {
      assert b[2] == 0;
      TwoByteKernel(x);
    } else {
      assert b[2] == 0 && b[1] == 0;
      ThreeByteKernel(x);
    }
  }

  /** What the pattern does to the checksum. */
  lemma PatternChecksum()
    ensures BigEndian(Crc32.ZeroRun(0xd861, 16)) == [0xf4, 0xee, 0, 0]
  {
    hide Crc32.ZeroRun, Crc32.MaskShift8;
    ZeroRunBytes(0xd861);
    TwoBytePattern();
    assert BigEndian(0xf4ee_0000) == [0xf4, 0xee, 0, 0];
  }

  /** The checksum bytes of a changed message are the old ones and the bytes of the difference. */
  lemma ChangedChecksum(crc: bv32, a: seq<bv8>, p: seq<bv8>, q: seq<bv8>)
    requires |p| == |q| <= 3
    ensures var u := BigEndian(Crc32.Checksum(crc, a + q));
            var x := BigEndian(Crc32.ZeroRun(Crc32.Xor(Pack(p), Pack(q)), 8 * |p|));
            BigEndian(Crc32.Checksum(crc, a + p))
            == [Xor8(u[0], x[0]), Xor8(u[1], x[1]), Xor8(u[2], x[2]), Xor8(u[3], x[3])]
  {
    hide BigEndian, Pack, Xor8, Crc32.Checksum, Crc32.ZeroRun, Crc32.Xor;
    var c, d := Crc32.Checksum(crc, a + p), Crc32.Checksum(crc, a + q);
    TailDifference(crc, a, p, q);
    Crc32.XorCommutes(c, d);
    Crc32.XorCancels(d, c);
    BigEndianXor(d, Crc32.ZeroRun(Crc32.Xor(Pack(p), Pack(q)), 8 * |p|));
  }

  /** The one change that goes unseen. */
  ghost predicate Pattern(p: seq<bv8>, q: seq<bv8>, t: seq<bv8>, u: seq<bv8>)
    requires |p| == |q| && |t| == |u| == 4
  {
    && |p| == 2 && p[0] == Xor8(q[0], 0x61) && p[1] == Xor8(q[1], 0xd8)
    && t[0] == Xor8(u[0], 0xf4) && t[1] == Xor8(u[1], 0xee) && t[2] == u[2] && t[3] == u[3]
  }

  lemma PatternUnseen(crc: bv32, a: seq<bv8>, p: seq<bv8>, q: seq<bv8>, t: seq<bv8>)
    requires |p| == |q| && |t| == 4 && Pattern(p, q, t, BigEndian(Crc32.Checksum(crc, a + q)))
    ensures t == BigEndian(Crc32.Checksum(crc, a + p))
  {
    hide BigEndian, Pack, Xor8, Crc32.Checksum, Crc32.ZeroRun, Crc32.Xor;
    var u := BigEndian(Crc32.Checksum(crc, a + q));
    FlippedByte(p[0], q[0], 0x61);
    FlippedByte(p[1], q[1], 0xd8);
    assert p == [p[0], p[1]] && q == [q[0], q[1]];
    PatternBytes(p[0], p[1], q[0], q[1]);
    ChangedChecksum(crc, a, p, q);
    PatternChecksum();
    Xor8Commutes(u[2], 0);
    Xor8Commutes(u[3], 0);
    assert t == [t[0], t[1], t[2], t[3]];
  }

  /** A change of the last `k` bytes of a message and the first `4 - k` of its checksum that goes
      unseen is that one. */
  lemma UnseenIsPattern(crc: bv32, a: seq<bv8>, p: seq<bv8>, q: seq<bv8>, t: seq<bv8>, k: nat)
    requires 1 <= k <= 3 && |p| == |q| == k
    requires t == BigEndian(Crc32.Checksum(crc, a + p))
    requires forall j :: 4 - k <= j < 4 ==> t[j] == BigEndian(Crc32.Checksum(crc, a + q))[j]
    requires p != q
    ensures Pattern(p, q, t, BigEndian(Crc32.Checksum(crc, a + q)))
  {
    hide BigEndian, Pack, Xor8, Crc32.Checksum, Crc32.ZeroRun, Crc32.Xor;
    var u, x := BigEndian(Crc32.Checksum(crc, a + q)), Crc32.Xor(Pack(p), Pack(q));
    var b := BigEndian(Crc32.ZeroRun(x, 8 * k));
    ChangedChecksum(crc, a, p, q);
    forall j | 4 - k <= j < 4
      ensures b[j] == 0
    {
      UnseenByte(u[j], b[j]);
    }
    PackBound(p);
    PackBound(q);
    DifferenceBound(Pack(p), Pack(q));
    UnseenDifference(x, k);
    if x == 0 {
      NoDifference(Pack(p), Pack(q));
      PackInjective(p, q);
      assert false;
    }
    assert p == [p[0], p[1]] && q == [q[0], q[1]];
    PatternBytes(p[0], p[1], q[0], q[1]);
    FlippedByte(p[0], q[0], 0x61);
    FlippedByte(p[1], q[1], 0xd8);
    PatternChecksum();
  }

  // ---------------------------------------------------------------------------
  // Datagrams
  // ---------------------------------------------------------------------------

  function Flip(b: Byte, mask: bv8): Byte {
    Number(Xor8(Word(b), mask))
  }

  /** The datagram with the one unseen change: the last two bytes of the message and the first two of
      its checksum. */
  function Disguise(e: seq<Byte>): (d: seq<Byte>)
    requires |e| >= 6
    ensures |d| == |e|
  {
    var n := |e| - 4;
    e[..n - 2] + [Flip(e[n - 2], 0x61), Flip(e[n - 1], 0xd8)]
    + [Flip(e[n], 0xf4), Flip(e[n + 1], 0xee), e[n + 2], e[n + 3]]
  }

  lemma FlipChanges(b: Byte)
    ensures Flip(b, 0x61) != b && Flip(b, 0xd8) != b && Flip(b, 0xf4) != b && Flip(b, 0xee) != b
  {
    hide Word;
    FlipBits(Word(b));
  }

  lemma FlipBits(w: bv8)
    ensures Xor8(w, 0x61) != w && Xor8(w, 0xd8) != w && Xor8(w, 0xf4) != w && Xor8(w, 0xee) != w
  {
  }

  /** The pattern on bytes is the disguise. */
  lemma PatternIsDisguise(e: seq<Byte>, d: seq<Byte>, i: nat)
    requires |d| == |e| && i <= |e| - 4 && d[..i] == e[..i]
    ensures Pattern(Words(d[i..|e| - 4]), Words(e[i..|e| - 4]), Words(d[|e| - 4..]), Words(e[|e| - 4..]))
       <==> |e| >= 6 && i == |e| - 6 && d == Disguise(e)
  {
    hide Word, Words, Flip, Xor8, Number;
    var n := |e| - 4;
    if i == n - 2 {
      assert d == d[..i] + d[i..n] + d[n..];
      assert e == e[..i] + e[i..n] + e[n..];
      FlippedWord(d[i], e[i], 0x61);
      FlippedWord(d[i + 1], e[i + 1], 0xd8);
      FlippedWord(d[n], e[n], 0xf4);
      FlippedWord(d[n + 1], e[n + 1], 0xee);
      SameWord(d[n + 2], e[n + 2]);
      SameWord(d[n + 3], e[n + 3]);
    }
  }

  lemma FlippedWord(a: Byte, b: Byte, m: bv8)
    ensures Word(a) == Xor8(Word(b), m) <==> a == Flip(b, m)
  {
    hide Word, Xor8;
    SameWord(a, Flip(b, m));
  }

  lemma SameWord(a: Byte, b: Byte)
    ensures Word(a) == Word(b) <==> a == b
  {
    hide Word;
    assert Word(a) as int == a && Word(b) as int == b;
  }

  lemma WordsAppend(s: seq<Byte>, t: seq<Byte>)
    ensures Words(s + t) == Words(s) + Words(t)
  {
    hide Word;
  }

  /** `d` differs from `e` at most in the four bytes from `i` on. */
  ghost predicate OnlyWithin(d: seq<Byte>, e: seq<Byte>, i: nat) {
    |d| == |e| && forall k :: 0 <= k < |e| && !(i <= k < i + 4) ==> d[k] == e[k]
  }

  lemma DisguiseChanges(e: seq<Byte>)
    requires |e| >= 6
    ensures Disguise(e)[|e| - 5] != e[|e| - 5] && Disguise(e)[|e| - 4] != e[|e| - 4]
  {
    hide Flip;
    FlipChanges(e[|e| - 5]);
    FlipChanges(e[|e| - 4]);
  }

  lemma NotDisguised(e: seq<Byte>, d: seq<Byte>)
    requires |d| == |e| >= 6
    requires d[..|e| - 4] == e[..|e| - 4] || d[|e| - 4..] == e[|e| - 4..]
    ensures d != Disguise(e)
  {
    hide Disguise;
    var n := |e| - 4;
    DisguiseChanges(e);
    assert d[..n] == e[..n] ==> d[..n][n - 1] == e[..n][n - 1];
    assert d[n..] == e[n..] ==> d[n..][0] == e[n..][0];
  }

  /** A change of the checksum alone. */
  lemma ChecksumChangeSeen(e: seq<Byte>, d: seq<Byte>)
    requires ChecksOut(e) && |d| == |e| && d != e && d[..|e| - 4] == e[..|e| - 4]
    ensures !ChecksOut(d)
  {
    hide Decode, Crc;
    var n := |e| - 4;
    assert d == d[..n] + d[n..] && e == e[..n] + e[n..];
    if Decode(d[n..]) == Decode(e[n..]) {
      DecodeInjective(d[n..], e[n..]);
    }
  }

  /** A change of the message alone. */
  lemma MessageChangeSeen(e: seq<Byte>, d: seq<Byte>, i: nat)
    requires ChecksOut(e) && OnlyWithin(d, e, i) && d != e && d[|e| - 4..] == e[|e| - 4..]
    ensures !ChecksOut(d)
  {
    hide Decode, Crc;
    var n := |e| - 4;
    assert d == d[..n] + d[n..] && e == e[..n] + e[n..];
    CrcDetects(d[..n], e[..n], i);
  }

  /** A change of both. */
  lemma OnBothSides(e: seq<Byte>, d: seq<Byte>, i: nat)
    requires ChecksOut(e) && OnlyWithin(d, e, i) && |e| - 7 <= i < |e| - 4 && d[..|e| - 4] != e[..|e| - 4]
    ensures ChecksOut(d) <==> |e| >= 6 && d == Disguise(e)
  {
    hide Word, Words, Pattern, BigEndian, Crc32.Checksum, Disguise, ChecksOut;
    var n := |e| - 4;
    var a, p, q, t, u := Words(e[..i]), Words(d[i..n]), Words(e[i..n]), Words(d[n..]), Words(e[n..]);
    assert d[..i] == e[..i];
    assert d[..n] == e[..i] + d[i..n] && e[..n] == e[..i] + e[i..n];
    WordsAppend(e[..i], d[i..n]);
    WordsAppend(e[..i], e[i..n]);
    WordsDiffer(d[i..n], e[i..n]);
    ChecksOutWords(d);
    ChecksOutWords(e);
    PatternIsDisguise(e, d, i);
    WordsLength(d[i..n], e[i..n]);
    WordsLength(d[n..], e[n..]);
    if ChecksOut(d) {
      forall j | i - n + 4 <= j < 4
        ensures t[j] == u[j]
      {
        assert d[n + j] == e[n + j];
        WordsAt(d[n..], j);
        WordsAt(e[n..], j);
      }
      UnseenIsPattern(CRC_VAL, a, p, q, t, n - i);
    }
    if |e| >= 6 && d == Disguise(e) {
      DisguiseWithin(e, i);
      PatternUnseen(CRC_VAL, a, p, q, t);
    }
  }

  lemma WordsLength(s: seq<Byte>, t: seq<Byte>)
    requires |s| == |t|
    ensures |Words(s)| == |Words(t)| == |s|
  {
  }

  lemma WordsAt(s: seq<Byte>, j: nat)
    requires j < |s|
    ensures |Words(s)| == |s| && Words(s)[j] == Word(s[j])
  {
  }

  /** The disguise touches exactly the four bytes around the end of the message. */
  lemma DisguiseWithin(e: seq<Byte>, i: nat)
    requires |e| >= 6 && OnlyWithin(Disguise(e), e, i)
    ensures i <= |e| - 6 && |e| - 3 < i + 4
  {
    hide Flip;
    FlipChanges(e[|e| - 6]);
    FlipChanges(e[|e| - 3]);
  }

  /** Exactly which changes of up to four consecutive bytes of a good datagram pass the check: one. */
  lemma ChangePassesIff(e: seq<Byte>, d: seq<Byte>, i: nat)
    requires ChecksOut(e) && OnlyWithin(d, e, i) && d != e
    ensures ChecksOut(d) <==> |e| >= 6 && d == Disguise(e)
  {
    hide ChecksOut, Disguise;
    ChecksOutLength(e);
    var n := |e| - 4;
    if d[..n] == e[..n] || d[n..] == e[n..] {
      if |e| >= 6 {
        NotDisguised(e, d);
      }
      if d[..n] == e[..n] {
        ChecksumChangeSeen(e, d);
      } else {
        MessageChangeSeen(e, d, i);
      }
    } else {
      var j, k :| 0 <= j < n && d[j] != e[j] && n <= k < |e| && d[k] != e[k];
      OnBothSides(e, d, i);
    }
  }

  lemma ChecksOutLength(e: seq<Byte>)
    requires ChecksOut(e)
    ensures |e| >= 4
  {
  }

  /** A datagram changed in up to four consecutive bytes, anywhere, is not received, unless it is
      the disguise. */
  lemma CorruptionRejected(h: Header, b: Body, d: seq<Byte>, i: nat)
    requires OnlyWithin(d, Datagram(h, b), i) && d != Datagram(h, b)
    ensures |Datagram(h, b)| >= 10
    ensures d != Disguise(Datagram(h, b)) ==> Receive(d) == None
    ensures d == Disguise(Datagram(h, b)) ==> ChecksOut(d)
  {
    hide Datagram, ChecksOut, Disguise, DecodeHeader, DecodeBody;
    DatagramLength(h, b);
    DatagramChecksOut(h, b);
    ChangePassesIff(Datagram(h, b), d, i);
  }

  lemma DatagramLength(h: Header, b: Body)
    ensures |Datagram(h, b)| == 10 + |EncodeBody(b)|
  {
    hide Crc, EncodeBody;
  }

  lemma HeaderLength(h: Header)
    ensures |EncodeHeader(h)| == 6
  {
  }

  lemma DisguiseParts(e: seq<Byte>)
    requires |e| >= 6
    ensures Disguise(e)[..|e| - 6] == e[..|e| - 6] && Disguise(e)[|e| - 5] != e[|e| - 5]
  {
    hide Flip;
    FlipChanges(e[|e| - 5]);
  }

  lemma DisguisePasses(e: seq<Byte>, h: Header, b: Body)
    requires e == Datagram(h, b) && |e| >= 6
    ensures ChecksOut(Disguise(e))
  {
    hide Datagram, ChecksOut, Flip;
    DatagramChecksOut(h, b);
    DisguiseParts(e);
    ChangePassesIff(e, Disguise(e), |e| - 6);
  }

  /** Other bytes are another time. */
  lemma OtherPing(x: seq<Byte>, ts: int)
    requires |x| == 8 && x != EncodePing(ts) && ValidBody(Ping(ts))
    ensures Signed(Decode(x), 8) != ts
  {
    hide Encode, Decode, Pow256;
    SmallPowers();
    DecodeBound(x);
    SignedUnsigned(ts, 8);
    DecodeEncode(Unsigned(ts, 8), 8);
    if Decode(x) == Unsigned(ts, 8) {
      EncodeDecode(x);
    }
    SignedInjective(Decode(x), Unsigned(ts, 8));
  }

  lemma SignedInjective(u: nat, v: nat)
    requires u < Pow256(8) && v < Pow256(8)
    ensures Signed(u, 8) == Signed(v, 8) ==> u == v
  {
    hide Pow256;
  }

  /** The disguise does harm: of a ping it makes a ping with another time. */
  lemma DisguisedPing(h: Header, ts: int)
    requires ValidHeader(h) && ValidBody(Ping(ts)) && Fits(Ping(ts), h.mid)
    ensures |Datagram(h, Ping(ts))| >= 10
    ensures var r := Receive(Disguise(Datagram(h, Ping(ts))));
            r.Some? && r.value.0 == h && r.value.1.Ping? && r.value.1 != Ping(ts)
  {
    hide Disguise, ChecksOut, EncodeHeader, DecodeHeader, Crc, Encode, Decode, Signed, Unsigned;
    var e := Datagram(h, Ping(ts));
    var d, s, t := Disguise(e), EncodeHeader(h), EncodePing(ts);
    DatagramLength(h, Ping(ts));
    HeaderLength(h);
    DisguiseParts(e);
    DisguisePasses(e, h, Ping(ts));
    assert e[..6] == s;
    assert e[6..14] == t;
    var x := d[6..14];
    assert x[7] == d[13] && t[7] == e[6..14][7] == e[13];
    assert d[..6] == d[..12][..6] && e[..6] == e[..12][..6];
    assert d == s + (x + d[14..]);
    HeaderReadsBack(h, x + d[14..]);
    assert (x + d[14..])[..8] == x;
    assert DecodeHeader(d) == (h, x + d[14..]);
    assert DecodeBody(x + d[14..], h.mid) == Some(DecodePing(x + d[14..]));
    assert DecodePing(x + d[14..]).0 == Ping(Signed(Decode(x), 8));
    OtherPing(x, ts);
  }
}
