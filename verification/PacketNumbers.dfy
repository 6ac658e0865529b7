/** Reconstructing a packet number from the low bytes that are on the wire. All arithmetic is on
    64-bit unsigned numbers that wrap around. */
module PacketNumbers {
  import opened Bytes
  import opened AckFrames
  import opened Numbers

  function Wrap(n: int): nat {
    n % U64
  }

  function Delta(a: nat, b: nat): nat {
    if a < b then b - a else a - b
  }

  function ClosestTo(target: nat, a: nat, b: nat): nat {
    if Delta(target, a) < Delta(target, b) then a else b
  }

  /** The first number of the epoch of `base`: its low bits are cleared. */
  function EpochStart(d: nat, base: nat): int
    requires d > 0
  {
    base - base % d
  }

  /** `CalculatePacketNumberFromWire`. */
  function CalculatePacketNumberFromWire(len: nat, base: nat, wire: nat): nat {
    var epochDelta := Pow256(len);
    var next := Wrap(base + 1);
    var epoch := EpochStart(epochDelta, base);
    var prevEpoch, nextEpoch := Wrap(epoch - epochDelta), Wrap(epoch + epochDelta);
    ClosestTo(next, Wrap(epoch + wire), ClosestTo(next, Wrap(prevEpoch + wire), Wrap(nextEpoch + wire)))
  }

  /** The base is so far below 2^64 that neither the next epoch nor a number in it wraps around. */
  ghost predicate AwayFromTop(len: nat, base: nat) {
    base + 2 * Pow256(len) < U64
  }

  // ---------------------------------------------------------------------------
  // The candidates without wrap-around
  // ---------------------------------------------------------------------------

  /** The three candidates: `d` is the size of the window, `epoch` the start of the base's epoch.
      In the first epoch there is no lower one. */
  function Choose(d: nat, epoch: nat, next: nat, wire: nat): nat {
    var above := if epoch >= d then ClosestTo(next, epoch - d + wire, epoch + d + wire) else epoch + d + wire;
    ClosestTo(next, epoch + wire, above)
  }

  lemma MulDistributes(x: int, y: int, d: int)
    ensures (x - y) * d == x * d - y * d
  {
  }

  lemma MulAtLeast(x: int, k: nat, d: nat)
    requires x >= k
    ensures x * d >= k * d
  {
    MulDistributes(x, k, d);
    assert (x - k) * d >= 0;
  }

  lemma DivMod(a: nat, d: nat)
    requires d > 0
    ensures a == (a / d) * d + a % d && 0 <= a % d < d
  {
  }

  lemma DivisionIsUnique(d: nat, a: nat, q: int, r: int)
    requires 0 < d && a == q * d + r && 0 <= r < d
    ensures a / d == q && a % d == r
  {
    DivMod(a, d);
    SameQuotient(d, a / d, a % d, q, r);
  }

  lemma SameQuotient(d: nat, q: int, r: int, q': int, r': int)
    requires 0 < d && 0 <= r < d && 0 <= r' < d && q * d + r == q' * d + r'
    ensures q == q' && r == r'
  {
    MulDistributes(q, q', d);
    MulDistributes(q', q, d);
    if q - q' >= 1 {
      MulAtLeast(q - q', 1, d);
    } else if q' - q >= 1 {
      MulAtLeast(q' - q, 1, d);
    }
  }

  lemma EpochFacts(d: nat, base: nat)
    requires 0 < d
    ensures var e := EpochStart(d, base);
            && 0 <= e <= base < e + d
            && e == (base / d) * d && (e < d ==> e == 0)
  {
    DivMod(base, d);
    if base / d >= 1 {
      MulAtLeast(base / d, 1, d);
    }
  }

  /** Without wrap-around the source computes `Choose`. */
  lemma WrapIsHarmless(len: nat, base: nat, wire: nat)
    requires IsLength(len) && AwayFromTop(len, base) && wire < Pow256(len)
    ensures EpochStart(Pow256(len), base) >= 0
    ensures CalculatePacketNumberFromWire(len, base, wire)
         == Choose(Pow256(len), EpochStart(Pow256(len), base), base + 1, wire)
  {
    SmallPowers();
    hide EpochStart, Pow256, Wrap, Choose, ClosestTo;
    EpochFacts(Pow256(len), base);
    WrapInWindow(Pow256(len), EpochStart(Pow256(len), base), base, wire);
  }

  lemma WrapSmall(n: int)
    requires 0 <= n + U64 && n < U64
    ensures Wrap(n) == if n >= 0 then n else n + U64
  {
  }

  lemma WrapInWindow(d: nat, e: nat, base: nat, wire: nat)
    requires 0 < d <= PACKET_NUMBER_LIMIT && base + 2 * d < U64
    requires e <= base < e + d && (e < d ==> e == 0) && wire < d
    ensures ClosestTo(Wrap(base + 1), Wrap(e + wire),
                      ClosestTo(Wrap(base + 1), Wrap(Wrap(e - d) + wire), Wrap(Wrap(e + d) + wire)))
         == Choose(d, e, base + 1, wire)
  {
    hide Wrap;
    WrapSmall(base + 1);
    WrapSmall(e + wire);
    WrapSmall(e + d);
    WrapSmall(e + d + wire);
    WrapSmall(e - d);
    WrapSmall(Wrap(e - d) + wire);
  }

  /** A natural number with the low digits `wire` is one of the candidates or lies beyond them. */
  lemma Congruent(d: nat, m: nat, e: nat, wire: nat, c: nat)
    requires 0 < d && e == m * d && wire < d && c % d == wire
    ensures c == e + wire || c == e + d + wire || c + d == e + wire
            || c >= e + 2 * d + wire || c + 2 * d <= e + wire
    ensures c / d == m <==> c == e + wire
    ensures c < d ==> c == wire
  {
    var k := c / d;
    DivMod(c, d);
    MulDistributes(k, m, d);
    MulDistributes(m, k, d);
    if k >= m + 2 {
      MulAtLeast(k - m, 2, d);
    } else if k <= m - 2 {
      MulAtLeast(m - k, 2, d);
    } else {
      OneStep(k - m, d);
    }
    if k >= 1 {
      MulAtLeast(k, 1, d);
    }
  }

  lemma OneStep(j: int, d: nat)
    requires -1 <= j <= 1
    ensures j * d == if j == 1 then d as int else if j == 0 then 0 else 0 - d
  {
  }

  lemma SameLowDigits(d: nat, m: nat, wire: nat, j: int)
    requires 0 < d && wire < d && m + j >= 0 && m * d + j * d + wire >= 0
    ensures (m * d + j * d + wire) % d == wire
  {
    assert m * d + j * d == (m + j) * d;
    DivisionIsUnique(d, m * d + j * d + wire, m + j, wire);
  }

  // ---------------------------------------------------------------------------
  // Main results
  // ---------------------------------------------------------------------------

  /** The result has the low bytes that were on the wire, and no natural number with those low
      bytes is nearer to the next expected packet number. */
  lemma NearestToNext(len: nat, base: nat, wire: nat, c: nat)
    requires IsLength(len) && AwayFromTop(len, base) && wire < Pow256(len)
    requires c % Pow256(len) == wire
    ensures var r := CalculatePacketNumberFromWire(len, base, wire);
            r % Pow256(len) == wire && Delta(base + 1, r) <= Delta(base + 1, c)
  {
    hide EpochStart, Pow256, CalculatePacketNumberFromWire, Choose;
    var d := Pow256(len);
    var e, m := EpochStart(d, base), base / d;
    WrapIsHarmless(len, base, wire);
    EpochFacts(d, base);
    Congruent(d, m, e, wire, c);
    ChosenIsNearest(d, e, base + 1, wire, c);
    ChosenIsCandidate(d, m, e, base + 1, wire);
  }

  lemma ChosenIsNearest(d: nat, e: nat, next: nat, wire: nat, c: nat)
    requires 0 < d && wire < d && e < next <= e + d && (e < d ==> e == 0)
    requires c == e + wire || c == e + d + wire || c + d == e + wire
             || c >= e + 2 * d + wire || c + 2 * d <= e + wire
    ensures Delta(next, Choose(d, e, next, wire)) <= Delta(next, c)
  {
  }

  lemma ChosenIsCandidate(d: nat, m: nat, e: nat, next: nat, wire: nat)
    requires 0 < d && wire < d && e == m * d
    ensures Choose(d, e, next, wire) % d == wire
  {
    OneStep(0, d);
    OneStep(1, d);
    OneStep(-1, d);
    SameLowDigits(d, m, wire, 0);
    SameLowDigits(d, m, wire, 1);
    if e >= d {
      SameLowDigits(d, m, wire, -1);
    }
  }

  /** When the receiver gets back packet number `x` from its low bytes: it is nearer to the next
      expected number than half a window; or exactly half a window away and outside the epoch of
      the base (ties leave that epoch); or in the first epoch, where nothing lies below it. */
  predicate Recovers(len: nat, base: nat, x: nat) {
    var d, next := Pow256(len), base + 1;
    || 2 * Delta(next, x) < d
    || (2 * Delta(next, x) == d && x / d != base / d)
    || (base < d && next <= x < d)
  }

  lemma RecoveredIff(len: nat, base: nat, x: nat)
    requires IsLength(len) && AwayFromTop(len, base)
    ensures CalculatePacketNumberFromWire(len, base, x % Pow256(len)) == x <==> Recovers(len, base, x)
  {
    hide EpochStart, Pow256, CalculatePacketNumberFromWire, Choose;
    var d := Pow256(len);
    var e, w, m := EpochStart(d, base), x % d, base / d;
    DivMod(x, d);
    WrapIsHarmless(len, base, w);
    EpochFacts(d, base);
    Congruent(d, m, e, w, x);
    ChosenIff(d, e, base, w, x, x / d == m);
  }

  lemma ChosenIff(d: nat, e: nat, base: nat, wire: nat, x: nat, sameEpoch: bool)
    requires 0 < d && wire < d && e <= base < e + d && (e < d ==> e == 0)
    requires x == e + wire || x == e + d + wire || x + d == e + wire
             || x >= e + 2 * d + wire || x + 2 * d <= e + wire
    requires (sameEpoch <==> x == e + wire) && (x < d ==> x == wire)
    ensures Choose(d, e, base + 1, wire) == x
       <==> || 2 * Delta(base + 1, x) < d
            || (2 * Delta(base + 1, x) == d && !sameEpoch)
            || (base < d && base + 1 <= x < d)
  {
  }

  // ---------------------------------------------------------------------------
  // A run of packets
  // ---------------------------------------------------------------------------

  /** What arrives: some low bytes of a packet number and how many they are. */
  datatype Arrival = Arrival(len: nat, wire: nat)

  /** The packet numbers the receiver works out, from the largest it has seen. */
  function Reconstruct(largest: nat, arrivals: seq<Arrival>): seq<nat>
    decreases |arrivals|
  {
    if arrivals == [] then [] else
    var x := CalculatePacketNumberFromWire(arrivals[0].len, largest, arrivals[0].wire);
    [x] + Reconstruct(Max(largest, x), arrivals[1..])
  }

  function LargestOf(largest: nat, xs: seq<nat>): nat
    decreases |xs|
  {
    if xs == [] then largest else LargestOf(Max(largest, xs[0]), xs[1..])
  }

  /** Each packet number sent is recoverable when it arrives. */
  ghost predicate InWindow(largest: nat, lens: seq<nat>, xs: seq<nat>)
    requires |lens| == |xs|
    decreases |xs|
  {
    xs != [] ==>
      && IsLength(lens[0]) && AwayFromTop(lens[0], largest) && Recovers(lens[0], largest, xs[0])
      && InWindow(Max(largest, xs[0]), lens[1..], xs[1..])
  }

  /** What the sender puts on the wire. */
  function Truncated(lens: seq<nat>, xs: seq<nat>): (a: seq<Arrival>)
    requires |lens| == |xs|
    ensures |a| == |xs|
  {
    seq(|xs|, i requires 0 <= i < |xs| => Arrival(lens[i], xs[i] % Pow256(lens[i])))
  }

  /** Over a run in which each number is in the window, whatever the order and the widths, the
      receiver works out every number. */
  lemma {:induction false} RunIsRecovered(largest: nat, lens: seq<nat>, xs: seq<nat>)
    requires |lens| == |xs| && InWindow(largest, lens, xs)
    ensures Reconstruct(largest, Truncated(lens, xs)) == xs
    decreases |xs|
  {
    hide CalculatePacketNumberFromWire, Recovers;
    if xs != [] {
      RecoveredIff(lens[0], largest, xs[0]);
      RunIsRecovered(Max(largest, xs[0]), lens[1..], xs[1..]);
      assert Truncated(lens, xs)[1..] == Truncated(lens[1..], xs[1..]);
      assert xs == [xs[0]] + xs[1..];
    }
  }

  lemma {:induction false} LargestIsMax(largest: nat, xs: seq<nat>)
    ensures var m := LargestOf(largest, xs);
            && m >= largest && (forall i :: 0 <= i < |xs| ==> xs[i] <= m)
            && (m == largest || m in xs)
    decreases |xs|
  {
    if xs != [] {
      LargestIsMax(Max(largest, xs[0]), xs[1..]);
      assert forall i :: 0 < i < |xs| ==> xs[i] == xs[1..][i - 1];
    }
  }

  lemma {:induction false} LargestAppend(largest: nat, xs: seq<nat>, x: nat)
    ensures LargestOf(largest, xs + [x]) == Max(LargestOf(largest, xs), x)
    decreases |xs|
  {
    if xs != [] {
      assert (xs + [x])[1..] == xs[1..] + [x];
      LargestAppend(Max(largest, xs[0]), xs[1..], x);
    } else {
      assert xs + [x] == [x];
    }
  }

  /** One more packet is worked out from the largest number among those before. */
  lemma {:induction false} ReconstructAppend(largest: nat, arrivals: seq<Arrival>, a: Arrival)
    ensures var xs := Reconstruct(largest, arrivals);
            Reconstruct(largest, arrivals + [a]) ==
              xs + [CalculatePacketNumberFromWire(a.len, LargestOf(largest, xs), a.wire)]
    decreases |arrivals|
  {
    hide CalculatePacketNumberFromWire;
    if arrivals != [] {
      var x := CalculatePacketNumberFromWire(arrivals[0].len, largest, arrivals[0].wire);
      assert (arrivals + [a])[1..] == arrivals[1..] + [a];
      ReconstructAppend(Max(largest, x), arrivals[1..], a);
      var rest := Reconstruct(Max(largest, x), arrivals[1..]);
      assert ([x] + rest)[1..] == rest;
    } else {
      assert arrivals + [a] == [a];
    }
  }

  /** The part of the framer that keeps the largest packet number. */
  class NumberState {
    var largestPacketNumber: nat
    /** What has arrived, and the numbers worked out for it; a 0 among them was refused. */
    ghost var arrivals: seq<Arrival>
    ghost var numbers: seq<nat>

    /** The numbers are those of the run, and the field is the largest of them. */
    ghost predicate Valid()
      reads this
    {
      && numbers == Reconstruct(0, arrivals)
      && largestPacketNumber == LargestOf(0, numbers)
    }

    constructor ()
      ensures Valid() && arrivals == []
    {
      largestPacketNumber, arrivals, numbers := 0, [], [];
    }

    /** `ProcessUnauthenticatedHeader` and, the packet having been decrypted, the update in
        `ProcessDataPacket`. Packet number 0 is refused. */
    method ProcessNumber(len: nat, wire: nat) returns (ok: bool, number: nat)
      requires Valid()
      modifies this
      ensures Valid() && arrivals == old(arrivals) + [Arrival(len, wire)]
      ensures numbers == old(numbers) + [number] && (ok <==> number != 0)
      ensures forall i :: 0 <= i < |numbers| ==> numbers[i] <= largestPacketNumber
      ensures largestPacketNumber == 0 || largestPacketNumber in numbers
    {
      number := CalculatePacketNumberFromWire(len, largestPacketNumber, wire);
      ok := number != 0;
      ReconstructAppend(0, arrivals, Arrival(len, wire));
      LargestAppend(0, numbers, number);
      arrivals, numbers := arrivals + [Arrival(len, wire)], numbers + [number];
      if ok {
        largestPacketNumber := Max(number, largestPacketNumber);
      }
      LargestIsMax(0, numbers);
    }
  }

  /** Whoever sends numbers in the window gets them all through a `NumberState`, in order. */
  lemma StateRecovers(state: NumberState, lens: seq<nat>, xs: seq<nat>)
    requires state.Valid() && |lens| == |xs| && InWindow(0, lens, xs)
    requires state.arrivals == Truncated(lens, xs)
    ensures state.numbers == xs && state.largestPacketNumber == LargestOf(0, xs)
  {
    RunIsRecovered(0, lens, xs);
  }
}
