/** The round-trip fields of mininet-webrtc/sender.cc and how a sample updates them. Times are
    milliseconds. */
module RoundTrips {
  import opened Numbers

  const LEAST_SAMPLE: nat := 5
  const LEAST_RTT: nat := 10

  /** A sample below 5 counts as 5. */
  function Kept(time: nat): nat {
    if time > LEAST_SAMPLE then time else LEAST_SAMPLE
  }

  /** `rtt_` after a sample; the sum is a 32-bit number. */
  function Smoothed(rtt: nat, kept: nat): nat {
    var before := if rtt == 0 then kept else rtt;
    var after := (7 * before + kept) % U32 / 8;
    if after < LEAST_RTT then LEAST_RTT else after
  }

  function SmoothedRun(samples: seq<nat>): nat {
    if samples == [] then 0 else Smoothed(SmoothedRun(samples[..|samples| - 1]), Kept(samples[|samples| - 1]))
  }

  function Sum(samples: seq<nat>): nat {
    if samples == [] then 0 else Sum(samples[..|samples| - 1]) + Kept(samples[|samples| - 1])
  }

  function Mean(sum: nat, n: nat): nat
    requires n > 0
  {
    sum / n
  }

  function Smallest(samples: seq<nat>): nat
    requires samples != []
  {
    var last := Kept(samples[|samples| - 1]);
    if |samples| == 1 then last else
    var before := Smallest(samples[..|samples| - 1]);
    if last < before then last else before
  }

  function Largest(samples: seq<nat>): nat
    requires samples != []
  {
    var last := Kept(samples[|samples| - 1]);
    if |samples| == 1 then last else
    var before := Largest(samples[..|samples| - 1]);
    if last > before then last else before
  }

  /** One call of the controller's OnRttUpdate. */
  datatype RttUpdate = RttUpdate(average: nat, maximum: nat)

  /** The maximum told with a sample: the one before it, unless it is the first. */
  function ToldMaximum(samples: seq<nat>, time: nat): nat {
    if samples == [] then Kept(time) else Largest(samples)
  }

  class RttFields {
    const hasController: bool
    /** What the congestion controller was told. */
    var told: seq<RttUpdate>
    var rtt: nat
    var sumRtt: nat
    var rttNum: nat
    var minRtt: nat
    var maxRtt: nat
    var averageRtt: nat
    ghost var samples: seq<nat>

    /** The fields are those of the samples so far. */
    ghost predicate Valid()
      reads this
    {
      && rttNum == |samples| && sumRtt == Sum(samples) && rtt == SmoothedRun(samples)
      && (samples != [] ==>
            minRtt == Smallest(samples) && maxRtt == Largest(samples) && averageRtt == Mean(Sum(samples), |samples|))
    }

    constructor (hasController: bool)
      ensures Valid() && samples == [] && told == [] && this.hasController == hasController
    {
      this.hasController, told := hasController, [];
      rtt, sumRtt, rttNum, minRtt, maxRtt, averageRtt := 0, 0, 0, 0, 0, 0;
      samples := [];
    }

    method TellController()
      modifies this`told
      ensures told == old(told) + if hasController then [RttUpdate(averageRtt, maxRtt)] else []
    {
      if hasController {
        told := told + [RttUpdate(averageRtt, maxRtt)];
      }
    }

    method UpdateRtt(time: nat)
      requires Valid() && time < U32
      modifies this
      ensures Valid() && samples == old(samples) + [time]
      ensures told == old(told) + if hasController then [RttUpdate(averageRtt, ToldMaximum(old(samples), time))] else []
    {
      hide Smoothed, SmoothedRun, Sum, Smallest, Largest, Kept, ToldMaximum, Mean;
      ToldBefore(samples, time);
      OneMore(samples, time);
      NoSum();
      var keep := LEAST_SAMPLE;
      if time > keep {
        keep := time;
      }
      IsKept(time, keep);
      rtt := Smooth(rtt, keep);
      samples := samples + [time];
      if rttNum == 0 {
        sumRtt, maxRtt, minRtt, averageRtt := keep, keep, keep, keep;
        rttNum := rttNum + 1;
        TellController();
      } else {
        rttNum := rttNum + 1;
        sumRtt := sumRtt + keep;
        averageRtt := Mean(sumRtt, rttNum);
        TellController();
        if keep > maxRtt {
          maxRtt := keep;
        }
        if keep < minRtt {
          minRtt := keep;
        }
      }
    }
  }

  /** The first part of `UpdateRtt`: `rtt_` takes in a sample. */
  method Smooth(rtt: nat, keep: nat) returns (r: nat)
    ensures r == Smoothed(rtt, keep)
  {
    r := rtt;
    if r == 0 {
      r := keep;
    }
    r := (7 * r + keep) % U32 / 8;
    if r < LEAST_RTT {
      r := LEAST_RTT;
    }
  }

  lemma IsKept(time: nat, keep: nat)
    ensures keep == (if time > LEAST_SAMPLE then time else LEAST_SAMPLE) ==> keep == Kept(time)
  {
  }

  lemma ToldBefore(samples: seq<nat>, time: nat)
    ensures ToldMaximum(samples, time) == if samples == [] then Kept(time) else Largest(samples)
  {
  }

  /** What one more sample does to the summaries. */
  lemma OneMore(samples: seq<nat>, time: nat)
    ensures var more, kept := samples + [time], Kept(time);
            && SmoothedRun(more) == Smoothed(SmoothedRun(samples), kept)
            && Sum(more) == Sum(samples) + kept
            && (if samples == [] then Smallest(more) == Largest(more) == kept && Mean(Sum(more), |more|) == kept
                else && Smallest(more) == (if kept < Smallest(samples) then kept else Smallest(samples))
                     && Largest(more) == (if kept > Largest(samples) then kept else Largest(samples)))
  {
    hide Smoothed, Kept;
    assert (samples + [time])[..|samples|] == samples;
  }

  lemma ScaledBound(a: nat, b: nat, s: nat, n: nat)
    requires n > 0 && a * n <= s <= b * n
    ensures a <= s / n <= b
  {
    Quotient(s, n);
    FactorOrder(a, s / n + 1, n);
    FactorOrder(s / n, b + 1, n);
  }

  lemma Quotient(s: nat, n: nat)
    requires n > 0
    ensures s / n * n <= s < (s / n + 1) * n
  {
  }

  lemma FactorOrder(a: nat, b: nat, n: nat)
    requires n > 0
    ensures a * n < b * n ==> a < b
    ensures b * n == (b - 1) * n + n
  {
  }

  lemma BoundStep(low: nat, before: nat, n: nat, s: nat, x: nat)
    requires before * n <= s && low <= before && low <= x
    ensures low * (n + 1) <= s + x
  {
    assert low * n <= before * n;
  }

  lemma BoundStepUp(high: nat, before: nat, n: nat, s: nat, x: nat)
    requires s <= before * n && before <= high && x <= high
    ensures s + x <= high * (n + 1)
  {
    assert before * n <= high * n;
  }

  lemma {:induction false} SumBounds(samples: seq<nat>)
    requires samples != []
    ensures Smallest(samples) * |samples| <= Sum(samples) <= Largest(samples) * |samples|
  {
    hide Sum, Smallest, Largest, Kept, Smoothed, SmoothedRun;
    var n := |samples| - 1;
    var before, kept := samples[..n], Kept(samples[n]);
    assert samples == before + [samples[n]];
    OneMore(before, samples[n]);
    if n > 0 {
      SumBounds(before);
      BoundStep(Smallest(samples), Smallest(before), n, Sum(before), kept);
      BoundStepUp(Largest(samples), Largest(before), n, Sum(before), kept);
    } else {
      NoSum();
    }
  }

  lemma NoSum()
    ensures Sum([]) == 0
  {
  }

  /** The average always lies between the smallest and the largest sample. */
  lemma AverageBetween(samples: seq<nat>)
    requires samples != []
    ensures Smallest(samples) <= Mean(Sum(samples), |samples|) <= Largest(samples)
  {
    SumBounds(samples);
    ScaledBound(Smallest(samples), Largest(samples), Sum(samples), |samples|);
  }

  /** The smoothed time stays between 10 and the largest sample, or 10 if that is larger. The bound
      holds even if the 32-bit sum wraps. */
  lemma {:induction false} SmoothedBetween(samples: seq<nat>)
    requires samples != []
    ensures LEAST_RTT <= SmoothedRun(samples)
    ensures SmoothedRun(samples) <= LEAST_RTT || SmoothedRun(samples) <= Largest(samples)
  {
    hide Smoothed;
    var before := samples[..|samples| - 1];
    if before != [] {
      SmoothedBetween(before);
    }
    SmoothedStep(SmoothedRun(before), Kept(samples[|samples| - 1]), Largest(samples));
  }

  lemma SmoothedStep(rtt: nat, kept: nat, largest: nat)
    requires (rtt <= LEAST_RTT || rtt <= largest) && kept <= largest
    ensures LEAST_RTT <= Smoothed(rtt, kept)
    ensures Smoothed(rtt, kept) <= LEAST_RTT || Smoothed(rtt, kept) <= largest
  {
    var sum := 7 * (if rtt == 0 then kept else rtt) + kept;
    assert sum % U32 <= sum;
  }

  /** With samples below 2^29 the 32-bit sum never wraps. */
  lemma NoWrap(samples: seq<nat>, time: nat)
    requires time < 0x2000_0000 && forall k :: 0 <= k < |samples| ==> samples[k] < 0x2000_0000
    ensures 7 * SmoothedRun(samples) + Kept(time) < U32
  {
    if samples != [] {
      SmoothedBetween(samples);
      LargestBound(samples, 0x2000_0000);
    }
  }

  lemma {:induction false} LargestBound(samples: seq<nat>, bound: nat)
    requires samples != [] && bound > LEAST_SAMPLE && forall k :: 0 <= k < |samples| ==> samples[k] < bound
    ensures Largest(samples) < bound
  {
    if |samples| > 1 {
      LargestBound(samples[..|samples| - 1], bound);
    }
  }

  /** The maximum told is the largest sample so far exactly if the new sample is not itself a new
      maximum: it is told before it is updated. */
  lemma ToldIsLargestIff(samples: seq<nat>, time: nat)
    ensures ToldMaximum(samples, time) == Largest(samples + [time])
       <==> samples == [] || Max(LEAST_SAMPLE, time) <= Largest(samples)
  {
    OneMore(samples, time);
  }

  /** Samples of 20 and then 100: the controller is told an average of 60 and a maximum of 20. */
  lemma StaleMaximumExample()
    ensures Mean(Sum([20, 100]), 2) == 60 && ToldMaximum([20], 100) == 20
  {
    SumOfParts([20], [100]);
    assert [20] + [100] == [20, 100];
  }

  // ---------------------------------------------------------------------------
  // What smoothing means
  // ---------------------------------------------------------------------------

  /** A first sample is taken as it is, and any further one moves the smoothed time towards itself by
      an eighth of the distance, rounded down, unless the floor of 10 is met. */
  lemma SmoothedMoves(rtt: nat, kept: nat)
    requires rtt < U32 / 8 && kept < U32 / 8
    ensures rtt == 0 ==> Smoothed(rtt, kept) == Max(LEAST_RTT, kept)
    ensures rtt != 0 && Smoothed(rtt, kept) > LEAST_RTT
            ==> kept - rtt - 8 < 8 * (Smoothed(rtt, kept) - rtt) <= kept - rtt
    ensures rtt != 0 && Smoothed(rtt, kept) == LEAST_RTT ==> kept - rtt < 8 * (LEAST_RTT + 1 - rtt)
  {
  }

  function Distance(a: nat, b: nat): nat {
    if a < b then b - a else a - b
  }

  function Power(base: nat, n: nat): nat {
    if n == 0 then 1 else base * Power(base, n - 1)
  }

  /** One common sample brings two smoothed times closer by an eighth of their distance, up to
      rounding. */
  lemma OneCloser(a: nat, b: nat, kept: nat)
    requires 0 < a < U32 / 8 && 0 < b < U32 / 8 && kept < U32 / 8
    ensures 8 * Distance(Smoothed(a, kept), Smoothed(b, kept)) <= 7 * Distance(a, b) + 7
  {
    SmoothedMoves(a, kept);
    SmoothedMoves(b, kept);
  }

  lemma SmallTimes(samples: seq<nat>)
    requires samples != [] && forall k :: 0 <= k < |samples| ==> samples[k] < U32 / 8
    ensures 0 < SmoothedRun(samples) < U32 / 8
  {
    SmoothedBetween(samples);
    LargestBound(samples, U32 / 8);
  }

  /** History is forgotten: after the same samples two smoothed times have come closer by a factor of
      7/8 for each, down to a distance of 7 that rounding can leave. */
  lemma {:induction false} HistoryForgotten(xs: seq<nat>, ys: seq<nat>, more: seq<nat>)
    requires xs != [] && ys != []
    requires forall k :: 0 <= k < |xs| ==> xs[k] < U32 / 8
    requires forall k :: 0 <= k < |ys| ==> ys[k] < U32 / 8
    requires forall k :: 0 <= k < |more| ==> more[k] < U32 / 8
    ensures Power(8, |more|) * (Distance(SmoothedRun(xs + more), SmoothedRun(ys + more)) - 7)
         <= Power(7, |more|) * Max(Distance(SmoothedRun(xs), SmoothedRun(ys)) - 7, 0)
    decreases |more|
  {
    hide Smoothed, SmoothedRun, Kept, Distance, Power;
    var n := |more| - 1;
    NoPower();
    if more == [] {
      assert xs + more == xs && ys + more == ys;
    } else {
      var before, kept := more[..n], Kept(more[n]);
      assert xs + more == xs + before + [more[n]] && ys + more == ys + before + [more[n]];
      HistoryForgotten(xs, ys, before);
      SmallTimes(xs + before);
      SmallTimes(ys + before);
      KeptIsSmall(more[n]);
      OneMoreSmoothed(xs + before, more[n]);
      OneMoreSmoothed(ys + before, more[n]);
      OneCloser(SmoothedRun(xs + before), SmoothedRun(ys + before), kept);
      NextPower(8, n);
      NextPower(7, n);
      Closer(Power(8, n), Power(7, n), Distance(SmoothedRun(xs + before), SmoothedRun(ys + before)),
             Distance(SmoothedRun(xs + more), SmoothedRun(ys + more)),
             Max(Distance(SmoothedRun(xs), SmoothedRun(ys)) - 7, 0));
    }
  }

  lemma NoPower()
    ensures Power(8, 0) == 1 && Power(7, 0) == 1
  {
  }

  lemma NextPower(base: nat, n: nat)
    ensures Power(base, n + 1) == base * Power(base, n)
  {
  }

  lemma KeptIsSmall(time: nat)
    requires time < U32 / 8
    ensures Kept(time) < U32 / 8
  {
  }

  lemma OneMoreSmoothed(samples: seq<nat>, time: nat)
    ensures SmoothedRun(samples + [time]) == Smoothed(SmoothedRun(samples), Kept(time))
  {
    hide Smoothed, Kept;
    assert (samples + [time])[..|samples|] == samples;
  }

  lemma Closer(p: nat, q: nat, d: nat, e: nat, start: nat)
    requires p * (d - 7) <= q * start && 8 * e <= 7 * d + 7
    ensures 8 * p * (e - 7) <= 7 * q * start
  {
    assert 8 * (e - 7) <= 7 * (d - 7);
    Scaled(p, 8 * (e - 7), 7 * (d - 7));
    assert p * (8 * (e - 7)) == 8 * p * (e - 7);
    assert p * (7 * (d - 7)) == 7 * (p * (d - 7));
    assert 7 * (q * start) == 7 * q * start;
  }

  lemma Scaled(p: nat, a: int, b: int)
    requires a <= b
    ensures p * a <= p * b
  {
  }

  // ---------------------------------------------------------------------------
  // What the summaries mean
  // ---------------------------------------------------------------------------

  /** The sum adds up over parts, whatever the order they come in. */
  lemma SumOfParts(xs: seq<nat>, ys: seq<nat>)
    ensures Sum(xs + ys) == Sum(xs) + Sum(ys) == Sum(ys + xs)
    ensures forall x :: Sum([x]) == Max(LEAST_SAMPLE, x)
  {
    SumAppends(xs, ys);
    SumAppends(ys, xs);
  }

  lemma {:induction false} SumAppends(xs: seq<nat>, ys: seq<nat>)
    ensures Sum(xs + ys) == Sum(xs) + Sum(ys)
  {
    if ys == [] {
      assert xs + ys == xs;
    } else {
      assert (xs + ys)[..|xs + ys| - 1] == xs + ys[..|ys| - 1];
      SumAppends(xs, ys[..|ys| - 1]);
    }
  }

  /** The average is the sum divided, rounded down. */
  lemma MeanIs(sum: nat, n: nat)
    requires n > 0
    ensures n * Mean(sum, n) <= sum < n * (Mean(sum, n) + 1)
  {
    Quotient(sum, n);
  }

  /** Smallest and largest are samples, a sample below 5 counting as 5, and no sample is beyond them. */
  lemma {:induction false} ExtremesMean(samples: seq<nat>)
    requires samples != []
    ensures forall k :: 0 <= k < |samples| ==> Smallest(samples) <= Max(LEAST_SAMPLE, samples[k]) <= Largest(samples)
    ensures exists k :: 0 <= k < |samples| && Smallest(samples) == Max(LEAST_SAMPLE, samples[k])
    ensures exists k :: 0 <= k < |samples| && Largest(samples) == Max(LEAST_SAMPLE, samples[k])
  {
    var n := |samples| - 1;
    var before := samples[..n];
    assert Kept(samples[n]) == Max(LEAST_SAMPLE, samples[n]);
    if n > 0 {
      ExtremesMean(before);
      var i :| 0 <= i < n && Smallest(before) == Max(LEAST_SAMPLE, before[i]);
      var j :| 0 <= j < n && Largest(before) == Max(LEAST_SAMPLE, before[j]);
      assert before[i] == samples[i] && before[j] == samples[j];
    }
  }
}
