/** Round-trip times, modes and the gain cycle of the BBR-style sender over whole runs. */
module BbrTimes {
  import opened BbrHistory
  import opened BbrModel
  import opened BbrRuns
  import opened Numbers
  import opened Wrappers

  /** The round-trip time an acknowledgement yields, if it yields one. */
  function SampleOf(s: State, now: nat, seqno: nat): Option<int> {
    if seqno <= s.lastAckSeq || seqno !in s.rtt.seqTs then None else Some(now - s.rtt.seqTs[seqno])
  }

  /** An acknowledgement makes the sender enter PROBE_RTT: no sample has renewed the minimum for ten
      seconds. */
  predicate Enters(s: State, now: nat, seqno: nat, random: nat) {
    && seqno > s.lastAckSeq && s.mode != ProbeRtt
    && now > UpdateRtt(s.rtt, now, seqno).minRttTs + MIN_RTT_EXPIRY
  }

  /** What an acknowledgement does to the times and modes. */
  lemma AckTimes(s: State, now: nat, seqno: nat, random: nat)
    requires seqno > s.lastAckSeq
    ensures var t, enters := OnAck(s, now, seqno, random), Enters(s, now, seqno, random);
            && t.rtt.seqTs == (if enters then map[] else map k | k in s.rtt.seqTs && k > seqno :: s.rtt.seqTs[k])
            && t.rtt.minRtt == (if enters then 0 else
                                match SampleOf(s, now, seqno)
                                case None => s.rtt.minRtt
                                case Some(x) => MinRttSample(s.rtt.minRtt, x).0)
            && (s.rtt.cycleOffset < GAIN_CYCLE_LENGTH ==> t.rtt.cycleOffset < GAIN_CYCLE_LENGTH)
            && t.mode != StartUp
  {
    hide AckPacket, Average, HasSampledLastMinRtt, MinRttSample, RandomPhase;
    LookupKeepsTimes(UpdateModes(s, now, seqno, random), seqno, now);
    AverageKeepsTimes(AckPacket(UpdateModes(s, now, seqno, random), seqno, now));
  }

  lemma LookupKeepsTimes(s: State, q: nat, now: nat)
    ensures AckPacket(s, q, now).rtt == s.rtt && AckPacket(s, q, now).mode == s.mode
  {
    hide ClusterAck, Estimate;
  }

  lemma AverageKeepsTimes(s: State)
    ensures Average(s).rtt == s.rtt && Average(s).mode == s.mode
  {
    hide DropStale, SumTotals;
    if |s.ackedIds| >= AVERAGE_WINDOW {
      var totals := SumTotals(s.clusters, s.ackedIds);
      var round := s.averageRound + totals.id % AVERAGE_WINDOW;
      var updates := s.averageUpdates + [AverageUpdate(totals, round)];
      DropStaleKeepsTimes(s.(averageRound := round, averageUpdates := updates), |s.ackedIds| - (AVERAGE_WINDOW - 1));
    }
  }

  lemma {:induction false} DropStaleKeepsTimes(s: State, n: nat)
    requires n <= |s.ackedIds|
    ensures DropStale(s, n).rtt == s.rtt && DropStale(s, n).mode == s.mode
    decreases n
  {
    if n > 0 {
      DropStaleKeepsTimes(s.(ackedIds := s.ackedIds[1..], clusters := DropUpTo(s.clusters, s.ackedIds[0])), n - 1);
    }
  }

  lemma SendTimes(s: State, now: nat, seqno: nat, bytes: nat)
    ensures var t := OnPacketSent(s, now, seqno, bytes);
            && t.rtt.seqTs == Insert(s.rtt.seqTs, seqno, now) && t.rtt.minRtt == s.rtt.minRtt && t.mode == s.mode
            && (s.rtt.cycleOffset < GAIN_CYCLE_LENGTH ==> t.rtt.cycleOffset < GAIN_CYCLE_LENGTH)
  {
    hide ClusterSent, Insert;
  }

  // ---------------------------------------------------------------------------
  // Runs
  // ---------------------------------------------------------------------------

  /** How many packets had been sent when PROBE_RTT was last entered. */
  function ClearedAt(steps: seq<Step>): nat {
    if steps == [] then 0 else
    var before := steps[..|steps| - 1];
    match steps[|steps| - 1]
    case Sent(_, _) => ClearedAt(before)
    case Acked(now, seqno, random) =>
      if Enters(Run(before), now, seqno, random) then |Log(before)| else ClearedAt(before)
  }

  /** The round-trip times taken since PROBE_RTT was last entered. */
  function Samples(steps: seq<Step>): seq<int> {
    if steps == [] then [] else
    var before := steps[..|steps| - 1];
    match steps[|steps| - 1]
    case Sent(_, _) => Samples(before)
    case Acked(now, seqno, random) =>
      if Enters(Run(before), now, seqno, random) then [] else
      match SampleOf(Run(before), now, seqno)
      case None => Samples(before)
      case Some(x) => Samples(before) + [x]
  }

  /** Of the packets above the last acknowledged number, `seq_ts_map_` holds exactly those sent after
      PROBE_RTT was last entered, and every packet it holds was sent at the time it tells. */
  ghost predicate SendTimesKept(m: map<nat, nat>, log: seq<Step>, last: nat, cleared: nat) {
    && (forall k :: k > last ==> (k in m <==> cleared < k <= |log|))
    && (forall k :: k in m ==> 1 <= k <= |log| && log[k - 1].Sent? && m[k] == log[k - 1].now)
  }

  lemma {:induction false} LogIsSends(steps: seq<Step>, k: nat)
    requires k < |Log(steps)|
    ensures Log(steps)[k].Sent?
  {
    var before := steps[..|steps| - 1];
    if k < |Log(before)| {
      LogIsSends(before, k);
    }
  }

  lemma SendKept(m: map<nat, nat>, log: seq<Step>, last: nat, cleared: nat, now: nat, bytes: nat)
    requires SendTimesKept(m, log, last, cleared) && cleared <= |log|
    ensures SendTimesKept(Insert(m, |log| + 1, now), log + [Sent(now, bytes)], last, cleared)
  {
  }

  lemma {:induction false} TimesKept(steps: seq<Step>)
    requires ValidRun(steps)
    ensures ClearedAt(steps) <= |Log(steps)|
    ensures SendTimesKept(Run(steps).rtt.seqTs, Log(steps), Run(steps).lastAckSeq, ClearedAt(steps))
  {
    hide OnPacketSent, OnAck, Enters, Insert, SendTimesKept;
    if steps == [] {
      NothingKept();
    } else {
      var before, step := steps[..|steps| - 1], steps[|steps| - 1];
      var s, log := Run(before), Log(before);
      ValidBefore(steps);
      TimesKept(before);
      match step
      case Sent(now, bytes) =>
        SendTimes(s, now, |log| + 1, bytes);
        SendKeepsLast(s, now, |log| + 1, bytes);
        SendKept(s.rtt.seqTs, log, s.lastAckSeq, ClearedAt(before), now, bytes);
      case Acked(now, seqno, random) =>
        AckMovesOn(s, now, seqno, random);
        if seqno > s.lastAckSeq {
          AckTimes(s, now, seqno, random);
          AckKept(s.rtt.seqTs, log, s.lastAckSeq, ClearedAt(before), seqno);
        } else {
          NoEntry(s, now, seqno, random);
        }
    }
  }

  lemma NothingKept()
    ensures SendTimesKept(map[], [], 0, 0)
  {
  }

  lemma NoEntry(s: State, now: nat, seqno: nat, random: nat)
    requires seqno <= s.lastAckSeq
    ensures !Enters(s, now, seqno, random) && OnAck(s, now, seqno, random) == s
  {
  }

  lemma AckKept(m: map<nat, nat>, log: seq<Step>, last: nat, cleared: nat, seqno: nat)
    requires SendTimesKept(m, log, last, cleared) && seqno > last
    ensures SendTimesKept(map k | k in m && k > seqno :: m[k], log, seqno, cleared)
    ensures SendTimesKept(map[], log, seqno, |log|)
  {
  }

  /** Exactly which acknowledgements yield a round-trip time, and that it is the time since the
      packet was sent. */
  lemma SamplesAreRoundTrips(steps: seq<Step>, now: nat, seqno: nat)
    requires ValidRun(steps)
    ensures SampleOf(Run(steps), now, seqno).Some?
       <==> Run(steps).lastAckSeq < seqno <= |Log(steps)| && ClearedAt(steps) < seqno
    ensures SampleOf(Run(steps), now, seqno).Some? ==>
              SampleOf(Run(steps), now, seqno).value == now - Log(steps)[seqno - 1].now
  {
    hide Run, ClearedAt;
    TimesKept(steps);
  }

  // ---------------------------------------------------------------------------
  // The minimum
  // ---------------------------------------------------------------------------

  function Least(xs: seq<int>): int
    requires xs != []
  {
    var last := xs[|xs| - 1];
    if |xs| == 1 then last else
    var before := Least(xs[..|xs| - 1]);
    if last < before then last else before
  }

  /** The minimum the sender keeps; 0 stands for none. */
  function KeptMinimum(xs: seq<int>): int {
    if xs == [] then 0 else MinRttSample(KeptMinimum(xs[..|xs| - 1]), xs[|xs| - 1]).0
  }

  lemma {:induction false} MinimumKept(steps: seq<Step>)
    ensures Run(steps).rtt.minRtt == KeptMinimum(Samples(steps))
  {
    hide OnPacketSent, OnAck, Enters, MinRttSample;
    if steps != [] {
      var before, step := steps[..|steps| - 1], steps[|steps| - 1];
      var s := Run(before);
      MinimumKept(before);
      match step
      case Sent(now, bytes) =>
        SendTimes(s, now, Next(before), bytes);
      case Acked(now, seqno, random) =>
        if seqno > s.lastAckSeq {
          AckTimes(s, now, seqno, random);
          if SampleOf(s, now, seqno).Some? {
            var x := SampleOf(s, now, seqno).value;
            assert (Samples(before) + [x])[..|Samples(before)|] == Samples(before);
          }
        } else {
          NoEntry(s, now, seqno, random);
        }
    }
  }

  /** The kept minimum is the least sample exactly if no sample is 0, or the least is 0 and so is the
      last, or the least is negative: a sample of 0 reads as none and is forgotten by the next. */
  lemma {:induction false} KeptIsLeastIff(xs: seq<int>)
    requires xs != []
    ensures 0 !in xs ==> Least(xs) != 0
    ensures 0 in xs ==> Least(xs) <= 0
    ensures Least(xs) < 0 ==> KeptMinimum(xs) == Least(xs)
    ensures Least(xs) == 0 ==> (KeptMinimum(xs) == 0 <==> xs[|xs| - 1] == 0) && KeptMinimum(xs) >= 0
    ensures KeptMinimum(xs) == Least(xs)
       <==> 0 !in xs || (Least(xs) == 0 && xs[|xs| - 1] == 0) || Least(xs) < 0
  {
    var n := |xs| - 1;
    var before := xs[..n];
    assert xs == before + [xs[n]];
    if n > 0 {
      KeptIsLeastIff(before);
    } else {
      assert before == [];
    }
  }

  /** In every reachable state `min_rtt_` is the least round-trip time taken since PROBE_RTT was last
      entered, exactly if none of those times is 0, or the least is 0 and so is the last, or the
      clock went back so that the least is negative. */
  lemma MinRttIsLeastIff(steps: seq<Step>)
    requires Samples(steps) != []
    ensures var xs := Samples(steps);
            Run(steps).rtt.minRtt == Least(xs)
            <==> 0 !in xs || (Least(xs) == 0 && xs[|xs| - 1] == 0) || Least(xs) < 0
  {
    hide Run, Samples;
    MinimumKept(steps);
    KeptIsLeastIff(Samples(steps));
  }

  lemma SendUnfold(steps: seq<Step>, now: nat, bytes: nat)
    ensures var after := steps + [Sent(now, bytes)];
            && Log(after) == Log(steps) + [Sent(now, bytes)] && Samples(after) == Samples(steps)
            && Run(after) == OnPacketSent(Run(steps), now, Next(steps), bytes)
  {
    hide OnPacketSent;
    assert (steps + [Sent(now, bytes)])[..|steps|] == steps;
  }

  lemma AckUnfold(steps: seq<Step>, now: nat, seqno: nat, random: nat)
    ensures var after, s := steps + [Acked(now, seqno, random)], Run(steps);
            && Log(after) == Log(steps) && Run(after) == OnAck(s, now, seqno, random)
            && (!Enters(s, now, seqno, random) ==>
                  Samples(after) == match SampleOf(s, now, seqno)
                                    case None => Samples(steps)
                                    case Some(x) => Samples(steps) + [x])
  {
    hide OnAck, Enters, SampleOf;
    assert (steps + [Acked(now, seqno, random)])[..|steps|] == steps;
  }

  /** A sender without a minimum never enters PROBE_RTT with a sample: the sample renews it. */
  lemma FirstSampleRenews(s: State, now: nat, seqno: nat, random: nat)
    requires s.rtt.minRtt == 0 && SampleOf(s, now, seqno).Some?
    ensures !Enters(s, now, seqno, random)
  {
  }

  /** Two packets sent at the same time and acknowledged at that time and a microsecond later: the
      minimum kept is 1, the least round-trip time is 0. */
  lemma ZeroSampleExample()
    ensures var steps := [Sent(1, 1400), Sent(1, 1400), Acked(1, 1, 0), Acked(2, 2, 0)];
            && ValidRun(steps) && Samples(steps) == [0, 1]
            && Run(steps).rtt.minRtt == 1 && Least(Samples(steps)) == 0
  {
    hide OnPacketSent, OnAck, Enters, Run, Log, Samples, Insert;
    var one, two := [Sent(1, 1400)], [Sent(1, 1400), Sent(1, 1400)];
    var three, four := two + [Acked(1, 1, 0)], two + [Acked(1, 1, 0), Acked(2, 2, 0)];
    assert one == [] + [Sent(1, 1400)] && two == one + [Sent(1, 1400)] && four == three + [Acked(2, 2, 0)];
    EmptyRun();
    SendUnfold([], 1, 1400);
    SendTimes(Initial(), 1, 1, 1400);
    SendKeepsLast(Initial(), 1, 1, 1400);
    SendUnfold(one, 1, 1400);
    SendTimes(Run(one), 1, 2, 1400);
    SendKeepsLast(Run(one), 1, 2, 1400);
    TwoEntries();
    FirstSampleRenews(Run(two), 1, 1, 0);
    AckUnfold(two, 1, 1, 0);
    AckTimes(Run(two), 1, 1, 0);
    AckMovesOn(Run(two), 1, 1, 0);
    FirstSampleRenews(Run(three), 2, 2, 0);
    AckUnfold(three, 2, 2, 0);
    AckTimes(Run(three), 2, 2, 0);
    assert four == [Sent(1, 1400), Sent(1, 1400), Acked(1, 1, 0), Acked(2, 2, 0)];
    assert Samples(three) == [0] && Samples(four) == [0, 1] && [0, 1][..1] == [0];
  }

  lemma EmptyRun()
    ensures Run([]) == Initial() && Log([]) == [] && Samples([]) == []
  {
  }

  lemma TwoEntries()
    ensures Insert(Insert(map[], 1, 1), 2, 1) == map[1 := 1, 2 := 1]
  {
  }

  // ---------------------------------------------------------------------------
  // Modes and the gain cycle
  // ---------------------------------------------------------------------------

  /** The gain is always taken from inside its table, and START_UP ends with the first
      acknowledgement for good. */
  lemma {:induction false} GainInTable(steps: seq<Step>)
    ensures Run(steps).rtt.cycleOffset < GAIN_CYCLE_LENGTH
    ensures Run(steps).mode == StartUp <==> Run(steps).lastAckSeq == 0
  {
    hide OnPacketSent, OnAck, Enters, MinRttSample;
    if steps != [] {
      var before, step := steps[..|steps| - 1], steps[|steps| - 1];
      var s := Run(before);
      GainInTable(before);
      match step
      case Sent(now, bytes) =>
        SendTimes(s, now, Next(before), bytes);
        SendKeepsLast(s, now, Next(before), bytes);
      case Acked(now, seqno, random) =>
        AckMovesOn(s, now, seqno, random);
        if seqno > s.lastAckSeq {
          AckTimes(s, now, seqno, random);
        } else {
          NoEntry(s, now, seqno, random);
        }
    }
  }

  /** In PROBE_RTT the time to leave it is always set. */
  lemma {:induction false} ExitIsSet(steps: seq<Step>)
    ensures Run(steps).mode == ProbeRtt ==> Run(steps).rtt.exitProbeRttAt != 0
  {
    hide OnPacketSent, OnAck;
    if steps != [] {
      var before, step := steps[..|steps| - 1], steps[|steps| - 1];
      ExitIsSet(before);
      match step
      case Sent(now, bytes) => SendKeepsExit(Run(before), now, Next(before), bytes);
      case Acked(now, seqno, random) => AckSetsExit(Run(before), now, seqno, random);
    }
  }

  lemma SendKeepsExit(s: State, now: nat, seqno: nat, bytes: nat)
    ensures var t := OnPacketSent(s, now, seqno, bytes);
            t.rtt.exitProbeRttAt == s.rtt.exitProbeRttAt && t.mode == s.mode
  {
    hide ClusterSent, Insert;
  }

  lemma AckSetsExit(s: State, now: nat, seqno: nat, random: nat)
    requires s.mode == ProbeRtt ==> s.rtt.exitProbeRttAt != 0
    ensures OnAck(s, now, seqno, random).mode == ProbeRtt ==> OnAck(s, now, seqno, random).rtt.exitProbeRttAt != 0
  {
    hide AckPacket, Average, UpdateRtt, HasSampledLastMinRtt;
    if seqno > s.lastAckSeq {
      LookupKeepsTimes(UpdateModes(s, now, seqno, random), seqno, now);
      AverageKeepsTimes(AckPacket(UpdateModes(s, now, seqno, random), seqno, now));
    }
  }

  /** PROBE_RTT is left exactly after its 200 milliseconds, or with a round-trip time close to the one
      from before. */
  lemma ProbeRttEnds(s: State, now: nat, seqno: nat, random: nat)
    requires s.mode == ProbeRtt && s.rtt.exitProbeRttAt != 0 && seqno > s.lastAckSeq
    ensures OnAck(s, now, seqno, random).mode != ProbeRtt
       <==> now > s.rtt.exitProbeRttAt || HasSampledLastMinRtt(UpdateRtt(s.rtt, now, seqno))
  {
    hide AckPacket, Average, UpdateRtt, HasSampledLastMinRtt;
    var r := UpdateRtt(s.rtt, now, seqno);
    RttKeepsExit(s.rtt, now, seqno);
    LookupKeepsTimes(UpdateModes(s, now, seqno, random), seqno, now);
    AverageKeepsTimes(AckPacket(UpdateModes(s, now, seqno, random), seqno, now));
    assert r.(exitProbeRttAt := r.exitProbeRttAt) == r;
  }

  /** Nine eighths, to the nearest microsecond; in between the one away from 0. */
  lemma SimilarIsNearest(t: int)
    ensures t >= 0 ==> 9 * t - 4 < 8 * Similar(t) <= 9 * t + 4
    ensures t < 0 ==> 9 * t - 4 <= 8 * Similar(t) < 9 * t + 4
  {
  }

  /** Close to the one from before: both are known, and the new one is below nine eighths of the old. */
  lemma SampledMeans(r: Rtt)
    requires r.minRtt > 0 && r.recordedMinRtt > 0
    ensures 8 * r.minRtt < 9 * r.recordedMinRtt - 4 ==> HasSampledLastMinRtt(r)
    ensures HasSampledLastMinRtt(r) ==> 8 * r.minRtt <= 9 * r.recordedMinRtt + 4 - 8
    ensures !HasSampledLastMinRtt(r.(minRtt := 0)) && !HasSampledLastMinRtt(r.(recordedMinRtt := 0))
  {
  }

  /** On entering PROBE_RTT the sender remembers the minimum, forgets it, counts rounds from 0 and sets
      the time to leave, and does not leave at once. */
  lemma EnterSets(s: State, now: nat, seqno: nat, random: nat)
    requires Enters(s, now, seqno, random)
    ensures var t := OnAck(s, now, seqno, random);
            && t.mode == ProbeRtt && t.roundTripCount == 0
            && t.rtt.exitProbeRttAt == now + 200_000 && t.rtt.minRtt == 0
            && t.rtt.recordedMinRtt == UpdateRtt(s.rtt, now, seqno).minRtt
            && t.seqRound == map[] && t.ackedIds == [] && t.averageUpdates == [] && t.averageRound == 0
  {
    hide AckPacket, Average, UpdateRtt, RandomPhase;
    var t := UpdateModes(s, now, seqno, random);
    assert t.clusters == [] && t.ackedIds == [] && t.seqRound == map[];
    NothingToLookUp(t, seqno, now);
  }

  lemma NothingToLookUp(t: State, seqno: nat, now: nat)
    requires t.seqRound == map[] && t.ackedIds == []
    ensures Average(AckPacket(t, seqno, now)) == t
  {
  }

  /** When PROBE_RTT or START_UP ends, a round of PROBE_BW starts in a random phase. */
  lemma LeaveSets(s: State, now: nat, seqno: nat, random: nat)
    requires s.mode != ProbeBw && OnAck(s, now, seqno, random).mode == ProbeBw
    ensures var t := OnAck(s, now, seqno, random);
            && t.roundTripCount == s.roundTripCount + 1 && t.rtt.lastCycleStart == now
            && t.rtt.cycleOffset == RandomPhase(random)
            && (s.mode == ProbeRtt ==> t.rtt.recordedMinRtt == 0)
  {
    hide AckPacket, Average, UpdateRtt, RandomPhase, Similar;
    if seqno > s.lastAckSeq {
      var t := UpdateModes(s, now, seqno, random);
      LookupKeepsTimes(t, seqno, now);
      LookupKeepsRound(t, seqno, now);
      AverageKeepsTimes(AckPacket(t, seqno, now));
      AverageKeepsRound(AckPacket(t, seqno, now));
    }
  }

  lemma LookupKeepsRound(s: State, q: nat, now: nat)
    ensures AckPacket(s, q, now).roundTripCount == s.roundTripCount
  {
    hide ClusterAck, Estimate;
  }

  lemma AverageKeepsRound(s: State)
    ensures Average(s).roundTripCount == s.roundTripCount
  {
    hide DropStale, SumTotals;
    if |s.ackedIds| >= AVERAGE_WINDOW {
      var totals := SumTotals(s.clusters, s.ackedIds);
      var round := s.averageRound + totals.id % AVERAGE_WINDOW;
      var updates := s.averageUpdates + [AverageUpdate(totals, round)];
      DropStaleKeepsRound(s.(averageRound := round, averageUpdates := updates), |s.ackedIds| - (AVERAGE_WINDOW - 1));
    }
  }

  lemma {:induction false} DropStaleKeepsRound(s: State, n: nat)
    requires n <= |s.ackedIds|
    ensures DropStale(s, n).roundTripCount == s.roundTripCount
    decreases n
  {
    if n > 0 {
      DropStaleKeepsRound(s.(ackedIds := s.ackedIds[1..], clusters := DropUpTo(s.clusters, s.ackedIds[0])), n - 1);
    }
  }

  /** Every phase of the gain cycle but the draining one is drawn, each by one in seven numbers. */
  lemma EveryPhase(phase: nat, random: nat)
    requires phase < GAIN_CYCLE_LENGTH && phase != 1
    ensures RandomPhase(random) == phase <==> random % 7 == (if phase == 0 then 0 else phase - 1)
  {
  }

  /** In PROBE_BW a send starts a new round, with the next gain, exactly when the last one has lasted
      longer than the minimum round-trip time; outside PROBE_BW it never does. */
  lemma RoundStartsIff(s: State, now: nat, seqno: nat, bytes: nat)
    requires s.rtt.cycleOffset < GAIN_CYCLE_LENGTH
    ensures var t := OnPacketSent(s, now, seqno, bytes);
            if s.mode == ProbeBw && now - s.rtt.lastCycleStart > s.rtt.minRtt
            then && t.roundTripCount == s.roundTripCount + 1 && t.rtt.lastCycleStart == now
                 && (t.rtt.cycleOffset == s.rtt.cycleOffset + 1 || (s.rtt.cycleOffset == 7 && t.rtt.cycleOffset == 0))
            else && t.roundTripCount == s.roundTripCount && t.rtt.lastCycleStart == s.rtt.lastCycleStart
                 && t.rtt.cycleOffset == s.rtt.cycleOffset
  {
    hide ClusterSent, Insert;
  }

  /** A packet sent in PROBE_BW is the last record of the cluster of the current round. */
  lemma SentJoinsRound(s: State, now: nat, bytes: nat, next: nat)
    requires Inv(s, next) && next + 1 < U32 && s.mode == ProbeBw
    ensures var t := OnPacketSent(s, now, next, bytes);
            && t.clusters != [] && t.seqRound == Insert(s.seqRound, next, t.roundTripCount)
            && var c := t.clusters[|t.clusters| - 1];
            && c.id == t.roundTripCount && c.packets != []
            && c.packets[|c.packets| - 1] == SentPacketInfo(next, now, 0, bytes)
            && (|t.clusters| == |s.clusters| || (|t.clusters| == |s.clusters| + 1 && |c.packets| == 1))
  {
    hide GoodCluster, AllNamed, AckedLive, AllReportsOk, AllAckedUpTo, Insert, ClusterSent, Chained;
    var u := UpdateGainCyclePhase(s.(rtt := s.rtt.(seqTs := Insert(s.rtt.seqTs, next, now))), now);
    var i := FindCluster(u.clusters, u.roundTripCount);
    if i >= 0 {
      CurrentRoundIsLast(u.clusters, next, i, u.roundTripCount);
      LastRecord(u.clusters[i], now, next, bytes);
    } else {
      LastRecord(NewCluster(u.roundTripCount), now, next, bytes);
    }
  }

  lemma LastRecord(c: Cluster, now: nat, seqno: nat, bytes: nat)
    ensures var d := ClusterSent(c, now, seqno, bytes);
            && d.id == c.id && |d.packets| == |c.packets| + 1
            && d.packets[|d.packets| - 1] == SentPacketInfo(seqno, now, 0, bytes)
  {
  }

  /** An acknowledged packet is forgotten, and unless PROBE_RTT is entered no other is. */
  lemma AckForgets(s: State, now: nat, seqno: nat, random: nat)
    requires seqno > s.lastAckSeq
    ensures OnAck(s, now, seqno, random).seqRound
         == if Enters(s, now, seqno, random) then map[] else s.seqRound - {seqno}
  {
    hide Average, UpdateModes, AckPacket, Enters;
    AverageKeeps(AckPacket(UpdateModes(s, now, seqno, random), seqno, now));
    LookupForgets(UpdateModes(s, now, seqno, random), seqno, now);
    ModesForget(s, now, seqno, random);
  }

  lemma LookupForgets(s: State, seqno: nat, now: nat)
    ensures AckPacket(s, seqno, now).seqRound == s.seqRound - {seqno}
  {
    hide Estimate, ClusterAck;
  }

  lemma ModesForget(s: State, now: nat, seqno: nat, random: nat)
    requires seqno > s.lastAckSeq
    ensures UpdateModes(s, now, seqno, random).seqRound == if Enters(s, now, seqno, random) then map[] else s.seqRound
  {
    hide UpdateRtt, HasSampledLastMinRtt, RandomPhase;
  }

  /** Exactly when a round-trip time renews the minimum's time stamp: if there was no minimum, if it is
      a new one, or if it is above the minimum and close to it. One equal to the minimum does not. */
  lemma RenewedIff(r: Rtt, now: nat, seqno: nat)
    requires seqno in r.seqTs && now != r.minRttTs
    ensures var x := now - r.seqTs[seqno];
            && (UpdateRtt(r, now, seqno).minRttTs == now
                <==> r.minRtt == 0 || x < r.minRtt || r.minRtt < x <= Similar(r.minRtt))
            && (UpdateRtt(r, now, seqno).minRttTs != now ==> UpdateRtt(r, now, seqno).minRttTs == r.minRttTs)
  {
  }

  /** The minimum is 20, taken at 100. A second time of 20 at 200 leaves the stamp; one of 21 renews it. */
  lemma EqualSampleExample()
    ensures var r := Rtt(map[7 := 180, 8 := 179], 20, 0, 100, 0, 0, 0);
            UpdateRtt(r, 200, 7).minRttTs == 100 && UpdateRtt(r, 200, 8).minRttTs == 200
  {
  }

  lemma RttKeepsExit(r: Rtt, now: nat, seqno: nat)
    ensures UpdateRtt(r, now, seqno).exitProbeRttAt == r.exitProbeRttAt
  {
  }

  // ---------------------------------------------------------------------------
  // Reports
  // ---------------------------------------------------------------------------

  /** An acknowledgement that enters PROBE_RTT drops all reports with the clusters they are about;
      any other keeps them all. */
  lemma ReportsKept(s: State, now: nat, seqno: nat, random: nat)
    ensures var t := OnAck(s, now, seqno, random);
            if Enters(s, now, seqno, random) then t.reports == [] && t.clusters == [] else s.reports <= t.reports
  {
    hide Average, Estimate, ClusterAck, UpdateRtt, HasSampledLastMinRtt, RandomPhase;
    if seqno > s.lastAckSeq {
      AverageKeepsReports(AckPacket(UpdateModes(s, now, seqno, random), seqno, now));
      AverageKeeps(AckPacket(UpdateModes(s, now, seqno, random), seqno, now));
    }
  }
}
