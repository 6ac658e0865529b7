/** What the BBR-style sender reports: the times of a cluster are those of its records, a reported
    bandwidth is the smaller of the cluster's two rates, and exactly one kind of acknowledgement
    makes a report. */
module BbrReports {
  import opened BbrHistory
  import opened BbrModel
  import opened BbrRuns
  import opened Numbers

  /** The bandwidth of a cluster with bytes acknowledged over some time is the smaller of its rates;
      where sending took no time only the other one counts. */
  lemma EstimateIsSmaller(c: Cluster)
    ensures c.ackedBytes == 0 || c.lastAckTs == c.firstAckTs ==> Estimate(c) == 0
    ensures c.ackedBytes > 0 && c.lastAckTs != c.firstAckTs ==>
              var ackRate := BANDWIDTH(c.ackedBytes, c.lastAckTs - c.firstAckTs);
              if c.lastSendTs <= c.firstSendTs then Estimate(c) == ackRate
              else
                var sendRate := BANDWIDTH(c.sentBytes, c.lastSendTs - c.firstSendTs);
                && Estimate(c) <= ackRate && Estimate(c) <= sendRate
                && (Estimate(c) == ackRate || Estimate(c) == sendRate)
  {
  }

  // ---------------------------------------------------------------------------
  // The times of a cluster
  // ---------------------------------------------------------------------------

  /** The record at `a` is the first that was acknowledged, the one at `b` the last. */
  ghost predicate AckedBetween(c: Cluster, a: int, b: int) {
    && 0 <= a <= b < |c.packets|
    && c.packets[a].ackTs == c.firstAckTs != 0 && c.packets[b].ackTs == c.lastAckTs != 0
    && forall j :: 0 <= j < |c.packets| && c.packets[j].ackTs != 0 ==> a <= j <= b
  }

  /** The four times are those of the first and last record, and of the first and last acknowledged
      one. */
  ghost predicate TimesTold(c: Cluster) {
    && c.packets != []
    && c.firstSendTs == c.packets[0].sentTs && c.lastSendTs == c.packets[|c.packets| - 1].sentTs
    && c.firstSendTs != 0
    && if c.firstAckTs == 0 then forall j :: 0 <= j < |c.packets| ==> c.packets[j].ackTs == 0
       else exists a, b :: AckedBetween(c, a, b)
  }

  lemma SentTimes(c: Cluster, now: nat, seqno: nat, len: nat)
    requires now != 0 && (TimesTold(c) || c == NewCluster(c.id))
    ensures TimesTold(ClusterSent(c, now, seqno, len))
  {
    var d := ClusterSent(c, now, seqno, len);
    if c.packets != [] && c.firstAckTs != 0 {
      var a, b :| AckedBetween(c, a, b);
      assert AckedBetween(d, a, b);
    }
  }

  /** An acknowledgement above all earlier ones marks a later record. */
  lemma MarkedTimes(c: Cluster, q: nat, now: nat)
    requires GoodCluster(c) && Head(c) <= q < End(c) < U32 && q > 0 && AckedUpTo(c, q - 1) && now != 0
    requires TimesTold(c)
    ensures TimesTold(ClusterAck(c, q, now))
  {
    var d, k := ClusterAck(c, q, now), q - Head(c);
    OffsetHits(c, q);
    if c.firstAckTs == 0 {
      assert AckedBetween(d, k, k);
    } else {
      var a, b :| AckedBetween(c, a, b);
      assert AckedBetween(d, a, k);
    }
  }

  // ---------------------------------------------------------------------------
  // Reports
  // ---------------------------------------------------------------------------

  ghost predicate ReportMeant(cs: seq<Cluster>, r: Report) {
    forall i :: 0 <= i < |cs| && cs[i].id == r.id ==> r.bandwidth == Estimate(cs[i]) && r.bandwidth > 0
  }

  ghost predicate AllMeant(cs: seq<Cluster>, rs: seq<Report>) {
    && (forall i :: 0 <= i < |cs| ==> TimesTold(cs[i]))
    && (forall r :: r in rs ==> ReportMeant(cs, r))
  }

  lemma GrowMeant(cs: seq<Cluster>, ds: seq<Cluster>, rs: seq<Report>)
    requires AllMeant(cs, rs) && AllReportsOk(cs, rs) && cs != [] && Replaced(cs, ds, |cs| - 1)
    requires TimesTold(ds[|cs| - 1])
    ensures AllMeant(ds, rs)
  {
    hide GoodCluster, TimesTold, Estimate;
    forall r | r in rs
      ensures ReportMeant(ds, r)
    {
      assert ReportOk(cs, r) && ReportMeant(cs, r);
    }
  }

  lemma AppendMeant(cs: seq<Cluster>, c: Cluster, rs: seq<Report>)
    requires AllMeant(cs, rs) && AllReportsOk(cs, rs) && TimesTold(c)
    requires cs != [] ==> cs[|cs| - 1].id < c.id
    ensures AllMeant(cs + [c], rs)
  {
    hide TimesTold, Estimate;
    forall r | r in rs
      ensures ReportMeant(cs + [c], r)
    {
      assert ReportOk(cs, r) && ReportMeant(cs, r);
    }
  }

  lemma SamplerMeant(s: State, now: nat, bytes: nat, next: nat, last: nat)
    requires InvAt(s, next, last) && s.mode == ProbeBw && now != 0 && AllMeant(s.clusters, s.reports)
    ensures AllMeant(AddPacketInfoSampler(s, now, next, bytes).clusters, s.reports)
    ensures AddPacketInfoSampler(s, now, next, bytes).reports == s.reports
  {
    hide GoodCluster, ClusterSent, AllNamed, AckedLive, AllReportsOk, AllAckedUpTo, Chained, Insert, AllMeant;
    hide TimesTold;
    var cs, i := s.clusters, FindCluster(s.clusters, s.roundTripCount);
    if i >= 0 {
      CurrentRoundIsLast(cs, next, i, s.roundTripCount);
      TimesOf(cs, s.reports, i);
      ClusterOf(cs, next, i);
      SentTimes(cs[i], now, next, bytes);
      SentCluster(cs[i], now, next, bytes);
      GrowMeant(cs, cs[i := ClusterSent(cs[i], now, next, bytes)], s.reports);
    } else {
      SentTimes(NewCluster(s.roundTripCount), now, next, bytes);
      SentKeepsId(NewCluster(s.roundTripCount), now, next, bytes);
      AppendMeant(cs, ClusterSent(NewCluster(s.roundTripCount), now, next, bytes), s.reports);
    }
  }

  lemma TimesOf(cs: seq<Cluster>, rs: seq<Report>, i: nat)
    requires AllMeant(cs, rs) && i < |cs|
    ensures TimesTold(cs[i])
  {
  }

  lemma ClusterOf(cs: seq<Cluster>, next: nat, i: nat)
    requires Chained(cs, next) && i < |cs|
    ensures cs[i].packets != [] && GoodCluster(cs[i]) && (i == |cs| - 1 ==> End(cs[i]) == next)
  {
    hide GoodCluster;
  }

  lemma SentKeepsId(c: Cluster, now: nat, seqno: nat, len: nat)
    ensures ClusterSent(c, now, seqno, len).id == c.id
  {
  }

  lemma SentMeant(s: State, now: nat, bytes: nat, next: nat)
    requires Inv(s, next) && now != 0 && AllMeant(s.clusters, s.reports)
    ensures var t := OnPacketSent(s, now, next, bytes); AllMeant(t.clusters, t.reports)
  {
    hide GoodCluster, AllNamed, AckedLive, AllReportsOk, AllAckedUpTo, AddPacketInfoSampler, AllMeant;
    var t := s.(rtt := s.rtt.(seqTs := Insert(s.rtt.seqTs, next, now)));
    if t.mode == ProbeBw {
      SamplerMeant(UpdateGainCyclePhase(t, now), now, bytes, next, s.lastAckSeq);
    }
  }

  lemma MarkMeant(cs: seq<Cluster>, ds: seq<Cluster>, next: nat, i: nat, q: nat, rs: seq<Report>)
    requires Chained(cs, next) && Replaced(cs, ds, i) && q > 0 && AllAckedUpTo(cs, q - 1)
    requires Head(cs[i]) <= q < End(cs[i]) && AllReportsOk(cs, rs)
    requires AllMeant(cs, rs) && TimesTold(ds[i])
    ensures AllMeant(ds, rs)
  {
    hide GoodCluster, Chained, AllAckedUpTo, TimesTold, Estimate;
    forall r | r in rs
      ensures ReportMeant(ds, r)
    {
      assert ReportOk(cs, r) && ReportMeant(cs, r);
      forall j | 0 <= j < |ds| && ds[j].id == r.id
        ensures r.bandwidth == Estimate(ds[j]) && r.bandwidth > 0
      {
        assert cs[j].id == r.id;
        ClosedBefore(cs, next, i, q, j);
      }
    }
  }

  lemma AddedMeant(ds: seq<Cluster>, next: nat, i: nat, rs: seq<Report>)
    requires Chained(ds, next) && i < |ds| && AllMeant(ds, rs) && Estimate(ds[i]) > 0
    ensures AllMeant(ds, rs + [Report(ds[i].id, Estimate(ds[i]), ds[i].sentBytes, ds[i].ackedBytes)])
  {
    hide GoodCluster, TimesTold, Estimate;
    var added := Report(ds[i].id, Estimate(ds[i]), ds[i].sentBytes, ds[i].ackedBytes);
    forall r | r in rs + [added]
      ensures ReportMeant(ds, r)
    {
      if r in rs {
        assert ReportMeant(ds, r);
      } else {
        assert r == added;
      }
    }
  }

  lemma AckClusterMeant(s: State, i: nat, q: nat, now: nat, next: nat)
    requires q > 0 && InvAt(s, next, q - 1) && now != 0 && i < |s.clusters|
    requires s.clusters[i].packets != [] && Head(s.clusters[i]) <= q < End(s.clusters[i])
    requires AllMeant(s.clusters, s.reports)
    ensures var t := AckClusterAt(s, i, q, now); AllMeant(t.clusters, t.reports)
  {
    hide GoodCluster, AckedUpTo, ClusterAck, Estimate, AllNamed, AckedLive, AllReportsOk, AllMeant, TimesTold;
    var cs, ds := s.clusters, s.clusters[i := ClusterAck(s.clusters[i], q, now)];
    EndAtMostNext(cs, next, i);
    TimesOf(cs, s.reports, i);
    MarkedCluster(cs[i], q, now);
    MarkedTimes(cs[i], q, now);
    MarkMeant(cs, ds, next, i, q, s.reports);
    if cs[i].firstAckTs == 0 && i > 0 && Estimate(cs[i - 1]) > 0 {
      ChainedReplace(cs, ds, i, next);
      AddedMeant(ds, next, i - 1, s.reports);
    }
  }

  lemma AckMeant(s: State, q: nat, now: nat, next: nat)
    requires q > 0 && InvAt(s, next, q - 1) && now != 0 && AllMeant(s.clusters, s.reports)
    ensures var t := AckPacket(s, q, now); AllMeant(t.clusters, t.reports)
  {
    hide GoodCluster, AllAckedUpTo, AckClusterAt, AckedLive, AllReportsOk, Chained, AllMeant;
    if q in s.seqRound {
      var t := s.(seqRound := map k | k in s.seqRound && k != q :: s.seqRound[k]);
      assert NamedPacket(s.clusters, s.seqRound[q], q, next);
      assert InvAt(t, next, q - 1);
      var i := FindCluster(s.clusters, s.seqRound[q]);
      if i >= 0 {
        AckClusterMeant(t, i, q, now, next);
      }
    }
  }

  lemma SuffixMeant(cs: seq<Cluster>, ds: seq<Cluster>, rs: seq<Report>)
    requires AllMeant(cs, rs) && |ds| <= |cs| && ds == cs[|cs| - |ds|..]
    ensures AllMeant(ds, rs)
  {
    hide TimesTold, Estimate;
    forall r | r in rs
      ensures ReportMeant(ds, r)
    {
      assert ReportMeant(cs, r);
      assert forall i :: 0 <= i < |ds| ==> ds[i] == cs[|cs| - |ds| + i];
    }
  }

  lemma NothingMeant()
    ensures AllMeant([], [])
  {
  }

  lemma AckedMeant(s: State, now: nat, q: nat, random: nat, next: nat)
    requires Inv(s, next) && now != 0 && AllMeant(s.clusters, s.reports)
    ensures var t := OnAck(s, now, q, random); AllMeant(t.clusters, t.reports)
  {
    hide InvAt, UpdateModes, AckPacket, Average, AllMeant;
    if q > s.lastAckSeq {
      var t := UpdateModes(s, now, q, random);
      ModesInv(s, now, q, random, next);
      ModesKeep(s, now, q, random);
      NothingMeant();
      AckMeant(t, q, now, next);
      AverageKeeps(AckPacket(t, q, now));
      AverageKeepsReports(AckPacket(t, q, now));
      SuffixMeant(AckPacket(t, q, now).clusters, OnAck(s, now, q, random).clusters, AckPacket(t, q, now).reports);
    }
  }

  /** After every run all live clusters and all reports about them mean what they say. */
  lemma {:induction false} RunMeant(steps: seq<Step>)
    requires ValidRun(steps)
    ensures AllMeant(Run(steps).clusters, Run(steps).reports)
  {
    hide Inv, OnPacketSent, OnAck, AllMeant;
    if steps == [] {
      NothingMeant();
    } else {
      var before, step := steps[..|steps| - 1], steps[|steps| - 1];
      ValidBefore(steps);
      RunInv(before);
      RunMeant(before);
      match step
      case Sent(now, bytes) => SentMeant(Run(before), now, bytes, Next(before));
      case Acked(now, seqno, random) => AckedMeant(Run(before), now, seqno, random, Next(before));
    }
  }

  /** In every reachable state the send times of a live cluster are those of its first and its last
      packet, and its acknowledgement times are those at which the first and the last of its
      acknowledged packets were, in the order of their numbers. */
  lemma ClusterTimes(steps: seq<Step>, i: nat)
    requires ValidRun(steps) && i < |Run(steps).clusters|
    ensures var c := Run(steps).clusters[i];
            && c.packets != []
            && c.firstSendTs == c.packets[0].sentTs && c.lastSendTs == c.packets[|c.packets| - 1].sentTs
            && (c.firstAckTs == 0 <==> forall j :: 0 <= j < |c.packets| ==> c.packets[j].ackTs == 0)
            && (c.firstAckTs != 0 ==> exists a, b :: AckedBetween(c, a, b))
  {
    hide Run;
    RunMeant(steps);
    assert TimesTold(Run(steps).clusters[i]);
  }

  /** In every reachable state the bandwidth reported for a cluster that is still live is positive and
      the smaller of its rates: of its bytes over the time between its first and last packet, and of
      its acknowledged bytes over the time between their acknowledgements. */
  lemma ReportedBandwidth(steps: seq<Step>, r: Report, i: nat)
    requires ValidRun(steps) && r in Run(steps).reports
    requires i < |Run(steps).clusters| && Run(steps).clusters[i].id == r.id
    ensures var c := Run(steps).clusters[i];
            && r.bandwidth > 0 && c.ackedBytes > 0 && c.lastAckTs != c.firstAckTs
            && var ackRate := BANDWIDTH(c.ackedBytes, c.lastAckTs - c.firstAckTs);
            && r.bandwidth <= ackRate
            && (c.lastSendTs <= c.firstSendTs ==> r.bandwidth == ackRate)
            && (c.lastSendTs > c.firstSendTs ==>
                  var sendRate := BANDWIDTH(c.sentBytes, c.lastSendTs - c.firstSendTs);
                  r.bandwidth <= sendRate && (r.bandwidth == ackRate || r.bandwidth == sendRate))
  {
    hide Run, TimesTold, Estimate;
    RunMeant(steps);
    assert ReportMeant(Run(steps).clusters, r);
    EstimateIsSmaller(Run(steps).clusters[i]);
  }

  // ---------------------------------------------------------------------------
  // The times of acknowledged records
  // ---------------------------------------------------------------------------

  /** The number was acknowledged at this time. */
  ghost predicate AckedAt(steps: seq<Step>, seqno: nat, ts: nat) {
    exists k :: 0 <= k < |steps| && steps[k].Acked? && steps[k].seqno == seqno && steps[k].now == ts
  }

  ghost predicate AckTold(p: SentPacketInfo, steps: seq<Step>) {
    p.ackTs != 0 ==> AckedAt(steps, p.seqno, p.ackTs)
  }

  ghost predicate AcksTold(c: Cluster, steps: seq<Step>) {
    forall j :: 0 <= j < |c.packets| ==> AckTold(c.packets[j], steps)
  }

  ghost predicate AllAcksTold(cs: seq<Cluster>, steps: seq<Step>) {
    forall i :: 0 <= i < |cs| ==> AcksTold(cs[i], steps)
  }

  lemma ToldLater(cs: seq<Cluster>, steps: seq<Step>, step: Step)
    requires AllAcksTold(cs, steps)
    ensures AllAcksTold(cs, steps + [step])
  {
    forall i, j | 0 <= i < |cs| && 0 <= j < |cs[i].packets|
      ensures AckTold(cs[i].packets[j], steps + [step])
    {
      var p := cs[i].packets[j];
      assert AcksTold(cs[i], steps) && AckTold(p, steps);
      if p.ackTs != 0 {
        var k :| 0 <= k < |steps| && steps[k].Acked? && steps[k].seqno == p.seqno && steps[k].now == p.ackTs;
        assert (steps + [step])[k] == steps[k];
      }
    }
  }

  lemma SentTold(s: State, now: nat, seqno: nat, bytes: nat, steps: seq<Step>)
    requires AllAcksTold(s.clusters, steps)
    ensures AllAcksTold(OnPacketSent(s, now, seqno, bytes).clusters, steps)
  {
    var c := NewCluster(s.roundTripCount);
    assert AcksTold(c, steps);
    forall d | AcksTold(d, steps)
      ensures AcksTold(ClusterSent(d, now, seqno, bytes), steps)
    {
      RecordTold(d, now, seqno, bytes, steps);
    }
  }

  lemma RecordTold(c: Cluster, now: nat, seqno: nat, bytes: nat, steps: seq<Step>)
    requires AcksTold(c, steps)
    ensures AcksTold(ClusterSent(c, now, seqno, bytes), steps)
  {
    hide AckedAt;
    var d := ClusterSent(c, now, seqno, bytes);
    forall j | 0 <= j < |d.packets|
      ensures AckTold(d.packets[j], steps)
    {
      assert j < |c.packets| ==> AckTold(c.packets[j], steps);
    }
  }

  lemma MarkTold(c: Cluster, q: nat, now: nat, steps: seq<Step>)
    requires GoodCluster(c) && Head(c) <= q < End(c) < U32 && AcksTold(c, steps) && AckedAt(steps, q, now)
    ensures AcksTold(ClusterAck(c, q, now), steps)
  {
    hide AckedAt;
    var d := ClusterAck(c, q, now);
    OffsetHits(c, q);
    forall j | 0 <= j < |d.packets|
      ensures AckTold(d.packets[j], steps)
    {
      assert AckTold(c.packets[j], steps);
    }
  }

  lemma LookupTold(s: State, q: nat, now: nat, next: nat, steps: seq<Step>)
    requires q > 0 && InvAt(s, next, q - 1) && AllAcksTold(s.clusters, steps) && AckedAt(steps, q, now)
    ensures AllAcksTold(AckPacket(s, q, now).clusters, steps)
  {
    hide GoodCluster, AllAckedUpTo, AckedLive, AllReportsOk, Chained, AcksTold, ClusterAck, Estimate, AckedAt;
    if q in s.seqRound {
      assert NamedPacket(s.clusters, s.seqRound[q], q, next);
      var i := FindCluster(s.clusters, s.seqRound[q]);
      if i >= 0 {
        ClusterOf(s.clusters, next, i);
        EndAtMostNext(s.clusters, next, i);
        MarkTold(s.clusters[i], q, now, steps);
      }
    }
  }

  lemma AckedTold(s: State, now: nat, q: nat, random: nat, next: nat, steps: seq<Step>)
    requires Inv(s, next) && AllAcksTold(s.clusters, steps) && AckedAt(steps, q, now)
    ensures AllAcksTold(OnAck(s, now, q, random).clusters, steps)
  {
    hide InvAt, UpdateModes, AckPacket, Average, AcksTold;
    if q > s.lastAckSeq {
      var t := UpdateModes(s, now, q, random);
      ModesInv(s, now, q, random, next);
      ModesKeep(s, now, q, random);
      LookupTold(t, q, now, next, steps);
      AverageKeeps(AckPacket(t, q, now));
    }
  }

  lemma {:induction false} RunTold(steps: seq<Step>)
    requires ValidRun(steps)
    ensures AllAcksTold(Run(steps).clusters, steps)
  {
    hide Inv, OnPacketSent, OnAck, AllAcksTold;
    if steps == [] {
      NoneTold();
    } else {
      var before, step := steps[..|steps| - 1], steps[|steps| - 1];
      ValidBefore(steps);
      RunInv(before);
      RunTold(before);
      assert steps == before + [step];
      ToldLater(Run(before).clusters, before, step);
      match step
      case Sent(now, bytes) => SentTold(Run(before), now, Next(before), bytes, steps);
      case Acked(now, seqno, random) =>
        assert steps[|steps| - 1].Acked?;
        AckedTold(Run(before), now, seqno, random, Next(before), steps);
    }
  }

  lemma NoneTold()
    ensures AllAcksTold([], [])
  {
  }

  /** In every reachable state the acknowledgement time in a record is that of an acknowledgement of
      its packet. */
  lemma RecordedAckTimes(steps: seq<Step>, i: nat, j: nat)
    requires ValidRun(steps) && i < |Run(steps).clusters| && j < |Run(steps).clusters[i].packets|
    ensures var p := Run(steps).clusters[i].packets[j]; p.ackTs != 0 ==> AckedAt(steps, p.seqno, p.ackTs)
  {
    hide Run, AckedAt;
    RunTold(steps);
    assert AcksTold(Run(steps).clusters[i], steps);
    assert AckTold(Run(steps).clusters[i].packets[j], steps);
  }

  // ---------------------------------------------------------------------------
  // When a cluster is reported
  // ---------------------------------------------------------------------------

  /** The packet lies in the cluster at `i`, of which nothing has been acknowledged, and there is a
      cluster before it. */
  ghost predicate Opens(cs: seq<Cluster>, i: int, q: nat) {
    0 < i < |cs| && cs[i].packets != [] && Head(cs[i]) <= q < End(cs[i]) && cs[i].firstAckTs == 0
  }

  lemma HolderIsOne(cs: seq<Cluster>, next: nat, i: nat, j: nat, q: nat)
    requires Chained(cs, next) && i < |cs| && j < |cs| && cs[i].packets != [] && cs[j].packets != []
    requires Head(cs[i]) <= q < End(cs[i]) && Head(cs[j]) <= q < End(cs[j])
    ensures i == j
  {
    hide GoodCluster;
  }

  /** Exactly when an acknowledgement reports a bandwidth, once the modes have changed: when it is the
      first in a cluster that has one before it, and then the one before it is reported, if its
      bandwidth can be told, and joins the list of acknowledged clusters. */
  lemma ReportedIff(s: State, now: nat, q: nat, random: nat, log: seq<Step>, i: nat)
    requires Inv(s, |log| + 1) && AllRecorded(s.clusters, s.seqRound, log, s.lastAckSeq) && q > s.lastAckSeq
    ensures var t, u := UpdateModes(s, now, q, random), OnAck(s, now, q, random);
            && (Opens(t.clusters, i, q) && Estimate(t.clusters[i - 1]) > 0 ==>
                  var c := t.clusters[i - 1];
                  u.reports == t.reports + [Report(c.id, Estimate(c), c.sentBytes, c.ackedBytes)])
            && ((forall j :: Opens(t.clusters, j, q) ==> Estimate(t.clusters[j - 1]) <= 0) ==>
                  u.reports == t.reports)
    ensures var t, u := UpdateModes(s, now, q, random), AckPacket(UpdateModes(s, now, q, random), q, now);
            && (Opens(t.clusters, i, q) && Estimate(t.clusters[i - 1]) > 0 ==>
                  u.ackedIds == t.ackedIds + [t.clusters[i - 1].id])
            && ((forall j :: Opens(t.clusters, j, q) ==> Estimate(t.clusters[j - 1]) <= 0) ==>
                  u.ackedIds == t.ackedIds)
  {
    hide UpdateModes, Recorded, RecordOk, GoodCluster, Credits, Chained, ClusterAck, Estimate, Average;
    var t, next := UpdateModes(s, now, q, random), |log| + 1;
    ModesInv(s, now, q, random, next);
    ModesKeep(s, now, q, random);
    AverageKeepsReports(AckPacket(t, q, now));
    if Opens(t.clusters, i, q) {
      InLive(t.clusters, next, i, q);
    }
    if InLiveCluster(t.clusters, q, next) {
      var k := FindHolder(t.clusters, next, q);
      var c := t.clusters[k];
      HeadsRise(t.clusters, next, k);
      RecordIsNamed(c, s.seqRound, log, s.lastAckSeq, q);
      NamedIn(c.packets[q - Head(c)], c.id, s.seqRound, log, s.lastAckSeq);
      IdsAreDistinct(t.clusters, next, k);
      if Opens(t.clusters, i, q) {
        HolderIsOne(t.clusters, next, i, k, q);
      }
      assert c.firstAckTs == 0 && k > 0 ==> Opens(t.clusters, k, q);
    } else if q in t.seqRound {
      NotFound(t, next, q);
    }
  }

  lemma InLive(cs: seq<Cluster>, next: nat, i: nat, q: nat)
    requires Chained(cs, next) && i < |cs| && cs[i].packets != [] && Head(cs[i]) <= q < End(cs[i])
    ensures InLiveCluster(cs, q, next)
  {
    hide GoodCluster;
    HeadsRise(cs, next, i);
  }

  // ---------------------------------------------------------------------------
  // The average
  // ---------------------------------------------------------------------------

  /** The live clusters with these ids. */
  function WithIds(cs: seq<Cluster>, ids: seq<nat>): seq<Cluster> {
    if ids == [] then [] else
    var i := FindCluster(cs, ids[|ids| - 1]);
    WithIds(cs, ids[..|ids| - 1]) + (if i < 0 then [] else [cs[i]])
  }

  function Total(xs: seq<Cluster>, f: Cluster -> nat): nat {
    if xs == [] then 0 else Total(xs[..|xs| - 1], f) + f(xs[|xs| - 1])
  }

  function SentTime(c: Cluster): nat {
    Milliseconds(c.firstSendTs, c.lastSendTs)
  }

  function AckedTime(c: Cluster): nat {
    Milliseconds(c.firstAckTs, c.lastAckTs)
  }

  /** The bytes that count: those of clusters that took a millisecond. */
  function SentCounted(c: Cluster): nat {
    if SentTime(c) == 0 then 0 else c.sentBytes
  }

  function AckedCounted(c: Cluster): nat {
    if AckedTime(c) == 0 then 0 else c.ackedBytes
  }

  lemma TotalSnoc(xs: seq<Cluster>, c: Cluster, f: Cluster -> nat)
    ensures Total(xs + [c], f) == Total(xs, f) + f(c)
  {
    assert (xs + [c])[..|xs|] == xs;
  }

  /** The totals of the average: over the acknowledged clusters, the bytes of those that took time to
      be sent, the bytes of those that took time to be acknowledged, and both times in 64 bits. */
  lemma {:induction false} TotalsMean(cs: seq<Cluster>, ids: seq<nat>)
    ensures var t, xs := SumTotals(cs, ids), WithIds(cs, ids);
            && t.sentBytes == Total(xs, SentCounted) && t.sentMs == Total(xs, SentTime) % U64
            && t.ackedBytes == Total(xs, AckedCounted) && t.ackedMs == Total(xs, AckedTime) % U64
            && (xs != [] && AckedTime(xs[|xs| - 1]) != 0 ==> t.id == xs[|xs| - 1].id)
    decreases |ids|
  {
    hide Milliseconds, Total;
    if ids == [] {
      NoTotal();
    } else {
      TotalsMean(cs, ids[..|ids| - 1]);
      var i, xs := FindCluster(cs, ids[|ids| - 1]), WithIds(cs, ids[..|ids| - 1]);
      if i >= 0 {
        TotalSnoc(xs, cs[i], SentCounted);
        TotalSnoc(xs, cs[i], SentTime);
        TotalSnoc(xs, cs[i], AckedCounted);
        TotalSnoc(xs, cs[i], AckedTime);
        WrappedSum(Total(xs, SentTime), SentTime(cs[i]));
        WrappedSum(Total(xs, AckedTime), AckedTime(cs[i]));
      } else {
        assert xs + [] == xs;
      }
    }
  }

  lemma NoTotal()
    ensures Total([], SentCounted) == Total([], SentTime) == Total([], AckedCounted) == Total([], AckedTime) == 0
  {
  }

  lemma WrappedSum(a: nat, b: nat)
    ensures (a % U64 + b) % U64 == (a + b) % U64
  {
  }

  /** With the tenth acknowledged cluster the average takes the totals over all ten, and the oldest one
      goes with all clusters up to it; before that nothing happens. */
  lemma AverageStep(s: State)
    requires |s.ackedIds| <= AVERAGE_WINDOW
    ensures |s.ackedIds| < 10 ==> Average(s) == s
    ensures |s.ackedIds| == 10 ==>
              var t := Average(s);
              && t.ackedIds == s.ackedIds[1..] && t.clusters == DropUpTo(s.clusters, s.ackedIds[0])
              && |t.averageUpdates| == |s.averageUpdates| + 1 && s.averageUpdates <= t.averageUpdates
              && t.averageUpdates[|s.averageUpdates|].totals == SumTotals(s.clusters, s.ackedIds)
              && t.averageUpdates[|s.averageUpdates|].round == t.averageRound
              && t.averageRound == s.averageRound + SumTotals(s.clusters, s.ackedIds).id % 10
  {
    hide SumTotals, DropUpTo;
    if |s.ackedIds| == AVERAGE_WINDOW {
      var totals := SumTotals(s.clusters, s.ackedIds);
      var round := s.averageRound + totals.id % AVERAGE_WINDOW;
      var t := s.(averageRound := round, averageUpdates := s.averageUpdates + [AverageUpdate(totals, round)]);
      var u := t.(ackedIds := t.ackedIds[1..], clusters := DropUpTo(t.clusters, t.ackedIds[0]));
      assert DropStale(t, 1) == DropStale(u, 0) == u;
    }
  }
}
