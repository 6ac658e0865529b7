/** What every run of the BBR-style sender keeps: packets are sent with consecutive numbers below
    2^32 (the sending application counts in 32 bits), the clock is never 0, and any packet numbers
    at all are acknowledged. */
module BbrRuns {
  import opened BbrModel
  import opened Numbers

  // ---------------------------------------------------------------------------
  // The invariant
  // ---------------------------------------------------------------------------

  function Head(c: Cluster): nat
    requires c.packets != []
  {
    c.packets[0].seqno
  }

  /** One past the last packet of the cluster. */
  function End(c: Cluster): nat
    requires c.packets != []
  {
    Head(c) + |c.packets|
  }

  function SumSent(p: seq<SentPacketInfo>): nat {
    if p == [] then 0 else SumSent(p[..|p| - 1]) + p[|p| - 1].len
  }

  function SumAcked(p: seq<SentPacketInfo>): nat {
    if p == [] then 0 else
    SumAcked(p[..|p| - 1]) + (if p[|p| - 1].ackTs != 0 then p[|p| - 1].len else 0)
  }

  /** A run of consecutive packets, with the bytes sent and acknowledged accounted for. */
  ghost predicate GoodCluster(c: Cluster) {
    && c.packets != []
    && (forall j :: 0 <= j < |c.packets| ==> c.packets[j].seqno == c.packets[0].seqno + j)
    && c.sentBytes == SumSent(c.packets)
    && c.ackedBytes == SumAcked(c.packets)
  }

  /** No packet above the last acknowledged number is marked, and a cluster without a first
      acknowledgement has nothing marked; otherwise it has begun at that number or before. */
  ghost predicate AckedUpTo(c: Cluster, last: nat) {
    && c.packets != []
    && (forall j :: 0 <= j < |c.packets| && c.packets[j].ackTs != 0 ==> c.packets[j].seqno <= last)
    && (if c.firstAckTs == 0 then c.ackedBytes == 0 && forall j :: 0 <= j < |c.packets| ==> c.packets[j].ackTs == 0
        else Head(c) <= last)
  }

  /** The clusters in key order hold consecutive packets up to `next`, the next number to be sent. */
  ghost predicate Chained(cs: seq<Cluster>, next: nat) {
    && (forall i :: 0 <= i < |cs| ==> cs[i].packets != [] && GoodCluster(cs[i]))
    && (forall i, j :: 0 <= i < j < |cs| ==> cs[i].id < cs[j].id && End(cs[i]) <= Head(cs[j]))
    && (forall i :: 0 <= i < |cs| - 1 ==> End(cs[i]) == Head(cs[i + 1]))
    && (cs != [] ==> End(cs[|cs| - 1]) == next)
  }

  ghost predicate AllAckedUpTo(cs: seq<Cluster>, last: nat) {
    forall i :: 0 <= i < |cs| ==> AckedUpTo(cs[i], last)
  }

  /** An entry of `seq_round_map_`: if its round is live, the packet lies in that cluster. */
  ghost predicate NamedPacket(cs: seq<Cluster>, id: nat, q: nat, next: nat) {
    && q < next && cs != [] && id <= cs[|cs| - 1].id
    && forall i :: 0 <= i < |cs| && cs[i].id == id ==> cs[i].packets != [] && Head(cs[i]) <= q < End(cs[i])
  }

  ghost predicate AllNamed(cs: seq<Cluster>, m: map<nat, nat>, next: nat) {
    forall q :: q in m ==> NamedPacket(cs, m[q], q, next)
  }

  /** The cluster at `i` is closed: a later one has been acknowledged. */
  ghost predicate Closed(cs: seq<Cluster>, i: int) {
    0 <= i < |cs| - 1 && cs[i + 1].firstAckTs != 0
  }

  /** A reported cluster that is still live is closed and has the totals it was reported with. */
  ghost predicate ReportOk(cs: seq<Cluster>, r: Report) {
    && cs != [] && r.id <= cs[|cs| - 1].id
    && forall i :: 0 <= i < |cs| && cs[i].id == r.id ==>
         Closed(cs, i) && cs[i].sentBytes == r.sentBytes && cs[i].ackedBytes == r.ackedBytes
  }

  ghost predicate AllReportsOk(cs: seq<Cluster>, rs: seq<Report>) {
    forall r :: r in rs ==> ReportOk(cs, r)
  }

  ghost predicate LiveAndClosed(cs: seq<Cluster>, id: nat) {
    exists i :: 0 <= i < |cs| && cs[i].id == id && Closed(cs, i)
  }

  /** The acknowledged clusters are live, closed and in key order. */
  ghost predicate AckedLive(cs: seq<Cluster>, ids: seq<nat>) {
    Increasing(ids) && forall k :: 0 <= k < |ids| ==> LiveAndClosed(cs, ids[k])
  }

  ghost predicate CurrentRound(s: State) {
    s.clusters != [] ==> s.mode == ProbeBw && s.clusters[|s.clusters| - 1].id <= s.roundTripCount
  }

  /** The invariant, for a last acknowledged number `last`. */
  ghost predicate InvAt(s: State, next: nat, last: nat) {
    && next < U32
    && CurrentRound(s)
    && Chained(s.clusters, next)
    && AllAckedUpTo(s.clusters, last)
    && AllNamed(s.clusters, s.seqRound, next)
    && AckedLive(s.clusters, s.ackedIds)
    && AllReportsOk(s.clusters, s.reports)
  }

  ghost predicate Inv(s: State, next: nat) {
    InvAt(s, next, s.lastAckSeq) && |s.ackedIds| < AVERAGE_WINDOW
  }

  lemma InitialInv()
    ensures Inv(Initial(), 1)
  {
  }

  // ---------------------------------------------------------------------------
  // Sums
  // ---------------------------------------------------------------------------

  lemma SumsSnoc(p: seq<SentPacketInfo>, x: SentPacketInfo)
    ensures SumSent(p + [x]) == SumSent(p) + x.len
    ensures SumAcked(p + [x]) == SumAcked(p) + (if x.ackTs != 0 then x.len else 0)
  {
    assert (p + [x])[..|p|] == p;
  }

  /** Marking one packet leaves the bytes sent and adds its length to the bytes acknowledged. */
  lemma {:induction false} SumsMark(p: seq<SentPacketInfo>, k: nat, now: nat)
    requires k < |p| && p[k].ackTs == 0 && now != 0
    ensures SumSent(p[k := p[k].(ackTs := now)]) == SumSent(p)
    ensures SumAcked(p[k := p[k].(ackTs := now)]) == SumAcked(p) + p[k].len
  {
    var n := |p| - 1;
    var q := p[k := p[k].(ackTs := now)];
    if k == n {
      assert q[..n] == p[..n];
    } else {
      assert q[..n] == p[..n][k := p[..n][k].(ackTs := now)];
      SumsMark(p[..n], k, now);
    }
  }

  lemma {:induction false} AckedAtMostSent(p: seq<SentPacketInfo>)
    ensures SumAcked(p) <= SumSent(p)
  {
    if p != [] {
      AckedAtMostSent(p[..|p| - 1]);
    }
  }

  // ---------------------------------------------------------------------------
  // The cluster at one position is replaced
  // ---------------------------------------------------------------------------

  /** `ds` is `cs` with the cluster at `i` replaced by one with the same packet numbers. */
  ghost predicate Replaced(cs: seq<Cluster>, ds: seq<Cluster>, i: nat) {
    && i < |cs| == |ds|
    && (forall j :: 0 <= j < |cs| && j != i ==> ds[j] == cs[j])
    && cs[i].packets != [] && GoodCluster(cs[i]) && ds[i].packets != [] && GoodCluster(ds[i])
    && ds[i].id == cs[i].id && Head(ds[i]) == Head(cs[i])
    && (cs[i].firstAckTs != 0 ==> ds[i].firstAckTs != 0)
  }

  lemma ChainedReplace(cs: seq<Cluster>, ds: seq<Cluster>, i: nat, next: nat)
    requires Chained(cs, next) && Replaced(cs, ds, i) && End(ds[i]) == End(cs[i])
    ensures Chained(ds, next)
  {
    hide GoodCluster;
    assert GoodCluster(ds[i]) && GoodCluster(cs[i]);
  }

  lemma ChainedGrow(cs: seq<Cluster>, ds: seq<Cluster>, next: nat)
    requires Chained(cs, next) && cs != [] && Replaced(cs, ds, |cs| - 1) && End(ds[|cs| - 1]) == next + 1
    ensures Chained(ds, next + 1)
  {
    hide GoodCluster;
    var n := |cs| - 1;
    assert forall i :: 0 <= i < n ==> ds[i] == cs[i];
  }

  lemma NamedReplace(cs: seq<Cluster>, ds: seq<Cluster>, i: nat, m: map<nat, nat>, next: nat, after: nat)
    requires AllNamed(cs, m, next) && Replaced(cs, ds, i) && End(cs[i]) <= End(ds[i]) && next <= after
    ensures AllNamed(ds, m, after)
  {
    forall q | q in m
      ensures NamedPacket(ds, m[q], q, after)
    {
      assert NamedPacket(cs, m[q], q, next);
    }
  }

  lemma AckedLiveReplace(cs: seq<Cluster>, ds: seq<Cluster>, i: nat, ids: seq<nat>)
    requires AckedLive(cs, ids) && Replaced(cs, ds, i)
    ensures AckedLive(ds, ids)
  {
    hide GoodCluster;
    forall k | 0 <= k < |ids|
      ensures LiveAndClosed(ds, ids[k])
    {
      assert LiveAndClosed(cs, ids[k]);
      var j :| 0 <= j < |cs| && cs[j].id == ids[k] && Closed(cs, j);
      assert ds[j].id == ids[k] && Closed(ds, j);
    }
  }

  // ---------------------------------------------------------------------------
  // Sending keeps the invariant
  // ---------------------------------------------------------------------------

  lemma SentCluster(c: Cluster, now: nat, seqno: nat, len: nat)
    requires if c.packets == [] then c.sentBytes == 0 && c.ackedBytes == 0 else GoodCluster(c) && seqno == End(c)
    ensures var d := ClusterSent(c, now, seqno, len);
            && d.packets != [] && GoodCluster(d)
            && Head(d) == (if c.packets == [] then seqno else Head(c)) && End(d) == seqno + 1
            && d.id == c.id && d.firstAckTs == c.firstAckTs && d.ackedBytes == c.ackedBytes
            && d.sentBytes == c.sentBytes + len
  {
    SumsSnoc(c.packets, SentPacketInfo(seqno, now, 0, len));
  }

  lemma SentAckedUpTo(c: Cluster, now: nat, seqno: nat, len: nat, last: nat)
    requires AckedUpTo(c, last) || c == NewCluster(c.id)
    ensures AckedUpTo(ClusterSent(c, now, seqno, len), last)
  {
  }

  lemma GrowAcked(cs: seq<Cluster>, ds: seq<Cluster>, i: nat, last: nat)
    requires AllAckedUpTo(cs, last) && Replaced(cs, ds, i) && AckedUpTo(ds[i], last)
    ensures AllAckedUpTo(ds, last)
  {
    hide GoodCluster, AckedUpTo;
  }

  /** A closed cluster is not the last, and only the last one grows. */
  lemma GrowReports(cs: seq<Cluster>, ds: seq<Cluster>, rs: seq<Report>)
    requires AllReportsOk(cs, rs) && cs != [] && Replaced(cs, ds, |cs| - 1)
    ensures AllReportsOk(ds, rs)
  {
    hide GoodCluster;
    forall r | r in rs
      ensures ReportOk(ds, r)
    {
      assert ReportOk(cs, r);
    }
  }

  lemma NamedLast(ds: seq<Cluster>, m: map<nat, nat>, id: nat, next: nat)
    requires AllNamed(ds, m, next + 1) && Chained(ds, next + 1)
    requires ds != [] && ds[|ds| - 1].id == id && Head(ds[|ds| - 1]) <= next
    ensures AllNamed(ds, Insert(m, next, id), next + 1)
  {
    hide GoodCluster;
    forall q | q in Insert(m, next, id)
      ensures NamedPacket(ds, Insert(m, next, id)[q], q, next + 1)
    {
      if q in m {
        assert NamedPacket(ds, m[q], q, next + 1);
      }
    }
  }

  /** The last cluster takes one more packet. */
  lemma GrowInv(s: State, now: nat, bytes: nat, next: nat, last: nat)
    requires InvAt(s, next, last) && next + 1 < U32 && s.clusters != []
    requires s.clusters[|s.clusters| - 1].id == s.roundTripCount
    ensures var n := |s.clusters| - 1;
            InvAt(s.(clusters := s.clusters[n := ClusterSent(s.clusters[n], now, next, bytes)],
                     seqRound := Insert(s.seqRound, next, s.roundTripCount)), next + 1, last)
  {
    hide GoodCluster, AckedUpTo, ClusterSent, AllNamed, AckedLive, AllReportsOk;
    var cs, n := s.clusters, |s.clusters| - 1;
    var ds := cs[n := ClusterSent(cs[n], now, next, bytes)];
    assert GoodCluster(cs[n]) && AckedUpTo(cs[n], last);
    SentCluster(cs[n], now, next, bytes);
    SentAckedUpTo(cs[n], now, next, bytes, last);
    ChainedGrow(cs, ds, next);
    GrowAcked(cs, ds, n, last);
    NamedReplace(cs, ds, n, s.seqRound, next, next + 1);
    NamedLast(ds, s.seqRound, s.roundTripCount, next);
    AckedLiveReplace(cs, ds, n, s.ackedIds);
    GrowReports(cs, ds, s.reports);
  }

  lemma ChainedAppend(cs: seq<Cluster>, next: nat, c: Cluster)
    requires Chained(cs, next) && c.packets != [] && GoodCluster(c) && Head(c) == next && End(c) == next + 1
    requires cs != [] ==> cs[|cs| - 1].id < c.id
    ensures Chained(cs + [c], next + 1)
  {
    hide GoodCluster;
    var ds, n := cs + [c], |cs|;
    forall i, j | 0 <= i < j < |ds|
      ensures ds[i].id < ds[j].id && End(ds[i]) <= Head(ds[j])
    {
      if j == n && i < n - 1 {
        assert cs[i].id < cs[n - 1].id && End(cs[i]) <= Head(cs[n - 1]);
      }
    }
  }

  lemma AppendAcked(cs: seq<Cluster>, c: Cluster, last: nat)
    requires AllAckedUpTo(cs, last) && AckedUpTo(c, last)
    ensures AllAckedUpTo(cs + [c], last)
  {
    hide AckedUpTo;
  }

  lemma AppendNamed(cs: seq<Cluster>, c: Cluster, m: map<nat, nat>, next: nat)
    requires AllNamed(cs, m, next)
    requires cs != [] ==> cs[|cs| - 1].id < c.id
    ensures AllNamed(cs + [c], m, next + 1)
  {
    forall q | q in m
      ensures NamedPacket(cs + [c], m[q], q, next + 1)
    {
      assert NamedPacket(cs, m[q], q, next);
    }
  }

  lemma AppendAckedLive(cs: seq<Cluster>, c: Cluster, ids: seq<nat>)
    requires AckedLive(cs, ids)
    ensures AckedLive(cs + [c], ids)
  {
    forall k | 0 <= k < |ids|
      ensures LiveAndClosed(cs + [c], ids[k])
    {
      assert LiveAndClosed(cs, ids[k]);
      var j :| 0 <= j < |cs| && cs[j].id == ids[k] && Closed(cs, j);
      assert (cs + [c])[j].id == ids[k] && Closed(cs + [c], j);
    }
  }

  lemma AppendReports(cs: seq<Cluster>, c: Cluster, rs: seq<Report>)
    requires AllReportsOk(cs, rs)
    requires cs != [] ==> cs[|cs| - 1].id < c.id
    ensures AllReportsOk(cs + [c], rs)
  {
    forall r | r in rs
      ensures ReportOk(cs + [c], r)
    {
      assert ReportOk(cs, r);
    }
  }

  /** A new cluster starts. */
  lemma AppendInv(s: State, now: nat, bytes: nat, next: nat, last: nat)
    requires InvAt(s, next, last) && next + 1 < U32 && s.mode == ProbeBw
    requires s.clusters != [] ==> s.clusters[|s.clusters| - 1].id < s.roundTripCount
    ensures InvAt(s.(clusters := s.clusters + [ClusterSent(NewCluster(s.roundTripCount), now, next, bytes)],
                     seqRound := Insert(s.seqRound, next, s.roundTripCount)), next + 1, last)
  {
    hide GoodCluster, AckedUpTo, ClusterSent, AllNamed, AckedLive, AllReportsOk, AllAckedUpTo, Chained;
    var cs, c := s.clusters, ClusterSent(NewCluster(s.roundTripCount), now, next, bytes);
    SentCluster(NewCluster(s.roundTripCount), now, next, bytes);
    SentAckedUpTo(NewCluster(s.roundTripCount), now, next, bytes, last);
    ChainedAppend(cs, next, c);
    AppendAcked(cs, c, last);
    AppendNamed(cs, c, s.seqRound, next);
    NamedLast(cs + [c], s.seqRound, s.roundTripCount, next);
    AppendAckedLive(cs, c, s.ackedIds);
    AppendReports(cs, c, s.reports);
  }

  /** Only the last cluster can hold the current round. */
  lemma CurrentRoundIsLast(cs: seq<Cluster>, next: nat, i: nat, round: nat)
    requires Chained(cs, next) && i < |cs| && cs[i].id == round && cs[|cs| - 1].id <= round
    ensures i == |cs| - 1
  {
  }

  lemma SamplerInv(s: State, now: nat, bytes: nat, next: nat, last: nat)
    requires InvAt(s, next, last) && next + 1 < U32 && s.mode == ProbeBw
    ensures InvAt(AddPacketInfoSampler(s, now, next, bytes), next + 1, last)
  {
    hide GoodCluster, ClusterSent, AllNamed, AckedLive, AllReportsOk, AllAckedUpTo, Chained, Insert;
    var cs, i := s.clusters, FindCluster(s.clusters, s.roundTripCount);
    if i >= 0 {
      CurrentRoundIsLast(cs, next, i, s.roundTripCount);
      GrowInv(s, now, bytes, next, last);
    } else {
      AppendInv(s, now, bytes, next, last);
    }
  }

  /** Sending the next packet keeps the invariant. */
  lemma SentInv(s: State, now: nat, bytes: nat, next: nat)
    requires Inv(s, next) && next + 1 < U32
    ensures Inv(OnPacketSent(s, now, next, bytes), next + 1)
  {
    hide GoodCluster, AllNamed, AckedLive, AllReportsOk, AllAckedUpTo, AddPacketInfoSampler;
    var t := s.(rtt := s.rtt.(seqTs := Insert(s.rtt.seqTs, next, now)));
    if t.mode == ProbeBw {
      SamplerInv(UpdateGainCyclePhase(t, now), now, bytes, next, s.lastAckSeq);
      SamplerKeeps(UpdateGainCyclePhase(t, now), now, next, bytes);
    } else {
      WithoutClusters(t, next, s.lastAckSeq);
    }
  }

  lemma SamplerKeeps(s: State, now: nat, seqno: nat, bytes: nat)
    ensures var t := AddPacketInfoSampler(s, now, seqno, bytes);
            t.lastAckSeq == s.lastAckSeq && t.ackedIds == s.ackedIds
  {
  }

  /** Without clusters there is nothing for the next packet number to disturb. */
  lemma WithoutClusters(s: State, next: nat, last: nat)
    requires InvAt(s, next, last) && s.clusters == [] && next + 1 < U32
    ensures InvAt(s, next + 1, last)
  {
    assert s.seqRound == map[];
  }

  // ---------------------------------------------------------------------------
  // Acknowledging keeps the invariant
  // ---------------------------------------------------------------------------

  lemma AckedLater(cs: seq<Cluster>, last: nat, later: nat)
    requires AllAckedUpTo(cs, last) && last <= later
    ensures AllAckedUpTo(cs, later)
  {
    forall i | 0 <= i < |cs|
      ensures AckedUpTo(cs[i], later)
    {
      assert AckedUpTo(cs[i], last);
    }
  }

  /** Nothing the modes do touches the clusters, unless it clears them all. */
  lemma ModesKeep(s: State, now: nat, seqno: nat, random: nat)
    ensures var t := UpdateModes(s, now, seqno, random);
            && t.lastAckSeq == seqno
            && (|| (t.clusters == [] && t.ackedIds == [] && t.reports == [] && t.seqRound == map[])
                || (&& t.clusters == s.clusters && t.ackedIds == s.ackedIds && t.reports == s.reports
                    && t.seqRound == s.seqRound && t.roundTripCount >= s.roundTripCount
                    && (s.mode == ProbeBw ==> t.mode == ProbeBw)))
  {
    hide UpdateRtt, HasSampledLastMinRtt;
  }

  lemma ModesInv(s: State, now: nat, seqno: nat, random: nat, next: nat)
    requires Inv(s, next) && seqno > s.lastAckSeq
    ensures var t := UpdateModes(s, now, seqno, random);
            t.lastAckSeq == seqno && InvAt(t, next, seqno - 1) && |t.ackedIds| < AVERAGE_WINDOW
  {
    hide UpdateModes, AckedUpTo, GoodCluster, NamedPacket, LiveAndClosed, ReportOk;
    ModesKeep(s, now, seqno, random);
    AckedLater(s.clusters, s.lastAckSeq, seqno - 1);
  }

  lemma EndAtMostNext(cs: seq<Cluster>, next: nat, i: nat)
    requires Chained(cs, next) && i < |cs|
    ensures cs[i].packets != [] && End(cs[i]) <= next
  {
    hide GoodCluster;
    assert cs[|cs| - 1].packets != [];
  }

  /** The offset computed from a packet number in the cluster's range is that packet's. */
  lemma OffsetHits(c: Cluster, q: nat)
    requires GoodCluster(c) && Head(c) <= q < End(c) < U32
    ensures Credits(c, q) && Offset(c, q) == q - Head(c) && c.packets[Offset(c, q)].seqno == q
  {
  }

  lemma MarkedCluster(c: Cluster, q: nat, now: nat)
    requires GoodCluster(c) && Head(c) <= q < End(c) < U32 && q > 0 && AckedUpTo(c, q - 1) && now != 0
    ensures var d := ClusterAck(c, q, now);
            && d.packets != [] && GoodCluster(d) && AckedUpTo(d, q) && d.firstAckTs != 0
            && d.id == c.id && Head(d) == Head(c) && |d.packets| == |c.packets|
            && d.ackedBytes == c.ackedBytes + c.packets[q - Head(c)].len
            && d.sentBytes == c.sentBytes
  {
    OffsetHits(c, q);
    SumsMark(c.packets, q - Head(c), now);
  }

  lemma ReplaceAcked(cs: seq<Cluster>, ds: seq<Cluster>, i: nat, q: nat)
    requires q > 0 && AllAckedUpTo(cs, q - 1) && Replaced(cs, ds, i) && AckedUpTo(ds[i], q)
    ensures AllAckedUpTo(ds, q)
  {
    hide GoodCluster;
    forall k | 0 <= k < |ds|
      ensures AckedUpTo(ds[k], q)
    {
      assert AckedUpTo(cs[k], q - 1);
    }
  }

  /** Closed clusters lie before the one that holds the packet being acknowledged. */
  lemma ClosedBefore(cs: seq<Cluster>, next: nat, i: nat, q: nat, p: int)
    requires Chained(cs, next) && i < |cs| && q > 0 && AllAckedUpTo(cs, q - 1)
    requires cs[i].packets != [] && Head(cs[i]) <= q < End(cs[i])
    requires Closed(cs, p)
    ensures p < i && (cs[i].firstAckTs == 0 ==> p < i - 1)
  {
    hide GoodCluster;
    assert AckedUpTo(cs[p + 1], q - 1);
  }

  lemma ReplaceReports(cs: seq<Cluster>, ds: seq<Cluster>, next: nat, i: nat, q: nat, rs: seq<Report>)
    requires Chained(cs, next) && Replaced(cs, ds, i) && q > 0 && AllAckedUpTo(cs, q - 1)
    requires Head(cs[i]) <= q < End(cs[i]) && AllReportsOk(cs, rs)
    ensures AllReportsOk(ds, rs)
  {
    hide GoodCluster, Chained, AllAckedUpTo;
    forall r | r in rs
      ensures ReportOk(ds, r)
    {
      assert ReportOk(cs, r);
      forall j | 0 <= j < |ds| && ds[j].id == r.id
        ensures Closed(ds, j) && ds[j].sentBytes == r.sentBytes && ds[j].ackedBytes == r.ackedBytes
      {
        assert cs[j].id == r.id;
        ClosedBefore(cs, next, i, q, j);
      }
    }
  }

  /** The cluster before a newly acknowledged one comes after all that were reported. */
  lemma TriggeredIsNewest(cs: seq<Cluster>, next: nat, i: nat, q: nat, ids: seq<nat>)
    requires Chained(cs, next) && 0 < i < |cs| && q > 0 && cs[i].firstAckTs == 0 && AllAckedUpTo(cs, q - 1)
    requires cs[i].packets != [] && Head(cs[i]) <= q < End(cs[i])
    requires AckedLive(cs, ids)
    ensures Increasing(ids + [cs[i - 1].id])
  {
    hide GoodCluster, AllAckedUpTo;
    forall k | 0 <= k < |ids|
      ensures ids[k] < cs[i - 1].id
    {
      assert LiveAndClosed(cs, ids[k]);
      var p :| 0 <= p < |cs| && cs[p].id == ids[k] && Closed(cs, p);
      ClosedBefore(cs, next, i, q, p);
    }
  }

  lemma NewReport(ds: seq<Cluster>, next: nat, i: nat, ids: seq<nat>, rs: seq<Report>)
    requires Chained(ds, next) && 0 < i < |ds| && ds[i].firstAckTs != 0
    requires AckedLive(ds, ids) && Increasing(ids + [ds[i - 1].id]) && AllReportsOk(ds, rs)
    ensures AckedLive(ds, ids + [ds[i - 1].id])
    ensures var c := ds[i - 1];
            AllReportsOk(ds, rs + [Report(c.id, Estimate(c), c.sentBytes, c.ackedBytes)])
  {
    hide GoodCluster, Estimate;
    var c, r := ds[i - 1], Report(ds[i - 1].id, Estimate(ds[i - 1]), ds[i - 1].sentBytes, ds[i - 1].ackedBytes);
    assert Closed(ds, i - 1);
    assert LiveAndClosed(ds, c.id);
    assert ReportOk(ds, r);
  }

  /** The cluster that holds the packet is acknowledged. */
  lemma AckClusterInv(s: State, i: nat, q: nat, now: nat, next: nat)
    requires q > 0 && InvAt(s, next, q - 1) && now != 0 && i < |s.clusters|
    requires s.clusters[i].packets != [] && Head(s.clusters[i]) <= q < End(s.clusters[i])
    ensures var t := AckClusterAt(s, i, q, now);
            InvAt(t, next, q) && |t.ackedIds| <= |s.ackedIds| + 1 && t.lastAckSeq == s.lastAckSeq
  {
    hide GoodCluster, AckedUpTo, ClusterAck, Estimate, AllNamed, AckedLive, AllReportsOk, Increasing;
    var cs, ds := s.clusters, s.clusters[i := ClusterAck(s.clusters[i], q, now)];
    EndAtMostNext(cs, next, i);
    MarkedCluster(cs[i], q, now);
    ChainedReplace(cs, ds, i, next);
    ReplaceAcked(cs, ds, i, q);
    NamedReplace(cs, ds, i, s.seqRound, next, next);
    AckedLiveReplace(cs, ds, i, s.ackedIds);
    ReplaceReports(cs, ds, next, i, q, s.reports);
    if cs[i].firstAckTs == 0 && i > 0 {
      TriggeredIsNewest(cs, next, i, q, s.ackedIds);
      NewReport(ds, next, i, s.ackedIds, s.reports);
    }
  }

  lemma AckInv(s: State, q: nat, now: nat, next: nat)
    requires q > 0 && InvAt(s, next, q - 1) && now != 0 && |s.ackedIds| < AVERAGE_WINDOW
    ensures var t := AckPacket(s, q, now);
            InvAt(t, next, q) && |t.ackedIds| <= AVERAGE_WINDOW && t.lastAckSeq == s.lastAckSeq
  {
    hide GoodCluster, AllAckedUpTo, AckClusterAt, AckedLive, AllReportsOk, Chained;
    AckedLater(s.clusters, q - 1, q);
    if q in s.seqRound {
      var t := s.(seqRound := map k | k in s.seqRound && k != q :: s.seqRound[k]);
      assert NamedPacket(s.clusters, s.seqRound[q], q, next);
      assert InvAt(t, next, q - 1);
      var i := FindCluster(s.clusters, s.seqRound[q]);
      if i >= 0 {
        AckClusterInv(t, i, q, now, next);
      }
    }
  }

  // ---------------------------------------------------------------------------
  // Removing old clusters keeps the invariant
  // ---------------------------------------------------------------------------

  lemma ChainedSuffix(cs: seq<Cluster>, next: nat, k: nat)
    requires Chained(cs, next) && k < |cs|
    ensures Chained(cs[k..], next)
  {
    hide GoodCluster;
  }

  /** Removing up to the id of cluster `i` leaves the clusters after it. */
  lemma {:induction false} DropUpToSuffix(cs: seq<Cluster>, next: nat, i: nat)
    requires Chained(cs, next) && i < |cs| - 1
    ensures DropUpTo(cs, cs[i].id) == cs[i + 1..]
    decreases i
  {
    hide GoodCluster;
    if i == 0 {
      assert DropUpTo(cs, cs[0].id) == DropUpTo(cs[1..], cs[0].id) == cs[1..];
    } else {
      assert cs[0].id < cs[i].id;
      ChainedSuffix(cs, next, 1);
      DropUpToSuffix(cs[1..], next, i - 1);
    }
  }

  lemma SuffixNamed(cs: seq<Cluster>, m: map<nat, nat>, next: nat, k: nat)
    requires AllNamed(cs, m, next) && k < |cs|
    ensures AllNamed(cs[k..], m, next)
  {
    forall q | q in m
      ensures NamedPacket(cs[k..], m[q], q, next)
    {
      assert NamedPacket(cs, m[q], q, next);
    }
  }

  lemma SuffixAcked(cs: seq<Cluster>, last: nat, k: nat)
    requires AllAckedUpTo(cs, last) && k < |cs|
    ensures AllAckedUpTo(cs[k..], last)
  {
    hide AckedUpTo;
  }

  lemma SuffixReports(cs: seq<Cluster>, k: nat, rs: seq<Report>)
    requires AllReportsOk(cs, rs) && k < |cs|
    ensures AllReportsOk(cs[k..], rs)
  {
    var ds := cs[k..];
    forall r | r in rs
      ensures ReportOk(ds, r)
    {
      assert ReportOk(cs, r);
      forall i | 0 <= i < |ds| && ds[i].id == r.id
        ensures Closed(ds, i) && ds[i].sentBytes == r.sentBytes && ds[i].ackedBytes == r.ackedBytes
      {
        assert cs[k + i].id == r.id;
      }
    }
  }

  lemma SuffixAckedLive(cs: seq<Cluster>, next: nat, ids: seq<nat>, k: nat)
    requires Chained(cs, next) && AckedLive(cs, ids) && ids != [] && 0 < k < |cs| && cs[k - 1].id == ids[0]
    ensures AckedLive(cs[k..], ids[1..])
  {
    hide GoodCluster;
    var ds, js := cs[k..], ids[1..];
    forall m | 0 <= m < |js|
      ensures LiveAndClosed(ds, js[m])
    {
      assert LiveAndClosed(cs, ids[m + 1]);
      var p :| 0 <= p < |cs| && cs[p].id == ids[m + 1] && Closed(cs, p);
      assert cs[k - 1].id < cs[p].id && p >= k;
      assert ds[p - k].id == js[m] && Closed(ds, p - k);
    }
  }

  /** The first acknowledged cluster goes, with all before it. */
  lemma DropOldestInv(s: State, next: nat, last: nat)
    requires InvAt(s, next, last) && s.ackedIds != []
    ensures InvAt(s.(ackedIds := s.ackedIds[1..], clusters := DropUpTo(s.clusters, s.ackedIds[0])), next, last)
  {
    hide GoodCluster, AllAckedUpTo, AllNamed, AllReportsOk, Chained, DropUpTo, Increasing;
    var cs := s.clusters;
    assert LiveAndClosed(cs, s.ackedIds[0]);
    var i :| 0 <= i < |cs| && cs[i].id == s.ackedIds[0] && Closed(cs, i);
    DropUpToSuffix(cs, next, i);
    ChainedSuffix(cs, next, i + 1);
    SuffixAcked(cs, last, i + 1);
    SuffixNamed(cs, s.seqRound, next, i + 1);
    SuffixReports(cs, i + 1, s.reports);
    SuffixAckedLive(cs, next, s.ackedIds, i + 1);
  }

  lemma AverageInv(s: State, next: nat)
    requires InvAt(s, next, s.lastAckSeq) && |s.ackedIds| <= AVERAGE_WINDOW
    ensures Inv(Average(s), next)
  {
    hide InvAt, SumTotals, DropUpTo;
    if |s.ackedIds| == AVERAGE_WINDOW {
      var totals := SumTotals(s.clusters, s.ackedIds);
      var round := s.averageRound + totals.id % AVERAGE_WINDOW;
      var t := s.(averageRound := round, averageUpdates := s.averageUpdates + [AverageUpdate(totals, round)]);
      var u := t.(ackedIds := t.ackedIds[1..], clusters := DropUpTo(t.clusters, t.ackedIds[0]));
      assert InvAt(t, next, s.lastAckSeq) by { InvIgnoresAverages(s, next, s.lastAckSeq, round, t.averageUpdates); }
      DropOldestInv(t, next, s.lastAckSeq);
      assert DropStale(t, 1) == DropStale(u, 0) == u;
    }
  }

  lemma InvIgnoresAverages(s: State, next: nat, last: nat, round: nat, updates: seq<AverageUpdate>)
    requires InvAt(s, next, last)
    ensures InvAt(s.(averageRound := round, averageUpdates := updates), next, last)
  {
  }

  /** Acknowledging any number keeps the invariant. */
  lemma AckedInv(s: State, now: nat, seqno: nat, random: nat, next: nat)
    requires Inv(s, next) && now != 0
    ensures Inv(OnAck(s, now, seqno, random), next)
  {
    hide InvAt, UpdateModes, AckPacket, Average;
    if seqno > s.lastAckSeq {
      ModesInv(s, now, seqno, random, next);
      AckInv(UpdateModes(s, now, seqno, random), seqno, now, next);
      AverageInv(AckPacket(UpdateModes(s, now, seqno, random), seqno, now), next);
    }
  }
}
