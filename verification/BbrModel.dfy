/** The bookkeeping of the BBR-style sender in quic-test/mybbr/my_bbr_sender.cc, on values: what one
    call does to the state. `BbrSender` proves the methods of the source against these functions,
    and `BbrRuns` proves what every run keeps.

    Times are microseconds; 0 is the unset time. The bandwidth filters are logs of their updates. */
module BbrModel {
  import opened Numbers

  datatype Mode = StartUp | ProbeBw | ProbeRtt

  datatype SentPacketInfo = SentPacketInfo(seqno: nat, sentTs: nat, ackTs: nat, len: nat)

  /** A cluster: the packets sent in one round. */
  datatype Cluster = Cluster(
    id: nat,
    firstSendTs: nat, lastSendTs: nat, firstAckTs: nat, lastAckTs: nat,
    ackedBytes: nat, sentBytes: nat,
    packets: seq<SentPacketInfo>)

  /** One update of the maximum-bandwidth filter, with the totals it was computed from. */
  datatype Report = Report(id: nat, bandwidth: int, sentBytes: nat, ackedBytes: nat)

  /** The totals over the acknowledged clusters: bytes and milliseconds, and the last cluster that
      took time to be acknowledged. */
  datatype Totals = Totals(sentBytes: nat, sentMs: nat, ackedBytes: nat, ackedMs: nat, id: nat)

  /** One update of the average-bandwidth filter. */
  datatype AverageUpdate = AverageUpdate(totals: Totals, round: nat)

  datatype Rtt = Rtt(
    seqTs: map<nat, nat>,
    minRtt: int, recordedMinRtt: int, minRttTs: nat,
    exitProbeRttAt: nat, lastCycleStart: nat, cycleOffset: nat)

  datatype State = State(
    mode: Mode,
    roundTripCount: nat,
    clusters: seq<Cluster>,
    seqRound: map<nat, nat>,
    lastAckSeq: nat,
    ackedIds: seq<nat>,
    reports: seq<Report>,
    averageRound: nat,
    averageUpdates: seq<AverageUpdate>,
    rtt: Rtt)

  const GAIN_CYCLE_LENGTH: nat := 8
  const MIN_RTT_EXPIRY: nat := 10_000_000
  const PROBE_RTT_TIME: nat := 200_000
  const AVERAGE_WINDOW: nat := 10

  /** Bandwidth of so many bytes in so many microseconds: libquic's arithmetic is not part of this
      model, any function will do. */
  const BANDWIDTH: (nat, int) -> int

  function Initial(): State {
    State(StartUp, 0, [], map[], 0, [], [], 0, [], Rtt(map[], 0, 0, 0, 0, 0, 0))
  }

  // ---------------------------------------------------------------------------
  // Clusters
  // ---------------------------------------------------------------------------

  function NewCluster(id: nat): Cluster {
    Cluster(id, 0, 0, 0, 0, 0, 0, [])
  }

  /** `SentClusterInfo::OnPacketSent`. */
  function ClusterSent(c: Cluster, now: nat, seqno: nat, len: nat): Cluster {
    c.(firstSendTs := if c.firstSendTs == 0 then now else c.firstSendTs,
       lastSendTs := now,
       packets := c.packets + [SentPacketInfo(seqno, now, 0, len)],
       sentBytes := c.sentBytes + len)
  }

  /** The index `OnAck` looks at: the difference is cut to 32 bits. */
  function Offset(c: Cluster, seqno: nat): nat
    requires c.packets != [] && c.packets[0].seqno <= seqno
  {
    (seqno - c.packets[0].seqno) % U32
  }

  /** `OnAck` credits a packet of the cluster. */
  predicate Credits(c: Cluster, seqno: nat) {
    c.packets != [] && c.packets[0].seqno <= seqno && Offset(c, seqno) < |c.packets|
  }

  /** `SentClusterInfo::OnAck`, apart from what it makes the previous cluster do. */
  function ClusterAck(c: Cluster, seqno: nat, now: nat): Cluster {
    var d := c.(firstAckTs := if c.firstAckTs == 0 then now else c.firstAckTs, lastAckTs := now);
    if !Credits(c, seqno) then d else
    var k := Offset(c, seqno);
    d.(packets := c.packets[k := c.packets[k].(ackTs := now)],
       ackedBytes := c.ackedBytes + c.packets[k].len)
  }

  /** The bandwidth `TriggerBandwidthEstimate` works out; 0 if it gives up. */
  function Estimate(c: Cluster): int {
    if c.ackedBytes == 0 || c.lastAckTs == c.firstAckTs then 0 else
    var ackRate := BANDWIDTH(c.ackedBytes, c.lastAckTs - c.firstAckTs);
    if c.lastSendTs > c.firstSendTs then
      var sendRate := BANDWIDTH(c.sentBytes, c.lastSendTs - c.firstSendTs);
      if sendRate < ackRate then sendRate else ackRate
    else ackRate
  }

  /** `TriggerBandwidthEstimate` and `OnEstimateBandwidth`. */
  function Trigger(s: State, c: Cluster): State {
    if Estimate(c) <= 0 then s else
    s.(ackedIds := s.ackedIds + [c.id],
       reports := s.reports + [Report(c.id, Estimate(c), c.sentBytes, c.ackedBytes)])
  }

  /** The position of the cluster with this id, or -1. */
  function FindCluster(cs: seq<Cluster>, id: nat): (i: int)
    ensures -1 <= i < |cs|
    ensures i >= 0 ==> cs[i].id == id
    ensures i < 0 ==> forall j :: 0 <= j < |cs| ==> cs[j].id != id
  {
    if cs == [] then -1
    else if cs[|cs| - 1].id == id then |cs| - 1
    else FindCluster(cs[..|cs| - 1], id)
  }

  // ---------------------------------------------------------------------------
  // Sending
  // ---------------------------------------------------------------------------

  /** `std::map::insert`: an entry already there stays. */
  function Insert(m: map<nat, nat>, k: nat, v: nat): map<nat, nat> {
    if k in m then m else m[k := v]
  }

  /** `UpdateGainCyclePhase`. */
  function UpdateGainCyclePhase(s: State, now: nat): State {
    if now - s.rtt.lastCycleStart <= s.rtt.minRtt then s else
    s.(rtt := s.rtt.(cycleOffset := (s.rtt.cycleOffset + 1) % GAIN_CYCLE_LENGTH, lastCycleStart := now),
       roundTripCount := s.roundTripCount + 1)
  }

  /** `AddPacketInfoSampler`. */
  function AddPacketInfoSampler(s: State, now: nat, seqno: nat, bytes: nat): State {
    var i := FindCluster(s.clusters, s.roundTripCount);
    var clusters :=
      if i >= 0 then s.clusters[i := ClusterSent(s.clusters[i], now, seqno, bytes)]
      else s.clusters + [ClusterSent(NewCluster(s.roundTripCount), now, seqno, bytes)];
    s.(clusters := clusters, seqRound := Insert(s.seqRound, seqno, s.roundTripCount))
  }

  /** `OnPacketSent`. */
  function OnPacketSent(s: State, now: nat, seqno: nat, bytes: nat): State {
    var t := s.(rtt := s.rtt.(seqTs := Insert(s.rtt.seqTs, seqno, now)));
    if t.mode == ProbeBw then AddPacketInfoSampler(UpdateGainCyclePhase(t, now), now, seqno, bytes) else t
  }

  // ---------------------------------------------------------------------------
  // Acknowledgements: round-trip times and modes
  // ---------------------------------------------------------------------------

  /** A time multiplied by 1.125 and rounded to the nearest microsecond, halves away from zero. */
  function Similar(t: int): int {
    if t >= 0 then (9 * t + 4) / 8 else -((-9 * t + 4) / 8)
  }

  /** The new minimum for a sample, and whether the sample refreshes it. */
  function MinRttSample(minRtt: int, sample: int): (int, bool) {
    var least := if minRtt == 0 || sample < minRtt then sample else minRtt;
    (least, minRtt == 0 || sample < minRtt || least < sample <= Similar(least))
  }

  /** `UpdateRtt`. */
  function UpdateRtt(r: Rtt, now: nat, seqno: nat): Rtt {
    var later := map k | k in r.seqTs && k > seqno :: r.seqTs[k];
    if seqno !in r.seqTs then r.(seqTs := later) else
    var (minRtt, renewed) := MinRttSample(r.minRtt, now - r.seqTs[seqno]);
    r.(seqTs := later, minRtt := minRtt, minRttTs := if renewed then now else r.minRttTs)
  }

  /** A random phase of the gain cycle other than the second, the one that drains. */
  function RandomPhase(random: nat): (k: nat)
    ensures k < GAIN_CYCLE_LENGTH && k != 1
  {
    var k := random % 7;
    if k >= 1 then k + 1 else k
  }

  /** `EnterProbeBandwidthMode`, for a random number. */
  function EnterProbeBandwidthMode(s: State, now: nat, random: nat): State {
    if s.mode == ProbeBw then s else
    s.(mode := ProbeBw, roundTripCount := s.roundTripCount + 1,
       rtt := s.rtt.(cycleOffset := RandomPhase(random), lastCycleStart := now))
  }

  /** `ClusterInfoClear`. */
  function ClusterInfoClear(s: State): State {
    s.(reports := [], averageUpdates := [], seqRound := map[], ackedIds := [], averageRound := 0, clusters := [])
  }

  predicate HasSampledLastMinRtt(r: Rtt) {
    r.minRtt != 0 && r.recordedMinRtt != 0 && r.minRtt < Similar(r.recordedMinRtt)
  }

  /** `MaybeEnterOrExitProbeRtt`. */
  function EnterProbeRtt(s: State, expired: bool): State {
    if !expired || s.mode == ProbeRtt then s else
    ClusterInfoClear(s.(mode := ProbeRtt, roundTripCount := 0,
                        rtt := s.rtt.(exitProbeRttAt := 0, recordedMinRtt := s.rtt.minRtt, minRtt := 0,
                                      seqTs := map[])))
  }

  function ExitProbeRtt(s: State, now: nat, random: nat): State {
    if s.mode != ProbeRtt then s else
    var at := if s.rtt.exitProbeRttAt == 0 then now + PROBE_RTT_TIME else s.rtt.exitProbeRttAt;
    var t := s.(rtt := s.rtt.(exitProbeRttAt := at));
    if now > at || HasSampledLastMinRtt(t.rtt)
    then EnterProbeBandwidthMode(t.(rtt := t.rtt.(recordedMinRtt := 0)), now, random)
    else t
  }

  /** Everything `OnAck` does before it looks the packet up. */
  function UpdateModes(s: State, now: nat, seqno: nat, random: nat): State {
    var a := s.(lastAckSeq := seqno, rtt := UpdateRtt(s.rtt, now, seqno));
    var b := if a.mode == StartUp then EnterProbeBandwidthMode(a, now, random) else a;
    ExitProbeRtt(EnterProbeRtt(b, now > b.rtt.minRttTs + MIN_RTT_EXPIRY), now, random)
  }

  // ---------------------------------------------------------------------------
  // Acknowledgements: clusters
  // ---------------------------------------------------------------------------

  /** The acknowledged cluster at position `i`: its first acknowledgement makes the cluster before
      it estimate its bandwidth. */
  function AckClusterAt(s: State, i: nat, seqno: nat, now: nat): State
    requires i < |s.clusters|
  {
    var t := if s.clusters[i].firstAckTs == 0 && i > 0 then Trigger(s, s.clusters[i - 1]) else s;
    t.(clusters := s.clusters[i := ClusterAck(s.clusters[i], seqno, now)])
  }

  /** The lookup in `OnAck`. */
  function AckPacket(s: State, seqno: nat, now: nat): State {
    if seqno !in s.seqRound then s else
    var t := s.(seqRound := map k | k in s.seqRound && k != seqno :: s.seqRound[k]);
    var i := FindCluster(s.clusters, s.seqRound[seqno]);
    if i < 0 then t else AckClusterAt(t, i, seqno, now)
  }

  /** The milliseconds from one time to another, cut toward zero and converted to 64 bits unsigned. */
  function Milliseconds(from: nat, to: nat): nat {
    (if from <= to then (to - from) / 1000 else -((from - to) / 1000)) % U64
  }

  /** A time that went forward is cut to whole milliseconds; one that went back by n milliseconds
      reads as 2^64 - n. */
  lemma MillisecondsMeans(from: nat, to: nat)
    ensures Milliseconds(from, to) < U64
    ensures from <= to < from + 1000 * U64
            ==> 1000 * Milliseconds(from, to) <= to - from < 1000 * (Milliseconds(from, to) + 1)
    ensures to < from < to + 1000 * U64
            ==> var n := if Milliseconds(from, to) == 0 then 0 else U64 - Milliseconds(from, to);
                1000 * n <= from - to < 1000 * (n + 1)
  {
    if from < to + 1000 * U64 {
      var n := (from - to) / 1000;
      assert from > to && n > 0 ==> -n % U64 == U64 - n;
    }
  }

  /** The sums of milliseconds wrap at 64 bits. */
  function AddTotals(t: Totals, c: Cluster): Totals {
    var sentMs, ackedMs := Milliseconds(c.firstSendTs, c.lastSendTs), Milliseconds(c.firstAckTs, c.lastAckTs);
    var u := if sentMs != 0
             then t.(sentMs := (t.sentMs + sentMs) % U64, sentBytes := t.sentBytes + c.sentBytes) else t;
    if ackedMs != 0
    then u.(ackedMs := (u.ackedMs + ackedMs) % U64, ackedBytes := u.ackedBytes + c.ackedBytes, id := c.id)
    else u
  }

  /** The totals over the clusters with these ids. */
  function SumTotals(cs: seq<Cluster>, ids: seq<nat>): Totals {
    if ids == [] then Totals(0, 0, 0, 0, 0) else
    var t, i := SumTotals(cs, ids[..|ids| - 1]), FindCluster(cs, ids[|ids| - 1]);
    if i < 0 then t else AddTotals(t, cs[i])
  }

  /** `RemoveClusterLE`. */
  function DropUpTo(cs: seq<Cluster>, id: nat): seq<Cluster> {
    if cs == [] || cs[0].id > id then cs else DropUpTo(cs[1..], id)
  }

  /** The stale clusters go, oldest first. */
  function DropStale(s: State, n: nat): State
    requires n <= |s.ackedIds|
    decreases n
  {
    if n == 0 then s else
    DropStale(s.(ackedIds := s.ackedIds[1..], clusters := DropUpTo(s.clusters, s.ackedIds[0])), n - 1)
  }

  /** The end of `OnAck`: with ten acknowledged clusters, an average and the removal of the oldest. */
  function Average(s: State): State {
    if |s.ackedIds| < AVERAGE_WINDOW then s else
    var totals := SumTotals(s.clusters, s.ackedIds);
    var round := s.averageRound + totals.id % AVERAGE_WINDOW;
    var t := s.(averageRound := round, averageUpdates := s.averageUpdates + [AverageUpdate(totals, round)]);
    DropStale(t, |s.ackedIds| - (AVERAGE_WINDOW - 1))
  }

  /** `OnAck`. */
  function OnAck(s: State, now: nat, seqno: nat, random: nat): State {
    if seqno <= s.lastAckSeq then s else
    Average(AckPacket(UpdateModes(s, now, seqno, random), seqno, now))
  }
}
