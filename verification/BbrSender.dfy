/** The sender of quic-test/mybbr/my_bbr_sender.cc as it stands: clusters on the heap, linked both
    ways, owned by a map and pointed at by the list of acknowledged clusters. Every method of a
    cluster requires that the cluster has not been deleted, so the methods of the sender verify only
    because no deleted cluster is ever used. Each is proved against its function in `BbrModel`. */
module BbrSender {
  import opened BbrModel
  import opened BbrRuns
  import opened Maps
  import opened Numbers

  ghost predicate HasId(cs: seq<Cluster>, id: nat) {
    FindCluster(cs, id) >= 0
  }

  /** Of these clusters, those no longer in the chain have been deleted. */
  ghost predicate DeletedOutside(all: seq<SentClusterInfo>, chain: seq<SentClusterInfo>)
    reads all`alive
  {
    forall c :: c in all && c !in chain ==> !c.alive
  }

  class SentClusterInfo {
    const clusterId: nat
    const target: MyBbrSender
    var firstSendTs: nat
    var lastSendTs: nat
    var firstAckTs: nat
    var lastAckTs: nat
    var ackedBytes: nat
    var sentBytes: nat
    var packets: seq<SentPacketInfo>
    var prev: SentClusterInfo?
    var next: SentClusterInfo?
    ghost var alive: bool

    constructor (id: nat, target: MyBbrSender)
      ensures alive && prev == null && next == null
      ensures clusterId == id && this.target == target && Abs() == NewCluster(id)
    {
      clusterId := id;
      this.target := target;
      firstSendTs, lastSendTs, firstAckTs, lastAckTs := 0, 0, 0, 0;
      ackedBytes, sentBytes, packets := 0, 0, [];
      prev, next := null, null;
      alive := true;
    }

    ghost function Abs(): Cluster
      reads this`firstSendTs, this`lastSendTs, this`firstAckTs, this`lastAckTs
      reads this`ackedBytes, this`sentBytes, this`packets
    {
      Cluster(clusterId, firstSendTs, lastSendTs, firstAckTs, lastAckTs, ackedBytes, sentBytes, packets)
    }

    /** The destructor: nothing may use the cluster afterwards. */
    method Delete()
      requires alive
      modifies this`packets, this`alive
      ensures !alive
    {
      packets := [];
      alive := false;
    }

    method SetPrev(p: SentClusterInfo?)
      requires alive
      modifies this`prev
      ensures prev == p
    {
      prev := p;
    }

    method SetNext(n: SentClusterInfo?)
      requires alive
      modifies this`next
      ensures next == n
    {
      next := n;
    }

    method GetNext() returns (n: SentClusterInfo?)
      requires alive
      ensures n == next
    {
      n := next;
    }

    method OnPacketSent(now: nat, seqno: nat, len: nat)
      requires alive
      modifies this`firstSendTs, this`lastSendTs, this`packets, this`sentBytes
      ensures Abs() == ClusterSent(old(Abs()), now, seqno, len)
    {
      if firstSendTs == 0 {
        firstSendTs := now;
      }
      lastSendTs := now;
      packets := packets + [SentPacketInfo(seqno, now, 0, len)];
      sentBytes := sentBytes + len;
    }

    /** A first acknowledgement makes the previous cluster estimate its bandwidth. */
    method OnAck(seqno: nat, now: nat)
      requires alive && packets != []
      requires prev != null ==> prev.alive && prev != this && prev.target == target
      modifies this`firstAckTs, this`lastAckTs, this`packets, this`ackedBytes
      modifies target`ackedClusters, target`acked, target`filters
      ensures Abs() == ClusterAck(old(Abs()), seqno, now)
      ensures old(firstAckTs) == 0 && prev != null
              ==> target.Triggered(old(target.ackedClusters), old(target.acked), old(target.filters), prev)
      ensures !(old(firstAckTs) == 0 && prev != null)
              ==> target.ackedClusters == old(target.ackedClusters) && target.acked == old(target.acked)
                  && target.filters == old(target.filters)
    {
      if firstAckTs == 0 {
        firstAckTs := now;
        if prev != null {
          prev.TriggerBandwidthEstimate();
        }
      }
      lastAckTs := now;
      var head := packets[0].seqno;
      if seqno >= head {
        var offset := (seqno - head) % U32;
        if offset < |packets| {
          var len := packets[offset].len;
          packets := packets[offset := packets[offset].(ackTs := now)];
          ackedBytes := ackedBytes + len;
        }
      }
    }

    method TriggerBandwidthEstimate()
      requires alive
      modifies target`ackedClusters, target`acked, target`filters
      ensures target.Triggered(old(target.ackedClusters), old(target.acked), old(target.filters), this)
    {
      if !(ackedBytes == 0 || lastAckTs == firstAckTs) {
        var bw := BANDWIDTH(ackedBytes, lastAckTs - firstAckTs);
        if lastSendTs > firstSendTs {
          var sendRate := BANDWIDTH(sentBytes, lastSendTs - firstSendTs);
          if sendRate < bw {
            bw := sendRate;
          }
        }
        if bw > 0 {
          target.OnEstimateBandwidth(this, clusterId, bw);
        }
      }
    }

    method GetSentInfo() returns (ms: nat, sent: nat)
      requires alive
      ensures ms == Milliseconds(firstSendTs, lastSendTs) && sent == sentBytes
    {
      ms, sent := Milliseconds(firstSendTs, lastSendTs), sentBytes;
    }

    method GetAckedInfo() returns (ms: nat, acked: nat)
      requires alive
      ensures ms == Milliseconds(firstAckTs, lastAckTs) && acked == ackedBytes
    {
      ms, acked := Milliseconds(firstAckTs, lastAckTs), ackedBytes;
    }

    method GetClusterId() returns (id: nat)
      requires alive
      ensures id == clusterId
    {
      id := clusterId;
    }
  }

  /** The two bandwidth filters, as logs of their updates, and the round of the average. */
  datatype Filters = Filters(maxBandwidth: seq<Report>, averageBandwidth: seq<AverageUpdate>, averageRound: nat)

  class MyBbrSender {
    var mode: Mode
    var roundTripCount: nat
    var connectionInfo: map<nat, SentClusterInfo>
    var seqRound: map<nat, nat>
    var lastAckSeq: nat
    var rtt: Rtt
    var filters: Filters
    var ackedClusters: seq<SentClusterInfo>

    /** The clusters in key order, what they hold, and the ids of the acknowledged ones. */
    ghost var chain: seq<SentClusterInfo>
    ghost var clusters: seq<Cluster>
    ghost var acked: seq<nat>

    ghost function View(): State
      reads this
    {
      State(mode, roundTripCount, clusters, seqRound, lastAckSeq, acked,
            filters.maxBandwidth, filters.averageRound, filters.averageBandwidth, rtt)
    }

    /** The map owns exactly the clusters of the chain, none deleted. */
    ghost predicate Stored()
      reads this`chain, this`clusters, this`connectionInfo, chain`alive
      reads chain`firstSendTs, chain`lastSendTs, chain`firstAckTs, chain`lastAckTs
      reads chain`ackedBytes, chain`sentBytes, chain`packets
    {
      && |clusters| == |chain|
      && (forall i :: 0 <= i < |chain| ==> chain[i].alive && chain[i].target == this && chain[i].Abs() == clusters[i])
      && (forall i, j :: 0 <= i < j < |chain| ==> clusters[i].id < clusters[j].id)
      && (forall i :: 0 <= i < |chain| ==>
            clusters[i].id in connectionInfo && connectionInfo[clusters[i].id] == chain[i])
      && (forall k :: k in connectionInfo ==> HasId(clusters, k))
    }

    /** Every cluster is linked to its live neighbours and to nothing else. */
    ghost predicate Linked()
      reads this`chain, chain`prev, chain`next
    {
      && (forall i {:trigger chain[i].prev} :: 0 <= i < |chain| ==>
            chain[i].prev == if i == 0 then null else chain[i - 1])
      && (forall i {:trigger chain[i].next} :: 0 <= i < |chain| ==>
            chain[i].next == if i + 1 == |chain| then null else chain[i + 1])
    }

    /** Each pointer in the list of acknowledged clusters is the live cluster with its id. */
    ghost predicate AckedStored()
      reads this`chain, this`ackedClusters, this`acked
    {
      && |ackedClusters| == |acked|
      && forall k :: 0 <= k < |acked| ==> ackedClusters[k] in chain && ackedClusters[k].clusterId == acked[k]
    }

    ghost predicate Rep()
      reads this`chain, this`clusters, this`connectionInfo, this`ackedClusters, this`acked, chain
    {
      Stored() && Linked() && AckedStored()
    }

    /** `nextNumber` is the next packet number to be sent. */
    ghost predicate Valid(nextNumber: nat)
      reads this, chain
    {
      Rep() && Inv(View(), nextNumber)
    }

    /** What a cluster's estimate leaves behind. */
    ghost predicate Triggered(pointers: seq<SentClusterInfo>, ids: seq<nat>, f: Filters, c: SentClusterInfo)
      reads this`ackedClusters, this`acked, this`filters, c
    {
      var bw := Estimate(c.Abs());
      if bw <= 0 then ackedClusters == pointers && acked == ids && filters == f
      else
        && ackedClusters == pointers + [c] && acked == ids + [c.clusterId]
        && filters == f.(maxBandwidth := f.maxBandwidth + [Report(c.clusterId, bw, c.sentBytes, c.ackedBytes)])
    }

    constructor ()
      ensures Valid(1) && View() == Initial() && fresh(chain)
    {
      mode, roundTripCount, connectionInfo, seqRound, lastAckSeq := StartUp, 0, map[], map[], 0;
      rtt, filters, ackedClusters := Rtt(map[], 0, 0, 0, 0, 0, 0), Filters([], [], 0), [];
      chain, clusters, acked := [], [], [];
      new;
      InitialInv();
    }

    method OnEstimateBandwidth(cluster: SentClusterInfo, id: nat, bw: int)
      requires cluster.alive && id == cluster.clusterId
      modifies this`ackedClusters, this`acked, this`filters
      ensures ackedClusters == old(ackedClusters) + [cluster] && acked == old(acked) + [id]
      ensures var log := old(filters.maxBandwidth);
              filters == old(filters).(maxBandwidth := log + [Report(id, bw, cluster.sentBytes, cluster.ackedBytes)])
    {
      ackedClusters := ackedClusters + [cluster];
      acked := acked + [id];
      filters := filters.(maxBandwidth :=
        filters.maxBandwidth + [Report(id, bw, cluster.sentBytes, cluster.ackedBytes)]);
    }

    // -------------------------------------------------------------------------
    // The first and the last cluster of the map
    // -------------------------------------------------------------------------

    lemma FirstKey()
      requires Stored() && connectionInfo != map[]
      ensures clusters != [] && clusters[0].id in connectionInfo
      ensures forall k :: k in connectionInfo ==> clusters[0].id <= k
      ensures connectionInfo[clusters[0].id] == chain[0]
    {
      var key :| key in connectionInfo;
      assert HasId(clusters, key);
      forall k | k in connectionInfo
        ensures clusters[0].id <= k
      {
        assert HasId(clusters, k);
      }
    }

    lemma LastKey()
      requires Stored() && connectionInfo != map[]
      ensures clusters != [] && var id := clusters[|clusters| - 1].id;
              && id in connectionInfo && connectionInfo[id] == chain[|chain| - 1]
              && forall k :: k in connectionInfo ==> k <= id
    {
      var key :| key in connectionInfo;
      assert HasId(clusters, key);
      forall k | k in connectionInfo
        ensures k <= clusters[|clusters| - 1].id
      {
        assert HasId(clusters, k);
      }
    }

    // -------------------------------------------------------------------------
    // Removing clusters
    // -------------------------------------------------------------------------

    /** The key of the map's first entry. */
    method Begin() returns (key: nat)
      requires Stored() && connectionInfo != map[]
      ensures clusters != [] && chain != []
      ensures key == clusters[0].id && key in connectionInfo && connectionInfo[key] == chain[0] && chain[0].alive
    {
      hide HasId;
      FirstKey();
      key :| key in connectionInfo && forall k :: k in connectionInfo ==> key <= k;
    }

    /** Without its first entry the map still owns exactly the rest of the chain. */
    lemma StoredRest(rest: seq<SentClusterInfo>, left: seq<Cluster>, owned: map<nat, SentClusterInfo>)
      requires Stored() && clusters != [] && rest == chain[1..] && left == clusters[1..]
      requires owned == connectionInfo - {clusters[0].id}
      ensures forall i :: 0 <= i < |rest| ==> left[i].id in owned && owned[left[i].id] == rest[i]
      ensures forall k :: k in owned ==> HasId(left, k)
    {
      forall k | k in owned
        ensures HasId(left, k)
      {
        assert HasId(clusters, k);
        var i := FindCluster(clusters, k);
        assert left[i - 1].id == k;
      }
    }

    /** The first cluster is deleted and leaves the map. */
    method DeleteFirst(key: nat)
      requires Stored() && clusters != [] && key == clusters[0].id
      modifies this`connectionInfo, this`chain, this`clusters, chain`alive, chain`packets
      ensures Stored() && chain == old(chain[1..]) && clusters == old(clusters[1..])
      ensures connectionInfo == old(connectionInfo) - {key} && DeletedOutside(old(chain), chain)
    {
      hide HasId;
      StoredRest(chain[1..], clusters[1..], connectionInfo - {key});
      connectionInfo[key].Delete();
      connectionInfo, chain, clusters := connectionInfo - {key}, chain[1..], clusters[1..];
    }

    method DeleteAll()
      requires Stored()
      modifies this`connectionInfo, this`chain, this`clusters, chain`alive, chain`packets
      ensures Stored() && connectionInfo == map[] && chain == [] && DeletedOutside(old(chain), [])
    {
      hide Stored, HasId;
      ghost var n := 0;
      while connectionInfo != map[]
        invariant Stored() && n <= |old(chain)| && chain == old(chain)[n..] && DeletedOutside(old(chain), chain)
        decreases |chain|
      {
        var key := Begin();
        DeleteFirst(key);
        n := n + 1;
      }
      NoneStored();
    }

    method ClusterInfoClear()
      requires Stored()
      modifies this`connectionInfo, this`chain, this`clusters, this`ackedClusters, this`acked, this`seqRound
      modifies this`filters, chain
      ensures Rep() && View() == BbrModel.ClusterInfoClear(old(View()))
      ensures chain == [] && DeletedOutside(old(chain), [])
    {
      hide Stored, Linked, AckedStored, HasId;
      filters := Filters([], [], 0);
      seqRound := map[];
      ackedClusters, acked := [], [];
      DeleteAll();
      NoneStored();
    }

    lemma NoneStored()
      requires Stored()
      ensures connectionInfo == map[] ==> chain == [] && clusters == [] && Linked()
      ensures connectionInfo == map[] && acked == [] && ackedClusters == [] ==> AckedStored()
    {
      assert clusters != [] ==> clusters[0].id in connectionInfo;
    }

    /** The cluster after the first one forgets it. */
    method UnlinkFirst(key: nat)
      requires Stored() && Linked() && clusters != [] && key == clusters[0].id
      modifies chain`prev
      ensures forall i {:trigger chain[i].prev} :: 1 <= i < |chain| ==>
                chain[i].prev == if i == 1 then null else chain[i - 1]
    {
      hide Stored;
      FirstLink();
      var next := connectionInfo[key].GetNext();
      if next != null {
        next.SetPrev(null);
      }
    }

    /** The first cluster is unlinked from the one after it and deleted. */
    method RemoveFirst(key: nat)
      requires Stored() && Linked() && clusters != [] && key == clusters[0].id
      modifies this`connectionInfo, this`chain, this`clusters, chain`alive, chain`packets, chain`prev
      ensures Stored() && Linked() && chain == old(chain[1..]) && clusters == old(clusters[1..])
      ensures DeletedOutside(old(chain), chain)
    {
      hide Stored;
      SameLength();
      UnlinkFirst(key);
      DeleteFirst(key);
    }

    lemma SameLength()
      requires Stored()
      ensures |chain| == |clusters|
    {
    }

    lemma Distinct()
      requires Stored()
      ensures forall i, j :: 0 <= i < j < |chain| ==> chain[i] != chain[j]
    {
    }

    lemma FirstLink()
      requires Stored() && Linked() && clusters != []
      ensures |chain| == |clusters| && clusters[0].id in connectionInfo && connectionInfo[clusters[0].id] == chain[0]
      ensures chain[0].alive && chain[0].next == (if |chain| == 1 then null else chain[1])
      ensures |chain| > 1 ==> chain[1].alive && chain[1] in chain
      ensures forall i, j :: 0 <= i < j < |chain| ==> chain[i] != chain[j]
    {
    }

    method RemoveClusterLE(round: nat)
      requires Stored() && Linked()
      modifies this`connectionInfo, this`chain, this`clusters, chain`alive, chain`packets, chain`prev
      ensures Stored() && Linked() && clusters == DropUpTo(old(clusters), round)
      ensures |chain| <= |old(chain)| && chain == old(chain)[|old(chain)| - |chain|..]
      ensures DeletedOutside(old(chain), chain)
    {
      hide Stored, Linked, HasId;
      var more := true;
      ghost var n := 0;
      while more && connectionInfo != map[]
        invariant Stored() && Linked() && n <= |old(chain)| && chain == old(chain)[n..]
        invariant DeletedOutside(old(chain), chain)
        invariant DropUpTo(old(clusters), round) == DropUpTo(clusters, round)
        invariant !more ==> clusters != [] && clusters[0].id > round
        decreases more, |chain|
      {
        var key := Begin();
        if key <= round {
          RemoveFirst(key);
          n := n + 1;
        } else {
          more := false;
        }
      }
      NoneStored();
    }

    // -------------------------------------------------------------------------
    // Round-trip times and modes
    // -------------------------------------------------------------------------

    method UpdateRtt(now: nat, seqno: nat)
      modifies this`rtt
      ensures rtt == BbrModel.UpdateRtt(old(rtt), now, seqno)
    {
      var seqTs := rtt.seqTs;
      if seqno in seqTs {
        var sample := now - seqTs[seqno];
        var minRtt, minRttTs := rtt.minRtt, rtt.minRttTs;
        if minRtt == 0 {
          minRtt, minRttTs := sample, now;
        } else {
          if sample < minRtt {
            minRtt, minRttTs := sample, now;
          }
          if minRtt < sample <= Similar(minRtt) {
            minRttTs := now;
          }
        }
        rtt := rtt.(minRtt := minRtt, minRttTs := minRttTs);
      }
      seqTs := EraseUpTo(seqTs, seqno);
      rtt := rtt.(seqTs := seqTs);
    }

    /** The entries up to a packet number leave the map, first entry first. */
    static method EraseUpTo(m: map<nat, nat>, seqno: nat) returns (left: map<nat, nat>)
      ensures left == map k | k in m && k > seqno :: m[k]
    {
      left := m;
      var more := true;
      while more && left != map[]
        invariant forall k :: k in left ==> k in m && left[k] == m[k]
        invariant forall k :: k in m && k > seqno ==> k in left
        invariant !more ==> forall k :: k in left ==> k > seqno
        decreases more, |left|
      {
        LeastKey(left);
        var first :| first in left && forall k :: k in left ==> first <= k;
        if first <= seqno {
          left := left - {first};
        } else {
          more := false;
        }
      }
    }

    method EnterProbeBandwidthMode(now: nat, random: nat)
      modifies this`mode, this`rtt, this`roundTripCount
      ensures View() == BbrModel.EnterProbeBandwidthMode(old(View()), now, random)
    {
      hide RandomPhase;
      if mode != ProbeBw {
        mode := ProbeBw;
        var phase := ChoosePhase(random);
        rtt := rtt.(cycleOffset := phase, lastCycleStart := now);
        roundTripCount := roundTripCount + 1;
      }
    }

    static method ChoosePhase(random: nat) returns (phase: nat)
      ensures phase == RandomPhase(random)
    {
      phase := random % (GAIN_CYCLE_LENGTH - 1);
      if phase >= 1 {
        phase := phase + 1;
      }
    }

    method UpdateGainCyclePhase(now: nat)
      modifies this`rtt, this`roundTripCount
      ensures View() == BbrModel.UpdateGainCyclePhase(old(View()), now)
    {
      if now - rtt.lastCycleStart > rtt.minRtt {
        rtt := rtt.(cycleOffset := (rtt.cycleOffset + 1) % GAIN_CYCLE_LENGTH, lastCycleStart := now);
        roundTripCount := roundTripCount + 1;
      }
    }

    method HasSampledLastMinRtt() returns (sampled: bool)
      ensures sampled == BbrModel.HasSampledLastMinRtt(rtt)
    {
      sampled := false;
      if rtt.minRtt != 0 && rtt.recordedMinRtt != 0 {
        if rtt.minRtt < Similar(rtt.recordedMinRtt) {
          sampled := true;
        }
      }
    }

    method MaybeEnterOrExitProbeRtt(now: nat, expired: bool, random: nat)
      requires Rep()
      modifies this, chain
      ensures Rep() && View() == ExitProbeRtt(EnterProbeRtt(old(View()), expired), now, random)
      ensures (chain == old(chain) || chain == []) && DeletedOutside(old(chain), chain)
    {
      hide Stored, Linked, AckedStored, HasId, BbrModel.HasSampledLastMinRtt;
      if expired && mode != ProbeRtt {
        mode := ProbeRtt;
        roundTripCount := 0;
        rtt := rtt.(exitProbeRttAt := 0, recordedMinRtt := rtt.minRtt, minRtt := 0, seqTs := map[]);
        ClusterInfoClear();
      }
      if mode == ProbeRtt {
        if rtt.exitProbeRttAt == 0 {
          rtt := rtt.(exitProbeRttAt := now + PROBE_RTT_TIME);
        }
        var sampled := HasSampledLastMinRtt();
        if now > rtt.exitProbeRttAt || sampled {
          rtt := rtt.(recordedMinRtt := 0);
          EnterProbeBandwidthMode(now, random);
        }
      }
    }

    // -------------------------------------------------------------------------
    // Sending
    // -------------------------------------------------------------------------

    /** The cluster of the map's last entry, if there is one. */
    method LastCluster() returns (last: SentClusterInfo?)
      requires Stored()
      ensures |chain| == |clusters|
      ensures if chain == [] then last == null else last == chain[|chain| - 1] && last.alive
    {
      hide HasId;
      NoneStored();
      last := null;
      if connectionInfo != map[] {
        LastKey();
        var key :| key in connectionInfo && forall k :: k in connectionInfo ==> k <= key;
        last := connectionInfo[key];
      }
    }

    /** The map takes a cluster after all it has. */
    method InsertCluster(cluster: SentClusterInfo)
      requires Stored() && cluster.alive && cluster.target == this && cluster.clusterId !in connectionInfo
      requires clusters != [] ==> clusters[|clusters| - 1].id < cluster.clusterId
      modifies this`connectionInfo, this`chain, this`clusters
      ensures Stored() && chain == old(chain) + [cluster] && clusters == old(clusters) + [cluster.Abs()]
    {
      hide HasId;
      StoredMore(cluster, cluster.Abs());
      connectionInfo := connectionInfo[cluster.clusterId := cluster];
      chain, clusters := chain + [cluster], clusters + [cluster.Abs()];
    }

    /** A new cluster for the current round, linked after the last one. */
    method AppendCluster() returns (cluster: SentClusterInfo)
      requires Stored() && Linked() && roundTripCount !in connectionInfo
      requires clusters != [] ==> clusters[|clusters| - 1].id < roundTripCount
      modifies this`connectionInfo, this`chain, this`clusters, chain`next
      ensures Stored() && Linked() && fresh(cluster)
      ensures chain == old(chain) + [cluster] && clusters == old(clusters) + [NewCluster(roundTripCount)]
    {
      hide Stored, HasId;
      Distinct();
      var prev := LastCluster();
      cluster := new SentClusterInfo(roundTripCount, this);
      cluster.SetPrev(prev);
      if prev != null {
        prev.SetNext(cluster);
      }
      InsertCluster(cluster);
    }

    lemma StoredMore(cluster: SentClusterInfo, c: Cluster)
      requires Stored()
      ensures forall k :: k in connectionInfo[c.id := cluster] ==> HasId(clusters + [c], k)
    {
      var more := clusters + [c];
      forall k | k in connectionInfo[c.id := cluster]
        ensures HasId(more, k)
      {
        if k == c.id {
          assert more[|clusters|].id == k;
        } else {
          assert HasId(clusters, k);
          assert more[FindCluster(clusters, k)].id == k;
        }
      }
    }

    /** One live cluster changes what it holds. */
    method SamplePacket(cluster: SentClusterInfo, now: nat, seqno: nat, bytes: nat, ghost i: nat)
      requires Stored() && i < |chain| && cluster == chain[i]
      modifies this`clusters, cluster`firstSendTs, cluster`lastSendTs, cluster`packets, cluster`sentBytes
      ensures Stored() && clusters == old(clusters)[i := ClusterSent(old(clusters)[i], now, seqno, bytes)]
    {
      hide HasId;
      Distinct();
      SameIds(clusters, i, ClusterSent(clusters[i], now, seqno, bytes));
      cluster.OnPacketSent(now, seqno, bytes);
      clusters := clusters[i := cluster.Abs()];
    }

    /** The cluster of the current round, made if there is none. */
    method CurrentCluster() returns (cluster: SentClusterInfo, ghost i: nat)
      requires Rep() && CurrentRound(View())
      modifies this`connectionInfo, this`chain, this`clusters, chain`next
      ensures Rep() && i < |chain| && cluster == chain[i]
      ensures if FindCluster(old(clusters), roundTripCount) >= 0
              then chain == old(chain) && clusters == old(clusters) && i == FindCluster(clusters, roundTripCount)
              else fresh(cluster) && chain == old(chain) + [cluster] && i == |old(clusters)|
                   && clusters == old(clusters) + [NewCluster(roundTripCount)]
    {
      hide Stored, Linked, HasId;
      Lookup(roundTripCount);
      if roundTripCount in connectionInfo {
        cluster, i := connectionInfo[roundTripCount], FindCluster(clusters, roundTripCount);
      } else {
        i := |clusters|;
        cluster := AppendCluster();
      }
    }

    method AddPacketInfoSampler(now: nat, seqno: nat, bytes: nat)
      requires Rep() && CurrentRound(View())
      modifies this`connectionInfo, this`chain, this`clusters, this`seqRound, chain
      ensures Rep() && View() == BbrModel.AddPacketInfoSampler(old(View()), now, seqno, bytes)
      ensures old(chain) <= chain && forall i :: |old(chain)| <= i < |chain| ==> fresh(chain[i])
    {
      hide Stored, Linked, AckedStored, HasId, ClusterSent;
      var cluster, i := CurrentCluster();
      SamplePacket(cluster, now, seqno, bytes, i);
      seqRound := Insert(seqRound, seqno, roundTripCount);
    }

    /** What the map answers is what the chain holds. */
    lemma Lookup(id: nat)
      requires Stored()
      ensures |chain| == |clusters|
      ensures id in connectionInfo <==> FindCluster(clusters, id) >= 0
      ensures id in connectionInfo ==> connectionInfo[id] == chain[FindCluster(clusters, id)]
    {
      if id in connectionInfo {
        assert HasId(clusters, id);
      }
    }

    method OnPacketSent(now: nat, seqno: nat, bytes: nat)
      requires Valid(seqno) && seqno + 1 < U32
      modifies this, chain
      ensures Valid(seqno + 1) && View() == BbrModel.OnPacketSent(old(View()), now, seqno, bytes)
      ensures old(chain) <= chain && forall i :: |old(chain)| <= i < |chain| ==> fresh(chain[i])
    {
      hide Stored, Linked, AckedStored, Inv, CurrentRound;
      hide BbrModel.UpdateGainCyclePhase, BbrModel.AddPacketInfoSampler;
      SentInv(View(), now, bytes, seqno);
      RoundGoesOn(View(), now, seqno);
      AddSeqAndTimestamp(now, seqno);
      if mode == ProbeBw {
        UpdateGainCyclePhase(now);
        AddPacketInfoSampler(now, seqno, bytes);
      }
    }

    method AddSeqAndTimestamp(now: nat, seqno: nat)
      modifies this`rtt
      ensures rtt == old(rtt).(seqTs := Insert(old(rtt).seqTs, seqno, now))
    {
      rtt := rtt.(seqTs := Insert(rtt.seqTs, seqno, now));
    }

    // -------------------------------------------------------------------------
    // Acknowledgements
    // -------------------------------------------------------------------------

    /** The live cluster at `i` is told of the acknowledgement. */
    method TellCluster(cluster: SentClusterInfo, seqno: nat, now: nat, ghost i: nat)
      requires Stored() && Linked() && i < |chain| && cluster == chain[i] && clusters[i].packets != []
      modifies this`clusters, this`ackedClusters, this`acked, this`filters
      modifies cluster`firstAckTs, cluster`lastAckTs, cluster`packets, cluster`ackedBytes
      ensures Stored() && clusters == old(clusters)[i := ClusterAck(old(clusters)[i], seqno, now)]
      ensures if old(clusters)[i].firstAckTs == 0 && i > 0
              then chain[i - 1].Abs() == old(clusters)[i - 1]
                   && Triggered(old(ackedClusters), old(acked), old(filters), chain[i - 1])
              else ackedClusters == old(ackedClusters) && acked == old(acked) && filters == old(filters)
    {
      hide HasId, ClusterAck, Triggered;
      Distinct();
      AckKeepsId(clusters[i], seqno, now);
      SameIds(clusters, i, ClusterAck(clusters[i], seqno, now));
      cluster.OnAck(seqno, now);
      clusters := clusters[i := cluster.Abs()];
    }

    /** The live cluster at `i` is acknowledged. */
    method AckCluster(cluster: SentClusterInfo, seqno: nat, now: nat, ghost i: nat)
      requires Rep() && i < |chain| && cluster == chain[i] && clusters[i].packets != []
      modifies this`clusters, this`ackedClusters, this`acked, this`filters
      modifies cluster`firstAckTs, cluster`lastAckTs, cluster`packets, cluster`ackedBytes
      ensures Rep() && View() == AckClusterAt(old(View()), i, seqno, now)
    {
      hide Stored, Linked, HasId, ClusterAck, Estimate;
      SameLength();
      TellCluster(cluster, seqno, now, i);
    }

    /** The lookup in `OnAck`. */
    method AckPacket(seqno: nat, now: nat)
      requires Rep() && forall i :: 0 <= i < |clusters| ==> clusters[i].packets != []
      modifies this`seqRound, this`clusters, this`ackedClusters, this`acked, this`filters, chain
      ensures Rep() && View() == BbrModel.AckPacket(old(View()), seqno, now)
    {
      hide Stored, Linked, AckedStored, HasId, AckClusterAt;
      if seqno in seqRound {
        var round := seqRound[seqno];
        seqRound := map k | k in seqRound && k != seqno :: seqRound[k];
        Lookup(round);
        if round in connectionInfo {
          AckCluster(connectionInfo[round], seqno, now, FindCluster(clusters, round));
        }
      }
    }

    /** The totals over the acknowledged clusters. */
    method SumAckedClusters() returns (totals: Totals)
      requires Rep()
      ensures totals == SumTotals(clusters, acked)
    {
      hide Stored, Linked, HasId, Milliseconds;
      totals := Totals(0, 0, 0, 0, 0);
      for k := 0 to |ackedClusters|
        invariant totals == SumTotals(clusters, acked[..k])
      {
        var cluster := ackedClusters[k];
        Held(cluster);
        var sentMs, sent := cluster.GetSentInfo();
        var ackedMs, ackedBytes := cluster.GetAckedInfo();
        if sentMs != 0 {
          totals := totals.(sentMs := (totals.sentMs + sentMs) % U64, sentBytes := totals.sentBytes + sent);
        }
        if ackedMs != 0 {
          var id := cluster.GetClusterId();
          totals := totals.(ackedMs := (totals.ackedMs + ackedMs) % U64,
                            ackedBytes := totals.ackedBytes + ackedBytes, id := id);
        }
        assert acked[..k + 1][..k] == acked[..k];
      }
      assert acked[..|acked|] == acked;
    }

    /** A pointer to a live cluster leads to what the map holds under its id. */
    lemma Held(cluster: SentClusterInfo)
      requires Stored() && cluster in chain
      ensures cluster.alive
      ensures var i := FindCluster(clusters, cluster.clusterId);
              i >= 0 && cluster.Abs() == clusters[i]
    {
      var j :| 0 <= j < |chain| && chain[j] == cluster;
      assert clusters[j].id == cluster.clusterId;
    }

    /** The oldest acknowledged cluster goes, with all before it. */
    method DropOldest(ghost nextNumber: nat, ghost last: nat)
      requires Rep() && InvAt(View(), nextNumber, last) && acked != []
      modifies this`connectionInfo, this`chain, this`clusters, this`ackedClusters, this`acked
      modifies chain`alive, chain`packets, chain`prev
      ensures var s := old(View());
              View() == s.(ackedIds := s.ackedIds[1..], clusters := DropUpTo(s.clusters, s.ackedIds[0]))
      ensures Rep() && InvAt(View(), nextNumber, last)
      ensures |chain| <= |old(chain)| && chain == old(chain)[|old(chain)| - |chain|..]
      ensures DeletedOutside(old(chain), chain)
    {
      hide Stored, Linked, AckedStored, HasId, InvAt, DropUpTo, DeletedOutside, FindCluster;
      DropOldestInv(View(), nextNumber, last);
      FirstAcked();
      var cluster := ackedClusters[0];
      Held(cluster);
      var id := cluster.GetClusterId();
      ghost var before := chain;
      IdsAscend();
      ackedClusters, acked := ackedClusters[1..], acked[1..];
      RemoveClusterLE(id);
      StillHeld(before, nextNumber, last);
    }

    /** What the list of acknowledged clusters holds: its first pointer, and the others. */
    lemma FirstAcked()
      requires AckedStored() && acked != []
      ensures ackedClusters != [] && ackedClusters[0] in chain && ackedClusters[0].clusterId == acked[0]
      ensures var pointers, ids := ackedClusters[1..], acked[1..];
              && |pointers| == |ids|
              && forall k :: 0 <= k < |ids| ==> pointers[k] in chain && pointers[k].clusterId == ids[k]
    {
    }

    lemma IdsAscend()
      requires Stored()
      ensures forall i, j :: 0 <= i < j < |chain| ==> chain[i].clusterId < chain[j].clusterId
    {
      assert forall i :: 0 <= i < |chain| ==> chain[i].Abs().id == chain[i].clusterId;
    }

    /** The acknowledged clusters are live, so pointers to them survive a removal. */
    lemma StillHeld(before: seq<SentClusterInfo>, nextNumber: nat, last: nat)
      requires Stored() && InvAt(View(), nextNumber, last)
      requires |chain| <= |before| && chain == before[|before| - |chain|..]
      requires forall i, j :: 0 <= i < j < |before| ==> before[i].clusterId < before[j].clusterId
      requires |ackedClusters| == |acked|
      requires forall k :: 0 <= k < |acked| ==> ackedClusters[k] in before && ackedClusters[k].clusterId == acked[k]
      ensures AckedStored()
    {
      hide GoodCluster, HasId, AllAckedUpTo, AllNamed, AllReportsOk, Chained;
      forall k | 0 <= k < |acked|
        ensures ackedClusters[k] in chain
      {
        assert LiveAndClosed(clusters, acked[k]);
        var i :| 0 <= i < |clusters| && clusters[i].id == acked[k] && Closed(clusters, i);
        assert chain[i].Abs().id == acked[k];
        var j :| 0 <= j < |before| && before[j] == ackedClusters[k];
        assert before[|before| - |chain| + i] == chain[i];
      }
    }

    method DropStaleClusters(stale: nat, ghost nextNumber: nat, ghost last: nat)
      requires Rep() && InvAt(View(), nextNumber, last) && stale <= |acked|
      modifies this`connectionInfo, this`chain, this`clusters, this`ackedClusters, this`acked
      modifies chain`alive, chain`packets, chain`prev
      ensures Rep() && View() == DropStale(old(View()), stale)
      ensures |chain| <= |old(chain)| && chain == old(chain)[|old(chain)| - |chain|..]
      ensures DeletedOutside(old(chain), chain)
    {
      hide Stored, Linked, AckedStored, HasId, InvAt, DropUpTo, FindCluster;
      for i := 0 to stale
        invariant Rep() && InvAt(View(), nextNumber, last) && |acked| == |old(acked)| - i
        invariant DropStale(View(), stale - i) == DropStale(old(View()), stale)
        invariant |chain| <= |old(chain)| && chain == old(chain)[|old(chain)| - |chain|..]
        invariant DeletedOutside(old(chain), chain)
      {
        DropOldest(nextNumber, last);
      }
    }

    /** The end of `OnAck`. */
    method AverageAckedClusters(ghost nextNumber: nat, ghost last: nat)
      requires Rep() && InvAt(View(), nextNumber, last)
      modifies this`connectionInfo, this`chain, this`clusters, this`ackedClusters, this`acked, this`filters
      modifies chain`alive, chain`packets, chain`prev
      ensures Rep() && View() == Average(old(View()))
      ensures |chain| <= |old(chain)| && chain == old(chain)[|old(chain)| - |chain|..]
      ensures DeletedOutside(old(chain), chain)
    {
      hide Stored, Linked, HasId, InvAt, DropUpTo, SumTotals, DropStale;
      var total := |ackedClusters|;
      if total >= AVERAGE_WINDOW {
        var totals := SumAckedClusters();
        var round := filters.averageRound + totals.id % AVERAGE_WINDOW;
        filters := filters.(averageRound := round,
                            averageBandwidth := filters.averageBandwidth + [AverageUpdate(totals, round)]);
        InvIgnoresAverages(old(View()), nextNumber, last, round, filters.averageBandwidth);
        DropStaleClusters(total - (AVERAGE_WINDOW - 1), nextNumber, last);
      }
    }

    method OnAck(now: nat, seqno: nat, random: nat, ghost nextNumber: nat)
      requires Valid(nextNumber) && now != 0
      modifies this, chain
      ensures Valid(nextNumber) && View() == BbrModel.OnAck(old(View()), now, seqno, random)
      ensures |chain| <= |old(chain)| && chain == old(chain)[|old(chain)| - |chain|..]
      ensures DeletedOutside(old(chain), chain)
    {
      hide Stored, Linked, AckedStored, HasId, Inv, InvAt, UpdateModes, BbrModel.AckPacket, Average, FindCluster;
      hide EnterProbeRtt, ExitProbeRtt, BbrModel.UpdateRtt, BbrModel.EnterProbeBandwidthMode;
      AckedInv(View(), now, seqno, random, nextNumber);
      if seqno > lastAckSeq {
        ghost var s := View();
        ModesInv(s, now, seqno, random, nextNumber);
        ModesUnfold(s, now, seqno, random);
        lastAckSeq := seqno;
        UpdateRtt(now, seqno);
        if mode == StartUp {
          EnterProbeBandwidthMode(now, random);
        }
        MaybeEnterOrExitProbeRtt(now, now > rtt.minRttTs + MIN_RTT_EXPIRY, random);
        ghost var t := View();
        AckInv(t, seqno, now, nextNumber);
        ClustersHold(t, nextNumber, seqno - 1);
        AckPacket(seqno, now);
        AverageAckedClusters(nextNumber, seqno);
      }
    }
  }

  /** The steps of `UpdateModes`. */
  lemma ModesUnfold(s: State, now: nat, seqno: nat, random: nat)
    ensures var a := s.(lastAckSeq := seqno, rtt := BbrModel.UpdateRtt(s.rtt, now, seqno));
            var b := if a.mode == StartUp then BbrModel.EnterProbeBandwidthMode(a, now, random) else a;
            UpdateModes(s, now, seqno, random) ==
              ExitProbeRtt(EnterProbeRtt(b, now > b.rtt.minRttTs + MIN_RTT_EXPIRY), now, random)
  {
  }

  lemma ClustersHold(s: State, nextNumber: nat, last: nat)
    requires InvAt(s, nextNumber, last)
    ensures forall i :: 0 <= i < |s.clusters| ==> s.clusters[i].packets != []
  {
    hide GoodCluster;
  }

  lemma RoundGoesOn(s: State, now: nat, nextNumber: nat)
    requires Inv(s, nextNumber)
    ensures forall r :: CurrentRound(BbrModel.UpdateGainCyclePhase(s.(rtt := r), now))
  {
  }

  lemma AckKeepsId(c: Cluster, seqno: nat, now: nat)
    ensures ClusterAck(c, seqno, now).id == c.id
  {
  }

  /** Clusters that keep their ids are found under the same ids. */
  lemma SameIds(cs: seq<Cluster>, i: nat, c: Cluster)
    requires i < |cs| && c.id == cs[i].id
    ensures forall k :: HasId(cs, k) ==> HasId(cs[i := c], k)
  {
    forall k | HasId(cs, k)
      ensures HasId(cs[i := c], k)
    {
      assert cs[i := c][FindCluster(cs, k)].id == k;
    }
  }
}
