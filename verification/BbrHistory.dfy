/** Whole runs of the BBR-style sender: the invariant holds in every reachable state, each packet
    sent is credited at most once and with its own length, and an acknowledgement credits exactly
    the packets of live clusters above the last acknowledged number. */
module BbrHistory {
  import opened BbrModel
  import opened BbrRuns
  import opened Numbers
  import opened Wrappers

  /** A packet is sent, with the next number, or a number is acknowledged (the random number is the
      one `EnterProbeBandwidthMode` may draw). */
  datatype Step = Sent(now: nat, bytes: nat) | Acked(now: nat, seqno: nat, random: nat)

  /** What was sent: packet number `n` is entry `n - 1`. */
  function Log(steps: seq<Step>): seq<Step> {
    if steps == [] then [] else
    var l := Log(steps[..|steps| - 1]);
    if steps[|steps| - 1].Sent? then l + [steps[|steps| - 1]] else l
  }

  /** The next packet number. */
  function Next(steps: seq<Step>): nat {
    |Log(steps)| + 1
  }

  function Do(s: State, step: Step, next: nat): State {
    match step
    case Sent(now, bytes) => OnPacketSent(s, now, next, bytes)
    case Acked(now, seqno, random) => OnAck(s, now, seqno, random)
  }

  function Run(steps: seq<Step>): State {
    if steps == [] then Initial() else
    var before := steps[..|steps| - 1];
    Do(Run(before), steps[|steps| - 1], Next(before))
  }

  /** The clock is never 0 and the packet numbers fit 32 bits. */
  ghost predicate ValidRun(steps: seq<Step>) {
    Next(steps) < U32 && forall k :: 0 <= k < |steps| ==> steps[k].now != 0
  }

  lemma ValidBefore(steps: seq<Step>)
    requires ValidRun(steps) && steps != []
    ensures ValidRun(steps[..|steps| - 1])
  {
  }

  /** The invariant holds after every run. */
  lemma {:induction false} RunInv(steps: seq<Step>)
    requires ValidRun(steps)
    ensures Inv(Run(steps), Next(steps))
  {
    hide Inv, OnPacketSent, OnAck;
    if steps == [] {
      InitialInv();
    } else {
      var before, step := steps[..|steps| - 1], steps[|steps| - 1];
      ValidBefore(steps);
      RunInv(before);
      match step
      case Sent(now, bytes) => SentInv(Run(before), now, bytes, Next(before));
      case Acked(now, seqno, random) => AckedInv(Run(before), now, seqno, random, Next(before));
    }
  }

  // ---------------------------------------------------------------------------
  // What the records say
  // ---------------------------------------------------------------------------

  /** Every record has the time and length its packet was sent with, and a packet above the last
      acknowledged number is still in `seq_round_map_` under its cluster. */
  ghost predicate Recorded(c: Cluster, m: map<nat, nat>, log: seq<Step>, last: nat) {
    forall j :: 0 <= j < |c.packets| ==> RecordOk(c.packets[j], c.id, m, log, last)
  }

  ghost predicate RecordOk(p: SentPacketInfo, id: nat, m: map<nat, nat>, log: seq<Step>, last: nat) {
    && 1 <= p.seqno <= |log|
    && log[p.seqno - 1].Sent? && p.sentTs == log[p.seqno - 1].now && p.len == log[p.seqno - 1].bytes
    && (p.seqno > last ==> p.seqno in m && m[p.seqno] == id)
  }

  ghost predicate AllRecorded(cs: seq<Cluster>, m: map<nat, nat>, log: seq<Step>, last: nat) {
    forall i :: 0 <= i < |cs| ==> Recorded(cs[i], m, log, last)
  }

  lemma RecordsLater(cs: seq<Cluster>, m: map<nat, nat>, log: seq<Step>, last: nat, step: Step, round: nat)
    requires AllRecorded(cs, m, log, last) && |log| + 1 !in m
    ensures AllRecorded(cs, Insert(m, |log| + 1, round), log + [step], last)
  {
    forall i | 0 <= i < |cs|
      ensures Recorded(cs[i], Insert(m, |log| + 1, round), log + [step], last)
    {
      assert Recorded(cs[i], m, log, last);
      forall j | 0 <= j < |cs[i].packets|
        ensures RecordOk(cs[i].packets[j], cs[i].id, Insert(m, |log| + 1, round), log + [step], last)
      {
        assert RecordOk(cs[i].packets[j], cs[i].id, m, log, last);
      }
    }
  }

  lemma RecordsSent(c: Cluster, now: nat, bytes: nat, m: map<nat, nat>, log: seq<Step>, last: nat)
    requires Recorded(c, m, log + [Sent(now, bytes)], last)
    requires |log| + 1 in m && m[|log| + 1] == c.id
    ensures Recorded(ClusterSent(c, now, |log| + 1, bytes), m, log + [Sent(now, bytes)], last)
  {
    var d, all := ClusterSent(c, now, |log| + 1, bytes), log + [Sent(now, bytes)];
    forall j | 0 <= j < |d.packets|
      ensures RecordOk(d.packets[j], d.id, m, all, last)
    {
      if j < |c.packets| {
        assert RecordOk(c.packets[j], c.id, m, all, last);
      }
    }
  }

  lemma NextUnnamed(s: State, next: nat, last: nat)
    requires InvAt(s, next, last)
    ensures next !in s.seqRound
  {
    hide Chained, AllAckedUpTo, AckedLive, AllReportsOk;
    assert next in s.seqRound ==> NamedPacket(s.clusters, s.seqRound[next], next, next);
  }

  lemma SampledRecords(s: State, now: nat, bytes: nat, log: seq<Step>, last: nat)
    requires InvAt(s, |log| + 1, last) && AllRecorded(s.clusters, s.seqRound, log, last)
    ensures var t := AddPacketInfoSampler(s, now, |log| + 1, bytes);
            AllRecorded(t.clusters, t.seqRound, log + [Sent(now, bytes)], last)
  {
    hide InvAt, Recorded, ClusterSent;
    var all, m := log + [Sent(now, bytes)], Insert(s.seqRound, |log| + 1, s.roundTripCount);
    NextUnnamed(s, |log| + 1, last);
    RecordsLater(s.clusters, s.seqRound, log, last, Sent(now, bytes), s.roundTripCount);
    var i := FindCluster(s.clusters, s.roundTripCount);
    var c := if i >= 0 then s.clusters[i] else NewCluster(s.roundTripCount);
    if i < 0 {
      NothingRecorded(c, m, all, last);
    }
    RecordsSent(c, now, bytes, m, log, last);
  }

  lemma NothingRecorded(c: Cluster, m: map<nat, nat>, log: seq<Step>, last: nat)
    requires c.packets == []
    ensures Recorded(c, m, log, last)
  {
  }

  lemma SentRecords(s: State, now: nat, bytes: nat, log: seq<Step>)
    requires Inv(s, |log| + 1) && AllRecorded(s.clusters, s.seqRound, log, s.lastAckSeq)
    ensures var t := OnPacketSent(s, now, |log| + 1, bytes);
            AllRecorded(t.clusters, t.seqRound, log + [Sent(now, bytes)], t.lastAckSeq)
  {
    hide Chained, AllNamed, AllAckedUpTo, AckedLive, AllReportsOk, AddPacketInfoSampler, Recorded;
    var t := s.(rtt := s.rtt.(seqTs := Insert(s.rtt.seqTs, |log| + 1, now)));
    if s.mode == ProbeBw {
      var u := UpdateGainCyclePhase(t, now);
      SampledRecords(u, now, bytes, log, s.lastAckSeq);
      SamplerKeeps(u, now, |log| + 1, bytes);
    }
  }

  // ---------------------------------------------------------------------------
  // Acknowledgements
  // ---------------------------------------------------------------------------

  /** `d` differs from `c` in acknowledgements only. */
  ghost predicate SameSends(c: Cluster, d: Cluster) {
    && d.id == c.id && |d.packets| == |c.packets|
    && forall j :: 0 <= j < |c.packets| ==>
         && d.packets[j].seqno == c.packets[j].seqno
         && d.packets[j].sentTs == c.packets[j].sentTs
         && d.packets[j].len == c.packets[j].len
  }

  lemma AckSameSends(c: Cluster, q: nat, now: nat)
    ensures SameSends(c, ClusterAck(c, q, now))
  {
  }

  lemma RecordsAcked(c: Cluster, d: Cluster, m: map<nat, nat>, log: seq<Step>, last: nat, q: nat)
    requires Recorded(c, m, log, last) && SameSends(c, d) && last <= q
    ensures Recorded(d, map k | k in m && k != q :: m[k], log, q)
    ensures Recorded(d, m, log, q)
  {
    var m' := map k | k in m && k != q :: m[k];
    forall j | 0 <= j < |d.packets|
      ensures RecordOk(d.packets[j], d.id, m', log, q) && RecordOk(d.packets[j], d.id, m, log, q)
    {
      assert RecordOk(c.packets[j], c.id, m, log, last);
    }
  }

  lemma AckPacketRecords(s: State, q: nat, now: nat, log: seq<Step>, last: nat)
    requires AllRecorded(s.clusters, s.seqRound, log, last) && last <= q
    ensures var t := AckPacket(s, q, now);
            AllRecorded(t.clusters, t.seqRound, log, q)
  {
    hide Recorded, ClusterAck, Estimate, SameSends;
    var t := AckPacket(s, q, now);
    forall i | 0 <= i < |t.clusters|
      ensures Recorded(t.clusters[i], t.seqRound, log, q)
    {
      var c := s.clusters[i];
      AckSameSends(c, q, now);
      SameAsItself(c);
      RecordsAcked(c, c, s.seqRound, log, last, q);
      RecordsAcked(c, ClusterAck(c, q, now), s.seqRound, log, last, q);
    }
  }

  lemma SameAsItself(c: Cluster)
    ensures SameSends(c, c)
  {
  }

  lemma {:induction false} DropUpToIsSuffix(cs: seq<Cluster>, id: nat)
    ensures |DropUpTo(cs, id)| <= |cs| && DropUpTo(cs, id) == cs[|cs| - |DropUpTo(cs, id)|..]
  {
    if cs != [] && cs[0].id <= id {
      DropUpToIsSuffix(cs[1..], id);
    }
  }

  lemma {:induction false} DropStaleIsSuffix(s: State, n: nat)
    requires n <= |s.ackedIds|
    ensures var t := DropStale(s, n);
            && |t.clusters| <= |s.clusters| && t.clusters == s.clusters[|s.clusters| - |t.clusters|..]
            && t.seqRound == s.seqRound && t.lastAckSeq == s.lastAckSeq
    decreases n
  {
    hide DropUpTo;
    if n > 0 {
      DropUpToIsSuffix(s.clusters, s.ackedIds[0]);
      DropStaleIsSuffix(s.(ackedIds := s.ackedIds[1..], clusters := DropUpTo(s.clusters, s.ackedIds[0])), n - 1);
    }
  }

  lemma AverageKeeps(s: State)
    ensures var t := Average(s);
            && |t.clusters| <= |s.clusters| && t.clusters == s.clusters[|s.clusters| - |t.clusters|..]
            && t.seqRound == s.seqRound && t.lastAckSeq == s.lastAckSeq
  {
    hide DropStale, SumTotals;
    if |s.ackedIds| >= AVERAGE_WINDOW {
      var totals := SumTotals(s.clusters, s.ackedIds);
      var round := s.averageRound + totals.id % AVERAGE_WINDOW;
      DropStaleIsSuffix(s.(averageRound := round, averageUpdates := s.averageUpdates + [AverageUpdate(totals, round)]),
                        |s.ackedIds| - (AVERAGE_WINDOW - 1));
    }
  }

  lemma AckedRecords(s: State, now: nat, q: nat, random: nat, log: seq<Step>)
    requires AllRecorded(s.clusters, s.seqRound, log, s.lastAckSeq)
    ensures var t := OnAck(s, now, q, random);
            AllRecorded(t.clusters, t.seqRound, log, t.lastAckSeq) && t.lastAckSeq >= s.lastAckSeq
  {
    hide UpdateModes, AckPacket, Average, Recorded;
    if q > s.lastAckSeq {
      var t := UpdateModes(s, now, q, random);
      ModesKeep(s, now, q, random);
      AckPacketRecords(t, q, now, log, s.lastAckSeq);
      AckPacketKeepsLast(t, q, now);
      AverageKeeps(AckPacket(t, q, now));
    }
  }

  lemma AckPacketKeepsLast(s: State, q: nat, now: nat)
    ensures AckPacket(s, q, now).lastAckSeq == s.lastAckSeq
  {
  }

  /** After every run each record tells what was sent under its number. */
  lemma {:induction false} RunRecords(steps: seq<Step>)
    requires ValidRun(steps)
    ensures AllRecorded(Run(steps).clusters, Run(steps).seqRound, Log(steps), Run(steps).lastAckSeq)
  {
    hide Inv, OnPacketSent, OnAck, Recorded;
    if steps != [] {
      var before, step := steps[..|steps| - 1], steps[|steps| - 1];
      ValidBefore(steps);
      RunInv(before);
      RunRecords(before);
      match step
      case Sent(now, bytes) => SentRecords(Run(before), now, bytes, Log(before));
      case Acked(now, seqno, random) => AckedRecords(Run(before), now, seqno, random, Log(before));
    }
  }

  // ---------------------------------------------------------------------------
  // Credits
  // ---------------------------------------------------------------------------

  /** The number in the record that an acknowledgement marks, if it marks one. */
  function Credit(s: State, now: nat, q: nat, random: nat): Option<nat> {
    if q <= s.lastAckSeq then None else
    var t := UpdateModes(s, now, q, random);
    if q !in t.seqRound then None else
    var i := FindCluster(t.clusters, t.seqRound[q]);
    if i < 0 || !Credits(t.clusters[i], q) then None
    else Some(t.clusters[i].packets[Offset(t.clusters[i], q)].seqno)
  }

  /** The packets from the first live cluster on. */
  ghost predicate InLiveCluster(cs: seq<Cluster>, q: nat, next: nat) {
    cs != [] && cs[0].packets != [] && Head(cs[0]) <= q < next
  }

  lemma {:induction false} FindHolder(cs: seq<Cluster>, next: nat, q: nat) returns (i: nat)
    requires Chained(cs, next) && InLiveCluster(cs, q, next)
    ensures i < |cs| && cs[i].packets != [] && Head(cs[i]) <= q < End(cs[i])
  {
    hide GoodCluster;
    if q < End(cs[0]) {
      i := 0;
    } else {
      assert |cs| > 1;
      ChainedSuffix(cs, next, 1);
      i := FindHolder(cs[1..], next, q);
      i := i + 1;
    }
  }

  lemma IdsAreDistinct(cs: seq<Cluster>, next: nat, i: nat)
    requires Chained(cs, next) && i < |cs|
    ensures FindCluster(cs, cs[i].id) == i
  {
    hide GoodCluster;
  }

  lemma HeadsRise(cs: seq<Cluster>, next: nat, i: nat)
    requires Chained(cs, next) && i < |cs|
    ensures cs[0].packets != [] && cs[i].packets != [] && Head(cs[0]) <= Head(cs[i]) && End(cs[i]) <= next
    ensures GoodCluster(cs[i])
  {
    hide GoodCluster;
    EndAtMostNext(cs, next, i);
  }

  lemma RecordIsNamed(c: Cluster, m: map<nat, nat>, log: seq<Step>, last: nat, q: nat)
    requires Recorded(c, m, log, last) && GoodCluster(c) && Head(c) <= q < End(c)
    ensures RecordOk(c.packets[q - Head(c)], c.id, m, log, last) && c.packets[q - Head(c)].seqno == q
  {
  }

  /** An acknowledgement above all earlier ones credits exactly the packet with its number, if that
      packet lies in a cluster still live once the modes have changed; otherwise it credits nothing. */
  lemma CreditExactly(s: State, now: nat, q: nat, random: nat, log: seq<Step>)
    requires Inv(s, |log| + 1) && AllRecorded(s.clusters, s.seqRound, log, s.lastAckSeq)
    ensures Credit(s, now, q, random) ==
            if q > s.lastAckSeq && InLiveCluster(UpdateModes(s, now, q, random).clusters, q, |log| + 1)
            then Some(q) else None
  {
    hide UpdateModes, Recorded, RecordOk, GoodCluster, Credits, Chained;
    if q > s.lastAckSeq {
      var t, next := UpdateModes(s, now, q, random), |log| + 1;
      ModesInv(s, now, q, random, next);
      ModesKeep(s, now, q, random);
      if InLiveCluster(t.clusters, q, next) {
        var i := FindHolder(t.clusters, next, q);
        HeadsRise(t.clusters, next, i);
        RecordIsNamed(t.clusters[i], s.seqRound, log, s.lastAckSeq, q);
        NamedIn(t.clusters[i].packets[q - Head(t.clusters[i])], t.clusters[i].id, s.seqRound, log, s.lastAckSeq);
        IdsAreDistinct(t.clusters, next, i);
        OffsetHits(t.clusters[i], q);
      } else if q in t.seqRound {
        NotFound(t, next, q);
      }
    }
  }

  lemma NamedIn(p: SentPacketInfo, id: nat, m: map<nat, nat>, log: seq<Step>, last: nat)
    requires RecordOk(p, id, m, log, last) && p.seqno > last
    ensures p.seqno in m && m[p.seqno] == id
  {
  }

  /** The packets credited in a run, in order. */
  function CreditsOf(steps: seq<Step>): seq<nat> {
    if steps == [] then [] else
    var before := steps[..|steps| - 1];
    match steps[|steps| - 1]
    case Sent(_, _) => CreditsOf(before)
    case Acked(now, seqno, random) =>
      match Credit(Run(before), now, seqno, random)
      case None => CreditsOf(before)
      case Some(q) => CreditsOf(before) + [q]
  }

  lemma AckMovesOn(s: State, now: nat, q: nat, random: nat)
    ensures OnAck(s, now, q, random).lastAckSeq == if q <= s.lastAckSeq then s.lastAckSeq else q
  {
    hide UpdateModes, AckPacket, Average;
    if q > s.lastAckSeq {
      ModesKeep(s, now, q, random);
      AckPacketKeepsLast(UpdateModes(s, now, q, random), q, now);
      AverageKeeps(AckPacket(UpdateModes(s, now, q, random), q, now));
    }
  }

  lemma SendKeepsLast(s: State, now: nat, seqno: nat, bytes: nat)
    ensures OnPacketSent(s, now, seqno, bytes).lastAckSeq == s.lastAckSeq
  {
    hide AddPacketInfoSampler;
    var t := s.(rtt := s.rtt.(seqTs := Insert(s.rtt.seqTs, seqno, now)));
    SamplerKeeps(UpdateGainCyclePhase(t, now), now, seqno, bytes);
  }

  /** Over any run the packets credited are packets that were sent, and their numbers strictly
      increase: each is credited at most once. */
  lemma {:induction false} CreditedOnce(steps: seq<Step>)
    requires ValidRun(steps)
    ensures Increasing(CreditsOf(steps))
    ensures forall k :: 0 <= k < |CreditsOf(steps)| ==>
              1 <= CreditsOf(steps)[k] <= |Log(steps)| && CreditsOf(steps)[k] <= Run(steps).lastAckSeq
  {
    hide Inv, OnPacketSent, OnAck, Credit, AllRecorded;
    if steps != [] {
      var before, step := steps[..|steps| - 1], steps[|steps| - 1];
      ValidBefore(steps);
      CreditedOnce(before);
      match step
      case Sent(now, bytes) =>
        SendKeepsLast(Run(before), now, Next(before), bytes);
      case Acked(now, seqno, random) =>
        RunInv(before);
        RunRecords(before);
        AckMovesOn(Run(before), now, seqno, random);
        CreditExactly(Run(before), now, seqno, random, Log(before));
    }
  }

  function BytesSent(log: seq<Step>): nat {
    if log == [] then 0 else
    BytesSent(log[..|log| - 1]) + (if log[|log| - 1].Sent? then log[|log| - 1].bytes else 0)
  }

  function BytesOf(log: seq<Step>, qs: seq<nat>): nat
    requires forall k :: 0 <= k < |qs| ==> 1 <= qs[k] <= |log|
  {
    if qs == [] then 0 else
    var p := log[qs[|qs| - 1] - 1];
    BytesOf(log, qs[..|qs| - 1]) + (if p.Sent? then p.bytes else 0)
  }

  /** Bytes add up packet by packet. */
  lemma BytesAddUp(log: seq<Step>, qs: seq<nat>, q: nat, now: nat, bytes: nat)
    requires (forall k :: 0 <= k < |qs| ==> 1 <= qs[k] <= |log|) && 1 <= q <= |log| && log[q - 1].Sent?
    ensures BytesOf(log, []) == BytesSent([]) == 0
    ensures BytesOf(log, qs + [q]) == BytesOf(log, qs) + log[q - 1].bytes
    ensures BytesSent(log + [Sent(now, bytes)]) == BytesSent(log) + bytes
  {
    assert (qs + [q])[..|qs|] == qs;
    assert (log + [Sent(now, bytes)])[..|log|] == log;
  }

  lemma {:induction false} BytesOfPrefix(log: seq<Step>, n: nat, qs: seq<nat>)
    requires n <= |log|
    requires forall k :: 0 <= k < |qs| ==> 1 <= qs[k] <= n
    ensures BytesOf(log[..n], qs) == BytesOf(log, qs)
  {
    if qs != [] {
      BytesOfPrefix(log, n, qs[..|qs| - 1]);
    }
  }

  lemma {:induction false} DistinctBytes(log: seq<Step>, qs: seq<nat>)
    requires forall k :: 0 <= k < |qs| ==> 1 <= qs[k] <= |log|
    requires Increasing(qs)
    ensures BytesOf(log, qs) <= BytesSent(log)
    decreases |log|
  {
    if log != [] && qs != [] {
      var n := |log| - 1;
      var rest := if qs[|qs| - 1] == |log| then qs[..|qs| - 1] else qs;
      DistinctBytes(log[..n], rest);
      BytesOfPrefix(log, n, rest);
    }
  }

  /** Conservation over a whole run: the bytes credited never exceed the bytes sent. */
  lemma CreditedAtMostSent(steps: seq<Step>)
    requires ValidRun(steps)
    ensures forall k :: 0 <= k < |CreditsOf(steps)| ==> 1 <= CreditsOf(steps)[k] <= |Log(steps)|
    ensures BytesOf(Log(steps), CreditsOf(steps)) <= BytesSent(Log(steps))
  {
    CreditedOnce(steps);
    DistinctBytes(Log(steps), CreditsOf(steps));
  }

  // ---------------------------------------------------------------------------
  // What holds in every reachable state, spelled out
  // ---------------------------------------------------------------------------

  /** An entry of `seq_round_map_` naming a live cluster leads to the record with that number. */
  lemma IndexHits(steps: seq<Step>, q: nat, i: nat)
    requires ValidRun(steps) && i < |Run(steps).clusters|
    requires q in Run(steps).seqRound && Run(steps).seqRound[q] == Run(steps).clusters[i].id
    ensures var c := Run(steps).clusters[i];
            Credits(c, q) && c.packets[Offset(c, q)].seqno == q
  {
    hide Run, Credits, GoodCluster;
    var s := Run(steps);
    RunInv(steps);
    assert NamedPacket(s.clusters, s.seqRound[q], q, Next(steps));
    EndAtMostNext(s.clusters, Next(steps), i);
    HeadsRise(s.clusters, Next(steps), i);
    OffsetHits(s.clusters[i], q);
  }

  /** At most nine clusters wait for the average; they are live and in strictly increasing order. */
  lemma AckedClustersLive(steps: seq<Step>)
    requires ValidRun(steps)
    ensures |Run(steps).ackedIds| <= 9 && Increasing(Run(steps).ackedIds)
    ensures forall id :: id in Run(steps).ackedIds ==> exists c :: c in Run(steps).clusters && c.id == id
  {
    hide Run, GoodCluster;
    var s := Run(steps);
    RunInv(steps);
    forall id | id in s.ackedIds
      ensures exists c :: c in s.clusters && c.id == id
    {
      var k :| 0 <= k < |s.ackedIds| && s.ackedIds[k] == id;
      assert LiveAndClosed(s.clusters, s.ackedIds[k]);
      var i :| 0 <= i < |s.clusters| && s.clusters[i].id == id && Closed(s.clusters, i);
      assert s.clusters[i] in s.clusters;
    }
  }

  /** The bytes of every live cluster are those of its records, and no more are acknowledged than
      were sent. */
  lemma ClusterBytes(steps: seq<Step>, i: nat)
    requires ValidRun(steps) && i < |Run(steps).clusters|
    ensures var c := Run(steps).clusters[i];
            c.ackedBytes == SumAcked(c.packets) <= SumSent(c.packets) == c.sentBytes
  {
    hide Run;
    RunInv(steps);
    assert GoodCluster(Run(steps).clusters[i]);
    AckedAtMostSent(Run(steps).clusters[i].packets);
  }

  /** The totals of a cluster whose bandwidth has been reported never change again: in every later
      state in which the report is kept and the cluster is live they are the reported ones. */
  lemma ReportedTotalsFrozen(steps: seq<Step>, r: Report, i: nat)
    requires ValidRun(steps) && r in Run(steps).reports
    requires i < |Run(steps).clusters| && Run(steps).clusters[i].id == r.id
    ensures Run(steps).clusters[i].sentBytes == r.sentBytes
    ensures Run(steps).clusters[i].ackedBytes == r.ackedBytes
  {
    hide Run, GoodCluster;
    RunInv(steps);
    assert ReportOk(Run(steps).clusters, r);
  }

  lemma AverageKeepsReports(s: State)
    ensures Average(s).reports == s.reports
  {
    hide DropStale, SumTotals;
    if |s.ackedIds| >= AVERAGE_WINDOW {
      var totals := SumTotals(s.clusters, s.ackedIds);
      var round := s.averageRound + totals.id % AVERAGE_WINDOW;
      var updates := s.averageUpdates + [AverageUpdate(totals, round)];
      DropStaleKeepsReports(s.(averageRound := round, averageUpdates := updates), |s.ackedIds| - (AVERAGE_WINDOW - 1));
    }
  }

  lemma {:induction false} DropStaleKeepsReports(s: State, n: nat)
    requires n <= |s.ackedIds|
    ensures DropStale(s, n).reports == s.reports
    decreases n
  {
    if n > 0 {
      DropStaleKeepsReports(s.(ackedIds := s.ackedIds[1..], clusters := DropUpTo(s.clusters, s.ackedIds[0])), n - 1);
    }
  }

  function TotalAcked(cs: seq<Cluster>): nat {
    if cs == [] then 0 else TotalAcked(cs[..|cs| - 1]) + cs[|cs| - 1].ackedBytes
  }

  lemma {:induction false} TotalAckedUpdate(cs: seq<Cluster>, i: nat, c: Cluster)
    requires i < |cs|
    ensures TotalAcked(cs[i := c]) == TotalAcked(cs) - cs[i].ackedBytes + c.ackedBytes
  {
    var n := |cs| - 1;
    if i == n {
      assert cs[i := c][..n] == cs[..n];
    } else {
      assert cs[i := c][..n] == cs[..n][i := c];
      TotalAckedUpdate(cs[..n], i, c);
    }
  }

  /** The lookup adds the length the credited packet was sent with, and nothing else. */
  lemma CreditAddsBytes(s: State, now: nat, q: nat, random: nat, log: seq<Step>)
    requires Inv(s, |log| + 1) && AllRecorded(s.clusters, s.seqRound, log, s.lastAckSeq) && now != 0
    requires q > s.lastAckSeq
    ensures Credit(s, now, q, random) == Some(q) ==> 1 <= q <= |log| && log[q - 1].Sent?
    ensures var t := UpdateModes(s, now, q, random);
            TotalAcked(AckPacket(t, q, now).clusters) ==
              TotalAcked(t.clusters) + (if Credit(s, now, q, random) == Some(q) then log[q - 1].bytes else 0)
  {
    hide UpdateModes, Recorded, RecordOk, GoodCluster, Credits, Chained, ClusterAck, Estimate;
    var t, next := UpdateModes(s, now, q, random), |log| + 1;
    ModesInv(s, now, q, random, next);
    ModesKeep(s, now, q, random);
    CreditExactly(s, now, q, random, log);
    if InLiveCluster(t.clusters, q, next) {
      var i := FindHolder(t.clusters, next, q);
      var c := t.clusters[i];
      HeadsRise(t.clusters, next, i);
      RecordIsNamed(c, s.seqRound, log, s.lastAckSeq, q);
      NamedIn(c.packets[q - Head(c)], c.id, s.seqRound, log, s.lastAckSeq);
      RecordLength(c.packets[q - Head(c)], c.id, s.seqRound, log, s.lastAckSeq);
      IdsAreDistinct(t.clusters, next, i);
      MarkedCluster(c, q, now);
      TotalAckedUpdate(t.clusters, i, ClusterAck(c, q, now));
    } else if q in t.seqRound {
      NotFound(t, next, q);
    }
  }

  lemma RecordLength(p: SentPacketInfo, id: nat, m: map<nat, nat>, log: seq<Step>, last: nat)
    requires RecordOk(p, id, m, log, last)
    ensures 1 <= p.seqno <= |log| && log[p.seqno - 1].Sent? && p.len == log[p.seqno - 1].bytes
  {
  }

  /** A packet outside the live clusters is named by no live cluster. */
  lemma NotFound(t: State, next: nat, q: nat)
    requires q > 0 && InvAt(t, next, q - 1) && q in t.seqRound && !InLiveCluster(t.clusters, q, next)
    ensures FindCluster(t.clusters, t.seqRound[q]) < 0
  {
    hide GoodCluster, Chained, AllAckedUpTo, AckedLive, AllReportsOk;
    assert NamedPacket(t.clusters, t.seqRound[q], q, next);
    HeadsRise(t.clusters, next, 0);
    var i := FindCluster(t.clusters, t.seqRound[q]);
    if i >= 0 {
      HeadsRise(t.clusters, next, i);
    }
  }

  // ---------------------------------------------------------------------------
  // The average
  // ---------------------------------------------------------------------------

  function TotalSent(cs: seq<Cluster>): nat {
    if cs == [] then 0 else TotalSent(cs[..|cs| - 1]) + cs[|cs| - 1].sentBytes
  }

  lemma {:induction false} TotalsGrow(cs: seq<Cluster>, m: nat, n: nat)
    requires m <= n <= |cs|
    ensures TotalAcked(cs[..m]) <= TotalAcked(cs[..n]) && TotalSent(cs[..m]) <= TotalSent(cs[..n])
    decreases n
  {
    if m < n {
      TotalsGrow(cs, m, n - 1);
      assert cs[..n][..n - 1] == cs[..n - 1];
    }
  }

  lemma AddedTotals(t: Totals, c: Cluster)
    ensures var u := AddTotals(t, c);
            u.ackedBytes <= t.ackedBytes + c.ackedBytes && u.sentBytes <= t.sentBytes + c.sentBytes
  {
    hide Milliseconds;
  }

  /** A live id is found. */
  lemma FoundLive(cs: seq<Cluster>, id: nat)
    requires LiveAndClosed(cs, id)
    ensures FindCluster(cs, id) >= 0
  {
    var i :| 0 <= i < |cs| && cs[i].id == id && Closed(cs, i);
    assert cs[i].id == id;
  }

  /** Clusters with smaller ids lie before. */
  lemma EarlierIds(cs: seq<Cluster>, next: nat, ids: seq<nat>)
    requires Chained(cs, next) && AckedLive(cs, ids) && ids != []
    ensures FindCluster(cs, ids[|ids| - 1]) >= 0
    ensures AckedLive(cs, ids[..|ids| - 1])
    ensures |ids| > 1 ==> FindCluster(cs, ids[|ids| - 2]) < FindCluster(cs, ids[|ids| - 1])
  {
    hide GoodCluster, LiveAndClosed;
    FoundLive(cs, ids[|ids| - 1]);
    if |ids| > 1 {
      FoundLive(cs, ids[|ids| - 2]);
      var i, j := FindCluster(cs, ids[|ids| - 2]), FindCluster(cs, ids[|ids| - 1]);
      assert cs[i].id < cs[j].id;
    }
  }

  lemma {:induction false} TotalsUpTo(cs: seq<Cluster>, next: nat, ids: seq<nat>, n: nat)
    requires Chained(cs, next) && AckedLive(cs, ids) && n <= |cs|
    requires ids != [] ==> FindCluster(cs, ids[|ids| - 1]) < n
    ensures SumTotals(cs, ids).ackedBytes <= TotalAcked(cs[..n])
    ensures SumTotals(cs, ids).sentBytes <= TotalSent(cs[..n])
    decreases |ids|
  {
    hide Chained, AckedLive, AddTotals;
    if ids != [] {
      EarlierIds(cs, next, ids);
      var i := FindCluster(cs, ids[|ids| - 1]);
      TotalsUpTo(cs, next, ids[..|ids| - 1], i);
      AddedTotals(SumTotals(cs, ids[..|ids| - 1]), cs[i]);
      assert cs[..i + 1][..i] == cs[..i];
      TotalsGrow(cs, i + 1, n);
    }
  }

  /** The average counts no cluster twice: in every reachable state the totals over the acknowledged
      clusters are at most those of all live clusters. */
  lemma AverageCountsOnce(steps: seq<Step>)
    requires ValidRun(steps)
    ensures var s := Run(steps);
            && SumTotals(s.clusters, s.ackedIds).ackedBytes <= TotalAcked(s.clusters)
            && SumTotals(s.clusters, s.ackedIds).sentBytes <= TotalSent(s.clusters)
  {
    hide Run, Chained, AckedLive, SumTotals, TotalAcked, TotalSent;
    var s := Run(steps);
    RunInv(steps);
    AllFound(s.clusters, s.ackedIds);
    TotalsUpTo(s.clusters, Next(steps), s.ackedIds, |s.clusters|);
    assert s.clusters[..|s.clusters|] == s.clusters;
  }

  lemma AllFound(cs: seq<Cluster>, ids: seq<nat>)
    ensures ids != [] ==> FindCluster(cs, ids[|ids| - 1]) < |cs|
  {
  }

  // ---------------------------------------------------------------------------
  // What the clusters hold has been credited
  // ---------------------------------------------------------------------------

  lemma {:induction false} TotalAckedSuffix(cs: seq<Cluster>, ds: seq<Cluster>)
    requires |ds| <= |cs| && ds == cs[|cs| - |ds|..]
    ensures TotalAcked(ds) <= TotalAcked(cs)
    decreases |cs|
  {
    if ds != [] {
      var n, m := |cs| - 1, |ds| - 1;
      assert ds[..m] == cs[..n][|cs[..n]| - m..];
      TotalAckedSuffix(cs[..n], ds[..m]);
    }
  }

  /** Sending leaves the bytes that the clusters hold as acknowledged. */
  lemma SentTotal(s: State, now: nat, seqno: nat, bytes: nat)
    ensures TotalAcked(OnPacketSent(s, now, seqno, bytes).clusters) == TotalAcked(s.clusters)
  {
    hide TotalAcked;
    if s.mode == ProbeBw {
      var t := s.(rtt := s.rtt.(seqTs := Insert(s.rtt.seqTs, seqno, now)));
      var u := UpdateGainCyclePhase(t, now);
      var i := FindCluster(u.clusters, u.roundTripCount);
      if i >= 0 {
        TotalAckedUpdate(u.clusters, i, ClusterSent(u.clusters[i], now, seqno, bytes));
      } else {
        TotalAckedSnoc(u.clusters, ClusterSent(NewCluster(u.roundTripCount), now, seqno, bytes));
      }
    }
  }

  lemma TotalAckedSnoc(cs: seq<Cluster>, c: Cluster)
    ensures TotalAcked(cs + [c]) == TotalAcked(cs) + c.ackedBytes
  {
    assert (cs + [c])[..|cs|] == cs;
  }

  lemma CreditsGrow(steps: seq<Step>, step: Step)
    ensures CreditsOf(steps + [step]) == CreditsOf(steps) +
              if step.Acked? && Credit(Run(steps), step.now, step.seqno, step.random).Some?
              then [Credit(Run(steps), step.now, step.seqno, step.random).value] else []
    ensures Run(steps + [step]) == Do(Run(steps), step, Next(steps))
    ensures Log(steps + [step]) == if step.Sent? then Log(steps) + [step] else Log(steps)
  {
    hide Credit, Do;
    assert (steps + [step])[..|steps|] == steps;
  }

  lemma AckedTotal(s: State, now: nat, q: nat, random: nat, log: seq<Step>)
    requires Inv(s, |log| + 1) && AllRecorded(s.clusters, s.seqRound, log, s.lastAckSeq) && now != 0
    ensures Credit(s, now, q, random).Some? ==>
              Credit(s, now, q, random) == Some(q) && 1 <= q <= |log| && log[q - 1].Sent?
    ensures TotalAcked(OnAck(s, now, q, random).clusters) <=
              TotalAcked(s.clusters) + if Credit(s, now, q, random).Some? then log[q - 1].bytes else 0
  {
    hide UpdateModes, AckPacket, Average, Credit, Inv, AllRecorded, TotalAcked;
    if q > s.lastAckSeq {
      var t := UpdateModes(s, now, q, random);
      ModesKeep(s, now, q, random);
      CreditExactly(s, now, q, random, log);
      CreditAddsBytes(s, now, q, random, log);
      AverageKeeps(AckPacket(t, q, now));
      TotalAckedSuffix(AckPacket(t, q, now).clusters, OnAck(s, now, q, random).clusters);
      NoneAcked();
    } else {
      NoCredit(s, now, q, random);
    }
  }

  lemma NoneAcked()
    ensures TotalAcked([]) == 0
  {
  }

  lemma NoCredit(s: State, now: nat, q: nat, random: nat)
    requires q <= s.lastAckSeq
    ensures Credit(s, now, q, random) == None && OnAck(s, now, q, random) == s
  {
  }

  /** In every reachable state the bytes that live clusters hold as acknowledged are among those
      credited over the run. */
  lemma {:induction false} HeldIsCredited(steps: seq<Step>)
    requires ValidRun(steps)
    ensures forall k :: 0 <= k < |CreditsOf(steps)| ==> 1 <= CreditsOf(steps)[k] <= |Log(steps)|
    ensures TotalAcked(Run(steps).clusters) <= BytesOf(Log(steps), CreditsOf(steps))
  {
    hide Inv, OnPacketSent, OnAck, Credit, AllRecorded, TotalAcked, BytesOf, Run, Log, CreditsOf;
    CreditedOnce(steps);
    if steps == [] {
      EmptyHistory();
    } else {
      var before, step := steps[..|steps| - 1], steps[|steps| - 1];
      assert steps == before + [step];
      ValidBefore(steps);
      HeldIsCredited(before);
      CreditsGrow(before, step);
      match step
      case Sent(now, bytes) =>
        SentTotal(Run(before), now, Next(before), bytes);
        assert Log(steps)[..|Log(before)|] == Log(before);
        assert CreditsOf(steps) == CreditsOf(before);
        BytesOfPrefix(Log(steps), |Log(before)|, CreditsOf(before));
      case Acked(now, seqno, random) =>
        RunInv(before);
        RunRecords(before);
        AckedTotal(Run(before), now, seqno, random, Log(before));
        CreditedBytes(Log(before), CreditsOf(before), seqno);
    }
  }

  lemma CreditedBytes(log: seq<Step>, qs: seq<nat>, q: nat)
    requires forall k :: 0 <= k < |qs| ==> 1 <= qs[k] <= |log|
    ensures 1 <= q <= |log| && log[q - 1].Sent? ==> BytesOf(log, qs + [q]) == BytesOf(log, qs) + log[q - 1].bytes
    ensures qs + [] == qs
  {
    assert (qs + [q])[..|qs|] == qs;
  }

  lemma EmptyHistory()
    ensures TotalAcked(Run([]).clusters) == 0 && BytesOf(Log([]), CreditsOf([])) == 0
  {
  }
}
