/** The two test applications of quic-test/mybbr put together: datagrams of either may be lost,
    repeated and reordered on their way to the other, but not made up. What the sender credits has
    then arrived at the receiver. */
module Exchange {
  import opened AppPackets
  import opened BbrHistory
  import opened Bytes
  import opened Numbers
  import opened ReceiverApp
  import opened SenderApp
  import opened Wrappers

  /** The sender provides a packet; a copy of its datagram `k` arrives at the receiver; a copy of the
      receiver's datagram `j` arrives back. Both datagrams are a header with some bytes after it. */
  datatype Event =
    | Provided(now: nat)
    | Arrived(k: nat, tail: seq<Byte>)
    | Returned(j: nat, tail: seq<Byte>, now: nat, random: nat)

  /** The run of the sender, the headers it sent, the numbers that arrived, and the acknowledgements. */
  datatype System = System(steps: seq<Step>, sent: seq<seq<Byte>>, arrivals: seq<nat>, acks: seq<seq<Byte>>)

  /** What the applications do: `SendFakePacket`, `OnIncomingData` and `ProcessAckFrame`. */
  function Happens(s: System, e: Event): System {
    match e
    case Provided(now) =>
      var n := |s.sent| + 1;
      s.(steps := s.steps + [Sent(now, Payload(n))], sent := s.sent + [PacketHeader(TYPE_STREAM, n)])
    case Arrived(k, tail) =>
      if k >= |s.sent| then s else
      var numbers := Arriving(s.sent[k] + tail);
      if numbers == [] then s else
      s.(arrivals := s.arrivals + numbers, acks := s.acks + [PacketHeader(TYPE_ACK, numbers[0])])
    case Returned(j, tail, now, random) =>
      if j >= |s.acks| then s else
      s.(steps := s.steps + AckSteps(Some(s.acks[j] + tail), now, random))
  }

  function After(events: seq<Event>): System {
    if events == [] then System([], [], [], [])
    else Happens(After(events[..|events| - 1]), events[|events| - 1])
  }

  // ---------------------------------------------------------------------------
  // What every run keeps
  // ---------------------------------------------------------------------------

  /** Datagrams carry the numbers they should, only packets sent arrive, and only arrivals are
      acknowledged. */
  ghost predicate Linked(s: System) {
    && Next(s.steps) == |s.sent| + 1
    && (forall k :: 0 <= k < |s.sent| ==> s.sent[k] == PacketHeader(TYPE_STREAM, k + 1))
    && (forall n :: n in s.arrivals ==> 1 <= n <= |s.sent|)
    && |s.acks| == |s.arrivals|
    && (forall j :: 0 <= j < |s.acks| ==> s.acks[j] == PacketHeader(TYPE_ACK, s.arrivals[j]))
    && (forall i :: 0 <= i < |s.steps| && s.steps[i].Acked? ==> s.steps[i].seqno in s.arrivals)
  }

  lemma NextAfter(steps: seq<Step>, step: Step)
    ensures Next(steps + [step]) == Next(steps) + (if step.Sent? then 1 else 0)
  {
    assert (steps + [step])[..|steps|] == steps;
  }

  lemma HappensGrows(s: System, e: Event)
    ensures |s.sent| <= |Happens(s, e).sent|
  {
    hide ParseHeader, PacketHeader;
  }

  lemma HappensLinked(s: System, e: Event)
    requires Linked(s) && |Happens(s, e).sent| < U32
    ensures Linked(Happens(s, e))
  {
    hide ParseHeader, PacketHeader, Next;
    HappensGrows(s, e);
    match e
    case Provided(now) =>
      NextAfter(s.steps, Sent(now, Payload(|s.sent| + 1)));
    case Arrived(k, tail) =>
      if k < |s.sent| {
        HeaderReadsBackIff(TYPE_STREAM, k + 1, tail);
      }
    case Returned(j, tail, now, random) =>
      if j < |s.acks| {
        assert s.arrivals[j] in s.arrivals;
        HeaderReadsBackIff(TYPE_ACK, s.arrivals[j], tail);
        NextAfter(s.steps, Acked(now, s.arrivals[j], random));
        PeerAckArrives(s.arrivals[j], tail, now, random);
      }
  }

  /** One step of the run is sent for every packet provided. */
  lemma {:induction false} SentIsNext(events: seq<Event>)
    ensures Next(After(events).steps) == |After(events).sent| + 1
  {
    hide ParseHeader, PacketHeader, Next;
    if events == [] {
      NothingLinked();
    } else {
      var s, e := After(events[..|events| - 1]), events[|events| - 1];
      SentIsNext(events[..|events| - 1]);
      match e
      case Provided(now) =>
        NextAfter(s.steps, Sent(now, Payload(|s.sent| + 1)));
      case Arrived(k, tail) =>
      case Returned(j, tail, now, random) =>
        if j < |s.acks| {
          NextAfter(s.steps, Acked(now, ParseHeader(s.acks[j] + tail).1, random));
          assert s.steps + [] == s.steps;
        }
    }
  }

  lemma {:induction false} RunLinked(events: seq<Event>)
    requires |After(events).sent| < U32
    ensures Linked(After(events))
  {
    hide Happens;
    if events == [] {
      NothingLinked();
    } else {
      HappensGrows(After(events[..|events| - 1]), events[|events| - 1]);
      RunLinked(events[..|events| - 1]);
      HappensLinked(After(events[..|events| - 1]), events[|events| - 1]);
    }
  }

  lemma NothingLinked()
    ensures Linked(System([], [], [], [])) && Next([]) == 1
  {
  }

  /** A packet that arrives is acknowledged under its own number, and the acknowledgement reaches the
      sender with it. */
  lemma ThereAndBack(events: seq<Event>, k: nat, there: seq<Byte>, back: seq<Byte>, now: nat, random: nat)
    requires k < |After(events).sent| < U32
    ensures var s := After(events);
            var t := After(events + [Arrived(k, there), Returned(|s.acks|, back, now, random)]);
            && t.arrivals == s.arrivals + [k + 1] && t.steps == s.steps + [Acked(now, k + 1, random)]
  {
    hide ParseHeader, PacketHeader;
    var s, e, f := After(events), Arrived(k, there), Returned(|After(events).acks|, back, now, random);
    assert (events + [e, f])[..|events| + 1] == events + [e] && (events + [e])[..|events|] == events;
    RunLinked(events);
    HeaderReadsBackIff(TYPE_STREAM, k + 1, there);
    PeerAckArrives(k + 1, back, now, random);
    assert After(events + [e]) == Happens(s, e);
    assert Happens(s, e).acks[|s.acks|] == PacketHeader(TYPE_ACK, k + 1);
  }

  // ---------------------------------------------------------------------------
  // Credits
  // ---------------------------------------------------------------------------

  /** A credited number was acknowledged. */
  lemma {:induction false} CreditIsAcked(steps: seq<Step>, q: nat)
    requires ValidRun(steps) && q in CreditsOf(steps)
    ensures exists i :: 0 <= i < |steps| && steps[i].Acked? && steps[i].seqno == q
  {
    hide Run, Credit, BbrRuns.Inv, AllRecorded, BbrModel.UpdateModes, InLiveCluster, Next, Log;
    var before, step := steps[..|steps| - 1], steps[|steps| - 1];
    ValidBefore(steps);
    if q in CreditsOf(before) {
      CreditIsAcked(before, q);
      var i :| 0 <= i < |before| && before[i].Acked? && before[i].seqno == q;
      assert steps[i].seqno == q;
    } else {
      RunInv(before);
      RunRecords(before);
      NextIsLog(before);
      CreditExactly(Run(before), step.now, step.seqno, step.random, Log(before));
    }
  }

  lemma NextIsLog(steps: seq<Step>)
    ensures Next(steps) == |Log(steps)| + 1
  {
  }

  /** The bytes of the packets that arrived, each counted once. */
  function BytesArrived(log: seq<Step>, arrivals: seq<nat>): nat {
    if log == [] then 0 else
    var n, p := |log|, log[|log| - 1];
    BytesArrived(log[..n - 1], arrivals) + (if n in arrivals && p.Sent? then p.bytes else 0)
  }

  lemma {:induction false} ArrivedAtMostSent(log: seq<Step>, arrivals: seq<nat>)
    ensures BytesArrived(log, arrivals) <= BytesSent(log)
    ensures (forall n :: 1 <= n <= |log| ==> n in arrivals) ==> BytesArrived(log, arrivals) == BytesSent(log)
  {
    if log != [] {
      ArrivedAtMostSent(log[..|log| - 1], arrivals);
    }
  }

  lemma {:induction false} DistinctArrived(log: seq<Step>, qs: seq<nat>, arrivals: seq<nat>)
    requires forall k :: 0 <= k < |qs| ==> 1 <= qs[k] <= |log| && qs[k] in arrivals
    requires Increasing(qs)
    ensures BytesOf(log, qs) <= BytesArrived(log, arrivals)
    decreases |log|
  {
    if log != [] && qs != [] {
      var n := |log| - 1;
      var rest := if qs[|qs| - 1] == |log| then qs[..|qs| - 1] else qs;
      DistinctArrived(log[..n], rest, arrivals);
      BytesOfPrefix(log, n, rest);
    }
  }

  /** Whatever the network does, only packets that were sent arrive, only packets that arrived are
      acknowledged and credited, and the bytes credited are at most those that arrived. */
  lemma CreditedArrived(events: seq<Event>)
    requires ValidRun(After(events).steps)
    ensures var s := After(events);
            && (forall n :: n in s.arrivals ==> 1 <= n <= |Log(s.steps)|)
            && (forall q :: q in CreditsOf(s.steps) ==> q in s.arrivals)
            && (forall k :: 0 <= k < |CreditsOf(s.steps)| ==> 1 <= CreditsOf(s.steps)[k] <= |Log(s.steps)|)
            && BytesOf(Log(s.steps), CreditsOf(s.steps)) <= BytesArrived(Log(s.steps), s.arrivals)
            && BytesArrived(Log(s.steps), s.arrivals) <= BytesSent(Log(s.steps))
  {
    hide After, CreditsOf, Log, Next;
    var s := After(events);
    SentIsNext(events);
    RunLinked(events);
    NextIsLog(s.steps);
    forall q | q in CreditsOf(s.steps)
      ensures q in s.arrivals
    {
      CreditIsAcked(s.steps, q);
    }
    CreditedOnce(s.steps);
    DistinctArrived(Log(s.steps), CreditsOf(s.steps), s.arrivals);
    ArrivedAtMostSent(Log(s.steps), s.arrivals);
  }

  /** So for the applications themselves: the sender credits only what the receiver got, and a packet
      that is credited although the receiver holds it for lost came after a later one. */
  lemma AppsCreditArrived(app: MyBbrSenderApp, peer: MyBbrReceiverApp, events: seq<Event>, q: nat)
    requires app.Valid() && peer.Valid() && q in CreditsOf(app.steps)
    requires app.steps == After(events).steps && peer.arrivals == After(events).arrivals
    ensures q in peer.arrivals
    ensures q in peer.lossLog ==>
              exists k :: 0 <= k < |peer.arrivals| && peer.arrivals[k] == q && q <= Base(peer.arrivals[..k])
  {
    hide MyBbrSenderApp.Valid, After, CreditsOf, Losses, Base, Record;
    AppRun(app);
    CreditedArrived(events);
    LossesExact(peer.arrivals);
    var k :| 0 <= k < |peer.arrivals| && peer.arrivals[k] == q;
    if q > Base(peer.arrivals[..k]) {
      RecordKept(peer.arrivals, k);
    }
  }

  lemma AppRun(app: MyBbrSenderApp)
    requires app.Valid()
    ensures ValidRun(app.steps)
  {
  }

  lemma {:induction false} RecordKept(arrivals: seq<nat>, k: nat)
    requires k < |arrivals| && arrivals[k] > Base(arrivals[..k])
    ensures Record(arrivals, arrivals[k])
  {
    hide Base;
    var before := arrivals[..|arrivals| - 1];
    if k < |before| {
      assert before[..k] == arrivals[..k];
      RecordKept(before, k);
    }
  }
}
