/** The sending application of quic-test/mybbr: it numbers its packets, sends one whenever the pacer
    asks for no wait, and feeds acknowledgements back. Its state is always that of a run of the
    sender (`BbrHistory`) and of a paced sequence of packets (`Pacing`). */
module SenderApp {
  import opened AckFrames
  import opened AppPackets
  import opened BbrHistory
  import opened BbrSender
  import opened Bytes
  import opened Numbers
  import opened Pacing
  import opened Wrappers

  /** The length `SendFakePacket` reports for a packet: what its header leaves of 1400 bytes. */
  function Payload(seqno: nat): (n: nat)
    ensures n + |PacketHeader(TYPE_STREAM, seqno)| == 1400 && 1393 <= n <= 1398
  {
    HeaderLength(seqno);
    MAX_PACKET_SIZE - |PacketHeader(TYPE_STREAM, seqno)|
  }

  lemma HeaderLength(seqno: nat)
    ensures 2 <= |PacketHeader(TYPE_STREAM, seqno)| <= 7
  {
  }

  class MyBbrSenderApp {
    var seqno: nat
    const pacing: MyPacingSender
    const cc: MyBbrSender
    /** The headers of the packets sent. */
    var network: seq<seq<Byte>>
    ghost var steps: seq<Step>

    ghost predicate Valid()
      reads this, pacing, pacing.sender, pacing.Clusters(), cc, cc.chain
    {
      && pacing.sender == cc && pacing.Valid(seqno) && Paced(pacing.sends, 0)
      && seqno == Next(steps) && ValidRun(steps) && cc.View() == Run(steps)
    }

    constructor ()
      ensures Valid() && steps == [] && network == [] && pacing.sends == []
      ensures fresh(pacing) && fresh(cc) && fresh(cc.chain)
    {
      hide MyBbrSender.Valid;
      seqno, network, steps := 1, [], [];
      cc := new MyBbrSender();
      pacing := new MyPacingSender();
      new;
      pacing.SetSender(cc, 1);
    }

    /** One packet goes out under the next number. */
    method SendFakePacket(now: nat, rate: nat)
      requires Valid() && now != 0 && seqno + 1 < U32
      requires Wait(Ideal(pacing.sends, 0), now) == 0
      modifies this, pacing, cc, cc.chain
      ensures Valid() && seqno == old(seqno) + 1
      ensures network == old(network) + [PacketHeader(TYPE_STREAM, old(seqno))]
      ensures steps == old(steps) + [Sent(now, Payload(old(seqno)))]
      ensures pacing.sends == old(pacing.sends) + [Send(now, TRANSFER_TIME(rate, Payload(old(seqno))))]
      ensures old(cc.chain) <= cc.chain && forall i :: |old(cc.chain)| <= i < |cc.chain| ==> fresh(cc.chain[i])
    {
      hide MyBbrSender.Valid, BbrModel.OnPacketSent, Run, Ideal, PacketHeader, Paced, Next, ValidRun;
      HeaderLength(seqno);
      var header := WriteHeader(TYPE_STREAM, seqno, MAX_PACKET_SIZE);
      network := network + [header];
      var payload := MAX_PACKET_SIZE - |header|;
      SentStep(steps, now, payload);
      PacedSnoc(pacing.sends, Send(now, TRANSFER_TIME(rate, payload)));
      pacing.OnPacketSent(now, seqno, payload, rate);
      steps := steps + [Sent(now, payload)];
      seqno := seqno + 1;
    }

    /** An acknowledgement goes to the sender; any other packet is ignored. */
    method ProcessAckFrame(now: nat, data: seq<Byte>, random: nat)
      requires Valid() && now != 0
      modifies this`steps, cc, cc.chain
      ensures Valid()
      ensures |cc.chain| <= |old(cc.chain)| && cc.chain == old(cc.chain)[|old(cc.chain)| - |cc.chain|..]
      ensures var (kind, number) := ParseHeader(data);
              steps == if kind == TYPE_ACK then old(steps) + [Acked(now, number, random)] else old(steps)
    {
      hide MyBbrSender.Valid, BbrModel.OnAck, Run, Ideal, ParseHeader;
      var kind, number := ReadHeader(data);
      if kind == TYPE_ACK {
        AckedStep(steps, now, number, random);
        pacing.OnCongestionEvent(now, number, random, seqno);
        steps := steps + [Acked(now, number, random)];
      }
    }

    /** One round of the loop. `received` is the packet the socket had, if any: a packet is sent if no
        wait is asked for, and then an acknowledgement that was received reaches the sender. */
    method Process(now: nat, received: Option<seq<Byte>>, rate: nat, random: nat)
      requires Valid() && now != 0 && seqno + 1 < U32
      modifies this, pacing, cc, cc.chain
      ensures Valid()
      ensures var sends := Wait(Ideal(old(pacing.sends), 0), now) == 0;
              && seqno == old(seqno) + (if sends then 1 else 0)
              && network == old(network) + (if sends then [PacketHeader(TYPE_STREAM, old(seqno))] else [])
              && pacing.sends == old(pacing.sends)
                   + (if sends then [Send(now, TRANSFER_TIME(rate, Payload(old(seqno))))] else [])
              && steps == old(steps) + (if sends then [Sent(now, Payload(old(seqno)))] else [])
                   + AckSteps(received, now, random)
      ensures cc.lastAckSeq == match received
                               case None => old(cc.lastAckSeq)
                               case Some(data) =>
                                 var (kind, number) := ParseHeader(data);
                                 if kind == TYPE_ACK then Max(old(cc.lastAckSeq), number) else old(cc.lastAckSeq)
    {
      hide MyBbrSender.Valid, Run, Ideal, ParseHeader, PacketHeader, Paced, ValidRun, Wait;
      LastAfterLoop(steps, now, Payload(seqno), received, random);
      var wait := pacing.TimeUntilSend(now);
      if wait == 0 {
        SendFakePacket(now, rate);
      }
      if received.Some? {
        ProcessAckFrame(now, received.value, random);
      }
    }
  }

  /** What a received packet adds to the run. */
  function AckSteps(received: Option<seq<Byte>>, now: nat, random: nat): seq<Step> {
    match received
    case None => []
    case Some(data) =>
      var (kind, number) := ParseHeader(data);
      if kind == TYPE_ACK then [Acked(now, number, random)] else []
  }

  /** Sending leaves the last acknowledged number, an acknowledgement raises it to its own. */
  lemma LastAfter(steps: seq<Step>, step: Step)
    ensures Run(steps + [step]).lastAckSeq
         == if step.Acked? then Max(Run(steps).lastAckSeq, step.seqno) else Run(steps).lastAckSeq
  {
    hide BbrModel.OnPacketSent, BbrModel.OnAck;
    assert (steps + [step])[..|steps|] == steps;
    match step
    case Sent(now, bytes) => SendKeepsLast(Run(steps), now, Next(steps), bytes);
    case Acked(now, seqno, random) => AckMovesOn(Run(steps), now, seqno, random);
  }

  lemma LastAfterLoop(steps: seq<Step>, now: nat, bytes: nat, received: Option<seq<Byte>>, random: nat)
    ensures var more, acks := steps + [Sent(now, bytes)], AckSteps(received, now, random);
            && Run(more).lastAckSeq == Run(steps).lastAckSeq
            && Run(steps + [] + acks).lastAckSeq == Run(more + acks).lastAckSeq
            && Run(more + acks).lastAckSeq == (if acks == [] then Run(steps).lastAckSeq
                                               else Max(Run(steps).lastAckSeq, acks[0].seqno))
  {
    hide Run, ParseHeader;
    var more, acks := steps + [Sent(now, bytes)], AckSteps(received, now, random);
    LastAfter(steps, Sent(now, bytes));
    assert steps + [] == steps && more + [] == more;
    if acks != [] {
      LastAfter(more, acks[0]);
      LastAfter(steps, acks[0]);
    }
  }

  /** An acknowledgement as the peer writes it, for a number below 2^48, reaches the sender with that
      number. */
  lemma PeerAckArrives(n: nat, tail: seq<Byte>, now: nat, random: nat)
    ensures AckSteps(Some(PacketHeader(TYPE_ACK, n) + tail), now, random) == [Acked(now, n, random)]
       <==> n < PACKET_NUMBER_LIMIT
  {
    hide ParseHeader, PacketHeader;
    HeaderReadsBackIff(TYPE_ACK, n, tail);
    AckKindReadsBack(n, tail);
  }

  lemma AckKindReadsBack(n: nat, tail: seq<Byte>)
    ensures ParseHeader(PacketHeader(TYPE_ACK, n) + tail).0 == TYPE_ACK
  {
    FlagsRead(TYPE_ACK, MinPacketNumberLength(n));
  }

  /** Whatever the application has been through, its packets kept the rate and no more bytes were
      credited than it sent. */
  lemma AppKeepsRate(app: MyBbrSenderApp, i: nat, j: nat)
    requires app.Valid() && i < j < |app.pacing.sends|
    ensures var sends := app.pacing.sends;
            SumDelays(sends[i..j]) <= sends[j].now - sends[i].now + ALARM_GRANULARITY
    ensures (forall k :: 0 <= k < |CreditsOf(app.steps)| ==> 1 <= CreditsOf(app.steps)[k] <= |Log(app.steps)|)
            && BytesOf(Log(app.steps), CreditsOf(app.steps)) <= BytesSent(Log(app.steps))
  {
    hide MyBbrSender.Valid, Run, Ideal, CreditsOf, Log;
    PacingBound(app.pacing.sends, 0, i, j);
    CreditedAtMostSent(app.steps);
  }

  lemma SentStep(steps: seq<Step>, now: nat, bytes: nat)
    requires ValidRun(steps) && now != 0 && Next(steps) + 1 < U32
    ensures var more := steps + [Sent(now, bytes)];
            && ValidRun(more) && Next(more) == Next(steps) + 1
            && Run(more) == BbrModel.OnPacketSent(Run(steps), now, Next(steps), bytes)
  {
    hide BbrModel.OnPacketSent;
    assert (steps + [Sent(now, bytes)])[..|steps|] == steps;
  }

  lemma AckedStep(steps: seq<Step>, now: nat, number: nat, random: nat)
    requires ValidRun(steps) && now != 0
    ensures var more := steps + [Acked(now, number, random)];
            && ValidRun(more) && Next(more) == Next(steps)
            && Run(more) == BbrModel.OnAck(Run(steps), now, number, random)
  {
    hide BbrModel.OnAck;
    assert (steps + [Acked(now, number, random)])[..|steps|] == steps;
  }

  lemma PacedSnoc(sends: seq<Send>, send: Send)
    requires Paced(sends, 0) && Wait(Ideal(sends, 0), send.now) == 0
    ensures Paced(sends + [send], 0)
  {
    hide Ideal, Wait;
    var more := sends + [send];
    forall k | 0 <= k < |more|
      ensures Wait(Ideal(more[..k], 0), more[k].now) == 0
    {
      if k < |sends| {
        assert more[..k] == sends[..k];
      } else {
        assert more[..k] == sends;
      }
    }
  }
}
