/** The pacer of quic-test/mybbr/my_pacing_sender.cc. Times are microseconds. */
module Pacing {
  import opened BbrSender
  import opened Numbers
  import BbrModel

  const ALARM_GRANULARITY: nat := 1000

  /** The time a rate takes for so many bytes: libquic's arithmetic is not part of this model. */
  const TRANSFER_TIME: (nat, nat) -> nat

  /** One packet: when it was sent and how long it takes at the pacing rate of that moment. */
  datatype Send = Send(now: int, delay: nat)

  /** The ideal time of the packet after these; `start` before the first. */
  function Ideal(sends: seq<Send>, start: int): int {
    if sends == [] then start else
    var last := sends[|sends| - 1];
    Max(Ideal(sends[..|sends| - 1], start) + last.delay, last.now + last.delay)
  }

  /** How long to wait, given the ideal time. */
  function Wait(ideal: int, now: int): int {
    if ideal > now + ALARM_GRANULARITY then ideal - now else 0
  }

  function SumDelays(sends: seq<Send>): nat {
    if sends == [] then 0 else SumDelays(sends[..|sends| - 1]) + sends[|sends| - 1].delay
  }

  /** Every packet was sent when the pacer did not ask to wait. */
  ghost predicate Paced(sends: seq<Send>, start: int) {
    forall k :: 0 <= k < |sends| ==> Wait(Ideal(sends[..k], start), sends[k].now) == 0
  }

  class MyPacingSender {
    var idealNextPacketSendTime: nat
    /** Null until `set_sender`; without a sender the pacer does nothing. */
    var sender: MyBbrSender?
    ghost var sends: seq<Send>

    /** The clusters the sender owns. */
    ghost function Clusters(): seq<SentClusterInfo>
      reads this, sender
    {
      if sender == null then [] else sender.chain
    }

    /** `nextNumber` is the next packet number to be sent. */
    ghost predicate Valid(nextNumber: nat)
      reads this, sender, Clusters()
    {
      idealNextPacketSendTime == Ideal(sends, 0) && (sender != null ==> sender.Valid(nextNumber))
    }

    constructor ()
      ensures Valid(1) && sends == [] && sender == null
    {
      idealNextPacketSendTime := 0;
      sender := null;
      sends := [];
    }

    method SetSender(s: MyBbrSender, ghost nextNumber: nat)
      requires Valid(nextNumber) && s.Valid(nextNumber)
      modifies this`sender
      ensures Valid(nextNumber) && sender == s && sends == old(sends)
    {
      sender := s;
    }

    /** `rate` is the pacing rate the sender answers. */
    method OnPacketSent(now: nat, packetNumber: nat, bytes: nat, rate: nat)
      requires Valid(packetNumber) && packetNumber + 1 < U32
      modifies this`idealNextPacketSendTime, this`sends, sender, Clusters()
      ensures Valid(packetNumber + 1)
      ensures sends == if sender != null then old(sends) + [Send(now, TRANSFER_TIME(rate, bytes))] else old(sends)
      ensures sender != null ==>
                && sender.View() == BbrModel.OnPacketSent(old(sender.View()), now, packetNumber, bytes)
                && old(sender.chain) <= sender.chain
                && forall i :: |old(sender.chain)| <= i < |sender.chain| ==> fresh(sender.chain[i])
    {
      hide MyBbrSender.Valid, BbrModel.OnPacketSent;
      if sender != null {
        sender.OnPacketSent(now, packetNumber, bytes);
        var delay := TRANSFER_TIME(rate, bytes);
        idealNextPacketSendTime := Max(idealNextPacketSendTime + delay, now + delay);
        sends := sends + [Send(now, delay)];
        assert sends[..|sends| - 1] == old(sends);
      }
    }

    method OnCongestionEvent(now: nat, packetNumber: nat, random: nat, ghost nextNumber: nat)
      requires Valid(nextNumber) && now != 0
      modifies sender, Clusters()
      ensures Valid(nextNumber) && sends == old(sends)
      ensures sender != null ==>
                && sender.View() == BbrModel.OnAck(old(sender.View()), now, packetNumber, random)
                && |sender.chain| <= |old(sender.chain)|
                && sender.chain == old(sender.chain)[|old(sender.chain)| - |sender.chain|..]
    {
      hide MyBbrSender.Valid, BbrModel.OnAck;
      if sender != null {
        sender.OnAck(now, packetNumber, random, nextNumber);
      }
    }

    method TimeUntilSend(now: nat) returns (wait: nat)
      requires idealNextPacketSendTime == Ideal(sends, 0)
      ensures wait == Wait(Ideal(sends, 0), now)
    {
      if idealNextPacketSendTime > now + ALARM_GRANULARITY {
        wait := idealNextPacketSendTime - now;
      } else {
        wait := 0;
      }
    }
  }

  /** After packet `i` the ideal time is at least its time and all delays since. */
  lemma {:induction false} IdealKeepsUp(sends: seq<Send>, start: int, i: nat, j: nat)
    requires i < j <= |sends|
    ensures Ideal(sends[..j], start) >= sends[i].now + SumDelays(sends[i..j])
    decreases j
  {
    assert sends[..j][..j - 1] == sends[..j - 1];
    assert sends[i..j][..j - 1 - i] == sends[i..j - 1];
    if i < j - 1 {
      IdealKeepsUp(sends, start, i, j - 1);
    }
  }

  /** The rate bound: whatever the pacing rates, the packets sent from `i` to just before `j` take
      no longer than the time between the two and one alarm granularity. The clock may do anything. */
  lemma PacingBound(sends: seq<Send>, start: int, i: nat, j: nat)
    requires Paced(sends, start) && i < j < |sends|
    ensures SumDelays(sends[i..j]) <= sends[j].now - sends[i].now + ALARM_GRANULARITY
  {
    IdealKeepsUp(sends, start, i, j);
    assert Wait(Ideal(sends[..j], start), sends[j].now) == 0;
  }

  /** The ideal time is that of the last packet and its delay, or earlier packets' delays pile up:
      some packet starts the busy period the ideal time is the end of. */
  lemma {:induction false} IdealIsBusyPeriod(sends: seq<Send>, start: int) returns (i: nat)
    ensures i <= |sends|
    ensures Ideal(sends, start) == (if i == 0 then start else sends[i - 1].now) +
                                   SumDelays(sends[if i == 0 then 0 else i - 1..])
  {
    var n := |sends|;
    if n == 0 {
      i := 0;
    } else {
      var last := sends[n - 1];
      i := IdealIsBusyPeriod(sends[..n - 1], start);
      var from := if i == 0 then 0 else i - 1;
      if Ideal(sends[..n - 1], start) < last.now {
        i := n;
        assert sends[n - 1..][..0] == [];
      } else {
        assert sends[from..][..n - 1 - from] == sends[..n - 1][from..];
      }
    }
  }

  /** Waiting for as long as the pacer asks is enough. */
  lemma WaitIsEnough(ideal: int, now: int)
    ensures Wait(ideal, now) >= 0 && Wait(ideal, now + Wait(ideal, now)) == 0
  {
  }

  /** The bound cannot be lowered: a whole granularity can be gained. */
  lemma PacingBoundIsTight()
    ensures var sends := [Send(0, 1000 + ALARM_GRANULARITY), Send(1000, 0)];
            Paced(sends, 0) && SumDelays(sends[0..1]) == sends[1].now - sends[0].now + ALARM_GRANULARITY
  {
    var sends := [Send(0, 1000 + ALARM_GRANULARITY), Send(1000, 0)];
    assert sends[..0] == [] && sends[..1] == [sends[0]] && sends[0..1] == [sends[0]];
    assert [sends[0]][..0] == [];
  }
}
