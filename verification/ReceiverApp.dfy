/** The receiving application of quic-test/mybbr: it acknowledges every data packet and records the
    numbers it skips as lost. */
module ReceiverApp {
  import opened AppPackets
  import opened Bytes
  import opened Numbers

  /** The largest number that has arrived. */
  function Base(arrivals: seq<nat>): nat {
    if arrivals == [] then 0 else
    var base, last := Base(arrivals[..|arrivals| - 1]), arrivals[|arrivals| - 1];
    if last >= base + 1 then last else base
  }

  /** The numbers from `from` to just before `end`. */
  function Range(from: nat, end: nat): seq<nat> {
    seq(if from < end then end - from else 0, (i: nat) => from + i)
  }

  /** The losses recorded, in order. */
  function Losses(arrivals: seq<nat>): seq<nat> {
    if arrivals == [] then [] else
    var before, last := arrivals[..|arrivals| - 1], arrivals[|arrivals| - 1];
    Losses(before) + Range(Base(before) + 1, last)
  }

  /** The number of a data packet; any other packet tells none. */
  function Arriving(data: seq<Byte>): seq<nat> {
    var (kind, seqno) := ParseHeader(data);
    if kind == TYPE_STREAM || kind == TYPE_PADDING then [seqno] else []
  }

  class MyBbrReceiverApp {
    var baseSeq: nat
    var recvBytes: nat
    /** What was sent to the peer and what was written to the loss log. */
    var network: seq<seq<Byte>>
    var lossLog: seq<nat>
    ghost var arrivals: seq<nat>

    ghost predicate Valid()
      reads this
    {
      baseSeq == Base(arrivals) && lossLog == Losses(arrivals)
    }

    constructor ()
      ensures Valid() && arrivals == [] && network == [] && recvBytes == 0
    {
      baseSeq, recvBytes, network, lossLog, arrivals := 0, 0, [], [], [];
    }

    method SendAck(seqno: nat)
      modifies this`network
      ensures network == old(network) + [PacketHeader(TYPE_ACK, seqno)]
    {
      var packet := WriteHeader(TYPE_ACK, seqno, MAX_PACKET_SIZE);
      network := network + [packet];
    }

    /** A data packet is acknowledged under its number and counted; anything else only adds bytes. */
    method OnIncomingData(data: seq<Byte>)
      requires Valid()
      modifies this
      ensures Valid() && recvBytes == old(recvBytes) + |data|
      ensures arrivals == old(arrivals) + Arriving(data)
      ensures network == old(network) +
                if Arriving(data) == [] then [] else [PacketHeader(TYPE_ACK, Arriving(data)[0])]
    {
      hide ParseHeader, PacketHeader, Range;
      recvBytes := recvBytes + |data|;
      var kind, seqno := ReadHeader(data);
      if kind == TYPE_STREAM || kind == TYPE_PADDING {
        SendAck(seqno);
        var i := baseSeq + 1;
        if seqno > baseSeq + 1 {
          while i < seqno
            invariant i <= seqno && baseSeq == old(baseSeq) && arrivals == old(arrivals)
            invariant lossLog + Range(i, seqno) == old(lossLog) + Range(baseSeq + 1, seqno)
            invariant network == old(network) + [PacketHeader(TYPE_ACK, seqno)]
            invariant recvBytes == old(recvBytes) + |data|
          {
            RangeStep(i, seqno);
            Extend(lossLog, i, Range(i + 1, seqno));
            lossLog := lossLog + [i];
            i := i + 1;
          }
        }
        arrivals := arrivals + [seqno];
        assert arrivals[..|arrivals| - 1] == old(arrivals);
        EmptyRange(i, seqno);
        if seqno >= baseSeq + 1 {
          baseSeq := seqno;
        }
      }
    }
  }

  lemma RangeStep(i: nat, end: nat)
    requires i < end
    ensures Range(i, end) == [i] + Range(i + 1, end)
  {
  }

  lemma EmptyRange(i: nat, end: nat)
    ensures i >= end ==> Range(i, end) == []
  {
  }

  lemma Extend(log: seq<nat>, i: nat, more: seq<nat>)
    ensures log + ([i] + more) == log + [i] + more
  {
  }

  lemma RangeIs(from: nat, end: nat)
    ensures forall n :: n in Range(from, end) <==> from <= n < end
    ensures Increasing(Range(from, end))
  {
    forall n | from <= n < end
      ensures n in Range(from, end)
    {
      assert Range(from, end)[n - from] == n;
    }
  }

  lemma IncreasingJoin(a: seq<nat>, b: seq<nat>, middle: nat)
    requires Increasing(a) && Increasing(b)
    requires (forall n :: n in a ==> n <= middle) && (forall n :: n in b ==> n > middle)
    ensures Increasing(a + b)
  {
    forall i, j | 0 <= i < j < |a + b|
      ensures (a + b)[i] < (a + b)[j]
    {
      if i < |a| <= j {
        assert a[i] in a && b[j - |a|] in b;
      }
    }
  }

  /** `n` arrived when it was larger than every number before. */
  predicate Record(arrivals: seq<nat>, n: nat) {
    arrivals != [] &&
    var before, last := arrivals[..|arrivals| - 1], arrivals[|arrivals| - 1];
    Record(before, n) || (n == last && last > Base(before))
  }

  lemma NothingIncreases()
    ensures Increasing([])
  {
  }

  /** Loss accounting over any run: the losses are, in strictly increasing order and each once,
      exactly the numbers from 1 to the largest arrival that did not arrive as a new maximum. */
  lemma {:induction false} LossesExact(arrivals: seq<nat>)
    ensures forall n :: n in Losses(arrivals) <==> 1 <= n <= Base(arrivals) && !Record(arrivals, n)
    ensures Increasing(Losses(arrivals))
  {
    hide Range, Increasing;
    if arrivals == [] {
      NothingIncreases();
    } else {
      var before, last := arrivals[..|arrivals| - 1], arrivals[|arrivals| - 1];
      LossesExact(before);
      RangeIs(Base(before) + 1, last);
      IncreasingJoin(Losses(before), Range(Base(before) + 1, last), Base(before));
      forall n: nat
        ensures n in Losses(arrivals) <==> 1 <= n <= Base(arrivals) && !Record(arrivals, n)
      {
        RecordsAtMost(before, n);
      }
    }
  }

  lemma {:induction false} RecordsAtMost(arrivals: seq<nat>, n: nat)
    ensures Record(arrivals, n) ==> 1 <= n <= Base(arrivals) && n in arrivals
  {
    if arrivals != [] {
      RecordsAtMost(arrivals[..|arrivals| - 1], n);
    }
  }

  lemma {:induction false} BaseCovers(arrivals: seq<nat>, k: nat)
    requires k < |arrivals|
    ensures arrivals[k] <= Base(arrivals)
  {
    if k < |arrivals| - 1 {
      BaseCovers(arrivals[..|arrivals| - 1], k);
    }
  }

  /** The base is the largest number that arrived, or 0. */
  lemma {:induction false} BaseIsLargest(arrivals: seq<nat>)
    ensures forall k :: 0 <= k < |arrivals| ==> arrivals[k] <= Base(arrivals)
    ensures Base(arrivals) == 0 || Base(arrivals) in arrivals
  {
    if arrivals != [] {
      BaseIsLargest(arrivals[..|arrivals| - 1]);
    }
  }

  /** No packet arrives for the first time after a later one. */
  ghost predicate InOrder(arrivals: seq<nat>) {
    forall k :: 0 <= k < |arrivals| && 1 <= arrivals[k] <= Base(arrivals[..k]) ==> arrivals[k] in arrivals[..k]
  }

  /** What is recorded as lost is what never arrived, exactly if packets arrive in order: a packet
      that comes late stays lost. */
  lemma LossesTrueIff(arrivals: seq<nat>)
    ensures (forall n :: n in Losses(arrivals) <==> 1 <= n <= Base(arrivals) && n !in arrivals) <==> InOrder(arrivals)
  {
    hide Losses, Base, Record;
    LossesExact(arrivals);
    forall n: nat
      ensures Record(arrivals, n) ==> n in arrivals
    {
      RecordsAtMost(arrivals, n);
    }
    if InOrder(arrivals) {
      forall n: nat | n in arrivals && n >= 1
        ensures Record(arrivals, n)
      {
        FirstIsRecord(arrivals, n);
      }
    } else {
      var k :| 0 <= k < |arrivals| && 1 <= arrivals[k] <= Base(arrivals[..k]) && arrivals[k] !in arrivals[..k];
      LateIsNoRecord(arrivals, k);
      BaseCovers(arrivals, k);
      assert arrivals[k] in Losses(arrivals) && arrivals[k] in arrivals;
    }
  }

  /** Packets 1, 3 and 2 arrive in this order: 2 is recorded as lost. */
  lemma LateExample()
    ensures Losses([1, 3, 2]) == [2] && 2 in [1, 3, 2]
  {
    assert [1, 3, 2][..2] == [1, 3] && [1, 3][..1] == [1] && [1][..0] == [];
    assert Base([1]) == 1 && Base([1, 3]) == 3;
    assert Losses([1]) == Range(1, 1) == [] && Losses([1, 3]) == Range(2, 3) == [2];
  }

  /** In order, the first copy of a packet is a new maximum. */
  lemma {:induction false} FirstIsRecord(arrivals: seq<nat>, n: nat)
    requires InOrder(arrivals) && n in arrivals && n >= 1
    ensures Record(arrivals, n)
  {
    hide Base, InOrder;
    var before, last := arrivals[..|arrivals| - 1], arrivals[|arrivals| - 1];
    InOrderBefore(arrivals);
    if n in before {
      FirstIsRecord(before, n);
    } else {
      assert n == last;
    }
  }

  lemma InOrderBefore(arrivals: seq<nat>)
    requires InOrder(arrivals) && arrivals != []
    ensures InOrder(arrivals[..|arrivals| - 1])
    ensures var before, last := arrivals[..|arrivals| - 1], arrivals[|arrivals| - 1];
            last >= 1 && last !in before ==> last > Base(before)
  {
    hide Base;
    var before := arrivals[..|arrivals| - 1];
    forall k | 0 <= k < |before| && 1 <= before[k] <= Base(before[..k])
      ensures before[k] in before[..k]
    {
      assert before[..k] == arrivals[..k];
    }
  }

  /** A packet that came late was never a new maximum. */
  lemma {:induction false} LateIsNoRecord(arrivals: seq<nat>, k: nat)
    requires k < |arrivals| && 1 <= arrivals[k] <= Base(arrivals[..k]) && arrivals[k] !in arrivals[..k]
    ensures !Record(arrivals, arrivals[k])
  {
    hide Base;
    var before := arrivals[..|arrivals| - 1];
    if k == |before| {
      RecordsAtMost(before, arrivals[k]);
    } else {
      assert before[..k] == arrivals[..k] && before[k] == arrivals[k];
      LateIsNoRecord(before, k);
      BaseCovers(before, k);
    }
  }
}
