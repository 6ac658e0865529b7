/** What the framer tells its visitor, as a log. The modelled visitor always asks to continue. */
module Visitor {
  import opened Bytes

  /** The error codes the framer raises while it processes frames. */
  datatype QuicError =
    | MissingPayload
    | InvalidFrameData
    | InvalidStreamData
    | InvalidAckData
    | InvalidRstStreamData
    | InvalidConnectionCloseData
    | InvalidGoAwayData
    | InvalidWindowUpdateData
    | InvalidBlockedData
    | InvalidStopWaitingData

  datatype Event =
    | OnAckFrameStart(largestAcked: nat, delay: nat)
    | OnAckRange(lo: nat, hi: nat, lastRange: bool)
    | OnStreamFrame(streamId: nat, fin: bool, offset: nat, data: seq<Byte>)
    | OnPaddingFrame(numPaddingBytes: nat)
    | OnRstStreamFrame(rstStreamId: nat, rstErrorCode: nat, rstOffset: nat)
    | OnConnectionCloseFrame(closeErrorCode: nat, details: seq<Byte>)
    | OnGoAwayFrame(goAwayErrorCode: nat, lastGoodStreamId: nat, reason: seq<Byte>)
    | OnWindowUpdateFrame(windowStreamId: nat, windowOffset: nat)
    | OnBlockedFrame(blockedStreamId: nat)
    | OnStopWaitingFrame(leastUnacked: nat)
    | OnPingFrame
    | OnError(error: QuicError)

  /** The outcome of processing some input: whether it was accepted, what was reported on the way,
      and the input left over. */
  datatype Parsed = Parsed(ok: bool, log: seq<Event>, rest: seq<Byte>)

  class EventLog {
    var log: seq<Event>

    constructor ()
      ensures log == []
    {
      log := [];
    }

    method Notify(e: Event)
      modifies this
      ensures log == old(log) + [e]
    {
      log := log + [e];
    }
  }
}
