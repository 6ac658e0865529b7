# Verified models of the transport code

This project models the parts of the repository that carry bytes and keep accounts of them, and proves what
they keep:

* **The QUIC framer** (`quic-test/myquic/my_quic_framer.cc`, version 43): the run-length coded ACK frame with
  its capped block list (`AckFrames`, `AckReading`, `AckRoundTrip`), the other frames (`Frames`,
  `FrameReading`), what is where in them (`FrameMeaning`), whole packets (`Packets`, `PacketRoundTrip`),
  predicted lengths (`FrameLengths`), packet numbers rebuilt from their low bytes (`PacketNumbers`), and the
  IETF form of the ACK frame (`VarInts`, `IetfAck`). Writer and reader are classes over a buffer and a cursor
  (`DataIo`), the visitor is a log of events (`Visitor`).
* **The BBR-style sender** (`quic-test/mybbr`): `BbrModel` says what one call does, on values; `BbrRuns`,
  `BbrHistory`, `BbrReports` and `BbrTimes` prove what every run keeps, which bandwidths are reported, and
  when modes and rounds change; `BbrSender` has the clusters on the heap with their links, the owning map and
  the list of raw pointers, and proves every method against the model. Each method of a cluster requires that
  the cluster has not been deleted, so the proof of the sender is also a proof that no freed cluster is used.
  `Pacing` is the pacer on top, `SenderApp` and `ReceiverApp` are the two applications (`AppPackets` their
  packets): the sending loop provides what the run theorems assume. `Exchange` puts the two together over a
  network that loses, repeats and reorders.
* **The razor stream and messages** (`mininet-webrtc`): the growing buffer as a queue of bytes (`BinStream`),
  the message formats with their checksum (`SimProto`, `SimCodec`, byte by byte in `MessageLayouts`; the
  message header and the checksum are those of `mininet-webrtc/razor/sim_proto.c`, lines 12-142, and the sizes
  those of `sim_proto.h`), cutting a video frame into segments and putting it together (`VideoFrames`), the
  sender around it (`VideoSender`), the path of a frame through both (`VideoDelivery`), and the sender's
  round-trip times (`RoundTrips`).
* **CRC-32** (`mininet-webrtc/razor/cf_crc32.c`): the table form against bit-serial division, and the errors
  it is sure to detect (`Crc32`); what a change of the last bytes of a message does to its checksum
  (`CrcTail`), and which changes of a datagram the check lets through (`Corruption`).

`Bytes`, `Numbers`, `Maps` and `Wrappers` hold big-endian numbers, minimum, maximum and type sizes, the least
key of a map, and an optional value. Check everything with `dafny verify dfyconfig.toml`.

## Where the code does less than it seems to

These are properties one would expect, each proved with the exact condition under which it holds and with a
lemma at an input for which it does not.

* An ACK frame can be written without error and yet not be readable: its type byte announces further blocks,
  but with no room for one there is no count byte (`AckRoundTrip.AckReadableIff`,
  `PacketRoundTrip.PacketReadableIff`; `AckRoundTrip.CrampedExample`).
* `GetSerializedFrameLength` can promise to cut an ACK frame that then does not fit
  (`FrameLengths.TruncationPromise`; `FrameLengths.BrokenPromiseExample`).
* `ProcessIetfAckFrame` gives every range the width of the first (`IetfAck.OwnExactIff`;
  `IetfAck.UnequalExample`); the comment above the writer describes the format of the RFC, which is what is
  written (`IetfAck.RfcReadsBack`).
* A string of 65535 bytes, or of a length that is cut to 65535, arrives in a stream but looks like an error,
  and one longer than 65535 bytes does not arrive whole (`BinStream.ErrorIsAmbiguous`,
  `BinStream.DataReadsBack`; `BinStream.LongStringExample`).
* A segment loses the high byte of its index if its total is below 256 (`SimProto.SegmentExactIff`;
  `SimProto.SegmentExample`); segments made by `SendVideo` never do (`VideoFrames.DeliveredWhole`).
* The message of a full segment is longer than the 1024 bytes the receiver reads into
  (`VideoFrames.FitsReceiverIff`; `VideoFrames.FullSegmentExample`): the round trip of a frame holds for
  messages, not for that buffer.
* A segment is dropped, and an older one sent in its place, if its key is still pending
  (`VideoSender.InsertedIff`; `VideoSender.DisplacedExample`).
* A round-trip time of 0 reads as no minimum and is forgotten by the next (`BbrTimes.MinRttIsLeastIff`;
  `BbrTimes.ZeroSampleExample`).
* The receiving application records packets that come late as lost (`ReceiverApp.LossesTrueIff`;
  `ReceiverApp.LateExample`).
* The reader of the IETF ACK frame subtracts without checks, so that a range can wrap
  (`IetfAck.RangeIsRealIff`; `IetfAck.WrapExample`).
* A request for padding of 2^31 bytes or more is not filled (`VideoSender.RequestFilledIff`;
  `VideoSender.UnfilledExample`).
* The maximum the congestion controller is told does not count the sample it is told with
  (`RoundTrips.ToldIsLargestIff`; `RoundTrips.StaleMaximumExample`).
* A round-trip time equal to the minimum does not renew the minimum's time stamp, although one slightly above
  it does (`BbrTimes.RenewedIff`; `BbrTimes.EqualSampleExample`).
* The check of a datagram lets one change of four consecutive bytes through, the one that
  `Corruption.Disguise` makes across the end of the message: the register works from the low bits up, and the
  checksum is sent from its most significant byte down (`Corruption.ChangePassesIff`;
  `Corruption.DisguisedPing`).


## Model

| member | source | states |
|---|---|---|
| AckFrames.BelowMeans | quic-test/myquic/my_quic_framer.cc:1103-1131 | the precondition on a frame's intervals, recursive as the loops use it, says exactly: non-empty, from 1 up, sorted, pairwise disjoint and not adjacent |
| AckFrames.MinLengthFits | quic-test/myquic/my_quic_framer.cc:1068-1081 | a number below 2^48 fits the width chosen for it, and no smaller width of the wire format holds it |
| AckFrames.GetAckFrameInfo | quic-test/myquic/my_quic_framer.cc:1103-1131 | the loop computes the scan that the lemmas below relate to the blocks written |
| AckFrames.GapBlocksAt | quic-test/myquic/my_quic_framer.cc:2582-2603 | a gap above 255 becomes empty blocks of 255 and one block with the rest of the gap and the length |
| AckFrames.ScanCounts | quic-test/myquic/my_quic_framer.cc:1103-1131 | the scan counts the blocks exactly unless it stopped at 255, although it goes by gaps and the writer by blocks |
| AckFrames.ScanCovers | quic-test/myquic/my_quic_framer.cc:1115-1129 | although the scan stops early, the largest length it saw bounds every block that can be emitted |
| AckFrames.AppendGapBlocks | quic-test/myquic/my_quic_framer.cc:2582-2620 | writes the blocks for one gap, as many as the cap still allows, and succeeds exactly if they fit |
| AckFrames.AppendAckBlocks | quic-test/myquic/my_quic_framer.cc:2567-2621 | the block loop emits exactly the first `num` blocks of the frame, cut across gaps where needed, and fails exactly if they do not fit |
| AckFrames.AppendAckFrameAndTypeByte | quic-test/myquic/my_quic_framer.cc:2473-2641 | succeeds exactly if the whole frame fits, and then has appended exactly the type byte, fields, capped blocks and timestamp count |
| AckRoundTrip.LengthsFit | quic-test/myquic/my_quic_framer.cc:1103-1131 | every block length that is written fits the width chosen from the early-stopped scan |
| AckRoundTrip.AckSize | quic-test/myquic/my_quic_framer.cc:2151-2178 | the bytes written are the fixed fields plus exactly the capped number of blocks |
| AckRoundTrip.FullSize | quic-test/myquic/my_quic_framer.cc:2151-2178 | with enough space the bytes written equal `GetAckFrameSize` and no block below the limit of 255 is dropped |
| AckRoundTrip.NeverTooLong | quic-test/myquic/my_quic_framer.cc:2479-2521 | however little space there is, once it is not negative the cut frame never passes the capacity |
| AckRoundTrip.CutOnlyIfFull | quic-test/myquic/my_quic_framer.cc:2492-2521 | a frame that drops blocks below the limit of 255 has no room for one more |
| AckReading.ProcessAckBlocks | quic-test/myquic/my_quic_framer.cc:1610-1671 | the block loop accepts, reports and leaves exactly what the parsing function says, on any bytes |
| AckReading.ProcessAckFrame | quic-test/myquic/my_quic_framer.cc:1516-1684 | the same for the whole frame |
| AckReading.AckIsSound | quic-test/myquic/my_quic_framer.cc:1516-1671 | on arbitrary bytes the reported ranges are within the largest acked, descending, pairwise disjoint, computed without underflow, and only the last can be marked last |
| AckReading.FirstBlockChecked | quic-test/myquic/my_quic_framer.cc:1591-1617 | on any bytes the first block decides: empty although packets are acked or blocks announced, or longer than the packets up to the largest acked, and the frame is refused without a range; otherwise it is the first range |
| AckReading.TimestampsSkipped | quic-test/myquic/my_quic_framer.cc:1686-1740 | five bytes are skipped for the first timestamp and three for any further one, or the frame is refused |
| AckReading.AckConsumes | quic-test/myquic/my_quic_framer.cc:1516-1684 | a frame never gives back more input than it was given |
| AckReading.ReplayIsReports | quic-test/myquic/my_quic_framer.cc:1620-1657 | replaying the first `k` blocks of a frame reports whole intervals only, whatever gap the cut falls into |
| AckReading.ReportsArePrefix | quic-test/myquic/my_quic_framer.cc:1620-1657 | what is reported is a prefix, newest first, of the frame's intervals |
| AckReading.ReportsComplete | quic-test/myquic/my_quic_framer.cc:1620-1657 | all intervals are reported exactly when no block was cut |
| AckReading.ReportsMarkLast | quic-test/myquic/my_quic_framer.cc:1650-1657 | the last report carries `last_range` exactly when the last written block is not empty, and no other report does |
| AckRoundTrip.AckReadsBack | quic-test/myquic/my_quic_framer.cc:1516-1684 | a written frame that had room for a block is read without error, its bytes are consumed exactly, and the log is that of its written blocks |
| AckRoundTrip.AckRoundTrips | quic-test/myquic/my_quic_framer.cc:2473-2641 | the round trip in the frame's terms: the ranges reported are its newest intervals, all of them if and only if no block was cut |
| AckRoundTrip.AckLogMarksLast | quic-test/myquic/my_quic_framer.cc:1653-1657 | over the whole frame, exactly the final report is marked last, and only when the final block is not empty |
| AckRoundTrip.AckReadableIff | quic-test/myquic/my_quic_framer.cc:2492-2559 | a frame written without error can be read if and only if it had room for one block after the first, because the type byte announces blocks that the count byte then lacks |
| AckRoundTrip.CrampedExample | quic-test/myquic/my_quic_framer.cc:2553-2559 | such frames exist: two packets out of three acknowledged, in seven bytes, which leave none for blocks |
| Frames.GetStreamIdSize | quic-test/myquic/my_quic_framer.cc:297-307 | the shifting loop gives the least number of bytes, at most four |
| Frames.GetStreamOffsetSize | quic-test/myquic/my_quic_framer.cc:310-337 | the shifting loop gives 0 for offset 0 and otherwise the least number of bytes but one, which has no code |
| Frames.StreamSizesFit | quic-test/myquic/my_quic_framer.cc:297-337 | ids and offsets fit the sizes chosen for them |
| Frames.AppendStreamFrame | quic-test/myquic/my_quic_framer.cc:2352-2392 | exact bytes, and success exactly if they fit and the length field can hold the length |
| Frames.AppendPaddingFrame | quic-test/myquic/my_quic_framer.cc:2914-2931 | exact bytes for a fixed count and for filling the packet; 0 bytes are refused |
| Frames.AppendStopWaitingFrame | quic-test/myquic/my_quic_framer.cc:2715-2738 | exact bytes; fails exactly if the delta does not fit the packet number width or the packet |
| Frames.AppendRstStreamFrame | quic-test/myquic/my_quic_framer.cc:2838-2862 | exact bytes, success exactly if they fit |
| Frames.AppendConnectionCloseFrame | quic-test/myquic/my_quic_framer.cc:2864-2875 | succeeds exactly if the frame fits, with the bytes that `ConnectionCloseLayout` describes: the details go out whole, or their first 256 bytes |
| Frames.AppendGoAwayFrame | quic-test/myquic/my_quic_framer.cc:2877-2891 | succeeds exactly if the frame fits, with the bytes that `GoAwayLayout` describes: the reason goes out whole, or its first 256 bytes |
| Frames.AppendWindowUpdateFrame | quic-test/myquic/my_quic_framer.cc:2893-2903 | exact bytes, success exactly if they fit |
| Frames.AppendBlockedFrame | quic-test/myquic/my_quic_framer.cc:2905-2912 | exact bytes, success exactly if they fit |
| FrameReading.ProcessStreamFrame | quic-test/myquic/my_quic_framer.cc:1382-1458 | accepts, reports and leaves exactly what the parsing function says, on any bytes |
| FrameReading.ProcessPaddingFrame | quic-test/myquic/my_quic_framer.cc:1947-1962 | takes the whole run of zero bytes and reports its length |
| FrameReading.ProcessRstStreamFrame | quic-test/myquic/my_quic_framer.cc:1829-1864 | as `ProcessStreamFrame`, with the error code clamped |
| FrameReading.ProcessConnectionCloseFrame | quic-test/myquic/my_quic_framer.cc:1866-1889 | as `ProcessStreamFrame`, with the error code clamped |
| FrameReading.ProcessGoAwayFrame | quic-test/myquic/my_quic_framer.cc:1891-1920 | as `ProcessStreamFrame`, with the error code clamped |
| FrameReading.ProcessWindowUpdateFrame | quic-test/myquic/my_quic_framer.cc:1922-1935 | as `ProcessStreamFrame` |
| FrameReading.ProcessBlockedFrame | quic-test/myquic/my_quic_framer.cc:1937-1945 | as `ProcessStreamFrame` |
| FrameReading.ProcessStopWaitingFrame | quic-test/myquic/my_quic_framer.cc:1811-1827 | as `ProcessStreamFrame`; a delta above the packet number is refused |
| FrameReading.ProcessFrame | quic-test/myquic/my_quic_framer.cc:1180-1351 | the dispatch on the type byte: every byte value goes to its frame or is refused |
| FrameReading.FrameConsumes | quic-test/myquic/my_quic_framer.cc:1180-1351 | no frame gives back more input than it was given, which is what makes the packet loop end |
| Packets.AppendFrame | quic-test/myquic/my_quic_framer.cc:446-514 | the loop body writes exactly the frame's bytes for the space left, and fails exactly if it cannot |
| Packets.BuildDataPacket | quic-test/myquic/my_quic_framer.cc:428-521 | returns 0 if some frame does not go in, and otherwise has written exactly the frames one after the other; only the last stream frame has no length |
| Packets.ProcessFrameData | quic-test/myquic/my_quic_framer.cc:1174-1352 | ends on any bytes, and reports exactly what parsing frame by frame reports, with the error of the frame that failed |
| Packets.FrameReadsBack | quic-test/myquic/my_quic_framer.cc:2228-2392 | every frame but padding (`PaddingReadsBack`), read where it was written, is reported as an event and leaves exactly what follows; `WrittenFrameTells` says what the event holds, `AckRoundTrips` what an ACK frame reports |
| FrameMeaning.WrittenFrameTells | quic-test/myquic/my_quic_framer.cc:1180-1351 | a written frame, neither padding nor an ACK, is read as one event with its own fields: details and reasons by their first 256 bytes, error codes up to the limit, MTU discovery as a ping, and the data of a last stream frame whole below 2^16 bytes |
| FrameMeaning.RstStreamLayout | quic-test/myquic/my_quic_framer.cc:2838-2862 | type, id, offset and code at their places, in 17 bytes |
| FrameMeaning.ConnectionCloseLayout | quic-test/myquic/my_quic_framer.cc:2864-2875 | type, code and length, then a prefix of the details as long as the smaller of 256 and their length |
| FrameMeaning.GoAwayLayout | quic-test/myquic/my_quic_framer.cc:2877-2891 | type, code, id and length, then a prefix of the reason as long as the smaller of 256 and its length |
| FrameMeaning.WindowUpdateLayout | quic-test/myquic/my_quic_framer.cc:2893-2903 | type, id and offset, in 13 bytes |
| FrameMeaning.BlockedLayout | quic-test/myquic/my_quic_framer.cc:2905-2912 | type and id; a ping and an MTU discovery are the same byte |
| FrameMeaning.StopWaitingLayout | quic-test/myquic/my_quic_framer.cc:2715-2738 | the delta in the width of the packet number, if and only if it fits there |
| FrameMeaning.PaddingLayout | quic-test/myquic/my_quic_framer.cc:2914-2931 | so many zeros, or all that is free, and nothing at all exactly for a count of 0 |
| FrameMeaning.StreamLayout | quic-test/myquic/my_quic_framer.cc:2352-2392 | four facts in the type byte, then id, offset unless 0, length unless last, and the data |
| FrameMeaning.BlocksLayout | quic-test/myquic/my_quic_framer.cc:2567-2621 | block `j` of an ACK frame, at its place, is its gap in a byte and its length in the width |
| FrameMeaning.AckLayout | quic-test/myquic/my_quic_framer.cc:2473-2641 | both widths and whether there are further intervals in the type byte, then largest acked, delay, number of blocks unless 0, length of the newest interval, the blocks and no timestamps |
| FrameMeaning.CodeKept | quic-test/myquic/my_quic_framer.cc:1829-1920 | an error code below the limit is kept, any other becomes the limit |
| FrameMeaning.ErrorTellsType | quic-test/myquic/my_quic_framer.cc:1174-1352 | the error raised for a frame that cannot be read tells its type, and each error stands for one type |
| FrameMeaning.UnknownRefused | quic-test/myquic/my_quic_framer.cc:1340-1351 | types that mean nothing are refused as illegal frames |
| PacketRoundTrip.PaddingReadsBack | quic-test/myquic/my_quic_framer.cc:1947-1962 | a run of padding merges with the padding after it into one report |
| PacketRoundTrip.PacketReadsBack | quic-test/myquic/my_quic_framer.cc:1174-1352 | a written packet whose ACK frames had room is read to its end without error and reports its frames, each as `FrameReadsBack` has it, paddings merged |
| PacketRoundTrip.PacketReadableIff | quic-test/myquic/my_quic_framer.cc:428-521 | a written packet reports its frames, each as `FrameReadsBack` has it, if and only if every ACK frame in it had room for a block |
| FrameLengths.LengthIsExact | quic-test/myquic/my_quic_framer.cc:2180-2226 | the predicted length is exact for every frame that can be written, unless an ACK is cut |
| FrameLengths.SerializedLengthFits | quic-test/myquic/my_quic_framer.cc:365-419 | the answer against the bytes then written: exactly those if they fit, 0 if not, except that an ACK frame that comes first with ten bytes free is promised to take all of them; a negative padding count takes all free bytes |
| FrameLengths.TruncationPromise | quic-test/myquic/my_quic_framer.cc:395-413 | a promise to cut an ACK frame to the free bytes is kept if and only if the frame has blocks to drop and all but the count byte fits |
| FrameLengths.BrokenPromiseExample | quic-test/myquic/my_quic_framer.cc:395-413 | the promise can be broken: one packet acknowledged, ten bytes free |
| PacketNumbers.WrapIsHarmless | quic-test/myquic/my_quic_framer.cc:959-981 | away from 2^64 the wrapping arithmetic, previous epoch included, computes the choice among the natural candidates |
| PacketNumbers.NearestToNext | quic-test/myquic/my_quic_framer.cc:959-981 | the result has the low bytes on the wire, and no natural number with them is nearer to base + 1 |
| PacketNumbers.RecoveredIff | quic-test/myquic/my_quic_framer.cc:959-981 | a packet number is recovered from its low bytes if and only if it is strictly within half a window of base + 1, or half a window away outside the base's epoch, or in the first epoch with nothing below |
| PacketNumbers.RunIsRecovered | quic-test/myquic/my_quic_framer.cc:1157-1172 | over a run of such packets, in any order and with any widths, every number is recovered |
| PacketNumbers.LargestIsMax | quic-test/myquic/my_quic_framer.cc:806-811 | the largest of a run, taken one by one, is at least all its numbers and one of them |
| PacketNumbers.NumberState.ProcessNumber | quic-test/myquic/my_quic_framer.cc:1133-1172 | over any run of calls: the numbers are those reconstructed from all arrivals so far, 0 is refused, and `largest_packet_number_` is their maximum |
| PacketNumbers.StateRecovers | quic-test/myquic/my_quic_framer.cc:1133-1172 | a framer that gets numbers sent in the window, in any order and with any widths, works out every one |
| VarInts.VarReadsBack | quic-test/myquic/my_quic_framer.cc:1746-1749 | a variable-length integer (section 16 of RFC 9000) reads back whatever follows it |
| VarInts.VarLayout | quic-test/myquic/my_quic_framer.cc:2757-2762 | the two high bits of the first byte tell the length, the rest is the number, and the length is the least that holds it |
| VarInts.WriteVarInt62 | quic-test/myquic/my_quic_framer.cc:2757-2762 | libquic's writer, as far as the framer relies on it: all bytes or none |
| VarInts.ReadVarInt62 | quic-test/myquic/my_quic_framer.cc:1746-1749 | libquic's reader, as far as the framer relies on it |
| IetfAck.AppendIetfBlocks | quic-test/myquic/my_quic_framer.cc:2808-2834 | the loop writes a gap and a length for every interval, newest first, and fails exactly if they do not fit |
| IetfAck.AppendIetfAckFrame | quic-test/myquic/my_quic_framer.cc:2752-2836 | succeeds exactly if there are packets, the delay is finite and the whole frame fits; then exact bytes |
| IetfAck.RfcReadsBack | quic-test/myquic/my_quic_framer.cc:2752-2836 | read as section 19.3.1 of RFC 9000 says, the bytes give back exactly the interval set |
| IetfAck.ProcessIetfBlocks | quic-test/myquic/my_quic_framer.cc:1784-1807 | the loop as coded, with 64-bit wrap-around, on any bytes: the ranges handed to `AddRange`, in order, also when it fails half way |
| IetfAck.ProcessIetfAckFrame | quic-test/myquic/my_quic_framer.cc:1742-1809 | the same for the whole frame |
| IetfAck.AcceptedIff | quic-test/myquic/my_quic_framer.cc:1742-1809 | on any bytes a frame is accepted if and only if its four numbers and two more for every further block can all be read; it then reports one range more than it has further blocks, and one that ends before its first block reports none |
| IetfAck.OwnReadsBack | quic-test/myquic/my_quic_framer.cc:1801-1802 | on a written frame the framer's reader gets every lower end right and gives every range the first one's width |
| IetfAck.OwnExactIff | quic-test/myquic/my_quic_framer.cc:1801-1802 | so reading back gives the packets of the frame if and only if all its intervals have equal length |
| IetfAck.UnequalExample | quic-test/myquic/my_quic_framer.cc:1801-1802 | a written frame for packets 1, 3 and 4 is read as acknowledging 2 as well |
| IetfAck.RangesSlide | quic-test/myquic/my_quic_framer.cc:1784-1807 | on any bytes every further range is the first one, moved down in 64 bits by the sum of the slides read so far |
| IetfAck.RangeIsRealIff | quic-test/myquic/my_quic_framer.cc:1776-1807 | on any bytes a range is non-empty and within the largest acked if and only if the first block and the slides so far together do not pass the largest acked; nothing in the reader checks that |
| IetfAck.WrapExample | quic-test/myquic/my_quic_framer.cc:1776-1782 | four bytes make the reader add the range from 2^64 - 1 to 1 |
| IetfAck.DelayKept | quic-test/myquic/my_quic_framer.cc:1759-1767 | the delay loses its low three bits, and one value becomes infinite |
| BbrModel.RandomPhase | quic-test/mybbr/my_bbr_sender.cc:276-279 | the random phase of the gain cycle is in range and never the draining one |
| BbrSender.SentClusterInfo.Delete | quic-test/mybbr/my_bbr_sender.cc:28-37 | a deleted cluster is marked; every other method of a cluster requires that it is not |
| BbrSender.SentClusterInfo.OnPacketSent | quic-test/mybbr/my_bbr_sender.cc:38-48 | the new record and totals, exactly |
| BbrSender.SentClusterInfo.OnAck | quic-test/mybbr/my_bbr_sender.cc:49-71 | exactly the credited record, times and bytes; a first acknowledgement makes the live previous cluster estimate |
| BbrSender.SentClusterInfo.TriggerBandwidthEstimate | quic-test/mybbr/my_bbr_sender.cc:82-97 | reports `Estimate`, or nothing if it is not positive; `EstimateIsSmaller` and `ReportedBandwidth` say which rate that is |
| BbrReports.EstimateIsSmaller | quic-test/mybbr/my_bbr_sender.cc:82-97 | the bandwidth of a cluster is at most its ack rate and its send rate and equal to one of them; where sending took no time it is the ack rate, where acknowledging took none there is none |
| BbrReports.ClusterTimes | quic-test/mybbr/my_bbr_sender.cc:38-71 | in every reachable state the send times of a live cluster are those of its first and last record, and its acknowledgement times those of its first and last acknowledged record |
| BbrReports.RecordedAckTimes | quic-test/mybbr/my_bbr_sender.cc:57-67 | in every reachable state the acknowledgement time of a record is that of an acknowledgement of its packet |
| BbrReports.ReportedBandwidth | quic-test/mybbr/my_bbr_sender.cc:82-97 | in every reachable state the bandwidth reported for a live cluster is positive, at most both rates and equal to one of them |
| BbrReports.ReportedIff | quic-test/mybbr/my_bbr_sender.cc:49-57 | an acknowledgement reports a bandwidth if and only if its packet is the first to be acknowledged in a cluster with one before it whose bandwidth is positive: then exactly that one is reported and joins the list |
| BbrModel.MillisecondsMeans | quic-test/mybbr/my_bbr_sender.cc:72-81 | the milliseconds a cluster reports are the elapsed time cut to whole milliseconds; a time that went back by n milliseconds reads as 2^64 - n |
| BbrSender.MyBbrSender.constructor | quic-test/mybbr/my_bbr_sender.cc:98-114 | the initial state is valid and is the model's |
| BbrSender.MyBbrSender.OnEstimateBandwidth | quic-test/mybbr/my_bbr_sender.cc:239-243 | the live cluster joins the list of acknowledged ones and the filter is updated |
| BbrSender.MyBbrSender.UpdateRtt | quic-test/mybbr/my_bbr_sender.cc:244-270 | minimum and time stamp as the model says; exactly the entries up to the number leave the map |
| BbrSender.MyBbrSender.EnterProbeBandwidthMode | quic-test/mybbr/my_bbr_sender.cc:271-283 | refines the model's step |
| BbrSender.MyBbrSender.UpdateGainCyclePhase | quic-test/mybbr/my_bbr_sender.cc:284-292 | refines the model's step |
| BbrSender.MyBbrSender.MaybeEnterOrExitProbeRtt | quic-test/mybbr/my_bbr_sender.cc:293-316 | refines the model's two steps and leaves no pointer into the cleared clusters |
| BbrSender.MyBbrSender.AppendCluster | quic-test/mybbr/my_bbr_sender.cc:343-354 | the new cluster is owned by the map and linked both ways with the last live one |
| BbrSender.MyBbrSender.AddPacketInfoSampler | quic-test/mybbr/my_bbr_sender.cc:335-357 | refines the model's step; clusters are only found or made, never shared |
| BbrSender.MyBbrSender.ClusterInfoClear | quic-test/mybbr/my_bbr_sender.cc:358-371 | every cluster of the map is deleted, and no map or list keeps a pointer |
| BbrSender.MyBbrSender.RemoveClusterLE | quic-test/mybbr/my_bbr_sender.cc:372-390 | exactly the clusters up to the round leave the map, each deleted, and the survivors are linked among themselves only |
| BbrSender.MyBbrSender.SumAckedClusters | quic-test/mybbr/my_bbr_sender.cc:178-202 | every pointer in the list is live when it is followed, and the totals are those of the model, the sums of milliseconds wrapping at 64 bits |
| BbrSender.MyBbrSender.DropOldest | quic-test/mybbr/my_bbr_sender.cc:221-227 | the oldest acknowledged cluster goes with all before it, all of them deleted, and the remaining pointers stay live |
| BbrSender.MyBbrSender.AverageAckedClusters | quic-test/mybbr/my_bbr_sender.cc:176-228 | refines the model's step |
| BbrSender.MyBbrSender.OnPacketSent | quic-test/mybbr/my_bbr_sender.cc:230-238 | from any valid state: valid again (map, links and list agree, everything live) and exactly the model's new state |
| BbrSender.MyBbrSender.OnAck | quic-test/mybbr/my_bbr_sender.cc:148-229 | the same for any acknowledged number at any time: no deleted cluster is ever used, and every cluster that has left the map is deleted |
| BbrRuns.SentInv | quic-test/mybbr/my_bbr_sender.cc:230-238 | sending the next packet keeps the invariant: clusters are non-empty, contiguous and in key order, map entries point at the cluster of their packet, acknowledged clusters are live and ordered, reported totals hold |
| BbrRuns.AckedInv | quic-test/mybbr/my_bbr_sender.cc:148-229 | acknowledging any number keeps it, across PROBE_RTT clears and the removal of old clusters |
| BbrRuns.ClosedBefore | quic-test/mybbr/my_bbr_sender.cc:49-56 | the ordering argument: clusters with a later acknowledged neighbour lie before the cluster that holds a newly acknowledged packet |
| BbrRuns.TriggeredIsNewest | quic-test/mybbr/my_bbr_sender.cc:239-243 | so a newly reported cluster comes after all in the list, which stays strictly increasing |
| BbrRuns.DropUpToSuffix | quic-test/mybbr/my_bbr_sender.cc:372-390 | removing up to a cluster's id leaves exactly the clusters after it |
| BbrRuns.SumsMark | quic-test/mybbr/my_bbr_sender.cc:66-69 | marking one record adds its length to the bytes acknowledged and nothing to the bytes sent |
| BbrHistory.RunInv | quic-test/mybbr/my_bbr_sender.cc:148-238 | the invariant holds after every run of sends and acknowledgements |
| BbrHistory.RunRecords | quic-test/mybbr/my_bbr_sender.cc:335-357 | after every run each record has the time and length its packet was sent with, and unacknowledged packets of live clusters are still in `seq_round_map_` |
| BbrHistory.CreditExactly | quic-test/mybbr/my_bbr_sender.cc:166-175 | an acknowledgement credits the packet with its number if and only if it is above all earlier ones and the packet is in a live cluster; otherwise nothing |
| BbrHistory.CreditAddsBytes | quic-test/mybbr/my_bbr_sender.cc:57-70 | the acknowledged bytes grow by the length that packet was sent with, and by nothing otherwise |
| BbrHistory.CreditedOnce | quic-test/mybbr/my_bbr_sender.cc:148-175 | over any run the credited numbers strictly increase and were sent: each packet is credited at most once |
| BbrHistory.CreditedAtMostSent | quic-test/mybbr/my_bbr_sender.cc:38-71 | over any run the bytes credited never exceed the bytes sent |
| BbrHistory.BytesAddUp | quic-test/mybbr/my_bbr_sender.cc:38-71 | bytes sent and bytes credited add up packet by packet |
| BbrHistory.HeldIsCredited | quic-test/mybbr/my_bbr_sender.cc:49-71 | in every reachable state the bytes that live clusters hold as acknowledged are among those credited over the run |
| BbrHistory.IndexHits | quic-test/mybbr/my_bbr_sender.cc:166-175 | in every reachable state an entry naming a live round leads to the record with that number |
| BbrHistory.AckedClustersLive | quic-test/mybbr/my_bbr_sender.cc:176-228 | in every reachable state at most nine clusters are in the list, live and strictly increasing |
| BbrHistory.ClusterBytes | quic-test/mybbr/my_bbr_sender.cc:38-71 | in every reachable state a cluster's acknowledged bytes are those of its marked records and at most its sent bytes |
| BbrHistory.ReportedTotalsFrozen | quic-test/mybbr/my_bbr_sender.cc:82-97 | in every reachable state a reported cluster still has the totals it was reported with |
| BbrHistory.AverageCountsOnce | quic-test/mybbr/my_bbr_sender.cc:178-202 | in every reachable state the totals of the average are at most those of all live clusters: none is counted twice |
| BbrReports.TotalsMean | quic-test/mybbr/my_bbr_sender.cc:178-202 | the totals are the sums over the acknowledged clusters whose time is not 0, the times in 64 bits, and the id is the last cluster's if its acknowledging took time |
| BbrReports.AverageStep | quic-test/mybbr/my_bbr_sender.cc:176-228 | exactly with the tenth acknowledged cluster the average takes these totals, and the oldest cluster goes with all up to it |
| BbrTimes.AckTimes | quic-test/mybbr/my_bbr_sender.cc:244-316 | what one acknowledgement does to the times, across the mode changes it causes: the entries dropped, the minimum, the gain index |
| BbrTimes.SamplesAreRoundTrips | quic-test/mybbr/my_bbr_sender.cc:244-251 | in every reachable state an acknowledgement yields a round-trip time if and only if its packet was sent since PROBE_RTT was last entered and lies above all acknowledged ones, and it is the time since that packet was sent |
| BbrTimes.MinRttIsLeastIff | quic-test/mybbr/my_bbr_sender.cc:248-260 | in every reachable state `min_rtt_` is the least of the times taken since PROBE_RTT was last entered if and only if none of them is 0, or the least is 0 and so is the last, or the least is negative (the clock went back) |
| BbrTimes.ZeroSampleExample | quic-test/mybbr/my_bbr_sender.cc:248-260 | two packets sent at one time and acknowledged at that time and a microsecond later: the minimum is 1, the least time 0 |
| BbrTimes.GainInTable | quic-test/mybbr/my_bbr_sender.cc:271-292 | in every reachable state the gain index is inside its table, and START_UP ends with the first acknowledgement for good |
| BbrTimes.ExitIsSet | quic-test/mybbr/my_bbr_sender.cc:307-310 | in every reachable state of PROBE_RTT the time to leave it is set |
| BbrTimes.ProbeRttEnds | quic-test/mybbr/my_bbr_sender.cc:307-315 | PROBE_RTT is left if and only if that time is over or the minimum is close to the recorded one |
| BbrTimes.SampledMeans | quic-test/mybbr/my_bbr_sender.cc:394-402 | close to the recorded minimum: both are known and the new one is below nine eighths of the old, to the nearest microsecond |
| BbrTimes.SimilarIsNearest | quic-test/mybbr/my_bbr_sender.cc:257-259 | nine eighths of a time, to the nearest microsecond |
| BbrTimes.EnterSets | quic-test/mybbr/my_bbr_sender.cc:293-310 | entering PROBE_RTT remembers the minimum and forgets it, counts rounds from 0, empties everything kept about clusters, and sets the time to leave 200 ms ahead |
| BbrTimes.LeaveSets | quic-test/mybbr/my_bbr_sender.cc:271-316 | when PROBE_RTT or START_UP ends, a round starts in a random phase, and the recorded minimum is forgotten |
| BbrTimes.EveryPhase | quic-test/mybbr/my_bbr_sender.cc:276-279 | every phase but the draining one is drawn, each by one in seven random numbers |
| BbrTimes.RoundStartsIff | quic-test/mybbr/my_bbr_sender.cc:284-292 | a send starts a new round, with the next gain of the table, if and only if the sender is in PROBE_BW and the last round has lasted longer than the minimum round-trip time |
| BbrTimes.SentJoinsRound | quic-test/mybbr/my_bbr_sender.cc:335-357 | a packet sent in PROBE_BW is the last record of the cluster of the current round, which is the old one or a new one |
| BbrTimes.AckForgets | quic-test/mybbr/my_bbr_sender.cc:166-170 | an acknowledged packet is forgotten, and unless PROBE_RTT is entered no other is |
| BbrTimes.RenewedIff | quic-test/mybbr/my_bbr_sender.cc:248-260 | a round-trip time renews the minimum's time stamp if and only if there was no minimum, it is below it, or it is above and close to it |
| BbrTimes.EqualSampleExample | quic-test/mybbr/my_bbr_sender.cc:248-260 | a time equal to the minimum leaves the time stamp, one a microsecond above renews it |
| BbrTimes.ReportsKept | quic-test/mybbr/my_bbr_sender.cc:239-243 | an acknowledgement that enters PROBE_RTT drops all reports with all clusters, any other keeps every report |
| Pacing.MyPacingSender.OnPacketSent | quic-test/mybbr/my_pacing_sender.cc:12-22 | the ideal time is that of the packets sent so far, and the sender takes its step |
| Pacing.MyPacingSender.OnCongestionEvent | quic-test/mybbr/my_pacing_sender.cc:23-28 | the sender takes its step, if there is one |
| Pacing.MyPacingSender.TimeUntilSend | quic-test/mybbr/my_pacing_sender.cc:29-34 | the wait for the ideal time of the packets so far, 0 within one alarm granularity |
| Pacing.IdealKeepsUp | quic-test/mybbr/my_pacing_sender.cc:19-20 | the ideal time is at least any packet's time and all transfer delays since |
| Pacing.IdealIsBusyPeriod | quic-test/mybbr/my_pacing_sender.cc:19-20 | and it is exactly that for some packet: the one that began the busy period |
| Pacing.PacingBound | quic-test/mybbr/my_pacing_sender.cc:12-34 | if every packet is sent when no wait is asked for, the delays of packets i to j - 1 sum to at most t_j - t_i + 1 ms, whatever the rates and the clock |
| Pacing.PacingBoundIsTight | quic-test/mybbr/my_pacing_sender.cc:29-34 | the millisecond can be gained in full |
| Pacing.WaitIsEnough | quic-test/mybbr/my_pacing_sender.cc:29-34 | after the wait that was asked for, no wait is asked for |
| AppPackets.HeaderReadsBackIff | quic-test/myquic/my_quic_header.cc:3-42 | flags and number written by one application are read by the other if and only if the number is below 2^48 |
| AppPackets.HeaderLayout | quic-test/mybbr/my_bbr_sender_app.cc:87-97 | the kind in the low half of the first byte, two bits for the width above it, and the number |
| AppPackets.ShortHeader | quic-test/mybbr/my_bbr_receiver_app.cc:74-83 | an empty packet reads as a stream packet with number 0, one byte as its kind with number 0 |
| AppPackets.WriteHeader | quic-test/mybbr/my_bbr_sender_app.cc:87-97 | exact header bytes |
| AppPackets.ReadHeader | quic-test/mybbr/my_bbr_receiver_app.cc:74-83 | kind and number for any packet; what is missing reads as 0 |
| SenderApp.MyBbrSenderApp.SendFakePacket | quic-test/mybbr/my_bbr_sender_app.cc:85-102 | the next number, the payload that its header leaves, and one send of the run |
| SenderApp.MyBbrSenderApp.ProcessAckFrame | quic-test/mybbr/my_bbr_sender_app.cc:103-119 | only acknowledgements reach the sender, as one step of the run |
| SenderApp.MyBbrSenderApp.Process | quic-test/mybbr/my_bbr_sender_app.cc:31-57 | one round of the loop, exactly: a send if and only if no wait is asked for, then the step of the acknowledgement received, if it is one; what the run, the network, the pacer and the last acknowledged number gain is stated, and nothing else is gained |
| SenderApp.Payload | quic-test/mybbr/my_bbr_sender_app.cc:85-102 | payload and header together are 1400 bytes |
| SenderApp.PeerAckArrives | quic-test/mybbr/my_bbr_receiver_app.cc:96-112 | an acknowledgement as the peer writes it reaches the sender under its number if and only if that is below 2^48; with `Process` the last acknowledged number is then at least that |
| SenderApp.AppKeepsRate | quic-test/mybbr/my_bbr_sender_app.cc:31-57 | so in every state of the application the pacing bound and the conservation of credited bytes hold |
| ReceiverApp.MyBbrReceiverApp.OnIncomingData | quic-test/mybbr/my_bbr_receiver_app.cc:72-95 | every data packet is acknowledged under its number and the log is that of the arrivals so far |
| ReceiverApp.MyBbrReceiverApp.SendAck | quic-test/mybbr/my_bbr_receiver_app.cc:96-112 | exact acknowledgement bytes |
| ReceiverApp.BaseIsLargest | quic-test/mybbr/my_bbr_receiver_app.cc:85-93 | the base is the largest number that arrived, or 0 |
| ReceiverApp.LossesExact | quic-test/mybbr/my_bbr_receiver_app.cc:85-93 | over any run the losses recorded are, in increasing order and once each, exactly the numbers up to the largest arrival that did not arrive as a new maximum |
| ReceiverApp.LossesTrueIff | quic-test/mybbr/my_bbr_receiver_app.cc:85-93 | they are the numbers that never arrived if and only if no packet arrives for the first time after a later one |
| ReceiverApp.LateExample | quic-test/mybbr/my_bbr_receiver_app.cc:85-93 | of packets 1, 3 and 2 in this order, 2 is recorded as lost |
| Exchange.RunLinked | quic-test/mybbr/my_bbr_receiver_app.cc:76-96 | the two applications put together, their datagrams lost, repeated and reordered: only packets that were sent arrive, and only packets that arrived are acknowledged |
| Exchange.ThereAndBack | quic-test/mybbr/my_bbr_receiver_app.cc:76-96 | a packet that arrives is acknowledged under its own number, and the acknowledgement reaches the sender with it |
| Exchange.ArrivedAtMostSent | quic-test/mybbr/my_bbr_receiver_app.cc:72-95 | the bytes that arrived, each packet counted once, are at most those sent, and all of them if every packet arrived |
| Exchange.CreditedArrived | quic-test/mybbr/my_bbr_sender_app.cc:103-120 | over any such run every packet the sender credits has arrived at the receiver, and the bytes credited are at most those that arrived, each packet counted once, which are at most those sent |
| Exchange.AppsCreditArrived | quic-test/mybbr/my_bbr_receiver_app.cc:85-96 | in the states of the two applications: a packet that is credited although the receiver recorded it as lost came after a later one |
| BinStream.Stream.constructor | mininet-webrtc/razor/cf_stream.c:23-56 | an empty queue of 1024 bytes |
| BinStream.Stream.Resize | mininet-webrtc/razor/cf_stream.c:112-129 | the unread bytes stay, the request is met below twice its size, and the bytes copied by growing stay below the size |
| BinStream.Stream.Copy | mininet-webrtc/razor/cf_stream.c:355-362 | bytes go in behind everything written |
| BinStream.Stream.WriteBlock | mininet-webrtc/razor/cf_stream.c:355-362 | the queue gets the bytes, growing if needed |
| BinStream.Stream.WriteUInt | mininet-webrtc/razor/cf_stream.c:170-314 | the queue gets the number big-endian, cut to its width |
| BinStream.Stream.WriteData | mininet-webrtc/razor/cf_stream.c:328-337 | the queue gets a 16-bit length, cut, and the bytes |
| BinStream.Stream.ReadUInt | mininet-webrtc/razor/cf_stream.c:178-326 | the number at the front leaves the queue; a short read gives 0 and takes nothing |
| BinStream.Stream.ReadData | mininet-webrtc/razor/cf_stream.c:339-353 | the string at the front leaves the queue; on an error the length field is gone |
| BinStream.Stream.ReadBlock | mininet-webrtc/razor/cf_stream.c:364-374 | the block leaves the queue, or an error takes nothing; the result is cut to 16 bits |
| BinStream.ShortReads | mininet-webrtc/razor/cf_stream.c:178-353 | a number that is not all there reads as 0 and takes nothing; a string is cut off the queue exactly if its length is within the caller's size and the bytes left, and is an error with the length gone otherwise |
| BinStream.Stream.Rewind | mininet-webrtc/razor/cf_stream.c:94-103 | everything still in the buffer is read again, or thrown away |
| BinStream.Stream.Reduce | mininet-webrtc/razor/cf_stream.c:136-147 | a buffer grown past 2048 starts anew at 1024, any other stays |
| BinStream.Stream.Move | mininet-webrtc/razor/cf_stream.c:149-168 | the unread bytes stay, and afterwards the buffer is not nearly full or less than half read |
| BinStream.SignedUnsigned | mininet-webrtc/razor/cf_stream.c:189-206 | signed numbers survive the casts both ways |
| BinStream.DataReadsBack | mininet-webrtc/razor/cf_stream.c:328-353 | a string read with room for it comes back if and only if it is shorter than 2^16 bytes |
| BinStream.ErrorIsAmbiguous | mininet-webrtc/razor/cf_stream.c:339-353 | the result of such a read is the error code if and only if the length is 65535 modulo 2^16 |
| BinStream.LongStringExample | mininet-webrtc/razor/cf_stream.c:339-353 | a string of 65535 bytes reads as the error, one of 65536 as an empty one |
| SimProto.SegmentReadsBack | mininet-webrtc/razor/sim_proto.inl:83-177 | a segment with its flag-compressed fields reads back up to one bit of frame type, remb being 0 or not, and the index byte of a short frame |
| SimProto.SegmentExactIff | mininet-webrtc/razor/sim_proto.inl:83-177 | nothing is lost if and only if the frame type is a bit, remb is 0 or 255, and an index above 255 goes with a total above 255 |
| SimProto.SegmentExample | mininet-webrtc/razor/sim_proto.inl:83-177 | a segment with index 256 and total 2 arrives with index 0 |
| SimProto.SegmentAckReadsBack | mininet-webrtc/razor/sim_proto.inl:179-201 | the acknowledgement with its list of numbers reads back |
| SimProto.FeedbackReadsBack | mininet-webrtc/razor/sim_proto.inl:64-78 | feedback reads back |
| SimProto.PadReadsBack | mininet-webrtc/razor/sim_proto.inl:214-232 | padding reads back |
| SimProto.PingReadsBack | mininet-webrtc/razor/sim_proto.inl:53-62 | the signed time reads back |
| SimProto.CrcDetects | mininet-webrtc/razor/cf_crc32.c:56-68 | messages that differ in at most four consecutive bytes have different checksums |
| SimProto.MessageReadsBack | mininet-webrtc/receiver.cc:91-138 | a message sent whole passes the check and gives back header and body |
| MessageLayouts.DatagramLayout | mininet-webrtc/sender.cc:312-320 | version, message id, user id, body, and the checksum of all that |
| MessageLayouts.SegmentLayout | mininet-webrtc/razor/sim_proto.inl:83-126 | five facts in the first byte, then the fields at their places, three of them long only if needed |
| MessageLayouts.FeedbackLayout | mininet-webrtc/razor/sim_proto.inl:64-68 | base, length and bytes at their places |
| MessageLayouts.PadLayout | mininet-webrtc/razor/sim_proto.inl:214-220 | time, key, length and bytes at their places |
| MessageLayouts.SegmentAckLayout | mininet-webrtc/razor/sim_proto.inl:179-188 | both ids, the count, and every number of the list at its place |
| MessageLayouts.LongListIsCut | mininet-webrtc/razor/sim_proto.inl:190-201 | of a list announced longer than 80 numbers exactly 80 are read |
| CrcTail.TailDifference | mininet-webrtc/razor/cf_crc32.c:56-68 | the checksums of messages that differ in their last bytes differ by those bytes, packed into a word and shifted through the register |
| CrcTail.ThreeByteKernel | mininet-webrtc/razor/cf_crc32.c:10-68 | no change of three bytes leaves the low three bytes of the register alone |
| Corruption.ChecksumBytes | mininet-webrtc/razor/cf_stream.c:248-254 | the checksum goes out most significant byte first |
| Corruption.ChangePassesIff | mininet-webrtc/receiver.cc:91-94 | a good datagram changed within any four consecutive bytes passes the check if and only if the change is the one pattern `Disguise`: the last two bytes of the message by 61 and d8, the first two of the checksum by f4 and ee (hexadecimal, exclusive or) |
| Corruption.CorruptionRejected | mininet-webrtc/receiver.cc:91-94 | so a sent datagram changed within any four consecutive bytes is rejected, unless it is that one |
| Corruption.DisguisedPing | mininet-webrtc/receiver.cc:91-137 | the one change does harm: of any ping it makes an accepted ping with another time |
| SimCodec.SegmentEncode | mininet-webrtc/razor/sim_proto.inl:83-126 | writes exactly the segment's bytes |
| SimCodec.SegmentDecode | mininet-webrtc/razor/sim_proto.inl:128-177 | reads exactly what the format says, on any bytes |
| SimCodec.SegmentAckEncode | mininet-webrtc/razor/sim_proto.inl:179-188 | writes exactly the bytes, the list by a loop |
| SimCodec.SegmentAckDecode | mininet-webrtc/razor/sim_proto.inl:190-201 | reads exactly what the format says; at most 80 numbers |
| SimCodec.FeedbackEncode | mininet-webrtc/razor/sim_proto.inl:64-68 | writes exactly the bytes |
| SimCodec.FeedbackDecode | mininet-webrtc/razor/sim_proto.inl:70-78 | reads exactly what the format says |
| SimCodec.PadEncode | mininet-webrtc/razor/sim_proto.inl:214-220 | writes exactly the bytes |
| SimCodec.PadDecode | mininet-webrtc/razor/sim_proto.inl:222-232 | reads exactly what the format says |
| SimCodec.EncodeMsg | mininet-webrtc/sender.cc:312-320 | afterwards the stream holds the datagram and nothing else, checksum included |
| SimCodec.DecodeHeaderFrom | mininet-webrtc/receiver.cc:91-94 | accepts exactly the datagrams whose last four bytes are the checksum of the rest |
| SimCodec.DecodeMsg | mininet-webrtc/receiver.cc:100-137 | decodes the body the message id names, on any bytes |
| SimCodec.ReceiveDatagram | mininet-webrtc/receiver.cc:54-69 | a datagram in a fresh buffer: checked, then decoded |
| VideoFrames.FrameSplit | mininet-webrtc/sender.cc:96-117 | the in-place splits: as many as needed, all 1000 but the last |
| VideoFrames.DeliveredWhole | mininet-webrtc/sender.cc:141-162 | a segment of a frame that reaches the receiver keeps index, total, frame, place and data, for every frame the assertion allows |
| VideoFrames.FrameArrives | mininet-webrtc/sender.cc:118-163 | whatever the order and the repetitions in which a frame's segments arrive, putting them together by index gives back the frame |
| VideoFrames.SentIsDelivered | mininet-webrtc/sender.cc:367-373 | and a message that is not harmed does deliver its segment |
| VideoFrames.FitsReceiverIff | mininet-webrtc/receiver.cc:55-66 | a segment's message fits the receiver's buffer of 1024 bytes if and only if its data leaves room for the overhead, which the 1000 bytes of a full segment never do |
| VideoFrames.FullSegmentExample | mininet-webrtc/sender.cc:110-168 | the first message of a frame of 1001 bytes is four bytes longer than that buffer |
| VideoSender.Sender.SendVideo | mininet-webrtc/sender.cc:118-171 | on the caller's arguments: over free keys the segments pending hold `data` together, each with its place, the payload type, the frame type in 8 bits and the milliseconds since the first frame (`HoldsVideo`); the counters wrap, and the pacer gets one packet per segment in key order |
| VideoSender.VideoIsHeld | mininet-webrtc/sender.cc:118-163 | over free keys a frame is pending whole: its data cut in order under successive keys, each segment with its own place |
| VideoSender.Sender.AddSegment | mininet-webrtc/sender.cc:141-161 | one segment with its counters and its place in the pending map |
| VideoSender.InsertedIff | mininet-webrtc/sender.cc:160-160 | a segment is pending after the insertion if and only if nothing else was pending under its key; what was pending stays |
| VideoSender.DisplacedExample | mininet-webrtc/sender.cc:160-160 | a segment left pending displaces one of a frame that comes 65536 segments later |
| VideoSender.WholeFrameQueued | mininet-webrtc/sender.cc:141-162 | with no key pending before, the whole frame is pending |
| VideoSender.FrameIsQueued | mininet-webrtc/sender.cc:165-170 | the packets given to the pacer are one per segment, sorted by key, although the keys wrap |
| VideoSender.Sender.GetSegment | mininet-webrtc/sender.cc:261-270 | the segment leaves the map |
| VideoSender.Sender.SendSegment | mininet-webrtc/sender.cc:367-373 | exactly one datagram with the segment and its send time |
| VideoSender.Sender.TimeToSendPacket | mininet-webrtc/sender.cc:172-191 | the pending segment is sent, told to the controller if there is one, and forgotten; otherwise nothing happens |
| VideoSender.Sender.SendPadding | mininet-webrtc/sender.cc:193-212 | exactly one padding datagram under the next key, told to the controller if there is one |
| VideoSender.Sender.TimeToSendPadding | mininet-webrtc/sender.cc:213-237 | the loop ends and sends, and tells the controller, exactly the computed payloads under consecutive keys; requests below 100 bytes are ignored, and larger ones are cut to a signed number of 32 bits; the request is filled up to less than 100 bytes exactly if it is below 2^31 |
| VideoSender.PaddingBounds | mininet-webrtc/sender.cc:220-234 | the total overhead for a signed number of bytes to fill is above that number less 100, and at most that number and one header |
| VideoSender.RequestFilledIff | mininet-webrtc/sender.cc:213-237 | the total overhead is above the requested bytes less 100 and at most those bytes and one header if and only if the request is below 2^31 bytes |
| VideoSender.UnfilledExample | mininet-webrtc/sender.cc:215-219 | for a request of 2^31 bytes nothing is sent |
| VideoSender.PaddingSizes | mininet-webrtc/sender.cc:220-234 | no message pads less than 100 or more than 500 bytes |
| VideoDelivery.OnlyPending | mininet-webrtc/sender.cc:172-191 | whatever keys the pacer asks for, in whatever order and how often, only pending segments are sent |
| VideoDelivery.AskedIsSent | mininet-webrtc/sender.cc:172-191 | every pending segment whose key is asked for is sent |
| VideoDelivery.VideoRoundTrip | mininet-webrtc/sender.cc:118-191 | the video path as a whole: once a frame is queued over free keys and the pacer has asked for every packet it was given, among any others, the datagrams sent, in any order and any number of times, make the receiver put together exactly the frame |
| VideoDelivery.SentVideoArrives | mininet-webrtc/sender.cc:118-191 | the same for the data and the time passed to `SendVideo`: the receiver puts together exactly that data |
| VideoDelivery.SendTimeArrives | mininet-webrtc/sender.cc:367-373 | a segment arrives with a send time that, added to the frame's time, is the time since the first frame at which the pacer asked for it, in 16 bits |
| RoundTrips.RttFields.UpdateRtt | mininet-webrtc/sender.cc:321-358 | all fields are those of the samples so far, as `SmoothedMoves`, `SumOfParts`, `ExtremesMean` and `MeanIs` describe them, and the controller, if there is one, is told once |
| RoundTrips.SmoothedMoves | mininet-webrtc/sender.cc:327-332 | a sample moves the smoothed time towards itself by an eighth of the distance, rounded down, unless the floor of 10 is met; a first one is taken as it is |
| RoundTrips.OneCloser | mininet-webrtc/sender.cc:330-332 | one common sample brings two smoothed times closer by an eighth of their distance, up to rounding |
| RoundTrips.HistoryForgotten | mininet-webrtc/sender.cc:330-332 | over runs: two histories that then get the same samples come closer by a factor of 7/8 for each, down to the distance of 7 that rounding can leave |
| RoundTrips.SumOfParts | mininet-webrtc/sender.cc:335-344 | the sum adds up over parts, a sample below 5 counting as 5 |
| RoundTrips.ExtremesMean | mininet-webrtc/sender.cc:350-357 | minimum and maximum are samples, and no sample is beyond them |
| RoundTrips.MeanIs | mininet-webrtc/sender.cc:346-346 | the average is the sum divided by the number, rounded down |
| RoundTrips.ToldIsLargestIff | mininet-webrtc/sender.cc:345-353 | the maximum told to the controller is the largest sample so far if and only if the sample is the first or not itself a new maximum |
| RoundTrips.StaleMaximumExample | mininet-webrtc/sender.cc:345-353 | samples of 20 and 100: the controller is told an average of 60 and a maximum of 20 |
| RoundTrips.AverageBetween | mininet-webrtc/sender.cc:345-357 | minimum <= average <= maximum over any run |
| RoundTrips.SmoothedBetween | mininet-webrtc/sender.cc:330-332 | 10 <= rtt <= max(10, maximum) over any run, even if the 32-bit sum wraps |
| RoundTrips.NoWrap | mininet-webrtc/sender.cc:330-330 | with samples below 2^29 it does not wrap |
| Crc32.Crc32 | mininet-webrtc/razor/cf_crc32.c:56-68 | the table-driven loop computes the bit-serial CRC-32 of section 8 of RFC 1952, for every buffer and start value |
| CrcTail.CheckValue | mininet-webrtc/razor/cf_crc32.c:56-68 | the digits 1 to 9 have the checksum cbf43926 (hexadecimal) |
| Crc32.TableEntry | mininet-webrtc/razor/cf_crc32.c:10-54 | every entry of the table is eight bit steps from its index |
| Crc32.TableStepIsByte | mininet-webrtc/razor/cf_crc32.c:64-65 | one table step is eight bit-serial steps |
| Crc32.ChecksumChains | mininet-webrtc/razor/cf_crc32.c:56-68 | checksumming two parts in turn is checksumming the whole |
| Crc32.BitSerialInjective | mininet-webrtc/razor/cf_crc32.c:64-65 | the register is a bijection of its start for any fixed input |
| Crc32.WindowDetected | mininet-webrtc/razor/cf_crc32.c:64-65 | different inputs of equal length up to 32 bits drive the register apart |
| Crc32.BurstDetected | mininet-webrtc/razor/cf_crc32.c:56-68 | any change within 32 consecutive bits, at any bit offset, changes the checksum |
| Crc32.FourBytesDetected | mininet-webrtc/razor/cf_crc32.c:56-68 | buffers that differ only inside four consecutive bytes have different checksums |

## Left out

- Version 41 of the framer, and versions 39 and below with little-endian numbers: the callers use version 43.
- Packet headers, encryption, public reset and version negotiation: they depend on libquic types.
- ACK timestamps: the framer's constructor turns them off, so none are written; a reader skips them.
- A visitor that asks to stop: the modelled one always continues.
- libquic: `QuicDataReader`, `QuicDataWriter` and `ReadVarInt62` are modelled as far as the framer relies on them;
  the 16-bit form of the ACK delay is opaque; bandwidth arithmetic, transfer times and the limits of error codes are
  arbitrary values; the windowed filters are logs of their updates; the type bytes of the PING and STOP_WAITING frames
  are libquic's.
- `CalculatePacingRate` and the gains: the pacing rate is a parameter of every send.
- AckFrames.AppendAckFrameAndTypeByte: the conversion of the free space to a signed number of 32 bits, which matters
  for capacities of 2^31 and more.
- BbrSender.SentClusterInfo.OnAck: records of packets are values in the cluster, not separately allocated
  objects; the records of a cluster are dropped when it is deleted.
- BbrHistory.RunInv: packet numbers end at 2^32, where the sending application's counter wraps; clock values are
  never 0, the unset time. The clock may go backwards.
- `AckFrames.WellFormed` frames only: intervals from 1 up, sorted and apart, below 2^48, largest acked on top, as the
  libquic received-packet manager keeps them.
- The bits of the flags byte above the number's width, which the applications never set.
- `bin_stream_set_used_size`, `bin_stream_destroy` and the magic number; a received datagram is a start state with
  its cursor at the end of its bytes.
- BinStream.Stream.WriteUInt: one method for the widths and signs of the source; little- and big-endian hosts write
  the same bytes.
- SimCodec.DecodeMsg: connect, disconnect and FIR messages decode to nothing here; they have fixed
  fields, and connect a token read like a string.
- SimCodec.DecodeHeaderFrom: datagrams of one to three bytes; exactly for them the source looks for the checksum
  before the start of its buffer.
- SimCodec.ReceiveDatagram: the same datagrams, for the same reason.
- SenderApp.MyBbrSenderApp.ProcessAckFrame: the copy of a packet into a buffer of 1400 bytes
  (`quic-test/mybbr/my_bbr_sender_app.cc`, lines 104-105); it stays inside the buffer exactly if the packet has at
  most 1400 bytes, and packets of up to 1500 are read from the socket.
- Frames.AppendStreamFrame: frames whose data a producer writes (lines 2374-2385); the data is in the frame here.
- The sizes of structures in memory are an arbitrary constant below 2^16, and what a padding structure holds is an
  arbitrary function of its key.
- SenderApp.MyBbrSenderApp.SendFakePacket: the bytes after the header. The source sends libquic's `kMaxPacketSize` bytes
  out of a buffer of 1400 (`quic-test/mybbr/my_bbr_sender_app.cc`, lines 86 and 99), which stays inside the buffer
  exactly if that constant is at most 1400; `Exchange` allows any bytes there.
- The congestion controller of WebRTC, its pacer and packet router, threads and locks: calls into unseen code are
  logs; the two calls that tell the controller of a packet are one entry.
- Sockets, clocks, files and `main` functions: times and received packets are parameters.
- `my_quic_sender.cc`, `my_quic_receiver.cc`, `my_quic_video_sender.cc` and `scoped_ptr`: they would only add easy members.
