# Verified model of a WebRTC media server

This project models, in Dafny, the behaviour of a media server and of the protocol libraries it is built
from, and proves properties of it: the SCTP association that carries its data channels, the WebSocket
connection, the RTCP and RTP packet formats, MQTT packet identifiers, and the server's own keyframe
filter and publish notifications.

Every operation has a specification on values. Where the program updates an object or a buffer step by
step, a class or an array method does the same and is proved to compute that specification. The results
about the specifications are lemmas, most of them about all runs of a state machine or all inputs of a
codec.

| files | what they hold |
|---|---|
| `serial`, `wrappers`, `binary` | fixed-width numbers, serial arithmetic (RFC 1982), big-endian fields |
| `sctp_chunks`, `sctp_sender`, `sctp_transmit`, `sctp_receiver` | the SCTP endpoints as functions |
| `sctp_sack_proofs`, `sctp_transmit_proofs`, `sctp_packet_proofs` | what each sender operation keeps |
| `sctp_sack_response`, `sctp_batches`, `sctp_pending_proofs`, `sctp_arrivals` | what a SACK, a batch, new data and an arrival do, in the terms of RFC 4960 |
| `sctp_runs`, `sctp_run_proofs`, `sctp_reliability`, `sctp_progress` | sender, receiver and network as one state machine, and its runs |
| `sctp_payload_queue`, `sctp_flight`, `sctp_inbound`, `sctp_outbound` | the queues and endpoints as objects |
| `ws_mask`, `ws_frames`, `ws_writer`, `ws_reader`, `ws_roundtrip`, `ws_acceptance` | WebSocket framing in both directions |
| `rtcp_packets`, `rtcp_compound`, `rtcp_loops`, `rtcp_nack`, `rtcp_twcc` | RTCP codecs |
| `rtcp_acceptance`, `rtcp_twcc_acceptance` | what the RTCP decoders accept |
| `rtp_packet`, `rtp_exact`, `rtp_acceptance`, `rtp_marshal`, `rtp_extensions`, `abs_send_time` | RTP packets, header extensions, abs-send-time |
| `mqtt_message_ids` | MQTT packet identifiers |
| `keyframe_filter` | the keyframe request filter |
| `publish_room`, `publish_proofs`, `publish_views`, `publish_effects`, `publish_handlers` | publishers of a room, their notifications and what each user knows |

`dafny verify dfyconfig.toml` checks everything.

## Assumptions

- SCTP runs: the association is established; a message is delivered only while it is less than 2^31 TSNs
  out of date; at most 65534 TSNs are outstanding, which is what a SACK's 16-bit gap offsets can describe;
  the sender's configured windows stay below 2^32. Every chunk carries at least one byte of user data.
- Times are integers of nanoseconds and the clock does not run backwards.
- Handlers of the media server, and the callbacks they start, are single steps. ICE state changes are
  events from outside.
- In the RTCP dispatcher, a predicate `accepts` stands for what the block loops of RFC 8888 feedback and of
  extended reports make of a packet that has passed their opening tests. The results hold for every such
  predicate.
- Indexing past the end of a buffer, where the program would stop, is an error value of its own in the RTP
  and RTCP decoders.

## Where the code and what is said about it differ

- `third/pkg/mod/github.com/pion/sctp@v1.8.2/association.go:2074`: a bundled packet can exceed the MTU. The
  model follows the code and gives the exact condition under which it is by at most one data-chunk header.
- `third/pkg/mod/github.com/pion/sctp@v1.8.2/association.go:1484`: slow start adds up to a whole window, where
  section 7.2.1 of RFC 4960 allows one MTU. The sums are of 32 bits, and the window shrinks if and only if one
  wraps.
- `third/pkg/mod/github.com/pion/sctp@v1.8.2/payload_queue.go:96-130`: gap blocks misreport TSNs further
  than the 16-bit offset range away, and are exact if and only if there are none.
- `third/pkg/mod/github.com/pion/sctp@v1.8.2/payload_queue.go:50-65`: duplicates are to be recorded for the
  next SACK, but the receiver pushes only what it has found not to be one, so none is ever reported.
- `third/pkg/mod/github.com/gorilla/websocket@v1.4.2/conn.go:751-774`: a client's WriteMessage of a control
  message also needs the message to fit the write buffer, not only the 125-byte limit.
- `third/pkg/mod/github.com/pion/rtcp@v1.2.10/receiver_report.go:167-173`: the length of a receiver report
  leaves out its extensions and counts their padding in words. In a compound packet a report with extensions
  does not come back.
- `third/pkg/mod/github.com/pion/rtcp@v1.2.10/reception_report.go:75-78`: total lost is refused from 2^25 on
  and written in 24 bits, so values from 2^24 on are cut.
- `third/pkg/mod/github.com/pion/rtcp@v1.2.10/full_intra_request.go:60-70`: the end of the list is computed in
  16 bits, so a request of 64 KiB or more does not come back.
- `third/pkg/mod/github.com/pion/rtcp@v1.2.10/slice_loss_indication.go:76-78`: the decoder refuses the packet
  type under which it is called, so slice loss indications are never decoded.
- `third/pkg/mod/github.com/pion/rtp@v1.7.13/packet.go:365-413`: SetExtension accepts headers that do not come
  back. An empty payload in the one-byte form is written as 0xFF, which a reader takes for the reserved
  identifier, and is lost. A first extension is not checked at all: in the one-byte form identifiers above 14
  do not come back, nor does 0 with a single byte, while 0 with 2 to 16 bytes does; in the two-byte form 0 does
  not; above 255 bytes the profile stays as it was, and only identifier 0 with whole words comes back. With an
  RFC 3550 profile in force whole words are not asked for either.
- `third/pkg/mod/github.com/pion/rtp@v1.7.13/packet.go:151-192`: the reserved identifier leaves the rest of the
  block to the payload, and an extension can run past the declared block.
- `third/pkg/mod/github.com/pion/rtp@v1.7.13/abssendtimeextension_test.go:8`: the tests allow 3800 ns where
  the conversion can lose 3815 ns.
- `third/pkg/mod/github.com/pion/rtp@v1.7.13/abssendtimeextension.go:55-78`: NTP seconds are kept in 32 bits and
  converted back within the era that ends on 7 February 2036, so from then on every estimate is wrong, as it is
  for times before 1970.
- `third/pkg/mod/github.com/eclipse/paho.mqtt.golang@v1.4.1/messageids.go:90-103`: a claim of identifier 0 is
  granted like any other.
- `keyframerequestfilter.go:45-98`: sends can be closer together than the minimum interval, for two reasons: two
  requests arrive before the first spawned send has run, or a tick waits while a request is sent. Without
  either they are spaced, and once one has happened the next sends can crowd.
- `keyframerequestfilter.go:64-78`: Shutdown drops the callback only if there is a timer, so a filter that does not
  tick keeps it. The model of rooms records only whether a peer's filter is between Startup and Shutdown.
- `room.go:72-86`: a newcomer is told of one ready publisher per session only.
- `session.go:101`: stop-push releases a read lock where it took the write lock. In Go that is a fatal error, so
  stop-push of an existing publisher ends the process after the unpub is sent. Locks are not modelled, and the
  StopPush step of the model goes on; the results about rooms therefore speak of runs that get past it.

## Model

| member | source | states |
|---|---|---|
| `Serial.ComparisonsAreDistances` | third/pkg/mod/github.com/pion/sctp@v1.8.2/util.go:20-34 | the 32-bit serial comparisons are statements about the forward distance on the circle; greater-than is the exact negation of less-or-equal, also at distance 2^31 |
| `Serial.SerialOrderIsTrueOrder` | third/pkg/mod/github.com/pion/sctp@v1.8.2/util.go:20-34 | on unbounded numbers less than 2^31 apart, serial order of the truncations is the true order |
| `SctpSackProofs.HandleSackKeepsInv` | third/pkg/mod/github.com/pion/sctp@v1.8.2/association.go:1571-1676 | every acceptable SACK keeps the sender invariant: the queue is the contiguous range above the ack point, the byte count is exact, the recovery exit point is in flight, the forward point lies over abandoned chunks only |
| `SctpSackProofs.HandleSackConservesCredit` | third/pkg/mod/github.com/pion/sctp@v1.8.2/association.go:1359-1454 | what a SACK credits, per stream and in total, is exactly what leaves the unacknowledged bytes in flight |
| `SctpSackProofs.MarkedExact` | third/pkg/mod/github.com/pion/sctp@v1.8.2/association.go:1415-1451 | among the chunks left in flight, exactly those covered by a gap block become acknowledged, and nothing else about them changes |
| `SctpSackProofs.FastRetransmissionMeaning` | third/pkg/mod/github.com/pion/sctp@v1.8.2/association.go:1516-1568 | counting misses changes nothing but miss indicators; the loss cut is applied only on entering recovery and only once, and the exit point is then in flight |
| `SctpSackProofs.RecoveryIsBracketed` | third/pkg/mod/github.com/pion/sctp@v1.8.2/association.go:1409-1412 | a SACK keeps the recovery under way, with its threshold and exit point, exactly while it acknowledges less than the exit point; a new episode cuts the windows once |
| `SctpSackProofs.AdvanceKeeps` | third/pkg/mod/github.com/pion/sctp@v1.8.2/association.go:1648-1669 | the forward point moves up over abandoned chunks only, and stops at the first one that is not abandoned |
| `SctpSackResponse.GrowMeaning` | third/pkg/mod/github.com/pion/sctp@v1.8.2/association.go:1470-1512 | for sums that do not wrap: in slow start the window grows by the bytes acknowledged, at most doubling, and not at all in recovery or with nothing pending; beyond it by one MTU exactly when a whole window has been acknowledged and something is pending, and the partial bytes less that window are carried over |
| `SctpSackResponse.GrowthShrinksOnlyByWrapping` | third/pkg/mod/github.com/pion/sctp@v1.8.2/association.go:1484-1506 | for all 32-bit values the window shrinks if and only if the sum wraps |
| `SctpSackResponse.CutMeaning` | third/pkg/mod/github.com/pion/sctp@v1.8.2/association.go:1550-1551 | the cut on loss and on timeout is the greater of half the window and four MTUs |
| `SctpSackResponse.SackMovesWindow` | third/pkg/mod/github.com/pion/sctp@v1.8.2/association.go:1571-1643 | over an accepted SACK the congestion window grows by what left the count of bytes in flight, by that law, and not if the ack point stays; the new window is the grown one, or its half if the SACK starts a recovery, in which case the threshold is the same and the partial bytes are 0 |
| `SctpSackResponse.HtnaMeaning` | third/pkg/mod/github.com/pion/sctp@v1.8.2/association.go:1415-1453 | the highest TSN newly acknowledged is the highest that a gap block acknowledges for the first time, or the cumulative ack if there is none |
| `SctpSackResponse.FastRetransmissionExact` | third/pkg/mod/github.com/pion/sctp@v1.8.2/association.go:1516-1568 | a miss indicator rises by exactly one if its chunk is neither acknowledged nor abandoned, has fewer than three misses, and lies below the highest TSN newly acknowledged (in recovery: if the ack point moved); every other chunk stays as it is; recovery starts if and only if one of those was missed twice before |
| `SctpSackResponse.SackCountsMisses` | third/pkg/mod/github.com/pion/sctp@v1.8.2/association.go:1571-1645 | over an accepted SACK a chunk is counted missing if and only if it is unacknowledged, not abandoned, below three, and the SACK acknowledges a later chunk for the first time or, in recovery, moves the ack point; recovery starts exactly on a third miss; a fast retransmission is due exactly then or when a SACK in recovery moves the ack point |
| `SctpSackResponse.SackUpdatesSender` | third/pkg/mod/github.com/pion/sctp@v1.8.2/association.go:1603-1669 | the peer window becomes the advertised one less the bytes in flight, or 0; the T3 timer runs if something is in flight once the ack point has moved; the forward point moves as far as it can, and a FORWARD TSN is due exactly if the oldest chunk is abandoned |
| `SctpTransmitProofs.PopPendingKeepsInv` | third/pkg/mod/github.com/pion/sctp@v1.8.2/association.go:2002-2057 | moving pending data into flight keeps the sender invariant |
| `SctpTransmitProofs.PopPendingDiscipline` | third/pkg/mod/github.com/pion/sctp@v1.8.2/association.go:2002-2057 | new data keeps the flight within cwnd and is paid for by rwnd, which does not underflow; the one exception is a single probe when nothing is in flight |
| `SctpTransmitProofs.PopPendingAppends` | third/pkg/mod/github.com/pion/sctp@v1.8.2/association.go:1975-1997 | new chunks are appended to the flight; those already there stay as they are |
| `SctpPendingProofs.PopPendingIsMaximal` | third/pkg/mod/github.com/pion/sctp@v1.8.2/association.go:2002-2057 | sending is maximal: the first n pending chunks are taken, in pop order, data entering flight under consecutive TSNs with its time and count and empty chunks becoming resets; it stops only if nothing is pending, the next chunk does not fit a window, or a single probe went out; messages are complete with their last fragment; something is in flight unless nothing is pending |
| `SctpTransmitProofs.RetransmitDiscipline` | third/pkg/mod/github.com/pion/sctp@v1.8.2/association.go:2150-2188 | a T3 batch keeps the invariant, contains exactly the chunks whose send count rose, and stays within min(cwnd, rwnd) or is the single oldest chunk sent as a probe |
| `SctpTransmitProofs.FastRetransmitDiscipline` | third/pkg/mod/github.com/pion/sctp@v1.8.2/association.go:692-748 | a fast retransmission fits one packet within the MTU and picks only chunks sent exactly once before |
| `SctpTransmitProofs.TimeoutKeepsInv` | third/pkg/mod/github.com/pion/sctp@v1.8.2/association.go:2355-2414 | a T3 timeout keeps the invariant and marks for retransmission exactly what is neither acknowledged nor abandoned |
| `SctpBatches.RetransmitIsMaximal` | third/pkg/mod/github.com/pion/sctp@v1.8.2/association.go:2150-2188 | a T3 batch is, in order, exactly the marked chunks among the first n, unmarked and counted once more; it ends at the end of the queue, at a marked chunk that does not fit min(cwnd, rwnd), or after a probe of the oldest chunk; messages are given up as the policies of the chunks sent say |
| `SctpBatches.OldestIsRetransmitted` | third/pkg/mod/github.com/pion/sctp@v1.8.2/association.go:2162-2185 | a marked oldest chunk that fits cwnd is always in the batch |
| `SctpBatches.TimeoutMovesWindow` | third/pkg/mod/github.com/pion/sctp@v1.8.2/association.go:2360-2371 | a timeout leaves one MTU of window and the greater of half the old one and four MTUs as threshold |
| `SctpBatches.TimeoutMovesForward` | third/pkg/mod/github.com/pion/sctp@v1.8.2/association.go:2373-2396 | it moves the forward point as far as it can, and a FORWARD TSN is due exactly if the oldest chunk is abandoned |
| `SctpBatches.TimeoutResendsOldest` | third/pkg/mod/github.com/pion/sctp@v1.8.2/association.go:2355-2414 | the batch that follows a timeout carries the oldest chunk, whatever the windows were, unless it is acknowledged, abandoned or larger than the MTU |
| `SctpBatches.FastRetransmitIsMaximal` | third/pkg/mod/github.com/pion/sctp@v1.8.2/association.go:692-748 | when one is due, a fast batch sends exactly the chunks among the first n that were missed three times, sent once and not given up by what was sent before them, and ends at the end of the queue or where one more would exceed the MTU; it clears the flag |
| `SctpPacketProofs.BundlingKeepsChunks` | third/pkg/mod/github.com/pion/sctp@v1.8.2/association.go:2063-2089 | bundling keeps the chunks and their order; an empty packet appears exactly when the first chunk alone fails the size test |
| `SctpPacketProofs.BundlingBound` | third/pkg/mod/github.com/pion/sctp@v1.8.2/association.go:2063-2089 | all packets stay within MTU plus one data-chunk header if and only if every chunk passes the size test on its own |
| `SctpPacketProofs.BundleMayExceedMtu` | third/pkg/mod/github.com/pion/sctp@v1.8.2/association.go:2074-2074 | a concrete list of chunks whose packet exceeds the MTU, since the test leaves out the new chunk's own header |
| `SctpPacketProofs.ForwardTSNMeaning` | third/pkg/mod/github.com/pion/sctp@v1.8.2/association.go:1753-1787 | a FORWARD TSN names the forward point, skips abandoned chunks only, lists exactly their streams, each with a number it skips; that number is the greatest if and only if the skipped ones span less than half the 16-bit circle |
| `SctpPacketProofs.ForwardTSNMayWrap` | third/pkg/mod/github.com/pion/sctp@v1.8.2/association.go:1762-1768 | three sequence numbers round the circle for which the reported one is not the greatest |
| `SctpChunks.PopFollowsMessages` | third/pkg/mod/github.com/pion/sctp@v1.8.2/pending_queue.go:73-130 | a pop of what was peeked never fails, takes the head of one of the two queues, unordered messages first, and continues the message under way until its last fragment |
| `SctpChunks.PushKeepsMessagesWhole` | third/pkg/mod/github.com/pion/sctp@v1.8.2/pending_queue.go:64-71 | pushing the fragments of a message keeps both queues sequences of whole messages |
| `SctpChunks.AbandonedByPolicy` | third/pkg/mod/github.com/pion/sctp@v1.8.2/association.go:2112-2145 | applying a partial-reliability policy takes no flag back, and abandons the chunk's message, and no other, exactly when FORWARD TSN is in use, the chunk is not a channel message, its stream is known, and the stream's limit on transmissions or lifetime is reached |
| `SctpReceiver.HandlersSettle` | third/pkg/mod/github.com/pion/sctp@v1.8.2/association.go:1204-1264 | after every DATA or FORWARD TSN chunk the next TSN expected is not in the payload queue |
| `SctpArrivals.DataIsTakenIn` | third/pkg/mod/github.com/pion/sctp@v1.8.2/association.go:1204-1237 | DATA of an open stream is taken in if and only if it is new and the receive buffer has room or it fills a hole below something received; no other TSN is gained or lost; otherwise, and if the stream is not open, the receiver is unchanged |
| `SctpArrivals.ForwardIsTakenIn` | third/pkg/mod/github.com/pion/sctp@v1.8.2/association.go:1827-1897 | a FORWARD TSN above the cumulative one gives the receiver everything up to it and nothing else; any other is ignored |
| `SctpReceiver.DrainMeaning` | third/pkg/mod/github.com/pion/sctp@v1.8.2/association.go:1241-1264 | the cumulative TSN passes exactly the TSNs queued contiguously above it, and they leave the queue |
| `SctpReceiver.SkipMeaning` | third/pkg/mod/github.com/pion/sctp@v1.8.2/association.go:1872-1876 | a FORWARD TSN moves the cumulative TSN to its own and drops exactly what lies at or below it |
| `SctpReceiver.GapBlocksExact` | third/pkg/mod/github.com/pion/sctp@v1.8.2/payload_queue.go:96-130 | the gap blocks cover exactly the offsets of the queued TSNs |
| `SctpReceiver.GapBlocksExactOnlyNear` | third/pkg/mod/github.com/pion/sctp@v1.8.2/payload_queue.go:96-130 | they do so if and only if every queued TSN is within the 16-bit offset range |
| `SctpReceiver.FarTSNIsMisreported` | third/pkg/mod/github.com/pion/sctp@v1.8.2/payload_queue.go:96-130 | TSN 65537 alone above cumulative TSN 0 is reported as TSN 1, which was not received |
| `SctpReceiver.GapBlocksMaximal` | third/pkg/mod/github.com/pion/sctp@v1.8.2/payload_queue.go:96-130 | blocks are in order and no two of them touch |
| `SctpRuns.HonestSackAcceptable` | third/pkg/mod/github.com/pion/sctp@v1.8.2/association.go:1359-1454 | no SACK that a run can deliver, however old or duplicated, makes handleSack meet a missing TSN |
| `SctpRunProofs.ActionKeeps` | third/pkg/mod/github.com/pion/sctp@v1.8.2/association.go:1571-1676 | every action of sender, receiver and network succeeds and keeps the system invariant |
| `SctpRunProofs.RunsAreSafe` | third/pkg/mod/github.com/pion/sctp@v1.8.2/association.go:1204-1282 | the system invariant holds in every state of every run over a lossy, duplicating, reordering network |
| `SctpRunProofs.InFlightIsExact` | third/pkg/mod/github.com/pion/sctp@v1.8.2/association.go:1975-1997 | in every run the flight is exactly the TSNs after the ack point and before the next one; the ack point never passes the receiver's cumulative TSN, which never passes the last TSN sent; no step ever failed |
| `SctpRunProofs.HandedAtMostOnce` | third/pkg/mod/github.com/pion/sctp@v1.8.2/association.go:1204-1237 | in every run each TSN goes to the stream layer at most once, and the cumulative TSN ends the maximal prefix received or skipped |
| `SctpRunProofs.AcknowledgedWasDelivered` | third/pkg/mod/github.com/pion/sctp@v1.8.2/association.go:1571-1676 | in every run what the sender counts as acknowledged was delivered, or abandoned by the sender itself |
| `SctpRunProofs.CreditIsConserved` | third/pkg/mod/github.com/pion/sctp@v1.8.2/association.go:1603-1641 | in every run bytes credited plus unacknowledged bytes in flight equal bytes ever put in flight |
| `SctpRunProofs.FastOnceAndFragmentsTogether` | third/pkg/mod/github.com/pion/sctp@v1.8.2/association.go:692-748 | in every run a TSN is fast-retransmitted at most once, and fragments of a message carry consecutive TSNs in order |
| `SctpRunProofs.NewDataFitsWindows` | third/pkg/mod/github.com/pion/sctp@v1.8.2/association.go:2002-2057 | in every run a step that puts data in flight keeps it within cwnd and is paid for by rwnd, except for a single chunk sent while nothing was in flight and a window was too small for it |
| `SctpRunProofs.ResentDataFitsWindows` | third/pkg/mod/github.com/pion/sctp@v1.8.2/association.go:2150-2188 | in every state of every run a T3 batch fits min(cwnd, rwnd) or is the oldest chunk alone, and a fast retransmission fits one packet |
| `SctpRunProofs.PointsAreInFlight` | third/pkg/mod/github.com/pion/sctp@v1.8.2/association.go:1516-1568 | in every run the recovery exit point is a TSN in flight, the forward point lies between ack point and last TSN sent over abandoned chunks only, and no miss indicator exceeds 3 |
| `SctpReliability.ActionFair` | third/pkg/mod/github.com/pion/sctp@v1.8.2/association.go:2112-2145 | every action keeps this: an abandoned message has had a fragment sent over a stream with a limit |
| `SctpProgress.ArrivalIsHanded` | third/pkg/mod/github.com/pion/sctp@v1.8.2/association.go:1204-1237 | in every run DATA that arrives is handed up if and only if its stream is open, it is above the cumulative TSN and was not handed before, and the buffer has room or later data has been received |
| `SctpProgress.ForwardIsFollowed` | third/pkg/mod/github.com/pion/sctp@v1.8.2/association.go:1827-1897 | in every run a FORWARD TSN that arrives moves the cumulative TSN at least as far as it says |
| `SctpProgress.EveryRunCanFinish` | third/pkg/mod/github.com/pion/sctp@v1.8.2/association.go:1204-1282 | from every state of every run some deliveries lead to an end in which every TSN assigned was handed up or skipped, every byte put in flight is credited, and nothing is in flight |
| `SctpProgress.TimerRunsWithFlight` | third/pkg/mod/github.com/pion/sctp@v1.8.2/association.go:1457-1467 | in every run that starts with the T3 timer stopped, it runs exactly while something is in flight |
| `SctpReliability.OnlyLossyIsGivenUp` | third/pkg/mod/github.com/pion/sctp@v1.8.2/association.go:1827-1897 | in every run a TSN that is given up by the sender or skipped by the receiver belongs to such a message |
| `SctpReliability.ReliableIsDelivered` | third/pkg/mod/github.com/pion/sctp@v1.8.2/association.go:1571-1676 | in every run a cumulatively acknowledged TSN of any other message was handed to the stream layer; without FORWARD TSN, every acknowledged TSN was |
| `SctpPayloadQueue.SortIsAscending` | third/pkg/mod/github.com/pion/sctp@v1.8.2/payload_queue.go:19-34 | sorting the keys of a window of TSNs gives them in serial order |
| `SctpPayloadQueue.PayloadQueue.UpdateSortedKeys` | third/pkg/mod/github.com/pion/sctp@v1.8.2/payload_queue.go:19-34 | the cached order is the sorted key set afterwards; the contents stay |
| `SctpPayloadQueue.PayloadQueue.PushNoCheck` | third/pkg/mod/github.com/pion/sctp@v1.8.2/payload_queue.go:44-48 | the chunk is stored under its TSN and the byte count grows by its length |
| `SctpPayloadQueue.PayloadQueue.Pop` | third/pkg/mod/github.com/pion/sctp@v1.8.2/payload_queue.go:68-81 | pops exactly when the TSN is the oldest one queued |
| `SctpPayloadQueue.PayloadQueue.Push` | third/pkg/mod/github.com/pion/sctp@v1.8.2/payload_queue.go:50-65 | stores a chunk that is new and above the cumulative TSN, and records the TSN of any other as a duplicate |
| `SctpPayloadQueue.PayloadQueue.MarkAsAcked` | third/pkg/mod/github.com/pion/sctp@v1.8.2/payload_queue.go:141-152 | the chunk is marked and emptied, and its bytes are taken off the count and returned; for a TSN not in the queue nothing changes and 0 is returned |
| `SctpPayloadQueue.PayloadQueue.MarkAllToRetransmit` | third/pkg/mod/github.com/pion/sctp@v1.8.2/payload_queue.go:164-171 | marks exactly the chunks neither acknowledged nor abandoned |
| `SctpPayloadQueue.PayloadQueue.GetGapAckBlocks` | third/pkg/mod/github.com/pion/sctp@v1.8.2/payload_queue.go:96-130 | returns the blocks of the sorted keys |
| `SctpPayloadQueue.PayloadQueue.GetLastTSNReceived` | third/pkg/mod/github.com/pion/sctp@v1.8.2/payload_queue.go:154-162 | returns the serially greatest key |
| `SctpInbound.Inbound.HandleData` | third/pkg/mod/github.com/pion/sctp@v1.8.2/association.go:1204-1237 | the object's queue and cumulative TSN change as the receiver function says: a settled receiver gains the TSN exactly if it is new, the stream is open and there is room or a hole, and nothing else |
| `SctpInbound.Inbound.HandlePeerLastTSN` | third/pkg/mod/github.com/pion/sctp@v1.8.2/association.go:1241-1264 | the drain loop ends and computes the drain function |
| `SctpInbound.Inbound.HandleForwardTSN` | third/pkg/mod/github.com/pion/sctp@v1.8.2/association.go:1827-1897 | the skip and drain loops compute the receiver function |
| `SctpInbound.Inbound.CreateSelectiveAckChunk` | third/pkg/mod/github.com/pion/sctp@v1.8.2/association.go:2206-2213 | the SACK carries the cumulative TSN and the gap blocks of the queue; its list of duplicates is empty whatever arrived, since only what can be pushed is ever pushed |
| `SctpOutbound.Outbound.PopAcked` | third/pkg/mod/github.com/pion/sctp@v1.8.2/association.go:1362-1413 | the cumulative part of a SACK, popping from the map chunk by chunk, computes the specification |
| `SctpOutbound.Outbound.ProcessSelectiveAck` | third/pkg/mod/github.com/pion/sctp@v1.8.2/association.go:1359-1454 | cumulative and gap parts together give the specified queue, credit and highest newly acknowledged TSN |
| `SctpOutbound.Outbound.OnCumulativeTSNAckPointAdvanced` | third/pkg/mod/github.com/pion/sctp@v1.8.2/association.go:1457-1513 | slow start or congestion avoidance by the law of GrowMeaning, and the T3 timer runs exactly if something is in flight |
| `SctpOutbound.Outbound.ProcessFastRetransmission` | third/pkg/mod/github.com/pion/sctp@v1.8.2/association.go:1516-1568 | the loop counts as missing exactly the chunks reported, leaves the others, and starts recovery exactly on a third miss |
| `SctpOutbound.Outbound.AdvancePeerAckPoint` | third/pkg/mod/github.com/pion/sctp@v1.8.2/association.go:1648-1669 | the loop over abandoned TSNs computes the specification |
| `SctpOutbound.Outbound.HandleSack` | third/pkg/mod/github.com/pion/sctp@v1.8.2/association.go:1571-1676 | succeeds exactly when the SACK is acceptable, and then the object becomes what the specification says, with the same credit |
| `SctpOutbound.Outbound.MovePendingDataChunkToInflightQueue` | third/pkg/mod/github.com/pion/sctp@v1.8.2/association.go:1975-1997 | one pending chunk gets the next TSN and enters flight as specified |
| `SctpOutbound.Outbound.PopPendingDataChunksToSend` | third/pkg/mod/github.com/pion/sctp@v1.8.2/association.go:2002-2057 | the window loop and the probe compute the specification |
| `SctpOutbound.Outbound.GetDataChunksToRetransmit` | third/pkg/mod/github.com/pion/sctp@v1.8.2/association.go:2150-2188 | the T3 batch loop returns the marked chunks among the first n, and ends there for the end of the queue, a window or a probe |
| `SctpOutbound.Outbound.GatherFastRetransmission` | third/pkg/mod/github.com/pion/sctp@v1.8.2/association.go:692-748 | the fast-retransmit loop computes the specification |
| `SctpOutbound.Outbound.OnRetransmissionTimeout` | third/pkg/mod/github.com/pion/sctp@v1.8.2/association.go:2355-2414 | windows, recovery, forward point and marks as specified |
| `SctpOutbound.Outbound.CreateForwardTSN` | third/pkg/mod/github.com/pion/sctp@v1.8.2/association.go:1753-1787 | the loop over skipped TSNs builds the specified stream list |
| `SctpOutbound.BundleDataChunks` | third/pkg/mod/github.com/pion/sctp@v1.8.2/association.go:2063-2089 | the bundling loop computes the packet list |
| `WsMask.MaskInvolution` | third/pkg/mod/github.com/gorilla/websocket@v1.4.2/mask_safe.go:9-15 | masking twice with the same key and position is the identity |
| `WsMask.MaskSplits` | third/pkg/mod/github.com/gorilla/websocket@v1.4.2/mask_safe.go:9-15 | masking composes over any split of the buffer |
| `WsMask.MaskBytesSafe` | third/pkg/mod/github.com/gorilla/websocket@v1.4.2/mask_safe.go:9-15 | masks exactly the given stretch of the buffer in place and returns the position modulo 4 |
| `WsMask.MaskBytes` | third/pkg/mod/github.com/gorilla/websocket@v1.4.2/mask.go:13-54 | word-wise masking does the same, for every key, position, length, alignment, word size 4 or 8 and byte order, and returns the next position |
| `WsMask.WordXorInMemory` | third/pkg/mod/github.com/gorilla/websocket@v1.4.2/mask.go:41-44 | exclusive or of words loaded from memory is the exclusive or of their bytes, in either byte order |
| `WsFrames.LengthIsMinimal` | third/pkg/mod/github.com/gorilla/websocket@v1.4.2/conn.go:580-594 | the length form written reads back as the length and no valid form is shorter |
| `WsWriter.Writer.FlushFrame` | third/pkg/mod/github.com/gorilla/websocket@v1.4.2/conn.go:549-634 | emits one frame holding what was buffered and passed; control limits are checked first |
| `WsWriter.Writer.Write` | third/pkg/mod/github.com/gorilla/websocket@v1.4.2/conn.go:650-675 | after any writes the content so far is their concatenation, whatever was flushed on the way |
| `WsWriter.Writer.Close` | third/pkg/mod/github.com/gorilla/websocket@v1.4.2/conn.go:720-725 | the message is then whole for any reader of the frames, exactly as written |
| `WsWriter.Writer.NextWriter` | third/pkg/mod/github.com/gorilla/websocket@v1.4.2/conn.go:468-523 | opens a message of a valid type; one still open is finished first, exactly as written |
| `WsWriter.Writer.WriteMessage` | third/pkg/mod/github.com/gorilla/websocket@v1.4.2/conn.go:751-774 | one message with exactly these bytes, after one still open is finished; succeeds exactly under the stated type and size conditions |
| `WsWriter.Writer.WriteControl` | third/pkg/mod/github.com/gorilla/websocket@v1.4.2/conn.go:406-465 | a control frame on its own leaves an unfinished message and its buffer as they are |
| `WsReader.AdvanceConsumes` | third/pkg/mod/github.com/gorilla/websocket@v1.4.2/conn.go:787-952 | every frame accepted takes at least two bytes, so reading ends on every input; continuation frames are accepted exactly inside a message |
| `WsAcceptance.HeaderDecides` | third/pkg/mod/github.com/gorilla/websocket@v1.4.2/conn.go:787-952 | every header that comes, in whatever length form, is decided by what it says: a frame in order, masked exactly for a server and within the limits, is taken; otherwise it is refused with a protocol error or the read limit |
| `WsAcceptance.OnlyLegalIsTaken` | third/pkg/mod/github.com/gorilla/websocket@v1.4.2/conn.go:787-952 | on every input, whatever is taken is one frame with a legal header, and only a close frame ends the connection in order |
| `WsAcceptance.ClosesInOrder` | third/pkg/mod/github.com/gorilla/websocket@v1.4.2/conn.go:926-948 | a close payload is accepted if and only if it is shorter than a status, or has a status that may be sent and a reason that is the UTF-8 encoding of Unicode text |
| `WsReader.CollectAfterRead` | third/pkg/mod/github.com/gorilla/websocket@v1.4.2/conn.go:1009-1054 | reading any number of bytes first does not change what the message turns out to be |
| `WsReader.Reader.AdvanceFrame` | third/pkg/mod/github.com/gorilla/websocket@v1.4.2/conn.go:787-952 | the parser on the buffered input computes the specification, with every protocol error, also for close codes and close texts that are not allowed |
| `WsReader.Reader.NextReader` | third/pkg/mod/github.com/gorilla/websocket@v1.4.2/conn.go:969-1005 | finds the next message, handling control frames on the way; an error is remembered and returned again on later calls, and the thousandth failing call stops the program |
| `WsReader.Reader.Read` | third/pkg/mod/github.com/gorilla/websocket@v1.4.2/conn.go:1009-1054 | returns unmasked bytes of the message, end of message or the specified error; also on a reader that is finished, after an error, and into an empty buffer |
| `WsReader.Reader.ReadAll` | third/pkg/mod/github.com/gorilla/websocket@v1.4.2/conn.go:1009-1054 | pieces of any size give the same message, or the same error |
| `WsRoundTrip.FrameArrives` | third/pkg/mod/github.com/gorilla/websocket@v1.4.2/conn.go:787-952 | advancing over an encoded frame yields its opcode, flags and payload |
| `WsRoundTrip.FinishMessage` | third/pkg/mod/github.com/gorilla/websocket@v1.4.2/conn.go:1009-1054 | from inside a message, reading collects exactly what is missing of it |
| `WsRoundTrip.MessageArrives` | third/pkg/mod/github.com/gorilla/websocket@v1.4.2/conn.go:969-1054 | the next message read is the next one sent, type and bytes, with interleaved control frames handled in order |
| `WsRoundTrip.ReadBack` | third/pkg/mod/github.com/gorilla/websocket@v1.4.2/conn.go:1062-1070 | a peer of the opposite role reads back exactly the messages written, in order, for any write and read sizes and buffers |
| `RtcpPackets.HeaderRoundTrip` | third/pkg/mod/github.com/pion/rtcp@v1.2.10/header.go:89-144 | the common header is restored |
| `RtcpAcceptance.HeaderExact` | third/pkg/mod/github.com/pion/rtcp@v1.2.10/header.go:89-144 | a header is read if and only if the first four bytes are its encoding, version included |
| `RtcpAcceptance.SRExact` | third/pkg/mod/github.com/pion/rtcp@v1.2.10/sender_report.go:131-216 | a sender report is decoded if and only if the header announces its number of blocks and the body is its encoding |
| `RtcpAcceptance.RRExact` | third/pkg/mod/github.com/pion/rtcp@v1.2.10/receiver_report.go:97-155 | the same for a receiver report, whose extensions are whatever follows the blocks |
| `RtcpAcceptance.SDESExact` | third/pkg/mod/github.com/pion/rtcp@v1.2.10/source_description.go:124-167 | a source description is decoded if and only if the header announces its number of chunks and the body holds them one after the other, each terminated and padded to whole words |
| `RtcpAcceptance.BYEExact` | third/pkg/mod/github.com/pion/rtcp@v1.2.10/goodbye.go:65-118 | a goodbye is decoded if and only if it is whole words, announces its number of sources and holds them and the reason with its length |
| `RtcpAcceptance.NackExact` | third/pkg/mod/github.com/pion/rtcp@v1.2.10/transport_layer_nack.go:117-144 | a NACK is decoded if and only if the header announces one and the body up to its length is the encoding of sources and pairs |
| `RtcpAcceptance.PliExact` | third/pkg/mod/github.com/pion/rtcp@v1.2.10/picture_loss_indication.go:45-67 | a picture loss indication is decoded if and only if the header announces one and the two sources follow |
| `RtcpAcceptance.FirExact` | third/pkg/mod/github.com/pion/rtcp@v1.2.10/full_intra_request.go:49-76 | a full intra request is decoded if and only if the header announces one, the two sources follow, and as many entries as the length asks for lie eight bytes apart |
| `RtcpPackets.ReportRoundTrip` | third/pkg/mod/github.com/pion/rtcp@v1.2.10/reception_report.go:48-126 | a report block comes back with total lost cut to 24 bits, so as it was if and only if that fits |
| `RtcpPackets.SRRoundTrip` | third/pkg/mod/github.com/pion/rtcp@v1.2.10/sender_report.go:57-216 | a sender report with blocks and extension is restored if and only if every total lost fits 24 bits |
| `RtcpPackets.RRRoundTrip` | third/pkg/mod/github.com/pion/rtcp@v1.2.10/receiver_report.go:29-155 | a receiver report is restored by its own decoder if and only if every total lost fits 24 bits and the extensions are whole words |
| `RtcpPackets.RRLength` | third/pkg/mod/github.com/pion/rtcp@v1.2.10/receiver_report.go:167-173 | its length field is the length of the packet if and only if the extensions have 0, 3, 6 or 9 bytes |
| `RtcpPackets.ChunkRoundTrip` | third/pkg/mod/github.com/pion/rtcp@v1.2.10/source_description.go:194-255 | null termination and padding of a chunk are undone, whatever follows it |
| `RtcpPackets.SDESRoundTrip` | third/pkg/mod/github.com/pion/rtcp@v1.2.10/source_description.go:78-167 | a source description is restored and takes whole words |
| `RtcpPackets.BYERoundTrip` | third/pkg/mod/github.com/pion/rtcp@v1.2.10/goodbye.go:17-118 | a goodbye with reason and padding is restored |
| `RtcpPackets.NackRoundTrip` | third/pkg/mod/github.com/pion/rtcp@v1.2.10/transport_layer_nack.go:95-144 | a transport-layer NACK is restored |
| `RtcpPackets.PliRoundTrip` | third/pkg/mod/github.com/pion/rtcp@v1.2.10/picture_loss_indication.go:22-67 | a picture loss indication is restored |
| `RtcpPackets.FirRoundTrip` | third/pkg/mod/github.com/pion/rtcp@v1.2.10/full_intra_request.go:31-76 | a full intra request is restored if and only if it is shorter than 64 KiB |
| `RtcpCompound.StepConsumes` | third/pkg/mod/github.com/pion/rtcp@v1.2.10/packet.go:55-120 | on every input a successful step takes at least four bytes and no more than there are, also when the length field wraps |
| `RtcpCompound.SliceLossAlwaysRefused` | third/pkg/mod/github.com/pion/rtcp@v1.2.10/slice_loss_indication.go:76-78 | no slice loss indication is ever decoded: the decoder asks for another packet type than the one it is dispatched on |
| `RtcpCompound.RRRecognisedWhenPlain` | third/pkg/mod/github.com/pion/rtcp@v1.2.10/receiver_report.go:167-173 | in a compound packet a receiver report is recognised if and only if it has no extensions and every total lost fits 24 bits |
| `RtcpCompound.ExtensionsReadAsPackets` | third/pkg/mod/github.com/pion/rtcp@v1.2.10/receiver_report.go:167-173 | extensions of whole words are read as the packets that follow the report |
| `RtcpCompound.ExtensionsMayBeRefused` | third/pkg/mod/github.com/pion/rtcp@v1.2.10/packet.go:18-51 | a report with four bytes of extensions is marshalled, and Unmarshal of the bytes fails |
| `RtcpCompound.AllRoundTrip` | third/pkg/mod/github.com/pion/rtcp@v1.2.10/packet.go:41-51 | any list of valid packets, marshalled one after the other, is decoded to the list |
| `RtcpCompound.CompoundRoundTrip` | third/pkg/mod/github.com/pion/rtcp@v1.2.10/packet.go:18-51 | Unmarshal of Marshal gives back every nonempty list of valid packets |
| `RtcpAcceptance.CompoundExact` | third/pkg/mod/github.com/pion/rtcp@v1.2.10/packet.go:18-38 | Unmarshal succeeds if and only if the input is one or more packets, one after the other and nothing else, each of the length its header gives and accepted by its decoder |
| `RtcpLoops.UnmarshalPackets` | third/pkg/mod/github.com/pion/rtcp@v1.2.10/packet.go:18-38 | the decoding loop ends on every input and computes the specification |
| `RtcpLoops.MarshalPackets` | third/pkg/mod/github.com/pion/rtcp@v1.2.10/packet.go:41-51 | the encoding loop computes the concatenation, or fails with the first packet that fails |
| `RtcpLoops.UnmarshalItems` | third/pkg/mod/github.com/pion/rtcp@v1.2.10/source_description.go:225-255 | the item loop ends at the null octet, or fails as specified |
| `RtcpLoops.UnmarshalChunk` | third/pkg/mod/github.com/pion/rtcp@v1.2.10/source_description.go:225-268 | a chunk and its padded length |
| `RtcpLoops.UnmarshalChunks` | third/pkg/mod/github.com/pion/rtcp@v1.2.10/source_description.go:124-167 | the chunk loop computes the specification |
| `RtcpLoops.UnmarshalReports` | third/pkg/mod/github.com/pion/rtcp@v1.2.10/receiver_report.go:97-155 | the report loop computes the specification |
| `RtcpLoops.UnmarshalNacks` | third/pkg/mod/github.com/pion/rtcp@v1.2.10/transport_layer_nack.go:117-144 | the pair loop computes the specification |
| `RtcpLoops.UnmarshalFirs` | third/pkg/mod/github.com/pion/rtcp@v1.2.10/full_intra_request.go:49-76 | the entry loop computes the specification |
| `RtcpLoops.UnmarshalSources` | third/pkg/mod/github.com/pion/rtcp@v1.2.10/goodbye.go:65-118 | the source loop computes the specification |
| `RtcpNack.NackPairsFromSequenceNumbers` | third/pkg/mod/github.com/pion/rtcp@v1.2.10/transport_layer_nack.go:38-57 | the compression loop computes the pairs |
| `RtcpNack.RangeAll` | third/pkg/mod/github.com/pion/rtcp@v1.2.10/transport_layer_nack.go:61-87 | the expansion loop, which stops when the bitmap is used up, yields the pair's list |
| `RtcpNack.WireRoundTrip` | third/pkg/mod/github.com/pion/rtcp@v1.2.10/transport_layer_nack.go:38-57 | a pair's flags survive the 16-bit bitmap |
| `RtcpNack.FieldRoundTrip` | third/pkg/mod/github.com/pion/rtcp@v1.2.10/transport_layer_nack.go:61-87 | every 16-bit bitmap is that of its flags |
| `RtcpNack.CompressionIsExact` | third/pkg/mod/github.com/pion/rtcp@v1.2.10/transport_layer_nack.go:38-87 | for every list, the pairs made of it, put into their 16-bit fields and read back, expand to a list with exactly its numbers |
| `RtcpNack.IncreasingRoundTrip` | third/pkg/mod/github.com/pion/rtcp@v1.2.10/transport_layer_nack.go:38-87 | for a strictly increasing list that expansion is the list itself |
| `RtcpNack.CompressionIsOptimal` | third/pkg/mod/github.com/pion/rtcp@v1.2.10/transport_layer_nack.go:38-57 | no family of 17-wide windows covering a strictly increasing list is smaller |
| `RtcpTwcc.ChunkRoundTrips` | third/pkg/mod/github.com/pion/rtcp@v1.2.10/transport_layer_cc.go:111-238 | run-length and both kinds of status vector chunks are restored from their 16-bit word |
| `RtcpTwcc.DeltasRoundTrip` | third/pkg/mod/github.com/pion/rtcp@v1.2.10/transport_layer_cc.go:256-295 | small and large deltas are restored |
| `RtcpTwcc.StatusRoundTrip` | third/pkg/mod/github.com/pion/rtcp@v1.2.10/transport_layer_cc.go:470-519 | the chunk loop restores the chunks and the symbol of every packet counted |
| `RtcpTwcc.FeedbackRoundTrip` | third/pkg/mod/github.com/pion/rtcp@v1.2.10/transport_layer_cc.go:393-543 | a valid feedback packet is restored by Unmarshal of Marshal, which has the length Len says |
| `RtcpTwccAcceptance.WordIsChunk` | third/pkg/mod/github.com/pion/rtcp@v1.2.10/transport_layer_cc.go:111-238 | every 16-bit word is the word of the chunk read from it |
| `RtcpTwccAcceptance.WordMeaning` | third/pkg/mod/github.com/pion/rtcp@v1.2.10/transport_layer_cc.go:136-238 | which bits of a word are the kind, the symbol and length of a run, and each symbol of a vector, most significant first |
| `RtcpTwccAcceptance.DeltaPerPacket` | third/pkg/mod/github.com/pion/rtcp@v1.2.10/transport_layer_cc.go:470-519 | the deltas announced are one for each packet received among those counted, of the size its status says, in order, and one for each that a last vector reports beyond the count |
| `RtcpTwccAcceptance.FeedbackFrom` | third/pkg/mod/github.com/pion/rtcp@v1.2.10/transport_layer_cc.go:446-543 | feedback is read only from a header that announces it, and fixed fields, chunks and deltas encode to the bytes that follow; up to 65522 packets the chunks are exactly the ones needed and the deltas the ones they announce |
| `RtcpTwcc.UnmarshalStatus` | third/pkg/mod/github.com/pion/rtcp@v1.2.10/transport_layer_cc.go:470-519 | the chunk loop ends on every input and computes the specification |
| `RtpPacket.ListRoundTrip` | third/pkg/mod/github.com/pion/rtp@v1.7.13/packet.go:151-192 | extensions of either RFC 8285 form are restored and alignment padding is skipped |
| `RtpPacket.MarshalSizeIs` | third/pkg/mod/github.com/pion/rtp@v1.7.13/packet.go:335-362 | MarshalSize is the size of what is marshalled |
| `RtpPacket.HeaderRoundTrip` | third/pkg/mod/github.com/pion/rtp@v1.7.13/packet.go:79-206 | every field of a valid header is restored, and exactly MarshalSize bytes are consumed |
| `RtpPacket.PacketRoundTrip` | third/pkg/mod/github.com/pion/rtp@v1.7.13/packet.go:209-224 | a packet with payload and padding is restored, whatever the padding holds |
| `RtpMarshal.HeaderSize` | third/pkg/mod/github.com/pion/rtp@v1.7.13/packet.go:335-362 | the size loop computes the size |
| `RtpMarshal.PutFixed` | third/pkg/mod/github.com/pion/rtp@v1.7.13/packet.go:259-278 | flag bits set in place give the fixed part |
| `RtpMarshal.PutCsrc` | third/pkg/mod/github.com/pion/rtp@v1.7.13/packet.go:280-284 | the contributing sources follow what was written |
| `RtpMarshal.PutOneByte` | third/pkg/mod/github.com/pion/rtp@v1.7.13/packet.go:294-299 | extensions in the one-byte form follow what was written |
| `RtpMarshal.PutTwoByte` | third/pkg/mod/github.com/pion/rtp@v1.7.13/packet.go:301-308 | extensions in the two-byte form follow what was written |
| `RtpMarshal.PutBlock` | third/pkg/mod/github.com/pion/rtp@v1.7.13/packet.go:286-329 | profile, length filled in afterwards, extensions and zero padding form the extension block |
| `RtpMarshal.MarshalHeaderTo` | third/pkg/mod/github.com/pion/rtp@v1.7.13/packet.go:238-332 | for fields of any value, fails exactly when the buffer is short or an RFC 3550 extension is not whole words; otherwise writes the header's encoding, MarshalSize bytes, and nothing beyond; a short buffer is not touched |
| `RtpMarshal.MarshalPacketTo` | third/pkg/mod/github.com/pion/rtp@v1.7.13/packet.go:472-490 | fails exactly when the buffer is short or the header fails; otherwise writes the packet, MarshalSize bytes, keeping old contents inside the padding |
| `RtpMarshal.UnmarshalOneByte` | third/pkg/mod/github.com/pion/rtp@v1.7.13/packet.go:153-172 | the one-byte loop computes the specification on every input |
| `RtpMarshal.UnmarshalTwoByte` | third/pkg/mod/github.com/pion/rtp@v1.7.13/packet.go:175-192 | the two-byte loop computes the specification on every input |
| `RtpMarshal.UnmarshalHeader` | third/pkg/mod/github.com/pion/rtp@v1.7.13/packet.go:79-206 | the header parser computes the specification, errors included |
| `RtpMarshal.UnmarshalPacket` | third/pkg/mod/github.com/pion/rtp@v1.7.13/packet.go:209-224 | the packet parser computes the specification, errors included |
| `RtpExtensions.PutIsUpdate` | third/pkg/mod/github.com/pion/rtp@v1.7.13/packet.go:390-398 | setting an extension changes the value found under its identifier and no other, and adds no second entry for it |
| `RtpExtensions.RemoveOne` | third/pkg/mod/github.com/pion/rtp@v1.7.13/packet.go:446-457 | deleting takes out one entry of the identifier and leaves what is found under others |
| `RtpExtensions.RemovedWhenUnique` | third/pkg/mod/github.com/pion/rtp@v1.7.13/packet.go:446-457 | after deleting the identifier is not found if and only if it had at most one entry |
| `RtpExtensions.RemoveUndoesPut` | third/pkg/mod/github.com/pion/rtp@v1.7.13/packet.go:365-457 | deleting an extension just added restores the list |
| `RtpExact.RestoredWhenValid` | third/pkg/mod/github.com/pion/rtp@v1.7.13/packet.go:79-332 | for every header the encoder takes, marshalling succeeds and unmarshalling restores it if and only if it is valid: fields in range, extensions readable in their form, block length within its field, none without the extension bit |
| `RtpExact.PacketRestoredWhenValid` | third/pkg/mod/github.com/pion/rtp@v1.7.13/packet.go:209-490 | a packet is restored if and only if its header is valid and has the padding bit set exactly when there is padding |
| `RtpAcceptance.HeaderFrom` | third/pkg/mod/github.com/pion/rtp@v1.7.13/packet.go:79-206 | on every input: a header without extensions is read if and only if its fixed part and sources are there, one with extensions only if its declared block is; what is read encodes to the bytes it was read from |
| `RtpAcceptance.PacketFrom` | third/pkg/mod/github.com/pion/rtp@v1.7.13/packet.go:209-224 | a packet is read if and only if the input is its header, its payload and its padding, whose last byte is its size exactly if the padding bit is set |
| `RtpExact.HeaderShape` | third/pkg/mod/github.com/pion/rtp@v1.7.13/packet.go:79-206 | whatever the input, a header read has fields in range and extensions readable in the form its profile says; in the RFC 3550 form one extension of whole words |
| `RtpExact.ConsumesDeclaredBlock` | third/pkg/mod/github.com/pion/rtp@v1.7.13/packet.go:151-192 | Unmarshal consumes exactly the extension block the header declares if and only if its padding and extensions tile it |
| `RtpExact.ReservedEndsEarly` | third/pkg/mod/github.com/pion/rtp@v1.7.13/packet.go:165-167 | the reserved identifier ends the list after one byte, and the rest of the block becomes payload |
| `RtpExact.ExtensionRunsOver` | third/pkg/mod/github.com/pion/rtp@v1.7.13/packet.go:175-192 | an extension longer than what is left of the block takes payload bytes |
| `RtpExtensions.SetSurvivesWhenSuited` | third/pkg/mod/github.com/pion/rtp@v1.7.13/packet.go:365-413 | after an accepted SetExtension on a valid header, marshalling succeeds and unmarshalling restores the header if and only if: a one-byte payload is not empty and the block length still fits, an RFC 3550 payload is whole words that fit, and the identifier of a first extension suits the form its size selects |
| `RtpAcceptance.RefusedWhenUnreadable` | third/pkg/mod/github.com/pion/rtp@v1.7.13/packet.go:365-388 | with extensions enabled, SetExtension refuses exactly what the profile in force cannot carry, but that in the one-byte form it accepts an empty payload and refuses identifier 0 whatever the payload |
| `RtpExtensions.EmptyPayloadByte` | third/pkg/mod/github.com/pion/rtp@v1.7.13/packet.go:294-299 | an empty payload in the one-byte form is written as the byte 0xFF |
| `RtpExtensions.EmptyPayloadIsLost` | third/pkg/mod/github.com/pion/rtp@v1.7.13/packet.go:369-375 | the call is accepted, and a reader of the bytes finds the extensions set before and not this one |
| `RtpExtensions.HeaderObject.SetExtension` | third/pkg/mod/github.com/pion/rtp@v1.7.13/packet.go:365-413 | refuses by the limits of the profile in force, else updates or appends; nothing else changes |
| `RtpExtensions.HeaderObject.GetExtension` | third/pkg/mod/github.com/pion/rtp@v1.7.13/packet.go:433-443 | the first entry of the identifier, if extensions are enabled |
| `RtpExtensions.HeaderObject.DelExtension` | third/pkg/mod/github.com/pion/rtp@v1.7.13/packet.go:446-457 | removes the first entry, or reports why not and changes nothing |
| `AbsSendTime.WireRoundTrip` | third/pkg/mod/github.com/pion/rtp@v1.7.13/abssendtimeextension.go:18-33 | three bytes carry the low 24 bits of the timestamp and only those |
| `AbsSendTime.EstimateExact` | third/pkg/mod/github.com/pion/rtp@v1.7.13/abssendtimeextension.go:37-46 | the truncated send time is recovered if and only if it is less than 64 seconds before the receive time on the 64-bit circle |
| `AbsSendTime.ToNtpScales` | third/pkg/mod/github.com/pion/rtp@v1.7.13/abssendtimeextension.go:55-67 | within the era the conversion is one scaling rounded down |
| `AbsSendTime.ToTimeScales` | third/pkg/mod/github.com/pion/rtp@v1.7.13/abssendtimeextension.go:69-78 | and so is the conversion back, for every 64-bit NTP time |
| `AbsSendTime.EstimateIsOffByBlocks` | third/pkg/mod/github.com/pion/rtp@v1.7.13/abssendtimeextension.go:37-53 | in every case the estimate is the send time less at most 3815 ns, but for whole blocks of 64 seconds |
| `AbsSendTime.EstimateBounds` | third/pkg/mod/github.com/pion/rtp@v1.7.13/abssendtimeextension.go:37-53 | over the wire, the estimate is not after the true send time and at most 3815 ns before it, if and only if the send time lies in the NTP era that ends in 2036 and is less than 64 seconds before the receive time |
| `AbsSendTime.EraEnds` | third/pkg/mod/github.com/pion/rtp@v1.7.13/abssendtimeextension.go:55-78 | the first moment after that era, sent and received at once, is estimated one era too early |
| `AbsSendTime.DelayIsRecent` | third/pkg/mod/github.com/pion/rtp@v1.7.13/abssendtimeextension.go:37-46 | every delay up to 64 s less 3815 ns meets that condition |
| `AbsSendTime.LossIsAttained` | third/pkg/mod/github.com/pion/rtp@v1.7.13/abssendtimeextension.go:55-78 | the bound of 3815 ns is attained |
| `MqttMessageIds.SearchMeaning` | third/pkg/mod/github.com/eclipse/paho.mqtt.golang@v1.4.1/messageids.go:107-127 | 0 if and only if all of 1..65535 are in use; otherwise the first free identifier cyclically after the last issued |
| `MqttMessageIds.ReusedOnlyAsLastResort` | third/pkg/mod/github.com/eclipse/paho.mqtt.golang@v1.4.1/messageids.go:107-127 | the identifier issued last is issued again only if no other is free |
| `MqttMessageIds.NotReissuedAtOnce` | third/pkg/mod/github.com/eclipse/paho.mqtt.golang@v1.4.1/messageids.go:84-127 | an identifier just issued, or claimed beyond the last one issued, and given back is free, and is not issued next unless every other one is in use |
| `MqttMessageIds.StepKeeps` | third/pkg/mod/github.com/eclipse/paho.mqtt.golang@v1.4.1/messageids.go:84-127 | every operation keeps live grants and index in agreement |
| `MqttMessageIds.LiveTokensNeverShare` | third/pkg/mod/github.com/eclipse/paho.mqtt.golang@v1.4.1/messageids.go:84-127 | after every run of get, free, claim and clean-up, live tokens hold different identifiers, each found under its own |
| `MqttMessageIds.ValidUnless0IsClaimed` | third/pkg/mod/github.com/eclipse/paho.mqtt.golang@v1.4.1/messageids.go:84-127 | all through a run no live token holds 0 if and only if the run never claims it |
| `MqttMessageIds.ClaimOf0IsLive` | third/pkg/mod/github.com/eclipse/paho.mqtt.golang@v1.4.1/messageids.go:90-103 | a claim of 0, after any run, is granted |
| `MqttMessageIds.MessageIds.GetID` | third/pkg/mod/github.com/eclipse/paho.mqtt.golang@v1.4.1/messageids.go:107-127 | the search loop ends and finds what the specification says |
| `MqttMessageIds.MessageIds.FreeID` | third/pkg/mod/github.com/eclipse/paho.mqtt.golang@v1.4.1/messageids.go:84-88 | the identifier and its grant are gone |
| `MqttMessageIds.MessageIds.ClaimID` | third/pkg/mod/github.com/eclipse/paho.mqtt.golang@v1.4.1/messageids.go:90-103 | the identifier changes hands and the former holder is completed |
| `MqttMessageIds.MessageIds.CleanUpAll` | third/pkg/mod/github.com/eclipse/paho.mqtt.golang@v1.4.1/messageids.go:46-64 | all tokens are completed and forgotten |
| `KeyframeFilters.OwedAlways` | keyframerequestfilter.go:80-135 | every event, in any interleaving, keeps an unserved request owed |
| `KeyframeFilters.UnservedIsOwed` | keyframerequestfilter.go:80-135 | after any interleaving since Startup, an unserved request has a spawned send, or is cached with the timer armed for lasttime plus the minimum interval or already gone off |
| `KeyframeFilters.UnservedCanBeServed` | keyframerequestfilter.go:45-61 | and at most three internal events, none waiting beyond the minimum interval, serve it |
| `KeyframeFilters.RequestIsPromptOrWaits` | keyframerequestfilter.go:80-98 | a request is served at once by one send if none is cached and the minimum interval is over; otherwise it waits, cached, and starts no send of its own |
| `KeyframeFilters.GuardedSendsAreSpaced` | keyframerequestfilter.go:80-115 | in every interleaving in which nothing is spawned while a send is pending and no send runs while a tick waits, consecutive sends are at least the minimum interval apart |
| `KeyframeFilters.BrokenGuardCrowds` | keyframerequestfilter.go:80-115 | from any state, an event that breaks either condition can be followed by two sends at the same moment |
| `KeyframeFilters.UnguardedCrowds` | keyframerequestfilter.go:80-115 | every interleaving that breaks one has a prefix which can be continued to sends closer than the minimum interval |
| `KeyframeFilters.StaleTickMayCrowd` | keyframerequestfilter.go:45-61 | a tick waiting while a request is sent gives two sends at the same moment, with nothing spawned early |
| `KeyframeFilters.SendsAreSpaced` | keyframerequestfilter.go:38-61 | when spawned sends run at once and timers fire on time, consecutive sends are at least the minimum interval apart and, for a ticking filter, at most the maximum |
| `KeyframeFilters.SendsMayCrowd` | keyframerequestfilter.go:80-98 | two requests before the first spawned send has run are both sent, at the same moment |
| `KeyframeFilters.KeyframeFilter.Start` | keyframerequestfilter.go:38-43 | sets the callback and arms the timer for a ticking filter only; what is pending from before stays so |
| `KeyframeFilters.KeyframeFilter.Shutdown` | keyframerequestfilter.go:64-78 | clears the cached request, the time of the last send and the timer; the callback is dropped only if there was a timer |
| `KeyframeFilters.KeyframeFilter.RefreshMaxIntervalTimer` | keyframerequestfilter.go:117-135 | creates or resets the timer, unless the filter has been shut down |
| `KeyframeFilters.KeyframeFilter.TryRequestKeyframe` | keyframerequestfilter.go:80-98 | spawns a send, caches the request or drops it, as the event says; before Startup and after Shutdown too, then without a timer |
| `KeyframeFilters.KeyframeFilter.RequestKeyframeNow` | keyframerequestfilter.go:100-115 | sends, restarts the interval and, if ticking, the timer; without a callback the process stops |
| `PublishProofs.FlagIsLastNotification` | peer.go:902-908 | after every run a publisher in the room has its flag set exactly when the last notification about it was a pub; for what is not in the room it was not |
| `PublishProofs.UnpubsAreSeparated` | room.go:351-381 | in the log of every run two unpubs of a publisher have a pub between them |
| `PublishProofs.UnpubAndReplayAnswerPub` | room.go:72-86 | an unpub, or a replay to a newcomer, is only ever about a publisher whose last notification was a pub |
| `PublishProofs.RemovalIsAnnounced` | session.go:522-532 | whatever step removes or replaces an announced publisher sends its unpub to every origin user then in the room |
| `PublishProofs.PeersCloseOnce` | peer.go:454-466 | after every run a peer's exit channel has been closed at most once, never while its connection is open, and its keyframe filter is between Startup and Shutdown exactly while it is open and ready |
| `PublishViews.ViewIsAnnounced` | room.go:196-213 | after every run, whatever an origin user in the room has been told is published, by pubs, unpubs and replays since they logged in, is an announced publisher |
| `PublishViews.LoginCompleteWhenSingle` | room.go:72-86 | a login shows the newcomer all announced publishers if and only if no user has two that are ready |
| `PublishViews.MissingIsHiddenAtLogin` | room.go:72-86 | from then on, as long as they stay, what they have not been told of is exactly what was ready but not shown at their login and has not been mentioned to the room since |
| `PublishProofs.StepKeeps` | session.go:63-116 | every handler and callback keeps flags, log and references in agreement |
| `PublishProofs.IceKeeps` | peer.go:284-309 | so does every ICE state change, also one that reaches a destroyed peer |
| `PublishEffects.ConnectedIsAnnounced` | peer.go:289-295 | after every run, connecting an open peer logs one pub of its user and identifier, to exactly the origin users and abroad exactly for an origin; the publisher is in its place, announced and ready, every origin user sees it, and nothing else changes |
| `PublishEffects.DisconnectedIsWithdrawn` | peer.go:296-309 | after every run, disconnecting leaves the publisher in its place but not ready and not announced; an unpub goes out if and only if it was announced, and no origin user sees it any more |
| `PublishEffects.FailedIsRemoved` | session.go:328-350 | after every run, failing or closing empties the publisher's place, closes its peer once, and withdraws it in the same way |
| `PublishEffects.PushReplaces` | session.go:63-92 | after every run, push and fake offer withdraw what was published under the name and, if the connection was set up, put an open peer in its place, not ready and not announced; a user not in the room changes nothing |
| `PublishEffects.StopPushEmpties` | session.go:94-116 | after every run, stop-push empties the place and withdraws the publisher |
| `PublishEffects.LoginEnters` | room.go:49-86 | a login gives the user a new origin session without publishers; every other session and publisher stays |
| `PublishEffects.LogoutLeaves` | room.go:262-268 | a logout takes the session away; the others stay |
| `PublishEffects.FakePublishEnters` | room.go:136-159 | a fake publish gives the user a new session of that pod if and only if another origin user is in the room, and takes the old one away in any case |
| `PublishEffects.FakeUnpublishLeaves` | room.go:160-172 | a fake unpublish takes the session away if and only if it is of that pod, and otherwise changes nothing |
| `PublishEffects.DestroyedRoomIsEmpty` | room.go:36-43 | after the room is destroyed it has no session and no peer is open |
| `PublishHandlers.RoomServer.NotifyStopPush` | room.go:351-381 | the unpub goes to every origin user, and abroad for an origin session |
| `PublishHandlers.RoomServer.OnPublisherReady` | room.go:196-213 | the pub goes to every origin user |
| `PublishHandlers.RoomServer.ShouldNotify` | peer.go:902-908 | reads and clears the flag |
| `PublishHandlers.RoomServer.Destroy` | peer.go:454-466 | the filter is shut down, the exit channel closed once more and the peer connection gone |
| `PublishHandlers.RoomServer.ReleasePublisher` | session.go:522-532 | notifies if due, destroys and removes the publisher |
| `PublishHandlers.RoomServer.HandlePush` | session.go:63-81 | push and fake offer replace the publisher as specified |
| `PublishHandlers.RoomServer.OnIceStateChange` | peer.go:284-309 | the callback, with what session and room do about it, is the specified event |
| `PublishHandlers.RoomServer.DoLeave` | session.go:365-374 | walking the publishers in any order, then clearing the map, drops each of them once |
| `PublishHandlers.RoomServer.RemoveSession` | room.go:262-268 | the session leaves and is removed |
| `PublishHandlers.RoomServer.HasPublisher` | session.go:303-312 | returns a ready publisher if and only if there is one |
| `PublishHandlers.RoomServer.ReplayPublishers` | room.go:72-86 | a newcomer is told of one ready publisher in each session that has one |
| `PublishHandlers.RoomServer.HandleLogin` | room.go:49-86 | login is the specified event for some order of walking the maps: the old session leaves, the new one enters, and the login reply goes out before the replays |
| `PublishHandlers.RoomServer.HandleFakePublish` | room.go:136-159 | so is a fake publish |
| `PublishHandlers.RoomServer.HandleFakeUnpublish` | room.go:160-172 | and a fake unpublish, which only concerns a session of that pod |
| `PublishHandlers.RoomServer.HasOriginSession` | room.go:287-299 | true if and only if some session is an origin |
| `PublishHandlers.RoomServer.LeaveAll` | room.go:36-43 | every session leaves before any is removed |

## Left out

- SctpOutbound.Outbound.HandleSack: after a SACK it refuses the object's state is not specified. Runs never deliver such a SACK, and the program closes the association on one, so what the failed handler leaves behind is not used.
- SctpSackResponse.SackMovesWindow: speaks of sums that do not wrap in 32 bits; GrowthShrinksOnlyByWrapping says when one does.
- SctpPendingProofs.PopPendingIsMaximal: speaks of byte counts whose sum with the peer's window stays below 2^32, as it does in every run.
- SctpRunProofs.RunsAreSafe: dishonest or corrupted SACKs are outside the runs.
- RtpMarshal.MarshalHeaderTo: a header with the extension bit, an RFC 3550 profile and no extension, for which the program stops, is excluded; what the buffer holds after an error is not specified beyond the header's size.
- WsWriter.Writer.Write: network write errors are not modelled, so a write fails only for the reasons stated.
- WsRoundTrip.ReadBack: messages of 2^63 bytes or more, and read limits, are outside it.
- RtcpTwcc.FeedbackRoundTrip: packets of 64 KiB or more, whose length computation wraps, are outside it.
- RtcpCompound.CompoundRoundTrip: packets of 64 KiB or more are outside it.
- KeyframeFilters.SendsAreSpaced: the statement is about the time between Startup and Shutdown; Shutdown is modelled on the object.
- Filling of fixed-offset buffers in the Marshal methods of single RTCP packets is modelled on values; update in place is not captured there.
- Sessions and peers of a room are records reached through indices into growing lists; aliasing of objects is captured by the indices only.
- SCTP handshake, shutdown, reconfiguration, stream reassembly, delayed-SACK timing and retransmission-timeout estimation.
- The payload codecs of the RTP library and cloning of packets: they would add only easy members.
- The contents of other RTCP packets (rapid resynchronisation, receiver estimated bandwidth, extended reports, congestion control feedback of RFC 8888); of these the dispatcher models acceptance and length only.
- WebSocket compression, dialing, the upgrade handshake, proxies and prepared messages.
- MQTT network loops, stores and token internals; `cleanUpSubscribe`.
- Subscribers, data channels, codecs and the calls into the WebRTC library; mutexes, wait groups and channels.
- Message brokers, configuration, JSON handling, logging.
