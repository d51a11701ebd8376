# ETCP sliding window and SpookyHash: a verified model

ETCP is a user-space transport protocol. A sender and a receiver each keep packets in
power-of-two circular queues addressed by sequence numbers that never wrap. The sender queues
user data in its `txQ` and frees a packet when a selective acknowledgement (SACK) names it. The
receiver stores data packets in its `rxQ` in any order, acknowledges runs of them with SACK
fields, and hands payloads to its user in order. Packets that arrive again after the user has
had them go to a sorted list and are acknowledged from there. Transmission control (which
packet is sent, sent again or dropped, and how much acknowledging one call does) is supplied by
the user of the library, so everything below holds for every choice it can make and for a
network that loses, repeats, delays and reorders packets.

SpookyHash is the hash function of the repository. It hashes a message in one call or in
fragments, and promises the same result both ways.

## How the project is laid out

| file | contents |
|---|---|
| `RingWindow`, `RingRuns` | the circular queue as a value seen from its read edge, and its behaviour over whole runs |
| `Bits`, `CircularQueue`, `ByteQueue` | the slot array with masked indices, updated in place, and byte copies in and out of it |
| `LinkedList` | the sorted list of heap nodes |
| `Basics`, `Packets`, `Sender`, `UserTx`, `Receiver`, `Stale` | the operations of both sides as functions on queues, and their properties |
| `AckProofs`, `AckExact`, `AckRuns`, `Acks`, `AckAccepted` | what a call that acknowledges the receive window says, how many SACKs it needs, when it is sound and when the sender accepts it |
| `StaleRuns`, `StaleEnds`, `StaleCalls` | the same for the stale list, for lists and calls of any length: the loop, where it ends, and the whole call |
| `SackLimits` | how large a field gets, and the least inputs on which the encoders go wrong |
| `RecvProofs`, `Protocol`, `ProtocolProofs`, `Delivery` | the step relation of the whole system, its invariant, and the theorems about every run |
| `Stall`, `LimitRuns` | runs from fresh queues to a state in which the receiver stops for good, and to the inputs of `SackLimits` |
| `PlainRuns`, `DriftRuns` | what goes right in runs whose sends all want acknowledgements, and in runs whose packets arrive in order |
| `AckQueue` | which outgoing SACKs are sent and which are thrown away, in every run |
| `Transmit`, `Connection` | the loops of the source over the queues in place, each shown to compute one of those functions |
| `Words64`, `SpookyMixers`, `ShortMessages`, `SpookyHash`, `Streaming` | SpookyHash: words, mixers and inverses, short messages, the code on arrays, the incremental form |
| `WordBits`, `KnownShort`, `KnownLong` | the values of SpookyHash on fixed messages, worked out on bit-vectors |

Each operation of the source appears twice: as a method that changes a heap object the way the
source does, and as a function on values that the method is proved to compute. The theorems are
about the functions.

Where the code and its comments disagree, the model follows the code:

* `readable` and `available` move by one even when an edge moves further (src/CircularQueue.c:132-134,
  src/CircularQueue.c:189-190); `RingRuns.CommitDrift` and `RingRuns.ReleaseDrift` say exactly when they go wrong.
* `rdMax` is the write edge after a write advance but one more after a read advance
  (src/CircularQueue.c:131, src/CircularQueue.c:185), so a scan may look at one slot past the write edge.
* A full field buffer is sent with its field count left at zero (src/etcp.c:525-551, src/etcp.c:657-684), and the
  receiver of such a SACK refuses it (src/etcp.c:223). The iteration that closes the twelfth field can make the
  call send thirteen, the last of which is whatever the stack holds behind the buffer. The model has
  that memory as a parameter called `behind`.
* The stale-acknowledgement loop visits the head of the list a second time before it removes it, can write a
  thirteenth field behind its buffer of twelve (src/etcp.c:512-514, src/etcp.c:592-604), and after a full buffer can
  count one entry twice.
* A released slot claims the size of its whole memory as the length of its buffer (src/CircularQueue.c:413).
* Every packet of one `doEtcpUserTx` call is filled from the start of the user's data (src/etcp.c:1059).
* An acknowledgement out of order frees its slot and is still reported as an error (src/etcp.c:200-204);
  the caller ignores the result (src/etcp.c:279).

So eight promises do not hold of the code as written. Each is stated with its exact condition, which can be told
from the state before the call, and with an input that breaks it:

* A call acknowledges every packet that waits. It does unless the `readable` counter has drifted to zero
  (`AckAccepted.NamesAll`), and then nothing is acknowledged or handed out any more until more data is sent
  (`Stall.StallReached`, `Stall.StalledForever`). It takes a packet that arrives ahead of another one
  (`DriftRuns.LagStep`, `DriftRuns.InOrderCounts`).
* The acknowledgements of one call all reach the sender (`AckAccepted.AcceptedExact`, broken by
  `SackLimits.OverreadLoses`; `StaleCalls.StaleExact` for the stale list, broken by `SackLimits.LongStaleCall`).
* An acknowledgement names only packets that have arrived (`Acks.SoundExact`, broken by `SackLimits.OverreadCall`;
  `StaleCalls.StaleSoundExact` for the stale list, broken by `SackLimits.LongStaleCall`).
* An offset of 32 bits names the packet it stands for (`AckAccepted.CallExact`, broken by `SackLimits.OffsetExact` at
  any distance of 2^32 or more).
* A call over the stale list writes within its field buffer (`StaleCalls.OverrunsExact`, broken by
  `SackLimits.OverrunCall`).
* The packets of one send carry the user's data (`UserTx.SendCarries`, broken by `UserTx.SendRepeats`).
* A SACK that is queued is thrown away only if transmission control gave it up. It takes over the state its slot was
  left in (`AckProofs.PushSackExact`), and is thrown away if that is the mark for dropping (`AckQueue.DroppedExact`,
  broken by `AckQueue.DroppedUnasked`). What was marked was a SACK in the same slot (`AckQueue.MarkedOnPurpose`). That a
  SACK is sent only if it was itself marked to be sent does hold (`AckQueue.SentOnPurpose`).
* A copy into a slot is cut to the slot's buffer (`ByteQueue.PushStays`, broken by `ByteQueue.ReleasedClaims` for any
  data longer than the buffer).

The windows and lists that break the second, third and fifth are reached by runs from fresh queues
(`LimitRuns.OverreadReached`, `LimitRuns.OverrunReached`, `LimitRuns.OverstepReached`).

Runs of the protocol leave out only the acknowledging calls that leave their field buffer, since the source does not
say what happens then: one that reads behind it (`Acks.StaysInBuffer`; never with fewer than 24 slots to look at, and
never if all sends want acknowledgements, by `PlainRuns.PlainCallsExact`), and one over the stale list that writes
behind it (`StaleEnds.Overruns`; never with at most 24 iterations, or at most twelve runs of consecutive numbers in
the list). A call over the stale list that stays in its buffer needs one SACK at most and is sound
(`Delivery.StaleAcksStay`). The theorems that go further (`StaleCalls.StaleExact`,
`StaleCalls.StaleSoundExact`, `Delivery.StaleAcksKeepUp`, `Delivery.StaleAcksAreSound`) take the write behind the
buffer to be harmless and follow the loop from there.

## Model

| member | source | states |
|---|---|---|
| Delivery.InOrderDelivery | src/etcp.c:919-968 | In every reachable state the receiver's user has been handed exactly the first `rdSeq` payloads that were sent, in order, none missing and none twice, each cut only to the buffer it was read into. |
| Delivery.NothingLost | src/etcp.c:151-206 | Every payload sent is still queued at the sender under its number, or was given up by the transmitter, or waits in the receive window under its number, or has been delivered. |
| Delivery.FreedOnPurpose | src/etcp.c:790-867 | The transmitter frees a packet only if it was marked to be dropped, or was marked to be sent and wants no acknowledgement. |
| Delivery.AcksAreSound | src/etcp.c:273-281 | Any SACK in flight, however old or repeated, covers received packets only; on arrival it frees exactly the packets it names and never a later packet in the same physical slot. |
| Delivery.AcksSoundExactly | src/etcp.c:655-764 | In every reachable state a call names only packets that have arrived, whatever memory holds behind its field buffer, if and only if it stays in that buffer. |
| Delivery.AcksAreExact | src/etcp.c:631-767 | In every reachable state a call returns at once on a zero `readable` counter; otherwise it succeeds exactly when there is room for its SACKs, these expand to the packets it looked at that wanted an acknowledgement, in order and each once, modulo 2^32 and exactly if and only if the offsets of its first buffer reach the last run in it, and it marks exactly the packets it passed; one that fails has sent fewer than it marked. |
| Delivery.AcksNameAll | src/etcp.c:638-640 | Given room and a call that stays in its buffer, its SACKs name exactly what was wanted if and only if nothing was wanted, or the `readable` counter is not zero and the offsets reach. |
| Delivery.AcksGetAcross | src/etcp.c:638-684 | In every reachable state, what the sender accepts of a call is exactly what was wanted if and only if nothing was wanted, or the `readable` counter is not zero, the twelfth run of packets is not closed too early, there is room for the SACK and the offsets reach. |
| Delivery.AcksStayInWindow | src/etcp.c:688-703 | In every reachable state a call meets no range error, changes nothing but acknowledgement marks, keeps these a prefix of the window and never moves `seqAck` past the first unacknowledged packet. |
| Delivery.ReceiveWindow | src/etcp.c:84-148 | In every reachable state the window has no hole below its write edge and each slot holds what was sent under its number; an arriving packet is stored, whole, exactly when it falls into the window and is not there; otherwise the window is unchanged. The result is try-again if and only if it is there already, a range error if and only if it is past the window, a queue error if and only if it is below the window and wants no acknowledgement; if it is below and wants one, it joins the stale list. |
| Delivery.StaleAcksAreSound | src/etcp.c:496-624 | In every reachable state a call over the stale list, of any length, names only packets the user has had if and only if it does not overstep or has no room for the SACKs it needs. |
| Delivery.StaleAcksStay | src/etcp.c:512-604 | In every reachable state a call over the stale list leaves the memory behind its field buffer alone, whatever is there, if and only if it opens no thirteenth field; then it needs one SACK at most, sends no full buffer from inside its loop and names only packets the user has had. |
| Delivery.StaleAcksKeepUp | src/etcp.c:522-624 | In every reachable state any call over the stale list finds it in order, succeeds exactly when there is room for the SACKs it needs, removes only entries it has dealt with, at least one in three iterations (one in two if no full buffer is sent from inside the loop) or empties the list, and gets exactly their numbers across if and only if it succeeds and no full buffer is sent from inside the loop. |
| ProtocolProofs.StepSafe | src/etcp.c:37-1082 | Every event (send, mark, transmit, arrival, acknowledge, stale acknowledge, read) keeps the joint invariant of sender, network and receiver; the only acknowledging calls left out are those that read or write behind their field buffer. |
| ProtocolProofs.RunSafe | src/etcp.c:37-1082 | The invariant holds in every state of every run. |
| AckAccepted.AcceptedExact | src/etcp.c:631-767 | The accepted SACKs of a call name exactly the wanted packets if and only if there are none, or the `readable` counter is not zero, fewer than twelve runs are closed before the last slot looked at (and at it, unless the memory behind the buffer reads as an empty field), there is room for the SACK and the offsets reach. |
| AckAccepted.NamesAll | src/etcp.c:638-640 | A call with room that stays in its buffer names exactly what is wanted if and only if nothing is wanted, or the `readable` counter is not zero and the offsets reach. |
| AckAccepted.CallExact | src/etcp.c:655-764 | For any receive window: the call succeeds exactly when there is room for the SACKs its runs need, encoding followed by expansion is then the identity modulo 2^32 on the packets that want an acknowledgement, and the identity if and only if the runs of the first field buffer start less than 2^32 behind the acknowledged edge, and the marks reach exactly as far as the call. |
| AckRuns.LoopRuns | src/etcp.c:655-743 | The loop sends one SACK for every twelve runs closed and stops early exactly where a buffer is full and the queue has no room. |
| AckRuns.PushRoom | src/etcp.c:423-492 | Queueing a SACK takes one of the empty slots above the write edge and fails only when there is none. |
| AckProofs.WantedExact | src/etcp.c:710-722 | The list of wanted packets holds exactly the stored packets below the bound that are unmarked and want an acknowledgement. |
| AckProofs.WantedIncreasing | src/etcp.c:655 | That list is strictly increasing. |
| AckProofs.PushSackExact | src/etcp.c:423-492 | Queueing a SACK fills the slot at the write edge with it, keeps the transmission state that slot was left in, and leaves every other slot as it was; it fails if and only if that slot is past the window. |
| AckProofs.ExpandExact | src/etcp.c:273-281 | The fields of a SACK name exactly the numbers that one of them counts from its offset on. |
| Acks.GenerateAcksKeeps | src/etcp.c:631-767 | Any call, on any return path, keeps the receive window well formed, its marks a prefix and its acknowledged edge sound, and queues no SACK that names a packet not received if it stays in its field buffer. |
| Acks.EdgeExact | src/etcp.c:664-677 | In any call, successful or not, the acknowledged edge goes to the end of the first field of the last SACK sent, and stays if none is. |
| Acks.SoundExact | src/etcp.c:655-764 | A call is sound for all contents of memory if and only if it stays in its field buffer for all contents: a condition on the runs below its horizon and the room for SACKs. |
| Acks.OverreadNames | src/etcp.c:747-752 | A call that does not stay in its buffer succeeds with a SACK of thirteen fields that the sender accepts and that names what the memory behind the buffer spells out. |
| Acks.ShortWindowStays | src/etcp.c:655-661 | A call that can look at fewer than 24 slots never reads behind its field buffer, whatever memory holds there. |
| SackLimits.OverreadCall | src/etcp.c:747-752 | The least such window: 24 slots of which every second packet wants no acknowledgement. |
| SackLimits.OverreadLoses | src/etcp.c:747-752 | On such a window what reaches the sender is not what was wanted. |
| SackLimits.FieldsFitWindow | src/etcp.c:738 | No field counts more packets than the receive window has slots, so the decoder's 16-bit counter reaches the end of it for windows below 2^16 slots. |
| SackLimits.OffsetExact | src/etcp.c:731-738 | A call that acknowledges one packet names that packet if and only if its distance from the acknowledged edge fits the 32 bits of the offset. |
| SackLimits.LongStaleCall | src/etcp.c:522-609 | The least list on which a call oversteps: on the numbers 0, 2, ..., 26 a call of 28 iterations or more needs two SACKs, of which the sender accepts the one that names 26 and 27, and 27 was never in the list. |
| SackLimits.OverrunCall | src/etcp.c:512-604 | The least call that writes behind its field buffer: over the numbers 0, 2, ..., 24 with 25 iterations, without sending a full buffer; whatever was there is a field that counts one packet afterwards. |
| StaleCalls.StaleCall | src/etcp.c:522-624 | A call over any sorted list never reaches the branch for numbers that went backwards, removes a prefix of the entries it has dealt with, fails only for want of room for the full buffers before its end and one more, and what the sender accepts is what the fields of its last SACK hold. |
| StaleCalls.OverrunsExact | src/etcp.c:512-604 | A call leaves the memory behind its field buffer as it is, for every contents, if and only if no number it deals with is given a thirteenth field. |
| StaleCalls.StaleExact | src/etcp.c:522-624 | The sender hears of exactly the numbers dealt with if and only if there is room for the SACKs needed and the call does not get past the first visit of a thirteenth run. |
| StaleCalls.StaleSoundExact | src/etcp.c:522-624 | A call names nothing from a bound on if and only if it has no room for the SACKs needed or does not overstep: the first number after a full buffer is two above the last one, gets both its visits, and its run ends at the bound. |
| StaleEnds.ShortCallStays | src/etcp.c:522-551 | No thirteenth field is opened by a call of at most 24 iterations or over at most twelve runs of consecutive numbers. |
| StaleEnds.FirstOverruns | src/etcp.c:522-551 | Only a call that has written behind its buffer can have to send a full one from inside its loop, and only after that can it overstep. |
| StaleEnds.NeededEnds | src/etcp.c:525-618 | The SACKs a call needs, told from the list and the number of iterations, are one for every buffer it fills before its end and one more. |
| StaleEnds.StaysNeedsOne | src/etcp.c:611-618 | A call that opens no thirteenth field needs one SACK if it looks at the list at all. |
| StaleEnds.EntriesGo | src/etcp.c:570-573 | Of m iterations at least a third remove an entry, and half if no full buffer is sent from inside the loop, or the list is used up. |
| StaleCalls.StaleRoom | src/etcp.c:525-535 | A call succeeds if and only if there is room for the SACKs the list needs within its iterations, which are at most one more than the list has full buffers. |
| StaleEnds.DistinctExact | src/etcp.c:554-609 | The numbers dealt with are exactly those of the entries visited, strictly increasing. |
| Stall.StallReached | src/etcp.c:638-640 | From fresh queues, three packets of which the second arrives first, one acknowledging call and two reads lead to a state in which the last packet waits and no call acknowledges anything. |
| Stall.StalledStep | src/etcp.c:919-968 | In such a state no event but a new send changes the receive window or hands anything to the user. |
| Stall.StalledForever | src/etcp.c:919-968 | No run without a new send ever delivers anything more from such a state. |
| LimitRuns.OverreadReached | src/etcp.c:747-752 | A run of 24 sends, of which every second one wants no acknowledgement, and in-order arrivals leads to a window on which a call reads behind its field buffer and what reaches the sender is wrong. |
| LimitRuns.OverrunReached | src/etcp.c:512-604 | A run of 27 packets that arrive, are acknowledged and read, and of which 13 arrive again, leads to a list on which a call writes behind its field buffer. |
| LimitRuns.OverstepReached | src/etcp.c:522-609 | One more arrival leads to a list on which a call acknowledges packet 27 when 27 packets, 0 to 26, have been sent. |
| PlainRuns.PlainCallsExact | src/etcp.c:631-767 | In every state of a run whose sends all want acknowledgements a call stays in its field buffer, needs room for one SACK at most, and with that room gets exactly what was wanted across if and only if nothing was wanted, or the `readable` counter is not zero and the offsets reach. |
| DriftRuns.LagStep | src/CircularQueue.c:132-134 | An event changes how far the `readable` counter lags behind the packets that wait if and only if it is an arrival that closes a gap, and then the lag grows. |
| DriftRuns.ReadableBound | src/CircularQueue.c:189-190 | In every reachable state the counter is at most the distance between the edges. |
| DriftRuns.InOrderCounts | src/etcp.c:638-640 | In every state of a run without arrivals ahead of a missing packet the counter equals that distance, and the receiver is not stalled. |
| DriftRuns.InOrderGetAcross | src/etcp.c:631-767 | If the sends want acknowledgements too, a call with room for one SACK gets exactly what was wanted across if and only if its offsets reach. |
| AckQueue.SentOnPurpose | src/etcp.c:797-803 | In every run a SACK is marked to be sent only if transmission control has so marked that very SACK, under its own number; a slot that is not in use is never left marked so. |
| AckQueue.MarkedOnPurpose | src/etcp.c:423-492 | In every run the slot of an outgoing SACK is marked only if transmission control has so marked a SACK in the same physical slot. |
| AckQueue.DroppedExact | src/etcp.c:779-795 | A SACK that transmission control leaves alone is thrown away unsent by the next pass that succeeds and reaches it if and only if its slot had been left marked for dropping. |
| AckQueue.DroppedUnasked | src/etcp.c:790-795 | In a queue of one slot, after a SACK that was to be dropped, the next one is queued and thrown away unsent although it was never marked. |
| RecvProofs.RxDatFacts | src/etcp.c:84-148 | Each outcome of an arriving data packet, with the result code of each as an if-and-only-if: stored whole in its slot, there already, past the window, below it without a wish for an acknowledgement, or added to the stale list. |
| RecvProofs.UserRxFacts | src/etcp.c:919-968 | The user gets the packet at the read edge and no other, once it has been acknowledged; the edge moves by exactly one. |
| RecvProofs.UserRxSkips | src/etcp.c:925-967 | Reading from any queue throws away acknowledged stale packets up to the first that is not stale, and hands that one out if it is acknowledged; otherwise it stops at the first unacknowledged packet or the write edge. |
| Sender.AckAllExact | src/etcp.c:151-206 | Any sequence of acknowledgements, late, repeated or reordered, frees exactly the packets of the numbers in it. |
| Sender.ProcessAckCodes | src/etcp.c:151-206 | On any queue one acknowledgement frees the packet of its number and nothing else, and reports an error if and only if it is for no packet of the queue or frees one that is not the first. |
| Sender.RefusedExact | src/etcp.c:219-232 | A SACK is refused if and only if its count is not the number of its fields, and then nothing is freed. |
| Sender.NetTxKeeps | src/etcp.c:770-875 | On every exit path a transmit call keeps each packet that is neither dropped nor done with after sending; one that it keeps is either as it was, or was marked to be sent and is ready again with the same or one attempt more. |
| Sender.NetTxBooks | src/etcp.c:803-866 | What a transmit call leaves of each packet: one that was sent stays queued if and only if it waits for an acknowledgement, ready again with one attempt more modulo 2^16; at most one packet could not be sent, which is ready again with the same attempts and ends the call; all others are as they were; and the result code says which of these happened. |
| Sender.NetTxReach | src/etcp.c:775 | A transmit call neither sends nor frees nor changes a packet that lies `maxSlots` or more ahead of the read edge at its end. |
| Sender.NetTxSends | src/etcp.c:775-872 | A transmit call sends only packets marked to be sent, in increasing order and each at most once, although its own releases move its loop bounds. |
| Sender.NetTxComplete | src/etcp.c:775-872 | A call that reports success has sent every marked packet and freed every dropped one among the slots it may look at. |
| Sender.SecondCallSilent | src/etcp.c:797-803 | After a call that reports success, a second one over the same slots without new marks sends nothing and changes nothing. |
| Sender.StumblesExact | src/etcp.c:775-784 | After slot i a transmit call meets a slot out of range, and returns early, exactly when it has just released the packet at the read edge in front of a hole. |
| UserTx.SendFacts | src/etcp.c:976-1080 | Each packet queued is a fresh data packet numbered by the write edge, which the sequence counter follows; a call stops early only on a full queue or a slot with no room; the byte count is the number of packets times their size. |
| UserTx.SendCarries | src/etcp.c:1030-1059 | A call succeeds if and only if the free slots have room for the data, and its packets carry the user's data if and only if it succeeds and the data fits one packet or repeats its first packetful a whole number of times. |
| UserTx.SendRepeats | src/etcp.c:1059 | Two different bytes sent as two packets arrive as the first byte twice, and the call reports success. |
| RingWindow.CommitFacts | src/CircularQueue.c:304-332 | A commit fills its own slot only, moves the write edge to the first empty slot and leaves the read edge; refused commits change nothing; each result code has its exact condition. |
| RingWindow.ReleaseFacts | src/CircularQueue.c:401-418 | A release empties its own slot only, which claims the size of the whole slot as its length then, moves the read edge to the first slot in use, and slots entering at the far end are empty; each result code has its exact condition. |
| RingWindow.ReleaseHas | src/CircularQueue.c:401-418 | In terms of full slots: exactly the released number is gone; the result is success exactly at the read edge. |
| RingWindow.SlotSizeIs | src/CircularQueue.c:35-36 | The size of a slot in memory is the least multiple of eight with room for its header and its buffer. |
| RingRuns.RunFromEmpty | src/CircularQueue.c:20-61 | From an empty queue, any commits and releases at any numbers keep the edges ordered and as far forward as the slots allow, and `readable + available` equal to the slot count. |
| RingRuns.RunKeepsSlot | src/CircularQueue.c:238-332 | A full slot keeps its bytes and length across any operations at other numbers. |
| RingRuns.CommitDrift | src/CircularQueue.c:132-134 | A commit keeps `readable` in step with the edges if and only if it does not close a gap in front of a full slot. |
| RingRuns.ReleaseDrift | src/CircularQueue.c:189-190 | A release keeps `readable` in step with the edges if and only if the slot behind the read edge is not a hole. |
| RingRuns.DisciplinedRun | src/etcpSockApi.c:475-522 | If commits happen only at the write edge and releases only at the read edge, `readable` is the distance between the edges in every run. |
| Bits.MaskIsMod | src/CircularQueue.c:84 | Masking with 2^k - 1 is reduction modulo 2^k. |
| Bits.ModInjective | src/CircularQueue.c:84 | Among any n consecutive numbers no two share a slot index. |
| CircularQueue.UnrollUpdate | src/CircularQueue.c:75-87 | Writing a physical slot changes exactly one number of the window. |
| CircularQueue.UnrollShift | src/CircularQueue.c:178-187 | Moving the read edge rotates the window over the same physical slots. |
| CircularQueue.CircularQueue.Get | src/CircularQueue.c:65-91 | The masked index is the slot of the number, or the range error on the right side. |
| CircularQueue.CircularQueue.ScanFull | src/CircularQueue.c:93-122 | The scan stops at the first empty slot from the write edge and never meets the panic branch. |
| CircularQueue.CircularQueue.ScanEmpty | src/CircularQueue.c:140-176 | The scan stops at the first full slot from the read edge or at the write edge, and meets neither panic branch. |
| CircularQueue.CircularQueue.CommitSlot | src/CircularQueue.c:304-332 | The commit in place computes the commit on the window, and keeps all derived bounds. |
| CircularQueue.CircularQueue.ReleaseSlot | src/CircularQueue.c:401-418 | The release in place computes the release on the window, and keeps all derived bounds. |
| CircularQueue.CircularQueue.GetNextWr | src/CircularQueue.c:337-359 | The next slot to write is at the write edge, refused exactly when the window is full. |
| CircularQueue.CircularQueue.GetNextRd | src/CircularQueue.c:369-392 | The next slot to read is at the read edge, refused exactly when nothing lies between the edges. |
| ByteQueue.PushCommitPull | src/CircularQueue.c:238-332 | Bytes pushed and committed at a number are pulled from it later across any operations at other numbers; only a short slot or buffer cuts them. |
| ByteQueue.PushFacts | src/CircularQueue.c:238-269 | A push is refused exactly below the window, past it or at a number in use; otherwise it writes the first bytes of one buffer, as many as the slot claims to have, reports how many and whether that cut them, and changes nothing else. |
| ByteQueue.PullFacts | src/CircularQueue.c:271-302 | A pull is refused exactly below the window or where no slot is in use, and otherwise hands out the first bytes of the slot. |
| ByteQueue.PushStays | src/CircularQueue.c:259-262 | After any operations on a new queue, a push into an empty slot stays in its buffer if and only if the data fits the buffer or the slot has not been used before, and data that fits is not cut. |
| ByteQueue.ReleasedClaims | src/CircularQueue.c:413 | The memory of a released slot has the whole slot size as its length under its next number, so a push runs over the end of the buffer if and only if the data is longer than that. |
| ByteQueue.CqPush | src/CircularQueue.c:238-269 | The push in place, with its truncation and refusals, computes the push on the window. |
| ByteQueue.CqPull | src/CircularQueue.c:271-302 | The pull hands out the stored bytes up to the shorter of slot and buffer, with its refusals. |
| LinkedList.InsertOrdSorted | src/LinkedList.c:120-185 | Insertion keeps the list sorted. |
| LinkedList.InsertOrdAddsOne | src/LinkedList.c:120-185 | Insertion adds exactly the new entry to the multiset of entries. |
| LinkedList.InsertOrdStable | src/LinkedList.c:120-185 | Entries with equal numbers stay in arrival order. |
| LinkedList.LinkedList.FindPlace | src/LinkedList.c:153-180 | The walk ends at the last node whose successor has a larger number, without reaching the panic branch. |
| LinkedList.LinkedList.PushSeqOrd | src/LinkedList.c:120-185 | Relinking the heap nodes performs the sorted insertion, keeps the chain acyclic, counts the entry and reports truncation. |
| LinkedList.LinkedList.ReleaseHead | src/LinkedList.c:194-207 | The first entry goes; on an empty list only the count changes. |
| Transmit.DoEtcpNetTx | src/etcp.c:770-875 | The transmit loop in place terminates and computes the transmit function on the queue, whose effect `Sender.NetTxBooks` and `Sender.NetTxReach` state. |
| Transmit.EtcpProcessAck | src/etcp.c:151-206 | One acknowledgement in place computes the function on the queue, its unsigned comparison included. |
| Transmit.EtcpOnRxAck | src/etcp.c:219-284 | The SACK decoder in place refuses a wrong field count and otherwise acknowledges the expansion of the fields in order. |
| Connection.EtcpConn.EtcpOnRxDat | src/etcp.c:84-148 | Accepting a data packet in place computes the function of the protocol on all three queues, with the results that `RecvProofs.RxDatFacts` tells apart. |
| Connection.EtcpConn.DoEtcpUserRx | src/etcp.c:919-968 | The reading loop in place terminates and computes the function of the protocol. |
| Connection.EtcpConn.PushSackEthPacket | src/etcp.c:423-492 | Queueing a SACK at the write edge in place computes the function of the protocol, whose effect `AckProofs.PushSackExact` states slot by slot. |
| Connection.EtcpConn.GenerateAcks | src/etcp.c:631-767 | The acknowledging loop, with its field buffer and queues in place, computes the function of the protocol on every return path. |
| Connection.EtcpConn.GenerateStaleAcks | src/etcp.c:496-624 | The loop over the stale list, with its field buffer, list and queue in place, computes the function of the protocol on every return path, and what it leaves behind the field buffer. |
| Connection.EtcpConn.DoEtcpUserTx | src/etcp.c:976-1080 | The sending loop in place computes the function of the protocol, with its early returns and reported count. |
| Words64.RotBack | src/spooky_hash.c:13-16 | A 64-bit rotation, written with shifts and an or, is undone by the rotation by 64 - k, for every k. |
| Words64.BitXorBack | src/spooky_hash.c:31-49 | Exclusive or with the same word twice is the identity. |
| Words64.BitXorDigit | src/spooky_hash.c:31-49 | Exclusive or, digit by digit: digit i of the result is the sum of the two digits i modulo 2, for all numbers. |
| Words64.XorDigits | src/spooky_hash.c:31-49 | The same for 64-bit words; a word with itself gives zero, and the order of the two does not matter. |
| SpookyMixers.MixBack | src/spooky_hash.c:31-49 | For every block, `spooky_Mix` is a bijection of the twelve variables: an explicit inverse, on both sides. |
| SpookyMixers.EndPartialBack | src/spooky_hash.c:67-84 | `spooky_EndPartial` is a bijection of the twelve variables: an explicit inverse, on both sides. |
| SpookyMixers.ShortMixBack | src/spooky_hash.c:115-129 | `spooky_ShortMix` is a bijection of its four variables: an explicit inverse, on both sides. |
| SpookyHash.SpookyMix | src/spooky_hash.c:31-49 | The sixty statements on the variables in place compute the mixing function, whose exclusive or is that of `Words64.XorDigits`. |
| SpookyHash.SpookyEnd | src/spooky_hash.c:86-97 | Adding the last block and mixing three times in place computes the ending function. |
| SpookyHash.SpookyShortMix | src/spooky_hash.c:115-129 | The twelve lines compute the mixing function of short messages. |
| SpookyHash.SpookyShortEnd | src/spooky_hash.c:143-156 | The eleven lines compute the ending function of short messages. |
| ShortMessages.AddPartial | src/spooky_hash.c:240-273 | The fall-through cases of the switch add the one to seven bytes of a word as one little-endian number. |
| ShortMessages.AddTail | src/spooky_hash.c:236-278 | The switch over the last 0 to 15 bytes adds them as two zero-padded little-endian words with the length in the top byte, or the constants if there are none. |
| ShortMessages.ChunkWords | src/spooky_hash.c:217-224 | Of two 32-byte sets that agree in their first two words, the third words alone tell the first variables apart, by their difference, and the fourth words the second variables; the other two variables are equal. |
| SpookyHash.SpookyShort | src/spooky_hash.c:187-283 | For every message the 32-byte loop, the 16-byte step and the switch compute the plain form, whose order of words `ShortMessages.ChunkWords` fixes. |
| KnownShort.KnownValue | src/spooky_hash.c:187-283 | The value of the short form on the bytes 0 to 62 and two fixed seeds, as a literal: one 32-byte set, the 16-byte step and a tail of 15. |
| KnownShort.KnownEmpty | src/spooky_hash.c:274-283 | Its value on the empty message, as a literal. |
| Streaming.BlocksPrefix | src/spooky_hash.c:310-319 | Blocks already mixed are not affected by what follows in the message. |
| Streaming.MixBlocks | src/spooky_hash.c:427-434 | Mixing whole blocks of a fragment continues the mixing of the whole message. |
| Streaming.SpookyHash128 | src/spooky_hash.c:289-344 | The one-call hash, both below and from 192 bytes, computes the plain form. |
| Streaming.PadInjective | src/spooky_hash.c:334-338 | The padding of the last block loses nothing: two remainders are padded alike only if they are equal; behind the bytes come zeros and in the last byte their number. |
| KnownLong.KnownValue | src/spooky_hash.c:289-344 | The value of the one-call hash on the bytes 0 to 199 and two fixed seeds, as a literal: two whole blocks and a padded remainder. |
| Streaming.SpookyState.SpookyUpdate | src/spooky_hash.c:359-459 | On every path (stuffed away, stuffed bytes filled to two blocks, whole blocks) the state goes on to stand for the message with the fragment appended. |
| Streaming.SpookyState.SpookyFinal | src/spooky_hash.c:463-508 | The result is the one-call hash of the message so far; only bytes not in use are overwritten and the state stands for the same message. |
| Streaming.HashFragments | src/spooky_hash.h:94-106 | For any seeds and any fragments, a report after each fragment equals the one-call hash of all fragments so far put together. |

## Left out

- Connection.EtcpConn.EtcpOnRxDat: a data packet beyond the receive window is dropped, as the comment of the source asks (src/etcp.c:95); its code ends the process.
- Connection.EtcpConn.PushSackEthPacket: a slot always has room for a packet, because packets are records; the commit with a length larger than the slot is not modelled here (it is in `RingWindow.CommitFacts`).
- Transmit.EtcpOnRxAck: required to be called with fields that count fewer than 2^16 packets, because the loop of the source does not end on others, and no event of a run handles such a SACK; `SackLimits.FieldsFitWindow` says when the encoder keeps to that.
- Delivery.AcksAreExact: assumes a receive window of fewer than 2^32 slots, so that no count wraps around; the source makes no larger one, because it shifts an int (src/CircularQueue.c:31).
- Delivery.StaleAcksAreSound: assumes that the numbers in the list span less than 2^32 - 1, so that no offset wraps around; that a call that does not overstep is sound does not need it, nor does `StaleCalls.OverrunsExact`.
- StaleCalls.StaleExact: a write behind the field buffer is taken to be harmless: the buffer of the model has a thirteenth entry that nothing else uses, where that of the source has twelve; `StaleCalls.OverrunsExact` says which calls make that write, and runs leave them out.
- ByteQueue.CqPush: required to stay in the buffer of its slot; what a copy that runs over the end does to the next slot is not modelled, and `ByteQueue.PushStays` says which copies those are.
- UserTx.SendCarries: how many bytes a slot has room for is one argument for all packets of a call, where the source reads it off each slot.
- Connection.EtcpConn.GenerateAcks: the limit on complete packets per call never takes effect in the source, because its counter stays zero, so it is a parameter that only switches the call off; the same holds of `Connection.EtcpConn.GenerateStaleAcks`.
- Packet bytes: packets are records; header layout, Ethernet and VLAN framing, packet sizes and the truncation of a packet by a short slot are not modelled (the queue's own byte copies are, in `ByteQueue`).
- Counters that nothing reads (`rdRng`, `wrRng`) and the calls that only combine others (`cqPushNext`, `cqPullNext`).
- The copy of an arriving SACK into a queue for transmission control, and the copy of acknowledged marks onto entries of the stale list, which nothing reads.
- `doEtcpUserTx`: whether a packet wants an acknowledgement is an argument of the send, since no code of the source sets that bit.
- Timestamps, round-trip statistics, address and port lookup (`src/HashTable.c`), sockets, connection setup and teardown, and the network driver: one established connection in one direction is modelled, with its two users, transmission control and the network choosing freely.
- Failing memory allocation, null arguments and freeing of memory.
- Other implementations of SpookyHash: the values proved are those of this code, whose constant is `0xdeadb0efdeadbeef` (src/spooky_hash.h:58).
- Words of SpookyHash are numbers below 2^64 with the wrap-around written out and the bitwise operations going through binary digits.
- The message length of SpookyHash is a number that does not wrap at 2^64. Unaligned reads are taken to be allowed, as the source configures them, and words are read in little-endian order, as its documentation assumes.
- Liveness: that packets are eventually delivered is not claimed; `Stall.StalledForever` shows that the code as written does not provide it.
- Statistical claims about the hash.
