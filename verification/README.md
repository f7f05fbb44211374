# Verified model of the J1939 stack

A Dafny model of the protocol cores of this library and machine-checked proofs about them: the two
transport layers (SAE J1939-21 section 5.10 and SAE J1939-22), Multi-PG batching, address claiming
(SAE J1939-81 section 4), the NAME order arbitration rests on, the periodic timers of an ECU, and the
DM1 payload (SAE J1939-73 section 5.7.1). `dafny verify dfyconfig.toml` checks everything.

## How it is built

Each object that updates its fields is a class with the same fields: `DataLink21`, `DataLink22`,
`ControllerApplication`, `Timers`, `Name`, `Dm1`. Dictionaries and lists are fields of type `map` and `seq`
that the methods reassign; the order in which a dictionary is walked is left open. Every call, every
received frame and every pass of a job thread is one step. A handler of a data link layer touches one
buffer, so its effect is stated by a function on that buffer (`Transport21`, `Transport22`), the class
methods are proved equal to those functions, and the protocol theorems are about those functions:

- `Session21`, `Session22`: a sender and a receiver buffer joined by two lossless first-in first-out
  channels, run by any interleaving of receptions and job passes in which no timeout expires. A coupling
  invariant between the two windows gives exact delivery, flow control, progress and a termination measure.
- `Behaviour21`, `Behaviour22`: every answer and every waiting time in the bytes on the bus and in seconds, and what
  becomes of a session whose peer falls silent.
- `Lossy21`, `Lossy22`: one receiver and a bus that loses, duplicates and reorders the frames of a transfer.
- `Isolation21`, `Isolation22`: any number of sessions interleaved.
- `Pool22`: the session numbers of a node that only originates; `DataLink22.Originating` is that invariant, which its
  constructor establishes and its methods keep. `MultiPg`: packing, parsing, batching; `Windows`: window arithmetic;
  `Passes`: one pass of a job thread over a dictionary, for both layers.
- `TimerGrid`, `TimerCalls`, `Timers`: where a timer goes, which timers are called and stay, and the object itself.
- `ClaimNetwork`, `ClaimConvergence`, `ClaimOverflow`: any number of nodes with different NAMEs, each claim being
  one message to every other node, processed in any order.

Conventions. Time is `real`; a step gets the clock reading it uses (one per step) as a parameter, and
readings are positive where a deadline of 0 would mean "none". Sent frames and deliveries to subscribers
are ghost logs. Bit operations are written as division and remainder. A CAN identifier is the record of
its fields; `Wire.CanIdRoundTrip` shows that nothing is lost by that. Python exceptions are results of
type `Option<Error>`; what was already changed when one is raised stays changed, as in the source.

## What turned out to hold only under a condition

- A J1939-22 receiver compares announced sizes, not bytes gathered, so a transfer with a lost segment is
  still delivered, shortened: `Lossy22.DeliveryIsWholeIffInOrder` says exactly when it is whole.
- Sending a J1939-22 segment puts its header into the stored chunk, so a segment sent again is right if and only if
  its chunk repeats that header all through (`Lossy22.ResendIsRightIff`); a receiver that grants the first segment
  of 61 zero bytes twice gets it wrong the second time (`Lossy22.RepeatedGrantGarbles`).
- A Multi-PG frame loses its last group if and only if that group is empty, would be read, and no padding follows
  (`MultiPg.AnyFormatRoundTrip`; `MultiPg.MultiPgRoundTrip` for the format the receiver reads).
- The slot search of the Multi-PG batcher never ends if and only if all 256 slots of a format, source and
  destination are pending and too full; `SendShort` reports this as `NeverReturns`.
- The search for a slot moves the deadline of a full buffer to the current time even if it was due before.
  So "nothing overdue after a pass" needs a pass whose time is not before the latest search
  (`DataLink22.VainSearchPostpones`, `DataLink22.VainSearchOverdue`).
- Receive-side handlers of J1939-22 return session numbers without looking whether they are in use here,
  and an abort returns none: `Pool22.ReturnKeepsPoolIff`, `Pool22.AbortLosesNumber`.
- A receive buffer whose session number is outside its pool makes the job thread raise when it expires, if and only
  if: the pass drops exactly one such buffer and those served before it, and everything else keeps waiting
  (`DataLink22.AsyncJobThread`, `DataLink22.StrayGone`). So sessions are independent as long as no pass raises, and none
  does while announcements carry numbers of their pool (`Isolation22.SessionsAreIndependent`, `Isolation22.StrayHoldsUpOthers`).
- Address claims are cut to a byte, so a CA that moved on past 255 hears no rival (`ClaimNetwork.NoticedIffOneByte`).
  Without commanded changes a quiet bus is sure to have unique addresses if and only if the highest preferred address
  plus the number of CAs is at most 257 (`ClaimOverflow.UniqueIff`); otherwise two CAs can both end in NORMAL at
  address 256 (`ClaimOverflow.TwoAt256`).
- The next deadline of a timer is searched with `<`, so a timer whose next point is exactly the time of the
  pass fires once more in the same pass and then moves behind it; the pass still ends.
- A NAME object has the value it was built from if and only if bit 48 is clear (`Name.BuiltValue`).
- A DM1 list survives if and only if no code is all zeros and every code uses method 4 or the method the
  receiver is configured for (`Dm1.Dm1RoundTrip`).

## Model

| member | source | states |
|---|---|---|
| Wire.CanIdRoundTrip | j1939/message_id.py:25-44 | a 29-bit identifier read back yields the priority, page, format, destination and source it was built from |
| Wire.FieldRoundTrip | j1939/j1939_22.py:769-780 | a number survives its little-endian byte field whenever it fits the field |
| Transport21.HashInjective | j1939/j1939_21.py:105 | two address pairs share a buffer key only if they are the same pair |
| Transport21.CmFields | j1939/j1939_21.py:536-551 | size, packet count and PGN put into a management frame are what the peer reads |
| Session21.StepInv | j1939/j1939_21.py:198-511 | any step without a timeout keeps the coupling between the sender's counters and window and the receiver's expected packet and border |
| Session21.BurstSends | j1939/j1939_21.py:239-273 | a pass inside a window sends consecutive packets, never beyond the granted one, and stops waiting for the next CTS exactly there |
| Session21.DirectedTransferIsExact | j1939/j1939_21.py:107-511 | for every payload of 9..1785 bytes, all window limits and every run without a timeout: subscribers have seen nothing or exactly the payload once, and a finished sender used n packets, ceil(n/window) CTS and one acknowledgement |
| Windows.WindowCount | j1939/j1939_21.py:495-506 | the grants reach the last packet with exactly the number of windows rounded up, not before |
| Windows.NextBorder | j1939/j1939_22.py:689-697 | one more grant opens between one packet and a full window and never reaches past the end |
| Session21.CreditWindow | j1939/j1939_21.py:349-385 | in every reachable state received <= sent <= granted <= n, and each CTS grants between one packet and a window, starting where the last one ended |
| Session21.StepsProgress | j1939/j1939_21.py:198-511 | each productive step lowers a natural measure, every other step changes nothing |
| Session21.NeverStuck | j1939/j1939_21.py:198-511 | until the sender has let go of its buffer a productive step is possible |
| Session21.RunsTerminate | j1939/j1939_21.py:198-511 | every run has boundedly many productive steps, so every fair run completes |
| Lossy21.ExactOrNothing | j1939/j1939_21.py:328-492 | whatever is lost, duplicated, reordered or timed out, broadcast or directed, each delivery is the whole payload, and there are no more of them than announcements |
| Lossy21.LosslessDelivers | j1939/j1939_21.py:441-492 | an announcement and all packets in order are delivered, exactly once |
| Lossy21.BroadcastSendsAll | j1939/j1939_21.py:275-301 | for passes of the job thread at any times: early ones send nothing, each due one sends the next packet in order, and after the last packet the buffer is gone |
| Lossy21.BroadcastStarts | j1939/j1939_21.py:120-140 | the buffer a broadcast opens is one that sends everything |
| Isolation21.SessionsAreIndependent | j1939/j1939_21.py:208-223 | for any interleaving, buffer and deliveries of one address pair are those of running its frames alone |
| Behaviour21.SilentSenderIsFreed | j1939/j1939_21.py:208-223 | whatever happened to any number of pairs: when a sender falls silent its session is closed by the first pass 1.25 s later at the latest, and its next request to send is granted |
| Behaviour21.SilentReceiverIsGivenUp | j1939/j1939_21.py:225-238 | whatever passes there are, a directed transfer without an answer ends with the first one at its deadline, with one abort, and not before |
| Behaviour21.StartTells | j1939/j1939_21.py:107-161 | the announcement byte by byte: a broadcast under its own PGN, a directed message under the PGN with low byte 0, as many packets as are needed, and how long the sender waits |
| Behaviour21.LongMessageIsAnnounced | j1939/j1939_21.py:163-195 | a message of more than eight bytes is announced to its destination, or to everybody for 255 and formats 240..255, under page and format passed in, with its size |
| Behaviour21.FramesAreRouted | j1939/j1939_21.py:600-624 | which frames the layer takes part in and which of its buffers they are about |
| Behaviour21.CtsIsObeyed | j1939/j1939_21.py:360-387 | refused for an unknown message, half a second of patience for zero packets, otherwise as many packets as are asked for and exist |
| Behaviour21.AckEndsTransfer | j1939/j1939_21.py:388-399 | the acknowledgement is handed on as it came and ends the transfer; an unknown one is refused |
| Behaviour21.WindowIsSent | j1939/j1939_21.py:239-273 | the packets of a window, each with its number and seven bytes, in one pass or one a pass, and how long the sender waits after them |
| Behaviour21.BroadcastPass | j1939/j1939_21.py:275-301 | a due broadcast sends one packet and waits for the interval, or is gone |
| Behaviour21.RtsIsAnswered | j1939/j1939_21.py:329-358 | a request to send is granted from the first packet within what both sides can take, or refused as busy while the session goes on |
| Behaviour21.OutOfSequence | j1939/j1939_21.py:441-452 | a packet out of sequence ends the session, raises, and is answered with an abort if it is directed |
| Behaviour21.ExpectedPacket | j1939/j1939_21.py:454-511 | the packet expected completes the message, grants the next window, or is only kept, with the frames sent in each case |
| Behaviour21.ReceiverWaits | j1939/j1939_21.py:26-33 | 1.25 s after granting packets, 0.75 s after any other frame that changes the session |
| Behaviour21.ReceiverTimesOut | j1939/j1939_21.py:208-223 | at its deadline and not before the session goes, and a directed sender is told |
| DataLink21.EnqueueDistinct | j1939/j1939_21.py:181-191 | at most one message waits per address pair, a newer one taking the place of the older |
| DataLink21.EnqueuePlace | j1939/j1939_21.py:181-206 | a message for a pair that has one waiting takes its place, one for another pair comes last, the order of the others is kept |
| DataLink21.DataLink21.PutMultiMsg | j1939/j1939_21.py:107-161 | announces a message and opens the buffer the transfer theorems start from |
| DataLink21.DataLink21.SendPgn | j1939/j1939_21.py:163-195 | no live send buffer is ever changed by a new message: it is sent at once, started on an idle pair, or waits |
| DataLink21.DataLink21.StartWaiting | j1939/j1939_21.py:203-206 | a waiting message is started only when no send buffer is left, oldest first |
| DataLink21.DataLink21.BuildPacket | j1939/j1939_21.py:241-249 | the slicing and padding loop yields the sequence number and the seven bytes of the packet |
| DataLink21.DataLink21.SendWindow | j1939/j1939_21.py:239-269 | the window loop sends what `Burst` says, for which the transfer is proved |
| DataLink21.DataLink21.AsyncJobThread | j1939/j1939_21.py:198-308 | every buffer is served as if alone, no receive session whose deadline has passed survives, and the wake-up is the earliest remaining deadline or the default |
| DataLink21.DataLink21.ProcessTpCm | j1939/j1939_21.py:311-432 | which buffer, frames, deliveries and exception each management frame yields, short and unknown ones included |
| DataLink21.DataLink21.ProcessTpDt | j1939/j1939_21.py:434-511 | the same for data packets, including the abort and exception for one out of sequence |
| DataLink21.DataLink21.NotifyTransport | j1939/j1939_21.py:570-624 | directed frames for others touch nothing; frames for this node touch exactly one buffer, the one of their pair; which exception each frame raises |
| Transport22.HashInjective | j1939/j1939_22.py:139 | two sessions share a buffer key only if number, source and destination agree |
| Transport22.PaddedLengthIsLeast | j1939/j1939_22.py:75-79 | the length table yields the least legal CAN FD length |
| Transport22.DecodeRoundTrip | j1939/j1939_22.py:757-782 | the peer reads from a management frame the fields it was built from |
| Frames22.DtContent | j1939/j1939_22.py:784-805 | a segment sent for the first time carries its session, number and chunk, within 64 bytes |
| Frames22.AppendSegment | j1939/j1939_22.py:671-680 | appending a padded segment yields the next prefix, and cutting at the announced size removes the padding |
| Session22.StepInv | j1939/j1939_22.py:364-703 | any step without a timeout keeps the coupling between both windows, with the chunks not yet sent still as they were cut |
| Session22.BurstSends | j1939/j1939_22.py:416-439 | a pass inside a window sends consecutive segments up to the grant, and the status directly behind the last one |
| Session22.DirectedTransferIsExact | j1939/j1939_22.py:253-703 | for every payload of 61..16777215 bytes, all window limits and every run without a timeout: nothing or exactly the payload is delivered once, padding never; a finished sender used n segments, ceil(n/window) CTS, one status and one acknowledgement |
| Session22.CreditWindow | j1939/j1939_22.py:556-699 | in every reachable state received <= sent <= granted <= n, and each CTS grants between one segment and a window |
| Session22.StepsProgress | j1939/j1939_22.py:364-703 | each productive step lowers a natural measure, every other step changes nothing |
| Session22.NeverStuck | j1939/j1939_22.py:364-703 | until the sender has let go of its buffer a productive step is possible |
| Session22.RunsTerminate | j1939/j1939_22.py:364-703 | every run has boundedly many productive steps |
| Lossy22.PrefixDelivery | j1939/j1939_22.py:575-686 | whatever is lost, duplicated, reordered or timed out, each delivery is a prefix of the payload |
| Lossy22.ReachedIsInOrder | j1939/j1939_22.py:667-674 | accepting only the expected segment gathers n of them if and only if segments 1..n arrive in this order with anything in between |
| Lossy22.DeliveryIsWholeIffInOrder | j1939/j1939_22.py:575-686 | as long as no pass finds the deadline set by the events before it passed, exactly one delivery is made, the prefix up to the first segment missing in order, so it is the whole payload if and only if all arrived in order before the status; otherwise nothing is delivered |
| Lossy22.NoPassStaysOpen | j1939/j1939_22.py:370-386 | without passes of the job thread a receive session stays open |
| Lossy22.LosslessDelivers | j1939/j1939_22.py:575-686 | the announcement, all segments in order with anything of this transfer in between, and the status: the payload is delivered, once |
| Lossy22.BroadcastSendsAll | j1939/j1939_22.py:451-475 | for passes at any times: early ones send nothing, each due one the next segment in order, then the status, and then buffer and number are freed |
| Lossy22.BroadcastStarts | j1939/j1939_22.py:284-303 | the buffer a broadcast opens is one that sends everything |
| Lossy22.ResendIsRightIff | j1939/j1939_22.py:788-796 | for chunks of every length: the first frame carries the chunk; sent again it carries header and chunk, cut to the length of the chunk, which is right if and only if the chunk repeats its own header |
| Lossy22.RepeatedGrantGarbles | j1939/j1939_22.py:542-562 | two grants of the first segment of 61 zero bytes: the first frame is right, the second is not |
| Isolation22.SessionsAreIndependent | j1939/j1939_22.py:510-703 | for any interleaving of transport frames of any length and session number in which no pass raises, buffer and deliveries of one source, destination and number are those of running its frames alone |
| Isolation22.PassesNeverRaise | j1939/j1939_22.py:370-385 | as long as every announcement carries a number of its pool, no pass of a run raises |
| Isolation22.StrayHoldsUpOthers | j1939/j1939_22.py:370-386 | two requests to send from a silent peer, one with a number outside the pool: a pass that meets its buffer first leaves the other expired session where it is |
| Behaviour22.SilentSenderIsFreed | j1939/j1939_22.py:369-386 | whatever happened to any number of sessions while no pass raised: when a sender falls silent its session is closed by the first pass 1.25 s later at the latest, and its next request to send with that number is granted |
| Behaviour22.SilentReceiverIsGivenUp | j1939/j1939_22.py:409-415 | whatever passes there are, a directed transfer without an answer ends with the first one at its deadline, with one abort, and not before |
| Behaviour22.ShortMessageArrives | j1939/j1939_22.py:202-229 | a message of 1..60 bytes sent at once is one frame, addressed by its format, with the service header byte by byte, and a receiver finds exactly this message in it under page, format and specific part of its PGN |
| Behaviour22.GroupIs | j1939/j1939_22.py:206-223 | PGN, priority, service and payload of the group made of a short message, batched ones included |
| Behaviour22.LongMessageIsAnnounced | j1939/j1939_22.py:253-325 | a longer message is announced to its destination or to everybody, under its PGN, with its size, number and segments |
| Behaviour22.StartTells | j1939/j1939_22.py:253-325 | the announcement byte by byte and how long the sender waits |
| Behaviour22.CtsIsObeyed | j1939/j1939_22.py:542-573 | refused for an unknown session, half a second of patience for zero segments, otherwise from the segment asked for, for as many as are asked for, exist and may be sent |
| Behaviour22.AckEndsTransfer | j1939/j1939_22.py:597-609 | the acknowledgement is handed on as it came and ends the transfer; an unknown one is refused |
| Behaviour22.WindowIsSent | j1939/j1939_22.py:416-439 | the segments of a window with session, number, bytes and filling, the status behind the last one of the message, and how long the sender waits after them |
| Behaviour22.BroadcastPass | j1939/j1939_22.py:451-475 | a due broadcast sends one segment and waits for the interval |
| Behaviour22.RtsIsAnswered | j1939/j1939_22.py:511-540 | a request to send is granted from the first segment within what both sides can take, or refused as busy while the session goes on |
| Behaviour22.StatusCloses | j1939/j1939_22.py:575-595 | the status closes the session; what was gathered is delivered and acknowledged if the announced sizes agree, otherwise the peer gets an abort |
| Behaviour22.ExpectedSegment | j1939/j1939_22.py:645-703 | the segment expected is kept, completes the message without delivering it, or grants the next window, with the frames sent in each case |
| Behaviour22.ReceiverWaits | j1939/j1939_22.py:38-46 | 1.25 s after granting segments, 0.75 s after any other frame that changes the session; a complete broadcast keeps its deadline |
| Behaviour22.ReceiverTimesOut | j1939/j1939_22.py:369-386 | at its deadline and not before the session goes, its number is free and a directed sender is told |
| Behaviour22.FramesAreRouted | j1939/j1939_22.py:845-870 | which frames the layer takes part in and which of its buffers they are about |
| Pool22.Acquire | j1939/j1939_22.py:182-197 | takes the lowest free number, or none if all are taken |
| Pool22.PoolStart | j1939/j1939_22.py:256-323 | a new transfer overwrites no live buffer and keeps numbers and live buffers in step |
| Pool22.PoolServed | j1939/j1939_22.py:409-475 | a job pass frees exactly the number of a buffer that goes |
| Pool22.PoolAnswered | j1939/j1939_22.py:542-608 | CTS and acknowledgements for live transfers free nothing |
| Pool22.TakenIffOneHolder | j1939/j1939_22.py:92-96 | a flag is taken exactly when one live send buffer carries its number |
| Pool22.PoolBounds | j1939/j1939_22.py:92-96 | never more than four broadcasts and eight directed transfers at once |
| Pool22.ReturnKeepsPoolIff | j1939/j1939_22.py:515-601 | a number returned by a receiving handler leaves the pool intact if and only if it was not taken here |
| Pool22.AbortLosesNumber | j1939/j1939_22.py:634-640 | an aborted transfer is removed without returning its number |
| MultiPg.AnyFormatRoundTrip | j1939/j1939_22.py:329-361 | for groups of any service and trailer format: parsing a packed and padded frame yields exactly those in the plain format before the first without a service, in order, if and only if no empty one of them stands last without padding behind it; the packed length is the least legal one |
| MultiPg.MultiPgRoundTrip | j1939/j1939_22.py:329-361 | for plain groups: all of them are read back in order if and only if the last group has a payload or padding follows |
| MultiPg.ParseBody | j1939/j1939_22.py:705-736 | parsing any list of groups before any padding loses at most an empty last group |
| MultiPg.PriorityIsMostUrgent | j1939/j1939_22.py:331-334 | a frame has the most urgent priority among its groups |
| MultiPg.MpgUnhashRoundTrip | j1939/j1939_22.py:141-180 | format, counter, source and destination are recovered from a slot key |
| MultiPg.PlaceFilled | j1939/j1939_22.py:235-246 | the fill level stays the sum of 4 + length over the groups and at most 64 |
| MultiPg.PlaceConserves | j1939/j1939_22.py:235-246 | an accepted group joins the pending ones of its slot, last |
| MultiPg.FlushConserves | j1939/j1939_22.py:395-398 | a buffer sent takes its groups from pending to sent, none twice, in order of acceptance |
| MultiPg.WaitingIsNotOverdue | j1939/j1939_22.py:231-249 | a buffer not yet due holds no group whose deadline, the time it was accepted plus its limit, has passed, unless a search in vain was later |
| MultiPg.DeadlineIsLeast | j1939/j1939_22.py:231-243 | a buffer is due at the least deadline of the groups waiting in it, not before, unless a search in vain was later than that |
| MultiPg.RoomIffFits | j1939/j1939_22.py:238 | a group joins a buffer exactly if it still fits into the frame |
| DataLink22.SearchGoesRound | j1939/j1939_22.py:233-252 | with no room in the 256 slots the search finds none however long it goes on |
| DataLink22.InVainMeansFull | j1939/j1939_22.py:233-252 | a search in vain means that all 256 slots are pending, so with fewer it ends |
| DataLink22.VainSearchPostpones | j1939/j1939_22.py:247-252 | a search in vain keeps a full buffer waiting through every pass of an earlier time, even if it was due |
| DataLink22.VainSearchOverdue | j1939/j1939_22.py:247-252 | then a group whose own deadline has passed can still wait after a pass of an earlier time |
| DataLink22.FlushReachesItsPair | j1939/j1939_22.py:395-398 | a buffer is sent to the destination its groups were accepted for |
| DataLink22.DataLink22.BuildMultiPg | j1939/j1939_22.py:329-353 | both loops yield the packed and padded bytes and the most urgent priority |
| DataLink22.DataLink22.FindSlot | j1939/j1939_22.py:230-252 | finds the first slot with room, telling the full ones before it to send at once |
| DataLink22.DataLink22.SendShort | j1939/j1939_22.py:206-252 | refuses a directed base-format frame, sends at once, or batches and logs the group with its deadline and the search; it returns unless all slots are too full |
| DataLink22.DataLink22.SendLong | j1939/j1939_22.py:253-325 | starts with the lowest free number or refuses and changes nothing; on an originating node no live buffer is overwritten |
| DataLink22.DataLink22.SendPgn | j1939/j1939_22.py:202-327 | both ways of sending by length, with the deadlines logged, keeping the session pool |
| DataLink22.DataLink22.ServeReceivers | j1939/j1939_22.py:369-386 | drops exactly the expired receive buffers; raises if and only if one of them has a number outside its pool, having then served the buffers up to the first such one |
| DataLink22.StrayGone | j1939/j1939_22.py:370-386 | each pass that raises takes exactly one buffer with a number outside its pool, so only as many passes raise as there are such buffers |
| DataLink22.DataLink22.ServeBatches | j1939/j1939_22.py:388-398 | sends exactly the due Multi-PG buffers and keeps all book-keeping |
| DataLink22.DataLink22.SendWindow | j1939/j1939_22.py:416-439 | the window loop sends what `Burst` says, for which the transfer is proved |
| DataLink22.DataLink22.BuildSegment | j1939/j1939_22.py:788-803 | header insertion and padding loop, and what they leave in the stored chunk |
| DataLink22.DataLink22.AsyncJobThread | j1939/j1939_22.py:364-482 | no receive session whose deadline has passed survives, no group whose own deadline has passed waits, the wake-up is the earliest remaining deadline or the default, and the session pool is kept; when it raises, what was dropped and sent, and that nothing else happened |
| DataLink22.DataLink22.ProcessTpCm | j1939/j1939_22.py:485-643 | which buffer, frames, deliveries, returned number and exception each management frame yields |
| DataLink22.DataLink22.ProcessTpDt | j1939/j1939_22.py:645-703 | only the expected segment is added; completion, grants and deadlines |
| DataLink22.DataLink22.ProcessMultiPg | j1939/j1939_22.py:705-736 | the trimming loop delivers what `Parse` finds, in order |
| DataLink22.DataLink22.NotifyTransport | j1939/j1939_22.py:824-870 | Multi-PG is delivered regardless of ownership; transport frames touch one buffer, and only at destinations owned here; which exception each frame raises |
| Name.ValueOfFields | j1939/name.py:225-250 | taking a 64-bit value apart and putting it together yields the value |
| Name.FieldsOfValue | j1939/name.py:225-250 | fields in range survive their 64-bit value, so the value is a bijection |
| Name.OrderIsLexicographic | j1939/name.py:225-237 | comparing values is comparing fields from the arbitrary address bit down to the identity number |
| Name.BytesRoundTrip | j1939/name.py:252-268 | the value survives the byte form |
| Name.BuiltValue | j1939/name.py:110-143 | an object built from a value has it if and only if bit 48 is clear, otherwise loses exactly that bit |
| Name.Name.Create | j1939/name.py:114-143 | raises if and only if a field is out of range, otherwise holds the fields with the reserved bit clear |
| Name.Name.SetValue | j1939/name.py:239-250 | shifts and masks store fields whose value is the one given |
| Name.Name.GetBytes | j1939/name.py:252-264 | eight bytes from which the same fields are read back |
| Claim.ClaimIsUnderstood | j1939/controller_application.py:485-492 | the receiver of a claim reads exactly the NAME and the address byte of its sender |
| Claim.HearEffect | j1939/controller_application.py:253-307 | silence means the claim was for another address; the lower NAME keeps its state and answers; the higher one no longer claims the address |
| Claim.LoserEffect | j1939/controller_application.py:276-297 | losing to a lower NAME: without the arbitrary address bit the CA is out, has no address and announces the null address; with it, it claims and announces the next one |
| Claim.WinnerEffect | j1939/controller_application.py:299-307 | the winner repeats its claim; claims for other addresses leave a CA silent |
| Claim.TickBranches | j1939/controller_application.py:216-251 | the timer claims the preferred address, 128..247 to be waited for and others at once, takes the address waited for, and does nothing else |
| Claim.BeginBranches | j1939/controller_application.py:346-416 | a commanded address replaces the preferred one; an unstarted CA takes it at once |
| Claim.AskedBranches | j1939/controller_application.py:418-441 | only a CA in NORMAL answers, with its address, requests to it or to everybody |
| Claim.ControllerApplication.ProcessClaimAsync | j1939/controller_application.py:216-251 | first claim, end of the veto time, and when to be called again |
| Claim.ControllerApplication.ProcessAddressClaim | j1939/controller_application.py:253-307 | defence, next address or giving up, by comparing NAME values |
| Claim.ControllerApplication.ProcessCommandedAddress | j1939/controller_application.py:318-344 | only nine bytes with this NAME at a capable device start a claim |
| Claim.ControllerApplication.ChangeAddress | j1939/controller_application.py:346-416 | starts a claim if and only if the address is 0..253 and an ECU is there |
| Claim.ControllerApplication.ProcessRequest | j1939/controller_application.py:418-444 | takes requests to its address in use or to everybody: one for Address Claimed is answered with that address, any other goes to each subscriber in order; too short a request raises |
| Claim.ControllerApplication.MessageAcceptable | j1939/controller_application.py:505-515 | accepts messages only with an address in use, for it or for everybody |
| ClaimNetwork.StepInv | j1939/controller_application.py:216-444 | every step, commanded changes and requests included, keeps a claim under way between any two nodes claiming the same address |
| ClaimNetwork.ClashesAreContested | j1939/controller_application.py:216-416 | over every run: while two nodes claim the same address of 0..255, a claim for it is unprocessed between them |
| ClaimNetwork.QuietBusIsUnique | j1939/controller_application.py:216-416 | over every run: with no message in flight no two CAs in NORMAL or WAIT_VETO have the same address of 0..255 |
| ClaimNetwork.NoticedIffOneByte | j1939/controller_application.py:485-492 | a rival's claim for one's own address is noticed if and only if the address fits a byte |
| ClaimConvergence.ReachSize | j1939/controller_application.py:266-297 | r nodes with the lowest NAMEs have visited at most r addresses between them |
| ClaimConvergence.GiveUpsWithinRank | j1939/controller_application.py:266-297 | over every run without commanded changes, requests included, preferred addresses at most 257-N: a node lets go of at most as many addresses as there are lower NAMEs, so what it announces is at most that far above the address it prefers |
| ClaimConvergence.LowestNeverMoves | j1939/controller_application.py:299-307 | over the same runs the lowest NAME keeps the address it prefers |
| ClaimConvergence.SingleAddressStays | j1939/controller_application.py:280-290 | over the same runs a CA without the arbitrary address bit claims no address but the one it prefers, and has given it up exactly if it cannot claim |
| ClaimConvergence.StepPotential | j1939/controller_application.py:216-307 | every claim sent and every message processed lowers a natural measure weighted by rank; an answered request raises it by less than a price that depends on the rank of the node asked |
| ClaimConvergence.ClaimsAreFinite | j1939/controller_application.py:216-307 | the number of claims sent and processed in a run is bounded by that measure plus the price of the requests in it |
| ClaimConvergence.WorkIsBounded | j1939/controller_application.py:216-307 | from a fresh network the bound depends only on the number of nodes, their ranks and the requests |
| ClaimConvergence.SettledIsUnique | j1939/controller_application.py:216-307 | over the same runs: when the last message has been processed, every node that claims an address has it to itself |
| ClaimOverflow.TwoAt256 | j1939/controller_application.py:289-297 | n CAs with proper, arbitrary address capable NAMEs that all prefer p with p+n > 257: a run without commands that ends with no message in flight and two CAs in NORMAL at 256 |
| ClaimOverflow.CapableName | j1939/name.py:225-250 | the NAMEs of these CAs are values a NAME object has, with the arbitrary address bit set and the reserved bit clear |
| ClaimOverflow.Cascade | j1939/controller_application.py:289-297 | a claim by a lower NAME pushes the CAs above it up one after the other, until one is past the last byte and nobody hears it |
| ClaimOverflow.UniqueIff | j1939/controller_application.py:216-307 | n CAs (up to 2^48) with proper NAMEs and preferred addresses up to p always end up with unique addresses if and only if p+n <= 257 |
| TimerGrid.SearchEndsIff | j1939/electronic_control_unit.py:684-686 | the search for the next deadline ends if and only if the period is positive or the first step is enough |
| TimerGrid.FirstAfterIsLeast | j1939/electronic_control_unit.py:684-686 | the point a timer moves to is the least one of its grid after the time of the pass |
| TimerGrid.PassEnds | j1939/electronic_control_unit.py:670-691 | once nothing is due, each timer left is where it was or at the first point of its grid after the time of the pass, no two from the same one |
| Timers.Timers.AddTimer | j1939/electronic_control_unit.py:243-258 | adds one event and changes no other; its grid starts at the time of the call plus the period |
| Timers.Timers.RemoveTimer | j1939/electronic_control_unit.py:260-269 | removes all events of the callback and no others |
| Timers.Timers.NextDeadline | j1939/electronic_control_unit.py:684-686 | the loop ends at the first later point of the grid that is not before the time of the pass |
| Timers.Timers.Pass | j1939/electronic_control_unit.py:666-695 | a pass ends; it calls due timers in order of deadline and number, each at its deadline and once more if a later point of its grid is just the time of the pass, and nothing else; a timer stays if and only if it never said no in the pass; every deadline lies after its time, on the grid the timer was started with, counting the periods since the start; timers not due are untouched |
| Timers.Timers.TimerJobThread | j1939/electronic_control_unit.py:666-695 | over any number of passes: a timer is there at the end if and only if it never said no; until then every pass before which a point of its grid has come up calls it, always at a point of that grid; it lies at the first such point after the last pass, so no drift accumulates |
| TimerCalls.KeptOn | j1939/electronic_control_unit.py:670-691 | if a pass keeps exactly the timers that never said no in it, and the passes before did so, all of them together do |
| TimerCalls.FaithfulStays | j1939/electronic_control_unit.py:659-691 | a timer whose callback always says yes is there after every run |
| TimerCalls.DueIsCalled | j1939/electronic_control_unit.py:670-674 | every timer due at the time of a pass is called in it |
| TimerGrid.ComposeMoved | j1939/electronic_control_unit.py:666-695 | two passes move a timer as one pass at the later time does |
| Dm1.CodeRoundTrip | j1939/diagnostic_messages.py:22-70 | a trouble code decoded with its own conversion method is what was encoded, for all four methods |
| Dm1.LampsRoundTrip | j1939/diagnostic_messages.py:131-161 | the lamps read back are the known ones given, missing and unknown ones off |
| Dm1.LampsStand | j1939/diagnostic_messages.py:134-145 | whatever bytes arrive: off if and only if the lamp bits are 0, on, slow and fast if and only if they are 1 and the flash bits 3, 0, 1, for each lamp in its place |
| Dm1.LampsSent | j1939/diagnostic_messages.py:147-161 | the four bits sent for each lamp |
| Dm1.CodesSpelled | j1939/diagnostic_messages.py:331-350 | whatever payload arrives: every four bytes that are not all zero are one code, its fields in the places its method gives them |
| Dm1.LengthsParsed | j1939/diagnostic_messages.py:315-325 | the payload lengths taken are 8 and 2 + 4n |
| Dm1.EntryKept | j1939/diagnostic_messages.py:278-289 | an entry with SPN and FMI is one code: no count means zero, no key for the method means 4, None is no method |
| Dm1.PayloadBytes | j1939/diagnostic_messages.py:274-300 | lamps, four bytes a code, and the filling of a list of none or one |
| Dm1.Dm1RoundTrip | j1939/diagnostic_messages.py:274-350 | parsing a built payload yields the same lamps, and the same list if and only if no code is all zeros and every method is 4 or the receiver's; for no code, one and many |
| Dm1.Dm1.LampData | j1939/diagnostic_messages.py:147-161 | the loop over the lamps yields two bits each from the protect lamp up |
| Dm1.Dm1.Send | j1939/diagnostic_messages.py:270-310 | the loop builds the payload of the complete entries; an unknown method, or a key for it holding None, raises with what was built before it left behind; priority 7 when the transport protocol is needed; the list given is kept with the counts filled in |
| Dm1.Dm1.ParseReceived | j1939/diagnostic_messages.py:315-350 | a payload of impossible length changes nothing, otherwise lamps and codes are what the payload holds |

## Left out

- python-can, notifier and listener plumbing, logging, threads, locks and wake-up queues: steps are atomic, although the J1939-21 check for a live buffer and its insertion take the lock separately.
- A frame constructor that rejects data values above 255: a J1939-21 message of more than 1785 bytes is announced with such a value, and what the bus does with it is not modelled. The transfer theorems are for 9..1785 bytes.
- Two whole `DataLink` objects talking to each other: the transfer theorems join one sender and one receiver buffer, the class methods are proved to treat every buffer as these do, and `Isolation21` and `Isolation22` are about the receiving side.
- Retransmission: J1939-21 ignores the requested packet number, and of J1939-22 segments sent again only those of `Lossy22.ResendIsRightIff` are right, so the session theorems assume a receiver of this library and no duplicated CTS; `Lossy21` and `Lossy22` cover a bus that loses, duplicates and reorders the data frames.
- A defaulted priority (`None`), and keyword arguments of other types than numbers.
- Routing of address claims, requests and ordinary frames in `notify`: `NotifyTransport` covers the transport protocols and Multi-PG.
- Veto timing: a claim network tick may come at any time, so claims hold for every timing; the timer that causes it is not tied to the CA.
- Bypassed CAs take part in no claim run; several CAs on one ECU share a claim in the source and are not modelled together.
- Timers.Timers.Pass: asks for positive periods, because with others the search for the next deadline need not end; `TimerGrid.SearchEndsIff` says exactly when it does.
- Callbacks of subscribers that raise or change what the caller is walking through.
- Timer callbacks that add or remove timers, and the waiting of the thread between passes.
- heapq internals: the heap is a sequence ordered by deadline and number.
- DM11, DM14 to DM16, DM22, memory access, the error tables, subscriber lists, dependents, connect and disconnect. `Dm1.Dm1.Send` changes the list of entries as a value; that the application's own dictionaries are changed is not modelled.
