# Verified model of the RakNet reliability layer

This project models the sender and receiver engine under `src/reliability/` and
the datagram codec in `src/proto/`, and proves what they keep over whole runs.
`dafny verify dfyconfig.toml` checks all of it.

## How it is built

Each part of the engine appears twice. A value with functions on it says what
every operation means (`Windows.WindowState`, `Retransmission.Cache`,
`Scheduling.Schedule`, `Senders.Sender`, `Receivers.Receiver`). A class holds the
source's own fields and updates them with the source's own loops
(`Windows.Window`, `RetransmitCaches.RetransmitCache`, `Buffers.BytesMut`,
`Buffers.BytesReader`, `Layers.Layer`, `SlidingWindows.SlidingWindow`,
`Udts.UDT`). Every method of a class is proved to compute exactly what the
function says, and the theorems about runs are about the functions.

| files | what they are about |
|---|---|
| `Windows`, `WindowRuns` | the receive window: a ring refining a map; holes; one fate for every index |
| `Retransmission`, `RetransmitCaches`, `RetransmissionRuns` | the 128-slot history and the retransmit queue |
| `Scheduling`, `Fairness` | the weighted priority queue: no starvation, which priority goes first, and the share of each |
| `Splitting` | cutting messages up and putting them together |
| `Packing` | the packing loops: order, limit, density, uniqueness |
| `Ordering`, `SequencedMessages`, `MixedChannels` | ordered channels: safety always, completeness exactly when; sequenced messages from sender to receiver; both on one channel |
| `SeqRanges`, `Codec`, `Layouts`, `Buffers`, `ControlSizes` | range compression, the wire format, its bytes in numbers, and when acknowledgements fit the MTU |
| `Senders`, `SenderRuns`, `Acknowledgements` | runs of the sender: conservation, no loss, and the MTU |
| `Traces`, `Transmissions` | every fragment traced to the call of `send` it came from; what a transmission takes, and the bytes it starts with |
| `Receivers`, `Feedback`, `HandedUp` | the receiving half, what it acknowledges and reports, and what it hands up |
| `ExactlyOnce`, `OrderedDelivery` | exactly when repeats of reliable fragments are invisible, and all ordered messages get out |
| `MessageParts`, `Delivery`, `EndToEnd`, `OneChannel` | sender and receiver joined by a hostile network, with any other traffic beside an ordered channel |
| `Provenance`, `LooseMessages`, `ClosedLoop`, `Answers` | in the same runs: nothing is made up, sequenced channels, messages without a channel, and nothing lost when the receiver's own acknowledgements travel back; what the layer makes of them |
| `LayerFacts`, `Layers` | the layer itself, updated in place |
| `SlidingWindows`, `Medians`, `Udts` | the two congestion controllers |

## Where the code departs from its intent

The code is modelled as written. Where a property one would expect fails, there is
the exact condition under which it holds, and a concrete witness unless the condition
itself shows one.

- `Window::insert` does not refuse an index below the start. What becomes of one is
  settled for every case by `WindowRuns.StaleIff`: if the slot it shares is taken it is
  refused; if the slot is free and the window is empty, the next `shift` subtracts past
  zero (`WindowRuns.StaleDuplicateWitness`); and if the slot is free while another index
  waits, it slips through a second time without any error. Five fragments are enough to
  hand a message up twice (`OrderedDelivery.RepeatSlipsWitness`). Reliable fragments go
  through exactly once if and only if none slips (`ExactlyOnce.ExactlyOnceIff`), and that
  is the one thing the theorems about ordered channels assume of the network. For datagram
  numbers the same holds of their accounts (`WindowRuns.EveryRunHasOneFateIff`).
- The ordered drain leaves the slot it stops at in place, so later messages are
  stored one slot too far. What comes out is still always in order
  (`Ordering.ReleasesInOrder`), but arrivals 2, 0, 1 never release message 2
  (`Ordering.TwoZeroOneWitness`). `Ordering.ReleasesEverythingIff` says exactly for
  which arrival orders everything is released, and `EndToEnd.AllMessagesOutIff` says it
  of whole runs.
- `mark_as_used` has no range check, so a number outside the ring answers for the packet
  whose slot it shares, be it an old number (`RetransmissionRuns.StaleAckWitness`) or one
  never sent (`RetransmissionRuns.UnsentAckWitness`). It is right for a number if and only
  if that lies in the ring or its slot holds no packet
  (`RetransmissionRuns.MarkAsUsedRightIff`), which is always so for the last 128 numbers
  sent. An acknowledgement takes only packets it names if and only if the packets in whose
  slots its numbers land are named too (`Acknowledgements.RightfulIff`). Conservation in the
  sender needs nothing of the sort; that nothing is lost (`Acknowledgements.NothingIsLost`,
  `ClosedLoop.NothingIsLostInTheLoop`) is proved for acknowledgements that meet this
  condition, and so for all that name only the last 128 numbers sent
  (`Acknowledgements.NothingRecentIsLost`, `ClosedLoop.NothingPromptIsLost`).
- The sender counts sequenced messages over all channels and starts again at every
  ordered one, while the receiver compares the counts of one channel. A newer message is
  then dropped (`SequencedMessages.OtherChannelResets`). On a channel without ordered
  messages, newer ones always get through if and only if the counts of the channel climb
  (`SequencedMessages.NewerIsHeardIff`). An ordered message on the channel itself holds
  later sequenced ones back until it has arrived (`SequencedMessages.OrderedHoldsBack`).
- `update` never splits an acknowledgement or a nak, and a repeated datagram is acknowledged
  once more each time, so an acknowledgement can become as long as one likes
  (`ControlSizes.LongAckWitness`). A datagram with k numbers fits whatever they are if and
  only if 3 + 4k bytes do, or 7 + 4k with an arrival rate (`ControlSizes.ControlFitsIff`).
- `put_datagram` cuts numbers, lengths and range counts to the width of their fields
  without checking. `Codec.DatagramRoundTripIff` says exactly which datagrams survive.
- Above its threshold the sliding window does not grow: the first acknowledgement of a new
  block replaces it by the square of a packet over itself, which is one packet at most, and
  slow start begins again (`SlidingWindows.AvoidanceCollapses`).
- In UDT, leaving slow start ends all sending: the bandwidth is zero from then on
  (`Udts.UDT.GetTransmissionBandwidth`, `Udts.SlowStartIsLeftForGood`). A send interval
  that enters at 500 never comes down again, and one that enters lower never gets
  there (`Udts.OneReportDecides`).
- In UDT, the summed slope of the round trips underflows as soon as one of them is
  shorter than the one before (`Udts.SumSlope`). In a build without overflow checks a fall
  in between cancels out, and only a last round trip below the first wraps, which then
  reads as a huge rise (`Udts.WrappedSlopeTelescopes`).

## Conventions

- Integers are unbounded. Arithmetic that would overflow or index out of bounds is
  `Err(Panic)`, as in a build with overflow checks; any error ends the connection,
  as it does in `src/peer.rs:530-534`. The widths of the wire fields are explicit in
  `Codec`; `EndToEnd.WithinLimits` and `Traces.CountersFit` keep counters within them.
- A ring's `index & (N - 1)` is written `index % N`; windows of any size are covered.
- The heap is a bag from which any element of minimum weight may be taken, so
  theorems hold for every way of breaking ties.
- `sort_unstable` is the function `SeqRanges.Sort`, proved to be a sorted permutation.
- The socket is a ghost sequence of the bytes handed to it. The clock is a
  parameter and never goes back.
- What the congestion controller answers inside `Layer` (bandwidth, timeout, slow
  start, whether to acknowledge, arrival rate) is a parameter, so that what is
  proved of the layer holds for either controller, or any other. Its packet
  counter is the field `nextSeq`.
- Floats are reals; the arrival rate in an acknowledgement is four opaque bytes.

## Model

| member | source | states |
|---|---|---|
| EndToEnd.MessagesArriveInOrder | src/reliability/layer.rs:400-586 | for every run of a sender and receiver over a network that loses, repeats and reorders encoded datagrams, none of whose fragments slips through the window again, and with any unordered, unreliable or other-channel traffic beside it: what has come out of an ordered channel is a prefix of the messages passed to `send` on it, byte for byte, and the log that tells channels apart is exactly the output |
| EndToEnd.AllMessagesOutIff | src/reliability/layer.rs:400-586 | in those runs every complete message of the channel, split or not, has come out if and only if none before it is missing and none closed the lowest gap while a higher one was open |
| ClosedLoop.NothingIsLostInTheLoop | src/reliability/layer.rs:329-355 | with the receiver's own acknowledgements lost, repeated and late, but rightful when handled: every fragment given a reliable index is in the history, in the retransmit queue or has arrived |
| ClosedLoop.NothingPromptIsLost | src/reliability/layer.rs:329-355 | the same if acknowledgements come before 128 more packets are sent |
| ClosedLoop.EverythingArrives | src/reliability/layer.rs:186-285 | in such a run, once the cache and the outgoing queue are empty, every part of every reliable message, on any channel or none, has arrived |
| ClosedLoop.EverythingIsOutIff | src/reliability/layer.rs:400-492 | then, if the receiver lives, no fragment slipped and no sequenced message was sent on the ordered channel, every message of it is complete, and all of them have come out if and only if none completed closed the lowest gap while a higher one was open |
| LooseMessages.LooseMessagesComeOut | src/reliability/layer.rs:400-464 | in every run in which nothing slips and messages without a channel are sent whole: what has come out of no channel is each unreliable one once per arrival of its packet and each reliable one once, in the order of arrival |
| LooseMessages.PlainPacketIsHandedUp | src/reliability/layer.rs:400-464 | a packet of whole unreliable messages without a channel never fails and adds their payloads to the output, in order, at every arrival |
| LooseMessages.UnreliableIsReceived | src/reliability/layer.rs:416-456 | an unreliable sequenced message goes to its channel and adds what that releases, or fails if there is no such channel |
| Answers.AnsweredIsTold | src/reliability/layer.rs:293-327 | for every live run and control datagram, what the layer makes of the bytes is what the runs of `EndToEnd` say the sender does; bytes that cannot be read change nothing and end the run |
| Answers.NakSendsAgain | src/reliability/layer.rs:357-368 | a nak keeps what is outstanding; each packet in whose slot a number lands leaves the history and stands behind what was in the retransmit queue, the others keep their numbers |
| Answers.AckGivesUp | src/reliability/layer.rs:329-355 | an acknowledgement gives up exactly what the packets in whose slots its numbers land hold, counts its bytes, and leaves the retransmit queue |
| Answers.HalvesAreApart | src/reliability/layer.rs:293-327 | packets and unreadable bytes leave the sending half alone, control datagrams the receiving half |
| Answers.ReportsAre | src/reliability/layer.rs:147-172 | naks are always reported, acknowledgements when it is time; what is reported is no longer held, the rest is kept |
| Provenance.NothingIsMadeUp | src/reliability/layer.rs:400-492 | in every run, with any traffic, repeats and failures, each message handed up is byte for byte one given to `send` and comes out of the channel it was sent on, or of none if it was sent without one |
| Provenance.SequencedChannelHears | src/reliability/layer.rs:436-440 | in every run, what has come out of a channel without ordered messages is what the counts of its requests make of the messages put together, in their order; if the counts climb, those newer than all before them |
| Provenance.CountersOfRun | src/reliability/layer.rs:527-541 | in every run the sender's sequence and ordering counters are the counts of the calls of `send` |
| Provenance.CompletedTraced | src/reliability/layer.rs:466-492 | a fragment that was sent, repeated or not, reliable or not, completes nothing but a message that was sent, and reassembly never fails |
| Traces.ActionKeepsTraced | src/reliability/layer.rs:186-256 | every action keeps each fragment queued or sent a part of one call of `send`, and no part of a reliable message unaccounted for |
| Transmissions.PacketHeads | src/reliability/layer.rs:258-268 | each packet of an update starts with 0x8C in slow start and 0x88 after it, and then its number, lowest byte first |
| Transmissions.EveryPacketIsContinuous | src/reliability/layer.rs:261-268 | in every run no packet is one of a pair and all are marked as sent continuously |
| Transmissions.StepSends | src/reliability/layer.rs:258-268 | only an update sends, under the next numbers, asking for a rate exactly as told |
| Transmissions.UpdateSends | src/reliability/layer.rs:186-251 | a transmission takes the longest prefix of the retransmit queue, timed-out packets included, that the bandwidth allows, then the lightest of the heap in order of weight until the next does not fit |
| Transmissions.FullHistory | src/reliability/layer.rs:258-285 | an update fails exactly if it has more packets than are left of 128, and then one too many is sent |
| Transmissions.CutToFill | src/reliability/layer.rs:544-586 | a message that fits with its header of 3 to 13 bytes goes out whole; a longer one in pieces that fill a packet each but the last, with count, id and position |
| OneChannel.OrderedMessagesArriveInOrder | src/reliability/layer.rs:400-586 | if only ordered messages of one channel are sent, all that is handed up is a prefix of them |
| EndToEnd.WireIsTransparent | src/proto/bytes.rs:68-110 | as long as the counters fit their fields, a packet the sender ever put on the wire decodes to itself |
| Delivery.HandleAllSent | src/reliability/layer.rs:370-464 | any packet of sent fragments that do not slip keeps the receiver's window, table and channel at what the set of arrived fragments determines |
| Delivery.PartStored | src/reliability/layer.rs:466-492 | a new part of a message fills its entry and no other, and the last one brings out the whole message and clears the entry |
| Delivery.OtherTraffic | src/reliability/layer.rs:408-463 | a fragment of any other channel or of no channel, reliable or not, leaves the channel and its entries as they were, even if it fails |
| MessageParts.SenderIssues | src/reliability/layer.rs:511-586 | no part of a message of the channel is ever given two reliable indices |
| MessageParts.ActionKeepsSender | src/reliability/layer.rs:188-256 | unless a sequenced message is sent on the channel, each fragment queued, issued or on the wire stays a part of one message of the channel or cannot be taken for one, and each part of each message stays queued or sent, once |
| SenderRuns.SenderConserves | src/reliability/layer.rs:188-285 | in every live state of every run each reliable index given so far names one fragment that is acknowledged, in the history or in the retransmit queue, in exactly one of them and once, and nothing else is in any |
| SenderRuns.RunKeepsInv | src/reliability/layer.rs:329-368 | send, update, ack, nak and timeout all keep conservation, the exact history and the order of send times, for any sequence numbers acknowledged or reported |
| Acknowledgements.AckedWereSent | src/reliability/layer.rs:329-355 | over every run with rightful acknowledgements, an acknowledged fragment went out in a packet whose number was acknowledged |
| Acknowledgements.RightfulIff | src/reliability/retransmit_cache.rs:65-80 | an acknowledgement takes only packets it names if and only if it is rightful: the packets in whose slots its numbers land are named too |
| Acknowledgements.NothingIsLost | src/reliability/layer.rs:258-285 | if acknowledgements are rightful and only packets that were got are acknowledged, every fragment given an index is in the history, in the retransmit queue or in a packet that was got |
| Acknowledgements.NothingRecentIsLost | src/reliability/layer.rs:258-285 | the same for every run whose acknowledgements name only the last 128 numbers sent by then |
| Acknowledgements.StepKeepsOnWire | src/reliability/layer.rs:258-285 | every step keeps wire numbers consecutive and each slot equal to the reliable fragments of the packet with its number |
| Acknowledgements.RecentIsRightful | src/reliability/retransmit_cache.rs:65-80 | acknowledgements of the last 128 numbers sent are rightful |
| SenderRuns.EveryPacketFits | src/reliability/layer.rs:192-285 | every packet datagram of every run encodes to at most the MTU less 28 bytes |
| ControlSizes.ControlLength | src/proto/bytes.rs:216-288 | the exact length of an acknowledgement or nak: three bytes, four for a rate, and four or seven for each range |
| ControlSizes.ControlFitsIff | src/reliability/layer.rs:147-172 | whatever they name, control datagrams of up to k numbers fit the room exactly if 3 + 4k bytes do, or 7 + 4k for an acknowledgement with a rate |
| ControlSizes.LongAckWitness | src/reliability/layer.rs:370-388 | with datagram 0 missing, k copies of datagram 1 leave an acknowledgement of k numbers that takes all of these bytes |
| SenderRuns.OutboundQueueable | src/reliability/layer.rs:544-586 | whatever the payload, each fragment `send` queues fits one packet |
| SenderRuns.UpdateOutstanding | src/reliability/layer.rs:186-285 | a transmission adds exactly the freshly numbered fragments to what is outstanding |
| LayerFacts.UpdatedIsStep | src/reliability/layer.rs:174-287 | the in-place update is one step of those runs, and the bytes on the socket are that step's datagrams encoded |
| ExactlyOnce.RepeatsAreInvisible | src/reliability/layer.rs:400-464 | reliable fragments of any kind, repeated as the network likes, do what their first copies would do with no reliable window at all, as long as none fails or slips |
| ExactlyOnce.ExactlyOnceIff | src/reliability/layer.rs:401-406 | over any run without an error, each reliable fragment goes through exactly once if and only if none slips: every copy below the window finds its slot taken |
| ExactlyOnce.PlainMessagesOnce | src/reliability/layer.rs:400-464 | reliable unordered messages, none of which slips, are handed up exactly once each, in the order their first copies arrive |
| ExactlyOnce.AdmitsFirsts | src/reliability/layer.rs:401-406 | what the reliable window does with every index: an error past its end, through exactly if new inside it, and below it through again exactly if it slips |
| OrderedDelivery.AllHandedUpIff | src/reliability/layer.rs:400-492 | a receiver of ordered messages, whole or split, hands up a prefix of them, and all it completed if and only if none up to the last is missing and none closed the lowest gap while a higher one was open |
| OrderedDelivery.RepeatSlipsWitness | src/reliability/window.rs:25-47 | five fragments, one of them a repeat, go through without an error and one message is handed up twice |
| OrderedDelivery.ProcessOrdered | src/reliability/layer.rs:408-459 | what a run of fragments hands up is what their channel releases on the ordering indices of the messages they complete |
| HandedUp.FragmentHands | src/reliability/layer.rs:416-463 | the tagged log accounts for exactly what a fragment adds to the output, and a failing fragment adds nothing |
| Scheduling.NoStarvation | src/reliability/layer.rs:588-620 | however fragments of any priority keep arriving, a waiting fragment is overtaken fewer times than a bound fixed when counting starts |
| Scheduling.PushAhead | src/reliability/layer.rs:598-620 | a push while something waits never adds to what is ahead of any weight |
| Scheduling.PopAhead | src/reliability/layer.rs:223-231 | a pop takes exactly one from what is ahead of any waiting fragment |
| Scheduling.PushBalanced | src/reliability/layer.rs:601-619 | no queued weight is below its priority's factor, so the subtraction never underflows, nor above its priority's next weight |
| Scheduling.WeightsNeverDecrease | src/reliability/layer.rs:606-619 | while the queue is not empty no priority is ever given a lower weight than it has waiting |
| Fairness.WeightIs | src/reliability/layer.rs:592-620 | the weight of a new fragment as a number: 0, 3, 10 or 27 on an empty queue, the one kept for its priority otherwise, or the top's lead over its first plus its own first if that has fallen behind |
| Fairness.HighestPriorityFirst | src/reliability/layer.rs:598-620 | whatever is pushed after the queue has been empty, what is taken next is of the highest priority waiting |
| Fairness.FairShares | src/reliability/layer.rs:606-619 | from then on, while every priority waits, pops are shared out as 1/3 to 1/10 to 1/27 to 1/68, with no priority more than two strides ahead of another |
| Fairness.SendIsPushes | src/reliability/layer.rs:511-586 | what a send does to the queue is one push per fragment, so that these laws hold of `send` |
| Fairness.UpdateIsPops | src/reliability/layer.rs:223-251 | the picks of an update are minimum pops of such a run |
| Ordering.ReleasesInOrder | src/reliability/layer.rs:416-456 | for any arrival order of distinct indices the releases are exactly 0, 1, 2, ... up to the index awaited |
| Ordering.ReceiveInOrder | src/reliability/layer.rs:436-456 | one arrival keeps every buffered index within one of its slot and releases consecutive indices |
| Ordering.ReleasesEverythingIff | src/reliability/layer.rs:440-453 | everything that arrived is released if and only if no index is missing and no arrival closed the lowest gap while a higher one was open |
| Ordering.TwoZeroOneWitness | src/reliability/layer.rs:445-452 | arrivals 2, 0, 1 release 0 and 1 and leave 2 behind an empty slot |
| Ordering.ImageOfReceive | src/reliability/layer.rs:416-459 | a channel of messages releases the messages named by the indices the same channel of indices releases |
| Ordering.SequencedOnlyGetsNewer | src/reliability/layer.rs:436-440 | a sequenced channel releases strictly newer messages only, ending with the newest received |
| SequencedMessages.NewerIsHeardIff | src/reliability/layer.rs:436-440 | on a channel without ordered messages: whatever is lost and however the rest is reordered, a receiver hands up every message newer than all it has, if and only if the sender's counts on the channel climb |
| SequencedMessages.WholeIs | src/reliability/layer.rs:527-541 | on a channel without ordered messages a sequenced message carries the sender's count and ordering index 0 |
| SequencedMessages.OrderedHoldsBack | src/reliability/layer.rs:424-434 | after an ordered message on its channel a sequenced one waits, although nothing older has arrived |
| SequencedMessages.CountIs | src/reliability/layer.rs:527-541 | the count is the number of sequenced sends on any channel since the last ordered one |
| SequencedMessages.NoOrderedBetween | src/reliability/layer.rs:527-541 | counts climb as long as no ordered message is sent in between |
| SequencedMessages.OtherChannelResets | src/reliability/layer.rs:527-541 | an ordered message on another channel makes the receiver drop a newer sequenced one |
| MixedChannels.InOrderIsAllIff | src/reliability/layer.rs:436-456 | when all that is sent on a channel, ordered and sequenced, arrives in order, all of it is handed up in order if and only if the counts climb between any two of its ordered messages |
| MixedChannels.OneChannelInOrder | src/reliability/layer.rs:436-456 | so it is if all ordered messages are sent on that channel |
| MixedChannels.OrderedCutsOff | src/reliability/layer.rs:420-423 | past an ordered message nothing sent before it on the channel comes out any more |
| Splitting.SplitRoundTrip | src/reliability/layer.rs:466-492 | pieces in any order, repeated and mixed with other ids, give nothing until the last missing piece and then the original bytes, leaving nothing under the id |
| Splitting.ChunksJoin | src/reliability/layer.rs:558-580 | the pieces of a payload join to the payload, and none is too large |
| Splitting.ChunkCount | src/reliability/layer.rs:561-563 | the number of pieces announced is the number made |
| Splitting.SplitsInTwo | src/reliability/layer.rs:542-548 | a message is cut only into two pieces or more |
| Splitting.StrangePieces | src/reliability/layer.rs:466-492 | a piece beyond its own count is ignored, one beyond the count of those before it aborts, and a message of a single piece waits for a second |
| Packing.FillHolds | src/reliability/layer.rs:192-256 | greedy filling keeps the fragments in order, sizes exact, packets within the limit and unable to take their successor's first fragment |
| Packing.PackingIsDense | src/reliability/layer.rs:206-211 | adjacent packets together exceed the limit, so k packets carry more than half of k full ones, rounded down to even |
| Packing.PackingIsUnique | src/reliability/layer.rs:197-256 | order and limit alone decide every packet boundary |
| WindowRuns.InsertThenShift | src/reliability/window.rs:25-81 | at or above the start, `insert` is new exactly once per index, and after the shift the start is the least index never accepted |
| WindowRuns.InsertRightIff | src/reliability/window.rs:25-36 | "new" is the right answer exactly if the index is not below the start or its slot is taken |
| WindowRuns.StaleDuplicateWitness | src/reliability/window.rs:49-54 | an index already passed is accepted again and the next shift panics |
| WindowRuns.ShiftExact | src/reliability/window.rs:49-81 | `shift` removes exactly the maximal filled run and keeps the rest |
| WindowRuns.CollectMissingExact | src/reliability/window.rs:84-120 | gives up on everything up to the highest expired entry, reports exactly the holes below it in descending order, and leaves no expired entry |
| WindowRuns.EveryRunHasOneFateIff | src/reliability/layer.rs:379-386 | over any run that does not end the connection, each index below the start was received or reported missing, never both and never twice, and those above are stored exactly if received, if and only if every datagram below the window found its slot taken |
| WindowRuns.StaleIff | src/reliability/window.rs:25-54 | an index the window has passed is refused if its slot is taken; otherwise the shift fails if the window is empty, and else it goes through again |
| Feedback.EveryPacketIsAnswered | src/reliability/layer.rs:370-393 | in any run that does not end the connection every packet is acknowledged in order of arrival; if none below the window is taken again, every number below it was acknowledged or reported missing and none reported twice; if none comes late, never both |
| Feedback.NumberIsAnswered | src/reliability/layer.rs:379-391 | a number 128 above the first missing one fails, the first missing one reports nothing, and any other reports exactly the holes below the highest packet that has waited longer than the timeout |
| Receivers.HandleInTwo | src/reliability/layer.rs:393-397 | a packet can be handled in two parts, and nothing after the first fragment that fails is looked at |
| RetransmissionRuns.InsertExact | src/reliability/retransmit_cache.rs:43-63 | a packet with the next sequence number is stored or refused, never silently dropped |
| RetransmissionRuns.TakenSlotsStay | src/reliability/retransmit_cache.rs:43-63 | a number whose slot is taken changes nothing and reports success, and a cache with its first slot taken is not empty |
| RetransmissionRuns.MarkAsUsedRightIff | src/reliability/retransmit_cache.rs:65-80 | for every number, sent or not: what comes back is right if and only if the number lies in the ring or the slot it shares holds no packet |
| RetransmissionRuns.MarkAsUsedExact | src/reliability/retransmit_cache.rs:65-80 | for the last 128 numbers sent, fragments come back exactly when that packet is in the history, and no other slot is touched |
| RetransmissionRuns.StaleAckWitness | src/reliability/retransmit_cache.rs:65-80 | after 128 packets sent, acknowledged and shifted out, acknowledging number 0 again takes packet 128 |
| RetransmissionRuns.UnsentAckWitness | src/reliability/retransmit_cache.rs:65-80 | with packet 0 in flight, acknowledging the unsent number 128 takes it |
| RetransmissionRuns.ShiftExact | src/reliability/retransmit_cache.rs:82-99 | only acknowledged slots are given up, and none is left at the start |
| RetransmissionRuns.EmptyIff | src/reliability/retransmit_cache.rs:37-41 | looking at one slot and the queue answers for the whole cache |
| RetransmissionRuns.RetransmitMovesAllOverdue | src/reliability/retransmit_cache.rs:101-135 | the scan that stops at the first packet in time moves what a full scan would, in send order, and leaves nothing overdue |
| RetransmissionRuns.PrefixScanIsFullScan | src/reliability/retransmit_cache.rs:107-121 | with ordered send times the prefix scan finds all overdue packets |
| RetransmissionRuns.RetransmitKeepsTheRest | src/reliability/retransmit_cache.rs:123-132 | packets in time keep their slots |
| RetransmissionRuns.RetransmitOutstanding | src/reliability/retransmit_cache.rs:101-135 | moving to the queue neither loses nor copies a fragment |
| RetransmissionRuns.MarkAsUsedOutstanding | src/reliability/retransmit_cache.rs:65-80 | what an acknowledgement returns is exactly what leaves |
| Codec.DatagramRoundTripIff | src/proto/bytes.rs:68-110 | decoding an encoded datagram gives it back, its lists sorted, if and only if every field fits its width and every list its range count |
| Codec.FragmentsRoundTripIff | src/proto/bytes.rs:98-101 | a list of fragments parsed until the buffer is empty is the list written, if and only if all of them fit |
| Codec.FragmentRoundTripIff | src/proto/bytes.rs:134-187 | a fragment survives the wire if and only if its fields fit their widths |
| Codec.SeqsRoundTripIff | src/proto/bytes.rs:260-288 | a list of 24-bit numbers inside a buffer reads back as its sorted permutation, leaving the rest, if and only if its ranges can be counted in 16 bits |
| Codec.SeqsReadBackIff | src/proto/bytes.rs:112-132 | any non-empty list reads back as its sorted permutation if and only if its numbers fit 24 bits and its ranges can be counted in 16 |
| Codec.AckNamesNoMore | src/proto/bytes.rs:112-132 | even when the range count is cut off, an acknowledgement of 24-bit numbers can be read back and names nothing it did not name before |
| Codec.FragmentLength | src/proto/datagram.rs:65-86 | the computed size is the encoded length |
| Codec.PacketLength | src/proto/bytes.rs:216-258 | a packet is four bytes longer than its fragments |
| Codec.GetPutU24 | src/proto/bytes.rs:28-30 | three little-endian bytes read back, cut to 24 bits |
| Layouts.FragmentHead | src/proto/bytes.rs:290-297 | the first byte of a fragment for each of the eight reliabilities, split or not, and the length in bits after it |
| Layouts.FragmentFields | src/proto/bytes.rs:299-316 | where each field stands, how many bytes it takes and in which order |
| Layouts.Codes | src/reliability/fragment.rs:14-61 | the number of each reliability, and which of them are reliable, sequenced and ordered |
| Layouts.DatagramHead | src/proto/bytes.rs:216-258 | the first byte of each kind of datagram, and what follows it |
| Layouts.RangeIs | src/proto/bytes.rs:276-286 | a single number is marked 1 and a range 0 |
| Layouts.KindIsInTheFirstByte | src/proto/bytes.rs:68-110 | what any bytes are read as, or refused |
| Layouts.AnyRange | src/proto/bytes.rs:112-132 | any bytes where a range is expected: truncated, wrongly marked, backwards or good |
| Layouts.AnyFragment | src/proto/bytes.rs:134-190 | any bytes where a fragment is expected: exactly when they are one, what is its payload and what is left, and which error they give otherwise |
| Layouts.ShortDatagram | src/proto/bytes.rs:68-113 | a datagram that ends inside its header is too short, whatever its kind, and a packet may hold no fragment |
| Layouts.BadFragmentSpoils | src/proto/bytes.rs:98-110 | one bad fragment spoils the whole packet, however many good ones come before it |
| Layouts.RangesInTwo | src/proto/bytes.rs:112-132 | ranges are read one after another, and one bad range spoils the list |
| Layouts.TheRestIsIgnored | src/proto/bytes.rs:76-92 | what follows the ranges of an acknowledgement or a nak is not looked at |
| SeqRanges.ExpandRanges | src/proto/bytes.rs:112-132 | range compression loses nothing, repeats included |
| SeqRanges.RangesAreMinimal | src/proto/bytes.rs:264-284 | for distinct numbers the ranges are apart and as few as any list of ranges for the same numbers |
| SeqRanges.SortSorts | src/proto/bytes.rs:261 | sorting gives an ascending permutation |
| SlidingWindows.StaysWithin | src/reliability/congestion_controller/sliding_window.rs:99-104 | with round trips in a range around 50 the estimate stays in it and the deviation is at most the larger of 6.25 and its width |
| SlidingWindows.ClampsNeverFire | src/reliability/congestion_controller/sliding_window.rs:103-104 | after any acknowledgements both averages stay positive without the clamps |
| SlidingWindows.ConstantRoundTrip | src/reliability/congestion_controller/sliding_window.rs:99-104 | with a constant round trip the error after n acknowledgements is 0.95 to the n of the first, and the deviation has a closed form in 0.05 and 0.95 |
| SlidingWindows.ForgetsTheStart | src/reliability/congestion_controller/sliding_window.rs:101-103 | two controllers fed the same round trips differ by 0.95 to the n of their first difference |
| SlidingWindows.RtoWithin | src/reliability/congestion_controller/sliding_window.rs:69-72 | the timeout is between 30 and 2000 and follows the range of the round trips |
| SlidingWindows.EveryTimeout | src/reliability/congestion_controller/sliding_window.rs:69-72 | in every run of all controller events the timeout is between 30 and 2000 |
| SlidingWindows.OneAcknowledgement | src/reliability/congestion_controller/sliding_window.rs:99-104 | an acknowledgement moves the estimate a twentieth of the way to its round trip and the deviation a twentieth of the way to their distance |
| SlidingWindows.RtoIs | src/reliability/congestion_controller/sliding_window.rs:69-72 | the timeout is twice the estimate, four times the deviation and thirty, rounded, and at most 2000 |
| SlidingWindows.FirstTimeouts | src/reliability/congestion_controller/sliding_window.rs:28-43 | a new controller has a timeout of 155, and one that has got a round trip of 150 an estimate of 55 and a timeout of 184 |
| SlidingWindows.SlowStartGrows | src/reliability/congestion_controller/sliding_window.rs:117-122 | until something is resent or reported missing, n acknowledgements make the window n + 1 packets |
| SlidingWindows.AvoidanceCollapses | src/reliability/congestion_controller/sliding_window.rs:114-126 | above the threshold the first acknowledgement of a block takes the window down to a packet at most, and slow start begins again |
| SlidingWindows.BackoffIff | src/reliability/congestion_controller/sliding_window.rs:74-88 | exactly when a resend backs off, and what it then does |
| SlidingWindows.OneBackoffPerBlock | src/reliability/congestion_controller/sliding_window.rs:74-88 | after a back-off, until a packet sent later is acknowledged, the threshold stays and the window only grows, to one packet above it at most |
| SlidingWindows.BackoffThenBlock | src/reliability/congestion_controller/sliding_window.rs:79-87 | a back-off lowers the window to one packet and starts such a block |
| Medians.FindKthElementRecursive | src/reliability/congestion_controller/udt.rs:235-262 | terminates with an element that at most k are smaller than and more than k are no larger than |
| Medians.KthIsUnique | src/reliability/congestion_controller/udt.rs:235-262 | only one value can be the k-th |
| Medians.KthOfSorted | src/reliability/congestion_controller/udt.rs:230-233 | it is what a sort would leave at position k, and no other value is |
| Medians.CalcArrivalRate | src/reliability/congestion_controller/udt.rs:203-228 | a rate exists exactly for a full history with a positive median, and is the mean of the rates near it, from an eighth up to eight times the median |
| Medians.MeanIsNearMedian | src/reliability/congestion_controller/udt.rs:208-227 | the mean of the rates near the median exists exactly if the median is positive, and is near it |
| Medians.NearCounts | src/reliability/congestion_controller/udt.rs:208-222 | each recorded rate counts as often as it was recorded, from an eighth of the median on and below eight times it |
| Medians.MeanIs | src/reliability/congestion_controller/udt.rs:212-227 | lists put together weigh their means by their lengths, and one rate is its own mean |
| Udts.EveryRunKeepsBounds | src/reliability/congestion_controller/udt.rs:105-147 | in every run the send interval stays in (0, 500], the window in 2..512, and slow start keeps the default interval |
| Udts.IncreaseRaises | src/reliability/congestion_controller/udt.rs:186-190 | an increase never lowers the interval, raises it below 500 and does not reach 500 |
| Udts.DecreaseLowers | src/reliability/congestion_controller/udt.rs:192-195 | a decrease never raises the interval, lowers it below 500 by less than a hundredth, and does nothing at 500 |
| Udts.IntervalFollowsRoundTrips | src/reliability/congestion_controller/udt.rs:278-317 | at the end of 33 round trips sending slows down if they rose by more than a tenth of their average and speeds up otherwise, and any fall panics |
| Udts.FlatIntervalSpeedsUp | src/reliability/congestion_controller/udt.rs:306-312 | with a constant round trip sending speeds up |
| Udts.IntervalGoesOn | src/reliability/congestion_controller/udt.rs:280-318 | within a block an acknowledgement only adds its round trip, and a break in the stream opens a new block |
| Udts.LossSlowsDownOnce | src/reliability/congestion_controller/udt.rs:105-112 | a loss slows sending down once per block, and ends slow start at the interval of the last rate |
| Udts.SlowStartFollowsBytes | src/reliability/congestion_controller/udt.rs:264-276 | in slow start the window is the packets' worth of bytes acknowledged, from 2 to 512, and more than 512 end it |
| Udts.ArrivedIs | src/reliability/congestion_controller/udt.rs:149-162 | what an arrival leaves in which of 64 slots |
| Udts.SlowStartIsLeftForGood | src/reliability/congestion_controller/udt.rs:264-317 | slow start is never entered again, the window stays, and the interval is at 500 for the rest of the run or never |
| Udts.OneReportDecides | src/reliability/congestion_controller/udt.rs:180-201 | the interval stays at 500 exactly when the rate last reported in slow start is at most one five-hundredth |
| Udts.SumSlope | src/reliability/congestion_controller/udt.rs:294-301 | the checked slope is last minus first, and panics exactly if some round trip falls |
| Udts.WrappedSlopeTelescopes | src/reliability/congestion_controller/udt.rs:298-301 | the wrapping slope is last minus first too: a fall in between cancels out, and a last round trip below the first reads as a huge rise |
| Udts.FullHistoryHasRate | src/reliability/congestion_controller/udt.rs:149-162 | once the ring of arrival rates has gone round there is always a positive rate to report |
| Udts.EveryRunFills | src/reliability/congestion_controller/udt.rs:149-162 | over every run of non-empty datagrams each slot written holds a positive rate |
| Windows.Window.Insert | src/reliability/window.rs:25-47 | the ring does what `WindowState.Insert` does to the map it stands for |
| Windows.Window.Shift | src/reliability/window.rs:49-81 | the ring does what `WindowState.Shift` does |
| Windows.CollectMissingFrom | src/reliability/window.rs:84-120 | the ring does what `CollectMissing` does |
| RetransmitCaches.RetransmitCache.Insert | src/reliability/retransmit_cache.rs:43-63 | the ring does what `Retransmission.Insert` does |
| RetransmitCaches.RetransmitCache.MarkAsUsed | src/reliability/retransmit_cache.rs:65-80 | the ring does what `Retransmission.MarkAsUsed` does |
| RetransmitCaches.RetransmitCache.Shift | src/reliability/retransmit_cache.rs:82-99 | the ring does what `Retransmission.Shift` does |
| RetransmitCaches.RetransmitCache.GetRetransmitFragments | src/reliability/retransmit_cache.rs:101-135 | the ring and the queue do what `Retransmission.GetRetransmitFragments` does |
| Buffers.BytesMut.PutSeqs | src/proto/bytes.rs:260-288 | the loop writes exactly `Codec.PutSeqs` and leaves the list sorted |
| Buffers.BytesMut.PutDatagram | src/proto/bytes.rs:216-258 | appends exactly `Codec.PutDatagram` |
| Buffers.BytesReader.TryGetDatagram | src/proto/bytes.rs:68-110 | reads exactly `Codec.GetDatagram`, errors included |
| Buffers.BytesReader.TryGetSeqs | src/proto/bytes.rs:112-132 | reads exactly `Codec.GetSeqs` and leaves the rest |
| Layers.Layer.constructor | src/reliability/layer.rs:87-118 | for every MTU whose subtraction does not underflow the layer starts in the initial state of both halves, with a timeout of 10000 and no flag set, and is fit for sending exactly from 56 bytes on |
| Layers.Layer.Send | src/reliability/layer.rs:511-556 | does `Senders.Sent` to the sending half |
| Layers.Layer.SplitFragment | src/reliability/layer.rs:558-586 | queues exactly the pieces of the message, in order, under one new id |
| Layers.Layer.GetNextWeight | src/reliability/layer.rs:598-620 | gives the weight of `Scheduling.NextWeight`, which `Fairness.WeightIs` tells in numbers |
| Layers.Layer.Update | src/reliability/layer.rs:132-290 | sends control datagrams and a transmission as in `Senders.Transmits`, numbers, stores and encodes its packets, fails exactly if the history is full, and leaves `bandwidthExceeded` telling whether fragments are left |
| Layers.Layer.PackRetransmits | src/reliability/layer.rs:197-221 | takes the longest prefix of the retransmit queue the bandwidth allows |
| Layers.Layer.PackOutgoing | src/reliability/layer.rs:223-251 | takes and numbers tops of the heap until the next does not fit the bandwidth |
| Layers.Layer.SendPackets | src/reliability/layer.rs:258-285 | sends the packets under consecutive numbers and stores their reliable fragments |
| Layers.Layer.HandleDatagram | src/reliability/layer.rs:293-327 | decodes and does `Receivers.HandleBytes` to one half and `LayerFacts.Answered` to the other (see `Answers`), counts the bytes acknowledged, and keeps the time of the datagram and the wish for a rate |
| Layers.Layer.HandleAck | src/reliability/layer.rs:329-355 | does `Senders.Acked` and counts the bytes acknowledged |
| Layers.Layer.HandleNak | src/reliability/layer.rs:357-368 | does `Senders.Naked` |
| Layers.Layer.HandlePacket | src/reliability/layer.rs:370-398 | does `Receivers.HandlePacket`, and keeps the wish for a rate once the number is taken |
| Layers.Layer.HandleFragment | src/reliability/layer.rs:400-464 | does `Receivers.HandleFragment` |
| Layers.Layer.BuildSplitFragment | src/reliability/layer.rs:466-492 | does `Splitting.Reassemble` to the table |
| SlidingWindows.SlidingWindow.OnRecvAck | src/reliability/congestion_controller/sliding_window.rs:90-127 | does the `Ack` step; no division is by zero |
| SlidingWindows.SlidingWindow.OnResend | src/reliability/congestion_controller/sliding_window.rs:74-88 | does the `Resend` step |
| SlidingWindows.SlidingWindow.OnRecvNak | src/reliability/congestion_controller/sliding_window.rs:129-133 | does the `Nak` step |
| SlidingWindows.SlidingWindow.GetRto | src/reliability/congestion_controller/sliding_window.rs:69-72 | gives `Rto` of the averages |
| Udts.UDT.OnRecvAck | src/reliability/congestion_controller/udt.rs:114-138 | does the `Ack` step, or panics exactly when it does |
| Udts.UDT.OnLoss | src/reliability/congestion_controller/udt.rs:105-112 | does the `Loss` step, for resends and naks alike |
| Udts.UDT.OnRecvPacket | src/reliability/congestion_controller/udt.rs:149-162 | writes the rate of one arrival into the ring |
| Udts.UDT.OnSendAck | src/reliability/congestion_controller/udt.rs:164-170 | reports the mean of the rates near the median once the history is full and nothing before; a rate reported is positive, and a full history of positive rates always gives one |
| Udts.UDT.GetTransmissionBandwidth | src/reliability/congestion_controller/udt.rs:73-99 | the window during slow start, and zero for ever after it |

## Left out

- Sockets, tasks, notifications and the handshake in `src/peer.rs`, offline messages, string and address encoding: I/O or thin conversions.
- Socket errors: a send always succeeds. The error paths modelled are the full history, the windows, the decoder and panics.
- Builds without overflow checks: arithmetic that underflows is a panic here, except for `Udts.WrappedSlope`. 24-bit and 16-bit counters are not followed past their width.
- The calls from `Layer` into its controller as one system: the layer is proved for all answers of a controller, and the two controllers for all events, separately.
- Data in both directions at once: a run of `EndToEnd` carries packets one way and control datagrams the other. The two halves of a layer share no field but clocks and flags, so two layers talking to each other are two such runs.
- Feedback.EveryPacketIsAnswered: collects acknowledgements and reports over the whole run, where `update` sends and clears them now and then.
- EndToEnd.MessagesArriveInOrder: assumes that no fragment slips through the reliable window again, because the code then processes it twice (`OrderedDelivery.RepeatSlipsWitness`), and that no sequenced message is sent on the channel itself.
- Mixed sequenced and ordered traffic on one channel: a sequenced fragment with a future ordering index is buffered as if it were ordered. For such channels only `Provenance.NothingIsMadeUp` holds.
- Reassembly of unreliable messages: the result of `reliablize` is discarded in the source, so the pieces of an unreliable message stay unreliable and nothing brings a lost one back.
- IEEE rounding and NaN in the controllers: with reals no comparison fails and no division overflows. A reported rate of zero or less is excluded; `Udts.UDT.OnSendAck` shows that this peer never reports one.
- The internals of `BinaryHeap`, `VecDeque`, `HashMap` and `Bytes`: a bag, a sequence, a map and a sequence of bytes.
- Layers.Layer.Send: a channel of 32 or more is left out for ordered and sequenced messages, where the source indexes past its array, and so are MTUs from 32 to 55, where the header of a piece need not fit and the source's subtraction then underflows.
- Layers.Layer.Update: the long body of `update` is cut into one method per loop; early returns through `?` on a socket error are not modelled.
- `Priority` ties in the heap: the source compares weights only, and so does the model. The first weight after an empty queue is not advanced, so the first two fragments of one priority may tie.
