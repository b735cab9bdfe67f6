# A verified model of go-l2tp

go-l2tp implements the L2TP control protocol (RFC 2661, and the framing of
RFC 3931) and, on top of it, a PPPoE access concentrator (RFC 2516). This
project models the parts of it that have to hold together under concurrency,
loss and hostile input, and proves what they promise.

`dafny verify dfyconfig.toml` checks the whole project.

## What is modelled

**The reliable control transport.** `Transport` holds the transport object with
its transmit, acknowledgement and receive queues, its retry timers and its
congestion window, each method proved against the functions of
`TransportSpec`. `SlowStart` and `SeqNum` hold the congestion state and the
16-bit sequence arithmetic. `Endpoint` takes the two goroutines apart into
steps: writing to the socket and incrementing Ns are two steps, because the
receiver reads Ns in between, and each retry timer, each queue pop and each
hand-over is a step of its own; accepting a message, which moves Nr, and handing
it to the user are two steps as well. A retry request that is already on its way
when its message is acknowledged stays on its way: the sender takes it later,
and only the message's completion flag stops a bogus write. `Refinement` shows that
the loops of the object are runs of those steps. `Network` joins two endpoints
by a network that loses, duplicates and reorders. Proof-only unbounded counters
shadow the wrapping 16-bit numbers, and the theorems of `NetworkTheorems`,
`RetryProofs`, `CongestionTheorems` and `AckTimer` hold in every run. `EndToEnd`
puts the codec and the transport together.

**The two codecs.** `Avp`, `Msg` and `MsgSpec` model L2TP messages: headers,
attribute lists, validation and the message builders. `Pppoe` models PPPoE
discovery packets. The cursor loops of the parsers are methods proved equal to
recursive functions, and the laws are about those functions. `L2tpWire` and
`PppoeWire` fix every octet by its position. `Validity` and `BuiltMessages` say
what messages are accepted and what the messages built say. `Crash` and
`PppoeWire` say exactly which octets parse to what, and `Crash` which make the
receiver panic.

**The state machines.** `Fsm` is the table interpreter. `Session` and `Tunnel`
hold the two tables and their callbacks, which may raise further events from
inside an event; `Tunnel` runs one tunnel and any number of sessions as one
product machine with the two session indexes. `Dynamic` holds the objects
themselves, updated in place and proved against those functions.
`TunnelTheorems`, `TunnelMessages`, `UpTheorems` and `OrphanTheorems` hold in
every interleaving.
`Kpppoed` and `KpppoedApp` do the same for the PPPoE server's session table.

## What does not hold

Eleven things one would expect are false of the code. Each has a concrete run or
input, and the exact condition under which it does hold.

- A packet ahead of sequence at the front of the receive queue blocks the queue
  for ever (`NetworkTheorems.WedgedForEver`); over a run the queue is blocked
  exactly when such a packet was once read (`NetworkTheorems.WedgedExactly`).
  Reordering alone, with no loss, is enough
  (`WedgeExample.ReorderingStopsDelivery`).
- A message may complete without error and never reach the peer's user: Nr moves
  before the message is handed over, so it may be acknowledged first
  (`LossExample.CompletedButLost`). A message accepted is never handed over
  exactly when the transport goes down in between, and it is then the last one
  (`NetworkTheorems.LostExactly`).
- An accepted message may be left without an acknowledgement, written or due,
  although nothing is lost: a packet stamped between the hand-over of its frame
  and its acceptance stops the timer (`ForgottenExample.AckIsForgotten`). Over a
  run an acknowledgement is always written or due exactly when that does not
  happen (`AckTimer.AlwaysDueExactly`).
- A buffer of several L2TP messages parses to them exactly when there is at most
  one (`Msg.ConcatenationParsesExactly`), since the parser skips four octets too
  many; of two acknowledgements the second is lost (`Msg.SecondIsLost`). With four
  octets between messages any number parse (`Msg.SpacedMessagesParse`).
- An unrecognised optional attribute is ignored, whatever follows it, exactly when
  its payload is itself a chain of headers of unrecognised optional attributes
  (`Avp.UnknownOptionalIgnoredExactly`): the parser skips headers only. In
  `Avp.UnknownOptionalExample` the payload comes back as a Message Type.
- A disconnect notice with a cause code is rejected, although its specification
  allows one (`MsgSpec.CauseCodeIsFatal`, `MsgSpec.CauseCodeExample`).
- A peer can make the receiver panic. Of all octets it may send, exactly these
  do: a known attribute whose length does not cover its header, behind any
  messages and attributes that parse; and a datagram that parses as a whole with
  a Message Type, on a message that is asked for it, that is not two octets long
  (`Crash.CrashesExactly`; `Crash.ShortExample`, `Crash.TypeExample`). The same
  Message Type in front of a message that does not parse does no harm
  (`Crash.DiscardedTypeExample`).
- A session may close with its Up unanswered. Over every run these are exactly
  the sessions that took a good reply when the acknowledgement could not be sent
  or the interface had no name (`UpTheorems.UpWithoutDownExactly`), and no Down
  follows (`UpTheorems.NoDownFollows`); `UpExample.UpWithoutDown` is such a run.
- Unlinking a session goes by name and identifier. If either is used again
  before the earlier owner has finished, the earlier owner unlinks the later one
  (`TunnelTheorems.ReuseIsTheHazard`). No continuation then tells the later one
  that the tunnel is up (`OrphanTheorems.NeverTold`), and it outlives the tunnel
  unless its owner closes it or a message for it arrives
  (`OrphanTheorems.OrphanSurvives`); `ReuseExample.ReuseOrphansSession` is such a
  run.
- The PPPoE server tracks a refused request as a session under identifier 0, so
  a second refusal loses the first (`Kpppoed.TrackedExactly`,
  `Kpppoed.LostIsReachable`), whose daemon is then never terminated
  (`Kpppoed.LostIsNeverTerminated`).
- Shutdown of the PPPoE server closes the connection before the sessions, so no
  peer is told with a PADT (`Kpppoed.ShutdownTellsNobody`,
  `Kpppoed.ClosedConnIsSilent`). Over a run a peer is told exactly if its session
  was closed locally while the connection was open and took the write
  (`Kpppoed.ToldExactly`).

## Model

| member | source | states |
|---|---|---|
| SeqNum.SeqIncrement | l2tp/transport.go:110-115 | the successor, and 0 after 65535 |
| SeqNum.WrapNext | l2tp/transport.go:110-115 | incrementing a 16-bit number is incrementing the unbounded number it stands for |
| SeqNum.SeqCompare | l2tp/transport.go:117-130 | -1, 0 or 1: 0 exactly on equal numbers, 1 exactly when the first is less than half the space ahead |
| SeqNum.SeqCompareAgrees | l2tp/transport.go:117-130 | agrees with the order of the unbounded numbers if and only if they are less than half the space apart (or exactly half, before) |
| SeqNum.SeqCompareAntisymmetric | l2tp/transport.go:117-130 | antisymmetric if and only if the numbers are not half the space apart |
| SeqNum.WindowBoundIsExact | l2tp/transport.go:117-130 | a window of w messages can be told apart if and only if w is below 0x8000 |
| SlowStart.WindowInvKept | l2tp/transport.go:132-170 | sends, acks and retransmits keep 1 <= cwnd <= TxWindowSize and the other bounds, and no uint16 wraps |
| SlowStart.SlowStartState.CanSendNow | l2tp/transport.go:132-136 | true exactly below the congestion window |
| SlowStart.SlowStartState.Sent | l2tp/transport.go:138-142 | one more packet outstanding, uint16 wrap included, all else unchanged |
| SlowStart.SlowStartState.Acked | l2tp/transport.go:144-163 | the in-place update equals the step that the growth laws are about |
| SlowStart.SlowStartState.Retransmitted | l2tp/transport.go:165-170 | the window collapses to one and the threshold to half the old window |
| SlowStart.SlowStartState.BumpNr | l2tp/transport.go:172-176 | nr moves to the next number, all else unchanged |
| SlowStart.SlowStartState.BumpNs | l2tp/transport.go:178-182 | ns moves to the next number, all else unchanged |
| SlowStart.SlowStartGrowth | l2tp/transport.go:144-163 | below the threshold the window rises by exactly one per ack, up to the threshold |
| SlowStart.AcksBetweenClosedForm | l2tp/transport.go:144-163 | the acks between windows k and m are (m(m-1) - k(k-1))/2 |
| SlowStart.AvoidanceReaches | l2tp/transport.go:144-163 | in congestion avoidance the window is m after that many acks |
| SlowStart.AvoidanceReachesExactly | l2tp/transport.go:144-163 | the window has reached m if and only if at least that many acks have come |
| SlowStart.FullWindowIsStationary | l2tp/transport.go:144-163 | a window at TxWindowSize never grows again |
| SlowStart.RoundsMonotone | l2tp/transport.go:144-163 | without retransmits the window never shrinks and never passes TxWindowSize |
| SlowStart.RecoversExactly | l2tp/transport.go:144-170 | from a window of one, m is reached if and only if so many acks have come: slow start to the threshold, then avoidance, its first step shortened by acks counted before |
| CongestionTheorems.RetransmitCollapses | l2tp/transport.go:502-513 | in every run a retransmission leaves a window of one and a threshold of half the old window, and nothing else changed |
| CongestionTheorems.RecoveryOfEveryRun | l2tp/transport.go:144-170 | from one retransmission to the next, however things interleave, the window is back at m if and only if that many messages have been acknowledged |
| CongestionTheorems.GrowthBeforeLoss | l2tp/transport.go:144-163 | until the first retransmission the window is one more than the messages acknowledged, up to its maximum |
| CongestionTheorems.SendsWithinWindow | l2tp/transport.go:515-538 | a message is first written only while fewer than cwnd are unacknowledged |
| TransportSpec.SanitiseConfig | l2tp/transport.go:229-242 | window, retry limit and both timeouts in use are nonzero, each kept if given and otherwise 4 packets, 3 writes, a second and a tenth of a second |
| Transport.Xport.constructor | l2tp/transport.go:693-745 | the transport starts with a sanitised configuration, an initial window and empty queues |
| Transport.Xport.CompleteTx | l2tp/transport.go:204-218 | a message's completion is called unless it was already, and a timer still running stops |
| Transport.Xport.SendMessage | l2tp/transport.go:456-500 | the packet carries the current ns and nr; ns moves only after a successful write |
| Transport.Xport.SendHead | l2tp/transport.go:515-538 | one turn of the transmit loop moves the head to the acknowledgement queue, or completes it with the error |
| Transport.Xport.ProcessTxQueue | l2tp/transport.go:515-538 | sends from the front while the window allows, stopping at the first failed write |
| Transport.Xport.ProcessAckQueue | l2tp/transport.go:540-552 | the index-0 loop terminates and pops the longest acknowledged prefix, completing each message once |
| Transport.Xport.HandleRetry | l2tp/transport.go:356-375 | a request for a completed message is dropped, an exhausted message fails, another is retransmitted |
| Transport.Xport.Retransmit | l2tp/transport.go:502-513 | the same ns, a fresh nr, a collapsed window and a restarted timer |
| Transport.Xport.GoDown | l2tp/transport.go:579-611 | both queues are emptied and every message left in them completes with the error |
| Transport.Xport.SendExplicitAck | l2tp/transport.go:657-676 | an empty message under the current numbers that consumes no ns |
| Transport.Xport.RecvFrame | l2tp/transport.go:399-415 | a frame is accepted exactly when no packet of it acknowledges more than one past ns |
| Transport.Xport.ReceiveFrame | l2tp/transport.go:268-297 | an accepted frame joins the receive queue whole and gives the sender its nr values in order; another gives neither |
| Transport.Xport.DequeueRxMessage | l2tp/transport.go:418-427 | only the head is ever considered, whatever stands behind it |
| Transport.Xport.ProcessRxQueue | l2tp/transport.go:429-454 | delivers from the front, dropping what is stale, until a head ahead of sequence |
| Transport.Xport.HandleSend | l2tp/transport.go:305-320 | a submission joins the transmit queue and the queue is worked on, or the transport goes down |
| Transport.Xport.HandleNrInds | l2tp/transport.go:323-350 | each nr in turn works on both queues until a write fails; the ack timer starts if any message was not an acknowledgement |
| Refinement.TransmitLoopIsTrace | l2tp/transport.go:515-538 | the transmit loop is a legal run of write and commit steps, whatever writes fail |
| Refinement.NrLoopIsTrace | l2tp/transport.go:323-350 | the nr case of the sender's loop is a legal run of acknowledgement and transmit steps |
| Refinement.ReceiveLoopIsTrace | l2tp/transport.go:429-454 | the receive loop is a legal run of accept and hand-over steps back to the socket |
| EndpointProofs.StepInv | l2tp/transport.go:301-395 | every step of both goroutines, late retry requests included, keeps counters, queues, completions and window consistent, against any peer |
| EndpointProofs.RunInv | l2tp/transport.go:301-395 | and so does every run |
| EndpointProofs.RequestIs | l2tp/transport.go:356-368 | in every reachable state the completion flag tells exactly the requests that come too late |
| EndpointProofs.RequestOfWaiting | l2tp/transport.go:356-375 | a request for a message that still waits is handled by the machine as by the transport object |
| EndpointProofs.LateRetryInv | l2tp/transport.go:356-368 | a late request changes nothing but the list of requests |
| EndpointProofs.StepDelivery | l2tp/transport.go:440-449 | every step keeps what was handed to the user equal to what was accepted, under its numbers, but perhaps for one message on its way |
| EndpointProofs.AckPrefixShape | l2tp/transport.go:540-552 | processing an nr splits the queue at one point and completes exactly what is before it |
| EndpointProofs.DownCompletes | l2tp/transport.go:579-611 | shutdown completes every open message exactly once and no completed message again |
| NetworkProofs.VerdictIsOrder | l2tp/transport.go:185-196 | in sequence, stale or ahead on 16 bits is equal, below or above on the unbounded numbers |
| NetworkProofs.AcceptedIsBound | l2tp/transport.go:405-411 | the nr check on 16 bits accepts if and only if the peer acknowledges at most one message past the ns counter |
| NetworkProofs.RunNetInv | l2tp/transport.go:254-395 | the two-endpoint invariant holds in every legal run of the network |
| NetworkTheorems.DeliveredIsPrefixOfSubmitted | l2tp/transport.go:429-500 | exactly-once, in-order delivery in both directions over a losing, duplicating, reordering network: delivered is a prefix of accepted and that of submitted |
| NetworkTheorems.MirrorReachable | l2tp/transport.go:693-745 | the two sides run the same program: the mirror image of a reachable state is reachable, so every theorem about one side holds of the other |
| NetworkTheorems.SlidingWindow | l2tp/transport.go:486-552 | acked <= peer's received <= written <= acked + TxWindowSize; 16-bit numbers are the counters modulo 65536; the acknowledgement queue is the consecutive unacked numbers |
| NetworkTheorems.CompletedMeansAccepted | l2tp/transport.go:323-341 | a message completes without error only if the peer accepted it in sequence, and in submission order; it is delivered unless it is the last and on its way, or was when the peer went down |
| NetworkTheorems.ForgedAckDropped | l2tp/transport.go:399-415 | against any peer a frame is used whole if and only if no packet acknowledges more than one message past ns, and otherwise not at all |
| NetworkTheorems.HonestPacketAccepted | l2tp/transport.go:405-411 | no packet of the peer is dropped by the early check, even between a write and its ns increment |
| NetworkTheorems.EveryAckIsMatched | l2tp/transport.go:323-341 | every nr acted on completes all messages below it |
| NetworkTheorems.AckQueueRefinesRemoval | l2tp/transport.go:540-552 | what the loop leaves is exactly the messages the nr does not cover, which are those numbered at or above it |
| NetworkTheorems.NoStallAtLoopHead | l2tp/transport.go:301-375 | a waiting message implies a full window, something unacknowledged and a retry outstanding for each |
| NetworkTheorems.CongestionStateBounded | l2tp/transport.go:132-170 | in every run ntx counts the acknowledgement queue, all fields stay in bounds and every ack finds something outstanding |
| NetworkTheorems.EverySubmissionAccountedFor | l2tp/transport.go:515-599 | each submission is in exactly one place, and after shutdown has completed exactly once |
| NetworkTheorems.DeliveredExactlyWhen | l2tp/transport.go:418-454 | a packet read is delivered if and only if it is next in sequence and the queue is not wedged; what wedges it |
| NetworkTheorems.WedgedExactly | l2tp/transport.go:418-454 | over every run an open side is wedged if and only if it once read a packet ahead of sequence |
| NetworkTheorems.WedgedForEver | l2tp/transport.go:418-427 | nothing is accepted after a wedge, whatever follows |
| NetworkTheorems.LostExactly | l2tp/transport.go:448-449 | over every run that ends down, a message was accepted and not handed over if and only if the transport went down in between |
| LossExample.CompletedButLost | l2tp/transport.go:554-577 | a run of the default configuration without loss or failure in which a message completes and no continuation hands it to the peer's user |
| AckTimer.TimerAfterFrame | l2tp/transport.go:323-350 | after a frame the timer runs if and only if the frame had a message in it, or it ran and nothing was written |
| AckTimer.TimerExactly | l2tp/transport.go:486-500 | what starts and stops the acknowledgement timer, for every step |
| AckTimer.AlwaysDueExactly | l2tp/transport.go:429-500 | over every run accepted messages have an acknowledgement written or due if and only if none was accepted behind a packet stamped after its hand-over |
| AckTimer.StrandedStays | l2tp/transport.go:486-500 | a message left without stays so until another packet is sent or a message comes in |
| ForgottenExample.AckIsForgotten | l2tp/transport.go:448-500 | a run of the default configuration without loss or failure that ends there |
| Staleness.NetworkBoundSuffices | l2tp/transport.go:117-130 | the staleness assumption follows from a bound on packets alone, half the space less the window and one |
| EndToEnd.SentIsReceived | l2tp/transport.go:456-480 | every packet in flight for a built message, and the packet delivered at its place, is the message stamped, and its octets parse to just that valid message |
| LateExample.LateRequestIsReachable | l2tp/transport.go:356-368 | a run in which an acknowledgement overtakes a retry request, which is then taken without a write |
| WedgeExample.OvertakingReachable | l2tp/transport.go:418-427 | a run without loss, failure or timeout in which an acknowledgement overtakes a message |
| WedgeExample.ReorderingStopsDelivery | l2tp/transport.go:418-454 | after that run the overtaken message is never delivered |
| RetryProofs.BoundedRetry | l2tp/transport.go:356-375 | every run keeps the count of writes of each message at its retries plus one |
| RetryProofs.WrittenAtMostMaxRetries | l2tp/transport.go:456-513 | at most MaxRetries writes of each message, all under its first ns and with its own body |
| RetryProofs.CompletedNeverRewritten | l2tp/transport.go:356-368 | a completed message is never written again in any run, although requests for it may still be taken |
| RetryProofs.RetryDecreases | l2tp/transport.go:356-375 | every retry strictly decreases attempts left plus late requests, or the transport goes down |
| RetryProofs.WaitedClosedForm | l2tp/transport.go:482-484 | n delays, each twice the one before, sum to RetryTimeout * (2^n - 1) |
| RetryProofs.DelaysOfEveryRun | l2tp/transport.go:486-500 | in every run each write of a message arms one timer, and the n timers armed for it last RetryTimeout * (2^n - 1) together |
| RetryProofs.GivesUpAfter | l2tp/transport.go:502-513 | a message on which the transport gives up has waited RetryTimeout * (2^MaxRetries - 1) |
| RetryProofs.GivesUpAfterScaled | l2tp/transport.go:482-513 | that is also the sum of the 64-bit delays the program computes, as long as none overflows |
| RetryProofs.NoOverflowExactly | l2tp/transport.go:482-484 | no delay overflows the 64-bit duration if and only if RetryTimeout * 2^(MaxRetries - 1) is below 2^63 |
| Pppoe.FindTag | pppoe/pppoe.go:263-270 | the first tag of the type, found if and only if there is one |
| Pppoe.Validate | pppoe/pppoe.go:282-348 | accepts exactly the packets whose code, session identifier and tags RFC 2516 allows |
| Pppoe.EncodeTagList | pppoe/pppoe.go:550-560 | the loop writes the concatenation of the tags' encodings |
| Pppoe.NewTagListFromBuffer | pppoe/pppoe.go:358-386 | the cursor loop equals the recursive tag parser, errors included |
| Pppoe.NewPacketFromBuffer | pppoe/pppoe.go:388-420 | a packet from header and payload exactly when the payload parses and the packet is valid |
| Pppoe.ParsePacketBuffer | pppoe/pppoe.go:424-456 | the cursor loop equals the recursive stream parser, errors included |
| Pppoe.StreamRoundTrip | pppoe/pppoe.go:424-456 | the concatenated encodings of well-formed packets, padded with any number of zero octets, parse back to them |
| Pppoe.ReparseIsIdentity | pppoe/pppoe.go:567-596 | printing then parsing any successful parse gives it again |
| Pppoe.ParsedIsWellFormed | pppoe/pppoe.go:424-456 | whatever is accepted from the wire is valid and fits the wire |
| Pppoe.RoundTripExactly | pppoe/pppoe.go:567-596 | a packet survives the wire if and only if it is valid and its tags fit 16 bits |
| PppoeWire.PacketOctets | pppoe/pppoe.go:567-596 | every octet of a packet by its position, version and type 0x11 included |
| PppoeWire.TagOctets | pppoe/pppoe.go:465-481 | every octet of a tag |
| PppoeWire.ValidExactly | pppoe/pppoe.go:282-348 | the valid packets by the numbers of codes and tags |
| PppoeWire.TagsParseExactly | pppoe/pppoe.go:358-386 | octets parse to tags if and only if they are those tags and less than another header |
| PppoeWire.PacketsParseExactly | pppoe/pppoe.go:424-456 | octets parse to packets if and only if they are those packets among frames of other types and less than a header; all else is an error |
| Avp.NewAvpHeader | l2tp/avp.go:681-698 | flags, vendor and type read back as given, and the length modulo 1024 |
| Avp.ParseAVPBuffer | l2tp/avp.go:743-795 | the cursor loop equals the recursive parser, with its errors and its slice panic |
| Avp.AvpsLengthBytes | l2tp/avp.go:1047-1053 | the sum equals the encoded size of attributes whose headers tell the truth |
| Avp.AvpsRoundTrip | l2tp/avp.go:743-795 | well-formed attributes followed by anything parse to themselves and the rest |
| Avp.UnknownOptionalIsTransparent | l2tp/avp.go:757-766 | an unrecognised optional attribute loses its header only, anywhere in a list |
| Avp.UnknownOptionalIgnoredExactly | l2tp/avp.go:757-766 | it is ignored, whatever follows, if and only if its payload is a chain of headers of unrecognised optional attributes |
| Avp.IgnoredLengthIsZero | l2tp/avp.go:757-766 | every payload of a length is ignored if and only if the length is zero |
| Avp.UnknownOptionalExample | l2tp/avp.go:757-766 | one optional attribute of an unknown vendor whose payload is returned as a Message Type |
| Avp.ParsedAvps | l2tp/avp.go:743-795 | what is parsed is well formed and prints back to the buffer unless something was skipped |
| Avp.DecodeEncoded | l2tp/avp.go:797-983 | decoding recovers every value that can be encoded |
| Avp.NewAvpExactly | l2tp/avp.go:864-885 | a new attribute decodes to its value, and is well formed if and only if its payload has at most 1017 octets |
| L2tpWire.V2HeaderOctets | l2tp/msg.go:442-459 | every octet of a version 2 header by its position |
| L2tpWire.V3HeaderOctets | l2tp/msg.go:520-537 | every octet of a version 3 header by its position |
| L2tpWire.AvpHeaderOctets | l2tp/avp.go:681-698 | M bit, H bit, ten bits of length, vendor and type, octet by octet |
| L2tpWire.AvpHeaderReads | l2tp/avp.go:743-755 | and read from the same places |
| L2tpWire.DecodesExactly | l2tp/avp.go:887-983 | an attribute decodes if and only if its payload has a length that its type allows |
| L2tpWire.DecodedValue | l2tp/avp.go:887-983 | the values by the octets of the payload, a result code of two octets included |
| L2tpWire.BuildsExactly | l2tp/avp.go:816-885 | an attribute can be built if and only if the type is 0 to 75 of vendor 0 and the value of its kind; which carry the M bit |
| L2tpWire.BuiltOctets | l2tp/avp.go:864-885 | every octet of a built attribute |
| Crash.AvpPanicExactly | l2tp/avp.go:768-790 | the parser panics if and only if a known attribute with a length below six follows items that parse |
| Crash.AvpsParseExactly | l2tp/avp.go:743-795 | the parser returns a list if and only if the octets are items, with that list among them, and less than a header |
| Crash.FirstExactly | l2tp/msg.go:288-339 | the first message of a datagram, header octets and attributes, as an equivalence |
| Crash.MessagesParseExactly | l2tp/msg.go:549-598 | octets parse to messages if and only if they hold them, each four octets behind the end of the one before |
| Crash.ParsePanicExactly | l2tp/msg.go:549-598 | a datagram panics the message parser if and only if such an attribute stands behind messages that parse |
| Crash.CrashesExactly | l2tp/msg.go:400-422 | any octets panic the receiver if and only if they do the parser, or parse as a whole with a Message Type that is asked for and not two octets |
| Crash.ShortExample | l2tp/avp.go:768-790 | a datagram with an attribute of length five, whatever follows it |
| Crash.TypeExample | l2tp/msg.go:400-422 | a datagram with a Message Type of three octets |
| Crash.DiscardedTypeExample | l2tp/msg.go:549-598 | the same in front of a message that does not parse, which is harmless |
| Msg.ParseMessageBuffer | l2tp/msg.go:549-598 | the reader loop equals the recursive parser, including the four octets skipped after each message |
| Msg.V2ControlMessage.constructor | l2tp/msg.go:263-274 | a message starts empty, with a length of twelve |
| Msg.V2ControlMessage.AppendAvp | l2tp/msg.go:432-435 | the attribute is last and the length grows by its size modulo 65536 |
| Msg.V2ControlMessage.SetTransportSeqNum | l2tp/msg.go:437-440 | only ns and nr change |
| Msg.V2ControlMessage.Encode | l2tp/msg.go:442-459 | the buffer writes give the header and the attributes in order |
| Msg.ParseAfterMessage | l2tp/msg.go:549-598 | a printed message comes back and the parse goes on four octets into what follows |
| Msg.RoundTripExactly | l2tp/msg.go:549-598 | a v2 or v3 message survives a buffer of its own if and only if it is well formed |
| Msg.ReprintExactly | l2tp/msg.go:288-339 | a received message prints back to its octets if and only if its attributes account for its length |
| Msg.ConcatenationParsesExactly | l2tp/msg.go:593-594 | concatenated messages parse back if and only if there is at most one |
| Msg.SecondIsLost | l2tp/msg.go:593-594 | of two acknowledgements in one buffer only the first is returned, without an error |
| Msg.SpacedMessagesParse | l2tp/msg.go:593-594 | with four octets between them any number parse back |
| MsgSpec.ValidateAvps | l2tp/msg.go:224-261 | accepts if and only if every required type is present, every attribute of the specification decodes and no other is mandatory |
| Validity.ValidExactly | l2tp/msg.go:62-209 | which messages from the wire are valid, for each of the ten by the numbers of its attributes, their lengths and M bits |
| MsgSpec.AcceptsAnyOrder | l2tp/msg.go:224-261 | acceptance does not depend on the order of the attributes |
| MsgSpec.CauseCodeIsFatal | l2tp/msg.go:163-171 | a disconnect notice acceptable without its cause codes is valid if and only if it has none |
| MsgSpec.BuiltCdnRejected | l2tp/msg.go:809-826 | every notice the program builds is valid, and with a cause code crosses the wire unharmed and is rejected |
| MsgSpec.CauseCodeExample | l2tp/msg.go:163-171 | one such notice |
| MsgSpec.BuildV2Msg | l2tp/msg.go:619-632 | the loop builds the message of its inputs, or fails where one cannot be encoded |
| MsgSpec.BuiltIsValid | l2tp/msg.go:635-826 | every builder's message passes validation |
| MsgSpec.BuildersExactly | l2tp/msg.go:635-826 | a message can be built if and only if the peer's identifiers fit 16 bits, and comes back from the wire if and only if its text fits |
| MsgSpec.FindAvp | l2tp/avp.go:1057-1066 | the first attribute of the type, or an error exactly when there is none |
| MsgSpec.FoundInBuilt | l2tp/avp.go:1057-1066 | looking an input's type up in a built message finds its value |
| BuiltMessages.BuiltSays | l2tp/msg.go:635-826 | a built message holds the request's own values, each under its attribute number, and is addressed to the request's peer |
| BuiltMessages.ReceivedSays | l2tp/msg.go:635-826 | and so does what the peer parses from its octets |
| BuiltMessages.IcrqOctets | l2tp/msg.go:736-763 | an incoming call request, octet by octet |
| MsgSpec.IdentifierFound | l2tp/l2tp_dynamic_session.go:300-314 | a valid reply always holds the identifier its callback looks for, first of its type and decodable |
| Fsm.FindRow | l2tp/fsm.go:20-35 | the nested loops find the first row for the state and event, or report that there is none |
| Fsm.LookupExactly | l2tp/fsm.go:20-35 | the search finds the first row that fits, and nothing if and only if none does |
| Session.LookupTable | l2tp/l2tp_dynamic_session.go:450-474 | for every state and event, the transition the table gives |
| Session.FireKeeps | l2tp/l2tp_dynamic_session.go:80-93 | every event, re-entrant ones included, keeps the user events a prefix of Up, Down and dead absorbing |
| Session.UpButClosedExactly | l2tp/l2tp_dynamic_session.go:300-365 | one event closes a session with its Up unanswered if and only if it is a reply to a waiting session, the data plane comes up, and the acknowledgement or the interface name fails |
| Session.MsgUpButClosedExactly | l2tp/l2tp_dynamic_session.go:227-267 | the same for one message, valid or not |
| Session.EventDoes | l2tp/l2tp_dynamic_session.go:281-430 | an event leaves a session open if and only if it is the next step of its call and succeeds; when Up and Down are reported |
| Session.MessageDoes | l2tp/l2tp_dynamic_session.go:227-267 | the same for a message, valid or not |
| Session.MessageCallback | l2tp/l2tp_dynamic_session.go:244-267 | the callback each kind of message leads to in each state |
| UpTheorems.UpWithoutDownExactly | l2tp/l2tp_dynamic_session.go:344-364 | over every run, a session has exited with Up unanswered if and only if it took such a reply at some step |
| UpTheorems.NoDownFollows | l2tp/l2tp_dynamic_session.go:405-430 | from then on its events never change, in any continuation |
| UpExample.UpWithoutDown | l2tp/l2tp_dynamic_session.go:344-364 | a run that ends with such a session |
| Dynamic.DynamicSession.FsmActClose | l2tp/l2tp_dynamic_session.go:405-430 | Down is reported only if Up is outstanding, and the session leaves both indexes |
| Dynamic.DynamicSession.FsmActOnIcrp | l2tp/l2tp_dynamic_session.go:300-365 | all outcomes of the reply, including the close event raised from inside |
| Dynamic.DynamicSession.FsmActSendIcrq | l2tp/l2tp_dynamic_session.go:281-298 | a request that cannot be built or sent closes the session |
| Dynamic.DynamicSession.FsmActSendCdn | l2tp/l2tp_dynamic_session.go:376-383 | the session closes whether or not the notice was sent |
| Dynamic.DynamicSession.HandleEvent | l2tp/l2tp_dynamic_session.go:80-93 | the table lookup and callbacks in place equal the session function that the invariants are about |
| Dynamic.DynamicSession.HandleV2Msg | l2tp/l2tp_dynamic_session.go:227-267 | an invalid message raises close and then its own event as well |
| Dynamic.DynamicSession.TakeMessage | l2tp/l2tp_dynamic_session.go:56-69 | one round of the session's loop is one step of the product machine |
| Dynamic.DynamicSession.TakeClose | l2tp/l2tp_dynamic_session.go:73-75 | so is its closing on request |
| Dynamic.DynamicSession.Close | l2tp/l2tp_dynamic_session.go:27-31 | the owner's request unlinks at once and closes later |
| Dynamic.DynamicSession.Kill | l2tp/l2tp_dynamic_session.go:33-37 | a running session closes and exits, an exited one is left alone |
| Dynamic.DynamicTunnel.LinkSession | l2tp/l2tp.go:774-779 | the session is in both indexes under its own name and identifier |
| Dynamic.DynamicTunnel.UnlinkSession | l2tp/l2tp.go:781-786 | the name and the identifier leave the indexes, whoever holds them |
| Dynamic.DynamicTunnel.AllSessions | l2tp/l2tp.go:806-813 | every session in the name index, each once |
| Dynamic.DynamicTunnel.CloseAllSessions | l2tp/l2tp.go:818-832 | every linked session is out of both indexes and killed, and no other is touched |
| Dynamic.DynamicTunnel.TellSessions | l2tp/l2tp_dynamic_tunnel.go:416-421 | every linked session is notified exactly once |
| Dynamic.DynamicTunnel.FsmActClose | l2tp/l2tp_dynamic_tunnel.go:509-550 | the whole teardown, at most once |
| Dynamic.DynamicTunnel.FsmActOnSccrp | l2tp/l2tp_dynamic_tunnel.go:370-431 | all outcomes of the reply, including the close event raised from inside |
| Dynamic.DynamicTunnel.FsmActStartSession | l2tp/l2tp_dynamic_tunnel.go:482-486 | the new session is linked and notified |
| Dynamic.DynamicTunnel.FsmActForwardSessionMsg | l2tp/l2tp_dynamic_tunnel.go:488-504 | the message reaches the session with that identifier and no other |
| Dynamic.DynamicTunnel.HandleEvent | l2tp/l2tp_dynamic_tunnel.go:181-195 | the objects after an event hold what the product function says |
| Dynamic.DynamicTunnel.HandleV2Msg | l2tp/l2tp_dynamic_tunnel.go:304-350 | an invalid message raises close and then its own event as well |
| Dynamic.DynamicTunnel.NewSession | l2tp/l2tp_dynamic_tunnel.go:40-88 | refused exactly on a clash or a closing tunnel; otherwise created and passed to the tunnel |
| Tunnel.LookupTable | l2tp/l2tp_dynamic_tunnel.go:574-614 | for every state and event, the transition the table gives |
| Tunnel.FireSccrp | l2tp/l2tp_dynamic_tunnel.go:370-431 | where the events raised by the reply's callback end |
| TunnelProofs.StepKeeps | l2tp/l2tp_dynamic_tunnel.go:136-179 | every step of the tunnel or a session keeps brackets, indexes and notifications consistent |
| TunnelProofs.RunKeeps | l2tp/l2tp_dynamic_tunnel.go:136-179 | and so does every interleaving |
| TunnelMessages.InvalidMessageKills | l2tp/l2tp_dynamic_tunnel.go:304-317 | an invalid message of any kind leaves a live tunnel dead, no Up reported, and every session in its name index exited |
| TunnelMessages.ValidMessageDoes | l2tp/l2tp_dynamic_tunnel.go:319-350 | what each kind of valid message does: up, forwarded to one session, ignored, or the end |
| TunnelMessages.MessageCallback | l2tp/l2tp_dynamic_tunnel.go:319-350 | the callback each kind of message leads to |
| TunnelMessages.UpExactly | l2tp/l2tp_dynamic_tunnel.go:370-431 | over all steps of every run, a tunnel reports up if and only if it takes a valid reply it waits for and all that follows succeeds |
| TunnelMessages.ClosesExactly | l2tp/l2tp_dynamic_tunnel.go:149-178 | and starts to close in exactly these steps |
| TunnelMessages.SessionUpExactly | l2tp/l2tp_dynamic_session.go:300-365 | a session reports up if and only if it takes the valid reply it waits for and the data plane comes up |
| TunnelMessages.SessionEndsExactly | l2tp/l2tp_dynamic_session.go:56-78 | and ends if and only if its owner asks, its call stumbles, or its tunnel ends with it in the name index |
| TunnelTheorems.EventBrackets | l2tp/l2tp_dynamic_tunnel.go:509-550 | user events of the tunnel and each session are a prefix of Up, Down, and a session's Up follows the tunnel's |
| TunnelTheorems.TeardownOnce | l2tp/l2tp_dynamic_tunnel.go:509-550 | the transport is closed and the data plane taken down at most once, exactly once on closing, however often closing is asked for; a dead tunnel has no session by name |
| TunnelTheorems.ClosedForEver | l2tp/l2tp_dynamic_tunnel.go:149-178 | in every continuation after closing, further closes included, the tunnel reports nothing, closes nothing again and stays dead if dead |
| TunnelTheorems.DeadIsAbsorbing | l2tp/l2tp_dynamic_tunnel.go:574-614 | no continuation of any run revives a dead tunnel or session or makes it report again |
| TunnelTheorems.ToldAtMostOnce | l2tp/l2tp_dynamic_tunnel.go:477-486 | a session is told that the tunnel is up at most once, not before it is, and exactly once if linked while it is |
| TunnelTheorems.ReuseIsTheHazard | l2tp/l2tp.go:781-786 | creating a session leaves all sessions findable after the next unlink if and only if it reuses no live name or identifier |
| TunnelTheorems.IndexesAgree | l2tp/l2tp.go:774-832 | without such reuse the indexes hold the same sessions, every running one is in both, and a closed tunnel has none |
| TunnelTheorems.NoUndefinedEvent | l2tp/l2tp_dynamic_session.go:450-474 | and no running session is handed an event its state has no row for |
| OrphanTheorems.NeverTold | l2tp/l2tp_dynamic_tunnel.go:416-421 | a session outside the name index is not told that the tunnel is up in any continuation |
| OrphanTheorems.OrphanSurvives | l2tp/l2tp.go:818-832 | and runs on unchanged in every continuation, closings included, until its owner asks or a message for it comes |
| OrphanTheorems.LateNewSession | l2tp/l2tp_dynamic_tunnel.go:149-178 | a closing tunnel that took a new session would link it if and only if it is not dead and tell it if and only if its state is established |
| OrphanTheorems.ToldByClosedTunnel | l2tp/l2tp_dynamic_tunnel.go:386-400 | that is so after a reply whose acknowledgement fails, although the tunnel never came up |
| ReuseExample.ReuseOrphansSession | l2tp/l2tp_dynamic_session.go:405-430 | a run in which reuse orphans a session, and in every continuation it is never told and survives |
| ReuseExample.OrphanMeetsUndefinedEvent | l2tp/l2tp_dynamic_session.go:450-474 | a message for it is an event its state has no row for |
| ReuseExample.OrphanOutlivesTunnel | l2tp/l2tp_dynamic_tunnel.go:509-550 | the tunnel closes and leaves it running and in the identifier index |
| Kpppoed.FreeId | cmd/kpppoed/kpppoed.go:247-258 | an identifier granted is in 1..65534 and not in use |
| Kpppoed.FreeIdExactly | cmd/kpppoed/kpppoed.go:247-258 | it is the first free draw, and none is granted if and only if every draw was in use |
| Kpppoed.PadsIsValid | cmd/kpppoed/kpppoed.go:318-344 | the PADS passes validation if and only if identifier 0 comes with a reason |
| Kpppoed.StepKeeps | cmd/kpppoed/kpppoed.go:514-574 | every case of the loop and every step of shutdown keeps the table and the sessions consistent |
| Kpppoed.RunKeeps | cmd/kpppoed/kpppoed.go:514-574 | and so does every run |
| Kpppoed.GrantedIdsAreUnique | cmd/kpppoed/kpppoed.go:287-373 | every granted identifier is in 1..65534 and belongs to one session until its daemon exits |
| Kpppoed.TerminatedAtMostOnce | cmd/kpppoed/kpppoed.go:421-472 | each session is terminated exactly once if closed and never otherwise, with at most one PADT; a granted session whose daemon exited is closed |
| Kpppoed.PadtEndsOnlyItsSession | cmd/kpppoed/kpppoed.go:375-385 | the peer's PADT closes the session it names, touches no other and is not answered |
| Kpppoed.ClosesExactly | cmd/kpppoed/kpppoed.go:421-472 | for every step and session: whether it is closed, whether its peer is sent a PADT, and that nothing else changes |
| Kpppoed.ToldExactly | cmd/kpppoed/kpppoed.go:421-472 | over a run a peer is told if and only if some step closed its session locally and could write |
| Kpppoed.ClosedConnIsSilent | cmd/kpppoed/kpppoed.go:514-525 | once shutdown has closed the connection nobody is told and nothing is granted, in any continuation |
| Kpppoed.ShutdownTellsNobody | cmd/kpppoed/kpppoed.go:514-525 | a run in which shutdown ends a granted session and its peer is not told |
| Kpppoed.RequestDoes | cmd/kpppoed/kpppoed.go:287-373 | what a request leaves behind: the session, its peer and its identifier |
| Kpppoed.PadtIs | cmd/kpppoed/kpppoed.go:403-419 | the addresses, identifier and tags of a PADT |
| Kpppoed.LosesExactly | cmd/kpppoed/kpppoed.go:346-358 | a step loses a session if and only if it refuses a request while a refused one is tracked |
| Kpppoed.TrackedExactly | cmd/kpppoed/kpppoed.go:346-358 | over a run every live session stays in the table if and only if that never happens |
| Kpppoed.EveryExitCloses | cmd/kpppoed/kpppoed.go:533-537 | in such a run every daemon that exits leaves its session terminated |
| Kpppoed.LostIsNeverTerminated | cmd/kpppoed/kpppoed.go:421-431 | a lost session is never terminated, whatever follows |
| Kpppoed.LostExitHitsAnother | cmd/kpppoed/kpppoed.go:533-537 | the exit of a lost session's daemon closes and loses another session |
| Kpppoed.LostIsReachable | cmd/kpppoed/kpppoed.go:287-358 | two requests for an unknown service lose a session |
| KpppoedApp.AppendEchoedTags | cmd/kpppoed/kpppoed.go:227-245 | the first host-uniq and the first relay tag are echoed exactly when present, and nothing else |
| KpppoedApp.Application.MapServiceName | cmd/kpppoed/kpppoed.go:203-225 | the name of the first service tag, accepted if and only if it is empty or on offer |
| KpppoedApp.Application.GenSessionID | cmd/kpppoed/kpppoed.go:247-258 | the loop returns the first free of a hundred draws, or 0 |
| KpppoedApp.Application.Answer | cmd/kpppoed/kpppoed.go:287-344 | a valid PADS to the requester under the identifier granted or 0, with the requested name first, the first host-uniq and relay tags echoed and an error exactly on refusal or a failed spawn, sent whenever the open connection takes it |
| KpppoedApp.Application.HandlePADR | cmd/kpppoed/kpppoed.go:287-373 | the objects after a request hold what the step says, refusals, failed spawns and untracked daemons included |
| KpppoedApp.Application.SendPADT | cmd/kpppoed/kpppoed.go:403-419 | a PADT to the session's peer, sent exactly for a nonzero identifier on an open and working connection |
| KpppoedApp.Application.ClosePPPoESession | cmd/kpppoed/kpppoed.go:421-472 | the test-and-clear closes, notifies and terminates at most once |
| KpppoedApp.Application.HandlePADT | cmd/kpppoed/kpppoed.go:375-385 | closes without answering, or reports an unknown identifier |
| KpppoedApp.Application.OnL2TPDown | cmd/kpppoed/kpppoed.go:564-567 | closes the session that now holds the identifier |
| KpppoedApp.Application.OnL2TPComplete | cmd/kpppoed/kpppoed.go:533-537 | closes and deletes by identifier, whichever session that is |
| KpppoedApp.Application.CloseAll | cmd/kpppoed/kpppoed.go:521-525 | shutdown closes the connection, and its loop is a run of its steps after which every tracked session is closed |

## Left out

- HELLO messages. The default timeout of zero disables them. A HELLO is sent without entering the acknowledgement queue (l2tp/transport.go:628-651) and takes a sequence number; the consecutive numbering proved here assumes it off.
- Progress of the receive side: shown false instead (see above).
- Transmit windows of 0x8000 and more, and packets half the sequence space old or older: the network theorems assume a window below 0x8000 and no such stale packet (`Network.ConfigsOk`, `Network.Fresh`). `SeqNum.WindowBoundIsExact` and `SeqNum.SeqCompareAgrees` show both bounds are exact for the comparison, and `Staleness.NetworkBoundSuffices` reduces the assumption to the network.
- Payloads in the transport are octet strings. A frame's parse errors, and the check for mandatory attributes on the error path of the receiver (l2tp/transport.go:280, whose arguments are the wrong way round), are not part of the endpoint model.
- Real time: timers fire at any moment. Only the delays that retry timers are armed with are computed.
- Retransmissions and explicit acknowledgements are one step each, reading nr, writing and stopping the timer; only a first transmission is taken apart.
- Channels, blocking and goroutine deadlock: one loop iteration is one step, and sessions have unbounded inboxes, which allow more runs than the unbuffered channels of the program. Sends on a closed transport are not modelled, nor is a StopCCN that a second close would try to send on one.
- Dynamic.DynamicTunnel.NewSession: the check for clashes and the linking are one step, and the identifier is given rather than drawn. A caller whom a closing tunnel overtakes in between is not a run of the product; `OrphanTheorems.LateNewSession` and `OrphanTheorems.ToldByClosedTunnel` say what the tunnel would then do.
- StopCCN's waiting period before closing, CDN and StopCCN result texts, and messages with a wrong tunnel or session identifier or protocol version, which are dropped.
- The tunnel index of the context, static and quiescent tunnels, sockets, netlink, configuration files, `String` methods and logging.
- Hidden attributes, vendor attributes and authentication.
- Avp.ParseAVPBuffer: bit masks are written as division and remainder; the attribute table is a function of the type number.
- Dynamic.DynamicSession.FsmActClose: does not count how often the session's own data plane is asked to go down, which the code may do more than once.
- Dynamic.DynamicSession.Kill: the session's goroutine closes in the same step, although in the program it may first finish the event it is handling.
- KpppoedApp.Application.HandlePADR: after a failed spawn the program stops when it waits for a daemon that does not exist, and the model takes no further step.
- KpppoedApp.Application.CloseAll: runs with nothing beside it; the interleavings with the main loop are those of `Kpppoed.ShutLook` and `Kpppoed.ShutClose`.
- PADI and PADO handling, L2TP identifiers recorded on session up, and the daemon's log scraping.
