# Euthenia: a verified model

Euthenia is an OpenFlow 1.3 proxy and load tester. This project models its five working parts
in Dafny and proves what they are for:

- **the proxy** (`Framing`, `ProxyModel`, `ProxyTheorems`, `ProxyResults`, `ProxyProgress`,
  `ProxyObjects`): two
  sessions that frame byte streams over one fixed buffer, dispatchers that route by message type,
  one io thread, and a monitor thread that counts PACKET_INs and injects flow mods. `ProxyModel` is
  a state machine whose steps are the atomic actions of the threads and the network;
  `ProxyObjects` has the objects of the source, updated in place and wired as `main` wires them,
  each method proved to take that machine from the old view to the new one. The results hold in
  every state of every run;
- **the flow mod** (`FlowModCodec`, `Migrator`): the encoder that fills a raw buffer field by field
  on a little- or big-endian host, a byte-level decoder after the OpenFlow Switch Specification
  1.3.4 (sections 7.1, 7.2.3, 7.2.4, 7.2.5, 7.3.4.1), and both round trips;
- **burst pacing** (`TimeArith`, `BurstModel`, `WrittenPacing`, `RateOne`, `WrittenRate`, `FlowGen`): the time arithmetic with its 32-bit
  intermediates, runs of the burst loop for any clock that never goes back, and the loop itself;
- **fresh flows** (`PacketMaker`): the two wrapping counters behind the MAC addresses;
- **the blocking queue** (`OfpBuffer`) and **the tester's accounting** (`Tester`): state machines
  for any number of calls and threads, and the objects.

`Bytes` holds machine integers and their network order; `Oxm` the OXM header macros.
`dafny verify dfyconfig.toml` checks everything.

## Where the code does not do what it is for

The code is kept as it is; each case has a concrete failing input and the exact condition.

- `timespec_add` adds a second's nanoseconds on a carry where it has to take them off
  (FlowGen.cpp:113). `WrittenAddIff` and `WrittenDeadlineIff`: right exactly when nothing carries, so
  exactly for bursts inside the second they start in. The burst loop is modelled with the line as
  written and with it repaired, and terminates with both (`Burst`, `AheadKept`). Repaired, it keeps
  the rate and the size bound always (`RateSafe`, `BurstSize`). As written, every run keeps the rate at
  every wait exactly when the first addition does not carry, or the burst has no second turn
  (`WrittenRateSafeIff`; `EarlyTurns` is a failing run whenever it does carry), and every burst stays
  within the size bound exactly for rates of 2 and more (`WrittenSizeIff`; `RateOneOverruns` is the
  failing run). Most bursts fall far below the asked rate instead (`WrittenSlow`): the tester's first
  group takes at most 130 turns for the 500 it asks for.
- `timeval_subtract` overflows a 32-bit `int` when it moves three seconds or more: `ExactIff`. The
  comment at FlowGen.cpp:98-99 calls the nanoseconds positive; they may also be 0, or a full
  10^9 once the start time has drifted, and then the stop test misses its limit by one
  nanosecond: `StopsIff`.
- A burst leaves the generator stopped (FlowGen.cpp:26), so of the tester's twenty groups only the
  first sends: `PacketInTester.DoTest`.
- The pause is rounded down, so a burst can exceed the asked rate. As written it does so exactly at
  one second, for rates of 2 and more whose lost nanoseconds make up more than one pause
  (`WrittenRespectsIff`; `WrittenExceeds` is the failing run), and at a rate of 1 for the durations
  of 1, 11, 13 and at least 15 seconds (`RateOneExceeds`). With the carry repaired,
  `RateRespectedIff` says for which rates and durations some run does, and `BurstSizeTight` gives
  the longest run.
- `getFront` never sets the empty flag back (OFPBuffer.h:20-30): `WrittenBreaks`, `WrittenFailsIff`. The
  order of the messages and the wakeups do not depend on it; that a consumer finds a message does
  (`FrontIsSafe`).
- A failed header read is handled like a good one (Session.cpp:50-79): `FailedHeaderInvents`,
  `FailedHeaderReplays`. A header length below 8 turns into a read of almost 2^64 bytes:
  `BodyFitsIff`; the model takes no step there, and the results hold up to that point.
- The monitor's 32-bit counter can wrap inside a window: `CheckFiresIff`, `WrapHidesBurst`.
- The tester charges PACKET_INs to records other than that of the running group, 2048 places before
  it (`ChargedElsewhere`). In the twenty groups of a test they stay apart from what is sent; only
  repeated tests could bring the index to the first appended record, after 2048 groups
  (`RecordsApartIff`).

## Model

| member | source | states |
|---|---|---|
| Framing.FramesOfConcat | Session.cpp:37-96 | cutting a stream that starts with well-formed messages yields those messages first, whatever follows |
| Framing.ConcatOfFrames | Session.cpp:37-96 | the converse: any stream is the concatenation of its cut, every piece is well formed, the remainder holds no further message |
| Bytes.BeDigits | PacketInMigrator.h:36-37 | the network form of 16, 32 and 64 bits, digit by digit to the base 256 |
| ProxyTheorems.ReadHeaderConserves | Session.cpp:50-79 | a completed header read keeps every byte: a bodiless message is dispatched whole, otherwise the header stays as the partial frame |
| ProxyTheorems.ReadBodyConserves | Session.cpp:81-96 | a completed body read dispatches exactly the header and body, one well-formed message |
| ProxyTheorems.FailBodyConserves | Session.cpp:81-96 | a failed body read loses no byte already received |
| ProxyTheorems.BodyFitsIff | Session.cpp:60-70 | a body read stays inside the 102400-byte buffer if and only if the length field is at least 8 |
| ProxyTheorems.FailedHeaderInvents | Session.cpp:50-79 | a failed header read accounts for 8 - k bytes that never arrived, and dispatches if and only if the stale length field is 8 |
| ProxyTheorems.FailedHeaderReplays | Session.cpp:50-79 | a bodiless message followed by n failed header reads is dispatched n more times, for every n |
| ProxyTheorems.FailedReadsIff | Session.cpp:50-79 | in general n failed header reads dispatch the buffer's message n times if its length field is 8, and nothing otherwise |
| ProxyTheorems.StepKeepsInv | eproxy.cpp:53-131 | every step of the wired proxy keeps the byte accounting of both directions and the monitor's charging |
| ProxyTheorems.RunKeepsInv | eproxy.cpp:53-131 | the same over whole runs |
| ProxyTheorems.FromSwitchDelivered | PacketInMonitor.h:28-33 | both paths from the switch, counted PACKET_IN and default, append exactly the dispatched message to the controller's traffic and count exactly the PACKET_INs |
| ProxyTheorems.FromControllerDelivered | eproxy.cpp:72-76 | a controller message is appended to the switch's traffic, unchanged |
| ProxyTheorems.OnlyPacketInsCount | eproxy.cpp:96-100 | exactly the switch's messages whose type byte is 10 are counted, and none of the controller's |
| ProxyResults.Transparency | eproxy.cpp:65-104 | in every reachable state the bytes from the switch are those sent to the controller, then the posted writes, the partial frame and the unread input; what was sent is a whole-message prefix |
| ProxyResults.Drained | eproxy.cpp:65-104 | once no handler can run the controller has received exactly the messages the switch's stream cuts into |
| ProxyResults.DeliversExactly | Session.cpp:37-122 | in a state where no handler can run, any sequence of well-formed messages has arrived as that sequence, however the bytes were split and delayed |
| ProxyResults.ChunkingIrrelevant | Session.cpp:37-96 | two runs on the same bytes deliver the same messages, whatever the chunking and scheduling |
| ProxyResults.SwitchBound | PacketInMigrator.h:14-19 | the switch receives whole messages, an order-preserving interleaving of the controller's first messages with flow mods; copies sent and posted number exactly the firings |
| ProxyProgress.DrainedDown | PacketInMigrator.h:14-19 | once no handler can run the switch has received exactly the messages the controller's stream cuts into, interleaved with exactly one flow mod per firing |
| ProxyProgress.IoRunsOut | Session.cpp:37-122 | once no bytes arrive the io thread runs at most as many handlers as its work, plus one for each firing, under every scheduling |
| ProxyProgress.DeliveryIsInevitable | Session.cpp:37-122 | from every reachable state, whichever handlers the io thread picks, within its work it comes to rest with every message of both streams delivered |
| ProxyProgress.SentMessagesArrive | Session.cpp:37-122 | so any well-formed messages the two sides have sent must arrive, in both directions, however their bytes were split |
| ProxyResults.TriggerSound | PacketInMonitor.h:67-80 | firings times threshold never exceed the PACKET_INs in the switch's bytes, under every interleaving |
| ProxyResults.CounterIsWindow | PacketInMonitor.h:35-39 | PACKET_INs seen are those discarded at resets plus the current window, and the counter is the window modulo 2^32 |
| ProxyResults.CheckFiresIff | PacketInMonitor.h:74-78 | a check fires if and only if the window modulo 2^32 reaches the threshold |
| ProxyResults.WrapHidesBurst | PacketInMonitor.h:67-80 | a reachable window of 2^32 PACKET_INs whose check does not fire |
| ProxyResults.MonitorRuns | PacketInMonitor.h:67-80 | in every reachable state a running monitor has a step to take, from the head of its loop into a new window with a cleared counter, and otherwise towards the head |
| ProxyResults.StoppedMonitor | PacketInMonitor.h:61-80 | over any run a stopped monitor stays stopped, fires at most once more, starts no window, and ends after at most three steps of its own |
| ProxyObjects.Session.Receive | Session.cpp:40-42 | bytes are copied from the socket into the buffer in place, at the offset asked, and only there |
| ProxyObjects.Session.HandleReadHeader | Session.cpp:50-79 | the header handler dispatches a message of length 8 and asks again, or asks for the rest |
| ProxyObjects.Session.HandleRead | Session.cpp:81-96 | the body handler dispatches and asks for a header, or on error dispatches nothing and asks for nothing |
| ProxyObjects.Session.Write | Session.cpp:98-102 | a write is posted behind everything posted before |
| ProxyObjects.MessageDispatcher.OnMessage | Dispatcher.h:32-61 | the message of the header's length is copied and run by the callback for its type, by the default one, or by none |
| ProxyObjects.PktInMonitor.OnMessage | PacketInMonitor.h:28-33 | a PACKET_IN is counted once and passed on unchanged |
| ProxyObjects.Eproxy.MonitorTop | PacketInMonitor.h:69-71 | the head of the monitor's loop takes the objects by the machine's reset step while running, and by its exit step when stopped |
| ProxyObjects.Eproxy.MonitorCompare | PacketInMonitor.h:74-78 | the comparison takes the objects by the machine's check step, which fires as CheckFiresIff says |
| ProxyObjects.PathMigrator.SwitchPath | PacketInMigrator.h:14-19 | posts exactly one flow mod to the switch's session |
| ProxyObjects.Eproxy.constructor | eproxy.cpp:53-107 | builds an initial state wired as the source wires it |
| ProxyObjects.Eproxy.HeaderHandler | Session.cpp:50-79 | the whole object graph moves as the machine's header-read step, with the follow step of a counted PACKET_IN |
| ProxyObjects.Eproxy.BodyHandler | Session.cpp:81-96 | the same for the body-read step |
| ProxyObjects.Eproxy.RunPostedWrite | Session.cpp:104-122 | posted writes are emitted whole, first in first out, to the session they were posted for |
| ProxyObjects.Eproxy.MonitorTrigger | PacketInMonitor.h:74-78 | the trigger step of the machine, with the encoded flow mod |
| ProxyObjects.Eproxy.HandlerReaches | Session.cpp:50-96 | what a read handler does to a reachable state is reachable |
| ProxyObjects.Eproxy.ObjectsAreTransparent | eproxy.cpp:65-104 | transparency and trigger soundness, of the objects |
| FlowModCodec.RoundTrip | openflow.h:1157-1195 | decoding inverts encoding for every flow mod that fits its 16-bit lengths, and the encoding is a well-formed message |
| FlowModCodec.Sound | openflow.h:1157-1195 | whatever decodes is the encoding of what it decodes to, so no two buffers decode alike |
| FlowModCodec.MatchRoundTrip | openflow.h:402-415 | a match of any OXM bytes, padded to 8, is split off exactly |
| FlowModCodec.InstructionsRoundTrip | openflow.h:1097-1106 | an instruction list, with nested action lists, decodes to itself |
| FlowModCodec.ActionsRoundTrip | openflow.h:973-980 | an action list decodes to itself |
| FlowModCodec.FieldsOnWire | openflow.h:1157-1195 | each fixed field of a flow mod at its offset, version 4 and type 14, the length that of the whole |
| FlowModCodec.MatchOnWire | openflow.h:402-415 | type 1, the length without the padding, the OXM bytes, zeros up to a multiple of 8 |
| FlowModCodec.InstructionsOnWire | openflow.h:1097-1106 | types 3 and 4, the length of the whole instruction, four zeros, the actions |
| FlowModCodec.GotoTableOnWire | openflow.h:1078-1085 | type 1, length 8, the table, three zeros |
| FlowModCodec.ActionsOnWire | openflow.h:973-980 | output and group actions byte by byte |
| Migrator.Htobe | PacketInMigrator.h:37 | a converted 64-bit field lies in network order on either host |
| Migrator.Unconverted16 | PacketInMigrator.h:41-74 | a 16-bit field written without conversion reads the same on both hosts if and only if it is its own byte swap |
| Migrator.Unconverted32 | PacketInMigrator.h:44-46 | the same for 32-bit fields |
| Migrator.SwitchIsEncoding | PacketInMigrator.h:29-88 | the nested lengths tile the 80 bytes: the message is the standard's encoding of the intended flow mod |
| Migrator.SwitchRoundTrip | PacketInMigrator.h:29-88 | for every port the decoder returns the intended flow mod, and the message is one whole frame |
| Migrator.SwitchOnTheWire | PacketInMigrator.h:29-88 | for every port the 80 bytes of the message, each as a number |
| Migrator.PktMigrator.PrepareSwitch | PacketInMigrator.h:29-88 | filling the buffer in place gives those 80 bytes for every port, whatever it held before and on either host |
| TimeArith.TimevalSubtract | FlowGen.cpp:82-105 | the in-place subtraction computes the specified result, rewritten subtrahend and flag |
| TimeArith.ExactIff | FlowGen.cpp:82-105 | for all parts, total, subtrahend's total and range are right if and only if the nanosecond parts differ by more than -2 and less than 3 seconds |
| TimeArith.ResultRange | FlowGen.cpp:85-101 | which pair of that total the result is: nanoseconds in (0, 10^9] after a borrow, in [0, 10^9) after a repayment, and the subtrahend unchanged otherwise |
| TimeArith.NormalSubtract | FlowGen.cpp:82-105 | for normal inputs the result is exact and normal and the flag says exactly whether x precedes y |
| TimeArith.FlagIff | FlowGen.cpp:103-104 | the flag in general, with the one zero difference it calls negative |
| TimeArith.DriftTwoForms | FlowGen.cpp:16-28 | after any number of subtractions the start time has its value and one of two pairs |
| TimeArith.StopsIff | FlowGen.cpp:22-28 | the stop test is elapsed time at least the limit, except exactly at the limit with a drifted start time |
| TimeArith.TimespecAdd | FlowGen.cpp:107-120 | the addition computes the specified sum, for the written and the repaired carry |
| TimeArith.WrittenAddIff | FlowGen.cpp:107-120 | as written the sum is exact if and only if nothing carries; otherwise it is two seconds too late until 32 bits wrap |
| TimeArith.DeadlineIsMultiple | FlowGen.cpp:17-18 | after k additions the repaired deadline is normal and exactly k pauses past the start |
| TimeArith.WrittenDeadlineIff | FlowGen.cpp:107-120 | the written deadlines up to the k-th are the intended ones if and only if all stay within the starting second |
| BurstModel.RateSafe | FlowGen.cpp:19-73 | with the carry repaired, turn n, from the second on, never begins before start plus n pauses, for every clock; WrittenPacing.WrittenRateSafeIff is its counterpart as written |
| BurstModel.BurstSize | FlowGen.cpp:19-73 | with the carry repaired, a burst takes at most max(1, floor(duration / pause)) turns; WrittenPacing.WrittenSizeIff is its counterpart as written |
| BurstModel.BurstSizeTight | FlowGen.cpp:19-73 | for every pause and duration a run attains that bound |
| BurstModel.RateRespectedIff | FlowGen.cpp:10-73 | with the carry repaired, every run takes at most the asked number of turns if and only if the lost remainders make up less than one pause; WrittenRate.WrittenRespectsIff is its counterpart as written |
| WrittenPacing.WrittenRunSame | FlowGen.cpp:10-75 | within the starting second the written loop takes exactly the intended runs |
| WrittenPacing.WrittenRateSafeIff | FlowGen.cpp:19-73 | as written, every run of any length keeps the rate at every wait if and only if the first addition does not carry, or there is no time for a second turn |
| WrittenPacing.DeadlineLate | FlowGen.cpp:60 | as written, at rates of 3 and more, every deadline is late by at least twelve times, or once, the seconds its nanoseconds have lost to wraps |
| WrittenPacing.AllWait | FlowGen.cpp:19-73 | as written, every turn but the first three waits for its deadline, less what the rejected sleeps after three carries can miss |
| WrittenPacing.KeptAlong | FlowGen.cpp:19-73 | as written, at a rate of 2, the deadline's nanoseconds bound how late the deadline and the turn are, from turn to turn |
| WrittenPacing.WrittenBurstSize | FlowGen.cpp:19-73 | as written, a burst of rate 2 or more takes no more turns than an intended one, for every start and clock; WrittenRate.WrittenSlow is much sharper |
| WrittenPacing.WrittenSizeIff | FlowGen.cpp:19-73 | as written, all bursts stay within that size if and only if the rate is at least 2 |
| WrittenPacing.RateOneOverruns | FlowGen.cpp:60-72 | a run as written at rate 1 whose first sleep request is invalid and which takes two turns in a burst of one |
| WrittenPacing.EarlyTurns | FlowGen.cpp:19-73 | whenever the first addition carries and there is time for a second turn, a run of the written loop that begins it too early |
| WrittenRate.WrittenSlow | FlowGen.cpp:19-73 | as written, a burst of more than three turns takes 13 times its pauses in its duration plus 12 seconds, for pauses up to 50 ms; twice in its duration plus one for all rates from 3 |
| WrittenRate.WrittenRespectsIff | FlowGen.cpp:10-73 | as written, for every rate and duration: no run exceeds the asked number of turns if and only if the duration is not one second or the lost nanoseconds make up at most one pause; at rate 1, if and only if it is under 15 seconds and not 1, 11 or 13 |
| WrittenRate.AlwaysRespectsIff | FlowGen.cpp:10-73 | as written, a rate is respected for all durations if and only if it is at least 2 and its lost nanoseconds make up at most one pause |
| WrittenRate.WrittenExceeds | FlowGen.cpp:10-73 | the one-second run that takes one turn more than asked |
| WrittenRate.WrittenMostSize | FlowGen.cpp:19-73 | as written, a bound on the turns of every burst at every rate |
| RateOne.CycleOf | FlowGen.cpp:60 | as written at rate 1, every deadline's place in the cycles, its nanoseconds and its exact lateness |
| RateOne.RateOneSize | FlowGen.cpp:19-73 | as written at rate 1, at most two turns, or 20 in 17 seconds |
| RateOne.RateOneFits | FlowGen.cpp:19-73 | as written at rate 1, no more turns than seconds for durations under 15 other than 1, 11 and 13 |
| RateOne.RateOneExceeds | FlowGen.cpp:19-73 | as written at rate 1, for every other duration a run of more turns than seconds |
| FlowGen.Generator.SendTurn | FlowGen.cpp:31-57 | a turn makes `fector` consecutive packets, hands each over once and in order to the callback or the device and to nobody without one, counts each, and counts the device's refusals modulo 2^32 |
| FlowGen.Generator.Pace | FlowGen.cpp:60-72 | the deadline moves on by one pause; the loop reads the clock and asks for exactly one sleep, the time left, unless the deadline is past, and then for none |
| FlowGen.Generator.Burst | FlowGen.cpp:10-75 | with either carry line the loop terminates; its turns are a run of the model ended by a successful stop test, within `MaxTurns` (repaired, or as written from rate 2 on) and `WrittenMost` (as written); what it asks of the world is the journal of its turns and nothing else; |turns| * `fector` packets are handed over in order, accepted plus refused; in an exact world its turns are punctual; a stopped generator sends nothing |
| BurstModel.PunctualNext | FlowGen.cpp:60-72 | if sleeps last exactly as asked and only sending and sleeping take time, a late turn is followed at once and any other by a turn on its deadline |
| BurstModel.ExactTurns | FlowGen.cpp:19-73 | then, with sending shorter than a pause, a repaired burst takes exactly `ExactCount` turns: floor(duration / pause), or one less when the pauses fill the duration just and no reading has made the start time borrow |
| BurstModel.SlowNeverSleeps | FlowGen.cpp:60-72 | with sending of two pauses or more it never sleeps, and each turn begins when the one before has sent |
| FlowGen.AheadKept | FlowGen.cpp:60-72 | with either carry line and any clock, the deadline's seconds stay at most three ahead of the clock, though as written some sleeps are rejected |
| FlowGen.RemainingDrops | FlowGen.cpp:19-60 | with either carry line a turn inside the burst's time lowers a bounded measure, although as written a deadline can fall back when its 32 bits wrap |
| FlowGen.BurstIsFreshIff | FlowGen.cpp:31-57 | the frames of a burst, from any point of the counters' cycle, differ pairwise in both addresses if and only if there are at most 2^24 of them |
| PacketMaker.SameAddressIff | FlowGen.cpp:127-140 | two packets share their source or destination address if and only if they are a whole number of 2^24 packets apart |
| PacketMaker.FreshWindow | FlowGen.cpp:127-140 | any 2^24 consecutive packets have pairwise distinct addresses, through both counters' wraps |
| PacketMaker.ExactPeriod | FlowGen.cpp:127-140 | packets n and n + 2^24 carry the same addresses |
| PacketMaker.CountersSum | FlowGen.cpp:127-136 | source and destination counters sum to -2 modulo 2^32 |
| PacketMaker.HeaderOnTheWire | FlowGen.cpp:127-146 | the 14 bytes of the n-th Ethernet header, each as a number |
| PacketMaker.Generator.MakePkt | FlowGen.cpp:123-147 | each call returns a fresh 1454-byte frame with the next addresses |
| OfpBuffer.LinearizableFifo | OFPBuffer.h:10-30 | as written and repaired, in every reachable state the messages returned by gets, then the one being returned, then the queue, are those pushed, in lock order; each message was handed in as often as it was pushed or is on its way; with the lock free the repaired flag says whether the queue is empty, the written one whether nothing was ever pushed |
| OfpBuffer.FrontIsSafe | OFPBuffer.h:23-28 | repaired, a consumer past the wait loop finds a message |
| OfpBuffer.NoLostWakeup | OFPBuffer.h:10-30 | as written and repaired, while someone waits, queued messages are at most the notifications still to come plus the consumers on their way, in every lock state; with the lock free and anything queued some thread has yet to notify or has been woken |
| OfpBuffer.WrittenFailsIff | OFPBuffer.h:20-30 | the written version takes from an empty queue if and only if something was pushed and all of it taken |
| OfpBuffer.WrittenBreaks | OFPBuffer.h:20-30 | one push and two gets reach that state |
| OfpBuffer.Buffer.PushBack | OFPBuffer.h:13-15 | the pushing critical section appends and clears the flag |
| OfpBuffer.Buffer.GetFront | OFPBuffer.h:20-30 | waits while the flag is set and other threads use the queue, then takes the next message in push order; as written it can ask an empty queue for its front |
| Tester.GroupAccounting | PacketInTester.cpp:36-59 | group counts sum to the PACKET_INs handled, the index stays inside the data, stamps are ordered, under every interleaving |
| Tester.RecordsTell | PacketInTester.cpp:36-48 | under every interleaving each record tells how many PACKET_INs were charged to its group, modulo 2^32, and the seconds of the first and the last of them |
| Tester.ChargedElsewhere | PacketInTester.cpp:36-88 | for any number of groups, the record being charged is never the running group's, which is appended 2048 places after it |
| Tester.RecordsApartIff | PacketInTester.cpp:73-88 | no record holds both packets sent and PACKET_INs, in every reachable state at index k, if and only if k is below 2048; the other half concerns repeated tests |
| Tester.PacketInTester.OnMessage | PacketInTester.cpp:36-48 | a PACKET_IN is charged and stamped in the current group only |
| Tester.PacketInTester.GroupTest | PacketInTester.cpp:50-59 | a group's record holds the number of packets its burst has made, modulo 2^32, their whole number a second, and the duration; the count stays within the burst's bounds and the index moves on |
| Tester.PacketInTester.DoTest | PacketInTester.cpp:73-88 | twenty finished records of five seconds are appended; the first holds the packets of a burst at 100 a second, at most 500 packets a factor, as written at most 130; the others have sent nothing |
| Oxm.PackingIff | openflow.h:418-428 | the extractors recover all four parts if and only if each fits its width |
| Oxm.HeaderIsNumber | openflow.h:418-428 | class, field, mask bit and length as one number, 16, 7, 1 and 8 bits from the top |
| Oxm.WideHeaderIsNumber | openflow.h:422-423 | the same with the mask bit set and the length doubled, for lengths up to 127 |
| Oxm.Unpacked | openflow.h:418-428 | the converse: every 32-bit header is the packing of its extracted parts, so packing is a bijection |
| Oxm.WildHeader | openflow.h:430-431 | the wildcarded header keeps the type, sets the mask bit, and doubles the length exactly up to 127 |

## Left out

- Sockets, accept and connect, libpcap, the clock and `nanosleep`: inputs of the model. A clock never goes back, a sleep with valid arguments is never short, an `async_write` is emitted whole and in order.
- The two halves of an asynchronous read, copying bytes and running its handler, are one step; nothing else touches the buffer between them.
- Data races: accesses to shared variables are atomic steps; the order of plain accesses below that is not modelled.
- TimeArith.ExactIff: seconds and nanoseconds are unbounded integers, and the 32-bit `int` product wraps where C++ leaves it undefined.
- PacketMaker.Generator.MakePkt: the IP and TCP headers and the payload are partly uninitialised in the source, so only the Ethernet header is determined.
- BurstModel.ExactTurns: is about the repaired line; as written the lateness of WrittenPacing.DeadlineLate takes its place.
- FlowGen.Generator.Send: the callback's own work and the log line for a missing sink.
- WrittenRate.WrittenMostSize: bounds the turns as written and is not shown to be attained.
- Tester.PacketInTester.GroupTest: the pause between groups, which only lets PACKET_INs arrive.
- Tester.PacketInTester.DoTest: runs alone; its interleaving with PACKET_INs is in Tester.GroupAccounting. A second test would replace a joinable thread object, which ends the program.
- OfpBuffer.Buffer.GetFront: a waiting consumer is woken in vain any finite number of times; a consumer that is woken in vain for ever does not return. Which wakeups are still to come is OfpBuffer.NoLostWakeup.
- Transaction ids, `send_hello` and `send_feature_request`: eight fixed bytes each and a counter.
- `draw_back` and `prepare_drawback`: they return an empty message.
- `calculate_buffered_packet`: its call is commented out.
- OFPShaper.h: unfinished; the session header it includes is not part of this model.
- OVS_ASSIST: the third session is compiled only when that macro is defined.
- Oxm.PackingIff: the macros' `int` arithmetic is read as unsigned 32-bit.
- FlowModCodec.Decode: instructions and actions other than those listed in its types are reported as unknown types.
- Logging and hexadecimal dumps.
