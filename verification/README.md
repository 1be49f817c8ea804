# The UMP data path of the Network MIDI 2.0 bridges

The bridges carry Universal MIDI Packets (UMP) between a USB MIDI device and a
Network MIDI 2.0 session. Between the two there are several small machines that
together must never tear a packet and never deliver a System Exclusive message
made of parts of two. This project models them and proves that they do not.

What a correct *receiver* makes of a stream is the reference for everything:
`SysEx.Receives` assembles the messages of one key (SysEx7: a Group; SysEx8: a Group
and a Stream ID) from a run of packets, each tagged with where it came from.

The main results:

- `EndToEnd.NothingIsSpliced`: a correct SysEx7 or SysEx8 sender, a channel that loses any
  packets, the stream guard with `breakStream` at every hole, the drop gate with any
  pattern of refusals, and any first part of what comes out: the messages closed by an
  End or Complete of the sender's are, packet for packet, messages the sender sent, in
  order and each at most once; every other started message is the beginning of one. In
  terms of the data bytes, no byte is invented, whoever ends the message
  (`EndToEnd.NoByteIsInvented`).
  `EndToEnd.HostIntegrity` and `EndToEnd.DirectIntegrity` say it of the words that the
  USB driver has been given, and `BridgeRuns.HostRun` and `BridgeRuns.DeviceRun` are
  methods that take guard and bridge from their start to such a state.
- Four bridges, one outlet: `Egress.Run` is the simple form, one packet offered and
  written at a time. The ring of the NXP HOST role (`HostQueue`), the runs and the stage
  of the NXP DEVICE role (`DeviceBridge`), and the loops of the Pico and the Pico W
  (`PicoBridges`) each hand on exactly its words, for every interleaving with a
  driver that frees room whenever it likes, and make no write the driver could cut.
  The ring is drained in three writes at most; a delivery that fits the stage costs no
  write at all but for terminators.
- `GateIntegrity`: what the gate keeps, when its output is orderly (if and only if
  every terminator finds room), and what is lost, as an equation: messages missing are
  packets refused and, once more, Ends refused.
  All of it holds for SysEx7 and SysEx8 alike.
- `GateLimits.PromiseIffUnharmed`: the exact condition under which the gate's promise
  is kept where other System Exclusive messages share the Group.
- `GuardedStream`: the guard's output is well formed for any input at all; it leaves a
  stream alone if and only if that stream is well formed; its counters balance.
- `UsbToNet`: words read from USB are in packets disposed of, or still held, in order
  and once, whatever the session refuses; after passes that were not stalled no whole
  packet is held back, and no pass ends without a reason. `Ump.ChunkingIsInvisible` and `UmpFramer.Reframe`: how the words
  were cut into reads does not matter.
- `EndpointConfig.ParsesIffAddress`: exactly which strings are taken as addresses.
- `EndpointConfig.DialPicked`, `WifiSupervisor`, `SequenceNumbers`, and
  `PicoBridges.OneWaitPerStall`: however many packets a stalled driver refuses, it is
  waited for once.

## How things are modelled

- A 32-bit word is a natural number below 2^32; shifts and masks are division and
  remainder. The guard's bitmap bytes are bit vectors with shifts and masks.
- The USB driver is a class with a number of free words. It takes what fits and says
  how much; room may be freed before every question about it and before every write.
  `torn` counts writes that were not taken whole, `asked` the questions about room,
  `writes` the writes.
- `sendUmp`, the session's state and room, how many words a USB read returns, the outcome
  of a WiFi join and the clocks are oracles or parameters. Every reading of the Pico's
  clock is later than the one before.
- `history`, `log`, `open` and the like in classes are ghost fields: they exist for the
  statements, not for the program. A parameter `us` of a bridge gives the packets of a
  delivery with their provenance; it has no influence on what is done.
- The state changing methods of the source are methods of classes with the same fields.
  A loop body or a lambda of the source is sometimes a method of its own.
- `WifiSupervisor` branches on `up` before it looks at the driver flag, where the source
  does the reverse; the flag is always set while `up` is, so the branches taken agree.

## Where the code and its comments part

- The comment on the drop gate says that a message whose End was refused is closed
  when its real End arrives. That End is the packet that was refused, so the gate
  stays closed and the *next* message of the Group is lost too, its last packet being
  replaced by the terminator (`GateLimits.BoundIsMet` is such a run). Between messages
  the next packet of the Group is suppressed if and only if the last one was an End
  that was refused (`GateIntegrity.NextIsLostIffEndRefused`); the price of it is the
  term for refused Ends in `GateIntegrity.LossIsRefusals`. Nothing is spliced by it.
- All System Exclusive messages of a Group share the gate's slot. While one is being
  abandoned, a packet of another one, a *rival*, that goes out and ends its message, or
  that is refused and has more of its message behind it, makes the gate forget the
  abandonment, and nothing else does (`Egress.DisturbsIffForgotten`); then, and only then,
  the next packet of the message is let through (`GateLimits.AbandonedPassesIffDisturbed`).
  `GateLimits.SharedSlotSplices` is a run in which that splices a SysEx7 message. Over whole
  runs, the promise is kept at every point at which the sender may end its message and
  finds room for its End, if and only if no such packet comes before the sender has
  finished the message being abandoned (`GateLimits.PromiseIffUnharmed`, with
  `GateIntegrity.Unharmed`). A message without rivals is never touched
  (`Egress.WithoutRivalsUndisturbed`): SysEx7 in a Group without SysEx8, say.
- The gate's terminator is two words long, where a SysEx8 packet has four.
  `GateLimits.ShortTerminatorGoesOut` is a run in which whole packets are offered and
  one that is not whole goes out. The output consists of whole packets if and only if at
  no point the last packet of an abandoned SysEx8 message that is owed an End finds two
  words of room (`Egress.WholeIffNoSysEx8Terminator`).

## Model

| member | source | states |
|---|---|---|
| Ump.TableAgrees | include/networkmidi2/Protocol.h:77-82 | the table of sizes and the switch on the message type give the same length for every word |
| Ump.SizeClasses | include/networkmidi2/Protocol.h:77-82 | which message types have one, two, three and four words |
| Ump.FirstWordFields | include/networkmidi2/Ump.h:241-252 | the shifts and masks read the fields in their places: type, Group, status, byte count, Stream ID |
| Ump.PacketsPlusResidue | include/networkmidi2/Ump.h:76-104 | cutting a stream into packets loses and adds nothing |
| Ump.ParseInTwoReads | include/networkmidi2/Ump.h:17-22 | carrying an incomplete packet over to the next read gives the packets of the whole stream |
| Ump.ParseWhole | include/networkmidi2/Ump.h:40-57 | whole packets laid end to end are parsed back as the same packets |
| Ump.ChunkingIsInvisible | include/networkmidi2/Ump.h:59-113 | two ways of cutting the same words into reads yield the same packets and the same words held back; at most three are, so a four-word read always fits; `UmpFramer.Reframe` says it of the framer's methods |
| UmpFramer.FullHasPacket | include/networkmidi2/Ump.h:108-111 | a framer that cannot take another read has a packet to offer |
| UmpFramer.UmpFramer.HasRoomFor | include/networkmidi2/Ump.h:75-76 | room is judged against the capacity of eight words |
| UmpFramer.UmpFramer.Push | include/networkmidi2/Ump.h:78-85 | all words are appended in order, or none and the answer is false |
| UmpFramer.UmpFramer.Peek | include/networkmidi2/Ump.h:87-96 | the first packet, or nothing while it is incomplete |
| UmpFramer.UmpFramer.Consume | include/networkmidi2/Ump.h:98-104 | the in-place shift drops exactly the words at the front |
| UmpFramer.TakeAll | examples/midi_bridge/nxp/SessionTask.cpp:2221-2241 | the loop of peek and consume yields the packets that parsing gives, and leaves the incomplete rest |
| UmpFramer.Reframe | include/networkmidi2/Ump.h:59-113 | push, peek and consume over any reads of at most four words compute what `Ump.ChunkingIsInvisible` is about; no push fails |
| SysEx.EndWordRole | include/networkmidi2/SysExStreamGuard.h:126-138 | a zero-length End carries the type, Group, Stream ID and status it should |
| SysEx.EndWordIsEmpty | include/networkmidi2/SysExStreamGuard.h:126-137 | its byte count is that of no data, 0 or 1 for the Stream ID, and what is behind is zero |
| DropGate.SysExDropGate.Reset | include/networkmidi2/Ump.h:148-156 | every slot is cleared |
| DropGate.SysExDropGate.Suppress | include/networkmidi2/Ump.h:158-168 | true exactly for a packet whose key is the abandoned one of its Group |
| DropGate.SysExDropGate.NoteRefused | include/networkmidi2/Ump.h:170-183 | the slot holds the key, Stream ID included, and owes an End unless a Start was refused; a one-packet message leaves it alone |
| DropGate.RefusedIsAbandoned | include/networkmidi2/Ump.h:158-183 | after a refusal exactly the packets of that key are suppressed in the Group, an End is owed at the last one unless it was the Start that was refused, and other Groups are left alone |
| DropGate.SysExDropGate.NoteSent | include/networkmidi2/Ump.h:185-195 | an End or Complete clears the slot of its Group, nothing else does |
| DropGate.SysExDropGate.TerminatorFor | include/networkmidi2/Ump.h:197-225 | clears the slot at the last packet and yields the terminator exactly when one is owed |
| DropGate.TerminatorIsEnd | include/networkmidi2/Ump.h:213-224 | the terminator is an End of the right key, and a whole packet if and only if the key is SysEx7 |
| DropGate.TerminatorIsEmpty | include/networkmidi2/Ump.h:211-222 | its words are the End and zero, and it has no data |
| Egress.RoomIsConserved | examples/midi_bridge/nxp/SessionTask.cpp:1234-1256 | words written and room left add up to the room there was and was freed |
| Egress.EnoughRoomIsIdentity | examples/midi_bridge/nxp/SessionTask.cpp:1247-1255 | if there is room for all that is offered, if only just, exactly that goes out |
| Egress.OutputOrigin | examples/midi_bridge/nxp/SessionTask.cpp:1239-1255 | the packets put out that are not terminators are a subsequence of those offered; the terminators put out are one for each abandoned message that was owed an End and ended with room for it, in order |
| Egress.WholeIffNoSysEx8Terminator | include/networkmidi2/Ump.h:213-224 | whole packets go out if and only if no last packet of an abandoned SysEx8 message owed an End ever finds two words of room |
| Egress.WithoutRivalsUndisturbed | include/networkmidi2/Ump.h:252-258 | a message without rivals in its Group never has its abandonment disturbed |
| Egress.DisturbsIffForgotten | include/networkmidi2/Ump.h:170-195 | the gate forgets an abandonment, other than by its own packets, if and only if a rival of the Group goes out and ends a message, or is refused with more to come |
| GateIntegrity.RunIsFaithful | examples/midi_bridge/nxp/SessionTask.cpp:1234-1256 | the invariant of every run, for every key: gate, sender and receiver agree about the message in hand |
| GateIntegrity.RestIsSuppressed | include/networkmidi2/Ump.h:112-133 | from a refusal on, nothing of the message goes out, of SysEx7 or SysEx8, until its last packet is offered or a rival takes the slot |
| GateIntegrity.EndMeansWhole | include/networkmidi2/Ump.h:112-133 | for any refusals, the messages closed by their own End or Complete are sent messages in order and at most once, every other one is the beginning of one, and no packet is astray |
| GateIntegrity.OrderlyIffTerminatorsFit | examples/midi_bridge/nxp/SessionTask.cpp:1239-1246 | no message is broken off or left open unclosed, if and only if at every point of the history at which a terminator of the key is due there is room for it |
| GateIntegrity.RefusalCostsAtMostTwo | include/networkmidi2/Ump.h:131-133 | the messages sent that are missing from those delivered whole, which are a subsequence of them, are at most twice the refusals |
| GateIntegrity.LossIsRefusals | include/networkmidi2/Ump.h:131-133 | the number of messages missing, and one being abandoned, is exactly the packets refused and, once more, the Ends among them |
| GateIntegrity.NextIsLostIffEndRefused | include/networkmidi2/Ump.h:126-129 | between messages, the next packet is suppressed if and only if the last one was an End that was refused |
| GateLimits.BoundIsMet | include/networkmidi2/Ump.h:172-195 | one refused End, two messages sent, none delivered whole |
| GateLimits.AbandonedPassesIffDisturbed | include/networkmidi2/Ump.h:159-195 | the next packet of an abandoned message is let through if and only if the one between was a rival of the Group that went out and ended a message, or was refused with more to come |
| GateLimits.PromiseIffUnharmed | include/networkmidi2/Ump.h:112-142 | over whole runs: the promise is kept wherever the sender ends its message and finds room if and only if no rival makes the gate forget a message its sender has not finished |
| GateLimits.ShortTerminatorGoesOut | include/networkmidi2/Ump.h:213-224 | one run in which whole packets are offered and a terminator that is not whole goes out |
| GateLimits.SharedSlotSplices | include/networkmidi2/Ump.h:186-195 | a run in which a SysEx8 packet makes the gate splice a SysEx7 message |
| StreamGuard.BreakEndsExact | include/networkmidi2/SysExStreamGuard.h:88-102 | one whole, correctly addressed End for each open key, in ascending order of Group, type and Stream ID, none for any other, none twice |
| StreamGuard.EndUnitIsEmpty | include/networkmidi2/SysExStreamGuard.h:126-138 | the End has no data, and its later words are zero |
| StreamGuard.SysExStreamGuard.constructor | include/networkmidi2/SysExStreamGuard.h:142-145 | a new guard has nothing open and both counters at zero |
| StreamGuard.SysExStreamGuard.Reset | include/networkmidi2/SysExStreamGuard.h:50-56 | nothing is open |
| StreamGuard.SysExStreamGuard.IsOpen | include/networkmidi2/SysExStreamGuard.h:67-117 | flag or bit says whether the key is in the set of open keys |
| StreamGuard.SysExStreamGuard.SetOpen | include/networkmidi2/SysExStreamGuard.h:119-124 | the set of open keys gains or loses exactly that key, bit arithmetic included |
| StreamGuard.SysExStreamGuard.EndOpen | include/networkmidi2/SysExStreamGuard.h:126-140 | the packet handed to the callback, word for word, or none without one |
| StreamGuard.SysExStreamGuard.Admit | include/networkmidi2/SysExStreamGuard.h:58-85 | the verdict, the new set of open keys, the End emitted first if there is a callback, and both counters modulo 2^32 |
| StreamGuard.SysExStreamGuard.BreakStream | include/networkmidi2/SysExStreamGuard.h:87-102 | the triple loop emits the Ends of all open keys in order, closes them all and counts them |
| GuardedStream.OutputWellFormed | include/networkmidi2/SysExStreamGuard.h:36-46 | whatever arrives, the delivered stream of every key is well formed and the open keys are the open messages |
| GuardedStream.IdentityIffWellFormed | include/networkmidi2/SysExStreamGuard.h:58-85 | the guard changes nothing if and only if the stream is well formed, and then counts nothing |
| GuardedStream.Idempotent | include/networkmidi2/SysExStreamGuard.h:58-102 | the guard is the identity on its own output |
| GuardedStream.LossNeverSplices | include/networkmidi2/SysExStreamGuard.h:20-44 | over a lossy channel with breakStream at every hole, messages the guard did not end are sent ones in order and at most once, the others beginnings with one End of the guard's; the Start-while-open branch is never taken |
| GuardedStream.CountersBalance | include/networkmidi2/SysExStreamGuard.h:88-107 | Starts delivered are Ends of senders, Ends of the guard and messages open; cutOff is the second modulo 2^32 |
| GuardedStream.OrphansAreTheRest | include/networkmidi2/SysExStreamGuard.h:75-80 | packets that arrived are those delivered and those counted as orphans, modulo 2^32 |
| GuardedStream.Replay | include/networkmidi2/SysExStreamGuard.h:58-102 | the guard's methods, called event by event, produce the runs all these statements are about |
| EndToEnd.NothingIsSpliced | examples/midi_bridge/nxp/SessionTask.cpp:1234-1256 | channel, guard, gate and outlet in a row deliver only the sender's messages, in order and at most once, or beginnings of them |
| EndToEnd.OwnEndMeansSentMessage | include/networkmidi2/SysExStreamGuard.h:33-44 | a message that ends with the sender's own End is one the sender sent |
| EndToEnd.NoByteIsInvented | include/networkmidi2/SysExStreamGuard.h:126-128 | every message received has the data bytes of one sent, or the beginning of them: neither End adds any |
| EndToEnd.PacketAligned | examples/midi_bridge/nxp/SessionTask.cpp:1150-1152 | driver and ring each hold whole packets, in order, none split between them |
| EndToEnd.HostIntegrity | examples/midi_bridge/nxp/SessionTask.cpp:1131-1152 | both of the above for the words in the driver at any moment of the HOST role, unless a rival harms the message or a SysEx8 message is closed by the gate |
| EndToEnd.DirectIntegrity | examples/midi_bridge/nxp/SessionTask.cpp:1331-1334 | the same for the bridges that write straight to the driver |
| EndToEnd.SysEx7SenderIsSafe | include/networkmidi2/Ump.h:135-139 | for SysEx7, a sender that sends no SysEx8 meets both conditions, whatever the guard adds |
| EndToEnd.SenderIsSafe | include/networkmidi2/Ump.h:135-139 | a sender that sends no rivals of a key meets the one condition, one that sends no SysEx8 the other |
| BridgeRuns.HostRun | examples/midi_bridge/nxp/SessionTask.cpp:1169-1257 | guard and HOST bridge from their start over any channel events, deliveries cut anywhere and passes: no write cut short, the queue drained once in each pass, and what the driver has is whole packets accounted for by the sender |
| BridgeRuns.DeviceRun | examples/midi_bridge/nxp/SessionTask.cpp:1278-1391 | the same for the DEVICE role at the end of a pass, for all that was let through, runs and stage included |
| UsbDriver.UsbTx.Writeable | examples/midi_bridge/nxp/SessionTask.cpp:1287-1292 | the room may have grown, and is reported exactly |
| UsbDriver.UsbTx.Write | examples/midi_bridge/nxp/SessionTask.cpp:1318-1321 | the driver takes what fits by the time of the write and reports it; a short write is torn |
| HostQueue.FittingIsWhole | examples/midi_bridge/nxp/SessionTask.cpp:1177-1182 | the run drained ends on a packet boundary |
| HostQueue.FittingIsLongest | examples/midi_bridge/nxp/SessionTask.cpp:1173-1182 | every longer run of whole packets is too long for the room |
| HostQueue.WriteLess | examples/midi_bridge/nxp/SessionTask.cpp:1173-1204 | every write brings the end of the drain nearer, so that there are three at most |
| HostQueue.HostBridge.constructor | examples/midi_bridge/nxp/SessionTask.cpp:1153-1157 | an empty ring matches the outlet at its start; ring, gate and driver are new |
| HostQueue.HostBridge.Push | examples/midi_bridge/nxp/SessionTask.cpp:1161-1167 | words are appended across the ring's end; the high-water mark follows |
| HostQueue.HostBridge.LongestRun | examples/midi_bridge/nxp/SessionTask.cpp:1177-1182 | the inner loop takes as many whole packets as fit before the end of the array, and what is left to take is unchanged |
| HostQueue.HostBridge.WriteFront | examples/midi_bridge/nxp/SessionTask.cpp:1175-1199 | a contiguous run as long as possible, or one packet copied out, goes in one write, whole; nothing is written only if nothing fits |
| HostQueue.HostBridge.Drain | examples/midi_bridge/nxp/SessionTask.cpp:1169-1205 | the driver gets exactly the longest prefix of whole packets that fits the initial room, in three writes at most, the rest stays queued; unmounted, the queue is emptied |
| HostQueue.HostBridge.OnPacket | examples/midi_bridge/nxp/SessionTask.cpp:1239-1255 | one packet queued whole, refused whole, or suppressed with its terminator |
| HostQueue.HostBridge.OnUmp | examples/midi_bridge/nxp/SessionTask.cpp:1207-1257 | the ring and the driver together hold what the simple outlet has written |
| DeviceBridge.DeviceBridge.StageFlush | examples/midi_bridge/nxp/SessionTask.cpp:1278-1285 | everything staged is written in one write, whole, or none is made when nothing is staged; a run on its way behind it still fits |
| DeviceBridge.DeviceBridge.EndPass | examples/midi_bridge/nxp/SessionTask.cpp:1278-1285 | one write at the end of a pass if and only if something is staged |
| DeviceBridge.DeviceBridge.RoomWords | examples/midi_bridge/nxp/SessionTask.cpp:1287-1292 | free words beyond what is staged |
| DeviceBridge.DeviceBridge.FlushRun | examples/midi_bridge/nxp/SessionTask.cpp:1338-1353 | a run that fits behind what is staged is staged, without a write; otherwise the stage is written first, and the run staged or written directly by its length |
| DeviceBridge.DeviceBridge.MakeRoom | examples/midi_bridge/nxp/SessionTask.cpp:1375-1379 | a run with room enough behind it is kept; otherwise it is flushed and the second question decides |
| DeviceBridge.DeviceBridge.Drop | examples/midi_bridge/nxp/SessionTask.cpp:1360-1374 | a suppressed packet, and its terminator behind all earlier output |
| DeviceBridge.DeviceBridge.OnUmp | examples/midi_bridge/nxp/SessionTask.cpp:1294-1391 | batching refines writing one packet at a time; a delivery that fits the stage makes no write but for terminators, two at most for each |
| PicoBridges.PicoBridge.RoomFor | examples/midi_bridge/pico/main.cpp:370-393 | the answer is right; every time the driver was asked is logged; it is given up only when the time is over, and that arms the latch; while it is armed the driver is asked once and the clock not at all |
| PicoBridges.PicoBridge.OnNetworkUmp | examples/midi_bridge/pico/main.cpp:395-456 | the Pico refines the simple outlet; the driver is asked once for each packet and otherwise only in waits; the log of answers is that of the packets let through, and waits in vain exceed recoveries by one at most |
| PicoBridges.OneWaitPerStall | examples/midi_bridge/pico/main.cpp:365-367 | as long as no packet fits again there is one wait in vain, however many packets are refused; over a whole log, one more than recoveries at most |
| PicoBridges.PicoWBridge.OnNetworkUmp | examples/midi_bridge/pico_w/main.cpp:211-274 | the Pico W refines the simple outlet |
| PicoBridges.Port.Drop | examples/midi_bridge/pico_w/main.cpp:232-238 | a suppressed packet, and its terminator if two words are free |
| PicoBridges.Port.Put | examples/midi_bridge/pico_w/main.cpp:239-245 | a packet written whole or noted as refused |
| UsbToNet.DisposedInOrder | examples/midi_bridge/nxp/SessionTask.cpp:2221-2241 | packets disposed of and packets held are what parsing the whole input gives |
| UsbToNet.Drain.Offer | examples/midi_bridge/nxp/SessionTask.cpp:2325-2357 | sent, gated or answered locally; gated only while no session is up, and stalled exactly when the session has refused this packet; a refusal leaves nothing behind |
| UsbToNet.Drain.Dispose | examples/midi_bridge/nxp/SessionTask.cpp:2315-2359 | a refused packet stays at the front and the session has refused it once, any other is consumed once |
| UsbToNet.Drain.TakeOut | examples/midi_bridge/nxp/SessionTask.cpp:2224-2241 | stalled if and only if a whole packet is still held, which the session has refused; the packets taken out are those that parsing gives, in order |
| UsbToNet.Drain.Refill | examples/midi_bridge/nxp/SessionTask.cpp:2207-2217 | up to four words are asked for if they fit, only while the session has room or is not up; words read are in the framer: the unchecked push cannot fail; what has arrived is unchanged |
| UsbToNet.Drain.Pass | examples/midi_bridge/nxp/SessionTask.cpp:2194-2244 | nothing that has arrived is lost, repeated or reordered over a whole pass, under any refusals: what was taken and what waited before is still the beginning of what is disposed of, held and waiting; a pass not stalled has disposed of every whole packet read, if none was left over from the pass before; it ends for one of six reasons, each of them true: no device, 64 rounds, no words, no room in the session, a read that gave nothing, or a refusal |
| SequenceNumbers.NextCounts | include/networkmidi2/Protocol.h:193-194 | incrementing wraps as the unbounded counter does, and the next number is after the last |
| SequenceNumbers.AfterIsGreater | include/networkmidi2/Protocol.h:196-204 | at a distance of at most 32767 the comparison is that of the unbounded counters |
| SequenceNumbers.OrderedIff | include/networkmidi2/Protocol.h:196-204 | two numbers are comparable, one way only, if and only if they differ by something else than 0 and 32768 |
| SequenceNumbers.WindowIsOrdered | include/networkmidi2/Protocol.h:196-204 | a strict total order on any window of 32768 counters |
| SequenceNumbers.CycleExists | include/networkmidi2/Protocol.h:196-204 | beyond such a window the comparison is not transitive |
| SequenceNumbers.CsdRoundTrip | include/networkmidi2/Protocol.h:206-210 | two bytes and a sequence number determine each other |
| EndpointConfig.PrintedIsScanned | examples/midi_bridge/pico/bridge_config.cpp:84-87 | a printed number is scanned as itself, up to what follows it |
| EndpointConfig.ParseDotted | examples/midi_bridge/pico/bridge_config.cpp:84-94 | every address printed with dots is parsed back into its octets |
| EndpointConfig.ParseDottedIp | examples/midi_bridge/pico/bridge_config.cpp:84-94 | the four octets of an address, or false and the output untouched for every string that is none |
| EndpointConfig.ParsesIffAddress | examples/midi_bridge/pico/bridge_config.cpp:84-94 | accepted are exactly four numbers with single dots between and nothing behind, each optional blanks, an optional sign and at least one digit, of value at most 255 |
| EndpointConfig.KnownAddress | examples/midi_bridge/pico/console_menu.cpp:289-295 | decimal digits, most significant octet first |
| EndpointConfig.SpaceChars | examples/midi_bridge/pico/bridge_config.cpp:87 | the characters skipped before a number |
| EndpointConfig.CopyStr | examples/midi_bridge/pico/bridge_config.cpp:35-39 | the common length is copied, and the last byte is always a NUL |
| EndpointConfig.CopiedPlaces | examples/midi_bridge/pico/bridge_config.cpp:35-39 | what each place of the field holds afterwards |
| EndpointConfig.CopiedIsCut | examples/midi_bridge/pico/bridge_config.cpp:35-39 | the string in the field is the string copied, cut to fit |
| EndpointConfig.PrintedIsCut | examples/midi_bridge/pico/console_menu.cpp:289-295 | the string in the field is the text printed, cut to fit |
| EndpointConfig.DottedFits | examples/midi_bridge/pico/console_menu.cpp:289-295 | a printed address and its NUL fit a field of sixteen bytes |
| EndpointConfig.BridgeConfig.constructor | examples/midi_bridge/pico/bridge_config.h:15-35 | every field of the first boot: role, name, DHCP, the four static addresses, no host, and the port |
| EndpointConfig.BridgeConfig.PickHost | examples/midi_bridge/pico/console_menu.cpp:289-295 | the picked address is printed into the field, cut off and terminated as snprintf does, and the port is taken |
| EndpointConfig.BridgeConfig.Save | examples/midi_bridge/pico/bridge_config.cpp:58-82 | the page holds every field, terminated, under the magic number |
| EndpointConfig.BridgeConfig.Load | examples/midi_bridge/pico/bridge_config.cpp:43-56 | every field comes from the page, or none when the magic number is another |
| EndpointConfig.SavedIsLoaded | examples/midi_bridge/pico/bridge_config.cpp:43-82 | a configuration is loaded as it was saved if and only if its text fields are terminated |
| EndpointConfig.PickedIsDialled | examples/midi_bridge/pico/main.cpp:853-858 | printing, two copies, parsing and shifting give back every 32-bit address |
| EndpointConfig.DialPicked | examples/midi_bridge/pico/main.cpp:853-858 | the host picked in one run is the host dialled in the next |
| WifiSupervisor.SinceIsElapsed | examples/midi_bridge/pico_w/main.cpp:471-472 | a 32-bit difference of clock readings never overstates the time that has passed |
| WifiSupervisor.RestartsAreRare | examples/midi_bridge/pico_w/main.cpp:469-474 | restarts in one outage are at least ten seconds apart, so their number is bounded by its length |
| WifiSupervisor.WifiSupervisor.RestartChip | examples/midi_bridge/pico_w/main.cpp:453-467 | the chip is up and the link back exactly when the join succeeded; the interval runs from its end |
| WifiSupervisor.WifiSupervisor.Supervise | examples/midi_bridge/pico_w/main.cpp:427-513 | when a link is lost, restarted and back, and every field the next poll decides by; losses are returns of "back" and the outage in progress; restarts are ten seconds apart |

## Left out

- `NetworkMidiSession`, forward error correction, retransmission, authentication and the packet codec: declared but not defined in the repository.
- UDP transports, mDNS discovery, board, USB and Ethernet drivers: hardware registers and platform calls.
- Loopback mode, printing, cycle counts, message counters and drop reports.
- Console menus beyond the step that takes a discovered host; the Pico W's own configuration layout.
- The answers to UMP Stream discovery: a Stream message is answered locally, and that is all. A packet offered again after a refusal is passed to the discovery handler again, which ignores other types.
- GateIntegrity.EndMeansWhole: packets of the key have statuses 0 to 3, and no rival harms its messages, which is the exact condition, as set out above.
- GateIntegrity.OrderlyIffTerminatorsFit: the same, and no rival disturbs the slot at all, even between messages.
- GateIntegrity.LossIsRefusals: under the same conditions.
- GateIntegrity.RefusalCostsAtMostTwo: under the same conditions.
- GateIntegrity.NextIsLostIffEndRefused: under the same conditions.
- EndToEnd.NothingIsSpliced: under the conditions of the gate. The sequence of deliveries that the session makes is a parameter, the session itself being closed.
- EndToEnd.HostIntegrity: for histories in which the gate closes no SysEx8 message, because of the length of its terminator.
- BridgeRuns.HostRun: the device stays mounted.
- HostQueue.HostBridge.OnUmp: what is said about the simple outlet ends when the device is unmounted, which empties the queue but not the gate.
- UsbToNet.Drain.Pass: safety only. A packet the session refused is offered again only when new words arrive, so no progress is claimed. The Pico's loop differs by extra USB service calls when its FIFO runs dry, which read nothing.
- PicoBridges.PicoBridge.RoomFor: how long a poll takes, and so how much longer than the deadline a wait can last.
- EndpointConfig.BridgeConfig.Save: the page is a record of the fields; their byte layout, flash erasure and interrupts are not modelled.
- WifiSupervisor.WifiSupervisor.Supervise: reconfiguration from the console, which also restarts the chip, is not modelled; nor are the calls that rejoin without a restart.
- StreamGuard.SysExStreamGuard.SetOpen: one Group's bitmap is a value of 32 bytes that is replaced as a whole, not 32 separately addressed bytes.
