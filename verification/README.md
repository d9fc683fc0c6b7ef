# Pinout: proofs about the protocol, the firmware and the stateful core

A Dafny model of the parts of Pinout in which a mistake is hard to see and expensive: the wire
protocol between host and device, the armed-session safety machine of the two firmware bridges,
the text under an idempotency key, the mDNS name codec, the awareness registry, the libgpiod
backend with its edge monitor, the merging of discovery candidates, and the benchmark statistics.

`dafny verify dfyconfig.toml` checks every proof. Code that works by changing things step by step
is a class or a method with the fields and loops of the original; each method's `ensures` equates
its new state with a function of the old one, and the results below are proved about those
functions, over all inputs, all runs or all reachable states. Every lemma writes its own
induction (`{:induction false}`).

| file | models |
|---|---|
| `Prelude`, `Decimal`, `Lines` | options and untyped fields, decimal text, trimming, the split of a stream at newlines |
| `Json`, `CanonicalJson` | `JSON.stringify`/`JSON.parse` on compact integer JSON; `stableStringify` and the idempotency text |
| `LineReader`, `Protocol`, `Framing` | the streaming splitter, the message codec, and both together over any chunking |
| `Session`, `SessionWire` | the pending-request table over all interleavings; a device's answer end to end |
| `ArmedSession` | wrap-around deadlines, and the abstract armed session with an unbounded clock |
| `LineAssembly` | the two firmware line assemblers as splits |
| `UnoBridge`, `UnoPins` | the Uno bridge: object, steps, runs, refinement of the armed session; replies, and the life of each pin |
| `Esp32`, `Esp32Safety`, `Esp32Runs`, `Esp32Effects`, `Esp32Pins`, `Esp32Device`, `Esp32Stream` | the ESP32 bridge: steps on values, invariant, safety over runs, what commands leave behind over runs, replies and the life of each pin, object with arrays, bytes to commands |
| `Mdns`, `MdnsAnswers` | DNS name encoding, label and pointer walking, the answer cursor; the records of a packet and the answers read from it |
| `Awareness`, `AwarenessLives` | transition table, registry, event log, staleness; the life of each device |
| `LibgpiodConfig`, `Libgpiod`, `LibgpiodSafety`, `LibgpiodLines` | line validation; backend object and steps; results over runs; acceptance, and the life of each line |
| `Gpiomon` | the gpiomon output stream with debouncing and counters |
| `DiscoveryMerge`, `DiscoveryRepeats` | honesty rules and merging; the evidence of lists that name an object again |
| `Metrics` | percentile and seeded shuffle |

## Where the code falls short of its promise

Each of these is a theorem; where the promise holds on some inputs, the theorem says on exactly which.

- `readLines` depends on the chunking for a line that is one character over the limit and ends in a
  carriage return: it is lost exactly when a chunk ends between its carriage return and its newline
  (`LineReader.ReadExactly`, `LineReader.WholeIffUncut`), so the lines read depend only on the stream
  exactly when no line is like that (`LineReader.ChunkingIrrelevantIffEdgeFree`). A message as long
  as a line may be, printed by a device that ends its lines with both characters, is such a line
  (`Framing.EndToEnd`).
- A request or response with an empty id is encoded but does not decode; every other message comes
  back (`Protocol.DecodeText`).
- DNS labels come back exactly when there are at most 65 of them and none has 192 bytes or more; the
  limit of 63 bytes per label (section 2.3.4 of RFC 1035) is not checked when encoding
  (`Mdns.EncodedLabelsComeBack`). A name with pointers comes back exactly when its last label is at
  most 65 steps away, jumps included (`Mdns.NameComesBackExactly`).
- `parseMdnsResponse` throws on a response exactly when an answer starts at least ten bytes before
  the end but has fewer than ten bytes left behind its name (`Mdns.ParseThrowsExactly`); a packet of
  22 bytes does it (`Mdns.ShortAnswerThrows`). The socket's message handler that calls it does not
  catch the error (packages/discovery/src/plugins.ts:427-428).
- Observing a device throws exactly when the device is online, is observed as not enrolled, and is
  not a known module, after its record has been stored (`Awareness.ObserveThrowsExactly`). Seeing a
  device, enrolling it, and seeing it after its enrolment was withdrawn leads there
  (`Awareness.WithdrawnEnrolmentThrows`).
- Of the routes that the registry's path search writes out only two are ever taken, from seen to
  online and from a pending enrolment to seen; every other pair it covers has a direct move
  (`AwarenessLives.PathsTaken`).
- For timeouts up to 2^31 ms the firmware's deadline comparison is wrong exactly when the deadline lies
  2^31 ms or more in the past, modulo 2^32 (`ArmedSession.DueRightExactly`); the results over runs
  therefore name the gap between polls.
- On the ESP32 an actuation refused for its payload or pin still counts as a heartbeat while armed
  (`Esp32Effects.RefusedMovesNothing`).
- A pulse on a libgpiod `hold` line leaves the load on when it runs out, and so does a safe state
  that cancels it (`LibgpiodSafety.PulseEndsOff`, `LibgpiodSafety.SafeStateDeenergizes`). The
  safe-state sweep stops at the first tool failure (`LibgpiodSafety.SafeStateFailsExactly`).
- `mergeCandidates` loses no evidence (`DiscoveryRepeats.NoEvidenceLost`), and conserves it exactly
  when no object comes back that is the first of its endpoint and has taken over evidence since
  (`DiscoveryRepeats.EvidenceConservedExactly`). Three candidates a, b, a of one endpoint with one
  observation each end with four (`DiscoveryRepeats.EvidenceCountedTwice`).

## Model

| member | source | states |
|---|---|---|
| CanonicalJson.StableStringifyCanonical | packages/daemon/src/httpServer.ts:1284-1294 | two values have the same canonical text if and only if they are equal with objects compared as maps, at every depth |
| CanonicalJson.ParseStable | packages/daemon/src/httpServer.ts:1284-1294 | the canonical text parses as JSON, to a value equal up to key order |
| CanonicalJson.PreimageAgreesExactly | packages/daemon/src/httpServer.ts:1273-1282 | the text under the idempotency key agrees exactly when device, capability, owner and arguments agree |
| CanonicalJson.AscendingUnique | packages/daemon/src/httpServer.ts:1292 | an ascending key list is determined by its elements, so the sort order cannot matter |
| Json.ParseStringify | packages/core/src/protocol.ts:44-85 | parsing undoes printing on every well-formed value: escapes, numbers, nesting and member order |
| Json.StringifyInjective | packages/daemon/src/httpServer.ts:1286 | printing is injective |
| Json.ObjectTextCloses | packages/core/src/protocol.ts:106-118 | text that opens with a brace is JSON only if it closes with one |
| Json.EscapeRead | packages/core/src/protocol.ts:113-117 | four hexadecimal digits of either case behind an escape name a code unit, most significant first |
| LineReader.ReadLines | packages/core/src/lineReader.ts:9-48 | the nested loops over chunks and newlines yield and report what the step-by-step reader does |
| LineReader.ReadExactly | packages/core/src/lineReader.ts:18-47 | for every chunking: the lines read are the stream's lines that fit, whole and in order, less those on the edge that a chunk cuts before their newline, then the trimmed tail; the reports are exactly the lengths, in order, of what is dropped of each line where a chunk ends with more than the limit kept, and of what is left at its newline if that is too long; each is over the limit, and every oversize line is reported, an unterminated one included |
| LineReader.BufferBounded | packages/core/src/lineReader.ts:32-38 | the buffer kept between chunks never exceeds the limit |
| LineReader.EdgeFreeRefinesSplit | packages/core/src/lineReader.ts:18-47 | without lines on the edge the reader yields exactly the fitting lines of a plain split, plus the trimmed tail |
| LineReader.OnePiece | packages/core/src/lineReader.ts:20-47 | in one piece, every fitting line comes out, those on the edge too, and every other line that is too long is reported once with its length |
| LineReader.WholeIffUncut | packages/core/src/lineReader.ts:32-38 | every line that fits is read if and only if no chunk ends between the carriage return and the newline of a line on the edge |
| LineReader.ChunkingIrrelevantIffEdgeFree | packages/core/src/lineReader.ts:18-47 | the yielded lines depend only on the stream if and only if no line is on the edge |
| Protocol.DecodeText | packages/core/src/protocol.ts:106-194 | decoding an encoded message gives it back if and only if it is an event or its id is not empty |
| Protocol.DecodesExactly | packages/core/src/protocol.ts:106-194 | any line at all decodes to a message if and only if an object stands on it that carries the version, the message's own members, and no member of a kind read before it; it is ignored exactly when, trimmed, it does not open with a brace, and otherwise reported as broken JSON exactly when it does not parse |
| Lines.TrimExactly | packages/core/src/protocol.ts:107 | trimming cuts white space off both ends, all of it and nothing else |
| Protocol.StringifyNoNewline | packages/core/src/protocol.ts:44-85 | printed JSON holds no newline, so a frame is one line |
| Framing.SurvivingReceived | packages/core/src/protocol.ts:106-112 | decoding the lines read from messages, ended with or without a carriage return, and noise lines gives the messages that arrive, in order, and nothing for noise: text that, trimmed, is blank, does not start with `{`, or does not end with `}` |
| Framing.EndToEnd | packages/core/src/lineReader.ts:18-47 | any messages ended with or without a carriage return, any noise lines and any noise after the last newline, any chunking: received are exactly the messages with an id that fit on a line, in order, less those as long as the limit that a chunk cuts between carriage return and newline |
| Framing.ShortFrameArrives | packages/core/src/lineReader.ts:20-38 | a message shorter than the limit, or ended without a carriage return, arrives however the stream is cut |
| Framing.PrintedArrive | firmware/uno-bridge/src/main.cpp:29-42 | messages shorter than the limit, printed with carriage return and newline, are all received in order |
| Framing.RoundTrip | packages/core/src/session.ts:234-268 | for sendable messages the stack of encoders, chunking, reader and decoder is the identity |
| Session.SessionObject.SendRequest | packages/core/src/session.ts:87-135 | refused when closed or aborted, otherwise issues a new id and enters it in the table; the whole new state |
| Session.SessionObject.HandleResponse | packages/core/src/session.ts:293-300 | settles the entry with the response's id and no other; unknown ids change nothing |
| Session.SessionObject.RejectEach | packages/core/src/session.ts:314-319 | taking entries one by one in any order rejects all of them |
| Session.SessionObject.CloseSession | packages/core/src/session.ts:143-157 | the state after close is the one in which all entries are rejected |
| Session.RunKeepsInv | packages/core/src/session.ts:87-157 | in every reachable state a request is in the table exactly while its promise is open |
| Session.SettledForever | packages/core/src/session.ts:302-312 | a settled promise keeps its outcome through every later run: it settles at most once |
| Session.IdsNeverReused | packages/core/src/session.ts:102 | an accepted request's id was never issued before in the session |
| Session.ResponseReachesItsRequest | packages/core/src/session.ts:293-300 | a response settles the waiting request with its id and leaves every other as it was |
| Session.PendingIsIssuedLessSettled | packages/core/src/session.ts:302-319 | the pending count is the number issued less the number settled, in every reachable state |
| Session.AfterClose | packages/core/src/session.ts:143-157 | after close nothing is pending, every issued request is settled, and no later run changes that |
| Session.FirstResponseWins | packages/core/src/session.ts:293-300 | among delivered messages the first response with a pending request's id decides its outcome |
| Session.RequestEnters | packages/core/src/session.ts:87-135 | an open session enters a request under the next id, unsettled, with a timer and, if it has a signal, an abort handler; any other request changes nothing |
| Session.TakesRequestsWhileOpen | packages/core/src/session.ts:92-99 | over every run a request is taken exactly when the connection has opened, no close has come, and its signal is not aborted |
| Session.FailureSettlesItsRequest | packages/core/src/session.ts:105-132 | a timer rejects its request as timed out, an abort as aborted, a failed write as not written, and takes it out of the table; every other promise stays as it was, and nothing happens when the request no longer waits |
| Session.EndSettlesAll | packages/core/src/session.ts:143-157 | the end of the stream rejects every waiting request with its reason, a close as disconnected; the table is empty and settled promises stay |
| Session.FirstEventDecides | packages/core/src/session.ts:87-157 | over every run a waiting request ends as the first event that concerns it says: its response, its timer, its abort if it has a signal, its failed write, the end of the stream or the close; until then it waits |
| Session.FirstMessageDecides | packages/core/src/session.ts:234-300 | over the messages read, a waiting request ends as the first one that concerns it says, a malformed ready event included, and otherwise still waits |
| Session.ReadyAccepted | packages/core/src/protocol.ts:196-230 | a complete identity is accepted exactly when its firmware has a name and its protocol is version 1 |
| Session.ReadyIncomplete | packages/core/src/protocol.ts:196-219 | an identity that lacks a field, or has one of another kind, ends the reading |
| SessionWire.AnswerResolvesRequest | packages/core/src/session.ts:234-300 | an answer in a device's output, ended either way, resolves the request it names, whatever noise of that kind surrounds it and however the output is cut, unless it is as long as the limit and cut before its newline |
| ArmedSession.DueMeans | firmware/esp32-bridge/src/main.cpp:276-282 | what the signed 32-bit comparison decides, for every true elapsed time |
| ArmedSession.DueExactly | firmware/esp32-bridge/src/main.cpp:222-226 | within 2^31 ms of the deadline it decides exactly whether the true time has passed, through any wrap |
| ArmedSession.DueRightExactly | firmware/esp32-bridge/src/main.cpp:276-282 | for timeouts up to 2^31 ms and every elapsed time, the comparison is right if and only if the deadline does not lie 2^31 ms or more in the past, modulo 2^32 |
| ArmedSession.NoSilentSession | firmware/uno-bridge/src/main.cpp:23-28 | polled at least every `gap` ms, no session stays armed for timeout + gap without a heartbeat, for gaps and timeouts up to 2^31 ms |
| ArmedSession.TripsExactlyWhenSilent | firmware/uno-bridge/src/main.cpp:23-28 | polled at least every `gap` ms, a poll trips exactly when the timeout has truly passed, for gaps and timeouts up to 2^31 ms |
| LineAssembly.UnoRefinesSplit | firmware/uno-bridge/src/main.cpp:104-112 | for every byte stream the dispatched lines are the terminated lines without carriage returns that fit, and the buffer stays in bounds |
| LineAssembly.EspRefinesSplit | firmware/esp32-bridge/src/main.cpp:1254-1280 | the same for the ESP32, less the lines in which any byte follows the last place; each of those gets exactly one error |
| UnoBridge.Uno.StopOutputs | firmware/uno-bridge/src/main.cpp:16-22 | the loop over the arrays puts every active pin at its safe level and clears its flag, and moves nothing else |
| UnoBridge.Uno.PollWatchdog | firmware/uno-bridge/src/main.cpp:23-28 | the object's poll is the model's poll |
| UnoBridge.Uno.HandleCommand | firmware/uno-bridge/src/main.cpp:47-102 | every command, with its checks in order, changes the object as the model's step does and gives the same reply |
| UnoBridge.Uno.OnByte | firmware/uno-bridge/src/main.cpp:104-112 | one turn of the read loop is a poll, a byte of line assembly and the command it completes |
| UnoBridge.RunKeepsInv | firmware/uno-bridge/src/main.cpp:9-14 | in every reachable state: never armed and tripped at once, no active pin while not armed, and the deadline is the last heartbeat plus the timeout modulo 2^32 |
| UnoBridge.StepRefines | firmware/uno-bridge/src/main.cpp:47-112 | every step refines the abstract armed session |
| UnoBridge.RunRefines | firmware/uno-bridge/src/main.cpp:47-112 | every run refines the abstract armed session |
| UnoBridge.ArmedRun | firmware/uno-bridge/src/main.cpp:75-97 | while armed the safe-level table stands still and every driven pin is active |
| UnoBridge.StopLeavesConfiguredLevels | firmware/uno-bridge/src/main.cpp:16-28 | every pin driven in a session and not since set to input ends a trip, disarm or stop at the level configured when the session was armed, driven low, driven high or not driven; the stop moves no pin the session did not touch |
| UnoBridge.RefusedChangesNothing | firmware/uno-bridge/src/main.cpp:47-102 | a refused command changes nothing, the deadline included |
| UnoBridge.WriteStands | firmware/uno-bridge/src/main.cpp:85-88 | an accepted write drives the pin to its value, which stands while the session goes on and no command addresses the pin |
| UnoBridge.UnarmedMovesNothing | firmware/uno-bridge/src/main.cpp:84 | while not armed only an accepted arm command leads to armed, and no step moves a pin |
| UnoBridge.PollTripsExactly | firmware/uno-bridge/src/main.cpp:23-28 | in any state with the invariant, a poll less than 2^31 ms past the deadline trips if and only if the timeout has truly passed |
| UnoBridge.WatchdogHonest | firmware/uno-bridge/src/main.cpp:23-28 | from power-up, polled at least every `gap` ms: never armed longer than timeout + gap without a heartbeat, and tripping exactly on true elapsed time |
| UnoBridge.CommandsAreTheFittingLines | firmware/uno-bridge/src/main.cpp:104-112 | the commands carried out are those on the stream's lines of at most 255 kept characters |
| UnoPins.SessionReplies | firmware/uno-bridge/src/main.cpp:47-102 | what arm, kick, disarm, stop and malformed commands are answered, for every timeout and every state |
| UnoPins.PinReplies | firmware/uno-bridge/src/main.cpp:64-102 | what the commands about a pin are answered, the first fault first: pin, session, payload |
| UnoPins.StepPins | firmware/uno-bridge/src/main.cpp:9-102 | what every step makes of every pin's mode, level, activity and safe level, spelled out, and that it touches no other pin |
| UnoPins.EachPinLives | firmware/uno-bridge/src/main.cpp:9-112 | from power-up, over every run, the states of each pin are a chain of those steps |
| UnoPins.PowerUp | firmware/uno-bridge/src/main.cpp:9-14 | at power-up the bridge is disarmed, with a timeout of one second |
| Esp32Device.Device.ApplySafe | firmware/esp32-bridge/src/main.cpp:228-262 | the three loops over pins, channels and pulses give the safe state of the model |
| Esp32Device.Device.CancelPulseForPin | firmware/esp32-bridge/src/main.cpp:91-97 | stops the pulses of one pin and no others |
| Esp32Device.Device.CheckDeadline | firmware/esp32-bridge/src/main.cpp:276-282 | the object's watchdog check is the model's |
| Esp32Device.Device.PollPulseTable | firmware/esp32-bridge/src/main.cpp:644-652 | the loop over the slots restores and clears exactly the expired pulses |
| Esp32Device.Device.PulseSlot | firmware/esp32-bridge/src/main.cpp:617-621 | the search finds the pin's own slot, else the first free one, else none |
| Esp32Device.Device.PulseCommand | firmware/esp32-bridge/src/main.cpp:604-642 | a pulse keeps the level from before the train and refuses when the table is full |
| Esp32Device.Device.BatchCommand | firmware/esp32-bridge/src/main.cpp:523-558 | all writes are checked before any pin is driven, then applied in order |
| Esp32Device.Device.HandleRequest | firmware/esp32-bridge/src/main.cpp:1076-1208 | dispatch with the arming check in front of every actuation; new state and reply as the model's, reads with their pin checks and the level read, unknown actions and malformed requests included |
| Esp32Device.Device.OnByte | firmware/esp32-bridge/src/main.cpp:1254-1280 | one turn of the read loop: check, byte, and on a newline the line and a second check |
| Esp32Safety.RunKeeps | firmware/esp32-bridge/src/main.cpp:228-282 | in every reachable state: not armed means no pulse and no PWM channel; running pulses have distinct pins; the deadline is the last heartbeat plus the timeout modulo 2^32 |
| Esp32Safety.SlotFound | firmware/esp32-bridge/src/main.cpp:617-629 | a busy slot chosen for a pulse is the pin's own, and a free one is chosen only if the pin has none |
| Esp32Runs.UnarmedRunMovesOnlyToSafe | firmware/esp32-bridge/src/main.cpp:415-432 | from any state that is not armed until the next arm command: never armed, nothing pulsing or modulated, and each step leaves each pin alone or puts it at its configured level: low, high, not driven, or driven as it was |
| Esp32Runs.SessionEndDeenergizes | firmware/esp32-bridge/src/main.cpp:228-274 | a trip, a disarm or a stop leaves every active or configured pin at its configured level, low driven low, high driven high, high-z not driven, hold driven as it was, with the activity flag that goes with it; other pins stay, every pulse and channel stops, and no pin is left driven high unless its level is high or hold |
| Esp32Runs.LevelStands | firmware/esp32-bridge/src/main.cpp:502-521 | a pin without a pulse keeps its level through every run that does not address it |
| Esp32Runs.WriteStands | firmware/esp32-bridge/src/main.cpp:502-521 | no earlier pulse ever overwrites an accepted write |
| Esp32Runs.WriteReadsBack | firmware/esp32-bridge/src/main.cpp:567-581 | reading a pin after an accepted write, and any run that does not address it, replies with the value written |
| Esp32Runs.TrainRestoresFirstLevel | firmware/esp32-bridge/src/main.cpp:604-652 | a train of pulses, overlapping or not, ends with the level read before the first one |
| Esp32Runs.PulseEndsOnTime | firmware/esp32-bridge/src/main.cpp:644-652 | polled near its due time a pulse ends exactly when its time has truly passed |
| Esp32Runs.StepRefines | firmware/esp32-bridge/src/main.cpp:303-370 | every step refines the abstract armed session, changes of timeout included |
| Esp32Runs.RunRefines | firmware/esp32-bridge/src/main.cpp:303-370 | every run refines the abstract armed session |
| Esp32Runs.PollTripsExactly | firmware/esp32-bridge/src/main.cpp:276-282 | in any watched state with the invariant, a poll less than 2^31 ms past the deadline trips if and only if the timeout has truly passed |
| Esp32Runs.WatchdogHonest | firmware/esp32-bridge/src/main.cpp:222-282 | from power-up, polled at least every `gap` ms, up to 2^31, with any 32-bit timeouts: no watched session outlives timeout + gap in silence, and a poll trips exactly on true elapsed time |
| Esp32Effects.RefusedMovesNothing | firmware/esp32-bridge/src/main.cpp:415-433 | a refused actuation changes nothing, except that while armed it counts as a heartbeat |
| Esp32Effects.BatchIsAllOrNothing | firmware/esp32-bridge/src/main.cpp:523-558 | a batch is accepted if and only if it has 1 to 16 good writes; then every pin ends at the value written to it last with its pulse cancelled and other pins stay, otherwise nothing changes |
| Esp32Effects.TogglesCancel | firmware/esp32-bridge/src/main.cpp:583-602 | two toggles of a pin leave it at the level latched before, with any run between them that does not address the pin |
| Esp32Effects.OutputStaysSafe | firmware/esp32-bridge/src/main.cpp:446-500 | a pin switched to output rests at its safe level, the one just given or the one kept, through every run that does not address it |
| Esp32Effects.ChannelsFollowCommands | firmware/esp32-bridge/src/main.cpp:654-684 | after any run each PWM channel carries the pin and duty of the last accepted PWM, servo or motor command on it, or nothing if the outputs were stopped since |
| Esp32Effects.LoadsStayInRange | firmware/esp32-bridge/src/main.cpp:971-1061 | from power-up over any run, a channel no command holds is free and silent; otherwise its pin is writable and its duty 3276 to 6553 under a servo, 0 to 255 under a PWM or motor command |
| Esp32Effects.ServosAndMotorsApart | firmware/esp32-bridge/src/main.cpp:987-1035 | where the motor window ends below the servo base: a channel last taken by a servo keeps its load through every run in which outputs are not stopped and only motor commands could ask for it, and the other way round |
| Esp32Effects.ServoDutyInRange | firmware/esp32-bridge/src/main.cpp:999-1000 | the servo duty stands for one to two milliseconds and grows with the angle |
| Esp32Effects.ServoDutyAccurate | firmware/esp32-bridge/src/main.cpp:999-1000 | the duty stands for one millisecond plus the angle's share of another, to less than a step of the duty and a microsecond |
| Esp32Effects.DirectionStands | firmware/esp32-bridge/src/main.cpp:1007-1061 | a motor's direction pin keeps the sign of the speed asked for through every run that does not address it |
| Esp32Pins.AcceptedExactly | firmware/esp32-bridge/src/main.cpp:415-433 | an actuation is carried out if and only if the session is armed, the command has not expired, it is complete, its pins may be driven, its values are in range, no write of a batch is bad and a pulse finds a slot; each refusal of the session has its own exact condition |
| Esp32Pins.ActionReply | firmware/esp32-bridge/src/main.cpp:446-1061 | what each actuation is answered, the first fault first |
| Esp32Pins.SessionReplies | firmware/esp32-bridge/src/main.cpp:303-370 | what arm, configure, kick, disarm, stop and malformed requests are answered, in every state |
| Esp32Pins.ConfigReply | firmware/esp32-bridge/src/main.cpp:372-413 | a safe level is accepted exactly for a pin that may be driven, with a known level and polarity |
| Esp32Pins.ReadReplies | firmware/esp32-bridge/src/main.cpp:567-581 | a read gives the latch of an output and the applied level of any other pin, or refuses the pin |
| Esp32Pins.StepPins | firmware/esp32-bridge/src/main.cpp:228-1061 | what every step makes of every pin's drive, activity, configuration and pulse, spelled out, and that it touches no other pin |
| Esp32Pins.EachPinLives | firmware/esp32-bridge/src/main.cpp:228-1061 | from power-up, over every run, the states of each pin are a chain of those steps |
| Esp32Pins.PulseShape | firmware/esp32-bridge/src/main.cpp:604-652 | an accepted pulse holds its pin at the value asked for through every undisturbed run until its duration is over, and the first poll after that, less than 2^31 ms late, returns the pin to the level before, where it rests |
| Esp32Pins.PowerUp | firmware/esp32-bridge/src/main.cpp:303-318 | at power-up the bridge is disarmed, with a timeout of one second, and nothing runs |
| Esp32Stream.CommandsAreTheFittingLines | firmware/esp32-bridge/src/main.cpp:1254-1280 | whatever the timing, the commands carried out are those on the stream's lines in which no byte follows the 1023rd kept one |
| Esp32Stream.Turn | firmware/esp32-bridge/src/main.cpp:1254-1280 | one input, a byte or none waiting, changes the object as the steps it stands for |
| Esp32Stream.Serve | firmware/esp32-bridge/src/main.cpp:1254-1280 | over any inputs the object with its arrays ends in the state of the model's run on those steps, its line buffer in that of the assembled stream |
| Mdns.BuildQuery | packages/discovery/src/plugins.ts:312-331 | the loop builds header, length-prefixed labels, terminator and question trailer |
| Mdns.Parser.SkipName | packages/discovery/src/plugins.ts:345-361 | the loop moves the shared offset as the specification of skipping says, on every packet |
| Mdns.Parser.ReadNameHere | packages/discovery/src/plugins.ts:363-388 | the loop reads labels through pointers and moves the offset once, and ends on every packet, pointer cycles included |
| Mdns.Parser.Parse | packages/discovery/src/plugins.ts:339-405 | questions skipped, answers read, the range error included |
| Mdns.ReadNameFinds | packages/discovery/src/plugins.ts:363-388 | reading finds the name that stands at an offset, directly or through pointers, and lands after it |
| Mdns.SkipFindsEnd | packages/discovery/src/plugins.ts:345-361 | skipping lands where reading does |
| Mdns.EncodedLabelsComeBack | packages/discovery/src/plugins.ts:312-388 | the labels of an encoded name are read back if and only if there are at most 65 and each is shorter than 192 bytes |
| Mdns.EncodedNameEndFound | packages/discovery/src/plugins.ts:345-388 | reading and skipping land right after a plain name if and only if it has at most 64 labels |
| Mdns.QueryRoundTrip | packages/discovery/src/plugins.ts:312-388 | the query built for a name is read back as that name's labels |
| Mdns.QueriedNameComesBack | packages/discovery/src/plugins.ts:313 | a dotted name without empty labels comes back from its own query as written |
| Mdns.EncodedLabelsAt | packages/discovery/src/plugins.ts:315-319 | encoded labels stand in the packet where they were written, each behind its length |
| Mdns.NameComesBackExactly | packages/discovery/src/plugins.ts:363-388 | a name anywhere in a packet, pointers included, is read back whole if and only if its last label is seen within 65 steps |
| Mdns.CompressedNameComesBack | packages/discovery/src/plugins.ts:375-382 | labels in place followed by a pointer to a name are read as both together if and only if the last label is at most 65 steps away; the cursor lands right after the pointer, for reading and for skipping, if and only if at most 64 labels stand before it |
| Mdns.OneJumpComesBack | packages/discovery/src/plugins.ts:375-382 | a name ending in a pointer to one written out comes back if and only if labels and jump together are at most 65 |
| Mdns.AnswerAdvances | packages/discovery/src/plugins.ts:396-403 | every answer moves the cursor on by at least ten bytes |
| Mdns.AnswersBounded | packages/discovery/src/plugins.ts:396-403 | a packet yields at most one answer per ten bytes, however many it announces |
| Mdns.ParseThrowsExactly | packages/discovery/src/plugins.ts:339-405 | a response makes the parser throw if and only if its questions can be skipped and some announced answer passes the loop's guard with fewer than ten bytes behind its name |
| Mdns.ShortAnswerThrows | packages/discovery/src/plugins.ts:396-403 | a packet of 22 bytes, one answer cut two bytes short, makes the parser throw |
| MdnsAnswers.AnswersAreTheRecords | packages/discovery/src/plugins.ts:339-405 | where questions and records stand one behind the other in a packet, byte by byte, names through at most 64 labels and pointers, the answers are exactly the records, each with its joined name and its type, in order: as many as announced, or as many as there is room for |
| MdnsAnswers.UnreadableHasNone | packages/discovery/src/plugins.ts:339-361 | a packet shorter than a header, or with a question whose name cannot be skipped, has no answers |
| MdnsAnswers.OneAnswerRead | packages/discovery/src/plugins.ts:396-403 | a response of 25 bytes with one record named "a" of type 12 is read as that |
| MdnsAnswers.QueryFields | packages/discovery/src/plugins.ts:312-331 | every query has the fixed header with one question and none of the other sections, and ends in type PTR, class IN |
| MdnsAnswers.QueryAsksItsName | packages/discovery/src/plugins.ts:312-331 | its one question is for the name's labels, and it holds no answer |
| Awareness.PathExistsExactly | packages/awareness/src/store.ts:140-156 | the path search throws exactly from ONLINE to SEEN or IDENTIFIED; every path found is legal hop by hop and arrives |
| Awareness.ObserveThrowsExactly | packages/awareness/src/store.ts:219-291 | an observation throws if and only if the device is stored as online, is not enrolled and is no known module; the new record is then stored and nothing logged |
| Awareness.WithdrawnEnrolmentThrows | packages/awareness/src/store.ts:219-328 | from an empty registry: seen, enrolled, and seen again unenrolled, the observation throws |
| Awareness.AwarenessRegistry.ObserveCandidate | packages/awareness/src/store.ts:219-291 | observing changes records and log as the model does, a failed path included |
| Awareness.AwarenessRegistry.ApplyObservationState | packages/awareness/src/store.ts:384-420 | the loop over the path stores and logs every hop |
| Awareness.AwarenessRegistry.Enroll | packages/awareness/src/store.ts:294-328 | enrolment goes through PENDING_ENROLL to ONLINE, or is refused and changes nothing |
| Awareness.AwarenessRegistry.Sweep | packages/awareness/src/store.ts:331-348 | the loop over the records applies staleness to each once |
| Awareness.AwarenessRegistry.InjectMock | packages/awareness/src/store.ts:351-382 | a mock replaces the record and logs the move |
| Awareness.LogDeterminesState | packages/awareness/src/store.ts:219-420 | over every run each id's state_changed events form an unbroken chain from its start to its stored state |
| Awareness.StepMovesLegally | packages/awareness/src/types.ts:111-118 | every move logged by observing, enrolling or sweeping is in the transition table |
| Awareness.OnlineNeedsApproval | packages/awareness/src/store.ts:294-328 | from any registry, a device becomes online only by enrolling it, observing it enrolled, or injecting it as an online mock |
| Awareness.NeverAutoEnrolled | packages/awareness/src/stateMachine.ts:69-78 | from any registry, loaded records included, in which a device is not online, a run without such an action for it never brings it online |
| Awareness.TicksCompose | packages/awareness/src/stateMachine.ts:80-98 | sweeping at t1 and then t2 leaves the same records as sweeping at t2 alone |
| Awareness.TickEnforcesLimits | packages/awareness/src/store.ts:331-348 | after a sweep records past the offline limit are OFFLINE, those past the stale limit STALE or OFFLINE, and fresh ones unchanged |
| AwarenessLives.PathsTaken | packages/awareness/src/store.ts:140-156 | the whole table of paths: none, one legal move, three from seen to online, two from a pending enrolment to seen; no other longer path is ever taken |
| AwarenessLives.ObserveLives | packages/awareness/src/store.ts:219-291 | an observed device is online if enrolled, else pending for a known module, else identified if any identifying field is set, else seen, outside the case that throws; it was last seen now, keeps its first sighting, and its fields are merged |
| AwarenessLives.StepLives | packages/awareness/src/store.ts:219-420 | what every action makes of every device's record, spelled out, and that it touches no other device |
| AwarenessLives.EachLivesItsLife | packages/awareness/src/store.ts:219-420 | over every run from loaded records each device's records are a chain of those steps |
| AwarenessLives.ObserveAnnounces | packages/awareness/src/store.ts:384-420 | an observation logs a new device, and every move on its path with the events that go with it, in order |
| AwarenessLives.EnrollAnnounces | packages/awareness/src/store.ts:294-328 | an enrolment succeeds exactly from identified or pending, and logs the moves it makes; a refused one logs nothing |
| AwarenessLives.SweepAnnounces | packages/awareness/src/store.ts:331-348 | a sweep logs each device that it moves, once, in the order stored |
| AwarenessLives.MockAnnounces | packages/awareness/src/store.ts:351-382 | a mock of a new device logs as if the device had been seen first, one of a stored device logs the change of state if there is one |
| LibgpiodConfig.ValidateLines | packages/libgpiod/src/backend.ts:142-248 | accepted if and only if every entry is well formed and no offset or name repeats, with each line as its entry means; otherwise the first offending entry is reported with its reason |
| LibgpiodConfig.ReadsExactly | packages/libgpiod/src/backend.ts:149-248 | the checks of one entry, in the order of the source, pass exactly when it is well formed and new |
| LibgpiodConfig.AcceptedIsSafe | packages/libgpiod/src/backend.ts:197-227 | in an accepted configuration a driven safe level belongs to an output and leaves its load off; offsets and names are distinct |
| LibgpiodConfig.LevelsInvert | packages/libgpiod/src/backend.ts:996-1005 | the logical and raw levels translate back and forth |
| Libgpiod.LibgpiodBackend.DriveLine | packages/libgpiod/src/backend.ts:842-870 | the old holder goes, the new one starts; on failure the line is left released |
| Libgpiod.LibgpiodBackend.InvokeWrite | packages/libgpiod/src/backend.ts:491-610 | refusals in order, then a momentary, pulsed or held write; the whole new state |
| Libgpiod.LibgpiodBackend.OnPulseTimer | packages/libgpiod/src/backend.ts:881-893 | an elapsed pulse applies the safe level |
| Libgpiod.LibgpiodBackend.InvokeSafeState | packages/libgpiod/src/backend.ts:727-751 | one line or all lines in sweep order, stopping at the first tool failure |
| Libgpiod.LibgpiodBackend.Shutdown | packages/libgpiod/src/backend.ts:340-356 | cancels every pulse and releases every holder |
| LibgpiodSafety.RunKeeps | packages/libgpiod/src/backend.ts:842-879 | in every run the live processes are exactly the holders of the lines, one per line, on its own offset; inputs have none |
| LibgpiodSafety.OneHolderPerOffset | packages/libgpiod/src/backend.ts:842-854 | at most one live process drives an offset, the holder of the line declared there |
| LibgpiodSafety.OrderVisitsAll | packages/libgpiod/src/backend.ts:786-797 | the sweep order lists every line once, by rank and then declaration |
| LibgpiodSafety.OrderUnique | packages/libgpiod/src/backend.ts:793-796 | any sort by rank and index gives this order |
| LibgpiodSafety.SafeStateDeenergizes | packages/libgpiod/src/backend.ts:727-751 | for every accepted configuration and after any run, a successful full safe state leaves driven outputs held at a level that is off, high-z outputs released, hold lines and inputs as they were, no pulse pending |
| LibgpiodSafety.SafeStateFailsExactly | packages/libgpiod/src/backend.ts:733-743 | the sweep succeeds if and only if the backend is open and no driven output's tool fails, and otherwise says which of the two it was |
| LibgpiodSafety.OnlyAWriteEnergizes | packages/libgpiod/src/backend.ts:491-610 | a load that no process powers stays so along every run without a write to its line, whatever fails, exits or is observed |
| LibgpiodSafety.SafeLevelNeverEnergizes | packages/libgpiod/src/backend.ts:799-839 | applying a safe level never makes a process give a load power, tool failure included |
| LibgpiodSafety.PulseEndsOff | packages/libgpiod/src/backend.ts:632-645 | after an elapsed pulse no process powers the load if and only if the line is not a hold line or none did before |
| LibgpiodSafety.WriteDrives | packages/libgpiod/src/backend.ts:523-578 | a well-formed write to an output whose tool works puts exactly the requested logical value on the line, or, if momentary, leaves every process alone |
| LibgpiodSafety.FailedWriteReleases | packages/libgpiod/src/backend.ts:842-849 | after a well-formed held or pulsed write to an output whose tool fails no process drives the line |
| LibgpiodSafety.ClosedForever | packages/libgpiod/src/backend.ts:340-356 | after close nothing is held or pending for the rest of the run |
| LibgpiodSafety.LinesResolve | packages/libgpiod/src/backend.ts:902-930 | every declared line answers to its offset, and to a name exactly when it is its own after trimming |
| LibgpiodLines.WriteAcceptedExactly | packages/libgpiod/src/backend.ts:491-610 | a write is carried out if and only if the backend is open, the target is a declared output, the value is a boolean, a pulse is positive or absent, hold is a boolean or absent, and the tool works |
| LibgpiodLines.WriteRefusedBecause | packages/libgpiod/src/backend.ts:492-521 | each refusal of a write to a declared line has exactly its own fault, the first one first, and leaves the backend as it was unless it is the tool's |
| LibgpiodLines.SafeLineAcceptedExactly | packages/libgpiod/src/backend.ts:727-751 | the safe state of one line succeeds if and only if the backend is open, the line is declared and its tool, if it needs one, works |
| LibgpiodLines.SafeAllSeen | packages/libgpiod/src/backend.ts:727-797 | the sweep treats every line that no failing one precedes, the failing one included, and leaves every later line as it was |
| LibgpiodLines.StepLines | packages/libgpiod/src/backend.ts:491-893 | what every action makes of every line's process, known level and pulse, spelled out in levels, and that it touches no other line |
| LibgpiodLines.EachLineLives | packages/libgpiod/src/backend.ts:491-893 | over every run the states of each line are a chain of those steps |
| LibgpiodLines.LevelMeant | packages/libgpiod/src/backend.ts:996-1005 | true asks for the level at which the load has power, by the line's polarity, and false for the other |
| Gpiomon.GpioLineWatch.Handle | packages/libgpiod/src/tools.ts:543-568 | one line is skipped, counted as unrecognised, debounced or accepted |
| Gpiomon.GpioLineWatch.Consume | packages/libgpiod/src/tools.ts:523-541 | for every chunking the lines of the whole output are handled once each, in order |
| Gpiomon.CountersAddUp | packages/libgpiod/src/tools.ts:543-560 | events, debounced and unrecognised lines add up to the non-blank lines, and the first two to the edges reported |
| Gpiomon.EventsKeepDistance | packages/libgpiod/src/tools.ts:550-558 | any two accepted events on one line are at least the debounce interval apart, whatever the clock does |
| Gpiomon.EventsAreTheCountedEdges | packages/libgpiod/src/tools.ts:543-568 | the events are exactly the edges that count: the first on their line, and those at least the interval after the last one counted |
| Gpiomon.NothingDebounced | packages/libgpiod/src/tools.ts:553 | without an interval every reported edge becomes an event, in order, with its own clock reading |
| Gpiomon.FinalNewlineIrrelevant | packages/libgpiod/src/tools.ts:536-537 | it makes no difference whether the last line is terminated |
| DiscoveryMerge.HonestExactly | packages/discovery/src/core.ts:93-109 | a candidate passes exactly when it has evidence, claims at most 0.95, and claims more than 0.5 only with strong evidence |
| DiscoveryMerge.KeyInjective | packages/discovery/src/core.ts:115 | the key text is the same only for the same kind, address and port, colons in addresses included |
| DiscoveryMerge.MergeCandidates | packages/discovery/src/core.ts:112-131 | for any list, repeated objects included, the loop over objects and map leaves one object per endpoint in first-seen order, holding what the objects of that endpoint held when their turn came; the other objects are untouched |
| DiscoveryMerge.ResultIsMerge | packages/discovery/src/core.ts:112-131 | what the objects hold is the merge of the values read in turn, so the laws of merging apply to every list |
| DiscoveryMerge.DistinctObjectsMerge | packages/discovery/src/core.ts:112-131 | when no object is named twice, the result is the merge of the values given |
| DiscoveryMerge.ObjectsKeepHonesty | packages/discovery/src/core.ts:112-131 | for any list, if every given candidate passes the honesty rules so does every merged one |
| DiscoveryMerge.ComingBackDoubles | packages/discovery/src/core.ts:112-131 | the list a, b, a of one endpoint leaves the evidence of both twice |
| DiscoveryMerge.MergeKeepsHonesty | packages/discovery/src/core.ts:112-131 | if every candidate passes the honesty rules so does every merged one |
| DiscoveryMerge.EndpointsInFirstSeenOrder | packages/discovery/src/core.ts:113-131 | merged endpoints are distinct and in first-seen order |
| DiscoveryMerge.MergedHoldsAll | packages/discovery/src/core.ts:122-125 | a merged candidate holds exactly the evidence and identities given for its endpoint, in order, the union of its interfaces, and the largest confidence |
| DiscoveryMerge.EvidenceConserved | packages/discovery/src/core.ts:122-123 | merging values conserves the multiset of evidence |
| DiscoveryMerge.MergeIdempotent | packages/discovery/src/core.ts:112-131 | merging again changes nothing |
| DiscoveryRepeats.EvidenceConservedExactly | packages/discovery/src/core.ts:112-131 | for any list the merge conserves the multiset of evidence if and only if no object that is the first of its endpoint is named again after a later entry of the endpoint with evidence |
| DiscoveryRepeats.NoEvidenceLost | packages/discovery/src/core.ts:112-131 | for any list all evidence given is in the result |
| DiscoveryRepeats.ReadExactly | packages/discovery/src/core.ts:112-131 | at each turn the candidate holds the evidence given if and only if it does not count evidence again in that way |
| DiscoveryRepeats.ComingBackExactly | packages/discovery/src/core.ts:112-131 | the list a, b, a of one endpoint conserves evidence if and only if b has none |
| DiscoveryRepeats.EvidenceCountedTwice | packages/discovery/src/core.ts:112-131 | with one observation each, the list a, b, a ends with four of them |
| Metrics.PermutationInvariant | benchmarks/agent-task-time/src/metrics.ts:3-12 | the percentile depends on the values and not on their order |
| Metrics.MonotoneInP | benchmarks/agent-task-time/src/metrics.ts:3-12 | a higher percentile is never smaller |
| Metrics.EndsAreExtremes | benchmarks/agent-task-time/src/metrics.ts:3-12 | the 0th percentile is the minimum and the 100th the maximum |
| Metrics.BetweenExtremes | benchmarks/agent-task-time/src/metrics.ts:3-12 | every percentile lies between minimum and maximum |
| Metrics.WeighsNeighbours | benchmarks/agent-task-time/src/metrics.ts:3-12 | the percentile stands p hundredths of the way through the ascending values, and weighs the two neighbours by how near they are |
| Metrics.PastTheEnds | benchmarks/agent-task-time/src/metrics.ts:3-12 | below 0 and above 100 it stays at the last value for one place, fades to zero below the first one over one place, and is zero further out |
| Metrics.ShuffleInPlace | benchmarks/agent-task-time/src/metrics.ts:62-76 | the in-place swaps give the shuffled sequence of the seed |
| Metrics.ShuffleIsPermutation | benchmarks/agent-task-time/src/metrics.ts:62-76 | the shuffle is a permutation determined by length and seed alone, whatever the items are |
| Metrics.DrawsOneByOne | benchmarks/agent-task-time/src/metrics.ts:66-76 | the last place takes an item drawn from all, the last item takes its place, and the rest is shuffled in the same way |
| Metrics.DrawsEvenly | benchmarks/agent-task-time/src/metrics.ts:62-76 | the generator is linear modulo 2^32 with the source's constants, and the place drawn is the state's share of the places, rounded down |
| Metrics.StartsFromSeed | benchmarks/agent-task-time/src/metrics.ts:62-64 | the shuffle starts from the seed modulo 2^32, negative seeds included |

## Left out

- Text is a sequence of code units, chunks are what the UTF-8 decoder returned; surrogates cannot be written.
- JSON numbers are integers, printed without spaces; fractions, exponents, white space between tokens and the special order of integer-like keys are not modelled. In the results about a device's output a line is therefore either a message as the encoder prints it, with or without a carriage return, or noise; other text that starts with `{` and ends with `}` is not among the items.
- SHA-256: the idempotency results are about the text before hashing.
- Session timers are events without durations; the hello retry loop, connect and ready waiters and listeners are not modelled. A malformed `ready` event appears as the end of the reader.
- Firmware commands arrive as typed fields: JSON parsing on the device is a parameter from line to command, replies are reduced to their codes and the levels of digital reads, and a NUL inside a line is not modelled; nor are the replies to broken JSON or another protocol version.
- ESP32 I2C and SPI handlers, `gpio.watch`, `gpio.unwatch` and the watch poll, and the electrical effect of PWM: a pin is a mode, a latched level and an attachment. Board constants are parameters.
- Floating-point rounding: weights, confidences, duties, angles and percentiles are reals; the shuffle's products are below 2^53 for fewer than 2^21 items, where they are exact.
- The awareness store file, subscribers, and record fields that do not bear on presence (health, connector, capabilities, evidence level, confidence).
- Bytes of a DNS label are not decoded as text.
- Libgpiod operations are serialised; a tool's success is an input. Evidence and provenance records, events to listeners, `gpio.info`, the set-up of watches, and a holder that survives its termination are not modelled; a request names its line by one name or one offset.
- Gpiomon: how one output line parses is a parameter that sees the trimmed line; a listener that throws is not modelled.
- Discovery candidates that share one evidence or identity array between two objects.
- Discovery ids, endpoint details and the final sort by confidence.
- HTTP routes, event streams, leases, operations, the safety engine, journals, the CLI, MCP, the MicroPython, BLE and MQTT bridges and the capability catalogue.
