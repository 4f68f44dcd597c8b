# TimeFlip2 session engine: a verified model

This project models how the library talks to a TimeFlip2 cube over Bluetooth and proves what the
conversations, the decoders, the concurrent parts and two pieces of the demo guarantee.

The device is untrusted. It is a *strategy*: every answer may depend in any way on everything done to the
connection so far (`Device.Peer`). The connection logs every access and every wait, every answer in the log is
the device's own (`Device.Genuine`, kept by every operation), and the radio keeps account of all connections
made to it, so that nothing is done to a device unnoticed. Each session operation returns, as a ghost result, the exact piece of log it made, as a structured value (`Poll`, `Exchange`,
`ReadOut`, `HistoryRead`, `Authorization`), and its result is a function of that value. Statements about those
values therefore hold for every device and every run.

What an operation returns can also be told from the log alone. Predicates such as `Polling.Granted`,
`Exchange.IsExecuted`, `HistoryReads.Sends` and `Workflow.IsUsable` read a log without knowing how it came about,
functions such as `Polling.VerdictError` and `Exchange.CommandError` read the error off its last access, and the
`Tells...` predicates that the operations ensure say that both agree, in both directions: what the log shows has
succeeded, and what has failed is what the log does not show.

| file | part of the system |
|---|---|
| `Bytes`, `Codec`, `Messages` | big-endian fields, the packet and command codec, the typed decoders |
| `Device`, `Polling`, `Exchange` | the connection, poll loops with a budget, one command with its acknowledgement |
| `HistoryV3`, `HistoryReads` | the v3 stream with its count packet and zero terminator, and the choice of v4 or v3 |
| `Settings` | the commands of the setters, with the device's parser as the reference |
| `Session`, `Workflow` | the session class, its serial runs, and the staged pairing and unpairing |
| `CommandMutex` | any number of threads on one session, as a transition system |
| `Subscriptions`, `Deliveries` | the macOS subscription protocol as a transition system: safety, and what becomes of a notification |
| `Draining`, `Settling` | its freedom from deadlock, and that cancelling always closes the channel in the end |
| `WatcherSteps`, `Rivals` | who can lose a subscription |
| `FanIn` | the event fan-in as a transition system: order, completeness, errors and shutting down |
| `Utf8`, `Trimming`, `TextEvents` | events told in words against events told in one byte, for all payloads |
| `Tokenizer`, `LineEditor` | the demo's argument splitter and its line editor |

## Where the code and its documents or names differ

The model follows the code.

- A v3 duration is built from two whole bytes and two bits with a gap between them, so it can pass the
  documented maximum of 262144 seconds; it stays below exactly when the first byte is below 4
  (`Codec.SecondsBelowDocumentedMaximum`). No information is lost all the same (`Codec.BlocksAreTellable`).
- A v3 side has six bits, so the test for side 66 in the v3 decoder never succeeds
  (`Messages.NoAccelerometerErrorInV3`).
- The v3 document speaks of the number of packages in the penultimate package. The code needs the number of
  blocks there and nothing else will do (`HistoryV3.OnlyTheBlockCountWorks`); without that packet it takes two
  bytes of a data packet for it (`HistoryV3.WithoutCountRoundTrip`).
- A 19-byte name passes the v3 check and the v3 document, but no command can carry it
  (`Settings.NamesThatCanBeWritten`).
- The v4 document gives 0x01 for a correct password; the code takes 0x02.
- A new subscription for a characteristic can be removed by the watcher of the one it replaced
  (`Subscriptions.ReplacementMayBeLost`). It can be lost exactly as long as another thread is still busy with its
  characteristic (`Rivals.LostExactlyByRivals`); one made after the earlier watchers have gone stays live
  (`Rivals.QuietSubscriptionStaysLive`).
- Closing a session does not by itself close its event channels (`FanIn.SessionCloseIsNotEnough`).
- Setting the LED is two commands and a status read ends with an unlocked facet read. Exclusive use of the
  command characteristic is therefore claimed for each command. `CommandMutex` treats such a call as two
  operations.
- A zero in front of a decimal number in a side text makes it octal (`TextEvents.ZeroPaddedDecimal`).
- A side text is searched for its prefix in lower case but cut by the length of the prefix in bytes. A prefix
  spelled with a dotted capital I is therefore found and then not read
  (`TextEvents.DottedPrefixIsFoundButNotRead`).

## Model

| member | source | states |
|---|---|---|
| `Bytes.ReadsBackWhatWasWritten` | protocol.go:346-350 | a big-endian field of any width reads back as the value written |
| `Bytes.WritesBackWhatWasRead` | internal/protocol/decode.go:58-68 | the bytes of a field are determined by its value |
| `Codec.DecodeHistoryPacket` | internal/protocol/decode.go:41-71 | the decoder loop computes the meaning of a v4 packet: size check, zero prefix as end, big-endian fields |
| `Codec.DecodeHistoryPacketV3` | internal/protocol/decode.go:74-103 | the decoder computes the meaning of a v3 packet: 21 bytes, all zero as end, zero blocks as filling |
| `Codec.DecodeBlocks` | internal/protocol/decode.go:89-101 | the block loop keeps exactly the non-zero blocks, in order |
| `Codec.EndsExactlyOnTheZeroRecord` | internal/protocol/decode.go:45-55 | a v4 packet ends a stream if and only if event number, side, moment and duration are all zero |
| `Codec.PacketIsItsRecord` | internal/protocol/decode.go:56-70 | every 20-byte payload is the encoding of exactly the record read from it |
| `Codec.EntryIsZeroOnlyForTheZeroBlock` | internal/protocol/decode.go:94-97 | the test for side and duration zero skips zero blocks and no others |
| `Codec.BlockRoundTrip` | internal/protocol/decode.go:89-97 | a v3 block gives back its side and the seconds made of its two bytes and two low bits |
| `Codec.BlocksAreTellable` | internal/protocol/decode.go:91-92 | two blocks with the same side and duration are the same block, despite the gap in the duration |
| `Codec.SecondsBelowDocumentedMaximum` | internal/protocol/decode.go:91-92 | a duration is below the 18-bit maximum if and only if its first byte is below 4; a side is below 64 |
| `Codec.SecondsMayExceedDocumentedMaximum` | docs/Hardware/BLE_device_commutication_protocol_v3.0_en.md:63 | a block that reads as more than the documented maximum |
| `Codec.EncodeCommand` | internal/protocol/command.go:32-40 | a command is its code and then its payload, refused if and only if the payload exceeds 19 bytes |
| `Codec.TrackerStatusIsExact` | internal/protocol/command.go:57-70 | lock, pause and minutes are read exactly from the payloads that start with their layout |
| `Messages.DecodeHistory` | protocol.go:217-241 | the loop computes the typed v4 history: facet without the pause bit, the flags for 0, 66 and pause |
| `Messages.DecodeHistoryV3` | protocol.go:243-261 | the loop computes the typed v3 history |
| `Messages.StreamPacketRoundTrip` | protocol.go:217-241 | a 20-byte v4 packet gives back its record: number, side without the pause bit, pause exactly from side 128 on, the marks of sides 0 and 66, moment, duration, previous; complete if and only if the record is zero |
| `Messages.SingleRecordRoundTrip` | internal/protocol/decode.go:42-56 | the same for a 17-byte packet, which has no previous event |
| `Messages.StreamPacketFromEntry` | protocol.go:217-241 | whatever decodes to a v4 entry is the packet of a record, and the entry is what a caller should see of it |
| `Messages.PacketSizes` | internal/protocol/decode.go:41-76 | v4 decodes exactly 17 and 20 bytes, v3 exactly 21; any other size is a protocol error |
| `Messages.NoAccelerometerErrorInV3` | protocol.go:243-261 | no v3 payload ever yields the accelerometer-error side |
| `Messages.CommandAcknowledgementBytes` | protocol.go:99-110 | the loop returns the bytes before the first NUL, at most four |
| `Messages.AcknowledgementMeaning` | protocol.go:89-97 | when an acknowledgement is understood, what it says, and which bytes of the value it keeps |
| `Device.Connection.Select` | session.go:92-99 | which arm of a poll's select may fire, with the timer, the deadline and the ended context |
| `Polling.AnswerIsFirstMatch` | session.go:482-548 | the answer of a poll is a read its rule stops at, and no earlier read in the whole trace is |
| `Polling.NoAnswerMeansNoMatch` | session.go:482-548 | a poll without an answer read no value its rule stops at |
| `Polling.TraceOnlyReads` | session.go:482-539 | a poll reads one characteristic, writes nothing and touches no other |
| `Polling.PolledStatus` | session.go:482-506 | when a status is returned at all; then it names the polled command, is OK only for 0x02 and keeps two to four bytes |
| `Polling.TrackerStatusDecodes` | session.go:283-291 | the answer to a status request fails to decode if and only if it is headed by the request's own code |
| `Polling.AuthorizedOnlyByVerdict` | session.go:64-101 | authorization succeeds if and only if some read starts with 0x02 and all reads before it with 0x01 |
| `Polling.RefusalIsTold` | session.go:64-101 | an authorization that fails does so with the error told by its last access: refused at the deadline, ended context, failed read or unknown verdict |
| `Polling.OutputIsTold` | session.go:508-548 | an output is returned exactly when the last value read is headed by the command or is one of the extra ones; else the last access tells the error, a lone 0x01 a failed authorization |
| `Exchange.ExchangeIsOneBlock` | session.go:424-506 | every exchange is one write and at most 256 reads on the command characteristic |
| `Exchange.ExecutedMeansAcknowledged` | session.go:461-506 | a command reported as executed was written, and the first read headed by its code after it carries 0x02 |
| `Exchange.ExchangeShows` | session.go:461-506 | an executed command shows in the log of the whole connection, whatever comes before and after |
| `Exchange.AcknowledgedMeansExecuted` | session.go:461-506 | the converse: a command whose acknowledgement can be seen in the log is reported as executed |
| `Exchange.StatusIsTold` | session.go:461-506 | so a command is tried, executed if and only if the log shows it, and otherwise fails with the error told by the last access: rejected, failed access, or protocol error, the last also after 256 reads |
| `Exchange.FetchIsTold` | session.go:430-452 | the same for a command with an output: which value it returns, and otherwise which error |
| `Exchange.ExchangeEvents` | session.go:424-539 | an exchange writes its own bytes and touches nothing but the two command characteristics |
| `HistoryV3.ReadOutIsBounded` | session.go:360-384 | whatever the device sends: at most 4096 packet reads and at most 28665 entries |
| `HistoryV3.DataPacketsUnpack` | internal/protocol/decode.go:89-101 | packing any intervals seven to a packet with zero filling and decoding the packets gives the intervals back |
| `HistoryV3.AnnouncedCountCuts` | session.go:372-377 | the exact result for any announced count: one more entry from the count packet, then the cut |
| `HistoryV3.TransmissionRoundTrip` | session.go:360-384 | what an honest device sends is read back exactly, in order, without the bogus entry, for every history that fits the budget; a longer one is an error |
| `HistoryV3.OnlyTheBlockCountWorks` | docs/Hardware/BLE_device_commutication_protocol_v3.0_en.md:75 | the history comes back if and only if the announced count is the number of blocks |
| `HistoryV3.WithoutCountRoundTrip` | session.go:372-377 | without a count packet the history comes back if and only if two bytes of the last data packet are zero or at least its length |
| `HistoryV3.CountPacketIsNeeded` | session.go:372-377 | two intervals of which a device without a count packet loses one |
| `HistoryReads.RequestBytes` | session.go:324-330 | a v4 request is the request code and the big-endian event number |
| `HistoryReads.RequestIsTold` | session.go:323-345 | a v4 read asks first, succeeds if and only if it is given 17 or 20 bytes, returns exactly the entry of the record given, none for the zero record, and otherwise the error told by the last access |
| `HistoryReads.SentComesBack` | session.go:347-384 | if the log of a v3 read shows the executed command and then packets of an honest transmission, the read returns exactly its intervals, or an error if they do not fit the budget |
| `HistoryReads.StreamIsTold` | session.go:347-384 | a v3 read succeeds if and only if the command was executed and a zero packet came last; otherwise the last access tells the error |
| `HistoryReads.HistoryIsTold` | session.go:306-321 | all this for a history read on any version; an undecided one touches the command characteristic if and only if nothing fitting was given over v4 |
| `HistoryReads.HistoryIsOneBlock` | session.go:306-353 | a history read, v4, v3 or v4 and then v3, is at most one block on the command characteristic |
| `Settings.DeviceUnderstands` | session.go:555-629 | a device's parser maps what a setter writes to exactly that operation and its arguments; 1 to 20 bytes |
| `Settings.DeviceReadsNothingElse` | session.go:555-629 | a command that the parser accepts is what the setter of that operation writes |
| `Settings.WireFormatIsExact` | session.go:555-629 | writing and parsing are inverse to each other, in both directions |
| `Settings.DistinctSettersWriteDistinctBytes` | protocol.go:337-350 | two setter calls that write the same bytes are the same call |
| `Settings.NamesThatCanBeWritten` | session.go:563-573 | a name that passes the checks is written if and only if it has at most 18 bytes, on any version |
| `Settings.NineteenByteNameIsRefused` | internal/protocol/command.go:32-35 | a 19-byte v3 name passes the check and is refused by the encoder |
| `Settings.TapReadsBackWhatWasWritten` | session.go:856-861 | the tap reader recovers what the tap writer laid out |
| `Settings.TaskReadsBackWhatWasWritten` | session.go:387-406 | reading task parameters recovers what writing them laid out, beside the elapsed seconds |
| `Settings.TaskIsExact` | session.go:395-405 | a task is read exactly from eleven bytes or more headed by 0x14, and they start with its layout |
| `Settings.TapIsExact` | session.go:856-861 | tap settings are read exactly from nine bytes or more headed by 0x17, and they start with their layout |
| `Session.PasswordOrDefault` | session.go:54-62 | an empty password becomes six zero digits, six bytes stay as they are, any other length is invalid input |
| `Session.Session.ReadCommandStatusFor` | session.go:482-506 | the loop makes exactly a poll by the command's code, within 256 reads, and returns what its ending means |
| `Session.Session.ReadCommandOutputFor` | session.go:508-539 | the loop makes exactly a poll by the output rule, within 256 reads, and returns what its ending means |
| `Session.Session.ReadAuthorizationResult` | session.go:64-101 | for a window and a positive interval, the waits between the reads fit the window whatever the reads take; a refusal at the deadline comes only when the window has passed |
| `Session.Session.VerdictRound` | session.go:68-99 | one read of the verdict: when it settles the matter and how, and when another is due |
| `Session.Session.Authorize` | session.go:41-52 | the checked password is written first; the result is success if and only if the log shows the grant, and otherwise the error told by the last access; at most 16 reads with the shipped values, and no refusal at the deadline before 750 ms |
| `Session.VerdictTells` | session.go:64-101 | the same of any authorization that got as far as its verdict |
| `Session.Session.SendCommand` | session.go:455-480 | more than 19 bytes are refused; else the log grows by one exchange, which tells whether the command was executed and otherwise the error |
| `Session.Session.ReadCommandPayload` | session.go:424-452 | an output is polled for exactly after an executed command; the log tells which value is returned and otherwise the error |
| `Session.Session.Apply` | session.go:555-629 | a setter that fails its checks writes nothing; else it sends exactly its wire bytes |
| `Session.Session.SetLed` | session.go:590-599 | two commands, the second if and only if the log shows that the first was executed; the last of them tells the result |
| `Session.Session.ReadTrackerStatus` | session.go:283-303 | a status is returned exactly for an output of its layout, whose bytes are its fields; otherwise the log tells the error; the facet is read after it and known for one byte |
| `Session.Session.ReadTask` | session.go:387-406 | the log tells the result: no task for the unassigned mark, the task whose layout the output starts with, or the error |
| `Session.Session.ReadTap` | session.go:409-422 | the log tells the result: no settings for the unassigned mark, the settings whose layout the output starts with, or the error |
| `Session.Session.ReadHistoryByV4` | session.go:323-345 | one request and one answer, with the outcome that `HistoryReads.RequestIsTold` pins down |
| `Session.Session.ReadHistoryByV3` | session.go:347-384 | the command, then a read-out exactly when it was executed, with the outcome that `HistoryReads.StreamIsTold` and `HistoryReads.SentComesBack` pin down |
| `Session.Session.ReadOutPackets` | session.go:360-384 | the loop refines the pure result of its packets: all before the first zero packet, decoded, joined and cut |
| `Session.Session.Ended` | session.go:371-379 | what a read-out returns at its end, including the cut to the count in the last packet |
| `Session.Session.ReadHistory` | session.go:306-321 | a pinned session uses its own protocol, an undecided one v3 exactly after v4 failed; what an honest device gave or sent is returned exactly, success and error are told by the log |
| `Session.Session.ReadSystemState` | session.go:195-210 | nothing is read on v3; else one read, exactly which values are accepted, and that they are laid out as status and hardware |
| `Session.Session.ReadAccelerometer` | session.go:213-232 | nothing is read on v4; a well-formed sample is laid out as three signed numbers, and it alone pins an undecided session to v3 |
| `Session.Session.ReadDeviceInfo` | session.go:130-168 | all characteristics in order up to a hard failure; when it succeeds, exactly which values it has, which error it gives otherwise, and when it pins the version |
| `Session.Session.CollectInfo` | session.go:139-151 | the loop skips missing characteristics, stops at any other failure and keeps every value read |
| `Session.Session.VerifyUsable` | session.go:103-117 | which reads each version makes, exactly when the device counts as usable, and the error of the last read otherwise |
| `Session.Session.CloseSession` | session.go:120-127 | the connection is closed the first time only |
| `Session.Session.Perform` | session.go:195-232 | any one operation makes its own accesses, stays within what the version at its start allows, and changes only an undecided version |
| `Session.Session.Run` | session.go:103-168 | in every serial run each operation is done in its turn, a decided version stays, and from then on a v3 session never touches system state or v4 history and a v4 session never the accelerometer value or the v3 history command |
| `Session.HistoryRespects` | session.go:312-321 | no history read leaves the protocol it is pinned to |
| `Workflow.Client.Connect` | client.go:57-83 | a session is open, fresh and on the wanted or configured version, or there is an error |
| `Workflow.Client.Pair` | client.go:106-166 | exactly when a connection is made, and that it is the only one; it is closed once; no command on it before a grant; the pairing is complete if and only if the log shows the grant, the executed new password if one is wanted, and a usable device; otherwise it stopped at the first of them missing, with the stages before it and the error the log tells |
| `Workflow.Client.PairOs` | client.go:129-139 | the stage says what the operating system said; an error is returned exactly for a failure other than an unsupported operation |
| `Workflow.Client.PairDevice` | client.go:141-165 | the same for the stages on the connection, in order |
| `Workflow.Client.Unpair` | client.go:169-222 | exactly when a connection is made; it is closed once; no command on it before a grant; if the log shows the grant and the executed reset, where wanted, the device stages are done and the operating system decides; otherwise it stopped at the first of them missing, with the error the log tells |
| `Workflow.Client.UnpairOver` | client.go:184-207 | a session opened for unpairing is closed once, whatever happens; its log decides how the device's part ended |
| `Workflow.Client.UnpairFromOs` | client.go:209-221 | the operating system's part is complete exactly when it was performed without an error, its manual action is handed on, and both decide completion |
| `Workflow.AuthorizationOpens` | session.go:41-101 | a successful authorization is a password write and at the end a read that starts with 0x02, with nothing else in it |
| `Workflow.GrantsCover` | client.go:141-155 | after such an opening, every command in the log follows a grant that follows a password |
| `Workflow.CommandAfterOpening` | client.go:146-203 | after such an opening, the log of the whole connection tells what a command returned |
| `Workflow.UsableIsTold` | session.go:103-117 | the log of the whole connection tells whether the device counted as usable, and otherwise the error |
| `CommandMutex.StepKeepsSerial` | session.go:424-471 | each step of any thread keeps the command accesses a sequence of whole blocks and the holder's beginning |
| `CommandMutex.EveryRunIsSerial` | session.go:306-310 | so in every run, with any number of threads |
| `CommandMutex.WholeBlocksWhenFree` | session.go:455-459 | with the mutex free, only whole blocks of distinct operations |
| `CommandMutex.AcknowledgementsAreOwn` | session.go:482-506 | no operation ever reads an acknowledgement across another operation's command write |
| `CommandMutex.SomeThreadGoesOn` | session.go:424-459 | no deadlock: while an operation is unfinished, a thread can make a step of it |
| `CommandMutex.EveryScheduleFinishes` | session.go:424-459 | without new operations no schedule is longer than the steps left to make, and one that is shorter can go on; after them all operations have finished |
| `CommandMutex.FinishedMeansDone` | session.go:424-471 | whatever the interleaving, an operation that has finished has made all its accesses, each once and in order |
| `CommandMutex.StartedIsDone` | session.go:424-471 | and they are exactly those it was started with |
| `CommandMutex.CommandsAreLawful` | session.go:424-480 | every command exchange may run under the mutex |
| `CommandMutex.HistoryIsLawful` | session.go:306-384 | every history read may run under the mutex |
| `CommandMutex.AuthorizationIsLawful` | session.go:41-52 | authorization takes no mutex and needs none for the command characteristic |
| `Subscriptions.StepKeepsInv` | macos/connection_darwin.go:126-295 | every step of subscribe, deliver, cancel and close keeps table, locks, channels and accounts in order |
| `Subscriptions.EveryRunKeepsInv` | macos/connection_darwin.go:126-295 | so in every run of any number of threads |
| `Subscriptions.ChannelsAreUsedSoundly` | macos/connection_darwin.go:259-295 | no channel is closed twice or sent to after it was closed |
| `Subscriptions.ClosedForEver` | macos/connection_darwin.go:174-186 | a closed connection has an empty subscription table for ever |
| `Subscriptions.NothingLeaksAtRest` | macos/connection_darwin.go:174-235 | with no operation in flight, every subscription handed out is registered or its channel is closed; on a closed connection it is closed |
| `Subscriptions.ReplacementMayBeLost` | macos/connection_darwin.go:157-169 | a run in which the newest subscription of an open connection is closed though nobody canceled it |
| `Deliveries.QueueIsSentNotReceived` | macos/connection_darwin.go:259-272 | in every run, what is queued on a channel is what was sent less what was received, and at most eight |
| `Deliveries.DeliverySendsUnlessFull` | macos/connection_darwin.go:259-272 | a delivery that finds its subscription open ends with it still open, whatever happens in between, and sends if and only if fewer than eight are queued |
| `Deliveries.SubscriptionsAreThoseAskedFor` | macos/connection_darwin.go:126-145 | in every run there is one subscription for each request, with its characteristic |
| `Deliveries.RefusedIsNeverHanded` | macos/connection_darwin.go:144-156 | when the device does not agree to notify, or the connection was closed meanwhile, the caller never gets a channel |
| `Draining.SomeThreadGoesOn` | macos/connection_darwin.go:126-295 | no deadlock: while an operation is in flight, some thread can go on with it |
| `Draining.ComesToRest` | macos/connection_darwin.go:126-295 | the threads at work come to rest in a bounded number of their own steps |
| `Draining.GoingOnEnds` | macos/connection_darwin.go:126-295 | however they are scheduled: no sequence of such steps is longer |
| `Draining.EveryRunCanRest` | macos/connection_darwin.go:174-235 | every reachable connection at work can come to rest, and then nothing has leaked |
| `Settling.EveryRunMinds` | macos/connection_darwin.go:163-170 | in every run each open subscription that was handed out has a thread that watches it, is about to cancel by its characteristic, or has it to close |
| `Settling.EveryScheduleSettles` | macos/connection_darwin.go:163-186 | no schedule of the connection's own threads is longer than so many steps, and where they have none left to make, every subscription whose context ended, and on a closed connection every one, has its channel closed |
| `WatcherSteps.StepKeepsOrigins` | macos/connection_darwin.go:126-295 | every step keeps in order what a thread may close: what it is about to replace, or what nobody has in the table |
| `WatcherSteps.StepKeepsPromise` | macos/connection_darwin.go:126-295 | no step but a new subscription for its key endangers a subscription that nobody else is busy with |
| `Rivals.LostExactlyByRivals` | macos/connection_darwin.go:157-169 | in every reachable state, a subscription that serves its caller can be lost unprovoked if and only if another thread is busy with its key |
| `Rivals.RivalCanClose` | macos/connection_darwin.go:227-235 | with a rival it can be closed by steps of the connection's own threads alone, on an open connection and with its context alive |
| `Rivals.ServesOnWithoutRival` | macos/connection_darwin.go:126-295 | without a rival, every way to go on that does not provoke its end leaves it open and registered, and without a rival |
| `Rivals.QuietSubscriptionStaysLive` | macos/connection_darwin.go:126-171 | a subscription made when the earlier watchers of its key have gone stays open and registered until its key is subscribed to again, its context ends or the connection closes |
| `Rivals.LoneSubscriptionStaysLive` | macos/connection_darwin.go:227-235 | in particular one that is the only one ever made for its key |
| `FanIn.StepKeepsInv` | session.go:647-691 | every step of workers, closer, sources and receivers keeps each lane in step with its notifications |
| `FanIn.EveryRunKeepsInv` | session.go:647-691 | so in every run |
| `FanIn.OutputInterleavesPrefixes` | session.go:647-682 | the events of a subscription come out in order as the decodings of a prefix of its notifications, short by at most the last one taken |
| `FanIn.ArrivalsAreKept` | session.go:647-659 | what has arrived on a lane is what was sent there, and the ends of streams, context and session are noticed |
| `FanIn.NothingIsLostWhileLive` | session.go:652-682 | while neither context nor session ends, a worker with nothing left to do has put out all that arrived and can be decoded, in order |
| `FanIn.ErrorWaits` | session.go:665-672 | the error of an undecodable notification is queued when no other is, and waits until it is received |
| `FanIn.ClosedOnlyAtTheEnd` | session.go:684-691 | the output is closed only after the context ended and all workers left, and nothing is sent on a closed channel |
| `FanIn.NothingAfterClosing` | session.go:684-691 | once closed, the output never changes |
| `FanIn.SessionCloseIsNotEnough` | session.go:684-691 | without the end of the context neither channel is ever closed |
| `FanIn.WorkersCanLeave` | session.go:653-658 | once the session or the context has ended, each worker can leave at once, or after the error it is about to report |
| `FanIn.ShutsDown` | session.go:660-691 | after the context ended, steps that wait for nobody outside close both channels: no decode failure and no full channel blocks a worker |
| `FanIn.InnerStepsAreBounded` | session.go:647-691 | workers and closer make a bounded number of steps in every schedule, two more for each notification that arrives |
| `FanIn.EveryScheduleShutsDown` | session.go:660-691 | after the context ended every schedule is so bounded, and until both channels are closed a worker or the closer has a step to make |
| `Utf8.DecodesWhatWasEncoded` | protocol.go:328-334 | every text is read back from its bytes, so what is said of texts is said of payloads |
| `Utf8.EncodesWhatWasDecoded` | protocol.go:328-334 | and from no other bytes: overlong and truncated forms are no text |
| `Trimming.TrimSpaceIsExact` | session.go:793 | trimming takes the white space at both ends and nothing else |
| `Trimming.TrimSpaceSplits` | cmd/timeflip-demo/line_editor.go:57 | every string is its trimmed form between two runs of white space |
| `TextEvents.WordsAgreeWithBytes` | session.go:765-825 | a number printed in any notation after any prefix, in any case, spacing and padding, tells the same event as the one-byte decoders |
| `TextEvents.SideTextIsRead` | session.go:765-825 | such a text with any literal the number parser accepts tells that number: a facet below 128 behind "side" and "new side", else a tap whose high bit is the pause |
| `TextEvents.OnlySideTextsAreRead` | session.go:765-825 | and of all payloads whatever, every one read as a side text has that form |
| `TextEvents.WordsSayNothingElse` | session.go:778-789 | every event read from a side text is one that a single byte notifies as well |
| `TextEvents.PauseTextIsRead` | session.go:792-802 | "pause on" and "pause: on" tell a pause, "pause off" and "pause: off" its end, in any case, spacing and padding |
| `TextEvents.OnlyPauseTextsAreRead` | session.go:792-802 | and every payload read as a pause, or as its end, is one of the two texts for it |
| `TextEvents.InvalidTellsNothing` | protocol.go:328-334 | bytes that are not UTF-8 are shown in hexadecimal and never read as an event |
| `TextEvents.CleanText` | protocol.go:328-334 | cutting padding bytes is cutting padding runes, and does not change whether the bytes are text |
| `TextEvents.FoldedPrefix` | session.go:806-822 | a text that folds to a prefix is read on from behind it if it is ASCII, and not read if it is not |
| `TextEvents.DottedPrefixIsFoundButNotRead` | session.go:818-822 | a spelling that is found as a prefix and never read |
| `TextEvents.PrintedIsRead` | session.go:821-822 | a number below 256 is read from its decimal form and from any binary, octal or hexadecimal form |
| `TextEvents.LiteralsAreExact` | session.go:821-822 | exactly these literals are read: the notations of a number below 256, in any case, with underscores where they may stand |
| `TextEvents.UnderscorePlaces` | session.go:821-822 | in a decimal number that is between digits, one at a time |
| `TextEvents.PrefixesDiffer` | session.go:807-817 | no prefix starts another, so the order in which they are tried does not matter |
| `TextEvents.ZeroPaddedDecimal` | session.go:821-822 | a decimal number with a zero in front is read as itself if and only if it is below 8 |
| `Tokenizer.SplitArgs` | cmd/timeflip-demo/app.go:214-260 | the loop computes the run of the lexer and what is made of its last state |
| `Tokenizer.NoEmptyArguments` | cmd/timeflip-demo/app.go:214-260 | no empty argument is ever produced |
| `Tokenizer.SplitUndoesWriting` | cmd/timeflip-demo/app.go:214-260 | arguments written with escapes or in quotes, with white space between them, are split into exactly those arguments |
| `Tokenizer.OpenQuoteIsReported` | cmd/timeflip-demo/app.go:253-255 | a quote opened behind any arguments and not closed is an error that names it |
| `Tokenizer.DanglingBackslashStands` | cmd/timeflip-demo/app.go:250-252 | a backslash at the very end stands for itself |
| `Tokenizer.CompositionCondition` | cmd/timeflip-demo/app.go:214-260 | splitting `a`, a blank and `b` is splitting both and joining, for all `b`, if and only if `a` ends outside quotes and escapes |
| `LineEditor.LineEditor.ReadLine` | cmd/timeflip-demo/line_editor.go:21-89 | for every input, the line returned is that of the two-sided reference editor, and the history stays the last hundred of all submitted lines without repeats |
| `LineEditor.LineEditor.EditLine` | cmd/timeflip-demo/line_editor.go:64-86 | one key changes buffer, cursor and history place as the reference editor does, and both stay in range |
| `LineEditor.LineEditor.ReadEscape` | cmd/timeflip-demo/line_editor.go:91-140 | the arrow keys refine the reference editor |
| `LineEditor.LineEditor.Submit` | cmd/timeflip-demo/line_editor.go:57-63 | remembering a line keeps the history the last hundred of all submitted lines without repeats |
| `LineEditor.RememberingKeepsTheTail` | cmd/timeflip-demo/line_editor.go:57-63 | dropping old lines never changes a later decision about repeats |
| `LineEditor.RecallRestoresTheLine` | cmd/timeflip-demo/line_editor.go:99-124 | any run of arrow keys that starts and ends at the bottom of the history restores the line being typed |
| `LineEditor.UpRecalls` | cmd/timeflip-demo/line_editor.go:99-110 | going up recalls the submitted lines, newest first, and stops at the oldest |
| `LineEditor.DownGoesBack` | cmd/timeflip-demo/line_editor.go:111-124 | going down leads back to the next newer line, or to the one being typed |
| `LineEditor.EditedText` | cmd/timeflip-demo/line_editor.go:64-86 | seen as a text with a cursor: what typing, deleting and moving do at any place |
| `LineEditor.EnterReturnsTheLine` | cmd/timeflip-demo/line_editor.go:32-87 | whatever keys come before it, sent as their bytes, Enter returns the line they made, trimmed |
| `LineEditor.InterruptOnlyEndsEmptyLines` | cmd/timeflip-demo/line_editor.go:43-50 | an interrupt ends the session on an empty line and is ignored on any other |

## Left out

- Bluetooth itself: scanning, connecting, reading and writing through the operating system are arbitrary answers.
- Error text, operation names and the partial result returned beside an error; an error is its sentinel.
- Firmware number parsing: the version a firmware revision stands for is an arbitrary function (`infer`).
- The advertised name looked up for device information, and the text form of its values.
- Invalid protocol versions in a configuration or a connect request: the type has only the three valid ones.
- Timeouts as times: a context is an arbitrary error that may appear at any access; a clock runs only for the waits
  of polls and the authorization window.
- Session.Session.ReadAuthorizationResult: needs a positive interval; the code reads it from a constant of 50 ms.
- Session.Session.Authorize: the bound of 16 reads holds on a clock that does not run between making a poll timer
  and waiting for it. A program stalled there can find both the timer and the deadline ready, the choice between
  them is random, and a further read may follow.
- The mutexes inside the class `Session`: its methods are serial, and `CommandMutex` interleaves what they do.
- Several sessions or operating-system pairings at once on one device.
- The accelerometer polling stream, device listing and metadata copies.
- The subscription phase of `Events` and its dispatch by characteristic; the fan-in holds for any decoder.
- The library's table of lower case is a parameter of which only what concerns ASCII is known.
- Raw copies of payloads in events, receive times and device identifiers.
- What happens to a notification between the device and `deliver`, what a queued one says (a channel is the number in
  it), and errors when notifications are disabled.
- The terminal: raw mode, prompts, drawing and hidden echo; the editor reads its bytes from a given input.
- The commands, output formats and tracing of the demo.
