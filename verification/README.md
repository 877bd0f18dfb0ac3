# Verified model of the hdc data path

hdc moves typed messages and files between a host server and a device daemon. This Dafny 4.11 project models the layers
of that data path, each in the form its source has, and proves what each layer promises for all inputs, all runs and all
reachable states. `dafny verify dfyconfig.toml` checks the whole project.

| file | models | main results |
|---|---|---|
| `FileTransfer.dfy`, `TransferFaults.dfy`, `TransferProgress.dfy`, `TransferRuns.dfy`, `TransferSizes.dfy`, `TransferFiles.dfy`, `Transfer.dfy`, `TransferTask.dfy` | the file and directory transfer of `transfer.cpp` and `file.cpp`: two ends, two FIFO links, arbitrary read sizes, arbitrary moment and order of write completions, arbitrary outcome of every open, read, write and message and of every request for one | a file reported complete equals the source byte for byte; each file is opened once; at most one FINISH(0); every run ends; which runs end complete, which stall unnoticed and when the counters are right, each by an exact condition on what failed, was refused or got lost in the run; the read size both ends agree on; no file left open |
| `SessionFraming.dfy`, `ChannelFraming.dfy`, `Streaming.dfy` | the two in-place stream readers of `session.cpp` and `channel.cpp` | the result depends only on the bytes, not on how they are cut; the packets sent are the packets received; a read is never offered an empty buffer; every byte of a packet and what is read from any bytes |
| `Varint.dfy`, `WireMessages.dfy`, `IOPayload.dfy`, `DataPath.dfy` | the hand-written Protocol Buffers codec, the DATA payload with its reserved prefix, and the layers put together | the bytes of every message by the names of its members; round trips for every value with any zero padding; fields in any order, unknown, cut or too large; LZ4 used, declined or absent at either end, with the exact condition; pieces of a file from a recycled buffer through payload, packet and stream |
| `SessionRelease.dfy` | the FreeSession chain of `session.cpp` with two threads | one entry of FreeSessionContinue, one deletion, count equal to the callbacks outstanding, every call from any thread leads to the deletion, references accounted for from the start |
| `ForwardContexts.dfy`, `ForwardFlow.dfy` | the contexts and the data flow of `forward.cpp` | count equal to the live contexts, no double deletion, exactly when a stopped task gets released; no data for an unconnected peer; when a point ends and who is told of it; no byte repeated or reordered, and none lost exactly when every read was sent |
| `MemoryPool.dfy`, `CircleBuffer.dfy` | the two pools | the early break of Cleanup is exact; used and free partition the live blocks; a buffer in use is never handed out or reclaimed, and always starts zeroed |
| `TarHeader.dfy`, `TarArchive.dfy` | the tar writer and reader, laid out as in the "ustar Interchange Format" of the pax section of POSIX.1-2017 | archive round trip exactly when every name survives; every byte of an extracted file accounted for; every header byte, the standard checksum |
| `Tlv.dfy`, `StringTlv.dfy`, `CommandLine.dfy`, `Paths.dfy` | the TLV codecs, feature negotiation, argument tokenizer and path normaliser | round trips, sort-by-tag, negotiation exact, in-bounds writes, quotes anywhere in an argument, what ".." and "." do to a path, the sandbox test as a whole |
| `Bytes.dfy` | bytes, fixed-width integers, sequences of pieces | |

Where the source changes an object in place there is a class with those fields, and every method is proved against a
function of the old state; where it runs a loop there is a loop with its invariants. Protocols are state machines over
their events, with lemmas over every run.

What comes from outside is a parameter: clock readings, addresses returned by the allocators, results of libuv requests,
the verdict of the upper layer on a message, the outcome of opens and connects, LZ4 (a pair of functions that undo each
other and may decline), and which bytes a read returns.

Results that differ from what one might expect of the code:

- A name of 199 to 254 bytes loses its middle in a tar header and one of 255 or more is not stored; `TarHeader.NameKeptIff`
  gives the exact bound of 198. The content of such a file is looked for under the name that is left; when it is not
  found, the archive ends there, all later entries are lost and SaveToFile still succeeds: `TarArchive.ExtractedIff`,
  `TarArchive.LongNameLosesRest`.
- SendChannel sends an empty payload, but its length of zero is the reader's error mark: `ChannelFraming.FrameableIff`.
- When LZ4 is asked for and only one end has it, a piece can be refused or, worse, taken with wrong bytes:
  `IOPayload.ReceivedIff` gives the exact condition, `IOPayload.PackedForPlain` and `IOPayload.PlainForPacked` what
  happens outside it.
- An empty list of stored entries gives an empty file, which is refused as no tar file: `TarArchive.ExtractedIff`.
- With the root as application directory the sandbox test accepts only the root itself: `Paths.InsideIff`.
- A file transfer stops for ever with neither end finished when a request for a next read or for an open is refused or
  when a piece or a control message (CHECK, BEGIN, FINISH) cannot be sent, because nobody looks at those results:
  `TransferRuns.StalledIff` gives the exact condition, `TransferRuns.RefusedOpenStalls` the simplest such run. A task
  whose open was refused also keeps its reference count, so that it is never ready for release:
  `TransferTask.Task.ReadyForRelease`.
- Bytes read from a forwarded connection are dropped, with both ends going on, when they cannot be sent:
  `ForwardFlow.NothingLostIff` gives the exact condition, `ForwardFlow.UnsentReadLeavesHole` the hole it leaves.
- A forward context whose id was taken by another is not freed when its task is stopped, and the task is never released:
  `ForwardContexts.ReleasedIff`, `ForwardContexts.Task.StopTask`.
- TlvBuf adds up its size in 32 bits: `Tlv.TlvBuf.GetBufSize` is right exactly below 4 GiB.
- A file whose read or write fails is counted all the same: `TransferRuns.CountersRightIff`. Unlike a failed open, such
  an error ends the transfer of the whole directory: `TransferRuns.FaultIsFinal`.
- A reference to a session can still be taken between the tick that found none and the deletion:
  `SessionRelease.RefAtDeletion`; `SessionRelease.RefAtDeletionIff` says exactly when one is left.

## Model

| member | source | states |
|---|---|---|
| TransferRuns.CompletedFileIsTheSource | src/common/transfer.cpp:269-355 | in every run, whatever fails, is refused or gets lost in it, the write callback after which the slave has closeNotify set and no error leaves a file equal to the source, no request in progress at either end, no data on its way and FINISH(1) sent; empty files included |
| TransferRuns.EveryFileCopied | src/common/file.cpp:634-690 | a run that cannot go on, single file or directory, in which every open succeeded and nothing failed, was refused or got lost has left the slave with every file of the list, with exactly the bytes of the source, all counted, and with the summary |
| TransferRuns.CompleteIff | src/common/file.cpp:634-690 | and only then: a run that cannot go on ends with the slave finished and every file of the list copied if and only if no open failed, no file IO failed or was refused, SlaveCheck accepted every file and no open request or message was lost |
| TransferRuns.OpenedOnceCopiedIntact | src/common/file.cpp:589-690 | in every run with any pattern of failures, files are opened once each in queue order, the next only after the one before has its outcome, and copied files stay intact |
| TransferRuns.CountersRightIff | src/common/file.cpp:355-362 | in every run fileCnt and dirSize are the number and byte sum of the files copied if and only if no read and no write failed in it; a failed file is counted by the end at which it failed |
| TransferRuns.OneEnd | src/common/file.cpp:664-682 | FINISH(0) is handed to SendToAnother by the master at most once, with the queue empty and every file dealt with |
| TransferRuns.FinishShortensQueue | src/common/file.cpp:664-682 | each FINISH(1) handled by the master takes exactly one file off the queue and opens it, or ends the transfer with the one FINISH(0) |
| TransferRuns.StuckMeansDone | src/common/file.cpp:634-690 | a run that cannot go on has dealt with every file and been finished by one of the ends if and only if nothing in it failed, was refused or got lost, failed opens apart; then a directory has its summary, and so has a single file that opened |
| TransferRuns.StalledIff | src/common/transfer.cpp:304-329 | a run that cannot go on has left both ends unfinished, so that nobody learns of it, if and only if a next read or an open was refused or a piece or a control message could not be sent in it and no write failed or was refused |
| TransferRuns.RefusedOpenStalls | src/common/file.cpp:72-88 | for every list of files, a first open that libuv does not take leaves both ends unfinished with nothing in progress and nothing logged |
| TransferRuns.FaultIsFinal | src/common/transfer.cpp:331-355 | after an error, a refusal or a loss no further file is opened, copied or taken off the queue and the slave never comes to the summary, whatever follows; every file has its outcome by then only if a FINISH was lost |
| TransferRuns.RunFaults | src/common/transfer.cpp:331-355 | a run is in one of its regular phases exactly as long as it has no error, refusal or loss in it |
| TransferProgress.StepNearer | src/common/transfer.cpp:304-355 | every step of every run, errors, refusals and losses included, strictly lowers a lexicographic rank, so no run goes on for ever |
| TransferRuns.RunsToTheEnd | src/common/transfer.cpp:441-600 | from every reachable state without an error the transfer can be run to its end, and from every other to a standstill |
| TransferFaults.StepKeepsInv | src/common/transfer.cpp:331-600 | the invariant of the protocol, phase by phase and after errors, is kept by every event |
| TransferFaults.FaultStops | src/common/transfer.cpp:331-409 | an error or refusal in the data phase leaves the current file without an outcome for good |
| TransferFaults.WriteFailureStops | src/common/transfer.cpp:331-409 | a failed or short write makes the slave finish its task, report the end and count a file it does not have; the files copied before keep their contents |
| TransferFaults.ReadFailureStops | src/common/transfer.cpp:331-355 | a failed read is on its way to the slave as FINISH(1) behind the data already sent, which cannot complete the file |
| TransferFaults.DataRefusedStops | src/common/transfer.cpp:1014-1029 | a refused write loses its piece and finishes the slave's task; the bytes still to come cannot complete the file |
| TransferFaults.BeginRefusedStops | src/common/transfer.cpp:995-1013 | a refused first read finishes the master's task with nothing read |
| TransferFaults.CutStops | src/common/file.cpp:340-362 | a refused open, a lost CHECK, BEGIN or FINISH or a file that SlaveCheck turns down leaves nothing in progress at either end; only the last finishes a task |
| TransferFaults.HaltedAnswered | src/common/transfer.cpp:269-289 | after a failed read the master finishes its task exactly if neither the FINISH(1) to the slave nor the FINISH(0) in answer is lost, as long as the slave goes on |
| TransferRuns.HaltedCompletesNothing | src/common/transfer.cpp:269-302 | after an error or refusal no write callback reports a complete file |
| TransferRuns.RunKeepsInv | src/common/transfer.cpp:331-600 | the invariant holds after every run |
| FileTransfer.LastWritten | src/common/transfer.cpp:291-302 | when the running byte count reaches the size, the slave's file is the source and nothing is outstanding |
| FileTransfer.CountTellsAll | src/common/transfer.cpp:291-302 | the byte count alone decides: no write and no data can be left when it reaches the size, because every piece is nonempty |
| FileTransfer.ReadOnTheWay | src/common/transfer.cpp:304-329 | a piece read is on its way: no byte read so far is lost |
| FileTransfer.TakenNothingLost | src/common/transfer.cpp:907-974 | taking a DATA message turns it into a write request without losing a byte |
| FileTransfer.AppliedNothingLost | src/common/transfer.cpp:132-149 | a positioned write that reaches the file in any order lands its bytes and damages none |
| FileTransfer.MasterOpenFailedKeeps | src/common/transfer.cpp:466-479 | a failed open at the master goes on with the next file, ends the directory, or ends a single-file task |
| FileTransfer.SlaveOpenedKeeps | src/common/transfer.cpp:466-600 | an open at the slave, failed or not, keeps the protocol invariant |
| FileTransfer.FinishTakenKeeps | src/common/file.cpp:664-682 | handling FINISH(1) opens the next file or sends FINISH(0) |
| TransferRuns.DataIsAPiece | src/common/transfer.cpp:304-329 | data on its way is a piece of the current file at its offset, no larger than one read |
| TransferSizes.ReadSizeAgreed | src/common/transfer.cpp:1048-1075 | in every run, from what the two ends are set to: if either wants the stable buffer every read in progress asks for 49152 bytes and no piece on its way is larger, if neither does for 418611; a BEGIN on its way carries the setting of the slave |
| TransferSizes.BeginKeepsReads | src/common/transfer.cpp:1055-1075 | taking BEGIN settles on the stable size as soon as one end wants it |
| TransferFiles.FilesClosed | src/common/transfer.cpp:505-600 | in every run without an error, a refusal or a loss the slave has its file open exactly from its open to the last write, the master none while it opens the next, and neither has one once FINISH(0) was sent |
| TransferFiles.ErrnoRecorded | src/common/transfer.cpp:331-355 | in every run the number recorded for a failed read or write is the one reported, and the fixed one for a short write |
| TransferFiles.FailedCounted | src/common/file.cpp:355-362 | in every run a failed file is counted once, with the bytes read or written before the failure |
| TransferFiles.CheckMakesDir | src/common/transfer.cpp:724-743 | the slave takes part in a directory transfer from the first name with a separator of either kind on |
| TransferFiles.StartsIff | src/common/transfer.cpp:102-116 | a file request starts exactly when the file is not finished and it has at most 62400 or 524224 bytes |
| FileTransfer.WriteAt | src/common/transfer.cpp:132-149 | a positioned write: its bytes at their offset, everything else unchanged, zeros in a gap |
| TransferTask.Task.SimpleFileIO | src/common/transfer.cpp:77-168 | a request starts exactly when size, state, pool and libuv allow it; it then owns one fresh buffer and one count, and on every refusal neither |
| TransferTask.Task.OnFileIO | src/common/transfer.cpp:441-464 | every completion, good or bad, does to the context what Transfer says, gives the buffer back once and drops the count; count and ownership invariant kept |
| TransferTask.Task.ProcressFileIO | src/common/transfer.cpp:331-355 | the decision whether the file is finished, for finished, failed, read and write requests |
| TransferTask.Task.ProcressFileIORead | src/common/transfer.cpp:304-329 | the piece is sent with its offset, and the next read starts exactly when bytes are left |
| TransferTask.Task.ProcressCounted | src/common/transfer.cpp:291-302 | the slave's completion rule by byte count |
| TransferTask.Task.ProcressFileIOFinish | src/common/transfer.cpp:269-289 | file closed, end reported once on either path, count balanced |
| TransferTask.Task.Release | src/common/transfer.cpp:441-464 | the request's buffer and no other leaves the set in use |
| TransferTask.Task.OnFileOpen | src/common/transfer.cpp:505-600 | context reset and CHECK or BEGIN handed on after success, the failure path otherwise, with the open of a next file taken by libuv or not; count invariant kept |
| TransferTask.Task.OnFileOpenFailed | src/common/transfer.cpp:466-479 | next file, FINISH(1) to the master, or end of the task, by role |
| TransferTask.Task.TransferNext | src/common/file.cpp:589-632 | the last name of the queue is taken off and made current; its open is in progress, or, when libuv does not take it, counted and never called back |
| TransferTask.Task.RequestOpen | src/common/file.cpp:564-587 | the count is raised whether libuv takes the open or not; only an open that was taken will lower it |
| TransferTask.Task.FinishCommand | src/common/file.cpp:664-685 | FINISH(1), with the next open taken or not, and FINISH(0) |
| TransferTask.Task.WhenTransferFinish | src/common/file.cpp:355-362 | the two counters and FINISH(1) |
| TransferTask.Task.CommandDispatch | src/common/transfer.cpp:989-1037 | CHECK with its open taken or not, BEGIN with its feature bit, DATA and FINISH, with every refusal the source looks at ending the task |
| TransferTask.Task.FreeMemory | src/common/circle_buffer.cpp:96-119 | no request loses its buffer to the reclaiming thread |
| TransferTask.Task.ReadyForRelease | src/common/task.cpp:43-46 | true exactly when no open and no file request is in progress, no buffer in use and every open was taken; no method lowers the number of opens not taken |
| SessionFraming.PacketStream | src/common/session.cpp:1011-1221 | for every list of packets no larger than the buffer and every cut of their bytes: handed up exactly and in order, the buffer is the unfinished suffix, and there is room for another byte |
| SessionFraming.SentPacketFrameable | src/common/session.cpp:1011-1139 | a sent packet is recognised exactly when its last byte has arrived, with channel, command and data intact |
| SessionFraming.PacketsStable | src/common/session.cpp:1110-1139 | bytes that arrive later never change a decision already taken |
| SessionFraming.ParseSound | src/common/session.cpp:1082-1139 | whatever the bytes, a packet handed up begins with the flag, its sizes add up to what is consumed, its command fits 16 bits and its data is the end of those bytes |
| SessionFraming.ParsePacket | src/common/session.cpp:1110-1139 | a recognised packet has a head and lies wholly inside the buffer |
| SessionFraming.PacketBytes | src/common/session.cpp:1011-1080 | every packet on the wire: "HW", zeros, version 1, the sizes most significant byte first as arithmetic on the bytes, channel and command under fields 1 and 2, checksum 0 and code 9 under 3 and 4, then the data |
| SessionFraming.ReadExactly | src/common/session.cpp:1082-1139 | what the reader makes of any bytes, by arithmetic on the head: more needed, an error for a wrong flag, size or version code, or exactly which packet |
| SessionFraming.Session.FetchIOBuf | src/common/session.cpp:1142-1189 | the loop delivers what draining the buffered bytes means, keeps exactly the unconsumed suffix, stops when the session dies, empties the buffer on a bad stream, and changes nothing on a read error |
| SessionFraming.Session.OnRead | src/common/session.cpp:1082-1139 | one packet: not enough yet, bad or refused, or handed up and consumed |
| SessionFraming.Session.TakeOne | src/common/session.cpp:1162-1178 | one turn of the loop moves the index and the tail so that what is still to be delivered is unchanged |
| SessionFraming.Session.Compact | src/common/session.cpp:1179-1187 | memmove of the rest to the front and zeros behind it |
| SessionFraming.Session.AllocCallback | src/common/session.cpp:1214-1221 | never more than the free tail is offered, and something exactly when there is room and the size wanted is a positive int; contents kept when the buffer is first allocated |
| SessionFraming.Session.ReadOnce | src/common/session.cpp:1142-1221 | one read of the event loop has the effect of feeding its bytes |
| SessionFraming.Session.Receive | src/common/session.cpp:1142-1221 | the event loop over a whole stream ends, with any read sizes, and the packets fetched are the packets sent |
| ChannelFraming.PayloadStream | src/common/channel.cpp:140-225 | every list of nonempty payloads that fit, under every chunking, reaches ReadChannel exactly and in order, keeping only the unfinished suffix |
| ChannelFraming.FrameableIff | src/common/channel.cpp:403-440 | a payload is recovered if and only if it is nonempty and its framed size fits an int |
| ChannelFraming.LengthFirst | src/common/channel.cpp:403-440 | on the wire four bytes of length come first, most significant first as arithmetic on the bytes, and then the payload |
| ChannelFraming.ReadExactly | src/common/channel.cpp:180-208 | what the reader makes of any bytes, by the number in the first four |
| ChannelFraming.PayloadsStable | src/common/channel.cpp:180-208 | bytes that arrive later never change a decision already taken |
| ChannelFraming.Channel.ReadStream | src/common/channel.cpp:140-225 | for every value libuv may pass: payloads delivered, suffix kept, channel freed exactly on a read error, a bad length or a refused payload |
| ChannelFraming.Channel.TakeOne | src/common/channel.cpp:180-208 | one turn of the loop, keepAlive included |
| ChannelFraming.Channel.AllocCallback | src/common/channel.cpp:461-481 | the free tail cut to what is wanted, an empty offer exactly when the buffer is full |
| ChannelFraming.Channel.Receive | src/common/channel.cpp:140-225 | the event loop over a whole stream ends and the payloads read are the payloads sent |
| Streaming.ChunkIndependence | src/common/session.cpp:1142-1189 | for every byte stream, well-formed or not, what is delivered, how the run ends and what is kept depend on the bytes alone |
| Streaming.FramedStream | src/common/session.cpp:1142-1189 | the generic statement both readers instantiate |
| Streaming.DrainKeepsSuffix | src/common/session.cpp:1142-1189 | what the loop keeps is a suffix of what it was given |
| Streaming.LeadsToDrain | src/common/session.cpp:1162-1180 | a loop that goes on turn by turn from any index of its buffer ends with what the decoding of the bytes says, whatever the parser of the heads and the verdicts of the upper layer |
| WireMessages.WireMessageRoundTrip | src/common/serial_struct.h:38-107 | every value of the six wire messages, followed by any number of zero bytes, parses back to itself |
| WireMessages.RoundTrip | src/common/serial_struct_define.h:557-718 | the same for every well-formed descriptor |
| WireMessages.ParseEntries | src/common/serial_struct_define.h:697-718 | fields in any order and repeated: the last value of each field wins, zero padding changes nothing |
| WireMessages.CollectedSizeIsLength | src/common/serial_struct_define.h:243-249 | the size collector's count is the number of bytes written |
| WireMessages.WriteMessage | src/common/serial_struct_define.h:557-561 | the writer's loop over the fields produces the serialization |
| WireMessages.ReadMessage | src/common/serial_struct_define.h:708-718 | the reader's loop over tags and fields is the parse, on every input |
| WireMessages.DescriptorsValid | src/common/serial_struct.h:38-107 | the six descriptors have distinct tags in range |
| WireMessages.Layout | src/common/serial_struct_define.h:557-561 | a message is its fields one after another under the numbers 1, 2, 3, ...: key 8k and digits for a number, key 8k+2, length and characters for a text |
| WireMessages.LoneField | src/common/serial_struct_define.h:697-718 | a lone field sets the member of its number and no other |
| WireMessages.WideNumber | src/common/serial_struct_define.h:697-718 | a number too large for its member is cut to its low bits, or to whether it is zero |
| WireMessages.UnknownKey | src/common/serial_struct_define.h:697-718 | of a field of an unknown number only the key is skipped |
| WireMessages.OtherWire | src/common/serial_struct_define.h:697-718 | and of a field of another wire type |
| WireMessages.LongText | src/common/serial_struct_define.h:697-718 | a text that says it is longer than 10 MiB is skipped with its length |
| WireMessages.CutText | src/common/serial_struct_define.h:697-718 | a text whose end is missing takes the length it says, filled from what the member held and with zeros |
| WireMessages.TransferConfigBytes | src/common/serial_struct.h:38-55 | which member of the CHECK travels under which number |
| WireMessages.TransferConfigNumber | src/common/serial_struct.h:38-55 | which member a lone number sets |
| WireMessages.TransferConfigText | src/common/serial_struct.h:38-55 | which member a lone text sets |
| WireMessages.TransferConfigRoundTrip | src/common/serial_struct.h:38-55 | read into any struct it gives the same members |
| WireMessages.FileModeBytes | src/common/serial_struct.h:57-66 | which member of a file mode travels under which number |
| WireMessages.FileModeNumber | src/common/serial_struct.h:57-66 | which member a lone number sets |
| WireMessages.FileModeText | src/common/serial_struct.h:57-66 | which member a lone text sets |
| WireMessages.FileModeRoundTrip | src/common/serial_struct.h:57-66 | read into any struct it gives the same members |
| WireMessages.SessionHandShakeBytes | src/common/serial_struct.h:78-88 | which member of a handshake travels under which number |
| WireMessages.SessionHandShakeNumber | src/common/serial_struct.h:78-88 | which member a lone number sets |
| WireMessages.SessionHandShakeText | src/common/serial_struct.h:78-88 | which member a lone text sets |
| WireMessages.SessionHandShakeRoundTrip | src/common/serial_struct.h:78-88 | read into any struct it gives the same members |
| WireMessages.HeartbeatMsgBytes | src/common/serial_struct.h:100-107 | which member of a heartbeat travels under which number |
| WireMessages.HeartbeatMsgRoundTrip | src/common/serial_struct.h:100-107 | read into any struct it gives the same members |
| WireMessages.HeartbeatMsgNumber | src/common/serial_struct.h:100-107 | which member a lone number sets |
| WireMessages.HeartbeatMsgText | src/common/serial_struct.h:100-107 | which member a lone text sets |
| WireMessages.TransferPayloadBytes | src/common/serial_struct.h:68-76 | index, compressType, compressSize and uncompressSize under fields 1 to 4, as bytes |
| WireMessages.TransferPayloadMember | src/common/serial_struct.h:68-76 | which of them a lone field sets |
| WireMessages.PayloadProtectBytes | src/common/serial_struct.h:90-98 | channelId, commandFlag, checkSum and vCode under fields 1 to 4, as bytes |
| WireMessages.PayloadProtectMember | src/common/serial_struct.h:90-98 | which of them a lone field sets |
| WireMessages.TransferPayloadRoundTrip | src/common/transfer.cpp:907-919 | a TransferPayload in a zero-padded prefix parses back to itself |
| WireMessages.TransferPayloadLength | src/common/transfer.cpp:253-260 | the head takes at most 26 bytes |
| WireMessages.PayloadProtectRoundTrip | src/common/session.cpp:1082-1092 | a PayloadProtect parses back to itself |
| WireMessages.PayloadProtectLength | src/common/session.cpp:1021-1037 | it takes between 1 and 18 bytes |
| Varint.DecodeEncode | src/common/serial_struct_define.h:280-357 | reading what was written gives the value back and consumes exactly its bytes, for all 32- and 64-bit values |
| Varint.EncodeLength | src/common/serial_struct_define.h:280-313 | a value below 128 to the n takes at most n bytes |
| Varint.EncodeMeans | src/common/serial_struct_define.h:280-313 | the bytes written are the base-128 digits of the value, least significant first, the top bit on all but the last, without a leading zero digit |
| Varint.DecodeMeans | src/common/serial_struct_define.h:321-357 | any run of digits, canonical or not, reads as the number it writes cut to the width |
| Varint.DecodeOpen | src/common/serial_struct_define.h:321-357 | without a last digit among the first five or ten bytes the read fails and consumes them |
| Varint.WriteVarint | src/common/serial_struct_define.h:280-313 | the digit loop writes the encoding |
| Varint.StringReader.ReadVarint | src/common/serial_struct_define.h:321-357 | the reading loop, on every input, with the partial value and the position it leaves on failure |
| Varint.StringReader.Read | src/common/serial_struct_define.h:1237-1259 | at most the bytes that are left, and the cursor behind them |
| Varint.MakeZigzag | src/common/serial_struct_define.h:213-221 | the shift and the bitwise xor with the sign mask give 2v or -2v-1 |
| Varint.ReadZigzag | src/common/serial_struct_define.h:223-231 | the shift and the bitwise xor with the negated low bit invert MakeZigzag on every unsigned value of the width |
| Varint.ZigzagRoundTrip | src/common/serial_struct_define.h:213-231 | and the other way round: the two are inverse bijections |
| IOPayload.PieceRoundTrip | src/common/transfer.cpp:201-267 | RecvIOPayload recovers exactly the offset and bytes given to SendIOPayload, whether LZ4 packs, declines or is absent |
| IOPayload.RecvSound | src/common/transfer.cpp:907-974 | whatever the bytes, what comes of them fits one IO buffer and, unless unpacked, is the part right behind the prefix |
| IOPayload.ReceivedIff | src/common/transfer.cpp:907-974 | for every sender, receiver, compression type and piece, the offset and bytes come back if and only if the two builds understand each other: LZ4 not asked for, neither or both ends with it, declined, or the piece its own packed form |
| IOPayload.PackedForPlain | src/common/transfer.cpp:926-940 | a receiver without LZ4 refuses packed bytes of another size and takes those of the same size for the bytes of the file |
| IOPayload.PlainForPacked | src/common/transfer.cpp:221-250 | plain bytes marked as packed are refused or replaced by what they unpack to; data that is itself a packed form of the same size is replaced |
| IOPayload.SendIOPayload | src/common/transfer.cpp:210-267 | the bytes sent are head, zeros and body, whichever buffer they are built in; the data of the buffer is not touched |
| IOPayload.HeadFits | src/common/transfer.cpp:253-260 | the size test on the head never fails |
| IOPayload.HeadedBytes | src/common/transfer.cpp:201-267 | the bytes of a payload: offset, kind and both sizes under fields 1 to 4, zeros up to byte 64, the body |
| IOPayload.PieceBytes | src/common/transfer.cpp:201-267 | a piece of a file puts its offset, the kind, the size of what is sent and its own size into the head, and what is sent is never larger |
| IOPayload.RecvOther | src/common/transfer.cpp:907-974 | bytes behind the body are ignored, and a message that ends before it is refused |
| IOPayload.RecvTooLarge | src/common/transfer.cpp:907-974 | nothing larger than an IO buffer is taken |
| IOPayload.RecvHeaded | src/common/transfer.cpp:907-974 | what is received from any head and body that agree in size |
| DataPath.PiecesArrive | src/common/transfer.cpp:210-267 | any list of pieces through payload, packet and byte stream under any cut arrives as the same offsets and bytes |
| DataPath.SendPooled | src/common/transfer.cpp:77-168 | a piece sent from a buffer of the pool, recycled dirty ones included, is received as its offset and bytes, and the pool is left with the same buffers in use |
| DataPath.PacketFits | src/common/session.cpp:1011-1080 | every piece fits a packet and every such packet the receive buffer |
| DataPath.ProtocolDataCarriable | src/common/transfer.cpp:304-329 | whatever the protocol has on its way can be carried like this |
| SessionRelease.ReleaseAlways | src/common/session.cpp:627-773 | in every run with any number of FreeSession calls: one entry of FreeSessionContinue at most, only when dead, unreferenced at a tick and the worker cleared if it ran; uvHandleRef is the callbacks outstanding; unmapped and deleted together, once, at zero, with nothing left scheduled |
| SessionRelease.ReleaseCompletes | src/common/session.cpp:627-773 | once FreeSession has been called, on whichever thread, the release can always be completed: no state is stuck |
| SessionRelease.AskedIsDead | src/common/session.cpp:747-773 | in every run the session is dead, or a message that will make it so is on its way, if and only if someone called FreeSession |
| SessionRelease.HandlesAlways | src/common/session.cpp:662-702 | in every run: three handles for TCP and two otherwise, all counted until the release closes them; worker and early closes as they happened |
| SessionRelease.RefAlways | src/common/session.cpp:853-860 | in every run ref is the references taken less those dropped, from the start |
| SessionRelease.DeletedForGood | src/common/session.cpp:747-773 | no later event touches a deleted session |
| SessionRelease.RefAtDeletionIff | src/common/session.cpp:704-745 | in every run, from the tick that found no reference on, ref is the references taken less those dropped since; so a session is deleted without one if and only if each taken after that tick was dropped, and in particular if none was taken |
| SessionRelease.RefAtDeletion | src/common/session.cpp:853-860 | a run in which a reference taken after that tick is still held at the deletion |
| SessionRelease.StepKeepsInv | src/common/session.cpp:627-773 | the release invariant is kept by every event of either thread |
| SessionRelease.CloseAllKeeps | src/common/session.cpp:662-702 | every handle of the session is closing, or done if someone had closed it before, and the count is that of the callbacks to come |
| SessionRelease.Session.FreeSession | src/common/session.cpp:747-773 | the release invariant is kept; afterwards a mapped session is dead with its release under way, and any call but the first changes nothing |
| SessionRelease.Session.AsyncMainLoopTask | src/common/session.cpp:326-342 | the message of another thread starts the release on the main thread, like a call there |
| SessionRelease.Session.FreeSessionOpeate | src/common/session.cpp:704-745 | the invariant is kept; the timer goes on exactly while USB is busy or a reference is held, and otherwise the handles are closed for the first time or the worker is waited for |
| SessionRelease.Session.CheckFreeSessionContinue | src/common/session.cpp:728-740 | the invariant is kept; the handles are closed, for the first time, exactly when the worker is cleared |
| SessionRelease.Session.FreeSessionContinue | src/common/session.cpp:662-702 | entered with no entry before; leaves every handle with its callback behind it or to come and the count equal to those to come |
| SessionRelease.Session.TryCloseHandle | src/common/base.cpp:1059-1070 | the count stays that of the callbacks outstanding, and falls exactly when someone had closed the handle before |
| SessionRelease.Session.CloseCallback | src/common/session.cpp:664-674 | the count stays that of the callbacks outstanding; no handle is counted down twice |
| SessionRelease.Session.HandleClosed | src/common/session.cpp:664-674 | a close callback run by the event loop keeps the release invariant, and the count never falls below zero |
| SessionRelease.Session.FreeSessionFinally | src/common/session.cpp:627-659 | the invariant is kept; the session is unmapped and deleted, once, exactly when the callbacks of all its handles have run |
| ForwardContexts.ContextsAlways | src/common/forward.cpp:34-60 | in every run, with any ids: refCount is contexts created less deleted, none is deleted twice, every lookup leads to a live one, and the task is not ready for release while a deletion is queued |
| ForwardContexts.ReleasedIff | src/common/forward.cpp:34-60 | in every run the close callbacks and deferred deletions that are due can make the task ready for release if and only if every context has been freed |
| ForwardContexts.FreeTwice | src/common/forward.cpp:209-253 | freeing again changes nothing, whichever way the context is reached |
| ForwardContexts.FreedById | src/common/forward.cpp:209-253 | freeing by id frees the context the id leads to, telling the peer of that id once, and nothing if it leads nowhere |
| ForwardContexts.IdTaken | src/common/forward.cpp:904-930 | a context that takes over an id is found under it and no longer under its old one; all others stay |
| ForwardContexts.StepKeepsInv | src/common/forward.cpp:132-253 | the context invariant is kept by every event |
| ForwardContexts.Task.MallocContext | src/common/forward.cpp:132-148 | the invariant is kept; the context is one that never existed before, is found under its id and counted, and the others are untouched |
| ForwardContexts.Task.FreeContext | src/common/forward.cpp:209-253 | the invariant is kept; the first call finishes the context, tells the peer exactly if asked to, and queues the deletion at once or leaves it to the close callback; any other call changes nothing |
| ForwardContexts.Task.FreeContextCallBack | src/common/forward.cpp:150-164 | the invariant is kept; the context is queued for deletion, once, and stays counted |
| ForwardContexts.Task.DeleteNext | src/common/forward.cpp:150-164 | the invariant is kept; the context is deleted for the first time, no id leads to it any more, and the task becomes ready for release exactly when it was the last |
| ForwardContexts.Task.StopTask | src/common/forward.cpp:43-60 | a run of the events: the map is cleared and exactly the mapped contexts are freed, without notification; then every context is freed if and only if each was mapped or freed before |
| ForwardFlow.NoDataForUnconnected | src/common/forward.cpp:1004-1058 | in every run, data a slave takes for a point it has is for a connected one, and data a master takes is for a connection it has begun |
| ForwardFlow.MasterLife | src/common/forward.cpp:876-1058 | at the master a point comes into being by an accepted client and ends exactly by a freeing, FREE_CONTEXT, a read that does not start or a write that fails; the slave is told exactly then, unless it told or nobody is to be told |
| ForwardFlow.SlaveLife | src/common/forward.cpp:364-388 | the same at the slave, from ACTIVE_SLAVE on |
| ForwardFlow.MasterReadsFrom | src/common/forward.cpp:876-902 | the master reads a client exactly from ACTIVE_MASTER on, if the read starts |
| ForwardFlow.GoneForGood | src/common/forward.cpp:209-253 | a point that is gone stays gone at either end, whatever follows |
| ForwardFlow.BytesConserved | src/common/forward.cpp:293-315 | in every run and for every connection, what reached a socket is the first part of the reads at the other end that SendToTask took, and while the writing end lives the rest of them is on its way |
| ForwardFlow.NothingLostIff | src/common/forward.cpp:293-315 | in every run and either direction, while the writing end lives, written and on its way is all that was read if and only if SendToTask took every read; with every read taken what reached a socket is always the first part of what was read |
| ForwardFlow.UnsentReadLeavesHole | src/common/forward.cpp:293-315 | a read that is not taken followed by one that is: the target gets the second without the first, and both ends are as before |
| ForwardFlow.EstablishedIsReached | src/common/forward.cpp:364-388 | a run from the start to a connection that both ends read, in which that can happen |
| ForwardFlow.StepKeepsInv | src/common/forward.cpp:364-388 | activation before data on both links, kept by every event |
| ForwardFlow.StepConserves | src/common/forward.cpp:945-1058 | conservation of the bytes sent, kept by every event, lost requests and notifications included |
| ForwardFlow.ConnectedKeeps | src/common/forward.cpp:364-388 | ACTIVE_MASTER goes out before the slave starts reading |
| ForwardFlow.ActivationTaken | src/common/forward.cpp:876-902 | the master begins a connection when ACTIVE_MASTER arrives |
| ForwardFlow.AcceptKeeps | src/common/forward.cpp:62-97 | an accepted client is announced and not yet read |
| MemoryPool.Pool.Cleanup | src/common/memory_pool.cpp:112-136 | exactly the blocks older than the cutoff go back to the heap, and the lists keep the others in order |
| MemoryPool.EarlyBreakExact | src/common/memory_pool.cpp:121-128 | stopping at the first young block is exact if and only if no old block stands behind a young one |
| MemoryPool.SortedScan | src/common/memory_pool.cpp:121-128 | which sorted lists guarantee |
| MemoryPool.PurgedMeans | src/common/memory_pool.cpp:112-136 | a block stays in its list exactly if it was freed at most three minutes ago, and no empty list is left |
| MemoryPool.Pool.Allocate | src/common/memory_pool.cpp:22-54 | the youngest free block of the size, else new memory; never a block in use; partition kept |
| MemoryPool.Pool.Reuse | src/common/memory_pool.cpp:30-44 | the block moves from the end of its list to the used map, an emptied list goes |
| MemoryPool.Pool.Deallocate | src/common/memory_pool.cpp:56-72 | the block goes to the end of its list with the current time, an unknown address is ignored; lists stay sorted |
| MemoryPool.Pool.PurgeList | src/common/memory_pool.cpp:121-128 | the erase loop keeps exactly the young blocks |
| CircleBuffer.Buffers.Malloc | src/common/circle_buffer.cpp:44-76 | the idle buffer of lowest address, else a new one; zeroed, not in use before, all others unchanged |
| CircleBuffer.Buffers.Free | src/common/circle_buffer.cpp:78-94 | that buffer and no other becomes idle |
| CircleBuffer.Buffers.FreeMemory | src/common/circle_buffer.cpp:96-119 | exactly the buffers idle for more than five whole seconds go; none in use |
| CircleBuffer.RetainedKeepsUse | src/common/circle_buffer.cpp:96-119 | reclaiming leaves the buffers in use as they are |
| CircleBuffer.RetainedIff | src/common/circle_buffer.cpp:96-119 | a buffer stays exactly if it is in use or has been idle for less than six seconds |
| TarArchive.ArchiveRoundTrip | src/common/decompress.cpp:23-75 | extracting what SaveToFile wrote gives the same files and directories in order, with names and contents, for every list whose stored entries have traversal-free names of at most 198 bytes; it succeeds if and only if some entry was stored |
| TarArchive.ExtractedIff | src/common/decompress.cpp:23-75 | for every list of entries: extraction gives back exactly the entries stored if and only if each of them has a name of at most 198 bytes without a component ".." |
| TarArchive.LongNameLosesRest | src/common/entry.cpp:227-264 | a nonempty file whose read-back name cannot be opened sets the fail bit: the archive ends with its header, and extraction gives the entries before it and an error |
| TarArchive.ExtractedSize | src/common/decompress.cpp:23-75 | a file extracted without an error, whatever wrote it, is accounted for to the last byte by its entries and their padding |
| TarArchive.SavedSize | src/common/entry.cpp:227-264 | what SaveToFile writes has the size of its stored entries in whole blocks, if their names have at most 198 bytes |
| TarArchive.StoredChecksum | src/common/header.cpp:150-175 | every header written carries the sum of its bytes with the checksum field as spaces |
| TarArchive.EntryBytes | src/common/entry.cpp:227-264 | an entry byte by byte: name at 0 and its front at 345 when it is long, octal size at 124, type at 156, "ustar" at 257, content and zeros from 512 on |
| TarArchive.DecodeExactly | src/common/decompress.cpp:23-75 | what is extracted from any bytes, by the bytes of the first header |
| TarArchive.PayloadToFile | src/common/entry.cpp:143-202 | the content is written, exactly its size rounded up to 512 is consumed, and every read fits the 4096-byte buffer |
| TarArchive.LastPiece | src/common/entry.cpp:170-175 | the rounded rest of a payload |
| TarArchive.DecompressToLocal | src/common/decompress.cpp:23-75 | the size test and the extraction loop are the decoding, on every input |
| TarArchive.WriteToTar | src/common/entry.cpp:227-264 | header, the content found under the name read back from the header, and padding; nothing for an invalid type; the fail bit set when no content is found, and nothing written behind it |
| TarArchive.NewEntry | src/common/entry.cpp:36-64 | type, size and name of a new entry |
| TarArchive.SaveToFile | src/common/compress.cpp:89-115 | the entries one after another into one stream, whatever becomes of them |
| TarHeader.NameKeptIff | src/common/header.cpp:51-95 | a name survives if and only if it has at most 198 bytes |
| TarHeader.LongNameCut | src/common/header.cpp:65-95 | what comes back of a name of 199 to 254 bytes |
| TarHeader.ChecksumIsStandard | src/common/header.cpp:150-166 | the stored number is the standard's checksum |
| TarHeader.OctalRoundTrip | src/common/header.cpp:25-30 | a number that fits takes exactly the width and reads back as itself |
| TarHeader.SizeKept | src/common/header.cpp:97-125 | sizes below 8 GiB survive |
| TarHeader.ImageRoundTrip | src/common/header.cpp:168-175 | the fields are read back from the byte image |
| TarHeader.ImageLayout | src/common/header.h:64-100 | where each field stands in the 512 bytes, and that all others are zero |
| TarHeader.SizeDigits | src/common/header.cpp:116-125 | the size field is eleven octal digits of the size and a NUL |
| TarHeader.SizeRead | src/common/header.cpp:97-114 | any eleven octal digits read as their number, anything else as zero |
| TarHeader.Header.UpdataName | src/common/header.cpp:65-95 | name and prefix fields of a short, long or too long name |
| TarHeader.Header.UpdataSize | src/common/header.cpp:116-125 | the size field |
| TarHeader.Header.UpdataFileType | src/common/header.cpp:136-143 | the type field, invalid values marked |
| TarHeader.Header.UpdataCheckSum | src/common/header.cpp:150-166 | the byte loop |
| TarHeader.Header.GetBytes | src/common/header.cpp:168-175 | the image with its checksum |
| Tlv.CopyParsed | src/common/tlv.cpp:33-64 | an accepted buffer has the size GetBufSize reports; copying out gives its items sorted by tag, and the buffer itself if and only if its tags ascend |
| Tlv.ParseCopied | src/common/tlv.cpp:183-205 | copying a map out and parsing it gives the map back |
| Tlv.EncodeItems | src/common/tlv.cpp:33-64 | a well-formed buffer is the encoding of its items |
| Tlv.EntryBytes | src/common/tlv.cpp:183-205 | tag and length least significant byte first, as arithmetic on the bytes, then the value |
| Tlv.ItemRead | src/common/tlv.cpp:33-64 | what is read from any nonempty buffer, by the numbers in its first eight bytes |
| Tlv.ParseValid | src/common/tlv.cpp:33-64 | whatever the input, the result is a valid map |
| Tlv.TlvBuf.Append | src/common/tlv.cpp:94-112 | inserted in tag order exactly when length and tag allow it |
| Tlv.TlvBuf.Load | src/common/tlv.cpp:33-64 | the parsing loop, an error anywhere leaving the map empty |
| Tlv.TlvBuf.GetBufSize | src/common/tlv.cpp:169-181 | the sum over the entries in 32 bits: the size of the encoding if and only if that is below 4 GiB |
| Tlv.TlvBuf.CopyToBuf | src/common/tlv.cpp:183-205 | the front of the destination becomes the encoding, a short one is left alone, for maps below 4 GiB |
| StringTlv.RecordsRoundTrip | src/common/base.cpp:2840-2886 | records appended one after another read back as the map in which the last value of a tag wins |
| StringTlv.AppendIsSnoc | src/common/base.cpp:2840-2858 | appending a record extends the list of records |
| StringTlv.RecordBytes | src/common/base.cpp:2840-2858 | a record character by character: tag and decimal length filled with blanks to sixteen, then the value |
| StringTlv.TailIgnored | src/common/base.cpp:2859-2886 | fewer than 32 characters behind the last record are ignored |
| StringTlv.CutRecord | src/common/base.cpp:2859-2886 | a last record cut in its value is an error, and the records before it stay in the map |
| StringTlv.NegativeLength | src/common/base.cpp:2859-2886 | so is a negative length |
| StringTlv.AtoiMeans | src/common/base.cpp:2859-2886 | a length field with white space before, a sign, or other characters behind the digits |
| StringTlv.HeartbeatNegotiated | src/common/session.cpp:1745-1771 | the peer's flag is set exactly when the sender listed the feature, whatever other records surround the list |
| StringTlv.FeatureUnlisted | src/common/session.cpp:1745-1771 | without a list of features the flag stays as it was |
| StringTlv.SplitJoin | src/common/base.cpp:3066-3082 | splitting a joined list gives its nonempty comma-free members in order |
| StringTlv.SplitString | src/common/base.cpp:1766-1785 | the search loop gives the nonempty pieces between separators |
| StringTlv.FeatureToString | src/common/base.cpp:3066-3077 | the members joined with commas |
| StringTlv.TrimSubString | src/common/base.cpp:2830-2836 | every blank is removed |
| StringTlv.TrimJoin | src/common/base.cpp:2830-2836 | blanks go wherever they are and everything else stays in order |
| StringTlv.ParseLoop | src/common/base.cpp:2859-2886 | the parsing loop, on every input whose length fields atoi can read |
| CommandLine.SplitQuoted | src/common/base.cpp:1354-1436 | splitting undoes quoting and joining, empty arguments included |
| CommandLine.SplitWords | src/common/base.cpp:1384-1426 | plain words with blanks of any kind and number around them split into exactly those words |
| CommandLine.SplitParts | src/common/base.cpp:1384-1426 | every command line of arguments made of bare and quoted parts in any order splits into exactly what was meant |
| CommandLine.MissingQuote | src/common/base.cpp:1384-1426 | a missing last quote counts as standing at the end of the line |
| CommandLine.BlankSplits | src/common/base.cpp:1384-1426 | blank, tab, newline and carriage return separate, and no other character |
| CommandLine.SplitCommandToArgs | src/common/base.cpp:1354-1436 | in one allocation of the source's size every write stays inside, there are at most (len+1)/2 arguments, each slot leads to its argument, and a null slot ends them |
| CommandLine.Take | src/common/base.cpp:1384-1426 | one character: what is written where |
| Paths.SimplifiedTwice | src/common/file.cpp:251-272 | simplifying is idempotent |
| Paths.NamesNormal | src/common/file.cpp:251-272 | no empty, "." or ".." component is left |
| Paths.NameAppended | src/common/file.cpp:251-272 | a plain name behind a path is appended to its names |
| Paths.EmptySkipped | src/common/file.cpp:251-272 | a doubled separator changes nothing |
| Paths.DotSkipped | src/common/file.cpp:251-272 | nor does "." |
| Paths.DotDotRemoves | src/common/file.cpp:251-272 | for every base, name and rest, ".." takes the name before it away |
| Paths.DotDotAtRoot | src/common/file.cpp:251-272 | and nothing at the root |
| Paths.DotDotFirst | src/common/file.cpp:251-272 | a path that begins with ".." resolves to what it resolves to without it |
| Paths.AppendStaysInside | src/common/file.cpp:251-272 | a relative path without ".." keeps the simplified base as a component prefix |
| Paths.InsideIff | src/common/file.cpp:241-249 | on normal forms the test holds exactly when the directory's names come first; for the root directory only the root itself passes |
| Paths.PathSimplify | src/common/file.cpp:251-272 | the loop over components and the rendering |
| Paths.CheckSandboxSubPath | src/common/file.cpp:199-239 | a path is accepted if and only if it has no ".." between separators of either kind, and what it resolves to, less its last name, then has the application directory's names first |
| Paths.PopSlashes | src/common/file.cpp:218-221 | popping trailing separators does not change what a path resolves to |
| Paths.CheckPathTraversal | src/common/base.cpp:3704-3718 | refuses exactly the paths with a component ".." between either kind of separator; used for tar entries and for the sandbox |
| Paths.TraversesIff | src/common/base.cpp:3704-3718 | the test on characters: two dots with an end of the path or a slash or backslash on both sides |
| Paths.TraversalSeen | src/common/base.cpp:3704-3718 | a ".." component is seen by the test that reads both separators |

## Left out

- libuv, libusb, OpenSSL, HUKS, SELinux and the file system: only their completions or an abstract byte store appear.
- Authentication, encryption, credentials and connection validation: thin wrappers over cryptographic services.
- File mode and time synchronisation (CMD_FILE_MODE, CMD_DIR_MODE): the transfer is modelled without the option; it adds message exchanges before CHECK.
- Path and permission checks of SlaveCheck: one flag, whether the file was accepted.
- Failures of operator new for an open request: the source treats that of TransferNext as a failed open.
- After TaskFinish what an end sends is not taken by the other, because the close of the channel goes ahead of it; the clearing of both tasks that follows is left out, so a run may go on with the callbacks still outstanding.
- The error number of a short write, for which the source asks for the free space: one fixed number.
- IODelayed: the back-pressure timer only postpones a callback.
- 64- and 32-bit wrap-around of fileCnt, dirSize, indexIO and of the reference counts.
- SessionFraming.Session.FetchIOBuf: without the heartbeat count check, which frees the session before anything is read, and without the encrypted variant.
- The payload checksum, which is switched off in the source.
- Map, oneof and optional serializers and packed repeated fields: no wire message uses them.
- Sessions whose construction fails partway, and several sessions at once: one session's fields are independent of the others.
- Device, JDWP and ARK forwards, CHECK and CHECK_RESULT messages, and listening sockets: set-up that rests on the operating system.
- TarArchive.WriteToTar: the output stream fails only where the source itself makes it fail, not for want of space; a directory under the name read back counts as not opened.
- TarArchive.NewEntry: takes the name with the prefix of the archive already stripped.
- TarArchive.DecompressToLocal: creating files and directories is taken to succeed, the directory extracted to exists without a ".." component, and files are listed as they come, where the source appends to one that is there already.
- Tlv.TlvBuf.CopyToBuf: maps whose encoding takes 4 GiB or more, for which the wrapped sum lets a short destination pass the size test; a map read from a buffer is never that large.
- StringTlv.ParseLoop: a length field is read as the number it writes, where atoi is undefined beyond an int and may give another.
- StringTlv.RecordsRoundTrip: values longer than an int can count are excluded, because atoi is undefined on them.
- CommandLine.SplitCommandToArgs: the slots hold offsets into the text area instead of pointers, and the line has no NUL before its end, as a C string.
- StringTlv.SplitString: for separators of one character, the only ones the feature list uses.
- StringTlv.TrimSubString: for the blank, the only string it is called with.
- ForwardFlow.BytesConserved: a byte handed to uv_write counts as having reached the socket; a later failure of that write is not modelled.
- ForwardFlow.NothingLostIff: the same holds of the bytes it counts as written.
- WireMessages.CollectedSizeIsLength: the size collector is a recursion of its own over the fields, not the writing functions on a counting writer.
- TransferTask.Task.CommandDispatch: without the size test on the BEGIN payload and the sandbox option check.
- Paths.CheckSandboxSubPath: the canonical application directory is the simplified one, as it is where no symbolic link is involved.
- Paths: the separator is '/', and strings have no NUL.
- Logging, statistics, command events and environment switches.
- hdc_rust, hdcd_user_permit and the scripts.
