# A verified model of drop

drop sends files from one machine to another: live, over a relay or a WebRTC data channel, or through a mailbox of
encrypted blobs that expire. This project models the parts of it that decide whether a file arrives, and proves what
they guarantee: the transfer session with its partial files, resume and sender restarts; the negotiation of the
transport and the fallback from it; the relay's rooms with their locks; the blob store; and the two binary formats,
each of which the repository writes twice, in Go and in JavaScript.

`dafny verify dfyconfig.toml` checks everything.

## How the model is built

**The receive session.** `Receiving` says in one step function what a session does with each message. `Receiver.dfy`
holds the loops of the receiver as a class (`recvFile` inside `receiveBatch` inside `ReceiveBatches`, with the session
re-opened when the sender restarts); every method is proved to follow the step function, so a call of `ReceiveBatches`
ends exactly where running the step function over the whole stream ends. `Senders.Sender` holds the sender in the same
way, with writes that may fail at any point; what it writes are the streams `Wire` describes. The theorems in
`SessionTheorems`, `Restarts`, `Refusals`, `Kept`, `NoClobber`, `Noise` and `Resume` are about all streams, cuts,
restarts and directories; `Resumption` runs the programs of both ends one after the other. The destination directory is
a map from names to bytes.

**Negotiation.** `Signaling` has the bounded reader channel and both select loops as code. `Negotiation` runs both
sides, the relay between them, a data channel that opens at any time or never, and two independent timers as one state
machine; `Inv` is kept by every step and the theorems speak of every run. The receiver's part follows its loop, and
`CodedRuns` shows the same of the sender's. `SentRuns` joins it to the sender's program, `Fallback` to the receive
session.

**Relay.** `Rooms` has `Room` and `RoomManager` as classes. `RelayRuns` interleaves any number of handlers with the
cleanup loop, one step per critical section, using the same functions the classes are proved against; `RelayTheorems`
and `RelayEndings` are about its runs. `Locks` runs the same operations as programs of lock operations. `Store` and
`StoreRuns` treat the blob store the same way.

**Formats.** `Frames`, `Mailbox` and `JsMailbox`. JavaScript's 32-bit shifts, signed words and rounding of large numbers
are spelt out in `JsNumbers`.

## What the model shows about the code

These are results, each a lemma with the exact condition or a concrete case.

- A session keeps every file it receives unless one is saved under the name another uses for its partial data: a file
  "x.part" followed by a file "x" is lost (`Kept.KeptExactlyWithoutClash`, `Kept.ClashExample`).
- A resumed transfer fails if the final name has been taken meanwhile, because the receiver looks for the partial file
  under the new name it picked (`Resume.ResumedTransfer`, `Resume.TakenExample`).
- A receiver does not compare what it got with the announced size, so a sender that starts in the middle unasked leaves
  a file without its beginning (`Resume.UnaskedResume`).
- Late candidates and other signals are harmless exactly where they come before the first file or inside one; anywhere
  else the first of them ends the session and the files after it are lost (`Noise.NoiseIsHarmlessExactly`,
  `Noise.StrayEnds`). After a fallback a candidate of the sender can do that (`Fallback.StrayCandidateLosesAFile`).
- `ReceiveFiles` forgets the files completed before a restart (`Restarts.ReceiveFilesForgetsExactly`,
  `Restarts.SavedButForgotten`), and `ReceiveBatches` does not report the files of a batch that a read error interrupts
  (`Restarts.ReportedExactly`, `Restarts.SavedButUnreported`).
- A sender on the data channel can face a receiver that fell back on its own timer, and that is the only way the two can
  disagree (`Negotiation.Agreement`, `Negotiation.MismatchIsReachable`).
- A peer that was sent away and is still reading can reach whoever comes to its room next
  (`RelayTheorems.AStrangerHearsAKickedPeer`, exact in `RelayTheorems.StrangersHearExactlyTheKicked`).
- A handler looks whether its room is empty before it removes itself, so only one that was sent away deletes the entry;
  the room of somebody who waited in vain stays until the cleanup loop finds it (`RelayTheorems.OnlyTheKickedDelete`,
  `RelayTheorems.LoneRoomsStay`).
- Two members with one token are in one room for as long as entries are only removed when their rooms are quiet; one
  removal that is not can separate them, and such a run exists (`RelayTheorems.QuietRunsGather`,
  `RelayTheorems.LoudStepsCanSplit`, `RelayTheorems.SplitIsReachable`).
- Two overlapping uploads for one token both succeed, and the earlier one's bytes stay on the disk out of reach
  (`StoreRuns.OverlapOverwrites`, `StoreRuns.OverwriteIsReachable`).
- `DecodeMessage` slices out of range exactly when the declared length is one of the five largest
  (`Frames.PanicsExactlyOnWrap`); the browser's decoder differs from it exactly from 2^31 on
  (`Frames.DecodersAgreeExactlyBelow31Bits`). `Frames.DecoderExamples` has an input for each.

Where a comment and the code differ, the model follows the code. The comment on `ReceiveBatches`
(internal/transfer/receiver.go:305) names a SessionEnd and a clean disconnect as what `onBatch` follows; the code also
calls it, with the files completed so far, when the sender restarts.

## Model

| member | source | states |
|---|---|---|
| Frames.EncodeMessage | internal/transfer/protocol.go:65-71 | the buffer filled in place is the type, the length cut to 32 bits, the payload |
| Frames.DecodeInvertsEncode | internal/transfer/protocol.go:73-86 | decoding an encoded message followed by anything returns the message, for all lengths up to 2^32-6 |
| Frames.PanicsExactlyOnWrap | internal/transfer/protocol.go:78-84 | the slice is out of range exactly where the uint32 sum wraps below 5 |
| Frames.DecoderExamples | internal/transfer/protocol.go:78-84 | concrete inputs on which DecodeMessage slices out of range, and on which the browser takes a frame that DecodeMessage finds incomplete, once with a slice that counts from the end |
| Frames.JsEncode | internal/relay/static/drop-protocol.js:18-27 | the browser's shifts and masks write the bytes of EncodeMessage |
| Frames.JsDecodeFrame | internal/relay/static/drop-protocol.js:29-35 | the or-ed bytes are the declared length as a signed word, and the frame is what that length cuts out |
| Frames.DecodersAgree | internal/relay/static/drop-protocol.js:29-35 | below 2^31 the browser and Go give the same verdict and the same frame |
| Frames.DecodersAgreeExactlyBelow31Bits | internal/transfer/protocol.go:78-81 | for data shorter than 2^31 the two decoders agree if and only if the declared length is below 2^31 |
| JsNumbers.ShiftOrIsBigEndian | internal/relay/static/drop-mailbox.js:78 | the four shifted and or-ed bytes are the big-endian value taken as a signed 32-bit number |
| JsNumbers.ShiftMaskIsBigEndian | internal/relay/static/drop-mailbox.js:10-13 | the four shifted and masked bytes are the low 32 bits of any length, big-endian |
| JsNumbers.Number | internal/relay/static/drop-mailbox.js:65 | rounding a 64-bit length to a double is exact below 2^53 and never falls below 2^53 above |
| JsNumbers.NumberIsNearest | internal/relay/static/drop-mailbox.js:65 | above 2^53 the double is the nearest multiple of the dropped power of two, and of two such the one with an even quotient |
| Mailbox.EncoderAcceptsExactly | internal/mailbox/payload.go:45-69 | EncodeAMB2 succeeds exactly on 1 to 256 entries with names of 1 to 4095 bytes and contents that fit singly and together, and then yields their layout |
| Mailbox.RefusalIsExact | internal/mailbox/payload.go:45-69 | a refusal says what is wrong: no entry, more than 256, or which entry is the first not to pass and for which of its three reasons |
| Mailbox.LayoutExamples | internal/mailbox/payload.go:27-80 | the bytes of a small bundle and of a small V1 payload |
| Mailbox.EncodeAMB2 | internal/mailbox/payload.go:45-80 | the appending loop yields the bundle layout or the first fault, in the order of its checks |
| Mailbox.EncodeV1 | internal/mailbox/payload.go:27-42 | yields the V1 layout or the fault |
| Mailbox.DecodeRecord | internal/mailbox/payload.go:104-120 | one turn of the decoding loop takes exactly one record off the front, with uint64 lengths read as signed |
| Mailbox.DecodeAMB2 | internal/mailbox/payload.go:93-127 | the re-slicing loop accepts exactly the bundles that parse, with their entries |
| Mailbox.Decode | internal/mailbox/payload.go:83-91 | accepts exactly the byte strings that parse as AMB2, if they begin with its magic, or else as V1, with their entries |
| Mailbox.DecodeLegacyV1 | internal/mailbox/payload.go:129-140 | accepts exactly the byte strings with a length of 1 to 4095 and at least that many bytes after it, with the one entry they hold |
| Mailbox.DecodeInvertsEncodeAMB2 | internal/mailbox/payload.go:45-127 | Decode undoes EncodeAMB2 on everything it accepts |
| Mailbox.AcceptedBundleIsCanonical | internal/mailbox/payload.go:93-127 | whatever is accepted as AMB2 is exactly the layout of its entries, of length 8 + the sum of 12 + name + content, and n entries need at least 8 + 13n bytes |
| Mailbox.AcceptsExactlyLayouts | internal/mailbox/payload.go:93-127 | bytes that begin with the magic are accepted with given entries exactly if they are the layout of those, 1 to 256 with names of 1 to 4095 bytes, whatever the size of the contents |
| Mailbox.AcceptedNamesFit | internal/mailbox/payload.go:109 | every name of an accepted blob, AMB2 or V1, has 1 to 4095 bytes, and there is one |
| Mailbox.BundleDecodingIsInjective | internal/mailbox/payload.go:93-127 | two accepted bundles with the same entries are the same bytes |
| Mailbox.V1NeverStartsWithMagic | internal/mailbox/payload.go:27-42 | no V1 encoding that EncodeV1 accepts can be taken for AMB2 |
| Mailbox.DecodeInvertsEncodeV1 | internal/mailbox/payload.go:129-140 | Decode undoes EncodeV1 on everything it accepts |
| Mailbox.AcceptedV1IsCanonical | internal/mailbox/payload.go:129-140 | whatever is accepted as V1 is exactly the V1 layout of its entry |
| Mailbox.CursorSeesTheSameRecord | internal/relay/static/drop-mailbox.js:60-68 | parsing at a cursor and parsing the rest of the input give the same record |
| JsMailbox.EncodeMailboxV1 | internal/relay/static/drop-mailbox.js:7-17 | fills a fresh buffer with the V1 layout, checking nothing |
| JsMailbox.UncheckedV1ComesBackExactly | internal/relay/static/drop-mailbox.js:7-17 | what it writes decodes to the entry exactly when EncodeV1's name check would have passed |
| JsMailbox.EncodeMailboxAMB2 | internal/relay/static/drop-mailbox.js:19-50 | the same verdict, the same fault and the same bytes as EncodeAMB2, filled in place after one pass over the lengths |
| JsMailbox.FillBundle | internal/relay/static/drop-mailbox.js:33-49 | the precomputed total is exactly what the filling loop needs, and the buffer ends up as the layout |
| JsMailbox.DecodeRecordAt | internal/relay/static/drop-mailbox.js:61-68 | one turn of the cursor loop, with additions and lengths as doubles, gives the record at the cursor |
| JsMailbox.DecodeMailboxAMB2 | internal/relay/static/drop-mailbox.js:52-72 | accepts what decodeAMB2 accepts, with the same entries, for inputs below 2^53 bytes |
| JsMailbox.DecodeMailboxV1 | internal/relay/static/drop-mailbox.js:78-82 | the signed 32-bit length gives the verdict of the unsigned one |
| JsMailbox.DecodeMailboxEntries | internal/relay/static/drop-mailbox.js:74-83 | the same verdict and the same entries as Decode on every byte string below 2^53 bytes |
| Names.UniquePathIsLeastFree | internal/transfer/receiver.go:161-173 | for every finite directory the search ends; it returns a free path, the given one if that is free, and else base, the least free number in parentheses, written in base ten, and extension |
| Names.DecimalSpells | internal/transfer/receiver.go:168 | the suffix of a number, read digit by digit in base ten, is that number, without leading zeros |
| Names.SecondCopy | internal/transfer/receiver.go:161-173 | a second "a.txt" is saved as "a(1).txt" |
| Names.SafeExactly | internal/transfer/receiver.go:19-37 | a name is accepted exactly if it has no NUL and, split at either separator and followed element by element from the destination, leads to its direct child of that very name |
| Names.FindUniquePath | internal/transfer/receiver.go:161-173 | the counting loop computes that path and terminates |
| Names.UniquePathKeepsPartial | internal/transfer/receiver.go:165-168 | numbering neither adds nor removes a ".part" ending |
| Names.UniquePathStaysSafe | internal/transfer/receiver.go:19-37 | a safe name stays safe when numbered, so the path is directly inside the destination |
| Names.DecimalInjective | internal/transfer/receiver.go:168 | different numbers give different suffixes |
| Download.MailboxUniqueSavePath | cmd/drop/download.go:166-179 | for separator-free names it computes the path uniquePath computes |
| Download.SaveAllAddsOneFilePerEntry | cmd/drop/download.go:151-161 | saving any bundle, repeated names included, creates one new file per saved entry with its content and changes nothing else |
| Download.SaveAllStopsAtUnsafe | cmd/drop/download.go:152-155 | the loop stops in front of the first unsafe name and only there |
| Download.Disk.SaveEntries | cmd/drop/download.go:151-161 | the save loop leaves the files, paths and verdict of the specification |
| Receiving.RunAppend | internal/transfer/receiver.go:554-566 | a session over two stretches of a stream is the session over the second from where the first left it |
| Receivers.Receiver.Handle | internal/transfer/receiver.go:470-544 | one message inside a file has the effect of the step function, on the directory, the counters and the outcome |
| Receivers.Receiver.TakeMetadata | internal/transfer/receiver.go:472-505 | metadata is refused if malformed or unsafely named; otherwise the frame, the directory and the progress are those of the step function |
| Receivers.Receiver.RecvFile | internal/transfer/receiver.go:458-567 | the read loop ends where the step function first leaves the file |
| Receivers.Receiver.AwaitBatch | internal/transfer/receiver.go:212-233 | between batches, a clean end or a SessionEnd ends the session without error, Metadata opens a batch, an announce restarts, all else is an error; the rest of the session is predicted as before |
| Receivers.Receiver.PeekAfterFile | internal/transfer/receiver.go:250-272 | after a file, a clean end or a SessionEnd closes the batch, Metadata continues it, an announce restarts, all else is an error that keeps the paths; the rest of the session is predicted as before |
| Receivers.Receiver.ReceiveBatch | internal/transfer/receiver.go:209-274 | a batch ends where the step function ends it, with its paths, and makes progress on the stream |
| Receivers.Receiver.FirstMessage | internal/transfer/receiver.go:401-422 | an offer or a P2PFail opens the session, a message of a file is its first, all else is an error; the rest of the session is predicted as before |
| Receivers.Receiver.OpenReceiveSession | internal/transfer/receiver.go:387-423 | every version announce is answered, then the first message decides |
| Receivers.Receiver.Reopen | internal/transfer/receiver.go:326-338 | at a restart what was completed is reported, and the session opened again |
| Receivers.Receiver.Conclude | internal/transfer/receiver.go:340-352 | after a batch that no restart ended, the session returns its error, or nothing if it was empty, or reports it and goes on only if the batch was closed by a SessionEnd; the rest is predicted as before |
| Receivers.Receiver.ReceiveBatches | internal/transfer/receiver.go:306-354 | the result, the reports, the replies, the progress calls and the directory of the whole session are those of the step function over the whole stream |
| Receivers.Receiver.ReceiveFiles | internal/transfer/receiver.go:276-302 | the same for a single batch, whose paths start over at a restart |
| Refusals.WrongVersionEnds | internal/transfer/receiver.go:355-365 | an announce of another version than 4, or of none, ends the session wherever it comes: no answer, nothing more reported or published, and the file being received is thrown away |
| Refusals.WrongVersionAtStart | internal/transfer/receiver.go:387-396 | as the first message it leaves everything as it was |
| Refusals.AnsweredExactly | internal/transfer/receiver.go:355-365 | exactly the announces of version 4 are answered, with one Ready each |
| Refusals.MisplacedEnds | internal/transfer/receiver.go:470-543 | where a file is awaited, malformed metadata, an unsafe name, a chunk, a Complete, an Error or a SessionEnd ends the session with its own error, and nothing has changed |
| Refusals.BrokenFileEnds | internal/transfer/receiver.go:527-530 | an Error or a SessionEnd inside a file ends the session with its own error; what was received of the file stays under its ".part" name |
| Refusals.ErrorEnds | internal/transfer/receiver.go:209-274 | an Error message ends every session, wherever it comes, and nothing more is reported or published |
| Refusals.FailedNegotiationEnds | internal/transfer/receiver.go:400-410 | an offer ends the session exactly if its negotiation fails without a fallback, and then nothing has changed |
| Refusals.MayIdleExactly | internal/transfer/receiver.go:212-222 | a session that is opened again may end before another file comes exactly if a batch was reported before |
| Refusals.EndsWellExactly | internal/transfer/receiver.go:250-258 | a session whose stream just ends is without error exactly if that is a clean end, between files or batches, and onBatch does not refuse what is then reported |
| Refusals.RefusedCallbackEnds | internal/transfer/receiver.go:321-352 | an onBatch that refuses its call number n changes nothing up to that call, and the session stops there, with everything it has, before any further message |
| Refusals.NoCallAfterRefusal | internal/transfer/receiver.go:321-352 | whatever the stream, there are at most n + 1 calls, and n + 1 exactly if the session failed for that |
| Senders.Sender.WaitForPeer | internal/transfer/sender.go:72-98 | the last resume request before a PeerJoin of the right version is kept; other messages are passed over |
| Senders.Sender.AcceptResume | internal/transfer/sender.go:273-281 | the offset is taken from the request only for this file, at a chunk boundary inside it, and if the prefix hashes match |
| Senders.Sender.StreamChunks | internal/transfer/sender.go:291-313 | whatever the reads return, the chunks on the wire are the file from the offset on, as far as the writes got |
| Senders.Sender.StreamFile | internal/transfer/sender.go:252-319 | what is on the wire is a prefix of a transmission of the file, all of it exactly on success; the pending request is used up |
| Senders.Sender.NegotiateOrReuse | internal/transfer/sender.go:146-176 | a chosen channel is reused, a dead data channel is an error; otherwise the signals of the negotiation are followed by P2PReady if the channel opened and by P2PFail if not, as far as that can be written; without P2PReady the data channel is not used, without P2PFail the relay is |
| Senders.Sender.SendBatch | internal/transfer/sender.go:179-224 | on success the whole batch and its SessionEnd are on the chosen channel, on an error a proper prefix; before it, on the relay, what the negotiation signalled and decided; only the first file may be resumed, and the request is used up; progress is reported for each file under its index; a failed data channel is given up |
| Senders.Sender.SendFiles | internal/transfer/sender.go:132-138 | one batch as SendBatch writes it; on success a data channel is given up and the relay path stays |
| Senders.SentSessionIsGood | internal/transfer/sender.go:179-224 | what any number of successful SendBatch calls on one session write, the very first file resumed or not, is a stream the receive theorems are about |
| Senders.NextBatchIsAdded | internal/transfer/sender.go:207-222 | each further call adds the messages of its batch to the end of that stream |
| SentRuns.Decides | internal/transfer/sender.go:156-172 | the message that announces the decision is the step SenderCommits or SenderGivesUp of the negotiation of both sides |
| SentRuns.SendBatchIsARun | internal/transfer/sender.go:179-224 | all that the first SendBatch writes to the relay, also if it fails half-way, is the wire of a run of that negotiation from the offer on, with the same decision |
| Resumption.SendToLeftover | internal/transfer/sender.go:252-319 | FindResumeCandidate, WaitForPeer, streamFile and ReceiveBatches composed: whatever partial files there are, a file that goes out entirely arrives entirely and ReceiveBatches ends without error; with a matching leftover only the bytes after its last whole chunk go out, otherwise all; its own leftover is gone and nothing else has changed, and a single leftover of another file is cut to whole chunks |
| Resumption.MatchIsResumed | internal/transfer/sender.go:273-281 | without a hash collision, a file is resumed exactly if the single leftover is its own and begins like it, and from the last whole chunk |
| Resume.ArrivesExactly | internal/transfer/receiver.go:485-526 | the run over a transmission leaves the whole file under the path chosen for it exactly when it starts from the beginning, or the final name is free and the leftover begins like the source |
| Senders.SentProgressEndsAtSize | internal/transfer/sender.go:292-305 | the sender's progress never falls and ends at the file size, unless the file is empty |
| SessionTheorems.WholeSession | internal/transfer/receiver.go:306-354 | every session of non-empty batches of safely named files, the first resumed or not, closed cleanly, ends without error; onBatch sees batches 0 to n-1 with their files' paths, in order and grouped as sent; the directory is that of saving them one after another |
| SessionTheorems.WholeBatch | internal/transfer/receiver.go:276-302 | ReceiveFiles returns the paths of one batch, in order, at its SessionEnd and whatever follows it |
| SessionTheorems.FaithfulExactly | internal/transfer/receiver.go:458-567 | after such a session every file sent is there, byte for byte, under the path reported for it, exactly when none of the paths that the names and the directory lead to is the ".part" name of another |
| SessionTheorems.PublishAllAdds | internal/transfer/receiver.go:482-526 | files without ".part" names are added under new, distinct, final paths with their contents, and no final file changes |
| SessionTheorems.CutAnywhere | internal/transfer/receiver.go:458-567 | cut after any number of messages: the final files added are those whose Complete was delivered, byte-identical, and at most one ".part" file is new or has grown, with a prefix of the file in flight |
| Restarts.RestartedSession | internal/transfer/receiver.go:321-354 | restarted at any message boundary any number of times, each announce is answered, and every completed file is recorded once, in order; ReceiveFiles keeps those since the last restart |
| Restarts.RestartedDirectory | internal/transfer/receiver.go:531-541 | the directory then has gained exactly those files; no partial file of an interrupted transfer is left but that of the very last sender, with a prefix of its file |
| Restarts.ReportedExactly | internal/transfer/receiver.go:340-353 | the reports cover them all exactly unless the last sender completed a file after its last SessionEnd and then was cut inside another or did not close cleanly |
| Restarts.SavedButUnreported | internal/transfer/receiver.go:340-342 | one file and then a read error: the file is saved and onBatch is never called |
| Restarts.ReceiveFilesForgetsExactly | internal/transfer/receiver.go:291-301 | ReceiveFiles returns all completed files exactly when no sender but the last completed one |
| Restarts.SavedButForgotten | internal/transfer/receiver.go:291-301 | one file, a restart, another file: both are saved, only the second is returned |
| Sessions.RunFile | internal/transfer/receiver.go:470-526 | the messages of one file, from any state that accepts one, publish its content under the chosen path and remove the partial file |
| Sessions.RunCut | internal/transfer/receiver.go:209-274 | any prefix of a stream of files and batch ends, from any state between files, leaves the directory and the paths it should |
| Kept.KeptExactlyWithoutClash | internal/transfer/receiver.go:482-501 | all received files survive to the end exactly when no path is a later file's ".part" name |
| Kept.ClashExample | internal/transfer/receiver.go:483-501 | "x.part" then "x": only "x" is left |
| NoClobber.StepHarmless | internal/transfer/receiver.go:470-543 | any message whatsoever changes at most one safely named ".part" entry, or renames one onto a free safe name that is recorded |
| NoClobber.AnyStreamIsHarmless | internal/transfer/receiver.go:458-567 | over any message sequence no entry without a ".part" ending is changed or removed, and every new entry, partial or not, is directly inside the destination |
| NoClobber.NothingUnrecorded | internal/transfer/receiver.go:306-354 | over any message sequence, every new final file is one that ReceiveBatches has recorded |
| NoClobber.AnySessionIsHarmless | internal/transfer/receiver.go:306-354 | in particular from the start of a session in any directory |
| Noise.NoiseIsIgnored | internal/transfer/receiver.go:471-543 | inside a file, messages of all other types change nothing |
| Noise.LateSignallingIsHarmless | internal/transfer/receiver.go:470-566 | any file, first or later, resumed or not, with late signalling mixed in before its Complete is received as if it were not there |
| Noise.NoiseIsHarmlessExactly | internal/transfer/receiver.go:209-274 | a stream of files and batch ends, cut anywhere, with messages of other types mixed in, has the outcome of the stream alone if and only if each of those comes before its first message or inside a file |
| Noise.StrayEnds | internal/transfer/receiver.go:230-271 | the first one elsewhere ends the session with an error; the files completed before it are saved, the rest is lost |
| Noise.NoisySessionExactly | internal/transfer/receiver.go:401-422 | the same from the start of a session, where also the first message must be a file's, an offer or a P2PFail |
| Fallback.TailIsReceivedExactly | internal/transfer/signaling.go:244-252 | after a fallback, all that tailReader yields is received as the sender's files alone would be, if and only if the signals in it come before the first of them or inside a file |
| Fallback.StrayCandidateLosesAFile | internal/transfer/signaling.go:89-105 | a run of the negotiation in which a candidate trickles between two files, and the second is lost |
| Resume.Aligned | internal/transfer/receiver.go:82-88 | a chunk multiple, and fewer than ChunkSize bytes are dropped |
| Resume.Destination.FindResumeCandidate | internal/transfer/receiver.go:69-95 | a request is made exactly for a single partial file with a whole chunk in it, which is cut to whole chunks; otherwise nothing changes |
| Resume.ResumeOffset | internal/transfer/sender.go:273-281 | a chunk multiple within the file |
| Resume.ResumesExactly | internal/transfer/sender.go:273-281 | what the receiver asked for is granted exactly if the leftover is of this file, no longer than it in whole chunks, and its chunks hash like the beginning of the file; then all of those chunks are skipped |
| Resume.WaitsExactly | internal/transfer/sender.go:75-97 | WaitForPeer fails at a malformed request and at a PeerJoin of another version than 4; at one of version 4 it holds the last request before it |
| Resume.RequestArrives | internal/transfer/sender.go:75-97 | the sender ends up with exactly the request the receiver made |
| Resume.SameDecision | internal/transfer/receiver.go:485-486 | the receiver resumes exactly when the sender does |
| Resume.ResumedTransfer | internal/transfer/receiver.go:485-526 | for any leftover bytes and any file: the transfer stops if it is resumed while the final name exists, and otherwise publishes the kept prefix followed by the rest |
| Resume.TakenExample | internal/transfer/receiver.go:482-491 | a concrete directory and file where a resumed transfer finds its final name taken and stops |
| Resume.UnaskedResume | internal/transfer/receiver.go:485-526 | a sender that starts in the middle without having been asked to, or from another offset, leaves a file without its beginning, and the session goes on |
| Resume.ResumeIsCorrect | internal/transfer/receiver.go:69-95 | whatever the single leftover "X.part" holds, if X is free and the two prefixes do not collide in the hash, X ends up byte-identical to the source, "X.part" is gone, and nothing else has changed |
| Resume.ResumedFileIsRightExactly | internal/transfer/sender.go:274-279 | with collisions allowed, a resumed file is right exactly when the leftover begins like the source |
| Resume.ResumeArithmetic | internal/transfer/sender.go:269-313 | the bytes on the wire total size minus offset whatever the read sizes, and with full reads the chunk count is the announced one minus offset/ChunkSize |
| Resume.ProgressEndsAtSize | internal/transfer/receiver.go:503-517 | a receiver's progress on a completed file starts at the offset, never falls and ends at the size |
| Signaling.WSReader.Pump | internal/transfer/signaling.go:50-60 | one step of the reader goroutine loses and reorders nothing; it is stuck exactly when the channel is full or the connection dry |
| Signaling.WSReader.Receive | internal/transfer/signaling.go:244-252 | a receive yields the next message of the connection |
| Signaling.WSReader.NegotiateReceiver | internal/transfer/signaling.go:206-241 | for every order in which its branches fire, the loop commits to the peer channel exactly when WaitOpen returned and P2PReady was read before the timer, a P2PFail or a read error; it has taken messages off the front in order, a P2PFail only as the last |
| Signaling.ReceiverCommitsExactly | internal/transfer/signaling.go:206-241 | that condition for the commitment, from any point of the loop on |
| Signaling.NegotiateTakes | internal/transfer/signaling.go:217-235 | what the loop leaves is the stream without a prefix; it fell back on a P2PFail exactly if that was the last message it took, and a read error comes only after all messages |
| Signaling.WSReader.NegotiateSender | internal/transfer/signaling.go:113-148 | the sender's loop yields a peer exactly when WaitOpen returns with an open channel before anything else ends it |
| Signaling.CommitsExactlyWhenOpen | internal/transfer/signaling.go:113-148 | the sender gets a peer exactly when WaitOpen returns with an open channel before the timer, a P2PFail, a bad answer or a read error |
| Negotiation.StepKeepsInv | internal/transfer/signaling.go:113-241 | every step of either side keeps the invariant that ties their decisions to the messages written and heard |
| Negotiation.MachineFollowsCode | internal/transfer/signaling.go:206-241 | in every run of both sides, the receiver's decision and the messages it leaves are what its loop makes of the relay's stream for the branches that fired |
| CodedRuns.CodedRunsAreRuns | internal/transfer/signaling.go:113-148 | a run in which the sender commits and gives up exactly when its select loop returns, with its open branch firing only once the channel is open, is a run of the machine |
| CodedRuns.RunsAreCoded | internal/transfer/sender.go:156-172 | and every run of the machine is such a run: the steps left to the sender are those its loop can take |
| Negotiation.Agreement | internal/transfer/signaling.go:205-241 | a receiver on the peer channel has a sender that committed to it; a sender that fell back never faces one; a mismatch is a receiver that fell back on its own timer |
| Negotiation.MismatchIsReachable | internal/transfer/signaling.go:236-239 | that mismatch does happen |
| Negotiation.HeardIsSignalling | internal/transfer/signaling.go:217-235 | no message of a file is ever consumed by the negotiation |
| Negotiation.FallbackLosesNothing | internal/transfer/signaling.go:232-252 | what the negotiation consumed, what tailReader yielded and what is still buffered or under way are the relay's stream in order, and all file messages are among what tailReader yields |
| Negotiation.FallbackDelivers | internal/transfer/signaling.go:46-63 | from any state after a fallback, for all the bounded channel, and with nothing more written, some run ends with all of the stream that the negotiation left delivered by tailReader, in order |
| Negotiation.EveryRun | internal/transfer/sender.go:146-176 | all of this in every state of every run |
| Negotiation.PeerMeansSilence | internal/transfer/signaling.go:115-122 | in every run, a sender on the peer channel has stopped its candidates first, so P2PReady is the last it wrote to the relay |
| Rooms.Room.AddClient | internal/relay/rooms.go:116-125 | joins unless two are there |
| Rooms.Room.RemoveClient | internal/relay/rooms.go:128-155 | takes the connection out, and of a pair sends the other away too; without it, changes nothing |
| Rooms.PartnerIsKicked | internal/relay/rooms.go:142-154 | of a pair the one who stays behind is sent away, whichever leaves |
| Rooms.Room.Broadcast | internal/relay/rooms.go:157-169 | writes to all others in order, and closes exactly those that failed |
| Rooms.RoomManager.GetOrCreateRoom | internal/relay/rooms.go:40-49 | an existing room is returned and nothing changes; otherwise a fresh empty one is entered, and no other entry changes |
| Rooms.RoomManager.Waiting | internal/relay/rooms.go:52-62 | whether a room exists with exactly one client |
| Rooms.RoomManager.CleanupTick | internal/relay/rooms.go:82-96 | exactly the rooms whose last activity is more than 600 seconds ago go, and exactly their connections are closed |
| Rooms.RoomManager.Shutdown | internal/relay/rooms.go:103-114 | exactly the members of all rooms are closed |
| Rooms.RoomManager.Finish | internal/relay/server.go:140-146 | the entry goes exactly if the room is empty before the handler removes itself |
| Rooms.RoomManager.HandleWebSocket | internal/relay/server.go:116-146 | undisturbed, a handler relays its binary messages in order to whoever was there, leaves the room empty and its entry in the map |
| RelayRuns.RemovedEmpties | internal/relay/rooms.go:142-148 | removing a member empties the room, removing anybody else changes nothing |
| RelayRuns.StepKeepsInv | internal/relay/server.go:116-146 | every step of every handler and of the cleanup loop keeps the invariant on rooms, partners and what was written |
| RelayTheorems.OnePartnerForLife | internal/relay/rooms.go:116-155 | no connection is in a room with two different others, at any two points of any run |
| RelayTheorems.TwoStraightToZero | internal/relay/rooms.go:145-148 | a room has at most two distinct members, and from two it drops straight to none |
| RelayTheorems.LateRemovalDisturbsNobody | internal/relay/server.go:122 | the removal of a handler that was sent away before changes no room, whoever is there by now |
| RelayTheorems.OutForGood | internal/relay/rooms.go:128-148 | a connection that is out of its room is never in one again |
| RelayTheorems.MemberReachesPartner | internal/relay/rooms.go:157-169 | a member's message is written once to its partner for life and to nobody else |
| RelayTheorems.Delivery | internal/relay/server.go:130-138 | what was written to a connection is what its partner said while both were there, in order and once, exactly if all who spoke to its room were members of it |
| RelayTheorems.PartnerIsHeardInOrder | internal/relay/server.go:130-138 | strangers or not: what was written to a connection is a sequence of broadcasts of which those of its partner are what that said while both were there, in order and once |
| RelayTheorems.StrangersHearExactlyTheKicked | internal/relay/rooms.go:157-169 | a broadcast reaches only the sender's partner exactly if the sender is a member or the room is empty |
| RelayTheorems.AStrangerHearsAKickedPeer | internal/relay/server.go:130-138 | a reachable run in which a kicked peer's message is written to the next to come |
| RelayTheorems.MessagesStayWithTheToken | internal/relay/rooms.go:40-49 | no message is written to a connection with another token, or back to its sender, whatever was deleted and made again |
| RelayTheorems.QuietRunsGather | internal/relay/server.go:140-145 | while entries go only when their rooms have no live member and nobody about to join, live members with one token share one room |
| RelayTheorems.LoudStepsCanSplit | internal/relay/server.go:140-145 | after any removal that is not so, live members with one token can come to be in different rooms |
| RelayTheorems.SplitIsReachable | internal/relay/server.go:140-145 | a run in which they do: a kicked peer finds its room empty, a newcomer joins it, the kicked peer deletes the entry, and the next to come is alone |
| RelayTheorems.OnlyTheKickedDelete | internal/relay/server.go:140-145 | only a handler whose connection was sent away by a partner deletes an entry |
| RelayTheorems.LoneRoomsStay | internal/relay/server.go:122-145 | the entry of a token under which nobody met anybody goes only when the cleanup loop finds its room idle |
| RelayEndings.NobodyIsLeftBehind | internal/relay/rooms.go:128-155 | in every run, two that have met are in one room still, or the relay has closed both |
| RelayEndings.EveryReturnCloses | internal/relay/server.go:114-122 | a handler that has returned, joined or turned away, has closed its connection |
| RelayEndings.IdleExactly | internal/relay/rooms.go:116-169 | in every run a room's clock stands at its last join or broadcast, and the cleanup loop may take its entry exactly from more than 600 seconds after that |
| RelayEndings.EntryOutlivesSweeps | internal/relay/rooms.go:82-96 | unless a handler deletes it, an entry outlives every sweep up to 600 seconds after its room was joined or spoken in |
| RelayEndings.SweepTakes | internal/relay/rooms.go:84-91 | any sweep after that takes it out, and closes the members |
| Locks.ProgramsAreDisciplined | internal/relay/rooms.go:40-169 | no operation asks for a lock while it has a room's, nor for a room's while it reads the map |
| Locks.StepKeepsInv | internal/relay/rooms.go:13-26 | mutual exclusion on both levels, in every run |
| Locks.WaitingDescends | internal/relay/rooms.go:82-84 | whoever is waited for is closer to going |
| Locks.NoCyclicWait | internal/relay/rooms.go:76-114 | no chain of waiting threads, of any length, closes |
| Locks.NoDeadlock | internal/relay/rooms.go:40-169 | in every reachable state one thread can go on exactly if any has work left, also with writers that keep new readers out |
| Store.FileStore.Store | internal/relay/store.go:55-91 | undisturbed, a blob is entered under the uploader's own token if it gave one and else under the generated one, if that is free; or the error says why not and nothing changes |
| Store.FileStore.Stats | internal/relay/store.go:100-108 | the number of blobs and the sum of their sizes, in whatever order they are visited |
| Store.FileStore.CleanupTick | internal/relay/store.go:120-129 | exactly the blobs past their time go, are counted, and lose their files |
| Store.TotalSplit | internal/relay/store.go:103-106 | the sum does not depend on the order of the map |
| StoreRuns.StepKeepsInv | internal/relay/store.go:55-134 | every check, commit, failed copy and tick keeps the books |
| StoreRuns.Conservation | internal/relay/store.go:80-125 | commits are active plus expired plus overwritten, each exactly one of them; the same in bytes; and the disk holds the active, the uploading and the overwritten |
| StoreRuns.Lifetime | internal/relay/store.go:114-129 | with ticks at most 60s apart, a blob nobody overwrites is in the map until its creation plus the expiry, and out 60s later |
| StoreRuns.NoOverlapNoOverwrite | internal/relay/store.go:61-87 | while uploads for one token do not overlap, none is overwritten |
| StoreRuns.OverlapOverwrites | internal/relay/store.go:61-87 | once two do, both can commit, and the later replaces the earlier |
| StoreRuns.OverwriteIsReachable | internal/relay/store.go:61-87 | a run from the empty store in which it happens |

## Left out

- Encryption, key derivation, base64, hex, JSON and SHA-256: messages are taken after decryption and
  parsing; the hash is an arbitrary function.
- WebRTC: the data channel is ordered and reliable and opens at any time or never; internal/p2p/peer.go is not part of
  this model, nor is the race between its deliver and closeIncoming.
- WebSockets, HTTP, deadlines and clocks: streams that end cleanly or with an error, and steps that carry the time.
- After a restart on the path where tailReader was in use, the old reader goroutine is still alive and may take messages;
  the restart theorems are about a session on one stream of messages, as the direct reader gives it.
- Negotiation: its writes to the relay succeed, and it is one negotiation at a time; a failed write of P2PReady is in
  `Senders.Sender.NegotiateOrReuse`. Candidates and session descriptions carry no content.
- The stream that `Receivers.Receiver` reads starts after the messages a negotiation consumed; that these are never part
  of a file is `Negotiation.HeardIsSignalling`.
- Files: a directory maps names to bytes. Symbolic links, case folding, permissions, names that are too long, failing
  writes and removals, special characters in the glob, and other platforms' separators beyond `\` are left out.
- Senders.Sender.StreamFile: does not model a file that changes while it is sent.
- Receivers.Receiver.Handle: does not model a create, a write or a removal that fails.
- Receivers.Receiver.FirstMessage: a negotiation is a flag that says whether it fails; which reader it leads to makes no
  difference to the stream of messages.
- Download.Disk.SaveEntries: does not model a write that fails.
- Signaling.WSReader.Pump: does not model the stop channel, which ends the goroutine after a commitment.
- Rooms.RoomManager.HandleWebSocket: runs one handler undisturbed and with writes that succeed; the interleavings are in
  RelayRuns, where a kick and the closing that follows it are one step, and any connection may fail at any time.
- RelayRuns.StepKeepsInv: the rooms are numbered values there and objects in Rooms; both use the functions of
  `Rooms.RoomState`.
- RelayTheorems.Delivery: is about writes that succeed; a failed write closes the recipient (`Rooms.Room.Broadcast`).
- Store.FileStore.Store: runs undisturbed; the separate check and commit are steps of StoreRuns. Random tokens are a
  parameter, and Shutdown of the store is left out.
- JsMailbox.DecodeMailboxAMB2: names are bytes; what TextDecoder does with them is left out.
- JsMailbox.DecodeMailboxV1: likewise.
- JsMailbox.DecodeMailboxEntries: likewise.
- Bodies of the longer loops are methods of their own here, so that each has a contract.
- The rate limiter, origin checks, configuration, metrics, health, push notifications, mDNS, self-update, archives, QR
  codes, prompts, and the browser pages.
