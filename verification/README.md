# Verification of airguitar

A Dafny model of the core of airguitar, an AirPlay receiver, with proofs about whole runs of it. It
covers how audio packets are buffered, played and re-requested, what the player does with its
commands, how RTSP messages are cut out of a byte stream, how the server shuts down, and how the
RTP-Info header is read. `dafny verify dfyconfig.toml` checks everything.

| file | what it holds |
|---|---|
| `SeqNumbers.dfy` | 16-bit sequence numbers as images of unbounded packet indices, their order (section 3.2 of RFC 1982), ranges of them |
| `FrameBuffers.dfy` | the playout buffer and the sample source, as classes; laws of flush |
| `PlayoutRuns.dfy` | runs of the player and the audio thread in any interleaving; the buffer's main invariant |
| `Playback.dfy` | what is heard: packets in order, silence only in holes, what a flush leaves |
| `LossRecovery.dfy` | what is reported missing, what stays in the buffer, why a reader stalls |
| `Conservation.dfy` | where every sample that arrived has gone |
| `OrderedMaps.dfy` | the ordered map with its non-transitive key order: exactly when it behaves as a map |
| `ControlChannel.dfy` | the resend request, and the direct and the retransmission receive path |
| `ClearTailCbc.dfy` | packet decryption: CBC with a clear tail (section 6.2 of NIST SP 800-38A) |
| `Players.dfy` | the player's command loop |
| `PlayerRuns.dfy` | the player and the audio thread together, from commands to what is heard and requested |
| `Connections.dfy` | message framing over a byte stream |
| `ServerShutdown.dfy` | the server with any number of handlers: every request is answered, and the shutdown ends |
| `RtpInfos.dfy` | the RTP-Info parser |

## How to read it

**Packet indices.** The program sees 16-bit numbers; a run names packets by unbounded integers, and
`Wrap(i) = i mod 65536` is the number packet `i` travels under. A run is a sequence of events: a
packet arrives, a flush, a step of the audio thread. One call of the sample iterator is up to three
audio steps, because only the middle one holds the lock, so that arrivals and flushes can fall
between them. A flush names its target by the first index with that number at or after the read
marker; every 16-bit target is such an index, and a flush backwards is a walk the other way round.

**Two buffers.** The frame buffer class and `Exec` keep packets in a plain map; `OrderedExec` keeps them in
a row of keys that is searched with the program's own comparison, each search comparing whichever keys
it likes (`picks`). `OrderedMaps.SearchableExactlyWhen` says in which runs the row can be searched at all,
and `OrderedMaps.OrderedMapIsAMap` that in these the two go through the same states. What is heard, found,
or lost is stated about `OrderedExec`, for every `picks`; `PlayoutRuns` and `Playback.PlayedOrSkipped` are
about the plain map.

**Hypotheses on arrivals** are the seven cases of `PlayoutRuns.Rule`. They are conditions on each
arrival, given the two markers, or the stored numbers, at that moment. Playback needs arrivals at or less
than half a window ahead of the read marker (`AheadOfReader`); `Playback.LatePacketIsPlayedALapLater`
shows what goes wrong otherwise. Gap detection needs each arrival within half a window of the one before
(`NearWriter`); `LossRecovery.GapIsExactExactlyWhen` says when a single report is right. The ordered map
needs each arriving number to lie in one half circle with the stored ones (`OneHalfCircle`), which
`AheadOfReader` implies (`PlayoutRuns.WindowIsOneHalfCircle`) and which late packets may satisfy too.
Conservation of samples needs nothing. RFC 1982 leaves two numbers at distance 2^15 unordered; `Less`
leaves them unordered too, and `NearWriter` and `AheadOfReader` exclude that distance.

**Libraries** are parameters with stated hypotheses: the RTSP parser (`Connections.PrefixStable`,
and for a clean end also `Connections.NoLookahead`: a message's own bytes decide that it is one), the
RTP header reader (`ControlChannel.ReadsRtp`), the AES block function and its inverse
(`ClearTailCbc.Inverts`), the ALAC decoder (a function). Zero unpadding is modelled as dropping the
trailing zero bytes of the last block.

**Panics and error returns** of the program are results of the model: `None` or `Panicked` for a
panic, `Stopped` where the player's loop returns an error.

## What turned out to hold only in part

- Decryption panics when the padded clear tail happens to decrypt to too many trailing zeros;
  `DecryptionSucceedsExactlyWhen` has the exact condition, and there are such packets under every key and
  for every clear tail (`EveryKeyHasPanickingPackets`).
- The two receive paths give the same command exactly as long as the retransmission, four bytes
  longer, still fits the 4096-byte buffer (`PathsAgree`).
- The ordered map finds all its keys exactly if each is before every later one (`SearchableIsSorted`), and
  it stays so throughout a run exactly if each arriving number shares a half circle with those stored
  (`SearchableExactlyWhen`). Otherwise a late packet can hide others: `StallOnAStoredPacket` is a run in
  which the reader waits for a packet that has arrived and was never requested.
- Where the half circle is kept, and arrivals are near the writer and less than half a window ahead of the
  reader, a reader that finds nothing waits for a packet that has not arrived, and that is the first one or
  one that was requested (`StallIsExplained`). The first packet is never requested as long
  as nothing before it arrives (`FirstPacketIsNeverReported`), so a reader can wait for it for good
  (`FirstPacketStalls`).
- A packet half a window or more behind the reader can take the place of one that is still due
  (`StalePacketReplaces`); `ArrivalKeepsPacketsExactlyWhen` has the exact condition.
- A teardown does not clear the handle that resend requests go to
  (`RequestsGoToTheLatestSession`), so a request sent after it can fail, which ends the player's loop.
- The comments in `src/shutdown.rs:5` and `src/rtsp/listener.rs:26` say that a value is sent to announce the
  shutdown; the code never sends one, it drops the sender. The model follows the code.

## Model

| member | source | states |
|---|---|---|
| `SeqNumbers.SeqIterIsIndexRange` | src/player/control_sender.rs:49 | iterating over the images of an index range less than half a lap long visits exactly its indices' numbers, in order, across any wrap |
| `SeqNumbers.SeqIterCountsUp` | src/player/control_sender.rs:49 | for every range at all, the iterator counts up from its start, for the circular distance to its end, which is less than 2^15 |
| `FrameBuffers.FrameBuffer.constructor` | src/player/frame_buffer.rs:23-29 | an empty buffer with both markers at the initial number |
| `FrameBuffers.FrameBuffer.AddPacket` | src/player/frame_buffer.rs:31-41 | stores the packet, moves the write marker to it even when it is late, and returns the range between the two arrivals |
| `FrameBuffers.FrameBuffer.Flush` | src/player/frame_buffer.rs:43-50 | the loop ends after exactly the circular distance to the target, has removed exactly the keys on that walk, and leaves the write marker alone |
| `FrameBuffers.FrameBuffer.PopFront` | src/player/frame_buffer.rs:52-59 | takes the packet at the read marker and moves on, or does nothing when there is none |
| `FrameBuffers.FrameBufferSource.constructor` | src/player/frame_buffer.rs:81-96 | a source that holds no packet yet; channels and rate must not be zero |
| `FrameBuffers.FrameBufferSource.NextSample` | src/player/frame_buffer.rs:131-154 | always a sample; it is the filling silence exactly when the packet in hand is used up and the packet at the read marker is absent or empty; otherwise the next sample |
| `FrameBuffers.FlushComposes` | src/player/frame_buffer.rs:43-50 | flushing twice is flushing once if and only if the first target is on the walk to the second or that walk empties the buffer; off the walk, nothing survives |
| `PlayoutRuns.MarkersStayImages` | src/player/frame_buffer.rs:31-59 | over a plain map, in every run, the two 16-bit markers are the images of the unbounded ones |
| `PlayoutRuns.WindowHolds` | src/player/frame_buffer.rs:31-59 | in every run within the reader's window the buffer holds exactly the latest packets that arrived at or after the read marker, each under its number |
| `PlayoutRuns.WindowIsOneHalfCircle` | src/player/frame_buffer.rs:31-41 | arrivals within the reader's window lie in one half circle with all stored numbers |
| `PlayoutRuns.FlushBackwardsEmpties` | src/player/frame_buffer.rs:43-50 | in every such run a flush backwards by at most 2^15 empties the buffer |
| `PlayoutRuns.CallIsSteps` | src/player/frame_buffer.rs:131-154 | an uninterrupted call of the iterator is one or three audio steps of a run |
| `Playback.AudioStepMovesSamples` | src/player/frame_buffer.rs:131-154 | a step of the audio thread loses, repeats and reorders no sample |
| `Playback.PlaybackIsInOrder` | src/player/frame_buffer.rs:52-59 | in every run within the window, with flushes, the samples heard from the ordered map and those left in hand are the packets of the played indices joined together; these only increase and are all indices passed but the flushed ones |
| `Playback.PlaybackIsConcatenation` | src/player/frame_buffer.rs:131-154 | without flushes, what is heard is a prefix of packet(r0), packet(r0+1), ... joined, over any number of wraps |
| `Playback.PlayedOrSkipped` | src/player/frame_buffer.rs:43-59 | over a plain map, whatever arrives, each index passed was either played or flushed over, never both |
| `Playback.LaterIsFurtherOn` | src/player/frame_buffer.rs:31-59 | the read marker never goes back: later plays are of later indices, and packets passed do not change |
| `Playback.AfterFlushOnlyTheTargetOn` | src/player/frame_buffer.rs:43-50 | after a flush the source emits the rest of the packet it holds and then only packets at or after the target |
| `Playback.LatePacketIsPlayedALapLater` | src/player/frame_buffer.rs:31-50 | a run outside the window: a packet behind the read marker is played one lap later for one that never came |
| `Playback.SilenceOnlyFillsHoles` | src/player/frame_buffer.rs:141-153 | whatever the player does in between, taking the lock and the step after emit the first sample of the due packet, and silence exactly when that packet has not arrived or is empty |
| `LossRecovery.GapIsWhatLiesBetween` | src/player/frame_buffer.rs:33-40 | an arrival within half a window of the previous one reports exactly the indices strictly between them |
| `LossRecovery.GapIsExactExactlyWhen` | src/player/frame_buffer.rs:37-40 | for any arrival whatsoever the report is exactly the indices between the two arrivals if and only if the new one is at most 2^15 ahead and, when it is not ahead, the range is empty |
| `LossRecovery.LateGapIsEmptyExactlyWhen` | src/player/frame_buffer.rs:37-40 | for an arrival less than a lap behind the previous one the range is empty if and only if it is at most 2^15 - 1 behind |
| `LossRecovery.RequestAsksForTheMissing` | src/player/mod.rs:338-349 | in the window the range is not empty, the wire count is the number of missing packets, and the request decodes to their numbers across wrap |
| `LossRecovery.EveryIndexArrivedOrReported` | src/player/frame_buffer.rs:31-41 | for any order of arrivals in the window, every index after the first up to the highest that ever arrived has arrived or been reported |
| `LossRecovery.ReportedWasRequested` | src/player/mod.rs:341-349 | every reported index is named by the request for some non-empty range returned in the run |
| `LossRecovery.KeepingHolds` | src/player/frame_buffer.rs:31-59 | with arrivals less than half a window ahead of the reader and in one half circle with what is stored, a search of the ordered map under the number of any packet that arrived at or after the read marker finds a packet |
| `LossRecovery.LatestPacketIsFound` | src/player/frame_buffer.rs:31-59 | when arrivals are less than half a window behind the reader too, it finds that very packet |
| `LossRecovery.ArrivalKeepsPacketsExactlyWhen` | src/player/frame_buffer.rs:31-35 | one arrival leaves every due packet what it was if and only if the index that its number stands for, counted from the reader, is its own, has not arrived, or carried the same samples |
| `LossRecovery.StalePacketReplaces` | src/player/frame_buffer.rs:31-35 | a run in which a packet of an earlier lap takes the place of one that is due |
| `LossRecovery.StallIsExplained` | src/player/frame_buffer.rs:52-59 | with the writer's window and the half circle, whichever keys the map compares: a reader that finds nothing at an index not beyond the highest arrival waits for a packet that has not arrived, the first one or one that an earlier arrival's request named |
| `LossRecovery.StallInTheWindowsIsExplained` | src/player/frame_buffer.rs:52-59 | so does every reader in a run within the writer's and the reader's window |
| `LossRecovery.StallOnAStoredPacket` | src/player/frame_buffer.rs:12-60 | a run outside the half circle in which the reader waits for a packet that has arrived, is in the map, was never requested and is not the first |
| `LossRecovery.AnsweredRequestsFillTheBuffer` | src/player/frame_buffer.rs:31-59 | recovery is complete: once the first packet and all reported ones have arrived, every packet from the read marker to the highest arrival is in the buffer, and taking from the ordered map yields the packet at the read marker |
| `LossRecovery.FirstPacketIsNeverReported` | src/player/frame_buffer.rs:23-41 | in every run within the writer's window in which nothing before the first packet arrives, all reported indices are after the first |
| `LossRecovery.FirstPacketStalls` | src/player/frame_buffer.rs:23-29 | a run in which the reader waits for the first packet and nothing is reported |
| `LossRecovery.ForwardRunsPartition` | src/player/control_sender.rs:45-51 | when each arrival is ahead of the last, arrivals and reports are disjoint, are together exactly the indices up to the write marker, and arrivals plus all wire counts are their number |
| `Conservation.SamplesAreConserved` | src/player/frame_buffer.rs:31-59 | in every run without exception, over the ordered map and whichever keys it compares, each sample value arrived as often as it was emitted, is in hand, is in an entry of the map, was taken out by a flush or was in an entry that an arrival took over, taken together |
| `OrderedMaps.SearchableIsSorted` | src/player/frame_buffer.rs:12 | all searches find all stored keys, whichever comparisons they make, if and only if each key is before every later one |
| `OrderedMaps.LookupIsExact` | src/player/frame_buffer.rs:12 | however a search of a sorted row picks its comparisons, it finds a key if and only if it is there |
| `OrderedMaps.InsertAgrees` | src/player/frame_buffer.rs:35 | inserting a key that shares a half circle with those stored keeps the row sorted and agrees with a plain map |
| `OrderedMaps.InsertKeepsOrderExactlyWhen` | src/player/frame_buffer.rs:35 | an insertion keeps a row sorted if and only if the new key and all stored ones lie in one half circle |
| `OrderedMaps.RemoveAgrees` | src/player/frame_buffer.rs:54 | removing keeps the row sorted and returns what a plain map would |
| `OrderedMaps.WalkAgrees` | src/player/frame_buffer.rs:43-50 | the flush loop over the ordered map, over any distance and for any sorted row, agrees with flushing a plain map |
| `OrderedMaps.OrderedMapIsAMap` | src/player/frame_buffer.rs:12-60 | in every run in which each arriving number shares a half circle with those stored, late packets included, the program over the ordered map goes through the states of the program over a plain map |
| `OrderedMaps.InTheWindowOrderedIsAMap` | src/player/frame_buffer.rs:12-60 | so it does in every run within the reader's window |
| `OrderedMaps.SearchableExactlyWhen` | src/player/frame_buffer.rs:12-60 | throughout a run every stored key can be found if and only if each arriving number shared a half circle with those stored at that moment |
| `OrderedMaps.SpreadKeysGetLost` | src/player/frame_buffer.rs:12 | three keys spread over more than half a circle: a stored key is missed by a search |
| `ControlChannel.RequestNamesTheRange` | src/player/control_sender.rs:42-53 | for every range, decoding the request gives exactly the numbers of the range: the 16-bit count never truncates |
| `ControlChannel.RequestBytes` | src/player/control_sender.rs:45-51 | the eight bytes: 0x80, 0xD5, 0, 1, then the first missing number and the count, high byte first |
| `ControlChannel.RunSender` | src/player/control_sender.rs:22-59 | one request per command until the channel closes or the shutdown comes, with these bytes, each naming its range |
| `ControlChannel.PathsAgree` | src/player/control_receiver.rs:56-67 | a plain RTP packet and its retransmission give the player the same command, if and only if the packet has at most 4092 bytes |
| `ControlChannel.EndsExactlyWhen` | src/player/control_receiver.rs:21-75 | exactly which arrivals end the loop and how: shutdown, empty datagram, failed receive, a retransmission shorter than 16 bytes, a packet that the player no longer takes |
| `ControlChannel.OthersArePassedOver` | src/player/control_receiver.rs:68-74 | datagrams that cannot be read, and other payload types on the control channel, give no command and keep the loop going |
| `ControlChannel.LoopStopsAtTheFirst` | src/player/server_receiver.rs:17-61 | the loop delivers the commands of each datagram up to the first arrival that ends it, and ends as that one says |
| `ControlChannel.ListeningKeepsRunning` | src/player/server_receiver.rs:17-61 | while the player listens, datagrams of at least 16 bytes keep the loop running, and all their commands are delivered |
| `ControlChannel.EveryPacketIsPut` | src/player/control_receiver.rs:56-67 | any series of plain audio packets, sent directly or retransmitted to a listening player, is put one by one in order, and the loop keeps running |
| `ControlChannel.Interpret` | src/player/control_receiver.rs:43-75 | indexing the reused buffer gives what the datagram alone gives, including the panic on a short retransmission |
| `ControlChannel.RunReceiver` | src/player/server_receiver.rs:17-61 | the commands of a whole series of datagrams are those of each datagram by itself: nothing left in the buffer leaks; how the loop ends: closed, failed in a receive or in the send to the player, or crashed |
| `ClearTailCbc.XorBitsCancels` | src/player/mod.rs:317-320 | exclusive or with the same block twice is the identity |
| `ClearTailCbc.XorBitsIsExclusiveOr` | src/player/mod.rs:317-320 | bit by bit, the combination of two numbers is exclusive or |
| `ClearTailCbc.SameBits` | src/player/mod.rs:317-320 | the bits determine the number |
| `ClearTailCbc.XorBlocksIsExclusiveOr` | src/player/mod.rs:317-320 | byte by byte and bit by bit, so is that of two blocks |
| `ClearTailCbc.CbcBlock` | src/player/mod.rs:317-320 | each decrypted block is the inverse cipher of its block, exclusive or with the block before it or the initialization vector |
| `ClearTailCbc.CbcRoundTrip` | src/player/mod.rs:317-320 | CBC decryption inverts CBC encryption for any inverse pair of block functions |
| `ClearTailCbc.PaddedDecryption` | src/player/mod.rs:311-320 | the appended zeros do not affect the whole blocks; one more block comes out of the tail |
| `ClearTailCbc.DecryptPacket` | src/player/mod.rs:310-322 | the slice bound stays in the buffer; the result is the decrypted whole blocks, the clear tail and what unpadding left behind it, or a panic |
| `ClearTailCbc.DecryptedByteByByte` | src/player/mod.rs:310-322 | every byte of a result: the clear tail as it came, everything else as CBC decrypts the packet padded with zeros, and only zeros beyond its end |
| `ClearTailCbc.DecryptionSucceedsExactlyWhen` | src/player/mod.rs:318-322 | no panic if and only if there is no tail or its decrypted block has a non-zero byte at or after the tail's last position |
| `ClearTailCbc.ClearTailRoundTrip` | src/player/mod.rs:310-322 | for every length, what is handed to the decoder starts with the plaintext of a sender that encrypts whole blocks only; for multiples of 16 there is no panic |
| `ClearTailCbc.EveryKeyHasPanickingPackets` | src/player/mod.rs:310-322 | under every block function and for every clear tail of 1 to 15 bytes: the packet of the tail alone panics under some initialization vector, and after any whole blocks and under any vector the tail panics behind some block |
| `Players.KeysAreTheLatest` | src/player/mod.rs:169-181 | there is encryption if and only if the latest announcement or teardown is an encrypted announcement |
| `Players.CipherSurvivesUntilTeardown` | src/player/mod.rs:283-287 | there is a cipher if and only if there was an encrypted announcement since the last teardown |
| `Players.CipherCarriesTheKey` | src/player/mod.rs:170-174 | where there is encryption, the cipher carries its key |
| `Players.VolumeIsTheLatest` | src/player/mod.rs:291-299 | the volume is that of the latest SetParameter, or 0.0 |
| `Players.FormatIsTheLatest` | src/player/mod.rs:176-178 | the decoder is that of the latest announcement, unless it describes none or a teardown came after it |
| `Players.SessionIsTheLatest` | src/player/mod.rs:197-198 | a session's sender is held if and only if its set-up is the latest and no teardown came after it |
| `Players.OlderSessionsAreNotified` | src/player/mod.rs:197-230 | between commands at most one sender handle is alive, of the latest session and only before its teardown; all others' tasks have been notified |
| `Players.NarrowedAreUpperHalves` | src/player/mod.rs:332-335 | each sample is the upper half of the decoder's, as a signed number; 32-bit samples give 16-bit ones |
| `Players.DecodingSucceedsExactlyWhen` | src/player/mod.rs:309-335 | exactly when a packet is decoded, and that what comes out are the upper halves of the decoder's samples |
| `Players.RequestsGoToTheLatestSession` | src/player/mod.rs:218 | resend requests go to the latest session even after its teardown |
| `Players.SetupSenders` | src/player/mod.rs:197-198 | the two handles of the new sender and the dropped one of the old add up to one live handle after the command |
| `Players.DecoderSeesWhatWasSent` | src/player/mod.rs:309-336 | end to end: the samples of a packet encrypted with the announced key are the upper halves of those decoded from bytes that start with the sender's plaintext |
| `Players.RepliesAreLatest` | src/player/mod.rs:295-299 | each reply to a volume query is the volume of the latest SetParameter before it |
| `Players.EndsExactlyWhen` | src/player/mod.rs:150-361 | exactly which commands make the player panic or stop: a wrong key length, an undecodable packet, an unbound socket, and a request with nobody to take it |
| `Players.Player.constructor` | src/player/mod.rs:139-145 | all local variables start as the empty history says |
| `Players.Player.HandleAnnounce` | src/player/mod.rs:169-181 | the state stays a function of the history; panics if and only if the key is not 16 bytes long |
| `Players.Player.HandleSetup` | src/player/mod.rs:182-272 | the state stays a function of the history, with exactly the new session's sender alive; returns an error when a socket cannot be bound |
| `Players.Player.HandleRecord` | src/player/mod.rs:273-282 | a new empty buffer at the given number and a source over it with 2 channels, 44100 Hz and silence 0 |
| `Players.Player.HandleTeardown` | src/player/mod.rs:283-290 | drops the sender, the keys, the cipher and the decoder; the buffer stays |
| `Players.Player.HandleSetParameter` | src/player/mod.rs:291-294 | only the volume changes |
| `Players.Player.HandleGetParameter` | src/player/mod.rs:295-299 | replies with the volume that the history gives |
| `Players.Player.HandleFlush` | src/player/mod.rs:300-307 | flushes the buffer, if there is one |
| `Players.Player.DecodePacket` | src/player/mod.rs:309-335 | decryption, decoding and narrowing of a packet, with every way to panic; what it returns are the upper halves of the decoder's samples |
| `Players.Player.BufferPacket` | src/player/mod.rs:336-342 | stores the samples; a request is due if and only if the gap is not empty and there was a set-up, and none for the packet after the write marker |
| `Players.Player.PutTaken` | src/player/mod.rs:308-359 | the keys are taken and put back; exactly when it panics, when it stops the player, and what it buffers and requests |
| `Players.Player.HandlePutPacket` | src/player/mod.rs:308-359 | the same, and the state stays a function of the history |
| `Players.Player.Handle` | src/player/mod.rs:168-360 | for every command: how it ends, what it does to the buffer, what it replies and requests, as functions of the history and the buffer before; a harmless command leaves the player running |
| `Players.Player.Run` | src/player/mod.rs:150-361 | over any command list, with the audio thread at rest: local variables, buffer, replies and requests are those the history gives; if every command is harmless all are handled and the player runs on, and it stops only at one that is not |
| `PlayerRuns.QuietIsTheLoop` | src/player/mod.rs:150-361 | without audio steps the buffer of a player run is the one that the loop computes |
| `PlayerRuns.QuietRequestsAreTheLoops` | src/player/mod.rs:150-361 | and the requests of such a run are the last ones of the loop |
| `PlayerRuns.InputsAreEvents` | src/player/mod.rs:273-342 | what each input is in the run: a Record starts it anew, a Flush walks to its target, a decodable packet arrives with its samples, nothing else counts |
| `PlayerRuns.PlayerRunIsARun` | src/player/mod.rs:273-342 | for any commands and audio steps in any interleaving, buffer and source are in the state of the playout run since the latest Record, its arrivals being the decoded packets |
| `PlayerRuns.EveryPacketIsPutOrAskedFor` | src/player/mod.rs:336-351 | end to end: after a set-up and a Record, every index after the first up to the highest put since was put or is named by a request made since, with packets in the writer's window |
| `PlayerRuns.OnlyReportsAreAskedFor` | src/player/mod.rs:336-351 | nothing else is asked for: each requested number is that of an index reported since the Record |
| `PlayerRuns.PacketInOrderAsksNothing` | src/player/mod.rs:341 | a packet directly after the one before makes the player ask for nothing |
| `PlayerRuns.PlayerPlaysInOrder` | src/player/mod.rs:273-342 | end to end: what is heard since the latest Record, and what is in hand, is the decoded packets of the played indices in increasing order, also over the ordered map, with packets in the reader's window |
| `Connections.Connection.ParseMessage` | src/rtsp/connection.rs:122-143 | the parser's result on the buffer; a message's bytes are discarded, anything else leaves the buffer |
| `Connections.Connection.ReadMessage` | src/rtsp/connection.rs:65-90 | the reply, the bytes taken and what is left are those of one call on buffer and socket |
| `Connections.ConversationIsFraming` | src/rtsp/connection.rs:65-90 | repeated calls return the messages, and end in the way, that framing the whole stream at once gives |
| `Connections.ChunkingDoesNotMatter` | src/rtsp/connection.rs:65-90 | for a prefix-stable parser any two splits of a stream give the same messages and the same ending |
| `Connections.BytesAreKept` | src/rtsp/connection.rs:126 | bytes taken by messages, bytes buffered and bytes unread are, in order, the bytes that were there |
| `Connections.WholeMessagesComeOut` | src/rtsp/connection.rs:53-63 | whole messages sent one after the other are received as those messages |
| `Connections.HowItEnds` | src/rtsp/connection.rs:65-90 | for whole messages followed by anything that is not one, in any chunks: bad message, still waiting, the socket's failure, clean close or reset |
| `Connections.CleanCloseMeansWholeMessages` | src/rtsp/connection.rs:78-87 | for a parser that also needs no lookahead, the end is clean if and only if everything sent was whole messages |
| `ServerShutdown.StepKeepsInv` | src/server.rs:18-102 | handle counts: every live handler, and player, announcer and listener until dropped, hold one completion handle each |
| `ServerShutdown.NoHandlerOutlivesTheServer` | src/server.rs:98-104 | in every reachable state the final wait can end if and only if no handler is left, and the server returns only then |
| `ServerShutdown.NoReplyIsLostWhileServing` | src/rtsp/handler.rs:164-201 | in every reachable state in which the server serves, a handler waits for the player exactly when the player has its request, once only; no reply is lost and no send fails |
| `ServerShutdown.OnlyConnectionsEndHandlers` | src/rtsp/handler.rs:66-90 | while the server serves a handler ends only with its connection, when it reads or writes |
| `ServerShutdown.TheReplyComes` | src/player/mod.rs:150-180 | the player alone answers a waiting handler, first come first served, in as many steps as the requests before it take and at most nine |
| `ServerShutdown.EveryRequestCanBeServed` | src/rtsp/handler.rs:66-90 | from every reachable state in which the server serves, a handler with a request gets back to reading by its own and the player's steps alone, and no connection is lost |
| `ServerShutdown.PhaseIsHistory` | src/rtsp/handler.rs:66-90 | a handler's phase is that of its latest step: no response before the reply that its request needs, no command that no request needs |
| `ServerShutdown.EveryStepBringsTheEndNearer` | src/rtsp/handler.rs:66-90 | after the drops every step but a new request shortens what remains |
| `ServerShutdown.NoHandlerIsStuck` | src/rtsp/handler.rs:66-90 | after the drops every live handler, also one awaiting a reply of the player, can take a step |
| `ServerShutdown.NeverStuck` | src/server.rs:78-102 | before it has returned the server can always go on without the peers' help |
| `ServerShutdown.ShutdownIsAlwaysPossible` | src/server.rs:72-104 | from every reachable state, with any number of handlers in any phase, there is a way to return that needs no further connection or request |
| `ServerShutdown.TheWaitIsBounded` | src/server.rs:92-102 | after the drops a run without new requests is no longer than a bound given by the handlers' phases |
| `RtpInfos.ParameterReadsSpelling` | src/rtp_info.rs:28-50 | any spelling of a parameter, in any case and with any blanks, is read back and what follows is left; a value out of range is refused |
| `RtpInfos.SpellingOfParameter` | src/rtp_info.rs:28-50 | whatever is accepted as a parameter is a spelling of one |
| `RtpInfos.SpellingsAre` | src/rtp_info.rs:28-50 | what a spelling is, letter by letter: the name in any mixture of capitals and small letters, decimal digits, spaces and tabs |
| `RtpInfos.InfoReadsSpellings` | src/rtp_info.rs:19-25 | both orders, with or without semicolons: the two values, or an error if one of them is out of range |
| `RtpInfos.ParserIsExact` | src/rtp_info.rs:19-25 | the parser accepts exactly the texts of the grammar, with the right values and rest |
| `RtpInfos.PrintedInfoIsRead` | src/rtp_info.rs:19-25 | a number below 65536 and one below 2^32, printed in decimal in either order, are read back; larger ones are refused |
| `RtpInfos.HeaderIsRead` | src/rtp_info.rs:19-25 | a header with capitals, a blank, a tab and a semicolon is read |

## Left out

- Sockets, timers, mDNS, the command line and tracing: plumbing; arrivals, replies and failures are events or parameters.
- RTSP, SDP, RTP and ALAC parsing and decoding, AES, RSA and the Apple challenge: libraries, taken as parameters where they are needed.
- Decoder state: the ALAC decoder is a function of the format and the bytes, although the library may keep state between packets.
- The audio sink: the queue that plays sources one after another, and real-time behaviour; a player run may have any number of audio steps on the latest buffer, or none.
- FrameBuffers.FrameBuffer: the class keeps its packets in a plain map; the ordered map is modelled on values, in `OrderedMaps`.
- Volume as a floating-point number: it is only stored and returned, and is a `real` here.
- The locks themselves: a locked section is one step of a run.
- A search tree's shape: an ordered map is a row of entries in which each search may pick any comparison next; balancing is not modelled.
- Non-ASCII letters in the RTP-Info header: case folding is modelled for ASCII letters.
- `src/base64.rs`, `Listener::accept`'s back-off, the timing sender and receiver and the type-84 branch: small and without interplay.
- The responses of the RTSP handler: only what it waits for and when it ends.
- `Shutdown`'s flag: it is set only on the way out of the loop that reads it; a handler in the protocol simply ends.
- Retransmissions longer than the receive buffer, and packets with CSRC list, extension or padding: the header reader is constrained on plain packets only.
