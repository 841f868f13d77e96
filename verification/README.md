# Boardswarm, modelled and proved

A Dafny model of the parts of boardswarm that decide what ends up on a board, who gets which answer,
and what the server believes to exist. `dafny verify dfyconfig.toml` checks the whole project.

**The volume write path.** A client copies a byte stream through a `BatchWriter` into a `VolumeIoRW`,
which sends positioned requests; the fastboot target collects them in a chunk list under a download
budget, flashes the list as a raw or sparse image, and the device (or `write_aimg` in the CLI) decodes
it. `StreamReachesDevice` joins all of it: the bytes accepted at one end are the bytes on the partition
at the other. Objects that the program updates in place are classes here (`FastbootData`,
`FastbootVolumeTarget`, `VolumeIo`, `VolumeIoRW`, `BatchWriter`); each of their methods is proved equal to
a step function on values, and the theorems are about all runs of those steps.

**The request and reply protocol.** Requests and replies carry no identifiers; only their order pairs
them. The state machine in `Protocol.dfy` has one record per client, link and server, a chain of any
number of them in front of a target, and one action per atomic step, in any interleaving: polling and
emitting the request stream, taking and handing out requests, completing out of order, replying,
matching, and every way to stop. `EveryRunIsPaired` is the main result; `StreamThroughChain` puts the
write path on top of it.

**Registries, registrations, providers, devices.** The registry keeps a log of its changes; replicas
take a list and apply the changes from an earlier point on. Around it: device registrations guarded by
sequence numbers, a provider that mirrors a remote registry, the item links of a configured device, and
its modes.

| file | what it models |
|---|---|
| `Bytes.dfy`, `Wrappers.dfy` | bytes, images as maps from positions, block arithmetic |
| `Fastboot.dfy`, `FastbootWrite.dfy`, `FastbootRuns.dfy`, `FastbootPlacement.dfy`, `FastbootTarget.dfy` | chunk list, write loop, runs of writes and flushes, where a write misses its place, the target object |
| `FastbootServer.dfy` | the target as a server of requests whose flashes may fail |
| `SparseImage.dfy`, `FastbootImages.dfy` | sparse encoder, decoder, sizes and counts; every image a run hands to its device |
| `VolumeRw.dfy`, `VolumeIoClient.dfy`, `VolumeRwRuns.dfy`, `VolumeRwAnswers.dfy` | steps of `VolumeIoRW`, its object, its runs, what each poll answers |
| `Batching.dfy`, `BatchWriter.dfy`, `BatchAnswers.dfy` | steps of `BatchWriter`, its object, what each poll answers |
| `EndToEnd.dfy` | the write path from stream to partition |
| `Protocol.dfy`, `Pairing.dfy`, `ProtocolRuns.dfy` | chain of clients and servers, its invariant, its runs |
| `ChainToDevice.dfy` | the write path across such a chain |
| `Registry.dfy` | property matching, registry, replication |
| `Registrations.dfy`, `DeviceRegistrations.dfy` | registrations and their histories, the objects |
| `Provider.dfy` | mirror of a remote registry, its object |
| `Links.dfy`, `DeviceModes.dfy`, `ConfigDevice.dfy` | item links, modes, the device object |

## What the code does not do

Each of these is proved of the model, as an exact condition or with a concrete run.

- `FastbootVolumeTarget::write` passes the same offset in every turn of its loop. A write is placed
  correctly for all data just when one append takes it and no chunks touch, neither those buffered nor the
  last one and a new one (`PlacementExact`); `MisplacedWrite` and `TouchingNeighbour` are runs in which one
  of the two is missing. A budget of 16 MiB, the write rounded up to a block, and 24 bytes is enough for the
  first (`AmpleBudget`), and whole-block writes for the second (`WholeRunSucceeds`).
- A chunk that touches its predecessor makes the image announce a header it does not contain, and the
  decoder fails at the end of the file; decoding succeeds just when no neighbours touch (`RoundTrip`). A
  run of aligned writes succeeds on the device just when that holds of every list it hands over, and just
  then size and chunk count of every image are announced exactly (`RunSucceeds`). For other lists the size
  is exact just when, besides, every piece but the last of each chunk is a whole number of blocks
  (`HeaderExact`).
- Two chunks can share a block: a write of 100 bytes at 0 and one at 200. The subtraction of block numbers
  in front of the second (`boardswarm/src/fastboot.rs:408`) then goes below zero, and wraps in a release build
  (`SharedBlock`). A chunk behind the last one avoids this just when it starts at or behind the last end
  block, and is accepted just when it starts behind it and none before touch (`PartialNeighbour`); aligned
  writes never cause it (`RunImages`).
- An unaligned write that starts a chunk zeroes the bytes in front of it in its block, whatever the list
  holds (`FrontPadding`), and exceeds the download budget, by at most a block, just when there is no room
  for those zeros (`UnalignedBudget`, `OverBudget`).
- A flush succeeds after a write whose flash failed (`LaterFlushSucceeds`): at the target, only all answers
  together say that the partition is right (`AllServed`). Behind a server, a success says that of all
  requests before it (`SuccessIsPrefix`).
- A seek keeps read bytes that are left over and a read in flight, which then answer for the new
  position (`SeekThenRead`, `StaleByte`).
- A provider registers an item twice that was added between its subscription and its list, and never
  removes the first copy (`MirrorIsExact`, `LeftBehind`). When the properties of a remote item cannot be
  looked up, mirroring ends and leaves every proxy registered (`MonitorItems`, `LookupLost`).
- A device link names the newest matching item only: with two live matches, removing the newer one leaves
  no link (`LinkIsNewest`, `OlderIsForgotten`). A link to an item that went away during a lag stays just
  when no matching item is listed or added afterwards (`DeadLinkStays`, `LostRemoval`).
- A write poll can take the error of a flush that still waits; the flush then completes although it failed
  (`FlushErrorTaken`, `CompletedWasSent`).
- Two devices under one path and one sequence number share their setups: a setup takes effect just when
  its number is that of the device present and no setup with it has ended since (`SetupTakesEffect`,
  `RepeatedNumber`).

## Model

| member | source | states |
|---|---|---|
| Fastboot.FastbootData.Append | boardswarm/src/fastboot.rs:294-333 | takes exactly the prefix that fits, continuing the last chunk or starting a new one, or refuses data that lies behind |
| Fastboot.AppendProgress | boardswarm/src/fastboot.rs:294-333 | an append makes progress unless the offset lies behind, and exceeds the budget only when it starts a chunk inside a block, by at most a block |
| SparseImage.EmitChunk | boardswarm/src/fastboot.rs:406-425 | emits the skip to the chunk, as a 32-bit number that wraps when the chunk lies before the position reached, its header, its pieces and the zeros that complete its block |
| SparseImage.DownloadAimg | boardswarm/src/fastboot.rs:389-431 | the image of any chunk list, block-sharing ones included, and the download size announced for it |
| SparseImage.WriteAimg | boardswarm-cli/src/main.rs:114-156 | the decoder loop leaves on the volume what decoding the file means, and fails just when that does: at a header or fill pattern that is not there |
| SparseImage.RawDecoded | boardswarm-cli/src/main.rs:134-137 | a raw chunk lays all the bytes it asks for at the position, or as many as there are |
| SparseImage.FillDecoded | boardswarm-cli/src/main.rs:138-144 | a fill chunk repeats its four bytes over whole words of its blocks, and nowhere else |
| SparseImage.OtherDecoded | boardswarm-cli/src/main.rs:126-150 | skips move on, checksums are passed over, a header or fill pattern that is not there breaks off |
| SparseImage.RoundTrip | boardswarm/src/fastboot.rs:389-431 | decoding an encoded block-disjoint list lays each chunk at its offset, zero-padded to its block end, and skips the gaps, if no neighbours touch; otherwise decoding fails |
| SparseImage.ChunkCount | boardswarm/src/fastboot.rs:285-291 | the announced chunk count bounds the emitted headers, with equality just when no neighbours touch |
| SparseImage.HeaderExact | boardswarm/src/fastboot.rs:270-283 | the announced size bounds the image, with equality just for untouching chunks of whole pieces up to their last |
| FastbootImages.EveryImageFine | boardswarm/src/fastboot.rs:666-718 | over any run of aligned writes of any length and flushes, every list handed to the device, and the one left, has its chunks in order without a shared block, non-empty, of whole pieces up to their last, and within the budget |
| FastbootImages.FineImage | boardswarm/src/fastboot.rs:261-291 | of such a list the image fits the budget and no skip goes back; its size is announced exactly, and so is its chunk count, and it decodes to the list's meaning, each just when no neighbours touch |
| FastbootImages.RunImages | boardswarm/src/fastboot.rs:389-431 | so for every list of every run from an idle target: the encoder's subtraction never wraps and the round trip applies |
| FastbootImages.RunHands | boardswarm/src/fastboot.rs:666-718 | the run on the device is exactly the flashing of those lists in order |
| FastbootImages.RunSucceeds | boardswarm/src/fastboot.rs:666-718 | a run succeeds on the device if and only if no list it hands over has touching neighbours, and if and only if every image is announced exactly |
| FastbootImages.WholeRunSucceeds | boardswarm/src/fastboot.rs:389-431 | any run of whole-block aligned writes and flushes, with any budget from 8192 bytes on, is announced exactly throughout and succeeds |
| FastbootImages.EveryChunkFilled | boardswarm/src/fastboot.rs:294-333 | over any run at all, unaligned writes included, no list ever holds an empty chunk |
| SparseImage.ExpandedExact | boardswarm/src/fastboot.rs:261-268 | the announced block total is the sum over the emitted headers |
| SparseImage.TotalsExact | boardswarm/src/fastboot.rs:406-425 | the sizes in the chunk headers add up to the body of the image |
| FastbootWrite.FlashBudget | boardswarm/src/fastboot.rs:666-685 | every image a block-aligned write flashes fits the download budget, and the loop ends |
| FastbootWrite.WriteConserves | boardswarm/src/fastboot.rs:666-685 | what is flashed followed by what stays buffered is what was buffered followed by the written bytes |
| FastbootWrite.AmpleBudget | boardswarm/src/fastboot.rs:662-674 | a budget that makes any aligned write of that length a single append |
| FastbootWrite.OneShotWrite | boardswarm/src/fastboot.rs:666-685 | such a write flashes what lies behind it, appends once and flashes above the threshold |
| FastbootRuns.RunWhole | boardswarm/src/fastboot.rs:666-718 | any run of whole-block aligned writes and flushes, in any order, stands for the ordered overlay of its writes |
| FastbootRuns.RunOverlay | boardswarm/src/fastboot.rs:666-718 | such a run, a last write of any length and a flush leave exactly the overlay on the partition, with at most zeros to the end of the last block |
| FastbootRuns.AffordableRun | boardswarm/src/fastboot.rs:662-674 | a budget and range a client can check in advance make every write of a run a single append |
| FastbootPlacement.PlacementExact | boardswarm/src/fastboot.rs:666-685 | a write at any offset, to any list of non-empty chunks, is placed for every device content and data of its length if and only if one append takes it and no chunks touch |
| FastbootPlacement.FlushedClear | boardswarm/src/fastboot.rs:666-718 | a write that one append takes, and a flush, reach the device if and only if no chunks touch |
| FastbootPlacement.TouchingNeighbour | boardswarm/src/fastboot.rs:318-331 | 100 bytes at 0 and 100 at 4096: two aligned single appends after which the flush fails |
| FastbootPlacement.MisplacedWrite | boardswarm/src/fastboot.rs:666-685 | a block and one byte under the smallest budget are not placed |
| FastbootPlacement.FrontPadding | boardswarm/src/fastboot.rs:318-331 | on any list of non-empty chunks, a write at any offset that starts a chunk and a flush leave what the list holds, zeros from the start of the write's first block, and the data, unless chunks touch, when they fail |
| FastbootPlacement.UnalignedBudget | boardswarm/src/fastboot.rs:294-333 | when an append to any list stays within the budget: it continues a chunk, is aligned, or leaves room for the block of zeros |
| FastbootPlacement.OverBudget | boardswarm/src/fastboot.rs:318-331 | a concrete write whose image exceeds the budget |
| FastbootPlacement.PartialNeighbour | boardswarm/src/fastboot.rs:318-331 | a new chunk behind the last one of any list, at any offset: blocks stay disjoint just when it starts at or behind the end block, and the device accepts the image just when a free block lies between, and between all before |
| FastbootPlacement.SharedBlock | boardswarm/src/fastboot.rs:406-410 | 100 bytes at 0 and 100 at 200: two chunks in one block, a skip that wraps to 0xFFFF_FFFF, and no image |
| FastbootPlacement.BlockNumberWraps | boardswarm/src/fastboot.rs:318-331 | from 16 TiB on a chunk lies at the start of the volume again |
| FastbootTarget.FastbootVolumeTarget.AppendOrFlash | boardswarm/src/fastboot.rs:671-685 | one turn of the loop, with the list handed to the device or the failure to do so |
| FastbootTarget.FastbootVolumeTarget.Write | boardswarm/src/fastboot.rs:666-702 | the loop flashes and buffers what its specification says, and completes at once or after its flashes; a failure to send leaves a proper prefix |
| FastbootTarget.Complete | boardswarm/src/fastboot.rs:687-700 | a write is answered with its length unless a flash could not be sent or one of its own flashes failed |
| FastbootTarget.FastbootVolumeTarget.Flush | boardswarm/src/fastboot.rs:704-718 | what is buffered is sent once or not at all; the answer is ok if and only if that flash, or with nothing buffered a ping, was sent and its own result was good |
| FastbootServer.ServeRequest | boardswarm/src/main.rs:939-983 | the object serves each request as `ServeOne` says, given the results of the flashes it sent |
| FastbootServer.ServeAnswers | boardswarm/src/fastboot.rs:666-718 | a write is answered without an error just when all its flashes were sent and went well, a flush or shutdown just when its flash or ping was, a read never |
| FastbootWrite.FlashedAbove | boardswarm/src/fastboot.rs:662-685 | a write taken by one append is flashed at once just when the list exceeds 16 MiB or the limit less two blocks |
| VolumeIoClient.VolumeIoRW.CleanupPendingRequests | boardswarm-client/src/client.rs:702-723 | drops answered requests in order up to the first that failed |
| VolumeIoClient.VolumeIoRW.CopyBufferedRead | boardswarm-client/src/client.rs:725-735 | hands out left-over bytes and moves the cursor past them |
| VolumeIoClient.VolumeIoRW.PollWrite | boardswarm-client/src/client.rs:743-794 | is the write step: at most 3 MiB at the cursor, left-over bytes dropped, earlier errors first |
| VolumeIoClient.VolumeIoRW.PollFlush | boardswarm-client/src/client.rs:796-852 | is the flush step |
| VolumeIoClient.VolumeIoRW.PollShutdown | boardswarm-client/src/client.rs:854-899 | is the shutdown step |
| VolumeIoClient.VolumeIoRW.PollRead | boardswarm-client/src/client.rs:903-958 | is the read step |
| VolumeIoClient.VolumeIoRW.StartSeek | boardswarm-client/src/client.rs:962-972 | is the start of a seek, refused while one is under way |
| VolumeIoClient.VolumeIoRW.PollComplete | boardswarm-client/src/client.rs:974-1010 | is the end of a seek |
| VolumeRw.ShutdownCases | boardswarm-client/src/client.rs:854-899 | a shutdown poll sends at most one shutdown and completes only with nothing awaited |
| VolumeRwAnswers.FailureIsReported | boardswarm-client/src/client.rs:702-723 | if the oldest awaited requests were answered without an error up to one that failed, the next write, flush or shutdown poll returns that failure, settles the requests up to it and sends nothing |
| VolumeRwAnswers.EveryFailureReported | boardswarm-client/src/client.rs:702-723 | no failure is lost: once all awaited requests are answered, as many polls as there are failures return exactly these, in order |
| VolumeRwAnswers.WriteAnswers | boardswarm-client/src/client.rs:743-794 | otherwise a write sends at most 3 MiB at the cursor and accepts them if the channel has room, waits while it is full, and fails once it is closed |
| VolumeRwAnswers.WaitAnswers | boardswarm-client/src/client.rs:796-899 | otherwise a flush or shutdown sends its request when the channel has room and then waits until nothing is awaited; a flush after a shutdown is an error |
| VolumeRwAnswers.WaitingCompletes | boardswarm-client/src/client.rs:796-899 | a flush or shutdown that waits completes if and only if every awaited request was answered without an error |
| VolumeRwAnswers.CompletedWasSent | boardswarm-client/src/client.rs:796-899 | in every run a flush or shutdown that completes sent its request after all others, and that was answered, without an error unless a poll returned it |
| VolumeRwAnswers.FlushErrorTaken | boardswarm-client/src/client.rs:743-852 | a concrete run in which a write poll returns the error of a waiting flush, which then completes |
| VolumeRwAnswers.ReadAnswers | boardswarm-client/src/client.rs:903-958 | a read completes just when bytes are left over or its own answer brought some, hands out the first of them and keeps the rest; it waits without an answer and fails with its own error |
| VolumeRwAnswers.EmptyReadIsAnswered | boardswarm-client/src/client.rs:939-953 | a reader with room gets no bytes only for an empty answer |
| VolumeRwAnswers.SeekAnswers | boardswarm-client/src/client.rs:962-1010 | what a seek does to the cursor, for every kind of position, size and range |
| VolumeRwRuns.ErrorsOnce | boardswarm-client/src/client.rs:702-723 | over every run each failed write, flush or shutdown is reported at most once, in issue order |
| VolumeRwRuns.CompleteMeansSettled | boardswarm-client/src/client.rs:796-899 | a flush or shutdown that completes means every earlier request was answered, and the failed ones are exactly those reported |
| VolumeRwRuns.ActRefines | boardswarm-client/src/client.rs:743-1010 | against a first-in-first-out server every poll is a step of a sequential file, which returns no bytes only for no room or an empty answer |
| VolumeRwRuns.ReadsAreCurrent | boardswarm-client/src/client.rs:903-958 | over every such run a read returns the volume's bytes at the cursor after all accepted writes |
| VolumeRwRuns.SeekThenRead | boardswarm-client/src/client.rs:974-1010 | the first read after a seek asks at the new position if and only if nothing was left over or in flight |
| VolumeRwRuns.StaleRead | boardswarm-client/src/client.rs:903-1010 | otherwise it hands out bytes of the old position |
| VolumeRwRuns.StaleByte | boardswarm-client/src/client.rs:903-1010 | a concrete run that reads a stale byte |
| Batching.WriterRefines | boardswarm-cli/src/utils.rs:57-133 | for any answers of the inner writer, short writes included, its bytes followed by the batched ones are the bytes reported as accepted |
| Batching.Unfinished | boardswarm-cli/src/utils.rs:57-133 | pending and failed calls change neither |
| Batching.DrainPosition | boardswarm-cli/src/utils.rs:57-75 | draining keeps the logical position |
| Batching.SeekIsLogical | boardswarm-cli/src/utils.rs:157-185 | a seek with batched bytes resolves against the position behind them and leaves nothing batched or stale |
| BatchAnswers.BlocksThatFit | boardswarm-cli/src/utils.rs:38-40 | the buffer holds as many blocks as fit in 3 MiB |
| BatchAnswers.PutAnswers | boardswarm-cli/src/utils.rs:87-133 | what a write batches, offers and answers, for every answer of the inner writer, whose errors are passed on |
| BatchAnswers.DrainAnswers | boardswarm-cli/src/utils.rs:57-75 | draining passes on that the inner writer is not ready, or fails, and otherwise leaves nothing |
| BatchAnswers.EndAnswers | boardswarm-cli/src/utils.rs:135-153 | a flush, unless discarded, and a shutdown drain first and then are those of the inner writer |
| BatchAnswers.EndCompletes | boardswarm-cli/src/utils.rs:135-153 | they complete if and only if nothing is batched and the inner writer waits with every request answered without an error |
| BatchAnswers.StartSeekAnswers | boardswarm-cli/src/utils.rs:157-173 | a seek goes to the inner writer with nothing batched, and is otherwise kept back, one at a time |
| BatchAnswers.SeekUnbatched | boardswarm-cli/src/utils.rs:157-185 | with nothing batched a seek moves the cursor of the inner writer and does nothing else |
| BatchAnswers.SeekWaits | boardswarm-cli/src/utils.rs:175-185 | a seek waits for the drain, or fails with it, and is then completed by the inner writer |
| BatchWriterClient.BatchWriter.constructor | boardswarm-cli/src/utils.rs:38-50 | the buffer is the largest multiple of the block size up to 3 MiB |
| BatchWriterClient.BatchWriter.PollFlushData | boardswarm-cli/src/utils.rs:57-75 | the drain loop is the drain step |
| BatchWriterClient.BatchWriter.PollWrite | boardswarm-cli/src/utils.rs:87-133 | is the write step: batch, or offer the buffer completed to its size |
| BatchWriterClient.BatchWriter.PollFlush | boardswarm-cli/src/utils.rs:135-145 | is the flush step |
| BatchWriterClient.BatchWriter.PollShutdown | boardswarm-cli/src/utils.rs:147-153 | is the shutdown step |
| BatchWriterClient.BatchWriter.StartSeek | boardswarm-cli/src/utils.rs:157-173 | is the start of a seek, kept back while bytes are batched |
| BatchWriterClient.BatchWriter.PollComplete | boardswarm-cli/src/utils.rs:175-185 | is the end of a seek |
| EndToEnd.CopyKeeps | boardswarm-cli/src/utils.rs:87-133 | whatever is pending or retried, the requests are consecutive full buffers and with the batched bytes hold the accepted stream |
| EndToEnd.BatchAlignment | boardswarm-cli/src/utils.rs:38-133 | from an aligned start every request before the drain is one buffer at a multiple of the block size, for writes of any length if the buffer is as large as a request |
| EndToEnd.LastWritten | boardswarm/src/fastboot.rs:666-718 | after full buffers, a last write and flushes complete the stream on the partition |
| EndToEnd.OnlyFlushed | boardswarm/src/fastboot.rs:704-718 | and so do flushes alone when nothing is left to write |
| FastbootServer.AllServed | boardswarm/src/fastboot.rs:666-718 | whatever flashes fail and whatever they leave: when every request was answered without an error, the partition is the one a target that cannot fail leaves |
| FastbootServer.RunServed | boardswarm/src/fastboot.rs:666-718 | a run that can succeed is answered without an error throughout when every flash works |
| FastbootServer.LaterFlushSucceeds | boardswarm/src/fastboot.rs:704-718 | a concrete run in which a flush succeeds after a write whose flash failed |
| EndToEnd.StreamReachesDevice | boardswarm-cli/src/utils.rs:57-153 | end to end, for writes of any length: after shutdown the partition holds exactly the accepted bytes at their place, at most zeros after them in the last block, and nothing else changed; when flashes may fail, so it is once every request was answered without an error |
| ChainToDevice.LastSucceeded | boardswarm/src/boardswarm_provider/volume.rs:80-125 | when the last request sent succeeded, the target at the end of any chain got all of them in order, and through at least one server answered every one without an error |
| ChainToDevice.ReadySucceeded | boardswarm-client/src/client.rs:854-899 | a shutdown that polls ready was the last request sent and was answered without an error |
| ChainToDevice.StreamThroughChain | boardswarm/src/boardswarm_provider/volume.rs:80-125 | end to end over any chain and interleaving: once the shutdown polls ready, the target at the far end has got exactly the requests sent, and answered all of them without an error, and its partition holds exactly the accepted bytes, also when flashes may fail |
| Pairing.NoMismatch | boardswarm-client/src/client.rs:501-528 | in a reachable state the reply at hand has the kind of the request at hand |
| Pairing.RecordInv | boardswarm-client/src/client.rs:325-332 | recording the outstanding entry before the request is emitted keeps the pairing invariant, also when the matcher is gone |
| Pairing.TakeInv | boardswarm/src/main.rs:939-983 | enqueueing the completion before the target starts keeps it |
| Pairing.HandInv | boardswarm/src/boardswarm_provider/volume.rs:80-125 | forwarding a request to the next instance, or finding that gone, keeps it |
| Pairing.FinishInv | boardswarm/src/fastboot.rs:692-700 | completing in any order keeps it |
| Pairing.ReplyHeadInv | boardswarm/src/main.rs:149-195 | the reply task, with errors, dropped completions and a listener that left, keeps it |
| Pairing.MatchInv | boardswarm-client/src/client.rs:497-539 | the matcher keeps it and every result given before |
| Pairing.DoEvolves | boardswarm-client/src/client.rs:497-539 | no step of a chain changes or removes a result, or reopens a closed channel |
| Pairing.DoInvariant | boardswarm/src/boardswarm_provider/volume.rs:80-125 | every step anywhere in a chain of any length keeps the invariant of all its hops |
| ProtocolRuns.AcceptedInOrder | boardswarm-client/src/client.rs:541-550 | requests are accepted in the order sent, all of them while the channel is open |
| ProtocolRuns.ResolvedOnce | boardswarm-client/src/client.rs:497-539 | over every run a request is resolved at most once |
| ProtocolRuns.ChainPaired | boardswarm/src/boardswarm_provider/volume.rs:80-125 | by induction on the hops, request k at the head has the final target's result for its request k: always for a success, and for the target's own errors when no connection broke |
| ProtocolRuns.SuccessIsPrefix | boardswarm/src/main.rs:149-195 | through at least one server, in every interleaving: when a request has succeeded all before it have, each with the answer the final target gave to its own |
| ProtocolRuns.EveryRunIsPaired | boardswarm/src/main.rs:149-195 | in every interleaving over any chain: the target gets a prefix of what was sent in order, results are paired and final, and the branch for unmatched kinds is dead |
| ProtocolRuns.EndedStep | boardswarm-client/src/client.rs:497-539 | once the reply stream has ended each effective client step leaves less to do and nobody adds any |
| ProtocolRuns.EndedSettles | boardswarm-client/src/client.rs:377-389 | a client with nothing left to do then has resolved exactly the requests it accepted |
| ProtocolRuns.Settles | boardswarm-client/src/client.rs:497-539 | from any state with the reply stream ended, the client's own steps resolve exactly the accepted requests within its measure of work left |
| ProtocolRuns.ReplyAnswers | boardswarm/src/main.rs:149-195 | what the reply task does with each completion; it ends at a dropped one, without a listener, and once the server loop is gone and nothing is due |
| ProtocolRuns.MatchAnswers | boardswarm-client/src/client.rs:497-539 | what the matcher gives the oldest request, and that those behind it are aborted where it stops |
| ProtocolRuns.EndAnswers | boardswarm-client/src/client.rs:541-550 | a request stream that ends closes the channel and aborts what it had not polled |
| ProtocolRuns.ReplyTaskEnds | boardswarm/src/main.rs:149-195 | with the server loop gone and every completion decided the reply task alone ends the stream |
| ProtocolRuns.GoneServerSettles | boardswarm-client/src/client.rs:497-539 | then it and the client alone settle every accepted request |
| ProtocolRuns.BothForwarded | boardswarm/src/main.rs:939-983 | a run that brings two requests to the target |
| ProtocolRuns.OutOfOrder | boardswarm/src/main.rs:149-195 | completed in the opposite order, the reply task waits and each gets its own result |
| Properties.Matches | boardswarm/src/registry.rs:43-62 | the loop with its captured flag decides: all pairs match, and a remote instance is asked for |
| Properties.OneInstance | boardswarm/src/registry.rs:43-62 | two items one pattern selects are both local or of one instance |
| Registry.Registry.Add | boardswarm/src/registry.rs:200-211 | a new id, the item under it, and one change in the log |
| Registry.Registry.Remove | boardswarm/src/registry.rs:213-218 | the item goes, with a change only if it was there |
| Registry.Registry.Contents | boardswarm/src/registry.rs:231-238 | exactly the live items, by increasing id |
| Registry.Registry.Find | boardswarm/src/registry.rs:240-252 | the matching item with the smallest id, or none matches |
| Registry.IdsAreFinal | boardswarm/src/registry.rs:200-218 | an id has one item for good and never returns once removed |
| Registry.Replicates | boardswarm/src/main.rs:683-720 | a list as of `b` and all changes since `a <= b` give exactly the registry at the end |
| Registrations.BatchIsNew | boardswarm/src/udev.rs:90-114 | a batch registers new items of the kinds asked for, in order, and nothing else changes |
| DeviceRegistrations.BatchIsStored | boardswarm/src/udev.rs:90-114 | each item of a batch is stored with its own properties and object, and every other item is left alone |
| RegistrationRuns.AlwaysPartitioned | boardswarm/src/udev.rs:47-158 | in every history, with any numbers and setups that end at any time, live items are the disjoint union of the registered lists and other users' items |
| RegistrationRuns.EveryHistory | boardswarm/src/udev.rs:47-158 | with distinct numbers, besides, each entry says exactly what became of the device present |
| RegistrationRuns.PendingIsAlive | boardswarm/src/udev.rs:135-197 | an entry is pending if and only if the setup of the device present is under way |
| RegistrationRuns.PendingIsPresent | boardswarm/src/udev.rs:135-197 | in every history, repeated numbers included, what is pending is the number of the device present as long as no setup with it ended |
| RegistrationRuns.SetupTakesEffect | boardswarm/src/udev.rs:135-197 | in every history a setup, whichever arrival it belongs to, takes effect if and only if its number is so pending, and then registers its batch |
| RegistrationRuns.StaleSetup | boardswarm/src/udev.rs:135-197 | in every history a setup under another number than the present one registers nothing and disturbs nothing, finished or dropped |
| RegistrationRuns.LiveIsPresent | boardswarm/src/udev.rs:65-82 | a live item is of a device that is present and finished its setup, or of another user |
| RegistrationRuns.RepeatedNumber | boardswarm/src/udev.rs:135-158 | a concrete run in which, with a repeated number, an outdated setup takes effect |
| DeviceRegistrations.DeviceRegistrations.PreRegister | boardswarm/src/udev.rs:47-63 | is the specified step, unregistering what the path had |
| DeviceRegistrations.DeviceRegistrations.Remove | boardswarm/src/udev.rs:65-82 | is the specified step |
| DeviceRegistrations.DeviceRegistrations.RegisterBatch | boardswarm/src/udev.rs:135-158 | is the specified step, stores the batch with its properties and objects, and the drop at its end does nothing |
| DeviceRegistrations.DeviceRegistrations.Drop | boardswarm/src/udev.rs:187-197 | is the specified step |
| DeviceRegistrations.ServerInner.UnregisterItem | boardswarm/src/main.rs:540-584 | removes exactly that item |
| Mirroring.StreamChanges | boardswarm/src/main.rs:683-720 | the item stream carries the list and then each change |
| Mirroring.AlwaysMirrors | boardswarm/src/boardswarm_provider/mod.rs:84-151 | whatever is received and whatever others do with the local registry, the ids mirror what was received, and something leaked just when an item was added that was there |
| Mirroring.MirrorIsExact | boardswarm/src/boardswarm_provider/mod.rs:84-206 | with other users at work, the ids of a provider that got the whole stream are exactly the remote ids, each naming its own proxy, and the others' items are untouched; nothing leaks if and only if no listed item was added after the subscription; a leak outlives the connection |
| Mirroring.LeftBehind | boardswarm/src/boardswarm_provider/mod.rs:84-206 | a concrete run that leaves a proxy behind |
| Mirroring.LookupLost | boardswarm/src/boardswarm_provider/mod.rs:92 | a concrete stream that ends at a failed lookup: a removal behind it is not followed and a proxy stays |
| Mirroring.EveryProxyForwards | boardswarm/src/boardswarm_provider/mod.rs:92-104 | over every run the item an id names forwards to the remote item with that id, carries the instance, and otherwise exactly the properties of that item |
| Mirroring.ServedExactly | boardswarm/src/boardswarm_provider/mod.rs:84-92 | changes are followed up to the first addition whose lookup fails, and none from there on |
| Provider.ItemProvider.AddItem | boardswarm/src/boardswarm_provider/mod.rs:84-121 | is the specified step when the lookup of the properties succeeds, with an item that stands for the remote one; otherwise mirroring ends and nothing changes |
| Provider.ItemProvider.RemoveItem | boardswarm/src/boardswarm_provider/mod.rs:123-151 | is the specified step |
| Provider.ItemProvider.HandleEvent | boardswarm/src/boardswarm_provider/mod.rs:163-180 | an event is followed up to the first failed lookup |
| Provider.ItemProvider.MonitorItems | boardswarm/src/boardswarm_provider/mod.rs:153-206 | follows the stream and unregisters what its ids still name; a failed lookup ends it there, with everything registered so far left behind |
| Links.LinkIsNewest | boardswarm/src/config_device.rs:148-270 | a link names an item if and only if it is live, matches, and no newer match was listed or added since the subscription |
| Links.LinkIsTheMatch | boardswarm/src/config_device.rs:148-270 | with at most one match live at a time the link is exactly that, or none |
| Links.OlderIsForgotten | boardswarm/src/config_device.rs:81-99 | with two, removing the newer leaves no link |
| Links.DeadLinkStays | boardswarm/src/config_device.rs:215-270 | a device that starts over after a lag with a link to an item removed meanwhile keeps it if and only if no matching item is listed or added since, and otherwise has the link it would have without the lag |
| Links.LostRemoval | boardswarm/src/config_device.rs:215-270 | a concrete run in which the removal is lost and the link stays |
| ConfigDevice.DeviceItem.SetIfMatches | boardswarm/src/config_device.rs:92-99 | sets the link of a matching item |
| ConfigDevice.DeviceItem.UnsetIfMatches | boardswarm/src/config_device.rs:81-90 | unsets the link of that item only |
| ConfigDevice.ChangeItems | boardswarm/src/config_device.rs:149-202 | every item follows the change, and a notification is due just when one moved |
| ConfigDevice.MonitorItems | boardswarm/src/config_device.rs:215-270 | every link is what the list and the changes make of it |
| ConfigDevice.Device.SetMode | boardswarm/src/config_device.rs:275-317 | is the specified step, with its answer and its log of actuator calls |
| DeviceModes.SetModeRefused | boardswarm/src/config_device.rs:276-291 | an unknown name and a wrong current mode are answered with their own errors and change nothing |
| DeviceModes.SetModeTaken | boardswarm/src/config_device.rs:292-316 | otherwise the steps are taken in order, to the end, or up to one that fails or misses its actuator, which is an error and leaves no current mode |
| DeviceModes.SetModeSucceeds | boardswarm/src/config_device.rs:275-317 | the answer is no error if and only if there is such a mode, it may follow the current one, and no step fails or misses its actuator |
| DeviceModes.EveryRunIsBacked | boardswarm/src/config_device.rs:275-317 | over every run, with actuators failing at any step, a current mode means the log ends with the complete sequences of its whole dependency chain |
| DeviceModes.ReachedByChain | boardswarm/src/config_device.rs:275-317 | a mode can be reached if and only if its dependencies form a chain that ends |
| DeviceModes.CyclesAreOutOfReach | boardswarm/src/config_device.rs:275-317 | a mode on or behind a dependency cycle is never reached |

## Left out

- FastbootWrite.FlashBudget: stated for block-aligned offsets; for any offset UnalignedBudget says when an append stays within the budget, AppendProgress by how much it does not, and OverBudget shows that this happens.
- FastbootRuns.RunOverlay: stated for writes that one append takes, block-aligned and below 16 TiB, where the 32-bit block number does not wrap; PlacementExact shows that the first part is needed.
- SparseImage.WriteAimg: headers are tokens, so a raw chunk that is short of data stops at the next header, where the source copies that header's bytes as data.
- SparseImage.DownloadAimg: chunks end within 32-bit block numbers, that is below 16 TiB.
- EndToEnd.StreamReachesDevice: the target executes the requests it gets in order; that it gets all of them in order, and answers each without an error, is what StreamThroughChain adds.
- ChainToDevice.StreamThroughChain: the write path and the chain are two state machines, joined by `Coupled`: a reply that `VolumeIoRW` has polled is a result of the chain, an error where that is one. That both send the same requests in one order is a hypothesis as well, and so is, in `HoldsAsServed`, that the target answers without an error only where `Serve` does. Directly at the target, without a server between, requests may be answered in any order, and the last answer alone says nothing of the others.
- Pairing.DoInvariant: tasks are interleaved atomic steps; that an enabled step is eventually taken is the scheduler's business and not modelled, nor are the capacities of bounded channels.
- ProtocolRuns.ChainPaired: errors the chain makes itself (aborted, unmatched, unavailable) are not attributed to the target, and neither is an error once a connection broke, which may be the connection's.
- ProtocolRuns.EndedSettles: the transport goes on polling the request stream, or drops it, after the reply stream ended.
- Registry.Registry.Add: ids do not wrap at 64 bits, and receivers of the broadcast channel do not lag, except in DeadLinkStays and LostRemoval.
- RegistrationRuns.EveryHistory: sequence numbers are distinct per path and a setup ends once; what holds without that is stated by AlwaysPartitioned and SetupTakesEffect.
- Mirroring.MirrorIsExact: the lookup of the properties succeeds for every item of the stream; MonitorItems says what happens when one fails. Remote devices and volumes, whose setup can fail besides, are left out.
- DeviceModes.EveryRunIsBacked: calls of `set_mode` do not overlap; stabilisation delays have no effect; the lookup of an actuator is an outcome that may be missing.
- Polling `VolumeIoRW` again after it reported that it is not connected, which polls a finished future.
- `FastbootVolumeTarget` under a download limit below 8192 bytes, where its threshold underflows, and block sizes above 3 MiB, for which the batch buffer is empty.
- The fastboot device is assumed to write a raw image from offset 0, to apply raw chunks and skip don't-care ones, and to run commands in the order sent; headers are values of 28 and 12 bytes, not bit patterns. It is taken to refuse an image in which chunks share a block. Whether it also objects to an announced size larger than the image is not modelled; for aligned writes RunSucceeds says that this makes no difference, since every image of a run that succeeds is announced exactly.
- USB, serial, GPIO and udev sockets, gRPC transport, authentication, configuration files and the command line: foreign calls around little logic.
- Checksum chunks in `write_aimg`, bmap and gzip copying: not produced by this encoder, or in libraries not shown.
- Wakers and task scheduling: a pending poll is an outcome, not a registration.
