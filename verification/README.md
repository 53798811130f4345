# Gray: the path from bytes to workers, and the structures beside it

Gray is a network framework. A peer packs messages into frames; a connection's reader gets them
back out of an arbitrarily fragmented byte stream, decodes them and queues them for workers. This
project models that path and the stateful structures beside it, and proves what they promise for
every input, every split of the input and every interleaving.

| file | what it holds |
|---|---|
| `Bytes.dfy`, `Options.dfy` | bytes, machine integers, byte orders, `Option` |
| `Framing.dfy` | what a length-prefixed stream means, defined on the whole stream |
| `FrameDecoder.dfy` | the streaming decoder as a class, its discard mode and its read loop |
| `Messages.dfy` | packing and decoding of TLV (big-endian) and LTV (little-endian) messages |
| `CrcRegister.dfy`, `CrcTables.dfy`, `Crc16.dfy`, `CrcDetection.dfy` | the checksum, its tables and its strength |
| `Htlv.dfy` | HTLV frames with a checksum |
| `Pipeline.dfy`, `WorkerPool.dfy`, `Reader.dfy` | readers, bounded queues, workers and worker ids as interleaved steps, and the objects that take the steps |
| `Acceptor.dfy` | the accept loop against the connection registry |
| `ShardMap.dfy`, `SnapshotIter.dfy` | the sharded map as one map, and its concurrent iterator |
| `RouterSlices.dfy`, `StepMachine.dfy` | re-entrant handler slices and the three-phase call |
| `CloseCallbacks.dfy` | the linked list of close callbacks |
| `Decimal.dfy` | the two decimal printers |

Objects that the program updates in place are classes, proved against functions on values; the
theorems are about those functions. Panics, and the read loop's endless turn on an empty frame, are
outcomes of the model rather than preconditions. Concurrent parts are state machines whose steps
are what one goroutine does atomically, and their theorems range over every sequence of steps.

Where the code and its comments differ, the model follows the code:

- The comment at `ginterceptor/framedecoder.go:167` says an over-long frame that is fully buffered
  is discarded. The buffer that is trimmed is a local view, so the frame stays and blocks the
  connection: `FrameDecoding.BufferedOverLongFrameBlocks`.
- The comment at `gdecoder/htlvcrcdecoder.go:40` leaves the length byte out of the maximal frame
  length, so bodies of 255 bytes are turned down: `Htlv.DeliveredExactly`, `Htlv.FullBodyBlocks`.
- The comment at `gdecoder/tlvdecoder.go:36` allows values up to 2^32 bytes; the 32-bit sum in the
  decoder makes 2^32 - 9 the last length that survives: `Messages.RoundTripExactly`.

## Model

| member | source | states |
|---|---|---|
| `Framing.CutAnywhere` | ginterceptor/framedecoder.go:273-295 | cutting any stream may stop anywhere: frames and leftover of the whole are those of a first part followed by those of its leftover with the second part, and both stay within limits, or splittable, when the whole is |
| `Framing.FieldValueExactly` | ginterceptor/framedecoder.go:81-122 | the number in a length field, byte by byte with its weights, for all five widths and both orders |
| `Framing.AnnouncedExactly` | ginterceptor/framedecoder.go:225-228 | the announced length is that number plus the correction plus where the field ends, up to whole turns of 2^64 |
| `Framing.FramesOfJoined` | ginterceptor/framedecoder.go:228-293 | under any layout, frames sent back to back are cut at their borders and come out in order, each without its first bytes |
| `Framing.PrefixStable` | ginterceptor/framedecoder.go:190-271 | a frame complete at the front of the buffer stays that frame, and leaves the same rest, whatever arrives behind it |
| `Framing.BytesConserved` | ginterceptor/framedecoder.go:280-293 | every byte is in a delivered frame, a stripped prefix or the leftover; without stripping, frames and leftover joined are the stream |
| `Framing.LeftoverHoldsNoFrame` | ginterceptor/framedecoder.go:280-293 | the leftover holds no whole frame and is the end of the stream |
| `Framing.FramesBounded` | ginterceptor/framedecoder.go:228-293 | frames delivered times the smallest announced length never exceed the bytes used up |
| `FrameDecoding.FrameDecoder.constructor` | ginterceptor/framedecoder.go:25-45 | a new decoder has an empty buffer, no discard in progress, big-endian order unless little-endian was asked for, and every other field of its layout as given |
| `FrameDecoding.FrameDecoder.FailIfNecessary` | ginterceptor/framedecoder.go:130-153 | discard mode ends, with both counters cleared, exactly when nothing remains to be dropped |
| `FrameDecoding.FrameDecoder.DiscardTooLongFrame` | ginterceptor/framedecoder.go:60-79 | drops the lesser of what remains and what is buffered and pays it off |
| `FrameDecoding.FrameDecoder.ExceededFrameLength` | ginterceptor/framedecoder.go:155-183 | an over-long frame is either wholly at hand, and leaves the memory idle, or its missing bytes are remembered |
| `FrameDecoding.FrameDecoder.DecodeOne` | ginterceptor/framedecoder.go:190-271 | one attempt yields the outcome and memory of `Step`, for every layout, memory and buffer, and leaves the buffer alone |
| `FrameDecoding.FrameDecoder.Decode` | ginterceptor/framedecoder.go:273-295 | a call ends as the whole loop does and, within limits, delivers exactly the frames of old buffer plus chunk and keeps exactly the leftover |
| `FrameDecoding.LoopCutsFrames` | ginterceptor/framedecoder.go:280-294 | within limits the step-by-step loop delivers the frames of the stream definition and returns with idle memory |
| `FrameDecoding.ChunkIndependence` | ginterceptor/framedecoder.go:190-295 | a stream within limits, fed in any pieces, yields the frames and leftover of the whole stream |
| `FrameDecoding.SplitNeverMattersExactly` | ginterceptor/framedecoder.go:190-295 | for every readable layout and every stream: whatever has come in, in whatever pieces, its frames and leftover are what came out, if and only if each header of the stream stands in front of an accepted frame or merely makes the decoder wait |
| `FrameDecoding.SplitNeverMattersWithinLimits` | ginterceptor/framedecoder.go:190-295 | under layouts that always announce at least one byte and the stripped prefix, with room for a header, this is so exactly within limits |
| `FrameDecoding.SplitMattersBeyondLimits` | ginterceptor/framedecoder.go:230-237 | an illustration: an over-long stream that yields no frame in one piece and some in two |
| `FrameDecoding.OverLongSplitMatters` | ginterceptor/framedecoder.go:155-183 | what the two arrivals leave behind: for every layout and every stream headed by an over-long frame not yet all there, in one piece and cut behind the header, the memories are stated and differ |
| `FrameDecoding.BufferedOverLongFrameBlocks` | ginterceptor/framedecoder.go:155-183 | an over-long frame wholly buffered, exactly to its end or beyond, is never skipped; no later input yields a frame |
| `FrameDecoding.DiscardMemoryKept` | ginterceptor/framedecoder.go:60-237 | after a step on any bytes, under any layout, discard mode is on exactly while bytes remain to drop, with the stated bounds, if and only if the header met does not overflow 64 bits into an over-long length |
| `FrameDecoding.DiscardMemoryKeptByLoop` | ginterceptor/framedecoder.go:273-295 | the same equivalence after a whole call: exactly when no header the loop comes to overflows |
| `FrameDecoding.NarrowNeverOverflows` | ginterceptor/framedecoder.go:81-128 | with length fields of up to four bytes and a non-negative correction no header ever overflows, on any bytes |
| `FrameDecoding.WideOverflowsExactly` | ginterceptor/framedecoder.go:116-118 | with eight length bytes a header overflows exactly when its number is below 2^63 by no more than the correction |
| `FrameDecoding.OverflowHappens` | ginterceptor/framedecoder.go:228-234 | the largest eight-byte number is such an input: one step on it leaves inconsistent memory |
| `FrameDecoding.DiscardAccounts` | ginterceptor/framedecoder.go:60-183 | bytes owed are conserved: dropping pays off what it drops, entering owes the announced length less the bytes at hand, in 64 bits, and exactly unless the header overflows |
| `FrameDecoding.LoopConservesBytes` | ginterceptor/framedecoder.go:273-295 | under any layout, from any memory, on any bytes and however the call ends, the buffer loses from its front the delivered frames with their stripped bytes, and nothing else |
| `FrameDecoding.PanicsExactly` | ginterceptor/framedecoder.go:81-271 | which headers make a step panic, and no others: unreadable field, negative number, more to strip than a frame has, a length below zero not taken for over-long |
| `FrameDecoding.CuttableAlwaysReturns` | ginterceptor/framedecoder.go:190-295 | under layouts whose headers always announce at least one byte and the stripped prefix, no bytes make a call panic or loop for ever |
| `Messages.PresetAnnounces` | gdecoder/tlvdecoder.go:38-44 | under either preset any header announces its length field plus eight, is accepted, and meets the limit exactly at length 2^32 - 1 |
| `Messages.PresetAlwaysWithinLimits` | gdecoder/ltvdecoder_little.go:39-47 | no byte stream takes either preset to an over-long, negative or too-short frame |
| `Messages.StreamOfPacked` | gpack/datapack_tlv_bigendian.go:27-48 | the frames of packed messages sent back to back are the packed messages, nothing left over |
| `Messages.PackedRoundTrip` | gpack/datpack_tlv_littleendian.go:29-50 | any list of messages packed, joined, split anyhow, framed and decoded comes back as that list |
| `Messages.RoundTripExactly` | gdecoder/tlvdecoder.go:46-60 | one message survives packing, framing and decoding exactly when its payload has at most 2^32 - 9 bytes |
| `Messages.AlteredExactly` | gpack/message.go:10-17 | when a message comes out altered rather than intact or not at all: exactly the payloads whose length was truncated to a decodable one |
| `Messages.DecodePacked` | gdecoder/ltvdecoder_little.go:50-64 | a packed message decodes to itself exactly up to 2^32 - 9 bytes and panics in the eight lengths above |
| `Messages.HeaderExactly` | gdecoder/tlvdecoder.go:46-60 | tag and length of any frame by position and weight of their bytes, for both kinds |
| `Messages.DecodesExactly` | gdecoder/tlvdecoder.go:46-60 | what decoding makes of any frame, whoever wrote it: tag, length and just so many bytes behind the header, or a panic |
| `Messages.Pack` | gpack/datapack_tlv_bigendian.go:27-48 | writes header and data in the kind's order, each byte where its weight belongs |
| `Messages.Unpack` | gpack/datapack_tlv_bigendian.go:52-79 | gives back the header any packing wrote, or the short or too-large error exactly when due |
| `Messages.Intercept` | gdecoder/tlvdecoder.go:62-93 | a decoded frame replaces id, length and data of the message; short ones pass unchanged; raw data stays |
| `CrcTables.TablesAreShifts` | gdecoder/crc.go:3-59 | every entry of both tables is the register after eight shifts of its index |
| `Crc16.TurnIsShift8` | gdecoder/crc.go:65-69 | one turn on the two half registers is eight shifts of the whole register |
| `Crc16.GetCrC` | gdecoder/crc.go:61-76 | the table loop computes the bit-by-bit checksum, low byte first, on every byte string |
| `Crc16.InitialValueExactly` | gdecoder/crc.go:61-63 | behind two bytes of ones a checksum goes on from zero, which fixes the initial value |
| `Crc16.SampleChecksum` | gdecoder/crc.go:61-76 | the digits 1 to 9 have the published checksum of this code, low byte first |
| `Crc16.CheckCRC` | gdecoder/crc.go:78-91 | accepts exactly the two checksum bytes of the given bytes |
| `Crc16.AcceptedMeansZero` | gdecoder/crc.go:61-91 | a frame passes on its last two bytes exactly when the register run over all of it ends at zero |
| `CrcDetection.RunIsFeed` | gdecoder/crc.go:65-69 | the byte-wise register equals the one fed bit by bit |
| `CrcDetection.BurstDetected` | gdecoder/crc.go:61-91 | of equal-length frames that differ only within sixteen consecutive bits, checksum included, at most one is accepted |
| `CrcDetection.AdjacentBytesDetected` | gdecoder/crc.go:61-91 | the same for two adjacent bytes |
| `CrcDetection.AcceptedHasEvenOnes` | gdecoder/crc.go:61-91 | an accepted frame has an even number of one bits |
| `CrcDetection.OddFlipsDetected` | gdecoder/crc.go:61-91 | any odd number of flipped bits turns an accepted frame into a rejected one |
| `Htlv.DecodeHtlv` | gdecoder/htlvcrcdecoder.go:50-74 | succeeds exactly on a correct checksum, and the fields put together are the frame |
| `Htlv.Intercept` | gdecoder/htlvcrcdecoder.go:76-104 | a genuine frame sets the function code as id and passes on fields that put together are the frame; a short one passes, a damaged one panics |
| `Htlv.WithinLimitsExactly` | gdecoder/htlvcrcdecoder.go:41-47 | the decoder accepts every header of a stream exactly when no body of 255 bytes is announced |
| `Htlv.FramesHaveAnnouncedBodies` | gdecoder/htlvcrcdecoder.go:26-48 | every frame cut has exactly the body its length byte announces |
| `Htlv.DeliveredExactly` | gdecoder/htlvcrcdecoder.go:26-48 | an encoded frame is delivered exactly when its body has at most 254 bytes |
| `Htlv.EncodedRoundTrip` | gdecoder/htlvcrcdecoder.go:26-74 | any list of contents with bodies up to 254 bytes, encoded, joined and split anyhow, comes back as exactly those frames, each with a good checksum and its own fields |
| `Htlv.FullBodyBlocks` | gdecoder/htlvcrcdecoder.go:40-47 | a buffered frame with a body of 255 bytes ends all delivery, with or without bytes behind it |
| `Htlv.AlwaysReturns` | gdecoder/htlvcrcdecoder.go:41-47 | no bytes make the decoder with this preset panic or loop for ever |
| `Htlv.DamageFound` | gdecoder/htlvcrcdecoder.go:64-68 | a genuine frame damaged in a burst of sixteen bits or in an odd number of bits is not accepted |
| `Pipeline.DispatchAccount` | gnet/connection.go:231-238 | the frame at hand is the next message of the peer; its request joins those that arrived, or the decoder panics near 2^32 |
| `Pipeline.ReadAccount` | gnet/connection.go:222-227 | reading any number of bytes moves whole frames to the reader and loses none |
| `Pipeline.StepOk` | gnet/msghandler.go:107-153 | every step of every reader and worker keeps each connection's account of its peer's messages |
| `Pipeline.TakenIsPrefixOfSent` | gnet/connection.go:222-238 | on every run what workers took of a connection is a beginning of what its peer packed: in order, none lost, repeated, altered or mixed |
| `Pipeline.RunDeliversAll` | gnet/msghandler.go:242-269 | when nothing of a running reader's connection is unread, waiting or queued, every message was taken |
| `Pipeline.SomethingMoves` | gnet/msghandler.go:147-153 | no deadlock on full queues: an unfinished connection's worker or reader can move |
| `Pipeline.NobodyWaitsInVain` | gnet/msghandler.go:147-153 | in any state, whatever the others do: who may start, read, take, exit and release at once, and that a request is queued exactly when its queue has room |
| `Pipeline.QueuesBounded` | gnet/msghandler.go:270-283 | on every run, in either mode, there is a queue for each worker and none holds more than its room |
| `Pipeline.LifeOfConnection` | gnet/connection.go:266-284 | on every run a connection starts at most once, reads, queues and exits only between its start and its exit, and gives its id back at most once, after its start |
| `Pipeline.AnySplitRuns` | gnet/connection.go:222-238 | for every split of a connection's bytes into reads and every worker it may get there is a run that reads them so, has every message taken, exits and leaves the free set as it was |
| `Pipeline.WorkShrinks` | gnet/connection.go:222-238 | every step of readers and workers but an empty read lowers the work left, and an empty read changes nothing |
| `Pipeline.RunsAreFinite` | gnet/msghandler.go:242-269 | a run has at most as many steps, empty reads aside, as there is work at its start |
| `Pipeline.RestMeansDelivered` | gnet/msghandler.go:242-269 | a run on which nothing can be taken, queued or read any more has delivered all that the peer of a running connection packed |
| `Pipeline.RunIdsInRange` | gnet/msghandler.go:61-105 | in either mode, on every run from the start, every id handed out and every id that may be next is an index of the task queues |
| `Pipeline.MayGetExactly` | gnet/msghandler.go:70-90 | the id is a free one, or else below the pool size and different from the connection's by whole pools |
| `Pipeline.StartSharesExactly` | gnet/msghandler.go:70-88 | in bind mode a start keeps ids exclusive exactly when a free one was there; otherwise the id given is already held |
| `Pipeline.RunPartition` | gnet/connection.go:269-282 | on every run from the start free and held ids split the pool, no two connections sharing one, at every moment, if and only if every start finds a free id |
| `Pipeline.NeverShortExactly` | gnet/msghandler.go:70-88 | no run ever runs out of ids if and only if there are no more connections, over the whole run, than workers; otherwise a run that does is built |
| `Reader.Connection.OnRead` | gnet/connection.go:222-238 | a chunk yields the requests of the frames it completes, in order, up to the first whose decoding panics |
| `WorkerPool.MsgHandler.constructor` | gnet/msghandler.go:32-60 | in bind mode the pool has the size of the connection limit and all ids are free; queues are empty |
| `WorkerPool.MsgHandler.UseWorker` | gnet/msghandler.go:61-91 | hands out a free id and takes it off the free set, or else the one below the pool size that differs from the connection's by whole pools, zero for no pool |
| `WorkerPool.MsgHandler.FreeWorker` | gnet/msghandler.go:92-105 | puts an id back in bind mode only |
| `WorkerPool.MsgHandler.SendMsgToTaskQueue` | gnet/msghandler.go:147-153 | appends to the worker's queue exactly when it has room, and touches no other |
| `WorkerPool.MsgHandler.TakeRequest` | gnet/msghandler.go:246-250 | takes the oldest request of one queue and touches no other |
| `Acceptor.StepOk` | gnet/server.go:228-259 | every step keeps the registry exact and the room the accept loop relies on; only registering needs an unused id |
| `Acceptor.NeverTooMany` | gnet/server.go:228-259 | on every run that accepts fewer connections than there are 64-bit ids at most MaxConn are registered, under distinct ids, although counting is not atomic |
| `Acceptor.DecidesExactly` | gnet/server.go:231-235 | an undisturbed count is right, and the loop goes on to accept exactly below the limit and waits exactly at it |
| `Acceptor.LimitAttained` | gnet/server.go:228-259 | the limit is reached: for every number up to it there is a run with exactly that many connections registered |
| `Acceptor.MakesRoom` | gnet/connection.go:447-465 | from any registry a connection that leaves makes room for one, and the next peer is accepted under the next id |
| `Acceptor.CountsAgain` | gnet/server.go:231-249 | a full registry and a failed accept send the loop back to its count with nothing changed |
| `ShardMap.MergeSize` | gutils/shard_lock_map.go:45-54 | with every key in its place the shard sizes add up to the size of the one map |
| `ShardMap.MergeUpdate` | gutils/shard_lock_map.go:64-69 | changing a key in its shard changes just that key of the one map |
| `ShardMap.ShardLockMaps.KeyLivesInItsShard` | gutils/shard_lock_map.go:41-43 | there are thirty-two shards, and a key is in the one whose number its hash leaves over |
| `ShardMap.ShardLockMaps.Set` | gutils/shard_lock_map.go:64-69 | sets one key of the map |
| `ShardMap.ShardLockMaps.SetNX` | gutils/shard_lock_map.go:71-80 | sets a key exactly when it was absent |
| `ShardMap.ShardLockMaps.MSet` | gutils/shard_lock_map.go:82-89 | in whatever order, the map is overridden by the data |
| `ShardMap.ShardLockMaps.Get` | gutils/shard_lock_map.go:56-62 | looks up the map |
| `ShardMap.ShardLockMaps.Pop` | gutils/shard_lock_map.go:120-127 | removes a key and gives its old value |
| `ShardMap.ShardLockMaps.RemoveCb` | gutils/shard_lock_map.go:108-118 | removes a key exactly when the callback says so, and gives back its answer |
| `ShardMap.ShardLockMaps.Count` | gutils/shard_lock_map.go:45-54 | the size of the map |
| `ShardMap.ShardLockMaps.Items` | gutils/shard_lock_map.go:190-198 | the map itself |
| `ShardMap.ShardLockMaps.Clear` | gutils/shard_lock_map.go:184-188 | empties the map |
| `SnapshotIter.StepOk` | gutils/shard_lock_map.go:138-182 | every step of any goroutine keeps each lane's account: delivered, held, queued and unsent are the snapshot, each pair once |
| `SnapshotIter.RunDeliversSnapshots` | gutils/shard_lock_map.go:138-182 | on every run, when the output is closed what came out is the union of one snapshot a shard, no key twice, and each snapshot is what the shard held at one moment of the run, that of its lock |
| `SnapshotIter.LastWriteDelivered` | gutils/shard_lock_map.go:64-69 | a key comes out with what its last write before the lock of its shard left: the value written, nothing after a removal, what the map held if there was none |
| `SnapshotIter.UntouchedKeyDelivered` | gutils/shard_lock_map.go:138-182 | a key nobody writes during the run comes out exactly when the map held it, with its value, whatever is done to other keys |
| `SnapshotIter.ForwardNeverBlocks` | gutils/shard_lock_map.go:158-182 | a forwarder always finds room in the output, even when nobody reads |
| `SnapshotIter.RoomIsExact` | gutils/shard_lock_map.go:173-182 | nor has it more room than that: closed and unread it is full |
| `SnapshotIter.SendNeverBlocks` | gutils/shard_lock_map.go:143-149 | a producer always finds room in its channel |
| `SnapshotIter.NeverStuck` | gutils/shard_lock_map.go:138-171 | until the output is closed some goroutine of the iterator can move |
| `SnapshotIter.WriterGetsIn` | gutils/shard_lock_map.go:143-152 | a writer waits for the read lock of its shard only, and not for ever: after the sends left and the unlock it gets in |
| `SnapshotIter.CanBeReadOut` | gutils/shard_lock_map.go:173-182 | the output can be read to its end at any time, in order |
| `SnapshotIter.EndComesNearer` | gutils/shard_lock_map.go:138-171 | each such move brings the end nearer and no reader or writer pushes it away |
| `RouterSlices.BeginsInOrder` | gnet/request.go:208-229 | with handlers calling Next and Abort at any depth, handlers begin in strictly increasing order, each at most once, none after an Abort |
| `RouterSlices.LogExactly` | gnet/request.go:208-229 | for all handlers, the whole log: the handlers up to the first that aborts before anything else begin, in turn, and then come all their Aborts, fewer only on a panic |
| `RouterSlices.AllRunWithoutAbort` | gnet/request.go:223-229 | when nobody aborts, every handler below the 8-bit limit runs, once, in order, even when the index wraps on the way out; that is all of them exactly when there are fewer than 128 |
| `RouterSlices.WrapsExactly` | gnet/request.go:208-229 | for all handlers, aborting or not: the 8-bit index wraps, and panics, exactly when a plain walk through what is left to do once the last handler has begun exceeds 127; else it ends where the walk ends |
| `RouterSlices.WrapsExactlyWithoutAbort` | gnet/request.go:223-229 | when nobody aborts it wraps exactly when handlers and calls of Next together exceed 127, and else ends at their sum |
| `RouterSlices.IndexNeverWraps` | gnet/request.go:38 | with at most 63 handlers calling Next at most once each, aborting or not, the 8-bit index never wraps |
| `RouterSlices.ChainedWrapExactly` | gnet/request.go:223-229 | handlers that each call Next once make it wrap exactly from 64 handlers on: 63 is the most |
| `RouterSlices.Request.RouterSlicesNext` | gnet/request.go:223-229 | the loop with its re-entrant handlers runs as `Next`, wrap-around and panic included |
| `RouterSlices.Request.Abort` | gnet/request.go:208-211 | moves the index to the number of handlers |
| `StepMachine.LoopRunsPhases` | gnet/request.go:168-206 | counter and flag run exactly the phases the Gotos and Aborts ask for, and the loop ends |
| `StepMachine.LastGotoDecides` | gnet/request.go:179-184 | the last Goto that nothing overrides names the next phase |
| `StepMachine.NoPhaseAfterAbort` | gnet/request.go:208-216 | no phase follows an Abort that has no later Goto |
| `StepMachine.NextPhaseExactly` | gnet/request.go:168-216 | at any point of any call: what phase follows after a Goto, after an Abort, and after neither, or that none does |
| `StepMachine.QuietRunIsPreHandlePost` | gnet/request.go:186-206 | without Goto and Abort the phases are Pre, Handle, Post, once each |
| `StepMachine.LoopRunsOnEntry` | gnet/request.go:168-206 | the same for a call entered with the flag clear: its first phase leads to itself unless a Goto or Abort says otherwise |
| `StepMachine.Request.Call` | gnet/request.go:186-206 | from any state runs those phases and comes back to the first one, with the flag set unless the loop was over already; without a router nothing happens |
| `CloseCallbacks.Callbacks.Add` | gnet/callbacks.go:15-26 | keeps the list well formed and appends, unless there is nothing to call |
| `CloseCallbacks.Callbacks.Remove` | gnet/callbacks.go:28-43 | keeps the list well formed, tail pointer included, and drops only the first entry with this handler and this key |
| `CloseCallbacks.Callbacks.Invoke` | gnet/callbacks.go:45-49 | makes the calls in the order of registration |
| `CloseCallbacks.Callbacks.Count` | gnet/callbacks.go:51-57 | the length of the list |
| `CloseCallbacks.RemoveFirstAt` | gnet/callbacks.go:30-42 | removal takes out the first matching position and nothing else |
| `CloseCallbacks.RemovalsCommute` | gnet/callbacks.go:28-43 | two removals give the same list in either order |
| `CloseCallbacks.RemoveUndoesAdd` | gnet/callbacks.go:15-43 | removing a newly registered name restores the list |
| `Decimal.Itoa` | glog/logger_core.go:418-439 | prints the padded digits, and runs off its 32 bytes exactly when the width exceeds 32 or, counting down, wraps around below the 64-bit range |
| `Decimal.AppendInt` | gutils/writer.go:236-283 | appends sign and padded digits of any 64-bit integer at any 64-bit width, by shortcut or by loops, wrap-around of the padding included |
| `Decimal.PaddedSpells` | gutils/writer.go:233-235 | what is printed reads back as the number, whatever the width |
| `Decimal.NoLeadingZero` | gutils/writer.go:254-261 | the digits are no more than the number needs; width alone adds zeros |
| `Decimal.SignedReadsBack` | gutils/writer.go:236-241 | with its sign it reads back as the integer, the smallest included |
| `Decimal.PrintersAgreeExactly` | glog/logger_core.go:418-439 | the two printers write the same bytes exactly for non-negative numbers |
| `Decimal.PrintBoth` | gutils/writer.go:236-283 | run side by side they print the same exactly for non-negative numbers and widths up to 32 that do not wrap around; what is appended parses back always |

## Left out

- Sockets, TLS, WebSocket and KCP sessions, HTTP upgrade, signals, timers, heartbeats, send queues, log files, configuration: a connection's input is an arbitrary sequence of chunks.
- Interceptor chain and builder, router registration, property maps, request pool, `Fnv32Hash.Sum`: they would only add easy members; the decoder stage and the queueing stage are modelled as the two ends of the chain, and the sharded map is proved for every hash.
- Handler bodies: only what they do to the request object is modelled, as a list of actions each.
- Resynchronisation after an over-long frame that is only partly buffered: its memory is covered by the discard-mode members, what later bytes decode to is not.
- The minimum taken in floating point when discarding: taken exactly, as it is for buffers below 2^53 bytes.
- A connection without a frame decoder: there the decoder may slice beyond the bytes read, up to the buffer's capacity.
- Unbuffered task queues: handing a request straight over is the run of the model with capacity one in which the worker takes it next.
- `Keys`, `IterCb` and the JSON forms of the sharded map: read-only walks like `IterBuffered`.
- Pipeline.TakenIsPrefixOfSent: assumes payloads below 2^32 bytes, what the length field can say; which longer ones are altered is Messages.AlteredExactly.
- ShardMap.ShardLockMaps.IterBuffered: the walk of a map nobody else touches; the concurrent walk is the module SnapshotIter.
- Acceptor.NeverTooMany: ids are taken as registry keys directly; that their decimal strings differ is Decimal.DigitsInjective.
- Decimal.AppendInt: memory is unlimited, so the huge padding of a wrapped-around width is a result where the program would run out of memory.
