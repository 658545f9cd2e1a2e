# neatvnc, modelled and verified

This project models the hard parts of neatvnc, a VNC (RFB) server library, and proves what
they are meant to guarantee. Each module follows one component of the library:

| modules | component |
|---|---|
| `FbUpdate`, `FbProgress`, `FbLoss`, `FbClient` | the framebuffer-update protocol of one client: requests, damage, the frame on its way, how damage gets through, how a pixel can be forgotten, and the handlers that move updates along |
| `Xxh3`, `Xxh3Schedule` | the streaming hash against the one-shot hash, and what a long hash feeds to the mixing functions |
| `DamageRefinery`, `DamageRefineryObject` | the hash-per-tile cache that cuts down reported damage |
| `Boxes`, `Transform`, `Display`, `DisplayRuns` | rotations, scaling and translation of damage, and the whole path from an application's frame to desktop damage |
| `ParallelDeflate`, `DeflateProgress` | compression jobs that finish in any order |
| `FrameCopy` | cutting a rectangle out of a frame while converting it |
| `Vec`, `ZrleTile`, `ZrleSizes`, `ZrleTileEncoder`, `ZrleBox`, `ZrleEncoder` | the ZRLE encoder against a decoder written from sections 7.7.5 and 7.7.6 of RFC 6143 |
| `Tight`, `TightFrames`, `TightProgress`, `TightJobs`, `FbTight` | four workers on one grid of tiles, the job that emits their output, and updates that reach the encoder without pixels |
| `TcpStream`, `TcpWrites` | the send queue under partial writes |
| `BufferPool`, `BufferLife`, `BufferPoolObjects` | buffers, pools, frame pools and weak references |
| `ClientMessages`, `ClientWire` | the wire forms of client messages, parsing of messages and reassembly of long clipboard texts |
| `Handshake`, `HandshakeProgress`, `HandshakeServer` | the security handshake, the ways in, and late answers of the application |
| `Bits`, `Pixels` | pixel conversion and pixel formats |
| `Utf8`, `Base64` | text codecs |
| `Common` | shared value types |

Most components are given twice. A pure *specification* (a `State` with step functions, or
functions on values) is what the theorems are about; runs are sequences of events, and
`After(...)` is the state they lead to. Beside it stand the *operations* in the form the
library has: classes whose methods change fields, loops with invariants, buffers that are
filled in place. Every such method is proved equal to the specification, usually as
`View() == Step(old(View()), ...)`. Fields described as history (bytes on the wire, calls
made, references held) are never looked at by the operations.

Libraries are parameters. zlib is a pair of functions of which only one thing is known:
sync-flushed blocks, put one after another behind one header, inflate to the blocks' contents
put together. The
mixing functions of the hash are a record of functions. Regions are sets of grid points or
lists of rectangles, where a routine that normalises a list may return any other list that
covers the same points. Networks, clocks and crypto show up as the outcomes they report.

`dafny verify dfyconfig.toml` checks everything.

## Findings

These hold of the code as it is, and differ from what one would expect or from what its comments say:

- A frame dropped because formats changed while it was encoded (`src/server.c:2879-2889`) gives
  its request back but not its damage. `DamageIsLostExactlyByLeaks` says for every step when a
  pixel is forgotten: exactly if the step gives up a frame that holds the pixel (dropped, refused
  by the encoder or the stream, unresizable, or left without an encoder), the pixel is not
  damaged again by then, and the client's copy is stale or missing. By `OrphanIsRescuedIff` and
  `OrphanStaysUnsent` it then stays unsent in every continuation until an event damages it again
  or sends a frame that happens to cover it. `DroppedFrameIsNeverSent` is an instance.
- `tight_apply_damage` passes tile numbers where the size helpers expect pixel offsets, so test
  boxes are not cut at the edges (`src/enc/tight.c:266-267`). A tile is dirty without damage of
  its own exactly if its test box holds damage, all of it outside its framebuffer
  (`OverreportedOnlyByOutsideDamage`). With a single framebuffer clamping rules that out
  (`SingleFramebufferIsExact`); with two side by side it happens (`EdgeTileIsOverreported`). No
  damage is missed (`DamageIsCovered`).
- Damage is looked at before it is clamped to the desktop (`src/server.c:1184-1231`), so damage
  wholly outside it, which a client can ask for, starts an update with nothing in it. The Tight
  encoder then has no rectangle: `assert(self->n_rects > 0)` (`src/enc/tight.c:650-651`) stops
  debug builds, others send an update of no rectangles. On a desktop of one framebuffer this
  happens exactly if no damage meets the desktop (`EncoderGetsNothingIff`), in general exactly
  if no test box meets the clamped damage (`NothingDirtyIff`);
  `OutsideRequestStartsAnEmptyUpdate` is an instance. The runs of `Tight` include such frames.
- A write that took everything offered completes every request offered exactly if the last one
  was not empty or was the only one (`CompleteFlushCompletesIff`, `src/stream/tcp.c:127-151`): the
  loop ends when no bytes are left. `EmptyPayloadStaysBehind` is an instance, completed by a
  later flush. Bytes and the order of completions are not affected.
- The Tight length encoding holds exactly 22 bits (`SizeRoundTrip`). This is a limit of the
  encoding and not a fault of the code: a tile has at most 32768 bytes (`src/enc/tight.c:53`).
- Big-endian clients are understood exactly if every channel sits centred in a byte
  (`BigEndianIsUnderstoodIff`): 8-8-8 works, 5-6-5 does not (`RedOf565IsMisread`).
- A 32-bit format becomes a three-byte CPIXEL whenever its depth is 17 to 24; the result is
  well-formed exactly if the channels lie within 24 consecutive bits (`CpixelIsWellFormedIff`; `GappedFormatBreaks` is
  one where they do not).
- Security types are fixed by the first client's version message. Demands made later are ignored
  for RFB 3.7 and 3.8 clients (`LateDemandsAreIgnored`, `AdmittedUnaskedIff`).
- A message can be read to its end, however fragmented, exactly if it is not a SetEncodings
  message of more than 1023 entries (`MessageIsReadableIff`). Such a message fills the buffer; the
  next read then asks for no bytes, gets none, and is taken for a hang-up of the client
  (`src/stream/tcp.c:225-227`). `OverlongListHangsUp` is an instance; with no such message, no
  fragmentation ever stops the reading (`ReadingNeverStops`).

## Model

| member | source | states |
|---|---|---|
| FbUpdate.TakeFrameAgrees | src/server.c:1216-1238 | handing the damage to the compositor keeps: sent pixels are current unless damaged, on their way or lost |
| FbUpdate.DeliverAgrees | src/server.c:2907-2931 | so does delivering a frame that covers at least its damage |
| FbUpdate.FeedAgrees | src/server.c:3022-3033 | so does a new desktop picture whose damage covers every changed pixel |
| FbUpdate.StepKeeps | src/server.c:1138-1282 | every event of the protocol (feed, request, poll, composited, encoded, written, format change, hang-up) keeps the whole invariant |
| FbUpdate.RunsKeep | src/server.c:2818-2937 | hence every run does |
| FbUpdate.ClientIsCurrent | src/server.c:1138-1238 | in every run a pixel the client was sent equals the desktop unless it is damaged, on its way, or lost; a pixel on its way equals the desktop unless damaged again |
| FbUpdate.SettledClientShowsDesktop | src/server.c:1095-1238 | with nothing damaged, on its way or lost, every pixel ever asked for is shown as it is |
| FbUpdate.RequestsAreConserved | src/server.c:1061-1093 | requests plus unsolicited updates equal messages sent plus pending, unanswered and the one being encoded; the count never goes negative and nothing is sent unasked without continuous updates |
| FbUpdate.FaultlessRunsLoseNothing | src/server.c:1240-1282 | without faults or format changes under way no damage is lost and requests equal updates sent plus pending plus the one being encoded |
| FbProgress.DueDamageIsSent | src/server.c:1138-1238 | after every run of an open client with an encoder, for each damaged pixel of the screen (of the area, if updates are continuous), at most twelve ordinary events (what the frame under way still needs, then requests and a poll, then the next frame) show it as the desktop has it and leave the client ready for the next update |
| FbProgress.AskedIsSent | src/server.c:1240-1282 | so is every pixel that a client requests outright or that a new frame damages, as the desktop then has it |
| FbProgress.DamagedIff | src/server.c:1095-1238 | a pixel is on record if and only if it was before and no frame was taken, or the event asks for it, or a new size is told; the frame taken is the damage on the screen, with the desktop as it is |
| FbProgress.UpdateStartsIff | src/server.c:1184-1238 | with requests enough a quiet client starts an update if and only if there are buffers, no throttling, and damage (in the area) |
| FbProgress.NothingWithoutRequests | src/server.c:1138-1153 | without a request or continuous updates a client is sent nothing |
| FbProgress.NoticesAreServed | src/server.c:1155-1182 | with requests enough each notice that is due and understood is sent once, for one request each, and the others wait or are settled |
| FbProgress.FormatsChangeStopsTheFrame | src/server.c:2879-2889 | a client without fences that changes formats is not sent the frame under way and keeps its request |
| FbProgress.FrameIsSent | src/server.c:2907-2931 | a frame for which nothing changed is one message, after which the client shows it |
| FbLoss.DamageIsLostExactlyByLeaks | src/server.c:2873-2937 | on an open connection a step makes a pixel neither damaged, on its way nor current if and only if it gives up a frame with the pixel, the damage it leaves lacks the pixel, and the client's copy is stale or missing |
| FbLoss.OrphanIsRescuedIff | src/server.c:1138-1282 | such a pixel stays so until exactly an event that damages it or sends a frame covering it |
| FbLoss.OrphanStaysUnsent | src/server.c:1138-1282 | in every continuation without such an event the client's copy of the pixel does not change |
| FbLoss.FaultlessRunsOrphanNothing | src/server.c:2873-2937 | without faults, and with an encoder, no pixel is ever forgotten |
| FbLoss.DroppedFrameIsNeverSent | src/server.c:2879-2889 | after a concrete dropped frame, in every continuation that neither damages the pixel nor sends a frame covering it, the client never gets it, although its request is pending |
| FbClient.Client.ServeNotices | src/server.c:1155-1182 | notices (extensions, cursor, name, LEDs) are sent in order, each taking a request, until none is left |
| FbClient.Client.ProcessFbUpdateRequests | src/server.c:1138-1238 | equals the specified step, guards in the order of the source |
| FbClient.Client.FinishFbUpdate | src/server.c:2873-2946 | equals the specified step: closed, dropped, failed or sent |
| Xxh3.StepsCompose | include/xxhash.h:6208-6243 | consuming stripes in two parts is consuming them at once, scrambles included |
| Xxh3.ConsumeStripes | include/xxhash.h:6208-6243 | block by block, it does what stripe by stripe would |
| Xxh3.AccumulateBlocks | include/xxhash.h:5791-5808 | whole blocks of the one-shot loop are the same steps |
| Xxh3.HashLong | include/xxhash.h:5791-5878 | the one-shot hash of long input |
| Xxh3.OneShot | include/xxhash.h:5956-5976 | the one-shot hash of any input |
| Xxh3.Stream.constructor | include/xxhash.h:6121-6155 | a stream that has seen nothing |
| Xxh3.Stream.Reset | include/xxhash.h:6121-6155 | a reset stream has seen nothing, whatever its buffer still holds |
| Xxh3.Stream.Update | include/xxhash.h:6250-6330 | the stream has seen the earlier input followed by this one; its state represents that |
| Xxh3.Stream.UpdateLong | include/xxhash.h:6286-6330 | the same where the input overflows the buffer |
| Xxh3.Stream.DrainBuffer | include/xxhash.h:6290-6305 | a partly filled buffer is completed and consumed |
| Xxh3.Stream.ConsumeBulk | include/xxhash.h:6307-6316 | stripes bypass the buffer, whose tail keeps the last one for the digest |
| Xxh3.Stream.DigestLong | include/xxhash.h:6341-6376 | the accumulator of the one-shot hash of all that was seen, last stripe caught up from the buffer's tail |
| Xxh3.Stream.Digest | include/xxhash.h:6378-6394 | the one-shot hash of all that was seen |
| Xxh3.StreamChunks | include/xxhash.h:6250-6394 | for every cut of the input into updates, the digest is the hash of the whole |
| Xxh3.StreamedAndOneShot | include/xxhash.h:6250-6394 | streaming and one-shot code agree on every input and every cut |
| Xxh3.StreamTwoCuts | include/xxhash.h:6250-6394 | two cuts of the same bytes give the same digest |
| Xxh3.ScrambleSchedule | include/xxhash.h:6208-6243 | scrambles happen after every full block, counted over the whole input |
| Xxh3Schedule.HashPlaysTheSchedule | include/xxhash.h:5791-5878 | the hash of a long input is the schedule played on the primitives: stripe k at secret offset 8 * (k mod (secretSize - 64) / 8), a scramble at secretSize - 64 after each block of (secretSize - 64) / 8 stripes, last the final 64 bytes at secretSize - 71; up to 240 bytes it is the short hash |
| Xxh3Schedule.UsesLength | include/xxhash.h:5791-5808 | n stripes bring exactly n / ((secretSize - 64) / 8) scrambles |
| Xxh3Schedule.StripeAt | include/xxhash.h:5791-5808 | where each stripe and each scramble stands in the schedule, by position |
| Xxh3Schedule.RecorderSeesTheSchedule | include/xxhash.h:5791-5878 | primitives that record their calls record exactly the schedule |
| Xxh3Schedule.RecordStream | include/xxhash.h:6250-6394 | the streaming code makes exactly these calls, whatever the cut of the input |
| DamageRefinery.HashTile | src/damage-refinery.c:75-96 | the stream that is kept is reset and fed row by row; the result is below 2^32 and differs from the digest of the tile's bytes by a multiple of 2^32, edge tiles included |
| DamageRefinery.TileHashIsDigest | src/damage-refinery.c:75-96 | what is remembered of a tile are exactly the low 32 bits of the digest of its bytes |
| DamageRefinery.EqualBytesSameTile | src/damage-refinery.c:75-96 | tiles with the same bytes have the same pixels |
| DamageRefinery.CacheIsCurrent | src/damage-refinery.c:105-161 | in every run with honest hints a remembered hash is 0 or that of the tile as it is now |
| DamageRefinery.ChangeIsMissedOnlyByCollision | src/damage-refinery.c:105-161 | a changed pixel is missing from the refined damage if and only if the low 32 bits of the digest of the tile's new bytes equal what is remembered |
| DamageRefinery.NoChangeIsMissed | src/damage-refinery.c:135-161 | where the low 32 bits of the digests of different bytes differ and are not zero, refined damage contains every changed pixel |
| DamageRefinery.SeenIsRemembered | src/damage-refinery.c:105-161 | what is remembered of a tile that any earlier hint touched is exactly its hash as it is now |
| DamageRefinery.SeenUnchangedTileIsNotReported | src/damage-refinery.c:105-117 | a tile that an earlier hint touched and that did not change is never reported, whatever the hash |
| DamageRefinery.UnchangedTileIsNotReported | src/damage-refinery.c:105-117 | nor is an unchanged tile with a non-zero remembered hash |
| DamageRefinery.TileBoxIsTight | src/damage-refinery.c:119-133 | a rounded rectangle holds exactly the tiles its pixels lie in |
| DamageRefinery.TileRegionFromRegion | src/damage-refinery.c:119-133 | exactly the tiles that some pixel of the hint lies in |
| DamageRefineryObject.Refinery.constructor | src/damage-refinery.c:37-57 | all hashes are zero |
| DamageRefineryObject.Refinery.Resize | src/damage-refinery.c:59-67 | another size forgets everything, the same size nothing |
| DamageRefineryObject.Refinery.RefineTile | src/damage-refinery.c:98-117 | the hash is replaced, and the tile damaged if and only if it differed |
| DamageRefineryObject.Refinery.Refine | src/damage-refinery.c:135-161 | cache and report are those specified for the tiles the hint touches |
| Transform.MatrixUndoesRotation | src/transform-util.c:42-137 | the matrix takes the centre of every rotated pixel exactly to the centre of the pixel |
| Transform.RotationUndoesMatrix | src/transform-util.c:42-137 | and the other way round, so both are bijections of the grid |
| Transform.GridOntoGrid | src/transform-util.c:139-162 | pixels of the frame correspond to pixels of the rotated frame |
| Transform.RotateBoxIsPointwise | src/transform-util.c:164-238 | a rotated rectangle holds exactly the pixels the matrix maps into the rectangle |
| Transform.RotateBack | src/transform-util.c:164-238 | rotating by the inverse gives back every rectangle and the dimensions |
| Transform.TransformRegion | src/transform-util.c:164-238 | a point is covered exactly if the matrix maps it into the source region |
| Transform.IntervalTouch | src/region.c:38-41 | rounding out keeps exactly the unit intervals touched by the image of one inside |
| Transform.ScaleRegion | src/region.c:22-46 | exactly the pixels overlapped by the image of a pixel of the region |
| Transform.TranslateRegion | src/region.c:48-72 | exactly the shifted points |
| Transform.PlaceDamage | src/display.c:137-169 | exactly the desktop pixels that overlap the image of a damaged frame pixel |
| Transform.ShownChangeIsDamaged | src/display.c:137-169 | a desktop pixel showing the inside of a damaged frame pixel, pulled back through shift, scale and matrix, is damaged |
| Transform.DamageStaysOnDisplay | src/display.c:137-169 | damage within the frame stays within the area the frame occupies |
| Display.RefinedBoxes | src/damage-refinery.c:105-161 | the reported tiles, clipped to the frame, in rectangles |
| Display.FeedFrame | src/display.c:103-173 | the refinery takes the frame's size, forgetting everything if that is new; damage is exactly the desktop pixels that show a pixel of a reported tile |
| Display.FeedUnrefined | src/display.c:111-126 | with no client that wants refined damage the refinery is emptied, and damage is exactly the desktop pixels that show a hinted pixel |
| Display.ChangeReachesTheDesktop | src/display.c:103-173 | over every run of frames a desktop pixel that shows a changed frame pixel is damaged |
| DisplayRuns.FeedDisplay | src/display.c:103-173 | with or without a client that wants refined damage, memory and damage are those specified |
| DisplayRuns.MemoryIsCurrent | src/damage-refinery.c:59-161 | in every run that mixes refined and unrefined frames and sizes, what refining starts from is 0 or the hash of the tile in the frame before |
| DisplayRuns.EveryChangeReachesTheDesktop | src/display.c:103-173 | in every such run a desktop pixel that shows a frame pixel that differs (after a change of size, any pixel) is damaged |
| ParallelDeflate.InsertProperties | src/parallel-deflate.c:123-139 | inserting keeps the chunk list sorted and adds that chunk only |
| ParallelDeflate.DrainProperties | src/parallel-deflate.c:141-174 | draining appends what is next in line, in order, and stops short only while a job is outstanding |
| ParallelDeflate.RunsKeepInv | src/parallel-deflate.c:176-270 | in every interleaving the output is at every moment what one thread would have written in feed order |
| ParallelDeflate.SyncedOutputInflates | src/parallel-deflate.c:245-270 | after a sync no job, chunk or input is left, the sequence numbers agree, and the output inflates to exactly the bytes fed |
| ParallelDeflate.FlushEndsWhenJobsAreDone | src/parallel-deflate.c:245-259 | with no job outstanding the next wake-up ends the flush |
| ParallelDeflate.FeedIsARun | src/parallel-deflate.c:228-243 | the feeding loop is a sequence of steps of the system |
| DeflateProgress.HeaderOpensAZlibStream | src/parallel-deflate.c:156-161 | the header is one of section 2.2 of RFC 1950: deflate, window of at most 32 KiB, no dictionary, valid check |
| DeflateProgress.BlocksAreFull | src/parallel-deflate.c:205-270 | in every run each job has 131072 bytes, but for a shorter, non-empty one that is the last before an end of flush |
| DeflateProgress.FeedReturns | src/parallel-deflate.c:228-243 | a feed ends after one job for every 131072 bytes at hand and leaves exactly what is over |
| DeflateProgress.FlushReturns | src/parallel-deflate.c:245-259 | from every reachable flush, once the outstanding jobs have ended, in whatever order, the next wake-up ends it |
| DeflateProgress.SyncReturns | src/parallel-deflate.c:245-270 | between feeds a sync always comes through, for every order of the jobs, with an output that inflates to all that was fed |
| ParallelDeflate.Compressor.InsertOutputChunk | src/parallel-deflate.c:123-139 | the list with the chunk in its place |
| ParallelDeflate.Compressor.ConsolidateCompleteChunkSegments | src/parallel-deflate.c:141-174 | everything next in line has left; tells whether the end chunk was among it |
| ParallelDeflate.Compressor.ScheduleDeflateJob | src/parallel-deflate.c:205-226 | a numbered job holds the block |
| ParallelDeflate.Compressor.Feed | src/parallel-deflate.c:228-243 | input is appended and cut into jobs while a full block is there |
| ParallelDeflate.Compressor.SyncTail | src/parallel-deflate.c:261-270 | the remaining input becomes a job |
| ParallelDeflate.Compressor.InsertEnd | src/parallel-deflate.c:245-259 | the end chunk is numbered last |
| ParallelDeflate.Compressor.WakeUp | src/parallel-deflate.c:245-259 | one turn of the waiting loop |
| ParallelDeflate.Compressor.FinishJob | src/parallel-deflate.c:176-194 | a worker's compressed block enters the list under its number |
| Vec.ByteVec.FastAppend8 | include/vec.h:45-49 | one byte more, only where there is room |
| Vec.ByteVec.Append | src/vec.c:70-80 | the bytes more, growing as needed |
| ZrleTile.PaletteIsRight | src/enc/zrle.c:75-95 | the palette holds exactly the colours of the tile, each once |
| ZrleTile.RunsRoundTrip | src/enc/zrle.c:109-161 | decoding the runs gives back the pixels |
| ZrleTile.PackedRoundTrip | src/enc/zrle.c:126-161 | decoding a palette tile gives back the pixels |
| ZrleTile.TileRoundTrip | src/enc/zrle.c:163-196 | for all pixel sizes and contents the decoder of RFC 6143 gives back the tile and leaves what follows |
| ZrleTile.RunCost | src/enc/zrle.c:109-124 | a run of k pixels costs at most k bytes |
| ZrleTile.PackedSize | src/enc/zrle.c:126-161 | a palette tile fits the scratch vector even before it is compared with the raw one |
| ZrleTile.TileSize | src/enc/zrle.c:163-196 | no tile is larger than 1 + bpp * length bytes |
| ZrleSizes.PaletteIsDistinct | src/enc/zrle.c:75-95 | the palette holds each colour of the tile once, and no other |
| ZrleSizes.RunsBytesSize | src/enc/zrle.c:109-161 | the runs written are the maximal runs of the tile: one byte for a single pixel, else one for the colour and one for every 255 pixels begun |
| ZrleSizes.KindIsChosen | src/enc/zrle.c:163-196 | for every tile its kind and exact size: solid for one colour, a palette with runs for 2 to 16 where that is no larger than the pixels, else the pixels |
| ZrleSizes.RunsOf | src/enc/zrle.c:126-161 | every tile is made of maximal runs |
| ZrleSizes.RunsAreUnique | src/enc/zrle.c:126-161 | in one way only |
| ZrleTileEncoder.FindColourInPalette | src/enc/zrle.c:65-73 | the index of the colour or -1 |
| ZrleTileEncoder.GetTilePalette | src/enc/zrle.c:75-95 | the palette, or none beyond 16 colours |
| ZrleTileEncoder.EncodeUnichromeTile | src/enc/zrle.c:97-107 | the solid tile |
| ZrleTileEncoder.EncodeRunLength | src/enc/zrle.c:109-124 | the bytes of a run are appended, within capacity |
| ZrleTileEncoder.EncodePackedTile | src/enc/zrle.c:126-161 | the palette tile, every append within capacity |
| ZrleTileEncoder.EncodeRawTile | src/enc/zrle.c:191-195 | the raw tile |
| ZrleTileEncoder.ZrleEncodeTile | src/enc/zrle.c:163-196 | the specified tile; no append finds the scratch vector full |
| ZrleBox.BoxRoundTrip | src/enc/zrle.c:198-263 | decoding a rectangle's bytes shows every pixel of it and paints nothing else, partial edge tiles included |
| FrameCopy.CopyRegion | src/frame.c:296-317 | row by row through the frame's memory, the bytes are those of the rectangle's pixels, converted |
| FrameCopy.ImageDepicts | src/frame.c:296-317 | every frame has an image that shows it converted, so the contracts of the copies apply |
| FrameCopy.MemoryRow | src/frame.c:312-316 | the bytes of a row at its offset, converted, are that row of the image |
| ZrleEncoder.CutTile | src/enc/zrle.c:238-246 | one tile is copied out of the frame and converted |
| ZrleEncoder.FeedTile | src/enc/zrle.c:225-255 | its encoding is fed to the compressor |
| ZrleEncoder.FeedBox | src/enc/zrle.c:198-263 | all tiles of a rectangle, in order |
| ZrleEncoder.BoxesShown | src/enc/zrle.c:265-293 | rectangles after one another all decode |
| ZrleEncoder.CompressedBoxesShown | src/enc/zrle.c:265-293 | in every interleaving of compression jobs, inflating the synced output and decoding it shows all rectangles |
| Tight.RunsKeep | src/enc/tight.c:437-657 | every interleaving of the four workers keeps the invariant of grid, logs and counters |
| Tight.FrameIsComplete | src/enc/tight.c:503-593 | each damaged tile was encoded once and emitted once in loop order, the count announced is the count emitted, the finish job was scheduled once |
| Tight.FinishWaitsForAll | src/enc/tight.c:478-510 | the finish job is scheduled exactly when all four workers have joined |
| Tight.EmittedInStreamOrder | src/enc/tight.c:512-545 | the tiles of a stream are emitted in the order its worker compressed them |
| Tight.StreamsAreEmittedInOrder | src/enc/tight.c:437-545 | over any number of frames, emission order equals compression order on each stream |
| TightFrames.FrameIsEmitted | src/enc/tight.c:512-593 | when a frame is through, the output has grown by exactly the tiles damaged at its start, each once, in loop order, marked with the frame and the stream of its column |
| TightProgress.SomeStepIsPossible | src/enc/tight.c:465-593 | no interleaving gets stuck: while a frame is under way some step is possible |
| TightProgress.EveryStepCounts | src/enc/tight.c:465-593 | every step of a worker, join or finish brings the end of the frame nearer |
| TightProgress.FrameEndsInTime | src/enc/tight.c:465-593 | no interleaving goes on for ever: a frame takes at most the steps counted at its start |
| TightJobs.EncodeTile | src/enc/tight.c:437-463 | the specified step of a worker at its place |
| TightJobs.DoZsWork | src/enc/tight.c:465-476 | the nested loops visit every fourth column in order |
| TightJobs.Finish | src/enc/tight.c:512-545 | the nested loops emit in order |
| TightJobs.CutIsConservative | src/enc/tight.c:142-154 | the sizes tested are never smaller than the tile |
| TightJobs.ApplyDamage | src/enc/tight.c:251-285 | exactly the tiles whose test box meets the damage become dirty, and they are counted; the count is 0 if and only if there is none |
| TightJobs.NothingDirtyIff | src/enc/tight.c:650-651 | the encoder counts no rectangle if and only if no test box meets the damage |
| TightJobs.SingleFramebufferCleanIff | src/enc/tight.c:251-285 | with one framebuffer, if and only if no clamped damage lies in it; at the origin, if and only if there is none |
| FbTight.EncoderGetsNothingIff | src/server.c:1184-1231 | an update that is started reaches the encoder without a rectangle if and only if its damage, which is not empty, lies outside the desktop |
| FbTight.OutsideRequestStartsAnEmptyUpdate | src/server.c:1095-1119 | a concrete request outside the desktop starts an update with nothing in it |
| TightJobs.DamageIsCovered | src/enc/tight.c:251-285 | every damaged pixel of a framebuffer lies in a dirty tile |
| TightJobs.EdgeTileIsOverreported | src/enc/tight.c:251-285 | with two framebuffers side by side, clamped damage of one makes an undamaged tile of the other dirty |
| TightJobs.OverreportedOnlyByOutsideDamage | src/enc/tight.c:251-285 | a tile is dirty without a damaged pixel of its own if and only if its test box holds damage and all of that lies outside its framebuffer |
| TightJobs.OnlyCutTilesAreOverreported | src/enc/tight.c:142-154 | such a tile is cut by an edge of its framebuffer |
| TightJobs.SingleFramebufferIsExact | src/enc/tight.c:251-285 | with one framebuffer and clamped damage exactly the damaged tiles are dirty |
| TightJobs.EncodeSize | src/enc/tight.c:287-294 | the one to three bytes of a length are appended |
| TightJobs.SizeRoundTrip | src/enc/tight.c:287-294 | a length is read back if and only if it is below 2^22 |
| TcpStream.NextKeeps | src/stream/tcp.c:74-165 | every send, write and close keeps order, bytes and completions |
| TcpStream.BytesAreConserved | src/stream/tcp.c:74-165 | in every run the bytes written followed by the remainder are all payloads in send order; late payloads are what their generator returned last |
| TcpStream.CompletionsAreInOrder | src/stream/tcp.c:40-165 | each completion fires once, in send order, DONE only after the last byte, FAILED only on close |
| TcpStream.StartedPayloadIsFixed | src/stream/tcp.c:84-94 | only the head can be partly written, and it is never generated again |
| TcpStream.CompleteFlushCompletesIff | src/stream/tcp.c:127-151 | a flush whose write took everything offered completes all requests offered if and only if the last was not empty or was the only one |
| TcpStream.EmptyPayloadStaysBehind | src/stream/tcp.c:127-151 | a concrete empty payload behind another stays queued until a later flush |
| TcpWrites.WriteMovesBytes | src/stream/tcp.c:74-151 | a write of k bytes puts exactly the first k bytes on the wire of what up to 1024 requests had to send, late payloads generated for this write |
| TcpWrites.WriteCompletesIff | src/stream/tcp.c:127-151 | a request is completed by a write if and only if it was among the first 1024, the bytes reach its end, and there were bytes left when its turn came (or it is the first) |
| TcpWrites.UnwrittenStays | src/stream/tcp.c:103-125 | where nothing was written everything stays; only a broken pipe closes the stream and fails every request, in order |
| TcpWrites.ShutFailsAll | src/stream/tcp.c:40-64 | a close fails every queued request, in order, and writes nothing |
| TcpWrites.ResultIsProgress | src/stream/tcp.c:74-165 | a result that is not negative is the number of bytes that went out; it is negative if and only if the write failed, and then none did |
| TcpWrites.EverySendStands | src/stream/tcp.c:234-292 | in every run the requests are, in order, exactly the sends made while the stream was open and those of the callbacks that ran |
| TcpWrites.QueueEmpties | src/stream/tcp.c:74-165 | from every open state complete writes, at most one for each request, empty the queue with every send completed |
| TcpStream.Stream.FinishRequest | src/stream/common.c:27-38 | the head leaves the queue, and what its callback sends is queued, not flushed |
| TcpStream.Stream.Gather | src/stream/tcp.c:79-99 | late payloads are generated, at most IOV_MAX requests offered |
| TcpStream.Stream.BookWritten | src/stream/tcp.c:127-151 | the loop books exactly the bytes written |
| TcpStream.Stream.DoFlush | src/stream/tcp.c:74-165 | equals the specified step for full, partial, refused and broken writes |
| TcpStream.Stream.DoClose | src/stream/tcp.c:40-64 | every queued request fails in order, once |
| TcpStream.Stream.DoSend | src/stream/tcp.c:234-292 | appended and flushed, or refused when closed; returns what flushing returned, or -1 |
| BufferPool.NextKeeps | src/buffer.c:116-143 | every operation on buffers, pools and frame pools keeps the ownership invariant |
| BufferPool.LiveBufferHasOneRole | src/buffer-pool.c:41-96 | in every run a live buffer is exactly one of queued (ref 1, not observing), lent (on its pool's observer list) or orphaned; the count is the number of references held |
| BufferPool.EachBufferIsFreedOnce | src/buffer.c:116-143 | every buffer is live or was freed exactly once, never while queued, observed or held |
| BufferPool.NothingLeaks | src/buffer-pool.c:41-53 | with all pools and references gone every buffer has been freed |
| BufferPool.AcquireHands | src/buffer-pool.c:69-96 | an acquired buffer was held by nobody, and is now held once |
| BufferPool.FrameFitsItsPool | src/frame-pool.c:37-135 | after any resizes a frame pool hands out a buffer made for its present parameters |
| BufferPool.ResizeKeeps | src/frame-pool.c:76-96 | a resize keeps the invariant |
| BufferPool.DestroyKeeps | src/buffer-pool.c:41-53 | destroying a pool keeps the invariant |
| BufferLife.CountIsHanded | src/buffer.c:92-143 | in every run the count of a buffer is what was handed out of it (by creation, reference, and first-back-first-lent acquires) less what was dropped, unless it lies in a queue or is gone |
| BufferLife.PoolsLiveWhileHeld | src/buffer-pool.c:26-67 | a pool, or a frame pool, lives if and only if references to it are out, and counts them |
| BufferLife.ReleasedIff | src/buffer.c:116-143 | an event releases a buffer if and only if it drops the last reference to one without a pool, or ends the pool in whose queue it lies |
| BufferLife.QueueIsFifo | src/buffer-pool.c:69-96 | a pool's queue grows at its end by exactly the buffers that come back and shrinks at its front by those that are lent |
| BufferLife.ResizeIsExact | src/frame-pool.c:76-96 | a resize to the same parameters changes nothing; any other leaves an empty new pool with the new parameters and the references it had |
| BufferPoolObjects.Memory.ObserverInit | include/weakref.h:19-24 | observer and list point at each other |
| BufferPoolObjects.Memory.ObserverDeinit | include/weakref.h:26-31 | off the list, pointing nowhere |
| BufferPoolObjects.Memory.SubjectDeinit | include/weakref.h:38-45 | all observers point nowhere and the list is empty |
| BufferPoolObjects.Memory.BufferUnref | src/buffer.c:116-143 | counted down, returned to the pool's tail, or freed |
| BufferPoolObjects.Memory.Retain | src/buffer.c:92-96 | one more reference |
| BufferPoolObjects.Memory.Release | src/buffer.c:116-143 | one reference less, invariant kept |
| BufferPoolObjects.Memory.FreeQueue | src/buffer-pool.c:46-50 | the queued buffers are freed in order |
| BufferPoolObjects.Memory.PoolDestroy | src/buffer-pool.c:41-53 | the two loops do what destruction is specified to do |
| BufferPoolObjects.Memory.PoolUnref | src/buffer-pool.c:61-67 | counted down or destroyed |
| BufferPoolObjects.Memory.PoolNew | src/buffer-pool.c:26-39 | an empty pool |
| BufferPoolObjects.Memory.PoolAcquire | src/buffer-pool.c:90-96 | the queue's head or a new buffer, lent |
| BufferPoolObjects.Memory.FramePoolNew | src/frame-pool.c:46-68 | a frame pool with an empty pool of its own |
| BufferPoolObjects.Memory.FramePoolResize | src/frame-pool.c:76-96 | other parameters get a new pool, equal ones change nothing |
| BufferPoolObjects.Memory.FramePoolUnref | src/frame-pool.c:104-109 | counted down or destroyed with its pool |
| BufferPoolObjects.Memory.FramePoolAcquire | src/frame-pool.c:111-135 | a buffer made for the parameters the frame is given |
| ClientMessages.JudgeIsStable | src/server.c:2269-2306 | a verdict on a message does not depend on the bytes after it |
| ClientMessages.ParseMore | src/server.c:2348-2384 | parsing goes on where it stopped |
| ClientMessages.FragmentationDoesNotMatter | src/server.c:2348-2425 | for every fragmentation, messages delivered, bytes pending and the verdict are those of one parse of all bytes |
| ClientMessages.SameBytesSameMessages | src/server.c:2386-2425 | the same bytes leave the same position, however they arrived |
| ClientMessages.TextIsDeliveredOnce | src/server.c:1691-1829 | a text of up to the 10,000,000 bytes the source allows is delivered once, exactly as announced, and parsing resumes at the next byte |
| ClientMessages.MessagesComeBack | src/server.c:2269-2306 | messages put one after another are parsed as those messages |
| ClientMessages.CutTextIsOneMessage | src/server.c:1691-1737 | the wire form of a text is one message that delivers it |
| ClientWire.WireIsOneMessage | src/server.c:2269-2306 | for each of the eleven message types the wire form, built from its fields by section 7.5 of RFC 6143 and the extensions, is one message of its own length that delivers exactly it |
| ClientWire.BeginningsWait | src/server.c:2269-2306 | every proper beginning of one waits for more |
| ClientWire.MessagesAreDelivered | src/server.c:2348-2425 | a run that reads such messages, in whatever pieces, delivers exactly them |
| ClientWire.MessagesKeepComing | src/server.c:2386-2425 | up to the last byte of them there is room and the client is kept |
| ClientWire.RefusedIff | src/server.c:2269-2306 | bytes are refused if and only if their type is none of these, or a length is over its limit |
| ClientMessages.MessageIsReadableIff | src/server.c:2386-2425 | a message can be read to its end if and only if it is not a SetEncodings message of more than 1023 entries |
| ClientMessages.ReadingNeverStops | src/server.c:2386-2425 | while other messages arrive, in whatever pieces, the client is not given up and more can be read |
| ClientMessages.DeliveredFits | src/server.c:2403-2422 | in every run whatever is delivered, but for texts, fitted the buffer |
| ClientMessages.FullBufferIsALongList | src/stream/tcp.c:213-232 | a full buffer holds the beginning of a long list, and the next event is taken for a hang-up |
| ClientMessages.OverlongListHangsUp | src/stream/tcp.c:213-232 | a concrete list of 1024 encodings is not delivered and ends the connection |
| ClientMessages.Input.TryMessage | src/server.c:1691-1755 | a whole message is delivered, a bad one closes, an incomplete text goes to the separate path |
| ClientMessages.Input.ParseLoop | src/server.c:2357-2367 | the loop equals the specified parse; index <= length <= 4096 throughout |
| ClientMessages.Input.Compact | src/server.c:2378-2381 | the unhandled bytes are moved to the front |
| ClientMessages.Input.ProcessBigCutText | src/server.c:1788-1829 | bytes are collected until the text is complete, then delivered |
| ClientMessages.Input.OnReadable | src/server.c:2386-2425 | equals the specified step and keeps the invariant |
| Handshake.NextKeeps | src/server.c:2308-2346 | every event keeps: unanswered credentials observe a client that waits, and no client is asked about twice |
| Handshake.AnswersFindAWaitingClient | src/server.c:3571-3609 | in every run an answer finds its client waiting or gone, so the assertions on the client's state hold |
| Handshake.LateAnswersChangeNoClient | src/server.c:3571-3609 | an answer after the client is gone changes no client |
| Handshake.ClosedClientIsForgotten | src/server.c:173-225 | closing a client leaves no credentials that observe it |
| Handshake.ReadyMeansAccepted | src/server.c:383-513 | with the demands made before the first connection, a ready client was asked about and accepted; with encryption demanded it is on TLS or RSA-AES, unless that upgrade failed unnoticed |
| Handshake.AskedMeansEncrypted | src/auth/rsa-aes.c:132-313 | with encryption demanded credentials are taken only on an encrypted transport, likewise |
| Handshake.AdmittedUnaskedIff | src/server.c:383-513 | a message admits its sender unasked exactly by the type None on offer or by RFB 3.3 without the demand |
| Handshake.LateDemandsAreIgnored | src/server.c:294-302 | a concrete run in which demands made after the first client do not bind the second |
| HandshakeProgress.AcceptedClientGetsIn | src/server.c:3571-3589 | after every run, once a live client's credentials are accepted, its init message makes it ready and accepted, on the transport it had |
| HandshakeProgress.RejectedClientIsGone | src/server.c:3591-3609 | a rejected client, and only it, is gone, and nothing observes it |
| HandshakeProgress.OthersDoNotMatter | src/server.c:2308-2346 | no event touches a client or the question about it but its own messages, its end, its answer, and another that does not share the desktop |
| HandshakeProgress.OfferedIff | src/server.c:294-344 | which types are offered, type by type |
| HandshakeProgress.OfferIsSupported | src/server.c:294-344 | in every run what is offered is something the build can do |
| HandshakeProgress.EveryOfferLetsIn | src/server.c:383-513 | in every state that a run leads to, for each type on offer a new client's messages lead through the phases of that type to the question, the acceptance and the desktop, on the transport of that type |
| HandshakeProgress.DemandsLeaveAWayIn | src/server.c:294-344 | with authentication demanded first, every type then on offer has such a run, which ends with the client asked about, accepted and ready |
| HandshakeProgress.ClosedIff | src/auth/vencrypt.c:40-140 | in every run a message ends its sender's connection if and only if it is unacceptable in its phase (version, type, subtype, lengths, failed checks); the server gives up if and only if it has nothing to offer |
| HandshakeProgress.OldClientIsAskedAbout | src/server.c:383-453 | a client of version 3.3 gets as far as the question by the way of type 2 |
| HandshakeServer.Server.InitSecurityTypes | src/server.c:294-344 | the list by flags and build, made once |
| HandshakeServer.Server.IsAllowedSecurityType | src/server.c:346-354 | whether the type is on the list |
| HandshakeServer.Server.ClientClose | src/server.c:173-225 | the client is gone and nothing observes it |
| HandshakeServer.Server.DisconnectAllOthers | src/server.c:515-527 | only this client is left |
| HandshakeServer.Server.TryReadMessage | src/server.c:2308-2346 | dispatch by phase equals the specified step; messages wait while an answer is pending |
| Pixels.PackRoundTrip | src/pixels.c:180-193 | channels packed into a pixel come back without cross-talk |
| Pixels.ConversionScalesChannels | src/pixels.c:180-193 | each channel of a converted pixel is floor(c * 2^d / 2^s), and the pixel holds nothing else |
| Pixels.WidenThenNarrow | src/pixels.c:180-193 | widening and narrowing again gives back every channel |
| Pixels.ConvertPlain | src/pixels.c:195-211 | the plain loop converts pixel by pixel and touches nothing behind |
| Pixels.ConvertAllButLast | src/pixels.c:213-229 | four-byte loads of three-byte pixels stay inside the row and give the same |
| Pixels.ConvertFrom3 | src/pixels.c:213-239 | the fast loop equals the plain one on non-empty rows |
| Pixels.ConvertPixels | src/pixels.c:241-450 | whichever loop is chosen, the row is converted pixel by pixel |
| Pixels.StoredPixelReadsBack | src/pixels.c:195-211 | a converted pixel fits the bytes of its format and reads back unchanged |
| Pixels.ConvertedRowReadsBack | src/pixels.c:195-450 | a reader of a converted row finds in each pixel the scaled channels of its source pixel |
| Pixels.FourthByteIsIgnored | src/pixels.c:213-239 | the byte loaded too much has no influence |
| Pixels.RfbRoundTrip | src/pixels.c:490-534 | a format survives the wire if and only if its maxima fit 16 bits, sizes count their bits, shifts fit 8 bits and the pixel is shorter than 32 bytes |
| Pixels.OkFormatsSurviveTheWire | src/pixels.c:490-534 | so every well-formed format does |
| Pixels.BigEndianIsUnderstoodIff | src/pixels.c:502-509 | a big-endian channel keeps its meaning if and only if it is centred in a byte |
| Pixels.RedOf565IsMisread | src/pixels.c:502-509 | the red channel of a big-endian 5-6-5 format loses its meaning |
| Pixels.BigEndianChannelIsUsed | src/pixels.c:502-509 | that channel is the one the conversion yields |
| Pixels.CpixelIsWellFormedIff | src/pixels.c:407-428 | the compact format is well-formed if and only if the channels lie within 24 consecutive bits |
| Pixels.GappedFormatBreaks | src/pixels.c:407-428 | an 8-8-8 format with a gap between its channels becomes an ill-formed three-byte one |
| Utf8.AcceptsExactlyTheGrammar | src/utf8.c:46-98 | the decoder's checks accept exactly the characters of section 4 of RFC 3629, with their code points |
| Utf8.WellFormedIsMapped | src/utf8.c:38-107 | on well-formed input the decoder is the code-point map, with '?' above 0xff |
| Utf8.Latin1IsWellFormed | src/utf8.c:21-36 | encoder output is well-formed and its code points are the input |
| Utf8.Latin1RoundTrip | src/utf8.c:21-107 | decoding undoes encoding for every byte string |
| Utf8.Latin1IsNoLonger | src/utf8.c:38-107 | output is never longer than input, for any bytes |
| Utf8.BadByteIsSkipped | src/utf8.c:62-88 | a bad lead byte costs one '?', and decoding resumes at the next byte |
| Utf8.Latin1ToUtf8 | src/utf8.c:21-36 | fills the buffer with the encoding and a terminator within 2n + 1 bytes |
| Utf8.Continue | src/utf8.c:73-81 | the inner loop collects the continuation bytes or finds one missing |
| Utf8.DecodeOne | src/utf8.c:41-103 | one round of the loop is the specified step |
| Utf8.Utf8ToLatin1 | src/utf8.c:38-107 | terminates with the decoding and a terminator within n + 1 bytes |
| Base64.Base64RoundTrip | src/base64.c:67-155 | decoding undoes encoding for every byte string |
| Base64.EncodingKeepsBits | src/base64.c:67-107 | the letters hold exactly the bits of the input, in order, filled up with zeros (section 4 of RFC 4648) |
| Base64.EncodedIsPadded | src/base64.c:83-104 | an encoding is letters followed by the padding its length calls for |
| Base64.UrlSafeDecodesAlike | src/base64.c:44-65 | the '-' and '_' spelling decodes alike (section 5 of RFC 4648) |
| Base64.DecodedFits | include/base64.h:21-22 | no decoding exceeds the size macro |
| Base64.BytesLength | src/base64.c:117-155 | n letters decode to floor(3n / 4) bytes |
| Base64.Base64Encode | src/base64.c:67-107 | fills exactly the size the macro says, terminator included |
| Base64.EncodeRest | src/base64.c:83-105 | the loops for one or two last bytes |
| Base64.CheckValid | src/base64.c:109-115 | whether all characters are allowed |
| Base64.DecodeRest | src/base64.c:135-152 | the loops for up to three last letters |
| Base64.Base64Decode | src/base64.c:117-155 | -1 exactly for an invalid text, else the bytes and their number |

## Left out

- Sockets, the event loop, TLS, the crypto and JPEG libraries, H.264, GBM, logging: only the outcomes they report appear.
- Several clients of one server share nothing in the update protocol but the desktop, so one client is modelled there; the handshake has any number of clients.
- Fences, pings and bandwidth numbers: throttling is one bit of the environment, and messages that fences block are not modelled. The fence test on pending requests differs from its comment (src/server.c:2161-2167).
- Incremental requests under continuous updates: the handler consumes nothing (src/server.c:1255-1256), so such a message is not a step of the update protocol, and `ClientMessages` treats every update request as consumed.
- ClientMessages.Input.OnReadable: the hang-up after a read of no bytes is that of plain TCP streams; end of input is not modelled otherwise.
- Extended clipboard and extended mouse buttons: `ClientMessages` models clients that have not announced them.
- Layout changes and resizes in the update protocol, and layout validation (src/server.c:1977-2012).
- The compositor: a composited frame shows the desktop as it was when compositing was asked for.
- ParallelDeflate.RunsKeepInv: sequence numbers are unbounded, so their wrap-around at 2^32 is not modelled.
- DamageRefineryObject.Refinery.Refine: hints are within the frame, as the source relies on.
- Xxh3.OneShot: the mixing functions, the short-input hashes and the vector variants are parameters.
- Transform.ScaleRegion: scale factors are exact reals, where the source has doubles; 16-bit overflow of rectangles is not modelled.
- Transform.PlaceDamage: frames without pixels are excluded, since the source divides by their size.
- DisplayRuns.EveryChangeReachesTheDesktop: consecutive frames of one size have one format, since the hash does not see a format that changes under equal bytes.
- FrameCopy.CopyRegion: copies whose rows do not lie close together; the encoder makes none.
- Pixels.ConvertFrom3: empty rows are excluded, since the source converts one pixel even then; conversions whose shifts exceed 31 bits are excluded by well-formed formats.
- Tight: JPEG contents and the compressed bytes are opaque; framebuffers keep their sizes while a frame is encoded; tiles under 12 bytes are compressed as the source does.
- TcpStream: streams that start corked, as WebSocket streams do until their handshake is over, are not modelled; nor are sends to the head of the queue, callbacks that close the stream during a flush, and ciphers; callbacks are functions from a request to the sends they make.
- BufferPool: objects are numbers in maps instead of pointers, mapping of GBM buffers, allocation failures and cleanup callbacks that keep a buffer alive are not modelled.
- Handshake: credentials' contents, time-outs (other than as a hang-up) and allocation failures are not modelled.
- WebSocket framing, key-code tables, format rating and the rest of the encoders: small or numeric, and independent of what is proved here.
