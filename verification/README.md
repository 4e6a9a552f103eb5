# A Dafny model of the Exynos multimedia libraries

The repository holds the user-space multimedia libraries of an Exynos 5 board. This project models the parts in which
an error is hard to see from one function alone, and proves what they promise:

- **Picture layout and conversion** (`Bits`, `Division`, `TileAddress`, `TilePlanes`, `SwConvertor`, `SwChroma`,
  `TileWords`, `RgbToYuv`, `RgbConverters`). The codec stores pictures in 16x16 and 16x8 tiles. The layout is written
  three times: as an address formula of shifts and masks, as block-copy loops with separate edge paths, and as a loop over
  32-bit words. All of them are proved to produce the same planes. The RGB converters compute with unsigned words that
  wrap around; they are proved to compute the exact rounded-down formulas, within the ranges of section 2.5.3 of
  ITU-R BT.601-7.
- **Buffers shared with V4L2 drivers** (`V4l2Queue`, `OutputRing`, `GscM2m`, `CodecTable`, `CodecBuffers`,
  `CodecOwnership`). A driver holds buffers, streams or not, and any call may fail and then changes nothing. On top of it
  are the three-buffer output ring of the scaler and of the HDMI mixer, the memory-to-memory conversion, and the buffer
  tables of decoder and encoder, once as one thread sees them and once under every interleaving of threads.
- **The hardware composer** (`HwcLayers`, `HwcSkip`, `HwComposer`): which layers get the two overlay windows, and when the
  drawing of the user interface is skipped. The configuration is the shipped one: no RGB overlays, skipping of unchanged
  interface layers with its 1800-frame limit, and the work-around for several video layers.
- **HDMI** (`TvOutService`, `Edid`, `HdmiResolution`, `HdmiDevice`, `HdmiSinks`, `HdmiRect`): the protocol between flush threads
  and layer disabling, the EDID data-block walks (section 7.5 of CEA-861-D), the choice of a resolution, the life of
  the output from creation to unplugging and the sinks it is plugged into, and letterboxing.

Code that changes buffers or objects in place is modelled by methods on arrays and objects, proved against functions of
the state before; the lemmas about those functions state the properties over all inputs and all runs. The two protocols
with threads are state machines whose steps are single accesses to shared state.

Where the code and its comments disagree, the model follows the code:

- The luma block copy (`libswconverter/swconvertor.c:147-215`) asks for even heights; for an odd height its last band copies
  one row more than the picture has. The contract says so for every height.
- The scaling limit for overlays masks the transform (`libhwc/ExynosHWC.cpp:570-571`), so flips count as quarter turns
  there, and the limit of eight is not kept for them (`LimitKeptExactly`).
- The scaler mode is said to go through memory for more than one video layer (`libhwc/ExynosHWC.cpp:889-898`), but with the
  work-around for several video layers that check never applies (`FirstVideoDecides`).
- The search for the HDMI vendor block returns an address within the whole EDID, not an offset within its extension as its
  comment says (`libhdmi/libsForhdmi/libedid/libedid.c:246-286`).
- The stop of the scaler ring returns the value of success when the memory-mapping control fails
  (`libgscaler/exynos_gscaler.c:326-330`) and then keeps its buffers. Its configuration does the same
  (`libgscaler/exynos_gscaler.c:1739-1743`) and then has requested none.

Some wanted properties do not hold of the code. For those the exact condition is proved, and a failing run is
given where one lemma names it:

- The two chroma paths agree for even widths or at most one row (`UntileThenSplitExactly`).
- A stop keeps the buffer table right if the stream was running or nothing was in flight (`StopTracksExactly`,
  `EarlyStop`); among threads, if it clears no slot that another thread owns or the driver holds (`RunsKeepGoodExactly`,
  `LateClaim`, and an `EarlyStop` again).
- Private pointers are read right if no buffer comes back before its pointer is stored, and no slot is claimed before its
  last pointer is read (`PointersAreRightExactly`, `LatePointer`).
- The output ring knows whether the driver streams until a running stream fails to stop (`StreamOnTracksExactly`), which
  can only be mended in one position of the ring (`FailedStreamoffExactly`). After a failed stream-on it takes a successful
  configuration (`FailedStreamonExactly`), and in the mixer the index must be at 0 then, as after a stop
  (`ConfigRepairsExactly`, `MixerGoesWrong`).
- Overlays are scaled up at most eight times for no transform and quarter turns only (`LimitKeptExactly`, `FlippedLayer`).
- A window's layer stays an overlay as long as no scan meets it without a buffer (`OverlaysLastExactly`).
- Flush threads never read a null message if every wake-up without a signal finds a message, or a caller about to store
  one (`MessagesAreReadExactly`, `SpuriousWakeup`). A disabler returns if the message has been taken or the flush thread
  has been woken up for it (`DisablerReturnsExactly`, `LostSignal`).
- What the output shows suits the sink if the EDID kept is that sink's, or good enough for it (`OutputSuitsExactly`);
  unplugging or plugging that fails half-way breaks this (`FailedUnplug`, `FailedPlug`), and leaves the bus open for later
  mistakes (`BusStaysOpen`, `LateQuery`).
- Flushes never fail for want of a preset in builds with EDID or with a default of 720 or 1080 lines
  (`FlushesNeverFailExactly`, `ReplugFails`). A destroyed output can always be created again only in builds with both
  (`AlwaysCreatableExactly`).

`dafny verify dfyconfig.toml` checks the whole project.

## Model

| member | source | states |
|---|---|---|
| TileAddress.ShiftOrIsSum | libswconverter/swconvertor.c:37-69 | the shift-or of the address computation equals the sum of tile start, row and column, for both flag values, on the whole padded rectangle |
| TileAddress.AddressInPlane | libswconverter/swconvertor.c:37-69 | every padded position has its address inside the tiled plane |
| TileAddress.PaddedArea | libswconverter/swconvertor.c:37-69 | the padded rectangle (16-aligned width; height aligned to 16 for luma, 8 for chroma) has as many positions as the plane has bytes |
| TileAddress.TiledLayoutIsInjective | libswconverter/swconvertor.c:37-69 | no two padded positions share an address |
| TileAddress.TiledLayoutIsOnto | libswconverter/swconvertor.c:37-69 | every byte of the tiled plane is the address of some padded position: with the row above, a bijection |
| TilePlanes.PlaneAt | libswconverter/swconvertor.c:147-385 | the untiled plane in terms of the address function: sample (c, y) is the source byte at the tiled address of its position, and there are no other samples |
| TilePlanes.AllRowsFilled | libswconverter/swconvertor.c:147-385 | a destination whose rows are all filled, and of which only plane bytes were written, is the plane followed by its old bytes |
| SwConvertor.SrcOffsetIsTile | libswconverter/swconvertor.c:160-211 | the source offsets of the copy loops are the starts of the tiles |
| SwConvertor.TileSupplies | libswconverter/swconvertor.c:164-205 | the 16-byte rows of a tile are the rows of the plane at its place, also at the right and the bottom edge |
| SwConvertor.CopyTile | libswconverter/swconvertor.c:164-205 | one tile of a band, full or cut off at the right edge: it extends the part of the band that is done and touches nothing else |
| SwConvertor.CopyBand | libswconverter/swconvertor.c:160-182 | one band of tiles: its rows are complete afterwards |
| SwConvertor.CscTiledToLinearY | libswconverter/swconvertor.c:147-215 | for every width and height: the destination receives exactly the luma plane (height rounded up to even, because the last band copies rows in pairs), and no other byte changes |
| SwConvertor.CscTiledToLinearUv | libswconverter/swconvertor.c:234-296 | for every width and height: the destination receives exactly the interleaved chroma plane, and no other byte changes |
| SwChroma.CscDeinterleaveMemcpy | libswconverter/swconvertor.c:86-97 | the even bytes go to the first destination, the odd bytes to the second, nothing else changes |
| SwChroma.CscInterleaveMemcpy | libswconverter/swconvertor.c:114-125 | the bytes of two sources alternate in the destination, nothing else changes |
| SwChroma.JoinOfSplit | libswconverter/swconvertor.c:86-125 | splitting an even number of bytes and joining them again changes nothing |
| SwChroma.SplitOfJoin | libswconverter/swconvertor.c:86-125 | joining two equally long buffers and splitting the result gives them back |
| SwChroma.CscTiledToLinearUvDeinterleave | libswconverter/swconvertor.c:317-385 | the one-pass converter writes exactly the two chroma planes, for every width and height |
| SwChroma.UntileThenSplit | libswconverter/swconvertor.c:234-385 | for every even width and any height, splitting the untiled interleaved plane gives the planes of the one-pass converter, and interleaving those gives the plane back |
| SwChroma.UntileThenSplitExactly | libswconverter/swconvertor.c:234-385 | the two ways agree if and only if the width is even or there is at most one row |
| TileWords.WordBytes | libswconverter/swconvertor.c:464-483 | shifting and masking a little-endian word gives its four bytes |
| TileWords.ActualWidthCovers | libswconverter/swconvertor.c:462 | the computed number of words covers the pixels of the tile row, with less than one word to spare |
| TileWords.UnpackLumaRow | libswconverter/swconvertor.c:462-468 | the words of one luma row, cut off at the picture width, fill the row |
| TileWords.UnpackChromaRow | libswconverter/swconvertor.c:478-485 | the words of one chroma row fill the row of both channels |
| TileWords.Tile2DToY | libswconverter/swconvertor.c:454-471 | the luma half writes exactly the luma plane, for every width and height |
| TileWords.Tile2DToCbCr | libswconverter/swconvertor.c:473-488 | the chroma half writes exactly the two chroma planes |
| TileWords.Tile2DToYuv420 | libswconverter/swconvertor.c:447-489 | the word-at-a-time converter writes the plane of the luma block copy and the planes of the one-pass chroma converter for half the height, and nothing else |
| RgbToYuv.Luma | libswconverter/swconvertor.c:547-549 | the exact luma formula stays in 16..235 |
| RgbToYuv.Cb | libswconverter/swconvertor.c:554-556 | the exact blue-difference formula stays in 16..240 |
| RgbToYuv.Cr | libswconverter/swconvertor.c:557-559 | the exact red-difference formula stays in 16..240 |
| RgbToYuv.RangesAttained | libswconverter/swconvertor.c:547-559 | all six bounds are attained |
| RgbToYuv.Primaries | libswconverter/swconvertor.c:547-559 | luma and both differences of the three primaries |
| RgbToYuv.CloseToTheStandard | libswconverter/swconvertor.c:547-559 | for every colour, all three formulas are less than one step away from those of section 2.5 of ITU-R BT.601-7 |
| RgbToYuv.GreyHasNoChroma | libswconverter/swconvertor.c:554-559 | equal channels give 128 for both differences |
| RgbToYuv.ShiftRoundsDown | libswconverter/swconvertor.c:554-562 | shifting, biasing and truncating a wrapped sum rounds down, for negative sums too |
| RgbToYuv.LumaExact | libswconverter/swconvertor.c:547-551 | the wrapping 32-bit computation and the byte store give the exact luma formula |
| RgbToYuv.CbExact | libswconverter/swconvertor.c:554-562 | the same for the blue difference, whose products and sums wrap around |
| RgbToYuv.CrExact | libswconverter/swconvertor.c:557-563 | the same for the red difference |
| RgbToYuv.ChannelsOfPixel | libswconverter/swconvertor.c:542-545 | both ways to take an RGB565 pixel apart (:542-545 and :615-620) and the masks of ARGB8888 (:693-695) give the same channels of the pixel |
| RgbToYuv.PixelOfPacked | libswconverter/swconvertor.c:542-545 | the channels that were packed into an RGB565 word come out of it |
| RgbToYuv.PixelOfBytes | libswconverter/swconvertor.c:693-695 | the same for ARGB8888 |
| RgbConverters.StoreLuma | libswconverter/swconvertor.c:547-551 | a stored luma byte extends the plane by the luma of the pixel |
| RgbConverters.StoreChroma | libswconverter/swconvertor.c:553-564 | the two stored bytes extend the planes by the chroma of the pixel |
| RgbConverters.StorePair | libswconverter/swconvertor.c:630-641 | the two adjacent bytes extend the interleaved plane by the chroma of the pixel |
| RgbConverters.ToYuv420P | libswconverter/swconvertor.c:512-567 | planar conversion: luma of every pixel and chroma of the subsampled pixels, written from the start of each buffer and nowhere else (RGB565; :663-717 for ARGB8888) |
| RgbConverters.ToYuv420SP | libswconverter/swconvertor.c:587-644 | semi-planar conversion: the same luma, and the same chroma interleaved (RGB565; :738-787 for ARGB8888) |
| RgbConverters.ChromaGrid | libswconverter/swconvertor.c:553-563 | there are ceil(width/2) * ceil(height/2) chroma samples, and the one of pixel (i, j), i and j even, is at (j/2) * ceil(width/2) + i/2 |
| RgbConverters.SamplesOfPixel | libswconverter/swconvertor.c:512-787 | every pixel has its luma at its place, and every second one of every second row both its differences, in separate planes and side by side |
| RgbConverters.ConvertersAgree | libswconverter/swconvertor.c:512-787 | planar and semi-planar converters agree on every picture, and all bytes are in range |
| V4l2Queue.Queue.Qbuf | libgscaler/exynos_gscaler.c:1805-1810 | queueing succeeds only for a requested buffer that the driver does not hold, and appends it; a failing call changes nothing |
| V4l2Queue.Queue.Dqbuf | libgscaler/exynos_gscaler.c:2016-2021 | dequeueing needs a running stream and returns the oldest buffer |
| V4l2Queue.Queue.DqbufAny | libcodec/video/v4l2/dec/ExynosVideoDecoder.c:1603-1609 | dequeueing in any order: exactly one held buffer comes back |
| V4l2Queue.Queue.Streamoff | libgscaler/exynos_gscaler.c:289-293 | stopping gives every buffer back; a failing call changes nothing |
| V4l2Queue.Queue.Reqbufs | libgscaler/exynos_gscaler.c:1745-1752 | requesting buffers is refused while streaming and empties the queue |
| OutputRing.OutputHandle.Config | libgscaler/exynos_gscaler.c:1514-1754 | configuring is the step of the state machine, refused exactly when streaming or for an unsupported picture; it succeeds with a healthy driver asked properly (mixer: libhdmi/libhdmiutils/ExynosHdmiUtils.cpp:299-494) |
| OutputRing.OutputHandle.Run | libgscaler/exynos_gscaler.c:1756-1838 | queueing a frame and starting the stream is the step of the state machine for every outcome |
| OutputRing.OutputHandle.WaitDone | libgscaler/exynos_gscaler.c:1985-2024 | waiting dequeues only once three frames have been queued; the step of the state machine for every outcome |
| OutputRing.OutputHandle.Stop | libgscaler/exynos_gscaler.c:298-344 | stopping and giving up the buffers, for every outcome, with the early return on the memory-mapping control |
| OutputRing.OutputHandle.JustStop | libgscaler/exynos_gscaler.c:267-296 | stopping only the stream, for every outcome |
| OutputRing.GoodStep | libgscaler/exynos_gscaler.c:1756-1838 | every disciplined failure-free call makes only requests the driver accepts, and keeps index == count mod 3, the held buffers, and the stream flag |
| OutputRing.WaitFreesTheNextBuffer | libgscaler/exynos_gscaler.c:1985-2024 | with a full ring, waiting gets back the very buffer that the next run queues |
| OutputRing.RunsAreSafe | libhdmi/libhdmiutils/ExynosHdmiUtils.cpp:496-616 | over every failure-free run of alternating run and wait, with stops and reconfigurations anywhere, all that holds for both rings |
| OutputRing.FreshRunsAreSafe | libgscaler/exynos_gscaler.c:1756-2024 | from a fresh handle: no refused or blocking request, at most three buffers out after a run and two after a wait, all different |
| OutputRing.StreamOnTracksExactly | libgscaler/exynos_gscaler.c:267-344 | over every run of calls with any outcomes, the handle knows all along whether the driver streams if and only if no running stream failed to stop |
| OutputRing.FailedStreamoffExactly | libgscaler/exynos_gscaler.c:298-344 | after a failed stream-off some calls make handle and driver agree again if and only if the ring had come round to buffer 0 and the last frame had been waited for; otherwise the driver streams for ever |
| OutputRing.LostSticks | libgscaler/exynos_gscaler.c:1514-1838 | with buffer 0 at a driver that streams unknown to the handle, no call changes anything any more |
| OutputRing.FailedStreamon | libgscaler/exynos_gscaler.c:1822-1826 | a failed stream-on leaves the buffer queued and the index past the one value that starts the stream |
| OutputRing.FailedStreamonExactly | libgscaler/exynos_gscaler.c:1581-1835 | over every run of calls with any outcomes after it, the stream can be started again if and only if a configuration has succeeded in between |
| OutputRing.ConfigRepairsExactly | libgscaler/exynos_gscaler.c:1581-1583 | after a failed stream-on and a configuration, every disciplined run is accepted: in the scaler always, in the mixer (libhdmi/libhdmiutils/ExynosHdmiUtils.cpp:299-494) if and only if the index is at 0 |
| OutputRing.PastZeroRefuses | libhdmi/libhdmiutils/ExynosHdmiUtils.cpp:545-570 | otherwise queueing a frame, stopping and queueing frames again meets a buffer that the driver still holds |
| OutputRing.MixerGoesWrong | libhdmi/libhdmiutils/ExynosHdmiUtils.cpp:562-570 | such a state is reached by a configuration, a failed stream-on and another configuration |
| OutputRing.ConfiguredStarts | libhdmi/libhdmiutils/ExynosHdmiUtils.cpp:545-570 | after a configuration the stream starts with the frame that wraps the index round to 1, which can be the third |
| OutputRing.StopRecovers | libgscaler/exynos_gscaler.c:298-344 | a full stop brings back the fresh state, from which a configuration is accepted |
| OutputRing.JustStopKeepsBuffers | libgscaler/exynos_gscaler.c:267-296 | after a plain stop the ring runs on without a configuration |
| OutputRing.HalfStopped | libgscaler/exynos_gscaler.c:326-343 | a full stop that fails behind the stream-off has stopped the stream but keeps the buffers requested |
| OutputRing.FailedConfig | libgscaler/exynos_gscaler.c:1514-1754 | a configuration that fails leaves the driver as it was and can be made again |
| OutputRing.BlockedWait | libhdmi/libhdmiutils/ExynosHdmiUtils.cpp:592-616 | with frames out and the stream not started, waiting fails in the scaler but not in the mixer |
| GscM2m.GscInfo.SetFormat | libgscaler/exynos_gscaler.c:947-1024 | setting the format first stops a stream that an earlier conversion left running; the exact state for every point where it can end |
| GscM2m.GscInfo.SetAddr | libgscaler/exynos_gscaler.c:1026-1057 | the buffer 0 is queued, and only ever when the driver neither holds a buffer nor streams |
| GscM2m.GscHandle.RunCore | libgscaler/exynos_gscaler.c:1840-1923 | the exact state of both sides for every point where the call can end; it succeeds with supported settings and a healthy driver |
| GscM2m.GscHandle.WaitFrameDone | libgscaler/exynos_gscaler.c:1925-1983 | the same for waiting; on success one buffer of each side came back |
| GscM2m.GscHandle.Convert | libgscaler/exynos_gscaler.c:2026-2056 | a conversion is the step of the device for the point where it ended; a success has taken one buffer of each side through the driver, and with supported settings and a healthy driver it always succeeds |
| GscM2m.ConversionsKeepFlags | libgscaler/exynos_gscaler.c:1840-1983 | over every sequence of conversions ending anywhere: the stream flags match the driver, which holds at most the buffer 0 |
| GscM2m.QueuesIntoEmptyQueue | libgscaler/exynos_gscaler.c:1026-1057 | after every such sequence, the next queueing finds both sides stopped, empty and with one requested buffer |
| GscM2m.FailuresDoNotLast | libgscaler/exynos_gscaler.c:2026-2056 | after every such sequence, a conversion in which nothing fails leaves both sides released |
| CodecTable.HoldsOne | libcodec/video/v4l2/dec/ExynosVideoDecoder.c:1219-1255 | a table determines which addresses are registered, which are in flight, and the private pointer of each |
| CodecTable.FreshStandsForNothing | libcodec/video/v4l2/dec/ExynosVideoDecoder.c:819-915 | after the set-up nothing is registered and nothing in flight |
| CodecTable.FreeSlot | libcodec/video/v4l2/dec/ExynosVideoDecoder.c:1341-1366 | the search accepts some slot exactly when the address is registered and not in flight |
| CodecTable.StepRefines | libcodec/video/v4l2/dec/ExynosVideoDecoder.c:1219-1616 | one call keeps the table equal to what all answers so far say: registered addresses stay registered, and only the address of the call enters or leaves flight |
| CodecTable.TableRefinesMap | libcodec/video/v4l2/dec/ExynosVideoDecoder.c:1219-1616 | over every sequential run from the set-up: a registration succeeds as long as there is room, a buffer is queued exactly if its address was registered earlier and is not in flight, and a returned buffer was in flight and carries the pointer it was queued with |
| CodecTable.ClearTracks | libcodec/video/v4l2/dec/ExynosVideoDecoder.c:1137-1139 | clearing all flags agrees with the driver if and only if the driver holds nothing |
| CodecTable.StopTracksExactly | libcodec/video/v4l2/dec/ExynosVideoDecoder.c:1116-1143 | after any such run, a stop keeps the flags true to the driver if and only if the stream was running or nothing was in flight |
| CodecTable.EarlyStop | libcodec/video/v4l2/dec/ExynosVideoDecoder.c:1116-1143 | set up, register, queue, stop: the driver still holds a buffer whose flag is cleared |
| CodecBuffers.BufferTable.constructor | libcodec/video/v4l2/dec/ExynosVideoDecoder.c:819-915 | the fresh table: no slot registered, none in flight |
| CodecBuffers.BufferTable.Register | libcodec/video/v4l2/dec/ExynosVideoDecoder.c:1219-1255 | the step of the table: the first free slot gets the address and no other slot changes; it fails exactly when all slots are taken |
| CodecBuffers.BufferTable.Find | libcodec/video/v4l2/dec/ExynosVideoDecoder.c:1341-1366 | the first free slot with the address, or -1 exactly when there is none (encoder: libcodec/video/v4l2/enc/ExynosVideoEncoder.c:1708-1733) |
| CodecBuffers.BufferTable.Enqueue | libcodec/video/v4l2/dec/ExynosVideoDecoder.c:1401-1488 | the step of the table: the slot found is flagged, given to the driver and gets the pointer, no other slot changes; a refusing driver leaves the whole table as it was |
| CodecBuffers.BufferTable.Dequeue | libcodec/video/v4l2/dec/ExynosVideoDecoder.c:1577-1616 | the step of the table: a held slot is given back and its flag cleared, registrations and all other slots stay |
| CodecBuffers.BufferTable.Run | libcodec/video/v4l2/dec/ExynosVideoDecoder.c:1062-1084 | the stream flag follows the driver |
| CodecBuffers.BufferTable.Stop | libcodec/video/v4l2/dec/ExynosVideoDecoder.c:1116-1143 | the step of the table: every flag is cleared and nothing else changes; the flags still match the driver if and only if the stream was running or nothing was queued (encoder: libcodec/video/v4l2/enc/ExynosVideoEncoder.c:1441-1468) |
| CodecOwnership.StepKeepsGoodExactly | libcodec/video/v4l2/dec/ExynosVideoDecoder.c:1116-1616 | a step of any thread keeps one owner per slot, a flag exactly on owned slots, and the mutex discipline, if and only if it is not a stop that clears a slot which another thread owns or the driver holds |
| CodecOwnership.OwnershipIsSafe | libcodec/video/v4l2/enc/ExynosVideoEncoder.c:1768-1997 | over every interleaving of any number of threads, starts and stops included as long as no stop clears such a slot: a buffer about to be queued is not with the driver, a slot has at most one owner, and every owned slot is flagged |
| CodecOwnership.RunsKeepGoodExactly | libcodec/video/v4l2/dec/ExynosVideoDecoder.c:1116-1143 | over every interleaving with stops, which stop the stream if it runs and then clear slot by slot, the discipline holds all along if and only if no stop clears a slot that a thread owns or the driver holds |
| CodecOwnership.LateClaim | libcodec/video/v4l2/dec/ExynosVideoDecoder.c:1128-1139 | a run in which a slot is claimed between stopping the stream and clearing the slot |
| CodecOwnership.EarlyStop | libcodec/video/v4l2/dec/ExynosVideoDecoder.c:1128-1139 | a run in which a buffer is queued before the stream was started, and a stop clears its flag while the driver holds it |
| CodecOwnership.StreamingIsCalm | libcodec/video/v4l2/dec/ExynosVideoDecoder.c:1401-1616 | as long as nobody stops the stream, that condition holds |
| CodecOwnership.CallsAreServed | libcodec/video/v4l2/dec/ExynosVideoDecoder.c:1401-1488 | over every interleaving: a queueing thread works for the address and pointer its call came with, from the search on at a slot with that address; a buffer at the driver is one of those, sent with that pointer |
| CodecOwnership.SearchIsRight | libcodec/video/v4l2/dec/ExynosVideoDecoder.c:1341-1366 | over every interleaving with the others: a search ends without a slot only if every slot with the address was queued when it was looked at, and otherwise finds the first one that was not |
| CodecOwnership.CallSearchesAll | libcodec/video/v4l2/dec/ExynosVideoDecoder.c:1425-1445 | a call that finds no slot has looked at all of them |
| CodecOwnership.RefusedCallEnds | libcodec/video/v4l2/dec/ExynosVideoDecoder.c:1466-1475 | a call whose buffer the driver refuses ends with the slot free again |
| CodecOwnership.StreamFollows | libcodec/video/v4l2/dec/ExynosVideoDecoder.c:1062-1143 | over every interleaving the stream runs if it was started last, and only then a buffer comes back |
| CodecOwnership.CallsGoOn | libcodec/video/v4l2/dec/ExynosVideoDecoder.c:1401-1616 | every thread in the middle of a call can go on, and the driver may take a buffer or refuse it |
| CodecOwnership.PointersAreRightExactly | libcodec/video/v4l2/dec/ExynosVideoDecoder.c:1477-1484 | over every interleaving in which every call brings a pointer of its own: all pointers read from returned slots are the ones sent, and stay so however harmless steps go on, if and only if no buffer comes back before its pointer is stored and no slot is claimed before its last pointer is read |
| CodecOwnership.HarmlessExactly | libcodec/video/v4l2/dec/ExynosVideoDecoder.c:1577-1616 | the same for one step: it does no harm if and only if no continuation of harmless steps reads a wrong pointer |
| CodecOwnership.LatePointer | libcodec/video/v4l2/dec/ExynosVideoDecoder.c:1477-1484 | a run from the start whose reader finds the wrong pointer, because the buffer came back before its pointer was stored |
| HwcLayers.OverlaysAreOnScreenVideo | libhwc/ExynosHWC.cpp:517-645 | a layer that gets an overlay has a video buffer and lies on the screen so that clipping changes nothing; without a transform or with a quarter turn it is scaled up at most eight times |
| HwcLayers.OverlayExactly | libhwc/ExynosHWC.cpp:517-645 | a layer gets an overlay if and only if it qualifies (buffer, one of five formats, usage, no blending, on the screen, sizes the scaler can do) and there is a scaler, with several video layers in the first window only |
| HwcLayers.PlainVideoQualifies | libhwc/ExynosHWC.cpp:599-614 | an unscaled picture of even size on the screen gets the first window in exactly the five formats |
| HwcLayers.FormatsExactly | libhwc/ExynosHWC.cpp:365-392 | every format is one of video, of the interface, or neither |
| HwcLayers.ClipIsIntersection | libhwc/ExynosHWC.cpp:212-242 | a stretch that touches the screen is clipped to what is on it |
| HwcLayers.LimitKeptExactly | libhwc/ExynosHWC.cpp:567-588 | the limit of eight along the own axes of a layer is kept by all overlays with a given transform if and only if that is none or a quarter turn |
| HwcLayers.FlippedLayer | libhwc/ExynosHWC.cpp:567-588 | a layer of 16 by 100 pixels, flipped or turned by 180 degrees, gets an overlay of 800 by 100 |
| HwComposer.HwcContext.AssignOverlayWindow | libhwc/ExynosHWC.cpp:655-779 | which assignments are refused, exactly; an accepted window names the layer and has its geometry; a window whose stream is busy never changes geometry |
| HwComposer.HwcContext.CountYuvLayers | libhwc/ExynosHWC.cpp:781-796 | the number of layers with a video buffer |
| HwComposer.CountIsNumber | libhwc/ExynosHWC.cpp:781-796 | that count is the number of layers with a video buffer |
| HwComposer.HwcContext.ChooseMode | libhwc/ExynosHWC.cpp:836-900 | the loop finds the mode that the first video layer and the counted number of video layers call for |
| HwComposer.FirstVideoDecides | libhwc/ExynosHWC.cpp:889-899 | with the right count only the first video layer decides: the check for a second one never applies |
| HwComposer.MemoryExactly | libhwc/ExynosHWC.cpp:856-878 | a layer that is not turned goes straight to the display if and only if its crop is at most the ratio times its frame on both axes; a layer turned by a quarter never does |
| HwComposer.HwcContext.CheckGscMode | libhwc/ExynosHWC.cpp:834-923 | the mode changes exactly if there is a video layer and the mode for the first of them is the other one; then every window forgets its geometry, or, if no new scaler can be had, the windows stay |
| HwComposer.HwcContext.AssignLayer | libhwc/ExynosHWC.cpp:1033-1068 | a layer becomes an overlay exactly if a window is free, the decision allows it and the window does not refuse it; the counts follow |
| HwComposer.HwcContext.AssignWindows | libhwc/ExynosHWC.cpp:1017-1068 | the counts add up to the list; the first windows are exactly the reserved ones, with increasing layer indices, each naming an overlay layer, and they cover all overlay layers; every refusal has a reason in the state of its window |
| HwComposer.QualifyingLayersGetWindows | libhwc/ExynosHWC.cpp:1017-1068 | if no window has a reason to refuse, the overlays are exactly the qualifying layers for which a window is left: the first two, or with several video layers the first one |
| HwComposer.IdleTakes | libhwc/ExynosHWC.cpp:655-779 | a window that does not stream, and is off or has the right size, takes every layer that is not of the camera |
| HwComposer.SourceQuadIsCrop | libhwc/ExynosHWC.cpp:721-740 | what a window remembers of the source is position and size of the crop |
| HwComposer.HwcContext.Prepare | libhwc/ExynosHWC.cpp:965-1068 | which calls only decide about skipping and which assign the windows anew, with the whole outcome of either |
| HwComposer.HwcContext.GetUiLaySkipdrawDecision | libhwc/ExynosHWC.cpp:73-169 | the loops compute the decision function |
| HwComposer.HwcContext.ScanLayers | libhwc/ExynosHWC.cpp:135-165 | the loop that looks for layers to track computes the scan |
| HwComposer.HwcContext.DrawTracked | libhwc/ExynosHWC.cpp:116-121 | the tracked layers go to the frame buffer and their buffers are remembered |
| HwComposer.HwcContext.SkipTracked | libhwc/ExynosHWC.cpp:128-132 | the tracked layers are called overlays |
| HwComposer.HwcContext.ComposeWindows | libhwc/ExynosHWC.cpp:1298-1445 | a window fails exactly if it is not reserved or its layer is not an overlay; of the others exactly those with a new buffer are composed, and the buffer is remembered |
| HwComposer.HwcContext.SetCounters | libhwc/ExynosHWC.cpp:1228-1284 | without a surface all skipped layers count as frame-buffer layers again |
| HwcSkip.SkipsExactly | libhwc/ExynosHWC.cpp:96-134 | a frame is skipped if and only if every tracked layer has its remembered buffer and fewer than 1800 frames were skipped since the last drawn one; what becomes of counters and layers in both cases |
| HwcSkip.StillIsSkipped | libhwc/ExynosHWC.cpp:73-169 | over any number of frames in which the interface does not change, out of every 1801 exactly one is drawn, after 1800 skipped ones |
| HwcSkip.ScanPreparesExactly | libhwc/ExynosHWC.cpp:135-165 | a scan prepares skipping if and only if the interface layers with buffers are as many as were left to draw |
| HwcSkip.UiBeforeIsNumber | libhwc/ExynosHWC.cpp:135-165 | those layers are counted |
| HwcSkip.GoneMeansDrawn | libhwc/ExynosHWC.cpp:1228-1240 | after a frame for which the display was gone, the next one is drawn |
| HwcSkip.SwapsExactly | libhwc/ExynosHWC.cpp:83-92 | without interface layers, one frame in 1800 counts as drawn |
| HwcSkip.ScanFinds | libhwc/ExynosHWC.cpp:135-165 | the scan tracks the first two interface layers with buffers, in order, and gives exactly those and the layers without buffers before its end to the frame buffer |
| HwcSkip.TrackedAreTheRest | libhwc/ExynosHWC.cpp:164-165 | if the tracked layers are as many as the layers without a window, they are exactly those (by counting) |
| HwcSkip.DecisionKeeps | libhwc/ExynosHWC.cpp:73-169 | one decision keeps windows and counts, draws every layer without a window or skips with unchanged buffers |
| HwcSkip.SkippingIsSound | libhwc/ExynosHWC.cpp:73-169 | over every run of same-geometry frames in which every scan finds the layers of the windows with buffers: windows keep naming overlays, the number of interface layers never changes, at most 1800 frames are skipped in a row, and skipped layers are exactly the ones without a window, each with its buffer of the last drawn frame |
| HwcSkip.ScanKeepsOverlaysExactly | libhwc/ExynosHWC.cpp:135-165 | the scan leaves the layers of the windows overlays if and only if none of them has lost its buffer before the scan is over |
| HwcSkip.OverlaysLastExactly | libhwc/ExynosHWC.cpp:73-169 | over every run of same-geometry frames, the layers of the windows stay overlays all along if and only if no scan meets one that has lost its buffer |
| HwComposer.AssignmentStartsRun | libhwc/ExynosHWC.cpp:965-1068 | an assignment establishes what the runs above start from |
| HwComposer.WindowsStayOverlays | libhwc/ExynosHWC.cpp:1298-1445 | from an assignment on, over every such run, the window loop finds every window reserved and its layer an overlay |
| TvOutService.StepKeeps | libhdmi/libhdmiservice/ExynosTVOutService.cpp:65-135 | every step of every thread keeps: past its wait a flush thread has a message; after a disabler has seen null the flush thread is before or in its wait |
| TvOutService.CallerStepKeeps | libhdmi/libhdmiservice/ExynosTVOutService.cpp:487-606 | the same for the steps of a caller on its own channel |
| TvOutService.FlushHasMessage | libhdmi/libhdmiservice/ExynosTVOutService.cpp:65-135 | over every interleaving without harmful wake-ups, a flush thread that has left its wait finds a message |
| TvOutService.FlushesWhatWasHandedOver | libhdmi/libhdmiservice/ExynosTVOutService.cpp:487-560 | over every interleaving: the message of a channel is null or the one stored there last, which a caller handed over for that class |
| TvOutService.WaitingIsDelivered | libhdmi/libhdmiservice/ExynosTVOutService.cpp:65-135 | a message stored for a waiting flush thread is signalled, and then read |
| TvOutService.DisableExcludesFlush | libhdmi/libhdmiservice/ExynosTVOutService.cpp:580-606 | over every interleaving without harmful wake-ups: once a disabler has seen null, no flush of that class runs or starts until its call returns |
| TvOutService.MessagesAreReadExactly | libhdmi/libhdmiservice/ExynosTVOutService.cpp:65-135 | over every interleaving with wake-ups without a signal: no null message is read, nor can come to be read through harmless steps, if and only if each such wake-up finds a message or a caller about to store one |
| TvOutService.HarmIsNotSafe | libhdmi/libhdmiservice/ExynosTVOutService.cpp:65-135 | after a wake-up that finds neither, some harmless steps read a null message, whatever callers are doing |
| TvOutService.SpuriousWakeup | libhdmi/libhdmiservice/ExynosTVOutService.cpp:69-71 | a run from the start, without any caller, that reads a null message |
| TvOutService.DisablerReturnsExactly | libhdmi/libhdmiservice/ExynosTVOutService.cpp:580-606 | as long as no wait returns without a signal, a disabler can return if and only if the message has been taken or the flush thread has been woken up for it; otherwise it polls for ever with the service mutex |
| TvOutService.LostSignal | libhdmi/libhdmiservice/ExynosTVOutService.cpp:487-606 | a run from the start: a picture comes before the flush thread has reached its wait, and then the layer is disabled |
| Edid.TagOf | libhdmi/libsForhdmi/libedid/libedid.c:455 | masking a header byte gives its three tag bits |
| Edid.CalcChecksum | libhdmi/libsForhdmi/libedid/libedid.c:163-181 | true exactly when the sum of the bytes is 0 modulo 256 |
| Edid.ChecksumCompletes | libhdmi/libsForhdmi/libedid/libedid.c:163-181 | a block is right with exactly one last byte |
| Edid.EdidCache.EdidRead | libhdmi/libsForhdmi/libedid/libedid.c:948-992 | all or nothing: the cache is filled with exactly the announced blocks of an acceptable EDID, or left empty; a healthy bus and an acceptable EDID always succeed |
| Edid.AcceptableExactly | libhdmi/libsForhdmi/libedid/libedid.c:962-985 | with right checksums, an EDID with at most one extension is acceptable, one with more if and only if the first is the block map |
| Edid.EdidCache.IsContainVic | libhdmi/libsForhdmi/libedid/libedid.c:439-481 | 1 exactly when the video code is in the list of the extension; 0 for an extension that there is not |
| Edid.EdidCache.GetVsdbOffset | libhdmi/libsForhdmi/libedid/libedid.c:250-286 | the first vendor block that the walk visits, or 0 exactly when there is none; 0 without data or for an extension that there is not |
| Edid.EdidCache.SaveVic | libhdmi/libsForhdmi/libedid/libedid.c:710-742 | the first sixteen codes of the extensions visited, in order; the entries behind them keep their values; nothing is asked of the extensions behind the sixteenth code |
| Edid.SavedAreFirst | libhdmi/libsForhdmi/libedid/libedid.c:710-742 | if all extensions can be walked, these are the first sixteen codes of all of them |
| Edid.SixteenFit | libhdmi/libsForhdmi/libedid/libedid.c:710-742 | sixteen codes fit |
| Edid.WalkOfEncoded | libhdmi/libsForhdmi/libedid/libedid.c:450-478 | walking the encoding of a list of blocks, wherever it lies, gives the list back |
| Edid.ExtensionRoundTrip | libhdmi/libsForhdmi/libedid/libedid.c:439-481 | the walk over an extension gives back the blocks and the video codes that were written into it |
| Edid.VendorRoundTrip | libhdmi/libsForhdmi/libedid/libedid.c:250-286 | in a written extension, what is found is the address of the first block with tag 3, at least five bytes and the identifier 03 0C 00, or 0 if there is none |
| HdmiDevice.Hdmi.EdidOpen | libhdmi/libsForhdmi/libddc/libddc.c:90-107 | opening counts, and opens the file only the first time, even if that fails |
| HdmiDevice.Hdmi.EdidRead | libhdmi/libsForhdmi/libedid/libedid.c:948-992 | a kept EDID stays as it is; otherwise it is read if the bus is open and answers |
| HdmiDevice.Hdmi.EdidClose | libhdmi/libsForhdmi/libddc/libddc.c:115-142 | closing forgets the EDID first, and closes the file with the last count; when it fails |
| HdmiDevice.Hdmi.CheckResolution | libhdmi/libsForhdmi/libedid/libedid.c:1069-1104 | every check reads the EDID first; without one it fails |
| HdmiDevice.Hdmi.ResolutionValueIndex | libhdmi/ExynosHdmi/ExynosHdmi.cpp:2043-2075 | the position of a value in the list of its mode, or -1 |
| HdmiDevice.Hdmi.SearchList | libhdmi/ExynosHdmi/ExynosHdmi.cpp:1202-1240 | the first entry from the default on that the sink accepts |
| HdmiResolution.PresetIsTheTiming | libhdmi/libhdmiutils/ExynosHdmiUtils.cpp:1428-1553 | a preset is the timing that the value spells out (lines, interlacing, frequency), in the mode asked for, as high as the lines and as wide as they demand |
| HdmiResolution.ModesHaveOneSize | libhdmi/libhdmiutils/ExynosHdmiUtils.cpp:1428-1553 | a 3D preset has the size of the 2D preset of its value |
| HdmiResolution.ListsHavePresetsExactly | libhdmi/ExynosHdmi/ExynosHdmi.cpp:320-343 | the lists hold exactly the values with a preset |
| HdmiResolution.DefaultTimings | libhdmi/ExynosHdmi/ExynosHdmiCommon.h:56-87 | the defaults are progressive at 60 Hz, with the lines of the build; 720 in 3D modes of the 480-line builds |
| HdmiResolution.DefaultPreset | libhdmi/ExynosHdmi/ExynosHdmiCommon.h:56-87 | the default preset is that of the default value |
| HdmiResolution.SearchFinds | libhdmi/ExynosHdmi/ExynosHdmi.cpp:1202-1240 | what is found is accepted and the first such entry; nothing is found exactly when the sink rejects everything from the default on |
| HdmiResolution.ChoiceIsRight | libhdmi/ExynosHdmi/ExynosHdmi.cpp:1196-1253 | the request if accepted; else the first accepted entry from the default on, of its own mode if that has one, of 2D otherwise; else the last 2D entry |
| HdmiResolution.ChoiceHasPreset | libhdmi/ExynosHdmi/ExynosHdmi.cpp:1196-1253 | the choice always has a preset |
| HdmiResolution.DefaultIsListed | libhdmi/ExynosHdmi/ExynosHdmiCommon.h:56-87 | in all four build configurations the default of every mode is in its list |
| HdmiDevice.Hdmi.MSetHdmiResolution | libhdmi/ExynosHdmi/ExynosHdmi.cpp:1969-2000 | fails exactly for a pair that is not current and has no preset; otherwise pair, size and preset become current and nothing else changes |
| HdmiDevice.Hdmi.SetHdmiResolution | libhdmi/ExynosHdmi/ExynosHdmi.cpp:1170-1273 | the step of the device, in builds with and without EDID; which requests succeed |
| HdmiDevice.Hdmi.DoFlush | libhdmi/ExynosHdmi/ExynosHdmi.cpp:799-807 | the step of the device: refused unless created and connected; makes the requested pair current when something changed (:1459-1496); exactly when it succeeds |
| HdmiDevice.Hdmi.Create | libhdmi/ExynosHdmi/ExynosHdmi.cpp:361-464 | the step of the device: a creation that fails for want of memory or of a preset forgets the resolution |
| HdmiDevice.Hdmi.Connect | libhdmi/ExynosHdmi/ExynosHdmi.cpp:568-641 | the step of the device: opens the bus, reads the EDID unless one is kept, and asks again for the resolution before it counts as connected |
| HdmiDevice.Hdmi.Disconnect | libhdmi/ExynosHdmi/ExynosHdmi.cpp:643-719 | the step of the device: forgets the EDID before anything that can fail, then resets the resolution but keeps the requested 3D mode |
| HdmiDevice.ConnectedPairIsInForce | libhdmi/ExynosHdmi/ExynosHdmi.cpp:568-1273 | in builds with EDID, over every run of calls with any outcomes: while created and connected, the pair asked for is current with its own size and preset |
| HdmiDevice.CurrentPairIsItsOwn | libhdmi/ExynosHdmi/ExynosHdmi.cpp:1969-2000 | in every build, over every run: size and preset are those of the pair last made current |
| HdmiDevice.SentPairIsTheOneAskedFor | libhdmi/ExynosHdmi/ExynosHdmi.cpp:1477-1489 | in every build, over every run: while created and connected with nothing left to be flushed, the transmitter sends the preset of the pair asked for |
| HdmiDevice.WhatHasToBeFlushed | libhdmi/ExynosHdmi/ExynosHdmi.cpp:1262-1270 | a flush that works leaves nothing to be flushed; another pair asked for, or plugging in, does |
| HdmiDevice.CreatedWithSize | libhdmi/ExynosHdmi/ExynosHdmi.cpp:436-455 | a creation succeeds if and only if nothing fails and the pair asked for has a preset, and takes its size |
| HdmiDevice.RequestIsServed | libhdmi/ExynosHdmi/ExynosHdmi.cpp:1170-1273 | a request that is not the unchanged one makes the negotiated pair requested and current or changes nothing; with EDID it always succeeds |
| HdmiDevice.FlushesNeverFailExactly | libhdmi/ExynosHdmi/ExynosHdmi.cpp:1459-1470 | no run leads to a connected output whose flushes fail for want of a preset, if and only if the build reads EDID or its 2D default has 720 or 1080 lines |
| HdmiDevice.FlushFailsForGood | libhdmi/ExynosHdmi/ExynosHdmi.cpp:1459-1470 | a flush that fails for want of a preset changes nothing, so all further ones fail as well |
| HdmiDevice.ReplugFails | libhdmi/ExynosHdmi/ExynosHdmi.cpp:614 | in the other builds: ask for a 3D mode, unplug, plug in again |
| HdmiDevice.CanBeCreatedExactly | libhdmi/ExynosHdmi/ExynosHdmi.cpp:436-459 | an output that does not exist can be created, by whatever calls, if and only if the pair still asked for has a preset |
| HdmiDevice.FailedCreationIsFinal | libhdmi/ExynosHdmi/ExynosHdmi.cpp:457-460 | a creation that runs out of memory is the last one |
| HdmiDevice.AlwaysCreatableExactly | libhdmi/ExynosHdmi/ExynosHdmi.cpp:361-719 | the output can be created again after every run in which memory lasts, if and only if the build reads EDID and its 2D default has 720 or 1080 lines |
| HdmiSinks.AlwaysSuitsExactly | libhdmi/ExynosHdmi/ExynosHdmi.cpp:1196-1253 | every choice made with the EDID of one sink suits another sink, if and only if that supports all the first one does, and 480 lines or nothing from the default on if the first one has nothing from there on |
| HdmiSinks.BlindIsReliableExactly | libhdmi/ExynosHdmi/ExynosHdmi.cpp:1196-1253 | choices made without any EDID suit every sink, if and only if the default has 480 lines |
| HdmiSinks.SafeExactly | libhdmi/ExynosHdmi/ExynosHdmi.cpp:1170-1273 | in any state of a build with EDID: what is shown suits the sink plugged in, and so would every request, if and only if the pair shown suits it and the EDID kept, or none, is as above for it |
| HdmiSinks.OutputSuitsExactly | libhdmi/ExynosHdmi/ExynosHdmi.cpp:568-1273 | over every run of calls with any outcomes and changes of cables: that holds all along, if and only if the EDID kept is as above whenever the output is in use, and a cable changed behind its back finds a suitable pair |
| HdmiSinks.CarefulOutputSuits | libhdmi/ExynosHdmi/ExynosHdmi.cpp:568-719 | it holds over every run in which connecting reads the EDID, plugging and unplugging succeed, and cables change in between |
| HdmiSinks.FailedUnplug | libhdmi/ExynosHdmi/ExynosHdmi.cpp:667-700 | a run in which unplugging fails after the EDID was forgotten, so that the next request ends in 480 lines, which the sink does not support |
| HdmiSinks.FailedPlug | libhdmi/ExynosHdmi/ExynosHdmi.cpp:594-622 | a run in which plugging fails after the EDID was read, and the next sink is asked for what the first one supports |
| HdmiSinks.BusIsCounted | libhdmi/libsForhdmi/libddc/libddc.c:90-142 | over every run, an EDID is kept only while the bus is open, and the bus is open only while it is counted |
| HdmiSinks.BusStaysOpen | libhdmi/ExynosHdmi/ExynosHdmi.cpp:594-668 | after a failed and a successful plugging, unplugging leaves the bus open |
| HdmiSinks.LateQuery | libhdmi/ExynosHdmi/ExynosHdmi.cpp:1146-1150 | then any query while unplugged keeps an EDID, by which the next sink is judged |
| HdmiRect.HdmiCalRect | libhdmi/libhdmiutils/ExynosHdmiUtils.cpp:1045-1058 | inside the destination, filling the tighter axis, centred within a pixel, and the largest size within the aspect on the other axis |
| HdmiRect.RectIsDetermined | libhdmi/libhdmiutils/ExynosHdmiUtils.cpp:1045-1058 | these properties leave only one rectangle |
| HdmiRect.HalvedFits | libhdmi/ExynosHdmi/ExynosHdmi.cpp:1534-1563 | the rectangle of one interlaced field fits half the height and stays centred within two lines |

## Left out

- TileWords.Tile2DToYuv420: even widths only for the chroma half, as its callers use it; the luma half (`Tile2DToY`) covers every width.
- TileWords.Tile2DToCbCr: even widths only, for the same reason; an odd width makes the rows of its planes start at uneven distances.
- TilePlanes.PlaneAt: for planes that fit the 32-bit address space; larger ones would wrap in the address computation.
- RgbConverters.ToYuv420P: the packed pixels are a sequence of words; the byte order of the buffer is not modelled, and one method covers RGB565 and ARGB8888, which differ only in taking a pixel apart.
- V4l2Queue.Queue.Dqbuf: a dequeue that would wait for ever counts as failing.
- OutputRing.OutputHandle.Config: the many picture-setting calls are one call that may fail, since none of them touches buffers; the outcome says how far a call got and not which number it returns; the queued-frame counter does not overflow.
- GscM2m.GscHandle.Convert: the many picture-setting calls are one call that may fail; whether sizes, formats and planes are supported is a parameter.
- CodecBuffers.BufferTable.Enqueue: the checks for null contexts and plane counts, plane sizes, file descriptors and the floating-point time stamp are left out; the result of a dequeue is the slot's number.
- CodecTable.TableRefinesMap: callers register each address once and queue no null address, which would take any free slot; stops are those of `StopTracksExactly`.
- CodecOwnership.PointersAreRightExactly: runs without stops, whose effect on ownership is stated by `RunsKeepGoodExactly`.
- HwcLayers.OverlaysAreOnScreenVideo: coordinates whose differences overflow 32 bits are not modelled.
- HwComposer.HwcContext.Prepare: whether a new scaler can be had is a parameter, the default scaler mode is one of the build (its header, ExynosHWCModule.h, is not part of this model), and both windows share the screen size; the HDMI notifications of a prepared frame are left out.
- HwcSkip.SkippingIsSound: a layer keeps its pixel format while the geometry stays the same.
- HwComposer.HwcContext.ComposeWindows: running the scaler on a window and its failures, which do not change the loop's outcome.
- TvOutService.DisableExcludesFlush: a message being replaced while it is read, the cable check, and calls that only clear a layer are not modelled.
- Edid.EdidCache.IsContainVic: the cache is filled, and the visited blocks of a cached extension stay inside it; the code reads outside of its buffer otherwise.
- Edid.CalcChecksum: buffers of less than 256 bytes, as its callers pass; the byte-sized index never ends a longer one.
- Edid.EdidCache.GetVsdbOffset: in addition the three identifier bytes behind a vendor tag must lie in the buffer, for the same reason.
- HdmiDevice.Hdmi.Connect: a sink is what it supports, and its bus answers all reads of one call or none; calls run one after the other.
- HdmiDevice.Hdmi.DoFlush: the steps of a flush before and after the resolution are parameters that say whether they succeed.
- HdmiRect.HdmiCalRect: sizes are positive and their products do not overflow.
- Opening devices, media links, memory mapping and allocation, logging, and the message queue of the TV-out service.
- Timing tables, audio and 3D capabilities of the EDID, encoder parameters, format translation tables, scaling-ratio tables, CEC and DDC.
- The camera HAL, the audio accelerator, the FFmpeg wrapper, Binder marshalling, the 2D blitter and all EGL and GL calls.
