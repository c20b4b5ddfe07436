# Verified model of the PS4 machine's GPU front end, loader, host layer and TCG regions

This project models seven parts of a QEMU fork that runs PS4 software and proves properties of them in Dafny 4.11.
`dafny verify dfyconfig.toml` checks everything.

Guest memory is a map from mapped byte addresses to bytes; a write from a guest
address that meets an unmapped byte has already stored the bytes before it, and a write to guest RAM stores every
mapped byte. Clock readings, GPU progress, failing renames and similar outside events are parameters, so the
results hold for all of them. Loops and objects that the source updates in place are methods and classes proved
against functions, and the results are lemmas about those functions.

* `Pm4`, `Pm4Effects`, `Pm4Packets`, `Pm4Inlining`, `Pm4Registers`, `Pm4Events`, `Pm4SelfModifying`, `GpuStream`,
  `GpuFrontend`, `GpuCalls`: the PM4 packet grammar and its interpreters (flattening, memory execution, register
  parsing, D3D12 recording), atomic submission, and ring queues with doorbells.
* `Tiling`, `TilingForms`, `ImageCopy`, `ImageSizes`, `ImageLoops`: GCN tiled-image addressing and the copies between
  tiled guest images and linear device buffers.
* `Frames`, `FramesSafety`, `FramesCalls`, `FramesQueues`, `FramesWritebacks`, `FramesEvictions`, `FramesReadbacks`,
  `FramesDevice`: three frames in flight with fences, descriptor pages, transients, writebacks, shared buffers and cache
  evictions. The device state carries a trace of the lists given to the GPU and of everything the CPU reuses, frees or
  reads back.
* `Loader`, `LoaderHeaders`, `Relocation`, `Linker`, `ModuleLoader`: segment placement, relocation tables and deferred
  symbol binding.
* `TbTree`, `TcgRegion`, `TcgSizes`, `TcgAllocation`, `TcgState`: the code buffer's regions, their search trees and
  their accounting.
* `HostLifecycle`, `MountPaths`, `HostStorage`, `HostCalls`, `HostBroker`: the embedding lifecycle as interleaved
  critical sections, mounts, the handle table and reference balance.
* `Callout`, `CalloutList`, `CalloutFaults`, `CalloutService`: the timer list in guest memory.
* `SaveStorage`, `SaveBackup`, `SaveCommit`, `SaveSuccess`, `SaveService`: save backup on a storage that maps paths to
  entries and whose every operation may fail: the bounded tree copy and its commit by renames.
* `UriSweep`: dot-segment removal.
* `Arithmetic`, `GuestMemory`, `Wrappers`: shared definitions.

## What does not hold, and when

* Inlining indirect buffers can change the meaning of a stream that rewrites a buffer before entering it
  (`Pm4SelfModifying.RewritingABufferChangesMeaning`); it never does when each buffer holds what flattening read
  whenever it is entered (`Pm4Inlining.InliningPreservesMeaningWhenEntered`).
* The tiled address map is computed in 32 bits and can repeat offsets in a slice of more than 2^34 bytes with its
  padding (`Tiling.LargeSlicesWrap`). Up to 2^34 bytes it never does (`Tiling.PaddedSizeFits`), nor within 16384 by
  16384 elements (`Tiling.HardwareLimitsFit`), which is all that the 14-bit fields of a descriptor hold, and the copies
  refuse images beyond 2^31 bytes; so the repetition is not reachable from a descriptor.
* A write-back followed by an upload loses something exactly when two texels share a guest byte
  (`ImageCopy.ImageRoundTrip`), as in `ImageCopy.OverlappingTexelsLose`.
* Filling a buffer waits for the frame it belongs to, but not for earlier commands of the same list, and filling the
  buffer of a writable resource waits for nothing. A per-frame buffer is filled safely exactly when the open recording
  does not refer to it, a shared one exactly when no unfinished list does either. A second fill in one submission
  overwrites what the first command reads (`FramesEvictions.RefillOverwritesItsOwnList`).
* Evicting a shader or pipeline cache entry frees its resources without a wait. That is safe exactly when no unfinished
  list, not the open recording, and no queued writeback refers to the entry (`FramesEvictions.RunsAreSafe`, for fills
  and evictions together), and can fail (`FramesEvictions.EvictionCanFreeWhatIsInUse`).
* The readback buffer of a bound resource is one for all frames, so a completion may read it while an unfinished list
  copies the same resource (`FramesReadbacks.ReadbackCanRace`). It does not when no resource waits in the queues of two
  frames (`FramesReadbacks.ReadbacksAreAlone`).
* A finish directly after an aborted recording completes writebacks no list has copied, exactly when that recording had
  queued some (`FramesWritebacks.FinishAfterAbort`, `FramesReadbacks.AbortedWritebackIsCompleted`). The front end never
  aborts a recording it parsed (`Pm4Registers.RecorderAgrees`).
* A relocation table that fails has counted one relocation more than it applied or deferred
  (`Relocation.FailedEntryUnbalances`); the counters balance exactly when each entry has a target in a segment, a value
  that fits or a symbol for the linker, and a mapped word (`Relocation.CountersBalance`).
* The tree comparator is not antisymmetric when the lookup key is its second argument (`TbTree.KeyMustComeFirst`); a
  comment in the source says that the tree always passes the key first.
* A join can wait on the handle of a loop thread that has not been created yet (`HostLifecycle.JoinMayPrecedeCreation`);
  such a wait ends at once or faults, and a step can then run beside the loop thread. It happens exactly when a start is
  between its critical section and the creation of the thread (`HostLifecycle.WaitIsSafeExactly`).
* A backup that starts with only an ".old" tree removes it before the new tree is in place
  (`SaveCommit.OldTreeAloneIsUnprotected`); every step keeps a complete tree exactly when the destination exists, the
  copy fails, or that removal removes nothing (`SaveCommit.ProtectedExactly`).
* When the first cleanup of the ".tmp" tree fails, what is left there ends up at the destination
  (`SaveCommit.LeftoversReachTheDestination`) unless the source has an entry in its place
  (`SaveCommit.SuccessCopiesTheSource`).

## Model

| member | source | states |
|---|---|---|
| `Pm4Inlining.InliningPreservesMeaningWhenEntered` | hw/i386/shadps4-gpu.c:153-415 | When flattening succeeds and each indirect buffer, at the moment the nested execution enters it, holds the words flattening read, executing the flattened stream leaves the same guest memory, reads the clock as often and ends with the same verdict as the recursive executor on the nested stream; what happens to a buffer before and after it is executed does not matter |
| `Pm4Inlining.InliningPreservesMeaning` | hw/i386/shadps4-gpu.c:153-415 | In particular when no executed packet changes an indirect buffer that was read |
| `Pm4Inlining.InliningPreservesMeaningOfDisjointStreams` | hw/i386/shadps4-gpu.c:153-415 | The same, under a condition read off the flattened packets before they run: none of their target addresses lies in a buffer that was inlined |
| `Pm4Inlining.NestedIsRun` | hw/i386/shadps4-gpu.c:232-415 | The recursive executor on a nested stream is the packets of its inlining, run one after another up to the first failure, as long as each buffer holds what inlining read when it is entered |
| `Pm4Inlining.ExecIsRun` | hw/i386/shadps4-gpu.c:232-415 | The recursive executor on a nested stream is the packets of its inlining, run one after another up to the first failure |
| `Pm4Inlining.FlatExecIsRun` | hw/i386/shadps4-gpu.c:232-415 | On a concatenation of complete packets the executor recovers exactly those packets |
| `Pm4Inlining.PacketFrame` | hw/i386/shadps4-gpu.c:277-381 | A packet, successful or not, writes no byte outside its own targets |
| `Pm4Effects.WriteDataStores` | hw/i386/shadps4-gpu.c:278-303 | A WRITE_DATA that succeeds leaves its words at consecutive addresses, or the last one at its one address |
| `Pm4Effects.DmaMoves` | hw/i386/shadps4-gpu.c:304-353 | A DMA_DATA that succeeds leaves the repeated value, or the bytes the source held before the packet, also when the ranges overlap |
| `Pm4Effects.EopWrites` | hw/i386/shadps4-gpu.c:354-381 | An EVENT_WRITE_EOP that succeeds leaves its value or the time in four or eight bytes, and reads the clock exactly for selectors 3 and 4 |
| `Pm4Packets.WriteDataPacket` | hw/i386/shadps4-gpu.c:272-303 | Executing a stream of one WRITE_DATA packet leaves its words in memory; it fails exactly for a destination other than memory and for an unmapped word, and is ignored when it is too short |
| `Pm4Packets.DmaPacket` | hw/i386/shadps4-gpu.c:304-353 | Executing a stream of one DMA_DATA packet leaves the repeated value or the bytes of the source; it fails exactly for other selectors or sizes and for unmapped ranges |
| `Pm4Packets.EopPacket` | hw/i386/shadps4-gpu.c:354-381 | Executing a stream of one EVENT_WRITE_EOP packet leaves its value or the time; it fails exactly for selectors above 4 and unmapped ranges |
| `Pm4Packets.OtherPackets` | hw/i386/shadps4-gpu.c:239-277 | Every packet with another opcode or type leaves the machine as it was |
| `Pm4Packets.IndirectPacket` | hw/i386/shadps4-gpu.c:384-410 | Executing an indirect buffer packet is executing the words of its buffer one level deeper; it fails exactly for a buffer that is null, empty or unreadable |
| `Pm4Packets.PacketInlines` | hw/i386/shadps4-gpu.c:153-230 | Flattening one packet gives what the words of its indirect buffer give, or the packet itself within the size limit, or the error of what is missing |
| `Pm4Packets.TooDeep` | hw/i386/shadps4-gpu.c:153-240 | Eight levels of indirect buffers are entered and the ninth is refused |
| `Pm4Packets.HeaderDecodes` | hw/i386/shadps4-gpu.c:241-262 | A header is read as type, opcode and payload count from its bit fields, for all their values |
| `Pm4Packets.OtherHeadersDecode` | hw/i386/shadps4-gpu.c:251-271 | Headers of types 0, 1 and 2 announce their payload and name no indirect buffer |
| `Pm4Packets.PaddingStreams` | hw/i386/shadps4-gpu.c:247-250 | A tail of zeros and empty type-2 headers ends a stream, for execution and flattening |
| `Pm4Packets.TruncatedStreams` | hw/i386/shadps4-gpu.c:256-275 | A packet that announces more words than are left stops both and changes nothing |
| `Pm4Packets.WordsBeforeFailure` | hw/i386/shadps4-gpu.c:290-303 | A WRITE_DATA that stops at an unmapped word has stored every word before it |
| `Pm4SelfModifying.RewritingABufferChangesMeaning` | hw/i386/shadps4-gpu.c:184-226 | The side condition is needed: for a stream that rewrites a buffer before entering it, the flattened form succeeds and the nested form fails |
| `GpuFrontend.FlattenedStreamsAreWellFormed` | hw/i386/shadps4-gpu.c:153-230 | A flattened stream is at most 0xfffff * 8 dwords of complete packets without indirect buffers; parsing it can only reject an unacceptable register packet, executing it can only fail in the effect of a packet, and recording it never aborts once parsing accepted it |
| `Pm4Registers.ParseIsFold` | hw/i386/shadps4-gpu.c:417-499 | Parsing accepts exactly the streams whose packets are all acceptable and then yields the fold of their register writes; otherwise it reports the first unacceptable packet |
| `Pm4Registers.RecorderAgrees` | hw/i386/shadps4-gpu-d3d12.c:4045-4113 | On every stream the parser accepts, the recorder does not abort and ends with the same context and shader registers, except in slot 0x3ff |
| `Pm4Registers.EventsSeePrefixFold` | hw/i386/shadps4-gpu-d3d12.c:4050-4302 | Recording yields one event per draw, dispatch and synchronisation packet, in stream order, and each sees the fold of exactly the packets before it |
| `Pm4Events.EventsSeeLatestSettings` | hw/i386/shadps4-gpu-d3d12.c:4065-4302 | Each draw uses the index buffer, index size, instance count, indirect base and primitive type last set before it in the stream, and each dispatch the indirect base |
| `Pm4Events.RefusedPackets` | hw/i386/shadps4-gpu.c:115-135 | The parser refuses exactly register runs that are empty or leave their bank of 1024 and WRITE_DATA packets without data |
| `Pm4Events.EventPackets` | hw/i386/shadps4-gpu-d3d12.c:4115-4302 | The sixteen opcodes that give rise to events, and which kind each |
| `GpuStream.Flatten` | hw/i386/shadps4-gpu.c:153-230 | The flattening loop appends the inlined stream, or reports the same error, for every guest memory; it terminates on self-referencing buffers |
| `GpuStream.ExecuteMemory` | hw/i386/shadps4-gpu.c:232-415 | The executing loop leaves the memory, clock count and error of the executor; it terminates on self-referencing buffers |
| `GpuStream.WriteData` | hw/i386/shadps4-gpu.c:278-303 | WRITE_DATA stores its words at consecutive addresses or at one address, up to the first unmapped word |
| `GpuStream.Dma` | hw/i386/shadps4-gpu.c:304-353 | DMA_DATA fills in four-byte pieces or copies through a bounce buffer, with the same failures and partial writes |
| `GpuStream.EventWriteEop` | hw/i386/shadps4-gpu.c:354-381 | EVENT_WRITE_EOP stores nothing, four or eight bytes of the value or the clock, by its selector |
| `GpuStream.SetRegisters` | hw/i386/shadps4-gpu.c:115-135 | A register run is written whole when it fits the bank, and not at all otherwise |
| `GpuStream.ParseCommands` | hw/i386/shadps4-gpu.c:417-499 | The parsing loop leaves the folded registers and the packet count, or the error |
| `GpuStream.CommandRecorder.Record` | hw/i386/shadps4-gpu-d3d12.c:4050-4302 | The packet loop of the recorder leaves the state of the recorder, and aborts exactly where it does |
| `GpuFrontend.SubmissionIsAtomic` | hw/i386/shadps4-gpu.c:655-737 | A failed submission changes nothing in the front end but adds one rejection; a successful one installs the fold of the flattened packets, counts itself once on its queue, sets the fences and leaves every other queue and ring alone |
| `GpuCalls.SubmissionExactly` | hw/i386/shadps4-gpu.c:655-737 | A submission is accepted exactly when its arguments are in range, its buffers can be read, its packets are acceptable and run, and its fence can be written |
| `GpuCalls.SubmissionLeaves` | hw/i386/shadps4-gpu.c:655-737 | It leaves the memory of its packets run in order and then the fence, and counts the packets up to the padding |
| `GpuFrontend.Gpu.SubmitCommands` | hw/i386/shadps4-gpu.c:655-737 | The submission method performs exactly that step on the counters, register arrays, queues and guest memory |
| `GpuFrontend.SubmissionRunsTheNestedStream` | hw/i386/shadps4-gpu.c:655-737 | When no packet has a target in a buffer that was inlined and the back end leaves those buffers alone, a submission that parses leaves the memory and clock of the recursive executor on the nested stream, followed by its fence, and is accepted exactly when the nested stream succeeds and the fence can be written |
| `GpuFrontend.BlockContinues` | hw/i386/shadps4-gpu.c:822-851 | The dwords a doorbell takes from the ring continue where the previous block ended, also across the end of the ring |
| `GpuCalls.PendingReadable` | hw/i386/shadps4-gpu.c:822-841 | What is pending can be read exactly when each of its dwords can, where it lies in the ring |
| `GpuFrontend.StepKeepsRings` | hw/i386/shadps4-gpu.c:771-863 | Mapping, unmapping, submitting and ringing keep every ring consistent with the blocks taken from it |
| `GpuFrontend.RingsAreConsumedInOrder` | hw/i386/shadps4-gpu.c:771-863 | Over every run, what a mapped ring has given up is its contents from offset 0 on, each position once and in order, and its read offset is in range |
| `GpuFrontend.DoorbellOutcome` | hw/i386/shadps4-gpu.c:809-863 | After a successful doorbell the read offset is the requested one and the guest read pointer holds it; a doorbell whose submission fails leaves the ring where it was |
| `GpuCalls.DoorbellExactly` | hw/i386/shadps4-gpu.c:809-863 | A doorbell succeeds exactly for an offset in a mapped ring whose pending dwords can be read and are accepted, and whose read pointer can be written; no other queue changes |
| `GpuCalls.MapExactly` | hw/i386/shadps4-gpu.c:771-796 | Mapping succeeds exactly for arguments in range, a free queue and a writable read pointer; the queue with the returned number then reads the given ring from its start, and unmapping that number is possible |
| `GpuCalls.UnmapExactly` | hw/i386/shadps4-gpu.c:798-807 | Unmapping succeeds exactly for the number of a mapped queue, and clears that queue only |
| `GpuFrontend.Gpu.Ring` | hw/i386/shadps4-gpu.c:809-863 | The doorbell method performs exactly that step |
| `GpuFrontend.Gpu.MapRing` | hw/i386/shadps4-gpu.c:771-796 | Mapping checks its arguments, clears the read pointer and starts at offset 0 |
| `GpuFrontend.Gpu.UnmapRing` | hw/i386/shadps4-gpu.c:798-807 | Unmapping clears the queue |
| `Tiling.MicroPixelInjective` | hw/i386/shadps4-gpu-d3d12.c:2071-2087 | Every micro-tile order sends the 64 positions of a tile to different elements |
| `TilingForms.ThinTilesAreZOrdered` | hw/i386/shadps4-gpu-d3d12.c:2071-2079 | Outside micro-tile mode 0 elements are in Z-order: doubling both coordinates multiplies the position by four |
| `TilingForms.DisplayTiles` | hw/i386/shadps4-gpu-d3d12.c:2080-2087 | In mode 0 the order is given in closed form for elements of 1, 2, 4, 8 and 16 bytes |
| `TilingForms.PipeOfTile` | hw/i386/shadps4-gpu-d3d12.c:2089-2107 | Two pipes form a checkerboard; with eight, the pipe is that of the column in the first row, exclusive-or the row |
| `TilingForms.BankOfTile` | hw/i386/shadps4-gpu-d3d12.c:2109-2140 | The bank is the column of bank-sized tiles, flipped by the row through a table, by the slice in array mode 4 and by the swizzle of the image |
| `TilingForms.BankParts` | hw/i386/shadps4-gpu-d3d12.c:2109-2122 | The column and row of the bank-sized tile that decides the bank, by the digits of the coordinates |
| `TilingForms.MacroTotalParts` | hw/i386/shadps4-gpu-d3d12.c:2142-2175 | In each bank of each pipe macro tiles follow each other along rows, and each holds the micro tiles of its bank along rows, whole |
| `TilingForms.MacroTiledParts` | hw/i386/shadps4-gpu-d3d12.c:2175-2207 | The offset holds the low eight bits of that address, the pipe, the bank and the rest of the address |
| `TilingForms.MicroTiledParts` | hw/i386/shadps4-gpu-d3d12.c:2197-2205 | Micro-tiled images hold their micro tiles along rows, each whole |
| `TilingForms.LinearParts` | hw/i386/shadps4-gpu-d3d12.c:2206-2207 | All other images are linear |
| `Tiling.MacroOffsetInjective` | hw/i386/shadps4-gpu-d3d12.c:2089-2182 | Pipe, bank and macro-tile swizzles together lose no position of a slice whose share per pipe and bank fits 32 bits |
| `Tiling.OffsetInjective` | hw/i386/shadps4-gpu-d3d12.c:2184-2207 | The address map of a slice is injective in every layout |
| `Tiling.TexelsNeverOverlap` | hw/i386/shadps4-gpu-d3d12.c:2184-2207 | No two elements of a slice share a byte |
| `Tiling.OffsetWithinSlice` | hw/i386/shadps4-gpu-d3d12.c:2184-2207 | Every element lies inside the padded extent of its slice |
| `Tiling.HardwareLimitsFit` | hw/i386/shadps4-gpu-d3d12.c:2142-2182 | Images of at most 16384 by 16384 elements satisfy the 32-bit condition |
| `Tiling.PaddedSizeFits` | hw/i386/shadps4-gpu-d3d12.c:2156-2181 | So does every slice that takes at most 2^34 bytes with its padding, hence every slice stored with its padding in an image the copies accept |
| `Tiling.LargeSlicesWrap` | hw/i386/shadps4-gpu-d3d12.c:2156-2181 | That bound cannot be raised for every layout: one with two pipes and two banks whose first 16384 rows take 2^34 bytes gives the element just below them the offset of the first; its 65536 elements per row do not fit a descriptor |
| `Tiling.MacroTiledOffset` | hw/i386/shadps4-gpu-d3d12.c:2142-2182 | The method with the bank-bit counting loop and shifts computes the specified offset |
| `ImageCopy.TexelsMember` | hw/i386/shadps4-gpu-d3d12.c:2346-2395 | The nested loops visit exactly the texels of all layers, mips, slices, rows and columns |
| `ImageSizes.LevelExtents` | hw/i386/shadps4-gpu-d3d12.c:2349-2359 | A level has the extents of the image halved at each step, in texels or in the fewest 4x4 blocks that cover it; only volumes have several slices |
| `ImageSizes.LevelPitch` | hw/i386/shadps4-gpu-d3d12.c:2365-2367 | The row length of a level is the stored one, or the halved one of the image |
| `ImageSizes.StoredSizes` | hw/i386/shadps4-gpu-d3d12.c:2361-2363 | The bytes stored for a level are shared out evenly over its layers and slices |
| `ImageSizes.TexelPlaces` | hw/i386/shadps4-gpu-d3d12.c:2361-2385 | Where a texel lies in the guest image, past the layers and slices before its own, and in the linear buffer, past the rows and elements before its own |
| `ImageCopy.PaddedSlicesHold` | hw/i386/shadps4-gpu-d3d12.c:2350-2362 | A slice stored with all its padding holds every one of its texels |
| `ImageCopy.TiledApart` | hw/i386/shadps4-gpu-d3d12.c:2350-2381 | When every texel lies in the bytes stored for its slice, different texels occupy different guest bytes, over all mips, layers and slices |
| `ImageCopy.LinearApart` | hw/i386/shadps4-gpu-d3d12.c:2350-2385 | Different texels occupy different bytes of the linear buffer |
| `ImageCopy.MoveAndBack` | hw/i386/shadps4-gpu-d3d12.c:3862-3908 | Copying elements out and back restores every copied byte in both buffers when the copies are apart |
| `ImageCopy.ImageRoundTrip` | hw/i386/shadps4-gpu-d3d12.c:3846-3908 | For every image the copies accept: writing a linear image back and uploading it again gives exactly that image, whatever its contents, if and only if no two texels share a guest byte |
| `ImageCopy.OverlappingTexelsLose` | hw/i386/shadps4-gpu-d3d12.c:3846-3908 | For an image that the copies accept and whose rows are stored closer than they are copied, some linear image does not come back |
| `ImageCopy.UploadThenWriteback` | hw/i386/shadps4-gpu-d3d12.c:3846-3908 | For every image the copies accept, uploading the guest image and writing it back leaves the guest image as it was, also where texels share bytes |
| `ImageCopy.TexelIsPlaced` | hw/i386/shadps4-gpu-d3d12.c:3862-3900 | Each texel is uploaded from where the address map puts it, and written back there when no two texels share a byte |
| `ImageLoops.CopyTexels` | hw/i386/shadps4-gpu-d3d12.c:2346-2390 | The five nested copy loops perform the whole copy, or stop at the first texel outside the guest image |
| `ImageLoops.WritebackImage` | hw/i386/shadps4-gpu-d3d12.c:3846-3909 | The write-back succeeds exactly when the guest range is mapped and every texel fits, and then guest memory holds the written-back image; otherwise it is unchanged |
| `ImageLoops.PrepareLinearImage` | hw/i386/shadps4-gpu-d3d12.c:2336-2390 | The upload fills a zeroed buffer with the image, with the same conditions |
| `ImageLoops.PlacedImagesPass` | hw/i386/shadps4-gpu-d3d12.c:2346-2390 | An image whose texels lie in the slices stored for them, and whose footprints are as a device reports them, passes the bounds check at every texel |
| `ImageLoops.RoundTripThroughMemory` | hw/i386/shadps4-gpu-d3d12.c:3846-3909 | The round trip through guest memory: an upload after a write-back finds the linear image when no two texels share a guest byte |
| `ImageLoops.WriteBackFrame` | hw/i386/shadps4-gpu-d3d12.c:3846-3909 | A write-back touches no guest byte outside the texels of the image |
| `FramesEvictions.RunsAreSafe` | hw/i386/shadps4-gpu-d3d12.c:503-531 | Over every run, shader-cache and pipeline evictions and fills of per-frame and shared buffers included: nothing is overwritten under an unfinished list or under earlier commands of its own list, nothing is freed that an unfinished or later list uses, and no queued writeback loses its resource, if and only if each fill came when the open recording did not refer to the buffer and, for a shared one, no unfinished list did, and each eviction when no unfinished list, not the open recording, and no queued writeback referred to its entries; a recording that is aborted may refer to them |
| `FramesEvictions.EvictionCanFreeWhatIsInUse` | hw/i386/shadps4-gpu-d3d12.c:731-756 | The condition can fail: evicting an entry while its list is still running frees that list's upload buffer, and filling a shared buffer overwrites it |
| `FramesEvictions.RefillOverwritesItsOwnList` | hw/i386/shadps4-gpu-d3d12.c:2823-2836 | The condition can fail inside one submission: when two of its commands fill the same buffer, the first reads what the second overwrote |
| `FramesSafety.OwnedTouchesAreSafe` | hw/i386/shadps4-gpu-d3d12.c:3943-4420 | Against lists executed before, what a frame owns needs no condition: over every run each command allocator, descriptor page, per-frame upload buffer and transient is reused, and each transient freed, only after the GPU finished every such list that refers to it; and inside one recording only upload buffers and shared buffers can be overwritten after they were referred to |
| `FramesSafety.OwnersAreUnique` | hw/i386/shadps4-gpu-d3d12.c:4039-4042 | The page ranges of different frames are disjoint and below the heap limit of 1953 pages |
| `FramesSafety.WaitKeeps` | hw/i386/shadps4-gpu-d3d12.c:3943-3984 | A wait keeps the invariant, and after one that succeeds the frame is idle and holds nothing |
| `FramesSafety.FinishKeeps` | hw/i386/shadps4-gpu-d3d12.c:4388-4420 | After a successful finish every list is finished and no frame holds transients or writebacks |
| `FramesCalls.SubmitExecutes` | hw/i386/shadps4-gpu-d3d12.c:4020-4328 | A submission hands over exactly one list, in its frame, tagged before its signal, that refers to exactly what its actions refer to, and has overwritten exactly what they overwrite; it succeeds exactly when the device is ready, the wait for its frame succeeds and it is not aborted |
| `FramesCalls.ReadExecutesOneList` | hw/i386/shadps4-gpu-d3d12.c:4684-4733 | A readback executes exactly one list between its two finishes, and the GPU has finished it when the call returns |
| `FramesCalls.PublishExecutes` | hw/i386/shadps4-gpu-d3d12.c:4564-4608 | A publication executes one list when the surface needs a transition and none otherwise |
| `FramesCalls.FinishesSuffice` | hw/i386/shadps4-gpu-d3d12.c:4684-4733 | Publication and readback succeed exactly when their finishes do |
| `FramesCalls.WaitSucceedsExactly` | hw/i386/shadps4-gpu-d3d12.c:3943-3984 | A wait fails exactly when its value was not reached in time or a readback could not be written to the guest |
| `FramesCalls.RecordRefers` | hw/i386/shadps4-gpu-d3d12.c:4050-4302 | A recording refers to exactly the resources its actions name that still exist when they are recorded |
| `FramesQueues.RecordQueues` | hw/i386/shadps4-gpu-d3d12.c:2592-2612 | A recording queues one writeback for each bound resource that asks for one, in the order and with the range of the first request, up to 256 |
| `FramesQueues.SubmitQueues` | hw/i386/shadps4-gpu-d3d12.c:4020-4328 | A submission that succeeds leaves exactly those writebacks waiting in its frame, and its list copies exactly them |
| `FramesQueues.WaitCompletes` | hw/i386/shadps4-gpu-d3d12.c:3943-3984 | A wait completes every writeback of a signalled frame in order, drops those of a frame that was not signalled, and touches none when it times out |
| `FramesSafety.EverythingIsRetiredOnce` | hw/i386/shadps4-gpu-d3d12.c:3911-3984 | Over every run no transient is released twice and no writeback is completed twice or both completed and dropped; after a successful finish each has been retired exactly once |
| `FramesWritebacks.RunsCompleteGenuinely` | hw/i386/shadps4-gpu-d3d12.c:3911-3984 | When an aborted recording is followed by another submission, every completed writeback was copied by a list the GPU had finished |
| `FramesEvictions.EveryWritebackCompletesOnce` | hw/i386/shadps4-gpu-d3d12.c:3911-4420 | Without aborted recordings, after a successful finish every queued writeback completed exactly once, after its fence, and when every eviction was clear, from a resource that still existed |
| `FramesWritebacks.FinishAfterAbort` | hw/i386/shadps4-gpu-d3d12.c:4379-4420 | A finish directly after an aborted recording completes only copied writebacks exactly when that recording had queued none |
| `FramesReadbacks.AbortedWritebackIsCompleted` | hw/i386/shadps4-gpu-d3d12.c:4379-4420 | After an aborted recording that queued a writeback, a finish completes it although no list copied it |
| `FramesReadbacks.ReadbacksAreAlone` | hw/i386/shadps4-gpu-d3d12.c:3911-3941 | Over every run in which before no call a bound resource waits in the queues of two frames, a readback buffer is read only when no unfinished list copies to it |
| `FramesReadbacks.ReadbackCanRace` | hw/i386/shadps4-gpu-d3d12.c:3911-3941 | When two submissions in flight write the same resource, a finish can read its buffer for the first while the second still copies to it |
| `FramesDevice.FrameDevice.Wait` | hw/i386/shadps4-gpu-d3d12.c:3943-3984 | The wait on the frame array and counters is the step of the protocol |
| `FramesDevice.FrameDevice.CompleteWritebacks` | hw/i386/shadps4-gpu-d3d12.c:3911-3941 | The loop completes every queued writeback once, in order, and empties the queue |
| `FramesDevice.FrameDevice.QueueWriteback` | hw/i386/shadps4-gpu-d3d12.c:2592-2609 | A bound resource is queued once per frame; a 257th entry is refused |
| `FramesDevice.FrameDevice.Act` | hw/i386/shadps4-gpu-d3d12.c:2730-2836 | Each resource action of the packet loop, evictions included, leaves the state and the uses of the recording |
| `FramesDevice.FrameDevice.Submit` | hw/i386/shadps4-gpu-d3d12.c:4020-4328 | A submission rotates, waits, resets, deals out pages, records, executes and signals, in that order |
| `FramesDevice.FrameDevice.FinishAll` | hw/i386/shadps4-gpu-d3d12.c:4388-4420 | The finish signals and waits for all frames |
| `FramesDevice.FrameDevice.PublishSurface` | hw/i386/shadps4-gpu-d3d12.c:4564-4608 | Publishing finishes, may execute a transition, and signals again |
| `FramesDevice.FrameDevice.ReadBack` | hw/i386/shadps4-gpu-d3d12.c:4684-4733 | Reading back finishes, executes a copy and finishes again |
| `Loader.AddSignedValid` | hw/i386/shadps4-loader.c:133-147 | Succeeds exactly when base + addend fits 64 bits, and gives that sum |
| `Loader.LoadingIsConfined` | hw/i386/shadps4-loader.c:982-1053 | However loading ends, the accepted segments are disjoint, at most 16, below the limit and moved by one distance, and changed bytes lie in accepted segments or in the one header that passed the checks when loading stopped; it succeeds exactly when no header stops it, and then every loadable header has a segment that holds its file bytes and zeros |
| `LoaderHeaders.HeadersAreLoaded` | hw/i386/shadps4-loader.c:982-1053 | Loading succeeds exactly when every loadable header is accepted, by its fields, the headers before it and mapped memory; then each holds its bytes of the file, from its own file offset, and zeros |
| `LoaderHeaders.ChecksExactly` | hw/i386/shadps4-loader.c:976-1020 | A header passes exactly when its range, flags, sizes, file range and address fit and it meets no earlier one |
| `Loader.CopyWhole` | hw/i386/shadps4-loader.c:342-367 | The chunked copy is the whole file range when it succeeds and stays inside the destination when it does not |
| `Relocation.TargetIsTranslated` | hw/i386/shadps4-loader.c:558-583 | A relocation target is the offset above the physical base, accepted exactly when all eight bytes lie in one segment |
| `Relocation.EvaluatedValue` | hw/i386/shadps4-loader.c:616-669 | A relocation evaluates to B + A, the TLS module, S + A or S by its type; a value that does not fit 64 bits is rejected; only undefined symbols are deferred |
| `Relocation.RelocationFrame` | hw/i386/shadps4-loader.c:585-695 | Only words of relocation targets change |
| `Relocation.RelocatedBytesAreInSegments` | hw/i386/shadps4-loader.c:558-583 | Every relocated byte lies in a segment, below the limit |
| `Relocation.AppliedValues` | hw/i386/shadps4-loader.c:607-693 | After a table with distinct targets was applied, each entry that has a value here holds it |
| `Relocation.CountersBalance` | hw/i386/shadps4-loader.c:599-692 | Over a whole table relocations = applied + unresolved, and unresolved counts the open entries, exactly when every entry of the table has, before the call, a target in a segment, a value that fits 64 bits or a symbol left to the linker, and a mapped word for its value; the pending array never holds more than one entry per table entry |
| `Relocation.FailedEntryUnbalances` | hw/i386/shadps4-loader.c:599-692 | An entry whose target is in no segment is counted as a relocation but neither applied nor deferred |
| `Relocation.TablesBalance` | hw/i386/shadps4-loader.c:739-783 | The same for both tables together, with the one allocation of the pending array |
| `Linker.SearchOrderIsAPermutation` | hw/i386/shadps4-loader.c:1264-1271 | Both search orders visit every image exactly once |
| `Linker.SearchFindsFirst` | hw/i386/shadps4-loader.c:1264-1284 | The search finds the first usable export in search order, and fails only when there is none |
| `Linker.SearchBinds` | hw/i386/shadps4-loader.c:1264-1306 | A symbol binds to the first usable export of the least image that has one, or of the last image when the consumer and the symbol are in the heap family and it has one; it stays unbound exactly when no image has one |
| `Linker.WantedValue` | hw/i386/shadps4-loader.c:1260-1329 | An open relocation is bound to S + A for R_X86_64_64 and to S otherwise, with S the address of that export, or 0 for a weak import without one; exactly the strong imports without one stay unbound, and exactly those whose value does not fit or whose symbol is missing stop the link |
| `Linker.LinkBindsEverySlot` | hw/i386/shadps4-loader.c:1237-1345 | With distinct targets, after a successful link each open relocation holds S, or S + A for R_X86_64_64, of the first usable provider, with S = 0 for an unmatched weak import, and is applied; a strong import without provider stays open |
| `Linker.LinkSucceedsExactly` | hw/i386/shadps4-loader.c:1237-1345 | Linking succeeds exactly when every open relocation names a symbol, its value fits 64 bits and its word is mapped |
| `Linker.LinkTouchesOnlyOpenSlots` | hw/i386/shadps4-loader.c:1330-1337 | Linking changes no byte outside the words of open relocations |
| `Linker.RelinkingWritesNothing` | hw/i386/shadps4-loader.c:1254-1256 | Linking the same images again changes neither memory nor images |
| `Linker.LinkKeepsBalance` | hw/i386/shadps4-loader.c:1339-1341 | relocations = applied + unresolved, and unresolved counts the open relocations, however far linking gets |
| `ModuleLoader.ImageInfo.PlaceAll` | hw/i386/shadps4-loader.c:895-1053 | The segment loop over the fixed table of 16 entries |
| `ModuleLoader.ImageInfo.ApplyRelocations` | hw/i386/shadps4-loader.c:585-695 | The relocation loop; its pending array, allocated with one entry per table entry, never overflows |
| `ModuleLoader.ImageInfo.CopyIn` | hw/i386/shadps4-loader.c:342-367 | The chunk loop |
| `ModuleLoader.ImageInfo.FindSegment` | hw/i386/shadps4-loader.c:558-583 | The segment search loop |
| `ModuleLoader.LinkSet.Search` | hw/i386/shadps4-loader.c:1264-1306 | The provider and symbol loops |
| `ModuleLoader.LinkSet.LinkModules` | hw/i386/shadps4-loader.c:1237-1345 | The link loops over images and pending relocations |
| `TbTree.ComparatorIsConsistent` | tcg/region.c:133-172 | On disjoint blocks the comparator is the order of their code, is antisymmetric, and places a lookup key consistently |
| `TbTree.KeyMustComeFirst` | tcg/region.c:163-171 | With the key as second argument the comparator does not change sign, so it differs from an order exactly when the block does not cover the key |
| `TbTree.LookupFindsCover` | tcg/region.c:243-262 | In any tree ordered by the comparator, a lookup returns the block that covers the address, or nothing |
| `TbTree.InsertAdds` | tcg/region.c:223-231 | Inserting a disjoint block keeps the order and adds exactly that block |
| `TbTree.InsertReplaces` | tcg/region.c:223-231 | Inserting at the place of a block takes the new block and drops the old one |
| `TbTree.RemoveRemoves` | tcg/region.c:233-241 | Removing a block keeps the order and removes exactly that block |
| `TcgRegion.EnoughRegions` | tcg/region.c:425-454 | There are at least as many regions as threads, as long as eight per thread can be counted in 32 bits or the buffer is below 2^50 bytes |
| `TcgSizes.RegionCount` | tcg/region.c:425-454 | One thread has one region; with more, regions are no smaller than 2 MiB unless there is one for each thread, and as many as that allows up to eight for each |
| `TcgSizes.LayoutExactly` | tcg/region.c:829-848 | A region is the largest number of pages that fits, the last of them a guard page; there is a layout exactly when a page for code is left |
| `TcgRegion.InitIsWellLaid` | tcg/region.c:829-848 | Initialization lays out regions of at least a code page and a guard page that fit the buffer |
| `TcgRegion.RegionsApart` | tcg/region.c:329-346 | Two regions are separated by at least a guard page |
| `TcgRegion.BoundsInBuffer` | tcg/region.c:329-346 | Every region lies in the code buffer |
| `TcgRegion.TreeInvertsBounds` | tcg/region.c:194-220 | The tree chosen for an address in a region, in the writable buffer or its executable alias, is the tree of that region |
| `TcgRegion.TreeOfAddress` | tcg/region.c:194-220 | Any address in the buffer, guard pages included, belongs to the last region that starts no later; an address in neither alias has no tree |
| `TcgRegion.LookupIsFlat` | tcg/region.c:243-262 | The per-region trees answer like one flat set: a lookup returns the live block that covers the address, or nothing |
| `TcgRegion.InsertKeepsAgreement` | tcg/region.c:223-231 | Insertion keeps the trees in agreement with the live blocks |
| `TcgRegion.RemoveKeepsAgreement` | tcg/region.c:233-241 | Removal keeps the trees in agreement with the live blocks |
| `TcgRegion.RunsLookUpLiveBlocks` | tcg/region.c:223-262 | After every sequence of insertions, removals and resets a lookup gives the live block that covers the address, or nothing |
| `TcgRegion.LiveBlocksWereAdded` | tcg/region.c:223-282 | The live blocks of a run are the blocks added and neither removed nor reset since |
| `TcgAllocation.RunsKeepRegions` | tcg/region.c:359-423 | Over every run the regions handed out since the last reset are 0, 1, 2, ... in order, each once; no region is held by two contexts, the full counter equals the room nobody holds any more, and a reset fails only with more contexts than regions |
| `TcgAllocation.ContextsNeverShare` | tcg/region.c:348-357 | The buffers of two contexts are separated by a guard page and lie in the code buffer |
| `TcgAllocation.RefillExactly` | tcg/region.c:356-388 | A refill is refused exactly when every region has been given out; otherwise its context gets the next region whole and the room of the old one counts as full |
| `TcgAllocation.RegisterExactly` | tcg/region.c:391-410 | A new context is refused exactly then, and otherwise gets the next region whole |
| `TcgAllocation.ResetSpec` | tcg/region.c:406-423 | A reset succeeds exactly when there are at least as many regions as contexts, and gives every context its own region |
| `TcgAllocation.ResetNeverTrips` | tcg/region.c:406-454 | With the number of regions chosen at initialization, a reset with at most that many threads never trips its assertion |
| `TcgAllocation.CodeFitsCapacity` | tcg/region.c:927-963 | If every context stays below its high-water mark and every region has room for the reserve, the code size is at most the capacity less the prologue |
| `TcgState.RegionState.AllocRegion` | tcg/region.c:373-387 | A refill adds the room of the region left behind and assigns the next one |
| `TcgState.RegionState.ResetRegions` | tcg/region.c:406-423 | The reset loop over contexts and trees |
| `TcgState.RegionState.CountCode` | tcg/region.c:927-948 | The counting loop over contexts |
| `TcgState.RegionState.LookupTb` | tcg/region.c:243-262 | The walk down the tree of an address finds the live block that covers it |
| `CalloutList.StartAddsItsEntry` | hw/i386/shadps4-services2.inc.c:369-422 | START adds exactly its entry, before the first record due no earlier; a listed record or a list of 257 is refused without a change; an entry that cannot be written leaves the list as it was |
| `CalloutList.DueTimeParts` | hw/i386/shadps4-services2.inc.c:381-391 | The deadline is the virtual clock in microseconds plus the delay, of which the first form of START takes 32 bits, wrapped to 64 bits and read as a signed number |
| `CalloutList.StopUnlinksItsEntry` | hw/i386/shadps4-services2.inc.c:423-441 | STOP unlinks exactly its entry when it is among the first 256 records, and reports whether it did |
| `CalloutList.RunsKeepTheList` | hw/i386/shadps4-services2.inc.c:366-441 | Over any sequence of START, START64 and STOP on disjoint records, the context heads an acyclic, duplicate-free list of at most 257 records sorted by signed deadline |
| `CalloutList.NoDuplicates` | hw/i386/shadps4-services2.inc.c:370-380 | The records of the list are distinct and not null |
| `CalloutList.InitMakesAnEmptyList` | hw/i386/shadps4-services2.inc.c:346-354 | INIT makes an inactive context the head of an empty list |
| `CalloutList.TermDeactivates` | hw/i386/shadps4-services2.inc.c:355-364 | After TERM every call but INIT is refused |
| `CalloutFaults.RefusedCalls` | hw/i386/shadps4-services2.inc.c:343-368 | Calls on an unreadable or inactive context or without an entry change nothing, each with its code |
| `CalloutFaults.StartChecks` | hw/i386/shadps4-services2.inc.c:369-383 | On any memory START is busy exactly when within 256 readable links it meets its own record, or neither that nor the end, and invalid when it meets a record it cannot follow |
| `CalloutFaults.StartInserts` | hw/i386/shadps4-services2.inc.c:384-422 | On any memory the record goes before the first one due no earlier, or to the end, and then the link to it is written; what cannot be read or written makes the call invalid |
| `CalloutFaults.StopUnlinks` | hw/i386/shadps4-services2.inc.c:423-441 | On any memory STOP links past the first hit among 256 readable records, reports, and changes nothing else |
| `CalloutFaults.ReportWrites` | hw/i386/shadps4-services2.inc.c:430-441 | The report of STOP is one word, or nothing for the null address, and a failure where it cannot be written |
| `CalloutService.TimerService.StartEntry` | hw/i386/shadps4-services2.inc.c:369-422 | The two bounded walks and the writes of START |
| `CalloutService.TimerService.StopEntry` | hw/i386/shadps4-services2.inc.c:423-441 | The bounded walk and the writes of STOP |
| `CalloutService.TimerService.NpCallout` | hw/i386/shadps4-services2.inc.c:323-441 | The whole call, with its checks |
| `HostLifecycle.OperationsBeginOnce` | system/host.c:1552-1866 | Under every interleaving of API threads and the loop thread, each of init, start and cleanup begins at most once, one join returns at most, and steps, joins and starts exclude each other |
| `HostLifecycle.EveryInterleavingIsSafe` | system/host.c:1552-1866 | Under every interleaving in which no join waited on a handle without a thread: a step and the loop thread never coexist, running implies that the thread was started, cleaned implies that nothing runs, steps or joins, and a join returned the status of the main loop |
| `HostLifecycle.JoinMeetsTheThread` | system/host.c:1637-1797 | In every interleaving, a join that is let through meets a created thread exactly when no start is between its section and the creation; so when it comes to wait |
| `HostLifecycle.WaitIsSafeExactly` | system/host.c:1637-1797 | Coming to wait keeps every continuation safe if and only if no start is about to create the thread; otherwise the join ends early and a step can begin beside the loop thread |
| `HostLifecycle.CleanedForever` | system/host.c:1851-1866 | Once cleaned, always cleaned |
| `HostLifecycle.JoinMayPrecedeCreation` | system/host.c:1637-1644 | A join can come to wait before the loop thread was created |
| `HostLifecycle.HostState.EnterStart` | system/host.c:1626-1639 | A start goes on exactly once in the life of the machine, while it is initialized and not cleaned, nothing steps and no step saw the exit; the other verdicts tell which of these failed, and change nothing |
| `HostLifecycle.HostState.EnterStep` | system/host.c:1648-1672 | A step goes on exactly when no other step runs, the main loop has not exited and no started thread waits to be joined; it is then alone, beside no loop thread and no thread being created |
| `HostLifecycle.HostState.EnterJoin` | system/host.c:1783-1796 | A join goes on exactly when nobody joins and a started thread was not joined yet; the thread exists unless a start is about to create it |
| `HostLifecycle.HostState.LeaveJoin` | system/host.c:1799-1806 | A join returns the status of the main loop and leaves no thread to join |
| `HostLifecycle.HostState.EnterCleanup` | system/host.c:1851-1863 | A cleanup goes on exactly once, when nothing runs, is being created, steps, joins or waits to be joined |
| `MountPaths.ValidPathsAreComponents` | system/host.c:84-108 | A path is accepted exactly when it is spelled by components, none of them empty, "." or "..", or holding a slash or backslash |
| `MountPaths.FindsLongest` | system/host.c:143-177 | The lookup returns the unique longest mount that matches on a component boundary, and fails only when none matches |
| `MountPaths.OrderDoesNotMatter` | system/host.c:143-177 | The order of the mounts does not matter |
| `MountPaths.PathIsRebuilt` | system/host.c:170-176 | A path is its mount path, alone or followed by a slash and the relative path; a file matches only itself |
| `HostStorage.RunsBalance` | system/host.c:361-487 | Over every sequence of calls mount paths stay valid and distinct, and for each object and callback table the retains less the releases are the live mounts that hold it |
| `HostCalls.MountExactly` | system/host.c:394-440 | A mount succeeds exactly with good arguments, before initialization, with callbacks and at a free path, and reports the first of these that is missing; unmounting it restores the mounts and the balance of every object |
| `HostCalls.UnmountExactly` | system/host.c:458-487 | An unmount succeeds exactly for the path of a mount, before initialization, and takes away that mount only |
| `HostCalls.RegisterExactly` | system/host.c:361-392 | Callbacks can be registered exactly while nothing is mounted, before initialization |
| `HostCalls.MountsAreThoseMade` | system/host.c:394-487 | After any run of calls exactly those mounts exist that were made and neither unmounted nor cleaned up since |
| `HostStorage.CleanupReleasesEverything` | system/host.c:1809-1849 | After the cleanup every object was released as often as it was retained, through the same table |
| `HostBroker.Broker.CheckPath` | system/host.c:84-108 | The component loop decides validity |
| `HostBroker.Broker.LookUp` | system/host.c:143-177 | The mount loop finds the longest mount and the relative path |
| `HostBroker.Broker.MountStorage` | system/host.c:394-440 | Mounting with all its refusals |
| `HostBroker.Broker.UnmountStorage` | system/host.c:458-487 | Unmounting with all its refusals |
| `HostBroker.Broker.PublishHandle` | system/host.c:186-209 | The loop ends while fewer than 2^62 - 1 handles are live, with the first public handle, counting on and wrapping, that was not live |
| `HostBroker.HandlesResolveUntilClosed` | system/host.c:186-209 | Whatever calls were made on a broker, a public handle resolves to the backend handle it was published for, and is not published again, until it is closed or the broker is cleaned up |
| `HostBroker.LiveHandlesWerePublished` | system/host.c:186-209 | Every live handle was published by a call that no close of it and no cleanup followed |
| `HostBroker.Broker.CloseHandle` | system/host.c:944-961 | A handle reaches the backend handle it was issued for, and is forgotten only when the backend closed it |
| `HostBroker.Broker.CleanUp` | system/host.c:1809-1849 | Every live handle is closed exactly once, every mount released, and the callbacks forgotten |
| `SaveBackup.CopyStaysBelow` | hw/i386/shadps4-services2.inc.c:122-215 | Whatever fails, at every step of a copy only the tree at its target differs from what was there |
| `SaveBackup.CopyMerges` | hw/i386/shadps4-services2.inc.c:122-215 | A copy that succeeds has made or emptied and written every file and made every folder of the source below the target, and left everything else that was there |
| `SaveBackup.CopyMirrors` | hw/i386/shadps4-services2.inc.c:122-215 | A copy that succeeds leaves exactly the source's tree at its target if and only if the source covers what was there, so always onto nothing; the tree is at most 17 folders deep and was counted byte by byte within 512 MiB |
| `SaveSuccess.CopySucceedsExactly` | hw/i386/shadps4-services2.inc.c:122-215 | A copy succeeds exactly when none of its operations fails, its source is a folder, every entry has a name that can be copied and a place it fits, and the files stay within the limit |
| `SaveSuccess.NamesExactly` | hw/i386/shadps4-services2.inc.c:191-202 | The names that can be copied are plain ones whose rendered paths on both sides have at most 511 characters |
| `SaveCommit.SuccessCopiesTheSource` | hw/i386/shadps4-services2.inc.c:298-313 | After an operation that succeeds the destination shows exactly the source's tree if and only if the source covers what the first cleanup left at ".tmp", and so whenever that cleanup worked |
| `SaveCommit.LeftoversReachTheDestination` | hw/i386/shadps4-services2.inc.c:298-313 | When that cleanup fails, an operation can succeed and leave at the destination a file that is not in the source |
| `SaveCommit.EveryStepIsProtected` | hw/i386/shadps4-services2.inc.c:298-317 | Onto an existing destination, whatever fails, after every storage operation a complete old or new tree sits at the destination or at its ".old" name |
| `SaveCommit.CommitIsAllOrNothing` | hw/i386/shadps4-services2.inc.c:298-320 | Success leaves exactly the copy; failure leaves the destination as it was exactly unless it was moved aside and could not be moved back, and then it is at ".old" |
| `SaveSuccess.OperationSucceedsExactly` | hw/i386/shadps4-services2.inc.c:298-320 | When no operation fails, a backup succeeds exactly for a source folder whose tree can be copied, next to an existing folder, whatever is at the destination and beside it |
| `SaveSuccess.NothingIsLeft` | hw/i386/shadps4-services2.inc.c:298-320 | When nothing fails the temporary tree is gone afterwards, and after a success the old one too |
| `SaveCommit.ProtectedExactly` | hw/i386/shadps4-services2.inc.c:298-317 | With a complete tree at the destination, or only at ".old": every step is protected if and only if it is at the destination, or the copy fails, or the cleanup of ".old" removes nothing |
| `SaveCommit.OldTreeAloneIsUnprotected` | hw/i386/shadps4-services2.inc.c:301-305 | An operation in which nothing fails, started with only an ".old" tree, passes a state without a complete tree |
| `SaveCommit.OtherTreesStay` | hw/i386/shadps4-services2.inc.c:298-320 | However an operation ends, the source and every other tree are at every step what they were |
| `SaveStorage.RenameMoves` | system/host.c:1129-1165 | A rename that succeeds moves exactly the tree and changes nothing else; one that fails changes nothing |
| `SaveStorage.RenameBackRestores` | hw/i386/shadps4-services2.inc.c:308-312 | Renaming back restores the storage |
| `SaveService.SaveDisk.CopyContent` | hw/i386/shadps4-services2.inc.c:139-157 | The chunk loop reads and writes until a read returns nothing, or stops at a failure or at the limit |
| `SaveService.SaveDisk.CopyDirectory` | hw/i386/shadps4-services2.inc.c:163-215 | The directory loop makes the folder and copies what is listed; it terminates by its depth |
| `SaveService.SaveDisk.SaveDirectory` | hw/i386/shadps4-services2.inc.c:298-317 | The sequence of cleanup, copy, status query, renames and cleanups on the storage |
| `UriSweep.SweepIsIdempotent` | hw/i386/shadps4-http.inc.c:239-280 | Sweeping twice is sweeping once, and the result starts with a slash exactly when the input does |
| `UriSweep.SweptComponentsArePlain` | hw/i386/shadps4-http.inc.c:262-279 | The result has no empty, "." or ".." component |
| `UriSweep.SweepIsNoLonger` | hw/i386/shadps4-http.inc.c:239-280 | The result is no longer than the input |
| `UriSweep.PlainPathsAreUnchanged` | hw/i386/shadps4-http.inc.c:258-279 | A path of plain components is kept as it is |
| `UriSweep.ParentCancelsComponent` | hw/i386/shadps4-http.inc.c:263-267 | A component followed by ".." cancels out |
| `UriSweep.ParentCancelsAnywhere` | hw/i386/shadps4-http.inc.c:258-279 | So it does anywhere in a path |
| `UriSweep.DotIsDropped` | hw/i386/shadps4-http.inc.c:258-279 | "." and empty components are dropped anywhere in a path |
| `UriSweep.LeadingParentIsDropped` | hw/i386/shadps4-http.inc.c:258-279 | ".." at the root, or first in a relative path, is dropped |
| `UriSweep.TrailingSlashIsDropped` | hw/i386/shadps4-http.inc.c:268-270 | A trailing slash is dropped, unlike in section 5.2.4 of RFC 3986 |
| `UriSweep.SweepPath` | hw/i386/shadps4-http.inc.c:258-278 | The two loops over the component stack |

## Left out

- Pm4Inlining.InliningPreservesMeaning: compares memory, clock reads and verdict, not the word offset in an error report, which is relative to the buffer the packet was read from.
- GpuFrontend.SubmissionIsAtomic: what the D3D12 back end writes to guest memory while it is handed a stream is a parameter; the flip queue, the display map and status reports are not modelled.
- GpuFrontend.RingsAreConsumedInOrder: the guest may change its memory between doorbells; each block is compared with the memory at the time it was read.
- Tiling.MacroOffsetInjective: element sizes of 1, 2, 4, 8 or 16 bytes, 2 to 16 banks, an aspect that divides the banks and bank dimensions up to 8; other descriptor values are not decoded to.
- ImageCopy.ImageRoundTrip: supposes placed footprints as a device reports them and one array layer for volumes; which byte of two overlapping texels wins is left open.
- FramesEvictions.RunsAreSafe: runs in which D3D12 calls succeed, except that fence waits may time out and guest writes of readbacks may fail; destroying the device after a failed finish is outside. Which entry a full cache evicts is a parameter, and each allocation has a number of its own.
- FramesEvictions.EveryWritebackCompletesOnce: the bytes in a readback buffer are not modelled, only which lists wrote it, when it was read, whether it still existed and whether an unfinished list copied to it.
- Loader.LoadingIsConfined: the SELF container, ELF header checks, TLS, PROCPARAM and unwind headers and the entry point are outside; a header carries the file offset those checks found.
- Relocation.CountersBalance: counters are unbounded; tables are at most 64 MiB, so 32 bits suffice.
- Linker.LinkBindsEverySlot: symbol identities are given, not parsed from encoded names; link tracing is outside.
- TcgRegion.LookupIsFlat: the tree is a plain search tree; rebalancing is outside, but the lookup result holds for every ordered shape.
- TcgAllocation.RunsKeepRegions: thread registration is not part of this model; the context set up at initialization is the first one, and the reserve below a region's end is a parameter.
- HostLifecycle.EveryInterleavingIsSafe: runs in which a join waited on a handle without a thread are outside; there the wait is taken to end at once, and a fault ends the run.
- HostBroker.Broker.PublishHandle: calls on the storage tables are sequential; a close and a publish that overlap are outside.
- HostBroker.Broker.CleanUp: the order in which handles are closed is left open, as in the hash table.
- CalloutList.RunsKeepTheList: records are 32 bytes apart from each other and from the context, and reports of STOP go elsewhere; overlapping records are outside.
- SaveCommit.EveryStepIsProtected: a rename is one step and is refused onto an existing entry; a cleanup is two steps, the first of which may leave any part of the tree; the parent folder of the backup and the status query of the source come before.
- SaveBackup.CopyMirrors: the storage shows each folder entry once and with its kind, and nobody else changes it during the copy; file handles and the 255-byte name buffer are outside.
- UriSweep.SweepPath: reading and writing the guest strings, and the 16 KiB input limit, are outside.
- Guest address translation, D3D12 and COM objects, shader translation, surfaces and their states.
- The CPU scanout map of the display, which is not injective.
- Services 3 and 4, HTTP, media, network, input and log callbacks: flat dispatch and forwarding.
- Runstates, audio queues, image packing and scripts: simpler than the parts above.
