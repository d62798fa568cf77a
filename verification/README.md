# Verification of the virtio-gpu driver: rings, blitter, resources

This is a Dafny model of the parts of the Windows virtio-gpu driver where the
bookkeeping is hard: the driver side of the split virtqueue of Virtio 1.0, the
blitter and the present path, the command buffers and resource ids on top of
the rings, and two pieces of the PCI transport. `dafny verify dfyconfig.toml`
checks all of it.

The virtqueue is modelled three times, each form tied to the next. `Vring` is
the source's own form: arrays, a free list threaded through the descriptors,
16-bit index shadows. Its methods are proved against `QueueSpec`, which keeps
the free list as a sequence, the chains as a map and the history of buffers
behind unbounded counters. `QueueRuns` proves properties of all runs of that
specification, with a device that writes anything at all to the used ring;
`RingProtocol` adds a device that follows the standard, step by step;
`NotifyProtocol` looks at notifications alone, with stores that become visible
late and the barriers of the source, `DriverSteps` ties its driver to
`QueueSpec`, and `EndToEnd` runs it together with the ring. `ChainMeaning` says
what the device reads from a chain.

| file | subject |
|---|---|
| Words.dfy | 16- and 32-bit arithmetic, masks, the event window |
| Options.dfy | a value that may be absent |
| Gather.dfy | counting what is held under the keys of a table |
| QueueSpec.dfy, QueueRuns.dfy | the queue on values, and its runs |
| ChainMeaning.dfy | descriptor chains and indirect tables as the device reads them |
| Vring.dfy | the queue as arrays |
| RingProtocol.dfy | driver and device on one ring |
| NotifyProtocol.dfy, DriverSteps.dfy | kicks and interrupts |
| VringLayout.dfy | the ring in memory |
| Bitops.dfy, Blit.dfy | pixel addresses, formats, copy loops |
| Present.dfy | bounding rectangle, transfer, the device's copy |
| Delivery.dfy, EndToEnd.dfy | ring protocol with the drain loop, and with the notifications |
| GpuBuf.dfy, BufferRuns.dfy | the buffer pool and its conservation |
| CommandRuns.dfy | command builders, and what refused sends cost |
| Idr.dfy, Resources.dfy | ids, framebuffer and cursor |
| ResourceRuns.dfy, IdRuns.dfy | the command protocol, and how long the ids last |
| ScreenRuns.dfy | what screen and cursor show |
| PciCaps.dfy | the capability walk |
| ConfigRead.dfy | the generation-checked configuration read |

Inputs of the model, where the source calls out of what is shown: results of
allocations, physical addresses, what the device writes, contents of
configuration space, sizes of BARs. Flag words are records of booleans, locks
make an operation one step.

## What the proofs turned up

- `vring_new_virtqueue` takes 0 for a power of two (`PowerOfTwoTestExact`), and
  the modern transport can hand it one: when pages are short, it halves the size
  down to 0 before the call (virtio-gpu-win/VirtIO/VirtIOPCIModern.c:288-294).
  The loop of initialize_virtqueue would then run on a bound of 0 - 1. A ring of
  at least one entry is required everywhere else.
- The modern transport creates every queue with event indices on, while the
  driver acknowledges VIRTIO_F_VERSION_1 only, and nothing in the repository
  calls virtio_set_queue_event_suppression. With a device that did not
  negotiate event indices `virtqueue_kick` then misses kicks (`MissedKick`);
  the GPU queues are safe because they use `virtqueue_kick_always`
  (`KicksAreSafeIffAgreed`).
- `CreateFrameBuffer` ignores a failed `GpuObjectAttach`. The scanout is then
  set to a resource without backing, the object keeps id 0, and the next mode
  set detaches, unreferences and frees id 0, which was reserved, and then
  creates a resource under it (`ProtocolExactlyWhenAttached`,
  `FailedAttachHandsOutZero`, `FailedAttachShowsAnother`).
- The id of a resource whose object or backing could not be had is lost, that
  of a frame buffer whose attach failed included, unless it was id 0. Over all
  runs, with failed attaches or without, `IdRuns.NeverExhausted` says from the
  actions exactly when an id is still free. `BitmapRunsOut` is a run after which
  the driver creates a resource as 0xFFFFFFFF.
- Command builders ignore a refused add. Each refusal costs the pool one
  buffer for good (`EachRefusalCostsOne`, `LostForGood`), and with the pool
  empty the next builder writes through a null pointer (`RefusalsEmptyPool`).
  For AskDisplayInfo a refusal is a wait that never ends.
- `SetPointerPosition` and a present dereference the cursor and frame buffer
  objects without a test. `DereferencesNullExactly` says which runs do so
  while there is none.
- A pointer shape whose image cannot be had leaves an object that the cursor
  does not show; moves that follow name it all the same (`ShownIsCurrent`).
- Rotated presents leave stale pixels on the device (`HalfTurnIsNotReached`),
  as the comment in the source suspects; `CoherentExactlyWhenReached` says
  exactly which do not.
- The outer loop of the capability walk has no bound. `WalkEndsExactly` says
  when it ends, `LoopConfigNeverEnds` gives a configuration on which it does
  not.
- Several ASSERTs of the pool and of the id allocator state the opposite of
  what holds there, or name undeclared variables; they are not preconditions
  here.

## Model

| member | source | states |
|---|---|---|
| `QueueRuns.EveryRunPartitions` | virtio-gpu-win/VirtIO/VirtIORing.c:181-285 | In every run of adds (direct and indirect), gets, kicks and callback changes, whatever the device writes to the used ring, the descriptors split into a free list of distinct nodes and pairwise disjoint chains, each headed by its pending head, and the lengths add up to num |
| `QueueRuns.EveryRunReturnsOnce` | virtio-gpu-win/VirtIO/VirtIORing.c:513-567 | In every run, whatever the device writes, each accepted token is returned at most once and under the head it was queued for, none is lost, and the 16-bit difference of the two indices is the number of buffers that are out |
| `QueueRuns.EveryKickIsExact` | virtio-gpu-win/VirtIO/VirtIORing.c:272-329 | After every run, the event-index test of the kick answers yes exactly when the index that the device asked for lies among the entries added since the last kick: the forced kick keeps the 16-bit window open |
| `QueueRuns.DrainReturnsAll` | virtio-gpu-win/VirtIO/VirtIORing.c:684-708 | From any reachable state the shutdown drain ends, hands out every pending token once in the order of heads, and leaves all descriptors free, so the check on num_free passes |
| `QueueRuns.StepKeepsPending` | virtio-gpu-win/VirtIO/VirtIORing.c:181-285 | A buffer that is out stays exactly as it was added, through any operation, until get_buf returns its head, and only then leaves |
| `QueueRuns.InvExactlyOnce` | virtio-gpu-win/VirtIO/VirtIORing.c:513-567 | Every buffer ever added is in exactly one of returned, withdrawn and pending, and there once |
| `QueueRuns.PendingAtMostNum` | virtio-gpu-win/VirtIO/VirtIORing.c:181-285 | Buffers that are out plus free descriptors never exceed the ring size |
| `QueueRuns.EveryRefusalByCount` | virtio-gpu-win/VirtIO/VirtIORing.c:206-234 | After every run, an add of n buffers is refused exactly when n, or 1 for a list that goes into a table, and the descriptors of all buffers that are out exceed num; any other add leaves one more buffer out, on the first free descriptors, with the caller's list in order and writable from out on |
| `QueueRuns.WithdrawTakesFirst` | virtio-gpu-win/VirtIO/VirtIORing.c:684-703 | One detach call takes the pending buffer with the least head off the front of what is left to drain |
| `QueueSpec.AddInv` | virtio-gpu-win/VirtIO/VirtIORing.c:181-285 | Adding a buffer, or failing to for lack of room, keeps descriptors and buffers conserved and the forced-kick bound |
| `QueueSpec.GetInv` | virtio-gpu-win/VirtIO/VirtIORing.c:513-567 | Getting a buffer, for any used-ring contents, keeps descriptors and buffers conserved |
| `QueueSpec.WithdrawInv` | virtio-gpu-win/VirtIO/VirtIORing.c:684-703 | Detaching a buffer at shutdown keeps descriptors and buffers conserved |
| `QueueSpec.InvPartitions` | virtio-gpu-win/VirtIO/VirtIORing.c:379-402 | Conservation of descriptors means: free list without duplicates, chains without duplicates, disjoint from each other and from the free list, covering the table |
| `QueueSpec.FreePlusChains` | virtio-gpu-win/VirtIO/VirtIORing.c:379-402 | num_free plus the total length of the pending chains equals num |
| `QueueSpec.FreeHeadIsFree` | virtio-gpu-win/VirtIO/VirtIORing.c:236-258 | The head that add_buf takes is never the head of a pending chain |
| `ChainMeaning.WrittenMeansBufs` | virtio-gpu-win/VirtIO/VirtIORing.c:236-258 | Walking the descriptor table from a published head yields exactly the buffers of the scatter list, readable ones first, and the walk fits the table |
| `ChainMeaning.IndirectMeansDirect` | virtio-gpu-win/VirtIO/VirtIORing.c:122-165 | The indirect table denotes the same buffers as the direct chain of the same list |
| `ChainMeaning.TableEntriesWritten` | virtio-gpu-win/VirtIO/VirtIORing.c:133-155 | The entries stored in the indirect page chain the whole list and end it |
| `ChainMeaning.WrittenFrame` | virtio-gpu-win/VirtIO/VirtIORing.c:236-258 | A chain keeps its meaning under any change of the table outside its descriptors |
| `Vring.PendingMeansBufs` | virtio-gpu-win/VirtIO/VirtIORing.c:181-285 | In every valid state of the arrays, what the device reads from a pending head is the list handed to add_buf |
| `Vring.Virtqueue.Execute` | virtio-gpu-win/VirtIO/VirtIORing.c:181-609 | A whole run on the arrays, the threaded free list and the 16-bit shadows has the effect of the specification, and returns the tokens in its order |
| `Vring.Virtqueue.New` | virtio-gpu-win/VirtIO/VirtIORing.c:650-675 | For every size of 16 bits but 0, a queue is created exactly when it is a power of two, and starts empty: num_free is num, descriptor k leads to k + 1, no tokens, all indices 0, callbacks on |
| `Vring.Virtqueue.constructor` | virtio-gpu-win/VirtIO/VirtIORing.c:612-648 | Initialisation threads all descriptors on the free list |
| `Vring.Virtqueue.AddBuf` | virtio-gpu-win/VirtIO/VirtIORing.c:181-285 | Returns 0 exactly when num_free is at least the number of entries, or a table is given for more than one and num_free is not 0, and else -1. Refused, it changes nothing and notifies once if there was something to send. Accepted, each field is stated: one descriptor or one for each entry is taken, the descriptors or the table hold address, length, NEXT and WRITE of each entry, the old free_head stands at avail_idx mod num with the token under it, the index grows by one in 16 bits, and at 65535 adds it is reset and kicks if the device asked |
| `Vring.Virtqueue.AddHead` | virtio-gpu-win/VirtIO/VirtIORing.c:260-285 | Token, avail slot, index and num_added from their old values, and the forced kick exactly at 65535 adds |
| `Vring.Virtqueue.AddIndirect` | virtio-gpu-win/VirtIO/VirtIORing.c:122-165 | One descriptor of the free list points to a table with the whole list |
| `Vring.Virtqueue.WriteChain` | virtio-gpu-win/VirtIO/VirtIORing.c:236-258 | The first descriptors of the free list carry the entries, linked, the last without NEXT, and free_head is what followed |
| `Vring.Virtqueue.Publish` | virtio-gpu-win/VirtIO/VirtIORing.c:262-274 | Token, avail slot, index and num_added, each as its old value tells, once the entry is exposed |
| `Vring.Virtqueue.KickPrepare` | virtio-gpu-win/VirtIO/VirtIORing.c:298-329 | With event indices, yes exactly when the index asked for is among the last num_added entries, counted in 16 bits; without, unless the device set its flag; num_added is 0 afterwards |
| `Vring.Virtqueue.Kick` | virtio-gpu-win/VirtIO/VirtIORing.c:355-359 | Notifies exactly when the kick is needed |
| `Vring.Virtqueue.KickAlways` | virtio-gpu-win/VirtIO/VirtIORing.c:365-377 | Notifies once and resets num_added |
| `Vring.Virtqueue.DetachBuf` | virtio-gpu-win/VirtIO/VirtIORing.c:379-402 | The chain of a head goes, in its order, to the front of the free list and its token is cleared |
| `Vring.Virtqueue.GetBuf` | virtio-gpu-win/VirtIO/VirtIORing.c:513-567 | NULL with nothing changed if used->idx is last_used_idx, or the id in its slot is out of range or has no token; else that token, which is cleared, its chain heads the free list, the index grows by one, and it is published when callbacks are on |
| `Vring.Virtqueue.EnableCallbacks` | virtio-gpu-win/VirtIO/VirtIORing.c:420-444 | Clears the flag, publishes last_used_idx, and returns true exactly when nothing is waiting |
| `Vring.Virtqueue.EnableCallbacksDelayed` | virtio-gpu-win/VirtIO/VirtIORing.c:582-609 | Publishes last_used_idx plus three quarters of the buffers that are out, and returns false exactly when more than that are back already |
| `Vring.ThreeQuarters` | virtio-gpu-win/VirtIO/VirtIORing.c:594-600 | In every reachable state the 16-bit computation yields exactly three quarters of the buffers that are out, rounded down |
| `Vring.Virtqueue.DisableCallbacks` | virtio-gpu-win/VirtIO/VirtIORing.c:455-463 | Sets the no-interrupt flag and nothing else |
| `Vring.Virtqueue.DetachUnusedBuf` | virtio-gpu-win/VirtIO/VirtIORing.c:684-708 | Returns the token of least head, clears it, puts its chain first on the free list and takes one off the avail index; NULL exactly when no token is left, and then num_free == num |
| `Vring.Virtqueue.DrainAll` | virtio-gpu-win/VirtIO/VirtIORing.c:684-708 | The loop over detach returns exactly the pending tokens and ends with num_free == num |
| `Vring.Virtqueue.Shutdown` | virtio-gpu-win/VirtIO/VirtIORing.c:482-495 | The queue is as newly created, whatever was pending |
| `Words.NeedEventExact` | virtio-gpu-win/VirtIO/virtio_ring.h:164-177 | On 16-bit residues of counters less than 2^16 apart, vring_need_event holds exactly when the event index was passed by the update |
| `Words.FullWindowIsMissed` | virtio-gpu-win/VirtIO/virtio_ring.h:164-177 | An update by exactly 2^16 entries is missed for every event index, which is why a kick is forced |
| `Words.SlotOfCounter` | virtio-gpu-win/VirtIO/VirtIORing.c:264-271 | Masking a 16-bit index gives the unbounded counter modulo the ring size, across every wrap |
| `Words.PowerOfTwoTestExact` | virtio-gpu-win/VirtIO/VirtIORing.c:661-665 | The size test lets through exactly the powers of two and 0 |
| `RingProtocol.EveryInterleavingIsSafe` | virtio-gpu-win/VirtIO/VirtIORing.c:262-274 | With a standard-following device that completes out of order, in every interleaving neither side writes a slot the other has not read, and each side reads exactly what the other meant |
| `RingProtocol.AddOverwritesNothing` | virtio-gpu-win/VirtIO/VirtIORing.c:264-267 | add_buf writes into an avail slot whose head the device has taken |
| `RingProtocol.CompleteOverwritesNothing` | virtio-gpu-win/VirtIO/VirtIORing.c:536-552 | The device writes into a used slot that the driver has read |
| `RingProtocol.FetchTakesNext` | virtio-gpu-win/VirtIO/VirtIORing.c:262-274 | The head the device takes is the next one added, is out, and is not with the device yet |
| `RingProtocol.GetAcceptsNext` | virtio-gpu-win/VirtIO/VirtIORing.c:527-552 | get_buf sees something new exactly when something is, and accepts it |
| `RingProtocol.ActionKeeps` | virtio-gpu-win/VirtIO/VirtIORing.c:181-285 | Every step of either side keeps the heads conserved between avail ring, device and used ring |
| `RingProtocol.QuietMeansAllReturned` | virtio-gpu-win/VirtIO/VirtIORing.c:513-567 | When the device holds nothing and the driver has read all completions, nothing is pending and every token came back once |
| `Delivery.EveryBufferComesBack` | virtio-gpu-win/viogpu/viogpudo/viogpudo.cpp:3340-3389 | In every interleaving, once the device has completed and published everything, one drain empties the ring and returns each outstanding buffer exactly once |
| `EndToEnd.RestsOnlyWhenDelivered` | virtio-gpu-win/VirtIO/VirtIORing.c:181-567 | Ring and notifications together, in every interleaving of every configuration whose kicks agree: if the driver waits uninterrupted with all it added kicked, and the device sleeps without a kick having come and has answered for all it took, then no buffer is out, and each was returned under its own token, once |
| `EndToEnd.StepKeeps` | virtio-gpu-win/VirtIO/VirtIORing.c:181-567 | Every joint step keeps the counters of both halves equal and both invariants |
| `NotifyProtocol.NoInterruptIsLost` | virtio-gpu-win/VirtIO/VirtIORing.c:420-444 | With stores that become visible late and barriers where the source has them, in both suppression modes: while the driver waits for an entry, a completion past it has raised an interrupt or the device has yet to decide |
| `NotifyProtocol.EmptyDrainWaits` | virtio-gpu-win/VirtIO/VirtIORing.c:527-559 | Every drain that ends on an empty ring with callbacks on leaves the driver waiting: for the next completion, or, right after enable_cb_delayed, for the entry armed there |
| `NotifyProtocol.KicksAreSafeIffAgreed` | virtio-gpu-win/VirtIO/VirtIORing.c:298-329 | No kick is missed in any interleaving exactly when the driver always notifies, or does not use event indices, or the device does |
| `NotifyProtocol.MissedKick` | virtio-gpu-win/VirtIO/VirtIOPCIModern.c:303-306 | A run in which a kick is missed, for event indices used by the driver only |
| `NotifyProtocol.DelayedCallbackComes` | virtio-gpu-win/VirtIO/VirtIORing.c:582-609 | After enable_cb_delayed returned true with buffers out, a device that has completed them all, in any batches, has raised an interrupt or has yet to decide |
| `NotifyProtocol.DelayedTargetIsOut` | virtio-gpu-win/VirtIO/VirtIORing.c:582-600 | The entry that delayed callbacks wait for is one of those that are out |
| `NotifyProtocol.DecideKeepsArmed` | virtio-gpu-win/VirtIO/virtio_ring.h:164-177 | The decision of the device after publishing used->idx is right for the entry the driver waits for |
| `NotifyProtocol.InterruptsExactly` | virtio-gpu-win/VirtIO/virtio_ring.h:164-177 | In every reachable state the device interrupts exactly when the event index it sees is among the completions since its last decision, or, without event indices, when the flag it sees allows it |
| `NotifyProtocol.KickReachesSleeper` | virtio-gpu-win/VirtIO/VirtIORing.c:298-329 | A kick that exposes entries past the place where the device went to sleep is needed |
| `DriverSteps.StartMatches` | virtio-gpu-win/VirtIO/VirtIORing.c:612-648 | A new queue and the protocol start in matching states |
| `DriverSteps.AddMatches` | virtio-gpu-win/VirtIO/VirtIORing.c:181-285 | The add step of the notification protocol is that of the queue, including when the kick is forced |
| `DriverSteps.KickMatches` | virtio-gpu-win/VirtIO/VirtIORing.c:298-329 | The kick step and its decision are those of the queue |
| `DriverSteps.GetMatches` | virtio-gpu-win/VirtIO/VirtIORing.c:513-567 | The get step is that of the queue |
| `DriverSteps.CallbacksMatch` | virtio-gpu-win/VirtIO/VirtIORing.c:420-463 | The enable and disable steps are those of the queue |
| `DriverSteps.EnableAnswerMatches` | virtio-gpu-win/VirtIO/VirtIORing.c:420-444 | The re-check after enabling answers as the queue does |
| `VringLayout.LayoutIsWellPlaced` | virtio-gpu-win/VirtIO/virtio_ring.h:144-162 | For every ring size and every power-of-two alignment from 4 to 2^31, on aligned memory, the five parts are aligned and disjoint and fill vring_size bytes to the last |
| `VringLayout.EndsAtSize` | virtio-gpu-win/VirtIO/virtio_ring.h:144-162 | The ring ends at vring_size exactly when its base has the alignment |
| `VringLayout.SizeDoesNotWrap` | virtio-gpu-win/VirtIO/virtio_ring.h:154-162 | vring_size has no 32-bit wrap: it is 18 num + 6 rounded up to the alignment, and 8 num + 6 more |
| `VringLayout.PlacesInBytes` | virtio-gpu-win/VirtIO/virtio_ring.h:144-162 | Address and length of the five parts in bytes: 16 a descriptor, 2 an avail slot, 8 a used element, and the rounding between them |
| `VringLayout.UsedIsNext` | virtio-gpu-win/VirtIO/virtio_ring.h:144-152 | The used ring is the first aligned place behind the avail event word |
| `VringLayout.ShutdownExactlyWhenAddrTellsTransport` | virtio-gpu-win/VirtIO/VirtIORing.c:482-495 | With alignments of 4096 and 64: the cleared bytes and the new layout at shutdown are those of creation, for every ring, exactly when vdev->addr is set for the legacy transport and only for it |
| `Blit.BlitIsUnique` | virtio-gpu-win/viogpu/common/bitops.cpp:139-219 | Writing at the rotated place of each covered pixel its converted source, and nothing else, determines the destination memory |
| `Blit.PixelStandsAt` | virtio-gpu-win/viogpu/common/bitops.cpp:77-120 | For each rotation on either side, with offsets: the byte address of a covered pixel in both images, and that the converted bytes of the one stand in the other |
| `Blit.CopyBitsGeneric` | virtio-gpu-win/viogpu/common/bitops.cpp:139-219 | For all rotations on both sides, offsets, pitches and rectangle lists, the moving pointers write exactly that |
| `Blit.CopyBits32_32` | virtio-gpu-win/viogpu/common/bitops.cpp:222-258 | The row copies of the fast path write exactly that as well |
| `Blit.FastEqualsGeneric` | virtio-gpu-win/viogpu/common/bitops.cpp:222-281 | From equal memories the fast path and the generic loops leave equal memories |
| `Blit.BltBits` | virtio-gpu-win/viogpu/common/bitops.cpp:261-287 | The dispatch is invisible |
| `Blit.CopyPixel` | virtio-gpu-win/viogpu/common/bitops.cpp:174-212 | The bytes stored for one pixel, bit by bit for each pair of formats, and no others |
| `Blit.RowOfBytes` | virtio-gpu-win/viogpu/common/bitops.cpp:250-254 | Copying the bytes of a row is blitting its pixels |
| `Blit.BlitThen` | virtio-gpu-win/viogpu/common/bitops.cpp:161-218 | Blits of pixel sets compose, overlapping or not |
| `Blit.RoundTrip` | virtio-gpu-win/viogpu/common/bitops.cpp:139-219 | Blitting out and reading back through the same two images leaves the image unchanged, and restores its pixels over any other memory, unless 32 bits went through 16 |
| `Blit.ComesBackExact` | virtio-gpu-win/viogpu/common/bitops.cpp:16-40 | A pixel survives the way out and back for all its values exactly when 32 bits are not squeezed into 16 |
| `Bitops.Expand565Packs` | virtio-gpu-win/viogpu/common/bitops.cpp:16-40 | Widening a 565 pixel and narrowing it again loses nothing |
| `Bitops.RowStartIsAddr` | virtio-gpu-win/viogpu/common/bitops.cpp:77-120 | GetRowStart, in 32-bit arithmetic, points to the first pixel of the rectangle wherever rotation puts it |
| `Bitops.TurnsCompose` | virtio-gpu-win/viogpu/common/bitops.cpp:45-120 | Two quarter turns are a half turn, a quarter turn and the one back are none |
| `Bitops.PitchesStep` | virtio-gpu-win/viogpu/common/bitops.cpp:45-75 | Adding the pitches moves to the next pixel and the next row |
| `Bitops.AddrApart` | virtio-gpu-win/viogpu/common/bitops.cpp:77-120 | Different pixels of an image have disjoint bytes |
| `Bitops.AddrInside` | virtio-gpu-win/viogpu/common/bitops.cpp:77-120 | The bytes of a pixel inside the image lie in its buffer |
| `Present.PresentAll` | virtio-gpu-win/viogpu/viogpudo/viogpudo.cpp:2858-2954 | From the creation of the frame buffer on, the device copy equals the frame buffer after every unrotated present, for any lists of moves and dirty rectangles, whatever it held first |
| `Present.PresentUnrotated` | virtio-gpu-win/viogpu/viogpudo/viogpudo.cpp:2858-2954 | One unrotated present: every covered pixel stands at its place in the frame buffer, nothing else is written, and a coherent copy stays coherent |
| `Present.CoherentExactlyWhenReached` | virtio-gpu-win/viogpu/viogpudo/viogpudo.cpp:2926-2950 | For any rotation, the copy stays coherent for all contents exactly when the transfer is accepted and covers every pixel where rotation puts it |
| `Present.UnrotatedIsReached` | virtio-gpu-win/viogpu/viogpudo/viogpudo.cpp:2926-2950 | Without rotation the bounding rectangle covers every written pixel and the offset addresses its corner |
| `Present.HalfTurnIsNotReached` | virtio-gpu-win/viogpu/viogpudo/viogpudo.cpp:2934-2950 | A half turn with one dirty pixel transfers the wrong one, and the copy goes stale |
| `Present.ExecutePresentDisplayOnly` | virtio-gpu-win/viogpu/viogpudo/viogpudo.cpp:2858-2954 | For each of the four rotations, where in the frame buffer every covered pixel (x, y) stands afterwards, as a sum of products of x, y and the mode, and that it is the converted pixel at y * pitch + x * bytes of the source; no other pixel is written; the transfer and the flush name the least enclosing rectangle, or the screen if there is none, with the offset of its corner |
| `Present.FindUpdateRect` | virtio-gpu-win/viogpu/viogpudo/viogpudo.cpp:2810-2856 | The least rectangle around all destinations and dirty rectangles, each edge of which is that of one of them, and whether there is any |
| `Present.FullTransferCoherent` | virtio-gpu-win/viogpu/viogpudo/viogpudo.cpp:3439-3441 | The first transfer makes the copy coherent |
| `BufferRuns.EveryBufferInOnePlace` | virtio-gpu-win/viogpu/common/viogpu_queue.cpp:485-601 | In every run each command buffer is exactly once in the pool, in the control ring, in the cursor ring or with a caller, also when adds are refused |
| `BufferRuns.PoolCoversRings` | virtio-gpu-win/viogpu/viogpudo/viogpudo.cpp:2720-2724 | With one buffer per descriptor of both rings, pool plus held is at least the free descriptors of both, so GetBuf succeeds whenever nothing is held and some ring has room |
| `BufferRuns.RefusedStaysHeld` | virtio-gpu-win/viogpu/common/viogpu_queue.cpp:234-247 | A send changes nothing exactly when it asks for more descriptors than are free; the buffer is then still with its caller |
| `CommandRuns.EachRefusalCostsOne` | virtio-gpu-win/viogpu/common/viogpu_queue.cpp:306-346 | Over every run of builders that forget refused buffers, drains and waiters, whatever the device writes: pool, rings and waiters have the allocated buffers less one for each refused send; none is lost exactly when every send found room; and the next GetBuf finds a buffer exactly when rings, waiters and refusals have not used all |
| `CommandRuns.LostForGood` | virtio-gpu-win/viogpu/common/viogpu_queue.cpp:306-346 | A buffer whose send was refused is in no continuation in the pool, a ring or with a waiter again |
| `CommandRuns.DrainIsRun` | virtio-gpu-win/viogpu/viogpudo/viogpudo.cpp:3347-3378 | The control loop is a run of such rounds: from the same ring, pool and events it ends with the same ring, each buffer without an event at the tail of the pool and each one with an event with its waiter |
| `CommandRuns.RoomMeansBuffer` | virtio-gpu-win/viogpu/viogpudo/viogpudo.cpp:2720-2724 | With one buffer per descriptor, GetBuf finds one while more descriptors are free than sends were refused and buffers wait |
| `CommandRuns.RefusalsEmptyPool` | virtio-gpu-win/viogpu/common/viogpu_queue.cpp:306-346 | A run of three commands, two of them refused, that leaves the pool empty with the cursor ring unused, so that the next builder has no buffer |
| `CommandRuns.StepInv` | virtio-gpu-win/viogpu/common/viogpu_queue.cpp:193-304 | Every step conserves the buffers, and loses one exactly when more descriptors are asked for than are free |
| `GpuBuf.IssueCommand` | virtio-gpu-win/viogpu/common/viogpu_queue.cpp:306-346 | A builder takes the head of the pool, wiped, and publishes it under the old free_head, or, without room, takes it and leaves the ring as it was |
| `BufferRuns.DoInv` | virtio-gpu-win/viogpu/common/viogpu_queue.cpp:193-292 | Every step conserves the buffers |
| `GpuBuf.VioGpuBuf.Init` | virtio-gpu-win/viogpu/common/viogpu_queue.cpp:485-509 | Each successful allocation enters the pool as often as it was made, and is counted |
| `GpuBuf.VioGpuBuf.GetBuf` | virtio-gpu-win/viogpu/common/viogpu_queue.cpp:537-576 | Takes the head of the list, wiped, or nothing from an empty list |
| `GpuBuf.VioGpuBuf.FreeBuf` | virtio-gpu-win/viogpu/common/viogpu_queue.cpp:578-601 | Puts the buffer at the tail, without its data |
| `GpuBuf.VioGpuBuf.Close` | virtio-gpu-win/viogpu/common/viogpu_queue.cpp:511-535 | m_uCount ends as the number of buffers that were not in the pool |
| `GpuBuf.QueueBufferLocked` | virtio-gpu-win/viogpu/common/viogpu_queue.cpp:193-248 | Accepted exactly when there are as many descriptors as entries; accepted, the list stands on them with the readable entries first, the buffer is its token, and it notifies once, or twice at a forced kick; refused, only the notification of virtqueue_add_buf |
| `GpuBuf.QueueCursor` | virtio-gpu-win/viogpu/common/viogpu_queue.cpp:750-781 | Always returns 0 and notifies, whether or not there was room; with room, one readable descriptor carries the command |
| `GpuBuf.DrainControl` | virtio-gpu-win/viogpu/viogpudo/viogpudo.cpp:3347-3378 | While the device goes on completing between rounds, every offered buffer comes off the ring in order; of those that came, exactly the ones without an event are released, as often as they came, and exactly the ones with an event that ask for display information have their waiters woken; it ends with nothing offered |
| `GpuBuf.DrainCursor` | virtio-gpu-win/viogpu/viogpudo/viogpudo.cpp:3380-3385 | The cursor loop likewise, releasing every buffer |
| `GpuBuf.Dequeue` | virtio-gpu-win/viogpu/common/viogpu_queue.cpp:267-293 | The token of the used element at last_used_idx and its length, or NULL with length 0 |
| `ResourceRuns.ProtocolExactlyWhenAttached` | virtio-gpu-win/viogpu/viogpudo/viogpudo.cpp:3417-3464 | Over every run without a missing object: the commands for each id follow create, attach, use, detach, unref and name only ids that the bitmap has to give exactly when every attach of a frame buffer succeeded and the ids lasted; the two live resources then differ |
| `ScreenRuns.ShownIsCurrent` | virtio-gpu-win/viogpu/viogpudo/viogpudo.cpp:2972-3050 | Read off the commands alone, over every run in which all attaches succeed and the ids last: the screen shows the frame buffer whenever there is one and only then, its contents sent and flushed; the cursor shows the cursor buffer exactly when the last shape got its image, each image was sent before the cursor was set to it, and all moves name the cursor shown exactly when each came after a shape that got its image |
| `ScreenRuns.ActionShows` | virtio-gpu-win/viogpu/viogpudo/viogpudo.cpp:3417-3581 | Each action keeps screen and cursor current |
| `ScreenRuns.FailedAttachShowsAnother` | virtio-gpu-win/viogpu/viogpudo/viogpudo.cpp:3438-3442 | After a run and one attach that fails, the screen shows a resource other than the one in the frame buffer object |
| `IdRuns.NeverExhausted` | virtio-gpu-win/viogpu/common/viogpu_idr.cpp:48-60 | Exactly when the ids last, whatever fails in a run, attaches of frame buffers included: every action finds an id and no number outside the bitmap is named, if and only if each time the reserved ids, those lost so far and those held leave one, or the action gives back the id 0 of a failed attach |
| `IdRuns.ClearExactlyByCount` | virtio-gpu-win/viogpu/common/viogpu_idr.cpp:48-60 | For a mode set and for a pointer shape, also with id 0 in the frame buffer: an id is free exactly when reserved, lost and held ids are fewer than the bits, or id 0 is about to be given back |
| `IdRuns.FailedAttachCostsOne` | virtio-gpu-win/viogpu/common/viogpu_idr.cpp:48-60 | A run whose failed attach costs one id, so that one failed pointer shape less exhausts the bitmap |
| `ResourceRuns.HasClearExactly` | virtio-gpu-win/viogpu/common/viogpu_idr.cpp:48-60 | The same while no attach has failed, for any number of reserved ids |
| `IdRuns.BitmapRunsOut` | virtio-gpu-win/viogpu/common/viogpu_idr.cpp:48-60 | After as many failed pointer shapes as there are ids the next resource is created as 0xFFFFFFFF |
| `ResourceRuns.DereferencesNullExactly` | virtio-gpu-win/viogpu/viogpudo/viogpudo.cpp:2972-3045 | A run dereferences no missing object exactly when the pointer moves only after a last shape that got object and backing, and presents come only after a last found mode that got its object |
| `ResourceRuns.ObjectsAfter` | virtio-gpu-win/viogpu/viogpudo/viogpudo.cpp:3417-3581 | Which objects exist after a run, from its actions alone |
| `ResourceRuns.FailedAttachHandsOutZero` | virtio-gpu-win/viogpu/viogpudo/viogpudo.cpp:3438-3442 | After a failed attach the driver puts back id 0 and hands it out next |
| `ResourceRuns.FailedAttachBreaks` | virtio-gpu-win/viogpu/viogpudo/viogpudo.cpp:3438-3442 | After a failed attach the scanout is set to a resource without backing |
| `ResourceRuns.DoInv` | virtio-gpu-win/viogpu/viogpudo/viogpudo.cpp:3417-3581 | Mode sets, pointer shapes, pointer moves and presents keep ids, objects and device stages in step |
| `ResourceRuns.Execute` | virtio-gpu-win/viogpu/viogpudo/viogpudo.cpp:2521-3050 | The device object on every run without a missing object, whatever fails in it, with the two protocol statements for its commands |
| `Resources.GpuDevice.Perform` | virtio-gpu-win/viogpu/viogpudo/viogpudo.cpp:2521-3050 | One operation issues the specified commands; a found mode ends in attach, scanout, transfer and flush of the frame buffer, a shape in transfer and update of the cursor |
| `Resources.GpuDevice.CreateFrameBuffer` | virtio-gpu-win/viogpu/viogpudo/viogpudo.cpp:3417-3448 | The commands in full: create; attach if that succeeds; scanout, transfer and flush; all for one id that was clear before. A failed attach goes unnoticed and leaves id 0 in the object |
| `Resources.GpuDevice.DestroyFrameBuffer` | virtio-gpu-win/viogpu/viogpudo/viogpudo.cpp:3450-3464 | Exactly detach and unref of the object's id, and the bit of that id cleared; nothing without an object |
| `Resources.GpuDevice.CreateCursor` | virtio-gpu-win/viogpu/viogpudo/viogpudo.cpp:3466-3565 | The commands in full: create, attach and transfer for one id that was clear before, cut short by each of its three failures |
| `Resources.GpuDevice.DestroyCursor` | virtio-gpu-win/viogpu/viogpudo/viogpudo.cpp:3567-3581 | Exactly detach and unref of the object's id, and the bit of that id cleared; nothing without an object |
| `Resources.GpuDevice.GpuObjectAttach` | virtio-gpu-win/viogpu/viogpudo/viogpudo.cpp:3583-3613 | Attach and the id of the object, or neither |
| `Idr.VioGpuIdr.Init` | virtio-gpu-win/viogpu/common/viogpu_idr.cpp:16-36 | Exactly the ids below the start are taken |
| `Idr.VioGpuIdr.GetId` | virtio-gpu-win/viogpu/common/viogpu_idr.cpp:48-60 | The lowest clear bit of 32768 becomes set, and no other changes; 0xFFFFFFFF if all are set |
| `Idr.VioGpuIdr.PutId` | virtio-gpu-win/viogpu/common/viogpu_idr.cpp:62-77 | The id is free again; a number outside the bitmap frees none |
| `Idr.TakenAdds` | virtio-gpu-win/viogpu/common/viogpu_idr.cpp:48-60 | The id handed out was not in use, and is the only one that changes |
| `Idr.ClearExactly` | virtio-gpu-win/viogpu/common/viogpu_idr.cpp:48-60 | An id is free exactly when fewer are in use than there are bits |
| `PciCaps.WalkEndsExactly` | virtio-gpu-win/VirtIO/VirtIOPCIModern.c:469-485 | On any configuration space, the walk ends exactly when it comes to no offset twice, and that is decided by round 48 |
| `PciCaps.FindPciVendorCapabilities` | virtio-gpu-win/VirtIO/VirtIOPCIModern.c:469-485 | Whenever the walk ends, the nested loops visit its offsets in order and record for each type the last usable one, also when fields cannot be read; with readable fields, type and BAR are the bytes 3 and 4 of the capability |
| `PciCaps.ListedWalkEnds` | virtio-gpu-win/VirtIO/VirtIOPCIModern.c:469-485 | On every list without a cycle, however it is ended, the walk ends and visits the vendor capabilities in list order |
| `PciCaps.AtMost48` | virtio-gpu-win/VirtIO/VirtIOPCIModern.c:406-433 | A list without a cycle has at most 48 headers, so the bound cuts none short |
| `PciCaps.FindNextPciVendorCapability` | virtio-gpu-win/VirtIO/VirtIOPCIModern.c:406-433 | The search ends on any contents; on every list that the pointer leads to, it returns the first vendor capability, or 0 if there is none |
| `PciCaps.FindFirstPciVendorCapability` | virtio-gpu-win/VirtIO/VirtIOPCIModern.c:435-466 | With status bit 4 and the type byte less its top bit: the first vendor capability from the pointer at 0x14 for type 2, and at 0x34 for every other type; 0 without that bit or if one of the three bytes cannot be read |
| `PciCaps.SearchFindsFirst` | virtio-gpu-win/VirtIO/VirtIOPCIModern.c:413-433 | With enough rounds the search returns the first vendor capability of the list, or 0 |
| `PciCaps.HeaderBits` | virtio-gpu-win/VirtIO/VirtIOPCIModern.c:442-450 | The two bit masks in arithmetic: bit 4 of the status word, and the header type without its top bit |
| `PciCaps.VendorsOnce` | virtio-gpu-win/VirtIO/VirtIOPCIModern.c:469-485 | Each vendor capability of the list is visited, once |
| `PciCaps.RecordedIsLast` | virtio-gpu-win/VirtIO/VirtIOPCIModern.c:477-481 | What is recorded for a type is the last capability with a usable BAR |
| `PciCaps.RecordedNothing` | virtio-gpu-win/VirtIO/VirtIOPCIModern.c:477-481 | A type without a usable capability keeps what was there |
| `PciCaps.RecordedBytes` | virtio-gpu-win/VirtIO/VirtIOPCIModern.c:472-481 | What is recorded for a type is the last capability whose fourth byte is the type and whose fifth is a BAR that exists, or what was there |
| `PciCaps.LeadsDistinct` | virtio-gpu-win/VirtIO/VirtIOPCIModern.c:406-433 | No header of a finite list occurs twice |
| `PciCaps.SelfLoopIsFoundAgain` | virtio-gpu-win/VirtIO/VirtIOPCIModern.c:469-485 | A walk that reaches a vendor capability pointing to itself never ends |
| `PciCaps.LoopConfigNeverEnds` | virtio-gpu-win/VirtIO/VirtIOPCIModern.c:469-485 | A whole readable configuration space on which the outer loop holds 0x40 before every round |
| `ConfigRead.ConfigDevice.CreadMany` | virtio-gpu-win/VirtIO/VirtIOPCICommon.c:136-155 | Ends when changes are finitely many; the accepted pass stands between two generation reads whose change counts agree modulo 256 |
| `ConfigRead.ConfigDevice.GetConfig` | virtio-gpu-win/VirtIO/VirtIOPCICommon.c:157-173 | Each part of the buffer is what its own access found: one access for 1, 2 and 4 bytes, two of four bytes for 8, single bytes otherwise, between two generation reads that agree modulo 256. It is the contents of one moment for 1, 2 and 4 bytes always, and with a generation counter if fewer than 256 changes fall between two generation reads |
| `ConfigRead.AcceptedIsUntorn` | virtio-gpu-win/VirtIO/VirtIOPCICommon.c:136-155 | Equal generations with fewer than 256 changes in between: the pass is of one moment |
| `ConfigRead.UntornExactly` | virtio-gpu-win/VirtIO/VirtIOPCICommon.c:136-155 | A pass is of one moment for every history of contents exactly when nothing changed between its first and its last field |

## Left out

- Vring.Virtqueue.Perform: contents of the token pointers and of the buffers themselves; a token is a number, NULL is 0.
- Vring.Virtqueue.DetachUnusedBuf: used after the last get only, as documented; runs that go on after it are not modelled, because it rolls the avail index back.
- Vring.Virtqueue.GetBuf: the `broken` flag, which nothing sets, and the DEBUG-only fields.
- NotifyProtocol.NoInterruptIsLost: memory reordering other than late stores (loads are not speculated); interrupt delivery after the device raised it.
- RingProtocol.EveryInterleavingIsSafe: the device is assumed not to write the descriptor table, which the standard gives to the driver.
- Present.PresentUnrotated: centred scaling, that is a destination shifted inside the frame buffer; frame buffers with other than 32 bits a pixel.
- Blit.CopyBitsGeneric: images that overlap in memory, format pairs that end in an assertion such as one-bit cursors, an invalid rotation value, and the exception handler around BltBits.
- ResourceRuns.ProtocolExactlyWhenAttached: commands are counted when they are issued; one that the full control ring refuses never reaches the device. Sizes and positions in the commands are left out here.
- ScreenRuns.ShownIsCurrent: sizes and positions in the commands; runs with a failed attach, for which `FailedAttachShowsAnother` says what goes wrong first.
- IdRuns.NeverExhausted: failed attaches with no id reserved at all, that is a start of 0; the driver starts at 1.
- BufferRuns.EveryBufferInOnePlace: one device session; power transitions rebuild the queues without the pool.
- GpuBuf.QueueBufferLocked: how attach data is split into pages and its array of 16 entries; the scatter list is taken as given.
- GpuBuf.DrainControl: the hand-over from the interrupt routine through m_PendingWorks, the reply types, and response buffers allocated by the caller.
- ConfigRead.ConfigDevice.CreadMany: configuration writes.
- PciCaps.FindPciVendorCapabilities: configuration space that changes during the walk, or beyond its first 256 bytes.
- Mode enumeration and commit, VgaDevice, BIOS calls, BlackOutScreen, port and register access, BAR mapping, registry writes, tracing: calls into code that is not part of this model.
- Bitops.RowStartIsAddr: images of 2 GiB and more, for which the 32-bit products of the source wrap.
- Vring.Virtqueue.New: a size of 0. Both transports reject one that the device reports, but the scale-down loop of the modern one can still arrive there (virtio-gpu-win/VirtIO/VirtIOPCIModern.c:288-294).
- Idr.VioGpuIdr.PutId: what RtlClearBits does to memory outside the bitmap when it is given 0xFFFFFFFF.
- ResourceRuns.Execute: runs that dereference a missing object; `DereferencesNullExactly` says which they are.
- CommandRuns.EachRefusalCostsOne: runs in which a builder finds the pool empty, beyond the point where it does.
- virtqueue_has_buf, virtqueue_is_interrupt_enabled and the accessors of the ring: one-line reads.
