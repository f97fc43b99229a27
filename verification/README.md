# A verified model of the flagos tensor runtime

These Dafny modules model the parts of torch_fl in which state, aliasing and asynchrony
decide the outcome, and prove what those parts promise.

* **Copy engine** (`Strided`, `DeviceMemory`, `Tensors`, `CopyEngine`, `ToCopy`, `AsyncRuns`).
  A storage is a byte sequence; a view is an offset, sizes and strides of any rank; memory
  space 0 is the host and every accelerator is a memory plus a first-in-first-out queue of
  kernels that have been launched and not finished. Contracts speak of `Final()`, the memory
  left once every queue has been replayed, so a copy that forgot to drain, drained the wrong
  device, moved the wrong number of bytes or touched a byte outside its destination's view
  would not meet them. `AsyncRuns` is a step machine for the same protocol: kernels progress
  between any two steps of the host, also in the middle of a copy guard.
* **Activity tracers** (`ActivityScanner`, `RecordFormat`, `CuptiTracer`, `BufferCustody`,
  `CuptiSession`, `CannPairing`, `CannTracer`, `CannSession`). The self-resynchronising binary
  scanner of MetaX activity buffers with its parser/printer round trip, late resolution of
  external correlations, the pairing drain of the CANN tracer, and both session protocols with
  buffer callbacks that re-enter under a non-recursive mutex.
* **Boxing guards** (`DeviceBoxing`). Scopes that retag tensors and shared storages in place
  and move the current device.
* **Routing table, environment lists, optional integrations, storage growth, matmul padding,
  advanced-index checks** (`BackendConfig`, `FlagosEnv`, `Integrations`, `StorageGrowth`,
  `MatmulPadding`, `IndexBounds`). Storage growth shares the copy engine's device memory and queues.

Code that updates objects step by step is modelled by classes and loops whose contracts tie the
new state to a specification function; the properties are lemmas about those functions and
invariants of whole runs. What a specification function means is also stated without it, by an
independent description that a lemma connects for all inputs: copies in bytes at the sums of
coordinates times strides (`Tensors.Packed`, `Tensors.Spread`), acceptable records field by field
(`RecordFormat.Sound`), drained events by the records they come from (`CuptiTracer.Reports`,
`CannTracer.GathersAt`, `CannTracer.Pairs`), conf lines as they are written (`BackendConfig.Puts`).

The copy engine is the build for a CUDA-ABI platform whose torch has no native CUDA copy
kernels: every copy that is not one raw `Memcpy` goes through host memory. Element types,
casts, conjugation and negation are parameters (`Tensors.Numerics`); all that is assumed of them
is that they respect element widths and that a cast to the same dtype changes nothing.

## Where a promise holds only under a condition

* The raw host/device arms of `_copy_from` take their byte count from the source and do not
  look at shapes. `CopyEngine.CopyFrom` says what they store: the source's elements one after the
  other from the destination's first place on (`CopyEngine.Target`), which are the destination's
  leading ones if it has at least as many (`CopyEngine.LeadingElements`).
  `ToCopy.RawArmBroadcastsIffSameCount` shows that this is the broadcast value, for all contents,
  exactly when both tensors have equally many elements, and `ToCopy.RawArmFitsIff` that the bytes
  stay inside a storage that the destination fills exactly when the source has no more elements;
  `CopyFrom` asks only that they stay inside the storage. In every other arm sizes that do not
  broadcast end the copy with an error (`CopyEngine.Route`).
* The direct device copy is a plain `Memcpy`, also for two views of one storage, as in
  `x[1:].copy_(x[:-1])` (`CopyEngine.ShiftedSliceScrambles`). `CopyEngine.DirectCopyIff` shows that it
  delivers the copy's values, whatever a memcpy does to distinct ranges that overlap, exactly when
  the ranges do not overlap. `CopyFrom` covers both cases: with overlap it still touches nothing
  but the destination's own elements.
* A direct copy between two accelerators drains the source's queue only.
  `AsyncRuns.UndrainedStoreIsSafeIffIdle` shows that storing into an undrained buffer is safe, for
  all kernels, memories and contents, exactly when no queued kernel touches that buffer.
  `CopyEngine.CopyFrom` asks for that in this arm; `ToCopy.ToCopy` always meets it, because its
  destination is new.
* When the vendor runtime cannot report which device is current, the copy guard binds nothing and
  drains the ambient device. `AsyncRuns.GuardIsEnoughIffCovered` shows that draining a device makes
  the raw copy mean the copy, for all contents and all kernels of the queued footprints, exactly when
  for each of its two buffers it is the buffer's device, or nothing queued on the buffer's device has
  the buffer (or there is nothing to copy). Runs enter a guard under exactly that condition
  (`AsyncRuns.GuardCovers`); `AsyncRuns.UnreadableGuardIsStale` is a failing input.
* `_to_copy` entered with a lazy bit set on a dense source reads that source as raw bytes when it
  leaves a device, when it is converted on a device and when it leaves the host with its dtype
  unchanged; what the host casts, and what is strided, has its bits resolved. `ToCopy.ToCopy` states
  what arrives, and `ToCopy.ArrivesLogicalIff` that this is the logical contents, for all contents,
  exactly unless such a source has a bit that shows. The contract tests
  (tests/integration/test_math_bits_contract.py:153-154 and 198-199) expect logical values from
  `.cpu()` on such a tensor; whether a bit is still set when `_to_copy` is entered is up to torch's
  dispatcher, which is not part of this model.
* Growing a storage moves its bytes with a raw copy that waits for nothing: unlike every other copy
  here it drains no queue. `StorageGrowth.GrowthKeepsIffIdle` shows that the grown buffer finally holds
  in its first bytes what the old one would have held, for all kernels of the queued footprints, all
  memories and all sizes, exactly when no queued kernel touches the old one; a queued kernel writes
  the abandoned block (`StorageGrowth.GrowthLosesAQueuedWrite`). `StorageGrowth.Resize` states the
  bytes at the moment of the call in any case and the final ones for idle storages, and
  `StorageGrowth.GrowthIsInvisible` extends this to every run that grows only idle storages.
* `_local_scalar_dense` reads raw as well. `ToCopy.LocalScalar` gives the raw element, which is the
  logical one for a tensor without a bit that shows; `ToCopy.RawIsLogicalIff` shows that this is the
  case, for all contents, exactly then.
* A failing `Memcpy` is reported by `BlockingMemcpy`, which every copy through host memory uses. The
  direct device copy and the raw arms drop its result: the destination stays as it was and nobody is
  told (`CopyEngine.DirectCopy`, `CopyEngine.OrderedCopyDense`).
* Clock interpolation hits the end sample exactly when the wall clock was not stepped back between
  the samples (`CuptiTracer.ClockKeepsOrder`). Without a usable end sample times keep their order exactly
  as long as the 64-bit sum does not wrap between them (`CuptiTracer.ShiftKeepsOrderIff`).
* One boxing scope restores the storages' tags exactly when the storages of the tensors it boxes
  carried their tags before (`DeviceBoxing.OneScopeRestoresIff`). Between scopes, an inner scope
  that closes over a shared storage already turns that storage's tag back
  (`DeviceBoxing.InnerCloseUntagsSharedStorage`).
* The C++ list scan and the Python set agree on all variables over whose whitespace both sides
  agree exactly for non-empty items (`FlagosEnv.AgreementIffNonEmpty`).
* The per-buffer record bound ends the scan exactly for buffers of fewer than four bytes
  (`ActivityScanner.ScanRecords`), so only those produce the "hit the bound" message.
* The docstring of `activate_optional_integrations` says that a failed hook is not retried. The
  code records nothing when an installer returns `False`, and calls it again next time; the model
  follows the code (`Integrations.Sound`).

## Model

| member | source | states |
|---|---|---|
| Strided.DenseStridesGiveIdentity | csrc/aten/contiguous_ops.cc:216-220 | in a view with dense strides, dimensions of extent one free, logical element k is physical element k |
| Strided.IdentityForcesDenseStrides | csrc/aten/contiguous_ops.cc:216-220 | conversely a non-empty view whose logical and physical order agree has dense strides, so the contiguity test is exact |
| Strided.AtCoordinates | csrc/aten/contiguous_ops.cc:150-154 | the element at coordinates idx of any view, the one with their row-major number, stands the sum of idx[j] * strides[j] elements behind the view's offset |
| Strided.NumberIsInjective | csrc/aten/contiguous_ops.cc:150-154 | different coordinates within the sizes have different row-major numbers |
| Strided.FitsByCoordinates | csrc/aten/contiguous_ops.cc:150-154 | a view fits a storage exactly if the element at every coordinate ends inside it |
| Strided.InjectiveByCoordinates | csrc/aten/copy_ops.cc:389-399 | no two elements share a place exactly if different coordinates have different sums of strides |
| Strided.CoversByCoordinates | csrc/aten/copy_ops.cc:389-399 | a byte is covered exactly if it lies in the element at some coordinates |
| Strided.ReadAfterScatter | csrc/aten/copy_ops.cc:389-399 | values stored through an injective view are read back through it, element by element |
| Strided.ScatterFrame | csrc/aten/copy_ops.cc:389-407 | a byte no element of the view covers survives the store |
| Strided.GatherOfScatter | csrc/aten/copy_ops.cc:389-399 | gathering through the view that was stored through gives the stored values |
| Strided.SpliceIsScatter | csrc/aten/copy_ops.cc:489-500 | one raw run of bytes between dense views, at any offsets, is the element-by-element store |
| Strided.ExpandReadsBroadcast | csrc/aten/copy_ops.cc:396-399 | the zero-stride expansion of a view addresses exactly the elements the broadcast index map names |
| Strided.BroadcastsToMeans | csrc/aten/copy_ops.cc:396-399 | shapes broadcast exactly if, aligned from the right, each source extent is one or the destination's |
| Strided.BroadcastCoordinates | csrc/aten/copy_ops.cc:396-399 | the broadcast index names the source element at the destination's coordinates aligned from the right, zero along extents of one |
| Strided.BroadcastSameCount | csrc/aten/copy_ops.cc:670-676 | between shapes of equal element count broadcasting is the identity |
| DeviceMemory.ReplayAppend | csrc/aten/copy_ops.cc:100-133 | a launch behind a queue takes effect after everything in it |
| DeviceMemory.ReplayCommutesWithStore | csrc/aten/copy_ops.cc:239-265 | a store to a buffer no queued kernel touches may overtake the queue |
| DeviceMemory.RawCopyIsFaithful | csrc/aten/copy_ops.cc:416-437 | with nothing queued that touches either buffer, the raw copy of bytes as they are is the copy of bytes as they will be |
| DeviceMemory.Machine.Launch | csrc/aten/copy_ops.cc:100-133 | a kernel is queued; the final memory is the kernel applied to the previous final memory of its device |
| DeviceMemory.Machine.DrainCurrent | csrc/aten/copy_ops.cc:157-228 | the current queue is empty afterwards, its kernels have taken effect, and no final memory changes |
| DeviceMemory.Machine.EnterCopyGuard | csrc/aten/copy_ops.cc:139-152 | the operand's device is bound if the runtime can tell that another one is current, and the queue of the device then current is drained; the device to restore is the one that was current |
| DeviceMemory.Machine.BlockingMemcpy | csrc/aten/copy_ops.cc:416-437 | whether or not the runtime can report its device, if what the guard drains covers both buffers, the final memory is the previous one with those bytes copied (any bytes, if distinct ranges overlap); a failing memcpy is reported and writes nothing; the ambient device is restored |
| DeviceMemory.PartialOverlapIs | csrc/aten/copy_ops.cc:490-501 | a memcpy is undefined exactly for two different ranges of one buffer with a byte in common |
| Tensors.SpreadMeans | csrc/aten/copy_ops.cc:389-399 | a cast and broadcast store, byte by byte: at the place of each destination coordinate stands num.cast of what the element at the aligned source coordinate means, num.conj first and num.neg then as its bits say |
| Tensors.PackedMeans | csrc/aten/contiguous_ops.cc:107-157 | a cast store into a dense view, byte by byte: at each row-major number stands num.cast of what the source element at those coordinates means, conjugated, negated or conjugated first and negated then |
| Tensors.PlacedIs | csrc/aten/contiguous_ops.cc:150-154 | a tensor lies in its buffer exactly if the element at every coordinate ends inside it |
| Tensors.RawCopyStores | csrc/aten/copy_ops.cc:489-500 | the byte count of a dense copy is the source's extent, is in range at both ends, and stores the source's elements over the destination's leading ones, all of them for equal counts |
| Tensors.RawCopyFills | csrc/aten/copy_ops.cc:662-711 | a raw copy of a dense tensor to any place with room writes its elements one after the other, inside the destination's view or not |
| Tensors.FlatIsLeading | csrc/aten/copy_ops.cc:662-711 | in a dense tensor with at least as many elements those are the leading ones, the rest staying as they are |
| Tensors.ScribbleStores | csrc/aten/copy_ops.cc:489-500 | any bytes in a dense tensor's range are the bytes of some elements stored in it, so a scrambled copy still touches nothing else |
| Tensors.StoredValsRead | csrc/aten/copy_ops.cc:389-407 | after a store the view's physical contents are the stored values |
| Tensors.UnaryKernelStores | csrc/aten/contiguous_ops.cc:110-111 | the queued conjugation or negation kernel leaves the transformed elements in the result once it has finished |
| CopyEngine.ConvertElements | csrc/aten/copy_ops.cc:396-399 | the element loop of the host copy stores each cast, broadcast source element, its lazy bits resolved, through the destination's strides |
| CopyEngine.GatherOnHost | csrc/aten/contiguous_ops.cc:136-157 | the whole device storage, viewed on the host with the source's offset and strides, yields the source's elements densely: the bytes at each row-major number are those at the offset plus the sum of coordinate times stride; nothing else changes |
| CopyEngine.CopyStridedViaHost | csrc/aten/contiguous_ops.cc:132-170 | the result holds the logical gather of the strided source, zero strides and offsets included, and nothing that existed changes otherwise |
| CopyEngine.Materialize | csrc/aten/contiguous_ops.cc:77-113 | a tensor with lazy bits gives a new bit-free one: each element is num.conj of the stored one for the conj bit, num.neg for the neg bit, num.neg of num.conj for both, stated by coordinates and bytes; the source's bits are back; a bit-free tensor is returned as it is |
| CopyEngine.Clone | csrc/aten/contiguous_ops.cc:290-384 | a new dense bit-free tensor on the same device with the source's logical contents, by coordinates and bytes too; the recursion through materialization terminates on the number of bits |
| CopyEngine.DenseCopy | csrc/aten/contiguous_ops.cc:336-383 | a new dense tensor with the strided source's elements, the source unchanged |
| CopyEngine.Contiguous | csrc/aten/contiguous_ops.cc:213-288 | a contiguous tensor is returned itself; any other gives a new dense tensor with the same logical contents, each element read at the offset plus the sum of coordinate times stride |
| CopyEngine.ScatterFromHost | csrc/aten/copy_ops.cc:375-407 | host elements reach the destination's view and every other byte of its storage keeps its value; sizes that do not broadcast are refused before anything is written |
| CopyEngine.StridedCopyCastViaCpu | csrc/aten/copy_ops.cc:356-408 | snapshot semantics for any rank, strides and cast: at offset plus coordinates times strides of the destination stands num.cast of the bytes the source had at its own, even when both views overlap in one storage; every other byte of the storage and every other buffer is unchanged |
| CopyEngine.DeliveredMeans | csrc/aten/copy_ops.cc:471-760 | what a delivered copy is byte by byte: the view holds the values, bytes it does not cover and all other buffers are unchanged |
| CopyEngine.CopyFrom | csrc/aten/copy_ops.cc:471-760 | over all host and device branches the copy ends as its route says, host to host and shapes that do not broadcast being refused; on success the destination's logical contents become the source's, cast and broadcast (raw arms: the source's elements from the destination's first place on; overlapping direct copies: some values); nothing else that existed changes, the device and the source's bits are restored, and the recursion terminates; both cases are also stated in bytes by coordinates, with num.cast, num.conj and num.neg applied to the stored element |
| CopyEngine.LeadingElements | csrc/aten/copy_ops.cc:662-711 | storing fewer elements from a dense destination's first place on is overwriting its leading elements |
| CopyEngine.CopyLazy | csrc/aten/copy_ops.cc:478-487 | a source with lazy bits is delivered by its logical contents |
| CopyEngine.DeviceToDevice | csrc/aten/copy_ops.cc:489-624 | the direct copy and the host round trip deliver the same value; the direct one scrambles exactly its own destination if its ranges overlap |
| CopyEngine.DirectCopy | csrc/aten/copy_ops.cc:284-327 | the direct copy delivers the value if its memcpy works and its ranges do not overlap, some values if they do; a failing memcpy changes nothing and goes unreported |
| CopyEngine.OrderedCopyDense | csrc/aten/copy_ops.cc:668-711 | the raw arms write the source's elements from the destination's first place on; a failing memcpy changes nothing and goes unreported |
| CopyEngine.DirectCopyIff | csrc/aten/copy_ops.cc:490-501 | the direct copy delivers the copy's values for every outcome a memcpy may have exactly when its ranges do not overlap |
| CopyEngine.ScramblesIs | csrc/aten/copy_ops.cc:490-501 | in elements: a direct copy overlaps exactly for dense tensors of one shape and dtype over one device buffer whose first places differ by less than their count |
| CopyEngine.ShiftedSliceScrambles | csrc/aten/copy_ops.cc:490-501 | copying a contiguous slice onto itself shifted by one takes the direct arm and overlaps from two elements on |
| CopyEngine.Upload | csrc/aten/copy_ops.cc:668-692 | host to device, dense or strided destination, delivers the source's elements; a strided destination of other sizes is refused |
| CopyEngine.Download | csrc/aten/copy_ops.cc:693-711 | device to host, casting and strided destination included, delivers the source's elements; sizes that do not broadcast are refused where elements are copied |
| ToCopy.RawArmOverwrites | csrc/aten/copy_ops.cc:662-676 | with a smaller source the raw arm replaces the leading elements and leaves the rest |
| ToCopy.RawArmFitsIff | csrc/aten/copy_ops.cc:662-676 | the source's bytes stay inside a storage the dense destination fills exactly when the source has no more elements |
| ToCopy.RawArmBroadcastsIffSameCount | csrc/aten/copy_ops.cc:662-711 | the raw arms deliver the broadcast value for all contents exactly when the element counts agree |
| ToCopy.ToCopy | csrc/aten/copy_ops.cc:788-1096 | a new dense tensor on the requested device with the requested dtype holding the cast of what arrives, element by element at its row-major number; nothing that existed changes and the device is restored |
| ToCopy.ConvertFromHost | csrc/aten/copy_ops.cc:1038-1062 | a host source that changes dtype arrives by its logical contents, one that does not by its raw bytes |
| ToCopy.ArrivesLogicalIff | csrc/aten/copy_ops.cc:895-1062 | what arrives is the logical contents, for all contents, exactly unless a dense source with a bit that shows is read raw: off or on a device, or off the host with its dtype unchanged |
| ToCopy.RawIsLogicalIff | csrc/aten/copy_ops.cc:769-786 | reading raw reads the logical contents, for all contents, exactly if no bit shows |
| ToCopy.MoveAcross | csrc/aten/copy_ops.cc:1012-1023 | a copy into a fresh tensor of another device needs no drain of that device |
| ToCopy.CastOnDevice | csrc/aten/copy_ops.cc:895-1011 | a dtype cast between device tensors through the host gives the cast elements in a new tensor |
| ToCopy.LocalScalar | csrc/aten/copy_ops.cc:769-786 | the raw value of the one element after all queued kernels is returned, the logical one if no bit shows; any other element count is refused |
| ToCopy.OneElementIsDense | csrc/aten/copy_ops.cc:769-786 | a tensor of one element is dense whatever its strides, so reading at its data pointer is right |
| AsyncRuns.StepSimulates | csrc/aten/copy_ops.cc:134-232 | every host step and every kernel completion, also inside a guard, keeps the simulation of the sequential machine |
| AsyncRuns.MoveStep | csrc/aten/copy_ops.cc:416-437 | the raw copy inside the guard has the effect of the sequential copy |
| AsyncRuns.RunRefinesProgram | csrc/aten/copy_ops.cc:134-232 | after any run, replaying what is still queued gives the memory of the sequential program, and the device the guard restores is the program's own |
| AsyncRuns.SchedulesAgree | csrc/aten/copy_ops.cc:134-232 | two runs of one program that have come to rest agree on every byte and on the current device, whatever the devices' schedules |
| AsyncRuns.GuardedCopyRuns | csrc/aten/copy_ops.cc:134-232 | from every state outside a guard, every transfer in range whose buffers nothing undrained touches can run through the guard; it is one copy of the program, the device comes back, the destination range finally holds the source range's final bytes and every other byte is unchanged |
| AsyncRuns.EveryProgramRuns | csrc/aten/copy_ops.cc:134-232 | every program of kernels, device switches and copies that names existing accelerators, buffers and ranges has a run |
| AsyncRuns.QueueRunsOut | csrc/aten/copy_ops.cc:134-232 | from every state, in the middle of a guard too, any queue can run out with the host standing still |
| AsyncRuns.UndrainedStoreIsSafeIffIdle | csrc/aten/copy_ops.cc:239-327 | storing ahead of a queue is safe for all kernels, all memories that hold the buffer and all contents exactly when no queued kernel touches it |
| AsyncRuns.GuardIsEnoughIffCovered | csrc/aten/copy_ops.cc:139-152 | draining a device makes the raw copy mean the copy, for all contents and kernels of the queued footprints, exactly when for each buffer it is the buffer's device or nothing queued on the buffer's device has it; this covers the unreadable guard and no guard at all |
| AsyncRuns.UnreadableGuardIsStale | csrc/aten/copy_ops.cc:139-152 | with two accelerators, the wrong one current and the runtime unable to say so, there is a state in which the copy is not the copy |
| ActivityScanner.NextRecord | csrc/profiler/cupti_device_tracer.cc:856-935 | the word-by-word search finds the next acceptable header or there is none |
| ActivityScanner.ScanRecords | csrc/profiler/cupti_device_tracer.cc:832-936 | the loop returns every record of the scan, and its record bound is what ends it only for buffers under four bytes |
| ActivityScanner.ScanStaysInside | csrc/profiler/cupti_device_tracer.cc:856-935 | on arbitrary bytes every accepted record starts on a word boundary and lies inside the buffer |
| ActivityScanner.ScanIsOrdered | csrc/profiler/cupti_device_tracer.cc:856-935 | accepted records are disjoint and their offsets increase |
| ActivityScanner.ScanMissesNothing | csrc/profiler/cupti_device_tracer.cc:856-935 | an acceptable header on a word boundary is accepted unless it lies inside an accepted record |
| ActivityScanner.ScanOfPrint | csrc/profiler/cupti_device_tracer.cc:852-936 | the scan of printed records finds exactly their offsets if and only if no word of a gap or of the tail is an acceptable header where it stands, malformed records of known kinds included |
| ActivityScanner.RecordsOfPrint | csrc/profiler/cupti_device_tracer.cc:852-936 | then the records found are those printed, all of them, nothing else, in order |
| ActivityScanner.RecordsAtOffsets | csrc/profiler/cupti_device_tracer.cc:852-936 | the scan by offsets and the scan by consumed prefixes find the same bytes |
| RecordFormat.AcceptedIffSound | csrc/profiler/cupti_device_tracer.cc:869-918 | at the header of an encoded record of any kind the scanner accepts the record's whole size if it is sound and nothing if not, whatever follows; soundness spells every limit of the code in numbers |
| RecordFormat.RoundTrip | csrc/profiler/cupti_device_tracer.cc:77-189 | for every record whose fields fit their words, what is encoded is acceptable exactly if the record is sound, and then decodes to the record |
| RecordFormat.RecordsWellFormed | csrc/profiler/cupti_device_tracer.cc:852-936 | what the scan cuts out of arbitrary bytes is a complete acceptable record |
| RecordFormat.ParseOfPrint | csrc/profiler/cupti_device_tracer.cc:832-1155 | parsing inverts printing for every list of sound typed records and all gaps in which nothing is acceptable where it stands |
| RecordFormat.ScanOfPrintAll | csrc/profiler/cupti_device_tracer.cc:832-1155 | for typed records too the scan finds exactly their places if and only if gaps and tail are quiet |
| RecordFormat.MalformedRecordIsQuiet | csrc/profiler/cupti_device_tracer.cc:856-920 | a malformed record of any kind without a known kind inside is a gap the scanner resynchronises behind, whatever follows it |
| CuptiTracer.ProcessBuffer | csrc/profiler/cupti_device_tracer.cc:832-1163 | scanning and handling a buffer in place is handling its parsed records in order, untimed activities and kernels with unreadable names dropped |
| CuptiTracer.ProcessSplits | csrc/profiler/cupti_device_tracer.cc:938-1155 | the log is the activity events in order together with the last mapping of each correlation id |
| CuptiTracer.DrainIgnoresInterleaving | csrc/profiler/cupti_device_tracer.cc:759-794 | drained events depend only on the activity records and the last mappings, not on interleaving |
| CuptiTracer.ProcessConcat | csrc/profiler/cupti_device_tracer.cc:832-1163 | nor on how the records were split into buffers |
| CuptiTracer.MappingCommutesWithActivity | csrc/profiler/cupti_device_tracer.cc:759-765 | a mapping may arrive before or after the activity it names |
| CuptiTracer.DrainedIds | csrc/profiler/cupti_device_tracer.cc:1175-1182 | an event carries the id of the last record mapping its correlation, and none, rather than zero, exactly if nothing maps it |
| CuptiTracer.DrainedReports | csrc/profiler/cupti_device_tracer.cc:938-1182 | a session that starts empty drains exactly one event for each timed record with an absent or readable name, in order, with that record's kind, times, correlation, device, stream and thread, and the id of the last mapping of its correlation |
| CuptiTracer.RealtimeIsWallTime | csrc/profiler/cupti_device_tracer.cc:1213-1232 | a converted time is the vendor's own, or the sum modulo 2^64, or the last nanosecond on or below the line through the two samples |
| CuptiTracer.ReportedInOrder | csrc/profiler/cupti_device_tracer.cc:766-794 | without samples, and between two samples in order, no drained event ends before it starts |
| CuptiTracer.ClockKeepsOrder | csrc/profiler/cupti_device_tracer.cc:1213-1232 | interpolation keeps the order of all times whose image is a 64-bit number and hits the start sample, and the end sample exactly when the wall clock was not stepped back |
| CuptiTracer.ShiftKeepsOrderIff | csrc/profiler/cupti_device_tracer.cc:1217-1221 | without a usable end sample two times keep their order exactly if the shifted sum does not wrap between them |
| BufferCustody.CustodySplit | csrc/profiler/cupti_device_tracer.cc:1245-1291 | custody of buffers composes over stretches of vendor activity |
| BufferCustody.CustodyIs | csrc/profiler/cupti_device_tracer.cc:1245-1291 | the vendor holds what it held and what it was granted since, unless it has given it back |
| BufferCustody.AllowedIs | csrc/profiler/cupti_device_tracer.cc:1268-1291 | a stretch of vendor activity is admissible exactly if whatever it gives back it holds at that moment |
| CuptiSession.Process.BufferRequested | csrc/profiler/cupti_device_tracer.cc:1245-1266 | a new buffer is handed out, or none if allocation fails |
| CuptiSession.Process.BufferCompleted | csrc/profiler/cupti_device_tracer.cc:1268-1291 | under the mutex, taken free and left free, the buffer's records go to the published tracer and the buffer is freed once |
| CuptiSession.Process.Vendor | csrc/profiler/cupti_device_tracer.cc:1245-1291 | any stretch of requests and completions frees each completed buffer once and collects its records |
| CuptiSession.Process.Start | csrc/profiler/cupti_device_tracer.cc:665-728 | the session starts empty, and what the opening flush delivers is in it; an unusable library changes nothing |
| CuptiSession.Process.Stop | csrc/profiler/cupti_device_tracer.cc:730-757 | what the closing flush delivers still belongs to the session, then no tracer is published |
| CuptiSession.Process.Drain | csrc/profiler/cupti_device_tracer.cc:766-794 | all collected events come out resolved and in order, and are gone from the tracer |
| CuptiSession.RunSession | csrc/profiler/cupti_device_tracer.cc:665-794 | a session drains exactly the activities delivered in its opening flush, while it ran and in its closing flush, each event with its own record's fields |
| CuptiSession.RunOneRecord | csrc/profiler/cupti_device_tracer.cc:665-1163 | from bytes to events: without a start sample, a buffer with the encoding of one sound timed record drains as one event with the record's own kind, start, end, correlation, device, stream and thread |
| CuptiSession.Run | csrc/profiler/cupti_device_tracer.cc:665-794 | over any sequence of operations of any tracers the mutex is never taken while held, each buffer is freed once, and records go to the tracer collecting at that moment |
| CuptiSession.OnlyTheActiveCollects | csrc/profiler/cupti_device_tracer.cc:1268-1291 | a tracer that is not collecting keeps its log whatever the others and the vendor do |
| CannPairing.ExportsAreExactlyThese | csrc/profiler/cann_device_tracer.cc:312-382 | the exports are a subsequence of the arrivals, exactly those that qualify |
| CannPairing.PairsAreComplete | csrc/profiler/cann_device_tracer.cc:312-382 | a correlation seen on both sides exports all its device events and exactly one runtime event; one seen on one side exports nothing |
| CannPairing.BestIsUnique | csrc/profiler/cann_device_tracer.cc:327-339 | at most one runtime event per correlation is the earliest of maximal score |
| CannPairing.BestExists | csrc/profiler/cann_device_tracer.cc:327-339 | and there is one as soon as there is any runtime event |
| CannPairing.MentionsIsContains | csrc/profiler/cann_device_tracer.cc:446-453 | a name mentions a word exactly if it is some text, the word and some text |
| CannPairing.BestIsChosen | csrc/profiler/cann_device_tracer.cc:446-472 | the exported runtime event of a correlation is the earliest whose name contains LaunchKernel or ExecuteKernel (Memcpy or MemCopy, Memset or MemSet) as its first device event is a kernel (copy, fill), and the earliest of all if none does |
| CannPairing.ExportedIsQualifies | csrc/profiler/cann_device_tracer.cc:312-355 | what is exported, without scores: device events with a runtime event of their correlation, and the runtime event its first device event chooses by name |
| CannPairing.TakeIdIsNext | csrc/profiler/cann_device_tracer.cc:474-485 | the wrapping 32-bit counter issues 1 to 2^32-1 and again from 1, never zero |
| CannPairing.IdsRepeatOnlyAfterACycle | csrc/profiler/cann_device_tracer.cc:474-485 | two issues give one id exactly when they are a whole number of cycles apart |
| CannPairing.IdForIsInjective | csrc/profiler/cann_device_tracer.cc:474-485 | within a drain that issues at most a cycle of ids, ids tell correlations apart |
| CannTracer.CollectKeepsUsable | csrc/profiler/cann_device_tracer.cc:487-580 | nothing unusable is ever pending, so drain's own recheck drops nothing |
| CannTracer.CollectGathers | csrc/profiler/cann_device_tracer.cc:487-580 | a session collects one event for each record with usable times and a correlation, in order and with that record's fields and default names, and per correlation the last external id |
| CannTracer.CollectSides | csrc/profiler/cann_device_tracer.cc:314-325 | the two sets hold exactly the correlations with a device event and with a runtime event |
| CannTracer.SelectRuntime | csrc/profiler/cann_device_tracer.cc:327-339 | the selection loop finds, per device correlation, the earliest runtime event of maximal score |
| CannTracer.TablesDecide | csrc/profiler/cann_device_tracer.cc:341-355 | the choices made from the tables are those of the specification by arrivals |
| CannTracer.DrainPairs | csrc/profiler/cann_device_tracer.cc:312-382 | drain returns exactly the qualifying arrivals in order, each with its own times, stream, thread and name, the device by its first place among the visible ones and the external id as a signed 32-bit number |
| CannTracer.DrainedIdsPair | csrc/profiler/cann_device_tracer.cc:312-382 | two drained events share an id exactly when they share a vendor correlation, and no id is zero |
| CannTracer.DrainsNeverShareIds | csrc/profiler/cann_device_tracer.cc:312-382 | drains that together stay below a cycle never share an id |
| CannSession.Tracer.ProcessBuffer | csrc/profiler/cann_device_tracer.cc:409-414 | a completed buffer's records are collected in order, the mutex taken and released for each |
| CannSession.Tracer.Vendor | csrc/profiler/cann_device_tracer.cc:595-612 | any stretch of callbacks frees each completed buffer once, collects for the published tracer and for nobody else |
| CannSession.Tracer.Cleanup | csrc/profiler/cann_device_tracer.cc:429-444 | afterwards nothing is subscribed, armed or published, and what the flush delivered was still collected |
| CannSession.Tracer.Start | csrc/profiler/cann_device_tracer.cc:215-291 | the tracer is active afterwards exactly if it was or loading, subscribing, registering and enabling the kernel, API, ACL API, runtime API and external kinds all succeed; all kinds granted are armed then; a failed start leaves nothing subscribed, armed or published; the mutex is free again |
| CannSession.Tracer.Stop | csrc/profiler/cann_device_tracer.cc:293-310 | buffers completed inside the flush are collected by the stopping session, and the tracer is at rest and inactive |
| CannSession.Tracer.CorrelationId | csrc/profiler/cann_device_tracer.cc:474-485 | a known correlation keeps its id and a new one gets the next id issued |
| CannSession.Tracer.BuildOutput | csrc/profiler/cann_device_tracer.cc:341-376 | the output loop produces exactly the qualifying arrivals, in order, with ids by first appearance |
| CannSession.Tracer.Drain | csrc/profiler/cann_device_tracer.cc:312-382 | drain returns the qualifying arrivals, per correlation the one runtime call the names choose, with paired ids, and leaves nothing collected |
| CannSession.Run | csrc/profiler/cann_device_tracer.cc:215-444 | any sequence of starts granted or refused at any point, stops, drains and callbacks leaves the tracer at rest: active, subscribed and published coincide, nothing is armed while inactive, each buffer is freed once; each drain pairs what was delivered to the active tracer since the last start or drain |
| CannSession.AdmissibleIs | csrc/profiler/cann_device_tracer.cc:595-612 | the runs considered are all in which the vendor gives back only what it holds, also while no tracer is active |
| CannSession.SessionHarvests | csrc/profiler/cann_device_tracer.cc:215-382 | a whole session drains what the vendor delivered while it ran and in its closing flush, and nothing if it could not start |
| CannSession.DrainSession | csrc/profiler/cann_device_tracer.cc:312-382 | over all drains between two starts an id stands for one correlation of one drain while fewer than 2^32 ids have been issued |
| DeviceBoxing.BoxNests | csrc/aten/device_boxing.h:162-194 | boxing a list with repeats and undefined entries boxes each flagos tensor once and leaves all others alone |
| DeviceBoxing.UnboxUnnests | csrc/aten/device_boxing.h:176-180 | unboxing undoes it also for storages shared between boxed tensors |
| DeviceBoxing.BoxConcat | csrc/aten/device_boxing.h:270-279 | boxing two lists under one guard is boxing their concatenation |
| DeviceBoxing.ScopesRestoreTags | csrc/aten/device_boxing.h:107-301 | for any nesting of scopes, once all are closed every tag of every tensor and storage is what it was |
| DeviceBoxing.ScopesRestoreDevice | csrc/aten/device_boxing.h:107-153 | the current device comes back for any body below a scope that switched it, and otherwise for bodies that leave it alone |
| DeviceBoxing.StepKeepsUnwoundIff | csrc/aten/device_boxing.h:107-153 | one step keeps the device all closing scopes lead back to exactly if it does not stray outside a scope that switched, or selects the current device |
| DeviceBoxing.StraysIs | csrc/aten/device_boxing.h:116-139 | only the body selecting a device and a scope over a usable flagos tensor under an unreadable runtime move the device for good |
| DeviceBoxing.FirstIndexIs | csrc/aten/device_boxing.h:116-139 | the index bound is that of the first flagos tensor with one, and none if there is no such tensor |
| DeviceBoxing.OneScopeRestoresIff | csrc/aten/device_boxing.h:162-194 | one scope restores the tensors always, and the storages exactly when they carried their tensors' tags |
| DeviceBoxing.InnerCloseUntagsSharedStorage | csrc/aten/device_boxing.h:162-194 | an inner scope over a shared storage turns that storage back while the outer tensor is still boxed |
| DeviceBoxing.SetTensorImplDevice | csrc/aten/device_boxing.h:27-52 | tensor and storage get the new type and keep the index; a tensor without storage is passed over; no other tag changes |
| DeviceBoxing.DeviceScope.Bind | csrc/aten/device_boxing.h:116-139 | the first index binds and later ones do not; the scope restores exactly if it switched and knew where from |
| DeviceBoxing.DeviceScope.Close | csrc/aten/device_boxing.h:140-145 | a scope that switched puts the saved device back, any other leaves the device alone |
| DeviceBoxing.BoxingGuard.BoxAll | csrc/aten/device_boxing.h:162-194 | the in-place loop realises the specification of boxing and binds the first flagos index |
| DeviceBoxing.BoxingGuard.Close | csrc/aten/device_boxing.h:176-180 | the in-place loop realises the specification of unboxing, then the device scope lets go |
| DeviceBoxing.BoundIsOpen | csrc/aten/device_boxing.h:116-139 | binding through the guard is what opening a scope means in the nesting theorems |
| FlagosEnv.TrimBounds | csrc/include/flagos_env.h:61-71 | the two index loops delimit exactly the stripped text |
| FlagosEnv.EnvRaw | csrc/include/flagos_env.h:61-71 | unset, empty and blank variables read as unset, any other as its stripped value |
| FlagosEnv.EnvIs | csrc/include/flagos_env.h:76-85 | equality up to ASCII case, also for different lengths |
| FlagosEnv.ListedIn | csrc/include/flagos_env.h:140-162 | the pointer scan finds the item exactly if some stripped part is the item up to case |
| FlagosEnv.EnvListed | csrc/include/flagos_env.h:166-170 | the same over a variable |
| FlagosEnv.HasPartOfSplit | csrc/include/flagos_env.h:140-162 | the scan's parts are those of splitting at the commas |
| FlagosEnv.StripIs | csrc/include/flagos_env.h:61-71 | stripping takes off exactly the white space at both ends |
| FlagosEnv.LowerIs | csrc/include/flagos_env.h:76-85 | the 26 letters are lowered and every other character stays |
| FlagosEnv.SplitIs | torch_fl/_env.py:162-171 | splitting at commas undoes joining with commas |
| FlagosEnv.PythonSpaces | torch_fl/_env.py:162-171 | on the Python side stripping also removes the four separator characters |
| FlagosEnv.ScanAgreesWithSet | torch_fl/_env.py:93-171 | the scan answers as membership of the lowered item in the Python set, for non-empty items |
| FlagosEnv.AgreementIffNonEmpty | torch_fl/_env.py:162-171 | both forms agree on all such variables exactly for non-empty items |
| BackendConfig.NamesAreSpelled | csrc/aten/common.cc:115-168 | a name, whatever its case, is read as the backend that lists it among its spellings, and as none if no backend does |
| BackendConfig.AnnotatedLine | csrc/aten/common.cc:230-281 | a line op = name # annotation routes the op to the backend the name spells, to FlagGems if it spells none, and notes the backend the annotation spells, if any |
| BackendConfig.PlainLine | csrc/aten/common.cc:230-281 | a line without annotation notes none |
| BackendConfig.IncludeLine | csrc/aten/common.cc:241-256 | a line include file goes on in that file, a relative one beside the including file |
| BackendConfig.OtherLine | csrc/aten/common.cc:241-256 | a line without an assignment that is not an include says nothing |
| BackendConfig.HalfLine | csrc/aten/common.cc:258-263 | an assignment without an op or without a backend says nothing |
| BackendConfig.AssignmentLines | csrc/aten/common.cc:230-281 | a file of assignment lines means those assignments in their order |
| BackendConfig.SelfInclude | csrc/aten/common.cc:211-256 | a file that includes itself is followed nine times and no further |
| BackendConfig.LastAssignmentWins | csrc/aten/common.cc:211-281 | per op the last assignment in include-expanded order decides, and only its own annotation survives |
| BackendConfig.ForcedIsASafeChoice | csrc/aten/common.cc:320-384 | forcing picks the configured or the annotated backend, keeps one already in the family, and misses the family only when neither is in it |
| BackendConfig.ForcedIsIdempotent | csrc/aten/common.cc:320-384 | forcing twice is forcing once |
| BackendConfig.Loader.ParseConfigInto | csrc/aten/common.cc:211-281 | the line loop with recursive includes, cyclic ones included, terminates and applies the expanded assignments in order |
| BackendConfig.Loader.ApplyForcedBackend | csrc/aten/common.cc:320-384 | in whatever order ops are visited the key set stays and every op gets its forced image |
| BackendConfig.Loader.ApplyOverrides | csrc/aten/common.cc:439-460 | valid overrides replace, invalid ones are ignored, the key set stays |
| BackendConfig.OverrideIs | csrc/aten/common.cc:439-460 | an op is overridden by the backend its stripped variable spells, if it spells one |
| BackendConfig.KeyIs | csrc/aten/common.cc:443-447 | every dot of the op becomes two underscores in the variable's name |
| BackendConfig.LoadBackendConfig | csrc/aten/common.cc:408-462 | loading fails exactly if the named file is missing; an op is routed exactly if some reachable line assigns it, by its override or else the forced image of its last assignment and annotation |
| Integrations.ActiveMeansReady | torch_fl/__init__.py:2505-2524 | every transitive prerequisite of an active integration is active |
| Integrations.PrerequisitesAre | torch_fl/__init__.py:2476-2524 | by name: dataparallel needs parallel_comm, data_parallel needs both, flex_attention needs compile, and the rest need nothing |
| Integrations.EverythingIs | torch_fl/__init__.py:2476-2509 | without names the seven integrations are selected, and bpu on its build |
| Integrations.RecordCall | torch_fl/__init__.py:2526-2540 | one more installer call keeps the history invariant: prerequisites first, success and failure final |
| Integrations.RecordFailure | torch_fl/__init__.py:2518-2525 | so does recording an unavailable prerequisite |
| Integrations.Registry.Activate | torch_fl/__init__.py:2510-2540 | recorded statuses stand, only the integration and what it needs gain one; it raises exactly if strict and not active; with all prerequisites active its installer was the last one called and the state shows how that ended, otherwise the status names an inactive prerequisite; the recursion terminates on the prerequisite order |
| Integrations.Registry.ActivateAll | torch_fl/__init__.py:2476-2544 | unknown names are refused before anything happens; after any sequence of calls the invariant holds; a completed call has attempted every selected integration, and without strictness every call completes |
| StorageGrowth.MaybeResizeStorage | csrc/aten/strided_ops.cc:73-107 | the storage has the larger of its old and the required length and starts with the bytes it held at this moment, queues or not; every older buffer, the abandoned one included, is untouched, the device is restored and the error cases are told apart; for both readings of what an empty shape requires |
| StorageGrowth.Grow | csrc/aten/strided_ops.cc:94-106 | growing allocates a buffer nothing queued knows, copies the bytes as they are at this moment without draining, and repoints the storage |
| StorageGrowth.Resize | csrc/aten/strided_ops.cc:111-120 | ATen's host-memcpy growth is never reached, the storage has exactly the larger of its old and the required length, a resized tensor is dense at its old offset inside it, and an idle storage finally holds at the same places what it would have held |
| StorageGrowth.RequiredFits | csrc/aten/strided_ops.cc:73-79 | the required extent holds a dense view of the new sizes at the tensor's offset |
| StorageGrowth.RequiredIsLeast | csrc/aten/strided_ops.cc:73-79 | for a shape with elements no shorter storage does |
| StorageGrowth.AliasesKeepTheirElements | csrc/aten/strided_ops.cc:99-106 | every alias that fitted still fits and reads the same elements |
| StorageGrowth.ResizeMany | csrc/aten/strided_ops.cc:73-120 | over any sequence of resizes of tensors sharing a storage, with kernels launched and finishing in between, it never shrinks and the host branch is never taken; while no kernel touches it its bytes keep their value and place |
| StorageGrowth.GrowthKeepsIffIdle | csrc/aten/strided_ops.cc:99-106 | the grown buffer finally holds what the old one would have, for all kernels of the queued footprints, memories and sizes, exactly when no queued footprint has the old buffer |
| StorageGrowth.GrowthLosesAQueuedWrite | csrc/aten/strided_ops.cc:99-106 | a queued kernel that clears the storage is an input on which growth loses its write |
| StorageGrowth.GrowthIsInvisible | csrc/aten/strided_ops.cc:73-107 | over any run of launches, completions and growths that grows only idle storages, the device finally holds what it would if launches took effect at once |
| MatmulPadding.NarrowAt | csrc/aten/common.cc:774-784 | an element of the narrowed view sits at the same coordinates of the padded storage |
| MatmulPadding.PadContractDim | csrc/aten/common.cc:774-784 | zero fill and narrowed copy leave the operand at its coordinates and zeros in the rest of the axis |
| MatmulPadding.SumOfZeros | csrc/aten/common.cc:774-784 | terms that are zero add nothing to a sum |
| MatmulPadding.SumIs | csrc/aten/common.cc:786-806 | a sum is the last of the running sums that add one term at a time to zero |
| MatmulPadding.TermIs | csrc/aten/common.cc:786-806 | a term is the left element in row i, column k times the right element in row k, column j, in flat storage |
| MatmulPadding.PaddedEntry | csrc/aten/common.cc:786-806 | each entry of the product of any left and right matrix of the padded batches is the original entry |
| MatmulPadding.PadPair | csrc/aten/common.cc:786-806 | padding happens exactly for a matching contraction that is non-empty and below the floor; both contracted extents become the floor, the others stay, and the product is the same for every batch shape the operands broadcast to |
| IndexBounds.CheckTensor | csrc/aten/index_bounds.h:115-150 | accepted exactly if all values lie in the addressed dimension; otherwise the reported value is the extreme one that is out of range |
| IndexBounds.CheckList | csrc/aten/index_bounds.h:176-214 | accepted exactly if every covered entry fits the dimension at the summed widths before it; otherwise the first misfit is explained |
| IndexBounds.MessageDimCountsNoSlices | csrc/aten/index_bounds.h:163-175 | the message's dimension is the real one exactly when no slice comes before |
| IndexBounds.CountersAre | csrc/aten/index_bounds.h:163-214 | an entry addresses the dimension behind one per earlier slice and tensor and one per axis of earlier masks; the message leaves out the slices |
| IndexBounds.EntryFitsIs | csrc/aten/index_bounds.h:115-150 | an entry fits unless it is an integral tensor with a value below minus the size or not below the size |

## Left out

* Vendor strided-copy kernels, boxed CUDA redispatch, MPS, pinned memory, Kunlunxin's peer copy and
  the arms between flagos and CUDA tensors: the model has the host-round-trip build.
* Several queues per device: the model has one, or the device-wide synchronisation arm. Buffer
  numbers are never reused and temporaries are not freed.
* CopyFrom: the vendor's `Memcpy` succeeds and the runtime reports its device throughout; both
  failures are in the contract of `DeviceMemory.Machine.BlockingMemcpy`, the first also in those of
  `DirectCopy` and `OrderedCopyDense`, and the second in `AsyncRuns`. It asks for a destination
  without lazy bits and for the conditions of the section above, and for one in which no two elements
  share a place: ATen's `copy_` refuses the overlaps it detects (zero strides), and what it stores
  through an `as_strided` view that overlaps otherwise depends on the order of its loops. A copy of
  no bytes is no copy.
* ToCopy: memory formats other than preserve and contiguous, and pinning, are not modelled. Between
  host tensors the result is taken to be dense, where ATen may keep a permuted layout.
* AsyncRuns: one host thread; a guard is four steps, and devices progress between any two of them.
  Transfers stay inside their buffers and do not partially overlap.
* The iterator-driven buffer walk of the other CUPTI vendors, demangling and the other uses of names,
  occupancy, bandwidth and other metadata, and the diagnostics on standard error. A kernel's name
  counts only by whether it is readable, which a table of lengths stands for
  (`CuptiTracer.NamePlausible`).
* CuptiTracer.ClockKeepsOrder: over exact real arithmetic, not extended-precision floating point.
* CuptiSession.Run: for a process whose vendor library was found and armed; a start or stop without
  it is in the contracts of `Start` and `Stop`.
* CannSession.Run: one tracer object per process.
* DeviceBoxing: the list guard's `track`, which records tensors something else has boxed.
* DeviceBoxing.ScopesRestoreTags: about the tags as values; the guard objects are tied to them by the
  contracts of `BoxAll` and `Close`.
* BackendConfig: how the path and the forced mode are found, and the messages printed.
* FlagosEnv.ScanAgreesWithSet: for variables of ASCII text without the four separator characters that
  only Python strips.
* Integrations.Registry.Install: what an installer does is any of its three outcomes.
* StorageGrowth.MaybeResizeStorage: ATen's `computeStorageNbytesContiguous` is not part of this
  repository. Whether it counts no bytes for an empty shape, as the comment at
  csrc/aten/strided_ops.cc:79-81 has it, or the bytes up to the offset, is a parameter, and every
  result holds for both.
* StorageGrowth.Resize: ATen's own `resize_` is modelled by the part that sets sizes and decides on
  growth; allocation failure, a failing copy, the reuse of the abandoned block and strides other than
  dense are not modelled.
* MatmulPadding.PadPair: rounding is not modelled.
* IndexBounds: boolean masks' own shape check and the refusal of other dtypes, which ATen does.
