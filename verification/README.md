# guestweave: a verified model of its core

guestweave runs virtual machines on macOS. This project models the parts of it
that move bytes under a protocol, and proves what those parts promise:

- **Disk images.** A disk travels as content-addressed layers. `Pull` rebuilds it
  with concurrent workers that skip zero blocks, copy ranges from a cached disk,
  clone that disk and punch holes in the clone, and resume a file left by an
  interrupted pull. `Push` cuts a disk into layers and uploads them in any order.
  Lume's sharded, chunked and lz4 images go through a buffering sparse writer.
- **Emulated devices.** An NVMe controller, a legacy virtio block queue, a CFI NOR
  flash, the fw_cfg interface and the serializer of the flattened device tree, all
  over one model of guest memory.
- **Clipboard.** The sync engine between a host and a guest pasteboard, and the
  token bucket that throttles it.
- **Parsers.** The recognizer of remote image names and the reader of DHCP leases.

Each component has a pure specification (functions on values, one module a
component), the program's own loops and in-place updates as methods and classes
proved equal to that specification, and theorems about the specification over
whole runs: any schedule of workers, any series of doorbells or notifications, any
interleaving of user copies and sync cycles. The other half of a theorem is always
something the code does not contain: plain concatenation of layers, a flat copy, a
reader written from the standard, a grammar, an ideal NOR array, a search.

Files, by component:

| component | files |
|---|---|
| bytes, bits, strings, numbers, sorting | `Bytes`, `Bits`, `Endian`, `Modular`, `Strings`, `Sorting` |
| OCI disks | `DiskFile`, `ZeroSkip`, `LayerCache`, `DiskPull`, `DiskPullTheorems`, `DiskPullProgress`, `DiskTransfer` |
| Lume disks | `SparseWriter`, `ShardedDisk`, `Lz4Disk` |
| guest memory and NVMe | `GuestMemory`, `NvmeTransfer`, `NvmePages`, `NvmeQueues`, `NvmeProtocol`, `NvmeLink`, `NvmeCommands`, `NvmeStorage`, `NvmeController` |
| virtio block | `VirtioQueue`, `VirtioProtocol`, `VirtioRun`, `VirtioRequest`, `VirtioBlk`, `VirtioDriver` |
| flash, fw_cfg, device tree | `CfiFlash`, `FwCfg`, `FwCfgGuest`, `DeviceTree` |
| clipboard | `Clipboard`, `ClipboardPolicy`, `ClipboardEngine`, `TokenBucket` |
| parsers | `RemoteName`, `Leases`, `LeaseGrammar`, `LeaseFile` |

What lies outside the program is a parameter: SHA-256 is an injective function,
LZ4 is undone by its inverse, a blob is determined by its digest, and the clock,
the network, the host's file system block size and the moments at which users copy
are inputs of the runs.

Where the code does not do what one would hope, the model keeps the code and says
exactly when the property holds:

- A resumed pull with deduplication takes layers on trust, and one that does not compare
  skips whole zero chunks. Whatever file it finds, a completed pull leaves the right disk
  if and only if every trusted layer was on the disk already and, when it does not
  compare, the file was zero on every whole zero chunk (`CompletedPull`, with the
  counterexamples `DeduplicatedResumeCanFail` and `ForeignFileCanSurvive`).
- A doorbell on an I/O queue ends if and only if its tail is below the queue size
  (`DoorbellEnds`).
- A host that lets more NVMe completions than slots go unread reads the last one that
  went into the slot, or nothing, depending on the number of laps (`PollReads`); while the
  command id it waits for is not used again it reads rightly if and only if at most a whole
  ring is outstanding (`PollIsRight`).
- Virtio ring slots line up across the 16-bit wrap if and only if the queue size
  divides 2^16 (`SlotsLineUp`). A notification stops at a division by zero if and only if
  the size is not zero, its low 16 bits are, and a chain is pending (`ProcessQueue`).
- A virtio write request is answered with success and one byte stored, and what it carries
  goes nowhere (`WriteRequestStores`, `WriteRequestReported`).
- The head an NVMe completion reports is the ring's next head if and only if that does not
  wrap to zero, or the ring has 2^16 slots (`ReportedHead`).
- The clipboard engine drops the error of a write to the host pasteboard, and takes the
  host's counter after it. A copy that lands in between is taken for what was written and
  is never transferred (`RacedCopyIsLost`); a write that failed counts as done and is not
  tried again (`DroppedErrorIsLost`). A run is safe after every step if and only if, each
  time the engine wrote to the host, the host then showed what was written, or nothing,
  under the policy in force (`RunSafe`); under one policy it stays ready to converge if and
  only if each write landed (`RunSteady`). From any state, quiet cycles make both sides
  equal if and only if they are equal or a counter has moved over contents that neither
  hash knows (`QuietCyclesAgreeExactly`).
- The throttle rounds its wait down to whole nanoseconds, so a request can be refused
  once more after a prompt wake-up (`PromptWakeCanFail`, `WokenIsGrantedIff`); two waits
  always do. When a request is granted, the bound on bytes granted holds since every
  earlier instant if and only if that request is no larger than the burst
  (`BoundHoldsExactly`).
- A lease is read with the expiry it was written with if and only if the clock's 64-bit
  count from the year 1 can represent it (`RecordReads`); one within 62135596800 of 2^63
  seconds wraps and reads as long past (`EndlessLeaseIsDropped`).
- A lease block without a single pair makes the whole file unreadable
  (`ReadsBackRendering`), while one without its opening brace is read all the same: a file
  is read if and only if it is in the grammar of `ReadExactly`, and otherwise the error
  names the first line that leaves it (`ErrorsExactly`).
- The header of `oci_remotename.go` gives a digest as `'@' name ':' name`. A name is
  accepted if and only if it is in that grammar and its reference, if a digest, starts
  with `sha256:` (`NewRemoteName`); `h/n@sha512:ab` is in the grammar and is refused
  (`OtherDigestsAreRefused`).

## Model

| member | source | states |
|---|---|---|
| LayerCaches.NewLocalLayerCache | internal/oci/locallayercache.go:34-89 | Indexing fails exactly when a disk layer declares no size; otherwise both maps hold only entries of the manifest's disk layers, each under its own key and at its running offset, no layer is missing, and of layers that share a digest or an offset the last one stands |
| LayerCaches.IndexIsSound | internal/oci/locallayercache.go:62-110 | If the cached disk matches its own manifest, every indexed range lies on the disk and holds the content its digest names |
| LayerCaches.FindInfoFinds | internal/oci/locallayercache.go:91-99 | A digest is found if and only if some cached layer has it: the standing layer at the hinted offset if that has it, otherwise the last layer that does |
| ZeroSkip.ChunkWriteIsOverwrite | internal/oci/oci_layerizer_diskv2.go:359-404 | Writing one chunk, whether by skipping zeros, comparing first or punching a hole, leaves the file exactly as a plain write would |
| ZeroSkip.ZeroSkippedIsOverwrite | internal/oci/oci_layerizer_diskv2.go:359-404 | The whole loop equals one plain write, if comparing is on or the range is zero or right already |
| ZeroSkip.ShortFileFails | internal/oci/oci_layerizer_diskv2.go:378-390 | Comparing fails, and says so, where the file ends within a chunk that is not punched |
| ZeroSkip.ZeroSkippingWrite | internal/oci/oci_layerizer_diskv2.go:359-404 | The loop over a real file computes that specification |
| DiskPull.CacheHitHoldsContent | internal/oci/oci_layerizer_diskv2.go:312-333 | A cache hit, at the hinted offset or by digest, holds the content of the layer it answers for |
| DiskPull.TrustIsEarnedByAClone | internal/oci/oci_layerizer_diskv2.go:315-318 | On a fresh clone, every layer taken without looking is really there |
| DiskPull.ChunkSettles | internal/oci/oci_layerizer_diskv2.go:364-401 | Whatever the range held, one chunk write settles that much more of its layer: the content, or what was there where a whole zero chunk is skipped |
| DiskPull.OthersUndisturbed | internal/oci/oci_layerizer_diskv2.go:247-278 | A write inside one layer's range is invisible to every other worker |
| DiskPull.StepKeepsInv | internal/oci/oci_layerizer_diskv2.go:284-356 | Every atomic step of every worker keeps the invariant of the pull |
| DiskPull.RunKeepsInv | internal/oci/oci_layerizer_diskv2.go:194-356 | So does every schedule |
| DiskPullTheorems.CompletedPull | internal/oci/oci_layerizer_diskv2.go:194-404 | Any schedule, any file found: a completed pull leaves exactly the concatenated layers if and only if every trusted layer was on the disk at the start and, when it does not compare, the file was zero on every whole zero chunk of a layer |
| DiskPullTheorems.ForeignFileCanSurvive | internal/oci/oci_layerizer_diskv2.go:390-398 | A concrete pull that finds another image's file skips a zero chunk over it and completes on a wrong disk |
| DiskPullTheorems.FreshPull | internal/oci/oci_layerizer_diskv2.go:194-404 | With no file found, a completed pull leaves the concatenated layers, in every mode and for every interleaving |
| DiskPullTheorems.EveryStepZeroOrTarget | internal/oci/oci_layerizer_diskv2.go:198-230 | Without deduplication every byte is zero or right after every step, and after a crash that tears the chunks in flight |
| DiskPullTheorems.ResumedPull | internal/oci/oci_layerizer_diskv2.go:194-356 | Any number of interrupted pulls, stopped anywhere, followed by one that completes, leaves exactly the layers |
| DiskPullTheorems.DeduplicatedResumeCanFail | internal/oci/oci_layerizer_diskv2.go:315-318 | A concrete resumed pull with deduplication completes on a wrong disk |
| DiskPull.FetchedExactly | internal/oci/oci_layerizer_diskv2.go:290-344 | A layer is fetched if and only if a resumed pull does not find its content in its place and no cached layer has its digest |
| DiskPullProgress.DownloadSurvivesCuts | internal/oci/oci_layerizer_diskv2.go:335-355 | A worker's download, over any mix of arriving bytes and broken connections, ends with the layer's content to write if it was cut fewer than five times, and fails otherwise |
| DiskPullProgress.CanFinish | internal/oci/oci_layerizer_diskv2.go:239-282 | While no worker has failed, every reachable state has a continuation that completes: no interleaving gets stuck |
| DiskPullProgress.CanComplete | internal/oci/oci_layerizer_diskv2.go:239-344 | Under every schedule that aborts no worker and cuts none more than four times, no worker fails, and some continuation completes the pull |
| DiskPullProgress.AbortFails | internal/oci/oci_layerizer_diskv2.go:266-281 | A worker at work that is aborted fails, and the pull does not complete whatever happens then |
| DiskPullProgress.UndescribedNeverCompletes | internal/oci/oci_layerizer_diskv2.go:254-257 | An image with a layer that does not name the digest of its content is not pulled, under any schedule |
| DiskTransfer.FetchBlob | internal/objcutil/utils.go:94-107 | A download cut any number of times and resumed at the bytes received ends with the blob, exactly when some attempt within the limit completes after network errors only |
| DiskTransfer.WorkerFetches | internal/objcutil/utils.go:94-107 | A worker of a pull, fed the same attempts as the retried download, has the content to write exactly when that recovers, and fails otherwise |
| DiskTransfer.Pull | internal/oci/oci_layerizer_diskv2.go:194-282 | The call as a loop over a schedule: it succeeds exactly when all sizes are declared and all workers finish, and a fresh one leaves the target |
| DiskTransfer.PiecesJoin | internal/oci/oci_layerizer_diskv2.go:117-130 | The pieces a disk is cut into, joined, are the disk |
| DiskTransfer.PieceSizes | internal/oci/oci_layerizer_diskv2.go:117-130 | Every piece of a pushed disk but the last is 512 MiB long, the last is what is left and never empty, and an empty disk has none |
| DiskTransfer.CollectUploads | internal/oci/oci_layerizer_diskv2.go:127-152 | The workers' list has one described layer per finished upload, in the order they finished, or nothing if one failed |
| DiskTransfer.SortedInDiskOrder | internal/oci/oci_layerizer_diskv2.go:154-160 | Whatever order the uploads finished in, sorting by index restores disk order |
| DiskTransfer.Push | internal/oci/oci_layerizer_diskv2.go:88-161 | The layers returned do not depend on the order in which uploads finish |
| DiskTransfer.PushedLayersDescribe | internal/oci/oci_layerizer_diskv2.go:163-190 | The annotations of pushed layers are truthful and the layers describe the disk |
| DiskTransfer.PushThenPull | internal/oci/oci_layerizer_diskv2.go:88-356 | Push, then any series of interrupted pulls, then one that completes: the disk comes back |
| SparseWriters.StreamIsWritten | internal/oci/lume_manifest.go:178-211 | However a stream is cut into writes, over a zero range the file ends up with exactly the stream at its offset |
| SparseWriters.SparseFileWriter.Write | internal/oci/lume_manifest.go:178-193 | The buffering loop computes the specification of a write |
| SparseWriters.EveryInterleavingAssembles | internal/oci/codec_lume_sharded.go:134-200 | Several writers on disjoint ranges within the file leave the same disk under every interleaving, zero between the parts |
| SparseWriters.EveryInterleavingGrows | internal/oci/codec_lume_chunked.go:195-286 | Disjoint chunks may also reach past the declared size: under every interleaving the file holds each chunk at its offset and zeros elsewhere, and its length is the same, the declared size or the end of the farthest non-zero 4 MiB block of any chunk |
| SparseWriters.CanAllClose | internal/oci/lume_manifest.go:178-211 | Whatever the writers have done so far, some continuation closes all of them |
| ShardedDisk.CollectShardedDiskParts | internal/oci/codec_lume_sharded.go:90-130 | Collection succeeds exactly when the manifest describes parts numbered 1 to n, and then their ranges tile the disk |
| ShardedDisk.NumberedManifest | internal/oci/codec_lume_sharded.go:90-130 | Parts that carry the printed numbers 1 to n, among other layers and in any order, describe a disk, whose parts are these in that order |
| ShardedDisk.WholeDiskManifest | internal/oci/codec_lume_sharded.go:108-115 | Without numbered parts a manifest describes a disk if and only if exactly one layer is labelled as a whole disk |
| ShardedDisk.MalformedNumbers | internal/oci/lume_manifest.go:111-125 | Zero, a negative number or a text that is no number refuses the manifest |
| ShardedDisk.ManifestOrderIsIrrelevant | internal/oci/codec_lume_sharded.go:90-130 | Two orders of the same layers either both describe a disk or neither does, and give the same parts at the same places |
| ShardedDisk.AssembledIsConcatenation | internal/oci/codec_lume_sharded.go:134-200 | A disk with every part in its place is the parts in number order, then zeros |
| ShardedDisk.ShardedPull | internal/oci/codec_lume_sharded.go:134-200 | So is the pulled disk, for every interleaving of the part writers |
| Lz4Disk.PullLz4Disk | internal/oci/codec_lume_lz4.go:71-117 | The loop with its running offset and final growth computes the specification |
| Lz4Disk.PulledDisk | internal/oci/codec_lume_lz4.go:71-117 | The disk is the parts end to end, then zeros up to the declared size, even when that size was too small and zero runs past the end were skipped |
| GuestMemory.ReadExactly | internal/hvmm/hvmm.go:58-85 | A read succeeds if and only if the range is not empty and lies within one region, to its last byte, and gives that region's bytes |
| GuestMemory.WriteReadBack | internal/hvmm/hvmm.go:58-85 | What is stored into a mapped range reads back |
| GuestMemory.WriteApart | internal/hvmm/hvmm.go:58-85 | A store changes no byte of any range apart from it |
| GuestMemory.WriteByte | internal/hvmm/hvmm.go:67-85 | After a store, each address holds the stored byte or its old one |
| GuestMemory.Machine.GuestSlice | internal/hvmm/hvmm.go:77-85 | The loop finds the first region that holds the whole range, or none |
| GuestMemory.Machine.WriteGuest | internal/hvmm/hvmm.go:67-74 | A store happens as a whole or not at all, and says which |
| NvmeTransfer.ChunkIsRun | internal/hvmm/nvme.go:378-393 | Each chunk the loop moves is a contiguous run of the buffer the PRPs describe, for any offset of the first page and a last page mapped only as far as it is used |
| NvmePages.AddressIsHosts | internal/hvmm/nvme.go:378-393 | For a buffer over pages that a host has named by two pointers or a list, as the standard says, the controller finds every byte where the host put it |
| NvmePages.NamedIsDescribed | internal/hvmm/nvme.go:353-393 | Such a buffer, mapped as far as it is used, is one that can be moved |
| NvmePages.PagesRoundTrip | internal/hvmm/nvme.go:311-393 | A Write command of one such buffer and a later Read command into another: byte k of the second is byte k of the first |
| NvmeTransfer.WriteGathers | internal/hvmm/nvme.go:353-372 | An NVMe write puts the gathered guest bytes at their place on the disk, run by run as far as a run fits, and changes no other disk byte |
| NvmeTransfer.ReadScatters | internal/hvmm/nvme.go:353-372 | An NVMe read puts the disk bytes into the buffer, in order, and changes no other guest byte |
| NvmeTransfer.WriteThenRead | internal/hvmm/nvme.go:353-393 | Writing from one buffer and reading into another moves the bytes across |
| Bytes.PaddedJoin | internal/hvmm/nvme.go:445-451 | Zero-padded ranges of a disk join up |
| NvmeProtocol.DoorbellEnds | internal/hvmm/nvme.go:294-308 | A doorbell on an I/O queue over mapped memory, whatever becomes of its completions, ends if and only if the tail is below the queue size |
| NvmeProtocol.DoorbellServesRing | internal/hvmm/nvme.go:281-308 | A doorbell executes exactly the commands in the ring, once each and in ring order, across the wrap |
| NvmeProtocol.EntryFields | internal/hvmm/nvme.go:418-428 | A completion entry has result zero, the submission queue and the command id in their places, and a last field that is the phase alone: status zero, success |
| NvmeProtocol.ReportedHead | internal/hvmm/nvme.go:418-428 | The head an entry reports is the ring's next head if and only if that does not wrap to zero, or the field wraps with it |
| NvmeProtocol.PostExtends | internal/hvmm/nvme.go:418-443 | Posting a completion extends what the ring holds by that completion and keeps the ones not yet a lap old |
| NvmeProtocol.PollReadsNext | internal/hvmm/nvme.go:418-434 | A host that polls by phase tag reads exactly the next completion, of its queue and successful, and nothing when there is none |
| NvmeProtocol.PollReads | internal/hvmm/nvme.go:418-434 | However many completions are outstanding, a poll reads the last one that went into its slot if an even number of laps lies in between, otherwise nothing |
| NvmeProtocol.PollIsRight | internal/hvmm/nvme.go:418-434 | While no later completion carries its command id, a pending completion is read rightly if and only if no more are outstanding than slots |
| NvmeProtocol.BatchStands | internal/hvmm/nvme.go:294-349 | Serving a batch completes each of its commands once, in order |
| NvmeLink.SubmitServes | internal/hvmm/nvme.go:281-308 | One submission of any number of commands, with its doorbell, serves them all |
| NvmeLink.RunKeepsInStep | internal/hvmm/nvme.go:281-434 | Over any run of submissions, polls and host stores into buffers and PRP lists, across any number of wraps, what the host has polled is one successful completion for each of a prefix of the commands it submitted, in order |
| NvmeLink.PollingCatchesUp | internal/hvmm/nvme.go:418-434 | As many polls as there are outstanding completions deliver all of them |
| NvmeLink.FreshPairInStep | internal/hvmm/nvme.go:311-349 | A queue pair just created, over a cleared ring, starts in step |
| NvmeCommands.IoDecodes | internal/hvmm/nvme.go:341-349 | What a host encodes in a read or write command, whatever its flags, is what the controller moves: that many 512-byte blocks, at that place, through those PRPs |
| NvmeCommands.CommandsRoundTrip | internal/hvmm/nvme.go:311-393 | A Write command, then anything at all in guest memory, then a Read command into another buffer: that buffer holds the bytes written, and no other disk byte changed |
| NvmeCommands.CreatedPairInStep | internal/hvmm/nvme.go:319-332 | The two Create commands of a host leave exactly the queue pair it asked for, in step with it |
| NvmeCommands.IdentifyControllerReads | internal/hvmm/nvme.go:396-406 | After an Identify Controller command the host's page holds the names, the entry sizes 64 and 16, and one namespace |
| NvmeCommands.IdentifyNamespaceReads | internal/hvmm/nvme.go:407-416 | After an Identify Namespace command it holds the disk's size in blocks, three times, and one format of 2^9 bytes |
| NvmeCommands.IdentifyOtherReads | internal/hvmm/nvme.go:396-416 | Any other structure a host asks for is a page of zeros |
| NvmeStorage.RunSparesByte | internal/hvmm/nvme.go:281-372 | Over any legal run of submissions, polls and host stores, a disk byte that no submitted Write command covers keeps its value |
| NvmeStorage.LastWriteStands | internal/hvmm/nvme.go:281-372 | The last Write command to cover a disk byte decides it, if its buffer is mapped and that run of it fits on the disk: after any run that leaves the byte alone, it is the one the command found in its buffer when its turn came |
| NvmeStorage.WrittenIsReadBack | internal/hvmm/nvme.go:281-393 | A Write command in one batch and, any legal run later that leaves its blocks alone, a Read command of them: the second buffer receives what the first one held |
| NvmeDevice.NvmeController.MoveBlocks | internal/hvmm/nvme.go:353-372 | The copy loop of the controller computes the specified transfer and ends |
| NvmeDevice.NvmeController.ServeQueue | internal/hvmm/nvme.go:294-308 | The doorbell loop refines the specified run |
| NvmeDevice.NvmeController.Doorbell | internal/hvmm/nvme.go:281-290 | Even doorbells serve their queue, odd ones and ones out of range change nothing |
| NvmeDevice.NvmeController.WriteConfiguration | internal/hvmm/nvme.go:216-248 | A rising enable bit makes the admin pair live at its registers, a falling one resets every queue, no edge changes nothing |
| NvmeDevice.NvmeController.WriteRegister | internal/hvmm/nvme.go:216-248 | Each offset of the register block writes its own register, the queue bases a half at a time; a tail doorbell serves its queue; every other offset changes nothing |
| NvmeDevice.DoorbellStride | internal/hvmm/nvme.go:243-290 | Queue q's tail doorbell is at 0x1000 + 8q, for eight queues, and its completion doorbell right after it |
| VirtioQueue.AlignRoundsUp | internal/hvmm/virtioblk.go:253-258 | For a power of two, aligning rounds up to the next multiple |
| VirtioQueue.ReadIsFlat | internal/hvmm/virtioblk.go:187-200 | A read request scatters one flat run of the disk over its buffers, without gaps |
| VirtioProtocol.SlotsLineUp | internal/hvmm/virtioblk.go:144-221 | 16-bit indices address the same slots as running counts if and only if the queue size divides 2^16 |
| VirtioProtocol.PowersOfTwoLineUp | internal/hvmm/virtioblk.go:144-221 | Every power of two up to 2^15 is such a size |
| VirtioProtocol.PublishRecords | internal/hvmm/virtioblk.go:215-221 | Publishing extends the used ring's record by exactly that chain, across the index wrap |
| VirtioRuns.NotifyServesAll | internal/hvmm/virtioblk.go:134-150 | A notification serves exactly the chains offered and not yet served, their number being the 16-bit index difference |
| VirtioRuns.StepKeepsInStep | internal/hvmm/virtioblk.go:134-221 | Every offer, notification and unrelated store keeps device and driver in step |
| VirtioRuns.RunKeepsInStep | internal/hvmm/virtioblk.go:134-221 | Over any legal run the used ring records each offered chain once and in offer order, and its index is the device's own |
| VirtioRuns.ResetInStep | internal/hvmm/virtioblk.go:110-122 | From a reset with zeroed ring indices, device and driver start in step |
| VirtioRuns.DriverReadsNext | internal/hvmm/virtioblk.go:215-221 | A driver with its own 16-bit count learns how many entries are new, and reads the next served chain |
| VirtioRuns.ServedBuffersHold | internal/hvmm/virtioblk.go:154-204 | After a chain is served, each mapped buffer not overlapped by a later one holds what was stored there |
| VirtioRequests.ChainReadsTable | internal/hvmm/virtioblk.go:155-173 | Over a descriptor table laid out as the standard says, the walk gives exactly that chain, cut off at the queue's limit |
| VirtioRequests.ReadRequestStores | internal/hvmm/virtioblk.go:174-204 | Serving a read request stores the disk from its sector on into its buffers, then the status byte |
| VirtioRequests.ReadRequestDelivers | internal/hvmm/virtioblk.go:134-221 | After it is served, the driver's buffers, joined, are the disk from the sector on, zero past its end |
| VirtioRequests.ReadRequestReported | internal/hvmm/virtioblk.go:187-221 | It is reported in the used ring's next entry with its head and the bytes stored, the status byte included |
| VirtioRequests.WriteRequestStores | internal/hvmm/virtioblk.go:187-204 | Serving a write request stores the status byte and nothing else: what it carries is dropped |
| VirtioRequests.WriteRequestReported | internal/hvmm/virtioblk.go:187-221 | It is reported all the same as one byte stored, with a status of success |
| VirtioRequests.BrokenRequestStores | internal/hvmm/virtioblk.go:174-183 | A chain without a status byte, or with a header that cannot be read, stores nothing and is reported with no bytes |
| VirtioBlkDevice.VirtioBlk.GatherChain | internal/hvmm/virtioblk.go:155-173 | The walk follows next links and stops after as many descriptors as the queue has |
| VirtioBlkDevice.VirtioBlk.ServiceChain | internal/hvmm/virtioblk.go:154-204 | Serving a chain stores and reports exactly what is specified; short chains and unreadable headers store nothing |
| VirtioBlkDevice.VirtioBlk.ProcessQueue | internal/hvmm/virtioblk.go:134-150 | The loop serves as many chains as the index difference modulo 2^16, then raises the interrupt bit; an unset queue changes nothing; it stops at a division by zero, before the first chain, exactly when one is pending and the low 16 bits of the size are zero |
| VirtioBlkDevice.VirtioBlk.WriteRegister | internal/hvmm/virtioblk.go:96-123 | Each register write changes its own register and no other; a zero status resets the queue; a notification runs the queue |
| VirtioDrivers.RingsAreLegacy | internal/hvmm/virtioblk.go:138-140 | With a power of two for alignment, the device looks for the descriptors, the available ring and the used ring where the legacy layout puts them, the used ring at the least multiple of the alignment |
| VirtioDrivers.SetUp | internal/hvmm/virtioblk.go:96-111 | A driver's four register writes bring that about and touch no memory |
| VirtioDrivers.NotifyDevice | internal/hvmm/virtioblk.go:112-150 | A driver that lays out its rings by the legacy formula, fills them and writes QueueNotify has every offered chain served and recorded in the used ring it reads |
| CfiFlash.TraceIsParsed | internal/hvmm/cfiflash.go:61-107 | The command machine asks of the array exactly what the list of writes spells, read as setup, operand, count and data: its modes never lose step |
| CfiFlash.RunRefinesNor | internal/hvmm/cfiflash.go:48-116 | Any run of writes does to every bit exactly what an ideal NOR array does with the operations they spell |
| CfiFlash.BitsOnlyFall | internal/hvmm/cfiflash.go:61-116 | Without a confirmed erase of its block, a bit that is 0 stays 0 |
| CfiFlash.ArrayNeedsCommand | internal/hvmm/cfiflash.go:48-107 | After any run, reads return the array if and only if the last write was taken as a command, and as Read Array or Clear Status |
| CfiFlash.PollsReady | internal/hvmm/cfiflash.go:38-51 | Outside array mode a read shows both chips ready: bit 7 of each half and no other bit |
| CfiFlash.ReadsArray | internal/hvmm/cfiflash.go:52-58 | In array mode a read is the little-endian value of the bytes there, zero past the end |
| CfiFlash.WordProgram | internal/hvmm/cfiflash.go:61-66 | A word program lowers the bits of the bytes it covers to those of its value, lowest byte first, and touches no other byte |
| CfiFlash.EraseClearsBlock | internal/hvmm/cfiflash.go:77-83 | A confirmed erase sets the 256 KiB block around the confirming write and nothing else; an unconfirmed one does nothing |
| CfiFlash.BufferedProgram | internal/hvmm/cfiflash.go:67-76 | A buffered program takes exactly count + 1 writes as data, even ones that look like commands, and then takes commands again |
| CfiFlash.ProgramAllBit | internal/hvmm/cfiflash.go:110-116 | A programmed bit is set exactly if it was set and every covering write has it set |
| CfiFlash.ProgramsCommute | internal/hvmm/cfiflash.go:110-116 | The order of two programs does not matter |
| CfiFlash.EraseProgramRead | internal/hvmm/cfiflash.go:48-116 | Erase a block, program a word, return to the array: the word reads back |
| CfiFlash.FlashDevice.ReadBus | internal/hvmm/cfiflash.go:48-59 | A read gives the ready pattern outside array mode, otherwise the little-endian bytes, zero past the end |
| CfiFlash.FlashDevice.ProgramBytes | internal/hvmm/cfiflash.go:110-116 | Clears bits of the covered bytes in place and touches no other |
| CfiFlash.FlashDevice.EraseBlock | internal/hvmm/cfiflash.go:77-83 | Sets exactly the containing 256 KiB block to 0xFF |
| FwCfg.MixIsOneStream | internal/hvmm/fwcfg.go:107-172 | Any mix of register reads of any widths, DMA reads and DMA skips passes over one zero-padded stream without gaps or repeats |
| FwCfg.SelectedStream | internal/hvmm/fwcfg.go:90-102 | After a select the stream starts at the item's first byte |
| FwCfg.DataReadReturns | internal/hvmm/fwcfg.go:157-172 | A register read returns its part of the stream, first byte lowest |
| FwCfg.DmaReadDelivers | internal/hvmm/fwcfg.go:107-141 | A DMA read leaves its part of the stream in the guest's buffer: from the start of the item it selects, or from where the stream was |
| FwCfgGuests.ReadBit | internal/hvmm/fwcfg.go:56-141 | A descriptor in guest memory whose control word has bit 1 leaves that much of the item in the buffer and moves the stream on; bit 3 selects the item of the upper half first |
| FwCfgGuests.SelectAndRead | internal/hvmm/fwcfg.go:56-141 | The word 0x0A under a selector leaves that item, from its start, in the buffer |
| FwCfgGuests.WriteBit | internal/hvmm/fwcfg.go:56-155 | Bit 4, without bit 1, puts the buffer into the selected file as far as the file reaches, and into no other |
| FwCfgGuests.SkipBit | internal/hvmm/fwcfg.go:56-141 | Bit 2, without bits 1 and 4, moves the stream on and stores nothing but the cleared control word |
| FwCfgGuests.NoBit | internal/hvmm/fwcfg.go:56-141 | Without these bits a descriptor at most selects |
| FwCfgGuests.RegisterSelects | internal/hvmm/fwcfg.go:90-94 | Writing a big-endian selector to the register starts that item |
| FwCfgGuests.ItemsAre | internal/hvmm/fwcfg.go:174-190 | Item 0 is the signature, item 1 says whether there is DMA, item 0x19 is the directory, the files follow from 0x20 on, and there is nothing else |
| FwCfgGuests.SignatureReads | internal/hvmm/fwcfg.go:90-190 | A guest that selects item 0 and reads four bytes has the signature |
| FwCfgGuests.OtherRegistersReadZero | internal/hvmm/fwcfg.go:157-160 | Every register but the data register reads as zero and moves nothing |
| FwCfgGuests.OtherRegistersIgnored | internal/hvmm/fwcfg.go:90-102 | Writes to other offsets are ignored, and the first half of an address waits for the second |
| FwCfg.DmaCompletes | internal/hvmm/fwcfg.go:107-141 | Whatever a readable descriptor asks for, its control word is zero afterwards |
| FwCfg.SelectorBigEndian | internal/hvmm/fwcfg.go:92-94 | A selector written in big-endian order is the one selected |
| FwCfg.HalvesAreOne | internal/hvmm/fwcfg.go:95-101 | Writing the descriptor address in two halves or as a whole runs the same transfer |
| FwCfg.WriteItemStores | internal/hvmm/fwcfg.go:144-155 | A DMA write changes the covered bytes of its own file and nothing else |
| FwCfg.DirectoryDecodes | internal/hvmm/fwcfg.go:77-88 | Decoding the directory gives every file's name, size and selector |
| FwCfg.RunKeepsDirectory | internal/hvmm/fwcfg.go:64-88 | Over any run, DMA writes included, the directory served is that of the files served |
| FwCfg.DirectoryServes | internal/hvmm/fwcfg.go:77-190 | In every reachable state an entry's selector serves that many bytes of that file |
| FwCfg.FwCfgDevice.BuildDirectory | internal/hvmm/fwcfg.go:77-88 | The append loop builds the specified directory |
| FwCfg.FwCfgDevice.ReadBus | internal/hvmm/fwcfg.go:157-172 | The byte loop computes the specified read and moves the offset |
| FwCfg.FwCfgDevice.RunDma | internal/hvmm/fwcfg.go:107-141 | The descriptor is processed as specified: select, then read, write or skip, then the control word is cleared |
| DeviceTree.MarshalRoundTrip | internal/hvmm/fdt.go:90-145 | A reader written from the Devicetree Specification sections 5.2 to 5.5, with that standard's tokens and offsets, recovers every tree with NUL-free names from its blob, and processor 0 to boot |
| DeviceTree.CellsRoundTrip | internal/hvmm/fdt.go:49-56 | Big-endian cells decode to the numbers they were made from |
| DeviceTree.RegCellsRoundTrip | internal/hvmm/fdt.go:58-66 | Address and size values decode, two cells each, to the numbers they were made from |
| DeviceTree.StringListRoundTrip | internal/hvmm/fdt.go:72-79 | A string list decodes to its strings |
| DeviceTree.StrOffGood | internal/hvmm/fdt.go:91-101 | A shared string keeps its offset, a new one is appended, and every offset given out stays right |
| DeviceTree.Serializer.Emit | internal/hvmm/fdt.go:103-121 | The recursive emitter grows structure and strings as specified |
| DeviceTree.Serializer.Marshal | internal/hvmm/fdt.go:90-145 | The whole serializer computes the specified blob |
| ClipboardPolicies.ShowsExactly | internal/clipboard/macpb/pasteboard.go:42-77 | What a side shows under a policy: the permitted files, in order; if there are none, the first permitted item of each format, in order; nothing else |
| ClipboardPolicies.RunCrossesPermitted | internal/clipboard/engine.go:302-382 | Over every run, whatever crosses holds only items of permitted formats with 1 to the permitted number of bytes, or only permitted files within it, under the policy in force when it crosses |
| ClipboardPolicies.RunLeavesGuestAlone | internal/clipboardpolicy/policy.go:82-84 | While every policy in force is switched off or from guest to host only, nothing is sent to the guest, whose board only its users change |
| ClipboardPolicies.RunLeavesHostAlone | internal/clipboardpolicy/policy.go:87-89 | While every policy in force is switched off or from host to guest only, nothing is sent to the host, whose board only its users change |
| ClipboardPolicies.QuietCycleSends | internal/clipboard/engine.go:302-382 | A cycle without failures sends what is new on the host if the policy lets it, otherwise fetches what is new on the guest if the policy lets it, otherwise moves nothing |
| ClipboardPolicies.UnreachedCycle | internal/clipboard/engine.go:302-310 | Without a connection and with the agent out of reach a cycle only takes note of the policy |
| ClipboardPolicies.DroppedPushEndsCycle | internal/clipboard/engine.go:327-350 | A push whose link drops is not logged or remembered, ends the cycle, and has to be dialled again |
| ClipboardPolicies.AnsweredPushRemembered | internal/clipboard/engine.go:333-341 | A push that is answered is remembered: the counter, both hashes, and no failures |
| ClipboardPolicies.StartSendsNothing | internal/clipboard/engine.go:241-250 | An engine starts unconnected, and what the host showed at the start is not sent |
| ClipboardPolicies.PolicyTakesEffect | internal/clipboard/engine.go:269-306 | A requested policy is in force from the next cycle on |
| ClipboardPolicies.HostCopyReaches | internal/clipboard/engine.go:302-345 | What a user copies on the host is on the guest one cycle without failures later, if the policy lets it and it is new |
| ClipboardPolicies.GuestCopyReaches | internal/clipboard/engine.go:302-405 | Likewise for a copy on the guest, when the host has nothing to send |
| Clipboard.RunSafe | internal/clipboard/engine.go:241-405 | Over any run, with failures, racing copies and live policy changes: after every step both stored hashes are equal, and a side whose counter is current shows nothing, or exactly what the hash stands for, under the policy in force when that counter was accepted, if and only if after each write to the host the host showed what was written, or nothing |
| Clipboard.HostCountAdvances | internal/clipboard/engine.go:319-405 | The host counter advances only if its contents were delivered, empty or known, or the guest's were written to it, and then what it shows is accounted for if and only if it is what was written, or nothing |
| Clipboard.GuestCountAdvances | internal/clipboard/engine.go:347-405 | The guest counter advances only if its contents were empty or known, or a write of them to the host was tried, and they crossed if and only if it succeeded |
| Clipboard.FailedPushStaysPending | internal/clipboard/engine.go:327-381 | A push that was not delivered leaves counter and hashes alone, so it is tried again, if and only if the same cycle does not go on to write the guest's contents to the host |
| Clipboard.QuietCycleAgrees | internal/clipboard/engine.go:302-382 | One cycle without user copies makes both sides equal with at most one transfer |
| Clipboard.QuietRunConverges | internal/clipboard/engine.go:302-405 | From a steady state quiet cycles make both sides equal at once, and from the second on nothing changes: no echo |
| Clipboard.QuietCyclesAgreeExactly | internal/clipboard/engine.go:302-405 | From any state that runs under one bidirectional policy can reach, whatever was lost, quiet cycles make both sides equal if and only if they are equal or some counter has moved over contents that are news |
| Clipboard.WriteIsFinal | internal/clipboard/engine.go:400-405 | After a write to the host, however it ended, all later quiet cycles change nothing, and both sides are equal if and only if it landed |
| Clipboard.RacedCopyIsLost | internal/clipboard/engine.go:400-405 | A concrete copy between the write and the reading of the counter is never transferred, and no number of quiet cycles makes the sides equal |
| Clipboard.DroppedErrorIsLost | internal/clipboard/macpb/pasteboard.go:82-115 | A concrete write that fails, before or after the pasteboard is cleared, advances the guest's counter with nothing crossed, and no number of quiet cycles makes the sides equal |
| Clipboard.RunSteady | internal/clipboard/engine.go:302-405 | What convergence needs is kept throughout a run under one bidirectional policy if and only if every write to the host landed |
| Clipboard.InitSteady | internal/clipboard/engine.go:241-250 | The engine's start establishes it when the guest's counter is not zero |
| Clipboard.TransfersArePaidFor | internal/clipboard/engine.go:302-382 | Over any run the number of transfers is bounded by user copies, lost acknowledgements and policy changes |
| Clipboard.StartedRun | internal/clipboard/engine.go:241-405 | From the engine's start, over every run: it is safe throughout if and only if every write held up, and at most one payload crosses beyond those that copies, lost acknowledgements and policy changes pay for |
| Clipboard.StartedRunConverges | internal/clipboard/engine.go:241-405 | From the engine's start, after any run under one bidirectional policy whose writes landed, quiet cycles make both sides equal |
| ClipboardEngine.Engine.SyncOnce | internal/clipboard/engine.go:302-405 | A whole cycle refines the specified one, and from a safe state ends safe if and only if it held up |
| TokenBucket.GrantedIsBounded | internal/clipboard/bandwidth.go:47-81 | Whenever a request no larger than the burst is granted, all bytes granted since any earlier instant are at most the burst plus rate times elapsed, whatever competes |
| TokenBucket.RunIsPaidFor | internal/clipboard/bandwidth.go:53-66 | Granted bytes are paid for by the initial level, the refill and the debt left |
| TokenBucket.BoundHoldsExactly | internal/clipboard/bandwidth.go:47-81 | For every run and every granted last request: what was granted since each earlier instant keeps to burst plus rate times elapsed if and only if that request is no larger than the burst |
| TokenBucket.WokenIsGrantedIff | internal/clipboard/bandwidth.go:53-80 | A refused request, woken without competitors, is granted exactly if the refill covers what was missing |
| TokenBucket.OneWaitSuffices | internal/clipboard/bandwidth.go:67-80 | Waking one nanosecond after the computed wait is always late enough |
| TokenBucket.PromptWakeCanFail | internal/clipboard/bandwidth.go:67-80 | Waking exactly after the computed wait can be too early |
| TokenBucket.TwoWaitsSuffice | internal/clipboard/bandwidth.go:67-80 | A second wait, of one millisecond, always suffices |
| TokenBucket.ThirdWakeGrants | internal/clipboard/bandwidth.go:52-80 | With no one in between, a request that sleeps as long as it computed is granted by its third wake-up |
| TokenBucket.Limiter.WaitN | internal/clipboard/bandwidth.go:47-81 | Over any instants at which it wakes, the loop grants at the first one the specification grants; a request for nothing returns at once |
| TokenBucket.BudgetIsShare | internal/clipboardpolicy/policy.go:99-109 | The budget is the declared percentage, at most all, of the session's megabits, rounded down to bytes; there is no limit if and only if either is not positive |
| TokenBucket.OneSecondAtOnce | internal/clipboard/bandwidth.go:29-40 | A fresh limiter grants one second of budget at once, and then more exactly when the budget has gained it |
| TokenBucket.FreshIsBounded | internal/clipboard/bandwidth.go:29-81 | From a fresh limiter, when a fitting request is granted, no more has been granted than the budget of one second and the time passed |
| RemoteNames.Alphabet | internal/oci/oci_remotename.go:153-159 | The letters, digits and separators of the grammar are those of ASCII |
| RemoteNames.IsHost | internal/oci/oci_remotename.go:185-197 | Accepts exactly the grammar's hosts |
| RemoteNames.IsTag | internal/oci/oci_remotename.go:200-213 | Accepts exactly the grammar's tags |
| RemoteNames.IsNamespace | internal/oci/oci_remotename.go:219-237 | Accepts exactly the grammar's namespaces |
| RemoteNames.NewRemoteName | internal/oci/oci_remotename.go:89-151 | Accepts exactly the names of the header's grammar whose digest, if any, starts with `sha256:`, and returns what they denote; what it returns parses back from its print |
| RemoteNames.DenotesOne | internal/oci/oci_remotename.go:6-14 | The header's grammar is unambiguous, digests of every kind included |
| RemoteNames.OtherDigestsAreRefused | internal/oci/oci_remotename.go:137-139 | A concrete name with a digest of another kind is in the header's grammar and is refused |
| RemoteNames.PrintedNameDenotes | internal/oci/oci_remotename.go:73-75 | Printing what a name denotes gives a name that denotes the same |
| Leases.RetrieveRawLeases | internal/macaddress/macaddressresolver_leases.go:74-127 | The line loop computes the specified machine, errors and line numbers included |
| LeaseGrammar.ReadExactly | internal/macaddress/macaddressresolver_leases.go:74-127 | A file is read, and as these leases, if and only if its lines that are not blank are these leases in a grammar: an optional opening brace, one or more pairs, a closing brace |
| LeaseGrammar.ErrorsExactly | internal/macaddress/macaddressresolver_leases.go:74-127 | The reported line is the first that no lease file continues, and a file is truncated if and only if it could go on to be one but is none |
| Leases.ReadsBackRendering | internal/macaddress/macaddressresolver_leases.go:74-127 | Reading the rendering of any list of blocks recovers it, exactly if no block is empty |
| Leases.NewLeases | internal/macaddress/macaddressresolver_leases.go:53-71 | The table holds, for every address, exactly the unexpired lease that expires last, the first of those on a tie |
| Leases.ResolveIsSearch | internal/macaddress/macaddressresolver_leases.go:130-133 | Looking an address up equals a search of all leases: found exactly if some unexpired lease has it |
| Leases.MacRoundTrip | internal/macaddress/macaddressresolver_macaddress.go:18-38 | Reading a printed address gives it back |
| LeaseGrammar.MacExactly | internal/macaddress/macaddressresolver_macaddress.go:18-33 | A text is an address if and only if it is six hexadecimal numbers below 256, of any number of digits and either case, joined by colons |
| LeaseGrammar.OtherHardwareIsRefused | internal/macaddress/macaddressresolver_lease.go:38-46 | Hardware of a number other than 1 is no lease |
| LeaseGrammar.NamedHardwareIsEthernet | internal/macaddress/macaddressresolver_lease.go:38-46 | Hardware named by a text that is no number is read as number 1 is |
| LeaseFiles.RecordReads | internal/macaddress/macaddressresolver_lease.go:24-69 | A record as the server writes it is read as its address, IP and the instant the clock makes of its expiry, and as it was meant if and only if the clock can represent that expiry |
| LeaseFiles.EndlessLeaseIsDropped | internal/macaddress/macaddressresolver_lease.go:59-69 | A record with the largest 63-bit expiry is read as one that ended before the year 1 |
| LeaseFiles.FileReads | internal/macaddress/macaddressresolver_leases.go:53-127 | Reading a written file gives its leases, one for each record and in order |
| LeaseFiles.ResolvesInFile | internal/macaddress/macaddressresolver_leases.go:53-133 | Resolving an address in a written file finds the record whose expiry, as the clock represents it, is still ahead and comes last, the first of those on a tie, or nothing |

## Left out

- Integer widths: guest addresses, disk offsets and sizes are unbounded naturals, so 64-bit wrap-around (`sector * 512`, `queuePFN * guestPageSize`, `slba << 9`, running layer offsets) is not modelled; 16- and 32-bit wraps that matter (ring indices, written lengths, flash counts, selectors) are.
- Guest memory regions are byte strings held by value: two regions that share host memory are not modelled.
- SHA-256 and the clipboard's payload hash are injective functions; LZ4 and gzip are inverses of their compressors; a registry returns the blob a digest names or fails.
- Crash safety of deduplicated pulls, and of pulls that find another image's file: not properties of the code (see `CompletedPull` and its counterexamples).
- DiskPull: the network decides how much arrives and when it fails; a worker that opens its files fails only through its `Abort` step, and error messages and progress reporting are absent.
- DiskTransfer.Push: the chunk size is the fixed layer limit; chunked uploads to the registry and their retries are transport.
- NvmeProtocol.DoorbellEnds: does not cover the admin queue, whose commands may re-create it while it is drained.
- Lume chunked images: placement and interleaving only; the order of errors in the gzip pipe, overlapping chunks and the parsing of annotations are absent.
- NVMe: MSI-X, PCI configuration space, the capability registers, admin commands that re-create the queue being drained, and PRP lists that continue on a second list page, which the code reads as one contiguous array too.
- VirtioBlkDevice.VirtioBlk.ServiceChain: guest-to-disk requests read the buffer and drop it, because the code copies into a fresh slice; persistence of guest writes is not claimed.
- VirtioBlkDevice.VirtioBlk.WriteRegister: feature selectors, the queue selector and the read-only registers latch or return constants and are absent.
- VirtioRuns: the driver's obligations (a queue size below 2^16 that divides it, no more chains outstanding than slots, no buffer over a ring) are conditions on the run, since nothing in the device checks them.
- CFI flash: the unused buffer fields of the device.
- FwCfg: the notification of the display when `etc/ramfb` is written, and the contents of the ACPI tables.
- DeviceTree: nodes are values, so the builder's parent pointers are absent; a tree has to fit the format's 32-bit offsets, and names have to be free of NUL bytes. The contents of the machine's tree are a finite table.
- Clipboard: a policy arrives as the formats it permits, its cap and its budget; the agent of the guest reads its pasteboard as the host does; the agent's dialling, health report, transfer gate and logging; how a pasteboard write ends is an input of the run, and the pasteboard's own normalisation of contents is the identity.
- TokenBucket: durations and tokens are reals, so floating-point rounding is absent, as is the overflow of a wait longer than 292 years.
- Leases.NewLeases: the IPv4 parser is a parameter; the lease file is given as text.
- Locks and goroutines appear only as interleavings of atomic steps.
- The command line, HTTP, gRPC and MCP adapters, registry transport and authentication, settings, logging, telemetry, vCPU loops, interrupt delivery and snapshots.
