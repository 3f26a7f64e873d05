# Verified model of the RISC-V and DRM uAPI headers

The repository packages a RISC-V toolchain together with the Linux UAPI headers it compiles
against. This project models the logic those headers contain and proves what user space and
drivers rely on. `dafny verify dfyconfig.toml` checks everything.

Two kinds of source are modelled. Macros, inline functions and struct declarations are
transcribed operator by operator: C words are naturals with the bitwise operators of
`Bits.dfy`, truncation to 32 or 64 bits is written out, and struct layout is computed from the
field lists. Where a header only documents a format or a contract (the Asahi command buffer and
its barriers, DRM event reads, QAIC messages, versioned objects, Panthor VMs and groups), the
rules are taken from the cited comments and nothing else; scheduling, timing and failures are
then arbitrary, so the results hold for every schedule.

| files | subject |
|---|---|
| `Bits`, `PackedFields`, `AmdModifiers`, `Modifiers`, `Ioctl`, `Pmu`, `ExecBuffer` | packed words |
| `BitStore`, `KvmBitmap`, `Topology`, `FormatWindows`, `ParallelSubmit` | bitmaps and flattened grids |
| `Layout`, `RiscvAbi`, `WireSizes` | C ABI layout |
| `Bytes`, `Records`, `Versioned`, `Qaic`, `DrmEvents`, `AsahiCmdbuf` | byte formats |
| `AsahiQueue`, `AsahiRuns`, `Panthor`, `PanthorRuns` | state machines over whole runs |

Reading choices:

- The header does not say whether an Asahi barrier of N > 0 also waits for earlier submits, as a
  barrier of 0 does, or for commands of the own submit only. The reading is a parameter of the
  queue, and every result is proved for both.
- Commands may start in any order their barriers allow, overlap, and finish out of order; the
  header promises no order beyond the barriers.
- The comment above the Broadcom macros gives 32 type bits and 24 parameter bits; the macros use
  8 and 48. The macros are modelled.
- The NVIDIA comment lists bit 25 both in the compression field and in the reserved bits; the
  macro puts the three compression bits at 23 to 25, and that is modelled.
- A Panthor bind operation still queued when its VM becomes unusable counts as a new operation
  when it is executed: maps are dropped, unmaps happen.
- A VM is itself only: an id may be given to another VM after a destroy, but an exclusive buffer
  and a group belong to the VM that had the id when they were created. Serial numbers, which the
  driver's calls never show, tell the VMs apart.
- A VM may become unusable for any reason, not only by a failing queued operation.
- The header does not say what a fatal fault does to a group that a reset has already killed as
  INNOCENT. Whether it clears the mark is a parameter, and the group results hold for both.

Results on things that turn out false come with the exact condition: the unmasked
`AMD_FMT_MOD_SET` (`UpdateReadsBack`, `UpdateKeepsRest`), the Broadcom parameter cast
(`BroadcomParamExact`), the vendor-blind NVIDIA canonicalizer (`CanonicalizeFixes`), strides that
are too small (`StrideExact`), barriers that are not checked (`CompletionExact`), the documented
condition on INNOCENT when a later fault does not clear it (`FlagsExact`, `FaultAfterReset`).

## Model

| member | source | states |
|---|---|---|
| `AsahiRuns.RunsExact` | linux-headers/include/drm/asahi_drm.h:656-689 | The runs of the device are exactly the sequences of submits, starts and finishes that the header's rules allow, stated on the submitted command lists alone, without any queue: valid barriers, every named command finished before a start, one start and one finish per command |
| `AsahiRuns.NextSteps` | linux-headers/include/drm/asahi_drm.h:656-689 | After every run, a submitted command may start exactly when it has not started and every command its own two barriers name has finished (the first N of that subqueue in its submit; all earlier ones for 0), and may finish exactly when it runs |
| `AsahiRuns.StartsAfterNamed` | linux-headers/include/drm/asahi_drm.h:656-689 | In every run, whenever a command starts, every command its barriers name was submitted no later and finished in between |
| `AsahiRuns.QueuedAs` | linux-headers/include/drm/asahi_drm.h:656-717 | A submit appends its hardware commands in order, each with its own subqueue and its own two barriers, waiting; older entries keep their place and state |
| `AsahiQueue.StartsAfterCovered` | linux-headers/include/drm/asahi_drm.h:656-689 | The same for queue entries: in every run from an empty queue, over any number of submits, under any schedule and either reading, an entry starts only after every entry its barriers cover has finished at an earlier step |
| `AsahiQueue.BarrierMeans` | linux-headers/include/drm/asahi_drm.h:656-680 | What a barrier covers, counted independently of the waiting rule: NONE covers nothing; 0 covers all earlier work on that subqueue and nothing of the own submit; N covers exactly the first N commands of the submit there, or all of them if there are fewer, and earlier submits only under the cumulative reading |
| `AsahiQueue.RunKeeps` | linux-headers/include/drm/asahi_drm.h:656-689 | Every step of every run keeps the invariant: jobs of accepted submits wait only backwards, and every command that has started had everything it waits for finished |
| `AsahiQueue.RuleExcludesStuck` | linux-headers/include/drm/asahi_drm.h:660-680 | In every reachable state of accepted submits no set of waiting commands waits for itself |
| `AsahiQueue.OldestMoves` | linux-headers/include/drm/asahi_drm.h:660-689 | Serving the queue in order never blocks: in every reachable state the oldest unfinished command may start, or finish if it runs |
| `AsahiQueue.Progress` | linux-headers/include/drm/asahi_drm.h:660-689 | Deadlock freedom: every reachable unfinished state has an oldest unfinished command, and its step is enabled |
| `AsahiQueue.RunsTerminate` | linux-headers/include/drm/asahi_drm.h:660-689 | Between submits every schedule takes exactly one step per unit of remaining work and has finished every command exactly when it has taken them all, so none runs for ever, and a schedule that cannot go on has finished |
| `AsahiQueue.CompletionExact` | linux-headers/include/drm/asahi_drm.h:656-689 | For arbitrary barriers, checked or not, some run completes the queue, with or without further submits, if and only if no set of its commands waits for itself |
| `AsahiQueue.StuckForever` | linux-headers/include/drm/asahi_drm.h:656-689 | Commands that wait for each other wait in every run, whatever is submitted later |
| `AsahiQueue.OverlongNeverRuns` | linux-headers/include/drm/asahi_drm.h:674-680 | A command whose own-subqueue barrier counts past the commands before it never starts in any run, whatever is submitted later: the validity rule is needed |
| `AsahiQueue.OverlongCoversItself` | linux-headers/include/drm/asahi_drm.h:674-680 | A command waits for itself exactly when its own-subqueue barrier breaks the validity rule |
| `AsahiQueue.AcceptedMaySubmit` | linux-headers/include/drm/asahi_drm.h:692-717 | The commands of any buffer the driver accepts may be queued: parser and queue agree on the barrier rule |
| `AsahiQueue.Queue.SubmitCommands` | linux-headers/include/drm/asahi_drm.h:656-717 | The queue object takes a submit exactly when its barriers are valid and then holds the abstract next state |
| `AsahiQueue.Queue.StartJob` | linux-headers/include/drm/asahi_drm.h:656-680 | The scan over the queue starts a command exactly when it waits and everything it covers is done; otherwise nothing changes |
| `AsahiQueue.Queue.FinishJob` | linux-headers/include/drm/asahi_drm.h:656-680 | A running command finishes; the invariant is kept |
| `AsahiCmdbuf.ParseExact` | linux-headers/include/drm/asahi_drm.h:639-717 | A buffer parses to a list of commands if and only if it is the printing of that list and every field fits its header: round trip in both directions, no byte skipped or left over |
| `AsahiCmdbuf.CommandOnWire` | linux-headers/include/drm/asahi_drm.h:639-689 | The bytes of a command, field by field: cmd_type 0 to 4, size, both barriers (NONE for attachment commands) as little-endian 16-bit integers at 0, 2, 4 and 6, then the payload |
| `AsahiCmdbuf.AttachmentOnWire` | linux-headers/include/drm/asahi_drm.h:744-768 | Attachment k is bytes 24k to 24k + 24 of the payload: pointer, size and zeros |
| `AsahiCmdbuf.ParsePrefix` | linux-headers/include/drm/asahi_drm.h:703-717 | Commands read so far and the rest of the buffer parse independently |
| `AsahiCmdbuf.SubmitOfPrint` | linux-headers/include/drm/asahi_drm.h:639-717 | Any printed command list reaches the driver as its normal form under the documented checks or is refused; `SubmitMeans` says what the checks and the normal form are |
| `AsahiCmdbuf.SubmitMeans` | linux-headers/include/drm/asahi_drm.h:643-717 | In the header's own terms: a printed list is accepted exactly when nothing beyond the driver's render or compute struct is nonzero, every barrier is NONE or counts no more than the earlier commands of that subqueue, and attachments and commands are within the limits; then every payload arrives in the driver's struct size with its written bytes and zeros for truncated ones, and all else unchanged |
| `AsahiCmdbuf.SubmitSound` | linux-headers/include/drm/asahi_drm.h:703-717 | Every accepted buffer is the printing of commands that pass every check |
| `AsahiCmdbuf.SameVersionRoundTrip` | linux-headers/include/drm/asahi_drm.h:643-655 | With payloads of the driver's own size the commands arrive unchanged |
| `AsahiCmdbuf.SubmitPass` | linux-headers/include/drm/asahi_drm.h:656-717 | The single pass with two running subqueue counters and early exit gives the verdict and the commands of the staged definition, for every buffer |
| `AsahiCmdbuf.NormalizeKeepsBarriers` | linux-headers/include/drm/asahi_drm.h:643-680 | Zero-extending payloads changes no barrier and no subqueue count |
| `AsahiCmdbuf.PrintParseAttachments` | linux-headers/include/drm/asahi_drm.h:651-655 | An accepted attachment payload is exactly 24 bytes per attachment, so the count is size divided by the struct size, and it prints back to the same bytes |
| `AsahiCmdbuf.ParsePrintAttachments` | linux-headers/include/drm/asahi_drm.h:744-768 | Attachments read back as written |
| `Bytes.LowBytesFirst` | linux-headers/include/drm/asahi_drm.h:639-689 | Integers are little endian: the bytes that come first are the less significant ones |
| `WireSizes.WireSizesAreSizeof` | linux-headers/include/drm/asahi_drm.h:639-768 | The 8-byte and 24-byte units of the wire formats are the sizes the C layout gives their structs |
| `Versioned.CopyInMeans` | linux-headers/include/drm/panthor_drm.h:31-38 | An object is accepted exactly when its unknown tail is zero, and is then cut or zero-extended |
| `Versioned.ChainExact` | linux-headers/include/drm/panthor_drm.h:26-38 | Handed through any chain of versions, an object is accepted if and only if its bytes beyond the oldest version are zero, and the last reader sees what a direct read would give |
| `Versioned.ChainKeeps` | linux-headers/include/drm/asahi_drm.h:31-43 | Every byte all versions of a chain know survives the chain |
| `Versioned.ReadArrayExact` | linux-headers/include/drm/panthor_drm.h:140-170 | Reading an array whose stride differs from the reader's struct: all objects or none, each cut or zero-extended in place |
| `Versioned.QueryAgreesWithCopy` | linux-headers/include/drm/panthor_drm.h:392-410 | A device query into zeroed memory leaves what a versioned copy of the driver's structure would, whichever side is older; nothing past the caller's size changes and the size field becomes the number of bytes copied |
| `Versioned.QueryTwice` | linux-headers/include/drm/panthor_drm.h:392-410 | A NULL pointer returns the structure size and copies nothing; a second call with that size returns the whole structure |
| `Versioned.QueryExtends` | linux-headers/include/drm/panthor_drm.h:392-401 | Fields added to a query type change nothing for a caller that does not know them |
| `Layout.LayoutSound` | linux-headers/include/asm/ptrace.h:59-112 | For every nesting of structs, unions, arrays and aligned members: every scalar is aligned to its size and inside the object, and without unions the scalars are in increasing order and disjoint |
| `Layout.SizeAligned` | linux-headers/include/asm/ptrace.h:59-112 | Sizes are multiples of alignments, so arrays keep their elements aligned |
| `Layout.PlainWellFormed` | linux-headers/include/asm/ptrace.h:59-112 | Every type whose arrays hold ordinary elements is well formed, so the layout theorem holds of it without further assumptions |
| `Layout.HomogeneousDense` | linux-headers/include/asm/kvm.h:226-261 | A type all of whose scalars have one size is a packed array of them, however nested |
| `Layout.RegIndexDense` | linux-headers/include/asm/kvm.h:226-261 | offsetof/sizeof numbers the registers of such a type 0, 1, 2, and so on, below sizeof/sizeof |
| `Layout.OffsetAtMeans` | linux-headers/include/asm/ptrace.h:59-112 | offsetof with any nested designator is where the layout puts the member: its scalars are consecutive scalars of the whole object, each at its own offset plus the member's |
| `Layout.AlignUpLeast` | linux-headers/include/asm/ptrace.h:69-92 | The offset rule takes the least aligned offset |
| `RiscvAbi.RegisterNumbers` | linux-headers/include/asm/kvm.h:226-261 | Every KVM register file holds exactly its number of registers (core 33, CSR 11, timer 4 and so on) under ILP32 and LP64, and the macros number them from 0 up to the last in declaration order |
| `RiscvAbi.NamedRegisters` | linux-headers/include/asm/kvm.h:226-261 | By designator: CORE_REG(mode), FP_F_REG(fcsr) and FP_D_REG(fcsr) are 32 and the last general register is 31, under both data models |
| `RiscvAbi.DStateNumbers` | linux-headers/include/asm/kvm.h:258-261 | The D file, which mixes sizes, is numbered densely too: f[i] is i and fcsr is 32 |
| `RiscvAbi.VectorRegsApart` | linux-headers/include/asm/kvm.h:287-292 | VECTOR_REG(n) is 6 + n and never the number of a vector CSR, for every n and both data models |
| `RiscvAbi.OverlayExact` | linux-headers/include/asm/ptrace.h:59-98 | Byte by byte, each view counted from its own start, the extension header's reserved and hdr fields are exactly the reserved words of the Q state and touch no F, D or Q register and no fcsr |
| `RiscvAbi.SigContextLayout` | linux-headers/include/asm/sigcontext.h:30-36 | struct sigcontext is 784 (LP64) or 656 (ILP32) bytes; the floating-point state, its F, D and Q views and the extension header all start at the same byte, right after sc_regs (256 or 128) |
| `RiscvAbi.SigContextOverlay` | linux-headers/include/asm/sigcontext.h:30-36 | The overlay inside struct sigcontext, for every byte of it: reserved and hdr of sc_extdesc are exactly the reserved words of sc_fpregs.q, and no byte of a register, an fcsr or sc_regs |
| `RiscvAbi.SigContextAlign` | linux-headers/include/asm/sigcontext.h:30-36 | The signal context is 16-byte aligned under both data models |
| `RiscvAbi.HeaderTypesSound` | linux-headers/include/asm/sigcontext.h:30-36 | In struct sigcontext every scalar is aligned and inside the 784 or 656 bytes; the core and D register files, the Q state and the extension header have disjoint scalars in declaration order |
| `RiscvAbi.McontextOffset` | linux-headers/include/asm/ucontext.h:13-36 | The offset of uc_mcontext in closed form, for every sigset_t up to 128 bytes |
| `RiscvAbi.SigsetMayGrow` | linux-headers/include/asm/ucontext.h:18-24 | Growing sigset_t up to 1024 bits with the same alignment never moves uc_mcontext |
| `RiscvAbi.SigsetAlignmentMatters` | linux-headers/include/asm/ucontext.h:13-36 | The offset is 176 (LP64) and 160 (ILP32), and more alignment does move it |
| `RiscvAbi.SigInfoPinned` | linux-headers/include/asm-generic/siginfo.h:134-139 | The padding makes siginfo_t 128 bytes if and only if the record fits in 128, for any record |
| `RiscvAbi.SigInfoSize` | linux-headers/include/asm-generic/siginfo.h:33-139 | The header's own record, with every member of union __sifields, fits: siginfo_t is 128 bytes under both data models, and 32-bit aligned on 32 bits |
| `RiscvAbi.SigEventSize` | linux-headers/include/asm-generic/siginfo.h:328-351 | SIGEV_PAD_SIZE makes sigevent_t 64 bytes under both data models |
| `Topology.StoresReadBack` | linux-headers/include/drm/i915_drm.h:3227-3266 | For all sizes, offsets and strides that fit, after any run of stores each of the three formulas reads what was last stored for its slice, subslice or EU |
| `Topology.RelationReadsBack` | linux-headers/include/drm/i915_drm.h:3227-3266 | Any availability relation stored into a zero blob is read back exactly |
| `Topology.AvailableIsBit` | linux-headers/include/drm/i915_drm.h:3227-3266 | Which byte and which bit of the blob decides each slice, subslice and EU |
| `Topology.NoAliasing` | linux-headers/include/drm/i915_drm.h:3254-3266 | No two distinct slices, subslices or EUs share a bit of the blob |
| `Topology.StrideExact` | linux-headers/include/drm/i915_drm.h:3203-3222 | A region of two or more rows is free of aliasing if and only if a row fits its stride |
| `Topology.TightFits` | linux-headers/include/drm/i915_drm.h:3203-3266 | The three regions with least strides, one right after the other, meet the conditions in exactly the blobs that are long enough, for all numbers of slices, subslices and EUs |
| `FormatWindows.EncodeExact` | linux-headers/include/drm/drm_mode.h:1187-1211 | Any relation between a format list of any length and any modifiers, encoded as 64-format windows, decodes to exactly that relation |
| `FormatWindows.EncodeOk` | linux-headers/include/drm/drm_mode.h:1187-1211 | Every entry is a 64-bit mask at a multiple of 64 that names only formats of the list |
| `FormatWindows.EncodeCount` | linux-headers/include/drm/drm_mode.h:1163-1185 | One entry per modifier and window |
| `FormatWindows.BlobExact` | linux-headers/include/drm/drm_mode.h:1163-1211 | From relation to blob bytes and back through the header's offsets, for any padding between the two arrays and any bytes after them and any formats, modifiers and counts of the fields' widths |
| `FormatWindows.EntryReadsBack` | linux-headers/include/drm/drm_mode.h:1176-1211 | Every entry lies inside the blob and reads back, whatever bytes follow; no other index does |
| `FormatWindows.BlobOnWire` | linux-headers/include/drm/drm_mode.h:1163-1211 | The bytes of the blob field by field: version, flags, the two counts and offsets, each format, and mask, offset and modifier of each entry |
| `FormatWindows.FormatReadsBack` | linux-headers/include/drm/drm_mode.h:1170-1183 | Every format lies inside the blob and reads back, whatever bytes follow the entries; no other index does |
| `DrmEvents.StreamParses` | linux-headers/include/drm/drm.h:1317-1334 | Over any interleaving of deliveries and reads, the concatenated read buffers cut back into exactly the delivered events in order, but those still pending |
| `DrmEvents.RunConserves` | linux-headers/include/drm/drm.h:1317-1334 | Bytes read followed by bytes pending equal bytes delivered, and every single read holds only whole events |
| `DrmEvents.FitMeans` | linux-headers/include/drm/drm.h:1323-1325 | A read returns the longest run of whole events that fits: it fits, and one event more would not |
| `DrmEvents.ReadsDrain` | linux-headers/include/drm/drm.h:1323-1325 | Reads with a buffer for the largest event empty the queue |
| `DrmEvents.EventFile.Deliver` | linux-headers/include/drm/drm.h:1322-1334 | An event joins the end of the queue |
| `DrmEvents.EventFile.Read` | linux-headers/include/drm/drm.h:1323-1325 | The popping loop returns the longest fitting run of events, removes exactly those and loses no byte |
| `DrmEvents.HeaderExample` | linux-headers/include/drm/drm.h:1323-1325 | Two 64-byte events and a 100-byte buffer give one event |
| `Records.ParsePrint` | linux-headers/include/drm/qaic_accel.h:54-73 | Length-prefixed records read back as printed |
| `Records.PrintParse` | linux-headers/include/drm/drm.h:1317-1334 | The byte streams that parse are exactly the printed ones |
| `Records.RecordOnWire` | linux-headers/include/drm/drm.h:1327-1334 | The bytes of a record: type at 0, length including the header at 4, payload at 8 |
| `Qaic.ParseMsgExact` | linux-headers/include/drm/qaic_accel.h:158-168 | A message parses to a list of transactions if and only if it is that list printed: bytes agree, lengths sum to len, number equals count, total within the 4K limit |
| `Qaic.RoundTrip` | linux-headers/include/drm/qaic_accel.h:16-73 | Every encodable list comes back, or is refused exactly when it exceeds the limit |
| `Qaic.CountBounded` | linux-headers/include/drm/qaic_accel.h:16-62 | Each transaction includes its header, so an accepted message holds at most 511 |
| `PackedFields.RunRefines` | linux-headers/include/drm/drm_fourcc.h:1690-1695 | Over any run of in-range clear-then-set updates, for any disjoint field table, the word shows the record a plain sequence of fields would, and bits outside the table keep their values |
| `PackedFields.RunViewIsLastWritten` | linux-headers/include/drm/drm_fourcc.h:1690-1695 | That record holds the last value written to each field |
| `PackedFields.UpdatesCommute` | linux-headers/include/drm/drm_fourcc.h:1690-1695 | Updates of different fields commute on the whole word |
| `PackedFields.UpdateReadsBack` | linux-headers/include/drm/drm_fourcc.h:1690-1693 | The unmasked SET reads back exactly when the value fits the mask |
| `PackedFields.UpdateKeepsRest` | linux-headers/include/drm/drm_fourcc.h:1690-1695 | The unmasked SET leaves the rest of every 64-bit word alone exactly when no bit of the value spills |
| `PackedFields.ViewDetermines` | linux-headers/include/drm/drm_fourcc.h:1690-1695 | Fields and remaining bits determine the word |
| `PackedFields.BuildAccumulates` | linux-headers/include/drm/amdgpu_drm.h:690-693 | For any values at all, OR-ed masked SETs leave in each field the OR of the masked values written to it |
| `AmdModifiers.AmdTableWellFormed` | linux-headers/include/drm/drm_fourcc.h:1630-1688 | No two AMD fields share a bit and all lie below bit 36 |
| `AmdModifiers.AmdFieldBits` | linux-headers/include/drm/drm_fourcc.h:1562-1695 | Shifts, masks and the comment agree: each of the fourteen fields is exactly the bits the comment lists for it, without gaps below bit 36, and GET returns exactly those bits |
| `AmdModifiers.AmdRun` | linux-headers/include/drm/drm_fourcc.h:1581-1695 | On the AMD table: GET returns the last value written and the vendor byte never changes |
| `AmdModifiers.AmdSetSpills` | linux-headers/include/drm/drm_fourcc.h:1690-1691 | Concrete spill: writing 2 to DCC changes DCC_RETILE |
| `AmdModifiers.TilingTablesWellFormed` | linux-headers/include/drm/amdgpu_drm.h:638-687 | The three tiling tables are disjoint within 64 bits |
| `AmdModifiers.TilingDecodes` | linux-headers/include/drm/amdgpu_drm.h:638-693 | On each tiling table, flags assembled from zero decode to the masked values |
| `KvmBitmap.RunRefines` | linux-headers/include/asm/kvm.h:264-285 | For any word width and any run of enables and disables, the words represent exactly the set of the same insertions and deletions |
| `KvmBitmap.BitmapExact` | linux-headers/include/asm/kvm.h:264-285 | Seen as one long word, lowest register first, the registers have exactly bit id set for each enabled extension id, over any run |
| `KvmBitmap.RegInBounds` | linux-headers/include/asm/kvm.h:272-273 | No id below the maximum addresses a register beyond the last, and the last is needed |
| `KvmBitmap.AddressInjective` | linux-headers/include/asm/kvm.h:268-271 | Register and mask together identify the extension |
| `KvmBitmap.RegisterCounts` | linux-headers/include/asm/kvm.h:115-208 | Two 64-bit or three 32-bit ISA registers, one SBI register; the last ids are bits 6 and 11 of theirs |
| `Panthor.RunKeeps` | linux-headers/include/drm/panthor_drm.h:573-646 | Every run of calls, queue executions and device events keeps every mapping inside an existing buffer and the user range and exclusive buffers in their own VM, and no two VMs ever share a serial |
| `Panthor.ExclusiveStaysHome` | linux-headers/include/drm/panthor_drm.h:639-646 | Whatever happened before and after a buffer was created exclusive to a VM, it is visible only in that very VM: a later VM with the same id never shows it |
| `Panthor.SerialIsVm` | linux-headers/include/drm/panthor_drm.h:594-595 | A VM of an earlier state is met again only under its id and if it was never destroyed |
| `Panthor.SpaceHistory` | linux-headers/include/drm/panthor_drm.h:487-557 | Over every run that keeps a VM, each address shows exactly what the last executed bind operation covering it left there, synchronous or queued, and otherwise what it showed before |
| `PanthorRuns.QueueHistory` | linux-headers/include/drm/panthor_drm.h:551-557 | First in, first out: over every run that keeps a VM, the pending operations are those pending before followed by those issued and accepted in the order of the calls, without the oldest, which the device took up |
| `PanthorRuns.ExecutedInOrder` | linux-headers/include/drm/panthor_drm.h:551-557 | The operations executed are the accepted synchronous ones and, in issued order, the queued ones taken up, except failing ones and maps for a VM unusable by then |
| `PanthorRuns.SpaceInOrder` | linux-headers/include/drm/panthor_drm.h:487-557 | Over every run that keeps a VM, each address shows what the last operation carried out that covers it left there, queued operations taken in the order they were issued |
| `PanthorRuns.SpaceSinceCreation` | linux-headers/include/drm/panthor_drm.h:487-557 | The same for every VM of every run from the empty device, since the call that made it |
| `Panthor.VmHistory` | linux-headers/include/drm/panthor_drm.h:584-597 | Over every run that keeps a VM, it is unusable exactly when it was before or some event of the run broke it: a queued operation that failed, or any other cause |
| `PanthorRuns.BreaksMeans` | linux-headers/include/drm/panthor_drm.h:584-597 | A usable VM becomes unusable in a run exactly when a queued operation taken up fails or another cause occurs; an accepted queued map never stops fitting by itself |
| `PanthorRuns.CallsAccepted` | linux-headers/include/drm/panthor_drm.h:487-646 | After every run from the empty device, each call is accepted if and only if the calls and events so far allow it; in particular a map is accepted exactly when its VM was made, not destroyed and not broken, its buffer was made exclusive to none or to that very VM, and the range fits the sizes given at creation, and a group may submit exactly when it and its own VM have been neither destroyed nor hit or broken |
| `PanthorRuns.OwnerMeans` | linux-headers/include/drm/panthor_drm.h:639-646 | A buffer may be bound to a VM exactly when it was made exclusive to none or, while that VM was there, to its id |
| `Panthor.BrokenRefuses` | linux-headers/include/drm/panthor_drm.h:590-592 | After any run that broke it, a VM refuses every map and takes every unmap, synchronous or queued |
| `Panthor.UnusableForever` | linux-headers/include/drm/panthor_drm.h:584-597 | Until destroyed, an unusable VM stays unusable and its mapped range only shrinks, over every run |
| `Panthor.RecoveryNeedsDestroy` | linux-headers/include/drm/panthor_drm.h:594-595 | A run after which the id is not unusable destroyed the VM |
| `Panthor.RecoveryWorks` | linux-headers/include/drm/panthor_drm.h:594-595 | Destroying and creating anew gives a usable empty VM; buffers exclusive to the old VM cannot be mapped in it and groups of the old VM cannot submit to it |
| `Panthor.JobsTaken` | linux-headers/include/drm/panthor_drm.h:779-784 | A group takes a job after a run exactly when it was alive, its own VM served, no timeout, fault or reset hit it in the run, and its VM was neither destroyed nor broken; so a group whose VM was destroyed never takes a job again |
| `Panthor.GroupHistory` | linux-headers/include/drm/panthor_drm.h:873-895 | Over every run that keeps a live group, it is dead exactly when a timeout, fault or reset of it occurred, and INNOCENT exactly when a reset killed it |
| `Panthor.GroupsOfRun` | linux-headers/include/drm/panthor_drm.h:873-895 | In every run from the empty device, for every group and since the step that created it: dead exactly when an event hit it, INNOCENT exactly when some reset took it while nothing had hit it and no later fault cleared the mark |
| `Panthor.KilledInnocentMeans` | linux-headers/include/drm/panthor_drm.h:888-895 | The first-event form of INNOCENT agrees with the one that names the position of the reset |
| `Panthor.DeadHistory` | linux-headers/include/drm/panthor_drm.h:875-886 | A dead group stays dead in every run that keeps it, and its INNOCENT mark changes only by a fault |
| `Panthor.FlagHistory` | linux-headers/include/drm/panthor_drm.h:873-887 | TIMEDOUT is set exactly by a timeout or a reset of the group and FATAL_FAULT exactly by a fault, over every run |
| `Panthor.FlagsExact` | linux-headers/include/drm/panthor_drm.h:888-895 | INNOCENT implies TIMEDOUT and not FATAL_FAULT in every run if a fault clears the mark; if not, exactly the runs in which the group is both killed by a reset and faults break the documented condition |
| `Panthor.FaultAfterReset` | linux-headers/include/drm/panthor_drm.h:888-895 | The shortest such run: a reset and then a fault |
| `Panthor.AsyncIsSync` | linux-headers/include/drm/panthor_drm.h:551-557 | A queued operation that runs at once equals the synchronous one |
| `Modifiers.CodeSplits` | linux-headers/include/drm/drm_fourcc.h:431-438 | A modifier code carries its vendor byte and the low 56 bits of its value |
| `Modifiers.BlockLinearBit` | linux-headers/include/drm/drm_fourcc.h:952-962 | Bit by bit, where the block-linear code puts height, kind, generation, sector layout, compression and vendor |
| `Modifiers.BroadcomBit` | linux-headers/include/drm/drm_fourcc.h:1018-1024 | Bit by bit, where the Broadcom code puts type, parameter and vendor |
| `Modifiers.CanonicalizeFibres` | linux-headers/include/drm/drm_fourcc.h:966-973 | Two modifiers canonicalize alike if and only if they are equal or block-linear and differ only by kind 0 versus 0xfe |
| `Modifiers.CanonicalizeIdempotent` | linux-headers/include/drm/drm_fourcc.h:966-973 | Canonicalizing twice is canonicalizing once |
| `Modifiers.CanonicalizeMeans` | linux-headers/include/drm/drm_fourcc.h:960-973 | Only the page kind changes, from 0 to 0xfe, and only in block-linear modifiers |
| `Modifiers.CanonicalizeFixes` | linux-headers/include/drm/drm_fourcc.h:966-973 | A modifier is left alone exactly when it is not block-linear or has a nonzero kind |
| `Modifiers.CanonicalizeIgnoresVendor` | linux-headers/include/drm/drm_fourcc.h:966-973 | The function does not look at the vendor: an Intel modifier is rewritten too |
| `Modifiers.SixteenBx2Canonical` | linux-headers/include/drm/drm_fourcc.h:952-997 | 16BX2_BLOCK(v) canonicalizes to the generic-kind block-linear code of the same height, for every v |
| `Modifiers.BroadcomModExact` | linux-headers/include/drm/drm_fourcc.h:1018-1027 | Dropping the parameter recovers the zero-parameter code if and only if the type leaves the parameter field empty |
| `Modifiers.BroadcomParamExact` | linux-headers/include/drm/drm_fourcc.h:1018-1024 | For types below 256 the parameter reads back if and only if it is a nonnegative int |
| `Ioctl.DecodeEncode` | linux-headers/include/asm-generic/ioctl.h:38-95 | For every choice of widths that fills 32 bits, decoding inverts encoding if and only if every field fits |
| `Ioctl.EncodeDecode` | linux-headers/include/asm-generic/ioctl.h:38-95 | Encoding inverts decoding on exactly the 32-bit words |
| `Ioctl.EncodeIsSum` | linux-headers/include/asm-generic/ioctl.h:38-88 | For fields that fit, the number is direction, size, type and number in this order, at 16 plus the size width, 16, 8 and 0 |
| `Ioctl.DriverNumber` | linux-headers/include/drm/drm.h:1042-1315 | A driver command's low 16 bits are 0x6440 plus the driver's id |
| `Ioctl.DriverCommandsDistinct` | linux-headers/include/drm/drm.h:1042-1046 | Driver commands are equal only with equal id, direction and size |
| `Ioctl.DriverClearOfGeneric` | linux-headers/include/drm/drm.h:1306-1315 | A driver command is clear of every generic command if and only if its id is below DRM_COMMAND_END - DRM_COMMAND_BASE, 0x60 |
| `ParallelSubmit.IndexBijective` | linux-headers/include/drm/i915_drm.h:2487-2493 | The index is a bijection between the width-by-siblings grid and the array, for all sizes |
| `ParallelSubmit.ScanExact` | linux-headers/include/drm/i915_drm.h:2395-2447 | Comparing each engine with the first one and the one a row before it is exactly the rule for the grid: all engines of one class and every column logically contiguous, for all widths and sibling counts |
| `ParallelSubmit.Accept` | linux-headers/include/drm/i915_drm.h:2395-2447 | One pass over the flat array with early exit accepts exactly the placeable configurations |
| `ParallelSubmit.HeaderExamples` | linux-headers/include/drm/i915_drm.h:2414-2447 | The header's three examples come out as documented, and contiguous columns of two classes are refused |
| `Pmu.EngineInjective` | linux-headers/include/drm/i915_drm.h:263-272 | Engine ids are injective in class, instance and sample |
| `Pmu.EngineIsSum` | linux-headers/include/drm/i915_drm.h:263-272 | An engine id is 4096 times the class, 16 times the instance and the sample |
| `Pmu.OtherIsSum` | linux-headers/include/drm/i915_drm.h:284-292 | A non-engine id is the GT above bit 60 and 0x100000 plus the counter |
| `Pmu.OtherInjective` | linux-headers/include/drm/i915_drm.h:284-292 | Non-engine ids are injective in GT and counter below the GT field |
| `Pmu.EngineOtherDisjoint` | linux-headers/include/drm/i915_drm.h:269-292 | No engine id is a non-engine id |
| `Pmu.OtherOverflows` | linux-headers/include/drm/i915_drm.h:284-292 | A counter number that reaches the GT field is a counter of another GT |
| `ExecBuffer.ExecBuffer2.SetContextId` | linux-headers/include/drm/i915_drm.h:1567-1569 | The whole rsvd1 field becomes the low 32 bits of the context |
| `ExecBuffer.ExecBuffer2.GetContextId` | linux-headers/include/drm/i915_drm.h:1570-1571 | The low 32 bits of rsvd1 |
| `ExecBuffer.SetThenGet` | linux-headers/include/drm/i915_drm.h:1567-1571 | A set followed by a get returns the context if and only if it fits in 32 bits |

## Left out

- Kernel data structures behind the Panthor address spaces: the header has none, so the device is modelled on values.
- Contents of the Asahi render and compute payloads: opaque bytes of a size the driver knows; the fields would add plain records.
- Asahi sync objects, VM and GEM ioctls: declarations without a stated behaviour beyond single calls.
- Alignment and padding of Panthor sizes and addresses, access flags of mappings, sync operations and core masks: single-field checks.
- Panthor VM_BIND with an array of operations: the header does not say what happens to the rest after one fails, so operations are taken one at a time.
- Closing GEM handles: not described in the modelled header, so buffer objects are never freed.
- The 64-bit padding of QAIC passthrough payloads: an obligation on user space that the format itself does not check.
- Architecture overrides of the band type, the clock type and the attributes of `siginfo_t`: RISC-V has none.
- The `aligned(16)` struct `__sc_riscv_v_state` and the flexible array of `__riscv_v_regset_state`: they do not take part in the overlay.
- Undefined behaviour of C shifts and signed overflow: macro arguments are nonnegative and shifts stay inside the word.
- The IMSIC attribute codec and the remaining modifier vendors: further instances of shift and mask.
- System call tables, errno, ioctl and signal number lists: finite constants.
- Tiling and compression layouts described in prose only, and hardware or kernel behaviour no header states.
- Build scripts, patches and documentation of the toolchain itself.
