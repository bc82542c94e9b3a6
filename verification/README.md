# tcmu-runner: a verified model of its storage and protocol core

tcmu-runner is a userspace daemon that serves SCSI commands for the Linux target subsystem. This
project models the parts of its C code in which state is hard to get right, and proves what each of
them promises for every input, every reachable state and every interleaving. The code is followed
where it and its own comments disagree; where a promise fails, the failing input is given and the
exact condition under which the promise holds is proved.

Run `dafny verify dfyconfig.toml` in this directory to check the whole project.

**QCOW images** (`Bytes`, `RefcountBlock`, `TableCache`, `QcowLayout`, `QcowSteps`, `QcowState`,
`QcowImage`, `QcowDisk`, `QcowFormat`, `QcowRuns`, `QcowAlloc`, `QcowFaults`). The host file is a
sequence of bytes. L1 and L2 tables, refcount table and refcount blocks are read out of it, 64-bit
big-endian words and packed counts of 1 to 64 bits included. The class `Image` holds what the daemon
keeps in RAM: both top-level tables, the two block caches, the allocator's cursor. A ghost role per
byte says who owns it. `Inv` says that the RAM tables and both caches agree with the file, that
tables, data clusters and header lie apart, that a cluster whose entry carries the COPIED flag is
used by that entry alone, and that every cluster in use is counted. Every primitive update is shown
to keep `Inv` and to change exactly what it names. On top of that `Preadv` and `Pwritev` are proved
against one flat array of bytes, and `Serve` extends this to any run of reads, writes and reopens.
`QcowFormat` says in plain file offsets where each byte of the disk and each count is found.

A write to a cluster that is not mapped, or that carries only the zero flag, does not always keep
the rest of that cluster: `WriteIsOverlayIff` gives the exact condition, `BackingBytesLost` and
`WriteNextToZeroFlag` well-formed images for which it fails.

**Zoned devices** (`Zones`, `ZoneCommands`, `ZoneLimit`, `ZoneData`, `ZoneRuns`, `ZoneRead`,
`ZoneFormat`, `ZoneReport`, `ZoneStates`, `ZoneFaults`, `Zbc`). Commands are functions on device
values; the class `ZbcDev` updates zone descriptors and 32-bit counters in place, loop by loop, and
is proved equal to those functions. `ZoneStates` says what condition each command leaves each zone
in, with which status, and under which reporting option it is then listed. Over all runs the zone
invariant holds, and what a host-managed device shows is a flat array without write pointers
(`ShowsFlatDisk`). Three results are negative, each with its exact condition and with a run on
formatted devices of any zone size. The check of OPEN ZONE with the ALL bit leaves out implicitly
open zones, so the open-zone limit can be exceeded (`OpenAllExceeds`): the condition is one scan
over the zones before the command (`OpenAllLimit`), and `RunWithinLimit` says the same of whole
runs. A read over several zones returns zeros for the rest of a segment after the first block that
is not written (`HoleHides`); `ReadExact` says when that is what the device shows. And it cuts the
last piece of a segment by the length of the whole, so it can come to write past the segment
(`SegmentOverrun`): exactly when the segment meets no unwritten block before the zone it ends in,
which is not its first, and leaves data of that zone unread, but less than it has read before
(`ReadOverruns`).

**Command ring and wake-ups** (`Ring`, `Wakeups`). Responses are put into ring entries in the order
of completion while entries are fetched in the order of the ring. Any number of completing threads
share one kick of the kernel.

**UNMAP, WRITE SAME, FORMAT UNIT** (`UnmapSplit`, `Unmap`, `UnmapRuns`, `Compound`). Splitting in
64-bit arithmetic, dispatch under a shared state, every schedule of callbacks; write chains started
from callbacks. Two results are negative: after an empty last descriptor UNMAP reports OK whatever
its splits report (`ErrorsReportedIff`, with the run `ErrorLost`), and FORMAT UNIT reports the
status of its last write only (`FormatUnit.Chain`, with the device `ErrorForgotten`).

**Recovery and device lock** (`Recovery`, `Lock`). Transition systems over all interleavings, with
classes for the sections that run under a mutex. The command thread takes commands, requests to
become active and releases one at a time, beside lock threads, lost locks and reopens. On a device
that is used as it reports there is never a second acquisition (`OneAcquisition`), in either kind of
failover. Two results are negative. When waiting for running commands fails, LOCKED is stored
without a lock call (`LockedWithoutCall`; `LockedByCall` shows that nothing else does that). A
request to become active is not refused on a device that reports implicit failover only; it makes
the command thread acquire the lock beside a lock thread, and a second lock thread can start
(`StrayAcquisition`; `SingleUnlessStray` shows that nothing else does that).

**Scatter/gather vectors** (`Iovec`) are the common base: a vector denotes the sequence of addresses
of its bytes, and copying, seeking, comparing and cutting are proved against that.

Method bodies follow the source's loops. Where one C function is long its rounds are methods of
their own (`ReadPiece`, `WriteRound`, `WritePiece`, `FreshCluster`, `CopyCluster`, `WriteOnce`,
`SkipTo`, `TakePart`). `Common` holds options, word sizes and a little arithmetic.

## Model

| member | source | states |
|---|---|---|
| Bytes.ToBERoundTrip | tcmu-runner/qcow.c:791-808 | A big-endian word read back is the word stored |
| Bytes.BytePlaces | tcmu-runner/qcow.c:791-808 | Each byte of a word has the weight of its place, the first one the highest |
| Bytes.U64Written | tcmu-runner/qcow.c:791-808 | Storing a table word reads back at its offset |
| Bytes.U64Frame | tcmu-runner/qcow.c:791-808 | A word outside the bytes written is unchanged |
| RefcountBlock.FieldStored | tcmu-runner/qcow.c:836-868 | Masking one packed count into a byte stores it, for counts of 1, 2 and 4 bits |
| RefcountBlock.FieldKept | tcmu-runner/qcow.c:836-868 | The other counts packed into that byte are unchanged |
| RefcountBlock.GetAfterSet | tcmu-runner/qcow.c:812-868 | For orders 0 to 6 and values below the limit, a count set reads back and every other count of the block is unchanged |
| RefcountBlock.GetOfZeros | tcmu-runner/qcow.c:812-834 | A zeroed refcount block counts nothing |
| RefcountBlock.GetBounded | tcmu-runner/qcow.c:812-834 | A count read is below 2 to the power of its width |
| RefcountBlock.EntryPlace | tcmu-runner/qcow.c:812-834 | Entry i is at bits i * 2^order on: below 8 bits from the low end of its byte, from there on whole bytes, most significant first |
| RefcountBlock.CapacityExact | tcmu-runner/qcow.c:812-929 | The entries fill the block |
| RefcountBlock.SetInPlace | tcmu-runner/qcow.c:836-868 | The in-place update of a block array is the function the laws are about |
| TableCache.CoherentFrame | tcmu-runner/qcow.c:726-762 | A cache stays equal to the file under changes outside its blocks |
| TableCache.WriteThrough | tcmu-runner/qcow.c:981-985 | Updating a cached block together with the file keeps every slot equal to the file, keys distinct |
| TableCache.TableCache.constructor | tcmu-runner/qcow.c:443-557 | An image starts with a coherent, empty cache |
| TableCache.TableCache.Lookup | tcmu-runner/qcow.c:726-762 | A lookup, with hit, miss or eviction, finds the block exactly when it lies in the file, and its slot holds the file's bytes there; coherence and distinct keys are kept |
| Iovec.AddrsConcat | tcmu-runner/api.c:245-300 | The bytes of a concatenated vector are those of its parts in order |
| Iovec.AddrsConsume | tcmu-runner/api.c:151-169 | Consuming n bytes of a vector leaves the suffix of its bytes |
| Iovec.IovecLength | tcmu-runner/api.c:180-191 | The length of a vector is the number of its bytes |
| Iovec.MemcpyIntoIovec | tcmu-runner/api.c:245-270 | Copies min(length, total) bytes to the vector's addresses in order, nothing else, and leaves the vector denoting the rest |
| Iovec.MemcpyFromIovec | tcmu-runner/api.c:275-300 | Gathers min(length, total) bytes in order and leaves the vector denoting the rest |
| Iovec.SeekInIovec | tcmu-runner/api.c:151-169 | Drops exactly count bytes and returns the number of entries used up |
| Iovec.CompareWithIovec | tcmu-runner/api.c:112-146 | Returns the first index at which memory and vector differ, or -1 exactly when they agree |
| Iovec.IovecSegment | tcmu-runner/qcow.c:1176-1202 | The segment denotes bytes off to off+len of the vector, with no more entries than it |
| QcowSteps.DataStep | tcmu-runner/qcow.c:1215-1325 | Writing free bytes or one virtual cluster's private bytes keeps all tables, counts and every other cluster's view |
| QcowSteps.L1Step | tcmu-runner/qcow.c:791-808 | Entering a zeroed L2 table leaves every byte of the disk and every entry as they were |
| QcowSteps.L2Step | tcmu-runner/qcow.c:1019-1038 | Entering a data cluster changes that virtual cluster's entry and view only |
| QcowSteps.RtStep | tcmu-runner/qcow.c:931-948 | Entering a zeroed refcount block changes no count |
| QcowSteps.BlkStep | tcmu-runner/qcow.c:950-989 | Storing one count changes that count, no other count and nothing the guest sees |
| QcowState.ClaimInv | tcmu-runner/qcow.c:771-783 | Handing out unclaimed bytes keeps the image invariant |
| QcowState.L1Inv | tcmu-runner/qcow.c:791-808 | The L1 update in RAM and file keeps the image invariant |
| QcowState.L2Inv | tcmu-runner/qcow.c:1019-1038 | The L2 update in cache and file keeps the image invariant |
| QcowState.RtInv | tcmu-runner/qcow.c:931-948 | The refcount table update keeps the image invariant |
| QcowState.BlkInv | tcmu-runner/qcow.c:975-989 | The refcount update in cache and file keeps the invariant and changes one count |
| QcowState.DataInv | tcmu-runner/qcow.c:1275-1325 | Writing guest data keeps the image invariant |
| QcowImage.Image.Open | tcmu-runner/qcow.c:443-706 | Opening a well-formed image file establishes the invariant |
| QcowImage.AlignUpMultiple | tcmu-runner/qcow.c:771-783 | The version 1 allocator returns the least multiple of the size not below the end of file |
| QcowImage.Image.GetRefcount | tcmu-runner/qcow.c:907-929 | Returns the cluster's count as the file has it, 0 without a refcount block |
| QcowImage.Image.QcowBlockAlloc | tcmu-runner/qcow.c:771-783 | Version 1: an aligned zeroed region behind the whole previous file |
| QcowImage.Image.FirstFree | tcmu-runner/qcow.c:992-1017 | The scan finds the first uncounted cluster from its cursor on |
| QcowImage.Image.Qcow2BlockAlloc | tcmu-runner/qcow.c:992-1017 | Version 2: while any cluster from the cursor on is free, a zeroed cluster neither counted nor handed out before, all between cursor and it being counted |
| QcowImage.Image.RcTableUpdate | tcmu-runner/qcow.c:931-948 | Enters a refcount block in RAM and file, keeping all counts |
| QcowImage.Image.StoreRefcount | tcmu-runner/qcow.c:975-989 | Stores one count through the cache |
| QcowImage.Image.Qcow2SetRefcount | tcmu-runner/qcow.c:950-989 | Terminates by the number of missing refcount blocks; the target counts the value, each refcount block made on the way counts 1, every other count is unchanged |
| QcowImage.RefsSetVia | tcmu-runner/qcow.c:950-989 | The recursive case composes: allocating, entering and counting a block before storing the count |
| QcowImage.MissingFilled | tcmu-runner/qcow.c:950-989 | Entering a refcount block lowers the recursion's measure by one |
| QcowImage.Image.BlockAlloc | tcmu-runner/qcow.c:764-769 | Either allocator hands out bytes that nobody owned |
| QcowImage.Image.L1TableUpdate | tcmu-runner/qcow.c:791-808 | Enters an L2 table; the disk is unchanged |
| QcowImage.Image.L2TableAlloc | tcmu-runner/qcow.c:1113-1118 | Allocates, enters and counts an L2 table; the disk is unchanged |
| QcowImage.Image.L2Table | tcmu-runner/qcow.c:1120-1122 | The L2 cache returns the table as it is in the file |
| QcowImage.Image.L2TableUpdate | tcmu-runner/qcow.c:1019-1038 | Maps one virtual cluster through cache and file, leaving all others |
| QcowImage.Image.FreshCluster | tcmu-runner/qcow.c:1128-1133 | Maps a zeroed cluster for an unmapped one |
| QcowImage.Image.CopyOut | tcmu-runner/qcow.c:1145-1161 | Copies a cluster's content into a fresh private one |
| QcowImage.Image.CopyCluster | tcmu-runner/qcow.c:1145-1165 | Copy on write shows the old content in a private cluster |
| QcowImage.Image.GetClusterOffset | tcmu-runner/qcow.c:1095-1173 | For reading: the entry without flags. For writing: a private cluster of this virtual cluster alone, all others untouched |
| QcowDisk.FetchedIsFlat | tcmu-runner/qcow.c:1215-1273 | What one round of a read fetches are the disk's bytes there |
| QcowDisk.ReadPiece | tcmu-runner/qcow.c:1228-1270 | One round of a read delivers them through the segment |
| QcowDisk.Preadv | tcmu-runner/qcow.c:1215-1273 | The guest's memory receives exactly the disk's bytes, through the vector, in order; the file is unchanged |
| QcowDisk.WritePiece | tcmu-runner/qcow.c:1288-1322 | One round of a write stores its sectors in one cluster |
| QcowDisk.WriteRound | tcmu-runner/qcow.c:1288-1322 | And carries on: the bytes written so far show, the next round starts a cluster, the clusters used stay within the demand |
| QcowDisk.Pwritev | tcmu-runner/qcow.c:1275-1325 | The disk shows the vector's bytes from the offset on, every other cluster as before; the image invariant is kept |
| QcowDisk.WriteIsOverlayIff | tcmu-runner/qcow.c:1128-1165 | A write is a plain array store exactly when bytes it drags along are zero in the backing image, or in the file's first cluster for zero-flag clusters |
| QcowFormat.PlaceShows | tcmu-runner/qcow.c:1105-1107 | The disk shows at offset (i * l2 entries + j) * cluster size + k byte k of the cluster that entry j of L2 table i names |
| QcowFormat.EveryPlace | tcmu-runner/qcow.c:1105-1107 | Every offset of the disk is of that form |
| QcowFormat.DiskInBytes | tcmu-runner/qcow.c:1095-1173 | In words of the host file: no table or a zero word shows the image below, the word 1 zero, any other word, without bit 63, is the offset of the cluster |
| QcowFormat.CountPlace | tcmu-runner/qcow.c:907-929 | Every byte of host cluster k * entries + x is counted by entry x of refcount block k |
| QcowFormat.CountInBytes | tcmu-runner/qcow.c:812-929 | In bytes of the host file: which bits of which byte or bytes that entry is |
| QcowRuns.NeighboursAlwaysHeld | tcmu-runner/qcow.c:1128-1165 | Without backing image and bare zero flags that condition always holds |
| QcowRuns.WriteIsOverlay | tcmu-runner/qcow.c:1275-1325 | Then a write is a plain array store |
| QcowRuns.ReadRequest | tcmu-runner/qcow.c:1215-1273 | A read request answers with the array's bytes |
| QcowRuns.WriteRequest | tcmu-runner/qcow.c:1275-1325 | A write request stores into the array and stays within its demand of clusters |
| QcowRuns.ReopenRequest | tcmu-runner/qcow.c:443-706 | Closing and opening again keeps the disk |
| QcowRuns.Serve | tcmu-runner/qcow.c:1215-1325 | Any run of reads, writes and reopens answers as a plain array does |
| QcowFaults.BackingBytesLost | tcmu-runner/qcow.c:1128-1133 | A well-formed image over a backing image, of which a partial write turns bytes it does not name into zeros |
| QcowFaults.ImageReady | tcmu-runner/qcow.c:950-989 | A well-formed version 2 image whose refcount table and block count its five clusters, with room to write, and one cluster that carries the zero flag alone |
| QcowFaults.HeaderBytesShown | tcmu-runner/qcow.c:1145-1157 | Whatever a partial write to that cluster leaves, the file header is readable beside it |
| QcowFaults.WriteNextToZeroFlag | tcmu-runner/qcow.c:1275-1325 | The write itself, from opening the image on: a byte that showed zero shows the first header byte |
| QcowAlloc.AllocationRun | tcmu-runner/qcow.c:950-1017 | Over any run of allocations and count changes, of any counted cluster, no cluster is handed out twice, none counted at the start is, and none is a refcount block |
| QcowAlloc.GetFresh | tcmu-runner/qcow.c:992-1017 | An allocation keeps the handed-out clusters ascending, in use, and apart from refcount blocks |
| QcowAlloc.SetFresh | tcmu-runner/qcow.c:950-989 | So does a count change with the allocations inside it |
| Zones.CountUpdate | tcmu-runner/file_zbc.c:1371-1429 | Changing one zone changes the number of zones in a condition by that zone |
| Zones.EvictCounts | tcmu-runner/file_zbc.c:1394-1404 | Eviction finds a victim whenever a zone is implicitly open and closes that one only |
| Zones.EvictOther | tcmu-runner/file_zbc.c:1409-1419 | The victim is not the zone being opened |
| Zones.OpenCounts | tcmu-runner/file_zbc.c:1409-1429 | Opening adds one zone in the way asked for and takes one implicit one at the limit; zones stay well formed |
| Zones.OpenWithinLimit | tcmu-runner/file_zbc.c:1409-1429 | With room for an explicitly open zone the limit is kept |
| ZoneCommands.Located | tcmu-runner/file_zbc.c:1204-1218 | A block below the capacity lies in the zone its division names |
| ZoneCommands.OnlyZone | tcmu-runner/file_zbc.c:1204-1218 | No other zone holds it |
| ZoneCommands.Adjacent | tcmu-runner/file_zbc.c:712-738 | Zones follow one another without gap up to the capacity |
| ZoneCommands.GetZoneFinds | tcmu-runner/file_zbc.c:1204-1218 | The lookup returns the zone holding the block, asked for a start only for a zone's first block, and nothing for the capacity itself |
| ZoneCommands.SweepKept | tcmu-runner/file_zbc.c:1507-1512 | CLOSE, FINISH and RESET of all zones keep the invariant and leave no zone open |
| ZoneCommands.OneCommandKeeps | tcmu-runner/file_zbc.c:1434-1647 | Every command on one zone keeps the invariant and the open limit |
| ZoneCommands.OpenConserves | tcmu-runner/file_zbc.c:1457-1461 | Opening a closed zone, eviction included, conserves explicitly open, closed and written implicitly open zones |
| ZoneCommands.OpenAllKeeps | tcmu-runner/file_zbc.c:1457-1461 | Opening all closed zones conserves them too, and keeps the limit when they fit it |
| ZoneCommands.OpenAllReopens | tcmu-runner/file_zbc.c:1457-1461 | When written implicitly open zones lie above the closed ones, every evicted zone is opened again |
| ZoneLimit.ScanEvicted | tcmu-runner/file_zbc.c:1394-1404 | Evicting the first implicitly open zone ahead is worth one opening in the scan, no more |
| ZoneLimit.OpenKeepsBalance | tcmu-runner/file_zbc.c:1409-1429 | Opening one closed zone, eviction included, leaves the balance as the scan of the zones before it says |
| ZoneLimit.OpenAllExact | tcmu-runner/file_zbc.c:1457-1461 | Opening all closed zones from an index on ends within the limit exactly when the balance there is not positive |
| ZoneLimit.OpenAllLimit | tcmu-runner/file_zbc.c:1443-1464 | OPEN ALL succeeds when explicitly open and closed zones fit the limit, and then keeps it exactly when the balance, one scan over the zones before it, is not positive; otherwise nothing changes |
| ZoneLimit.LinedLimit | tcmu-runner/file_zbc.c:1443-1464 | In the arrangement above, exactly when open and closed zones fit the limit |
| ZoneFaults.OpenAllExceeds | tcmu-runner/file_zbc.c:1443-1464 | On every formatted device of three sequential zones or more, or two not ending in a single block, a run after which OPEN ALL reports success and exceeds the limit |
| ZoneData.ViewIn | tcmu-runner/file_zbc.c:1943-1967 | A zone shows stored blocks below its write pointer and zeros from it on; a conventional zone shows all |
| ZoneData.CheckRdwrExact | tcmu-runner/file_zbc.c:1889-1914 | The range check in 64 bits accepts exactly transfers within the capacity whose segments hold them |
| ZoneData.ReadyKeeps | tcmu-runner/file_zbc.c:2138-2146 | Implicit opening keeps invariant, limit and write pointers |
| ZoneData.PutKeeps | tcmu-runner/file_zbc.c:2157-2183 | Writing blocks and moving the write pointer keeps invariant and limit |
| ZoneData.PutView | tcmu-runner/file_zbc.c:2157-2183 | Written blocks show; else only blocks in a gap above the old write pointer change |
| ZoneData.WriteEffect | tcmu-runner/file_zbc.c:2098-2191 | A write succeeds exactly for one segment in one zone at its write pointer with an open slot; its effect is that write, whatever the status |
| ZoneRuns.ManageView | tcmu-runner/file_zbc.c:1535-1647 | Management changes the view in two ways: reset zeroes a named zone, finish shows what is stored |
| ZoneRuns.StepKeeps | tcmu-runner/file_zbc.c:1434-2191 | Every command and reopening keeps the zone invariant; the open limit is broken by an OPEN ALL of positive balance over explicitly open and closed zones that fit, and by nothing else |
| ZoneRuns.Run | tcmu-runner/file_zbc.c:2217-2271 | Over any run the device stays well formed with the same zones |
| ZoneRuns.RunWithinLimit | tcmu-runner/file_zbc.c:1409-1493 | The open limit holds throughout a run exactly when no command of it is such an OPEN ALL |
| ZoneRuns.LandedIsReported | tcmu-runner/file_zbc.c:2098-2191 | On a host-managed device the status tells which blocks were written |
| ZoneRuns.MirrorWrite | tcmu-runner/file_zbc.c:2098-2191 | There a write is a store into a flat array |
| ZoneRuns.MirrorManage | tcmu-runner/file_zbc.c:1434-1647 | Reset clears, finish restores what was last written, opening and closing show nothing |
| ZoneRuns.ShowsFlatDisk | tcmu-runner/file_zbc.c:1920-2191 | Over any run a host-managed device shows a flat array without write pointers |
| ZoneRuns.GapShows | tcmu-runner/file_zbc.c:2170-2175 | A host-aware write is a plain store exactly when only zeros were stored in the gap it leaves |
| ZoneRead.ReadExact | tcmu-runner/file_zbc.c:1920-2018 | A read that succeeds returns what the device shows exactly when, segment by segment, no block that shows anything but zero lies behind a block at or above its write pointer |
| ZoneRead.ReadOneZone | tcmu-runner/file_zbc.c:1920-2018 | Within one zone it always does, and fails exactly for an empty segment |
| ZoneRead.ReadOverruns | tcmu-runner/file_zbc.c:1950-1956 | A read comes to write past a segment exactly when one of them meets no unwritten block before the zone it ends in, not its first, and leaves data of that zone unread, less than all read before |
| ZoneFaults.HoleHides | tcmu-runner/file_zbc.c:1943-1948 | On every formatted device, for any two neighbouring sequential zones: a block written behind an empty zone reads as zero in one segment over both, as written in two |
| ZoneFaults.SegmentOverrun | tcmu-runner/file_zbc.c:1950-1956 | And with the first written full and two blocks into the second, a read of three blocks comes to write past its segment |
| ZoneFormat.FormatOK | tcmu-runner/file_zbc.c:634-748 | Formatting gives a well-formed device with no open zone and a limit from one to its zones |
| ZoneFormat.ZoneSizePower | tcmu-runner/file_zbc.c:325-337 | The configured zone size in blocks is a power of two |
| ZoneFormat.ReopenKeepsMeta | tcmu-runner/file_zbc.c:535-629 | After any run reopening keeps the metadata exactly when blocks divide the device size and the device is not one zone made conventional by default |
| ZoneReport.MatchesRank | tcmu-runner/file_zbc.c:1300-1362 | Reported zones are all those that match in order and nothing else |
| ZoneReport.PassesAgree | tcmu-runner/file_zbc.c:1300-1362 | A partial report announces exactly what it emits; a full one all matches, below 2^26 of them |
| ZoneStates.OpenLeaves | tcmu-runner/file_zbc.c:1466-1493 | OPEN ZONE succeeds exactly for a full or explicitly open zone or with a slot left; the zone is then explicitly open unless full; of the others only the first implicitly open one is closed, when all slots are taken |
| ZoneStates.CloseLeaves | tcmu-runner/file_zbc.c:1515-1530 | CLOSE ZONE closes an open zone, or empties it if nothing was written, and changes nothing else |
| ZoneStates.FinishLeaves | tcmu-runner/file_zbc.c:1577-1592 | FINISH ZONE leaves the zone full with its pointer at its end, and changes no other |
| ZoneStates.ResetLeaves | tcmu-runner/file_zbc.c:1632-1647 | RESET WP leaves the zone empty with its pointer at its start and its flags clear, and changes no other |
| ZoneStates.NoZone | tcmu-runner/file_zbc.c:1466-1478 | At any other address each of them fails, out of range behind the capacity and with an invalid field elsewhere, and changes nothing |
| ZoneStates.AllLeaves | tcmu-runner/file_zbc.c:1507-1512 | With the ALL bit CLOSE closes every open zone, FINISH fills open and closed ones but not empty ones, RESET empties every sequential one |
| ZoneStates.OpenAllLeaves | tcmu-runner/file_zbc.c:1443-1464 | OPEN ALL leaves every closed zone explicitly open, and changes others only from implicitly open to closed, empty or explicitly open |
| ZoneStates.WriteStatus | tcmu-runner/file_zbc.c:2024-2191 | The status of WRITE for every transfer and segment list, in terms of range, zone, write pointer, slots and first segment |
| ZoneStates.WriteLeaves | tcmu-runner/file_zbc.c:2138-2183 | A write that succeeds moves the pointer to its end and leaves the zone full there, else open as it was or implicitly; of the others only the first implicitly open one is closed, when a slot had to be made |
| ZoneStates.ReopenLeaves | tcmu-runner/file_zbc.c:754-775 | Reopening the device closes every open zone and changes nothing else |
| ZoneStates.FormatLeaves | tcmu-runner/file_zbc.c:634-748 | Where each zone of a formatted device starts, how long it is, its type and condition; the number of conventional zones and the limit |
| ZoneStates.ConditionsListed | tcmu-runner/file_zbc.c:1223-1254 | Under each reporting option for a condition exactly the zones of that condition are listed |
| ZoneStates.ListedOnce | tcmu-runner/file_zbc.c:1223-1254 | Every zone is listed under exactly one of those options, all under option 0, and those with the flag under the two flag options |
| ZoneStates.OptionsExact | tcmu-runner/file_zbc.c:1274-1294 | The options that are refused are those under which no zone could be listed |
| ZoneStates.ThenListed | tcmu-runner/file_zbc.c:1223-1254 | After FINISH, RESET or OPEN a zone is listed under FULL, EMPTY or EXPLICITLY OPEN |
| ZoneStates.FormatListed | tcmu-runner/file_zbc.c:1223-1254 | After FORMAT all sequential zones are listed under EMPTY and all conventional ones under NOT WP |
| Zbc.ZbcDev.Format | tcmu-runner/file_zbc.c:634-748 | The format loop builds exactly those zones |
| Zbc.ZbcDev.Reopen | tcmu-runner/file_zbc.c:754-775 | Reopening closes what was open and ends with counters of zero, though they wrap on the way |
| Zbc.ZbcDev.CloseZone | tcmu-runner/file_zbc.c:1371-1389 | Closes in place, keeping counters equal to the zones in each open condition |
| Zbc.ZbcDev.CloseImpOpenZone | tcmu-runner/file_zbc.c:1394-1404 | The search evicts the first implicitly open zone |
| Zbc.ZbcDev.OpenZone | tcmu-runner/file_zbc.c:1409-1429 | Opens in place with eviction at the limit, counters exact |
| Zbc.ZbcDev.FinishZone | tcmu-runner/file_zbc.c:1535-1555 | Finishes in place, counters exact |
| Zbc.ZbcDev.ResetZone | tcmu-runner/file_zbc.c:1597-1610 | Resets in place, counters exact |
| Zbc.ZbcDev.FindZone | tcmu-runner/file_zbc.c:1204-1218 | The lookup of a zone by block |
| Zbc.ZbcDev.SweepZones | tcmu-runner/file_zbc.c:1507-1512 | The loops over all zones |
| Zbc.ZbcDev.OpenClosedZones | tcmu-runner/file_zbc.c:1457-1461 | The loop that opens closed zones in order, each with its own eviction |
| Zbc.ZbcDev.CountClosed | tcmu-runner/file_zbc.c:1446-1450 | Counts the closed zones |
| Zbc.ZbcDev.ZoneCommand | tcmu-runner/file_zbc.c:1434-1647 | The four commands return the status and leave the device of their specification |
| Zbc.ZbcDev.CheckZones | tcmu-runner/file_zbc.c:2024-2093 | In one zone the check is the write pointer's; a crossing transfer passes exactly outside sequential write required zones and over zones of one type |
| Zbc.ZbcDev.PutBlocks | tcmu-runner/file_zbc.c:2157-2183 | Stores blocks, moves the write pointer, fills the zone at its end |
| Zbc.ZbcDev.WriteLoop | tcmu-runner/file_zbc.c:2125-2188 | The write loop does what one write in one zone does, a second round included |
| Zbc.ZbcDev.WriteBlocks | tcmu-runner/file_zbc.c:2098-2191 | WRITE returns the status and leaves the device of its specification |
| Zbc.ZbcDev.ReadPiece | tcmu-runner/file_zbc.c:1920-1976 | For any transfer: whether a segment is filled, meets another zone type or would be overrun; filled, it holds the stored blocks up to the first one not written and zeros from there on |
| Zbc.ZbcDev.ReadBlocks | tcmu-runner/file_zbc.c:1981-2018 | READ returns the status and blocks of its specification for every segment list, across zones too |
| Zbc.ZbcDev.CountZones | tcmu-runner/file_zbc.c:1300-1326 | The first pass counts the matches, or those that fit with the PARTIAL bit |
| Zbc.ZbcDev.EmitZones | tcmu-runner/file_zbc.c:1334-1362 | The second pass emits the matches in order up to the space left |
| Zbc.ZbcDev.ReportZones | tcmu-runner/file_zbc.c:1259-1366 | Statuses, list length and descriptors of the report |
| Ring.SlotsDiffer | tcmu-runner/libtcmu.c:954-958 | Entries less than a ring apart never share an offset |
| Ring.Device.KernelPut | tcmu-runner/libtcmu.c:960-1017 | Putting an entry at the head keeps the ring well formed |
| Ring.Device.UpdateDevTail | tcmu-runner/libtcmu.c:954-958 | The fetch cursor passes one entry modulo the ring size |
| Ring.Device.GetNextCommand | tcmu-runner/libtcmu.c:960-1017 | Returns the next supported command in ring order; padding, unknown and unsupported ones are passed, unknown ones flagged |
| Ring.Device.FetchedEntryLeft | tcmu-runner/libtcmu.c:1135-1149 | While a command is in flight a fetched command entry is behind the released tail |
| Ring.Device.CommandComplete | tcmu-runner/libtcmu.c:1135-1164 | The response goes into the first command entry not given back, which was fetched; the tail stays behind the fetch cursor; the i-th entry given back carries the i-th completion |
| Ring.Device.Idle | tcmu-runner/libtcmu.c:971-984 | With nothing in flight each id was answered once, and all fetched command entries are given back exactly when no command was dropped for its CDB |
| Wakeups.AioTrack.RequestStart | tcmu-runner/tcmur_aio.c:43-54 | Takes any state of the threads to the next: what is tracked stays the requests started and the completions not announced |
| Wakeups.AioTrack.RequestFinish | tcmu-runner/tcmur_aio.c:56-80 | So does this; the caller is to kick exactly if it announces and no thread is in the wake-up loop |
| Wakeups.AioTrack.WakeupFinish | tcmu-runner/tcmur_aio.c:82-100 | And this; the thread kicks once more exactly if more was announced meanwhile, else no thread is left in the loop |
| Wakeups.OwedCarries | tcmu-runner/tcmur_aio.c:56-100 | Announcing makes a kick owed, and it stays owed until one starts |
| Wakeups.NextKeeps | tcmu-runner/tcmur_cmd_handler.c:57-69 | Every step of any thread keeps the invariant |
| Wakeups.AssertionsHold | tcmu-runner/tcmur_aio.c:63-91 | Both assertions hold wherever a thread comes to them |
| Wakeups.NoLostWakeup | tcmu-runner/tcmur_cmd_handler.c:57-69 | At most one thread kicks, exactly while wake-ups are pending; once all have left, the last kick started after the last completion |
| UnmapSplit.AndMask | tcmu-runner/tcmur_cmd_handler.c:298-313 | Masking with a power of two less one is the remainder |
| UnmapSplit.TerminatesIff | tcmu-runner/tcmur_cmd_handler.c:312-356 | The split loop ends exactly when the granularity is positive or the first piece is the whole range |
| UnmapSplit.PiecesCover | tcmu-runner/tcmur_cmd_handler.c:312-356 | For every granularity and alignment the pieces lie end to end over the range; only the first can be empty |
| UnmapSplit.ChainIn | tcmu-runner/tcmur_cmd_handler.c:312-356 | Every block of the range, and no other, is in a piece |
| UnmapSplit.ChainOrdered | tcmu-runner/tcmur_cmd_handler.c:312-356 | Pieces are in order and do not overlap |
| UnmapSplit.NoPieceCrosses | tcmu-runner/tcmur_cmd_handler.c:298-356 | With alignment equal to granularity and a power of two, each piece is non-empty and within one granule |
| UnmapSplit.FirstPiece | tcmu-runner/tcmur_cmd_handler.c:298-313 | The first piece ends the granularity after the alignment boundary before it, or with the range |
| UnmapSplit.PieceSizes | tcmu-runner/tcmur_cmd_handler.c:312-356 | All pieces but the first and the last are of the granularity, and the last is not longer |
| Unmap.UnmapState.AlignAndSplit | tcmu-runner/tcmur_cmd_handler.c:279-365 | The loop dispatches the pieces until one is refused |
| Unmap.SplitsInOrder | tcmu-runner/tcmur_cmd_handler.c:315-358 | Dispatched are the first pieces in order; the result is the asynchronous one exactly when all are |
| Unmap.WalkResult | tcmu-runner/tcmur_cmd_handler.c:378-416 | Without failure the pieces of all descriptors are dispatched, and the result tells whether the last descriptor was empty |
| Unmap.WalkFine | tcmu-runner/tcmur_cmd_handler.c:378-416 | Dispatching fails exactly when some descriptor does not pass its check or some piece is refused |
| Unmap.CheckedExact | tcmu-runner/tcmur_cmd_handler.c:120-131 | The check of a descriptor in 64 bits passes exactly when it has no more blocks than the limit and none behind the end of the device, and its status tells which fails |
| Unmap.AllCheckedExact | tcmu-runner/tcmur_cmd_handler.c:389-397 | All pass exactly when all are in range |
| Unmap.DispatchedInside | tcmu-runner/tcmur_cmd_handler.c:378-416 | Every piece dispatched lies in a descriptor of the list that is in range, and so on the device |
| Unmap.FirstFailure | tcmu-runner/tcmur_cmd_handler.c:389-397 | The first descriptor out of range ends dispatching with its status |
| Unmap.FirstRefusal | tcmu-runner/tcmur_cmd_handler.c:399-403 | The first piece refused ends it with what was said to it, the pieces before it being dispatched |
| Unmap.UnmapState.DispatchAll | tcmu-runner/tcmur_cmd_handler.c:377-422 | The locked section stores the result and one reference per split |
| Unmap.UnmapState.CallbackSection | tcmu-runner/tcmur_cmd_handler.c:243-261 | A callback keeps the first error, drops a reference, and learns the final status with the last one |
| UnmapRuns.AnsweredOnce | tcmu-runner/tcmur_cmd_handler.c:232-266 | In every schedule the command is finished and the state freed at most once, after the last split, and both have happened when all is quiet |
| UnmapRuns.OutcomeOk | tcmu-runner/tcmur_cmd_handler.c:243-265 | The status is OK exactly when all succeeded, or dispatching itself returned OK |
| UnmapRuns.FirstErrorAt | tcmu-runner/tcmur_cmd_handler.c:243-261 | The error kept is the first one reported |
| UnmapRuns.CommandBegins | tcmu-runner/tcmur_cmd_handler.c:377-422 | Dispatching as the descriptor loop decides is a run, and leaves the shared state of the locked section behind |
| UnmapRuns.CommandEnds | tcmu-runner/tcmur_cmd_handler.c:232-266 | Every run of a command that becomes quiet finishes it with the outcome of the loop's result and one report for each split |
| UnmapRuns.CommandWith | tcmu-runner/tcmur_cmd_handler.c:232-266 | Every list of reports comes up in a run |
| UnmapRuns.ErrorsReportedIff | tcmu-runner/tcmur_cmd_handler.c:399-422 | In every run of a command a split's error is reported, if and only if some descriptor does not pass its check, some piece is refused, the last descriptor is not empty, or all are |
| UnmapRuns.ErrorLost | tcmu-runner/tcmur_cmd_handler.c:399-422 | A run of a command of two descriptors that is answered with OK although its only split reports an error |
| Compound.ChunkWhole | tcmu-runner/tcmur_cmd_handler.c:731-732 | For a block size of 2^k a chunk is a positive number of whole blocks, the least multiple of the transfer limit not below 1 MiB, unless 2^(32 - k) divides the limit; then the limit in bytes wraps to zero, a division by zero |
| Compound.TiledOnce | tcmu-runner/tcmur_cmd_handler.c:590-608 | Chunks end to end lie in order without overlap and together hold exactly the blocks of their range |
| Compound.WriteSame.WorkFn | tcmu-runner/tcmur_cmd_handler.c:560-578 | One write of the current chunk: it holds the pattern exactly if the write succeeded or left it, and no other block changes |
| Compound.WriteSame.Callback | tcmu-runner/tcmur_cmd_handler.c:580-624 | Advances by a chunk, shortens the last one, ends on error |
| Compound.WriteSame.Chain | tcmu-runner/tcmur_cmd_handler.c:560-624 | The writes tile the range from its start, each of the chunk size or what is left; on success they cover it and all of it is the pattern, otherwise what comes before the failed one is, and the status is the failure's; nothing else changes |
| Compound.FormatUnit.WorkFn | tcmu-runner/tcmur_cmd_handler.c:1937-1945 | One write of the current chunk: it is zero exactly if the write succeeded or left zeros, and no other block changes |
| Compound.FormatUnit.Callback | tcmu-runner/tcmur_cmd_handler.c:1947-2009 | On a device of any size: one round of the 32-bit count; ends when the count is the device size, which needs fewer than 2^32 blocks, whatever the last write reported |
| Compound.FormatUnit.Chain | tcmu-runner/tcmur_cmd_handler.c:1947-2066 | The writes tile the device; the status is the last write's; each chunk, and the device, is zeroed exactly when the writes succeeded or left zeros |
| Compound.OneMore | tcmu-runner/tcmur_cmd_handler.c:1947-2009 | One more write keeps the account of what is zeroed, chunk by chunk and as a whole |
| Compound.ErrorForgotten | tcmu-runner/tcmur_cmd_handler.c:1960-2003 | Any device of more than one chunk formatted with status OK whose first chunk is not zero |
| Compound.FormatEndsIff | tcmu-runner/tcmur_cmd_handler.c:1956-1969 | After some number of callbacks the count is the device size exactly when the device has fewer than 2^32 blocks |
| Recovery.Runner.PortIsOnRecoveryList | tcmu-runner/target.c:169-178 | Finds the listed group of a port |
| Recovery.Runner.AddDevToRecoveryList | tcmu-runner/target.c:286-353 | Adds the device to the listed group of one of its ports, or to a new one for the last enabled port |
| Recovery.Runner.NotifyConnLost | tcmu-runner/tcmur_device.c:165-193 | A device neither stopping nor in recovery is flagged and listed once, if the ports can be read and one has a listed group, or one is enabled and a thread starts; it joins the first such group or a new one of the last enabled port; otherwise nothing changes |
| Recovery.AddedExact | tcmu-runner/target.c:286-353 | Listing succeeds exactly in those cases and puts the device there |
| Recovery.Runner.TryReopen | tcmu-runner/tcmur_device.c:121-134 | Fails exactly when the device is in recovery, else takes it |
| Recovery.Runner.TakeFirst | tcmu-runner/target.c:260-261 | A recovery thread takes its first device |
| Recovery.Runner.FinishFirst | tcmu-runner/tcmur_device.c:108-112 | And clears its flag |
| Recovery.ClaimsKept | tcmu-runner/tcmur_device.c:47-134 | Every step keeps a device flagged exactly while one party claims it |
| Recovery.GroupsKept | tcmu-runner/target.c:286-353 | Every step keeps at most one listed group per port |
| Recovery.OneReopener | tcmu-runner/target.c:240-269 | In any interleaving at most one party reopens a device, and one awaiting recovery is on exactly one group's list |
| Recovery.GroupDrained | tcmu-runner/target.c:256-269 | A recovery thread off the list comes to its end by reopening its devices one after the other, and then none of them is in recovery |
| Recovery.LostIsRecovered | tcmu-runner/target.c:240-269 | From any reachable state a device that loses its connection and can be listed comes out of recovery in some run, as it was |
| Recovery.DirectReopened | tcmu-runner/tcmur_device.c:108-134 | A direct reopen flags the device and at its end leaves everything as it was; one of a device in recovery changes nothing |
| Recovery.StepsAreOrderly | tcmu-runner/target.c:240-269 | No step adds a device to a group after its thread unhooked it, and the flag is cleared only at the end of a reopen that found it set |
| Lock.StepKeeps | tcmu-runner/tcmur_device.c:203-266 | Every step keeps releases apart from acquisitions; uniqueness fails exactly by the command thread storing its own result during a lock thread's acquisition, the lock-call rule exactly by a failed wait; stale notices, reopens and releases change nothing during an acquisition |
| Lock.StepFrees | tcmu-runner/tcmur_device.c:203-266 | Outside an acquisition a lost notice or another reopen, and at all times the end of a release, leave UNLOCKED; only the end of an acquisition stores LOCKED, and only a command that finds UNLOCKED stores LOCKING |
| Lock.CallsKept | tcmu-runner/tcmur_device.c:361-388 | Every acquisition calls the lock at most twice, the second time after a fenced call and a successful reopen |
| Lock.OneAcquisition | tcmu-runner/alua.c:561-603 | In every run of a device used as it reports, LOCKING holds exactly while one lock thread is acquiring, and there is never a second acquisition, the command thread's included |
| Lock.SingleUnlessStray | tcmu-runner/alua.c:644-654 | In every run at all, that holds if and only if the command thread stores no result of its own during a lock thread's acquisition |
| Lock.LockedByCall | tcmu-runner/tcmur_device.c:333-396 | Throughout a run LOCKED follows only a lock call that returned OK, if and only if no wait for running commands fails |
| Lock.StrayAcquisition | tcmu-runner/alua.c:644-654 | A run of six steps on a device with implicit failover that is asked to become active, with two lock threads at once |
| Lock.LockedWithoutCall | tcmu-runner/tcmur_device.c:344-391 | In either kind of failover, a run in which LOCKED is stored without a lock call |
| Lock.Device.ImplicitTransition | tcmu-runner/alua.c:561-603 | The status and state of a command that needs the lock |
| Lock.Device.NotifyLockLost | tcmu-runner/tcmur_device.c:203-216 | Drops the lock unless it is being acquired |
| Lock.Device.ReleaseBegin | tcmu-runner/tcmur_device.c:241-252 | A release goes on exactly if the device is LOCKED |
| Lock.Device.ReleaseEnd | tcmu-runner/tcmur_device.c:258-266 | And leaves it UNLOCKED |
| Lock.Device.AcquireDevLock | tcmu-runner/tcmur_device.c:333-396 | At most two lock calls, the second after a fenced first and a reopen; LOCKED exactly for OK |
| Lock.Device.Reopen | tcmu-runner/tcmur_device.c:79-113 | Opens until success, stop or the last retry; the device is open exactly on success, the flag is cleared |

## Left out

- QCOW compressed clusters and zlib; entries with the compressed flag are excluded from well-formed images.
- QCOW entries that carry the zero flag together with a cluster offset or with the COPIED flag are excluded from well-formed images; the source knows the bare flag only and takes such an entry for an odd file offset (qcow.c:1257, 1262, 1312).
- QCOW cache hit counters are unbounded; halving them on overflow tests the wrong slot (qcow.c:738, 882).
- QCOW tables in RAM are held decoded; header parsing and validation are replaced by the geometry of a well-formed image.
- QCOW counts of 64 bits: the range assertion shifts by 64, which C leaves undefined; the model takes the value as it is.
- QcowAlloc.AllocationRun: a request to drop the count of a cluster ahead of the allocator's cursor to zero is passed over; such a cluster could be handed out again.
- QCOW reads that start or end behind the disk, and the `qcow_read`/`qcow_write` wrappers around the vector calls.
- Host file I/O, memory allocation and configfs writes succeed in full, unless a row says otherwise.
- Zbc.ZbcDev.ReadPiece: stops where the source comes to write past the segment (ZoneRead.ReadOverruns); what happens then is not modelled.
- Zone segments are whole blocks; REPORT ZONES descriptors are values, without their byte layout.
- Zone devices of 2^32 zones or more, zones of 2^32 blocks or more, devices without a block; a configuration with options formats on every open.
- Zone INQUIRY, MODE SENSE and READ CAPACITY data, and flushing metadata.
- Ring entries carry the command id and status; sense data, request vectors and the mapping of statuses are not modelled.
- Wakeups.NoLostWakeup: the waiter for an empty queue and the work queue of handler threads; counters are unbounded.
- Unmap.UnmapState.AlignAndSplit: requires a positive granularity, without which the loop may not end (UnmapSplit.TerminatesIff); offsets are in blocks.
- UNMAP parameter parsing, and UNMAP inside WRITE SAME, which after a failed dispatch can return an error and complete later.
- Compound.FormatUnit.Chain: a device that changes size while it is formatted, the progress indication, and failing allocations.
- EXTENDED COPY, COMPARE AND WRITE and their locks.
- Recovery: the kernel's port list is an input; disabling and enabling the port group is not modelled, nor is waiting for running commands.
- Lock: a change between implicit and explicit failover while the device is in use.
- Liveness: condition variables are not modelled, only safety is proved.
- Handlers for RBD and Gluster, D-Bus, netlink, configuration and logging, and all scripts around the daemon.
