# A verified model of the QEMU 0.9.0 disk image core

This project models the storage core of QEMU 0.9.0 in Dafny 4.11: the QCOW2 image format with its
reference counts, copy-on-write clusters and internal snapshots, the older QCOW format, the COW
overlay, the sector and byte layer above them, the AES cipher that encrypts them, and, as an
independent piece of code generation, the ARM literal pool. `dfyconfig.toml` names all files of the
project.

## What is modelled

**QCOW2** (`Qcow2*.dfy`). An open image is an object of class `Qcow2State.BDRVQcowState`: L1 table,
16-slot L2 cache, reference count table with its one cached block, scan position, snapshot list, and
the host file. The host file is a map from cluster number to contents (header, L1/L2 table, reference
count table, count block, data, snapshot table). Reading a cluster as something it is not gives a
stale value that differs from everything the format promises, so a write that is forgotten shows.
Offsets are counted in clusters; byte order is abstracted. Methods follow the C functions statement
by statement and are proved against pure predicates on the value `Qcow2Volume.Vol` of an image:

- `Balanced`: the stored count of every cluster equals the number of references found by walking the
  header, every L1-to-L2-to-data path of the active image and of each snapshot, the snapshot table,
  and the reference count table with its blocks. References are counted per path.
- `FlagsExact`: an entry of the active image carries the copied flag if and only if its cluster has
  count one.
- `Struct`, `Synced`: tables are of the right kind, no cluster is used for two purposes, and the file
  describes the image in memory.
- `View(k, s)`: guest sector `s` of the active image (`k = 0`) or of snapshot `k - 1`, resolved
  through the tables, the cipher and the zero-extended backing file.

Every operation keeps these, and says what it does to every `View`. `Qcow2Run` puts them together: a
flat disk plus a list of frozen disks is the specification, and any sequence of reads, writes,
snapshot create/goto/delete and close/open, from the creation of the image on, returns exactly what
the flat specification returns, however long it is, until an operation comes that the counts at that
moment leave no room for. `Qcow2Check` models the consistency check the source carries and
proves that it is silent exactly on images with `Balanced` and `FlagsExact`; `Qcow2Checked` concludes
that it is silent after every such sequence. `Qcow2Laws` says what the definitions behind all this
mean: which sector of the file a guest sector is, which number in the file a count is, and what a user
of the flat specification relies on (reading back, going back by name). `Qcow2Encrypted` starts from a password instead of an
abstract cipher.

**QCOW** (`Qcow1*.dfy`). The file is a map from byte offset to extent (table, cluster, compressed
chunk). Writing an extent destroys every extent it overlaps, so that nothing overlaps has to be
proved. Compression is a pair of functions where inflating undoes deflating. The cluster that was
decompressed last is part of the state; `Live` images are in order except perhaps for it, `Valid` ones
altogether. `Qcow1Commit` commits such an image into its backing file.

**Block layer and COW** (`BlockBytes`, `Commit`, `Cow`), **AES** (`AesRound`, `Aes`, `AesKey`,
`AesStandard`, `Cbc`, `AesCbc`; sections 5.1, 5.2, 5.3 and 5.3.5 of FIPS 197 and section 6.2 of NIST
SP 800-38A),
**ARM literal pool** (`Arm`). The AES tables are given by S and its inverse and the formulas of the
source's comment; `AesStandard` proves that S is the affine map of the inverse in GF(2^8) and derives the
known answers of appendices A and B of FIPS 197. `AesCbc.SetKey` delivers a cipher of the kind the QCOW2 proofs ask for.

`Division`, `Bits`, `Bytes` and `Buffers` hold arithmetic and sequence facts the rest needs.

## Hypotheses

They appear as `requires` clauses; the code does not keep its invariants without them.

- Host reads and writes succeed, and memory is available.
- No cluster reaches 65535 references: fewer than 65534 snapshots.
- The reference count table has room for the operation. `Room(k)` says that k clusters at its end are
  still free; each operation has a cost in clusters (`GrowCost`, `WriteCost`, `CreateCost`,
  `DeleteCost`) that it takes from the room at most. A run looks at the counts before each operation
  (`HasRoom`, `Try`) and ends where there is no room; the costs of earlier operations do not add up.
  Growing the reference count table is not modelled: the source neither records the new
  table's offset in memory nor frees the old table (sysvm/block-qcow2.c:1933-1938).
- An L1 table or snapshot table takes fewer clusters than one count block describes. Then a new count
  block always lies in the range it describes itself. `Qcow2Placement` follows the code without this
  assumption and proves that, as long as the table need not grow, the cached block survives exactly if
  the next free cluster lies in that range, and what happens when it does not
  (sysvm/block-qcow2.c:1983-1995).
- A snapshot that is gone to has the L1 size of the active image; `SizesStay` shows that this holds in
  every sequence of operations that stays inside the disk. The L1 table is not empty.
- Compressed clusters do not occur in the main refinement; their placement and descriptors are treated
  in `Qcow2Compressed` and `Qcow2Descriptor`, without frees in between. That a shared cluster stays
  below 65535 references is proved: it cannot have more chunks than bytes. Only clusters of 64 KiB
  could, with 65534 or more chunks of a single byte (`CountsSuffice`).
- An L1 or L2 entry without a cluster does not carry the copied flag.
- Asynchronous reads: the exact condition is proved instead of a hypothesis. A request fails if and
  only if the end of the backing file falls inside an unallocated cluster, between two sectors of the
  request (`Straddles`); the synchronous read zero-extends instead.
- QCOW: a compressed write goes to an unallocated, aligned cluster of an unencrypted image, and the
  backing file is as long as the image. Images over a backing file have one-sector clusters, as the
  source creates them.
- Snapshot ids are read on a host whose `unsigned long` has 64 bits, and the addition that makes up a
  new id wraps around at 32 bits, which the C language leaves open.

## Where the code and its documentation differ

- A comment calls the QCOW cluster size of 512 bytes over a backing file a way to avoid copying. It is
  more than that: with larger clusters and a backing file a partial write replaces the rest of the
  cluster by zeros. `FlatIff` gives the exact condition; the images the source creates meet it.
- Emptying a QCOW image resets the L2 cache but not the decompressed cluster, which is recognised by
  its offset only. If the first chunk written afterwards lands at that offset, reading it returns the old
  cluster. `StaleRun` is such a run on a new image, `EmptyPackRead` says for every image what is read,
  `WriteCompressed` and `RightWhateverHeld` give the exact conditions, and `Write` says what a partial
  write makes of the chunk. `Run` includes emptying and ends before the first compressed write that
  would leave a wrong cluster held.
- Committing a COW overlay asks for 65536 sectors at a time without regard to the end of the bitmap.
  `CowRequests` says exactly when it asks for bits behind the bitmap, and from which sector.
- A new snapshot id can be in use already, once an id has reached the largest 32-bit number;
  `NewIdIsNew` says exactly when.
- Decrypting a short tail with CBC leaves the decrypted block, not the cipher text, as chaining value;
  `CbcDecrypt` says so. Callers in the source only pass whole sectors.

## Model

| member | source | states |
|---|---|---|
| `Qcow2Run.RunFromCreate` | sysvm/block-qcow2.c:1050-1140 | any sequence of reads, writes, snapshot create/goto/delete and close/open on a new image returns what a flat disk with frozen copies returns, and leaves a sound image that shows that disk and those copies, up to the first operation for which the count table has no room at that moment; there is none if the costs together fit what creation leaves free |
| `Qcow2Run.Run` | sysvm/block-qcow2.c:496-792 | the same from any sound image that shows a given flat disk, for runs of any length |
| `Qcow2Run.Perform` | sysvm/block-qcow2.c:1548-1694 | one operation takes the image from showing a flat state to showing the next flat state, with the flat state's answer and error code |
| `Qcow2Run.SavedForever` | sysvm/block-qcow2.c:1548-1616 | a snapshot on the list after any sequence of operations is the very one that some create appended, with the disk that was active then, or was there before |
| `Qcow2Run.GotoRestores` | sysvm/block-qcow2.c:1619-1659 | going to a snapshot by its id, whatever happened since, makes the active disk the one that was active when it was taken |
| `Qcow2Run.IdsStayDistinct` | sysvm/block-qcow2.c:1558-1565 | no sequence of operations leads to two snapshots with one id |
| `Qcow2Run.SizesStay` | sysvm/block-qcow2.c:1634-1638 | while all writes stay inside the disk, every snapshot has the L1 size of the active image, so goto's condition holds |
| `Qcow2Run.NewImage` | sysvm/block-qcow2.c:188-300 | a created and opened image is sound, shows the zero-extended backing file, and everything above the clusters that creation uses is free |
| `Qcow2Laws.GuestSector` | sysvm/block-qcow2.c:496-580 | sector k of cluster j under L1 slot i is sector k of the cluster that entry j of the table in slot i names, decrypted under its own number; without table or cluster it is that sector of the backing file, and zero bytes past its end |
| `Qcow2Laws.SnapshotRoot` | sysvm/block-qcow2.c:1619-1659 | the L1 table of a snapshot is the one stored in the file at the offset listed for it |
| `Qcow2Laws.CountOf` | sysvm/block-qcow2.c:1776-1796 | the count of a cluster is the number at its index in the block of its range, zero without a block |
| `Qcow2Laws.SoundMeans` | sysvm/block-qcow2.c:2059-2145 | in a sound image every count is the number of references, and the copied flag of each active L1 and L2 entry is set if and only if that is one |
| `Qcow2Laws.NewDiskReads` | sysvm/block-qcow2.c:714-757 | a new disk reads as its backing file, sector for sector, and as zero bytes past its end |
| `Qcow2Laws.ReadBack` | sysvm/block-qcow2.c:759-792 | what was written is read back, and every other sector as before |
| `Qcow2Laws.Untouched` | sysvm/block-qcow2.c:1548-1694 | each operation leaves alone the disk or the snapshots it is not about, and changes nothing when it fails |
| `Qcow2Laws.DeleteRemoves` | sysvm/block-qcow2.c:1661-1694 | deleting by an id removes that snapshot and keeps the others in order |
| `Qcow2Laws.SaveLists` | sysvm/block-qcow2.c:1548-1616 | a save that succeeds lists the disk with the name, dates, clock and state size given and the id given, or one that reads as the largest number plus one, wrapped at the largest |
| `Qcow2Laws.SaveGotoName` | sysvm/block-qcow2.c:1532-1545 | whatever happened since, going to the name brings back the disk saved under it, if no id equals it and no earlier snapshot has it |
| `Qcow2Checked.RunAndCheck` | sysvm/block-qcow2.c:2147-2198 | after any sequence of operations on a new image the consistency check finds no error, for every file length that covers what was written and the snapshot table |
| `Qcow2Checked.CheckValid` | sysvm/block-qcow2.c:2147-2198 | the check is silent on every image that meets the invariants of the operations |
| `Qcow2Checked.CountedHeld` | sysvm/block-qcow2.c:2032-2057 | in a sound image every counted cluster was written to the file or belongs to the snapshot table |
| `Qcow2Encrypted.EncryptedRun` | sysvm/block-qcow2.c:302-342 | from a password on: the key is expanded as in FIPS 197, the image stores the CBC encryption under it, and any sequence of operations answers as the flat disk while the count table has room |
| `Qcow2Check.CheckRefcounts` | sysvm/block-qcow2.c:2147-2198 | the check counts no error if and only if every reference lies inside the file, fits 16 bits and equals the stored count, and the copied flags of the active image are exact |
| `Qcow2Check.AcceptedIffBalanced` | sysvm/block-qcow2.c:2188-2195 | if the file holds every counted cluster, accepted by the check means the same as the invariants `Balanced` and `FlagsExact` |
| `Qcow2Check.CheckRefcountsL1` | sysvm/block-qcow2.c:2059-2145 | tallies one reference per path under an L1 table, and complains exactly about wrong flags, clusters outside the file and counters that wrap |
| `Qcow2Check.IncRefcounts` | sysvm/block-qcow2.c:2032-2057 | adds one to the tally of exactly the clusters of a run, with a complaint exactly when one is outside the table or wraps |
| `Qcow2Refcount.GetRefcount` | sysvm/block-qcow2.c:1776-1796 | returns the flat map's value, zero outside the table or without a block, and leaves the cached block equal to the one in the file |
| `Qcow2Refcount.LoadRefcountBlock` | sysvm/block-qcow2.c:1763-1774 | afterwards the cache holds the named block as it is in the file |
| `Qcow2Refcount.UpdateClusterRefcount` | sysvm/block-qcow2.c:1947-2008 | changes the count of one cluster, and that of a count block it had to create, and no other; fails exactly if the count would leave 0..65535, and then changes nothing |
| `Qcow2Refcount.CreateRefcountBlock` | sysvm/block-qcow2.c:1967-1987 | the new block takes the next free cluster, counts itself, and is cached as it is in the file |
| `Qcow2Refcount.IncRefcounts` | sysvm/block-qcow2.c:2010-2029 | raises the counts of exactly the clusters of a run, creating at most one block, which lies behind the run |
| `Qcow2Refcount.FreeClusters` | sysvm/block-qcow2.c:1875-1879 | lowers the counts of exactly the clusters of a run; the scan position moves back to a cluster that became free |
| `Qcow2Refcount.AllocClustersNoref` | sysvm/block-qcow2.c:1799-1824 | ends, and returns a run of n free clusters at or after the scan position, before which no other such run starts |
| `Qcow2Refcount.AllocClusters` | sysvm/block-qcow2.c:1826-1833 | returns a run that was free, never cluster 0, with counts now one; the only other count that changes is that of a new count block outside the run; it is the first run from the scan position on that is long enough |
| `Qcow2Placement.CacheCoherentIff` | sysvm/block-qcow2.c:1965-2006 | with all earlier blocks in place and a table that need not grow, an increment that succeeds leaves the cached block equal to the file's if and only if no block was needed or the next free cluster lies in the range of the block made from it |
| `Qcow2Placement.BlockElsewhere` | sysvm/block-qcow2.c:1983-1995 | in every state whose scan stands at the end of a range without a block, with the next block missing too, the cache ends up different from the file, and the count stored for a cluster of that range is too high by one exactly for its first two clusters |
| `Qcow2Placement.ElsewhereExample` | sysvm/block-qcow2.c:1983-1995 | with 512-byte clusters, a full first range and a run of 256 clusters just found, cluster 256 is counted twice |
| `Qcow2Compressed.AllocAll` | sysvm/block-qcow2.c:1837-1873 | over any sequence of alloc_bytes and alloc_clusters calls, up to the first without room, the byte ranges handed out are disjoint, each adds exactly one to the count of each cluster it touches, and besides only new count blocks are counted, which no range touches |
| `Qcow2Compressed.AllocBytes` | sysvm/block-qcow2.c:1837-1873 | the new chunk has the size asked for and keeps clear of all earlier ones, whether it goes behind the last chunk, across the boundary, or to a fresh cluster; the tail that remains is unused; exactly where the chunk goes, across the boundary if the next free cluster is the next one, and where the next one will |
| `Qcow2Compressed.TailCount` | sysvm/block-qcow2.c:1850-1870 | a cluster whose tail is still free has fewer references than the count can hold, since it has no more chunks than used bytes |
| `Qcow2Compressed.ApartBytes` | sysvm/block-qcow2.c:1847-1870 | apart means that the byte ranges in the file do not overlap, and a chunk touches the clusters that have a byte of it |
| `Qcow2Descriptor.DescriptorRoundTrip` | sysvm/block-qcow2.c:617-621 | offset and sector count come back from the packed entry, for every chunk and every offset the field can hold |
| `Qcow2Descriptor.EntryIs` | sysvm/block-qcow2.c:230-232 | the entry as a number: the offset, the sectors less one from bit 70 - cluster_bits on, and bit 62 |
| `Qcow2Descriptor.DescriptorClusters` | sysvm/block-qcow2.c:583-587 | freeing the sectors a descriptor names visits exactly the clusters its chunk touches, and the sectors read for decompression contain the whole chunk |
| `Qcow2Descriptor.CsectorsFit` | sysvm/block-qcow2.c:230-232 | the sector count of any chunk of at most a cluster fits its field, at every alignment |
| `Qcow2Image.L2CacheReset` | sysvm/block-qcow2.c:394-401 | no slot has a key, and the cache is coherent |
| `Qcow2Image.L2CacheNewEntry` | sysvm/block-qcow2.c:403-419 | the slot to evict has no more hits than any other |
| `Qcow2Image.L2CacheHit` | sysvm/block-qcow2.c:548-558 | counts stay below the limit: when one reaches it, all are halved |
| `Qcow2Image.L2CacheLoad` | sysvm/block-qcow2.c:548-571 | the table is in the slot returned, slots stay equal to the tables in the file and keys distinct; a table that was cached stays where it was |
| `Qcow2Image.Release` | sysvm/block-qcow2.c:578-590 | one reference to a shared cluster less; no guest sector changes and the count is one short exactly there |
| `Qcow2Image.Grab` | sysvm/block-qcow2.c:1826-1833 | allocates clusters nothing refers to, without touching anything the image refers to |
| `Qcow2Io.QcowRead` | sysvm/block-qcow2.c:714-757 | returns the guest disk for every range; the cache stays as it is if the range is in one cluster whose table is cached; in clusters without data that is the same sector of the backing file, and zero bytes past its end |
| `Qcow2Io.FindCluster` | sysvm/block-qcow2.c:505-580 | the lookup without allocation returns the cluster the tables in the file name |
| `Qcow2Io.BackingRead` | sysvm/block-qcow2.c:700-712 | the backing file, zero-extended, zero in every byte |
| `Qcow2Io.EnsureL2` | sysvm/block-qcow2.c:513-571 | afterwards the L1 slot has an L2 table of its own, cached and flagged; every guest sector of the active image and of all snapshots reads as before |
| `Qcow2Io.CopySectors` | sysvm/block-qcow2.c:369-392 | stores the encryption of what the guest reads there; the held L2 slot survives the nested read |
| `Qcow2Io.FillCluster` | sysvm/block-qcow2.c:597-613 | whatever the caller will not write holds the old guest data, before and behind |
| `Qcow2Io.EnsureData` | sysvm/block-qcow2.c:573-631 | afterwards the guest cluster has a data cluster with one reference; all guest sectors except those about to be written read as before |
| `Qcow2Grow.GrowL1Table` | sysvm/block-qcow2.c:427-481 | the table has the grown size, no guest sector changes, counts and flags stay exact, the old table is free |
| `Qcow2Grow.GrownByHalf` | sysvm/block-qcow2.c:439-441 | the grown size follows by half, rounded up, from a size that was too small |
| `Qcow2Write.GetClusterOffset` | sysvm/block-qcow2.c:496-631 | the cluster returned belongs to the active image alone, and only the sectors about to be written may read differently |
| `Qcow2Write.QcowWrite` | sysvm/block-qcow2.c:759-792 | a write of any alignment and length updates those sectors of the active disk and no sector of it or of a snapshot otherwise, encrypted or not |
| `Qcow2Aio.AioRead` | sysvm/block-qcow2.c:805-889 | the callback is called once: with an error exactly if the backing file ends inside an unallocated cluster of the request, else with success and the same buffer as a synchronous read, in segments that tile the request and each lie in one cluster; in clusters without data the buffer has the same sector of the backing file |
| `Qcow2Aio.StraddleReads` | sysvm/block-qcow2.c:852-866 | with 4096-byte clusters over a backing file of one sector, the asynchronous read of the first two sectors of an image without L2 tables fails, and the synchronous one gets the sector and zeros |
| `Qcow2Aio.AioWrite` | sysvm/block-qcow2.c:923-983 | the callback is called once with success, the image is the one a synchronous write leaves, and the segments tile the request |
| `Qcow2Aio.TileOrder` | sysvm/block-qcow2.c:837-850 | segments that tile a request lie in it one behind the other, each in one cluster |
| `Qcow2Aio.TileCovers` | sysvm/block-qcow2.c:837-850 | and every sector of the request is in one of them |
| `Qcow2Pass.UpdateRoot` | sysvm/block-qcow2.c:1287-1344 | adds the addend once per reference to everything under an L1 table and makes all its copied flags exact |
| `Qcow2Recount.UpdateSnapshotRefcount` | sysvm/block-qcow2.c:1250-1363 | counts change by the addend times the references of that tree, flags of the active image become exact when it is walked, no guest disk changes, the L2 cache is empty |
| `Qcow2SnapTable.ComputeSize` | sysvm/block-qcow2.c:1445-1454 | the size pass computes the bytes the table takes, padding included |
| `Qcow2SnapTable.WriteTable` | sysvm/block-qcow2.c:1457-1482 | every header and its strings stand at their aligned offsets, and no byte outside the table changes |
| `Qcow2SnapTable.ReadTable` | sysvm/block-qcow2.c:1379-1432 | wherever a table is stored, reading returns its list and its size |
| `Qcow2SnapTable.TableRoundTrip` | sysvm/block-qcow2.c:1379-1502 | what was written is read back, with its size, for every list with NUL-free strings and field values in range, whatever the padding holds |
| `Qcow2SnapTable.HeaderRoundTrip` | sysvm/block-qcow2.c:82-100 | every field of a snapshot header survives big-endian encoding |
| `Qcow2SnapTable.StoredMeans` | sysvm/block-qcow2.c:82-100 | each field of a stored entry stands at its offset in the header, most significant byte first, and the characters of id and name follow |
| `Qcow2SnapIds.FindSnapshotById` | sysvm/block-qcow2.c:1520-1530 | the first snapshot with the id, and failure exactly if there is none |
| `Qcow2SnapIds.FindSnapshotByIdOrName` | sysvm/block-qcow2.c:1532-1545 | an id wins over a name, the first of either is chosen, failure exactly if there is neither |
| `Qcow2SnapIds.FindNewSnapshotId` | sysvm/block-qcow2.c:1504-1518 | with numbers cut to 32 bits as the source does, the id made up is in use only if the largest number has wrapped around |
| `Qcow2SnapIds.NewIdIsNew` | sysvm/block-qcow2.c:1504-1518 | the new id is in use if and only if some id reads as the largest 32-bit number and another one is the number it wraps around to |
| `Qcow2SnapIds.NewIdTaken` | sysvm/block-qcow2.c:1504-1518 | two ids for which the new id is one of them |
| `Qcow2SnapIds.NewIdReads` | sysvm/block-qcow2.c:1504-1518 | the new id reads as the largest number plus one, 1 if there is none, and wraps around only at the largest 32-bit number |
| `Qcow2SnapIds.ReadDecimal` | sysvm/block-qcow2.c:1504-1518 | a printed number up to the largest one reads back as itself |
| `Qcow2Snapshot.WriteSnapshots` | sysvm/block-qcow2.c:1435-1502 | the list in the file is the list in memory, the old table is free, counts are exact, no guest disk changes |
| `Qcow2Snapshot.QcowSnapshotCreate` | sysvm/block-qcow2.c:1548-1616 | fails exactly if the id is in use and then changes nothing; else the new snapshot reads as the active disk, all others and the active disk as before, and the image is sound, listed with the name and the other information given |
| `Qcow2Goto.QcowSnapshotGoto` | sysvm/block-qcow2.c:1619-1659 | fails exactly if no snapshot is selected; else the active disk reads as the selected snapshot, every snapshot as before, and the image is sound |
| `Qcow2Delete.QcowSnapshotDelete` | sysvm/block-qcow2.c:1661-1694 | fails exactly if no snapshot is selected; else that snapshot is gone, the active disk and the others read as before, and the image is sound |
| `Qcow2Open.QcowCreate` | sysvm/block-qcow2.c:1050-1140 | the file has header, empty L1 table, reference count table and one count block that counts them |
| `Qcow2Open.FreshMeans` | sysvm/block-qcow2.c:1050-1140 | cluster by cluster what creation leaves: header, L1 table without entries, count table naming one block, and the block with ones up to itself |
| `Qcow2Open.CreateRefcountUpdate` | sysvm/block-qcow2.c:1032-1048 | one more reference to exactly the clusters of a run |
| `Qcow2Open.FreshSound` | sysvm/block-qcow2.c:1050-1140 | the file of a new image is sound and shows the zero-extended backing file |
| `Qcow2Open.L1ForCovers` | sysvm/block-qcow2.c:1085-1091 | the L1 table of a new image reaches every sector of the disk |
| `Qcow2Open.L1ForLeast` | sysvm/block-qcow2.c:1085-1091 | and it is no larger than that takes |
| `Qcow2Open.QcowOpen` | sysvm/block-qcow2.c:188-300 | opening a sound file gives a valid image that is the one found in the file |
| `Qcow2Open.Reopen` | sysvm/block-qcow2.c:188-300 | closing and opening gives the same image back, so nothing lives in memory only |
| `Qcow1Run.Run` | sysvm/block-qcow.c:490-614 | any sequence of reads, writes, compressed writes to fresh clusters and emptying answers as a flat disk, up to the first compressed write that would leave a wrong cluster held; there is none if a plain write comes before the first compressed one after emptying; extents stay disjoint, and until the image is emptied new ones start at or past the old end of the file |
| `Qcow1Run.StaleRun` | sysvm/block-qcow.c:792-810 | on every new image: after writing a compressed, reading it, emptying and writing b compressed, the disk has b and the read returns a |
| `Qcow1Run.ReadBack` | sysvm/block-qcow.c:490-523 | on the flat disk what was written, compressed or not, is read back, other sectors as before, and an emptied disk reads as the backing file |
| `Qcow1Run.Create` | sysvm/block-qcow.c:738-790 | a new image is valid, shows the backing file or zeros, and has one-sector clusters if there is a backing file, which is what flat updates need |
| `Qcow1Run.L1Covers` | sysvm/block-qcow.c:768-769 | the L1 table of a new image reaches every sector |
| `Qcow1Image.Write` | sysvm/block-qcow.c:490-523 | written sectors read as written; in clusters the write allocates the other sectors read as zeros, everything else as before, encrypted or not; the file grows only at its end; if a wrong cluster is held, it becomes the rest of the chunk it is named for exactly if the write reaches that chunk without having unpacked another first |
| `Qcow1Image.WrittenMeans` | sysvm/block-qcow.c:490-523 | sector by sector what a write leaves: the data, zero bytes in the rest of a cluster it allocates, no change elsewhere |
| `Qcow1Image.GetClusterOffset` | sysvm/block-qcow.c:255-379 | the sector's cluster is uncompressed afterwards; sectors that will not be written keep their contents, zeros if the cluster is new, and a chunk that is partly overwritten is unpacked, from the held cluster if the offsets agree |
| `Qcow1Image.LoadTable` | sysvm/block-qcow.c:284-317 | the table is in the slot returned and every slot still equals the table in the file it is named after |
| `Qcow1Image.NewTable` | sysvm/block-qcow.c:267-283 | a new L2 table past the end of the file; no sector changes, and no cached key equals its offset |
| `Qcow1Image.AppendCluster` | sysvm/block-qcow.c:341-365 | a new cluster past the end of the file whose sectors outside the write decrypt to zeros |
| `Qcow1Image.DecompressCluster` | sysvm/block-qcow.c:424-443 | on images in order the decompressed cluster is that of the chunk asked for; otherwise it is the held one exactly if the offsets agree |
| `Bytes.EncryptSectors` | sysvm/block-qcow.c:220-240 | each sector is encrypted or decrypted under its own number |
| `Qcow1Ops.AioRead` | sysvm/block-qcow.c:536-614 | returns the guest disk for every range on images in order; else says for each sector whether it gets the held cluster, which happens until the request comes to another chunk; the alignment error cannot occur |
| `Qcow1Ops.RightWhateverHeld` | sysvm/block-qcow.c:430-440 | a read is right whatever cluster is held if and only if it does not come first to the chunk at the held offset |
| `Qcow1Ops.EmptyPackRead` | sysvm/block-qcow.c:792-870 | after emptying, writing a cluster compressed and reading it, the disk has the cluster, and the read returns it unless the chunk landed at the offset held from before; then it returns the cluster held |
| `Qcow1Ops.WriteCompressed` | sysvm/block-qcow.c:814-870 | refuses anything but a whole cluster; else the disk has the cluster, compressed or not, and nothing else changes; the held cluster stays right if and only if the chunk does not land at its offset, or is the same again |
| `Qcow1Ops.AppendChunk` | sysvm/block-qcow.c:366-376 | a chunk at the end of the file, disjoint from every extent, although its entry is stored first |
| `Qcow1Ops.IsAllocated` | sysvm/block-qcow.c:381-395 | reports a run of at least one sector that is allocated or unallocated as a whole, as commit requires |
| `Qcow1Ops.MakeEmpty` | sysvm/block-qcow.c:792-810 | the image is in order and shows its backing file; the held cluster is kept |
| `Qcow1Ops.EmptiedShowsBase` | sysvm/block.c:490-491 | once the base has what the guest saw, the emptied overlay shows the same disk |
| `Qcow1Ops.FlatIff` | sysvm/block-qcow.c:340-366 | a write updates its own sectors and no other if and only if, in the clusters it allocates, the base was zero outside the write |
| `Qcow1Ops.AlwaysFlat` | sysvm/block-qcow.c:340-366 | without a backing file, or with one-sector clusters, every write is a flat update |
| `Qcow1Ops.NeighbourLost` | sysvm/block-qcow.c:341-346 | with 4096-byte clusters over a backing file, a one-sector write makes the next sector read as zeros |
| `Qcow1Disk.AddExtent` | sysvm/block-qcow.c:333-346 | an extent past the end of the file overlaps nothing and changes no sector |
| `Qcow1Disk.WriteInside` | sysvm/block-qcow.c:501-513 | a write inside the cluster of one guest cluster changes the sectors it covers and no others |
| `Qcow1Disk.SetEntry` | sysvm/block-qcow.c:371-376 | redirecting one entry to an extent of its own keeps every extent used once and changes only that cluster |
| `Qcow1Disk.GuestSector` | sysvm/block-qcow.c:255-330 | which sector of the file, or of which inflated chunk, a guest sector is, decrypted or not; else that of the backing file or zero bytes |
| `Qcow1Descriptor.DescriptorRoundTrip` | sysvm/block-qcow.c:367-368 | offset and byte count come back from the packed entry, and the flag is set |
| `Qcow1Descriptor.EntryIs` | sysvm/block-qcow.c:367-368 | the entry as a number: the offset, the byte count from bit 63 - cluster_bits on, and bit 63 |
| `Qcow1Commit.BdrvCommit` | sysvm/block.c:454-494 | a QCOW image committed by its own is_allocated, read and make_empty: the base gets the merged disk, sectors of other clusters keep theirs, the guest sees the same disk over the new base, the image is empty and in order; the error codes and that errors change nothing |
| `Commit.BdrvCommit` | sysvm/block.c:454-494 | for any driver that reports uniform runs: terminates, the base becomes the merged view below the overlay's size, the guest sees the same, also when the overlay is emptied; the error codes and that errors change nothing; the overlay is emptied exactly if its driver can be |
| `Commit.CowRunUniform` | sysvm/block-cow.c:126-144 | the COW driver's answer is a uniform run and the longest one within the request |
| `Commit.CowRequests` | sysvm/block.c:471-488 | a commit asks the COW driver for bits behind the bitmap exactly if full requests leave more of the bitmap's last uniform run than the bits that fill up its last byte; that request starts where those leave off |
| `BlockBytes.PreadEm` | sysvm/block.c:560-602 | for every offset and count, that slice of the byte view |
| `BlockBytes.PwriteEm` | sysvm/block.c:604-650 | exactly those bytes change, in the partly covered first and last sectors too |
| `Cow.SetBit` | sysvm/block-cow.c:112-115 | sets one bit of the bitmap and leaves all others |
| `Cow.BitOf` | sysvm/block-cow.c:117-120 | sector n is bit n mod 8, from the least significant, of byte n / 8 |
| `Cow.IsChanged` | sysvm/block-cow.c:126-144 | the state of the first sector and the length of the longest run within the request that shares it; asks for a bit behind the bitmap exactly if the request goes past its end and all bits up to there agree |
| `Cow.BDRVCowState.Read` | sysvm/block-cow.c:153-180 | the overlay where a bit is set, else backing file or zeros; fails exactly if the backing file is too short |
| `Cow.BDRVCowState.Write` | sysvm/block-cow.c:182-195 | the written sectors of the guest disk change and no others |
| `Aes.DecryptEncrypt` | sysvm/aes.c:1079-1264 | for any round keys and any number of rounds, decrypting with the reversed, inverse-mixed schedule undoes encrypting |
| `Aes.Backwards` | sysvm/aes.c:1079-1264 | after i rounds, decryption holds the state encryption had before its last i rounds, as section 5.3.5 of FIPS 197 says |
| `Aes.AesEncrypt` | sysvm/aes.c:888-1073 | the table-driven two-rounds-per-turn loop computes the cipher of section 5.1 of FIPS 197 |
| `Aes.AesDecrypt` | sysvm/aes.c:1079-1264 | the table-driven loop computes the equivalent inverse cipher |
| `Aes.TeRoundIsRound` | sysvm/aes.c:888-1073 | a round by the Te tables is substitution, row shift, column mix and key addition |
| `Aes.TdRoundIsRound` | sysvm/aes.c:1079-1264 | a round by the Td tables is the inverse round with an inverse-mixed key |
| `AesRound.SubstInverse` | sysvm/aes.c:659-724 | the byte table in Td4 inverts the one in Te4 |
| `AesStandard.SubstIsAffine` | sysvm/aes.c:329-393 | section 5.1.1 of FIPS 197: every byte but 0 has an inverse in GF(2^8), and the byte in Te4 is the affine map of it, that of 0 for 0 |
| `AesRound.MixInverse` | sysvm/aes.c:49-61 | the column matrix of the Td tables inverts that of the Te tables over GF(2^8) |
| `AesKey.RconPowers` | sysvm/aes.c:725-729 | the round constants are the powers of two in GF(2^8) |
| `AesKey.SetEncryptKey` | sysvm/aes.c:734-830 | fails exactly for other key lengths than 128, 192 and 256 bits; else the key expansion of section 5.2 of FIPS 197, and the number of rounds |
| `AesKey.InvertSchedule` | sysvm/aes.c:849-879 | reversing and mixing in place gives the schedule decryption needs |
| `AesKey.SetDecryptKey` | sysvm/aes.c:835-881 | the schedule is the inverse of the key's encryption schedule |
| `AesKey.ScheduleUnique` | sysvm/aes.c:734-830 | a key has one expansion |
| `AesStandard.ScheduleExample` | sysvm/aes.c:734-830 | the first and the last expanded word of appendix A.1 of FIPS 197 |
| `AesStandard.KeyExpansion192` | sysvm/aes.c:780-800 | the first expanded word of appendix A.2 |
| `AesStandard.KeyExpansion256` | sysvm/aes.c:801-830 | the first expanded words of appendix A.3, with the word that is substituted but not turned |
| `AesStandard.CipherExample` | sysvm/aes.c:888-1073 | appendix B: from the bytes of the key and of the plaintext to those of the ciphertext |
| `Cbc.CbcRoundTrip` | sysvm/aes.c:1268-1317 | decrypting undoes encrypting for every length, short tails included, for any invertible block cipher |
| `Cbc.CbcPieces` | sysvm/aes.c:1268-1317 | encrypting a sequence equals encrypting its block-aligned parts with the chaining value carried over |
| `Cbc.CbcBlock` | sysvm/aes.c:1279-1297 | section 6.2 of NIST SP 800-38A: each block is the cipher of the plaintext, zero past its end, combined with the block before it or the initialisation vector |
| `AesCbc.CbcEncrypt` | sysvm/aes.c:1279-1297 | the loop over the buffers computes CBC, also in place, and writes nothing else |
| `AesCbc.CbcDecrypt` | sysvm/aes.c:1298-1316 | the same for decryption, and what the chaining value is afterwards |
| `AesCbc.EncryptSectors` | sysvm/block-qcow2.c:347-367 | each sector is processed on its own with its number as chaining value, so any part of a written range decrypts; bytes behind the run stay |
| `AesCbc.SectorIvNumber` | sysvm/block-qcow2.c:357-360 | the chaining value of a sector is its number modulo 2^64, least significant byte first, and eight zero bytes |
| `AesCbc.SectorBlock` | sysvm/block-qcow2.c:347-367 | how each block of an encrypted sector follows from the sector, its number and the block before |
| `AesCbc.SectorsDiffer` | sysvm/block-qcow2.c:347-367 | equal sectors at different places are stored differently, for every injective block cipher |
| `AesCbc.SectorRoundTrip` | sysvm/block-qcow2.c:347-367 | decrypting a sector undoes encrypting it |
| `AesCbc.SectorCipherInvertible` | sysvm/block-qcow2.c:347-367 | the sector cipher meets what the image formats ask of it |
| `AesCbc.SetKey` | sysvm/block-qcow2.c:302-342 | any password gives a pair of schedules whose sector cipher is invertible; the key is the first 16 bytes of the password, filled up with zeros |
| `Arm.FlushLdr` | sysvm/dyngen.h:166-245 | succeeds exactly if every constant is in reach; then every recorded instruction decodes to the address of its own copied constant, its other bits are unchanged, no other word changes, and the branch lands behind the pool and is unconditional; the limits of each kind of instruction |
| `Arm.PatchReaches` | sysvm/dyngen.h:194-242 | a patched ldr, ldc or add reaches the offset it was given and keeps the bits that are not part of it |
| `Arm.LdrMeans` | sysvm/dyngen.h:204-225 | the bits by which a load reaches its address, and those a patch keeps |
| `Arm.LdcMeans` | sysvm/dyngen.h:211-228 | the same for a coprocessor load |
| `Arm.AddMeans` | sysvm/dyngen.h:218-231 | the same for an addition to the program counter |
| `Arm.RelocKeeps` | sysvm/dyngen.h:161-164 | relocation adds to the 24-bit field and keeps condition and operation |
| `Arm.BranchLands` | sysvm/dyngen.h:161-164 | the branch word encodes the jump over d words |
| `Arm.JumpField` | sysvm/dyngen.h:183-186 | the jump over d words is an always branch with field d - 2 |

## Left out

- Growing the reference count table and going to a snapshot of another L1 size: excluded by the hypotheses.
- Host I/O errors, short reads and allocation failure in the image formats.
- Compressed clusters in the QCOW2 refinement: placement and descriptors are proved, reading them through the guest disk is not.
- Compressed writes mixed with frees or over allocated clusters: the remembered free byte can outlive its cluster, and an existing cluster is returned unchanged.
- The compressors themselves: a pair of inverse functions, in QCOW only.
- Asynchronous reads and writes that overlap in time: a request is driven to its end before the next starts.
- The write callback of QCOW, which would repeat the QCOW2 one.
- Qcow2Run.Run: ends before an operation if the clusters at the end of the count table, as many as that operation costs at most, are not all free, although it might do with free clusters further down; beyond that the source would grow the table, which it cannot do soundly. The same holds for Qcow2Run.RunFromCreate, Qcow2Checked.RunAndCheck, Qcow2Encrypted.EncryptedRun and Qcow2Compressed.AllocAll.
- Qcow2Refcount.UpdateClusterRefcount: not the growth of the table, and a new block only inside the range it describes; the other placement is in Qcow2Placement.
- Qcow2Refcount.CreateRefcountBlock: a block only inside the range it describes; the other placement is in Qcow2Placement.
- Qcow2Refcount.IncRefcounts: runs that need no table growth and no block elsewhere.
- Qcow2Refcount.AllocClusters: runs shorter than one count block's range, with room left in the table.
- Qcow2Goto.QcowSnapshotGoto: only snapshots of the active L1 size; with another one the source can leave a size in memory that differs from the one in the header.
- Qcow2Io.QcowRead: images without compressed clusters.
- Qcow2Io.EnsureData: images without compressed clusters, so an old chunk is never freed.
- Commit.BdrvCommit: an overlay as flags and sectors; Qcow1Commit.BdrvCommit does it with a driver's own operations.
- Qcow2Check.CheckRefcounts: entries with the compressed flag are not walked, since the main model has none; the same holds for Qcow2Check.CheckRefcountsL1.
- Committing a COW overlay after it has asked for bits behind its bitmap: what the driver finds there is not modelled.
- Arm.FlushLdr: an out-of-range offset ends with failure, where the source aborts the program.
- Opening, closing and probing beyond reading the tables; header fields other than table locations, sizes and snapshot count.
- Paths, driver registration, boot sector handling, raw devices, and the read-only formats (vmdk, bochs, vpc, cloop, dmg).
- Code generation other than the ARM literal pool.
