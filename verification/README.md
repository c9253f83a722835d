# smashfs: a verified model

smashfs is a read-only compressed file system. `mkfs` scans a source tree, shares equal files and
links, lays all node contents end to end, cuts that stream into blocks, compresses the blocks in
several threads, and writes a bit-packed block table, a bit-packed and compressed inode table and a
super block. Two independent readers undo this: the extraction tool `unfs` and a kernel module, which
adds random access, resumable directory listing and lookup by name.

This project models that pipeline in Dafny and proves that what goes in comes out. The programs' loops
and updates in place are methods on classes and arrays; each is proved against a function or relation
on values, and the theorems are about those.

## Main results

- `EndToEnd.PackAndExtract`: packing a tree with the builder and extracting it with the tool into a new
  directory adds the source's names, types, file bytes and link targets to the disk and changes no other
  content, for every tree, block size, compressor obeying its law, number of jobs, hash function and
  option. The modes and ids handed to chmod and lchown are the source's, up to the options, if and only
  if nothing is shared or equal files, and equal links, show the same ones. `EndToEnd.PackAndExtractModest`
  says so of every source of up to six million items and 2 GiB, with nothing else assumed, and
  `RoundTrip.WholeImage` says it of the format itself, with the traversal's one result.
- `Extraction.ModesLand`, `Extraction.IdsLand` and `Extraction.RootModeLands`: where the modes and ids
  handed out land on the disk. Every item below the root gets its ids; it has its mode in the end if and
  only if the last link visited after it that leads to it, if any does, has the same mode. The root's
  mode and ids land on the directory the tool was started in.
- `Unfs.Extract`: on every disk and image on which it ends, built or not, the tool makes the calls its
  traversal comes to, unreadable blocks and failed calls included. `Delivery.ReadersAgree` says on which
  images both readers' loops deliver the same.
- `Outcomes.ComesBackExactly` and `Returning.ComesBack`: the tool comes back to the directory a traversal
  started in, having made everything where it belongs, when every file and link below can be read; without
  links it does so only then, and stands in a higher directory otherwise.
- `Endings.EndsExactly` and `Outcomes.ExtractionHaltsExactly`: a traversal ends if and only if no path of
  directory entries comes to a node twice and every node on one lies inside the image and parses, on every
  disk, and so for an extraction of a readable image into a new directory.
- `Output.OutputWrite`: the builder writes exactly the image the format defines, or nothing, and
  nothing exactly when a block or the inode table does not compress into its own size. What that image is, in
  numbers: `Layouts` says which byte and bit holds what, `Packing.PackingOrder` in which order nodes are packed,
  and `LeastWidths` that every field is as narrow as can be.
- `UtHash.Table`: the hash table with its bucket chains, application-order list, bucket doubling and
  list merge sort; `HashList.SortList` relinks any list into the sorted one for any comparator.
- `Workers.EverySchedule`: in every interleaving of the compression threads no block is claimed twice,
  the run ends, nobody waits for ever, and the table is the sequential one or some block cannot be
  compressed.
- `RandomAccess.ReadAgrees`: on every image, not only built ones, the kernel's arithmetic reads the
  slice of what a sequential reader gets; `KernelRead.SuperInfo.NodeRead` reads it off a device.
- `KernelDir.ListAll`: whatever the caller takes per call, the items listed are a prefix of the
  listing, each once and in order. `KernelDir.Lookup` with `KernelDir.ExitExactly`: stopping early is a full
  scan exactly when no entry before the first with the name begins above it, as in every directory the
  builder makes, for signed and for unsigned characters. `KernelTree.KernelShowsSource`: lookups
  from the root of an image follow exactly the paths of its source, to nodes with the type, bytes and
  listing of the item there, so both readers show one tree. `KernelTree.ListAt` and `KernelTree.PageAt` say what
  a listing and a page read at a path are.
- `Devices.Device.Read`: exactly the wanted device bytes arrive, every index is in bounds, and every
  buffer head got is put once on every way out.

## Layout

| module | file | models |
|---|---|---|
| Seqs, Bits, Fields | Seqs.dfy, Bits.dfy, Fields.dfy | pieces end to end, bit strings, records of bit fields |
| BitBuffers, Buffers | BitBuffer.dfy, Buffer.dfy | the bit buffer and the growing byte buffer |
| MergeSort, HashList, UtHash | MergeSort.dfy, HashList.dfy, UtHash.dfy | uthash: what its sort computes, the list, the table |
| Compressors, Workers | Compressor.dfy, Workers.dfy | the compressor's law and the compression threads |
| Format | Format.dfy | the image as a function of the node table |
| Reader | Reader.dfy | what a reader makes of an image, as functions and relations |
| Widths, Packing, Tables, Directories, Mounting | one file each | the format read back, part by part |
| LeastWidths, Layouts | one file each | the widths an image is written with; what stands where in it |
| Scanning, Sharing, RoundTrip | one file each | scanning on values; what sharing keeps; the whole round trip |
| Builders, Measuring, Serialising, Output | Builder.dfy and one file each | the builder itself |
| Volumes, Walking | Volume.dfy, Walking.dfy | table lookups and directory walks |
| Extraction, Replacing | one file each | a disk with links, modes and owners, and what a traversal does to it, to free space and to names already there |
| Delivery | Delivery.dfy | what the tool reads of a node |
| Traversals | Traversals.dfy | what traversing any image comes to, and when it ends |
| Returning, Endings, Outcomes | one file each | when a traversal comes back and when it ends, told from its steps, from the entries, and from image and disk |
| Samples | Samples.dfy | small images on which the readers go wrong |
| Unfs, EndToEnd | Unfs.dfy, EndToEnd.dfy | the extraction tool; packing and extracting |
| Limits, Sources | Limits.dfy, Sources.dfy | how much a table, and a source, may hold for nothing to be cut off |
| Devices, RandomAccess, KernelRead, KernelDir, KernelImages, KernelTree | Device.dfy and one file each | the kernel module's read paths |

`dafny verify dfyconfig.toml` checks everything.

## Where code and documentation differ

- smashfs's own README.md says the blocks table is stored compressed (lines 34-36). The code writes it as
  it is (src/mkfs/mkfs.c:801), and so does the model.
- The tool traverses the root as "./" and sets its mode and ids only after leaving it again
  (src/mkfs/unfs.c:348,412-413,731), so they land on the directory the tool was started in
  (`Extraction.RootModeLands`, `Extraction.IdsLand`). The output directory keeps what mkdir gave it.
- chmod follows symbolic links (src/mkfs/unfs.c:412), so a link visited after its target gives it the
  link's mode: a file of mode 0755 beside a link to it ends with 0777 (`Extraction.LinkSpoilsMode`).
- A file or link that cannot be read in full costs a chdir("..") that no chdir went before
  (src/mkfs/unfs.c:368,391), so the items behind it are created in a higher directory
  (`Extraction.BrokenDisplaces`; `Samples.BrokenExtracts` is an image). `Outcomes.ComesBackExactly` says
  when that does not happen. With a link in the way the tool can end up where it was all the same
  (`Returning.LinkBringsBack`).
- A directory that leads back to itself is traversed for ever (`Samples.LoopForEver` is an image), unless
  something keeps the tool from entering it, like an empty name (`Outcomes.EmptyNameHalts`).
- Of a block that uncompresses to less than its size the tool hands on memory it never wrote, where the
  kernel reports an error (src/mkfs/unfs.c:169-174, src/linux/super.c:515-519; `Delivery.ReadersAgree`,
  and `Samples.ShortBlock` is an image).
- The "minimum" times are minima of running maxima, hence those of the first node scanned
  (`Widths.MinOfMaxIsFirst`). A later node's time that lies before it does not survive
  (`Sources.OlderFile`), and `Tables.CtimeRecovers` and `Tables.MtimeRecovers` say exactly when a time does.
- The extraction tool returns the bare differences of the times; only the kernel adds the minima.
- With the modification time switched off the kernel's modification time is the change time's
  difference on top of the modification minimum (`Tables.MtimeRecovers`).
- The comparator for the packing order is not transitive (`Packing.SortByTypeNotTransitive`), exactly when a
  file without a dot is in a group with two files whose endings differ (`Packing.TransitiveExactly`); the groups are
  in order all the same (`Packing.GroupsInOrder`), which is all the readers need.
- A listing's "." carries the inode's own number while ".." and the entries carry numbers plus one
  (src/linux/super.c:680-684,770); the model does the same.

## Assumptions

The block size is a power of two from 2^12 to 2^20. The single source is a directory, allocations
succeed, at least one job runs, names and link targets hold no NUL. Everything packed fits 32 bits and
every bit position an `int` (`Tables.Fits`, `Output.Packable`); every source of up to six million items
and 2 GiB in all with 32-bit ids and times meets that (`Sources.SourceSuffices`), and
`Sources.EmptySource` is a source that meets every assumption at once. The compressor is any pair of
functions such that uncompressing what compressing wrote gives the source back (`Compressors.Lawful`);
storing unchanged is one (`Compressors.NoneLawful`). The extraction tool may do what it calls for: no
call fails for want of permission or space, and it follows up to 40 links on a path. Its traversal ends
and stays inside the image (`Traversals.Halts`), as it does on every built image. The kernel reads images
whose every byte has an int for an offset; a source of up to 1.878 GB in all gives one
(`Sources.SourceCarried`).

## Model

| member | source | states |
|---|---|---|
| BitBuffers.OrBit | src/mkfs/bitbuffer.c:111 | ORing a masked bit into a byte changes that bit only, and only to 1 |
| BitBuffers.BitBuffer.Init | src/mkfs/bitbuffer.c:38-56 | a fresh buffer of the given size with no bit set |
| BitBuffers.BitBuffer.PutBit | src/mkfs/bitbuffer.c:105-113 | the bit at the position becomes the OR with the value's lowest, everything else stays, the position moves by one |
| BitBuffers.BitBuffer.PutBits | src/mkfs/bitbuffer.c:115-122 | the low n bits, highest first, are ORed in at the position and nowhere else |
| BitBuffers.BitBuffer.PutField | src/mkfs/bitbuffer.c:115-122 | on a cleared buffer, the bits written so far are followed by the field |
| BitBuffers.BitBuffer.GetBit | src/mkfs/bitbuffer.c:124-132 | the bit at the position |
| BitBuffers.BitBuffer.GetBits | src/mkfs/bitbuffer.c:134-150 | the byte-at-a-time path returns the same number as reading bit by bit, at any alignment |
| BitBuffers.BitBuffer.GetBytes | src/mkfs/bitbuffer.c:155-158 | off a byte boundary the bytes copied hold exactly the bits at the position |
| BitBuffers.BitBuffer.GetBuffer | src/mkfs/bitbuffer.c:152-164 | both ways of copying give the bytes whose bits follow the position |
| BitBuffers.BitBuffer.ShowBits | src/mkfs/bitbuffer.c:172-180 | reads without moving |
| BitBuffers.BitBuffer.CopyBits | src/mkfs/bitbuffer.c:182-187 | the bits are ORed into the other buffer at its position, whatever it held, and both positions move |
| Bits.DecEnc | src/mkfs/bitbuffer.c:115-150 | a field reads back as its value modulo 2 to its width |
| Fields.ReadBack | src/mkfs/bitbuffer.c:105-150 | any list of fields of 0 to 32 bits, at any start, reads back value by value modulo 2 to the widths |
| Fields.PutNext | src/mkfs/mkfs.c:657-667 | writing the next field extends the record by that field |
| Fields.GetNext | src/mkfs/unfs.c:86-96 | reading the next field gives that field of the record |
| Bits.PackUnique | src/mkfs/mkfs.c:604-627 | a buffer of just enough bytes that holds the bits and zeros is the packing of the bits |
| Buffers.Buffer.Add | src/mkfs/buffer.c:66-89 | the contents grow by exactly the data; the size only doubles, and ends above the length |
| Buffers.Buffer.Reset | src/mkfs/buffer.c:50-54 | a valid buffer is a valid buffer with nothing in it, ready for the inode table to be put back |
| MergeSort.SortPermutes | src/mkfs/uthash.h:704-781 | whatever the comparator answers, sorting only rearranges |
| MergeSort.SortSorted | src/mkfs/uthash.h:704-781 | the result is sorted by every order that does not contradict the comparator, even when the comparator is not transitive |
| MergeSort.SortStable | src/mkfs/uthash.h:743-751 | for a total preorder, tied elements keep their order |
| MergeSort.SortNatural | src/mkfs/uthash.h:704-781 | sorting elements by what a name tells about them sorts the names |
| MergeSort.SortDense | src/mkfs/mkfs.c:173-179 | sorting any rearrangement of 0..n-1 by number gives them in order |
| HashList.SplitRun | src/mkfs/uthash.h:720-728 | steps past a run of at most the given length, and counts it |
| HashList.Emit | src/mkfs/uthash.h:759-767 | the chosen handle is linked behind the sorted part, both ways |
| HashList.MergeRuns | src/mkfs/uthash.h:729-768 | the two runs are relinked as their merge; what follows stays linked |
| HashList.SortPass | src/mkfs/uthash.h:714-771 | one pass relinks the list as all pairs of runs merged, and counts the merges |
| HashList.SortList | src/mkfs/uthash.h:704-781 | the sort ends with a doubly linked list that reads as the sorted sequence, head and tail right |
| UtHash.Table.constructor | src/mkfs/uthash.h:168-171 | an empty table |
| UtHash.Table.MakeTable | src/mkfs/uthash.h:140-157 | 32 empty buckets, their logarithm, and cleared counters |
| UtHash.Prepend | src/mkfs/uthash.h:596-607 | the handle becomes the head of its chain, every other chain stays |
| UtHash.MoveOne | src/mkfs/uthash.h:671-682 | one handle becomes the head of its new chain, whose count grows and whose expansion factor follows it, and no other new chain changes |
| UtHash.Rehash | src/mkfs/uthash.h:657-689 | every handle ends in exactly one of twice as many chains, the one its hash names; the non-ideal items are those beyond the ideal length, and a chain longer than that has the quotient as its expansion factor, every other one 0 |
| UtHash.IdealIsCeiling | src/mkfs/uthash.h:662-664 | shift and mask compute the ceiling of items over buckets |
| UtHash.Table.ExpandBuckets | src/mkfs/uthash.h:651-697 | the bucket count doubles with its logarithm in step, the elements stay, and the chain statistics are right |
| UtHash.Table.AddToBkt | src/mkfs/uthash.h:596-607 | the element is filed, and the buckets double exactly when its chain has grown to ten times (its expansion factor plus one) and expansion is not inhibited; then the statistics are those of the expansion, otherwise only that bucket changes |
| UtHash.Table.LinkTail | src/mkfs/uthash.h:162-177 | the element is linked behind the last one, or starts the list |
| UtHash.Table.Add | src/mkfs/uthash.h:162-185 | the application order grows by the element and the table stays consistent |
| UtHash.Table.FindInBkt | src/mkfs/uthash.h:582-593 | the first element of the chain with the key, or none |
| UtHash.Table.Find | src/mkfs/uthash.h:94-105 | with distinct keys, agrees with a plain map of the elements; in general finds a key exactly when some element has it |
| UtHash.AsMapAdd | src/mkfs/uthash.h:162-185 | adding a new key adds it to the map |
| UtHash.AsMapDelete | src/mkfs/uthash.h:204-237 | deleting an element removes its key from the map and no other |
| UtHash.UnlinkList | src/mkfs/uthash.h:216-231 | the neighbours of the deleted element are linked to each other |
| UtHash.Remove | src/mkfs/uthash.h:610-620 | the element leaves its chain at its place, the others keep their order, every other chain stays |
| UtHash.Table.Delete | src/mkfs/uthash.h:204-237 | the application order loses exactly that element and the table stays consistent |
| UtHash.Table.DelInBkt | src/mkfs/uthash.h:232-234 | the element leaves its bucket, whose count and no other goes down, and the number of items follows |
| UtHash.Table.Srt | src/mkfs/uthash.h:704-781 | the application order becomes the sorted one; the buckets stay |
| Compressors.NoneLawful | src/mkfs/compressor-none.c:22-38 | storing unchanged, type 0, obeys the compressor's law and never fails |
| Compressors.Squeeze | src/mkfs/mkfs.c:224-232 | what a worker accepts is no longer than the block |
| Compressors.SqueezeAll | src/mkfs/mkfs.c:547-582 | the table of one thread, block by block, present exactly when every block compresses |
| Workers.StepInv | src/mkfs/mkfs.c:210-240 | every step of every thread keeps mutual exclusion, exclusive claims, and the results found so far |
| Workers.StatusMoves | src/mkfs/mkfs.c:217-236 | a status moves only from 0 to 1, by a first claim, and from 1 to 2, by the claimant |
| Workers.StepRanks | src/mkfs/mkfs.c:216-237 | every step uses up a finite budget |
| Workers.NoDeadlock | src/mkfs/mkfs.c:217-236 | until all threads have left some thread can move |
| Workers.QuietResult | src/mkfs/mkfs.c:564-582 | when all have left, every status is 2 exactly when every block compresses, and then the table is the sequential one |
| Workers.EverySchedule | src/mkfs/mkfs.c:547-563 | all of that for every schedule of at least one thread |
| Workers.OneJob | src/mkfs/mkfs.c:216-240 | a single thread does the blocks before the first that does not compress, leaves that one with status 1 and touches none behind it |
| Workers.RunJobs | src/mkfs/mkfs.c:547-563 | starting and joining the jobs under any scheduler gives the sequential table or an incomplete one |
| Packing.OrderPermutes | src/mkfs/mkfs.c:405 | the packing order is a rearrangement of all node numbers, though the comparator is not transitive |
| Format.BlockInRange | src/mkfs/mkfs.c:513-546 | every block but the last lies inside the stream; the last reaches its end |
| Widths.BlogLeast | src/mkfs/mkfs.c:159-171 | the width picked holds the value, and no smaller positive width does |
| Widths.BlogLoop | src/mkfs/mkfs.c:159-171 | the loop picks that width, and none for a negative value |
| Widths.Slog | src/mkfs/mkfs.c:148-157 | the logarithm of a power of two from 2^12 to 2^20, 0 for everything else |
| Widths.MinOfMaxIsFirst | src/mkfs/mkfs.c:346-349 | the "minimum" time is the first node's |
| Widths.FitsMax | src/mkfs/mkfs.c:388-401 | every value fits the width picked from the maximum |
| Widths.FitsDelta | src/mkfs/mkfs.c:394-395 | every difference from a base that does not exceed the value fits the width picked from the largest one |
| Packing.SortByTypeNotTransitive | src/mkfs/mkfs.c:181-203 | ".c", "a" and ".a": the comparator is not transitive on these three files |
| Packing.TransitiveExactly | src/mkfs/mkfs.c:181-203 | on a table it is transitive if and only if no file without a dot is in a group with two files whose endings differ |
| Packing.GroupsInOrder | src/mkfs/mkfs.c:75-83 | files that begin with 0x7f 0x45 0x4c 0x46 are packed before the other files, those before directories and those before links, each ending where the next begins or before |
| Packing.LastDotExactly | src/mkfs/mkfs.c:187-188 | what strrchr gives: the end of the name that begins with a dot and holds no other, and none without a dot |
| Packing.StrCmpExactly | src/mkfs/mkfs.c:191 | below means a proper beginning, or the first byte that differs is smaller |
| Packing.PackingOrder | src/mkfs/mkfs.c:181-203 | on a table on which the comparator is transitive one node is packed before another if and only if its group comes first, or its ending in one group, or else its number |
| Packing.OrderDistinct | src/mkfs/mkfs.c:405-416 | every node is packed once |
| Packing.Extent | src/mkfs/mkfs.c:414-498 | a node's bytes are found in the stream at its offset |
| Packing.Tiling | src/mkfs/mkfs.c:414-498 | the extents tile the stream in packing order, without gap or overlap |
| Packing.NotEmpty | src/mkfs/mkfs.c:430-494 | directories and links are never empty |
| Packing.StartsInside | src/mkfs/mkfs.c:405-494 | with a directory among the nodes, every node, even an empty file, starts inside the stream |
| Packing.BlockExists | src/mkfs/unfs.c:238 | so the first block of a node, looked up without a check, exists |
| Tables.RecordFits | src/mkfs/mkfs.c:388-401 | every field of every inode record but the times fits its width, and a field takes no bits exactly when switched off |
| Tables.TimesFit | src/mkfs/mkfs.c:394-395 | a time not before the first node's, less it, fits its width; a time switched off takes no bits |
| LeastWidths.AttributeWidths | src/mkfs/mkfs.c:388-393 | in every image written the widths of types, modes and ids are the least positive ones that hold every node's, and 0 for a field switched off |
| LeastWidths.TimeWidths | src/mkfs/mkfs.c:394-395 | so are those of the times, for their differences from the first node's |
| LeastWidths.PlaceWidths | src/mkfs/mkfs.c:502-517 | and those of sizes, first blocks and indices |
| LeastWidths.DirectoryWidths | src/mkfs/mkfs.c:397-401 | and those of parents, numbers of entries, and entries' numbers, name lengths and types, 0 without any entry |
| LeastWidths.BlockWidths | src/mkfs/mkfs.c:586-602 | the least compressed size stored is that of some block and of none above it; the widths of offsets, of what compressed sizes have above it, and of the last block's size are the least |
| Tables.NodeFillRecovers | src/mkfs/unfs.c:75-117 | filling node k recovers type, modes, owner, size and place; a switched-off mode repeats the owner's, a switched-off id is 0 |
| Tables.CtimeRecovers | src/linux/super.c:211-218 | with the field on, the kernel restores the change time if and only if it is not before the first node's; the tool sees the difference |
| Tables.MtimeRecovers | src/linux/super.c:214-218 | likewise the modification time; with the field off the change time's difference stands in |
| Tables.BlockLengths | src/mkfs/mkfs.c:534-546 | every block but the last is full, and the last is not empty |
| Tables.BlocksWhole | src/mkfs/mkfs.c:533-546 | the blocks end to end are the stream |
| Tables.BlockFillRecovers | src/mkfs/unfs.c:119-141 | block b's offset is the sum of the compressed sizes before it; its two sizes come back though only the last block's size is stored |
| Tables.ImageStores | src/mkfs/mkfs.c:532-627 | every block of the image uncompresses to its block of the stream |
| Tables.ReadSlice | src/mkfs/unfs.c:143-183 | reading any range block after block gives that slice of the stream |
| Directories.EntriesParse | src/mkfs/mkfs.c:449-477 | the entries written one by one parse back one by one |
| Directories.DirParses | src/mkfs/unfs.c:316-347 | a directory's bytes parse back to its parent and entries |
| Directories.DirFits | src/mkfs/mkfs.c:397-401 | every directory of a table fits the widths picked from the scan |
| Mounting.SuperReads | src/mkfs/mkfs.c:763-768 | the super block reads back word for word |
| Mounting.MountsImage | src/mkfs/unfs.c:499-663 | opening an image gives the super block and the three sections it was made of |
| Layouts.MountExactly | src/mkfs/unfs.c:493-663 | any file opens if and only if it has 152 bytes, the magic number and a known compressor type, its three sections lie inside it, and the inode table uncompresses to the size noted; and what is then loaded |
| Layouts.SuperFields | src/include/smashfs.h:61-122 | of any file the super block's fields are the 38 words at its front, each at its byte, least significant byte first |
| Layouts.SuperWritten | src/mkfs/mkfs.c:376-386 | magic number, version, counts, block size, the places and sizes of the sections from byte 152 on, the compressor's type and the first node's times |
| Layouts.SectionsWritten | src/mkfs/mkfs.c:785-824 | the file is the super block, the compressed inode table, the block table and the compressed blocks end to end, and zeros up to the next multiple of 4096 unless padding is off |
| Layouts.PlanExactly | src/mkfs/mkfs.c:222-236 | an image can be written if and only if every block and the inode table compress, into twice their size, to no more than their size; the sections are what compressing gave |
| Layouts.AtNumber | src/mkfs/bitbuffer.c:124-150 | a field of a table is the number its bits make, the highest bit of the first byte first |
| Layouts.NodeFields | src/mkfs/unfs.c:75-117 | of any image, filling a node reads eleven numbers one behind the other from its number times their length on, with the fallbacks for those of no bits |
| Layouts.BlockFields | src/mkfs/unfs.c:119-141 | filling a block reads its offset and its size above the least one; only the last block's own size is read |
| Layouts.ParsesExactly | src/mkfs/unfs.c:315-347 | of any bytes, what they parse to as a directory and when: a header and entries in whole bytes, number, name length and type, then the name, all inside |
| Mounting.NodeContent | src/mkfs/unfs.c:143-183 | every node of an image can be filled, its block looked up, and its content read as it was packed |
| Scanning.FindTwin | src/mkfs/mkfs.c:970-987 | the first earlier node with the same bytes or target, or none |
| Scanning.StillRepresents | src/mkfs/mkfs.c:1040-1067 | a node keeps its meaning when entries are added to earlier directories |
| Scanning.NodeNewEnters | src/mkfs/mkfs.c:1040-1074 | a new item changes nothing but its parent's entries, which grow by its own, with the number and type of the node that stands for it; a new node is last and has the item's name, body and stored attributes (`Scanning.ModesStored`) |
| Scanning.ModesStored | src/mkfs/mkfs.c:909-942 | what a node keeps of stat: in each class bit 1 for read, 2 for write and 4 for execute, nothing above them, and the ids and times as they are |
| Scanning.VisitRepresents | src/mkfs/mkfs.c:1131-1168 | visiting an item leaves a node that stands for a tree of its shape, and for the very item when nothing is shared |
| Scanning.ScanRepresents | src/mkfs/mkfs.c:1099-1193 | so does the root for the whole source |
| Scanning.ScanNoTwins | src/mkfs/mkfs.c:970-987 | with sharing on no two files have equal bytes and no two links equal targets |
| Scanning.ScanParents | src/mkfs/mkfs.c:1040-1067 | every directory that is listed stores the number of the one that lists it |
| Scanning.RootParent | src/mkfs/mkfs.c:997-1002 | the root stores 0 |
| Scanning.ScanAscends | src/mkfs/mkfs.c:1094-1097 | every directory lists its entries in strictly ascending order |
| Sharing.VisitKnown | src/mkfs/mkfs.c:865-1092 | every file and link of the table is, with its attributes, one of the source's |
| Sharing.SharingFaithful | src/mkfs/mkfs.c:970-1035 | with sharing on, scanning keeps every attribute if and only if equal files, and equal links, had equal attributes |
| Sharing.SharingLosesModes | src/mkfs/mkfs.c:970-1035 | two empty files of different modes for which it does not |
| RoundTrip.ImageYields | src/mkfs/unfs.c:215-417 | traversing from any node yields the tree it stands for, and ends |
| RoundTrip.YieldsUnique | src/mkfs/unfs.c:215-417 | a traversal has one result |
| RoundTrip.Scanned | src/mkfs/mkfs.c:970-1035 | the scanned tree shows what the source would if and only if nothing is shared or equal files, and equal links, show the same mode and ids |
| RoundTrip.AlikeNotUniform | src/mkfs/mkfs.c:970-1035 | two equal files of the same mode and owner and different times: sharing them loses nothing extraction shows |
| RoundTrip.WholeImage | src/mkfs/unfs.c:215-417 | build, open, traverse: the source's shape, with sharing on or off, and its modes and ids handed out exactly when nothing is shared or what is shared shows the same ones |
| RoundTrip.ModeRecovered | src/mkfs/unfs.c:256-283 | of every item the permission bits shown are those of stat, class by class, the owner's where a class is switched off, and the ids are stat's or 0 |
| Reader.ModeHanded | src/mkfs/unfs.c:256-283 | of every node record chmod gets nine bits: in each class read, write and execute where the stored mode has 1, 2 and 4 |
| RoundTrip.CStringExactly | src/mkfs/unfs.c:339 | the name made of an entry is what stands before the first NUL, or all of it |
| RoundTrip.NonePlans | src/mkfs/compressor-none.c:22-38 | with the compressor that stores unchanged an image can always be made |
| Builders.Elements | src/mkfs/uthash.h:842-844 | following next from the head meets every element once, in application order |
| Builders.Builder.FindDuplicate | src/mkfs/mkfs.c:970-1035 | the loop over the list finds the first twin, or none |
| Builders.Builder.Enter | src/mkfs/mkfs.c:1044-1067 | the parent's directory is replaced by one with the entry behind the others |
| Builders.Builder.Append | src/mkfs/mkfs.c:1069-1071 | the new node is last in the table, under the next number |
| Builders.Builder.NodeNew | src/mkfs/mkfs.c:865-1092 | the node table becomes what the scan on values says (`Scanning.NodeNewEnters`, `Scanning.ModesStored`), and the item's node is returned |
| Builders.Builder.Visit | src/mkfs/mkfs.c:1131-1168 | so it does for an item and everything below it |
| Builders.Builder.Scan | src/mkfs/mkfs.c:1099-1193 | scanning a source leaves the node table of the tree |
| Measuring.EntryMaxima | src/mkfs/mkfs.c:354-360 | the inner loop leaves the maxima of numbers, lengths and types of the entries |
| Measuring.ScanMaxima | src/mkfs/mkfs.c:338-365 | the pass leaves the maxima of all fields, and the minima of the running maxima |
| Measuring.PickBits | src/mkfs/mkfs.c:367-401 | the widths of all fields known before packing, none for those switched off (`LeastWidths.AttributeWidths`, `LeastWidths.TimeWidths`, `LeastWidths.DirectoryWidths`) |
| Serialising.TypeOrder | src/mkfs/mkfs.c:405 | sorting the node list by type puts the numbers in packing order (`Packing.GroupsInOrder`, `Packing.PackingOrder`) |
| Serialising.NumberOrder | src/mkfs/mkfs.c:647 | sorting any rearrangement of the node list by number restores the numbering |
| Serialising.AddDirectory | src/mkfs/mkfs.c:430-477 | appends a directory's header and entries and counts their bytes |
| Serialising.AddNode | src/mkfs/mkfs.c:417-489 | appends the node's bytes, whatever its type, and counts them |
| Serialising.PackEntries | src/mkfs/mkfs.c:414-498 | the entry buffer becomes the stream, and every node knows its size, block and index |
| Output.PlaceMaxima | src/mkfs/mkfs.c:502-509 | the maxima of size, block and index over all nodes, in whatever order they stand |
| Output.CutBlocks | src/mkfs/mkfs.c:533-546 | the pointer walk cuts the stream into its blocks |
| Output.JoinBlocks | src/mkfs/mkfs.c:564-576 | offsets are the sums of the compressed sizes before, and the buffer holds the blocks end to end |
| Output.CheckDone | src/mkfs/mkfs.c:577-582 | true exactly when every status is 2 |
| Output.BlockMaxima | src/mkfs/mkfs.c:586-594 | the maxima of offset and compressed size, and the least compressed size |
| Output.WriteBlockTable | src/mkfs/mkfs.c:604-627 | the block table: offset and shortened size per block, and the last block's size once |
| Output.WriteInode | src/mkfs/mkfs.c:657-667 | a node's eleven fields, in order |
| Output.WriteInodeTable | src/mkfs/mkfs.c:651-677 | the inode table, node k at k times the record length |
| Output.SortNodes | src/mkfs/mkfs.c:405 | sorting the node list keeps the nodes |
| Output.Arrange | src/mkfs/mkfs.c:319-517 | measuring, sorting and packing give the widths and the stream of the table (`Packing.GroupsInOrder`, `LeastWidths.AttributeWidths` and the lemmas after it) |
| Output.CompressBlocks | src/mkfs/mkfs.c:532-582 | succeeds exactly when every block compresses, with the sequential result |
| Output.WriteFile | src/mkfs/mkfs.c:785-822 | the sections one after the other, padded with zeros to 4096 bytes unless switched off |
| Output.OutputWrite | src/mkfs/mkfs.c:242-855 | writes the image of the node table, or fails exactly when something does not compress |
| Limits.AttrWidths | src/mkfs/mkfs.c:388-395 | 32-bit attributes get widths of at most 32 bits, time differences included |
| Limits.DirWidths | src/mkfs/mkfs.c:397-401 | so do the fields of directories |
| Limits.InodeWidthsFit | src/mkfs/mkfs.c:502-517 | and size, block and index of every node of a stream of up to 2 GiB |
| Limits.FrontBlocks | src/mkfs/mkfs.c:564-576 | squeezed blocks together are no longer than the stream, at every block |
| Limits.ModestPackable | src/mkfs/mkfs.c:388-602 | of up to six million nodes and 2 GiB, everything the builder packs fits 32 bits |
| Limits.ModestFits | src/mkfs/mkfs.c:702-708 | and nothing in the image or its super block is cut off, whatever the options and the compressor |
| Sources.SumPermuted | src/mkfs/mkfs.c:405-416 | the stream's length does not depend on the packing order |
| Sources.VisitGrows | src/mkfs/mkfs.c:865-1092 | visiting an item adds at most its items to the table, and at most its contents, names and twelve bytes an entry to what is packed |
| Sources.ScanModest | src/mkfs/mkfs.c:1099-1193 | a source of up to six million items and 2 GiB in all scans to a table within the limits |
| Sources.SourceSuffices | src/mkfs/mkfs.c:702-708 | so everything in it can be packed and nothing in its image is cut off |
| Sources.SourceCarried | src/linux/super.c:348-352 | of a source of up to 1.878 GB in all an int reaches every byte of the image, so that the kernel can read it |
| Sources.EmptySource | src/mkfs/compressor-none.c:22-38 | an empty directory, stored unchanged, meets all assumptions of the round trip |
| Sources.OlderFile | src/mkfs/mkfs.c:346-349 | a directory with an older file in it, of which the kernel restores neither time |
| EndToEnd.Mkfs | src/mkfs/mkfs.c:1099-1193 | scanning and writing give the image of the source tree |
| EndToEnd.PackAndExtract | src/mkfs/unfs.c:427-738 | packing and extracting into a new directory puts the source there and nothing else; the modes and ids handed out are the source's exactly when nothing is shared or what is shared shows the same ones |
| EndToEnd.PackAndExtractModest | src/mkfs/unfs.c:427-738 | so for every source within the limits, and it fails only when something does not compress |
| EndToEnd.BuiltSame | src/mkfs/unfs.c:284-411 | what stands on the disk depends on the tree's shape alone |
| EndToEnd.BuiltAt | src/mkfs/unfs.c:284-411 | at a path below the output directory stands the source's item at that path, if there is one, and otherwise nothing |
| Volumes.Volume.FillNode | src/mkfs/unfs.c:75-117 | eleven reads and the fallbacks give the node record |
| Volumes.Volume.FillNodeInKernel | src/linux/super.c:164-227 | the same with the minima added to the times |
| Volumes.Volume.FillBlock | src/linux/super.c:128-162 | offset, compressed size and size, the last read only for the last block |
| Volumes.ReadSteps | src/mkfs/unfs.c:154-181 | delivering a block's part continues the read at the next block, and an unreadable block spoils it |
| Walking.DirectoryStands | src/mkfs/unfs.c:315-347 | every entry of a directory that parses stands right behind the one before it, on any image |
| Walking.ReadHeader | src/mkfs/unfs.c:316-318 | the parent's number and the number of entries |
| Walking.ReadEntry | src/mkfs/unfs.c:333-335 | an entry's number and name length |
| Unfs.ReadSection | src/mkfs/unfs.c:576-597 | pieces of 1024 bytes collect the section, or it reaches past the end of the file |
| Unfs.Open | src/mkfs/unfs.c:493-663 | opens exactly the images that have a super block, a known compressor and their sections, and loads those |
| Unfs.LoadInodes | src/mkfs/unfs.c:568-617 | the inode table, read, uncompressed to its full size and put back into the emptied buffer |
| Unfs.NodeRead | src/mkfs/unfs.c:143-183 | hands on, block after block, what each uncompresses to, the missing bytes of a short block being anything, and fails at a block that does not uncompress |
| Unfs.TraverseEntries | src/mkfs/unfs.c:323-347 | the pointer walk traverses the entries in order, each on the disk the one before it left |
| Unfs.Traverse | src/mkfs/unfs.c:215-417 | makes the calls the node comes to on this disk, for readable, broken and unknown nodes and for calls that fail, whenever the traversal ends on it; what the mode is `Reader.ModeHanded` says, and what the calls do `Replacing.FileReplaces` and the lemmas after it |
| Unfs.Extract | src/mkfs/unfs.c:427-738 | opens the image, enters the output directory and traverses from the root; fails exactly when one of the first two does |
| Delivery.HandedReport | src/mkfs/unfs.c:143-183 | a read succeeds if and only if every block it touches uncompresses, and then hands on all bytes |
| Delivery.HandedWhole | src/mkfs/unfs.c:143-183 | when every block is whole it hands on the content and nothing else |
| Delivery.HandedFront | src/mkfs/unfs.c:168-175 | a read that fails has handed on the bytes of the blocks before the first that does not uncompress |
| Delivery.ReadsBlocks | src/mkfs/unfs.c:154-181 | of any image, a read that succeeds gives its range of what the blocks uncompress to, each to its full size |
| Delivery.ReadersAgree | src/mkfs/unfs.c:169-174 | whatever memory held, the tool delivers what the kernel does, or both fail, if and only if every block is whole or one does not uncompress |
| Samples.ShortBlock | src/mkfs/unfs.c:169-174 | an image of one block stored short: the kernel reports an error, the tool succeeds and hands on any byte |
| Delivery.PendingPiece | src/mkfs/unfs.c:154-181 | handing on a block's part leaves the read pending at the next block |
| Traversals.SomeWalk | src/mkfs/unfs.c:215-417 | a traversal that ends comes to something |
| Traversals.YieldsWalks | src/mkfs/unfs.c:215-417 | a node that yields a tree is traversed in one way, the failure-free one |
| Traversals.YieldsEnds | src/mkfs/unfs.c:215-417 | and to its end, at most as many directories deep as the tree |
| Traversals.YieldsPerforms | src/mkfs/unfs.c:215-417 | on whatever disk, traversing a node that yields a tree does to the disk what making that tree does |
| Traversals.EndsHalts | src/mkfs/unfs.c:215-417 | a traversal whose entries end it ends on every disk |
| Endings.EndsExactly | src/mkfs/unfs.c:323-347 | the entries end a traversal if and only if no path of them comes to a node twice and every node on one lies inside the image and parses; then it goes no deeper than there are nodes |
| Endings.CycleNeverEnds | src/mkfs/unfs.c:323-347 | a node led back to over any number of directories is never done with by its entries |
| Outcomes.HaltsExactly | src/mkfs/unfs.c:215-417 | with nothing in the way, and of an image that can be read and names its entries well, that is exactly when the tool is done with the node |
| Outcomes.ExtractionHaltsExactly | src/mkfs/unfs.c:710-738 | and with the whole extraction into a new directory |
| Outcomes.LoopNeverHalts | src/mkfs/unfs.c:323-347 | a node that leads back to itself by plain names is then traversed for ever |
| Outcomes.EmptyNameHalts | src/mkfs/unfs.c:285-289 | a directory that lists itself under the empty name is not, since mkdir refuses that name |
| Samples.LoopForEver | src/mkfs/unfs.c:323-347 | an image of one directory that lists itself as "a": extracting it never ends |
| Returning.WholeReturns | src/mkfs/unfs.c:284-417 | a traversal of files and links that can all be read comes back and makes everything where it belongs, links on the disk and in the image or not |
| Returning.BrokenRises | src/mkfs/unfs.c:364-397 | without links, one of which a file or link cannot be read ends in a higher directory |
| Returning.ComesBack | src/mkfs/unfs.c:364-397 | so without links the tool is back where it was if and only if everything could be read or it was at the root of the file system |
| Returning.MadeWhereListed | src/mkfs/unfs.c:323-347 | an entry is made in the directory that lists it if and only if every file and link before it there could be read |
| Returning.LinkBringsBack | src/mkfs/unfs.c:290 | a disk with a link on which a broken traversal comes back all the same |
| Outcomes.WholeExactly | src/mkfs/unfs.c:168-175 | everything a traversal meets can be read, whatever it comes to, if and only if every block of every file and link below the node uncompresses |
| Outcomes.ComesBackExactly | src/mkfs/unfs.c:215-417 | told from the image: if so the tool comes back and everything is made where it belongs; if not, and without links, some outcome leaves it higher up |
| Samples.BrokenWalks | src/mkfs/unfs.c:364-373 | an image of a directory with an unreadable file "a" and a file "b", and the traversal of it that is not whole |
| Samples.BrokenExtracts | src/mkfs/unfs.c:364-373 | extracting it makes "a" in the output directory and "b" beside it |
| Extraction.RunMakes | src/mkfs/unfs.c:284-417 | traversing a tree into free space leaves it there, with its owners, and the tool where it was |
| Extraction.RunAllMakes | src/mkfs/unfs.c:323-347 | so for all entries of a directory |
| Extraction.ExtractingFresh | src/mkfs/unfs.c:710-738 | extracting into a new directory adds the tree there and nothing else, and gives all modes and owners that are set, in order |
| Extraction.IdsLand | src/mkfs/unfs.c:413 | every item below the root gets its ids; the root's land on the directory the tool was started in |
| Extraction.LastMode | src/mkfs/unfs.c:412 | the last mode an item gets is that of the last later link that leads to it, or else its own |
| Extraction.ModesLand | src/mkfs/unfs.c:412 | an item below the root ends with its mode if and only if no later link leads to it or the last one that does has the same mode |
| Extraction.RootModeLands | src/mkfs/unfs.c:731 | the root's mode lands on the directory the tool was started in, and the output directory keeps mkdir's or a link's |
| Extraction.LinkSpoilsMode | src/mkfs/unfs.c:412 | a file of mode 0755 and a link to it behind it: the file ends with 0777 |
| Extraction.LinklessModes | src/mkfs/unfs.c:412 | without links every item below the root keeps its mode |
| Extraction.BrokenDisplaces | src/mkfs/unfs.c:364-373 | after a file that cannot be read in full the next sibling is created one directory higher |
| Replacing.FileReplaces | src/mkfs/unfs.c:359-374 | over a file or link of its name, or nothing, a file is made with its bytes, mode and ids; what the link led to and everything else stays |
| Replacing.BrokenFileReplaces | src/mkfs/unfs.c:359-373 | one that cannot be read is made of what was handed on, keeps what open gave it, and the tool moves up |
| Replacing.LinkReplaces | src/mkfs/unfs.c:376-413 | a link likewise; its mode lands where it leads, if anywhere |
| Replacing.NoLink | src/mkfs/unfs.c:376-396 | of a link that cannot be read or has no target only what had its name is gone |
| Replacing.DirectoryStays | src/mkfs/unfs.c:359-364 | a directory in the way of a file or link stays and nothing is made |
| Replacing.FileStays | src/mkfs/unfs.c:285-294 | a file in the way of a directory stays and nothing below is traversed |
| Replacing.DirectoryEntered | src/mkfs/unfs.c:285-294 | a directory already there is entered with what is in it, and gets its mode and ids at the end |
| Replacing.DirectoryLeft | src/mkfs/unfs.c:285-313 | a new directory that cannot be read is made, entered and left |
| Devices.Device.Acquire | src/linux/super.c:393-411 | one buffer head per block touched, all within the array; when one is missing those got are put back |
| Devices.Device.Wait | src/linux/super.c:413-426 | succeeds exactly when all blocks could be read; otherwise all buffer heads are put |
| Devices.Device.CopyBlock | src/linux/super.c:433-443 | the block's bytes land behind those copied before, page by page, nothing outside |
| Devices.Device.CopyOut | src/linux/super.c:428-446 | all bytes arrive, everything behind them stays, and each buffer head is put once |
| Devices.Device.Read | src/linux/super.c:348-456 | exactly the wanted bytes of the device, if and only if every block one of them lies in is there and can be read; gets and puts of the call are the same list of distinct blocks |
| Devices.Device.GoodBytes | src/linux/super.c:387-411 | the blocks acquired are those the wanted bytes lie in |
| RandomAccess.ReadAgrees | src/linux/super.c:492-530 | the kernel's slice of a range is the slice of what a sequential read of the range gives |
| RandomAccess.NodeSlice | src/linux/super.c:492-530 | so for every readable node of every image |
| RandomAccess.ImageSlice | src/linux/super.c:492-530 | in a built image it is the slice of what was packed for the node |
| KernelRead.SuperInfo.Fetch | src/linux/super.c:510-514 | the compressed bytes of a block as the device holds them |
| KernelRead.SuperInfo.ReadBlock | src/linux/super.c:499-519 | the block uncompressed; anything short of its full size is an error |
| KernelRead.SuperInfo.NodeRead | src/linux/super.c:458-544 | on success the destination holds that slice and nothing behind it changed; it fails only for a bad device or an unreadable block; no buffer head leaks |
| KernelRead.SuperInfo.Readpage | src/linux/super.c:906-972 | byte k of page i is byte 4096 i + k of the content, and 0 behind its end |
| KernelRead.PagesWhole | src/linux/super.c:906-972 | such pages end to end are the file, and zeros behind it |
| KernelDir.DirContext.EmitDots | src/linux/super.c:666-718 | "." and "..", then the step over the header, resumable at either |
| KernelDir.DirContext.EmitEntries | src/linux/super.c:720-794 | emits from the entry the position stands at until the first refusal (`KernelDir.ListingExactly`) |
| KernelDir.Readdir | src/linux/super.c:589-799 | a call that takes so many items adds exactly the next so many of the listing (`KernelDir.ListingExactly`) |
| KernelDir.ListAll | src/linux/super.c:589-799 | any sequence of calls lists a prefix, all of it once enough was asked for (`KernelDir.ListingExactly`) |
| KernelDir.ListingExactly | src/linux/super.c:680-786 | item by item: "." under the own number and ".." under one more than the parent's, both of type 4, then each entry's name, one more than its number, and 8, 4, 10, 2, 6, 1 or 12 for the stored types 1 to 7 |
| KernelDir.PositionExactly | src/linux/super.c:670-790 | the position is 0 before ".", 1 before "..", then 3 more than the place in the directory's bytes, behind header, heads and names |
| KernelDir.EarlyExit | src/linux/super.c:879-881 | in ascending order nothing behind the exit has the wanted name, for signed and unsigned characters |
| KernelDir.EarlyExitNeedsOrder | src/linux/super.c:879-881 | two entries out of order among which the exit misses a name that is there |
| KernelDir.ExitExactly | src/linux/super.c:879-881 | for any order and either sign, stopping early answers as a full scan if and only if no entry before the first with the name begins above it, bytes from 128 on stopping nothing where characters are signed; and otherwise nothing is found |
| KernelDir.FirstNamedExactly | src/linux/super.c:883-894 | a full scan finds the number of the first entry with the name |
| KernelDir.Search | src/linux/super.c:864-899 | the loop answers as the scan that stops early, on every directory |
| KernelDir.Lookup | src/linux/super.c:804-904 | so does the lookup unless the device fails, and as a full scan where names ascend |
| KernelImages.ImageCarried | src/linux/super.c:510 | a device holding a built image carries its blocks, each fitting the scratch buffer, as far as an int reaches |
| KernelImages.DirectoryLength | src/mkfs/mkfs.c:430-482 | a directory's last entry ends where its bytes do |
| KernelImages.ImageDirectory | src/linux/super.c:589-799 | every directory of a built image can be listed, and a complete listing leaves the position at 3 and the node's size |
| KernelImages.ScannedDirectory | src/linux/super.c:804-904 | in every directory of a scanned image the lookup may stop early |
| Scanning.ItemAtSame | src/linux/super.c:804-904 | trees of one shape have items of one shape at the same paths |
| KernelTree.ReachRepresented | src/linux/super.c:804-904 | lookups from a node that stands for a tree lead where the tree's paths do, to nodes that show the items there |
| KernelTree.KernelShowsSource | src/linux/super.c:804-904 | on the image of an ordered source a path leads somewhere if and only if the source has an item at it, and then to its type, bytes and listing |
| KernelTree.KernelShowsAttrs | src/linux/super.c:164-302 | and, when nothing shared differs in them, to its mode and ids; without sharing to its times, if and only if they are not before the root's |
| KernelTree.DotDotLeadsBack | src/linux/super.c:680-684 | the parent a directory stores is the node it was looked up in |
| KernelTree.DirectoryAt | src/linux/super.c:654-784 | the directory at a path holds the source's names and types in order, and the number of the directory above it, 0 for the root |
| KernelTree.ListAt | src/linux/super.c:589-799 | listing the directory at a path: "." and ".." under its own number and one more than that of the one above, type 4, then the source's items in order by name, type 8, 4 or 10, and one more than the number of the node a lookup of the name reaches; all of them once enough was asked for |
| KernelTree.Walk | src/linux/super.c:804-904 | a lookup in each directory on the path finds that node, unless the device fails |
| KernelTree.PageAt | src/linux/super.c:906-972 | byte k of page i read of a file found by lookups is byte 4096 i + k of the source's file, and 0 behind its end |

## Left out

- The zlib, lzma, lzo and xz wrappers and the compressor registry: foreign calls, represented by the compressor's law.
- fts, read and write cut short, and option parsing: the source is a tree with ordered siblings, a file is a sequence of bytes.
- The calls of the extraction tool are functions on a disk of names, links, modes, owners and a current directory; hard links, times, permission checks, full disks and what other processes do are left out. A file's bytes appear at once, not block by block.
- Directory order as fts produces it by sorting: siblings are given in ascending order.
- Allocation failures, in both programs and the kernel, and what they do on the way out.
- Zero jobs, several sources, a single file as source, devices, fifos and sockets.
- Mounting in the kernel: the super block and both tables are taken as loaded; only the entries section is read off the device.
- The slab, inode and page caches, locking between callers, statfs, remount and registration, and the differences between kernel versions.
- uthash's hash functions, its Bloom filter, HASH_SELECT and HASH_CLEAR: the hash is any function of the key, and a key is a number.
- Masks with a power of two minus one are written as remainders, shifts as divisions.
- Integer widths: 32-bit words and unsigned arguments are modelled where values are stored; that positions and sizes fit an int is assumed.
- The second copy of the bit buffer in src/linux/bitbuffer.c: the same code as in src/mkfs/bitbuffer.c.
- RoundTrip.WholeImage: times are not part of an extracted tree, because the tool does not set them; what becomes of them is in `Tables.CtimeRecovers` and `Tables.MtimeRecovers`.
- EndToEnd.PackAndExtract: an output directory with something in it is covered call by call (`Replacing`, `Extraction.Extracting`), and by no theorem on what the whole ends with.
- Unfs.Traverse: says nothing of a traversal that runs for ever on the given disk, leaves the tables, or reads a directory or link past its bytes; the program then has no result, or no defined one.
- Builders.Builder.Scan: a depth-first walk of a tree with names, in place of fts handing out entries that point to their parents.
- A bit buffer opened at a pointer inside a directory's bytes is the whole buffer positioned there.
