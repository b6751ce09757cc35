# IOMMU translation structures: a verified model

Two crates describe the in-memory structures of an IOMMU: `intel-iommu` (VT-d) and `amd-iommu`.
This project models the parts of them in which many entries, records or fields act together, and
proves what a caller relies on.

**Page tables.** A table is 512 eight-byte entries; a tree has one to five levels. `Radix` gives the
meaning of a walk as a recursion over an arbitrary memory (`Descend`) and the list of entries it reads
(`Trace`); `IntelPageTables.Walk` and `AmdPageTables.Walk` are the crates' loops, masks and shifts
included, proved to compute them. On top of that meaning stand the frame rule, the invisibility of
accessed/dirty updates, offsets on leaves, trees of distinct table pages and how they grow, mapping a range
from an empty root and unmapping it, and splitting a super page.

**ACPI tables.** `Records` is the theory of byte strings that are cut into records carrying their own
length; `Dmar` and `Ivrs` are the two tables whose four iterators are instances of it, with the records
inside records (device scopes, device entries).

**Codecs.** `Qi`, `QiLaws` and `QiWire` are the queued-invalidation descriptors (section 6.5.2 of the VT-d
specification). `Context`, `Layouts` and the three entry-law modules are the packed context and PASID-table
entries (sections 9.3 to 9.6), proved to be records of independent fields.

`EntryBits`, `AmdEntryBits`, `QiWire`, the `First...` lemmas and the `GettersRead` lemmas state the formats in
plain numbers, so that the constants of the formats are fixed by statements that do not use them.

A word is a number below 2^64 and its bit operations are written out bit by bit (`Bits`), so that masks
and shifts are related to quotients and remainders by proof. Truncating casts are remainders. The `fetch`
closure is a total function from addresses to entries.

Duties of the caller that appear as types: a table address is at most 2^64 - 4096, so that entry addresses
do not wrap, and `levels` is 1 to 5, the range of the crates' shift table (their documentation speaks of
4 or 5 for Intel and 3 to 5 for AMD).

Where the code does something a reader of its documentation would not expect, the code is modelled and the
exact condition is proved:

- `page` and `huge_page` keep only the write flag of the requested permissions and force read
  (`Entries.PermissionsKeptIff`, `Entries.HugePermissionsKeptIff`, `Entries.ExecuteIsLost`).
- The walkers join frame and offset with `|` and do not ask that a super page's frame is aligned. A walk
  moves its leaf's addresses by one distance if and only if the frame is (`WalkLaws.OffsetIffAligned`,
  with `WalkLaws.MisalignedSuperPage` as an instance that is not).
- First-stage and v1 walks ignore address bits above the table width (`WalkLaws.AliasModuloWidth`,
  `AmdPageTables.AliasModuloWidth`).
- The global flag of a device-TLB invalidation with PASID lands in the type field
  (`QiLaws.DevPiotlbType`, `QiLaws.GlobalDevPiotlbMisread`).
- A reserved code of an address width, translation type or paging mode is stored by its low bits. It reads
  back as itself if and only if it fits its field and names no defined value; otherwise it comes back as
  the defined value or the smaller reserved code that its low bits spell (`EntryLaws.CodesKeptIff`,
  `ContextLaws.AddressWidthKeptIff`, `PasidTableLaws.CodesSetKeptIff`, and the two `Misread` lemmas beside
  them). The "canonical values" of the setter laws are these.

Two differences between code and documentation are followed as the code has them: the PASID of a
PASID-cache invalidation is bits 63:32, although its documentation says 47:32, and the first-level pointer
is bits 51:12, although its documentation says 63:12.

## Model

| member | source | states |
|---|---|---|
| `IntelPageTables.Walk` | intel-iommu/src/pagetables.rs:142-177 | the walker's loop terminates, returns the recursive meaning of the walk, and fetches exactly the entries on the address's path, none at all for an address too large |
| `IntelPageTables.IndexAt` | intel-iommu/src/pagetables.rs:253-256 | the extracted bits are the table index: the address divided by what an entry of the level maps, modulo 512 |
| `AmdPageTables.Walk` | amd-iommu/src/pagetables.rs:129-165 | the same for v1 and v2 tables, where every entry bit is kept as permissions |
| `AmdPageTables.IndexAt` | amd-iommu/src/pagetables.rs:201-204 | the same index for the AMD walker |
| `EntryBits.IndexBits` | intel-iommu/src/pagetables.rs:133-155 | the index at level l is the nine address bits from bit 9l + 3 up |
| `EntryBits.WalkBits` | intel-iommu/src/pagetables.rs:59-174 | a successful walk bit by bit: the frame is bits 51:12 of the leaf entry, the address gives the bits below what the leaf maps, the reported flags are exactly bits 0, 1, 2, 7, 8, 9, 10 and 63 of the entry, a super page is bit 7 above level 1 |
| `EntryBits.TooLargeIffWide` | intel-iommu/src/pagetables.rs:146-150 | an n-level second-stage walk is refused, naming 9n + 12 bits, if and only if the address needs more |
| `AmdEntryBits.WalkBits` | amd-iommu/src/pagetables.rs:147-160 | the same for the AMD walker, whose permissions are the whole entry |
| `AmdEntryBits.TooLargeIffWide` | amd-iommu/src/pagetables.rs:133-139 | the same refusal for v2 walks |
| `AmdPageTables.WalkersAgree` | amd-iommu/src/pagetables.rs:129-165 | on one memory, v2 and second-stage walks (v1 and first-stage) give the same error or the same byte, level and huge flag; the Intel flags are the AMD ones cut to the declared set |
| `Paths.TraceIsPath` | intel-iommu/src/pagetables.rs:151-175 | what a walk fetches is a chain of entries: one level down each time, through present entries without PS, each read in the table the previous one points to |
| `Paths.PathIsUnique` | intel-iommu/src/pagetables.rs:151-175 | there is no other such chain, and its last entry alone decides success or the level of absence |
| `WalkLaws.WalkAnswersByItsPath` | intel-iommu/src/pagetables.rs:146-176 | success, not-present at a level and address-too-large happen exactly under their conditions; a chain that ends at level l has the levels from the top down to l, one fetch each |
| `Paths.FrameRule` | intel-iommu/src/pagetables.rs:153-175 | memories that agree on the fetched entries give the same trace and outcome |
| `WalkLaws.WriteElsewhere` | intel-iommu/src/pagetables.rs:153-175 | writing an entry that is not fetched changes neither the full result nor the fetches |
| `WalkLaws.MarksAreInvisible` | intel-iommu/src/pagetables.rs:237-248 | any run of accessed/dirty updates to any entries leaves error, byte, level, huge flag and all other permission bits of every walk unchanged |
| `Entries.MarkedEntry` | intel-iommu/src/pagetables.rs:239-248 | one update changes no bit that decides presence, super-page mark or frame |
| `EntryBits.AccessedDirtyBits` | intel-iommu/src/pagetables.rs:239-248 | accessed sets bit 8 and dirty sets bit 9 when asked, and every other bit is as it was |
| `EntryBits.MarkedLeaf` | intel-iommu/src/pagetables.rs:157-174 | marking the leaf a walk ends on changes nothing of the result but bits 8 and 9 of its permissions, as asked |
| `WalkLaws.LeafIsAnOffset` | intel-iommu/src/pagetables.rs:161-171 | all addresses under one leaf share level, permissions and huge flag, and with an aligned frame are moved by one distance |
| `WalkLaws.OffsetIffAligned` | intel-iommu/src/pagetables.rs:164-167 | all addresses under a leaf succeed and are moved by one distance if and only if the leaf's frame is aligned to what the leaf maps |
| `WalkLaws.OffsetsAddIffAligned` | intel-iommu/src/pagetables.rs:164-167 | the joined numbers alone: `base \| offset` is `base + offset` for every offset if and only if the base is aligned |
| `WalkLaws.MisalignedSuperPage` | intel-iommu/src/pagetables.rs:162-171 | a concrete four-level memory with a misaligned 2 MiB page that translates two addresses to one byte |
| `WalkLaws.AliasModuloWidth` | intel-iommu/src/pagetables.rs:146-156 | a first-stage walk of an address is the walk of the address modulo the table width |
| `AmdPageTables.AliasModuloWidth` | amd-iommu/src/pagetables.rs:133-145 | a v1 walk of an address is the walk of the address modulo the table width, permissions included |
| `Addresses.DigitsRebuildAddress` | intel-iommu/src/pagetables.rs:251-256 | the indexes times what their levels map, plus the page offset, add up to the address modulo the table width |
| `Addresses.SameIndexesSamePage` | intel-iommu/src/pagetables.rs:251-256 | equal index tuples if and only if equal page numbers |
| `Entries.PageEntry` | intel-iommu/src/pagetables.rs:191-193 | a leaf entry is present, not a super page, and carries its address's frame and exactly the granted flags |
| `Entries.TableEntryIs` | intel-iommu/src/pagetables.rs:198-200 | a non-leaf entry is followed by the walker, to the table it was built for |
| `Entries.HugePageEntry` | intel-iommu/src/pagetables.rs:204-211 | a super-page entry is present, marked, and carries frame and granted flags |
| `EntryBits.PageBits` | intel-iommu/src/pagetables.rs:191-193 | the bits of a leaf: present, write as asked, frame 51:12, and no other |
| `EntryBits.TableBits` | intel-iommu/src/pagetables.rs:198-200 | the bits of a non-leaf entry: 0, 1, 2 and the frame |
| `EntryBits.HugePageBits` | intel-iommu/src/pagetables.rs:204-211 | the bits of a super-page leaf: those of a leaf and bit 7 |
| `Entries.PermissionsKeptIff` | intel-iommu/src/pagetables.rs:191-193 | a leaf reports the requested permissions if and only if these are read, or read and write |
| `Entries.HugePermissionsKeptIff` | intel-iommu/src/pagetables.rs:204-211 | a super-page leaf does if and only if these are read, or read and write, together with the page-size mark |
| `Entries.ExecuteIsLost` | intel-iommu/src/pagetables.rs:191-211 | a request for read, write and execute comes back without execute, from either constructor |
| `AmdEntries.V2PageEntry` | amd-iommu/src/pagetables.rs:169-178 | a v2 leaf as the walker reads it: frame, writable and user bits exactly as asked, accessed and dirty set |
| `AmdEntries.V2TableEntry` | amd-iommu/src/pagetables.rs:182-184 | a v2 non-leaf entry points to its table |
| `AmdEntries.V1PageEntry` | amd-iommu/src/pagetables.rs:188-197 | a v1 leaf as the walker reads it: frame, read and write bits exactly as asked |
| `AmdEntryBits.V2PageBits` | amd-iommu/src/pagetables.rs:169-178 | the bits of a v2 leaf: 0, 1 and 2 as asked, 5, 6 and the frame |
| `AmdEntryBits.V2TableBits` | amd-iommu/src/pagetables.rs:182-184 | the bits of a v2 non-leaf entry: 0, 1, 2, 5 and the frame |
| `AmdEntryBits.V1PageBits` | amd-iommu/src/pagetables.rs:188-197 | the bits of a v1 leaf: 0, 4 and 5 as asked and the frame |
| `AmdEntries.MapOnePage` | amd-iommu/src/pagetables.rs:140-163 | writing a leaf into the level-1 slot of a page of a tree maps that page and changes no other translation |
| `TableTrees.SharedEntry` | intel-iommu/src/pagetables.rs:151-175 | in a tree of distinct pages, two walks that fetch one entry do so at one level and agree on the address bits from there up |
| `TableTrees.SlotsAreNotShared` | intel-iommu/src/pagetables.rs:151-175 | two addresses that walk to level 1 end at the same slot if and only if they have the same page number |
| `TableTrees.RewriteOnePage` | intel-iommu/src/pagetables.rs:151-175 | rewriting one level-1 slot changes the outcome of the addresses of one 4 KiB page, modulo the table width, and of no other |
| `TreeGrowth.Plant` | intel-iommu/src/pagetables.rs:281-287 | an empty root page is a tree |
| `TreeGrowth.GraftKeepsTree` | intel-iommu/src/pagetables.rs:198-200 | hanging a fresh empty page below an empty non-leaf entry gives a tree again |
| `TreeGrowth.GraftKeepsTranslations` | intel-iommu/src/pagetables.rs:151-175 | it changes only walks that failed at that entry, which now fail one level further down |
| `TreeGrowth.GraftGivesSlot` | intel-iommu/src/pagetables.rs:198-200 | below a level-2 entry it gives every address through that entry a level-1 slot in the new page |
| `TreeGrowth.GrowGivesSlot` | intel-iommu/src/pagetables.rs:281-287 | building the missing tables on an address's way gives it a level-1 slot, keeps the tree, all present entries, all slots and all translations |
| `SuperPages.SplitPreservesTranslation` | intel-iommu/src/pagetables.rs:161-174 | replacing any present super page with an aligned frame, marked accessed or dirty or not, by a table of 512 smaller leaves keeps every address's byte and read/write flags; a walk through the entry ends one level lower, all others are untouched |
| `SuperPages.HugePageIsSplittable` | intel-iommu/src/pagetables.rs:204-211 | what `huge_page` builds for an aligned address is such an entry |
| `TreeGrowth.TreeIsUntangled` | intel-iommu/src/pagetables.rs:151-175 | in a tree the split's side conditions hold for every address |
| `TreeGrowth.SplitKeepsTree` | intel-iommu/src/pagetables.rs:198-211 | after a split the tables form a tree with the new page in its place |
| `Mappings.LeastCover` | intel-iommu/src/pagetables.rs:274-276 | the page count is the least number of pages that hold the range |
| `Mappings.LeavesTile` | intel-iommu/src/pagetables.rs:302-309 | each byte of the rounded-up range lies in exactly one leaf, with the matching host page and entry, and no other byte lies in any |
| `Mappings.LeavesSplit` | intel-iommu/src/pagetables.rs:302-309 | a range cut at a page boundary has the leaves of its two parts, in order |
| `Mappings.InstallWrites` | intel-iommu/src/pagetables.rs:279-309 | writing leaves one by one into their slots keeps the tree and its slots, and every walk ends on the last leaf written for its page |
| `Mappings.BuildThenWalk` | intel-iommu/src/pagetables.rs:279-309 | after installing a range's leaves every address in it translates to host base plus offset at level 1 with the granted flags; every other walk is unchanged |
| `Mappings.InstallSplit` | intel-iommu/src/pagetables.rs:302-309 | mapping a range is mapping its two parts one after the other |
| `Mappings.UnmapUndoesMap` | intel-iommu/src/pagetables.rs:186-193 | emptying the leaves again leaves the range absent at level 1 and everything else as before the mapping |
| `Building.MapInTree` | intel-iommu/src/pagetables.rs:279-309 | in any tree with no super page in the way and enough fresh pages, building tables for a range and writing its leaves maps the range, keeps every other translation, and lets what failed outside fail |
| `Building.MapFromNothing` | intel-iommu/src/pagetables.rs:279-309 | from an empty root page, the same maps the range and nothing else |
| `Acpi.ValidateIsExact` | intel-iommu/src/dmar.rs:100-118 | the result for any bytes: accepted, as the claimed prefix, if and only if length, signature, claimed length and byte sum are right; otherwise the first failing check, with the length, signature or lengths found |
| `Acpi.TrailingBytesIgnored` | intel-iommu/src/dmar.rs:107-117 | bytes after the claimed length never change an accepted table |
| `Acpi.ChecksumIsDetermined` | amd-iommu/src/ivrs.rs:91-109 | with the other checks passed, exactly one value of byte 9 makes the table acceptable |
| `Acpi.WrappingSumIsSum` | intel-iommu/src/dmar.rs:100-118 | the wrapping fold is the byte sum modulo 256 |
| `Dmar.NewIsExact` | intel-iommu/src/dmar.rs:100-118 | the same for DMAR in numbers: 48 bytes at least, the letters DMAR, the length in bytes 4 to 7 |
| `Ivrs.NewIsExact` | amd-iommu/src/ivrs.rs:91-109 | the same for IVRS: 44 bytes at least, the letters IVRS |
| `Records.CutIsUnique` | intel-iommu/src/dmar.rs:222-239 | the records an iterator takes are the only way to read the bytes as records and a tail that starts none |
| `Dmar.StructIter.Next` | intel-iommu/src/dmar.rs:222-239 | one step takes exactly the first remaining structure off the front; when there is none nothing changes, so iteration stays ended |
| `Dmar.FirstStruct` | intel-iommu/src/dmar.rs:222-239 | the first structure of any bytes, by the numbers: kind by byte 0, length by bytes 2 and 3, none if that is below 4 or too long |
| `Dmar.StructsPartition` | intel-iommu/src/dmar.rs:168-172 | on any bytes, structures and tail make up the input; each structure's length field is its size; the tail is under 4 bytes or carries an illegal length |
| `Dmar.StructsRoundTrip` | intel-iommu/src/dmar.rs:222-249 | structures written one after the other are yielded in order, classified by their first byte |
| `Dmar.DeviceScopeIter.Next` | intel-iommu/src/dmar.rs:513-531 | one step takes off the front the bytes that the yielded scope prints to |
| `Dmar.FirstScope` | intel-iommu/src/dmar.rs:448-531 | the first scope of any bytes, by the numbers: type by byte 0, length by byte 1, flags, enumeration id, bus and path at their places |
| `Dmar.ScopesByType` | intel-iommu/src/dmar.rs:283-352 | where the scopes of a structure start, by its type byte: 16 for type 0, 24 for type 1, 8 for types 2, 5 and 6, none for the others |
| `Dmar.ScopesFollowHead` | intel-iommu/src/dmar.rs:283-352 | a head of that size followed by printed scopes yields those scopes |
| `Dmar.ScopesRoundTrip` | intel-iommu/src/dmar.rs:506-532 | any list of printable scopes is printed and read back unchanged |
| `Dmar.ScopesPrintBack` | intel-iommu/src/dmar.rs:506-532 | scopes read from any bytes print to exactly those bytes, up to a tail that starts none |
| `Dmar.ScopesOfTable` | intel-iommu/src/dmar.rs:283-287 | in every accepted table the structures stand one behind the other; the scopes a structure yields stand wholly inside that structure after its fixed part and read as yielded; no two scopes of the table overlap |
| `Ivrs.BlockIter.Next` | amd-iommu/src/ivrs.rs:200-218 | one step takes exactly the first remaining block off the front; when there is none nothing changes |
| `Ivrs.FirstBlock` | amd-iommu/src/ivrs.rs:163-218 | the first block of any bytes, by the numbers: kind by byte 0, length by bytes 2 and 3, none if that is below 4 or too long |
| `Ivrs.BlocksPartition` | amd-iommu/src/ivrs.rs:125-129 | on any bytes, blocks and tail make up the input, and the tail is under 4 bytes or carries an illegal length |
| `Ivrs.BlocksRoundTrip` | amd-iommu/src/ivrs.rs:200-218 | blocks written one after the other are yielded in order, classified by their first byte |
| `Ivrs.DeviceEntryIter.Next` | amd-iommu/src/ivrs.rs:419-455 | one step consumes at least four bytes and yields the first remaining entry; when there is none nothing changes |
| `Ivrs.FirstEntry` | amd-iommu/src/ivrs.rs:365-455 | the first device entry of any bytes, by the numbers: 8 bytes for types 03h and 28h to 2Fh, byte 1 for 40h to 42h and 48h, 4 otherwise, its fields at their places, none if the bytes do not suffice |
| `Ivrs.DevicesByType` | amd-iommu/src/ivrs.rs:298-307 | where the device entries of a block start, by its type byte: 24 for 10h, 28 for 11h and 40h, none for the others |
| `Ivrs.EntriesAreRecords` | amd-iommu/src/ivrs.rs:419-455 | a byte string is taken as one entry, whatever follows, if and only if its size is what its first two bytes say |
| `Ivrs.EntriesRoundTrip` | amd-iommu/src/ivrs.rs:419-455 | any list of printable entries, mixing 4-byte, 8-byte and length-prefixed ones, is printed and read back unchanged |
| `Ivrs.EntriesAreCanonical` | amd-iommu/src/ivrs.rs:419-455 | every entry yielded has a byte form, and printing and reading what was read changes nothing |
| `Ivrs.DevicesOfTable` | amd-iommu/src/ivrs.rs:298-307 | in every accepted table the blocks stand one behind the other; the device entries a block yields stand inside that block after its header and read as yielded; no two entries of the table overlap |
| `QiLaws.TypeIsParts` | intel-iommu/src/qi.rs:105-107 | the decoded type is bits 11:9 above bits 3:0 of the first word |
| `QiWire.WordsAreWire` | intel-iommu/src/qi.rs:128-617 | the four words of every descriptor as sums of its fields at their bit positions, with type numbers and granularity codes written out; the 128-bit form is the first two, or zero for the 256-bit kind |
| `QiWire.KindIsNumber` | intel-iommu/src/qi.rs:83-107 | two words decode if and only if bits 11:9 are zero and bits 3:0 are 1 to 7, and then to the kind of that number |
| `QiWire.EncodedNumber` | intel-iommu/src/qi.rs:83-131 | an encoded 128-bit descriptor has the number of its kind in bits 3:0 and zero in bits 11:9 |
| `QiWire.TyIsNumber` | intel-iommu/src/qi.rs:575-586 | the type a descriptor names is that number, 8 for the 256-bit kind |
| `QiLaws.DecodeOfEncode` | intel-iommu/src/qi.rs:592-632 | every 128-bit descriptor is decoded from its encoding, its fields cut to their widths |
| `QiLaws.EncodeOfDecode` | intel-iommu/src/qi.rs:592-632 | two words decode if and only if their type is one of the seven; encoding the result keeps exactly the descriptor's fields of the words and decodes to it again |
| `QiLaws.EncodingIsInjective` | intel-iommu/src/qi.rs:592-605 | canonical descriptors, of one kind or different ones, have equal words if and only if they are equal |
| `QiLaws.DevPiotlbType` | intel-iommu/src/qi.rs:541-548 | a device-TLB invalidation with PASID reads back its type if and only if its global flag is clear; otherwise it reads as a page-group response |
| `QiLaws.GlobalDevPiotlbMisread` | intel-iommu/src/qi.rs:541-548 | a concrete descriptor that does not |
| `QiLaws.DevPiotlbHasNoPair` | intel-iommu/src/qi.rs:592-632 | its 128-bit form decodes to no descriptor |
| `Fields.PutThenGet` | intel-iommu/src/context.rs:257-260 | overwriting a field by mask and join makes it read the new value and leaves every disjoint field as it was |
| `Layouts.WriteThenParts` | intel-iommu/src/context.rs:222-314 | over words cut completely into fields, a write changes its own part and no other |
| `ContextLaws.GettersRead` | intel-iommu/src/context.rs:238-305 | the getters of a legacy context entry, with the codes of translation type and width, as quotients and remainders of its words |
| `ContextLaws.RunRefines` | intel-iommu/src/context.rs:222-305 | after any run of setters in any order each getter of a legacy context entry returns the last canonical value written to its field, and unread bits are as they were |
| `EntryLaws.CodesKeptIff` | intel-iommu/src/context.rs:104-127 | the value a stored code reads back as is the code itself if and only if it is named, or reserved within its field and naming nothing |
| `ContextLaws.AddressWidthKeptIff` | intel-iommu/src/context.rs:283-292 | the address width set on any entry is the one read back if and only if it is named or a reserved code from 4 to 7 |
| `ContextLaws.ReservedWidthMisread` | intel-iommu/src/context.rs:283-292 | reserved code 2 reads back as a defined width, reserved code 12 as another reserved code |
| `ContextLaws.NewEntry` | intel-iommu/src/context.rs:225-227 | what the getters of a new entry return |
| `ContextLaws.ViewIsInjective` | intel-iommu/src/context.rs:215-314 | entries are equal if and only if their getters and unread bits are |
| `ContextLaws.SettersAreIndependent` | intel-iommu/src/context.rs:222-305 | of two setters of one field the later wins, setters of different fields commute |
| `Context.ContextEntry.IntoBytes` | intel-iommu/src/context.rs:309-314 | the bytes are the entry's words, lowest byte first |
| `ContextLaws.BytesDetermine` | intel-iommu/src/context.rs:309-314 | those bytes determine the entry |
| `EntryLaws.FromLeOfLe` | intel-iommu/src/context.rs:309-314 | reading the bytes of a word lowest first gives the word |
| `ScalableContextLaws.GettersRead` | intel-iommu/src/context.rs:346-452 | the getters of a scalable-mode context entry, as quotients and remainders of its words |
| `ScalableContextLaws.RunRefines` | intel-iommu/src/context.rs:333-459 | the same for a scalable-mode context entry: any run of setters is the run of record updates |
| `ScalableContextLaws.NewEntry` | intel-iommu/src/context.rs:336-342 | what the getters of a new entry return |
| `ScalableContextLaws.ViewIsInjective` | intel-iommu/src/context.rs:324-459 | entries are equal if and only if their getters and unread bits are |
| `ScalableContextLaws.SettersAreIndependent` | intel-iommu/src/context.rs:333-459 | setters of one field overwrite, of different fields commute |
| `Context.ScalableContextEntry.IntoBytes` | intel-iommu/src/context.rs:464-471 | the bytes are the entry's four words, lowest byte first |
| `ScalableContextLaws.BytesDetermine` | intel-iommu/src/context.rs:464-471 | those bytes determine the entry |
| `PasidTableLaws.GettersRead` | intel-iommu/src/context.rs:652-788 | the getters of a PASID table entry, with the codes of translation type and paging mode, as quotients and remainders of its words |
| `PasidTableLaws.RunRefines` | intel-iommu/src/context.rs:637-788 | the same for a PASID table entry |
| `PasidTableLaws.CodesSetKeptIff` | intel-iommu/src/context.rs:684-761 | the translation type and paging mode set on any entry are the ones read back if and only if they are named or reserved codes 5 to 7, and 2 to 3 |
| `PasidTableLaws.ReservedCodesMisread` | intel-iommu/src/context.rs:684-761 | reserved codes that read back as defined values and as other reserved codes |
| `PasidTableLaws.NewEntry` | intel-iommu/src/context.rs:640-649 | what the getters of a new entry return |
| `PasidTableLaws.ViewIsInjective` | intel-iommu/src/context.rs:624-788 | entries are equal if and only if their getters and unread bits are |
| `PasidTableLaws.SettersAreIndependent` | intel-iommu/src/context.rs:637-788 | setters of one field overwrite, of different fields commute |
| `Context.PasidTableEntry.IntoBytes` | intel-iommu/src/context.rs:812-823 | the bytes are the entry's eight words, lowest byte first |
| `PasidTableLaws.BytesDetermine` | intel-iommu/src/context.rs:812-823 | those bytes determine the entry |

`Mappings.Install`, `TreeGrowth.Grow` and `SuperPages.Split` are not repository code: they put its entry
constructors to the use that the crate's documentation leaves to the caller
(intel-iommu/src/pagetables.rs:281-287). Likewise `TableTrees.IsTree` states what the caller's table
pages must be. The header checks and the 16-bit length framing are the same in both ACPI files and are
modelled once, in `Acpi`.

## Left out

- Walk results for a `root` above 2^64 - 4096 or `levels` outside 1 to 5: the code panics or wraps there.
- `leaves` beyond 2^64: a range whose page addresses overflow panics or wraps; `Mappings` asks that it does not.
- `first_stage_leaf`: one more entry constructor, of the kind already modelled.
- The iterators yield views that borrow the table; here they yield the bytes themselves, so borrowing is not modelled.
- Field accessors of DMAR structures and IVRS blocks: single reads at fixed offsets, among them
  `host_address_width` (overflows for 255) and `iommu_id` and `segment` (index beyond a 4-byte block).
- `drhd_units`, `ivhd_units`, `ivmd_units`: filters over the modelled iterators.
- Root and PASID-directory entries and the HPT fields of PASID table entries: constructors and reads of one field.
- The setters of context entries take and return the entry; they are functions on the entry's words, as the code's `self` is an owned copy.
- Decoding of the 256-bit descriptor: the crate has none.
- `regs.rs`, `dte.rs`, `cmd.rs`, `events.rs`, `ppr.rs`, `irte.rs`, `fault.rs`: register maps and further codecs that would only add members like those of `Qi`, some with overlapping fields.
- Formatting, zero-copy overlays and the bit-flag library.
- What hardware does with the structures: TLBs, queues, permission intersection along a path, canonical-address checks.
