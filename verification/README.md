# UDEKS build-time model

A Dafny model of the host tools that decide what the UDEKS machine boots and runs, with proofs of
what those tools promise. Five components:

1. **CBM disk images.** D64, D71 and D81 geometry, the block availability map, the extendable
   directory chain and linked file chains; formatting, installing, adding applications, editing a
   file in place, repacking a D71 as a D81 and cutting a D64 from a D71. The disk invariant
   (`Inventory.Valid`) says that every count agrees with its bitmap, that every sector in use has
   one owner and is marked used, and that the directory and every file chain are linked and described
   by their entries.
2. **The UDEX relocator.** The o65 parser, the packed high-byte offsets and the page relocator,
   proved equal to the full relocation in 16-bit arithmetic.
3. **Slot admission and memory layout.** The greedy slot choice and its all-permutations check, the
   free-hole sweeps, and the scatter layout and installation of the scheduler.
4. **The raster oracle.** The Bresenham loop against a closed form with an error bound, and
   operation sequences over the cell-addressed bitmap and its dirty map.
5. **Packed containers.** The deduplicating boot filesystem and the nested boot envelopes.

## How it is organised

Each module is a file of the same name. A tool that changes bytes step by step is a method over
`array<byte>` or a class (`Canvas.Canvas`, `RelocTools.Reader`), proved equal to a specification
function; the properties are lemmas about that function. What such a function leaves in a file or in
memory is also stated in plain positions, addresses and values. Bytes are integers below 256 and one-bit
masks are defined arithmetically in `Bytes`. Exceptions are `Result`, `Option` or an `Outcome` that
also holds the image left behind.

- Disks: `Bytes`, `Geometry`, `Bam`, `DiskRead`, `Inventory`, `Writing`, `Directory`,
  `DirectoryProofs`, `Install`, `InstallProofs`, `InstallTheorems`, `Listings`, `Blank`, `Runs`,
  `RunAccounts`, `Repack`, `Rooms`, `RepackAccepts`, `DiskTools`, `SideOne`, `SideOneBuild`,
  `DiskApps`, `DiskAppsTheorem`, `FileEdit`, `FileEditProofs`, `FileEditTheorem`; in image
  positions, without the functions the tools are specified by: `DiskLayout`, `Readers`, `NameReaders`,
  `FileLayout`, `Labels`, `BlankLayout`.
- Relocator: `Udex`, `O65`, `Relocator`, `RelocTools`, `ObjectFiles`.
- Admission and layout: `Admission`, `AdmissionRuns`, `Coexistence`, `Sorting`, `Holes`, `Scatter`,
  `ScatterProofs`, `ScatterOrder`, `ScatterInstall`, `ScatterTheorems`, `ScatterTools`.
- Raster: `Bresenham`, `Raster`, `Canvas`.
- Containers: `Bootfs`, `BootfsProofs`, `BootfsTheorem`, `BootfsTools`, `Overlay`, `Storage`,
  `StorageProofs`, `EnvelopeTheorem`.

## What the proofs found

- The ceiling `scheduler_layout` reports is too low when stage 0 is said to end past the boot sector:
  the inverted boot-sector hole counts as negative room. `ScatterProofs.CeilingIsLimit` gives the
  exact condition and `ScatterTheorems.CeilingTooLow` a call of `install_scheduler`. It takes a direct
  call with a reserved end past the page: a build that installs the boot console cannot reach it, since
  `install_boot_console_installer` keeps the installer inside the page (tools/build_d71.py:541), and
  the ceiling in its message is then exact.
- Several errors cannot occur: the final sort and duplicate check of `pack_o65`
  (`Relocator.SortNeverActs`), the manifest entry limit of `scheduler_layout`
  (`ScatterProofs.PlacedExactly`), the boot-sector overlap of `install_scheduler`
  (`ScatterTheorems.BootSectorAlwaysClear`), and the overlap tests of `wrap_storage`
  (`EnvelopeTheorem.StorageTheorem`).
- For sets that pass `check_coexistence`, quits are harmless too: no run of launches and quits of the
  set, one instance of each application at a time, ever fails a launch (`AdmissionRuns.NoRunFails`).
- `d64_compatibility_image` says it refuses files that leave side one; on a sound disk it refuses
  exactly those (`SideOne.DerivedExactly`), and so never a build that keeps to side one
  (`SideOneBuild.BuildDerives`).
- On a sound disk a whole run of installs fails only for a bad or repeated request or for want of
  room, and the room is known in advance (`RunAccounts.RunExactly`, `Rooms.BuildExactly`). The D81
  always has the room a D71 build needs, so only the boot magic and names equal in upper case can
  stop its repack (`RepackAccepts.BuildRepacks`).

## Model

| member | source | states |
|---|---|---|
| Geometry.SectorInImage | tools/build_d71.py:66-84 | every track/sector pair the tool accepts addresses 256 bytes inside the image, and the image sizes are exactly the sum of the tracks, for D64, D71 and D81 |
| DiskLayout.OffsetsAre | tools/build_d71.py:66-84 | the offset of every sector in plain numbers, zone by zone, side two 174848 bytes on, and the three image sizes |
| DiskLayout.SectorCounts | tools/build_d71.py:66-84 | exactly which track and sector pairs are on each disk, in plain numbers |
| Geometry.SectorsDisjoint | tools/build_d71.py:66-84 | two different sectors never share a byte |
| Geometry.BamDisjoint | tools/build_d81.py:23-25 | no two tracks share a count or bitmap byte of the availability map, and no count byte is a bitmap byte, in the split D71 map as well |
| DiskLayout.MapOnDisk | tools/build_d71.py:149-172 | where the availability map lies in the image: D64 and D71 tracks up to 35 have their count at 91392 + 4 + 4(t - 1) and their bitmap one byte on, D71 tracks from 36 at 91392 + $DD + t - 36 and 266240 + 3(t - 36), D81 tracks at 399616 + 16 + 6(t - 1) up to 40 and 399872 + 16 + 6(t - 41) above; a sector is free exactly when bit s % 8 of byte s / 8 of the bitmap is set, the bits being worth 1, 2, 4 up to 128 |
| DiskLayout.MarkUsedOnDisk | tools/build_d71.py:149-162 | marking at those positions: a used sector changes nothing, a free one loses its bit's worth from its bitmap byte and one from its count and no other byte changes, and with the count already zero it fails, the D71 tool with the bit cleared and the D81 tool with nothing changed |
| Bytes.BitsAreWorth | tools/build_d71.py:149-172 | testing, clearing and setting bit k of a byte in plain arithmetic, bit k being worth 2 to the k |
| Bam.MarkUsedInPlace | tools/build_d81.py:33-37 | the in-place write, error included, is the specified one, with the D71 and D81 write orders kept apart; DiskLayout.MarkUsedOnDisk gives its bytes |
| Bam.MarkUsedSteps | tools/build_d71.py:149-162 | on a disk whose counts agree with its bitmaps marking never fails and changes only the sector's own bit and its track's count, whose places DiskLayout gives in numbers |
| Bam.MarkUsedFreedom | tools/build_d71.py:165-172 | after marking, a sector is free exactly when it was free and is not the one marked |
| Bam.MarkUsedKeepsSound | tools/build_d71.py:149-162 | every track's count stays equal to the set bits of its bitmap |
| Bam.MarkUsedCharges | tools/build_d81.py:33-37 | marking a free sector lowers the reported free blocks by exactly one |
| Bam.MarkUsedFrame | tools/build_d71.py:149-162 | marking changes no byte of any sector outside the availability map |
| DiskRead.Entries | tools/build_d81.py:58-68 | the bounded walk over `seen`, on any image at all, ends and returns the specified listing, the broken chain included (Readers says which that is) |
| DiskRead.ReadFile | tools/build_d81.py:71-82 | the chain walk ends on any image and returns the stream, or refuses a cycle, a sector off the disk, a bad last length or a wrong block count |
| Readers.FileReadsExactly | tools/build_d81.py:71-82 | on any image at all a file is read if and only if its entry names a linked chain of as many different sectors as it states, and then as that chain's payloads; an entry of no sectors reads as nothing |
| Readers.DirectoryReadsExactly | tools/build_d81.py:58-68 | on any image at all the directory is read to its end if and only if the sectors from 18/1, or 40/3, form a chain without repetition whose last names no other, and then the occupied entries are listed in order |
| DiskRead.ReadLinked | tools/build_d81.py:71-82 | a chain of distinct linked sectors is read to its end: all payloads, all blocks |
| DiskRead.GatherSame | tools/build_d81.py:71-82 | reading is local: images that agree on a chain's sectors give it the same stream |
| Inventory.ChainsDisjoint | tools/build_d71.py:212-251 | on a sound disk no sector is in two of these at once: two files' chains, any file's chain, the directory chain, the availability map, the boot sectors; no chain meets itself, and every one of their sectors is on the disk and marked used |
| Inventory.ReadBack | tools/build_d81.py:71-82 | every file of a sound disk reads back as exactly the payloads of its chain |
| FileLayout.FileOnDisk | tools/build_d71.py:231-251 | every file of every sound disk in image positions: type, first track and sector, name padded with $A0 and little-endian block count of its entry, and in each sector of its chain the next track and sector with 254 bytes of the stream, or zero and the offset of the last byte used with the rest of it |
| FileLayout.DirectoryOnDisk | tools/build_d81.py:58-68 | the directory chain in image positions: it starts at 18/1, or 40/3 on the D81, and the first two bytes of each sector name the next |
| Inventory.WalkLists | tools/build_d81.py:58-68 | the directory walk of a sound disk ends normally and lists exactly the occupied slots in order |
| Writing.WriteChainInPlace | tools/build_d81.py:112-116 | the write loop leaves the specified image and error |
| Writing.WriteChainEffect | tools/build_d71.py:231-245 | writing n blocks over free sectors never fails, charges n free blocks, leaves each block in its sector and changes no other sector |
| Writing.ChainHolds | tools/build_d81.py:112-116 | the written chain is linked and reads back as exactly the data, for the empty file and exact multiples of 254 too |
| Directory.FindSlotInPlace | tools/build_d81.py:95-111 | the search, which may extend the directory before any data is written, ends and leaves the specified image, slot or error |
| FileLayout.SearchIs | tools/build_d81.py:95-111 | one step of the search on any image at all: a sector met before is a cycle; else the first slot whose type byte is zero; else the linked sector, which must be a directory sector other than the map's; else the directory grows, or is full |
| DirectoryProofs.FindInChain | tools/build_d71.py:205-230 | on a sound disk the search stops at the first empty slot of the whole directory; when there is none it grows the directory by one sector or reports it full |
| DirectoryProofs.GrowKeepsValid | tools/build_d81.py:107-111 | growing the directory keeps every part of the disk invariant, costs one free block and changes no file or boot sector |
| Install.CollectFree | tools/build_d71.py:195-204 | the collection loop returns the free sectors in allocation order, off the directory track, stopping at the number needed |
| Install.FreeListFacts | tools/build_d81.py:93 | the free list holds exactly the free sectors off the directory track, each once |
| FileLayout.FreeListOrdered | tools/build_d71.py:191-204 | the free list is in increasing order of track, then of sector |
| FileLayout.NamesAre | tools/build_d71.py:184-189 | the stored name, letter by letter: a small letter becomes its capital, every other character stays, and only codes below 128 are taken |
| Install.InstallPrgFile | tools/build_d71.py:175-251 | the whole in-place install is the specified one, error and image |
| Install.InstallD81File | tools/build_d81.py:85-117 | the same for the D81 tool, with its duplicate test and zeroed entry bytes |
| InstallTheorems.InstallAddsFile | tools/build_d71.py:175-251 | after an install the new entry reads back as exactly the data under its name and type, every earlier file keeps its entry and its bytes, every boot sector is unchanged, and the disk is sound, also when the directory grew |
| FileLayout.NewFileOnDisk | tools/build_d71.py:175-251 | the file an install adds, in image positions: in the first slot with type byte zero, on the first max(1, ceil(len/254)) sectors of the free list, with entry and blocks as the formats say |
| FileLayout.NewEntryTail | tools/build_d81.py:117 | bytes 19 to 27 of the new entry are zero on a D81 and left as they were on a D64 or D71 |
| FileLayout.NewSectorOnDisk | tools/build_d71.py:224-230 | a directory that must grow takes the lowest free sector it may use of its track, from 2 up or from 4 on the D81, which starts as $00 $FF and zeros |
| FileLayout.NewFileRest | tools/build_d71.py:231-243 | past the last byte of the stream the last sector keeps what it held |
| Listings.InstallListed | tools/build_d81.py:95-117 | the directory listing gains exactly the new entry, at the position of the first empty slot |
| Listings.InstallPrgTheorem | tools/build_d71.py:175-251 | on a sound disk the install succeeds if and only if the request is well formed and there is room for the data and the entry; a failed install leaves the image unchanged; a successful one costs max(1, ceil(len/254)) free blocks, plus one if the directory grew |
| Listings.InstallFileTheorem | tools/build_d81.py:85-117 | the same for the D81 tool, which also refuses exactly the names already listed |
| Blank.BlankIsValid | tools/build_d71.py:87-124 | both blank images exist for every proper label, satisfy the disk invariant, and leave free exactly the sectors outside the availability map and the first directory sector |
| BlankLayout.BlankOnDisk | tools/build_d71.py:87-124 | a blank image exists if and only if the name has 1 to 16 bytes and the id two, and then every byte of it is given in image positions: header, name, id and links, the count of every track, one set bit for every sector but those kept back, the end of the empty directory, and zeros everywhere else |
| DiskTools.FormatDisk | tools/build_d81.py:40-55 | formatting a zeroed image in place gives the specified blank image |
| Runs.ListBootLocations | tools/build_d71.py:254-262 | the walk over tracks yields the specified boot locations |
| Runs.BootLocationsFit | tools/build_d81.py:125-132 | the boot locations, counted the D71 way, are distinct sectors of every format and avoid the directory track |
| Runs.BootKeepsValid | tools/build_d71.py:864-873 | boot sectors written over free sectors keep the disk sound, each holding its bytes and charged one block |
| Runs.RunInPlace | tools/build_d71.py:874-917 | a sequence of installs in place is the specified run, stopping at the first error |
| Runs.RunTheorem | tools/build_d71.py:874-917 | after every sequence of installs the disk invariant holds; if none failed, the requested files fill the next slots in order and read back, and every earlier file and boot sector is unchanged |
| DiskAppsTheorem.RunAnywhere | tools/build_d71.py:175-251 | the same from any sound disk whatever, with holes in its directory: each file gets a new slot of its own, and no earlier file and no boot sector moves or changes |
| RunAccounts.RunExactly | tools/build_d71.py:186-251 | from any sound disk a run of installs succeeds if and only if every request is well formed, the sum of the blocks is at most the free sectors off the directory track, the files are at most the entries the directory can still take, and on the D81 no name is listed already or asked for twice; afterwards exactly that room is gone and those names are taken, and the free blocks fell by the data's blocks and by one for each sector the directory grew by |
| DiskTools.BuildDisk | tools/build_d71.py:860-918 | the disk half of the build in place is the specified image or failure, of which Rooms.BuildExactly, Repack.BuildTheorem and Labels.BuildLabel say what it is |
| Repack.BuildTheorem | tools/build_d71.py:860-918 | a build that succeeds is a sound disk listing exactly the requested files, in order, each with its name, type and bytes, and holding every boot sector |
| Rooms.BuildExactly | tools/build_d71.py:860-918 | the disk half of the build succeeds if and only if every request is well formed, the data needs at most 451 blocks (1115 when side two is used) and there are at most 144 files |
| DiskTools.RepackDisk | tools/build_d81.py:120-136 | the repack in place is the specified image or refusal, of which RepackAccepts.RepackExactly and Labels.RepackTheorem say what it is |
| Labels.RepackTheorem | tools/build_d81.py:120-136 | whatever D71 the repack accepts, the D81 is sound, lists the same files in the same order with the same type, upper-case name and byte stream, holds each of the 213 boot sectors at the same track and sector despite the other geometry, in image positions, and carries the label of its source as Labels.RepackLabel says |
| Labels.RepackLabel | tools/build_d81.py:120-136 | bytes 4-21 of sector 40/0 of the D81 are the disk name of the D71 padded with $A0 and bytes 22-23 its id, as they stand after the boot sectors and every install; the D71 name is what its 16 bytes leave without trailing $A0; the other header bytes of 40/0, 40/1 and 40/2 are those of every D81 |
| Labels.RunKeepsHeader | tools/build_d71.py:175-251 | no install on a sound disk changes a header byte of the map sectors |
| RepackAccepts.RepackExactly | tools/build_d81.py:120-136 | a D71 image is accepted if and only if it has the boot magic, a disk name, a whole directory of readable files with ASCII names of 1 to 16 characters and types SEQ or PRG, no two names the same in upper case, at most 296 files and at most 2947 blocks |
| RepackAccepts.BuildRepacks | tools/build_d81.py:120-136 | every D71 the build makes is accepted by the repack if and only if its boot sector has the boot magic and no two of its names are the same in upper case: room never runs out |
| Labels.BuildLabel | tools/build_d71.py:87-124 | whatever was installed, a D71 build has the header bytes of a D71 labelled UDEKS, id 01, in image positions, and the label reads back so |
| SideOne.DeriveD64 | tools/build_d71.py:127-146 | the derivation as it runs is the specified one |
| SideOne.DerivedBytes | tools/build_d71.py:127-146 | the D64 is the first 174848 bytes of the D71 with the top bit of byte 3 of sector 18/0 cleared and nothing else changed |
| SideOne.DerivedExactly | tools/build_d71.py:127-146 | on a sound D71 it is refused exactly when some file's chain leaves side one |
| SideOne.DerivedIsLossless | tools/build_d71.py:127-146 | when it succeeds the D64 satisfies the disk invariant of its own geometry, lists the same entries and reads every file the same |
| SideOneBuild.BuildDerives | tools/build_d71.py:1026-1042 | a build that keeps its files on side one always gives a D64, which lists exactly the requested files with their names, types and bytes and carries every boot sector |
| FileEdit.FindDosFile | tools/managed_app_fixture.py:7-37 | both walks end on any image and return the specified entry and offsets or refusal |
| FileEdit.MakeFixture | tools/managed_app_fixture.py:45-60 | the fixture, table of edits included, is the specified image; an offset past the file's end refuses it |
| FileEditProofs.EditTheorem | tools/managed_app_fixture.py:23-37 | on any image at all the offsets of a readable chain are pairwise distinct, are never link bytes and gather to the stream; edits through them are refused exactly when an index is past the end, and otherwise the edited image reads as the edited stream |
| FileEditTheorem.FindsSlot | tools/managed_app_fixture.py:7-22 | on a sound disk the search succeeds if and only if exactly one directory slot matches, a closed SEQ file of the name or of the name with .BIN |
| FileEditTheorem.EditFileTheorem | tools/managed_app_fixture.py:3-60 | editing that file is refused exactly when an index is past its end; otherwise it changes the stream at the edited positions, leaves the disk sound, every directory entry, every other file's bytes and the free blocks as they were, and changes no sector outside the file's chain, so no boot sector |
| FileEditTheorem.FixtureTheorem | tools/managed_app_fixture.py:45-60 | every other fault: refused exactly when the stream is too short for it, and otherwise the stream differs in the bytes of the table, written out fault by fault and by name, and the rest of the disk is as it was |
| FileEditTheorem.MatchIs | tools/managed_app_fixture.py:14-19 | which entries the search matches |
| FileEditTheorem.MissingTheorem | tools/managed_app_fixture.py:3-48 | zeroing the type byte leaves a sound disk without exactly that file; its blocks stay allocated, and no sector but the entry's own changes, so no boot sector |
| DiskApps.ReadNames | tools/add_disk_apps.py:15-35 | the name walk ends on any image and returns the specified names or refusal |
| DiskApps.AddAppsTo | tools/add_disk_apps.py:38-60 | adding applications to a copy is the specified result |
| DiskAppsTheorem.AppRules | tools/add_disk_apps.py:44-50 | the names taken are 1 to 12 capitals, digits, underscores and hyphens with .BIN after them, the files 17 bytes or more that start with UDEX |
| NameReaders.NamesReadExactly | tools/add_disk_apps.py:15-35 | on any image at all the names are read if and only if the directory is a chain of different sectors from 18/1, or 40/3, to one that names no other, on a D64 or D71 all on track 18 and not its sector 0; they are then the upper-case names of its occupied entries |
| DiskAppsTheorem.NamesRead | tools/add_disk_apps.py:15-35 | the directory of a sound disk is always readable and gives exactly its files' upper-case names, for all three formats |
| DiskAppsTheorem.AddAppsTheorem | tools/add_disk_apps.py:38-60 | the checks pass if and only if the requests are portable, UDEX, new and pairwise different; on success the disk is sound, holds every application beside every earlier file and boot sector, and names that were distinct stay distinct |
| DiskAppsTheorem.AddAppsExactly | tools/add_disk_apps.py:38-60 | adding succeeds if and only if the requests are acceptable and their blocks and entries fit the disk; it then takes exactly that room and exactly those names |
| O65.AcceptedIsSound | tools/o65_to_udex.py:48-71 | every accepted relocation table is strictly ordered, free of overlaps and inside its segment |
| O65.DecodeEncoded | tools/o65_to_udex.py:48-71 | decoding the 254-step escape form inverts encoding, whatever bytes follow |
| O65.AcceptedIsCanonical | tools/o65_to_udex.py:48-71 | only the canonical encoding is accepted: the bytes read are the encoding of the result |
| ObjectFiles.EncodingIs | tools/o65_to_udex.py:48-71 | the written form: escapes of 254 until 1 to 254 remain, then the descriptor $20, $40 or $80 with the segment number, and the low byte of a HIGH relocation |
| ObjectFiles.ParsesExactly | tools/o65_to_udex.py:29-73 | a file is accepted if and only if it is, byte for byte, the o65 file of some sound object: magic and mode, the nine layout words, options, image, no imports, the two tables, no exports; and that object is the result |
| ObjectFiles.PacksExactly | tools/o65_to_udex.py:29-81 | an object file is packed if and only if the entry lies in its image and the packed file stays below 64 KiB |
| RelocTools.Reader.Take | tools/o65_to_udex.py:20-24 | the reader returns the next bytes and advances, or refuses and stays |
| RelocTools.ReadTable | tools/o65_to_udex.py:48-71 | one segment's loop collects exactly the high-byte offsets of the relocations decoded that are not LOW and refer to segment 2, 3 or 4, or fails with the specified error |
| RelocTools.PackO65 | tools/o65_to_udex.py:29-81 | the packer as it runs is the specified file or error; ObjectFiles.PacksExactly says when it is a file and Relocator.RelocationPreservesMeaning what the file does |
| Relocator.SortNeverActs | tools/o65_to_udex.py:77-78 | the collected offsets are strictly increasing and below the image size across both segments, so the sort does nothing and the duplicate check never fires |
| Relocator.PackedLayout | tools/o65_to_udex.py:74-81 | header fields, image, count and table of every packed file |
| Relocator.PatchedBytes | tools/o65_to_udex.py:105-107 | a listed offset moves by the page delta, every other byte is untouched |
| Relocator.ShiftBack | tools/o65_to_udex.py:105-107 | moving by any number of pages and back restores the image |
| RelocTools.RelocateExecutable | tools/o65_to_udex.py:84-109 | the relocator as it runs is the specified file or error |
| Relocator.RelocationPreservesMeaning | tools/o65_to_udex.py:29-109 | every packed file is accepted for exactly the admissible page-aligned bases and capacities, the inner build never fails, and in the installed image, for every relocation of the parsed object, the WORD, LOW or HIGH cell of a reference to segment 2, 3 or 4 is the old address plus the distance in 16 bits, that of a reference to segment 1 or 5 is unchanged, and so is every byte in no cell; that is the object with all its relocations applied in full 16-bit arithmetic |
| Coexistence.RelocatedBytes | tools/o65_to_udex.py:84-109 | what installing does to any file the relocator accepts: a plain header for the new base, and each image byte moved by the distance in pages exactly when the file's table lists its offset |
| Udex.Header | tools/build_udex.py:51-60 | the header's magic, version, CPU, flags and four little-endian words |
| Admission.LaunchNeedsHall | tools/native_app_layout.py:33-38 | a launch order that places everyone satisfies Hall's condition on every suffix of the admission order |
| Admission.HallSuffices | tools/native_app_layout.py:33-38 | for upward-closed fits the greedy choice of the smallest free slot then never fails, for any number of slots |
| Admission.LaunchOrderTheorem | tools/native_app_layout.py:23-40 | one order succeeds if and only if Hall's condition holds, hence if and only if every other order of the same applications does |
| AdmissionRuns.NoRunFails | tools/native_app_layout.py:23-40 | under Hall's condition no run of launches and quits, however long, ever fails a launch; launches choose as the cited check does, and a quit, which the check does not have, frees its slot |
| AdmissionRuns.CoexistenceTheorem | tools/native_app_layout.py:23-40 | one launch order of the whole set decides: it succeeds if and only if Hall's condition holds, and then every run of such launches and quits succeeds |
| Coexistence.CheckCoexistence | tools/native_app_layout.py:23-40 | the nested loops return the specified count or failing order |
| Coexistence.FittingAllocations | tools/native_app_layout.py:66-78 | the candidate loop returns the specified tasks |
| Coexistence.FitsExactly | tools/native_app_layout.py:66-78 | which tasks a file fits, in plain sizes of the file and of image with BSS, with and without the joined row |
| Coexistence.RelocateExactly | tools/o65_to_udex.py:90-104 | the relocator accepts a file if and only if it is well formed and the destination is admissible |
| Coexistence.FitsBySize | tools/native_app_layout.py:66-78 | for a well-formed file only its sizes decide which allocations fit, the joined one included |
| Coexistence.FittingUpClosed | tools/native_app_layout.py:9-16 | the fitting allocations of every file are upward-closed in the admission order |
| Coexistence.JoinedUpClosed | tools/native_app_layout.py:17-19 | with task 4's memory joined to task 3's the fits are upward-closed in the order 6, 5, 3; tasks 5 and 6 fit as before, and whatever fitted task 3 or 4 fits the joined task 3 |
| Coexistence.PermutationFacts | tools/native_app_layout.py:30-32 | there are n! orders, each an order of the given applications |
| Coexistence.PermutationsComplete | tools/native_app_layout.py:30-32 | every order of the applications is among them |
| Coexistence.CheckTheorem | tools/native_app_layout.py:23-40 | the all-permutations check passes, having counted n! orders, if and only if the set satisfies Hall's condition |
| Coexistence.NativeSetTheorem | tools/native_app_layout.py:23-78 | the same for the sets computed from any executables' bytes |
| Bresenham.TestsDecide | tools/graphics_raster_bench_decode.py:34-40 | the two error tests fire exactly when the next point of the rounded line steps in x and in y |
| Bresenham.LineEnds | tools/graphics_raster_bench_decode.py:26-33 | the line starts at its start and ends at its end |
| Bresenham.NotEarly | tools/graphics_raster_bench_decode.py:30-33 | the end point is not met before move max(abs(dx), abs(dy)), so the loop makes exactly that many moves |
| Bresenham.LineSteps | tools/graphics_raster_bench_decode.py:34-40 | consecutive points are eight-neighbours |
| Bresenham.HalfPixel | tools/graphics_shared_bench.py:142-150 | after i steps in x and j in y, 2*abs(j*abs(dx) - i*abs(dy)) is at most max(abs(dx), abs(dy)): no point is more than half a pixel off the ideal line |
| Raster.AddressBijection | tools/graphics_raster_bench_decode.py:19-20 | both address formulas agree and, with the mask, are a bijection of the 320x200 pixels onto the 8000x8 bits |
| Raster.PlotIs | tools/graphics_raster_bench_decode.py:16-25 | one pixel write in plain numbers: inside the clip the bit 128 >> (x & 7) of the byte at 320 (y / 8) + 8 (x / 8) + y % 8 is set for color 0 and cleared otherwise and the byte's page is flagged; outside nothing happens |
| Raster.LastWriteWins | tools/graphics_raster_bench_decode.py:16-25 | after any sequence of pixel writes every pixel shows its last visible write, or what it showed before |
| Raster.DirtyExactly | tools/graphics_raster_bench_decode.py:25 | the dirty map flags exactly the pages some visible write fell in, besides those flagged before |
| Raster.OpHits | tools/graphics_shared_bench.py:137-154 | pixel, line, outline and fill write exactly the points they cover, in their own color |
| Raster.LastOperationWins | tools/graphics_shared_bench.py:134-178 | over any sequence of operations each pixel ends with the color of the last operation covering it inside the clip |
| Raster.ChangesAreDirty | tools/graphics_shared_bench.py:134-178 | every byte that differs after any sequence of operations lies in a flagged page |
| Raster.ClampedEqualsClipped | tools/graphics_span_bench.py:131-142 | clamping the ranges draws exactly what clipping each pixel draws, from any screen |
| Canvas.Canvas.DrawPixel | tools/graphics_raster_bench_decode.py:16-25 | the in-place write is one specified pixel write |
| Canvas.Canvas.DrawLine | tools/graphics_raster_bench_decode.py:26-40 | the loop over x, y and error ends and draws exactly the points of the closed form, in order |
| Canvas.Canvas.DrawOutline | tools/graphics_shared_bench.py:151-154 | the two loops draw exactly the outline's points |
| Canvas.Canvas.DrawFill | tools/graphics_raster_bench_decode.py:49-53 | the nested loops draw exactly the rectangle's points |
| Canvas.Canvas.DrawClampedFill | tools/graphics_span_bench.py:131-142 | the clamped loops draw the same screen as a clipped fill |
| Canvas.Canvas.PerformAll | tools/graphics_shared_bench.py:134-178 | any list of operations leaves the specified screen |
| Holes.ListFreeHoles | tools/boot_staging_map.py:323-350 | the two sweeps return the specified holes |
| Holes.SweepExact | tools/boot_staging_map.py:331-341 | for any regions, overlapping or straddling the window, a byte of the window lies in a reported hole if and only if no region that ends at the lower bound or above copies it, and the holes are in order, disjoint and inside the window |
| Holes.FreeHolesExact | tools/boot_staging_map.py:323-350 | the same for the staging window and the boot sector at once, for any end of stage 0: bytes below $B00, which only a stage 0 ending lower leaves in the second scan, are judged by the regions that end at $B00 or above |
| Scatter.ListSchedulerHoles | tools/build_d71.py:328-353 | the sweep and the final sort return the specified holes |
| Scatter.LayOut | tools/build_d71.py:356-396 | the layout loop returns the specified chunks, ceiling or error |
| ScatterProofs.StagingExact | tools/build_d71.py:328-353 | the staging holes are exactly the bytes no reserved region covers |
| ScatterProofs.LayoutIsSafe | tools/build_d71.py:356-396 | chunks of a successful layout total the size, are apart from each other and from the manifest, and use only unreserved bytes |
| ScatterProofs.TooBigExactly | tools/build_d71.py:390-394 | the size failure occurs if and only if the scheduler exceeds the room the holes deliver |
| ScatterProofs.ManifestFitsExactly | tools/build_d71.py:362-372 | the manifest has a hole if and only if the capability staged at the shadow start ends below it |
| ScatterProofs.PlacedExactly | tools/build_d71.py:356-396 | the layout succeeds if and only if that holds and the size is at most the rest of the boot sector, plus the bytes below the manifest, plus 428; the entry limit never refuses it, and the reported ceiling is given |
| ScatterOrder.LayoutInOrder | tools/build_d71.py:356-396 | the chunks fill the free ranges in order, in plain addresses: the rest of the boot sector, the bytes from the capability to $ACD8, $C409-$C4EE, $C78A-$C7FF, $CDF0-$CDFF and $CEC0-$CEFF; each chunk starts where its range starts and only the last may leave bytes of its range |
| ScatterProofs.CeilingIs | tools/build_d71.py:378 | the reported ceiling is that room, lowered by a boot-sector hole that ends before it starts |
| ScatterProofs.CeilingIsLimit | tools/build_d71.py:356-396 | the reported ceiling is the limit for every size if and only if stage 0 ends inside the boot sector |
| ScatterTools.InstallSchedulerInPlace | tools/build_d71.py:399-452 | the installer writing both buffers in place leaves the specified memory and error |
| ScatterTheorems.InstallTheorem | tools/build_d71.py:399-452 | installing succeeds if and only if the size is admissible, the capability ends below the manifest, the size is at most the room, and every byte needed was zero; then gathering the chunks the manifest at $ACD9 names rebuilds the scheduler, and the manifest shows its magic and the sum of its bytes, which Bytes.SumLaws fixes; bytes outside are unchanged; and whatever the outcome no nonzero byte has changed |
| Bytes.SumLaws | tools/build_d71.py:430 | what every recorded checksum sums: nothing is 0, one byte is itself, a concatenation is the two sums added |
| ScatterTheorems.MemoryIs | tools/build_d71.py:399-452 | the memory it writes: the boot sector at $0B00 and the staging area from $2000 to $CFFF |
| ScatterTheorems.ReservedIs | tools/build_d71.py:328-353 | the reserved bytes, in plain addresses |
| ScatterTheorems.Stage0EndIs | tools/build_d71.py:411-419 | stage 0 ends at the last nonzero byte of the boot sector, $0B00 when there is none, or at a later reserved end |
| ScatterTheorems.BootSectorAlwaysClear | tools/build_d71.py:411-417 | the boot-sector overlap error cannot occur, since stage 0 ends at the last nonzero byte |
| ScatterTheorems.CeilingTooLow | tools/build_d71.py:399-452 | an input past the boot sector: a scheduler of 428 bytes is installed although the reported ceiling is 427 |
| BootfsTools.BuildImage | tools/build_bootfs.py:36-76 | the cursor, offset dictionary and in-place buffer produce the header, the directory and each distinct payload once, in order, or the specified error |
| BootfsProofs.ChecksExact | tools/build_bootfs.py:42-47 | the neighbour checks after sorting accept exactly the lists of distinct names and nonempty data, in whatever order given |
| BootfsTheorem.DirectoryOrdered | tools/build_bootfs.py:41-42 | names strictly increase along the directory |
| BootfsTheorem.LexIs | tools/build_bootfs.py:41-42 | that order is the usual one: a name comes before its extensions, and otherwise the first difference decides |
| BootfsTheorem.NamesTaken | tools/build_bootfs.py:20-34 | the names taken are 1 to 16 letters, digits, dots, underscores, plus and minus signs, stored as they are |
| BootfsTheorem.HeaderOnImage | tools/build_bootfs.py:56-76 | every byte of the header |
| BootfsTheorem.EntryOnImage | tools/build_bootfs.py:56-76 | every byte of directory entry i, and the payload where it says |
| BootfsProofs.SharedOrDisjoint | tools/build_bootfs.py:63-70 | payload ranges are identical for equal contents and disjoint otherwise |
| BootfsTheorem.SizeAgrees | tools/build_bootfs.py:49-54 | the declared total is header, directory and every distinct payload once, whatever the order of the entries |
| BootfsTheorem.BuildTheorem | tools/build_bootfs.py:36-76 | building succeeds if and only if names are valid and distinct, payloads nonempty and the total fits; the image then has exactly that size, and the lookup finds every name's own payload and reports every other name missing |
| BootfsProofs.FindsOwn | tools/build_d71.py:619-628 | on every image built the directory search finds each name at its own entry |
| BootfsProofs.FindsNone | tools/build_d71.py:619-631 | and reports a name that is not there as missing |
| Overlay.OverlayTheorem | tools/build_scheduler_overlay.py:36-160 | the envelope loads at $5000 with its header there, the page at $5014, then tail, context and switch tail and nothing more; every published source address and size selects its component, the header repeats the published values with the sum of page and tail (Bytes.SumLaws), the tail is the linked tail with router at $C880 and handler at $C900 and zeros between, and the page ends with its vectors |
| Overlay.OverlayExactly | tools/build_scheduler_overlay.py:36-160 | the overlay is built if and only if its inputs pass, in plain addresses and sizes |
| Overlay.IdentityWords | tools/build_window_cache.py:101-107 | the 16 bytes of the identity: magic, core address $4200, the module's size and sum of bytes (Bytes.SumLaws), the entry $42D5 and the capacity 2224 |
| Overlay.WrapTheorem | tools/build_window_cache.py:144-162 | moving the sources keeps every published address true and adds the cache module and its identity |
| Overlay.WrapExactly | tools/build_window_cache.py:144-162 | wrapping succeeds if and only if the payload is the $5000 overlay of version 0.3 ending below $7FC0, activation is published, and the module is not empty and ends below $5210; the result is given byte by byte, and the six source addresses go up by $1000 |
| Storage.BuildStorage | tools/build_storage.py:26-107 | the slice assignments over one buffer give the specified payload or error; EnvelopeTheorem.StorageTheorem and StorageExactly say what and when |
| EnvelopeTheorem.StorageTheorem | tools/build_storage.py:26-107 | the overlap errors cannot occur; on success the service is at $1200, the lookup at $1A00, the wrapped payload at its load word, the policy at $B000, the driver at $E300, and when given the hidden image padded to $F00 at $2300, the installer at $3200, the loader at $D900, the graphics at $C600 with the paths at $CD00 or without paths at $C700, the relocation module at $1880 and the access module at $1F00; every other byte is zero |
| EnvelopeTheorem.StorageExactly | tools/build_storage.py:26-107 | the envelope is built if and only if its inputs pass, in plain sizes, addresses and module identities |
| EnvelopeTheorem.StorageKeeps | tools/build_storage.py:44-48 | whatever an address selected in the wrapped payload it still selects |
| EnvelopeTheorem.InstallKeeps | tools/build_storage.py:110-123 | installing the boot filesystem puts it at $A000 and changes no byte outside $A000-$AFFF |
| EnvelopeTheorem.PartsStay | tools/build_storage.py:110-123 | after the filesystem is installed every one of those components is still at that address, and the filesystem, padded with zeros to 4 KiB, at $A000 |
| EnvelopeTheorem.WindowReady | tools/build_storage.py:110-123 | on every wrapped payload the installation succeeds if and only if the filesystem's own header and size are right |
| EnvelopeTheorem.BootfsInstalls | tools/build_storage.py:110-123 | every filesystem built with the default limit is accepted |
| EnvelopeTheorem.ChainTheorem | tools/build_storage.py:26-123 | through overlay, cache, storage and filesystem every published address still selects its bytes in the final payload, and every storage component is at its own address there |

## Left out

- Unicode upper-casing: names are upper-cased letter by letter for ASCII; characters whose upper case is several letters or ASCII are not modelled.
- The text encoding of the label in `blank_d71`: the label is given as bytes.
- Which of several failing checks of a short-circuit iteration raises first: the directory generator and the duplicate test of `install_file` are one check with the same refusals.
- Disks that are not sound: what is read from them is stated exactly, but what an install does to them only step by step.
- Images longer than their format: edits and name walks are stated for a D64 or D71 image of its own size, where the D71 addresses past side one are off a D64.
- `add_data_files`: the same run of installs with another name pattern; `DiskAppsTheorem.RunAnywhere` covers its installs.
- The fixed staging helpers inside the boot payload (`install_crt0`, `install_module` and their kind) and the first half of `build_image`: their overlap test takes zero bytes for free space, so no ownership is claimed there.
- `shadow_start` below $2000: the scatter layout is stated for a shadow start inside the kernel area, which the linker map gives.
- Validators of command, managed, banked and shell executables, and `bindings` of the window cache: one field check after another.
- Linker maps, generated constants and their text: map segments and published constants are records, and the regular expressions that read and rewrite them are not modelled.
- The hidden-bitmap tail of `wrap_storage` (`reu_graphics_layout` is not part of this model): it is taken to be empty.
- `itertools.permutations` is modelled as a list of all orders of the given names; the order in which it yields them decides only which failing order is reported first.
- Compiler and linker drivers, emulator probes, record decoders, evidence preservation, report hashing, argument parsing and floating-point oracles.
- `disjoint` of graphics_app_layout.py and the literal workloads of the raster benchmarks.
