/** The install theorems: round trip, frame, directory listing, conservation and atomic failure. */
module InstallTheorems {
  import opened Bytes
  import opened Geometry
  import opened Bam
  import opened DiskRead
  import opened Inventory
  import opened Writing
  import opened Directory
  import opened DirectoryProofs
  import opened Install
  import opened InstallProofs

  // ----- the stages of one install, by name

  ghost predicate CanPlace(f: Format, img: seq<byte>, inv: Inventory, encoded: seq<byte>, data: seq<byte>,
      fileType: byte, chain: seq<Loc>) {
    && Valid(f, img, inv) && HasSlot(f, img, inv) && NewChain(f, img, chain)
    && |chain| == Blocks(data) < 0x10000 && |encoded| <= 16 && fileType != 0
    && forall i | 0 <= i < |encoded| :: encoded[i] < 128
  }

  ghost function WrittenImage(f: Format, img: seq<byte>, inv: Inventory, chain: seq<Loc>,
      data: seq<byte>): (r: seq<byte>)
    requires |img| >= Size(f) && DirInDisk(f, inv.dir) && HasSlot(f, img, inv) && |inv.dir| > 0 && OnDisk(f, chain)
    ensures |r| == |img|
  {
    WriteChain(f, ReadyImage(f, img, inv), chain, FileBlocks(chain, data), |chain|).image
  }

  ghost function ClaimedInventory(f: Format, img: seq<byte>, inv: Inventory, chain: seq<Loc>): Inventory
    requires |img| >= Size(f) && DirInDisk(f, inv.dir) && HasSlot(f, img, inv)
  {
    var ready := ReadyInventory(f, img, inv);
    ready.(owner := Claim(ready.owner, NewSlot(f, img, inv), chain))
  }

  /** The inventory after installing a file on `chain`. */
  ghost function NextInventory(f: Format, img: seq<byte>, inv: Inventory, chain: seq<Loc>): Inventory
    requires |img| >= Size(f) && DirInDisk(f, inv.dir) && HasSlot(f, img, inv)
  {
    ClaimedInventory(f, img, inv, chain).(files := inv.files[NewSlot(f, img, inv) := chain])
  }

  lemma ReadyChain(f: Format, img: seq<byte>, inv: Inventory, encoded: seq<byte>, data: seq<byte>, fileType: byte,
      chain: seq<Loc>)
    requires CanPlace(f, img, inv, encoded, data, fileType, chain)
    ensures NewChain(f, ReadyImage(f, img, inv), chain)
  {
    hide FindSlot, Extend, IsFree, FreeBlocks, SlotEntry, FirstFreeSlot, SlotSound, FileSound, BamSound, ReadyImage;
    SlotReady(f, img, inv);
  }

  /** The disk just before the entry is written: sound, and holding the data in an owned chain. */
  lemma WrittenStage(f: Format, img: seq<byte>, inv: Inventory, encoded: seq<byte>, data: seq<byte>, fileType: byte,
      chain: seq<Loc>)
    requires CanPlace(f, img, inv, encoded, data, fileType, chain)
    ensures var w, inv2 := WrittenImage(f, img, inv, chain, data), ClaimedInventory(f, img, inv, chain);
      var k := NewSlot(f, img, inv);
      && WriteChain(f, ReadyImage(f, img, inv), chain, FileBlocks(chain, data), |chain|) == Done(w)
      && Valid(f, w, inv2) && k < 8 * |inv2.dir| && SlotEntry(f, w, inv2.dir, k)[0] == 0
      && SameOwned(f, ReadyImage(f, img, inv), w, ReadyInventory(f, img, inv).owner)
      && Linked(f, w, chain) && Owned(inv2.owner, k, chain) && Gather(f, w, chain, 0) == data
      && FreeBlocks(f, w, Tracks(f)) ==
        FreeBlocks(f, img, Tracks(f)) - |chain| - (if MustGrow(f, img, inv) then 1 else 0)
  {
    hide FindSlot, Extend, IsFree, FreeBlocks, SlotEntry, FirstFreeSlot, SlotSound, FileSound, BamSound, ReadyImage,
      ReadyInventory, WriteChain, Gather, SameSector, HoldsBlock, Linked, Owned, MustGrow;
    SlotReady(f, img, inv);
    ReadyChain(f, img, inv, encoded, data, fileType, chain);
    var ready, inv1, k := ReadyImage(f, img, inv), ReadyInventory(f, img, inv), NewSlot(f, img, inv);
    WrittenKeepsValid(f, ready, inv1, chain, data, k);
    ClaimOwns(inv1.owner, k, chain);
    var w := WrittenImage(f, img, inv, chain, data);
    ChainHolds(f, w, chain, data);
    DirShape(f, ready, inv1, k / 8);
    SlotEntrySame(f, ready, w, inv1.dir, k);
  }

  ghost function EntryFor(f: Format, img: seq<byte>, inv: Inventory, encoded: seq<byte>, data: seq<byte>,
      fileType: byte, chain: seq<Loc>): (e: seq<byte>)
    requires CanPlace(f, img, inv, encoded, data, fileType, chain)
    ensures |e| == 30 && e[0] == fileType && e[3..19] == Padded(encoded) && Describes(e, chain)
  {
    WrittenStage(f, img, inv, encoded, data, fileType, chain);
    var w, inv2 := WrittenImage(f, img, inv, chain, data), ClaimedInventory(f, img, inv, chain);
    assert chain[0] in chain;
    NewEntry(f, SlotEntry(f, w, inv2.dir, NewSlot(f, img, inv)), fileType, chain[0], encoded, |chain|)
  }

  lemma PlaceSteps(f: Format, img: seq<byte>, inv: Inventory, encoded: seq<byte>, data: seq<byte>, fileType: byte,
      chain: seq<Loc>)
    requires CanPlace(f, img, inv, encoded, data, fileType, chain)
    ensures var w, inv2 := WrittenImage(f, img, inv, chain, data), ClaimedInventory(f, img, inv, chain);
      var k, e := NewSlot(f, img, inv), EntryFor(f, img, inv, encoded, data, fileType, chain);
      && EntryReady(f, w, inv2, k, chain, e)
      && PlaceFile(f, img, encoded, data, fileType, chain) == Done(Entered(f, w, inv2, k, e))
  {
    hide FindSlot, Extend, IsFree, FreeBlocks, FirstFreeSlot, FileSound, BamSound, ReadyImage, DirLink, ReadyInventory,
      WriteChain, Gather, SameSector, HoldsBlock, Linked, Owned, MustGrow, WriteEntry;
    WrittenStage(f, img, inv, encoded, data, fileType, chain);
    SlotReady(f, img, inv);
    var w, inv2, k := WrittenImage(f, img, inv, chain, data), ClaimedInventory(f, img, inv, chain),
      NewSlot(f, img, inv);
    assert SlotSound(f, w, inv2, k);
  }

  lemma NameReadsBack(encoded: seq<byte>, entry: seq<byte>)
    requires |entry| == 30 && |encoded| <= 16 && entry[3..19] == Padded(encoded)
    requires forall i | 0 <= i < |encoded| :: encoded[i] < 128
    ensures NameOf(entry) == encoded
  {
    StripPadded(encoded, 16 - |encoded|);
  }

  // ----- what an install means to a reader of the disk

  /** b is a with exactly one more file, at slot k. */
  ghost predicate AddsFile(f: Format, a: seq<byte>, inv: Inventory, b: seq<byte>, inv': Inventory, k: nat,
      encoded: seq<byte>, data: seq<byte>, fileType: byte)
  {
    && Valid(f, a, inv) && Valid(f, b, inv')
    && k !in inv.files && inv'.files.Keys == inv.files.Keys + {k} && k < 8 * |inv'.dir|
    && (var e := SlotEntry(f, b, inv'.dir, k);
        FileBytes(f, b, e) == Some(data) && NameOf(e) == encoded && e[0] == fileType)
    && FilesKept(f, a, inv, b, inv') && BootKept(f, a, inv, b, inv')
  }

  ghost predicate FilesKept(f: Format, a: seq<byte>, inv: Inventory, b: seq<byte>, inv': Inventory)
    requires |a| >= Size(f) && |b| >= Size(f) && DirInDisk(f, inv.dir) && DirInDisk(f, inv'.dir)
  {
    forall s | s in inv.files :: KeepsFile(f, a, inv, b, inv', s)
  }

  ghost predicate KeepsFile(f: Format, a: seq<byte>, inv: Inventory, b: seq<byte>, inv': Inventory, s: nat)
    requires |a| >= Size(f) && |b| >= Size(f) && DirInDisk(f, inv.dir) && DirInDisk(f, inv'.dir)
  {
    && s < 8 * |inv.dir| && s < 8 * |inv'.dir|
    && SlotEntry(f, b, inv'.dir, s) == SlotEntry(f, a, inv.dir, s)
    && FileBytes(f, b, SlotEntry(f, b, inv'.dir, s)) == FileBytes(f, a, SlotEntry(f, a, inv.dir, s))
  }

  /** The stages give the sound disk `Entered`, whose new slot reads back as the name and the data. */
  lemma NewFileReads(f: Format, img: seq<byte>, inv: Inventory, encoded: seq<byte>, data: seq<byte>, fileType: byte,
      chain: seq<Loc>)
    requires CanPlace(f, img, inv, encoded, data, fileType, chain)
    ensures var k, inv', o := NewSlot(f, img, inv), NextInventory(f, img, inv, chain),
      PlaceFile(f, img, encoded, data, fileType, chain);
      && o.Done? && Valid(f, o.image, inv')
      && k !in inv.files && inv'.files.Keys == inv.files.Keys + {k} && k < 8 * |inv'.dir|
      && ReadsAs(SlotEntry(f, o.image, inv'.dir, k), f, o.image, encoded, data, fileType)
  {
    hide Valid, PlaceFile, WrittenImage, ClaimedInventory, EntryFor, SlotEntry, Entered, EntryReady, HasSlot, NewSlot,
      MustGrow, FreeBlocks, SameOwned, Owned, Linked, Gather, WriteChain, ReadyImage, ReadyInventory, Size, NameOf,
        FileBytes, NextInventory, Describes, ReadsAs;
    FirstDirOnly(f, img, inv);
    DirShape(f, img, inv, 0);
    WrittenStage(f, img, inv, encoded, data, fileType, chain);
    PlaceSteps(f, img, inv, encoded, data, fileType, chain);
    var w, inv2 := WrittenImage(f, img, inv, chain, data), ClaimedInventory(f, img, inv, chain);
    var k, e := NewSlot(f, img, inv), EntryFor(f, img, inv, encoded, data, fileType, chain);
    NameReadsBack(encoded, e);
    KeptFiles(f, img, inv, chain);
    EnteredReads(f, w, inv2, k, chain, e, encoded, data, fileType);
  }

  predicate ReadsAs(e: seq<byte>, f: Format, b: seq<byte>, encoded: seq<byte>, data: seq<byte>, fileType: byte)
    requires |e| == 30 && |b| >= Size(f)
  {
    FileBytes(f, b, e) == Some(data) && NameOf(e) == encoded && e[0] == fileType
  }

  lemma KeptFiles(f: Format, img: seq<byte>, inv: Inventory, chain: seq<Loc>)
    requires |img| >= Size(f) && DirInDisk(f, inv.dir) && HasSlot(f, img, inv)
    ensures ClaimedInventory(f, img, inv, chain).files == inv.files
    ensures NextInventory(f, img, inv, chain) ==
      ClaimedInventory(f, img, inv, chain).(files := inv.files[NewSlot(f, img, inv) := chain])
  {
    hide NewSlot, NoGrowth, Growth;
  }

  lemma EnteredReads(f: Format, w: seq<byte>, inv2: Inventory, k: nat, chain: seq<Loc>, e: seq<byte>,
      encoded: seq<byte>, data: seq<byte>, fileType: byte)
    requires EntryReady(f, w, inv2, k, chain, e) && Gather(f, w, chain, 0) == data && NameOf(e) == encoded
    requires e[0] == fileType
    ensures var b, inv3 := Entered(f, w, inv2, k, e), inv2.(files := inv2.files[k := chain]);
      && Valid(f, b, inv3) && k !in inv2.files && k < 8 * |inv2.dir| && inv3.files.Keys == inv2.files.Keys + {k}
      && ReadsAs(SlotEntry(f, b, inv3.dir, k), f, b, encoded, data, fileType)
  {
    EnteredSound(f, w, inv2, k, chain, e);
    SlotReads(f, Entered(f, w, inv2, k, e), inv2.(files := inv2.files[k := chain]), k, chain, e, encoded, data,
      fileType);
    hide *;
  }

  lemma EnteredSound(f: Format, w: seq<byte>, inv2: Inventory, k: nat, chain: seq<Loc>, e: seq<byte>)
    requires EntryReady(f, w, inv2, k, chain, e)
    ensures var b, inv3 := Entered(f, w, inv2, k, e), inv2.(files := inv2.files[k := chain]);
      && Valid(f, b, inv3) && k !in inv2.files && k < 8 * |inv2.dir| && inv3.files.Keys == inv2.files.Keys + {k}
      && SlotEntry(f, b, inv3.dir, k) == e && Gather(f, b, chain, 0) == Gather(f, w, chain, 0)
  {
    hide Entered, SlotEntry, Gather, Linked, Owned, Describes, BamSound, BamOwned, OwnersUsed, DirSound, SlotSound,
      FileSound;
    EnterKeepsValid(f, w, inv2, k, chain, e);
    EnteredFile(f, w, inv2, k, chain, e, k, chain);
    EnteredSlot(f, w, inv2, k, chain, e, k);
  }

  lemma SlotReads(f: Format, b: seq<byte>, inv: Inventory, k: nat, chain: seq<Loc>, e: seq<byte>, encoded: seq<byte>,
      data: seq<byte>, fileType: byte)
    requires Valid(f, b, inv) && k in inv.files && inv.files[k] == chain && k < 8 * |inv.dir|
    requires SlotEntry(f, b, inv.dir, k) == e
    requires (forall l | l in chain :: InDisk(f, l)) && Gather(f, b, chain, 0) == data && NameOf(e) == encoded
    requires e[0] == fileType
    ensures ReadsAs(SlotEntry(f, b, inv.dir, k), f, b, encoded, data, fileType)
  {
    ReadBack(f, b, inv, k);
    hide Valid, SlotEntry, Gather, FileBytes, NameOf, InDisk, Linked;
  }

  lemma InstallCharges(f: Format, img: seq<byte>, inv: Inventory, encoded: seq<byte>, data: seq<byte>, fileType: byte,
      chain: seq<Loc>)
    requires CanPlace(f, img, inv, encoded, data, fileType, chain)
    ensures FreeBlocks(f, PlaceFile(f, img, encoded, data, fileType, chain).image, Tracks(f)) ==
      FreeBlocks(f, img, Tracks(f)) - Blocks(data) - (if MustGrow(f, img, inv) then 1 else 0)
  {
    hide Valid, IsFree, FreeBlocks, SlotEntry, WriteChain, PlaceFile, Entered, WrittenImage, ClaimedInventory,
      EntryReady, ReadyImage, ReadyInventory, NewSlot, EntryFor, Linked, Owned, Gather, SameOwned, SameSector, Size,
        HasSlot, MustGrow;
    FirstDirOnly(f, img, inv);
    DirShape(f, img, inv, 0);
    PlaceSteps(f, img, inv, encoded, data, fileType, chain);
    WrittenStage(f, img, inv, encoded, data, fileType, chain);
    var w, inv2 := WrittenImage(f, img, inv, chain, data), ClaimedInventory(f, img, inv, chain);
    EntryCharges(f, w, inv2, NewSlot(f, img, inv), chain, EntryFor(f, img, inv, encoded, data, fileType, chain));
  }

  lemma EntryCharges(f: Format, w: seq<byte>, inv: Inventory, k: nat, chain: seq<Loc>, e: seq<byte>)
    requires EntryReady(f, w, inv, k, chain, e)
    ensures DirInDisk(f, inv.dir) && |w| >= Size(f)
    ensures FreeBlocks(f, Entered(f, w, inv, k, e), Tracks(f)) == FreeBlocks(f, w, Tracks(f))
  {
    EntryFrame(f, w, inv, k, chain, e);
    hide *;
  }

  /** Round trip and frame: the new entry's stream is the data, and every earlier file keeps its
      entry and its bytes, also when the directory had to grow. */
  lemma InstallAddsFile(f: Format, img: seq<byte>, inv: Inventory, encoded: seq<byte>, data: seq<byte>, fileType: byte,
      chain: seq<Loc>)
    requires CanPlace(f, img, inv, encoded, data, fileType, chain)
    ensures var o := PlaceFile(f, img, encoded, data, fileType, chain);
      && o.Done?
      && AddsFile(f, img, inv, o.image, NextInventory(f, img, inv, chain), NewSlot(f, img, inv), encoded, data,
        fileType)
      && FreeBlocks(f, o.image, Tracks(f)) ==
        FreeBlocks(f, img, Tracks(f)) - Blocks(data) - (if MustGrow(f, img, inv) then 1 else 0)
  {
    NewFileReads(f, img, inv, encoded, data, fileType, chain);
    InstallCharges(f, img, inv, encoded, data, fileType, chain);
    var b, inv' := PlaceFile(f, img, encoded, data, fileType, chain).image, NextInventory(f, img, inv, chain);
    InstallKeepsFiles(f, img, inv, encoded, data, fileType, chain);
    InstallKeepsBoots(f, img, inv, encoded, data, fileType, chain);
    MakeAdds(f, img, inv, b, inv', NewSlot(f, img, inv), encoded, data, fileType);
    hide *;
  }

  lemma MakeAdds(f: Format, a: seq<byte>, inv: Inventory, b: seq<byte>, inv': Inventory, k: nat, encoded: seq<byte>,
      data: seq<byte>, fileType: byte)
    requires Valid(f, a, inv) && Valid(f, b, inv') && k !in inv.files && inv'.files.Keys == inv.files.Keys + {k}
    requires k < 8 * |inv'.dir|
    requires ReadsAs(SlotEntry(f, b, inv'.dir, k), f, b, encoded, data, fileType)
    requires FilesKept(f, a, inv, b, inv') && BootKept(f, a, inv, b, inv')
    ensures AddsFile(f, a, inv, b, inv', k, encoded, data, fileType)
  {
    hide Valid, SlotEntry, FileBytes, NameOf, FilesKept, BootKept;
  }

  lemma InstallKeepsFiles(f: Format, img: seq<byte>, inv: Inventory, encoded: seq<byte>, data: seq<byte>,
      fileType: byte, chain: seq<Loc>)
    requires CanPlace(f, img, inv, encoded, data, fileType, chain)
    ensures var b, inv' := PlaceFile(f, img, encoded, data, fileType, chain).image, NextInventory(f, img, inv, chain);
      |b| >= Size(f) && DirInDisk(f, inv'.dir) && FilesKept(f, img, inv, b, inv')
  {
    NewFileReads(f, img, inv, encoded, data, fileType, chain);
    var b, inv' := PlaceFile(f, img, encoded, data, fileType, chain).image, NextInventory(f, img, inv, chain);
    assert |img| >= Size(f) && |b| >= Size(f) && DirInDisk(f, inv.dir) && DirInDisk(f, inv'.dir);
    hide Valid, PlaceFile, NextInventory, NewSlot, MustGrow, FileBytes, SlotEntry, KeepsFile, NameOf, HasSlot,
      DirInDisk, Size, OnDisk, ReadsAs;
    forall s | s in inv.files ensures KeepsFile(f, img, inv, b, inv', s) {
      InstallKeepsFile(f, img, inv, encoded, data, fileType, chain, s);
    }
  }

  lemma InstallKeepsBoots(f: Format, img: seq<byte>, inv: Inventory, encoded: seq<byte>, data: seq<byte>,
      fileType: byte, chain: seq<Loc>)
    requires CanPlace(f, img, inv, encoded, data, fileType, chain)
    ensures var b, inv' := PlaceFile(f, img, encoded, data, fileType, chain).image, NextInventory(f, img, inv, chain);
      |b| >= Size(f) && BootKept(f, img, inv, b, inv')
  {
    NewFileReads(f, img, inv, encoded, data, fileType, chain);
    var b, inv' := PlaceFile(f, img, encoded, data, fileType, chain).image, NextInventory(f, img, inv, chain);
    assert |img| >= Size(f) && |b| >= Size(f);
    hide Valid, PlaceFile, NextInventory, NewSlot, MustGrow, FileBytes, SlotEntry, SameSector, InDisk, NameOf, HasSlot,
      DirInDisk, Size, OnDisk, ReadsAs;
    forall l | IsBoot(inv, l)
      ensures IsBoot(inv', l) && InDisk(f, l) && SameSector(f, img, b, l)
    {
      InstallKeepsBoot(f, img, inv, encoded, data, fileType, chain, l);
    }
  }

  lemma InstallKeepsFile(f: Format, img: seq<byte>, inv: Inventory, encoded: seq<byte>, data: seq<byte>, fileType: byte,
      chain: seq<Loc>, s: nat)
    requires CanPlace(f, img, inv, encoded, data, fileType, chain) && s in inv.files
    ensures var o, inv3 := PlaceFile(f, img, encoded, data, fileType, chain), NextInventory(f, img, inv, chain);
      o.Done? && Valid(f, o.image, inv3) && KeepsFile(f, img, inv, o.image, inv3, s)
  {
    hide FindSlot, Extend, IsFree, FreeBlocks, FirstFreeSlot, FileSound, SlotSound, BamSound, ReadyImage, DirLink,
      WriteChain, Gather, SameSector, HoldsBlock, Linked, MustGrow, WriteEntry, SlotEntry, PlaceFile, FileBytes,
        WrittenImage, EntryAt, Entered, Describes, IsBam, SameOwned;
    var w, inv2 := WrittenImage(f, img, inv, chain, data), ClaimedInventory(f, img, inv, chain);
    var k, e := NewSlot(f, img, inv), EntryFor(f, img, inv, encoded, data, fileType, chain);
    PlaceSteps(f, img, inv, encoded, data, fileType, chain);
    WrittenStage(f, img, inv, encoded, data, fileType, chain);
    SlotReady(f, img, inv);
    EnterKeepsValid(f, w, inv2, k, chain, e);
    EnteredGather(f, w, inv2, k, chain, e, s);
    var b, inv3 := Entered(f, w, inv2, k, e), NextInventory(f, img, inv, chain);
    assert inv3 == inv2.(files := inv2.files[k := chain]);
    ReadyFile(f, img, inv, s);
    FileFrame(f, ReadyImage(f, img, inv), w, ReadyInventory(f, img, inv), s);
    ReadyEntry(f, img, inv, s);
    EnteredSlot(f, w, inv2, k, chain, e, s);
    ReadBack(f, img, inv, s);
    ReadBack(f, b, inv3, s);
  }

  lemma InstallKeepsBoot(f: Format, img: seq<byte>, inv: Inventory, encoded: seq<byte>, data: seq<byte>, fileType: byte,
      chain: seq<Loc>, l: Loc)
    requires CanPlace(f, img, inv, encoded, data, fileType, chain) && IsBoot(inv, l)
    ensures var o, inv3 := PlaceFile(f, img, encoded, data, fileType, chain), NextInventory(f, img, inv, chain);
      |o.image| == Size(f) && IsBoot(inv3, l) && InDisk(f, l) && SameSector(f, img, o.image, l)
  {
    hide FindSlot, Extend, IsFree, FreeBlocks, FirstFreeSlot, FileSound, SlotSound, BamSound, DirLink, WriteChain,
      Gather, SameSector, HoldsBlock, Linked, MustGrow, WriteEntry, SlotEntry, PlaceFile, FileBytes, WrittenImage,
        EntryAt, Entered, Describes, IsBam, ReadyImage;
    var w, inv2 := WrittenImage(f, img, inv, chain, data), ClaimedInventory(f, img, inv, chain);
    var k, e := NewSlot(f, img, inv), EntryFor(f, img, inv, encoded, data, fileType, chain);
    PlaceSteps(f, img, inv, encoded, data, fileType, chain);
    WrittenStage(f, img, inv, encoded, data, fileType, chain);
    SlotReady(f, img, inv);
    EntryFrame(f, w, inv2, k, chain, e);
    ReadyChain(f, img, inv, encoded, data, fileType, chain);
    var ready, inv1 := ReadyImage(f, img, inv), ReadyInventory(f, img, inv);
    ReadyBoot(f, img, inv, l);
    FreeUnowned(f, ready, inv1, chain);
    ClaimOwns(inv1.owner, k, chain);
    DirNotBam(f, w, inv2, k / 8);
    SameTwice(f, img, ready, w, l);
    SameTwice(f, img, w, Entered(f, w, inv2, k, e), l);
  }

  lemma ReadyBoot(f: Format, img: seq<byte>, inv: Inventory, l: Loc)
    requires Valid(f, img, inv) && HasSlot(f, img, inv) && IsBoot(inv, l)
    ensures InDisk(f, l) && SameSector(f, img, ReadyImage(f, img, inv), l)
    ensures IsBoot(ReadyInventory(f, img, inv), l)
  {
    hide Extend, IsFree, FreeBlocks, FirstFreeSlot, FileSound, SlotSound, BamSound, DirLink, SlotEntry;
    OwnerNotBam(f, img, inv, l);
    if MustGrow(f, img, inv) {
      GrowKeepsValid(f, img, inv);
      GrowthUnseen(f, img, inv, {});
    }
  }
}
