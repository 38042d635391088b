/** The directory search on a sound disk: which slot it picks, and that growing the directory
    keeps the disk sound. */
module DirectoryProofs {
  import opened Bytes
  import opened Geometry
  import opened Bam
  import opened DiskRead
  import opened Inventory
  import opened Writing
  import opened Directory

  /** First empty slot at or after k, counted along the whole directory, or its end. */
  ghost function FirstFreeSlot(f: Format, img: seq<byte>, dir: seq<Loc>, k: nat): (n: nat)
    requires |img| >= Size(f) && DirInDisk(f, dir) && k <= 8 * |dir|
    ensures k <= n <= 8 * |dir|
    ensures forall i | k <= i < n :: SlotEntry(f, img, dir, i)[0] != 0
    ensures n < 8 * |dir| ==> SlotEntry(f, img, dir, n)[0] == 0
    decreases 8 * |dir| - k
  {
    if k == 8 * |dir| || SlotEntry(f, img, dir, k)[0] == 0 then k else FirstFreeSlot(f, img, dir, k + 1)
  }

  lemma {:induction false} SectorSlots(f: Format, img: seq<byte>, dir: seq<Loc>, i: nat, k: nat)
    requires |img| >= Size(f) && DirInDisk(f, dir) && i < |dir| && k <= 8
    ensures FirstFreeSlot(f, img, dir, 8 * i + k) ==
            if EmptyFrom(f, img, dir[i], k) < 8 then 8 * i + EmptyFrom(f, img, dir[i], k)
            else FirstFreeSlot(f, img, dir, 8 * i + 8)
    decreases 8 - k
  {
    hide EntryAt, SectorsBefore, InDisk;
    if k < 8 {
      assert SlotEntry(f, img, dir, 8 * i + k) == EntryAt(f, img, dir[i], k);
      SectorSlots(f, img, dir, i, k + 1);
    }
  }

  ghost predicate NoGrowth(f: Format, img: seq<byte>)
    requires |img| >= Size(f)
  {
    FreeDirFrom(f, img, FirstGrowth(f)) == DirSectorCount(f)
  }

  ghost function Growth(f: Format, img: seq<byte>): (l: Loc)
    requires |img| >= Size(f) && !NoGrowth(f, img)
    ensures InDisk(f, l) && IsFree(f, img, l) && l.track == DirTrack(f)
  {
    Loc(DirTrack(f), FreeDirFrom(f, img, FirstGrowth(f)))
  }

  /** On a sound disk the search picks the first empty slot; when there is none it grows the
      directory by one sector and picks its first slot, or reports a full directory. */
  lemma {:induction false} FindInChain(f: Format, img: seq<byte>, inv: Inventory, i: nat, seen: set<Loc>)
    requires Valid(f, img, inv) && i < |inv.dir|
    requires forall l | l in seen :: l in inv.owner
    requires forall j | i <= j < |inv.dir| :: inv.dir[j] !in seen
    ensures var r, n := FindSlot(f, img, inv.dir[i], seen), FirstFreeSlot(f, img, inv.dir, 8 * i);
      if n < 8 * |inv.dir| then r == Slot(img, inv.dir[n / 8], n % 8)
      else if NoGrowth(f, img) then r == NoSlot(img, DirectoryFull)
      else r == Slot(Extend(f, img, inv.dir[|inv.dir| - 1], Growth(f, img).sector).image, Growth(f, img), 0)
    decreases |inv.dir| - i
  {
    hide FindSlot, Extend, IsFree, EntryAt, EmptyFrom, Growth, NoGrowth, SlotEntry, Valid, GoodLink, ByteAt,
      FirstFreeSlot, SectorsPerTrack;
    DirShape(f, img, inv, i);
    var l, e := inv.dir[i], EmptyFrom(f, img, inv.dir[i], 0);
    SectorSlots(f, img, inv.dir, i, 0);
    SearchStep(f, img, l, seen);
    if e < 8 {
      assert (8 * i + e) / 8 == i && (8 * i + e) % 8 == e;
    } else {
      if i + 1 < |inv.dir| {
        LinkGood(f, img, inv, i);
        NotLater(f, img, inv, i);
        FindInChain(f, img, inv, i + 1, seen + {l});
      } else if !NoGrowth(f, img) {
        GrowthUnseen(f, img, inv, seen + {l});
        FindInAdded(f, img, inv, seen + {l});
      }
    }
  }

  /** One sector of the directory search. */
  lemma SearchStep(f: Format, img: seq<byte>, l: Loc, seen: set<Loc>)
    requires |img| >= Size(f) && InDisk(f, l) && l.track == DirTrack(f) && l !in seen
    ensures var r, e := FindSlot(f, img, l, seen), EmptyFrom(f, img, l, 0);
      var track, sector := ByteAt(f, img, l, 0), ByteAt(f, img, l, 1);
      if e < 8 then r == Slot(img, l, e)
      else if track != 0 then
        r == if GoodLink(f, track, sector) then FindSlot(f, img, Loc(track, sector), seen + {l})
        else NoSlot(img, BadDirectoryLink)
      else if NoGrowth(f, img) then r == NoSlot(img, DirectoryFull)
      else var o := Extend(f, img, l, Growth(f, img).sector);
           o.Done? ==> r == FindSlot(f, o.image, Growth(f, img), seen + {l})
  {
    hide Extend, IsFree, EmptyFrom;
  }

  lemma DirShape(f: Format, img: seq<byte>, inv: Inventory, i: nat)
    requires Valid(f, img, inv) && i < |inv.dir|
    ensures |img| == Size(f) && DirInDisk(f, inv.dir) && DirLink(f, img, inv, i)
  {
  }

  lemma NotLater(f: Format, img: seq<byte>, inv: Inventory, i: nat)
    requires Valid(f, img, inv) && i < |inv.dir|
    ensures forall j | i < j < |inv.dir| :: inv.dir[j] != inv.dir[i]
  {
    forall j | 0 <= j < |inv.dir| ensures inv.dir[j] in inv.owner && inv.owner[inv.dir[j]] == DirBlock(j) {
      assert DirLink(f, img, inv, j);
    }
  }

  lemma LinkGood(f: Format, img: seq<byte>, inv: Inventory, i: nat)
    requires Valid(f, img, inv) && i + 1 < |inv.dir|
    ensures inv.dir[i + 1].track != 0 && GoodLink(f, inv.dir[i + 1].track, inv.dir[i + 1].sector)
    ensures inv.dir[i + 1] == Loc(inv.dir[i + 1].track, inv.dir[i + 1].sector)
  {
    assert DirLink(f, img, inv, i + 1);
    var l := inv.dir[i + 1];
    NotBam(f, inv.owner, l);
  }

  lemma GrowthUnseen(f: Format, img: seq<byte>, inv: Inventory, seen: set<Loc>)
    requires Valid(f, img, inv) && !NoGrowth(f, img)
    requires forall l | l in seen :: l in inv.owner
    ensures Growth(f, img) !in seen && Growth(f, img) !in inv.owner && !IsBam(f, Growth(f, img))
  {
    var g := Growth(f, img);
    NotBam(f, inv.owner, g);
  }

  lemma FindInAdded(f: Format, img: seq<byte>, inv: Inventory, seen: set<Loc>)
    requires Valid(f, img, inv) && !NoGrowth(f, img) && Growth(f, img) !in seen
    ensures var o := Extend(f, img, inv.dir[|inv.dir| - 1], Growth(f, img).sector);
      o.Done? && FindSlot(f, o.image, Growth(f, img), seen) == Slot(o.image, Growth(f, img), 0)
  {
    hide Extend, FindSlot, BamSound, BamOwned, OwnersUsed, SlotSound, FileSound, DirLink, IsFree, FreeBlocks,
      SameSector, ByteAt, EmptyDirSector;
    ExtendEffect(f, img, inv);
    FindInFresh(f, Extend(f, img, inv.dir[|inv.dir| - 1], Growth(f, img).sector).image, Growth(f, img), seen);
  }

  /** The search stops at the first slot of a fresh directory sector. */
  lemma FindInFresh(f: Format, img: seq<byte>, l: Loc, seen: set<Loc>)
    requires |img| >= Size(f) && InDisk(f, l) && l.track == DirTrack(f) && l !in seen
    requires forall i | 0 <= i < 256 :: ByteAt(f, img, l, i) == EmptyDirSector()[i]
    ensures FindSlot(f, img, l, seen) == Slot(img, l, 0)
  {
    hide ByteAt, SectorsPerTrack, Extend;
    assert EntryAt(f, img, l, 0)[0] == ByteAt(f, img, l, 2) == EmptyDirSector()[2];
  }

  /** The inventory after the directory grew by sector l. */
  ghost function Grown(inv: Inventory, l: Loc): Inventory {
    Inventory(inv.owner[l := DirBlock(|inv.dir|)], inv.dir + [l], inv.files)
  }

  ghost predicate ExtendedBy(f: Format, a: seq<byte>, b: seq<byte>, last: Loc, l: Loc)
    requires InDisk(f, last) && InDisk(f, l)
  {
    && |a| >= Size(f) && |b| == |a| && BamSound(f, b)
    && FreeBlocks(f, b, Tracks(f)) == FreeBlocks(f, a, Tracks(f)) - 1
    && (forall m :: IsFree(f, b, m) <==> IsFree(f, a, m) && m != l)
    && (forall m | InDisk(f, m) && !IsBam(f, m) && m != last && m != l :: SameSector(f, a, b, m))
    && ByteAt(f, b, last, 0) == l.track && ByteAt(f, b, last, 1) == l.sector
    && (forall i | 2 <= i < 256 :: ByteAt(f, b, last, i) == ByteAt(f, a, last, i))
    && (forall i | 0 <= i < 256 :: ByteAt(f, b, l, i) == EmptyDirSector()[i])
  }

  lemma ExtendEffect(f: Format, img: seq<byte>, inv: Inventory)
    requires Valid(f, img, inv) && !NoGrowth(f, img)
    ensures var last, l := inv.dir[|inv.dir| - 1], Growth(f, img);
      var o := Extend(f, img, last, l.sector);
      o.Done? && InDisk(f, last) && ExtendedBy(f, img, o.image, last, l)
  {
    hide IsFree, SlotSound, FileSound, OwnersUsed, Extend, ExtendedBy, TrackSound, SlotEntry, SectorsPerTrack;
    var last, l := inv.dir[|inv.dir| - 1], Growth(f, img);
    assert DirLink(f, img, inv, |inv.dir| - 1);
    GrowthUnseen(f, img, inv, {});
    DirNotBam(f, img, inv, |inv.dir| - 1);
    ExtendSteps(f, img, last, l);
  }

  lemma DirNotBam(f: Format, img: seq<byte>, inv: Inventory, i: nat)
    requires Valid(f, img, inv) && i < |inv.dir|
    ensures InDisk(f, inv.dir[i]) && !IsBam(f, inv.dir[i]) && !IsFree(f, img, inv.dir[i])
    ensures inv.dir[i] in inv.owner && inv.owner[inv.dir[i]] == DirBlock(i)
  {
    assert DirLink(f, img, inv, i);
  }

  lemma ExtendSteps(f: Format, img: seq<byte>, last: Loc, l: Loc)
    requires BamSound(f, img) && InDisk(f, last) && InDisk(f, l) && last != l
    requires !IsBam(f, last) && !IsBam(f, l) && IsFree(f, img, l)
    requires l.track == DirTrack(f) && l.sector < DirSectorCount(f)
    ensures var o := Extend(f, img, last, l.sector); o.Done? && ExtendedBy(f, img, o.image, last, l)
  {
    hide SectorsBefore, MarkUsed, IsBam, InDisk, FreeBlocks, TrackSound, IsFree, WithLink, SameSector;
    assert l == Loc(DirTrack(f), l.sector);
    var a := WithLink(f, img, last, l.sector);
    LinkWritten(f, img, last, l.sector);
    SectorInImage(f, l);
    WriteAndMark(f, a, l, EmptyDirSector());
    var b := Extend(f, img, last, l.sector).image;
    SameBytes(f, a, b, last);
    forall m | InDisk(f, m) && !IsBam(f, m) && m != last && m != l ensures SameSector(f, img, b, m) {
      SameTwice(f, img, a, b, m);
    }
  }

  lemma LinkWritten(f: Format, img: seq<byte>, last: Loc, s: nat)
    requires BamSound(f, img) && InDisk(f, last) && !IsBam(f, last) && s < DirSectorCount(f)
    ensures var a := WithLink(f, img, last, s);
      && BamSound(f, a) && FreeBlocks(f, a, Tracks(f)) == FreeBlocks(f, img, Tracks(f))
      && (forall m :: IsFree(f, a, m) <==> IsFree(f, img, m))
      && (forall m | InDisk(f, m) && m != last :: SameSector(f, img, a, m))
      && ByteAt(f, a, last, 0) == DirTrack(f) && ByteAt(f, a, last, 1) == s
      && forall i | 2 <= i < 256 :: ByteAt(f, a, last, i) == ByteAt(f, img, last, i)
  {
    hide SectorsBefore, IsBam, SectorsPerTrack, FreeBlocks, IsFree, SameSector;
    SectorInImage(f, last);
    WriteFrame(f, img, WithLink(f, img, last, s), last);
  }

  /** Growing the directory keeps the disk sound: the same files in the same slots, eight more
      empty slots, one free block fewer. */
  lemma GrowKeepsValid(f: Format, img: seq<byte>, inv: Inventory)
    requires Valid(f, img, inv) && !NoGrowth(f, img)
    ensures var last, l := inv.dir[|inv.dir| - 1], Growth(f, img);
      var b := Extend(f, img, last, l.sector).image;
      && Valid(f, b, Grown(inv, l))
      && FreeBlocks(f, b, Tracks(f)) == FreeBlocks(f, img, Tracks(f)) - 1
      && (forall m :: IsFree(f, b, m) <==> IsFree(f, img, m) && m != l)
      && (forall m | IsBoot(inv, m) :: InDisk(f, m) && SameSector(f, img, b, m))
  {
    hide SectorsBefore, Extend, IsFree, IsBam, FreeBlocks, BamSound, SlotEntry, FirstFreeSlot, SameSector, Linked,
      Describes, ByteAt, TrackSound, FreeDirFrom;
    var last, l := inv.dir[|inv.dir| - 1], Growth(f, img);
    ExtendEffect(f, img, inv);
    GrowthUnseen(f, img, inv, {});
    GrownValid(f, img, Extend(f, img, last, l.sector).image, inv, l);
  }

  lemma GrownValid(f: Format, img: seq<byte>, b: seq<byte>, inv: Inventory, l: Loc)
    requires GrowStep(f, img, b, inv, l) && !IsBam(f, l) && |img| == Size(f)
    ensures Valid(f, b, Grown(inv, l))
    ensures forall m | IsBoot(inv, m) :: InDisk(f, m) && SameSector(f, img, b, m)
  {
    hide SectorsBefore, IsFree, IsBam, FreeBlocks, BamSound, SlotEntry, SameSector, Linked, Describes, SectorsPerTrack,
      ByteAt;
    var inv' := Grown(inv, l);
    forall i | 0 <= i < |inv'.dir| ensures DirLink(f, b, inv', i) { GrownLink(f, img, b, inv, l, i); }
    forall slot | 0 <= slot < 8 * |inv'.dir| ensures SlotSound(f, b, inv', slot) { GrownSlot(f, img, b, inv, l, slot); }
    forall slot | slot in inv.files ensures FileSound(f, b, inv', slot) { GrownFile(f, img, b, inv, l, slot); }
    forall m | IsBoot(inv, m) ensures InDisk(f, m) && SameSector(f, img, b, m) {
      DirNotBam(f, img, inv, |inv.dir| - 1);
    }
  }

  ghost predicate GrowStep(f: Format, a: seq<byte>, b: seq<byte>, inv: Inventory, l: Loc) {
    && Valid(f, a, inv) && InDisk(f, l) && l.track == DirTrack(f) && l !in inv.owner
    && InDisk(f, inv.dir[|inv.dir| - 1]) && ExtendedBy(f, a, b, inv.dir[|inv.dir| - 1], l)
  }

  lemma GrownLink(f: Format, a: seq<byte>, b: seq<byte>, inv: Inventory, l: Loc, i: nat)
    requires GrowStep(f, a, b, inv, l) && i <= |inv.dir|
    ensures DirLink(f, b, Grown(inv, l), i)
  {
    hide SectorsBefore, IsFree, IsBam, FreeBlocks, BamSound;
    if i < |inv.dir| {
      DirNotBam(f, a, inv, i);
      assert DirLink(f, a, inv, i);
      if i < |inv.dir| - 1 {
        DirNotBam(f, a, inv, |inv.dir| - 1);
        assert SameSector(f, a, b, inv.dir[i]);
        SameBytes(f, a, b, inv.dir[i]);
      }
    } else {
      assert ByteAt(f, b, l, 0) == EmptyDirSector()[0];
    }
  }

  lemma GrownEntry(f: Format, a: seq<byte>, b: seq<byte>, inv: Inventory, l: Loc, slot: nat)
    requires GrowStep(f, a, b, inv, l) && slot < 8 * |inv.dir| + 8
    requires DirInDisk(f, Grown(inv, l).dir)
    ensures slot < 8 * |inv.dir| ==> SlotEntry(f, b, Grown(inv, l).dir, slot) == SlotEntry(f, a, inv.dir, slot)
    ensures slot >= 8 * |inv.dir| ==> SlotEntry(f, b, Grown(inv, l).dir, slot)[0] == 0
  {
    hide SectorsBefore, IsFree, IsBam, FreeBlocks, BamSound;
    var i := slot / 8;
    if i < |inv.dir| - 1 {
      DirNotBam(f, a, inv, i);
      DirNotBam(f, a, inv, |inv.dir| - 1);
      assert SameSector(f, a, b, inv.dir[i]);
      SlotEntrySame(f, a, b, inv.dir, slot);
    } else if i == |inv.dir| - 1 {
      assert SlotEntry(f, b, Grown(inv, l).dir, slot) == SlotEntry(f, a, inv.dir, slot);
    } else {
      assert EntryAt(f, b, l, slot % 8)[0] == EmptyDirSector()[2 + 32 * (slot % 8)];
    }
  }

  lemma GrownSlot(f: Format, a: seq<byte>, b: seq<byte>, inv: Inventory, l: Loc, slot: nat)
    requires GrowStep(f, a, b, inv, l) && slot < 8 * |inv.dir| + 8
    requires DirInDisk(f, Grown(inv, l).dir)
    ensures SlotSound(f, b, Grown(inv, l), slot)
  {
    hide SectorsBefore, IsFree, IsBam, FreeBlocks, BamSound, SlotEntry;
    GrownEntry(f, a, b, inv, l, slot);
    if slot < 8 * |inv.dir| { assert SlotSound(f, a, inv, slot); }
    if slot in inv.files { assert FileSound(f, a, inv, slot); }
  }

  lemma GrownFile(f: Format, a: seq<byte>, b: seq<byte>, inv: Inventory, l: Loc, slot: nat)
    requires GrowStep(f, a, b, inv, l) && slot in inv.files
    requires DirInDisk(f, Grown(inv, l).dir)
    ensures FileSound(f, b, Grown(inv, l), slot)
    ensures Gather(f, a, inv.files[slot], 0) == Gather(f, b, inv.files[slot], 0)
  {
    hide SectorsBefore, IsFree, IsBam, FreeBlocks, BamSound, SlotEntry, SameSector, Gather;
    assert FileSound(f, a, inv, slot);
    GrownEntry(f, a, b, inv, l, slot);
    var chain := inv.files[slot];
    forall m | m in chain ensures InDisk(f, m) && SameSector(f, a, b, m) {
      DirNotBam(f, a, inv, |inv.dir| - 1);
      FileNotBam(f, a, inv, slot, m);
    }
    LinkedSame(f, a, b, chain);
    GatherSame(f, a, b, chain, 0);
  }

  lemma FileNotBam(f: Format, img: seq<byte>, inv: Inventory, slot: nat, m: Loc)
    requires Valid(f, img, inv) && slot in inv.files && m in inv.files[slot]
    ensures InDisk(f, m) && !IsBam(f, m) && m in inv.owner && inv.owner[m].FileBlock? && inv.owner[m].slot == slot
  {
    assert FileSound(f, img, inv, slot);
  }
}
