/** `d64_compatibility_image`: the first side of a D71 as a D64. */
module SideOne {
  import opened Bytes
  import opened Geometry
  import opened Bam
  import opened DiskRead
  import opened Inventory
  import opened Writing
  import opened DirectoryProofs
  import opened InstallProofs
  import opened Listings

  predicate AllReadable(f: Format, img: seq<byte>, entries: seq<seq<byte>>)
    requires |img| >= Size(f) && forall e | e in entries :: |e| == 30
  {
    forall e | e in entries :: FileBytes(f, img, e).Some?
  }

  /** Reading with format D64 from the longer image is reading with `first_side_offset`, which
      refuses tracks past 35. */
  function D64Image(img: seq<byte>): (r: Option<seq<byte>>)
    ensures r.Some? ==> |r.value| == Size(D64)
  {
    if |img| != Size(D71) then None else
      var listing := DirEntries(D64, img);
      if !listing.whole || !AllReadable(D64, img, listing.entries) then None else
        SectorInImage(D64, Loc(18, 0));
        var version := Offset(D64, Loc(18, 0)) + 3;
        Some(img[..Size(D64)][version := img[version] % 128])
  }

  method DeriveD64(image: seq<byte>) returns (r: Option<seq<byte>>)
    ensures r == D64Image(image)
  {
    hide WalkDir, FileBytes;
    if |image| != Size(D71) { return None; }
    var listing := Entries(D64, image, 18, 1);
    var i := 0;
    while i < |listing.entries|
      invariant i <= |listing.entries| && AllReadable(D64, image, listing.entries[..i])
    {
      var e := listing.entries[i];
      assert e in listing.entries;
      var data := ReadFile(D64, image, e);
      if data.None? { return None; }
      assert listing.entries[..i + 1] == listing.entries[..i] + [e];
      i := i + 1;
    }
    assert listing.entries[..i] == listing.entries;
    if !listing.whole { return None; }
    SectorInImage(D64, Loc(18, 0));
    var version := Offset(D64, Loc(18, 0)) + 3;
    return Some(image[..Size(D64)][version := image[version] % 128]);
  }

  // ----- the two formats agree on side one

  lemma {:induction false} SameBefore(t: nat)
    ensures SectorsBefore(D64, t) == SectorsBefore(D71, t)
  {
    if t > 1 { SameBefore(t - 1); }
  }

  lemma SameByte(img: seq<byte>, l: Loc, i: nat)
    requires |img| >= Size(D71) && InDisk(D64, l) && i < 256
    ensures InDisk(D71, l) && ByteAt(D64, img, l, i) == ByteAt(D71, img, l, i)
  {
    SameBefore(l.track);
  }

  /** The derived image holds the same bytes, except the version byte of the BAM sector. */
  lemma DerivedByte(img: seq<byte>, l: Loc, i: nat)
    requires D64Image(img).Some? && InDisk(D64, l) && i < 256
    ensures InDisk(D71, l)
    ensures l != Loc(18, 0) || i != 3 ==> ByteAt(D64, D64Image(img).value, l, i) == ByteAt(D71, img, l, i)
  {
    hide D64Image, SectorsBefore, SectorsPerTrack;
    DerivedRaw(img);
    SameDisk(l);
    SameByte(img, l, i);
    SectorInImage(D64, l);
    SectorInImage(D64, Loc(18, 0));
    if l != Loc(18, 0) { SectorsDisjoint(D64, l, Loc(18, 0)); }
  }

  ghost predicate OnSideOne(chain: seq<Loc>) {
    forall l | l in chain :: l.track <= 35
  }

  lemma LinkedSideOne(img: seq<byte>, chain: seq<Loc>)
    requires |img| >= Size(D71) && Linked(D71, img, chain) && OnSideOne(chain)
    ensures Linked(D64, img, chain)
  {
    hide ByteAt, SectorsPerTrack;
    forall i | 0 <= i < |chain| ensures InDisk(D64, chain[i]) && LinksOn(D64, img, chain, i) {
      assert chain[i] in chain && LinksOn(D71, img, chain, i);
      SameDisk(chain[i]);
      SameByte(img, chain[i], 0);
      SameByte(img, chain[i], 1);
    }
  }

  lemma SameDisk(l: Loc)
    ensures InDisk(D64, l) <==> InDisk(D71, l) && l.track <= 35
  {
  }

  lemma {:induction false} GatherSideOne(a: seq<byte>, b: seq<byte>, chain: seq<Loc>, i: nat)
    requires |a| >= Size(D64) && |b| >= Size(D71) && i <= |chain|
    requires forall l | l in chain :: InDisk(D64, l) && InDisk(D71, l) && forall k | 0 <= k < 256 ::
      ByteAt(D64, a, l, k) == ByteAt(D71, b, l, k)
    ensures Gather(D64, a, chain, i) == Gather(D71, b, chain, i)
    decreases |chain| - i
  {
    hide ByteAt, InDisk;
    if i < |chain| {
      GatherSideOne(a, b, chain, i + 1);
      assert chain[i] in chain;
      assert Payload(D64, a, chain[i]) == Payload(D71, b, chain[i]);
    }
  }

  /** A chain that leaves side one cannot be read there. */
  lemma {:induction false} LeavesSideOne(img: seq<byte>, chain: seq<Loc>, i: nat, seen: set<Loc>, got: seq<byte>)
    requires |img| >= Size(D71) && Linked(D71, img, chain) && i < |chain|
    requires ReadChain(D64, img, chain[i].track, chain[i].sector, seen, got).Some?
    ensures forall j | i <= j < |chain| :: chain[j].track <= 35
    decreases |chain| - i
  {
    hide ByteAt, SectorsPerTrack, Payload, AllSectors;
    var l := chain[i];
    assert l == Loc(l.track, l.sector) && LinksOn(D71, img, chain, i);
    ReadNeedsDisk(img, l, seen, got);
    SameByte(img, l, 0);
    SameByte(img, l, 1);
    if i + 1 < |chain| {
      LeavesSideOne(img, chain, i + 1, seen + {l}, got + Payload(D64, img, l));
    }
  }

  lemma ReadNeedsDisk(img: seq<byte>, l: Loc, seen: set<Loc>, got: seq<byte>)
    requires |img| >= Size(D64) && l.track != 0
    requires ReadChain(D64, img, l.track, l.sector, seen, got).Some?
    ensures InDisk(D64, l) && l !in seen
    ensures ReadChain(D64, img, l.track, l.sector, seen, got) ==
            ReadChain(D64, img, ByteAt(D64, img, l, 0), ByteAt(D64, img, l, 1), seen + {l}, got + Payload(D64, img, l))
  {
    assert l == Loc(l.track, l.sector);
  }

  // ----- lossless or refused

  ghost function SideOneInventory(inv: Inventory): Inventory {
    inv.(owner := map l | l in inv.owner && l.track <= 35 :: inv.owner[l])
  }

  lemma DirectoryBoth(img: seq<byte>, inv: Inventory)
    requires Valid(D71, img, inv)
    ensures DirChain(D71, img, inv) && DirChain(D64, img, SideOneInventory(inv))
    ensures DirInDisk(D64, inv.dir)
    ensures forall s | 0 <= s < 8 * |inv.dir| :: SlotEntry(D64, img, inv.dir, s) == SlotEntry(D71, img, inv.dir, s)
  {
    hide ByteAt, IsFree, SlotSound, FileSound, TrackSound;
    var inv' := SideOneInventory(inv);
    forall i | 0 <= i < |inv.dir| ensures InDisk(D64, inv.dir[i]) && DirLink(D64, img, inv', i) {
      assert DirLink(D71, img, inv, i);
      SameDisk(inv.dir[i]);
      SameByte(img, inv.dir[i], 0);
      SameByte(img, inv.dir[i], 1);
    }
    forall s | 0 <= s < 8 * |inv.dir| ensures SlotEntry(D64, img, inv.dir, s) == SlotEntry(D71, img, inv.dir, s) {
      SameEntry(img, inv.dir[s / 8], s % 8);
    }
  }

  lemma SameEntry(img: seq<byte>, l: Loc, k: nat)
    requires |img| >= Size(D71) && InDisk(D64, l) && k < 8
    ensures InDisk(D71, l) && EntryAt(D64, img, l, k) == EntryAt(D71, img, l, k)
  {
    hide ByteAt;
    SameDisk(l);
    forall i | 2 + 32 * k <= i < 32 + 32 * k
      ensures ByteAt(D64, img, l, i) == ByteAt(D71, img, l, i)
    {
      SameByte(img, l, i);
    }
    assert EntryAt(D64, img, l, k) == EntryAt(D71, img, l, k);
  }

  lemma {:induction false} SlotsOfBoth(a: seq<byte>, b: seq<byte>, dir: seq<Loc>, n: nat)
    requires |a| >= Size(D64) && |b| >= Size(D71) && DirInDisk(D64, dir) && DirInDisk(D71, dir) && n <= 8 * |dir|
    requires forall s | 0 <= s < 8 * |dir| :: SlotEntry(D64, a, dir, s) == SlotEntry(D71, b, dir, s)
    ensures OccupiedSlots(D64, a, dir, n) == OccupiedSlots(D71, b, dir, n)
    decreases n
  {
    hide SlotEntry;
    if n > 0 { SlotsOfBoth(a, b, dir, n - 1); }
  }

  lemma ListingsBoth(img: seq<byte>, inv: Inventory)
    requires Valid(D71, img, inv)
    ensures DirEntries(D64, img) == DirEntries(D71, img) && DirEntries(D71, img).whole
    ensures DirEntries(D71, img).entries == OccupiedSlots(D71, img, inv.dir, 8 * |inv.dir|)
  {
    hide SlotEntry, IsFree, SlotSound, FileSound, TrackSound, WalkDir, Occupied, OccupiedSlots;
    DirectoryBoth(img, inv);
    WalkLists(D71, img, inv);
    WalkLists(D64, img, SideOneInventory(inv));
    ListedSlots(D71, img, inv.dir, |inv.dir|);
    ListedSlots(D64, img, inv.dir, |inv.dir|);
    SlotsOfBoth(img, img, inv.dir, 8 * |inv.dir|);
  }

  lemma {:induction false} OccupiedIsSlot(f: Format, img: seq<byte>, dir: seq<Loc>, n: nat, e: seq<byte>)
    requires |img| >= Size(f) && DirInDisk(f, dir) && n <= 8 * |dir|
    ensures e in OccupiedSlots(f, img, dir, n) <==> exists s | 0 <= s < n :: SlotEntry(f, img, dir, s) == e && e[0] != 0
    decreases n
  {
    hide SlotEntry;
    if n > 0 { OccupiedIsSlot(f, img, dir, n - 1, e); }
  }

  /** A file can be read within side one exactly when its whole chain lies there, and then it reads the same. */
  lemma FileBoth(img: seq<byte>, inv: Inventory, slot: nat)
    requires Valid(D71, img, inv) && slot in inv.files
    ensures slot < 8 * |inv.dir|
    ensures var e := SlotEntry(D71, img, inv.dir, slot);
      && (FileBytes(D64, img, e).Some? <==> OnSideOne(inv.files[slot]))
      && (OnSideOne(inv.files[slot]) ==> FileBytes(D64, img, e) == FileBytes(D71, img, e))
  {
    hide IsFree, SlotSound, TrackSound, ByteAt, SlotEntry, Gather;
    assert FileSound(D71, img, inv, slot);
    var chain, e := inv.files[slot], SlotEntry(D71, img, inv.dir, slot);
    OwnedDistinct(inv.owner, slot, chain);
    ReadBack(D71, img, inv, slot);
    if OnSideOne(chain) {
      LinkedSideOne(img, chain);
      ReadLinked(D64, img, chain, 0, {}, []);
      ChainBytesBoth(img, chain);
      GatherSideOne(img, img, chain, 0);
      assert [] + Gather(D64, img, chain, 0) == Gather(D64, img, chain, 0);
    } else if FileBytes(D64, img, e).Some? {
      LeavesSideOne(img, chain, 0, {}, []);
    }
  }

  lemma ChainBytesBoth(img: seq<byte>, chain: seq<Loc>)
    requires |img| >= Size(D71) && forall l | l in chain :: InDisk(D64, l)
    ensures forall l | l in chain :: InDisk(D71, l) && forall k | 0 <= k < 256 ::
      ByteAt(D64, img, l, k) == ByteAt(D71, img, l, k)
  {
    hide ByteAt;
    forall l | l in chain
      ensures InDisk(D71, l) && forall k | 0 <= k < 256 :: ByteAt(D64, img, l, k) == ByteAt(D71, img, l, k)
    {
      SameDisk(l);
      forall k | 0 <= k < 256 ensures ByteAt(D64, img, l, k) == ByteAt(D71, img, l, k) { SameByte(img, l, k); }
    }
  }

  /** The derivation is refused exactly when some file's chain leaves side one. */
  lemma DerivedExactly(img: seq<byte>, inv: Inventory)
    requires Valid(D71, img, inv)
    ensures D64Image(img).Some? <==> forall s | s in inv.files :: OnSideOne(inv.files[s])
  {
    hide IsFree, TrackSound, SlotEntry, FileBytes, WalkDir, OnSideOne, OccupiedSlots;
    ListingsBoth(img, inv);
    var entries := DirEntries(D64, img).entries;
    forall s | s in inv.files ensures s < 8 * |inv.dir| && SlotEntry(D71, img, inv.dir, s) in entries {
      assert FileSound(D71, img, inv, s) && SlotSound(D71, img, inv, s);
      OccupiedIsSlot(D71, img, inv.dir, 8 * |inv.dir|, SlotEntry(D71, img, inv.dir, s));
    }
    forall s | s in inv.files
      ensures FileBytes(D64, img, SlotEntry(D71, img, inv.dir, s)).Some? <==> OnSideOne(inv.files[s])
    {
      FileBoth(img, inv, s);
    }
    forall e | e in entries
      ensures exists s | s in inv.files :: s < 8 * |inv.dir| && SlotEntry(D71, img, inv.dir, s) == e
    {
      OccupiedIsSlot(D71, img, inv.dir, 8 * |inv.dir|, e);
      var s :| 0 <= s < 8 * |inv.dir| && SlotEntry(D71, img, inv.dir, s) == e && e[0] != 0;
      assert SlotSound(D71, img, inv, s);
    }
  }

  // ----- the derived D64 is a sound disk with the same directory and the same files

  ghost predicate SameOnD64(img: seq<byte>, r: seq<byte>, l: Loc)
    requires |img| >= Size(D71) && |r| >= Size(D64)
  {
    InDisk(D64, l) && InDisk(D71, l) && forall k | 0 <= k < 256 :: ByteAt(D64, r, l, k) == ByteAt(D71, img, l, k)
  }

  lemma DerivedSector(img: seq<byte>, l: Loc)
    requires D64Image(img).Some? && InDisk(D71, l) && l.track <= 35 && l != Loc(18, 0)
    ensures SameOnD64(img, D64Image(img).value, l)
  {
    hide ByteAt, D64Image;
    DerivedRaw(img);
    SameDisk(l);
    forall k | 0 <= k < 256
      ensures ByteAt(D64, D64Image(img).value, l, k) == ByteAt(D71, img, l, k)
    {
      DerivedByte(img, l, k);
    }
  }

  lemma DerivedTrack(img: seq<byte>, t: nat)
    requires D64Image(img).Some? && 1 <= t <= 35 && TrackSound(D71, img, t)
    ensures TrackSound(D64, D64Image(img).value, t)
    ensures forall s | 0 <= s < SectorsPerTrack(D64, t) ::
      IsFree(D64, D64Image(img).value, Loc(t, s)) <==> IsFree(D71, img, Loc(t, s))
  {
    hide SectorsBefore, TestBit, D64Image;
    var r := D64Image(img).value;
    DerivedRaw(img);
    BamInSectors(D64, t);
    BamInSectors(D71, t);
    SameBefore(18);
    CountBitsSame(img, r, BitmapPos(D71, t), 24);
    forall s | 0 <= s < SectorsPerTrack(D64, t) ensures IsFree(D64, r, Loc(t, s)) <==> IsFree(D71, img, Loc(t, s)) {
      BitPosInImage(D64, Loc(t, s));
      BitPosInImage(D71, Loc(t, s));
    }
  }

  /** The derived image is the first 174848 bytes of the D71, with the top bit of byte 3 of sector
      18/0 cleared and nothing else changed. */
  lemma DerivedBytes(img: seq<byte>, i: nat)
    requires D64Image(img).Some? && i < 174848
    ensures |img| == 349696 && |D64Image(img).value| == 174848
    ensures D64Image(img).value[i] == if i == 91395 then img[i] % 128 else img[i]
  {
    hide WalkDir, FileBytes, AllReadable;
    BeforeClosedForm(D64, 18);
  }

  lemma DerivedRaw(img: seq<byte>)
    requires D64Image(img).Some?
    ensures |img| == Size(D71)
    ensures forall i | 0 <= i < Size(D64) && i != Offset(D64, Loc(18, 0)) + 3 :: D64Image(img).value[i] == img[i]
  {
    hide SectorsBefore, WalkDir, FileBytes, AllReadable;
    SectorInImage(D64, Loc(18, 0));
  }

  lemma DerivedFile(img: seq<byte>, inv: Inventory, slot: nat)
    requires Valid(D71, img, inv) && D64Image(img).Some? && slot in inv.files && slot < 8 * |inv.dir|
    requires DirInDisk(D64, inv.dir)
    requires SlotEntry(D64, D64Image(img).value, inv.dir, slot) == SlotEntry(D71, img, inv.dir, slot)
    ensures FileSound(D64, D64Image(img).value, SideOneInventory(inv), slot)
    ensures Gather(D64, D64Image(img).value, inv.files[slot], 0) == Gather(D71, img, inv.files[slot], 0)
  {
    hide ByteAt, D64Image, IsFree, TrackSound, SlotEntry, SlotSound, Gather;
    var r, chain := D64Image(img).value, inv.files[slot];
    DerivedExactly(img, inv);
    assert FileSound(D71, img, inv, slot) && OnSideOne(chain);
    forall l | l in chain ensures SameOnD64(img, r, l) {
      FileNotBam(D71, img, inv, slot, l);
      DerivedSector(img, l);
    }
    forall i | 0 <= i < |chain| ensures InDisk(D64, chain[i]) && LinksOn(D64, r, chain, i) {
      assert chain[i] in chain && LinksOn(D71, img, chain, i) && SameOnD64(img, r, chain[i]);
    }
    GatherSideOne(r, img, chain, 0);
  }

  lemma DerivedLink(img: seq<byte>, inv: Inventory, i: nat)
    requires Valid(D71, img, inv) && D64Image(img).Some? && i < |inv.dir|
    requires SameOnD64(img, D64Image(img).value, inv.dir[i])
    ensures DirLink(D64, D64Image(img).value, SideOneInventory(inv), i)
  {
    hide ByteAt, D64Image, IsFree, TrackSound, SlotSound, FileSound;
    DirShape(D71, img, inv, i);
  }

  lemma DerivedDirectory(img: seq<byte>, inv: Inventory)
    requires Valid(D71, img, inv) && D64Image(img).Some?
    ensures DirInDisk(D64, inv.dir) && DirSound(D64, D64Image(img).value, SideOneInventory(inv))
    ensures forall s | 0 <= s < 8 * |inv.dir| ::
      SlotEntry(D64, D64Image(img).value, inv.dir, s) == SlotEntry(D71, img, inv.dir, s)
  {
    hide ByteAt, D64Image, IsFree, TrackSound, SlotSound, FileSound, SectorsPerTrack, Valid, DirLink;
    SoundShape(D71, img, inv);
    FirstDirOnly(D71, img, inv);
    var r := D64Image(img).value;
    forall i | 0 <= i < |inv.dir|
      ensures InDisk(D64, inv.dir[i]) && SameOnD64(img, r, inv.dir[i]) && DirLink(D64, r, SideOneInventory(inv), i)
    {
      DirNotBam(D71, img, inv, i);
      DirShape(D71, img, inv, i);
      DerivedSector(img, inv.dir[i]);
      DerivedLink(img, inv, i);
    }
    forall s | 0 <= s < 8 * |inv.dir| ensures SlotEntry(D64, r, inv.dir, s) == SlotEntry(D71, img, inv.dir, s) {
      assert SameOnD64(img, r, inv.dir[s / 8]);
      assert SlotEntry(D64, r, inv.dir, s) == SlotEntry(D71, img, inv.dir, s);
    }
  }

  /** When the derivation succeeds nothing is lost: the D64 satisfies the disk invariant, lists the
      same entries, and every one of them reads the same bytes. */
  lemma DerivedIsLossless(img: seq<byte>, inv: Inventory)
    requires Valid(D71, img, inv) && D64Image(img).Some?
    ensures var r := D64Image(img).value;
      && Valid(D64, r, SideOneInventory(inv))
      && DirEntries(D64, r) == DirEntries(D71, img)
      && forall e | e in DirEntries(D71, img).entries ::
        FileBytes(D64, r, e).Some? && FileBytes(D64, r, e) == FileBytes(D71, img, e)
  {
    hide ByteAt, D64Image, IsFree, TrackSound, SlotEntry, WalkDir, FileBytes, OccupiedSlots, Occupied, Gather,
      DirEntries, SectorsPerTrack;
    var r, inv' := D64Image(img).value, SideOneInventory(inv);
    DerivedDirectory(img, inv);
    forall t | 1 <= t <= 35
      ensures TrackSound(D64, r, t)
    {
      DerivedTrack(img, t) by { assert TrackSound(D71, img, t); }
    }
    forall l | l in inv'.owner ensures InDisk(D64, l) && !IsFree(D64, r, l) {
      SameDisk(l);
      assert TrackSound(D71, img, l.track) && l == Loc(l.track, l.sector);
      DerivedTrack(img, l.track);
    }
    assert BamOwned(D64, inv'.owner) by { assert IsBam(D71, Loc(18, 0)); }
    forall s | 0 <= s < 8 * |inv.dir| ensures SlotSound(D64, r, inv', s) { assert SlotSound(D71, img, inv, s); }
    forall s | s in inv.files
      ensures s < 8 * |inv.dir| && FileSound(D64, r, inv', s)
      ensures FileBytes(D64, r, SlotEntry(D71, img, inv.dir, s)).Some?
      ensures FileBytes(D64, r, SlotEntry(D71, img, inv.dir, s)) == FileBytes(D71, img, SlotEntry(D71, img, inv.dir, s))
    {
      assert FileSound(D71, img, inv, s);
      DerivedFile(img, inv, s);
      ReadBackSound(D64, r, inv', s);
      ReadBack(D71, img, inv, s);
    }
    DerivedListing(img, inv);
    forall e | e in DirEntries(D71, img).entries
      ensures FileBytes(D64, r, e).Some? && FileBytes(D64, r, e) == FileBytes(D71, img, e)
    {
      EntryIsFile(D71, img, inv, e);
    }
  }

  lemma ReadBackSound(f: Format, img: seq<byte>, inv: Inventory, slot: nat)
    requires |img| >= Size(f) && DirInDisk(f, inv.dir) && slot in inv.files && FileSound(f, img, inv, slot)
    ensures FileBytes(f, img, SlotEntry(f, img, inv.dir, slot)) == Some(Gather(f, img, inv.files[slot], 0))
  {
    hide SlotEntry, SectorsPerTrack;
    var chain := inv.files[slot];
    OwnedDistinct(inv.owner, slot, chain);
    ReadLinked(f, img, chain, 0, {}, []);
    assert [] + Gather(f, img, chain, 0) == Gather(f, img, chain, 0);
  }

  /** Every listed entry belongs to a file of the inventory. */
  lemma EntryIsFile(f: Format, img: seq<byte>, inv: Inventory, e: seq<byte>)
    requires Valid(f, img, inv) && e in DirEntries(f, img).entries
    ensures exists s | s in inv.files :: s < 8 * |inv.dir| && SlotEntry(f, img, inv.dir, s) == e
  {
    hide SlotEntry, IsFree, TrackSound, WalkDir, Occupied, OccupiedSlots;
    WalkLists(f, img, inv);
    ListedSlots(f, img, inv.dir, |inv.dir|);
    OccupiedIsSlot(f, img, inv.dir, 8 * |inv.dir|, e);
    var s :| 0 <= s < 8 * |inv.dir| && SlotEntry(f, img, inv.dir, s) == e && e[0] != 0;
    assert SlotSound(f, img, inv, s);
  }

  lemma DerivedListing(img: seq<byte>, inv: Inventory)
    requires Valid(D71, img, inv) && D64Image(img).Some?
    ensures DirEntries(D64, D64Image(img).value) == DirEntries(D71, img)
  {
    hide SlotEntry, IsFree, TrackSound, SlotSound, FileSound, WalkDir, Occupied, OccupiedSlots, D64Image;
    var r := D64Image(img).value;
    DerivedDirectory(img, inv);
    WalkLists(D71, img, inv);
    WalkLists(D64, r, SideOneInventory(inv));
    ListedSlots(D71, img, inv.dir, |inv.dir|);
    ListedSlots(D64, r, inv.dir, |inv.dir|);
    SlotsOfBoth(r, img, inv.dir, 8 * |inv.dir|);
  }
}
