/** Installing a file on a sound disk: the disk stays sound, the new file reads back as its data,
    every other file is untouched, and the free blocks pay exactly for what was written. */
module InstallProofs {
  import opened Bytes
  import opened Geometry
  import opened Bam
  import opened DiskRead
  import opened Inventory
  import opened Writing
  import opened Directory
  import opened DirectoryProofs
  import opened Install

  // ----- ready: a slot has been found, possibly after growing the directory

  ghost function NewSlot(f: Format, img: seq<byte>, inv: Inventory): nat
    requires |img| >= Size(f) && DirInDisk(f, inv.dir)
  {
    FirstFreeSlot(f, img, inv.dir, 0)
  }

  ghost predicate MustGrow(f: Format, img: seq<byte>, inv: Inventory)
    requires |img| >= Size(f) && DirInDisk(f, inv.dir)
  {
    NewSlot(f, img, inv) == 8 * |inv.dir|
  }

  ghost predicate HasSlot(f: Format, img: seq<byte>, inv: Inventory)
    requires |img| >= Size(f) && DirInDisk(f, inv.dir)
  {
    MustGrow(f, img, inv) ==> !NoGrowth(f, img)
  }

  ghost function ReadyInventory(f: Format, img: seq<byte>, inv: Inventory): Inventory
    requires |img| >= Size(f) && DirInDisk(f, inv.dir) && HasSlot(f, img, inv)
  {
    if MustGrow(f, img, inv) then Grown(inv, Growth(f, img)) else inv
  }

  ghost function ReadyImage(f: Format, img: seq<byte>, inv: Inventory): (r: seq<byte>)
    requires |img| >= Size(f) && DirInDisk(f, inv.dir) && HasSlot(f, img, inv) && |inv.dir| > 0
    ensures |r| == |img|
  {
    if MustGrow(f, img, inv) then Extend(f, img, inv.dir[|inv.dir| - 1], Growth(f, img).sector).image else img
  }

  /** The search of `img` stops at slot k, leaving the sound disk `ready` with that slot empty. */
  ghost predicate SlotIs(f: Format, img: seq<byte>, ready: seq<byte>, inv1: Inventory, k: nat, grown: nat) {
    && |img| == |ready| == Size(f) && Valid(f, ready, inv1)
    && k < 8 * |inv1.dir| && SlotEntry(f, ready, inv1.dir, k)[0] == 0
    && FindSlot(f, img, FirstDir(f), {}) == Slot(ready, inv1.dir[k / 8], k % 8)
    && FreeBlocks(f, ready, Tracks(f)) == FreeBlocks(f, img, Tracks(f)) - grown
    && (forall m: Loc | m.track != DirTrack(f) :: IsFree(f, ready, m) <==> IsFree(f, img, m))
  }

  lemma SlotReady(f: Format, img: seq<byte>, inv: Inventory)
    requires Valid(f, img, inv) && HasSlot(f, img, inv)
    ensures |inv.dir| > 0
    ensures SlotIs(f, img, ReadyImage(f, img, inv), ReadyInventory(f, img, inv), NewSlot(f, img, inv),
      if MustGrow(f, img, inv) then 1 else 0)
  {
    if MustGrow(f, img, inv) {
      GrownReady(f, img, inv);
    } else {
      SameReady(f, img, inv);
    }
    hide SlotIs, Valid, NewSlot, Extend, Growth, Grown, NoGrowth, MustGrow, HasSlot, DirInDisk;
  }

  lemma SameReady(f: Format, img: seq<byte>, inv: Inventory)
    requires Valid(f, img, inv) && !MustGrow(f, img, inv)
    ensures |inv.dir| > 0 && SlotIs(f, img, img, inv, NewSlot(f, img, inv), 0)
  {
    FirstDirOnly(f, img, inv);
    SameFind(f, img, inv);
    SoundSize(f, img, inv);
    MakeSame(f, img, inv, NewSlot(f, img, inv));
  }

  lemma MakeSame(f: Format, img: seq<byte>, inv: Inventory, k: nat)
    requires |img| == Size(f) && Valid(f, img, inv) && k < 8 * |inv.dir|
    requires SlotEntry(f, img, inv.dir, k)[0] == 0
    requires FindSlot(f, img, FirstDir(f), {}) == Slot(img, inv.dir[k / 8], k % 8)
    ensures SlotIs(f, img, img, inv, k, 0)
  {
    hide Valid, FindSlot, SlotEntry, IsFree, FreeBlocks;
  }

  lemma SameFind(f: Format, img: seq<byte>, inv: Inventory)
    requires Valid(f, img, inv) && !MustGrow(f, img, inv)
    ensures |inv.dir| > 0 && DirInDisk(f, inv.dir)
    ensures var k := NewSlot(f, img, inv);
      k < 8 * |inv.dir| && SlotEntry(f, img, inv.dir, k)[0] == 0 &&
        FindSlot(f, img, FirstDir(f), {}) == Slot(img, inv.dir[k / 8], k % 8)
  {
    hide Valid, FindSlot, FirstFreeSlot, SlotEntry, DirLink, DirInDisk, Size;
    FirstDirOnly(f, img, inv);
    DirShape(f, img, inv, 0);
    assert NewSlot(f, img, inv) == FirstFreeSlot(f, img, inv.dir, 8 * 0) < 8 * |inv.dir|;
    FindInChain(f, img, inv, 0, {});
  }

  lemma GrownFind(f: Format, img: seq<byte>, inv: Inventory)
    requires Valid(f, img, inv) && MustGrow(f, img, inv) && HasSlot(f, img, inv)
    ensures |inv.dir| > 0 && !NoGrowth(f, img) && NewSlot(f, img, inv) == 8 * |inv.dir|
    ensures FindSlot(f, img, FirstDir(f), {}) ==
      Slot(Extend(f, img, inv.dir[|inv.dir| - 1], Growth(f, img).sector).image, Growth(f, img), 0)
  {
    hide Valid, FindSlot, FirstFreeSlot, SlotEntry, DirLink, DirInDisk, Size, Extend, NoGrowth, Growth;
    FirstDirOnly(f, img, inv);
    DirShape(f, img, inv, 0);
    assert NewSlot(f, img, inv) == FirstFreeSlot(f, img, inv.dir, 8 * 0) == 8 * |inv.dir| && !NoGrowth(f, img);
    FindInChain(f, img, inv, 0, {});
  }

  lemma GrownReady(f: Format, img: seq<byte>, inv: Inventory)
    requires Valid(f, img, inv) && MustGrow(f, img, inv) && HasSlot(f, img, inv)
    ensures |inv.dir| > 0
    ensures SlotIs(f, img, Extend(f, img, inv.dir[|inv.dir| - 1], Growth(f, img).sector).image,
      Grown(inv, Growth(f, img)), NewSlot(f, img, inv), 1)
  {
    hide Valid, Extend, IsFree, FreeBlocks, SlotEntry, FindSlot, SlotIs, MustGrow, HasSlot, NewSlot, Grown, DirInDisk,
      Size, SameSector, InDisk;
    SoundSize(f, img, inv);
    GrownFind(f, img, inv);
    DirNotBam(f, img, inv, |inv.dir| - 1);
    GrowKeepsValid(f, img, inv);
    NewSlotEmpty(f, img, inv);
    MakeReady(f, img, Extend(f, img, inv.dir[|inv.dir| - 1], Growth(f, img).sector).image, inv, Growth(f, img),
      8 * |inv.dir|);
  }

  lemma MakeReady(f: Format, img: seq<byte>, ready: seq<byte>, inv: Inventory, g: Loc, k: nat)
    requires |img| == |ready| == Size(f) && Valid(f, ready, Grown(inv, g)) && k == 8 * |inv.dir|
    requires SlotEntry(f, ready, Grown(inv, g).dir, k)[0] == 0 && FindSlot(f, img, FirstDir(f), {}) == Slot(ready, g, 0)
    requires FreeBlocks(f, ready, Tracks(f)) == FreeBlocks(f, img, Tracks(f)) - 1
    requires forall m: Loc | m.track != DirTrack(f) :: IsFree(f, ready, m) <==> IsFree(f, img, m)
    ensures SlotIs(f, img, ready, Grown(inv, g), k, 1)
  {
    hide Valid, FindSlot, SlotEntry, IsFree, FreeBlocks;
  }

  lemma SoundSize(f: Format, img: seq<byte>, inv: Inventory)
    requires Valid(f, img, inv)
    ensures |img| == Size(f)
  {
  }

  lemma FirstDirOnly(f: Format, img: seq<byte>, inv: Inventory)
    requires Valid(f, img, inv)
    ensures |inv.dir| > 0 && inv.dir[0] == FirstDir(f)
  {
  }

  lemma NewSlotEmpty(f: Format, img: seq<byte>, inv: Inventory)
    requires Valid(f, img, inv) && !NoGrowth(f, img)
    requires var b := Extend(f, img, inv.dir[|inv.dir| - 1], Growth(f, img).sector).image;
             Valid(f, b, Grown(inv, Growth(f, img)))
    ensures var b := Extend(f, img, inv.dir[|inv.dir| - 1], Growth(f, img).sector).image;
            SlotEntry(f, b, Grown(inv, Growth(f, img)).dir, 8 * |inv.dir|)[0] == 0
  {
    hide Extend, IsFree, SlotEntry, BamSound, BamOwned, OwnersUsed, SlotSound, FileSound, ExtendedBy, Growth;
    ExtendEffect(f, img, inv);
    GrowthUnseen(f, img, inv, {});
    GrownEntry(f, img, Extend(f, img, inv.dir[|inv.dir| - 1], Growth(f, img).sector).image, inv, Growth(f, img),
      8 * |inv.dir|);
  }

  /** Every entry that was there is still there, in its slot, after the directory grew. */
  lemma ReadyEntry(f: Format, img: seq<byte>, inv: Inventory, slot: nat)
    requires Valid(f, img, inv) && HasSlot(f, img, inv)
    requires Valid(f, ReadyImage(f, img, inv), ReadyInventory(f, img, inv))
    requires slot < 8 * |ReadyInventory(f, img, inv).dir|
    ensures slot < 8 * |inv.dir| ==>
      SlotEntry(f, ReadyImage(f, img, inv), ReadyInventory(f, img, inv).dir, slot) == SlotEntry(f, img, inv.dir, slot)
    ensures slot >= 8 * |inv.dir| ==>
      SlotEntry(f, ReadyImage(f, img, inv), ReadyInventory(f, img, inv).dir, slot)[0] == 0
  {
    hide Extend, IsFree, SlotEntry, FirstFreeSlot;
    if MustGrow(f, img, inv) {
      ExtendEffect(f, img, inv);
      GrowthUnseen(f, img, inv, {});
      GrownEntry(f, img, ReadyImage(f, img, inv), inv, Growth(f, img), slot);
    }
  }

  lemma ReadyFile(f: Format, img: seq<byte>, inv: Inventory, slot: nat)
    requires Valid(f, img, inv) && HasSlot(f, img, inv) && slot in inv.files
    requires Valid(f, ReadyImage(f, img, inv), ReadyInventory(f, img, inv))
    ensures slot < 8 * |inv.dir| && forall l | l in inv.files[slot] :: InDisk(f, l)
    ensures Gather(f, ReadyImage(f, img, inv), inv.files[slot], 0) == Gather(f, img, inv.files[slot], 0)
  {
    hide Extend, IsFree, SlotEntry, FirstFreeSlot, Gather;
    assert FileSound(f, img, inv, slot);
    if MustGrow(f, img, inv) {
      ExtendEffect(f, img, inv);
      GrowthUnseen(f, img, inv, {});
      GrownFile(f, img, ReadyImage(f, img, inv), inv, Growth(f, img), slot);
    }
  }

  // ----- written: the chain holds the data, the entry is still empty

  ghost function Claim(owner: map<Loc, Owner>, slot: nat, chain: seq<Loc>): map<Loc, Owner> {
    if chain == [] then owner
    else Claim(owner, slot, chain[..|chain| - 1])[chain[|chain| - 1] := FileBlock(slot, |chain| - 1)]
  }

  lemma {:induction false} ClaimOwns(owner: map<Loc, Owner>, slot: nat, chain: seq<Loc>)
    requires Distinct(chain)
    ensures Owned(Claim(owner, slot, chain), slot, chain)
    ensures forall l :: l in Claim(owner, slot, chain) <==> l in owner || l in chain
    ensures forall l | l in owner && l !in chain :: Claim(owner, slot, chain)[l] == owner[l]
  {
    if chain != [] {
      var rest := chain[..|chain| - 1];
      ClaimOwns(owner, slot, rest);
      assert forall l :: l in chain <==> l in rest || l == chain[|chain| - 1];
      forall i | 0 <= i < |chain|
        ensures chain[i] in Claim(owner, slot, chain) && Claim(owner, slot, chain)[chain[i]] == FileBlock(slot, i)
      {
        if i < |rest| { assert rest[i] == chain[i]; }
      }
    }
  }

  ghost predicate NewChain(f: Format, img: seq<byte>, chain: seq<Loc>) {
    && |img| >= Size(f) && OnDisk(f, chain) && Distinct(chain)
    && forall l | l in chain :: IsFree(f, img, l) && l.track != DirTrack(f)
  }

  lemma FreeUnowned(f: Format, img: seq<byte>, inv: Inventory, chain: seq<Loc>)
    requires Valid(f, img, inv) && NewChain(f, img, chain)
    ensures Writable(f, img, chain) && forall l | l in chain :: l !in inv.owner
  {
    forall l | l in chain ensures !IsBam(f, l) && l !in inv.owner {
      NotBam(f, inv.owner, l);
    }
  }

  lemma WrittenKeepsValid(f: Format, img: seq<byte>, inv: Inventory, chain: seq<Loc>, data: seq<byte>, slot: nat)
    requires Valid(f, img, inv) && NewChain(f, img, chain)
    ensures var o := WriteChain(f, img, chain, FileBlocks(chain, data), |chain|);
      && o.Done? && WroteOnly(f, img, o.image, First(chain, |chain|))
      && Valid(f, o.image, inv.(owner := Claim(inv.owner, slot, chain)))
      && SameOwned(f, img, o.image, inv.owner)
      && FreeBlocks(f, o.image, Tracks(f)) == FreeBlocks(f, img, Tracks(f)) - |chain|
      && forall j | 0 <= j < |chain| :: HoldsBlock(f, o.image, chain, FileBlocks(chain, data), j)
  {
    hide WriteChain, IsFree, FreeBlocks, HoldsBlock, SameSector, SlotSound, FileSound, DirLink, IsBam, InDisk;
    FreeUnowned(f, img, inv, chain);
    WriteChainEffect(f, img, chain, FileBlocks(chain, data), |chain|);
    var b := WriteChain(f, img, chain, FileBlocks(chain, data), |chain|).image;
    ClaimOwns(inv.owner, slot, chain);
    forall l ensures l in First(chain, |chain|) <==> l in chain { FirstHolds(chain, |chain|, l); }
    forall l | l in inv.owner && inv.owner[l] != BamBlock ensures SameSector(f, img, b, l) {
      OwnerNotBam(f, img, inv, l);
    }
    ValidFrame(f, img, b, inv, Claim(inv.owner, slot, chain));
  }

  lemma OwnerNotBam(f: Format, img: seq<byte>, inv: Inventory, l: Loc)
    requires Valid(f, img, inv) && l in inv.owner && inv.owner[l] != BamBlock
    ensures InDisk(f, l) && !IsBam(f, l) && !IsFree(f, img, l)
  {
  }

  // ----- entered: the entry names the chain

  ghost predicate EntryReady(f: Format, a: seq<byte>, inv: Inventory, slot: nat, chain: seq<Loc>, entry: seq<byte>) {
    && Valid(f, a, inv) && slot < 8 * |inv.dir| && slot !in inv.files
    && Linked(f, a, chain) && Owned(inv.owner, slot, chain)
    && |entry| == 30 && entry[0] != 0 && Describes(entry, chain)
  }

  ghost function Entered(f: Format, a: seq<byte>, inv: Inventory, slot: nat, entry: seq<byte>): (b: seq<byte>)
    requires |a| >= Size(f) && DirInDisk(f, inv.dir) && slot < 8 * |inv.dir| && |entry| == 30
    ensures |b| == |a|
  {
    WriteEntry(f, a, inv.dir[slot / 8], slot % 8, entry)
  }

  lemma EntryFrame(f: Format, a: seq<byte>, inv: Inventory, slot: nat, chain: seq<Loc>, entry: seq<byte>)
    requires EntryReady(f, a, inv, slot, chain, entry)
    ensures var b, at := Entered(f, a, inv, slot, entry), inv.dir[slot / 8];
      && BamSound(f, b) && FreeBlocks(f, b, Tracks(f)) == FreeBlocks(f, a, Tracks(f))
      && (forall m :: IsFree(f, b, m) <==> IsFree(f, a, m))
      && (forall m | InDisk(f, m) && m != at :: SameSector(f, a, b, m))
      && ByteAt(f, b, at, 0) == ByteAt(f, a, at, 0) && ByteAt(f, b, at, 1) == ByteAt(f, a, at, 1)
      && forall k | 0 <= k < 8 :: EntryAt(f, b, at, k) == if k == slot % 8 then entry else EntryAt(f, a, at, k)
  {
    hide SectorsBefore, IsFree, FreeBlocks, BamSound, SlotSound, FileSound, Owned, Linked, IsBam;
    var b, at := Entered(f, a, inv, slot, entry), inv.dir[slot / 8];
    DirNotBam(f, a, inv, slot / 8);
    SectorInImage(f, at);
    WriteFrame(f, a, b, at);
    forall k | 0 <= k < 8 ensures EntryAt(f, b, at, k) == if k == slot % 8 then entry else EntryAt(f, a, at, k) {
      EntryBytes(f, a, b, at, k, slot % 8, entry);
    }
  }

  lemma EntryBytes(f: Format, a: seq<byte>, b: seq<byte>, at: Loc, k: nat, slot: nat, entry: seq<byte>)
    requires |a| >= Size(f) && InDisk(f, at) && k < 8 && slot < 8 && |entry| == 30
    requires b == WriteEntry(f, a, at, slot, entry)
    ensures EntryAt(f, b, at, k) == if k == slot then entry else EntryAt(f, a, at, k)
  {
    hide SectorsBefore;
    SectorInImage(f, at);
    var e := EntryAt(f, b, at, k);
    forall i | 0 <= i < 30 ensures e[i] == if k == slot then entry[i] else EntryAt(f, a, at, k)[i] {}
  }

  lemma EnteredSlot(f: Format, a: seq<byte>, inv: Inventory, slot: nat, chain: seq<Loc>, entry: seq<byte>, k: nat)
    requires EntryReady(f, a, inv, slot, chain, entry) && k < 8 * |inv.dir|
    ensures SlotEntry(f, Entered(f, a, inv, slot, entry), inv.dir, k) ==
            if k == slot then entry else SlotEntry(f, a, inv.dir, k)
  {
    hide IsFree, FreeBlocks, BamSound, SlotSound, FileSound, Owned, Linked, IsBam, WriteEntry, EntryAt;
    var b := Entered(f, a, inv, slot, entry);
    EntryFrame(f, a, inv, slot, chain, entry);
    DirNotBam(f, a, inv, k / 8);
    DirNotBam(f, a, inv, slot / 8);
    if inv.dir[k / 8] == inv.dir[slot / 8] {
      assert k / 8 == slot / 8;
    } else {
      SlotEntrySame(f, a, b, inv.dir, k);
    }
  }

  lemma EnteredFrame(f: Format, a: seq<byte>, inv: Inventory, slot: nat, chain: seq<Loc>, entry: seq<byte>)
    requires EntryReady(f, a, inv, slot, chain, entry)
    ensures var b, inv' := Entered(f, a, inv, slot, entry), inv.(files := inv.files[slot := chain]);
      |b| == Size(f) && BamSound(f, b) && OwnersUsed(f, b, inv.owner) && DirSound(f, b, inv')
  {
    hide IsFree, FreeBlocks, BamSound, SlotEntry, SameSector, Linked, Entered, SlotSound, FileSound, DirLink, BamOwned,
      Owned, Describes;
    var b, inv' := Entered(f, a, inv, slot, entry), inv.(files := inv.files[slot := chain]);
    EntryFrame(f, a, inv, slot, chain, entry);
    forall i | 0 <= i < |inv.dir| ensures DirLink(f, b, inv', i) { EnteredLink(f, a, inv, slot, chain, entry, i); }
  }

  /** Writing an entry that describes an owned, linked chain adds exactly that file. */
  lemma EnterKeepsValid(f: Format, a: seq<byte>, inv: Inventory, slot: nat, chain: seq<Loc>, entry: seq<byte>)
    requires EntryReady(f, a, inv, slot, chain, entry)
    ensures Valid(f, Entered(f, a, inv, slot, entry), inv.(files := inv.files[slot := chain]))
  {
    hide IsFree, FreeBlocks, BamSound, WriteEntry, EntryAt, SlotEntry, IsBam, SameSector, Gather, Linked, Entered,
      DirSound, BamOwned, OwnersUsed, Owned, Describes;
    var b, inv' := Entered(f, a, inv, slot, entry), inv.(files := inv.files[slot := chain]);
    EnteredFrame(f, a, inv, slot, chain, entry);
    forall k | 0 <= k < 8 * |inv.dir| ensures SlotSound(f, b, inv', k) {
      EnteredSlot(f, a, inv, slot, chain, entry, k);
      assert SlotSound(f, a, inv, k);
    }
    forall s | s in inv'.files ensures FileSound(f, b, inv', s) {
      if s != slot { assert FileSound(f, a, inv, s); }
      EnteredFile(f, a, inv, slot, chain, entry, s, inv'.files[s]);
    }
  }

  lemma EnteredGather(f: Format, a: seq<byte>, inv: Inventory, slot: nat, chain: seq<Loc>, entry: seq<byte>, s: nat)
    requires EntryReady(f, a, inv, slot, chain, entry) && s in inv.files
    ensures FileSound(f, a, inv, s)
    ensures Gather(f, Entered(f, a, inv, slot, entry), inv.files[s], 0) == Gather(f, a, inv.files[s], 0)
  {
    hide IsFree, FreeBlocks, BamSound, WriteEntry, EntryAt, SlotEntry, IsBam, SameSector, Gather, LinksOn, Entered,
      OwnersUsed, BamOwned, SlotSound, DirSound, Describes;
    assert FileSound(f, a, inv, s);
    EnteredFile(f, a, inv, slot, chain, entry, s, inv.files[s]);
  }

  lemma EnteredLink(f: Format, a: seq<byte>, inv: Inventory, slot: nat, chain: seq<Loc>, entry: seq<byte>, i: nat)
    requires EntryReady(f, a, inv, slot, chain, entry) && i < |inv.dir|
    ensures DirLink(f, Entered(f, a, inv, slot, entry), inv.(files := inv.files[slot := chain]), i)
  {
    hide IsFree, FreeBlocks, BamSound, WriteEntry, EntryAt, SlotEntry, IsBam, Linked, Entered, Valid, Owned, Describes,
      SectorsPerTrack;
    EntryFrame(f, a, inv, slot, chain, entry);
    DirShape(f, a, inv, i);
    if inv.dir[i] != inv.dir[slot / 8] { SameBytes(f, a, Entered(f, a, inv, slot, entry), inv.dir[i]); }
  }

  lemma EnteredFile(f: Format, a: seq<byte>, inv: Inventory, slot: nat, chain: seq<Loc>, entry: seq<byte>, s: nat,
      c: seq<Loc>)
    requires EntryReady(f, a, inv, slot, chain, entry)
    requires s < 8 * |inv.dir| && Linked(f, a, c) && Owned(inv.owner, s, c)
    requires if s == slot then c == chain else s in inv.files && c == inv.files[s]
    ensures FileSound(f, Entered(f, a, inv, slot, entry), inv.(files := inv.files[slot := chain]), s)
    ensures Gather(f, Entered(f, a, inv, slot, entry), c, 0) == Gather(f, a, c, 0)
  {
    hide IsFree, FreeBlocks, BamSound, WriteEntry, EntryAt, SlotEntry, IsBam, SameSector, Gather, Entered, SlotSound,
      LinksOn, SectorsPerTrack, Describes, OwnersUsed, BamOwned;
    var b := Entered(f, a, inv, slot, entry);
    EntryFrame(f, a, inv, slot, chain, entry);
    EnteredSlot(f, a, inv, slot, chain, entry, s);
    DirNotBam(f, a, inv, slot / 8);
    if s != slot { assert FileSound(f, a, inv, s); }
    LinkedSame(f, a, b, c);
    GatherSame(f, a, b, c, 0);
  }
}
