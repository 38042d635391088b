/** What a sound disk contains: who owns each sector, the directory chain and each file's chain. */
module Inventory {
  import opened Bytes
  import opened Geometry
  import opened Bam
  import opened DiskRead

  datatype Owner = BamBlock | BootBlock | DirBlock(index: nat) | FileBlock(slot: nat, index: nat)

  /** `owner` gives every sector in use exactly one purpose, so the chains it names are disjoint.
      `files` maps an occupied directory slot, counted along the whole directory, to its chain. */
  datatype Inventory = Inventory(owner: map<Loc, Owner>, dir: seq<Loc>, files: map<nat, seq<Loc>>)

  ghost predicate OwnersUsed(f: Format, img: seq<byte>, owner: map<Loc, Owner>)
    requires |img| >= Size(f)
  {
    forall l | l in owner :: InDisk(f, l) && !IsFree(f, img, l)
  }

  ghost predicate BamOwned(f: Format, owner: map<Loc, Owner>) {
    forall l | InDisk(f, l) && IsBam(f, l) :: l in owner && owner[l] == BamBlock
  }

  ghost predicate DirLink(f: Format, img: seq<byte>, inv: Inventory, i: nat)
    requires |img| >= Size(f) && i < |inv.dir|
  {
    var l := inv.dir[i];
    && InDisk(f, l) && l.track == DirTrack(f)
    && l in inv.owner && inv.owner[l] == DirBlock(i)
    && if i + 1 < |inv.dir|
       then ByteAt(f, img, l, 0) == inv.dir[i + 1].track && ByteAt(f, img, l, 1) == inv.dir[i + 1].sector
       else ByteAt(f, img, l, 0) == 0
  }

  ghost predicate DirSound(f: Format, img: seq<byte>, inv: Inventory)
    requires |img| >= Size(f)
  {
    |inv.dir| > 0 && inv.dir[0] == FirstDir(f) && forall i | 0 <= i < |inv.dir| :: DirLink(f, img, inv, i)
  }

  ghost predicate DirInDisk(f: Format, dir: seq<Loc>) {
    forall i | 0 <= i < |dir| :: InDisk(f, dir[i]) && dir[i].track == DirTrack(f)
  }

  ghost function SlotEntry(f: Format, img: seq<byte>, dir: seq<Loc>, slot: nat): (e: seq<byte>)
    requires |img| >= Size(f) && DirInDisk(f, dir) && slot < 8 * |dir|
    ensures |e| == 30
  {
    EntryAt(f, img, dir[slot / 8], slot % 8)
  }

  ghost predicate Owned(owner: map<Loc, Owner>, slot: nat, chain: seq<Loc>) {
    forall i | 0 <= i < |chain| :: chain[i] in owner && owner[chain[i]] == FileBlock(slot, i)
  }

  ghost predicate Describes(entry: seq<byte>, chain: seq<Loc>)
    requires |entry| == 30 && |chain| > 0
  {
    entry[1] == chain[0].track && entry[2] == chain[0].sector && Word(entry, 28) == |chain|
  }

  ghost predicate FileSound(f: Format, img: seq<byte>, inv: Inventory, slot: nat)
    requires |img| >= Size(f) && DirInDisk(f, inv.dir) && slot in inv.files
  {
    && slot < 8 * |inv.dir|
    && Linked(f, img, inv.files[slot])
    && Owned(inv.owner, slot, inv.files[slot])
    && Describes(SlotEntry(f, img, inv.dir, slot), inv.files[slot])
  }

  ghost predicate SlotSound(f: Format, img: seq<byte>, inv: Inventory, slot: nat)
    requires |img| >= Size(f) && DirInDisk(f, inv.dir) && slot < 8 * |inv.dir|
  {
    slot in inv.files <==> SlotEntry(f, img, inv.dir, slot)[0] != 0
  }

  /** The disk invariant. */
  ghost predicate Valid(f: Format, img: seq<byte>, inv: Inventory) {
    && |img| == Size(f)
    && BamSound(f, img)
    && OwnersUsed(f, img, inv.owner)
    && BamOwned(f, inv.owner)
    && DirSound(f, img, inv)
    && DirInDisk(f, inv.dir)
    && (forall slot | 0 <= slot < 8 * |inv.dir| :: SlotSound(f, img, inv, slot))
    && (forall slot | slot in inv.files :: FileSound(f, img, inv, slot))
  }

  lemma NotBam(f: Format, owner: map<Loc, Owner>, l: Loc)
    requires BamOwned(f, owner) && InDisk(f, l) && (l !in owner || owner[l] != BamBlock)
    ensures !IsBam(f, l)
  {
    assert IsBam(f, l) ==> l in owner;
  }

  // ----- what the invariant gives a reader

  lemma OwnedDistinct(owner: map<Loc, Owner>, slot: nat, chain: seq<Loc>)
    requires Owned(owner, slot, chain)
    ensures Distinct(chain)
  {
  }

  /** The boot sectors. */
  ghost predicate IsBoot(inv: Inventory, l: Loc) {
    l in inv.owner && inv.owner[l] == BootBlock
  }

  /** Every boot sector of a is one of b, with the same bytes. */
  ghost predicate BootKept(f: Format, a: seq<byte>, inv: Inventory, b: seq<byte>, inv': Inventory)
    requires |a| >= Size(f) && |b| >= Size(f)
  {
    forall l | IsBoot(inv, l) :: IsBoot(inv', l) && InDisk(f, l) && SameSector(f, a, b, l)
  }

  /** On a sound disk the files' chains, the directory chain, the BAM and the boot sectors share no
      sector, no chain meets itself, and every one of their sectors is on the disk and marked used. */
  lemma ChainsDisjoint(f: Format, img: seq<byte>, inv: Inventory)
    requires Valid(f, img, inv)
    ensures |img| >= Size(f)
    ensures forall slot, other | slot in inv.files && other in inv.files && slot != other ::
      forall l | l in inv.files[slot] :: l !in inv.files[other]
    ensures forall slot | slot in inv.files :: Distinct(inv.files[slot]) && forall l | l in inv.files[slot] ::
      InDisk(f, l) && l !in inv.dir && !IsBam(f, l) && !IsBoot(inv, l) && !IsFree(f, img, l)
    ensures Distinct(inv.dir) && forall l | l in inv.dir ::
      InDisk(f, l) && !IsBam(f, l) && !IsBoot(inv, l) && !IsFree(f, img, l)
    ensures forall l | IsBoot(inv, l) :: InDisk(f, l) && !IsBam(f, l) && !IsFree(f, img, l)
    ensures forall l | InDisk(f, l) && IsBam(f, l) :: !IsFree(f, img, l)
  {
    hide IsFree, LinksOn, BamSound, SlotEntry, SlotSound, SectorsPerTrack, Describes;
    forall i | 0 <= i < |inv.dir| ensures inv.dir[i] in inv.owner && inv.owner[inv.dir[i]] == DirBlock(i) {
      assert DirLink(f, img, inv, i);
    }
    forall slot | slot in inv.files ensures Owned(inv.owner, slot, inv.files[slot]) && Linked(f, img, inv.files[slot]) {
      assert FileSound(f, img, inv, slot);
    }
  }

  /** Every file of a sound disk reads back as the payloads of its chain. */
  lemma ReadBack(f: Format, img: seq<byte>, inv: Inventory, slot: nat)
    requires Valid(f, img, inv) && slot in inv.files
    ensures slot < 8 * |inv.dir| && Linked(f, img, inv.files[slot])
    ensures FileBytes(f, img, SlotEntry(f, img, inv.dir, slot)) == Some(Gather(f, img, inv.files[slot], 0))
  {
    hide BamSound, OwnersUsed, BamOwned, DirSound, SlotSound, SlotEntry, SectorsPerTrack, LinksOn, ReadChain, Gather;
    assert FileSound(f, img, inv, slot);
    var chain := inv.files[slot];
    OwnedDistinct(inv.owner, slot, chain);
    ReadLinked(f, img, chain, 0, {}, []);
    assert [] + Gather(f, img, chain, 0) == Gather(f, img, chain, 0);
  }

  /** The occupied entries of the first n directory sectors. */
  ghost function Listed(f: Format, img: seq<byte>, dir: seq<Loc>, n: nat): (found: seq<seq<byte>>)
    requires |img| >= Size(f) && DirInDisk(f, dir) && n <= |dir|
    ensures forall e | e in found :: |e| == 30
    decreases n
  {
    if n == 0 then [] else Listed(f, img, dir, n - 1) + Occupied(f, img, dir[n - 1], 8)
  }

  lemma WalkStep(f: Format, img: seq<byte>, l: Loc, seen: set<Loc>, found: seq<seq<byte>>)
    requires |img| >= Size(f) && InDisk(f, l) && l !in seen && forall e | e in found :: |e| == 30
    ensures WalkDir(f, img, l.track, l.sector, seen, found) ==
            WalkDir(f, img, ByteAt(f, img, l, 0), ByteAt(f, img, l, 1), seen + {l}, found + Occupied(f, img, l, 8))
  {
    assert l == Loc(l.track, l.sector);
  }

  lemma WalkEnd(f: Format, img: seq<byte>, sector: nat, seen: set<Loc>, found: seq<seq<byte>>)
    requires |img| >= Size(f) && forall e | e in found :: |e| == 30
    ensures WalkDir(f, img, 0, sector, seen, found) == Listing(found, true)
  {
  }

  /** A sound directory chain, on an image that may be longer than the format's own. */
  ghost predicate DirChain(f: Format, img: seq<byte>, inv: Inventory) {
    |img| >= Size(f) && DirInDisk(f, inv.dir) && DirSound(f, img, inv)
  }

  lemma {:induction false} WalkSound(f: Format, img: seq<byte>, inv: Inventory, i: nat, seen: set<Loc>)
    requires DirChain(f, img, inv) && i < |inv.dir|
    requires forall j | i <= j < |inv.dir| :: inv.dir[j] !in seen
    ensures WalkDir(f, img, inv.dir[i].track, inv.dir[i].sector, seen, Listed(f, img, inv.dir, i)) ==
            Listing(Listed(f, img, inv.dir, |inv.dir|), true)
    decreases |inv.dir| - i
  {
    hide WalkDir, Occupied, ByteAt, IsFree, InDisk;
    var l := inv.dir[i];
    assert DirLink(f, img, inv, i);
    WalkStep(f, img, l, seen, Listed(f, img, inv.dir, i));
    assert Listed(f, img, inv.dir, i + 1) == Listed(f, img, inv.dir, i) + Occupied(f, img, l, 8);
    if i + 1 < |inv.dir| {
      forall j | i < j < |inv.dir| ensures inv.dir[j] != l { assert DirLink(f, img, inv, j); }
      WalkSound(f, img, inv, i + 1, seen + {l});
    } else {
      WalkEnd(f, img, ByteAt(f, img, l, 1), seen + {l}, Listed(f, img, inv.dir, i + 1));
    }
  }

  /** The directory walk of a sound disk ends normally and lists exactly the occupied slots in order. */
  lemma WalkLists(f: Format, img: seq<byte>, inv: Inventory)
    requires DirChain(f, img, inv)
    ensures DirEntries(f, img) == Listing(Listed(f, img, inv.dir, |inv.dir|), true)
  {
    hide WalkDir, Occupied, IsFree;
    WalkSound(f, img, inv, 0, {});
  }

  // ----- framing

  /** Sectors that `owner` assigns to the directory, files or boot code are the same in a and b. */
  ghost predicate SameOwned(f: Format, a: seq<byte>, b: seq<byte>, owner: map<Loc, Owner>)
    requires |a| >= Size(f) && |b| >= Size(f) && forall l | l in owner :: InDisk(f, l)
  {
    forall l | l in owner && owner[l] != BamBlock :: SameSector(f, a, b, l)
  }

  lemma SlotEntrySame(f: Format, a: seq<byte>, b: seq<byte>, dir: seq<Loc>, slot: nat)
    requires |a| >= Size(f) && |b| >= Size(f) && DirInDisk(f, dir) && slot < 8 * |dir|
    requires SameSector(f, a, b, dir[slot / 8])
    ensures SlotEntry(f, a, dir, slot) == SlotEntry(f, b, dir, slot)
  {
    SameBytes(f, a, b, dir[slot / 8]);
    assert SlotEntry(f, a, dir, slot) == SlotEntry(f, b, dir, slot);
  }

  /** A sound disk stays sound, with the same files, when only free sectors and the BAM change. */
  lemma ValidFrame(f: Format, a: seq<byte>, b: seq<byte>, inv: Inventory, owner: map<Loc, Owner>)
    requires Valid(f, a, inv) && |b| == |a| && BamSound(f, b)
    requires OwnersUsed(f, b, owner) && SameOwned(f, a, b, inv.owner)
    requires forall l | l in inv.owner :: l in owner && owner[l] == inv.owner[l]
    ensures Valid(f, b, inv.(owner := owner))
  {
    hide IsFree, Linked, BamSound, SlotEntry, SameSector, Describes, IsBam, SectorsPerTrack;
    var inv' := inv.(owner := owner);
    forall i | 0 <= i < |inv.dir| ensures DirLink(f, b, inv', i) {
      assert DirLink(f, a, inv, i);
      SameBytes(f, a, b, inv.dir[i]);
    }
    forall slot | 0 <= slot < 8 * |inv.dir| ensures SlotSound(f, b, inv', slot) {
      assert SlotSound(f, a, inv, slot);
      assert DirLink(f, a, inv, slot / 8);
      SlotEntrySame(f, a, b, inv.dir, slot);
    }
    forall slot | slot in inv.files ensures FileSound(f, b, inv', slot) {
      FileFrame(f, a, b, inv, slot);
      assert FileSound(f, a, inv, slot);
    }
  }

  lemma FileFrame(f: Format, a: seq<byte>, b: seq<byte>, inv: Inventory, slot: nat)
    requires Valid(f, a, inv) && slot in inv.files && |b| == |a|
    requires SameOwned(f, a, b, inv.owner)
    ensures slot < 8 * |inv.dir| && Linked(f, b, inv.files[slot])
    ensures SlotEntry(f, a, inv.dir, slot) == SlotEntry(f, b, inv.dir, slot)
    ensures Gather(f, a, inv.files[slot], 0) == Gather(f, b, inv.files[slot], 0)
  {
    hide SameSector, Gather, SlotEntry, IsFree;
    assert FileSound(f, a, inv, slot);
    assert DirLink(f, a, inv, slot / 8);
    SlotEntrySame(f, a, b, inv.dir, slot);
    LinkedSame(f, a, b, inv.files[slot]);
    GatherSame(f, a, b, inv.files[slot], 0);
  }
}
