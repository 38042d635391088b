/** How an install shows in the directory listing, when an install succeeds, and that a failed one
    changes nothing. */
module Listings {
  import opened Bytes
  import opened Geometry
  import opened Bam
  import opened DiskRead
  import opened Inventory
  import opened Writing
  import opened Directory
  import opened DirectoryProofs
  import opened Install
  import opened InstallProofs
  import opened InstallTheorems

  /** Occupied entries among the first n slots of the whole directory. */
  ghost function OccupiedSlots(f: Format, img: seq<byte>, dir: seq<Loc>, n: nat): (found: seq<seq<byte>>)
    requires |img| >= Size(f) && DirInDisk(f, dir) && n <= 8 * |dir|
    ensures |found| <= n
    decreases n
  {
    if n == 0 then [] else
      var e := SlotEntry(f, img, dir, n - 1);
      OccupiedSlots(f, img, dir, n - 1) + if e[0] != 0 then [e] else []
  }

  ghost function OneSlot(e: seq<byte>): seq<seq<byte>>
    requires |e| == 30
  {
    if e[0] != 0 then [e] else []
  }

  lemma SlotStep(f: Format, img: seq<byte>, dir: seq<Loc>, n: nat)
    requires |img| >= Size(f) && DirInDisk(f, dir) && n < 8 * |dir|
    ensures OccupiedSlots(f, img, dir, n + 1) == OccupiedSlots(f, img, dir, n) + OneSlot(SlotEntry(f, img, dir, n))
  {
    hide SlotEntry;
  }

  lemma SectorStep(f: Format, img: seq<byte>, l: Loc, k: nat)
    requires |img| >= Size(f) && InDisk(f, l) && k < 8
    ensures Occupied(f, img, l, k + 1) == Occupied(f, img, l, k) + OneSlot(EntryAt(f, img, l, k))
  {
    hide EntryAt;
  }

  lemma {:induction false} SectorListed(f: Format, img: seq<byte>, dir: seq<Loc>, i: nat, k: nat)
    requires |img| >= Size(f) && DirInDisk(f, dir) && i < |dir| && k <= 8
    ensures OccupiedSlots(f, img, dir, 8 * i + k) == OccupiedSlots(f, img, dir, 8 * i) + Occupied(f, img, dir[i], k)
    decreases k
  {
    hide EntryAt, OccupiedSlots, Occupied, OneSlot, InDisk;
    if k == 0 {
      NoEntries(f, img, dir[i]);
    } else {
      var j := 8 * i + k - 1;
      SectorListed(f, img, dir, i, k - 1);
      assert j / 8 == i && j % 8 == k - 1;
      SlotStep(f, img, dir, j);
      SectorStep(f, img, dir[i], k - 1);
      Regroup(OccupiedSlots(f, img, dir, 8 * i), Occupied(f, img, dir[i], k - 1), OneSlot(SlotEntry(f, img, dir, j)));
      assert 8 * i + k == j + 1;
    }
  }

  lemma NoEntries(f: Format, img: seq<byte>, l: Loc)
    requires |img| >= Size(f) && InDisk(f, l)
    ensures Occupied(f, img, l, 0) == []
  {
  }

  lemma Regroup<T>(a: seq<T>, b: seq<T>, c: seq<T>)
    ensures (a + b) + c == a + (b + c)
  {
  }

  lemma {:induction false} ListedSlots(f: Format, img: seq<byte>, dir: seq<Loc>, n: nat)
    requires |img| >= Size(f) && DirInDisk(f, dir) && n <= |dir|
    ensures Listed(f, img, dir, n) == OccupiedSlots(f, img, dir, 8 * n)
    decreases n
  {
    hide OccupiedSlots, Occupied;
    if n == 0 {
      NoSlots(f, img, dir);
    } else {
      ListedSlots(f, img, dir, n - 1);
      SectorListed(f, img, dir, n - 1, 8);
      assert 8 * (n - 1) + 8 == 8 * n;
    }
  }

  lemma NoSlots(f: Format, img: seq<byte>, dir: seq<Loc>)
    requires |img| >= Size(f) && DirInDisk(f, dir)
    ensures OccupiedSlots(f, img, dir, 0) == []
  {
  }

  lemma {:induction false} AllOccupied(f: Format, img: seq<byte>, dir: seq<Loc>, n: nat)
    requires |img| >= Size(f) && DirInDisk(f, dir) && n <= 8 * |dir|
    requires forall s | 0 <= s < n :: SlotEntry(f, img, dir, s)[0] != 0
    ensures |OccupiedSlots(f, img, dir, n)| == n
    decreases n
  {
    hide SlotEntry;
    if n > 0 {
      AllOccupied(f, img, dir, n - 1);
      assert SlotEntry(f, img, dir, n - 1)[0] != 0;
    }
  }

  /** a's slots, padded with empty ones up to the length of b's directory, with `entry` put in slot k. */
  ghost predicate SlotsWith(f: Format, a: seq<byte>, dir: seq<Loc>, b: seq<byte>, dir': seq<Loc>, k: nat,
      entry: seq<byte>)
    requires |a| >= Size(f) && |b| >= Size(f) && DirInDisk(f, dir) && DirInDisk(f, dir')
  {
    && |dir| <= |dir'| && k < 8 * |dir'| && |entry| == 30 && entry[0] != 0
    && SlotEntry(f, b, dir', k) == entry
    && (forall s | 0 <= s < 8 * |dir| && s != k :: SlotEntry(f, b, dir', s) == SlotEntry(f, a, dir, s))
    && (forall s | 8 * |dir| <= s < 8 * |dir'| && s != k :: SlotEntry(f, b, dir', s)[0] == 0)
  }

  ghost function Clip(n: nat, limit: nat): nat {
    if n <= limit then n else limit
  }

  lemma {:induction false} SlotsInserted(f: Format, a: seq<byte>, dir: seq<Loc>, b: seq<byte>, dir': seq<Loc>, k: nat,
      entry: seq<byte>, n: nat)
    requires |a| >= Size(f) && |b| >= Size(f) && DirInDisk(f, dir) && DirInDisk(f, dir')
    requires SlotsWith(f, a, dir, b, dir', k, entry) && n <= 8 * |dir'|
    requires k <= 8 * |dir| && forall s | 0 <= s < k :: SlotEntry(f, a, dir, s)[0] != 0
    requires k < 8 * |dir| ==> SlotEntry(f, a, dir, k)[0] == 0
    ensures var before := OccupiedSlots(f, a, dir, Clip(n, 8 * |dir|));
      if n <= k then OccupiedSlots(f, b, dir', n) == before
      else k <= |before| && OccupiedSlots(f, b, dir', n) == before[..k] + [entry] + before[k..]
    decreases n
  {
    hide OccupiedSlots, SlotEntry;
    if n == 0 {
      NoSlots(f, a, dir);
      NoSlots(f, b, dir');
    } else {
      var prior := OccupiedSlots(f, a, dir, Clip(n - 1, 8 * |dir|));
      SlotsInserted(f, a, dir, b, dir', k, entry, n - 1);
      SlotStep(f, b, dir', n - 1);
      if n - 1 < 8 * |dir| { SlotStep(f, a, dir, n - 1); }
      if n - 1 == k {
        AllOccupied(f, a, dir, k);
        assert prior + [] == prior && prior[..k] + [entry] + prior[k..] == prior + [entry];
      } else if n - 1 > k && n - 1 < 8 * |dir| {
        InsertThenAppend(prior, OneSlot(SlotEntry(f, a, dir, n - 1)), k, entry);
      }
    }
  }

  lemma InsertThenAppend(p: seq<seq<byte>>, x: seq<seq<byte>>, k: nat, e: seq<byte>)
    requires k <= |p|
    ensures (p[..k] + [e] + p[k..]) + x == (p + x)[..k] + [e] + (p + x)[k..]
  {
  }

  /** The listing gains exactly the new entry, at the position of the first empty slot. */
  lemma InstallListed(f: Format, img: seq<byte>, inv: Inventory, encoded: seq<byte>, data: seq<byte>, fileType: byte,
      chain: seq<Loc>)
    requires CanPlace(f, img, inv, encoded, data, fileType, chain)
    ensures var b := PlaceFile(f, img, encoded, data, fileType, chain).image;
      var k, e := NewSlot(f, img, inv), EntryFor(f, img, inv, encoded, data, fileType, chain);
      && DirEntries(f, img).whole && DirEntries(f, b).whole && k <= |DirEntries(f, img).entries|
      && DirEntries(f, b).entries == DirEntries(f, img).entries[..k] + [e] + DirEntries(f, img).entries[k..]
  {
    hide FindSlot, Extend, IsFree, FreeBlocks, FirstFreeSlot, FileSound, SlotSound, BamSound, DirLink, WriteChain,
      WriteEntry, SlotEntry, PlaceFile, FileBytes, WalkDir, Describes, IsBam, Claim, WrittenImage, Entered, DirEntries,
        KeepsFile, SameSector, Listed, OccupiedSlots, MustGrow;
    var o, inv3 := PlaceFile(f, img, encoded, data, fileType, chain), NextInventory(f, img, inv, chain);
    InstallAddsFile(f, img, inv, encoded, data, fileType, chain);
    InstallSlots(f, img, inv, encoded, data, fileType, chain);
    WalkLists(f, img, inv);
    WalkLists(f, o.image, inv3);
    ListedSlots(f, img, inv.dir, |inv.dir|);
    ListedSlots(f, o.image, inv3.dir, |inv3.dir|);
    var k, e := NewSlot(f, img, inv), EntryFor(f, img, inv, encoded, data, fileType, chain);
    FirstEmpty(f, img, inv);
    SlotsInserted(f, img, inv.dir, o.image, inv3.dir, k, e, 8 * |inv3.dir|);
  }

  lemma FirstEmpty(f: Format, img: seq<byte>, inv: Inventory)
    requires |img| >= Size(f) && DirInDisk(f, inv.dir)
    ensures var k := NewSlot(f, img, inv);
      && k <= 8 * |inv.dir| && (forall s | 0 <= s < k :: SlotEntry(f, img, inv.dir, s)[0] != 0)
      && (k < 8 * |inv.dir| ==> SlotEntry(f, img, inv.dir, k)[0] == 0)
  {
  }

  lemma InstallSlots(f: Format, img: seq<byte>, inv: Inventory, encoded: seq<byte>, data: seq<byte>, fileType: byte,
      chain: seq<Loc>)
    requires CanPlace(f, img, inv, encoded, data, fileType, chain)
    ensures var o, inv3 := PlaceFile(f, img, encoded, data, fileType, chain), NextInventory(f, img, inv, chain);
      && |o.image| == Size(f) && DirInDisk(f, inv3.dir)
      && SlotsWith(f, img, inv.dir, o.image, inv3.dir, NewSlot(f, img, inv),
        EntryFor(f, img, inv, encoded, data, fileType, chain))
  {
    hide FindSlot, Extend, IsFree, FreeBlocks, FirstFreeSlot, FileSound, SlotSound, BamSound, DirLink, WriteChain,
      Linked, WriteEntry, SlotEntry, PlaceFile, FileBytes, WrittenImage, EntryAt, Entered, Describes, IsBam, Claim,
        ReadyImage, SameSector, Gather, Owned;
    var w, inv2 := WrittenImage(f, img, inv, chain, data), ClaimedInventory(f, img, inv, chain);
    var k, e := NewSlot(f, img, inv), EntryFor(f, img, inv, encoded, data, fileType, chain);
    PlaceSteps(f, img, inv, encoded, data, fileType, chain);
    WrittenStage(f, img, inv, encoded, data, fileType, chain);
    SlotReady(f, img, inv);
    var ready, inv1 := ReadyImage(f, img, inv), ReadyInventory(f, img, inv);
    forall s | 0 <= s < 8 * |inv1.dir|
      ensures SlotEntry(f, Entered(f, w, inv2, k, e), inv1.dir, s) == if s == k then e
        else SlotEntry(f, ready, inv1.dir, s)
      ensures s < 8 * |inv.dir| ==> SlotEntry(f, ready, inv1.dir, s) == SlotEntry(f, img, inv.dir, s)
      ensures s >= 8 * |inv.dir| ==> SlotEntry(f, ready, inv1.dir, s)[0] == 0
    {
      EnteredSlot(f, w, inv2, k, chain, e, s);
      DirShape(f, ready, inv1, s / 8);
      SlotEntrySame(f, ready, w, inv1.dir, s);
      ReadyEntry(f, img, inv, s);
    }
  }

  // ----- the whole tools: exactly when they succeed, and what they leave behind

  /** Some directory slot is empty, or the directory can still grow. */
  ghost predicate DirectoryRoom(f: Format, img: seq<byte>, inv: Inventory)
    requires |img| >= Size(f) && DirInDisk(f, inv.dir)
  {
    || (exists k | 0 <= k < 8 * |inv.dir| :: SlotEntry(f, img, inv.dir, k)[0] == 0)
    || (exists s | FirstGrowth(f) <= s < DirSectorCount(f) :: IsFree(f, img, Loc(DirTrack(f), s)))
  }

  lemma RoomIsSlot(f: Format, img: seq<byte>, inv: Inventory)
    requires |img| >= Size(f) && DirInDisk(f, inv.dir)
    ensures DirectoryRoom(f, img, inv) <==> HasSlot(f, img, inv)
  {
    hide SlotEntry, IsFree;
    var k := NewSlot(f, img, inv);
    if k < 8 * |inv.dir| { assert SlotEntry(f, img, inv.dir, k)[0] == 0; }
    if !NoGrowth(f, img) { assert IsFree(f, img, Loc(DirTrack(f), FreeDirFrom(f, img, FirstGrowth(f)))); }
  }

  /** With no room in the directory nothing at all is written. */
  lemma PlaceRefused(f: Format, img: seq<byte>, inv: Inventory, encoded: seq<byte>, data: seq<byte>, fileType: byte,
      chain: seq<Loc>)
    requires Valid(f, img, inv) && !HasSlot(f, img, inv)
    requires OnDisk(f, chain) && 0 < |chain| < 0x10000 && |encoded| <= 16
    ensures PlaceFile(f, img, encoded, data, fileType, chain) == Failed(img, DirectoryFull)
  {
    hide FindSlot, WriteChain, WriteEntry, IsFree, SlotEntry, FirstFreeSlot;
    FindInChain(f, img, inv, 0, {});
  }

  ghost function Allocated(f: Format, img: seq<byte>, data: seq<byte>, maxTrack: nat): seq<Loc>
    requires |img| >= Size(f) && Blocks(data) <= |FreeList(f, img, maxTrack)|
  {
    FreeList(f, img, maxTrack)[..Blocks(data)]
  }

  lemma AllocatedIsNew(f: Format, img: seq<byte>, data: seq<byte>, maxTrack: nat)
    requires |img| >= Size(f) && Blocks(data) <= |FreeList(f, img, maxTrack)| && maxTrack <= 80
    ensures NewChain(f, img, Allocated(f, img, data, maxTrack)) && Blocks(data) < 0x10000
  {
    hide FreeList, IsFree;
    FreeListFacts(f, img, maxTrack);
    ChainFits(f, img, maxTrack, Blocks(data));
    var all := FreeList(f, img, maxTrack);
    forall l | l in all[..Blocks(data)] ensures IsFree(f, img, l) && l.track != DirTrack(f) { assert l in all; }
  }

  ghost predicate PrgAccepted(f: Format, img: seq<byte>, inv: Inventory, name: string, data: seq<byte>, fileType: byte,
      maxTrack: nat)
    requires |img| >= Size(f) && DirInDisk(f, inv.dir)
  {
    && (maxTrack == 35 || maxTrack == 70) && (fileType == 0x81 || fileType == 0x82)
    && (data == [] ==> fileType == 0x81) && NameLengthOk(name)
    && Blocks(data) <= |FreeList(f, img, maxTrack)| && DirectoryRoom(f, img, inv)
  }

  lemma EncodedAscii(name: string)
    requires NameLengthOk(name)
    ensures |Encode(name).value| <= 16 && forall i | 0 <= i < |Encode(name).value| :: Encode(name).value[i] < 128
  {
  }

  /** The new image b is sound and has exactly the new file more, in the first empty slot; the free
      blocks fell by the file's blocks, and by one more if the directory grew. */
  ghost predicate InstalledAs(f: Format, img: seq<byte>, inv: Inventory, b: seq<byte>, name: string, data: seq<byte>,
      fileType: byte, maxTrack: nat)
  {
    && |img| == |b| == Size(f) && DirInDisk(f, inv.dir) && |inv.dir| > 0
    && InstallAttempted(f, img, name, data, fileType, maxTrack) && HasSlot(f, img, inv)
    && (var chain := Allocated(f, img, data, maxTrack);
        AddsFile(f, img, inv, b, NextInventory(f, img, inv, chain), NewSlot(f, img, inv), Encode(name).value, data,
          fileType))
    && FreeBlocks(f, b, Tracks(f)) ==
       FreeBlocks(f, img, Tracks(f)) - Blocks(data) - (if MustGrow(f, img, inv) then 1 else 0)
  }

  /** `install_prg_file` on a sound disk succeeds exactly when the request is well formed and there
      is room; when it fails the image is untouched; when it succeeds it adds exactly that file. */
  lemma InstallPrgTheorem(f: Format, img: seq<byte>, inv: Inventory, name: string, data: seq<byte>, fileType: byte,
      maxTrack: nat)
    requires !f.D81? && Valid(f, img, inv)
    ensures var o := InstallPrg(f, img, name, data, fileType, maxTrack);
      && (o.Done? <==> PrgAccepted(f, img, inv, name, data, fileType, maxTrack))
      && (o.Failed? ==> o.image == img)
      && (o.Done? ==> InstalledAs(f, img, inv, o.image, name, data, fileType, maxTrack))
  {
    hide FreeList, PlaceFile, IsFree, Encode, InstalledAs, Valid;
    SoundShape(f, img, inv);
    if InstallAttempted(f, img, name, data, fileType, maxTrack) {
      Tried(f, img, inv, name, data, fileType, maxTrack);
      ChainFits(f, img, maxTrack, Blocks(data));
    }
  }

  lemma SoundShape(f: Format, img: seq<byte>, inv: Inventory)
    requires Valid(f, img, inv)
    ensures |img| == Size(f) && DirInDisk(f, inv.dir) && |inv.dir| > 0
  {
  }

  ghost predicate InstallAttempted(f: Format, img: seq<byte>, name: string, data: seq<byte>, fileType: byte,
      maxTrack: nat)
    requires |img| >= Size(f)
  {
    && maxTrack <= 80 && (fileType == 0x81 || fileType == 0x82) && NameLengthOk(name)
    && Blocks(data) <= |FreeList(f, img, maxTrack)|
  }

  /** What both tools do once the request is accepted. */
  lemma Tried(f: Format, img: seq<byte>, inv: Inventory, name: string, data: seq<byte>, fileType: byte, maxTrack: nat)
    requires Valid(f, img, inv) && InstallAttempted(f, img, name, data, fileType, maxTrack)
    ensures var chain := Allocated(f, img, data, maxTrack);
      && OnDisk(f, chain) && |chain| < 0x10000
      && var o := PlaceFile(f, img, Encode(name).value, data, fileType, chain);
      && (o.Done? <==> DirectoryRoom(f, img, inv))
      && (DirectoryRoom(f, img, inv) <==> HasSlot(f, img, inv))
      && (o.Failed? ==> o.image == img)
      && (o.Done? ==>
          && CanPlace(f, img, inv, Encode(name).value, data, fileType, chain)
          && InstalledAs(f, img, inv, o.image, name, data, fileType, maxTrack))
  {
    hide FreeList, PlaceFile, IsFree, Encode, AddsFile, FreeBlocks, Valid, NextInventory, HasSlot, DirectoryRoom,
      MustGrow, OnDisk;
    SoundShape(f, img, inv);
    RoomIsSlot(f, img, inv);
    EncodedAscii(name);
    AllocatedIsNew(f, img, data, maxTrack);
    ChainFits(f, img, maxTrack, Blocks(data));
    var chain := Allocated(f, img, data, maxTrack);
    if HasSlot(f, img, inv) {
      InstallAddsFile(f, img, inv, Encode(name).value, data, fileType, chain);
    } else {
      PlaceRefused(f, img, inv, Encode(name).value, data, fileType, chain);
    }
  }

  ghost predicate NameTaken(f: Format, img: seq<byte>, name: string)
    requires |img| >= Size(f) && NameLengthOk(name)
  {
    exists e | e in DirEntries(f, img).entries :: NameOf(e) == Encode(name).value
  }

  ghost predicate FileAccepted(img: seq<byte>, inv: Inventory, name: string, data: seq<byte>, fileType: byte)
    requires |img| >= Size(D81) && DirInDisk(D81, inv.dir)
  {
    && (fileType == 0x81 || fileType == 0x82) && NameLengthOk(name) && !NameTaken(D81, img, name)
    && Blocks(data) <= |FreeList(D81, img, 80)| && DirectoryRoom(D81, img, inv)
  }

  /** The same for `install_file` of the D81 tool, which also refuses a duplicate name. */
  lemma InstallFileTheorem(img: seq<byte>, inv: Inventory, name: string, data: seq<byte>, fileType: byte)
    requires Valid(D81, img, inv)
    ensures var o := InstallFile(img, name, data, fileType);
      && (o.Done? <==> FileAccepted(img, inv, name, data, fileType))
      && (o.Failed? ==> o.image == img)
      && (o.Done? ==> InstalledAs(D81, img, inv, o.image, name, data, fileType, 80))
  {
    hide FreeList, PlaceFile, IsFree, Encode, InstalledAs, Valid, WalkDir, NameOf;
    SoundShape(D81, img, inv);
    WholeListing(D81, img, inv);
    if InstallAttempted(D81, img, name, data, fileType, 80) {
      Tried(D81, img, inv, name, data, fileType, 80);
    }
  }

  lemma WholeListing(f: Format, img: seq<byte>, inv: Inventory)
    requires Valid(f, img, inv)
    ensures DirEntries(f, img).whole
  {
    WalkLists(f, img, inv);
  }
}
