/** Files as they lie in the image: directory entries, chains and blocks in plain positions, for every
    file of every sound disk and for each new one. */
module FileLayout {
  import opened Bytes
  import opened Geometry
  import opened Bam
  import opened DiskRead
  import opened Inventory
  import opened Writing
  import opened Directory
  import opened DirectoryProofs
  import Blank
  import opened Install
  import opened InstallProofs
  import opened InstallTheorems
  import opened Listings
  import opened Runs
  import opened RunAccounts
  import opened DiskLayout
  import opened Labels

  /** Sector j of a chain: the next track and sector and 254 bytes of the stream, or in the last one a
      zero, the offset of the last byte used, and what is left of the stream. */
  ghost predicate BlockAt(f: Format, img: seq<byte>, chain: seq<Loc>, data: seq<byte>, j: nat) {
    && j < |chain| && InDisk(f, chain[j])
    && if j + 1 < |chain| then
         && chain[j + 1].track < 256 && chain[j + 1].sector < 256 && 254 * j + 254 <= |data|
         && Stored(img, Offset(f, chain[j]),
           [chain[j + 1].track, chain[j + 1].sector] + data[254 * j..254 * j + 254])
       else
         && 254 * j <= |data| <= 254 * j + 254
         && Stored(img, Offset(f, chain[j]), [0, |data| - 254 * j + 1] + data[254 * j..])
  }

  /** A directory entry at a position, its chain and its stream. */
  ghost predicate FileAt(f: Format, img: seq<byte>, p: nat, chain: seq<Loc>, name: seq<byte>, data: seq<byte>) {
    && p + 30 <= |img| && img[p] != 0 && |chain| > 0 && |name| <= 16
    && img[p + 1] == chain[0].track && img[p + 2] == chain[0].sector
    && Stored(img, p + 3, name + seq(16 - |name|, _ => 0xA0)) && WordIs(img, p + 28, |chain|)
    && forall j | 0 <= j < |chain| :: BlockAt(f, img, chain, data, j)
  }

  /** The position of a slot, eight to a directory sector, 32 bytes apart from offset 2. */
  ghost function SlotPosition(f: Format, dir: seq<Loc>, slot: nat): nat
    requires slot < 8 * |dir|
  {
    Offset(f, dir[slot / 8]) + 2 + 32 * (slot % 8)
  }

  lemma {:induction false} StreamFrom(f: Format, img: seq<byte>, chain: seq<Loc>, i: nat)
    requires |img| >= Size(f) && Linked(f, img, chain) && i < |chain|
    ensures 254 * i <= |Gather(f, img, chain, 0)|
    ensures Gather(f, img, chain, 0)[254 * i..] == Gather(f, img, chain, i)
    decreases i
  {
    hide InDisk, ByteAt, Payload, Linked;
    if i > 0 {
      StreamFrom(f, img, chain, i - 1);
      ChainIn(f, img, chain, i - 1);
      FullPayload(f, img, chain, i - 1);
      var all, here, rest := Gather(f, img, chain, 0), Payload(f, img, chain[i - 1]), Gather(f, img, chain, i);
      assert Gather(f, img, chain, i - 1) == here + rest;
      hide Gather;
      Cut(all, 254 * (i - 1), here, rest);
    }
  }

  lemma ChainIn(f: Format, img: seq<byte>, chain: seq<Loc>, i: nat)
    requires |img| >= Size(f) && Linked(f, img, chain) && i < |chain|
    ensures InDisk(f, chain[i]) && forall l | l in chain :: InDisk(f, l)
  {
  }

  lemma Cut<T>(all: seq<T>, n: nat, here: seq<T>, rest: seq<T>)
    requires n <= |all| && all[n..] == here + rest
    ensures |all| == n + |here| + |rest| && all[n..n + |here|] == here && all[n + |here|..] == rest
  {
    assert all[n..n + |here|] == all[n..][..|here|];
    assert all[n + |here|..] == all[n..][|here|..];
  }

  lemma FullPayload(f: Format, img: seq<byte>, chain: seq<Loc>, i: nat)
    requires |img| >= Size(f) && Linked(f, img, chain) && i < |chain| && InDisk(f, chain[i])
    ensures i + 1 < |chain| ==> |Payload(f, img, chain[i])| == 254
    ensures i + 1 == |chain| ==> |Payload(f, img, chain[i])| == ByteAt(f, img, chain[i], 1) - 1
  {
    assert LinksOn(f, img, chain, i);
    if i + 1 < |chain| { assert InDisk(f, chain[i + 1]); }
  }

  lemma BlockLies(f: Format, img: seq<byte>, chain: seq<Loc>, j: nat)
    requires |img| >= Size(f) && Linked(f, img, chain) && j < |chain|
    ensures BlockAt(f, img, chain, Gather(f, img, chain, 0), j)
  {
    hide Offset, InDisk, ByteAt, Payload, Stored, Linked;
    ChainIn(f, img, chain, j);
    StreamFrom(f, img, chain, j);
    FullPayload(f, img, chain, j);
    LinkBytes(f, img, chain, j);
    var data, l, here := Gather(f, img, chain, 0), chain[j], Payload(f, img, chain[j]);
    assert Gather(f, img, chain, j) == here + Gather(f, img, chain, j + 1);
    Cut(data, 254 * j, here, Gather(f, img, chain, j + 1));
    if j + 1 == |chain| { assert Gather(f, img, chain, j + 1) == []; }
    hide Gather;
    SectorBytes(f, img, l, here);
    if j + 1 == |chain| { assert data[254 * j..] == here; }
  }

  lemma LinkBytes(f: Format, img: seq<byte>, chain: seq<Loc>, j: nat)
    requires |img| >= Size(f) && Linked(f, img, chain) && j < |chain| && InDisk(f, chain[j])
    ensures j + 1 < |chain| ==>
      ByteAt(f, img, chain[j], 0) == chain[j + 1].track && ByteAt(f, img, chain[j], 1) == chain[j + 1].sector
    ensures j + 1 == |chain| ==> ByteAt(f, img, chain[j], 0) == 0 && ByteAt(f, img, chain[j], 1) > 0
  {
    assert LinksOn(f, img, chain, j);
  }

  /** The first bytes of a sector: its link, then its payload. */
  lemma SectorBytes(f: Format, img: seq<byte>, l: Loc, here: seq<byte>)
    requires |img| >= Size(f) && InDisk(f, l) && here == Payload(f, img, l) && |here| <= 254
    ensures Stored(img, Offset(f, l), [ByteAt(f, img, l, 0), ByteAt(f, img, l, 1)] + here)
  {
    hide Offset, InDisk, Size, SectorsPerTrack;
    SectorInImage(f, l);
    var at, sector := Offset(f, l), img[Offset(f, l)..Offset(f, l) + 256];
    assert sector[0] == ByteAt(f, img, l, 0) && sector[1] == ByteAt(f, img, l, 1);
    var n := |here|;
    assert here == sector[2..2 + n];
    assert img[at..at + 2 + n] == sector[..2 + n] == [sector[0], sector[1]] + sector[2..2 + n];
  }

  lemma NameField(e: seq<byte>, img: seq<byte>, p: nat)
    requires |e| == 30 && p + 30 <= |img| && e == img[p..p + 30]
    ensures |NameOf(e)| <= 16 && Stored(img, p + 3, NameOf(e) + seq(16 - |NameOf(e)|, _ => 0xA0))
  {
    hide Stripped;
    var field, name := e[3..19], NameOf(e);
    StrippedIs(field);
    Sub(img, p, e, 3, 19);
    assert field == name + seq(16 - |name|, _ => 0xA0);
  }

  lemma Sub(img: seq<byte>, p: nat, e: seq<byte>, lo: nat, hi: nat)
    requires lo <= hi <= |e| && p + |e| <= |img| && e == img[p..p + |e|]
    ensures e[lo..hi] == img[p + lo..p + hi]
  {
    var x, y := e[lo..hi], img[p + lo..p + hi];
    assert forall k | 0 <= k < hi - lo :: x[k] == e[lo + k] == y[k];
  }

  /** Every file of a sound disk lies in its image as the formats say: the entry with type, first
      sector, name and block count, and each block with its link and its bytes of the stream. */
  lemma FileOnDisk(f: Format, img: seq<byte>, inv: Inventory, slot: nat)
    requires Valid(f, img, inv) && slot in inv.files
    ensures slot < 8 * |inv.dir| && DirInDisk(f, inv.dir) && FileBytes(f, img, SlotEntry(f, img, inv.dir, slot)).Some?
    ensures var e := SlotEntry(f, img, inv.dir, slot);
      FileAt(f, img, SlotPosition(f, inv.dir, slot), inv.files[slot], NameOf(e), FileBytes(f, img, e).value)
  {
    hide IsFree, BamSound, Offset, InDisk, Gather, FileBytes, LinksOn, BlockAt, NameOf, Stored, OwnersUsed, BamOwned,
      DirLink, SlotEntry;
    ReadBack(f, img, inv, slot);
    assert SlotSound(f, img, inv, slot) && FileSound(f, img, inv, slot);
    var e, chain, p := SlotEntry(f, img, inv.dir, slot), inv.files[slot], SlotPosition(f, inv.dir, slot);
    SlotLies(f, img, inv.dir, slot);
    NameField(e, img, p);
    assert e[0] == img[p] && e[1] == img[p + 1] && e[2] == img[p + 2] && e[28] == img[p + 28] && e[29] == img[p + 29];
    forall j | 0 <= j < |chain| ensures BlockAt(f, img, chain, FileBytes(f, img, e).value, j) {
      BlockLies(f, img, chain, j);
    }
  }

  lemma SlotLies(f: Format, img: seq<byte>, dir: seq<Loc>, slot: nat)
    requires |img| >= Size(f) && DirInDisk(f, dir) && slot < 8 * |dir|
    ensures var p := SlotPosition(f, dir, slot); p + 30 <= |img| && SlotEntry(f, img, dir, slot) == img[p..p + 30]
  {
    EntryIs(f, img, dir[slot / 8], slot % 8);
    hide Offset, EntryAt, InDisk;
  }

  /** The directory chain: from 18/1 (40/3 on a D81), each sector's first two bytes name the next. */
  lemma DirectoryOnDisk(f: Format, img: seq<byte>, inv: Inventory, i: nat)
    requires Valid(f, img, inv) && i < |inv.dir|
    ensures inv.dir[0] == if f.D81? then Loc(40, 3) else Loc(18, 1)
    ensures InDisk(f, inv.dir[i]) && inv.dir[i].track == if f.D81? then 40 else 18
    ensures var at := Offset(f, inv.dir[i]);
      && at + 256 <= |img|
      && if i + 1 < |inv.dir| then img[at] == inv.dir[i + 1].track && img[at + 1] == inv.dir[i + 1].sector
         else img[at] == 0
  {
    assert DirLink(f, img, inv, i);
    SectorInImage(f, inv.dir[i]);
    hide Offset, InDisk, SlotSound, FileSound, BamSound;
  }

  // ----- the file an install adds

  /** The new entry is in the first slot whose type byte is zero, in a new directory sector when there
      is none; the file takes the first free sectors, one for each 254 bytes and at least one. */
  lemma NewFileOnDisk(f: Format, img: seq<byte>, inv: Inventory, req: Request, maxTrack: nat)
    requires Valid(f, img, inv) && InstallOn(f, img, req, maxTrack).Done?
    ensures DirInDisk(f, inv.dir) && NameLengthOk(req.name)
    ensures var b, inv', k := InstallOn(f, img, req, maxTrack).image, After(f, img, inv, req, maxTrack),
      NewSlot(f, img, inv);
      && k < 8 * |inv'.dir| && Blocks(req.data) <= |FreeList(f, img, Track(f, maxTrack))|
      && FileAt(f, b, SlotPosition(f, inv'.dir, k), Allocated(f, img, req.data, Track(f, maxTrack)),
           KeyOf(req), req.data)
      && b[SlotPosition(f, inv'.dir, k)] == req.fileType
    ensures Blocks(req.data) == if req.data == [] then 1 else (|req.data| + 253) / 254
  {
    hide Valid, FreeList, HasSlot, NextInventory, PlaceFile, CanPlace, NameOf, FileBytes, Encode, KeepsFile, FileAt,
      FilesKept, BootKept, SlotEntry, NewSlot, InstallOn, After, Stored, Offset;
    SoundShape(f, img, inv);
    OneInstall(f, img, inv, req, maxTrack);
    InstallIsPlace(f, img, inv, req, maxTrack);
    var b, inv', k := InstallOn(f, img, req, maxTrack).image, After(f, img, inv, req, maxTrack), NewSlot(f, img, inv);
    var chain := Allocated(f, img, req.data, Track(f, maxTrack));
    KeptFiles(f, img, inv, chain);
    FileOnDisk(f, b, inv', k);
    TypeAt(f, b, inv', k);
  }

  lemma TypeAt(f: Format, img: seq<byte>, inv: Inventory, slot: nat)
    requires Valid(f, img, inv) && slot < 8 * |inv.dir|
    ensures SlotPosition(f, inv.dir, slot) < |img| && DirInDisk(f, inv.dir)
    ensures img[SlotPosition(f, inv.dir, slot)] == SlotEntry(f, img, inv.dir, slot)[0]
  {
    SlotLies(f, img, inv.dir, slot);
    hide SlotPosition, SlotEntry;
  }

  /** Which slot is first: every slot before it holds a file, and it holds none. */
  lemma NewSlotIs(f: Format, img: seq<byte>, inv: Inventory, s: nat)
    requires Valid(f, img, inv) && s < 8 * |inv.dir|
    ensures DirInDisk(f, inv.dir) && SlotPosition(f, inv.dir, s) < |img|
    ensures s < NewSlot(f, img, inv) ==> img[SlotPosition(f, inv.dir, s)] != 0
    ensures s == NewSlot(f, img, inv) ==> img[SlotPosition(f, inv.dir, s)] == 0
  {
    TypeAt(f, img, inv, s);
    FirstEmpty(f, img, inv);
    hide SlotPosition, SlotEntry, NewSlot;
  }

  // ----- bytes 19 to 27 of the entry

  lemma PriorEntry(f: Format, img: seq<byte>, inv: Inventory, encoded: seq<byte>, data: seq<byte>, fileType: byte,
      chain: seq<Loc>)
    requires CanPlace(f, img, inv, encoded, data, fileType, chain) && NewSlot(f, img, inv) < 8 * |inv.dir|
    ensures EntryFor(f, img, inv, encoded, data, fileType, chain)[19..28] ==
      if f.D81? then Zeros(9) else SlotEntry(f, img, inv.dir, NewSlot(f, img, inv))[19..28]
  {
    hide FindSlot, Extend, IsFree, FreeBlocks, FirstFreeSlot, FileSound, SlotSound, BamSound, DirLink, WriteChain,
      Linked, SlotEntry, WrittenImage, EntryAt, Describes, IsBam, Claim, ReadyImage, SameSector, Gather, Owned, Padded;
    WrittenStage(f, img, inv, encoded, data, fileType, chain);
    SlotReady(f, img, inv);
    var w, inv2, k := WrittenImage(f, img, inv, chain, data), ClaimedInventory(f, img, inv, chain),
      NewSlot(f, img, inv);
    var ready, inv1 := ReadyImage(f, img, inv), ReadyInventory(f, img, inv);
    DirShape(f, ready, inv1, k / 8);
    SlotEntrySame(f, ready, w, inv1.dir, k);
    ReadyEntry(f, img, inv, k);
    EntryTail(f, SlotEntry(f, w, inv2.dir, k), fileType, chain[0], encoded, |chain|);
  }

  lemma EntryTail(f: Format, prior: seq<byte>, fileType: byte, first: Loc, encoded: seq<byte>, blocks: nat)
    requires |prior| == 30 && first.track < 256 && first.sector < 256 && |encoded| <= 16 && blocks < 0x10000
    ensures NewEntry(f, prior, fileType, first, encoded, blocks)[19..28] == if f.D81? then Zeros(9) else prior[19..28]
  {
    hide Padded;
  }

  /** The D81 tool clears bytes 19 to 27 of the entry; the D71 tool leaves them as they were. */
  lemma NewEntryTail(f: Format, img: seq<byte>, inv: Inventory, req: Request, maxTrack: nat)
    requires Valid(f, img, inv) && InstallOn(f, img, req, maxTrack).Done?
    requires DirInDisk(f, inv.dir) && NewSlot(f, img, inv) < 8 * |inv.dir|
    ensures var b, p := InstallOn(f, img, req, maxTrack).image, SlotPosition(f, inv.dir, NewSlot(f, img, inv));
      && p + 30 <= |img| == |b|
      && b[p + 19..p + 28] == if f.D81? then Zeros(9) else img[p + 19..p + 28]
  {
    hide Valid, FreeList, HasSlot, NextInventory, PlaceFile, CanPlace, SlotEntry, NewSlot, InstallOn, SlotPosition;
    SoundShape(f, img, inv);
    InstallIsPlace(f, img, inv, req, maxTrack);
    var key, chain, k := KeyOf(req), Allocated(f, img, req.data, Track(f, maxTrack)), NewSlot(f, img, inv);
    PlacedTail(f, img, inv, key, req.data, req.fileType, chain, k);
  }

  lemma PlacedTail(f: Format, img: seq<byte>, inv: Inventory, encoded: seq<byte>, data: seq<byte>, fileType: byte,
      chain: seq<Loc>, k: nat)
    requires CanPlace(f, img, inv, encoded, data, fileType, chain)
    requires k == NewSlot(f, img, inv) && k < 8 * |inv.dir|
    ensures var b, p := PlaceFile(f, img, encoded, data, fileType, chain).image, SlotPosition(f, inv.dir, k);
      && p + 30 <= |img| == |b|
      && b[p + 19..p + 28] == if f.D81? then Zeros(9) else img[p + 19..p + 28]
  {
    hide PlaceFile, Valid, SlotEntry, NewSlot, EntryFor, NoGrowth, Growth, SlotPosition, Padded, IsFree, InDisk;
    PriorEntry(f, img, inv, encoded, data, fileType, chain);
    InstallSlots(f, img, inv, encoded, data, fileType, chain);
    SoundShape(f, img, inv);
    SameDirectory(f, img, inv, chain);
    TailsAt(f, img, PlaceFile(f, img, encoded, data, fileType, chain).image, inv.dir, k);
  }

  lemma SameDirectory(f: Format, img: seq<byte>, inv: Inventory, chain: seq<Loc>)
    requires |img| >= Size(f) && DirInDisk(f, inv.dir) && HasSlot(f, img, inv)
    ensures NewSlot(f, img, inv) < 8 * |inv.dir| ==> NextInventory(f, img, inv, chain).dir == inv.dir
  {
    hide NewSlot, NoGrowth, Growth, DirInDisk;
  }

  lemma TailsAt(f: Format, img: seq<byte>, b: seq<byte>, dir: seq<Loc>, k: nat)
    requires |img| == |b| == Size(f) && DirInDisk(f, dir) && k < 8 * |dir|
    ensures var p := SlotPosition(f, dir, k);
      && p + 30 <= |img|
      && SlotEntry(f, b, dir, k)[19..28] == b[p + 19..p + 28]
      && SlotEntry(f, img, dir, k)[19..28] == img[p + 19..p + 28]
  {
    hide SlotEntry, SlotPosition;
    var p := SlotPosition(f, dir, k);
    SlotLies(f, img, dir, k);
    SlotLies(f, b, dir, k);
    Sub(b, p, SlotEntry(f, b, dir, k), 19, 28);
    Sub(img, p, SlotEntry(f, img, dir, k), 19, 28);
  }

  // ----- a directory sector added by an install

  /** When every slot is taken the directory grows by the lowest free sector of its track that it may
      use, which starts as $00 $FF and zeros; the new entry is its first. */
  lemma NewSectorOnDisk(f: Format, img: seq<byte>, inv: Inventory, req: Request, maxTrack: nat)
    requires Valid(f, img, inv) && InstallOn(f, img, req, maxTrack).Done?
    requires DirInDisk(f, inv.dir) && NewSlot(f, img, inv) == 8 * |inv.dir|
    ensures exists s: nat ::
      && After(f, img, inv, req, maxTrack).dir == inv.dir + [Loc(if f.D81? then 40 else 18, s)]
      && NewSectorAt(f, img, InstallOn(f, img, req, maxTrack).image, s)
  {
    hide Valid, FreeList, NextInventory, PlaceFile, CanPlace, NewSlot, InstallOn, After, NewSectorAt, NoGrowth, Growth;
    SoundShape(f, img, inv);
    InstallIsPlace(f, img, inv, req, maxTrack);
    var chain := Allocated(f, img, req.data, Track(f, maxTrack));
    GrownDirectory(f, img, inv, chain);
    PlacedSector(f, img, inv, KeyOf(req), req.data, req.fileType, chain);
    var l := Growth(f, img);
    assert l == Loc(if f.D81? then 40 else 18, l.sector);
  }

  ghost predicate NewSectorAt(f: Format, img: seq<byte>, b: seq<byte>, s: nat) {
    && |img| == Size(f) && (if f.D81? then 4 else 2) <= s < (if f.D81? then 40 else 19)
    && var l := Loc(if f.D81? then 40 else 18, s);
    && IsFree(f, img, l) && (forall t | (if f.D81? then 4 else 2) <= t < s :: !IsFree(f, img, Loc(l.track, t)))
    && Stored(b, Offset(f, l), [0, 255]) && Stored(b, Offset(f, l) + 32, Zeros(224))
  }

  lemma GrownDirectory(f: Format, img: seq<byte>, inv: Inventory, chain: seq<Loc>)
    requires |img| >= Size(f) && DirInDisk(f, inv.dir) && HasSlot(f, img, inv) && MustGrow(f, img, inv)
    ensures !NoGrowth(f, img) && NextInventory(f, img, inv, chain).dir == inv.dir + [Growth(f, img)]
  {
    hide NewSlot, NoGrowth, Growth, DirInDisk;
  }

  lemma PlacedSector(f: Format, img: seq<byte>, inv: Inventory, encoded: seq<byte>, data: seq<byte>, fileType: byte,
      chain: seq<Loc>)
    requires CanPlace(f, img, inv, encoded, data, fileType, chain) && MustGrow(f, img, inv)
    ensures !NoGrowth(f, img)
    ensures NewSectorAt(f, img, PlaceFile(f, img, encoded, data, fileType, chain).image, Growth(f, img).sector)
  {
    hide FindSlot, Extend, FreeBlocks, FirstFreeSlot, FileSound, SlotSound, BamSound, DirLink, WriteChain, Linked,
      SlotEntry, PlaceFile, WrittenImage, EntryAt, Describes, IsBam, Gather, Owned, WriteEntry, IsFree, Stored, Offset,
        NewSectorAt, SameSector, ByteAt, InDisk;
    var w, inv2 := WrittenImage(f, img, inv, chain, data), ClaimedInventory(f, img, inv, chain);
    var k, e, l := NewSlot(f, img, inv), EntryFor(f, img, inv, encoded, data, fileType, chain), Growth(f, img);
    PlaceSteps(f, img, inv, encoded, data, fileType, chain);
    WrittenStage(f, img, inv, encoded, data, fileType, chain);
    SlotReady(f, img, inv);
    ExtendEffect(f, img, inv);
    GrownDirectory(f, img, inv, chain);
    DirShape(f, ReadyImage(f, img, inv), ReadyInventory(f, img, inv), |inv.dir|);
    assert inv2.dir[k / 8] == l && k % 8 == 0;
    SectorEntered(f, ReadyImage(f, img, inv), w, Entered(f, w, inv2, k, e), l, e);
    GrowthIs(f, img, Entered(f, w, inv2, k, e));
  }

  lemma SectorEntered(f: Format, ready: seq<byte>, w: seq<byte>, b: seq<byte>, l: Loc, e: seq<byte>)
    requires |ready| == |w| == |b| == Size(f) && InDisk(f, l) && |e| == 30 && SameSector(f, ready, w, l)
    requires b == WriteEntry(f, w, l, 0, e)
    requires forall i | 0 <= i < 256 :: ByteAt(f, ready, l, i) == EmptyDirSector()[i]
    ensures Stored(b, Offset(f, l), [0, 255]) && Stored(b, Offset(f, l) + 32, Zeros(224))
  {
    hide SectorsBefore, InDisk, ByteAt, Offset, SectorsPerTrack;
    SectorInImage(f, l);
    var at, sector := Offset(f, l), b[Offset(f, l)..Offset(f, l) + 256];
    forall i: nat | i < 2 || 32 <= i < 256 ensures sector[i] == if i == 1 then 255 else 0 {
      EnteredByte(f, ready, w, l, e, i);
    }
    assert b[at..at + 2] == sector[..2] == [0, 255];
    assert b[at + 32..at + 256] == sector[32..] == Zeros(224);
  }

  lemma EnteredByte(f: Format, ready: seq<byte>, w: seq<byte>, l: Loc, e: seq<byte>, i: nat)
    requires |ready| == |w| == Size(f) && InDisk(f, l) && |e| == 30 && SameSector(f, ready, w, l)
    requires i < 2 || 32 <= i < 256
    ensures Offset(f, l) + 256 <= |w| && WriteEntry(f, w, l, 0, e)[Offset(f, l) + i] == ByteAt(f, ready, l, i)
  {
    hide SectorsBefore, InDisk, SectorsPerTrack;
    SectorInImage(f, l);
  }

  lemma GrowthIs(f: Format, img: seq<byte>, b: seq<byte>)
    requires |img| == Size(f) && !NoGrowth(f, img)
    requires Stored(b, Offset(f, Growth(f, img)), [0, 255]) && Stored(b, Offset(f, Growth(f, img)) + 32, Zeros(224))
    ensures NewSectorAt(f, img, b, Growth(f, img).sector)
  {
    hide IsFree, Offset, Stored;
  }

  // ----- the unused end of the last sector

  /** A chain write touches no byte of a sector past its block. */
  lemma {:induction false} ChainRest(f: Format, img: seq<byte>, chain: seq<Loc>, blocks: seq<seq<byte>>, n: nat, j: nat,
      i: nat)
    requires Writable(f, img, chain) && SectorBlocks(chain, blocks) && n <= |chain|
    requires j < |chain| && |blocks[j]| <= i < 256
    ensures InDisk(f, chain[j])
    ensures ByteAt(f, WriteChain(f, img, chain, blocks, n).image, chain[j], i) == ByteAt(f, img, chain[j], i)
    decreases n
  {
    hide MarkUsed, IsFree, TrackSound, ByteAt, IsBam, FreeBlocks, HoldsBlock, First, WriteChain, SameSector;
    assert chain[j] in chain;
    if n == 0 {
      NothingWritten(f, img, chain, blocks);
    } else {
      ChainRest(f, img, chain, blocks, n - 1, j, i);
      WriteChainEffect(f, img, chain, blocks, n - 1);
      var a := WriteChain(f, img, chain, blocks, n - 1).image;
      NextIsFree(f, img, a, chain, n - 1);
      ChainStep(f, img, chain, blocks, n);
      assert j != n - 1 ==> chain[j] != chain[n - 1];
      SectorInImage(f, chain[n - 1]);
      BlockRest(f, a, chain[n - 1], blocks[n - 1], chain[j], i);
    }
  }

  lemma BlockRest(f: Format, a: seq<byte>, l: Loc, block: seq<byte>, m: Loc, i: nat)
    requires BamSound(f, a) && InDisk(f, l) && !IsBam(f, l) && InDisk(f, m) && !IsBam(f, m) && |block| <= 256
    requires i < 256 && (m == l ==> |block| <= i) && Offset(f, l) + 256 <= |a|
    ensures ByteAt(f, MarkUsed(f, Splice(a, Offset(f, l), block), l).image, m, i) == ByteAt(f, a, m, i)
  {
    hide SectorsBefore, MarkUsed, IsFree, IsBam, InDisk, Size, FreeBlocks, TrackSound;
    var b := Splice(a, Offset(f, l), block);
    WriteFrame(f, a, b, l);
    MarkUsedFrame(f, b, l, m);
    SameBytes(f, b, MarkUsed(f, b, l).image, m);
    SectorInImage(f, m);
    SectorInImage(f, l);
    if m != l { SectorsDisjoint(f, l, m); }
  }

  lemma PlacedRest(f: Format, img: seq<byte>, inv: Inventory, encoded: seq<byte>, data: seq<byte>, fileType: byte,
      chain: seq<Loc>, j: nat, i: nat)
    requires CanPlace(f, img, inv, encoded, data, fileType, chain)
    requires j < |chain| && 2 + |Chunk(data, j)| <= i < 256
    ensures |img| >= Size(f) && InDisk(f, chain[j])
    ensures |PlaceFile(f, img, encoded, data, fileType, chain).image| >= Size(f)
    ensures ByteAt(f, PlaceFile(f, img, encoded, data, fileType, chain).image, chain[j], i) ==
      ByteAt(f, img, chain[j], i)
  {
    hide FindSlot, FreeBlocks, FirstFreeSlot, FileSound, SlotSound, BamSound, DirLink, WriteChain, Linked, SlotEntry,
      PlaceFile, EntryAt, Describes, IsBam, Gather, IsFree, Offset, SameSector, ByteAt, InDisk, ReadyImage, Entered,
        WrittenImage, MustGrow;
    var w, inv2 := WrittenImage(f, img, inv, chain, data), ClaimedInventory(f, img, inv, chain);
    var k, e, l := NewSlot(f, img, inv), EntryFor(f, img, inv, encoded, data, fileType, chain), chain[j];
    var ready, blocks := ReadyImage(f, img, inv), FileBlocks(chain, data);
    PlaceSteps(f, img, inv, encoded, data, fileType, chain);
    WrittenStage(f, img, inv, encoded, data, fileType, chain);
    ReadyChain(f, img, inv, encoded, data, fileType, chain);
    SlotReady(f, img, inv);
    FreeUnowned(f, ready, ReadyInventory(f, img, inv), chain);
    assert |blocks[j]| == 2 + |Chunk(data, j)|;
    ChainRest(f, ready, chain, blocks, |chain|, j, i);
    assert l in chain;
    ReadyOff(f, img, inv, l);
    EntryFrame(f, w, inv2, k, chain, e);
    DirNotBam(f, w, inv2, k / 8);
    assert l in inv2.owner && inv2.owner[l] == FileBlock(k, j);
    SameBytes(f, img, ready, l);
    SameBytes(f, w, Entered(f, w, inv2, k, e), l);
  }

  /** Finding a slot changes no sector off the directory track but BAM sectors. */
  lemma ReadyOff(f: Format, img: seq<byte>, inv: Inventory, l: Loc)
    requires Valid(f, img, inv) && HasSlot(f, img, inv)
    requires InDisk(f, l) && !IsBam(f, l) && l.track != DirTrack(f)
    ensures |inv.dir| > 0 && SameSector(f, img, ReadyImage(f, img, inv), l)
  {
    hide Extend, IsFree, FreeBlocks, FirstFreeSlot, FileSound, SlotSound, BamSound, DirLink, SlotEntry;
    if MustGrow(f, img, inv) {
      ExtendEffect(f, img, inv);
      GrowthUnseen(f, img, inv, {});
    } else {
      Blank.Unchanged(f, img, l);
    }
  }

  /** Past the stream's last byte the last sector keeps what it held. */
  lemma NewFileRest(f: Format, img: seq<byte>, inv: Inventory, req: Request, maxTrack: nat, i: nat)
    requires Valid(f, img, inv) && InstallOn(f, img, req, maxTrack).Done?
    requires |req.data| - 254 * (Blocks(req.data) - 1) <= i < 254
    ensures Blocks(req.data) <= |FreeList(f, img, Track(f, maxTrack))|
    ensures var last := FreeList(f, img, Track(f, maxTrack))[Blocks(req.data) - 1];
      var b := InstallOn(f, img, req, maxTrack).image;
      && Offset(f, last) + 256 <= |img| == |b|
      && b[Offset(f, last) + 2 + i] == img[Offset(f, last) + 2 + i]
  {
    hide Valid, FreeList, HasSlot, NextInventory, PlaceFile, InstallOn, Offset, InDisk, NewChain, Size;
    SoundShape(f, img, inv);
    InstallIsPlace(f, img, inv, req, maxTrack);
    var chain, n := Allocated(f, img, req.data, Track(f, maxTrack)), Blocks(req.data);
    PlacedRest(f, img, inv, KeyOf(req), req.data, req.fileType, chain, n - 1, 2 + i);
    SectorInImage(f, chain[n - 1]);
  }

  // ----- allocation order and names

  ghost predicate Before(a: Loc, b: Loc) {
    a.track < b.track || (a.track == b.track && a.sector < b.sector)
  }

  lemma {:induction false} FreeOnOrdered(f: Format, img: seq<byte>, t: nat, s: nat, i: nat, j: nat)
    requires |img| >= Size(f) && i < j < |FreeOn(f, img, t, s)|
    ensures Before(FreeOn(f, img, t, s)[i], FreeOn(f, img, t, s)[j])
    decreases s
  {
    hide IsFree;
    var before := FreeOn(f, img, t, s - 1);
    FreeOnFacts(f, img, t, s - 1);
    if j < |before| {
      FreeOnOrdered(f, img, t, s - 1, i, j);
    } else {
      assert before[i] in before;
    }
  }

  /** Free sectors are handed out in increasing order of track, then of sector. */
  lemma {:induction false} FreeListOrdered(f: Format, img: seq<byte>, t: nat, i: nat, j: nat)
    requires |img| >= Size(f) && i < j < |FreeList(f, img, t)|
    ensures Before(FreeList(f, img, t)[i], FreeList(f, img, t)[j])
    decreases t
  {
    hide IsFree, FreeOn, SectorsPerTrack, FreeList;
    NoFree(f, img);
    FreeListNext(f, img, t);
    var before, n := FreeList(f, img, t - 1), SectorsPerTrack(f, t);
    if j < |before| {
      FreeListOrdered(f, img, t - 1, i, j);
    } else {
      var here := FreeOn(f, img, t, n);
      FreeOnFacts(f, img, t, n);
      assert here[j - |before|] in here;
      if i < |before| {
        FreeListHolds(f, img, t - 1, before[i]);
      } else {
        FreeOnOrdered(f, img, t, n, i - |before|, j - |before|);
      }
    }
  }

  const LOWER := "abcdefghijklmnopqrstuvwxyz"
  const CAPITALS := "ABCDEFGHIJKLMNOPQRSTUVWXYZ"

  /** The stored name: each letter's capital, every other character as it is, all below 128. */
  lemma NamesAre(name: string, i: nat)
    requires i < |name|
    ensures Encode(name).Some? <==> forall j | 0 <= j < |name| :: (name[j] as int) < 128
    ensures Encode(name).Some? ==>
      && |Encode(name).value| == |name|
      && (name[i] !in LOWER ==> Encode(name).value[i] == name[i] as int)
      && forall k | 0 <= k < 26 && name[i] == LOWER[k] :: Encode(name).value[i] == CAPITALS[k] as int
  {
    forall k | 0 <= k < 26 ensures Upper(LOWER[k]) == CAPITALS[k] && 'a' <= LOWER[k] <= 'z' { Letters(k); }
    if 'a' <= name[i] <= 'z' {
      var k := name[i] as int - 'a' as int;
      Letters(k);
      assert LOWER[k] == name[i];
    }
  }

  lemma Letters(k: nat)
    requires k < 26
    ensures |LOWER| == |CAPITALS| == 26
    ensures LOWER[k] as int == 'a' as int + k && CAPITALS[k] as int == 'A' as int + k
    ensures Upper(LOWER[k]) == CAPITALS[k]
  {
  }

  // ----- the slot search, on any image

  /** The type byte of one of the eight entries of a sector. */
  ghost function TypeByte(f: Format, img: seq<byte>, l: Loc, k: nat): byte
    requires |img| >= Size(f) && InDisk(f, l) && k < 8
  {
    SectorInImage(f, l);
    img[Offset(f, l) + 2 + 32 * k]
  }

  /** One step of the search, whatever the image holds: a sector seen before is a cycle; else its first
      slot with type byte zero; else the sector it links to, which must be a directory sector other
      than the BAM; else, with nothing left to grow into, the directory is full. */
  lemma SearchIs(f: Format, img: seq<byte>, l: Loc, seen: set<Loc>)
    requires |img| >= Size(f) && InDisk(f, l) && l.track == if f.D81? then 40 else 18
    ensures Offset(f, l) + 256 <= |img|
    ensures l in seen ==> FindSlot(f, img, l, seen) == NoSlot(img, CyclicDirectory)
    ensures forall k: nat | k < 8 && l !in seen && TypeByte(f, img, l, k) == 0 &&
        (forall j: nat | j < k :: TypeByte(f, img, l, j) != 0) :: FindSlot(f, img, l, seen) == Slot(img, l, k)
    ensures l !in seen && (forall k: nat | k < 8 :: TypeByte(f, img, l, k) != 0) ==>
      var track, sector := img[Offset(f, l)], img[Offset(f, l) + 1];
      && (track == l.track && (if f.D81? then 3 <= sector < 40 else 1 <= sector < 19) ==>
            FindSlot(f, img, l, seen) == FindSlot(f, img, Loc(track, sector), seen + {l}))
      && (track != 0 && !(track == l.track && (if f.D81? then 3 <= sector < 40 else 1 <= sector < 19)) ==>
            FindSlot(f, img, l, seen) == NoSlot(img, BadDirectoryLink))
      && (track == 0 && (forall s: nat | s < 40 :: IsFree(f, img, Loc(l.track, s)) ==> s < if f.D81? then 4 else 2) ==>
            FindSlot(f, img, l, seen) == NoSlot(img, DirectoryFull))
  {
    hide IsFree, SectorsBefore, Extend;
    SectorInImage(f, l);
    forall k: nat | k < 8 ensures EntryAt(f, img, l, k)[0] == TypeByte(f, img, l, k) { EntryIs(f, img, l, k); }
    assert ByteAt(f, img, l, 0) == img[Offset(f, l)] && ByteAt(f, img, l, 1) == img[Offset(f, l) + 1];
    hide TypeByte, EntryAt, Offset, ByteAt;
    if l !in seen { SearchStep(f, img, l, seen); }
  }
}
