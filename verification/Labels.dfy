/** The header of a disk: its bytes, where they lie, and that they survive every install. */
module Labels {
  import opened Bytes
  import opened Geometry
  import opened Bam
  import opened DiskRead
  import opened Inventory
  import opened Writing
  import opened Directory
  import opened DirectoryProofs
  import opened Install
  import opened InstallProofs
  import opened InstallTheorems
  import opened Listings
  import opened Blank
  import opened Runs
  import opened RunAccounts
  import opened Repack
  import opened DiskLayout

  /** A byte of the BAM sectors that holds no count and no bitmap: header bytes, and on the second
      side of a D71 the rest of track 53. */
  predicate IsHeader(f: Format, l: Loc, i: nat) {
    i < 256 && InDisk(f, l) && (HeaderBytes(f, l, i, i + 1) || (f.D71? && l.track == 53 && UnusedMap(l.sector, i)))
  }

  predicate UnusedMap(s: nat, i: nat) { s < 19 && (s > 0 || i >= 105) }

  ghost predicate KeepsHeader(f: Format, a: seq<byte>, b: seq<byte>) {
    && |a| >= Size(f) && |b| >= Size(f)
    && forall l, i | IsHeader(f, l, i) :: ByteAt(f, b, l, i) == ByteAt(f, a, l, i)
  }

  lemma HeaderTwice(f: Format, a: seq<byte>, m: seq<byte>, b: seq<byte>)
    requires KeepsHeader(f, a, m) && KeepsHeader(f, m, b)
    ensures KeepsHeader(f, a, b)
  {
    hide ByteAt, Size, HeaderBytes;
  }

  lemma SameHeader(f: Format, img: seq<byte>)
    requires |img| >= Size(f)
    ensures KeepsHeader(f, img, img)
  {
  }

  lemma HeaderNotMap(f: Format, l: Loc, i: nat, t: nat)
    requires IsHeader(f, l, i) && 1 <= t <= Tracks(f)
    ensures Offset(f, l) + i != CountPos(f, t)
    ensures Offset(f, l) + i < BitmapPos(f, t) || BitmapPos(f, t) + BitmapBytes(f) <= Offset(f, l) + i
  {
    hide SectorsBefore, SectorsPerTrack;
    BamInSectors(f, t);
    var c, m := CountSector(f, t), BitmapSector(f, t);
    if c != l { SectorsDisjoint(f, c, l); }
    if m != l { SectorsDisjoint(f, m, l); }
  }

  lemma MarkKeepsHeader(f: Format, img: seq<byte>, l: Loc)
    requires |img| >= Size(f) && InDisk(f, l)
    ensures KeepsHeader(f, img, MarkUsed(f, img, l).image)
  {
    hide HeaderBytes, CountPos, BitmapPos, Offset, TestBit, ClearBit, SectorsPerTrack, SectorsBefore, IsBam,
      CountSector, BitmapSector, CountInSector, BitmapInSector;
    BitPosInImage(f, l);
    BamInSectors(f, l.track);
    var b := MarkUsed(f, img, l).image;
    forall m, i | IsHeader(f, m, i) ensures ByteAt(f, b, m, i) == ByteAt(f, img, m, i) {
      SectorInImage(f, m);
      HeaderNotMap(f, m, i, l.track);
    }
  }

  lemma TrackKeepsHeader(f: Format, img: seq<byte>, t: nat)
    requires |img| >= Size(f) && 1 <= t <= Tracks(f)
    ensures KeepsHeader(f, img, FormatTrack(f, img, t))
  {
    hide HeaderBytes, CountPos, BitmapPos, Offset, TrackMask, SectorsPerTrack, IsBam, CountSector, BitmapSector,
      CountInSector, BitmapInSector;
    BamInSectors(f, t);
    forall m, i | IsHeader(f, m, i) ensures ByteAt(f, FormatTrack(f, img, t), m, i) == ByteAt(f, img, m, i) {
      SectorInImage(f, m);
      HeaderNotMap(f, m, i, t);
    }
  }

  lemma WriteKeepsHeader(f: Format, img: seq<byte>, b: seq<byte>, m: Loc, at: nat, bytes: seq<byte>)
    requires |img| >= Size(f) && InDisk(f, m) && !IsBam(f, m) && at + |bytes| <= 256 && Offset(f, m) + 256 <= |img|
    requires b == Splice(img, Offset(f, m) + at, bytes)
    ensures KeepsHeader(f, img, b)
  {
    hide HeaderBytes, Offset, SectorsPerTrack, IsBam, InDisk;
    forall l, i | IsHeader(f, l, i) ensures ByteAt(f, b, l, i) == ByteAt(f, img, l, i) {
      HeaderIsBam(f, l, i);
      SectorInImage(f, l);
      SectorsDisjoint(f, l, m);
    }
  }

  lemma HeaderIsBam(f: Format, l: Loc, i: nat)
    requires IsHeader(f, l, i)
    ensures InDisk(f, l) && IsBam(f, l)
  {
  }

  lemma {:induction false} ChainKeepsHeader(f: Format, img: seq<byte>, chain: seq<Loc>, blocks: seq<seq<byte>>, n: nat)
    requires |img| >= Size(f) && OnDisk(f, chain) && SectorBlocks(chain, blocks) && n <= |chain|
    requires forall l | l in chain :: !IsBam(f, l)
    ensures KeepsHeader(f, img, WriteChain(f, img, chain, blocks, n).image)
    decreases n
  {
    hide MarkUsed, ByteAt, Size, SectorsBefore, KeepsHeader, IsBam;
    if n == 0 {
      SameHeader(f, img);
    } else {
      ChainKeepsHeader(f, img, chain, blocks, n - 1);
      var o := WriteChain(f, img, chain, blocks, n - 1);
      if o.Done? {
        var l := chain[n - 1];
        assert l in chain;
        SectorInImage(f, l);
        var a := Splice(o.image, Offset(f, l), blocks[n - 1]);
        WriteKeepsHeader(f, o.image, a, l, 0, blocks[n - 1]);
        MarkKeepsHeader(f, a, l);
        HeaderTwice(f, img, o.image, a);
        HeaderTwice(f, img, a, MarkUsed(f, a, l).image);
      }
    }
  }

  lemma ExtendKeepsHeader(f: Format, img: seq<byte>, l: Loc, s: nat)
    requires |img| >= Size(f) && InDisk(f, l) && !IsBam(f, l) && FirstGrowth(f) <= s < DirSectorCount(f)
    ensures KeepsHeader(f, img, Extend(f, img, l, s).image)
  {
    hide MarkUsed, ByteAt, Size, SectorsBefore, KeepsHeader;
    var added, a := Loc(DirTrack(f), s), WithLink(f, img, l, s);
    SectorInImage(f, l);
    SectorInImage(f, added);
    var b := Splice(a, Offset(f, added), EmptyDirSector());
    WriteKeepsHeader(f, img, a, l, 0, [DirTrack(f), s]);
    WriteKeepsHeader(f, a, b, added, 0, EmptyDirSector());
    MarkKeepsHeader(f, b, added);
    HeaderTwice(f, img, a, b);
    HeaderTwice(f, img, b, Extend(f, img, l, s).image);
  }

  lemma PlaceKeepsHeader(f: Format, img: seq<byte>, inv: Inventory, encoded: seq<byte>, data: seq<byte>, fileType: byte,
      chain: seq<Loc>)
    requires CanPlace(f, img, inv, encoded, data, fileType, chain)
    ensures KeepsHeader(f, img, PlaceFile(f, img, encoded, data, fileType, chain).image)
  {
    hide KeepsHeader, Entered, PlaceFile, CanPlace, EntryReady;
    var w, inv2, k, e := Placing(f, img, inv, encoded, data, fileType, chain);
    EnterKeepsHeader(f, w, inv2, k, chain, e);
    HeaderTwice(f, img, w, Entered(f, w, inv2, k, e));
  }

  lemma Placing(f: Format, img: seq<byte>, inv: Inventory, encoded: seq<byte>, data: seq<byte>, fileType: byte,
      chain: seq<Loc>) returns (w: seq<byte>, inv2: Inventory, k: nat, e: seq<byte>)
    requires CanPlace(f, img, inv, encoded, data, fileType, chain)
    ensures |w| >= Size(f) && DirInDisk(f, inv2.dir) && k < 8 * |inv2.dir| && |e| == 30
    ensures EntryReady(f, w, inv2, k, chain, e)
    ensures PlaceFile(f, img, encoded, data, fileType, chain) == Done(Entered(f, w, inv2, k, e))
    ensures KeepsHeader(f, img, w)
  {
    PlaceSteps(f, img, inv, encoded, data, fileType, chain);
    WrittenKeepsHeader(f, img, inv, encoded, data, fileType, chain);
    w, inv2 := WrittenImage(f, img, inv, chain, data), ClaimedInventory(f, img, inv, chain);
    k, e := NewSlot(f, img, inv), EntryFor(f, img, inv, encoded, data, fileType, chain);
    hide *;
  }

  lemma WrittenKeepsHeader(f: Format, img: seq<byte>, inv: Inventory, encoded: seq<byte>, data: seq<byte>,
      fileType: byte, chain: seq<Loc>)
    requires CanPlace(f, img, inv, encoded, data, fileType, chain)
    ensures DirInDisk(f, inv.dir) && |inv.dir| > 0 && OnDisk(f, chain)
    ensures KeepsHeader(f, img, WrittenImage(f, img, inv, chain, data))
  {
    hide KeepsHeader, Extend, MustGrow, BamSound, IsFree, WriteChain, SlotEntry, NewSlot, IsBam, InDisk, Size, FindSlot,
      ReadyImage, ReadyInventory, SlotSound, FileSound, DirLink, FreeBlocks;
    SoundShape(f, img, inv);
    ReadyChain(f, img, inv, encoded, data, fileType, chain);
    SlotReady(f, img, inv);
    ReadyKeepsHeader(f, img, inv);
    var ready := ReadyImage(f, img, inv);
    FreeUnowned(f, ready, ReadyInventory(f, img, inv), chain);
    ChainKeepsHeader(f, ready, chain, FileBlocks(chain, data), |chain|);
    HeaderTwice(f, img, ready, WrittenImage(f, img, inv, chain, data));
  }

  lemma ReadyKeepsHeader(f: Format, img: seq<byte>, inv: Inventory)
    requires Valid(f, img, inv) && HasSlot(f, img, inv)
    ensures |inv.dir| > 0 && KeepsHeader(f, img, ReadyImage(f, img, inv))
  {
    hide Valid, KeepsHeader, Extend, IsFree, NewSlot, Size, ByteAt, IsBam;
    SoundShape(f, img, inv);
    DirNotBam(f, img, inv, |inv.dir| - 1);
    if MustGrow(f, img, inv) {
      GrowthPlace(f, img, inv);
      ExtendKeepsHeader(f, img, inv.dir[|inv.dir| - 1], Growth(f, img).sector);
    } else {
      SameHeader(f, img);
    }
  }

  lemma EnterKeepsHeader(f: Format, w: seq<byte>, inv: Inventory, k: nat, chain: seq<Loc>, e: seq<byte>)
    requires EntryReady(f, w, inv, k, chain, e)
    ensures DirInDisk(f, inv.dir) && KeepsHeader(f, w, Entered(f, w, inv, k, e))
  {
    hide Valid, KeepsHeader, Linked, Owned, Describes, SectorsBefore, Size, IsBam;
    SoundShape(f, w, inv);
    var at := inv.dir[k / 8];
    DirNotBam(f, w, inv, k / 8);
    SectorInImage(f, at);
    WriteKeepsHeader(f, w, Entered(f, w, inv, k, e), at, 2 + 32 * (k % 8), e);
  }

  /** Whatever is installed, every header byte of the disk stays as it was. */
  lemma {:induction false} RunKeepsHeader(f: Format, img: seq<byte>, inv: Inventory, reqs: seq<Request>, maxTrack: nat)
    requires Valid(f, img, inv) && Run(f, img, reqs, maxTrack).Done?
    ensures KeepsHeader(f, img, Run(f, img, reqs, maxTrack).image)
    decreases |reqs|
  {
    hide Valid, InstallOn, After, KeepsHeader, RunFits, Accounts, CanPlace, PlaceFile, KeyOf, FreeList, NextInventory;
    SoundShape(f, img, inv);
    if reqs == [] {
      SameHeader(f, img);
    } else {
      var before, req := reqs[..|reqs| - 1], reqs[|reqs| - 1];
      RunKeepsHeader(f, img, inv, before, maxTrack);
      RunExactly(f, img, inv, before, maxTrack);
      var m, mid := Run(f, img, before, maxTrack).image, RunInventory(f, img, inv, before, maxTrack);
      InstallIsPlace(f, m, mid, req, maxTrack);
      PlaceKeepsHeader(f, m, mid, KeyOf(req), req.data, req.fileType, Allocated(f, m, req.data, Track(f, maxTrack)));
      HeaderTwice(f, img, m, InstallOn(f, m, req, maxTrack).image);
    }
  }

  // ----- what the header bytes are

  /** What every header byte of a disk labelled `name`, `id` holds. */
  ghost function HeaderOf(f: Format, name: seq<byte>, id: seq<byte>, l: Loc, i: nat): byte
    requires !f.D64? && LabelOk(name, id) && IsHeader(f, l, i)
  {
    if f.D71? && l.track == 53 then 0
    else if f.D71? then
      (if i < 4 then [18, 1, 0x41, 0x80][i] else if 0x90 <= i < 0xA0 then Label(name, 16)[i - 0x90]
       else if 0xA2 <= i < 0xA4 then id[i - 0xA2] else if 0xA4 <= i < 0xA8 then [0xA0, 0x32, 0x41, 0xA0][i - 0xA4]
         else 0)
    else if l.sector == 0 then
      (if i < 4 then [40, 3, 0x44, 0][i] else if i < 22 then Label(name, 18)[i - 4] else if i < 24 then id[i - 22]
       else if i < 29 then [0xA0, 0x33, 0x44, 0xA0, 0xA0][i - 24] else 0)
    else if i < 8 then ((if l.sector == 1 then [40, 2, 0x44, 0xBB] else [0, 255, 0x44, 0xBB]) + id + [0xC0, 0])[i]
      else 0
  }

  ghost predicate HasHeader(f: Format, img: seq<byte>, name: seq<byte>, id: seq<byte>) {
    && !f.D64? && LabelOk(name, id) && |img| >= Size(f)
    && forall l, i | IsHeader(f, l, i) :: ByteAt(f, img, l, i) == HeaderOf(f, name, id, l, i)
  }

  lemma HeaderKept(f: Format, a: seq<byte>, b: seq<byte>, name: seq<byte>, id: seq<byte>)
    requires HasHeader(f, a, name, id) && KeepsHeader(f, a, b)
    ensures HasHeader(f, b, name, id)
  {
    hide ByteAt, Size, Label, IsHeader, HeaderOf, LabelOk;
  }

  lemma {:induction false} FormatKeepsHeader(f: Format, img: seq<byte>, lo: nat, hi: nat)
    requires |img| >= Size(f) && 1 <= lo <= hi <= Tracks(f) + 1
    ensures KeepsHeader(f, img, FormatTracks(f, img, lo, hi))
    decreases hi
  {
    hide FormatTrack, KeepsHeader;
    if lo == hi {
      SameHeader(f, img);
    } else {
      FormatKeepsHeader(f, img, lo, hi - 1);
      var a := FormatTracks(f, img, lo, hi - 1);
      TrackKeepsHeader(f, a, hi - 1);
      HeaderTwice(f, img, a, FormatTrack(f, a, hi - 1));
    }
  }

  lemma {:induction false} MarksKeepHeader(f: Format, img: seq<byte>, locs: seq<Loc>)
    requires |img| >= Size(f) && forall l | l in locs :: InDisk(f, l)
    ensures KeepsHeader(f, img, MarkAll(f, img, locs).image)
    decreases |locs|
  {
    hide MarkUsed, InDisk, KeepsHeader;
    if locs == [] {
      SameHeader(f, img);
    } else {
      var rest, l := locs[..|locs| - 1], locs[|locs| - 1];
      assert l in locs;
      MarksKeepHeader(f, img, rest);
      var o := MarkAll(f, img, rest);
      MarkKeepsHeader(f, o.image, l);
      if o.Done? { HeaderTwice(f, img, o.image, MarkUsed(f, o.image, l).image); }
    }
  }

  /** A byte after one header write. */
  lemma WrittenByte(f: Format, img: seq<byte>, m: Loc, lo: nat, bytes: seq<byte>, l: Loc, i: nat)
    requires InDisk(f, m) && InDisk(f, l) && i < 256
    requires |img| >= Size(f) && HeaderBytes(f, m, lo, lo + |bytes|)
    ensures ByteAt(f, WriteHeader(f, img, m, lo, bytes), l, i) ==
            if l == m && lo <= i < lo + |bytes| then bytes[i - lo] else ByteAt(f, img, l, i)
  {
    hide Offset, InDisk, SectorsPerTrack, Splice, SectorsBefore, Size;
    InSector(f, m, lo, lo + |bytes|);
    hide HeaderBytes;
    SectorInImage(f, m);
    SectorInImage(f, l);
    if l != m { SectorsDisjoint(f, l, m); }
  }

  lemma InSector(f: Format, m: Loc, lo: nat, hi: nat)
    requires HeaderBytes(f, m, lo, hi)
    ensures lo <= hi <= 256
  {
  }

  lemma ZeroByte(f: Format, l: Loc, i: nat)
    requires InDisk(f, l) && i < 256
    ensures ByteAt(f, Zeros(Size(f)), l, i) == 0
  {
    SectorInImage(f, l);
  }

  lemma LabelledHas(f: Format, name: seq<byte>, id: seq<byte>)
    requires !f.D64? && LabelOk(name, id)
    ensures HasHeader(f, Labelled(f, name, id), name, id)
  {
    hide ByteAt, Labelled, HeaderOf, HeaderBytes, InDisk, Size, LabelOk;
    forall l, i | IsHeader(f, l, i) ensures ByteAt(f, Labelled(f, name, id), l, i) == HeaderOf(f, name, id, l, i) {
      if f.D71? { LabelledByte71(name, id, l, i); } else { LabelledByte81(name, id, l, i); }
    }
  }

  lemma LabelledByte71(name: seq<byte>, id: seq<byte>, l: Loc, i: nat)
    requires LabelOk(name, id) && IsHeader(D71, l, i)
    ensures ByteAt(D71, Labelled(D71, name, id), l, i) == HeaderOf(D71, name, id, l, i)
  {
    hide FormatTracks, Label, WriteHeader, ByteAt;
    var bam, tail := Loc(18, 0), [0xA0, 0x32, 0x41, 0xA0];
    var a := WriteHeader(D71, Zeros(Size(D71)), bam, 0, [18, 1, 0x41, 0x80]);
    var b := FormatTracks(D71, a, 1, 36);
    var c := WriteHeader(D71, b, bam, 0x90, Label(name, 16));
    var d := WriteHeader(D71, c, bam, 0xA2, id);
    var e := WriteHeader(D71, d, bam, 0xA4, tail);
    ZeroByte(D71, l, i);
    WrittenByte(D71, Zeros(Size(D71)), bam, 0, [18, 1, 0x41, 0x80], l, i);
    FormatKeepsHeader(D71, a, 1, 36);
    WrittenByte(D71, b, bam, 0x90, Label(name, 16), l, i);
    WrittenByte(D71, c, bam, 0xA2, id, l, i);
    WrittenByte(D71, d, bam, 0xA4, tail, l, i);
    FormatKeepsHeader(D71, e, 36, 71);
  }

  lemma LabelledByte81(name: seq<byte>, id: seq<byte>, l: Loc, i: nat)
    requires LabelOk(name, id) && IsHeader(D81, l, i)
    ensures ByteAt(D81, Labelled(D81, name, id), l, i) == HeaderOf(D81, name, id, l, i)
  {
    hide FormatTracks, Label, WriteHeader, ByteAt;
    var title := Label(name, 18) + id + [0xA0, 0x33, 0x44, 0xA0, 0xA0];
    var low, high := [40, 2, 0x44, 0xBB] + id + [0xC0, 0], [0, 255, 0x44, 0xBB] + id + [0xC0, 0];
    var a := WriteHeader(D81, Zeros(Size(D81)), Loc(40, 0), 0, [40, 3, 0x44, 0]);
    var b := WriteHeader(D81, a, Loc(40, 0), 4, title);
    var c := WriteHeader(D81, b, Loc(40, 1), 0, low);
    var d := WriteHeader(D81, c, Loc(40, 2), 0, high);
    ZeroByte(D81, l, i);
    WrittenByte(D81, Zeros(Size(D81)), Loc(40, 0), 0, [40, 3, 0x44, 0], l, i);
    WrittenByte(D81, a, Loc(40, 0), 4, title, l, i);
    WrittenByte(D81, b, Loc(40, 1), 0, low, l, i);
    WrittenByte(D81, c, Loc(40, 2), 0, high, l, i);
    FormatKeepsHeader(D81, d, 1, 81);
  }

  lemma BlankHas(f: Format, name: seq<byte>, id: seq<byte>)
    requires !f.D64? && LabelOk(name, id) && BlankImage(f, name, id).Some?
    ensures HasHeader(f, BlankImage(f, name, id).value, name, id)
  {
    hide HasHeader, Labelled, MarkAll, KeepsHeader, SectorsBefore, Reserved, ReservedSide2;
    var a := Labelled(f, name, id);
    LabelledHas(f, name, id);
    MarksKeepHeader(f, a, Reserved(f));
    var b := MarkAll(f, a, Reserved(f)).image;
    SectorInImage(f, FirstDir(f));
    var c := EndDirectory(f, b);
    WriteKeepsHeader(f, b, c, FirstDir(f), 0, [0, 255]);
    MarksKeepHeader(f, c, ReservedSide2(f));
    var d := MarkAll(f, c, ReservedSide2(f)).image;
    HeaderKept(f, a, b, name, id);
    HeaderKept(f, b, c, name, id);
    HeaderKept(f, c, d, name, id);
  }

  lemma BootedHas(f: Format, name: seq<byte>, id: seq<byte>, sectors: seq<seq<byte>>)
    requires !f.D64? && BootSectors(sectors) && LabelOk(name, id) && WithBoot(f, name, id, sectors).Some?
    ensures HasHeader(f, WithBoot(f, name, id, sectors).value, name, id)
  {
    hide HasHeader, BlankImage, WriteChain, BootLocations, LabelOk;
    BlankHas(f, name, id);
    BootLocationsFit(f, BOOT_BLOCKS);
    var blank, locs := BlankImage(f, name, id).value, BootLocations(BOOT_BLOCKS);
    ChainKeepsHeader(f, blank, locs, sectors, BOOT_BLOCKS);
    HeaderKept(f, blank, WriteChain(f, blank, locs, sectors, BOOT_BLOCKS).image, name, id);
  }

  /** A booted disk filled by any completed run still has the header it was formatted with. */
  lemma FilledHas(f: Format, name: seq<byte>, id: seq<byte>, sectors: seq<seq<byte>>, reqs: seq<Request>, maxTrack: nat)
    requires !f.D64? && BootSectors(sectors) && LabelOk(name, id) && WithBoot(f, name, id, sectors).Some?
    requires Run(f, WithBoot(f, name, id, sectors).value, reqs, maxTrack).Done?
    ensures HasHeader(f, Run(f, WithBoot(f, name, id, sectors).value, reqs, maxTrack).image, name, id)
  {
    hide HasHeader, WithBoot, Run, Valid, BootInventory, KeepsHeader, BootHolds, LabelOk;
    BootedIsValid(f, name, id, sectors);
    BootedHas(f, name, id, sectors);
    var img := WithBoot(f, name, id, sectors).value;
    RunKeepsHeader(f, img, BootInventory(f), reqs, maxTrack);
    HeaderKept(f, img, Run(f, img, reqs, maxTrack).image, name, id);
  }

  // ----- the label in the image file

  /** What stripping the padding leaves: a prefix not ending in padding, the rest being padding. */
  lemma {:induction false} StrippedIs(field: seq<byte>)
    ensures var s := Stripped(field);
      && |s| <= |field| && s == field[..|s|] && (s != [] ==> s[|s| - 1] != 0xA0)
      && forall i | |s| <= i < |field| :: field[i] == 0xA0
    decreases |field|
  {
    if field != [] && field[|field| - 1] == 0xA0 { StrippedIs(field[..|field| - 1]); }
  }

  /** A stretch of header bytes, where it lies in the image. */
  lemma HeaderStored(f: Format, img: seq<byte>, name: seq<byte>, id: seq<byte>, l: Loc, lo: nat, bytes: seq<byte>)
    requires HasHeader(f, img, name, id)
    requires forall i | lo <= i < lo + |bytes| :: IsHeader(f, l, i) && HeaderOf(f, name, id, l, i) == bytes[i - lo]
    requires InDisk(f, l) && lo + |bytes| <= 256
    ensures Stored(img, Offset(f, l) + lo, bytes)
  {
    hide Offset, HeaderBytes, HeaderOf, InDisk, Size;
    SectorInImage(f, l);
    var at := Offset(f, l) + lo;
    forall k | 0 <= k < |bytes| ensures img[at + k] == bytes[k] {
      assert IsHeader(f, l, lo + k);
      assert ByteAt(f, img, l, lo + k) == HeaderOf(f, name, id, l, lo + k);
    }
    assert img[at..at + |bytes|] == bytes;
  }

  /** The disk name and id of a D71, where they lie in the image. */
  lemma LabelOfIs(source: seq<byte>)
    requires |source| == 349696
    ensures var (name, id) := LabelOf(source);
      && |name| <= 16 && Stored(source, 91536, name + seq(16 - |name|, _ => 0xA0)) && Stored(source, 91554, id)
      && |id| == 2 && (name != [] ==> name[|name| - 1] != 0xA0)
  {
    hide Stripped, SectorsBefore, ByteAt, Offset, SectorsPerTrack;
    MapSectors(D71);
    var field, id := Slice(D71, source, Loc(18, 0), 0x90, 0xA0), Slice(D71, source, Loc(18, 0), 0xA2, 0xA4);
    assert field == source[91536..91552] && id == source[91554..91556];
    StrippedIs(field);
    var name := Stripped(field);
    assert field == name + seq(16 - |name|, _ => 0xA0);
  }

  /** The header of a D71 in image positions: sector 18/0 with the name padded with $A0 and the id,
      and nothing but bitmaps on track 53. */
  ghost predicate Header71(b: seq<byte>, name: seq<byte>, id: seq<byte>) {
    && |b| == 349696 && 1 <= |name| <= 16 && |id| == 2
    && Stored(b, 91392, [18, 1, 0x41, 0x80])
    && Stored(b, 91536, name + seq(16 - |name|, _ => 0xA0)) && Stored(b, 91552, [0, 0] + id)
    && Stored(b, 91556, [0xA0, 0x32, 0x41, 0xA0]) && Stored(b, 91560, seq(53, _ => 0))
    && Stored(b, 266240 + 105, seq(151, _ => 0))
    && forall s: nat | 0 < s < 19 :: Stored(b, 266240 + 256 * s, seq(256, _ => 0))
  }

  /** The header of a D81 in image positions: in sector 40/0 bytes 4-21 are the name padded with $A0
      and bytes 22-23 the id; sectors 40/1 and 40/2 link the two halves of the map. */
  ghost predicate Header81(d: seq<byte>, name: seq<byte>, id: seq<byte>) {
    && |d| == 819200 && 1 <= |name| <= 16 && |id| == 2
    && Stored(d, 399360, [40, 3, 0x44, 0])
    && Stored(d, 399360 + 4, name + seq(18 - |name|, _ => 0xA0)) && Stored(d, 399360 + 22, id)
    && Stored(d, 399360 + 24, [0xA0, 0x33, 0x44, 0xA0, 0xA0]) && Stored(d, 399360 + 29, seq(227, _ => 0))
    && Stored(d, 399616, [40, 2, 0x44, 0xBB] + id + [0xC0, 0] + seq(8, _ => 0))
    && Stored(d, 399872, [0, 255, 0x44, 0xBB] + id + [0xC0, 0] + seq(8, _ => 0))
  }

  /** A repacked disk carries the label of its source, as it stands after the boot sectors and every
      install: name and id of the D71 header, stripped of the padding and padded again. */
  lemma RepackLabel(source: seq<byte>)
    requires Repacked(source).Some?
    ensures |source| == 349696
    ensures var (name, id) := LabelOf(source);
      && 1 <= |name| <= 16 && name[|name| - 1] != 0xA0 && |id| == 2
      && Stored(source, 91536, name + seq(16 - |name|, _ => 0xA0)) && Stored(source, 91554, id)
      && Header81(Repacked(source).value, name, id)
  {
    hide HasHeader, LabelOf, Repacked, Stored;
    RepackHas(source);
    var (name, id) := LabelOf(source);
    LabelOfIs(source);
    D81Header(Repacked(source).value, name, id);
  }

  // ----- the boot sectors in the image file

  /** Boot sector i of a D71 lies at 256 i; a D81 leaves the last 19 sectors of each track between. */
  lemma BootOnDisk(f: Format, img: seq<byte>, sectors: seq<seq<byte>>, i: nat)
    requires |img| >= Size(f) && BootSectors(sectors) && BootHolds(f, img, sectors) && i < 213
    ensures |sectors| == 213 && |sectors[i]| == 256
    ensures Stored(img, 256 * if f.D81? then 40 * (i / 21) + i % 21 else i, sectors[i])
  {
    hide BootAt, SectorsPerTrack, SectorsBefore, ByteAt, Size;
    assert InDisk(f, BootAt(i)) && Slice(f, img, BootAt(i), 0, 256) == sectors[i];
    BootAtClosed(i);
    OffsetsAre(f, BootAt(i));
    SectorInImage(f, BootAt(i));
  }

  /** Every boot sector of the D71 is in the D81, track for track and sector for sector. */
  ghost predicate BootMovedTo(source: seq<byte>, d: seq<byte>) {
    |source| == 349696 && forall i: nat | i < 213 ::
      Stored(d, 256 * (40 * (i / 21) + i % 21), source[256 * i..256 * i + 256])
  }

  lemma SourceBoot(source: seq<byte>, i: nat)
    requires |source| == 349696 && i < 213
    ensures BOOT_BLOCKS == 213 && SourceSectors(source, BOOT_BLOCKS)[i] == source[256 * i..256 * i + 256]
  {
    hide BootAt, SectorsPerTrack, SectorsBefore, ByteAt, SourceSectors;
    SourceSectorAt(source, BOOT_BLOCKS, i);
    BootAtClosed(i);
    OffsetsAre(D71, BootAt(i));
  }

  lemma RepackBoots(source: seq<byte>)
    requires Repacked(source).Some?
    ensures BootMovedTo(source, Repacked(source).value)
  {
    hide WithBoot, Run, RunInventory, LabelOf, Valid, BootInventory, BootHolds, RequestsFor, DirEntries, SourceSectors,
      ListsRequests, Stored;
    var (name, id) := LabelOf(source);
    var sectors, reqs := SourceSectors(source, BOOT_BLOCKS), RequestsFor(source, DirEntries(D71, source).entries).value;
    BootedIsValid(D81, name, id, sectors);
    RunFromBoot(D81, name, id, sectors, reqs, 80);
    forall i: nat | i < 213
      ensures Stored(Repacked(source).value, 256 * (40 * (i / 21) + i % 21), source[256 * i..256 * i + 256])
    {
      BootOnDisk(D81, Repacked(source).value, sectors, i);
      SourceBoot(source, i);
    }
  }

  /** Whatever D71 the repack accepts: the D81 is a sound disk, lists the same files in the same order
      with the same type, upper-case name and stream, holds every boot sector at the same track and
      sector, and carries the same label. */
  lemma RepackTheorem(source: seq<byte>)
    requires Repacked(source).Some?
    ensures |source| == 349696 && |Repacked(source).value| == 819200
    ensures SameFiles(source, Repacked(source).value) && BootMovedTo(source, Repacked(source).value)
    ensures exists inv :: Valid(D81, Repacked(source).value, inv)
    ensures Header81(Repacked(source).value, LabelOf(source).0, LabelOf(source).1)
  {
    hide Valid, Repacked, SameFiles, SameBoot, BootMovedTo, Header81, LabelOf;
    RepackKeeps(source);
    RepackBoots(source);
    RepackLabel(source);
    RepackHas(source);
  }

  lemma RepackHas(source: seq<byte>)
    requires Repacked(source).Some?
    ensures |source| == 349696 && |Repacked(source).value| == 819200
    ensures HasHeader(D81, Repacked(source).value, LabelOf(source).0, LabelOf(source).1)
  {
    hide HasHeader, WithBoot, Run, LabelOf, Valid, BootInventory, BootHolds, RequestsFor, DirEntries, SourceSectors,
      LabelOk;
    var (name, id) := LabelOf(source);
    var sectors := SourceSectors(source, BOOT_BLOCKS);
    BootedIsValid(D81, name, id, sectors);
    FilledHas(D81, name, id, sectors, RequestsFor(source, DirEntries(D71, source).entries).value, 80);
  }

  lemma D81Header(d: seq<byte>, name: seq<byte>, id: seq<byte>)
    requires |d| == 819200 && HasHeader(D81, d, name, id)
    ensures Header81(d, name, id)
  {
    TitleStored(d, name, id);
    MapHeadStored(d, name, id, 1, [40, 2, 0x44, 0xBB]);
    MapHeadStored(d, name, id, 2, [0, 255, 0x44, 0xBB]);
    hide Stored, HasHeader;
  }

  lemma TitleStored(d: seq<byte>, name: seq<byte>, id: seq<byte>)
    requires |d| == 819200 && HasHeader(D81, d, name, id)
    ensures 1 <= |name| <= 16 && |id| == 2
    ensures Stored(d, 399360, [40, 3, 0x44, 0])
    ensures Stored(d, 399364, name + seq(18 - |name|, _ => 0xA0)) && Stored(d, 399382, id)
    ensures Stored(d, 399384, [0xA0, 0x33, 0x44, 0xA0, 0xA0]) && Stored(d, 399389, seq(227, _ => 0))
  {
    assert LabelOk(name, id);
    assert Offset(D81, Loc(40, 0)) == 399360;
    hide HasHeader, Offset, Stored, UnusedMap;
    HeaderStored(D81, d, name, id, Loc(40, 0), 0, [40, 3, 0x44, 0]);
    HeaderStored(D81, d, name, id, Loc(40, 0), 4, name + seq(18 - |name|, _ => 0xA0));
    HeaderStored(D81, d, name, id, Loc(40, 0), 22, id);
    HeaderStored(D81, d, name, id, Loc(40, 0), 24, [0xA0, 0x33, 0x44, 0xA0, 0xA0]);
    HeaderStored(D81, d, name, id, Loc(40, 0), 29, seq(227, _ => 0));
  }

  lemma MapHeadStored(d: seq<byte>, name: seq<byte>, id: seq<byte>, s: nat, start: seq<byte>)
    requires |d| == 819200 && HasHeader(D81, d, name, id)
    requires s == 1 || s == 2
    requires start == if s == 1 then [40, 2, 0x44, 0xBB] else [0, 255, 0x44, 0xBB]
    ensures |id| == 2
    ensures Stored(d, 399360 + 256 * s, start + id + [0xC0, 0] + seq(8, _ => 0))
  {
    assert LabelOk(name, id);
    MapSectors(D81);
    hide HasHeader, Offset, Stored, UnusedMap;
    HeaderStored(D81, d, name, id, Loc(40, s), 0, start + id + [0xC0, 0] + seq(8, _ => 0));
  }

  /** Whatever is installed, a D71 build is labelled UDEKS, id 01, and reads back so. */
  lemma BuildLabel(sectors: seq<seq<byte>>, reqs: seq<Request>, fileTracks: nat)
    requires BootSectors(sectors) && BuildD71(sectors, reqs, fileTracks).Some?
    ensures var b := BuildD71(sectors, reqs, fileTracks).value;
      && Header71(b, [85, 68, 69, 75, 83], [48, 49])
      && LabelOf(b) == ([85, 68, 69, 75, 83], [48, 49])
  {
    hide HasHeader, LabelOf, BuildD71, Stored;
    BuildHas(sectors, reqs, fileTracks);
    var b := BuildD71(sectors, reqs, fileTracks).value;
    D71Header(b, [85, 68, 69, 75, 83], [48, 49]);
    UniqueLabel(b);
  }

  lemma BuildHas(sectors: seq<seq<byte>>, reqs: seq<Request>, fileTracks: nat)
    requires BootSectors(sectors) && BuildD71(sectors, reqs, fileTracks).Some?
    ensures |BuildD71(sectors, reqs, fileTracks).value| == 349696
    ensures HasHeader(D71, BuildD71(sectors, reqs, fileTracks).value, [85, 68, 69, 75, 83], [48, 49])
  {
    hide HasHeader, WithBoot, Run, Valid, BootInventory, BootHolds;
    BootedIsValid(D71, DEFAULT_NAME, DEFAULT_ID, sectors);
    FilledHas(D71, DEFAULT_NAME, DEFAULT_ID, sectors, reqs, fileTracks);
  }

  lemma D71Header(b: seq<byte>, name: seq<byte>, id: seq<byte>)
    requires |b| == 349696 && HasHeader(D71, b, name, id)
    ensures Header71(b, name, id)
  {
    NameStored(b, name, id);
    Side2Stored(b, name, id);
    hide HasHeader, Stored;
  }

  lemma NameStored(b: seq<byte>, name: seq<byte>, id: seq<byte>)
    requires |b| == 349696 && HasHeader(D71, b, name, id)
    ensures 1 <= |name| <= 16 && |id| == 2
    ensures Stored(b, 91392, [18, 1, 0x41, 0x80])
    ensures Stored(b, 91536, name + seq(16 - |name|, _ => 0xA0)) && Stored(b, 91552, [0, 0] + id)
    ensures Stored(b, 91556, [0xA0, 0x32, 0x41, 0xA0]) && Stored(b, 91560, seq(53, _ => 0))
  {
    assert LabelOk(name, id);
    MapSectors(D71);
    var l, padded, zeros := Loc(18, 0), name + seq(16 - |name|, _ => 0xA0), Zeros(53);
    var start: seq<byte>, tail: seq<byte> := [18, 1, 0x41, 0x80], [0xA0, 0x32, 0x41, 0xA0];
    forall i: nat | i < 4 ensures IsHeader(D71, l, i) && HeaderOf(D71, name, id, l, i) == start[i] {
      StartByte(name, id, i);
    }
    forall i: nat | 0x90 <= i < 0xA0
      ensures IsHeader(D71, l, i) && HeaderOf(D71, name, id, l, i) == padded[i - 0x90]
    {
    }
    forall i: nat | 0xA0 <= i < 0xA4
      ensures IsHeader(D71, l, i) && HeaderOf(D71, name, id, l, i) == ([0, 0] + id)[i - 0xA0]
    {
    }
    forall i: nat | 0xA4 <= i < 0xA8
      ensures IsHeader(D71, l, i) && HeaderOf(D71, name, id, l, i) == tail[i - 0xA4]
    {
    }
    forall i: nat | 0xA8 <= i < 0xDD ensures IsHeader(D71, l, i) && HeaderOf(D71, name, id, l, i) == 0 {}
    hide HasHeader, Offset, Stored, UnusedMap, HeaderBytes, Label, IsHeader, HeaderOf;
    HeaderStored(D71, b, name, id, l, 0, start);
    HeaderStored(D71, b, name, id, l, 0xA4, tail);
    HeaderStored(D71, b, name, id, l, 0x90, padded);
    HeaderStored(D71, b, name, id, l, 0xA0, [0, 0] + id);
    HeaderStored(D71, b, name, id, l, 0xA8, zeros);
    assert zeros == seq(53, _ => 0);
  }

  lemma StartByte(name: seq<byte>, id: seq<byte>, i: nat)
    requires LabelOk(name, id) && i < 4
    ensures IsHeader(D71, Loc(18, 0), i) && HeaderOf(D71, name, id, Loc(18, 0), i) == [18, 1, 0x41, 0x80][i]
  {
    hide Label;
  }

  lemma Side2Stored(b: seq<byte>, name: seq<byte>, id: seq<byte>)
    requires |b| == 349696 && HasHeader(D71, b, name, id)
    ensures Stored(b, 266240 + 105, seq(151, _ => 0))
    ensures forall s: nat | 0 < s < 19 :: Stored(b, 266240 + 256 * s, seq(256, _ => 0))
  {
    assert LabelOk(name, id);
    MapSectors(D71);
    hide HasHeader, Stored, Offset, HeaderBytes, Label;
    HeaderStored(D71, b, name, id, Loc(53, 0), 105, seq(151, _ => 0));
    forall s: nat | 0 < s < 19 ensures Stored(b, 266240 + 256 * s, seq(256, _ => 0)) {
      OffsetsAre(D71, Loc(53, s));
      HeaderStored(D71, b, name, id, Loc(53, s), 0, seq(256, _ => 0));
    }
  }

  lemma UniqueLabel(b: seq<byte>)
    requires Header71(b, [85, 68, 69, 75, 83], [48, 49])
    ensures LabelOf(b) == ([85, 68, 69, 75, 83], [48, 49])
  {
    hide LabelOf;
    LabelOfIs(b);
    var (name, id) := LabelOf(b);
    var key: seq<byte> := [85, 68, 69, 75, 83];
    if |name| < 5 { PadsDiffer(name, key); }
    if |name| > 5 { PadsDiffer(key, name); }
    assert name == b[91536..91552][..5] == key;
    assert b[91552..91556][2] == b[91554] && b[91552..91556][3] == b[91555];
    assert id == b[91554..91556] == [b[91554], b[91555]];
  }

  lemma PadsDiffer(short: seq<byte>, name: seq<byte>)
    requires |short| < |name| <= 16 && name[|name| - 1] != 0xA0
    ensures short + seq(16 - |short|, _ => 0xA0) != name + seq(16 - |name|, _ => 0xA0)
  {
    var a: seq<byte>, b: seq<byte> := short + seq(16 - |short|, _ => 0xA0), name + seq(16 - |name|, _ => 0xA0);
    assert a[|name| - 1] == 0xA0 && b[|name| - 1] == name[|name| - 1];
  }
}
