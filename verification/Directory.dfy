/** Finding a directory slot for a new file, extending the directory when every slot is taken:
    the walk inside `install_prg_file` (build_d71.py) and `install_file` (build_d81.py). */
module Directory {
  import opened Bytes
  import opened Geometry
  import opened Bam
  import opened DiskRead
  import opened Inventory
  import opened Writing

  datatype SlotSearch =
    | Slot(image: seq<byte>, at: Loc, slot: nat)
    | NoSlot(image: seq<byte>, error: DiskError)

  /** First slot at or after k whose type byte is zero, or 8. */
  function EmptyFrom(f: Format, img: seq<byte>, l: Loc, k: nat): (e: nat)
    requires |img| >= Size(f) && InDisk(f, l) && k <= 8
    ensures k <= e <= 8
    ensures forall i | k <= i < e :: EntryAt(f, img, l, i)[0] != 0
    ensures e < 8 ==> EntryAt(f, img, l, e)[0] == 0
    decreases 8 - k
  {
    if k == 8 || EntryAt(f, img, l, k)[0] == 0 then k else EmptyFrom(f, img, l, k + 1)
  }

  function DirSectorCount(f: Format): nat {
    if f.D81? then 40 else 19
  }

  /** First directory-track sector the directory may grow into: 2..18 on a D64/D71, 4..39 on a D81. */
  function FirstGrowth(f: Format): nat {
    if f.D81? then 4 else 2
  }

  function FreeDirFrom(f: Format, img: seq<byte>, s: nat): (r: nat)
    requires |img| >= Size(f) && s <= DirSectorCount(f)
    ensures s <= r <= DirSectorCount(f)
    ensures forall i | s <= i < r :: !IsFree(f, img, Loc(DirTrack(f), i))
    ensures r < DirSectorCount(f) ==> IsFree(f, img, Loc(DirTrack(f), r))
    decreases DirSectorCount(f) - s
  {
    if s == DirSectorCount(f) || IsFree(f, img, Loc(DirTrack(f), s)) then s else FreeDirFrom(f, img, s + 1)
  }

  predicate GoodLink(f: Format, track: nat, sector: nat) {
    track == DirTrack(f) && (if f.D81? then 3 else 1) <= sector < DirSectorCount(f)
  }

  function EmptyDirSector(): (s: seq<byte>)
    ensures |s| == 256
  {
    [0, 255] + Zeros(254)
  }

  function WithLink(f: Format, img: seq<byte>, l: Loc, s: nat): (r: seq<byte>)
    requires |img| >= Size(f) && InDisk(f, l) && s < DirSectorCount(f)
    ensures |r| == |img|
  {
    SectorInImage(f, l);
    Splice(img, Offset(f, l), [DirTrack(f), s])
  }

  /** Links a fresh, empty directory sector after l. */
  function Extend(f: Format, img: seq<byte>, l: Loc, s: nat): (o: Outcome)
    requires |img| >= Size(f) && InDisk(f, l) && s < DirSectorCount(f)
    ensures |o.image| == |img|
    ensures o.Failed? ==> o.error == CountUnderflow
  {
    var added := Loc(DirTrack(f), s);
    SectorInImage(f, added);
    MarkUsed(f, Splice(WithLink(f, img, l, s), Offset(f, added), EmptyDirSector()), added)
  }

  function FindSlot(f: Format, img: seq<byte>, l: Loc, seen: set<Loc>): (r: SlotSearch)
    requires |img| >= Size(f) && InDisk(f, l) && l.track == DirTrack(f)
    ensures |r.image| == |img|
    ensures r.Slot? ==> InDisk(f, r.at) && r.slot < 8
    decreases AllSectors(f) - seen
  {
    if l in seen then NoSlot(img, CyclicDirectory)
    else if EmptyFrom(f, img, l, 0) < 8 then Slot(img, l, EmptyFrom(f, img, l, 0))
    else
      InAllSectors(f, l);
      var track, sector := ByteAt(f, img, l, 0), ByteAt(f, img, l, 1);
      if track != 0 then
        if !GoodLink(f, track, sector) then NoSlot(img, BadDirectoryLink)
        else FindSlot(f, img, Loc(track, sector), seen + {l})
      else
        var s := FreeDirFrom(f, img, FirstGrowth(f));
        if s == DirSectorCount(f) then NoSlot(img, DirectoryFull) else
        match Extend(f, img, l, s)
        case Failed(bad, error) => NoSlot(bad, error)
        case Done(grown) => FindSlot(f, grown, Loc(DirTrack(f), s), seen + {l})
  }

  method ExtendInPlace(f: Format, image: array<byte>, l: Loc, s: nat) returns (error: Option<DiskError>)
    requires image.Length >= Size(f) && InDisk(f, l) && s < DirSectorCount(f)
    modifies image
    ensures var o := Extend(f, old(image[..]), l, s);
      image[..] == o.image && error == match o case Done(_) => None case Failed(_, e) => Some(e)
  {
    hide SectorsBefore, MarkUsed;
    var added := Loc(DirTrack(f), s);
    SectorInImage(f, l);
    SectorInImage(f, added);
    Store(image, Offset(f, l), [DirTrack(f), s]);
    Store(image, Offset(f, added), EmptyDirSector());
    error := MarkUsedInPlace(f, image, added);
  }

  method FindSlotInPlace(f: Format, image: array<byte>) returns (at: Loc, slot: nat, error: Option<DiskError>)
    requires image.Length >= Size(f)
    modifies image
    ensures var r := FindSlot(f, old(image[..]), FirstDir(f), {});
      && image[..] == r.image
      && match r case Slot(_, a, s) => error == None && at == a && slot == s case NoSlot(_, e) => error == Some(e)
    ensures error == None ==> InDisk(f, at) && slot < 8
  {
    hide FindSlot, SectorsBefore, AllSectors, Extend, EmptyFrom, FreeDirFrom;
    ghost var before := image[..];
    var seen := {};
    at, slot := FirstDir(f), 0;
    while true
      invariant InDisk(f, at) && at.track == DirTrack(f)
      invariant FindSlot(f, before, FirstDir(f), {}) == FindSlot(f, image[..], at, seen)
      decreases AllSectors(f) - seen
    {
      FindStep(f, image[..], at, seen);
      if at in seen { return at, slot, Some(CyclicDirectory); }
      InAllSectors(f, at);
      seen := seen + {at};
      SectorInImage(f, at);
      slot := FirstEmptySlot(f, image[..], at);
      if slot < 8 { return at, slot, None; }
      var pos := Offset(f, at);
      var track: nat, sector: nat := image[pos], image[pos + 1];
      if track != 0 {
        if !GoodLink(f, track, sector) { return at, slot, Some(BadDirectoryLink); }
        at := Loc(track, sector);
      } else {
        var s := FreeDirSector(f, image[..]);
        if s == DirSectorCount(f) { return at, slot, Some(DirectoryFull); }
        error := ExtendInPlace(f, image, at, s);
        if error.Some? { return; }
        at := Loc(DirTrack(f), s);
      }
    }
  }

  /** One round of the walk. */
  lemma FindStep(f: Format, img: seq<byte>, l: Loc, seen: set<Loc>)
    requires |img| >= Size(f) && InDisk(f, l) && l.track == DirTrack(f)
    ensures var track, sector := ByteAt(f, img, l, 0), ByteAt(f, img, l, 1);
      var s := FreeDirFrom(f, img, FirstGrowth(f));
      FindSlot(f, img, l, seen) ==
      if l in seen then NoSlot(img, CyclicDirectory)
      else if EmptyFrom(f, img, l, 0) < 8 then Slot(img, l, EmptyFrom(f, img, l, 0))
      else if track != 0 then
        if !GoodLink(f, track, sector) then NoSlot(img, BadDirectoryLink)
          else FindSlot(f, img, Loc(track, sector), seen + {l})
      else if s == DirSectorCount(f) then NoSlot(img, DirectoryFull)
      else match Extend(f, img, l, s)
        case Failed(bad, error) => NoSlot(bad, error)
        case Done(grown) => FindSlot(f, grown, Loc(DirTrack(f), s), seen + {l})
  {
    hide Extend, IsFree, EmptyFrom, FreeDirFrom, ByteAt, AllSectors;
  }

  method FirstEmptySlot(f: Format, image: seq<byte>, l: Loc) returns (slot: nat)
    requires |image| >= Size(f) && InDisk(f, l)
    ensures slot == EmptyFrom(f, image, l, 0)
  {
    hide SectorsBefore, InDisk, Size, EmptyFrom;
    SectorInImage(f, l);
    slot := 0;
    while slot < 8 && image[Offset(f, l) + 2 + 32 * slot] != 0
      invariant slot <= 8 && EmptyFrom(f, image, l, 0) == EmptyFrom(f, image, l, slot)
    {
      EmptyStep(f, image, l, slot);
      slot := slot + 1;
    }
    EmptyStep(f, image, l, slot);
  }

  lemma EmptyStep(f: Format, img: seq<byte>, l: Loc, k: nat)
    requires |img| >= Size(f) && InDisk(f, l) && k <= 8
    ensures if k == 8 || ByteAt(f, img, l, 2 + 32 * k) == 0 then EmptyFrom(f, img, l, k) == k
            else EmptyFrom(f, img, l, k) == EmptyFrom(f, img, l, k + 1)
  {
  }

  method FreeDirSector(f: Format, image: seq<byte>) returns (s: nat)
    requires |image| >= Size(f)
    ensures s == FreeDirFrom(f, image, FirstGrowth(f))
  {
    hide IsFree;
    s := FirstGrowth(f);
    while s < DirSectorCount(f) && !IsFree(f, image, Loc(DirTrack(f), s))
      invariant s <= DirSectorCount(f) && FreeDirFrom(f, image, FirstGrowth(f)) == FreeDirFrom(f, image, s)
    {
      s := s + 1;
    }
  }
}
