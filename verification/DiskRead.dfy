/** Reading a CBM disk image: the bounded directory walk `entries` and the bounded chain walk
    `file_bytes` of build_d81.py, on any image at all. */
module DiskRead {
  import opened Bytes
  import opened Geometry
  import opened Bam

  function ByteAt(f: Format, img: seq<byte>, l: Loc, i: nat): byte
    requires |img| >= Size(f) && InDisk(f, l) && i < 256
  {
    SectorInImage(f, l);
    img[Offset(f, l) + i]
  }

  function Slice(f: Format, img: seq<byte>, l: Loc, lo: nat, hi: nat): (s: seq<byte>)
    requires |img| >= Size(f) && InDisk(f, l) && lo <= hi <= 256
    ensures |s| == hi - lo && forall i | 0 <= i < hi - lo :: s[i] == ByteAt(f, img, l, lo + i)
  {
    SectorInImage(f, l);
    img[Offset(f, l) + lo..Offset(f, l) + hi]
  }

  function AllSectors(f: Format): set<Loc> {
    set t: nat, s: nat | t <= 80 && s < 40 && InDisk(f, Loc(t, s)) :: Loc(t, s)
  }

  lemma InAllSectors(f: Format, l: Loc)
    requires InDisk(f, l)
    ensures l in AllSectors(f)
  {
    assert l == Loc(l.track, l.sector);
  }

  // ----- directory

  function EntryAt(f: Format, img: seq<byte>, l: Loc, slot: nat): (e: seq<byte>)
    requires |img| >= Size(f) && InDisk(f, l) && slot < 8
    ensures |e| == 30
  {
    Slice(f, img, l, 2 + 32 * slot, 32 + 32 * slot)
  }

  /** Occupied entries among the first k slots of one directory sector. */
  function Occupied(f: Format, img: seq<byte>, l: Loc, k: nat): (found: seq<seq<byte>>)
    requires |img| >= Size(f) && InDisk(f, l) && k <= 8
    ensures forall e | e in found :: |e| == 30
    decreases k
  {
    if k == 0 then [] else
      var e := EntryAt(f, img, l, k - 1);
      if e[0] != 0 then Occupied(f, img, l, k - 1) + [e] else Occupied(f, img, l, k - 1)
  }

  /** The entries a directory walk yields, and whether it reached the end of the chain. */
  datatype Listing = Listing(entries: seq<seq<byte>>, whole: bool)

  function WalkDir(f: Format, img: seq<byte>, track: nat, sector: nat, seen: set<Loc>,
      found: seq<seq<byte>>): (listing: Listing)
    requires |img| >= Size(f)
    requires forall e | e in found :: |e| == 30
    ensures forall e | e in listing.entries :: |e| == 30
    decreases AllSectors(f) - seen
  {
    if track == 0 then Listing(found, true)
    else if !InDisk(f, Loc(track, sector)) || Loc(track, sector) in seen then Listing(found, false)
    else
      var l := Loc(track, sector);
      InAllSectors(f, l);
      WalkDir(f, img, ByteAt(f, img, l, 0), ByteAt(f, img, l, 1), seen + {l}, found + Occupied(f, img, l, 8))
  }

  function DirEntries(f: Format, img: seq<byte>): (listing: Listing)
    requires |img| >= Size(f)
    ensures forall e | e in listing.entries :: |e| == 30
  {
    WalkDir(f, img, FirstDir(f).track, FirstDir(f).sector, {}, [])
  }

  lemma EntryIs(f: Format, img: seq<byte>, l: Loc, slot: nat)
    requires |img| >= Size(f) && InDisk(f, l) && slot < 8
    ensures Offset(f, l) + 256 <= |img|
    ensures EntryAt(f, img, l, slot) == img[Offset(f, l) + 2 + 32 * slot..Offset(f, l) + 32 + 32 * slot]
  {
    hide SectorsBefore, Size, InDisk;
    SectorInImage(f, l);
  }

  lemma OccupiedStep(f: Format, img: seq<byte>, l: Loc, slot: nat)
    requires |img| >= Size(f) && InDisk(f, l) && slot < 8
    ensures Offset(f, l) + 256 <= |img| && Occupied(f, img, l, 0) == []
    ensures var entry := img[Offset(f, l) + 2 + 32 * slot..Offset(f, l) + 32 + 32 * slot];
      Occupied(f, img, l, slot + 1) == Occupied(f, img, l, slot) + if entry[0] != 0 then [entry] else []
  {
    hide Size, InDisk, Offset, EntryAt;
    EntryIs(f, img, l, slot);
  }

  method OccupiedEntries(f: Format, image: seq<byte>, l: Loc) returns (found: seq<seq<byte>>)
    requires |image| >= Size(f) && InDisk(f, l)
    ensures found == Occupied(f, image, l, 8)
  {
    hide Size, InDisk, Offset, Occupied;
    SectorInImage(f, l);
    var pos := Offset(f, l);
    found := [];
    OccupiedStep(f, image, l, 0);
    for slot := 0 to 8
      invariant found == Occupied(f, image, l, slot)
    {
      OccupiedStep(f, image, l, slot);
      var entry := image[pos + 2 + 32 * slot..pos + 32 + 32 * slot];
      if entry[0] != 0 { found := found + [entry]; }
    }
  }

  method Entries(f: Format, image: seq<byte>, track0: nat, sector0: nat) returns (listing: Listing)
    requires |image| >= Size(f)
    ensures listing == WalkDir(f, image, track0, sector0, {}, [])
  {
    hide SectorsBefore, Occupied, InDisk, AllSectors, Size;
    var track: nat, sector: nat, seen, found := track0, sector0, {}, [];
    while track != 0
      invariant forall e | e in found :: |e| == 30
      invariant WalkDir(f, image, track0, sector0, {}, []) == WalkDir(f, image, track, sector, seen, found)
      decreases AllSectors(f) - seen
    {
      var l := Loc(track, sector);
      if !InDisk(f, l) || l in seen { return Listing(found, false); }
      InAllSectors(f, l);
      var here := OccupiedEntries(f, image, l);
      SectorInImage(f, l);
      found, seen := found + here, seen + {l};
      track, sector := image[Offset(f, l)], image[Offset(f, l) + 1];
    }
    return Listing(found, true);
  }

  // ----- file chains

  datatype Stream = Stream(data: seq<byte>, blocks: nat)

  function ReadChain(f: Format, img: seq<byte>, track: nat, sector: nat, seen: set<Loc>, got: seq<byte>): Option<Stream>
    requires |img| >= Size(f)
    decreases AllSectors(f) - seen
  {
    if track == 0 then Some(Stream(got, |seen|))
    else if !InDisk(f, Loc(track, sector)) || Loc(track, sector) in seen then None
    else
      var l := Loc(track, sector);
      InAllSectors(f, l);
      var next, last := ByteAt(f, img, l, 0), ByteAt(f, img, l, 1);
      if next == 0 && last == 0 then None
      else ReadChain(f, img, next, last, seen + {l}, got + Payload(f, img, l))
  }

  /** The stream bytes of one sector: 254, or what the last sector's length byte says. */
  function Payload(f: Format, img: seq<byte>, l: Loc): seq<byte>
    requires |img| >= Size(f) && InDisk(f, l)
  {
    var next, last := ByteAt(f, img, l, 0), ByteAt(f, img, l, 1);
    Slice(f, img, l, 2, if next != 0 then 256 else if last == 0 then 2 else 1 + last)
  }

  lemma PayloadIs(f: Format, img: seq<byte>, l: Loc, bytes: seq<byte>)
    requires |img| >= Size(f) && InDisk(f, l)
    requires var next, last := ByteAt(f, img, l, 0), ByteAt(f, img, l, 1);
             (next != 0 || last != 0) && |bytes| == if next != 0 then 254 else last - 1
    requires forall i | 0 <= i < |bytes| :: bytes[i] == ByteAt(f, img, l, 2 + i)
    ensures bytes == Payload(f, img, l)
  {
  }

  function FileBytes(f: Format, img: seq<byte>, entry: seq<byte>): Option<seq<byte>>
    requires |img| >= Size(f) && |entry| == 30
  {
    match ReadChain(f, img, entry[1], entry[2], {}, [])
    case None => None
    case Some(stream) => if stream.blocks != Word(entry, 28) then None else Some(stream.data)
  }

  lemma ReadOnce(f: Format, img: seq<byte>, track: nat, sector: nat, seen: set<Loc>, got: seq<byte>)
    requires |img| >= Size(f)
    ensures var l := Loc(track, sector);
      ReadChain(f, img, track, sector, seen, got) ==
      if track == 0 then Some(Stream(got, |seen|))
      else if !InDisk(f, l) || l in seen then None
      else if ByteAt(f, img, l, 0) == 0 && ByteAt(f, img, l, 1) == 0 then None
      else ReadChain(f, img, ByteAt(f, img, l, 0), ByteAt(f, img, l, 1), seen + {l}, got + Payload(f, img, l))
  {
    hide ByteAt, Payload, InDisk, AllSectors, Size;
  }

  method ReadFile(f: Format, image: seq<byte>, entry: seq<byte>) returns (data: Option<seq<byte>>)
    requires |image| >= Size(f) && |entry| == 30
    ensures data == FileBytes(f, image, entry)
  {
    hide SectorsBefore, InDisk, AllSectors, Size, Payload, ReadChain, Offset;
    var track: nat, sector: nat, seen, got := entry[1], entry[2], {}, [];
    while track != 0
      invariant ReadChain(f, image, entry[1], entry[2], {}, []) == ReadChain(f, image, track, sector, seen, got)
      decreases AllSectors(f) - seen
    {
      var l := Loc(track, sector);
      ReadOnce(f, image, track, sector, seen, got);
      if !InDisk(f, l) || l in seen { return None; }
      InAllSectors(f, l);
      SectorInImage(f, l);
      var at := Offset(f, l);
      seen := seen + {l};
      track, sector := image[at], image[at + 1];
      var count := if track != 0 then 254 else sector - 1;
      if !(0 <= count <= 254) { return None; }
      PayloadIs(f, image, l, image[at + 2..at + 2 + count]);
      got := got + image[at + 2..at + 2 + count];
    }
    ReadOnce(f, image, track, sector, seen, got);
    if |seen| != Word(entry, 28) { return None; }
    return Some(got);
  }

  // ----- what a well-formed chain reads as

  /** The sectors of `chain` lie on the disk and each links to the next; the last one ends the
      chain with a length byte. */
  ghost predicate Linked(f: Format, img: seq<byte>, chain: seq<Loc>)
    requires |img| >= Size(f)
  {
    && |chain| > 0
    && (forall i | 0 <= i < |chain| :: InDisk(f, chain[i]) && LinksOn(f, img, chain, i))
  }

  ghost predicate LinksOn(f: Format, img: seq<byte>, chain: seq<Loc>, i: nat)
    requires |img| >= Size(f) && i < |chain| && InDisk(f, chain[i])
  {
    if i + 1 < |chain| then ByteAt(f, img, chain[i], 0) == chain[i + 1].track &&
      ByteAt(f, img, chain[i], 1) == chain[i + 1].sector
    else ByteAt(f, img, chain[i], 0) == 0 && ByteAt(f, img, chain[i], 1) > 0
  }

  ghost predicate Distinct<T>(s: seq<T>) {
    forall i, j | 0 <= i < j < |s| :: s[i] != s[j]
  }

  /** The payloads of chain[i..], joined. */
  ghost function Gather(f: Format, img: seq<byte>, chain: seq<Loc>, i: nat): seq<byte>
    requires |img| >= Size(f) && i <= |chain| && forall l | l in chain :: InDisk(f, l)
    decreases |chain| - i
  {
    if i == |chain| then [] else Payload(f, img, chain[i]) + Gather(f, img, chain, i + 1)
  }

  lemma ReadStep(f: Format, img: seq<byte>, l: Loc, seen: set<Loc>, got: seq<byte>)
    requires |img| >= Size(f) && InDisk(f, l) && l !in seen
    requires ByteAt(f, img, l, 0) != 0 || ByteAt(f, img, l, 1) != 0
    ensures ReadChain(f, img, l.track, l.sector, seen, got) ==
            ReadChain(f, img, ByteAt(f, img, l, 0), ByteAt(f, img, l, 1), seen + {l}, got + Payload(f, img, l))
  {
    assert l == Loc(l.track, l.sector);
  }

  /** A chain of distinct linked sectors is read to its end: all its payloads, all its blocks. */
  lemma {:induction false} ReadLinked(f: Format, img: seq<byte>, chain: seq<Loc>, i: nat, seen: set<Loc>,
      got: seq<byte>)
    requires |img| >= Size(f) && Linked(f, img, chain) && Distinct(chain) && i < |chain|
    requires |seen| == i && forall j | i <= j < |chain| :: chain[j] !in seen
    ensures ReadChain(f, img, chain[i].track, chain[i].sector, seen, got) ==
            Some(Stream(got + Gather(f, img, chain, i), |chain|))
    decreases |chain| - i
  {
    hide ReadChain, ByteAt, Payload, SectorsPerTrack;
    var l := chain[i];
    assert LinksOn(f, img, chain, i);
    ReadStep(f, img, l, seen, got);
    assert got + Gather(f, img, chain, i) == got + Payload(f, img, l) + Gather(f, img, chain, i + 1);
    if i + 1 < |chain| {
      ReadLinked(f, img, chain, i + 1, seen + {l}, got + Payload(f, img, l));
    } else {
      assert got + Payload(f, img, l) + Gather(f, img, chain, i + 1) == got + Payload(f, img, l);
      ReadEnd(f, img, ByteAt(f, img, l, 1), seen + {l}, got + Payload(f, img, l));
    }
  }

  lemma ReadEnd(f: Format, img: seq<byte>, sector: nat, seen: set<Loc>, got: seq<byte>)
    requires |img| >= Size(f)
    ensures ReadChain(f, img, 0, sector, seen, got) == Some(Stream(got, |seen|))
  {
  }

  /** Reading is local: images that agree on a chain's sectors give it the same stream. */
  lemma {:induction false} GatherSame(f: Format, a: seq<byte>, b: seq<byte>, chain: seq<Loc>, i: nat)
    requires |a| >= Size(f) && |b| >= Size(f) && i <= |chain|
    requires forall l | l in chain :: InDisk(f, l) && SameSector(f, a, b, l)
    ensures Gather(f, a, chain, i) == Gather(f, b, chain, i)
    decreases |chain| - i
  {
    if i < |chain| {
      GatherSame(f, a, b, chain, i + 1);
      SameBytes(f, a, b, chain[i]);
      assert Payload(f, a, chain[i]) == Payload(f, b, chain[i]);
    }
  }

  lemma SameBytes(f: Format, a: seq<byte>, b: seq<byte>, l: Loc)
    requires |a| >= Size(f) && |b| >= Size(f) && InDisk(f, l) && SameSector(f, a, b, l)
    ensures forall i | 0 <= i < 256 :: ByteAt(f, a, l, i) == ByteAt(f, b, l, i)
  {
    SectorInImage(f, l);
  }

  lemma LinkedSame(f: Format, a: seq<byte>, b: seq<byte>, chain: seq<Loc>)
    requires |a| >= Size(f) && |b| >= Size(f) && Linked(f, a, chain)
    requires forall l | l in chain :: InDisk(f, l) && SameSector(f, a, b, l)
    ensures Linked(f, b, chain)
  {
    forall i | 0 <= i < |chain| ensures LinksOn(f, b, chain, i) {
      SameBytes(f, a, b, chain[i]);
      assert LinksOn(f, a, chain, i);
    }
  }
}
