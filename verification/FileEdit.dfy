/** Editing a file in place through the image offsets of its bytes: `dos_file` and `fixture` of
    managed_app_fixture.py. */
module FileEdit {
  import opened Bytes
  import opened Geometry
  import opened Bam
  import opened DiskRead
  import opened Install

  const BIN: seq<byte> := [0x2E, 0x42, 0x49, 0x4E]

  /** A closed SEQ entry of that name, with or without the suffix. */
  predicate Names(entry: seq<byte>, name: seq<byte>)
    requires |entry| == 30
  {
    entry[0] == 0x81 && (NameOf(entry) == name || NameOf(entry) == name + BIN)
  }

  function SlotPos(f: Format, l: Loc, slot: nat): nat { Offset(f, l) + 2 + 32 * slot }

  ghost predicate EntriesInside(img: seq<byte>, found: seq<nat>) {
    forall i | 0 <= i < |found| :: found[i] + 30 <= |img|
  }

  function MatchesIn(f: Format, img: seq<byte>, l: Loc, name: seq<byte>, k: nat): (found: seq<nat>)
    requires |img| >= Size(f) && InDisk(f, l) && k <= 8
    ensures EntriesInside(img, found)
    decreases k
  {
    if k == 0 then [] else
      SectorInImage(f, l);
      MatchesIn(f, img, l, name, k - 1) + if Names(EntryAt(f, img, l, k - 1), name) then [SlotPos(f, l, k - 1)] else []
  }

  function WalkMatches(f: Format, img: seq<byte>, name: seq<byte>, track: nat, sector: nat, seen: set<Loc>,
      found: seq<nat>): (r: Option<seq<nat>>)
    requires |img| >= Size(f) && EntriesInside(img, found)
    ensures r.Some? ==> EntriesInside(img, r.value)
    decreases AllSectors(f) - seen
  {
    if track == 0 then Some(found)
    else if !InDisk(f, Loc(track, sector)) || Loc(track, sector) in seen then None
    else
      var l := Loc(track, sector);
      InAllSectors(f, l);
      WalkMatches(f, img, name, ByteAt(f, img, l, 0), ByteAt(f, img, l, 1), seen + {l},
        found + MatchesIn(f, img, l, name, 8))
  }

  /** The image offsets of one sector's stream bytes. */
  function Places(f: Format, img: seq<byte>, l: Loc): (p: seq<nat>)
    requires |img| >= Size(f) && InDisk(f, l)
    ensures |p| == |Payload(f, img, l)| && |p| <= 254 && forall i | 0 <= i < |p| :: p[i] == Offset(f, l) + 2 + i
  {
    seq<nat>(|Payload(f, img, l)|, i => Offset(f, l) + 2 + i)
  }

  function ChainPlaces(f: Format, img: seq<byte>, track: nat, sector: nat, seen: set<Loc>,
      got: seq<nat>): Option<seq<nat>>
    requires |img| >= Size(f)
    decreases AllSectors(f) - seen
  {
    if track == 0 then Some(got)
    else if !InDisk(f, Loc(track, sector)) || Loc(track, sector) in seen then None
    else
      var l := Loc(track, sector);
      InAllSectors(f, l);
      var next, last := ByteAt(f, img, l, 0), ByteAt(f, img, l, 1);
      if next == 0 && last == 0 then None
      else ChainPlaces(f, img, next, last, seen + {l}, got + Places(f, img, l))
  }

  datatype FileAt = FileAt(entry: nat, offsets: seq<nat>)

  /** `dos_file`. */
  function DosFile(f: Format, img: seq<byte>, name: seq<byte>): Option<FileAt>
    requires |img| >= Size(f)
  {
    var found := WalkMatches(f, img, name, FirstDir(f).track, FirstDir(f).sector, {}, []);
    if found.None? || |found.value| != 1 then None else
      var entry := found.value[0];
      var offsets := ChainPlaces(f, img, img[entry + 1], img[entry + 2], {}, []);
      if offsets.None? then None else Some(FileAt(entry, offsets.value))
  }

  datatype Edit = Edit(index: nat, value: byte)

  /** The assignments through the offset list, one after another. */
  function ApplyEdits(img: seq<byte>, offsets: seq<nat>, edits: seq<Edit>, n: nat): (r: Option<seq<byte>>)
    requires n <= |edits| && forall i | 0 <= i < |offsets| :: offsets[i] < |img|
    ensures r.Some? ==> |r.value| == |img|
    decreases n
  {
    if n == 0 then Some(img) else
      var before := ApplyEdits(img, offsets, edits, n - 1);
      if before.None? || edits[n - 1].index >= |offsets| then None
      else Some(before.value[offsets[edits[n - 1].index] := edits[n - 1].value])
  }

  // ----- the fault variants

  datatype Variant =
    | Missing | Magic | Version | Cpu | Flags | Slot | EntryPoint | ImageSize | Bss | Opcode | Peer | Outside | Vector

  /** The table of header and veneer edits; `base` is the application's page and `peer` the other slot's. */
  function Changes(v: Variant, base: byte, peer: byte): seq<Edit>
    requires base <= 0x12
  {
    match v
    case Missing => []
    case Magic => [Edit(0, 0)]
    case Version => [Edit(5, 2)]
    case Cpu => [Edit(6, 2)]
    case Flags => [Edit(7, 0)]
    case Slot => [Edit(9, peer), Edit(15, peer)]
    case EntryPoint => [Edit(14, 1)]
    case ImageSize => [Edit(10, 0), Edit(11, 0x0A)]
    case Bss => [Edit(12, 0xFF), Edit(13, 0xFF)]
    case Opcode => [Edit(16, 0x60)]
    case Peer => [Edit(17, 0), Edit(18, peer)]
    case Outside => [Edit(17, 0), Edit(18, base + 10)]
    case Vector => [Edit(17, 3), Edit(18, base)]
  }

  const XCLOCK: seq<byte> := [0x58, 0x43, 0x4C, 0x4F, 0x43, 0x4B]

  function EditsFor(name: seq<byte>, v: Variant): seq<Edit> {
    if name == XCLOCK then Changes(v, 0x02, 0x12) else Changes(v, 0x12, 0x02)
  }

  /** `fixture`. */
  function Fixture(f: Format, img: seq<byte>, name: seq<byte>, v: Variant): Option<seq<byte>>
    requires |img| >= Size(f)
  {
    var file := DosFile(f, img, name);
    if file.None? then None else
      FileInside(f, img, name);
      if v.Missing? then Some(img[file.value.entry := 0])
      else ApplyEdits(img, file.value.offsets, EditsFor(name, v), |EditsFor(name, v)|)
  }

  ghost predicate PlacesInside(img: seq<byte>, offsets: seq<nat>) {
    forall i | 0 <= i < |offsets| :: offsets[i] < |img|
  }

  lemma {:induction false} ChainInside(f: Format, img: seq<byte>, track: nat, sector: nat, seen: set<Loc>,
      got: seq<nat>)
    requires |img| >= Size(f) && PlacesInside(img, got)
    ensures var r := ChainPlaces(f, img, track, sector, seen, got); r.Some? ==> PlacesInside(img, r.value)
    decreases AllSectors(f) - seen
  {
    hide SectorsBefore, InDisk, AllSectors, Payload, ByteAt;
    var l := Loc(track, sector);
    if track != 0 && InDisk(f, l) && l !in seen {
      InAllSectors(f, l);
      SectorInImage(f, l);
      ChainInside(f, img, ByteAt(f, img, l, 0), ByteAt(f, img, l, 1), seen + {l}, got + Places(f, img, l));
    }
  }

  lemma FileInside(f: Format, img: seq<byte>, name: seq<byte>)
    requires |img| >= Size(f) && DosFile(f, img, name).Some?
    ensures var file := DosFile(f, img, name).value;
      file.entry + 30 <= |img| && forall i | 0 <= i < |file.offsets| :: file.offsets[i] < |img|
  {
    hide WalkMatches, ChainPlaces;
    var found := WalkMatches(f, img, name, FirstDir(f).track, FirstDir(f).sector, {}, []);
    var entry := found.value[0];
    ChainInside(f, img, img[entry + 1], img[entry + 2], {}, []);
  }

  // ----- as they run

  lemma MatchesStep(f: Format, img: seq<byte>, l: Loc, name: seq<byte>, n: nat)
    requires |img| >= Size(f) && InDisk(f, l) && n < 8
    ensures Offset(f, l) + 256 <= |img| && MatchesIn(f, img, l, name, 0) == []
    ensures var at := Offset(f, l) + 2 + 32 * n;
      MatchesIn(f, img, l, name, n + 1) == MatchesIn(f, img, l, name, n) + if Names(img[at..at + 30], name) then [at]
        else []
  {
    hide Size, InDisk, Offset, EntryAt, Names;
    EntryIs(f, img, l, n);
  }

  method MatchingSlots(f: Format, image: seq<byte>, l: Loc, name: seq<byte>) returns (found: seq<nat>)
    requires |image| >= Size(f) && InDisk(f, l)
    ensures found == MatchesIn(f, image, l, name, 8)
  {
    hide Size, InDisk, Offset, Stripped, MatchesIn;
    SectorInImage(f, l);
    var pos := Offset(f, l);
    found := [];
    MatchesStep(f, image, l, name, 0);
    for n := 0 to 8
      invariant found == MatchesIn(f, image, l, name, n)
    {
      MatchesStep(f, image, l, name, n);
      var at := pos + 2 + 32 * n;
      var entry := image[at..at + 30];
      if entry[0] == 0x81 {
        var own := Stripped(entry[3..19]);
        if own == name || own == name + BIN { found := found + [at]; }
      }
    }
  }

  method FindDosFile(f: Format, image: seq<byte>, name: seq<byte>) returns (file: Option<FileAt>)
    requires |image| >= Size(f)
    ensures file == DosFile(f, image, name)
  {
    hide MatchesIn, ChainPlaces, InDisk, AllSectors, Size, SectorsBefore;
    var found: seq<nat> := [];
    var seen: set<Loc> := {};
    var track: nat, sector: nat := FirstDir(f).track, FirstDir(f).sector;
    while track != 0
      invariant EntriesInside(image, found)
      invariant WalkMatches(f, image, name, FirstDir(f).track, FirstDir(f).sector, {}, []) ==
                WalkMatches(f, image, name, track, sector, seen, found)
      decreases AllSectors(f) - seen
    {
      var l := Loc(track, sector);
      if !InDisk(f, l) || l in seen { return None; }
      InAllSectors(f, l);
      SectorInImage(f, l);
      var here := MatchingSlots(f, image, l, name);
      found, seen := found + here, seen + {l};
      track, sector := image[Offset(f, l)], image[Offset(f, l) + 1];
    }
    if |found| != 1 { return None; }
    var offsets := FollowChain(f, image, image[found[0] + 1], image[found[0] + 2]);
    if offsets.None? { return None; }
    return Some(FileAt(found[0], offsets.value));
  }

  method FollowChain(f: Format, image: seq<byte>, track0: nat, sector0: nat) returns (r: Option<seq<nat>>)
    requires |image| >= Size(f)
    ensures r == ChainPlaces(f, image, track0, sector0, {}, [])
  {
    hide SectorsBefore, InDisk, AllSectors, Size, Payload;
    var offsets: seq<nat> := [];
    var seen: set<Loc> := {};
    var track: nat, sector: nat := track0, sector0;
    while track != 0
      invariant ChainPlaces(f, image, track0, sector0, {}, []) == ChainPlaces(f, image, track, sector, seen, offsets)
      decreases AllSectors(f) - seen
    {
      var l := Loc(track, sector);
      if !InDisk(f, l) || l in seen { return None; }
      InAllSectors(f, l);
      SectorInImage(f, l);
      var at := Offset(f, l);
      seen := seen + {l};
      track, sector := image[at], image[at + 1];
      var count := if track != 0 then 254 else sector - 1;
      if !(0 <= count <= 254) { return None; }
      PayloadIs(f, image, l, image[at + 2..at + 2 + count]);
      var here := Range(at + 2, count);
      assert here == Places(f, image, l);
      offsets := offsets + here;
    }
    return Some(offsets);
  }

  function Range(from: nat, n: nat): (s: seq<nat>)
    ensures |s| == n && forall i | 0 <= i < n :: s[i] == from + i
  {
    seq<nat>(n, i => from + i)
  }

  method MakeFixture(f: Format, image: seq<byte>, name: seq<byte>, v: Variant) returns (r: Option<seq<byte>>)
    requires |image| >= Size(f)
    ensures r == Fixture(f, image, name, v)
  {
    hide DosFile, Size, EditsFor;
    var file := FindDosFile(f, image, name);
    if file.None? { return None; }
    FileInside(f, image, name);
    var result := new byte[|image|](i requires 0 <= i < |image| => image[i]);
    assert result[..] == image;
    if v.Missing? {
      result[file.value.entry] := 0;
      return Some(result[..]);
    }
    var edits, offsets := EditsFor(name, v), file.value.offsets;
    for i := 0 to |edits|
      invariant ApplyEdits(image, offsets, edits, i) == Some(result[..])
    {
      if edits[i].index >= |offsets| {
        EditsStop(image, offsets, edits, i + 1, |edits|);
        return None;
      }
      result[offsets[edits[i].index]] := edits[i].value;
    }
    return Some(result[..]);
  }

  lemma {:induction false} EditsStop(img: seq<byte>, offsets: seq<nat>, edits: seq<Edit>, n: nat, k: nat)
    requires n <= k <= |edits| && (forall i | 0 <= i < |offsets| :: offsets[i] < |img|)
    requires ApplyEdits(img, offsets, edits, n).None?
    ensures ApplyEdits(img, offsets, edits, k).None?
    decreases k
  {
    if n < k { EditsStop(img, offsets, edits, n, k - 1); }
  }
}
