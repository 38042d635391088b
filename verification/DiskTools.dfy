/** The disk builders as they run: one mutable image, written in place. */
module DiskTools {
  import opened Bytes
  import opened Geometry
  import opened Bam
  import opened DiskRead
  import opened Writing
  import opened Install
  import opened Blank
  import opened Runs
  import opened Repack

  method FormatTracksInPlace(f: Format, image: array<byte>, lo: nat, hi: nat)
    requires image.Length >= Size(f) && 1 <= lo <= hi <= Tracks(f) + 1
    modifies image
    ensures image[..] == FormatTracks(f, old(image[..]), lo, hi)
  {
    hide SectorsBefore, TrackMask, CountPos, BitmapPos;
    ghost var before := image[..];
    for t := lo to hi
      invariant image[..] == FormatTracks(f, before, lo, t)
    {
      ghost var prior := image[..];
      BamInSectors(f, t);
      image[CountPos(f, t)] := SectorsPerTrack(f, t);
      Store(image, BitmapPos(f, t), TrackMask(f, SectorsPerTrack(f, t)));
      assert image[..] == FormatTrack(f, prior, t);
    }
  }

  method WriteHeaderInPlace(f: Format, image: array<byte>, l: Loc, lo: nat, bytes: seq<byte>)
    requires image.Length >= Size(f) && HeaderBytes(f, l, lo, lo + |bytes|)
    modifies image
    ensures image[..] == WriteHeader(f, old(image[..]), l, lo, bytes)
  {
    hide SectorsBefore, SectorsPerTrack, Splice, Size;
    SectorInImage(f, l);
    Store(image, Offset(f, l) + lo, bytes);
  }

  method MarkAllInPlace(f: Format, image: array<byte>, locs: seq<Loc>) returns (ok: bool)
    requires image.Length >= Size(f) && forall l | l in locs :: InDisk(f, l)
    modifies image
    ensures ok <==> MarkAll(f, old(image[..]), locs).Done?
    ensures ok ==> image[..] == MarkAll(f, old(image[..]), locs).image
  {
    hide MarkUsed, InDisk;
    ghost var before := image[..];
    for i := 0 to |locs|
      invariant MarkAll(f, before, locs[..i]) == Done(image[..])
    {
      assert locs[..i + 1][..i] == locs[..i] && locs[i] in locs;
      var error := MarkUsedInPlace(f, image, locs[i]);
      if error.Some? {
        MarkStopped(f, before, locs, i + 1);
        return false;
      }
    }
    assert locs[..|locs|] == locs;
    return true;
  }

  lemma {:induction false} MarkStopped(f: Format, img: seq<byte>, locs: seq<Loc>, i: nat)
    requires |img| >= Size(f) && i <= |locs| && forall l | l in locs :: InDisk(f, l)
    requires MarkAll(f, img, locs[..i]).Failed?
    ensures MarkAll(f, img, locs).Failed?
    decreases |locs| - i
  {
    hide MarkUsed, InDisk;
    if i == |locs| {
      assert locs[..i] == locs;
    } else {
      assert locs[..i + 1][..i] == locs[..i];
      MarkStopped(f, img, locs, i + 1);
    }
  }

  method LabelInPlace(f: Format, image: array<byte>, name: seq<byte>, id: seq<byte>)
    requires !f.D64? && LabelOk(name, id) && image.Length == Size(f) && image[..] == Zeros(Size(f))
    modifies image
    ensures image[..] == Labelled(f, name, id)
  {
    hide FormatTracks, WriteHeader;
    if f.D71? {
      var bam := Loc(18, 0);
      WriteHeaderInPlace(f, image, bam, 0, [18, 1, 0x41, 0x80]);
      FormatTracksInPlace(f, image, 1, 36);
      WriteHeaderInPlace(f, image, bam, 0x90, Label(name, 16));
      WriteHeaderInPlace(f, image, bam, 0xA2, id);
      WriteHeaderInPlace(f, image, bam, 0xA4, [0xA0, 0x32, 0x41, 0xA0]);
      FormatTracksInPlace(f, image, 36, 71);
    } else {
      WriteHeaderInPlace(f, image, Loc(40, 0), 0, [40, 3, 0x44, 0]);
      WriteHeaderInPlace(f, image, Loc(40, 0), 4, Label(name, 18) + id + [0xA0, 0x33, 0x44, 0xA0, 0xA0]);
      WriteHeaderInPlace(f, image, Loc(40, 1), 0, [40, 2, 0x44, 0xBB] + id + [0xC0, 0]);
      WriteHeaderInPlace(f, image, Loc(40, 2), 0, [0, 255, 0x44, 0xBB] + id + [0xC0, 0]);
      FormatTracksInPlace(f, image, 1, 81);
    }
  }

  /** `blank_d71` and `blank_d81`, on a zeroed image. */
  method FormatDisk(f: Format, image: array<byte>, name: seq<byte>, id: seq<byte>) returns (ok: bool)
    requires !f.D64? && image.Length == Size(f) && image[..] == Zeros(Size(f))
    modifies image
    ensures ok <==> BlankImage(f, name, id).Some?
    ensures ok ==> image[..] == BlankImage(f, name, id).value
  {
    hide MarkAll, Labelled, Reserved, ReservedSide2, Splice, Zeros, Offset, SectorsPerTrack;
    if !LabelOk(name, id) { return false; }
    LabelInPlace(f, image, name, id);
    ok := MarkAllInPlace(f, image, Reserved(f));
    if !ok { return; }
    SectorInImage(f, FirstDir(f));
    Store(image, Offset(f, FirstDir(f)), [0, 255]);
    ok := MarkAllInPlace(f, image, ReservedSide2(f));
  }

  method BootDisk(f: Format, image: array<byte>, name: seq<byte>, id: seq<byte>, sectors: seq<seq<byte>>)
      returns (ok: bool)
    requires !f.D64? && BootSectors(sectors) && image.Length == Size(f) && image[..] == Zeros(Size(f))
    modifies image
    ensures ok <==> WithBoot(f, name, id, sectors).Some?
    ensures ok ==> image[..] == WithBoot(f, name, id, sectors).value
  {
    hide BlankImage, WriteChain, BootLocations;
    ok := FormatDisk(f, image, name, id);
    if !ok { return; }
    BootLocationsFit(f, BOOT_BLOCKS);
    var locs := ListBootLocations(BOOT_BLOCKS);
    var error := WriteChainInPlace(f, image, locs, sectors);
    ok := error.None?;
  }

  /** The disk half of `build_image` in build_d71.py. */
  method BuildDisk(sectors: seq<seq<byte>>, reqs: seq<Request>, fileTracks: nat) returns (r: Option<seq<byte>>)
    requires BootSectors(sectors)
    ensures r == BuildD71(sectors, reqs, fileTracks)
  {
    hide WithBoot, Run;
    var image := new byte[Size(D71)](_ => 0);
    assert image[..] == Zeros(Size(D71));
    var ok := BootDisk(D71, image, DEFAULT_NAME, DEFAULT_ID, sectors);
    if !ok { return None; }
    var error := RunInPlace(D71, image, reqs, fileTracks);
    if error.Some? { return None; }
    return Some(image[..]);
  }

  /** `build_image` of build_d81.py. */
  method RepackDisk(source: seq<byte>) returns (r: Option<seq<byte>>)
    ensures r == Repacked(source)
  {
    hide WithBoot, Run, SourceSectors, WalkDir, FileBytes, LabelOf;
    if |source| != Size(D71) || source[..7] != BOOT_MAGIC { return None; }
    var (name, id) := LabelOf(source);
    var image := new byte[Size(D81)](_ => 0);
    assert image[..] == Zeros(Size(D81));
    var ok := BootDisk(D81, image, name, id, SourceSectors(source, BOOT_BLOCKS));
    if !ok { return None; }
    var listing := Entries(D71, source, 18, 1);
    if !listing.whole { return None; }
    var reqs := CollectRequests(source, listing.entries);
    if reqs.None? { return None; }
    var error := RunInPlace(D81, image, reqs.value, 80);
    if error.Some? { return None; }
    return Some(image[..]);
  }

  method CollectRequests(source: seq<byte>, entries: seq<seq<byte>>) returns (r: Option<seq<Request>>)
    requires |source| >= Size(D71) && forall e | e in entries :: |e| == 30
    ensures r == RequestsFor(source, entries)
  {
    hide FileBytes, Decode, NameOf;
    var reqs := [];
    for i := 0 to |entries|
      invariant RequestsFor(source, entries[..i]) == Some(reqs)
    {
      var e := entries[i];
      assert e in entries && entries[..i + 1][..i] == entries[..i];
      var data := ReadFile(D71, source, e);
      var name := Decode(NameOf(e));
      if name.None? || data.None? {
        RequestsStopped(source, entries, i + 1);
        return None;
      }
      reqs := reqs + [Request(name.value, data.value, e[0])];
    }
    assert entries[..|entries|] == entries;
    return Some(reqs);
  }

  lemma {:induction false} RequestsStopped(source: seq<byte>, entries: seq<seq<byte>>, i: nat)
    requires |source| >= Size(D71) && i <= |entries| && forall e | e in entries :: |e| == 30
    requires RequestsFor(source, entries[..i]).None?
    ensures RequestsFor(source, entries).None?
    decreases |entries| - i
  {
    hide FileBytes, Decode, NameOf;
    if i == |entries| {
      assert entries[..i] == entries;
    } else {
      assert entries[..i + 1][..i] == entries[..i];
      RequestsStopped(source, entries, i + 1);
    }
  }
}
