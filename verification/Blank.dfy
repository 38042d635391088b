/** Freshly formatted disks: `blank_d71` and `blank_d81`. */
module Blank {
  import opened Bytes
  import opened Geometry
  import opened Bam
  import opened DiskRead
  import opened Inventory
  import opened Writing

  /** `((1 << n) - 1).to_bytes(...)` for a track of n sectors. */
  function TrackMask(f: Format, n: nat): (s: seq<byte>)
    requires if f.D81? then n == 40 else 17 <= n <= 21
    ensures |s| == BitmapBytes(f)
  {
    if f.D81? then [255, 255, 255, 255, 255] else
      assert Pow2(1) == 2 && Pow2(2) == 4 && Pow2(3) == 8 && Pow2(4) == 16 && Pow2(5) == 32;
      [255, 255, Pow2(n - 16) - 1]
  }

  function FormatTrack(f: Format, img: seq<byte>, t: nat): (r: seq<byte>)
    requires |img| >= Size(f) && 1 <= t <= Tracks(f)
    ensures |r| == |img|
  {
    BamInSectors(f, t);
    Splice(img[CountPos(f, t) := SectorsPerTrack(f, t)], BitmapPos(f, t), TrackMask(f, SectorsPerTrack(f, t)))
  }

  /** Tracks lo..hi-1 get full counts and full bitmaps. */
  function FormatTracks(f: Format, img: seq<byte>, lo: nat, hi: nat): (r: seq<byte>)
    requires |img| >= Size(f) && 1 <= lo <= hi <= Tracks(f) + 1
    ensures |r| == |img|
    decreases hi
  {
    if lo == hi then img else FormatTrack(f, FormatTracks(f, img, lo, hi - 1), hi - 1)
  }

  // ----- a formatted track is sound and entirely free

  function BitmapByte(f: Format, img: seq<byte>, t: nat, j: nat): byte
    requires |img| >= Size(f) && 1 <= t <= Tracks(f) && j < BitmapBytes(f)
  {
    BamInSectors(f, t);
    img[BitmapPos(f, t) + j]
  }

  ghost predicate Formatted(f: Format, img: seq<byte>, t: nat)
    requires |img| >= Size(f) && 1 <= t <= Tracks(f)
  {
    && TrackCount(f, img, t) == SectorsPerTrack(f, t)
    && forall j | 0 <= j < BitmapBytes(f) :: BitmapByte(f, img, t, j) == TrackMask(f, SectorsPerTrack(f, t))[j]
  }

  lemma {:induction false} LowMask(m: nat, k: nat)
    ensures TestBit(Pow2(m) - 1, k) <==> k < m
    decreases k
  {
    if m > 0 {
      if k > 0 { LowMask(m - 1, k - 1); }
    } else if k > 0 {
      LowMask(0, k - 1);
    }
  }

  lemma MaskBit(f: Format, n: nat, s: nat)
    requires (if f.D81? then n == 40 else 17 <= n <= 21) && s < 8 * BitmapBytes(f)
    ensures TestBit(TrackMask(f, n)[s / 8], s % 8) <==> s < n
  {
    assert Pow2(4) == 16 && Pow2(8) == 16 * Pow2(4) by { assert Pow2(5) == 32 && Pow2(6) == 64 && Pow2(7) == 128; }
    LowMask(8, s % 8);
    if !f.D81? { LowMask(n - 16, s % 8); }
  }

  lemma FormattedBit(f: Format, img: seq<byte>, t: nat, s: nat)
    requires |img| >= Size(f) && 1 <= t <= Tracks(f) && Formatted(f, img, t) && s < 8 * BitmapBytes(f)
    requires BitmapPos(f, t) + BitmapBytes(f) <= |img|
    ensures TestBit(img[BitmapPos(f, t) + s / 8], s % 8) <==> s < SectorsPerTrack(f, t)
  {
    hide BitmapPos, TrackMask, TestBit, TrackCount;
    MaskBit(f, SectorsPerTrack(f, t), s);
    assert BitmapByte(f, img, t, s / 8) == TrackMask(f, SectorsPerTrack(f, t))[s / 8];
  }

  lemma {:induction false} FormattedBits(f: Format, img: seq<byte>, t: nat, n: nat)
    requires |img| >= Size(f) && 1 <= t <= Tracks(f) && Formatted(f, img, t) && n <= 8 * BitmapBytes(f)
    requires BitmapPos(f, t) + BitmapBytes(f) <= |img|
    ensures CountBits(img, BitmapPos(f, t), n) == if n <= SectorsPerTrack(f, t) then n else SectorsPerTrack(f, t)
    decreases n
  {
    hide BitmapPos, TestBit, TrackCount, Formatted, SectorsPerTrack;
    if n > 0 {
      FormattedBits(f, img, t, n - 1);
      FormattedBit(f, img, t, n - 1);
    }
  }

  lemma FormattedSound(f: Format, img: seq<byte>, t: nat)
    requires |img| >= Size(f) && 1 <= t <= Tracks(f) && Formatted(f, img, t)
    ensures TrackSound(f, img, t)
    ensures forall s | 0 <= s < SectorsPerTrack(f, t) :: IsFree(f, img, Loc(t, s))
  {
    hide BitmapPos, TrackMask, TestBit, TrackCount, CountBits, CountPos, CountSector, BitmapSector, SectorsBefore;
    BamInSectors(f, t);
    FormattedBits(f, img, t, 8 * BitmapBytes(f));
    forall s | 0 <= s < SectorsPerTrack(f, t) ensures IsFree(f, img, Loc(t, s)) {
      BitPosInImage(f, Loc(t, s));
      FormattedBit(f, img, t, s);
    }
  }

  /** b agrees with a on the BAM bytes of track t. */
  ghost predicate SameTrack(f: Format, a: seq<byte>, b: seq<byte>, t: nat)
    requires |a| >= Size(f) && |b| >= Size(f) && 1 <= t <= Tracks(f)
  {
    && TrackCount(f, a, t) == TrackCount(f, b, t)
    && forall j | 0 <= j < BitmapBytes(f) :: BitmapByte(f, a, t, j) == BitmapByte(f, b, t, j)
  }

  lemma FormatOne(f: Format, img: seq<byte>, t: nat, u: nat)
    requires |img| >= Size(f) && 1 <= t <= Tracks(f) && 1 <= u <= Tracks(f)
    ensures t == u ==> Formatted(f, FormatTrack(f, img, t), u)
    ensures t != u ==> SameTrack(f, img, FormatTrack(f, img, t), u)
  {
    hide BitmapPos, CountPos, TrackMask, SectorsPerTrack;
    BamInSectors(f, t);
    BamInSectors(f, u);
    BamDisjoint(f, t, u);
    BamDisjoint(f, u, t);
  }

  lemma KeepFormatted(f: Format, a: seq<byte>, b: seq<byte>, t: nat)
    requires |a| >= Size(f) && |b| >= Size(f) && 1 <= t <= Tracks(f)
    requires Formatted(f, a, t) && SameTrack(f, a, b, t)
    ensures Formatted(f, b, t)
  {
  }

  lemma {:induction false} FormatRange(f: Format, img: seq<byte>, lo: nat, hi: nat, u: nat)
    requires |img| >= Size(f) && 1 <= lo <= hi <= Tracks(f) + 1 && 1 <= u <= Tracks(f)
    ensures lo <= u < hi ==> Formatted(f, FormatTracks(f, img, lo, hi), u)
    ensures !(lo <= u < hi) && Formatted(f, img, u) ==> Formatted(f, FormatTracks(f, img, lo, hi), u)
    decreases hi
  {
    hide FormatTrack, Formatted, SameTrack, SectorsPerTrack;
    if lo < hi {
      FormatRange(f, img, lo, hi - 1, u);
      var a := FormatTracks(f, img, lo, hi - 1);
      FormatOne(f, a, hi - 1, u);
      if u != hi - 1 && Formatted(f, a, u) { KeepFormatted(f, a, FormatTrack(f, a, hi - 1), u); }
    }
  }

  /** The header bytes of the BAM sectors, which hold no count and no bitmap. */
  predicate HeaderBytes(f: Format, l: Loc, lo: nat, hi: nat) {
    lo <= hi <= 256 && InDisk(f, l) &&
    if f.D81? then l == Loc(40, 0) || (l.track == 40 && 1 <= l.sector < 3 && hi <= 16)
    else l == Loc(18, 0) && (hi <= 4 || (0x90 <= lo && hi <= 0xDD))
  }

  function WriteHeader(f: Format, img: seq<byte>, l: Loc, lo: nat, bytes: seq<byte>): (r: seq<byte>)
    requires |img| >= Size(f) && HeaderBytes(f, l, lo, lo + |bytes|)
    ensures |r| == |img|
  {
    SectorInImage(f, l);
    Splice(img, Offset(f, l) + lo, bytes)
  }

  lemma HeaderApart(f: Format, img: seq<byte>, l: Loc, lo: nat, bytes: seq<byte>, t: nat)
    requires |img| >= Size(f) && HeaderBytes(f, l, lo, lo + |bytes|) && 1 <= t <= Tracks(f)
    ensures SameTrack(f, img, WriteHeader(f, img, l, lo, bytes), t)
  {
    hide SectorsBefore;
    SectorInImage(f, l);
    BamInSectors(f, t);
    var c, m := CountSector(f, t), BitmapSector(f, t);
    if c != l { SectorsDisjoint(f, c, l); }
    if m != l { SectorsDisjoint(f, m, l); }
  }

  lemma KeepsFormatted(f: Format, img: seq<byte>, l: Loc, lo: nat, bytes: seq<byte>, t: nat)
    requires |img| >= Size(f) && HeaderBytes(f, l, lo, lo + |bytes|) && 1 <= t <= Tracks(f)
    ensures Formatted(f, img, t) ==> Formatted(f, WriteHeader(f, img, l, lo, bytes), t)
  {
    hide Formatted, SameTrack, WriteHeader;
    HeaderApart(f, img, l, lo, bytes, t);
    if Formatted(f, img, t) { KeepFormatted(f, img, WriteHeader(f, img, l, lo, bytes), t); }
  }

  // ----- marking a list of sectors

  function MarkAll(f: Format, img: seq<byte>, locs: seq<Loc>): (o: Outcome)
    requires |img| >= Size(f) && forall l | l in locs :: InDisk(f, l)
    ensures |o.image| == |img|
    decreases |locs|
  {
    if locs == [] then Done(img) else
      var o := MarkAll(f, img, locs[..|locs| - 1]);
      if o.Failed? then o else MarkUsed(f, o.image, locs[|locs| - 1])
  }

  lemma {:induction false} MarkAllEffect(f: Format, img: seq<byte>, locs: seq<Loc>)
    requires BamSound(f, img) && forall l | l in locs :: InDisk(f, l)
    ensures var o := MarkAll(f, img, locs);
      && o.Done? && BamSound(f, o.image)
      && (forall m :: IsFree(f, o.image, m) <==> IsFree(f, img, m) && m !in locs)
      && (forall m | InDisk(f, m) && !IsBam(f, m) :: SameSector(f, img, o.image, m))
  {
    hide MarkUsed, TrackSound, IsFree, IsBam, InDisk, SectorsBefore, SameSector, Size;
    if locs == [] {
      forall m | InDisk(f, m) ensures SameSector(f, img, img, m) { Unchanged(f, img, m); }
    } else {
      var rest, l := locs[..|locs| - 1], locs[|locs| - 1];
      assert locs == rest + [l];
      MarkAllEffect(f, img, rest);
      var a := MarkAll(f, img, rest).image;
      var b := MarkUsed(f, a, l).image;
      MarkUsedSteps(f, a, l);
      MarkUsedKeepsSound(f, a, l);
      forall m ensures IsFree(f, b, m) <==> IsFree(f, img, m) && m !in locs { MarkUsedFreedom(f, a, l, m); }
      forall m | InDisk(f, m) && !IsBam(f, m) ensures SameSector(f, img, b, m) {
        MarkUsedFrame(f, a, l, m);
        SameTwice(f, img, a, b, m);
      }
    }
  }

  lemma Unchanged(f: Format, img: seq<byte>, m: Loc)
    requires |img| >= Size(f) && InDisk(f, m)
    ensures SameSector(f, img, img, m)
  {
  }

  // ----- the blank images

  /** Track t's sectors 0..n-1. */
  function SectorsOf(t: nat, n: nat): (s: seq<Loc>)
    ensures |s| == n && forall l :: l in s <==> l.track == t && l.sector < n
    decreases n
  {
    if n == 0 then [] else SectorsOf(t, n - 1) + [Loc(t, n - 1)]
  }

  function Label(name: seq<byte>, width: nat): (s: seq<byte>)
    requires |name| <= width
    ensures |s| == width
  {
    name + seq(width - |name|, _ => 0xA0)
  }

  predicate LabelOk(name: seq<byte>, id: seq<byte>) {
    1 <= |name| <= 16 && |id| == 2
  }

  /** The header bytes and full bitmaps, before any sector is reserved. */
  function Labelled(f: Format, name: seq<byte>, id: seq<byte>): (img: seq<byte>)
    requires !f.D64? && LabelOk(name, id)
    ensures |img| == Size(f)
  {
    var zeros := Zeros(Size(f));
    if f.D71? then
      var bam := Loc(18, 0);
      var front := FormatTracks(f, WriteHeader(f, zeros, bam, 0, [18, 1, 0x41, 0x80]), 1, 36);
      var named := WriteHeader(f, WriteHeader(f, front, bam, 0x90, Label(name, 16)), bam, 0xA2, id);
      FormatTracks(f, WriteHeader(f, named, bam, 0xA4, [0xA0, 0x32, 0x41, 0xA0]), 36, 71)
    else
      var head := WriteHeader(f, zeros, Loc(40, 0), 0, [40, 3, 0x44, 0]);
      var named := WriteHeader(f, head, Loc(40, 0), 4, Label(name, 18) + id + [0xA0, 0x33, 0x44, 0xA0, 0xA0]);
      var half := WriteHeader(f, named, Loc(40, 1), 0, [40, 2, 0x44, 0xBB] + id + [0xC0, 0]);
      FormatTracks(f, WriteHeader(f, half, Loc(40, 2), 0, [0, 255, 0x44, 0xBB] + id + [0xC0, 0]), 1, 81)
  }

  function Reserved(f: Format): (locs: seq<Loc>)
    requires !f.D64?
    ensures forall l | l in locs :: InDisk(f, l)
  {
    if f.D71? then [Loc(18, 0), Loc(18, 1)] else SectorsOf(40, 4)
  }

  function ReservedSide2(f: Format): (locs: seq<Loc>)
    requires !f.D64?
    ensures forall l | l in locs :: InDisk(f, l)
  {
    if f.D71? then SectorsOf(53, 19) else []
  }

  function EndDirectory(f: Format, img: seq<byte>): (r: seq<byte>)
    requires |img| >= Size(f)
    ensures |r| == |img|
  {
    SectorInImage(f, FirstDir(f));
    Splice(img, Offset(f, FirstDir(f)), [0, 255])
  }

  /** `blank_d71` and `blank_d81`; None stands for the ValueError on a bad label. */
  function BlankImage(f: Format, name: seq<byte>, id: seq<byte>): (r: Option<seq<byte>>)
    requires !f.D64?
    ensures r.Some? ==> |r.value| == Size(f)
  {
    if !LabelOk(name, id) then None else
    match MarkAll(f, Labelled(f, name, id), Reserved(f))
    case Failed(_, _) => None
    case Done(marked) =>
      match MarkAll(f, EndDirectory(f, marked), ReservedSide2(f))
      case Failed(_, _) => None
      case Done(img) => Some(img)
  }

  // ----- a blank image is a sound disk without files

  lemma HeaderElsewhere(f: Format, img: seq<byte>, l: Loc, lo: nat, bytes: seq<byte>, m: Loc)
    requires |img| >= Size(f) && HeaderBytes(f, l, lo, lo + |bytes|) && InDisk(f, m) && m != l
    ensures SameSector(f, img, WriteHeader(f, img, l, lo, bytes), m)
  {
    hide SectorsBefore;
    SectorInImage(f, l);
    SectorInImage(f, m);
    SectorsDisjoint(f, l, m);
  }

  lemma {:induction false} FormatElsewhere(f: Format, img: seq<byte>, lo: nat, hi: nat, m: Loc)
    requires |img| >= Size(f) && 1 <= lo <= hi <= Tracks(f) + 1 && InDisk(f, m) && !IsBam(f, m)
    ensures SameSector(f, img, FormatTracks(f, img, lo, hi), m)
    decreases hi
  {
    hide SectorsBefore, FormatTrack, SameSector, IsBam;
    if lo == hi {
      Unchanged(f, img, m);
    } else {
      FormatElsewhere(f, img, lo, hi - 1, m);
      FormatOutside(f, FormatTracks(f, img, lo, hi - 1), hi - 1, m);
      SameTwice(f, img, FormatTracks(f, img, lo, hi - 1), FormatTracks(f, img, lo, hi), m);
    }
  }

  lemma FormatOutside(f: Format, img: seq<byte>, t: nat, m: Loc)
    requires |img| >= Size(f) && 1 <= t <= Tracks(f) && InDisk(f, m) && !IsBam(f, m)
    ensures SameSector(f, img, FormatTrack(f, img, t), m)
  {
    hide SectorsBefore, IsBam, TrackMask, SectorsPerTrack, CountInSector, BitmapInSector;
    BamInSectors(f, t);
    SectorInImage(f, m);
    SectorsDisjoint(f, CountSector(f, t), m);
    SectorsDisjoint(f, BitmapSector(f, t), m);
  }

  lemma LabelledFormatted(f: Format, name: seq<byte>, id: seq<byte>, t: nat)
    requires !f.D64? && LabelOk(name, id) && 1 <= t <= Tracks(f)
    ensures Formatted(f, Labelled(f, name, id), t)
  {
    hide Formatted, WriteHeader, FormatTracks;
    var zeros := Zeros(Size(f));
    if f.D71? {
      var bam := Loc(18, 0);
      var a := WriteHeader(f, zeros, bam, 0, [18, 1, 0x41, 0x80]);
      var b := FormatTracks(f, a, 1, 36);
      var c := WriteHeader(f, b, bam, 0x90, Label(name, 16));
      var d := WriteHeader(f, c, bam, 0xA2, id);
      var e := WriteHeader(f, d, bam, 0xA4, [0xA0, 0x32, 0x41, 0xA0]);
      FormatRange(f, a, 1, 36, t);
      KeepsFormatted(f, b, bam, 0x90, Label(name, 16), t);
      KeepsFormatted(f, c, bam, 0xA2, id, t);
      KeepsFormatted(f, d, bam, 0xA4, [0xA0, 0x32, 0x41, 0xA0], t);
      FormatRange(f, e, 36, 71, t);
    } else {
      var a := WriteHeader(f, zeros, Loc(40, 0), 0, [40, 3, 0x44, 0]);
      var b := WriteHeader(f, a, Loc(40, 0), 4, Label(name, 18) + id + [0xA0, 0x33, 0x44, 0xA0, 0xA0]);
      var c := WriteHeader(f, b, Loc(40, 1), 0, [40, 2, 0x44, 0xBB] + id + [0xC0, 0]);
      FormatRange(f, WriteHeader(f, c, Loc(40, 2), 0, [0, 255, 0x44, 0xBB] + id + [0xC0, 0]), 1, 81, t);
    }
  }

  /** No sector outside the BAM is written before the directory is ended. */
  lemma LabelledElsewhere(f: Format, name: seq<byte>, id: seq<byte>, m: Loc)
    requires !f.D64? && LabelOk(name, id) && InDisk(f, m) && !IsBam(f, m)
    ensures SameSector(f, Zeros(Size(f)), Labelled(f, name, id), m)
  {
    hide SameSector, WriteHeader, FormatTracks;
    var zeros := Zeros(Size(f));
    if f.D71? {
      var bam := Loc(18, 0);
      var a := WriteHeader(f, zeros, bam, 0, [18, 1, 0x41, 0x80]);
      var b := FormatTracks(f, a, 1, 36);
      var c := WriteHeader(f, b, bam, 0x90, Label(name, 16));
      var d := WriteHeader(f, c, bam, 0xA2, id);
      var e := WriteHeader(f, d, bam, 0xA4, [0xA0, 0x32, 0x41, 0xA0]);
      HeaderElsewhere(f, zeros, bam, 0, [18, 1, 0x41, 0x80], m);
      FormatElsewhere(f, a, 1, 36, m);
      HeaderElsewhere(f, b, bam, 0x90, Label(name, 16), m);
      HeaderElsewhere(f, c, bam, 0xA2, id, m);
      HeaderElsewhere(f, d, bam, 0xA4, [0xA0, 0x32, 0x41, 0xA0], m);
      FormatElsewhere(f, e, 36, 71, m);
      SameTwice(f, zeros, a, b, m);
      SameTwice(f, zeros, b, c, m);
      SameTwice(f, zeros, c, d, m);
      SameTwice(f, zeros, d, e, m);
      SameTwice(f, zeros, e, FormatTracks(f, e, 36, 71), m);
    } else {
      var tail := [0xA0, 0x33, 0x44, 0xA0, 0xA0];
      var a := WriteHeader(f, zeros, Loc(40, 0), 0, [40, 3, 0x44, 0]);
      var b := WriteHeader(f, a, Loc(40, 0), 4, Label(name, 18) + id + tail);
      var c := WriteHeader(f, b, Loc(40, 1), 0, [40, 2, 0x44, 0xBB] + id + [0xC0, 0]);
      var d := WriteHeader(f, c, Loc(40, 2), 0, [0, 255, 0x44, 0xBB] + id + [0xC0, 0]);
      HeaderElsewhere(f, zeros, Loc(40, 0), 0, [40, 3, 0x44, 0], m);
      HeaderElsewhere(f, a, Loc(40, 0), 4, Label(name, 18) + id + tail, m);
      HeaderElsewhere(f, b, Loc(40, 1), 0, [40, 2, 0x44, 0xBB] + id + [0xC0, 0], m);
      HeaderElsewhere(f, c, Loc(40, 2), 0, [0, 255, 0x44, 0xBB] + id + [0xC0, 0], m);
      FormatElsewhere(f, d, 1, 81, m);
      SameTwice(f, zeros, a, b, m);
      SameTwice(f, zeros, b, c, m);
      SameTwice(f, zeros, c, d, m);
      SameTwice(f, zeros, d, FormatTracks(f, d, 1, 81), m);
    }
  }

  ghost function BlankInventory(f: Format): Inventory {
    Inventory(map l | l in AllSectors(f) && (IsBam(f, l) || l == FirstDir(f)) ::
      if IsBam(f, l) then BamBlock else DirBlock(0),
              [FirstDir(f)], map[])
  }

  /** A blank image exists for every proper label, satisfies the disk invariant with no file, and
      only its BAM sectors and first directory sector are used. */
  lemma BlankIsValid(f: Format, name: seq<byte>, id: seq<byte>)
    requires !f.D64? && LabelOk(name, id)
    ensures var r := BlankImage(f, name, id);
      && r.Some? && Valid(f, r.value, BlankInventory(f))
      && forall l | InDisk(f, l) :: IsFree(f, r.value, l) <==> !IsBam(f, l) && l != FirstDir(f)
  {
    hide Labelled, IsFree, TrackSound, SectorsBefore, SameSector, MarkAll, SectorsPerTrack, EntryAt;
    var a := Labelled(f, name, id);
    forall t | 1 <= t <= Tracks(f)
      ensures TrackSound(f, a, t) && forall s | 0 <= s < SectorsPerTrack(f, t) :: IsFree(f, a, Loc(t, s))
    {
      LabelledFormatted(f, name, id, t);
      FormattedSound(f, a, t);
    }
    forall l | InDisk(f, l) ensures IsFree(f, a, l) { assert IsFree(f, a, Loc(l.track, l.sector)); }
    LabelledElsewhere(f, name, id, FirstDir(f));
    MarkAllEffect(f, a, Reserved(f));
    var b := MarkAll(f, a, Reserved(f)).image;
    EndDirectoryEffect(f, b);
    var c := EndDirectory(f, b);
    MarkAllEffect(f, c, ReservedSide2(f));
    var d := MarkAll(f, c, ReservedSide2(f)).image;
    SameTwice(f, Zeros(Size(f)), a, b, FirstDir(f));
    BlankDirectory(f, b, c, d);
    BlankUsed(f);
    forall l | InDisk(f, l) ensures IsFree(f, d, l) <==> !IsBam(f, l) && l != FirstDir(f) {}
    BlankAssembled(f, d);
  }

  lemma BlankUsed(f: Format)
    requires !f.D64?
    ensures forall l | InDisk(f, l) :: l in Reserved(f) || l in ReservedSide2(f) <==> IsBam(f, l) || l == FirstDir(f)
  {
  }

  lemma EndDirectoryEffect(f: Format, img: seq<byte>)
    requires BamSound(f, img)
    ensures var r := EndDirectory(f, img);
      && BamSound(f, r) && (forall m :: IsFree(f, r, m) <==> IsFree(f, img, m))
      && ByteAt(f, r, FirstDir(f), 0) == 0
      && forall i | 2 <= i < 256 :: ByteAt(f, r, FirstDir(f), i) == ByteAt(f, img, FirstDir(f), i)
  {
    hide SectorsBefore, IsFree;
    SectorInImage(f, FirstDir(f));
    WriteFrame(f, img, EndDirectory(f, img), FirstDir(f));
  }

  lemma BlankDirectory(f: Format, b: seq<byte>, c: seq<byte>, d: seq<byte>)
    requires |b| == Size(f) && |c| == Size(f) && |d| == Size(f)
    requires SameSector(f, Zeros(Size(f)), b, FirstDir(f)) && SameSector(f, c, d, FirstDir(f))
    requires ByteAt(f, c, FirstDir(f), 0) == 0
    requires forall i | 2 <= i < 256 :: ByteAt(f, c, FirstDir(f), i) == ByteAt(f, b, FirstDir(f), i)
    ensures ByteAt(f, d, FirstDir(f), 0) == 0
    ensures forall k | 0 <= k < 8 :: EntryAt(f, d, FirstDir(f), k)[0] == 0
  {
    hide SectorsBefore;
    var l := FirstDir(f);
    SameBytes(f, Zeros(Size(f)), b, l);
    SameBytes(f, c, d, l);
    SectorInImage(f, l);
    forall k | 0 <= k < 8 ensures EntryAt(f, d, l, k)[0] == 0 {
      assert ByteAt(f, d, l, 2 + 32 * k) == ByteAt(f, Zeros(Size(f)), l, 2 + 32 * k);
    }
  }

  lemma BlankAssembled(f: Format, d: seq<byte>)
    requires !f.D64? && |d| == Size(f) && BamSound(f, d)
    requires forall l | InDisk(f, l) :: IsFree(f, d, l) <==> !IsBam(f, l) && l != FirstDir(f)
    requires ByteAt(f, d, FirstDir(f), 0) == 0
    requires forall k | 0 <= k < 8 :: EntryAt(f, d, FirstDir(f), k)[0] == 0
    ensures Valid(f, d, BlankInventory(f))
  {
    hide SectorsBefore, IsFree, TrackSound, EntryAt, SectorsPerTrack;
    var inv := BlankInventory(f);
    forall l | InDisk(f, l) ensures l in AllSectors(f) { InAllSectors(f, l); }
    forall l | l in AllSectors(f) ensures InDisk(f, l) {}
    forall slot | 0 <= slot < 8 ensures SlotSound(f, d, inv, slot) {
      assert SlotEntry(f, d, inv.dir, slot) == EntryAt(f, d, FirstDir(f), slot);
    }
    assert DirLink(f, d, inv, 0);
  }
}
