/** Track and sector geometry of the three CBM disk images, and where each keeps its
    block availability map (BAM). */
module Geometry {
  import opened Bytes

  datatype Format = D64 | D71 | D81
  datatype Loc = Loc(track: nat, sector: nat)

  function Tracks(f: Format): nat {
    match f case D64 => 35 case D71 => 70 case D81 => 80
  }

  function SectorsPerTrack(f: Format, track: nat): (n: nat)
    ensures 17 <= n <= 40
  {
    if f.D81? then 40 else
      var sideTrack := if track <= 35 then track else track - 35;
      if sideTrack <= 17 then 21 else if sideTrack <= 24 then 19 else if sideTrack <= 30 then 18 else 17
  }

  predicate InDisk(f: Format, l: Loc) {
    1 <= l.track <= Tracks(f) && l.sector < SectorsPerTrack(f, l.track)
  }

  /** Number of sectors on the tracks before `track`. */
  function SectorsBefore(f: Format, track: nat): nat
    decreases track
  {
    if track <= 1 then 0
    else if f.D81? then (track - 1) * 40
    else SectorsBefore(f, track - 1) + SectorsPerTrack(f, track - 1)
  }

  function Offset(f: Format, l: Loc): nat {
    (SectorsBefore(f, l.track) + l.sector) * 256
  }

  function Size(f: Format): nat {
    match f case D64 => 174848 case D71 => 349696 case D81 => 819200
  }

  /** The zones of one side: 17 tracks of 21 sectors, 7 of 19, 6 of 18 and 5 of 17. */
  function SideBefore(track: nat): int {
    if track <= 18 then 21 * (track - 1) else if track <= 25 then 357 + 19 * (track - 18)
    else if track <= 31 then 490 + 18 * (track - 25) else 598 + 17 * (track - 31)
  }

  lemma {:induction false} BeforeClosedForm(f: Format, track: nat)
    requires 1 <= track <= 71
    requires !f.D81?
    ensures SectorsBefore(f, track) ==
            if track <= 35 then SideBefore(track) else 683 + SideBefore(track - 35)
    decreases track
  {
    if track > 1 { BeforeClosedForm(f, track - 1); }
  }

  lemma {:induction false} TracksInOrder(f: Format, t: nat, u: nat)
    requires 1 <= t < u
    ensures SectorsBefore(f, t) + SectorsPerTrack(f, t) <= SectorsBefore(f, u)
    decreases u
  {
    if t + 1 < u { TracksInOrder(f, t, u - 1); }
  }

  /** The image sizes are exactly the sum of the tracks, and every sector lies inside. */
  lemma SectorInImage(f: Format, l: Loc)
    requires InDisk(f, l)
    ensures Offset(f, l) + 256 <= Size(f)
    ensures Size(f) == SectorsBefore(f, Tracks(f) + 1) * 256
  {
    TracksInOrder(f, l.track, Tracks(f) + 1);
    if !f.D81? { BeforeClosedForm(f, Tracks(f) + 1); }
  }

  /** Two different sectors never share a byte of the image. */
  lemma SectorsDisjoint(f: Format, l: Loc, m: Loc)
    requires InDisk(f, l) && InDisk(f, m) && l != m
    ensures Offset(f, l) + 256 <= Offset(f, m) || Offset(f, m) + 256 <= Offset(f, l)
  {
    if l.track < m.track { TracksInOrder(f, l.track, m.track); }
    if m.track < l.track { TracksInOrder(f, m.track, l.track); }
  }

  // ----- where the BAM lives

  function DirTrack(f: Format): nat {
    if f.D81? then 40 else 18
  }

  function FirstDir(f: Format): (l: Loc)
    ensures InDisk(f, l)
  {
    if f.D81? then Loc(40, 3) else Loc(18, 1)
  }

  predicate IsBam(f: Format, l: Loc) {
    match f
    case D64 => l == Loc(18, 0)
    case D71 => l == Loc(18, 0) || (l.track == 53 && l.sector < 19)
    case D81 => l.track == 40 && l.sector < 3
  }

  /** The sector holding a track's free count, and the one holding its bitmap. */
  function CountSector(f: Format, track: nat): Loc {
    if f.D81? then (if track <= 40 then Loc(40, 1) else Loc(40, 2)) else Loc(18, 0)
  }

  function BitmapSector(f: Format, track: nat): Loc {
    if f.D81? then CountSector(f, track) else if track <= 35 then Loc(18, 0) else Loc(53, 0)
  }

  function BitmapBytes(f: Format): nat {
    if f.D81? then 5 else 3
  }

  function CountInSector(f: Format, track: nat): nat
    requires 1 <= track
  {
    if f.D81? then 16 + (track - 1) % 40 * 6
    else if track <= 35 then 4 + (track - 1) * 4
    else 0xDD + (track - 36)
  }

  function BitmapInSector(f: Format, track: nat): nat
    requires 1 <= track
  {
    if f.D81? || track <= 35 then CountInSector(f, track) + 1 else (track - 36) * 3
  }

  function CountPos(f: Format, track: nat): nat
    requires 1 <= track
  {
    Offset(f, CountSector(f, track)) + CountInSector(f, track)
  }

  function BitmapPos(f: Format, track: nat): nat
    requires 1 <= track
  {
    Offset(f, BitmapSector(f, track)) + BitmapInSector(f, track)
  }

  /** Counts and bitmaps stay inside their BAM sectors. */
  lemma BamInSectors(f: Format, t: nat)
    requires 1 <= t <= Tracks(f)
    ensures IsBam(f, CountSector(f, t)) && InDisk(f, CountSector(f, t))
    ensures IsBam(f, BitmapSector(f, t)) && InDisk(f, BitmapSector(f, t))
    ensures CountInSector(f, t) < 256 && BitmapInSector(f, t) + BitmapBytes(f) <= 256
    ensures CountPos(f, t) < Size(f) && BitmapPos(f, t) + BitmapBytes(f) <= Size(f)
  {
    SectorInImage(f, CountSector(f, t));
    SectorInImage(f, BitmapSector(f, t));
  }

  lemma BamInSectorDisjoint(f: Format, t: nat, u: nat)
    requires 1 <= t <= Tracks(f) && 1 <= u <= Tracks(f)
    ensures t != u && CountSector(f, t) == CountSector(f, u) ==> CountInSector(f, t) != CountInSector(f, u)
    ensures CountSector(f, t) == BitmapSector(f, u) ==>
      || CountInSector(f, t) < BitmapInSector(f, u)
      || BitmapInSector(f, u) + BitmapBytes(f) <= CountInSector(f, t)
    ensures t != u && BitmapSector(f, t) == BitmapSector(f, u) ==>
      || BitmapInSector(f, t) + BitmapBytes(f) <= BitmapInSector(f, u)
      || BitmapInSector(f, u) + BitmapBytes(f) <= BitmapInSector(f, t)
  {
    hide SectorsPerTrack, SectorsBefore;
    if f.D81? {
      assert (t - 1) % 40 == (if t <= 40 then t - 1 else t - 41) && (u - 1) % 40 == (if u <= 40 then u - 1 else u - 41);
    }
  }

  /** No two tracks share a count or bitmap byte, and no count byte is a bitmap byte. */
  lemma BamDisjoint(f: Format, t: nat, u: nat)
    requires 1 <= t <= Tracks(f) && 1 <= u <= Tracks(f)
    ensures t != u ==> CountPos(f, t) != CountPos(f, u)
    ensures CountPos(f, t) < BitmapPos(f, u) || BitmapPos(f, u) + BitmapBytes(f) <= CountPos(f, t)
    ensures t != u ==> || BitmapPos(f, t) + BitmapBytes(f) <= BitmapPos(f, u)
                       || BitmapPos(f, u) + BitmapBytes(f) <= BitmapPos(f, t)
  {
    hide SectorsBefore, CountInSector, BitmapInSector, CountSector, BitmapSector;
    BamInSectorDisjoint(f, t, u);
    BamInSectors(f, t);
    BamInSectors(f, u);
    var c, d := CountSector(f, t), CountSector(f, u);
    var a, b := BitmapSector(f, t), BitmapSector(f, u);
    if c != d { SectorsDisjoint(f, c, d); }
    if c != b { SectorsDisjoint(f, c, b); }
    if a != b { SectorsDisjoint(f, a, b); }
  }
}
