/** Where everything lies in the image file, in plain numbers: sector offsets, and the count and
    bitmap of every track. */
module DiskLayout {
  import opened Bytes
  import opened Geometry
  import opened Bam

  /** The offset of every sector, zone by zone, and the sizes of the three images. */
  lemma OffsetsAre(f: Format, l: Loc)
    requires InDisk(f, l)
    ensures var t := if f.D71? && l.track > 35 then l.track - 35 else l.track;
      var side := if t < l.track then 174848 else 0;
      && (f.D81? ==> Offset(f, l) == 256 * (40 * (l.track - 1) + l.sector))
      && (!f.D81? && t <= 17 ==> Offset(f, l) == side + 256 * (21 * (t - 1) + l.sector))
      && (!f.D81? && 18 <= t <= 24 ==> Offset(f, l) == side + 256 * (357 + 19 * (t - 18) + l.sector))
      && (!f.D81? && 25 <= t <= 30 ==> Offset(f, l) == side + 256 * (490 + 18 * (t - 25) + l.sector))
      && (!f.D81? && 31 <= t ==> Offset(f, l) == side + 256 * (598 + 17 * (t - 31) + l.sector))
    ensures Size(f) == if f.D64? then 174848 else if f.D71? then 349696 else 819200
  {
    if !f.D81? {
      BeforeClosedForm(f, l.track);
      hide SectorsBefore, SectorsPerTrack;
    }
  }

  /** How many sectors each track has. */
  lemma SectorCounts(f: Format, l: Loc)
    ensures InDisk(f, l) <==>
      var t := if f.D71? && l.track > 35 then l.track - 35 else l.track;
      && 1 <= l.track <= (if f.D64? then 35 else if f.D71? then 70 else 80)
      && l.sector < (if f.D81? then 40 else if t <= 17 then 21 else if t <= 24 then 19 else if t <= 30 then 18 else 17)
  {
  }

  /** Where each track keeps its free count and its bitmap. */
  lemma MapPositions(f: Format, t: nat)
    requires 1 <= t <= Tracks(f)
    ensures f.D81? && t <= 40 ==> CountPos(f, t) == 399616 + 16 + 6 * (t - 1) && BitmapPos(f, t) == CountPos(f, t) + 1
    ensures f.D81? && t > 40 ==> CountPos(f, t) == 399872 + 16 + 6 * (t - 41) && BitmapPos(f, t) == CountPos(f, t) + 1
    ensures !f.D81? && t <= 35 ==> CountPos(f, t) == 91392 + 4 + 4 * (t - 1) && BitmapPos(f, t) == CountPos(f, t) + 1
    ensures f.D71? && t > 35 ==> CountPos(f, t) == 91392 + 0xDD + (t - 36) && BitmapPos(f, t) == 266240 + 3 * (t - 36)
    ensures CountPos(f, t) < Size(f) && BitmapPos(f, t) + BitmapBytes(f) <= Size(f)
    ensures BitmapBytes(f) == if f.D81? then 5 else 3
  {
    hide Offset, SectorsBefore, SectorsPerTrack;
    BamInSectors(f, t);
    MapSectors(f);
    if f.D81? { assert (t - 1) % 40 == if t <= 40 then t - 1 else t - 41; }
  }

  lemma MapSectors(f: Format)
    ensures f.D81? ==> Offset(f, Loc(40, 1)) == 399616 && Offset(f, Loc(40, 2)) == 399872
    ensures !f.D81? ==> Offset(f, Loc(18, 0)) == 91392
    ensures f.D71? ==> Offset(f, Loc(53, 0)) == 266240
  {
    if !f.D81? {
      BeforeClosedForm(f, 18);
      BeforeClosedForm(f, 53);
    }
  }

  /** The bytes lie in the image from a position on. */
  predicate Stored(img: seq<byte>, at: nat, bytes: seq<byte>) {
    at + |bytes| <= |img| && img[at..at + |bytes|] == bytes
  }

  /** Bit s % 8 of the byte at a position is set. */
  predicate BitSet(img: seq<byte>, at: int, s: nat) {
    0 <= at < |img| && img[at] / BIT_VALUES[s % 8] % 2 == 1
  }

  predicate Reads(img: seq<byte>, at: int, b: byte) {
    0 <= at < |img| && img[at] == b
  }

  /** The availability map as it lies in the image: a track's free count, and a sector's bit, which
      is set while the sector is free. */
  lemma MapOnDisk(f: Format, img: seq<byte>, t: nat, s: nat)
    requires |img| >= Size(f) && 1 <= t <= Tracks(f)
    ensures var count := TrackCount(f, img, t);
      && (f.D81? && t <= 40 ==> Reads(img, 399616 + 16 + 6 * (t - 1), count))
      && (f.D81? && t > 40 ==> Reads(img, 399872 + 16 + 6 * (t - 41), count))
      && (!f.D81? && t <= 35 ==> Reads(img, 91392 + 4 + 4 * (t - 1), count))
      && (f.D71? && t > 35 ==> Reads(img, 91392 + 0xDD + t - 36, count))
    ensures InDisk(f, Loc(t, s)) ==>
      var free := IsFree(f, img, Loc(t, s));
      && (f.D81? && t <= 40 ==> (free <==> BitSet(img, 399616 + 17 + 6 * (t - 1) + s / 8, s)))
      && (f.D81? && t > 40 ==> (free <==> BitSet(img, 399872 + 17 + 6 * (t - 41) + s / 8, s)))
      && (!f.D81? && t <= 35 ==> (free <==> BitSet(img, 91392 + 5 + 4 * (t - 1) + s / 8, s)))
      && (f.D71? && t > 35 ==> (free <==> BitSet(img, 266240 + 3 * (t - 36) + s / 8, s)))
  {
    hide IsFree, TrackCount, BitSet, Reads, InDisk, CountPos, BitmapPos;
    MapPositions(f, t);
    CountReads(f, img, t);
    if InDisk(f, Loc(t, s)) { FreeReads(f, img, Loc(t, s)); }
  }

  lemma CountReads(f: Format, img: seq<byte>, t: nat)
    requires |img| >= Size(f) && 1 <= t <= Tracks(f)
    ensures Reads(img, CountPos(f, t), TrackCount(f, img, t))
  {
    BamInSectors(f, t);
    hide CountPos;
  }

  lemma FreeReads(f: Format, img: seq<byte>, l: Loc)
    requires |img| >= Size(f) && InDisk(f, l)
    ensures IsFree(f, img, l) <==> BitSet(img, BitPos(f, l), l.sector)
  {
    hide TestBit, BitmapPos, SectorsPerTrack, BIT_VALUES;
    BitPosInImage(f, l);
    BitsAreWorth(img[BitPos(f, l)], l.sector % 8);
  }

  /** `mark_used`, byte by byte. Marking a used sector changes nothing. Marking a free one takes the
      sector's bit out of its bitmap byte and one from its track's count, and nothing else; when the
      count is already zero it fails, the D71 tool with the bit cleared, the D81 tool with nothing changed. */
  ghost predicate TookBlock(f: Format, img: seq<byte>, o: Outcome, count: int, at: int, s: nat) {
    && 0 <= count < |img| && 0 <= at < |img| && |o.image| == |img|
    && var free := BitSet(img, at, s);
    && (!free ==> o == Done(img))
    && (free && img[count] == 0 && f.D81? ==> o == Failed(img, CountUnderflow))
    && (free && img[count] == 0 && !f.D81? ==> o.Failed? && o.error == CountUnderflow && o.image[count] == 0)
    && (free && img[count] > 0 ==> o.Done? && o.image[count] == img[count] - 1)
    && (free && (img[count] > 0 || !f.D81?) ==>
        && o.image[at] == img[at] - BIT_VALUES[s % 8]
        && forall i | 0 <= i < |img| && i != at && i != count :: o.image[i] == img[i])
  }

  lemma MarkUsedOnDisk(f: Format, img: seq<byte>, t: nat, s: nat)
    requires |img| >= Size(f) && InDisk(f, Loc(t, s))
    ensures var o := MarkUsed(f, img, Loc(t, s));
      && (f.D81? && t <= 40 ==>
          TookBlock(f, img, o, 399616 + 16 + 6 * (t - 1), 399616 + 17 + 6 * (t - 1) + s / 8, s))
      && (f.D81? && t > 40 ==>
          TookBlock(f, img, o, 399872 + 16 + 6 * (t - 41), 399872 + 17 + 6 * (t - 41) + s / 8, s))
      && (!f.D81? && t <= 35 ==>
          TookBlock(f, img, o, 91392 + 4 + 4 * (t - 1), 91392 + 5 + 4 * (t - 1) + s / 8, s))
      && (f.D71? && t > 35 ==>
          TookBlock(f, img, o, 91392 + 0xDD + (t - 36), 266240 + 3 * (t - 36) + s / 8, s))
  {
    hide SectorsBefore, CountPos, BitmapPos, SectorsPerTrack, TookBlock;
    var l := Loc(t, s);
    MapPositions(f, t);
    MarkUsedIs(f, img, l);
  }

  lemma MarkUsedIs(f: Format, img: seq<byte>, l: Loc)
    requires |img| >= Size(f) && InDisk(f, l)
    ensures TookBlock(f, img, MarkUsed(f, img, l), CountPos(f, l.track), BitPos(f, l), l.sector)
  {
    hide TestBit, ClearBit, SectorsBefore, BIT_VALUES, CountPos, BitmapPos, CountSector, BitmapSector, SectorsPerTrack;
    BamInSectors(f, l.track);
    BitPosInImage(f, l);
    BamDisjoint(f, l.track, l.track);
    BitsAreWorth(img[BitPos(f, l)], l.sector % 8);
  }
}
