/** Block availability maps: `sector_is_free`, `is_free` and `mark_used` of build_d71.py and
    build_d81.py, and what marking a sector keeps. */
module Bam {
  import opened Bytes
  import opened Geometry

  datatype DiskError =
    | BadRequest | BadType | EmptyProgram | BadName | Duplicate | NoRoom
    | CyclicDirectory | BadDirectoryLink | DirectoryFull | CountUnderflow
    | BadDirectoryChain | BadFileChain | BadSource

  /** What a mutating tool leaves behind: the new image, and the error when it raised one. */
  datatype Outcome = Done(image: seq<byte>) | Failed(image: seq<byte>, error: DiskError)

  function BitPos(f: Format, l: Loc): nat
    requires 1 <= l.track
  {
    BitmapPos(f, l.track) + l.sector / 8
  }

  lemma BitPosInImage(f: Format, l: Loc)
    requires InDisk(f, l)
    ensures BitmapPos(f, l.track) <= BitPos(f, l) < BitmapPos(f, l.track) + BitmapBytes(f) <= Size(f)
  {
    BamInSectors(f, l.track);
  }

  predicate IsFree(f: Format, img: seq<byte>, l: Loc)
    requires |img| >= Size(f)
  {
    InDisk(f, l) && (BitPosInImage(f, l); TestBit(img[BitPos(f, l)], l.sector % 8))
  }

  /** `mark_used`. The D71 tool clears the bit before it lowers the count and the D81 tool
      after, which shows only when the count byte is already zero and the write raises. */
  function MarkUsed(f: Format, img: seq<byte>, l: Loc): (o: Outcome)
    requires InDisk(f, l) && |img| >= Size(f)
    ensures |o.image| == |img|
    ensures o.Failed? ==> o.error == CountUnderflow
  {
    if !IsFree(f, img, l) then Done(img) else
      BitPosInImage(f, l);
      BamInSectors(f, l.track);
      var cleared := img[BitPos(f, l) := ClearBit(img[BitPos(f, l)], l.sector % 8)];
      var count := CountPos(f, l.track);
      if img[count] == 0 then Failed(if f.D81? then img else cleared, CountUnderflow)
      else Done(cleared[count := img[count] - 1])
  }

  method MarkUsedInPlace(f: Format, image: array<byte>, l: Loc) returns (error: Option<DiskError>)
    requires InDisk(f, l) && image.Length >= Size(f)
    modifies image
    ensures image[..] == MarkUsed(f, old(image[..]), l).image
    ensures error == match MarkUsed(f, old(image[..]), l) case Done(_) => None case Failed(_, e) => Some(e)
  {
    hide BitPos, CountPos, BitmapPos, Size, TestBit, ClearBit, CountSector, BitmapSector, SectorsPerTrack,
      SectorsBefore, Offset, CountInSector, BitmapInSector, IsBam;
    BitPosInImage(f, l);
    BamInSectors(f, l.track);
    BamDisjoint(f, l.track, l.track);
    var at, count := BitPos(f, l), CountPos(f, l.track);
    if !TestBit(image[at], l.sector % 8) { return None; }
    if f.D81? {
      if image[count] == 0 { return Some(CountUnderflow); }
      image[count] := image[count] - 1;
      image[at] := ClearBit(image[at], l.sector % 8);
    } else {
      image[at] := ClearBit(image[at], l.sector % 8);
      if image[count] == 0 { return Some(CountUnderflow); }
      image[count] := image[count] - 1;
    }
    return None;
  }

  // ----- counts agree with bitmaps

  /** Set bits among the first n bits stored from byte `at` on. */
  function CountBits(img: seq<byte>, at: nat, n: nat): (c: nat)
    requires at * 8 + n <= |img| * 8
    ensures c <= n
    decreases n
  {
    if n == 0 then 0
    else CountBits(img, at, n - 1) + if TestBit(img[at + (n - 1) / 8], (n - 1) % 8) then 1 else 0
  }

  function TrackCount(f: Format, img: seq<byte>, t: nat): byte
    requires |img| >= Size(f) && 1 <= t <= Tracks(f)
  {
    BamInSectors(f, t);
    img[CountPos(f, t)]
  }

  /** A track's BAM count equals the set bits of its bitmap. */
  predicate TrackSound(f: Format, img: seq<byte>, t: nat)
    requires |img| >= Size(f) && 1 <= t <= Tracks(f)
  {
    BamInSectors(f, t);
    TrackCount(f, img, t) == CountBits(img, BitmapPos(f, t), 8 * BitmapBytes(f))
  }

  ghost predicate BamSound(f: Format, img: seq<byte>) {
    |img| >= Size(f) && forall t | 1 <= t <= Tracks(f) :: TrackSound(f, img, t)
  }

  /** Free blocks as DOS reports them: the sum of the counts of tracks 1..t. */
  function FreeBlocks(f: Format, img: seq<byte>, t: nat): nat
    requires |img| >= Size(f) && t <= Tracks(f)
    decreases t
  {
    if t == 0 then 0 else FreeBlocks(f, img, t - 1) + TrackCount(f, img, t)
  }

  lemma {:induction false} CountBitsSame(a: seq<byte>, b: seq<byte>, at: nat, n: nat)
    requires at * 8 + n <= |a| * 8 && at * 8 + n <= |b| * 8
    requires forall i | at <= i < at + (n + 7) / 8 :: a[i] == b[i]
    ensures CountBits(a, at, n) == CountBits(b, at, n)
    decreases n
  {
    if n > 0 { CountBitsSame(a, b, at, n - 1); }
  }

  lemma {:induction false} CountBitsPositive(img: seq<byte>, at: nat, n: nat, s: nat)
    requires at * 8 + n <= |img| * 8 && s < n && TestBit(img[at + s / 8], s % 8)
    ensures CountBits(img, at, n) > 0
    decreases n
  {
    if s < n - 1 { CountBitsPositive(img, at, n - 1, s); }
  }

  lemma {:induction false} CountBitsCleared(img: seq<byte>, at: nat, n: nat, s: nat)
    requires at * 8 + n <= |img| * 8 && s < n && TestBit(img[at + s / 8], s % 8)
    ensures CountBits(img[at + s / 8 := ClearBit(img[at + s / 8], s % 8)], at, n) == CountBits(img, at, n) - 1
    decreases n
  {
    var cleared := img[at + s / 8 := ClearBit(img[at + s / 8], s % 8)];
    BitsOfClear(img[at + s / 8], s % 8, (n - 1) % 8);
    if s < n - 1 {
      CountBitsCleared(img, at, n - 1, s);
      assert (n - 1) / 8 == s / 8 ==> (n - 1) % 8 != s % 8;
    } else {
      CountBitsOthers(img, cleared, at, n - 1, s);
    }
  }

  lemma {:induction false} CountBitsOthers(img: seq<byte>, cleared: seq<byte>, at: nat, n: nat, s: nat)
    requires at * 8 + s < |img| * 8 && n <= s
    requires cleared == img[at + s / 8 := ClearBit(img[at + s / 8], s % 8)]
    ensures CountBits(cleared, at, n) == CountBits(img, at, n)
    decreases n
  {
    if n > 0 {
      CountBitsOthers(img, cleared, at, n - 1, s);
      BitsOfClear(img[at + s / 8], s % 8, (n - 1) % 8);
      assert (n - 1) / 8 == s / 8 ==> (n - 1) % 8 != s % 8;
    }
  }

  // ----- what marking a sector does on a sound BAM

  /** On a sound BAM marking always succeeds; it changes only the sector's own bit and its
      track's count. */
  lemma MarkUsedSteps(f: Format, img: seq<byte>, l: Loc)
    requires InDisk(f, l) && BamSound(f, img)
    ensures MarkUsed(f, img, l).Done?
    ensures IsFree(f, img, l) ==>
      && BitPos(f, l) < |img| && CountPos(f, l.track) < |img| && img[CountPos(f, l.track)] > 0
      && MarkUsed(f, img, l).image ==
         var at, count := BitPos(f, l), CountPos(f, l.track);
         img[at := ClearBit(img[at], l.sector % 8)][count := img[count] - 1]
  {
    hide SectorsBefore, TestBit, ClearBit, SectorsPerTrack, CountInSector, BitmapInSector;
    BamInSectors(f, l.track);
    BitPosInImage(f, l);
    assert TrackSound(f, img, l.track);
    if IsFree(f, img, l) { CountBitsPositive(img, BitmapPos(f, l.track), 8 * BitmapBytes(f), l.sector); }
  }

  lemma MarkUsedFreedom(f: Format, img: seq<byte>, l: Loc, m: Loc)
    requires InDisk(f, l) && BamSound(f, img)
    ensures IsFree(f, MarkUsed(f, img, l).image, m) <==> m != l && IsFree(f, img, m)
  {
    hide CountPos, BitmapPos, SectorsBefore, TestBit, ClearBit, SectorsPerTrack;
    MarkUsedSteps(f, img, l);
    if InDisk(f, m) && IsFree(f, img, l) {
      BitPosInImage(f, l);
      BitPosInImage(f, m);
      BamDisjoint(f, l.track, m.track);
      BamDisjoint(f, m.track, l.track);
      BitsOfClear(img[BitPos(f, l)], l.sector % 8, m.sector % 8);
      assert l.track == m.track && l.sector / 8 == m.sector / 8 && l.sector % 8 == m.sector % 8 ==> l == m;
    }
  }

  lemma MarkUsedKeepsSound(f: Format, img: seq<byte>, l: Loc)
    requires InDisk(f, l) && BamSound(f, img)
    ensures BamSound(f, MarkUsed(f, img, l).image)
  {
    MarkUsedSteps(f, img, l);
    if IsFree(f, img, l) {
      forall t | 1 <= t <= Tracks(f) ensures TrackSound(f, MarkUsed(f, img, l).image, t) {
        MarkUsedTrack(f, img, l, t);
      }
    }
  }

  /** Clearing one bit and lowering one count, on plain positions. */
  lemma ClearAndCharge(img: seq<byte>, own: nat, s: nat, count: nat, at: nat, n: nat)
    requires own * 8 + n <= |img| * 8 && at * 8 + n <= |img| * 8 && n % 8 == 0 && s < n && count < |img|
    requires img[count] > 0 && TestBit(img[own + s / 8], s % 8)
    requires count < own || own + n / 8 <= count
    requires count < at || at + n / 8 <= count
    requires own == at || own + n / 8 <= at || at + n / 8 <= own
    ensures var b := img[own + s / 8 := ClearBit(img[own + s / 8], s % 8)][count := img[count] - 1];
            CountBits(b, at, n) == CountBits(img, at, n) - (if own == at then 1 else 0)
  {
    var cleared := img[own + s / 8 := ClearBit(img[own + s / 8], s % 8)];
    CountBitsSame(cleared, cleared[count := img[count] - 1], at, n);
    if own == at { CountBitsCleared(img, at, n, s); } else { CountBitsSame(img, cleared, at, n); }
  }

  lemma MarkUsedCounts(f: Format, img: seq<byte>, l: Loc, t: nat)
    requires InDisk(f, l) && BamSound(f, img) && IsFree(f, img, l) && 1 <= t <= Tracks(f)
    ensures TrackCount(f, MarkUsed(f, img, l).image, t) == TrackCount(f, img, t) - (if t == l.track then 1 else 0)
  {
    MarkUsedSteps(f, img, l);
    BitPosInImage(f, l);
    BamInSectors(f, t);
    BamDisjoint(f, t, l.track);
  }

  lemma MarkUsedTrack(f: Format, img: seq<byte>, l: Loc, t: nat)
    requires InDisk(f, l) && BamSound(f, img) && IsFree(f, img, l) && 1 <= t <= Tracks(f)
    ensures TrackSound(f, MarkUsed(f, img, l).image, t)
  {
    hide CountPos, BitmapPos, SectorsBefore, ClearBit, TestBit, CountBits;
    MarkUsedSteps(f, img, l);
    MarkUsedCounts(f, img, l, t);
    BitPosInImage(f, l);
    BamInSectors(f, t);
    BamDisjoint(f, l.track, t);
    BamDisjoint(f, l.track, l.track);
    assert TrackSound(f, img, t);
    ClearAndCharge(img, BitmapPos(f, l.track), l.sector, CountPos(f, l.track), BitmapPos(f, t), 8 * BitmapBytes(f));
  }

  /** Marking a free sector lowers the reported free blocks by exactly one. */
  lemma {:induction false} MarkUsedCharges(f: Format, img: seq<byte>, l: Loc, t: nat)
    requires InDisk(f, l) && BamSound(f, img) && IsFree(f, img, l) && t <= Tracks(f)
    ensures FreeBlocks(f, MarkUsed(f, img, l).image, t) == FreeBlocks(f, img, t) - (if l.track <= t then 1 else 0)
    decreases t
  {
    hide MarkUsed, TrackCount, IsFree, BamSound, SectorsPerTrack;
    if t > 0 {
      MarkUsedCharges(f, img, l, t - 1);
      MarkUsedCounts(f, img, l, t);
    }
  }

  // ----- sectors as units of framing

  /** The 256 bytes of a sector are the same in both images. */
  predicate SameSector(f: Format, a: seq<byte>, b: seq<byte>, l: Loc)
    requires |a| >= Size(f) && |b| >= Size(f) && InDisk(f, l)
  {
    SectorInImage(f, l);
    forall i | Offset(f, l) <= i < Offset(f, l) + 256 :: a[i] == b[i]
  }

  lemma SameTwice(f: Format, a: seq<byte>, b: seq<byte>, c: seq<byte>, m: Loc)
    requires |a| >= Size(f) && |b| >= Size(f) && |c| >= Size(f) && InDisk(f, m)
    requires SameSector(f, a, b, m) && SameSector(f, b, c, m)
    ensures SameSector(f, a, c, m)
  {
    SectorInImage(f, m);
  }

  lemma MarkUsedFrame(f: Format, img: seq<byte>, l: Loc, m: Loc)
    requires InDisk(f, l) && InDisk(f, m) && BamSound(f, img) && !IsBam(f, m)
    ensures SameSector(f, img, MarkUsed(f, img, l).image, m)
  {
    hide SectorsBefore, TestBit, ClearBit, SectorsPerTrack, IsBam;
    MarkUsedSteps(f, img, l);
    BamInSectors(f, l.track);
    BitPosInImage(f, l);
    SectorInImage(f, m);
    SectorsDisjoint(f, CountSector(f, l.track), m);
    SectorsDisjoint(f, BitmapSector(f, l.track), m);
  }

  /** Writing inside one sector that holds no BAM byte changes no BAM fact and no other sector. */
  lemma WriteFrame(f: Format, a: seq<byte>, b: seq<byte>, l: Loc)
    requires InDisk(f, l) && !IsBam(f, l) && BamSound(f, a) && |b| == |a|
    requires forall i | 0 <= i < |a| :: !(Offset(f, l) <= i < Offset(f, l) + 256) ==> a[i] == b[i]
    ensures forall m | InDisk(f, m) && m != l :: SameSector(f, a, b, m)
    ensures forall m :: IsFree(f, a, m) <==> IsFree(f, b, m)
    ensures BamSound(f, b) && FreeBlocks(f, a, Tracks(f)) == FreeBlocks(f, b, Tracks(f))
  {
    forall m | InDisk(f, m) && m != l ensures SameSector(f, a, b, m) {
      SectorsDisjoint(f, l, m);
      SectorInImage(f, m);
    }
    BamUntouched(f, a, b);
  }

  lemma BamUntouched(f: Format, a: seq<byte>, b: seq<byte>)
    requires BamSound(f, a) && |b| == |a|
    requires forall m | InDisk(f, m) && IsBam(f, m) :: SameSector(f, a, b, m)
    ensures forall m :: IsFree(f, a, m) <==> IsFree(f, b, m)
    ensures BamSound(f, b) && FreeBlocks(f, a, Tracks(f)) == FreeBlocks(f, b, Tracks(f))
  {
    hide SectorsBefore, TestBit, SectorsPerTrack, CountInSector, BitmapInSector, IsBam, Size, CountBits;
    forall t | 1 <= t <= Tracks(f)
      ensures TrackCount(f, a, t) == TrackCount(f, b, t)
      ensures TrackSound(f, b, t)
    {
      BamInSectors(f, t);
      assert SameSector(f, a, b, CountSector(f, t)) && SameSector(f, a, b, BitmapSector(f, t));
      assert TrackSound(f, a, t);
      CountBitsSame(a, b, BitmapPos(f, t), 8 * BitmapBytes(f));
    }
    forall m | InDisk(f, m) ensures IsFree(f, a, m) <==> IsFree(f, b, m) {
      BamInSectors(f, m.track);
      BitPosInImage(f, m);
      assert SameSector(f, a, b, BitmapSector(f, m.track));
    }
    FreeBlocksSame(f, a, b, Tracks(f));
  }

  lemma {:induction false} FreeBlocksSame(f: Format, a: seq<byte>, b: seq<byte>, t: nat)
    requires |a| >= Size(f) && |b| >= Size(f) && t <= Tracks(f)
    requires forall u | 1 <= u <= Tracks(f) :: TrackCount(f, a, u) == TrackCount(f, b, u)
    ensures FreeBlocks(f, a, t) == FreeBlocks(f, b, t)
    decreases t
  {
    if t > 0 { FreeBlocksSame(f, a, b, t - 1); }
  }
}
