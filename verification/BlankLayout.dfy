/** A freshly formatted disk, byte by byte in image positions. */
module BlankLayout {
  import opened Bytes
  import opened Geometry
  import opened Bam
  import opened DiskRead
  import opened Inventory
  import opened Writing
  import opened Blank
  import opened DiskLayout
  import opened Labels

  // ----- the counts after the reserved sectors are marked

  lemma {:induction false} MarksCharge(f: Format, img: seq<byte>, locs: seq<Loc>, u: nat, t: nat)
    requires BamSound(f, img) && Distinct(locs) && 1 <= t <= Tracks(f)
    requires forall l | l in locs :: InDisk(f, l) && IsFree(f, img, l) && l.track == u
    ensures MarkAll(f, img, locs).Done? && BamSound(f, MarkAll(f, img, locs).image)
    ensures TrackCount(f, MarkAll(f, img, locs).image, t) == TrackCount(f, img, t) - (if t == u then |locs| else 0)
    decreases |locs|
  {
    hide MarkUsed, TrackCount, IsFree, InDisk, TrackSound, IsBam, Size, SameSector;
    MarkAllEffect(f, img, locs);
    if locs != [] {
      var rest, l := locs[..|locs| - 1], locs[|locs| - 1];
      forall m | m in rest ensures m in locs {}
      assert l in locs && l !in rest;
      MarksCharge(f, img, rest, u, t);
      MarkAllEffect(f, img, rest);
      MarkUsedCounts(f, MarkAll(f, img, rest).image, l, t);
    }
  }

  lemma EndKeepsCounts(f: Format, img: seq<byte>, t: nat)
    requires |img| >= Size(f) && 1 <= t <= Tracks(f)
    ensures TrackCount(f, EndDirectory(f, img), t) == TrackCount(f, img, t)
  {
    hide SectorsPerTrack, SectorsBefore;
    BamInSectors(f, t);
    SectorInImage(f, FirstDir(f));
    SectorsDisjoint(f, CountSector(f, t), FirstDir(f));
  }

  lemma {:induction false} SectorsOfDistinct(t: nat, n: nat)
    ensures Distinct(SectorsOf(t, n))
    decreases n
  {
    if n > 0 { SectorsOfDistinct(t, n - 1); }
  }

  /** The stages of formatting, with everything free until the reserved sectors are marked. */
  ghost predicate Staged(f: Format, a: seq<byte>, b: seq<byte>, c: seq<byte>, d: seq<byte>) {
    && !f.D64? && |a| == |b| == |c| == |d| == Size(f) && c == EndDirectory(f, b)
    && MarkAll(f, a, Reserved(f)) == Done(b) && MarkAll(f, c, ReservedSide2(f)) == Done(d)
    && BamSound(f, a) && BamSound(f, c)
    && forall l | InDisk(f, l) :: IsFree(f, a, l) && (l !in Reserved(f) ==> IsFree(f, c, l))
  }

  lemma Stages(f: Format, name: seq<byte>, id: seq<byte>, d: seq<byte>)
      returns (b: seq<byte>, c: seq<byte>)
    requires !f.D64? && LabelOk(name, id) && BlankImage(f, name, id) == Some(d)
    ensures Staged(f, Labelled(f, name, id), b, c, d)
  {
    hide Labelled, IsFree, TrackSound, SectorsBefore, SameSector, MarkAll, SectorsPerTrack, EndDirectory, IsBam;
    var a := Labelled(f, name, id);
    forall t | 1 <= t <= Tracks(f)
      ensures TrackSound(f, a, t) && forall s | 0 <= s < SectorsPerTrack(f, t) :: IsFree(f, a, Loc(t, s))
    {
      LabelledFormatted(f, name, id, t);
      FormattedSound(f, a, t);
    }
    forall l | InDisk(f, l) ensures IsFree(f, a, l) { assert IsFree(f, a, Loc(l.track, l.sector)); }
    MarkAllEffect(f, a, Reserved(f));
    b := MarkAll(f, a, Reserved(f)).image;
    c := EndDirectory(f, b);
    EndDirectoryEffect(f, b);
  }

  lemma ReservedFirst(f: Format)
    requires !f.D64?
    ensures Distinct(Reserved(f)) && |Reserved(f)| == (if f.D81? then 4 else 2)
    ensures forall l | l in Reserved(f) :: InDisk(f, l) && l.track == if f.D81? then 40 else 18
  {
    hide SectorsPerTrack, SectorsOf;
    SectorsOfDistinct(40, 4);
  }

  lemma ReservedSecond(f: Format)
    requires !f.D64?
    ensures Distinct(ReservedSide2(f)) && |ReservedSide2(f)| == (if f.D81? then 0 else 19)
    ensures forall l | l in ReservedSide2(f) :: InDisk(f, l) && l !in Reserved(f) && l.track == 53
  {
    hide SectorsOf;
    SectorsOfDistinct(53, 19);
  }

  /** The free sectors of each track of a blank disk. */
  function BlankCount(f: Format, t: nat): nat {
    if f.D81? then (if t == 40 then 36 else 40)
    else if t == 18 then 17 else if t == 53 then 0
    else
      var u := if t <= 35 then t else t - 35;
      if u <= 17 then 21 else if u <= 24 then 19 else if u <= 30 then 18 else 17
  }

  lemma BlankCounts(f: Format, name: seq<byte>, id: seq<byte>, img: seq<byte>, t: nat)
    requires 1 <= t <= Tracks(f) && |img| >= Size(f)
    requires !f.D64? && LabelOk(name, id) && BlankImage(f, name, id) == Some(img)
    ensures TrackCount(f, img, t) == BlankCount(f, t)
  {
    hide Labelled, IsFree, TrackSound, MarkAll, BlankImage, EndDirectory, TrackCount, Reserved, ReservedSide2, InDisk,
      Distinct;
    var b, c := Stages(f, name, id, img);
    LabelledCount(f, name, id, t);
    ReservedFirst(f);
    ReservedSecond(f);
    MarksCharge(f, Labelled(f, name, id), Reserved(f), if f.D81? then 40 else 18, t);
    EndKeepsCounts(f, b, t);
    MarksCharge(f, c, ReservedSide2(f), 53, t);
  }

  lemma LabelledCount(f: Format, name: seq<byte>, id: seq<byte>, t: nat)
    requires !f.D64? && LabelOk(name, id) && 1 <= t <= Tracks(f)
    ensures TrackCount(f, Labelled(f, name, id), t) ==
      BlankCount(f, t) + if f.D81? && t == 40 then 4 else if f.D71? && t == 18 then 2 else if f.D71? &&
        t == 53 then 19 else 0
  {
    hide Labelled, TrackCount;
    LabelledFormatted(f, name, id, t);
  }

  /** Outside the BAM a blank disk is zero, except for the mark that ends the directory. */
  lemma BlankZero(f: Format, name: seq<byte>, id: seq<byte>, img: seq<byte>, m: Loc)
    requires !f.D64? && LabelOk(name, id) && InDisk(f, m) && !IsBam(f, m) && BlankImage(f, name, id) == Some(img)
    ensures Stored(img, Offset(f, m), (if m == FirstDir(f) then [0, 255] else [0, 0]) + Zeros(254))
  {
    hide Labelled, IsFree, TrackSound, MarkAll, BlankImage, SameSector, Offset, IsBam, Size;
    var a := Labelled(f, name, id);
    var b, c := Stages(f, name, id, img);
    LabelledElsewhere(f, name, id, m);
    MarkAllEffect(f, a, Reserved(f));
    MarkAllEffect(f, c, ReservedSide2(f));
    assert SameSector(f, a, b, m) && SameSector(f, c, img, m);
    SameTwice(f, Zeros(Size(f)), a, b, m);
    EndedSector(f, b, c, img, m);
  }

  lemma EndedSector(f: Format, b: seq<byte>, c: seq<byte>, d: seq<byte>, m: Loc)
    requires !f.D64? && InDisk(f, m) && |b| == |d| == Size(f) && c == EndDirectory(f, b)
    requires SameSector(f, Zeros(Size(f)), b, m) && SameSector(f, c, d, m)
    ensures Stored(d, Offset(f, m), (if m == FirstDir(f) then [0, 255] else [0, 0]) + Zeros(254))
  {
    hide SectorsBefore, SectorsPerTrack;
    SectorInImage(f, m);
    SectorInImage(f, FirstDir(f));
    if m != FirstDir(f) { SectorsDisjoint(f, m, FirstDir(f)); }
    var at, bytes := Offset(f, m), (if m == FirstDir(f) then [0, 255] else [0, 0]) + Zeros(254);
    forall i | 0 <= i < 256 ensures d[at + i] == bytes[i] {
      assert c[at + i] == if m == FirstDir(f) && i < 2 then [0, 255][i] else b[at + i];
    }
    assert d[at..at + 256] == bytes;
  }

  /** The sectors a blank disk keeps from files. */
  predicate Kept(f: Format, l: Loc) {
    if f.D81? then l.track == 40 && l.sector < 4 else (l.track == 18 && l.sector < 2) || l.track == 53
  }

  ghost predicate CountsLeft(f: Format, img: seq<byte>)
    requires |img| >= Size(f)
  {
    forall t | 1 <= t <= Tracks(f) :: TrackCount(f, img, t) == BlankCount(f, t)
  }

  ghost predicate OnlyKeptUsed(f: Format, img: seq<byte>)
    requires |img| >= Size(f)
  {
    forall l | InDisk(f, l) :: IsFree(f, img, l) <==> !Kept(f, l)
  }

  ghost predicate OthersZero(f: Format, img: seq<byte>) {
    forall l | InDisk(f, l) && !Kept(f, l) :: Stored(img, Offset(f, l), [0, 0] + Zeros(254))
  }

  /** A blank disk exists exactly for names of 1 to 16 bytes and ids of two, and then every byte of it
      is known: the header, the counts, one set bit for every sector not kept back, the end of the
      empty directory, and zeros. */
  lemma BlankOnDisk(f: Format, name: seq<byte>, id: seq<byte>)
    requires !f.D64?
    ensures BlankImage(f, name, id).Some? <==> 1 <= |name| <= 16 && |id| == 2
    ensures BlankImage(f, name, id).Some? ==>
      var img := BlankImage(f, name, id).value;
      && (f.D71? ==> Header71(img, name, id)) && (f.D81? ==> Header81(img, name, id))
      && CountsLeft(f, img) && OnlyKeptUsed(f, img)
      && Stored(img, if f.D81? then 400128 else 91648, [0, 255] + Zeros(254))
      && OthersZero(f, img)
  {
    hide BlankImage, Header71, Header81, CountsLeft, OnlyKeptUsed, OthersZero, Stored, HasHeader, Offset;
    BlankWhen(f, name, id);
    if LabelOk(name, id) {
      var img := BlankImage(f, name, id).value;
      BlankHas(f, name, id);
      if f.D71? { D71Header(img, name, id); } else { D81Header(img, name, id); }
      DirectoryAt(f);
      BlankZero(f, name, id, img, FirstDir(f));
      BlankMap(f, name, id);
      BlankRest(f, name, id);
    }
  }

  lemma BlankMap(f: Format, name: seq<byte>, id: seq<byte>)
    requires !f.D64? && LabelOk(name, id) && BlankImage(f, name, id).Some?
    ensures CountsLeft(f, BlankImage(f, name, id).value) && OnlyKeptUsed(f, BlankImage(f, name, id).value)
  {
    hide BlankImage, TrackCount, IsFree, BlankCount, Valid, BlankInventory;
    var img := BlankImage(f, name, id).value;
    forall t | 1 <= t <= Tracks(f)
      ensures TrackCount(f, img, t) == BlankCount(f, t)
    {
      BlankCounts(f, name, id, img, t);
    }
    BlankIsValid(f, name, id);
  }

  lemma BlankRest(f: Format, name: seq<byte>, id: seq<byte>)
    requires !f.D64? && LabelOk(name, id) && BlankImage(f, name, id).Some?
    ensures OthersZero(f, BlankImage(f, name, id).value)
  {
    hide BlankImage, Offset, Stored, SectorsPerTrack;
    forall l | InDisk(f, l) && !Kept(f, l)
      ensures Stored(BlankImage(f, name, id).value, Offset(f, l), [0, 0] + Zeros(254))
    {
      BlankZero(f, name, id, BlankImage(f, name, id).value, l);
    }
  }

  lemma BlankWhen(f: Format, name: seq<byte>, id: seq<byte>)
    requires !f.D64?
    ensures BlankImage(f, name, id).Some? <==> LabelOk(name, id)
  {
    if LabelOk(name, id) { BlankIsValid(f, name, id); }
  }

  lemma DirectoryAt(f: Format)
    requires !f.D64?
    ensures InDisk(f, FirstDir(f)) && !IsBam(f, FirstDir(f))
    ensures Offset(f, FirstDir(f)) == if f.D81? then 400128 else 91648
  {
    OffsetsAre(f, FirstDir(f));
  }
}
