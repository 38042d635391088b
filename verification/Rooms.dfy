/** The room of a freshly booted disk, in sectors and in directory entries, and so exactly which
    builds fit. */
module Rooms {
  import opened Bytes
  import opened Geometry
  import opened Bam
  import opened DiskRead
  import opened Inventory
  import opened Writing
  import opened Directory
  import opened Install
  import opened Listings
  import opened Blank
  import opened Runs
  import opened RunAccounts
  import opened Repack

  // ----- which sectors a booted disk has free

  /** The first sector of track t that the boot sectors and the second side's map leave to files:
      213 boot sectors are tracks 1 to 10 and three sectors of track 11, 21 sectors a track. */
  function FirstLeft(f: Format, t: nat): (s: nat)
    ensures s <= SectorsPerTrack(f, t)
  {
    if f.D71? && t == 53 then 19 else if t <= 10 then 21 else if t == 11 then 3 else 0
  }

  ghost predicate Booted(f: Format, img: seq<byte>)
    requires |img| >= Size(f)
  {
    forall l ::
      IsFree(f, img, l) <==> InDisk(f, l) && !IsBam(f, l) && l != FirstDir(f) && l !in BootLocations(BOOT_BLOCKS)
  }

  lemma BootedIs(f: Format, name: seq<byte>, id: seq<byte>, sectors: seq<seq<byte>>)
    requires !f.D64? && BootSectors(sectors) && LabelOk(name, id)
    ensures WithBoot(f, name, id, sectors).Some? && Booted(f, WithBoot(f, name, id, sectors).value)
  {
    hide Valid, IsFree, WriteChain, BootAt, BootLocations, FreeBlocks, BlankInventory, ClaimBoot, MarkAll, Labelled,
      ReservedSide2, Reserved, HoldsBlock, InDisk, IsBam, Size;
    BootLocationsFit(f, BOOT_BLOCKS);
    BlankIsValid(f, name, id);
    var blank := BlankImage(f, name, id).value;
    BootWritable(f, blank);
    BootKeepsValid(f, blank, BlankInventory(f), BootLocations(BOOT_BLOCKS), sectors);
    var img := WithBoot(f, name, id, sectors).value;
    forall l
      ensures IsFree(f, img, l) <==>
        InDisk(f, l) && !IsBam(f, l) && l != FirstDir(f) && l !in BootLocations(BOOT_BLOCKS)
    {
      FreeInDisk(f, img, l);
    }
  }

  lemma FreeInDisk(f: Format, img: seq<byte>, l: Loc)
    requires |img| >= Size(f)
    ensures IsFree(f, img, l) ==> InDisk(f, l)
  {
  }

  lemma BootedSectors(t: nat, s: nat)
    ensures Loc(t, s) in BootLocations(BOOT_BLOCKS) <==> (1 <= t <= 10 && s < 21) || (t == 11 && s < 3)
  {
    hide BootAt, BootLocations;
    if (1 <= t <= 10 && s < 21) || (t == 11 && s < 3) {
      var i := 21 * (t - 1) + s;
      BootAtClosed(i);
      BootElements(BOOT_BLOCKS, i);
    }
    if Loc(t, s) in BootLocations(BOOT_BLOCKS) {
      var i :| 0 <= i < BOOT_BLOCKS && BootLocations(BOOT_BLOCKS)[i] == Loc(t, s);
      BootAtClosed(i);
      BootElements(BOOT_BLOCKS, i);
    }
  }

  lemma BootedFree(f: Format, img: seq<byte>, t: nat, s: nat)
    requires !f.D64? && |img| >= Size(f) && Booted(f, img) && 1 <= t <= Tracks(f) && s < SectorsPerTrack(f, t)
    ensures t != DirTrack(f) ==> (IsFree(f, img, Loc(t, s)) <==> s >= FirstLeft(f, t))
    ensures t == DirTrack(f) && s >= FirstGrowth(f) ==> IsFree(f, img, Loc(t, s))
  {
    hide IsFree, BootLocations;
    BootedSectors(t, s);
  }

  // ----- counting them

  lemma {:induction false} FreeOnFrom(f: Format, img: seq<byte>, t: nat, s: nat, lo: nat)
    requires |img| >= Size(f) && forall k: nat | k < s :: IsFree(f, img, Loc(t, k)) <==> k >= lo
    ensures |FreeOn(f, img, t, s)| == if s <= lo then 0 else s - lo
    decreases s
  {
    hide IsFree;
    if s > 0 { FreeOnFrom(f, img, t, s - 1, lo); }
  }

  function TrackRoom(f: Format, t: nat): nat {
    if t == DirTrack(f) then 0 else SectorsPerTrack(f, t) - FirstLeft(f, t)
  }

  /** The sectors a booted disk leaves to files on tracks 1..t. */
  function RoomTo(f: Format, t: nat): nat
    decreases t
  {
    if t == 0 then 0 else
      RoomTo(f, t - 1) + TrackRoom(f, t)
  }

  lemma {:induction false} BootedRoom(f: Format, img: seq<byte>, t: nat)
    requires !f.D64? && |img| >= Size(f) && Booted(f, img) && t <= Tracks(f)
    ensures DataRoom(f, img, t) == RoomTo(f, t)
    decreases t
  {
    hide IsFree, FreeOn, SectorsPerTrack, FirstLeft, Booted, Size;
    if t > 0 {
      BootedRoom(f, img, t - 1);
      if t != DirTrack(f) {
        forall k: nat | k < SectorsPerTrack(f, t)
          ensures IsFree(f, img, Loc(t, k)) <==> k >= FirstLeft(f, t)
        {
          BootedFree(f, img, t, k);
        }
        FreeOnFrom(f, img, t, SectorsPerTrack(f, t), FirstLeft(f, t));
      }
    }
  }

  lemma {:induction false} RoomZone(f: Format, lo: nat, hi: nat, each: nat)
    requires lo <= hi && forall t | lo < t <= hi :: TrackRoom(f, t) == each
    ensures RoomTo(f, hi) == RoomTo(f, lo) + each * (hi - lo)
    decreases hi
  {
    hide TrackRoom, DirTrack;
    if lo < hi {
      RoomZone(f, lo, hi - 1, each);
      assert RoomTo(f, hi) == RoomTo(f, hi - 1) + TrackRoom(f, hi);
      assert each * (hi - lo) == each * (hi - 1 - lo) + each;
    }
  }

  /** 451 sectors on the first side of a booted D71, 1115 on both, 2947 on a booted D81. */
  lemma RoomNumbers()
    ensures RoomTo(D71, 35) == 451 && RoomTo(D71, 70) == 1115 && RoomTo(D81, 80) == 2947
  {
    hide RoomTo;
    NoRoom(D71);
    NoRoom(D81);
    RoomZone(D71, 0, 10, 0);
    RoomZone(D71, 10, 11, 18);
    RoomZone(D71, 11, 17, 21);
    RoomZone(D71, 17, 18, 0);
    RoomZone(D71, 18, 24, 19);
    RoomZone(D71, 24, 30, 18);
    RoomZone(D71, 30, 35, 17);
    RoomZone(D71, 35, 52, 21);
    RoomZone(D71, 52, 53, 0);
    RoomZone(D71, 53, 59, 19);
    RoomZone(D71, 59, 65, 18);
    RoomZone(D71, 65, 70, 17);
    RoomZone(D81, 0, 10, 19);
    RoomZone(D81, 10, 11, 37);
    RoomZone(D81, 11, 39, 40);
    RoomZone(D81, 39, 40, 0);
    RoomZone(D81, 40, 80, 40);
  }

  lemma NoRoom(f: Format)
    ensures RoomTo(f, 0) == 0
  {
  }

  lemma {:induction false} BootedGrowth(f: Format, img: seq<byte>, n: nat)
    requires !f.D64? && |img| >= Size(f) && Booted(f, img) && FirstGrowth(f) <= n <= DirSectorCount(f)
    ensures GrowthRoom(f, img, n) == n - FirstGrowth(f)
    decreases n
  {
    hide IsFree, Booted;
    if n > FirstGrowth(f) {
      BootedGrowth(f, img, n - 1);
      BootedFree(f, img, DirTrack(f), n - 1);
    }
  }

  // ----- the builds that fit

  ghost function EntryLimit(f: Format): nat {
    if f.D81? then 296 else 144
  }

  ghost function BlockLimit(f: Format, maxTrack: nat): nat {
    if f.D81? then 2947 else if maxTrack == 35 then 451 else 1115
  }

  /** What fits on a freshly booted disk. */
  ghost predicate FitsBooted(f: Format, reqs: seq<Request>, maxTrack: nat) {
    && (forall i | 0 <= i < |reqs| :: Askable(f, reqs[i], maxTrack))
    && SumBlocks(reqs) <= BlockLimit(f, maxTrack) && |reqs| <= EntryLimit(f)
    && (f.D81? ==> Distinct(KeysOf(reqs)))
  }

  /** What a booted disk still takes. */
  ghost predicate BootedTakes(f: Format, img: seq<byte>)
    requires |img| >= Size(f)
  {
    && (forall t: nat | t <= Tracks(f) :: DataRoom(f, img, t) == RoomTo(f, t))
    && EntryRoom(f, img, BootInventory(f)) == EntryLimit(f)
    && forall key :: !Taken(f, img, key)
  }

  lemma BootedAccounts(f: Format, name: seq<byte>, id: seq<byte>, sectors: seq<seq<byte>>)
    requires !f.D64? && BootSectors(sectors) && LabelOk(name, id)
    ensures WithBoot(f, name, id, sectors).Some? && BootedTakes(f, WithBoot(f, name, id, sectors).value)
  {
    hide Valid, IsFree, WithBoot, BootedTakes, Booted, BootHolds, LabelOk, Size, Dense, BootInventory;
    BootedIs(f, name, id, sectors);
    BootedIsValid(f, name, id, sectors);
    ValidBooted(f, WithBoot(f, name, id, sectors).value);
  }

  lemma ValidBooted(f: Format, img: seq<byte>)
    requires !f.D64? && |img| >= Size(f) && Booted(f, img) && Valid(f, img, BootInventory(f))
    requires Dense(BootInventory(f), 0)
    ensures BootedTakes(f, img)
  {
    hide Valid, DataRoom, RoomTo, GrowthRoom, Booted, WalkDir, DirEntries, SlotEntry, Size, NameOf, ClaimBoot,
      BlankInventory;
    BootShape(f);
    hide BootInventory;
    forall t: nat | t <= Tracks(f) ensures DataRoom(f, img, t) == RoomTo(f, t) { BootedRoom(f, img, t); }
    BootedGrowth(f, img, DirSectorCount(f));
    DenseListing(f, img, BootInventory(f), 0);
  }

  lemma BootShape(f: Format)
    ensures |BootInventory(f).dir| == 1 && BootInventory(f).files == map[]
  {
  }

  lemma BootedFits(f: Format, name: seq<byte>, id: seq<byte>, sectors: seq<seq<byte>>, reqs: seq<Request>,
      maxTrack: nat)
    requires !f.D64? && BootSectors(sectors) && LabelOk(name, id)
    ensures WithBoot(f, name, id, sectors).Some?
    ensures RunFits(f, WithBoot(f, name, id, sectors).value, BootInventory(f), reqs, maxTrack) <==>
      FitsBooted(f, reqs, maxTrack)
  {
    hide WithBoot, DataRoom, RoomTo, EntryRoom, Taken, BootInventory, KeysOf, EntryLimit, NameLengthOk, LabelOk, Size,
      Distinct;
    BootedAccounts(f, name, id, sectors);
    RoomNumbers();
    if reqs == [] {
      assert SumBlocks(reqs) == 0 && KeysOf(reqs) == [] && Distinct(KeysOf(reqs)) by { NoKeys(); }
    } else if Askable(f, reqs[0], maxTrack) {
      assert Track(f, maxTrack) <= Tracks(f) && RoomTo(f, Track(f, maxTrack)) == BlockLimit(f, maxTrack);
    }
  }

  lemma NoKeys()
    ensures KeysOf([]) == [] && Distinct(KeysOf([]))
  {
  }

  /** The D71 build succeeds exactly when every request is well formed, all data fits in the 451 free
      blocks of the first side (1115 of both) and there are at most 144 files. */
  lemma BuildExactly(sectors: seq<seq<byte>>, reqs: seq<Request>, fileTracks: nat)
    requires BootSectors(sectors)
    ensures BuildD71(sectors, reqs, fileTracks).Some? <==> FitsBooted(D71, reqs, fileTracks)
  {
    hide Valid, WithBoot, Run, RunInventory, RunFits, FitsBooted, BootInventory, Accounts, BootHolds;
    BootedIsValid(D71, DEFAULT_NAME, DEFAULT_ID, sectors);
    RunExactly(D71, WithBoot(D71, DEFAULT_NAME, DEFAULT_ID, sectors).value, BootInventory(D71), reqs, fileTracks);
    BootedFits(D71, DEFAULT_NAME, DEFAULT_ID, sectors, reqs, fileTracks);
  }
}
