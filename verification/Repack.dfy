/** Building a native-boot D71 and repacking it into a D81: the disk half of `build_image` in
    build_d71.py, and `build_image` of build_d81.py. */
module Repack {
  import opened Bytes
  import opened Geometry
  import opened Bam
  import opened DiskRead
  import opened Inventory
  import opened Writing
  import opened Directory
  import opened DirectoryProofs
  import opened Install
  import opened InstallProofs
  import opened InstallTheorems
  import opened Listings
  import opened Blank
  import opened Runs

  /** One boot sector and PAYLOAD_BLOCKS payload sectors. */
  const BOOT_BLOCKS: nat := 1 + 0xD400 / 256

  /** How the first boot sector begins. */
  const BOOT_MAGIC: seq<byte> := [67, 66, 77, 0, 0x1C, 0, 0xD4]

  const DEFAULT_NAME: seq<byte> := [85, 68, 69, 75, 83]
  const DEFAULT_ID: seq<byte> := [48, 49]

  predicate BootSectors(sectors: seq<seq<byte>>) {
    |sectors| == BOOT_BLOCKS && forall i | 0 <= i < |sectors| :: |sectors[i]| == 256
  }

  /** A blank disk with its boot sectors written and marked. */
  function WithBoot(f: Format, name: seq<byte>, id: seq<byte>, sectors: seq<seq<byte>>): (o: Option<seq<byte>>)
    requires !f.D64? && BootSectors(sectors)
    ensures o.Some? ==> |o.value| == Size(f)
  {
    match BlankImage(f, name, id)
    case None => None
    case Some(img) =>
      BootLocationsFit(f, BOOT_BLOCKS);
      match WriteChain(f, img, BootLocations(BOOT_BLOCKS), sectors, BOOT_BLOCKS)
      case Failed(_, _) => None
      case Done(booted) => Some(booted)
  }

  /** The disk half of the D71 build: boot sectors first, then every file. */
  function BuildD71(sectors: seq<seq<byte>>, reqs: seq<Request>, fileTracks: nat): (o: Option<seq<byte>>)
    requires BootSectors(sectors)
    ensures o.Some? ==> |o.value| == Size(D71)
  {
    match WithBoot(D71, DEFAULT_NAME, DEFAULT_ID, sectors)
    case None => None
    case Some(img) => match Run(D71, img, reqs, fileTracks) case Failed(_, _) => None case Done(built) => Some(built)
  }

  // ----- repacking

  function Decode(name: seq<byte>): (s: Option<string>) {
    if forall i | 0 <= i < |name| :: name[i] < 128
    then Some(seq(|name|, i requires 0 <= i < |name| && name[i] < 128 => name[i] as char))
    else None
  }

  function UpperBytes(name: seq<byte>): (u: seq<byte>) {
    seq(|name|, i requires 0 <= i < |name| => if 97 <= name[i] <= 122 then name[i] - 32 else name[i])
  }

  /** The installs the repack asks for; None when a name is not ASCII or a chain cannot be read. */
  function RequestsFor(source: seq<byte>, entries: seq<seq<byte>>): (r: Option<seq<Request>>)
    requires |source| >= Size(D71) && forall e | e in entries :: |e| == 30
    ensures r.Some? ==> |r.value| == |entries|
    decreases |entries|
  {
    if entries == [] then Some([]) else
      var e := entries[|entries| - 1];
      match RequestsFor(source, entries[..|entries| - 1])
      case None => None
      case Some(reqs) =>
        if Decode(NameOf(e)).None? || FileBytes(D71, source, e).None? then None
        else Some(reqs + [Request(Decode(NameOf(e)).value, FileBytes(D71, source, e).value, e[0])])
  }

  function SourceSectors(source: seq<byte>, n: nat): (s: seq<seq<byte>>)
    requires |source| >= Size(D71) && n <= 357
    ensures |s| == n && forall i | 0 <= i < n :: |s[i]| == 256
    decreases n
  {
    if n == 0 then [] else
      BootAtClosed(n - 1);
      SourceSectors(source, n - 1) + [Slice(D71, source, BootAt(n - 1), 0, 256)]
  }

  function LabelOf(source: seq<byte>): (seq<byte>, seq<byte>)
    requires |source| >= Size(D71)
  {
    var header := Loc(18, 0);
    (Stripped(Slice(D71, source, header, 0x90, 0xA0)), Slice(D71, source, header, 0xA2, 0xA4))
  }

  function Repacked(source: seq<byte>): (r: Option<seq<byte>>)
    ensures r.Some? ==> |r.value| == Size(D81)
  {
    if |source| != Size(D71) || source[..7] != BOOT_MAGIC then None else
    var (name, id) := LabelOf(source);
    match WithBoot(D81, name, id, SourceSectors(source, BOOT_BLOCKS))
    case None => None
    case Some(img) =>
      var listing := DirEntries(D71, source);
      if !listing.whole then None else
      match RequestsFor(source, listing.entries)
      case None => None
      case Some(reqs) => match Run(D81, img, reqs, 80) case Failed(_, _) => None case Done(image) => Some(image)
  }

  // ----- what a booted, freshly built disk is

  ghost function BootInventory(f: Format): Inventory {
    BlankInventory(f).(owner := ClaimBoot(BlankInventory(f).owner, BootLocations(BOOT_BLOCKS)))
  }

  ghost predicate BootHolds(f: Format, img: seq<byte>, sectors: seq<seq<byte>>)
    requires |img| >= Size(f) && BootSectors(sectors)
  {
    forall i | 0 <= i < BOOT_BLOCKS :: InDisk(f, BootAt(i)) && Slice(f, img, BootAt(i), 0, 256) == sectors[i]
  }

  lemma BootedIsValid(f: Format, name: seq<byte>, id: seq<byte>, sectors: seq<seq<byte>>)
    requires !f.D64? && BootSectors(sectors)
    ensures WithBoot(f, name, id, sectors).Some? <==> LabelOk(name, id)
    ensures LabelOk(name, id) ==>
      var img := WithBoot(f, name, id, sectors).value;
      && Valid(f, img, BootInventory(f)) && Dense(BootInventory(f), 0) && BootHolds(f, img, sectors)
  {
    hide Valid, IsFree, WriteChain, BootAt, BootLocations, FreeBlocks, BlankInventory, ClaimBoot, MarkAll, Labelled,
      ReservedSide2, Reserved;
    var locs := BootLocations(BOOT_BLOCKS);
    BootLocationsFit(f, BOOT_BLOCKS);
    if LabelOk(name, id) {
      BlankIsValid(f, name, id);
      var blank := BlankImage(f, name, id).value;
      BootWritable(f, blank);
      BootKeepsValid(f, blank, BlankInventory(f), locs, sectors);
      NoFilesYet(f);
      BootReads(f, WithBoot(f, name, id, sectors).value, sectors);
    }
  }

  lemma NoFilesYet(f: Format)
    ensures Dense(BootInventory(f), 0)
  {
    assert BootInventory(f).files == map[];
  }

  lemma BootWritable(f: Format, blank: seq<byte>)
    requires Valid(f, blank, BlankInventory(f))
    requires forall l | InDisk(f, l) :: IsFree(f, blank, l) <==> !IsBam(f, l) && l != FirstDir(f)
    ensures Writable(f, blank, BootLocations(BOOT_BLOCKS))
  {
    hide IsFree, BootLocations, TrackSound, IsBam;
    BootLocationsFit(f, BOOT_BLOCKS);
    forall l | l in BootLocations(BOOT_BLOCKS) ensures IsFree(f, blank, l) && !IsBam(f, l) { assert l.track < 18; }
  }

  lemma BootReads(f: Format, img: seq<byte>, sectors: seq<seq<byte>>)
    requires |img| >= Size(f) && BootSectors(sectors) && OnDisk(f, BootLocations(BOOT_BLOCKS))
    requires forall j | 0 <= j < BOOT_BLOCKS :: HoldsBlock(f, img, BootLocations(BOOT_BLOCKS), sectors, j)
    ensures BootHolds(f, img, sectors)
  {
    hide BootAt, BootLocations, ByteAt, SectorsPerTrack;
    var locs := BootLocations(BOOT_BLOCKS);
    forall i | 0 <= i < BOOT_BLOCKS ensures InDisk(f, BootAt(i)) && Slice(f, img, BootAt(i), 0, 256) == sectors[i] {
      BootElements(BOOT_BLOCKS, i);
      assert locs[i] in locs && HoldsBlock(f, img, locs, sectors, i);
    }
  }

  /** A run from a booted disk keeps the boot sectors' bytes. */
  lemma BootSurvives(f: Format, a: seq<byte>, b: seq<byte>, inv': Inventory, sectors: seq<seq<byte>>)
    requires |a| == |b| == Size(f) && BootSectors(sectors) && BootHolds(f, a, sectors)
    requires BootKept(f, a, BootInventory(f), b, inv')
    ensures BootHolds(f, b, sectors)
  {
    hide SectorsPerTrack, BootAt, BootLocations;
    forall i | 0 <= i < BOOT_BLOCKS ensures InDisk(f, BootAt(i)) && Slice(f, b, BootAt(i), 0, 256) == sectors[i] {
      BootElements(BOOT_BLOCKS, i);
      assert BootAt(i) in BootLocations(BOOT_BLOCKS);
      assert IsBoot(BootInventory(f), BootAt(i));
      SameBytes(f, a, b, BootAt(i));
      assert Slice(f, b, BootAt(i), 0, 256) == Slice(f, a, BootAt(i), 0, 256);
    }
  }

  lemma {:induction false} DensePrefix(f: Format, img: seq<byte>, dir: seq<Loc>, n: nat, m: nat)
    requires |img| >= Size(f) && DirInDisk(f, dir) && n <= m <= 8 * |dir|
    requires forall s | 0 <= s < n :: SlotEntry(f, img, dir, s)[0] != 0
    requires forall s | n <= s < m :: SlotEntry(f, img, dir, s)[0] == 0
    ensures |OccupiedSlots(f, img, dir, m)| == n
    ensures forall i | 0 <= i < n :: OccupiedSlots(f, img, dir, m)[i] == SlotEntry(f, img, dir, i)
    decreases m
  {
    hide SlotEntry;
    if n < m {
      DensePrefix(f, img, dir, n, m - 1);
      assert SlotEntry(f, img, dir, m - 1)[0] == 0;
    } else if n > 0 {
      DensePrefix(f, img, dir, n - 1, n - 1);
      assert SlotEntry(f, img, dir, n - 1)[0] != 0;
    }
  }

  /** On a disk whose files fill the first n slots the listing is those slots in order. */
  lemma DenseListing(f: Format, img: seq<byte>, inv: Inventory, n: nat)
    requires Valid(f, img, inv) && Dense(inv, n)
    ensures var listing := DirEntries(f, img);
      && listing.whole && |listing.entries| == n && n <= 8 * |inv.dir|
      && forall i | 0 <= i < n :: listing.entries[i] == SlotEntry(f, img, inv.dir, i)
  {
    hide SlotEntry, IsFree, TrackSound, SlotSound, FileSound, WalkDir, Occupied, OccupiedSlots;
    WalkLists(f, img, inv);
    ListedSlots(f, img, inv.dir, |inv.dir|);
    forall s: nat ensures s in inv.files ==> s < 8 * |inv.dir| {
      SlotTaken(f, img, inv, s);
    }
    forall s | 0 <= s < 8 * |inv.dir|
      ensures s in inv.files <==> SlotEntry(f, img, inv.dir, s)[0] != 0
    {
      SlotTaken(f, img, inv, s);
    }
    assert n > 0 ==> n - 1 in inv.files;
    DensePrefix(f, img, inv.dir, n, 8 * |inv.dir|);
  }

  /** Entry i of the listing is the file that request i asked for. */
  ghost predicate ListsRequests(f: Format, img: seq<byte>, reqs: seq<Request>)
    requires |img| >= Size(f)
  {
    var listing := DirEntries(f, img);
    && listing.whole && |listing.entries| == |reqs|
    && forall i | 0 <= i < |reqs| :: Answers(f, img, listing.entries[i], reqs[i])
  }

  ghost predicate Answers(f: Format, img: seq<byte>, e: seq<byte>, req: Request)
    requires |img| >= Size(f) && |e| == 30
  {
    NameLengthOk(req.name) && FileBytes(f, img, e) == Some(req.data) && NameOf(e) == Encode(req.name).value &&
      e[0] == req.fileType
  }

  lemma RunFromBoot(f: Format, name: seq<byte>, id: seq<byte>, sectors: seq<seq<byte>>, reqs: seq<Request>,
      maxTrack: nat)
    requires !f.D64? && BootSectors(sectors) && LabelOk(name, id)
    ensures WithBoot(f, name, id, sectors).Some?
    ensures var img := WithBoot(f, name, id, sectors).value;
      var o, inv' := Run(f, img, reqs, maxTrack), RunInventory(f, img, BootInventory(f), reqs, maxTrack);
      && Valid(f, o.image, inv')
      && (o.Done? ==> BootHolds(f, o.image, sectors) && ListsRequests(f, o.image, reqs))
  {
    hide Valid, Run, RunInventory, BootHolds, Stores, KeepsFile, SlotEntry, FileBytes, NameOf, Encode, WalkDir,
      BootInventory, WithBoot;
    BootedIsValid(f, name, id, sectors);
    var img := WithBoot(f, name, id, sectors).value;
    var o, inv' := Run(f, img, reqs, maxTrack), RunInventory(f, img, BootInventory(f), reqs, maxTrack);
    RunTheorem(f, img, BootInventory(f), reqs, maxTrack, 0);
    if o.Done? {
      BootSurvives(f, img, o.image, inv', sectors);
      DenseListing(f, o.image, inv', |reqs|);
      forall i | 0 <= i < |reqs| ensures Answers(f, o.image, DirEntries(f, o.image).entries[i], reqs[i]) {
        StoredAnswers(f, o.image, inv', i, reqs[i]) by { assert Stores(f, o.image, inv', 0 + i, reqs[i]); }
      }
    }
  }

  lemma StoredAnswers(f: Format, img: seq<byte>, inv: Inventory, slot: nat, req: Request)
    requires |img| >= Size(f) && DirInDisk(f, inv.dir) && Stores(f, img, inv, slot, req)
    ensures slot < 8 * |inv.dir| && Answers(f, img, SlotEntry(f, img, inv.dir, slot), req)
  {
  }

  /** Every D71 build that succeeds lists exactly the requested files, in order, each with its name,
      type and bytes, and every boot sector holds its bytes; the disk is sound. */
  lemma BuildTheorem(sectors: seq<seq<byte>>, reqs: seq<Request>, fileTracks: nat)
    requires BootSectors(sectors) && BuildD71(sectors, reqs, fileTracks).Some?
    ensures var b := BuildD71(sectors, reqs, fileTracks).value;
      && ListsRequests(D71, b, reqs) && BootHolds(D71, b, sectors)
      && exists inv :: Valid(D71, b, inv)
  {
    hide Valid, Run, RunInventory, BootHolds, ListsRequests, WithBoot;
    RunFromBoot(D71, DEFAULT_NAME, DEFAULT_ID, sectors, reqs, fileTracks);
  }

  // ----- the repack preserves what the disk means

  lemma {:induction false} RequestsAnswer(source: seq<byte>, entries: seq<seq<byte>>, i: nat)
    requires |source| >= Size(D71) && (forall e | e in entries :: |e| == 30) && i < |entries|
    requires RequestsFor(source, entries).Some?
    ensures var req := RequestsFor(source, entries).value[i];
      && Decode(NameOf(entries[i])) == Some(req.name)
      && FileBytes(D71, source, entries[i]) == Some(req.data)
      && req.fileType == entries[i][0]
    decreases |entries|
  {
    hide FileBytes, NameOf, Decode;
    if i < |entries| - 1 { RequestsAnswer(source, entries[..|entries| - 1], i); }
  }

  lemma EncodeDecoded(name: seq<byte>)
    requires Decode(name).Some? && Encode(Decode(name).value).Some?
    ensures Encode(Decode(name).value).value == UpperBytes(name)
  {
    var s := Decode(name).value;
    forall i | 0 <= i < |name| ensures Encode(s).value[i] == UpperBytes(name)[i] {
      assert Encode(s).value[i] == Upper(s[i]) as int;
    }
  }

  lemma {:induction false} SourceSectorAt(source: seq<byte>, n: nat, i: nat)
    requires |source| >= Size(D71) && i < n <= 357
    ensures InDisk(D71, BootAt(i)) && SourceSectors(source, n)[i] == Slice(D71, source, BootAt(i), 0, 256)
    decreases n
  {
    hide BootAt;
    BootAtClosed(i);
    if i < n - 1 { SourceSectorAt(source, n - 1, i); }
  }

  /** The same files in the same order: type, upper-case name and byte stream. */
  ghost predicate SameFiles(a: seq<byte>, b: seq<byte>)
    requires |a| >= Size(D71) && |b| >= Size(D81)
  {
    var from, to := DirEntries(D71, a), DirEntries(D81, b);
    && from.whole && to.whole && |to.entries| == |from.entries|
    && forall i | 0 <= i < |from.entries| :: SameFile(a, from.entries[i], b, to.entries[i])
  }

  ghost predicate SameFile(a: seq<byte>, e: seq<byte>, b: seq<byte>, e': seq<byte>)
    requires |a| >= Size(D71) && |b| >= Size(D81) && |e| == 30 && |e'| == 30
  {
    && e'[0] == e[0] && NameOf(e') == UpperBytes(NameOf(e))
    && FileBytes(D71, a, e).Some? && FileBytes(D81, b, e') == FileBytes(D71, a, e)
  }

  ghost predicate SameBoot(a: seq<byte>, b: seq<byte>)
    requires |a| >= Size(D71) && |b| >= Size(D81)
  {
    forall i | 0 <= i < BOOT_BLOCKS ::
      InDisk(D71, BootAt(i)) && InDisk(D81, BootAt(i)) &&
        Slice(D81, b, BootAt(i), 0, 256) == Slice(D71, a, BootAt(i), 0, 256)
  }

  /** The D81 lists the same files in the same order with the same streams, and every boot sector sits
      at the same track and sector with the same bytes. */
  lemma RepackKeeps(source: seq<byte>)
    requires Repacked(source).Some?
    ensures |source| == Size(D71)
    ensures SameFiles(source, Repacked(source).value) && SameBoot(source, Repacked(source).value)
    ensures exists inv :: Valid(D81, Repacked(source).value, inv)
  {
    hide Valid, Run, RunInventory, WithBoot, WalkDir, FileBytes, SourceSectors, RequestsFor, BootAt, NameOf, Decode,
      Encode, BootHolds;
    var (name, id) := LabelOf(source);
    var sectors, entries := SourceSectors(source, BOOT_BLOCKS), DirEntries(D71, source).entries;
    var reqs, b := RequestsFor(source, entries).value, Repacked(source).value;
    BootedIsValid(D81, name, id, sectors);
    RunFromBoot(D81, name, id, sectors, reqs, 80);
    forall i | 0 <= i < |entries| ensures SameFile(source, entries[i], b, DirEntries(D81, b).entries[i]) {
      RequestsAnswer(source, entries, i);
      assert Answers(D81, b, DirEntries(D81, b).entries[i], reqs[i]);
      EncodeDecoded(NameOf(entries[i]));
    }
    BootMoved(source, b, sectors);
  }

  lemma BootMoved(source: seq<byte>, b: seq<byte>, sectors: seq<seq<byte>>)
    requires |source| >= Size(D71) && |b| >= Size(D81) && sectors == SourceSectors(source, BOOT_BLOCKS)
    requires BootHolds(D81, b, sectors)
    ensures SameBoot(source, b)
  {
    hide BootAt, SourceSectors;
    forall i | 0 <= i < BOOT_BLOCKS
      ensures InDisk(D71, BootAt(i)) && InDisk(D81, BootAt(i))
      ensures Slice(D81, b, BootAt(i), 0, 256) == Slice(D71, source, BootAt(i), 0, 256)
    {
      SourceSectorAt(source, BOOT_BLOCKS, i);
    }
  }
}
