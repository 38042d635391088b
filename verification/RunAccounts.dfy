/** What whole runs of installs cost, and exactly when they succeed: the data sectors, the directory
    entries and, on the D81, the names. */
module RunAccounts {
  import opened Bytes
  import opened Geometry
  import opened Bam
  import opened DiskRead
  import opened Inventory
  import opened Writing
  import opened Directory
  import opened DirectoryProofs
  import opened Install
  import opened InstallProofs
  import opened InstallTheorems
  import opened Listings
  import opened Runs

  // ----- the three accounts of a disk

  /** Sectors that may hold file data, as far as track `top`. */
  ghost function DataRoom(f: Format, img: seq<byte>, top: nat): nat
    requires |img| >= Size(f)
  {
    |FreeList(f, img, top)|
  }

  /** Free directory-track sectors below n that the directory may still take. */
  ghost function GrowthRoom(f: Format, img: seq<byte>, n: nat): nat
    requires |img| >= Size(f)
    decreases n
  {
    if n <= FirstGrowth(f) then 0
    else GrowthRoom(f, img, n - 1) + if IsFree(f, img, Loc(DirTrack(f), n - 1)) then 1 else 0
  }

  /** Entries the directory can still take: its empty slots, and eight for each sector it may grow by. */
  ghost function EntryRoom(f: Format, img: seq<byte>, inv: Inventory): int
    requires |img| >= Size(f)
  {
    8 * |inv.dir| - |inv.files| + 8 * GrowthRoom(f, img, DirSectorCount(f))
  }

  /** Some directory entry has this name. */
  ghost predicate Taken(f: Format, img: seq<byte>, key: seq<byte>)
    requires |img| >= Size(f)
  {
    exists e | e in DirEntries(f, img).entries :: NameOf(e) == key
  }

  /** From a to b: `blocks` data sectors, one entry for each name, and exactly those names were taken;
      the free blocks paid for the data and for each sector the directory grew by. */
  ghost predicate Accounts(f: Format, a: seq<byte>, inv: Inventory, b: seq<byte>, inv': Inventory, top: nat,
      blocks: nat, names: seq<seq<byte>>)
  {
    && |a| == |b| == Size(f) && |inv.dir| <= |inv'.dir|
    && DataRoom(f, b, top) == DataRoom(f, a, top) - blocks
    && EntryRoom(f, b, inv') == EntryRoom(f, a, inv) - |names|
    && FreeBlocks(f, b, Tracks(f)) == FreeBlocks(f, a, Tracks(f)) - blocks - (|inv'.dir| - |inv.dir|)
    && forall key :: Taken(f, b, key) <==> Taken(f, a, key) || key in names
  }

  lemma AccountsAdd(f: Format, a: seq<byte>, inv: Inventory, m: seq<byte>, mid: Inventory, b: seq<byte>,
      inv': Inventory, top: nat,
      blocks: nat, names: seq<seq<byte>>, more: nat, others: seq<seq<byte>>)
    requires Accounts(f, a, inv, m, mid, top, blocks, names) && Accounts(f, m, mid, b, inv', top, more, others)
    ensures Accounts(f, a, inv, b, inv', top, blocks + more, names + others)
  {
    hide Taken, DataRoom, EntryRoom, FreeBlocks;
  }

  // ----- counting

  lemma {:induction false} DistinctCount<T>(s: seq<T>)
    requires Distinct(s)
    ensures |set x | x in s| == |s|
  {
    if s != [] {
      var rest, last := s[..|s| - 1], s[|s| - 1];
      DistinctCount(rest);
      assert s == rest + [last];
      assert (set x | x in s) == (set x | x in rest) + {last};
    }
  }

  /** Taking some free data sectors lowers the data room by their number. */
  lemma RoomLess(f: Format, a: seq<byte>, b: seq<byte>, top: nat, chain: seq<Loc>)
    requires |a| >= Size(f) && |b| >= Size(f) && Distinct(chain) && forall l | l in chain :: l in FreeList(f, a, top)
    requires forall m: Loc | m.track != DirTrack(f) :: IsFree(f, b, m) <==> IsFree(f, a, m) && m !in chain
    ensures DataRoom(f, b, top) == DataRoom(f, a, top) - |chain|
  {
    hide FreeList, IsFree;
    FreeListFacts(f, a, top);
    FreeListFacts(f, b, top);
    var from, to, taken := set x | x in FreeList(f, a, top), set x | x in FreeList(f, b, top), set x | x in chain;
    DistinctCount(FreeList(f, a, top));
    DistinctCount(FreeList(f, b, top));
    DistinctCount(chain);
    assert to == from - taken && taken <= from;
  }

  /** Taking sector g of the directory track lowers the growth room by one if g is one of its sectors. */
  lemma {:induction false} GrowthLess(f: Format, a: seq<byte>, b: seq<byte>, n: nat, g: nat)
    requires |a| >= Size(f) && |b| >= Size(f)
    requires forall s: nat :: IsFree(f, b, Loc(DirTrack(f), s)) <==> IsFree(f, a, Loc(DirTrack(f), s)) && s != g
    ensures GrowthRoom(f, b, n) ==
      GrowthRoom(f, a, n) - if FirstGrowth(f) <= g < n && IsFree(f, a, Loc(DirTrack(f), g)) then 1 else 0
    decreases n
  {
    hide IsFree;
    if n > FirstGrowth(f) { GrowthLess(f, a, b, n - 1, g); }
  }

  lemma {:induction false} GrowthSome(f: Format, img: seq<byte>, n: nat)
    requires |img| >= Size(f)
    ensures GrowthRoom(f, img, n) > 0 <==> exists s | FirstGrowth(f) <= s < n :: IsFree(f, img, Loc(DirTrack(f), s))
    decreases n
  {
    hide IsFree;
    if n > FirstGrowth(f) {
      GrowthSome(f, img, n - 1);
      if IsFree(f, img, Loc(DirTrack(f), n - 1)) { assert FirstGrowth(f) <= n - 1 < n; }
    }
  }

  ghost function Below(n: nat): (b: set<nat>)
    ensures |b| == n && forall s: nat :: s in b <==> s < n
  {
    if n == 0 then {} else Below(n - 1) + {n - 1}
  }

  lemma SubsetCount<T>(a: set<T>, b: set<T>)
    requires a <= b
    ensures |a| <= |b| && (|a| == |b| ==> a == b)
  {
    assert b == a + (b - a);
  }

  /** There are no more files than slots, and as many exactly when no slot is empty. */
  lemma SlotsCount(f: Format, img: seq<byte>, inv: Inventory)
    requires Valid(f, img, inv)
    ensures |img| >= Size(f) && DirInDisk(f, inv.dir) && |inv.files| <= 8 * |inv.dir|
    ensures |inv.files| < 8 * |inv.dir| <==> exists k | 0 <= k < 8 * |inv.dir| :: SlotEntry(f, img, inv.dir, k)[0] == 0
  {
    hide Valid, SlotEntry, DirInDisk, Size;
    SoundShape(f, img, inv);
    forall s: nat | s in inv.files ensures s < 8 * |inv.dir| { SlotTaken(f, img, inv, s); }
    assert |inv.files| == |inv.files.Keys|;
    SomeOutside(inv.files.Keys, 8 * |inv.dir|);
    if |inv.files| < 8 * |inv.dir| {
      var k: nat :| k < 8 * |inv.dir| && k !in inv.files.Keys;
      SlotTaken(f, img, inv, k);
    }
    if k :| 0 <= k < 8 * |inv.dir| && SlotEntry(f, img, inv.dir, k)[0] == 0 {
      SlotTaken(f, img, inv, k);
    }
  }

  lemma SomeOutside(a: set<nat>, n: nat)
    requires forall k | k in a :: k < n
    ensures |a| <= n && (|a| < n <==> exists k: nat :: k < n && k !in a)
  {
    var b := Below(n);
    SubsetCount(a, b);
    if |a| < n {
      assert a != b;
      assert !(b <= a);
      var k :| k in b && k !in a;
      assert k < n && k !in a;
    }
    if k: nat :| k < n && k !in a { assert k in b; }
  }

  /** The directory has room exactly when it can take an entry. */
  lemma EntryRoomIs(f: Format, img: seq<byte>, inv: Inventory)
    requires Valid(f, img, inv)
    ensures |img| >= Size(f) && DirInDisk(f, inv.dir) && EntryRoom(f, img, inv) >= 0
    ensures EntryRoom(f, img, inv) > 0 <==> DirectoryRoom(f, img, inv)
  {
    hide Valid, SlotEntry, DirInDisk, GrowthRoom, IsFree, Size;
    SoundShape(f, img, inv);
    SlotsCount(f, img, inv);
    GrowthSome(f, img, DirSectorCount(f));
  }

  // ----- what one install costs

  /** Placing a file takes exactly its chain, and the sector the directory grew by if it did. */
  lemma PlaceTakes(f: Format, img: seq<byte>, inv: Inventory, encoded: seq<byte>, data: seq<byte>, fileType: byte,
      chain: seq<Loc>, m: Loc)
    requires CanPlace(f, img, inv, encoded, data, fileType, chain)
    ensures IsFree(f, PlaceFile(f, img, encoded, data, fileType, chain).image, m) <==>
      IsFree(f, img, m) && m !in chain && !(MustGrow(f, img, inv) && m == Growth(f, img))
  {
    hide Valid, IsFree, FreeBlocks, SlotEntry, FindSlot, WriteChain, PlaceFile, Entered, WrittenImage, ClaimedInventory,
      ReadyImage, NewSlot, EntryFor, Linked, Owned, Gather, SameOwned, Size, HasSlot, MustGrow, Growth, EntryReady;
    SoundShape(f, img, inv);
    PlaceSteps(f, img, inv, encoded, data, fileType, chain);
    var w, inv2 := WrittenImage(f, img, inv, chain, data), ClaimedInventory(f, img, inv, chain);
    EnteredTakes(f, w, inv2, NewSlot(f, img, inv), chain, EntryFor(f, img, inv, encoded, data, fileType, chain), m);
    WrittenTakes(f, img, inv, encoded, data, fileType, chain, m);
    ReadyTakes(f, img, inv, m);
  }

  lemma EnteredTakes(f: Format, w: seq<byte>, inv: Inventory, k: nat, chain: seq<Loc>, e: seq<byte>, m: Loc)
    requires EntryReady(f, w, inv, k, chain, e)
    ensures DirInDisk(f, inv.dir) && (IsFree(f, Entered(f, w, inv, k, e), m) <==> IsFree(f, w, m))
  {
    hide Valid, IsFree, FreeBlocks, SlotEntry, Entered, Linked, Owned, SameSector, Describes, Size;
    SoundShape(f, w, inv);
    EntryFrame(f, w, inv, k, chain, e);
  }

  lemma WrittenTakes(f: Format, img: seq<byte>, inv: Inventory, encoded: seq<byte>, data: seq<byte>, fileType: byte,
      chain: seq<Loc>, m: Loc)
    requires CanPlace(f, img, inv, encoded, data, fileType, chain)
    ensures DirInDisk(f, inv.dir) && |inv.dir| > 0
    ensures IsFree(f, WrittenImage(f, img, inv, chain, data), m) <==>
      IsFree(f, ReadyImage(f, img, inv), m) && m !in chain
  {
    hide Valid, IsFree, FreeBlocks, SlotEntry, FindSlot, WriteChain, ReadyImage, ReadyInventory, NewSlot, SameOwned,
      SameSector, HoldsBlock, Size, HasSlot, First, WrittenImage, MustGrow;
    SoundShape(f, img, inv);
    ReadyChain(f, img, inv, encoded, data, fileType, chain);
    SlotReady(f, img, inv);
    WrittenKeepsValid(f, ReadyImage(f, img, inv), ReadyInventory(f, img, inv), chain, data, NewSlot(f, img, inv));
    FirstHolds(chain, |chain|, m);
    WrittenIs(f, img, inv, chain, data);
  }

  lemma WrittenIs(f: Format, img: seq<byte>, inv: Inventory, chain: seq<Loc>, data: seq<byte>)
    requires |img| >= Size(f) && DirInDisk(f, inv.dir) && HasSlot(f, img, inv) && |inv.dir| > 0 && OnDisk(f, chain)
    ensures WrittenImage(f, img, inv, chain, data) ==
      WriteChain(f, ReadyImage(f, img, inv), chain, FileBlocks(chain, data), |chain|).image
  {
    hide WriteChain, ReadyImage;
  }

  lemma ReadyTakes(f: Format, img: seq<byte>, inv: Inventory, m: Loc)
    requires Valid(f, img, inv) && HasSlot(f, img, inv)
    ensures |inv.dir| > 0
    ensures IsFree(f, ReadyImage(f, img, inv), m) <==>
      IsFree(f, img, m) && !(MustGrow(f, img, inv) && m == Growth(f, img))
  {
    hide Valid, IsFree, Extend, Growth, NewSlot, NoGrowth, DirInDisk, FreeBlocks, Size, InDisk, SameSector, Grown;
    SoundShape(f, img, inv);
    if MustGrow(f, img, inv) { GrowKeepsValid(f, img, inv); }
  }

  lemma PlaceData(f: Format, img: seq<byte>, inv: Inventory, encoded: seq<byte>, data: seq<byte>, fileType: byte,
      chain: seq<Loc>, top: nat)
    requires CanPlace(f, img, inv, encoded, data, fileType, chain)
    requires forall l | l in chain :: l in FreeList(f, img, top)
    ensures DataRoom(f, PlaceFile(f, img, encoded, data, fileType, chain).image, top) ==
      DataRoom(f, img, top) - Blocks(data)
  {
    hide Valid, IsFree, FreeList, DataRoom, PlaceFile, MustGrow, HasSlot, Growth;
    var b := PlaceFile(f, img, encoded, data, fileType, chain).image;
    forall m: Loc | m.track != DirTrack(f) ensures IsFree(f, b, m) <==> IsFree(f, img, m) && m !in chain {
      PlaceTakes(f, img, inv, encoded, data, fileType, chain, m);
    }
    RoomLess(f, img, b, top, chain);
  }

  lemma PlaceGrowth(f: Format, img: seq<byte>, inv: Inventory, encoded: seq<byte>, data: seq<byte>, fileType: byte,
      chain: seq<Loc>)
    requires CanPlace(f, img, inv, encoded, data, fileType, chain)
    ensures GrowthRoom(f, PlaceFile(f, img, encoded, data, fileType, chain).image, DirSectorCount(f)) ==
      GrowthRoom(f, img, DirSectorCount(f)) - if MustGrow(f, img, inv) then 1 else 0
  {
    hide Valid, IsFree, PlaceFile, MustGrow, HasSlot, Growth, NoGrowth, GrowthRoom, DirInDisk, Size, InDisk;
    SoundShape(f, img, inv);
    GrowthPlace(f, img, inv);
    var b, g := PlaceFile(f, img, encoded, data, fileType, chain).image,
      if MustGrow(f, img, inv) then Growth(f, img).sector else 40;
    forall s: nat ensures IsFree(f, b, Loc(DirTrack(f), s)) <==> IsFree(f, img, Loc(DirTrack(f), s)) && s != g {
      PlaceTakes(f, img, inv, encoded, data, fileType, chain, Loc(DirTrack(f), s));
      FreeBounds(f, img, Loc(DirTrack(f), s));
    }
    GrowthLess(f, img, b, DirSectorCount(f), g);
  }

  lemma GrowthPlace(f: Format, img: seq<byte>, inv: Inventory)
    requires |img| >= Size(f) && DirInDisk(f, inv.dir) && HasSlot(f, img, inv)
    ensures MustGrow(f, img, inv) ==> !NoGrowth(f, img) && FirstGrowth(f) <= Growth(f, img).sector < DirSectorCount(f)
    ensures MustGrow(f, img, inv) ==>
      Growth(f, img) == Loc(DirTrack(f), Growth(f, img).sector) && IsFree(f, img, Growth(f, img))
  {
    hide IsFree, NewSlot, DirInDisk;
  }

  lemma PlaceNames(f: Format, img: seq<byte>, inv: Inventory, encoded: seq<byte>, data: seq<byte>, fileType: byte,
      chain: seq<Loc>, key: seq<byte>)
    requires CanPlace(f, img, inv, encoded, data, fileType, chain)
    ensures Taken(f, PlaceFile(f, img, encoded, data, fileType, chain).image, key) <==>
      Taken(f, img, key) || key == encoded
  {
    hide Valid, PlaceFile, HasSlot, NewSlot, EntryFor, DirEntries, NameOf, FindSlot, SlotEntry, Describes;
    SoundShape(f, img, inv);
    InstallListed(f, img, inv, encoded, data, fileType, chain);
    var e, k := EntryFor(f, img, inv, encoded, data, fileType, chain), NewSlot(f, img, inv);
    NameReadsBack(encoded, e);
    var before, after := DirEntries(f, img).entries,
      DirEntries(f, PlaceFile(f, img, encoded, data, fileType, chain).image).entries;
    InsertHolds(before, k, e, after);
  }

  lemma InsertHolds(before: seq<seq<byte>>, k: nat, e: seq<byte>, after: seq<seq<byte>>)
    requires k <= |before| && after == before[..k] + [e] + before[k..]
    ensures forall x :: x in after <==> x in before || x == e
  {
    assert before == before[..k] + before[k..];
  }

  lemma NextCounts(f: Format, img: seq<byte>, inv: Inventory, chain: seq<Loc>)
    requires |img| >= Size(f) && DirInDisk(f, inv.dir) && HasSlot(f, img, inv) && NewSlot(f, img, inv) !in inv.files
    ensures var inv' := NextInventory(f, img, inv, chain);
      |inv'.files| == |inv.files| + 1 && |inv'.dir| == |inv.dir| + if MustGrow(f, img, inv) then 1 else 0
  {
    hide NewSlot, NoGrowth, Growth, Claim, DirInDisk;
    var k, files := NewSlot(f, img, inv), NextInventory(f, img, inv, chain).files;
    assert files.Keys == inv.files.Keys + {k} && |files| == |files.Keys| && |inv.files| == |inv.files.Keys|;
  }

  lemma PlaceAccounts(f: Format, img: seq<byte>, inv: Inventory, encoded: seq<byte>, data: seq<byte>, fileType: byte,
      chain: seq<Loc>, top: nat)
    requires CanPlace(f, img, inv, encoded, data, fileType, chain)
    requires forall l | l in chain :: l in FreeList(f, img, top)
    ensures DirInDisk(f, inv.dir)
    ensures Accounts(f, img, inv, PlaceFile(f, img, encoded, data, fileType, chain).image,
      NextInventory(f, img, inv, chain), top,
      Blocks(data), [encoded])
  {
    hide Valid, FreeList, PlaceFile, MustGrow, HasSlot, NextInventory, NewSlot, DataRoom, GrowthRoom, FreeBlocks, Taken,
      DirInDisk, FilesKept, BootKept, SlotEntry, FileBytes, NameOf, Size;
    SoundShape(f, img, inv);
    PlaceData(f, img, inv, encoded, data, fileType, chain, top);
    PlaceGrowth(f, img, inv, encoded, data, fileType, chain);
    InstallAddsFile(f, img, inv, encoded, data, fileType, chain);
    NextCounts(f, img, inv, chain);
    forall key
      ensures Taken(f, PlaceFile(f, img, encoded, data, fileType, chain).image, key) <==>
        Taken(f, img, key) || key in [encoded]
    {
      PlaceNames(f, img, inv, encoded, data, fileType, chain, key);
    }
  }

  // ----- exactly when a request, and a whole run, succeeds

  /** What the tools check of a request by itself. */
  ghost predicate Askable(f: Format, req: Request, maxTrack: nat) {
    && (req.fileType == 0x81 || req.fileType == 0x82) && NameLengthOk(req.name)
    && (!f.D81? ==> (maxTrack == 35 || maxTrack == 70) && (req.data == [] ==> req.fileType == 0x81))
  }

  ghost function KeyOf(req: Request): seq<byte> {
    if Encode(req.name).Some? then Encode(req.name).value else []
  }

  ghost predicate OneFits(f: Format, img: seq<byte>, inv: Inventory, req: Request, maxTrack: nat)
    requires |img| >= Size(f)
  {
    && Askable(f, req, maxTrack) && Blocks(req.data) <= DataRoom(f, img, Track(f, maxTrack)) &&
      EntryRoom(f, img, inv) > 0
    && (f.D81? ==> !Taken(f, img, KeyOf(req)))
  }

  lemma OneAccepted(f: Format, img: seq<byte>, inv: Inventory, req: Request, maxTrack: nat)
    requires Valid(f, img, inv)
    ensures |img| == Size(f) && (InstallOn(f, img, req, maxTrack).Done? <==> OneFits(f, img, inv, req, maxTrack))
  {
    hide Valid, FreeList, EntryRoom, DirectoryRoom, Encode, InstallPrg, InstallFile, NameOf, WalkDir, InstalledAs,
      DirEntries;
    SoundShape(f, img, inv);
    EntryRoomIs(f, img, inv);
    if f.D81? {
      InstallFileTheorem(img, inv, req.name, req.data, req.fileType);
    } else {
      InstallPrgTheorem(f, img, inv, req.name, req.data, req.fileType, maxTrack);
    }
  }

  lemma InstallIsPlace(f: Format, img: seq<byte>, inv: Inventory, req: Request, maxTrack: nat)
    requires Valid(f, img, inv) && InstallOn(f, img, req, maxTrack).Done?
    ensures DirInDisk(f, inv.dir) && HasSlot(f, img, inv) && Blocks(req.data) <= |FreeList(f, img, Track(f, maxTrack))|
    ensures var chain, key := Allocated(f, img, req.data, Track(f, maxTrack)), KeyOf(req);
      && CanPlace(f, img, inv, key, req.data, req.fileType, chain)
      && InstallOn(f, img, req, maxTrack) == PlaceFile(f, img, key, req.data, req.fileType, chain)
      && After(f, img, inv, req, maxTrack) == NextInventory(f, img, inv, chain)
  {
    hide Valid, FreeList, PlaceFile, DirectoryRoom, HasSlot, NextInventory, Encode, NameOf, WalkDir, InstalledAs,
      DirEntries, CanPlace;
    SoundShape(f, img, inv);
    Tried(f, img, inv, req.name, req.data, req.fileType, Track(f, maxTrack));
  }

  lemma OneAccounts(f: Format, img: seq<byte>, inv: Inventory, req: Request, maxTrack: nat)
    requires Valid(f, img, inv) && InstallOn(f, img, req, maxTrack).Done?
    ensures Accounts(f, img, inv, InstallOn(f, img, req, maxTrack).image, After(f, img, inv, req, maxTrack),
      Track(f, maxTrack),
      Blocks(req.data), [KeyOf(req)])
  {
    InstallIsPlace(f, img, inv, req, maxTrack);
    hide Valid, FreeList, PlaceFile, HasSlot, NextInventory, KeyOf, InstallOn, After, Accounts, CanPlace;
    var top := Track(f, maxTrack);
    var chain := Allocated(f, img, req.data, top);
    assert forall l | l in chain :: l in FreeList(f, img, top);
    PlaceAccounts(f, img, inv, KeyOf(req), req.data, req.fileType, chain, top);
  }

  ghost function SumBlocks(reqs: seq<Request>): nat
    decreases |reqs|
  {
    if reqs == [] then 0 else SumBlocks(reqs[..|reqs| - 1]) + Blocks(reqs[|reqs| - 1].data)
  }

  ghost function KeysOf(reqs: seq<Request>): (keys: seq<seq<byte>>)
    ensures |keys| == |reqs|
  {
    seq(|reqs|, i requires 0 <= i < |reqs| => KeyOf(reqs[i]))
  }

  /** Every request is well formed, the data and the entries fit, and on the D81 no name comes twice. */
  ghost predicate RunFits(f: Format, img: seq<byte>, inv: Inventory, reqs: seq<Request>, maxTrack: nat)
    requires |img| >= Size(f)
  {
    && (forall i | 0 <= i < |reqs| :: Askable(f, reqs[i], maxTrack))
    && SumBlocks(reqs) <= DataRoom(f, img, Track(f, maxTrack)) && |reqs| <= EntryRoom(f, img, inv)
    && (f.D81? ==> Distinct(KeysOf(reqs)) && forall key | key in KeysOf(reqs) :: !Taken(f, img, key))
  }

  lemma FitsMore(f: Format, img: seq<byte>, inv: Inventory, m: seq<byte>, mid: Inventory, reqs: seq<Request>,
      req: Request, maxTrack: nat)
    requires RunFitsAt(f, img, inv, reqs, maxTrack)
    requires Accounts(f, img, inv, m, mid, Track(f, maxTrack), SumBlocks(reqs), KeysOf(reqs))
    ensures RunFits(f, img, inv, reqs + [req], maxTrack) <==> OneFits(f, m, mid, req, maxTrack)
  {
    hide DataRoom, EntryRoom, Taken, KeyOf, Blocks, NameLengthOk, FreeBlocks;
    var all := reqs + [req];
    assert all[..|all| - 1] == reqs;
    assert KeysOf(all) == KeysOf(reqs) + [KeyOf(req)];
    assert forall i | 0 <= i < |reqs| :: all[i] == reqs[i];
    if f.D81? { DistinctAdd(KeysOf(reqs), KeyOf(req)); }
  }

  ghost predicate RunFitsAt(f: Format, img: seq<byte>, inv: Inventory, reqs: seq<Request>, maxTrack: nat) {
    |img| >= Size(f) && RunFits(f, img, inv, reqs, maxTrack)
  }

  lemma DistinctAdd<T>(s: seq<T>, x: T)
    ensures Distinct(s + [x]) <==> Distinct(s) && x !in s
  {
    var more := s + [x];
    assert more[|s|] == x && forall i | 0 <= i < |s| :: more[i] == s[i];
    if Distinct(more) {
      forall i | 0 <= i < |s| ensures s[i] != x { assert more[i] != more[|s|]; }
    }
  }

  lemma FitsFewer(f: Format, img: seq<byte>, inv: Inventory, reqs: seq<Request>, req: Request, maxTrack: nat)
    requires |img| >= Size(f) && RunFits(f, img, inv, reqs + [req], maxTrack)
    ensures RunFits(f, img, inv, reqs, maxTrack)
  {
    hide DataRoom, EntryRoom, Taken, KeyOf, Blocks, NameLengthOk, Size;
    var all := reqs + [req];
    assert all[..|all| - 1] == reqs;
    assert KeysOf(all) == KeysOf(reqs) + [KeyOf(req)];
    assert forall i | 0 <= i < |reqs| :: all[i] == reqs[i];
    if f.D81? { DistinctAdd(KeysOf(reqs), KeyOf(req)); }
  }

  lemma NothingAccounts(f: Format, img: seq<byte>, inv: Inventory, maxTrack: nat)
    requires Valid(f, img, inv)
    ensures |img| == Size(f) && RunFits(f, img, inv, [], maxTrack)
    ensures Accounts(f, img, inv, img, inv, Track(f, maxTrack), SumBlocks([]), KeysOf([]))
  {
    hide Valid, DataRoom, EntryRoom, Taken, FreeBlocks, Size, DirectoryRoom, DirInDisk;
    SoundShape(f, img, inv);
    EntryRoomIs(f, img, inv);
  }

  lemma AccountsMore(f: Format, a: seq<byte>, inv: Inventory, m: seq<byte>, mid: Inventory, b: seq<byte>,
      inv': Inventory, top: nat,
      reqs: seq<Request>, req: Request)
    requires Accounts(f, a, inv, m, mid, top, SumBlocks(reqs), KeysOf(reqs))
    requires Accounts(f, m, mid, b, inv', top, Blocks(req.data), [KeyOf(req)])
    ensures Accounts(f, a, inv, b, inv', top, SumBlocks(reqs + [req]), KeysOf(reqs + [req]))
  {
    hide Accounts, KeyOf, Blocks;
    AccountsAdd(f, a, inv, m, mid, b, inv', top, SumBlocks(reqs), KeysOf(reqs), Blocks(req.data), [KeyOf(req)]);
    assert (reqs + [req])[..|reqs + [req]| - 1] == reqs;
    assert KeysOf(reqs + [req]) == KeysOf(reqs) + [KeyOf(req)];
  }

  /** On any sound disk, for any list of requests: the run succeeds exactly when every request is well
      formed, the data needs no more sectors than the disk has free, the entries no more than the
      directory can hold, and on the D81 no name is taken or asked for twice. What a successful run
      took is exactly that; the free blocks also paid for the directory's growth. */
  lemma {:induction false} RunExactly(f: Format, img: seq<byte>, inv: Inventory, reqs: seq<Request>, maxTrack: nat)
    requires Valid(f, img, inv)
    ensures var o, inv' := Run(f, img, reqs, maxTrack), RunInventory(f, img, inv, reqs, maxTrack);
      && Valid(f, o.image, inv')
      && (o.Done? <==> RunFits(f, img, inv, reqs, maxTrack))
      && (o.Done? ==> Accounts(f, img, inv, o.image, inv', Track(f, maxTrack), SumBlocks(reqs), KeysOf(reqs)))
    decreases |reqs|
  {
    hide Valid, InstallOn, After, AddsFile, NewSlot, RunFits, OneFits, Accounts, SumBlocks, KeysOf, Size;
    NothingAccounts(f, img, inv, maxTrack);
    if reqs != [] {
      var before, req := reqs[..|reqs| - 1], reqs[|reqs| - 1];
      assert before + [req] == reqs;
      RunExactly(f, img, inv, before, maxTrack);
      var o, rest := Run(f, img, before, maxTrack), RunInventory(f, img, inv, before, maxTrack);
      if o.Done? {
        OneInstall(f, o.image, rest, req, maxTrack);
        OneAccepted(f, o.image, rest, req, maxTrack);
        FitsMore(f, img, inv, o.image, rest, before, req, maxTrack) by {
          assert RunFitsAt(f, img, inv, before, maxTrack);
        }
        if InstallOn(f, o.image, req, maxTrack).Done? {
          OneAccounts(f, o.image, rest, req, maxTrack);
          AccountsMore(f, img, inv, o.image, rest, InstallOn(f, o.image, req, maxTrack).image,
            After(f, o.image, rest, req, maxTrack),
            Track(f, maxTrack), before, req);
        }
      } else if RunFits(f, img, inv, reqs, maxTrack) {
        FitsFewer(f, img, inv, before, req, maxTrack);
      }
    }
  }
}
