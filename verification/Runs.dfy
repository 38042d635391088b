/** Whole disk builds: boot sectors, then any sequence of installs. */
module Runs {
  import opened Bytes
  import opened Geometry
  import opened Bam
  import opened DiskRead
  import opened Inventory
  import opened Writing
  import opened Directory
  import opened DirectoryProofs
  import opened Install
  import opened InstallProofs
  import opened InstallTheorems
  import opened Listings
  import opened Blank

  // ----- boot sectors

  /** The location after l in `boot_locations`, which counts sectors the D71 way. */
  function BootNext(l: Loc): Loc {
    if l.sector + 1 == SectorsPerTrack(D71, l.track) then Loc(l.track + 1, 0) else Loc(l.track, l.sector + 1)
  }

  function BootAt(k: nat): Loc {
    if k == 0 then Loc(1, 0) else BootNext(BootAt(k - 1))
  }

  function BootLocations(n: nat): (s: seq<Loc>)
    ensures |s| == n
  {
    if n == 0 then [] else BootLocations(n - 1) + [BootAt(n - 1)]
  }

  method ListBootLocations(blocks: nat) returns (locs: seq<Loc>)
    ensures locs == BootLocations(blocks)
  {
    var l := Loc(1, 0);
    locs := [];
    for i := 0 to blocks
      invariant l == BootAt(i) && locs == BootLocations(i)
    {
      locs := locs + [l];
      l := if l.sector + 1 == SectorsPerTrack(D71, l.track) then Loc(l.track + 1, 0) else Loc(l.track, l.sector + 1);
    }
  }

  lemma {:induction false} BootAtClosed(k: nat)
    requires k < 357
    ensures BootAt(k) == Loc(1 + k / 21, k % 21) && BootAt(k).track <= 17
  {
    if k > 0 { BootAtClosed(k - 1); }
  }

  lemma {:induction false} BootElements(n: nat, i: nat)
    requires i < n
    ensures BootLocations(n)[i] == BootAt(i)
    decreases n
  {
    if i < n - 1 { BootElements(n - 1, i); }
  }

  /** Boot locations below track 18 are distinct sectors of every format, away from the directory. */
  lemma BootLocationsFit(f: Format, n: nat)
    requires n <= 357
    ensures OnDisk(f, BootLocations(n)) && Distinct(BootLocations(n))
    ensures forall l | l in BootLocations(n) :: !IsBam(f, l) && l.track < 18 && l.sector < 21
  {
    hide BootLocations, BootAt;
    forall i | 0 <= i < n ensures BootLocations(n)[i] == Loc(1 + i / 21, i % 21) && 1 + i / 21 <= 17 {
      BootElements(n, i);
      BootAtClosed(i);
    }
  }

  ghost function ClaimBoot(owner: map<Loc, Owner>, locs: seq<Loc>): map<Loc, Owner> {
    map l | l in owner.Keys + (set x | x in locs) :: if l in locs then BootBlock else owner[l]
  }

  /** Writing boot sectors over free sectors keeps the disk sound; each then holds its bytes. */
  lemma BootKeepsValid(f: Format, img: seq<byte>, inv: Inventory, locs: seq<Loc>, sectors: seq<seq<byte>>)
    requires Valid(f, img, inv) && Writable(f, img, locs) && SectorBlocks(locs, sectors)
    ensures var o := WriteChain(f, img, locs, sectors, |locs|);
      && o.Done?
      && Valid(f, o.image, inv.(owner := ClaimBoot(inv.owner, locs)))
      && (forall m :: IsFree(f, o.image, m) <==> IsFree(f, img, m) && m !in locs)
      && FreeBlocks(f, o.image, Tracks(f)) == FreeBlocks(f, img, Tracks(f)) - |locs|
      && forall j | 0 <= j < |locs| :: HoldsBlock(f, o.image, locs, sectors, j)
  {
    hide WriteChain, IsFree, FreeBlocks, HoldsBlock, SameSector, SlotSound, FileSound, DirLink, IsBam, InDisk,
      TrackSound;
    WriteChainEffect(f, img, locs, sectors, |locs|);
    var b, owner := WriteChain(f, img, locs, sectors, |locs|).image, ClaimBoot(inv.owner, locs);
    forall l ensures l in First(locs, |locs|) <==> l in locs { FirstHolds(locs, |locs|, l); }
    forall l | l in inv.owner && inv.owner[l] != BamBlock
      ensures SameSector(f, img, b, l)
    {
      OwnerNotBam(f, img, inv, l);
    }
    ValidFrame(f, img, b, inv, owner);
  }

  // ----- sequences of installs

  datatype Request = Request(name: string, data: seq<byte>, fileType: byte)

  /** The install of whichever tool the format belongs to; `maxTrack` only matters off the D81. */
  function InstallOn(f: Format, img: seq<byte>, req: Request, maxTrack: nat): (o: Outcome)
    requires |img| == Size(f)
    ensures |o.image| == |img|
  {
    if f.D81? then InstallFile(img, req.name, req.data, req.fileType)
    else InstallPrg(f, img, req.name, req.data, req.fileType, maxTrack)
  }

  /** Installs in order, stopping at the first error as the tools do. */
  function Run(f: Format, img: seq<byte>, reqs: seq<Request>, maxTrack: nat): (o: Outcome)
    requires |img| == Size(f)
    ensures |o.image| == |img|
    decreases |reqs|
  {
    if reqs == [] then Done(img) else
      var o := Run(f, img, reqs[..|reqs| - 1], maxTrack);
      if o.Failed? then o else InstallOn(f, o.image, reqs[|reqs| - 1], maxTrack)
  }

  method RunInPlace(f: Format, image: array<byte>, reqs: seq<Request>, maxTrack: nat) returns (error: Option<DiskError>)
    requires image.Length == Size(f)
    modifies image
    ensures var o := Run(f, old(image[..]), reqs, maxTrack); image[..] == o.image && error == ErrorOf(o)
  {
    hide InstallOn;
    ghost var before := image[..];
    for i := 0 to |reqs|
      invariant Run(f, before, reqs[..i], maxTrack) == Done(image[..])
    {
      RunStep(f, before, reqs, i, maxTrack);
      if f.D81? {
        error := InstallD81File(image, reqs[i].name, reqs[i].data, reqs[i].fileType);
      } else {
        error := InstallPrgFile(f, image, reqs[i].name, reqs[i].data, reqs[i].fileType, maxTrack);
      }
      InstallOnIs(f, Run(f, before, reqs[..i], maxTrack).image, reqs[i], maxTrack);
      if error.Some? {
        RunStopped(f, before, reqs, i + 1, maxTrack);
        return;
      }
    }
    assert reqs[..|reqs|] == reqs;
    error := None;
  }

  lemma InstallOnIs(f: Format, img: seq<byte>, req: Request, maxTrack: nat)
    requires |img| == Size(f)
    ensures InstallOn(f, img, req, maxTrack) ==
      if f.D81? then InstallFile(img, req.name, req.data, req.fileType)
      else InstallPrg(f, img, req.name, req.data, req.fileType, maxTrack)
  {
  }

  lemma RunStep(f: Format, img: seq<byte>, reqs: seq<Request>, i: nat, maxTrack: nat)
    requires |img| == Size(f) && i < |reqs|
    ensures Run(f, img, reqs[..i + 1], maxTrack) ==
      var o := Run(f, img, reqs[..i], maxTrack); if o.Failed? then o else InstallOn(f, o.image, reqs[i], maxTrack)
  {
    hide InstallOn;
    assert reqs[..i + 1][..i] == reqs[..i];
  }

  lemma {:induction false} RunStopped(f: Format, img: seq<byte>, reqs: seq<Request>, i: nat, maxTrack: nat)
    requires |img| == Size(f) && i <= |reqs| && Run(f, img, reqs[..i], maxTrack).Failed?
    ensures Run(f, img, reqs, maxTrack) == Run(f, img, reqs[..i], maxTrack)
    decreases |reqs| - i
  {
    if i == |reqs| {
      assert reqs[..i] == reqs;
    } else {
      RunStep(f, img, reqs, i, maxTrack);
      RunStopped(f, img, reqs, i + 1, maxTrack);
    }
  }

  // ----- every run keeps the disk sound

  ghost function Track(f: Format, maxTrack: nat): nat {
    if f.D81? then 80 else maxTrack
  }

  /** The inventory after one request, whether it succeeds or not. */
  ghost function After(f: Format, img: seq<byte>, inv: Inventory, req: Request, maxTrack: nat): Inventory
    requires |img| == Size(f)
  {
    var top := Track(f, maxTrack);
    if InstallOn(f, img, req, maxTrack).Done? && DirInDisk(f, inv.dir) && HasSlot(f, img, inv) &&
      Blocks(req.data) <= |FreeList(f, img, top)|
    then NextInventory(f, img, inv, Allocated(f, img, req.data, top))
    else inv
  }

  lemma OneInstall(f: Format, img: seq<byte>, inv: Inventory, req: Request, maxTrack: nat)
    requires Valid(f, img, inv)
    ensures var o := InstallOn(f, img, req, maxTrack);
      && Valid(f, o.image, After(f, img, inv, req, maxTrack))
      && (o.Failed? ==> o.image == img)
      && (o.Done? ==>
        NameLengthOk(req.name) &&
          AddsFile(f, img, inv, o.image, After(f, img, inv, req, maxTrack), NewSlot(f, img, inv),
                                Encode(req.name).value, req.data, req.fileType))
  {
    hide Valid, FreeList, HasSlot, NextInventory, Encode, IsFree, FreeBlocks, KeepsFile, SameSector, SlotEntry,
      FileBytes, NameOf, DirectoryRoom, NewSlot;
    SoundShape(f, img, inv);
    if f.D81? {
      InstallFileTheorem(img, inv, req.name, req.data, req.fileType);
    } else {
      InstallPrgTheorem(f, img, inv, req.name, req.data, req.fileType, maxTrack);
    }
  }

  /** Slot `slot` holds what the request asked for. */
  ghost predicate Stores(f: Format, img: seq<byte>, inv: Inventory, slot: nat, req: Request)
    requires |img| >= Size(f) && DirInDisk(f, inv.dir)
  {
    && slot in inv.files && slot < 8 * |inv.dir| && NameLengthOk(req.name)
    && var e := SlotEntry(f, img, inv.dir, slot);
       FileBytes(f, img, e) == Some(req.data) && NameOf(e) == Encode(req.name).value && e[0] == req.fileType
  }

  /** The files fill exactly the first n slots. */
  ghost predicate Dense(inv: Inventory, n: nat) {
    forall s: nat :: s in inv.files <==> s < n
  }

  ghost function RunInventory(f: Format, img: seq<byte>, inv: Inventory, reqs: seq<Request>, maxTrack: nat): Inventory
    requires |img| == Size(f)
    decreases |reqs|
  {
    if reqs == [] then inv else
      var o, rest := Run(f, img, reqs[..|reqs| - 1], maxTrack), RunInventory(f, img, inv, reqs[..|reqs| - 1], maxTrack);
      if o.Failed? then rest else After(f, o.image, rest, reqs[|reqs| - 1], maxTrack)
  }

  /** From any sound disk whose files fill the first n slots, whatever is requested: the disk stays
      sound, and if no request failed the requested files fill the next slots in order, each
      reading back as its data, with every earlier file and boot sector unchanged. */
  lemma {:induction false} RunTheorem(f: Format, img: seq<byte>, inv: Inventory, reqs: seq<Request>, maxTrack: nat,
      n: nat)
    requires Valid(f, img, inv) && Dense(inv, n)
    ensures var o, inv' := Run(f, img, reqs, maxTrack), RunInventory(f, img, inv, reqs, maxTrack);
      && Valid(f, o.image, inv')
      && (o.Done? ==> RunStored(f, img, inv, o.image, inv', reqs, n))
  {
    hide Valid, InstallOn, After, Stores, KeepsFile, SameSector;
    SoundShape(f, img, inv);
    if reqs == [] {
      NothingRun(f, img, inv, n);
    } else {
      var before, req := reqs[..|reqs| - 1], reqs[|reqs| - 1];
      RunTheorem(f, img, inv, before, maxTrack, n);
      var o, rest := Run(f, img, before, maxTrack), RunInventory(f, img, inv, before, maxTrack);
      if o.Done? {
        OneInstall(f, o.image, rest, req, maxTrack);
        if InstallOn(f, o.image, req, maxTrack).Done? {
          OneMore(f, img, inv, o.image, rest, InstallOn(f, o.image, req, maxTrack).image,
            After(f, o.image, rest, req, maxTrack), before, req, n);
          assert before + [req] == reqs;
        }
      }
    }
  }

  ghost predicate RunStored(f: Format, a: seq<byte>, inv: Inventory, b: seq<byte>, inv': Inventory, reqs: seq<Request>,
      n: nat) {
    && |a| == |b| == Size(f) && DirInDisk(f, inv.dir) && DirInDisk(f, inv'.dir)
    && Dense(inv', n + |reqs|)
    && (forall i | 0 <= i < |reqs| :: Stores(f, b, inv', n + i, reqs[i]))
    && (forall s | 0 <= s < n :: KeepsFile(f, a, inv, b, inv', s))
    && BootKept(f, a, inv, b, inv')
  }

  lemma NothingRun(f: Format, img: seq<byte>, inv: Inventory, n: nat)
    requires Valid(f, img, inv) && Dense(inv, n)
    ensures RunStored(f, img, inv, img, inv, [], n)
  {
    hide Valid, BootKept, KeepsFile, Stores, DirInDisk, Size;
    SoundShape(f, img, inv);
    BootUnchanged(f, img, inv);
    forall s | 0 <= s < n ensures KeepsFile(f, img, inv, img, inv, s) { FileUnchanged(f, img, inv, s); }
  }

  lemma FileUnchanged(f: Format, img: seq<byte>, inv: Inventory, s: nat)
    requires Valid(f, img, inv) && s in inv.files
    ensures |img| >= Size(f) && DirInDisk(f, inv.dir) && KeepsFile(f, img, inv, img, inv, s)
  {
    SoundShape(f, img, inv);
    SlotTaken(f, img, inv, s);
    hide Valid, SlotEntry, FileBytes;
  }

  lemma BootUnchanged(f: Format, img: seq<byte>, inv: Inventory)
    requires Valid(f, img, inv)
    ensures |img| >= Size(f) && BootKept(f, img, inv, img, inv)
  {
    hide Valid, InDisk, SameSector, Size;
    SoundShape(f, img, inv);
    forall l | IsBoot(inv, l) ensures InDisk(f, l) && SameSector(f, img, img, l) {
      OwnerNotBam(f, img, inv, l);
      Unchanged(f, img, l);
    }
  }

  lemma DenseSlot(f: Format, img: seq<byte>, inv: Inventory, n: nat)
    requires Valid(f, img, inv) && Dense(inv, n)
    ensures NewSlot(f, img, inv) == n
  {
    hide SlotEntry, IsFree, NewSlot, Valid;
    SoundShape(f, img, inv);
    FirstEmpty(f, img, inv);
    SlotTaken(f, img, inv, NewSlot(f, img, inv));
    SlotTaken(f, img, inv, n);
    if n > 0 { SlotTaken(f, img, inv, n - 1); }
  }

  lemma SlotTaken(f: Format, img: seq<byte>, inv: Inventory, s: nat)
    requires Valid(f, img, inv)
    ensures s in inv.files ==> s < 8 * |inv.dir|
    ensures s < 8 * |inv.dir| ==> (s in inv.files <==> SlotEntry(f, img, inv.dir, s)[0] != 0)
  {
    hide SlotEntry, IsFree;
    if s < 8 * |inv.dir| { assert SlotSound(f, img, inv, s); }
    if s in inv.files { assert FileSound(f, img, inv, s); }
  }

  lemma OneMore(f: Format, a: seq<byte>, inv: Inventory, m: seq<byte>, mid: Inventory, b: seq<byte>, inv': Inventory,
      reqs: seq<Request>, req: Request, n: nat)
    requires Valid(f, a, inv) && Valid(f, m, mid) && RunStored(f, a, inv, m, mid, reqs, n)
    requires NameLengthOk(req.name)
    requires AddsFile(f, m, mid, b, inv', NewSlot(f, m, mid), Encode(req.name).value, req.data, req.fileType)
    ensures RunStored(f, a, inv, b, inv', reqs + [req], n)
  {
    hide Valid, SlotEntry, FileBytes, NameOf, Encode, BootKept, NewSlot;
    SoundShape(f, m, mid);
    SoundShape(f, b, inv');
    var k := n + |reqs|;
    DenseSlot(f, m, mid, k);
    forall i | 0 <= i < |reqs + [req]| ensures Stores(f, b, inv', n + i, (reqs + [req])[i]) {
      if i < |reqs| { assert Stores(f, m, mid, n + i, reqs[i]) && KeepsFile(f, m, mid, b, inv', n + i); }
    }
    forall s | 0 <= s < n ensures KeepsFile(f, a, inv, b, inv', s) {
      assert KeepsFile(f, a, inv, m, mid, s) && KeepsFile(f, m, mid, b, inv', s);
    }
    BootTwice(f, a, inv, m, mid, b, inv');
  }

  lemma BootTwice(f: Format, a: seq<byte>, inv: Inventory, m: seq<byte>, mid: Inventory, b: seq<byte>, inv': Inventory)
    requires |a| >= Size(f) && |m| >= Size(f) && |b| >= Size(f)
    requires BootKept(f, a, inv, m, mid) && BootKept(f, m, mid, b, inv')
    ensures BootKept(f, a, inv, b, inv')
  {
    hide SameSector, InDisk;
    forall l | IsBoot(inv, l)
      ensures IsBoot(inv', l) && InDisk(f, l) && SameSector(f, a, b, l)
    {
      SameTwice(f, a, m, b, l);
    }
  }
}
