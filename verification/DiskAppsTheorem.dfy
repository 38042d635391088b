/** Runs of installs on any sound disk, and what adding applications does to its files and names. */
module DiskAppsTheorem {
  import opened Bytes
  import opened Geometry
  import opened Bam
  import opened DiskRead
  import opened Inventory
  import opened Directory
  import opened DirectoryProofs
  import opened Install
  import opened InstallProofs
  import opened InstallTheorems
  import opened Listings
  import opened Runs
  import opened RunAccounts
  import opened Repack
  import opened SideOne
  import opened DiskApps

  // ----- a run on any sound disk

  /** The slots a successful run fills, one a request. */
  ghost function RunSlots(f: Format, img: seq<byte>, inv: Inventory, reqs: seq<Request>,
      maxTrack: nat): (slots: seq<nat>)
    requires |img| == Size(f)
    ensures |slots| == |reqs|
  {
    if reqs == [] then [] else
      var before := reqs[..|reqs| - 1];
      RunSlots(f, img, inv, before, maxTrack) +
        [SlotFor(f, Run(f, img, before, maxTrack).image, RunInventory(f, img, inv, before, maxTrack))]
  }

  ghost function SlotFor(f: Format, img: seq<byte>, inv: Inventory): nat
    requires |img| == Size(f)
  {
    if DirInDisk(f, inv.dir) && |inv.dir| > 0 then NewSlot(f, img, inv) else 0
  }

  /** The requested files fill those slots, which are new and distinct; every other file and every
      boot sector is kept. */
  ghost predicate Gained(f: Format, a: seq<byte>, inv: Inventory, b: seq<byte>, inv': Inventory, reqs: seq<Request>,
      slots: seq<nat>) {
    && |a| == |b| == Size(f) && DirInDisk(f, inv.dir) && DirInDisk(f, inv'.dir) && |slots| == |reqs|
    && Distinct(slots) && (forall i | 0 <= i < |slots| :: slots[i] !in inv.files)
    && (forall s :: s in inv'.files <==> s in inv.files || s in slots)
    && (forall i | 0 <= i < |reqs| :: Stores(f, b, inv', slots[i], reqs[i]))
    && FilesKept(f, a, inv, b, inv') && BootKept(f, a, inv, b, inv')
  }

  lemma NothingGained(f: Format, img: seq<byte>, inv: Inventory)
    requires Valid(f, img, inv)
    ensures Gained(f, img, inv, img, inv, [], [])
  {
    SoundShape(f, img, inv);
    NoneDistinct();
    FilesUnchanged(f, img, inv);
    BootUnchanged(f, img, inv);
    hide Valid, FilesKept, BootKept, Stores, DirInDisk, Distinct, Size;
  }

  lemma FilesUnchanged(f: Format, img: seq<byte>, inv: Inventory)
    requires Valid(f, img, inv)
    ensures |img| >= Size(f) && DirInDisk(f, inv.dir) && FilesKept(f, img, inv, img, inv)
  {
    SoundShape(f, img, inv);
    hide Valid, KeepsFile, DirInDisk, Size;
    forall s | s in inv.files ensures KeepsFile(f, img, inv, img, inv, s) { FileUnchanged(f, img, inv, s); }
  }

  lemma NoneDistinct()
    ensures Distinct<nat>([])
  {
  }

  lemma OneGained(f: Format, a: seq<byte>, inv: Inventory, m: seq<byte>, mid: Inventory, b: seq<byte>, inv': Inventory,
      reqs: seq<Request>, req: Request, slots: seq<nat>, k: nat)
    requires Gained(f, a, inv, m, mid, reqs, slots) && NameLengthOk(req.name)
    requires AddsFile(f, m, mid, b, inv', k, Encode(req.name).value, req.data, req.fileType)
    requires DirInDisk(f, inv'.dir) && |b| == Size(f)
    ensures Gained(f, a, inv, b, inv', reqs + [req], slots + [k])
  {
    hide Valid, SlotEntry, FileBytes, NameOf, Encode, BootKept;
    BootTwice(f, a, inv, m, mid, b, inv');
    var more := slots + [k];
    forall s
      ensures s in inv'.files <==> s in inv.files || s in more
    {
      assert s in inv'.files <==> s in mid.files || s == k;
    }
    forall i | 0 <= i < |reqs + [req]| ensures Stores(f, b, inv', more[i], (reqs + [req])[i]) {
      if i < |reqs| {
        assert slots[i] in slots && Stores(f, m, mid, slots[i], reqs[i]) && KeepsFile(f, m, mid, b, inv', slots[i]);
      }
    }
    forall s | s in inv.files ensures KeepsFile(f, a, inv, b, inv', s) {
      assert KeepsFile(f, a, inv, m, mid, s) && KeepsFile(f, m, mid, b, inv', s);
    }
  }

  /** From any sound disk, whatever is requested and whether or not the run fails: the disk stays
      sound. When no request failed every requested file is there, in a slot of its own, and no
      earlier file or boot sector has moved or changed. */
  lemma {:induction false} RunAnywhere(f: Format, img: seq<byte>, inv: Inventory, reqs: seq<Request>, maxTrack: nat)
    requires Valid(f, img, inv)
    ensures var o, inv' := Run(f, img, reqs, maxTrack), RunInventory(f, img, inv, reqs, maxTrack);
      && Valid(f, o.image, inv')
      && (o.Done? ==> Gained(f, img, inv, o.image, inv', reqs, RunSlots(f, img, inv, reqs, maxTrack)))
  {
    hide Valid, InstallOn, After, Gained, AddsFile, NewSlot;
    SoundShape(f, img, inv);
    if reqs == [] {
      NothingGained(f, img, inv);
    } else {
      var before, req := reqs[..|reqs| - 1], reqs[|reqs| - 1];
      RunAnywhere(f, img, inv, before, maxTrack);
      var o, rest := Run(f, img, before, maxTrack), RunInventory(f, img, inv, before, maxTrack);
      if o.Done? {
        SoundShape(f, o.image, rest);
        OneInstall(f, o.image, rest, req, maxTrack);
        var last, inv' := InstallOn(f, o.image, req, maxTrack), After(f, o.image, rest, req, maxTrack);
        if last.Done? {
          SoundShape(f, last.image, inv');
          OneGained(f, img, inv, o.image, rest, last.image, inv', before, req, RunSlots(f, img, inv, before, maxTrack),
            NewSlot(f, o.image, rest));
          assert before + [req] == reqs;
        }
      }
    }
  }

  // ----- the names read from a sound disk

  lemma KeysMore(a: seq<seq<byte>>, b: seq<seq<byte>>)
    requires forall e | e in a + b :: |e| == 30
    ensures (forall e | e in a :: |e| == 30) && (forall e | e in b :: |e| == 30) && Keys(a + b) == Keys(a) + Keys(b)
  {
    hide NameOf, UpperBytes;
    assert forall e | e in a :: e in a + b;
    assert forall e | e in b :: e in a + b;
    assert forall k :: k in Keys(a + b) <==> k in Keys(a) || k in Keys(b);
  }

  lemma NamesStep(f: Format, img: seq<byte>, l: Loc, seen: set<Loc>, names: set<seq<byte>>)
    requires !f.D81? && |img| >= Size(f) && InDisk(f, l) && l !in seen
    ensures var track, sector := ByteAt(f, img, l, 0), ByteAt(f, img, l, 1);
      var all := names + Keys(Occupied(f, img, l, 8));
      WalkNames(f, img, l, seen, names) ==
      if track == 0 then Some(all) else if track != 18 || sector == 0 then None
      else WalkNames(f, img, Loc(18, sector), seen + {l}, all)
  {
    hide Keys, Occupied, ByteAt, InDisk;
  }

  lemma NextLink(f: Format, img: seq<byte>, inv: Inventory, i: nat)
    requires !f.D81? && Valid(f, img, inv) && i < |inv.dir|
    ensures |img| >= Size(f) && DirInDisk(f, inv.dir) && InDisk(f, inv.dir[i])
    ensures var track, sector := ByteAt(f, img, inv.dir[i], 0), ByteAt(f, img, inv.dir[i], 1);
      if i + 1 < |inv.dir| then track == 18 && sector != 0 && Loc(18, sector) == inv.dir[i + 1] else track == 0
  {
    hide ByteAt, IsFree, BamSound, SlotSound, FileSound;
    DirShape(f, img, inv, i);
    if i + 1 < |inv.dir| { LinkGood(f, img, inv, i); }
  }

  lemma {:induction false} WalkNamesSound(f: Format, img: seq<byte>, inv: Inventory, i: nat, seen: set<Loc>)
    requires !f.D81? && Valid(f, img, inv) && i < |inv.dir| && forall j | i <= j < |inv.dir| :: inv.dir[j] !in seen
    ensures |img| >= Size(f) && DirInDisk(f, inv.dir)
    ensures WalkNames(f, img, inv.dir[i], seen, Keys(Listed(f, img, inv.dir, i))) ==
      Some(Keys(Listed(f, img, inv.dir, |inv.dir|)))
    decreases |inv.dir| - i
  {
    hide Occupied, ByteAt, IsFree, InDisk, AllSectors, Valid, Keys, WalkNames;
    NextLink(f, img, inv, i);
    NotLater(f, img, inv, i);
    var l := inv.dir[i];
    assert Listed(f, img, inv.dir, i + 1) == Listed(f, img, inv.dir, i) + Occupied(f, img, l, 8);
    KeysMore(Listed(f, img, inv.dir, i), Occupied(f, img, l, 8));
    NamesStep(f, img, l, seen, Keys(Listed(f, img, inv.dir, i)));
    if i + 1 < |inv.dir| {
      WalkNamesSound(f, img, inv, i + 1, seen + {l});
    }
  }

  ghost function KeyAt(f: Format, img: seq<byte>, inv: Inventory, s: nat): seq<byte>
    requires |img| >= Size(f) && DirInDisk(f, inv.dir) && s < 8 * |inv.dir|
  {
    UpperBytes(NameOf(SlotEntry(f, img, inv.dir, s)))
  }

  ghost predicate Named(f: Format, img: seq<byte>, inv: Inventory, key: seq<byte>)
    requires |img| >= Size(f) && DirInDisk(f, inv.dir)
  {
    exists s: nat :: s in inv.files && s < 8 * |inv.dir| && KeyAt(f, img, inv, s) == key
  }

  lemma ListedKeys(f: Format, img: seq<byte>, inv: Inventory, key: seq<byte>)
    requires Valid(f, img, inv)
    ensures |img| >= Size(f) && DirInDisk(f, inv.dir)
    ensures key in Keys(Listed(f, img, inv.dir, |inv.dir|)) <==> Named(f, img, inv, key)
  {
    hide SlotEntry, IsFree, TrackSound, WalkDir, Occupied, OccupiedSlots, Listed, NameOf, UpperBytes, FileSound;
    ListedSlots(f, img, inv.dir, |inv.dir|);
    var all := Listed(f, img, inv.dir, |inv.dir|);
    if key in Keys(all) {
      var e :| e in all && UpperBytes(NameOf(e)) == key;
      OccupiedIsSlot(f, img, inv.dir, 8 * |inv.dir|, e);
      var s :| 0 <= s < 8 * |inv.dir| && SlotEntry(f, img, inv.dir, s) == e && e[0] != 0;
      assert SlotSound(f, img, inv, s);
      assert KeyAt(f, img, inv, s) == key;
    }
    if Named(f, img, inv, key) {
      var s: nat :| s in inv.files && s < 8 * |inv.dir| && KeyAt(f, img, inv, s) == key;
      assert SlotSound(f, img, inv, s);
      OccupiedIsSlot(f, img, inv.dir, 8 * |inv.dir|, SlotEntry(f, img, inv.dir, s));
    }
  }

  /** The directory of a sound disk is always readable, and gives exactly its files' names. */
  lemma NamesRead(f: Format, img: seq<byte>, inv: Inventory, key: seq<byte>)
    requires Valid(f, img, inv)
    ensures |img| >= Size(f) && DirInDisk(f, inv.dir)
    ensures DirectoryNames(f, img).Some? && (key in DirectoryNames(f, img).value <==> Named(f, img, inv, key))
  {
    SoundShape(f, img, inv);
    FirstIs(f, img, inv);
    hide Valid, WalkNames, WalkDir, Listed, Named, Keys, SlotEntry;
    ListedKeys(f, img, inv, key);
    if f.D81? {
      ListingIs(f, img, inv);
    } else {
      WalkNamesSound(f, img, inv, 0, {});
      NothingListed(f, img, inv.dir);
    }
  }

  lemma FirstIs(f: Format, img: seq<byte>, inv: Inventory)
    requires Valid(f, img, inv)
    ensures |inv.dir| > 0 && inv.dir[0] == FirstDir(f)
  {
  }

  lemma ListingIs(f: Format, img: seq<byte>, inv: Inventory)
    requires Valid(f, img, inv)
    ensures |img| >= Size(f) && DirInDisk(f, inv.dir)
    ensures DirEntries(f, img) == Listing(Listed(f, img, inv.dir, |inv.dir|), true)
  {
    WalkLists(f, img, inv);
  }

  lemma NothingListed(f: Format, img: seq<byte>, dir: seq<Loc>)
    requires |img| >= Size(f) && DirInDisk(f, dir)
    ensures Keys(Listed(f, img, dir, 0)) == {}
  {
  }

  // ----- the checks

  ghost function Key(a: App): seq<byte>
    requires AppName(UpperAll(a.name))
  {
    AppNameEncodes(UpperAll(a.name));
    Encode(UpperAll(a.name)).value
  }

  /** Capitals, digits, underscore and hyphen, by their ASCII codes. */
  predicate PortableCode(c: int) { 0x41 <= c <= 0x5A || 0x30 <= c <= 0x39 || c == 0x5F || c == 0x2D }

  /** The names and files that are taken: a base of 1 to 12 portable characters and the suffix, and 17
      bytes or more that start with the executable's magic. */
  lemma AppRules(u: string, data: seq<byte>)
    ensures AppName(u) <==> exists base: string ::
      1 <= |base| <= 12 && u == base + ".BIN" && forall i | 0 <= i < |base| :: PortableCode(base[i] as int)
    ensures IsUdex(data) <==> |data| > 16 && data[0] == 0x55 && data[1] == 0x44 && data[2] == 0x45 && data[3] == 0x58
  {
    if AppName(u) {
      var base := u[..|u| - 4];
      assert u == base + ".BIN";
    }
    if base: string :| 1 <= |base| <= 12 && u == base + ".BIN" && forall i | 0 <= i < |base| ::
      PortableCode(base[i] as int)
    {
      assert forall i | 0 <= i < |base| :: u[i] == base[i];
    }
  }

  /** Portable, new, pairwise different names of UDEX images. */
  ghost predicate Acceptable(names: set<seq<byte>>, apps: seq<App>, n: nat)
    requires n <= |apps|
  {
    && (forall i | 0 <= i < n :: AppName(UpperAll(apps[i].name)) && IsUdex(apps[i].data) && Key(apps[i]) !in names)
    && (forall i, j | 0 <= i < j < n :: Key(apps[i]) != Key(apps[j]))
  }

  ghost predicate ChecksAs(c: Checked, names: set<seq<byte>>, apps: seq<App>, n: nat)
    requires n <= |apps| && Acceptable(names, apps, n)
  {
    && |c.reqs| == n && (forall i | 0 <= i < n :: c.reqs[i] == Request(UpperAll(apps[i].name), apps[i].data, 0x81))
    && (forall k :: k in c.names <==> k in names || exists i :: 0 <= i < n && Key(apps[i]) == k)
  }

  lemma {:induction false} CheckExactly(names: set<seq<byte>>, apps: seq<App>, n: nat)
    requires n <= |apps|
    ensures CheckApps(names, apps, n).Ok? <==> Acceptable(names, apps, n)
    ensures CheckApps(names, apps, n).Ok? ==> ChecksAs(CheckApps(names, apps, n).value, names, apps, n)
    decreases n
  {
    hide AppName, IsUdex, Encode, UpperBytes;
    if n > 0 {
      CheckExactly(names, apps, n - 1);
      var before, a := CheckApps(names, apps, n - 1), apps[n - 1];
      if before.Ok? && AppName(UpperAll(a.name)) {
        AppNameEncodes(UpperAll(a.name));
        LastKey(names, apps, n, before.value);
      }
    }
  }

  lemma LastKey(names: set<seq<byte>>, apps: seq<App>, n: nat, c: Checked)
    requires 0 < n <= |apps| && Acceptable(names, apps, n - 1) && ChecksAs(c, names, apps, n - 1)
    requires AppName(UpperAll(apps[n - 1].name))
    ensures Acceptable(names, apps, n) <==> Key(apps[n - 1]) !in c.names && IsUdex(apps[n - 1].data)
    ensures Acceptable(names, apps, n) ==>
      ChecksAs(Checked(c.names + {Key(apps[n - 1])},
        c.reqs + [Request(UpperAll(apps[n - 1].name), apps[n - 1].data, 0x81)]), names, apps, n)
  {
    hide AppName, IsUdex, Key;
    if Key(apps[n - 1]) in c.names && Key(apps[n - 1]) !in names {
      var i :| 0 <= i < n - 1 && Key(apps[i]) == Key(apps[n - 1]);
      assert Key(apps[i]) == Key(apps[n - 1]);
    }
    forall k ensures k in c.names + {Key(apps[n - 1])} <==> k in names || exists i :: 0 <= i < n && Key(apps[i]) == k {
      if k == Key(apps[n - 1]) { assert Key(apps[n - 1]) == k; }
    }
  }

  // ----- the theorem

  ghost predicate NamesDistinct(f: Format, img: seq<byte>, inv: Inventory) {
    && |img| >= Size(f) && DirInDisk(f, inv.dir)
    && forall s: nat, t: nat | s in inv.files && t in inv.files && s < 8 * |inv.dir| && t < 8 * |inv.dir| && s != t ::
         KeyAt(f, img, inv, s) != KeyAt(f, img, inv, t)
  }

  ghost function ResultInventory(f: Format, img: seq<byte>, inv: Inventory, apps: seq<App>): Inventory
    requires |img| == Size(f) && AddApps(f, img, apps).Ok?
  {
    RunInventory(f, img, inv, CheckApps(DirectoryNames(f, img).value, apps, |apps|).value.reqs, FileTracks(f))
  }

  ghost function ResultSlots(f: Format, img: seq<byte>, inv: Inventory, apps: seq<App>): seq<nat>
    requires |img| == Size(f) && AddApps(f, img, apps).Ok?
  {
    RunSlots(f, img, inv, CheckApps(DirectoryNames(f, img).value, apps, |apps|).value.reqs, FileTracks(f))
  }

  lemma KeptKey(f: Format, a: seq<byte>, inv: Inventory, b: seq<byte>, inv': Inventory, s: nat)
    requires |a| >= Size(f) && |b| >= Size(f) && DirInDisk(f, inv.dir) && DirInDisk(f, inv'.dir)
    requires s in inv.files && KeepsFile(f, a, inv, b, inv', s)
    ensures s < 8 * |inv.dir| && s < 8 * |inv'.dir| && KeyAt(f, b, inv', s) == KeyAt(f, a, inv, s)
    ensures Named(f, a, inv, KeyAt(f, a, inv, s))
  {
    hide SlotEntry, NameOf, UpperBytes, FileBytes;
  }

  lemma NewKey(f: Format, b: seq<byte>, inv': Inventory, slot: nat, a: App)
    requires |b| >= Size(f) && DirInDisk(f, inv'.dir) && AppName(UpperAll(a.name))
    requires Stores(f, b, inv', slot, Request(UpperAll(a.name), a.data, 0x81))
    ensures slot < 8 * |inv'.dir| && KeyAt(f, b, inv', slot) == Key(a)
  {
    hide SlotEntry, NameOf, UpperBytes, FileBytes, AppName;
    AppNameEncodes(UpperAll(a.name));
  }

  lemma DistinctKept(f: Format, a: seq<byte>, inv: Inventory, b: seq<byte>, inv': Inventory, apps: seq<App>, c: Checked,
      names: set<seq<byte>>, slots: seq<nat>)
    requires Gained(f, a, inv, b, inv', c.reqs, slots) && Acceptable(names, apps, |apps|)
    requires ChecksAs(c, names, apps, |apps|)
    requires NamesDistinct(f, a, inv) && forall k :: Named(f, a, inv, k) ==> k in names
    ensures NamesDistinct(f, b, inv')
  {
    hide SlotEntry, NameOf, UpperBytes, FileBytes, AppName, KeyAt, Key, Named, KeepsFile, Stores, Encode, DirInDisk,
      Size, BootKept, IsUdex, UpperAll;
    forall i | 0 <= i < |slots|
      ensures slots[i] < 8 * |inv'.dir| && KeyAt(f, b, inv', slots[i]) == Key(apps[i]) && Key(apps[i]) !in names
    {
      assert Stores(f, b, inv', slots[i], c.reqs[i]);
      NewKey(f, b, inv', slots[i], apps[i]);
    }
    forall s | s in inv.files
      ensures s < 8 * |inv.dir| && s < 8 * |inv'.dir| && KeyAt(f, b, inv', s) == KeyAt(f, a, inv, s)
      ensures KeyAt(f, b, inv', s) in names
    {
      assert KeepsFile(f, a, inv, b, inv', s);
      KeptKey(f, a, inv, b, inv', s);
    }
    forall s: nat, t: nat | s in inv'.files && t in inv'.files && s < 8 * |inv'.dir| && t < 8 * |inv'.dir| && s != t
      ensures KeyAt(f, b, inv', s) != KeyAt(f, b, inv', t)
    {
      if s !in inv.files {
        var i :| 0 <= i < |slots| && slots[i] == s;
        if t !in inv.files {
          var j :| 0 <= j < |slots| && slots[j] == t;
          assert Key(apps[i]) != Key(apps[j]);
        }
      } else if t !in inv.files {
        var j :| 0 <= j < |slots| && slots[j] == t;
      }
    }
  }

  /** On a sound disk the directory is always readable, the requests pass the checks exactly when
      they are acceptable against the names already there, and on success the disk is sound, holds
      every application in a slot of its own next to every earlier file and boot sector, and keeps
      names distinct. */
  lemma AddAppsTheorem(f: Format, img: seq<byte>, inv: Inventory, apps: seq<App>)
    requires Valid(f, img, inv)
    ensures |img| == Size(f) && DirectoryNames(f, img).Some?
    ensures var r, names := AddApps(f, img, apps), DirectoryNames(f, img).value;
      && (r.Ok? || (r.Err? && r.error.NotInstalled?) <==> Acceptable(names, apps, |apps|))
      && (r.Ok? ==>
            var inv' := ResultInventory(f, img, inv, apps);
            && Valid(f, r.value, inv')
            && Gained(f, img, inv, r.value, inv', CheckApps(names, apps, |apps|).value.reqs,
              ResultSlots(f, img, inv, apps))
            && (NamesDistinct(f, img, inv) ==> NamesDistinct(f, r.value, inv')))
  {
    SoundShape(f, img, inv);
    NamesRead(f, img, inv, []);
    hide Valid, Run, RunInventory, RunSlots, Gained, NamesDistinct, Acceptable, ChecksAs, DirectoryNames, CheckApps,
      Named;
    var r, names := AddApps(f, img, apps), DirectoryNames(f, img).value;
    CheckExactly(names, apps, |apps|);
    assert CheckApps(names, apps, |apps|).Err? ==> !CheckApps(names, apps, |apps|).error.NotInstalled? by {
      ErrorKinds(names, apps, |apps|);
    }
    if r.Ok? {
      var c := CheckApps(names, apps, |apps|).value;
      RunAnywhere(f, img, inv, c.reqs, FileTracks(f));
      if NamesDistinct(f, img, inv) {
        forall k ensures Named(f, img, inv, k) ==> k in names { NamesRead(f, img, inv, k); }
        DistinctKept(f, img, inv, r.value, ResultInventory(f, img, inv, apps), apps, c, names,
          ResultSlots(f, img, inv, apps));
      }
    }
  }

  // ----- exactly when the disk has room for them

  /** The installs `add_apps` asks for. */
  ghost function AppRequests(apps: seq<App>): (reqs: seq<Request>)
    ensures |reqs| == |apps|
  {
    seq(|apps|, i requires 0 <= i < |apps| => Request(UpperAll(apps[i].name), apps[i].data, 0x81))
  }

  lemma AppAskable(f: Format, a: App)
    requires AppName(UpperAll(a.name))
    ensures var req := Request(UpperAll(a.name), a.data, 0x81);
      Askable(f, req, FileTracks(f)) && KeyOf(req) == Key(a) && UpperBytes(Key(a)) == Key(a)
  {
    hide AppName, Encode, UpperBytes;
    AppNameEncodes(UpperAll(a.name));
  }

  lemma TakenIsNamed(img: seq<byte>, key: seq<byte>)
    requires |img| >= Size(D81) && DirectoryNames(D81, img).Some? && Taken(D81, img, key) && UpperBytes(key) == key
    ensures key in DirectoryNames(D81, img).value
  {
    hide NameOf, UpperBytes, WalkDir;
  }

  lemma AppsFit(f: Format, img: seq<byte>, inv: Inventory, apps: seq<App>)
    requires |img| == Size(f) && DirectoryNames(f, img).Some? && Acceptable(DirectoryNames(f, img).value, apps, |apps|)
    ensures RunFits(f, img, inv, AppRequests(apps), FileTracks(f)) <==>
      SumBlocks(AppRequests(apps)) <= DataRoom(f, img, Track(f, FileTracks(f))) && |apps| <= EntryRoom(f, img, inv)
  {
    hide Askable, KeyOf, Key, AppName, IsUdex, UpperBytes, DirectoryNames, Taken, SumBlocks, DataRoom, EntryRoom,
      FileTracks, Size, AppRequests, KeysOf;
    var names, reqs := DirectoryNames(f, img).value, AppRequests(apps);
    forall i | 0 <= i < |apps|
      ensures Askable(f, reqs[i], FileTracks(f)) && KeysOf(reqs)[i] == Key(apps[i])
      ensures UpperBytes(Key(apps[i])) == Key(apps[i])
    {
      RequestIs(apps, i);
      AppAskable(f, apps[i]);
    }
    if f.D81? {
      forall i | 0 <= i < |apps| ensures !Taken(f, img, KeysOf(reqs)[i]) {
        if Taken(f, img, Key(apps[i])) { TakenIsNamed(img, Key(apps[i])); }
      }
    }
  }

  lemma RequestIs(apps: seq<App>, i: nat)
    requires i < |apps|
    ensures AppRequests(apps)[i] == Request(UpperAll(apps[i].name), apps[i].data, 0x81)
    ensures KeysOf(AppRequests(apps))[i] == KeyOf(AppRequests(apps)[i])
  {
    hide KeyOf;
  }

  /** On a sound disk `add_apps` succeeds exactly when the applications are acceptable and the disk has
      sectors for their blocks and entries for their names; it then takes exactly that. */
  lemma AddAppsExactly(f: Format, img: seq<byte>, inv: Inventory, apps: seq<App>)
    requires Valid(f, img, inv)
    ensures |img| == Size(f) && DirectoryNames(f, img).Some?
    ensures var r, top := AddApps(f, img, apps), if f.D81? then 80 else if f.D71? then 70 else 35;
      && (r.Ok? <==>
            && Acceptable(DirectoryNames(f, img).value, apps, |apps|)
            && SumBlocks(AppRequests(apps)) <= DataRoom(f, img, top) && |apps| <= EntryRoom(f, img, inv))
      && (r.Ok? ==>
            Accounts(f, img, inv, r.value, ResultInventory(f, img, inv, apps), top, SumBlocks(AppRequests(apps)),
              KeysOf(AppRequests(apps))))
  {
    hide Valid, Run, RunInventory, Acceptable, ChecksAs, DirectoryNames, CheckApps, Named, RunFits, Accounts, SumBlocks,
      KeysOf, DataRoom, EntryRoom, AppRequests, Size;
    SoundShape(f, img, inv);
    NamesRead(f, img, inv, []);
    var names := DirectoryNames(f, img).value;
    CheckExactly(names, apps, |apps|);
    if Acceptable(names, apps, |apps|) {
      CheckedAre(names, apps);
      RunExactly(f, img, inv, AppRequests(apps), FileTracks(f));
      AppsFit(f, img, inv, apps);
    }
  }

  lemma CheckedAre(names: set<seq<byte>>, apps: seq<App>)
    requires Acceptable(names, apps, |apps|)
    ensures CheckApps(names, apps, |apps|).Ok? && CheckApps(names, apps, |apps|).value.reqs == AppRequests(apps)
  {
    hide CheckApps, AppName, IsUdex, Key;
    CheckExactly(names, apps, |apps|);
  }

  lemma {:induction false} ErrorKinds(names: set<seq<byte>>, apps: seq<App>, n: nat)
    requires n <= |apps|
    ensures CheckApps(names, apps, n).Err? ==> !CheckApps(names, apps, n).error.NotInstalled?
    decreases n
  {
    if n > 0 { ErrorKinds(names, apps, n - 1); }
  }
}
