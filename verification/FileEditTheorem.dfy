/** Editing one file of a sound disk: which file is found, and that nothing else moves. */
module FileEditTheorem {
  import opened Bytes
  import opened Geometry
  import opened Bam
  import opened DiskRead
  import opened Inventory
  import opened DirectoryProofs
  import opened Install
  import opened FileEdit
  import opened FileEditProofs

  // ----- which slot the directory search finds

  ghost function Pos(f: Format, dir: seq<Loc>, slot: nat): nat
    requires slot < 8 * |dir|
  {
    SlotPos(f, dir[slot / 8], slot % 8)
  }

  /** The positions of the matching entries among the first n slots. */
  ghost function MatchingTo(f: Format, img: seq<byte>, dir: seq<Loc>, name: seq<byte>, n: nat): seq<nat>
    requires |img| >= Size(f) && DirInDisk(f, dir) && n <= 8 * |dir|
    decreases n
  {
    if n == 0 then [] else
      MatchingTo(f, img, dir, name, n - 1) + if Names(SlotEntry(f, img, dir, n - 1), name) then [Pos(f, dir, n - 1)]
        else []
  }

  ghost predicate Matches(f: Format, img: seq<byte>, dir: seq<Loc>, name: seq<byte>, slot: nat)
    requires |img| >= Size(f) && DirInDisk(f, dir)
  {
    slot < 8 * |dir| && Names(SlotEntry(f, img, dir, slot), name)
  }

  ghost predicate OnlyMatch(f: Format, img: seq<byte>, dir: seq<Loc>, name: seq<byte>, n: nat, slot: nat)
    requires |img| >= Size(f) && DirInDisk(f, dir) && n <= 8 * |dir|
  {
    slot < n && Matches(f, img, dir, name, slot) && forall s: nat | s < n && s != slot :: !Matches(f, img, dir, name, s)
  }

  lemma {:induction false} NoneMatch(f: Format, img: seq<byte>, dir: seq<Loc>, name: seq<byte>, n: nat)
    requires |img| >= Size(f) && DirInDisk(f, dir) && n <= 8 * |dir|
    ensures MatchingTo(f, img, dir, name, n) == [] <==> forall s: nat | s < n :: !Matches(f, img, dir, name, s)
    decreases n
  {
    hide SlotEntry, Names;
    if n > 0 {
      NoneMatch(f, img, dir, name, n - 1);
      assert Matches(f, img, dir, name, n - 1) <==> Names(SlotEntry(f, img, dir, n - 1), name);
    }
  }

  lemma {:induction false} OneMatch(f: Format, img: seq<byte>, dir: seq<Loc>, name: seq<byte>, n: nat)
      returns (slot: nat)
    requires |img| >= Size(f) && DirInDisk(f, dir) && n <= 8 * |dir|
    requires |MatchingTo(f, img, dir, name, n)| == 1
    ensures OnlyMatch(f, img, dir, name, n, slot) && MatchingTo(f, img, dir, name, n)[0] == Pos(f, dir, slot)
    decreases n
  {
    hide SlotEntry, Names, Pos;
    assert Matches(f, img, dir, name, n - 1) <==> Names(SlotEntry(f, img, dir, n - 1), name);
    if Matches(f, img, dir, name, n - 1) {
      NoneMatch(f, img, dir, name, n - 1);
      slot := n - 1;
    } else {
      slot := OneMatch(f, img, dir, name, n - 1);
    }
  }

  lemma {:induction false} OnlyIsOne(f: Format, img: seq<byte>, dir: seq<Loc>, name: seq<byte>, n: nat, slot: nat)
    requires |img| >= Size(f) && DirInDisk(f, dir) && n <= 8 * |dir| && OnlyMatch(f, img, dir, name, n, slot)
    ensures MatchingTo(f, img, dir, name, n) == [Pos(f, dir, slot)]
    decreases n
  {
    hide SlotEntry, Names, Pos;
    assert Matches(f, img, dir, name, n - 1) <==> Names(SlotEntry(f, img, dir, n - 1), name);
    if slot == n - 1 {
      NoneMatch(f, img, dir, name, n - 1);
    } else {
      OnlyIsOne(f, img, dir, name, n - 1, slot);
    }
  }

  lemma MatchStep(f: Format, img: seq<byte>, dir: seq<Loc>, name: seq<byte>, i: nat, k: nat)
    requires |img| >= Size(f) && DirInDisk(f, dir) && i < |dir| && k < 8
    ensures var here := if Names(EntryAt(f, img, dir[i], k), name) then [SlotPos(f, dir[i], k)] else [];
      && MatchingTo(f, img, dir, name, 8 * i + k + 1) == MatchingTo(f, img, dir, name, 8 * i + k) + here
      && MatchesIn(f, img, dir[i], name, k + 1) == MatchesIn(f, img, dir[i], name, k) + here
  {
    hide EntryAt, Names, SlotPos;
    var j := 8 * i + k;
    assert j / 8 == i && j % 8 == k;
  }

  lemma NoMatches(f: Format, img: seq<byte>, l: Loc, name: seq<byte>)
    requires |img| >= Size(f) && InDisk(f, l)
    ensures MatchesIn(f, img, l, name, 0) == []
  {
  }

  lemma {:induction false} MatchSector(f: Format, img: seq<byte>, dir: seq<Loc>, name: seq<byte>, i: nat, k: nat)
    requires |img| >= Size(f) && DirInDisk(f, dir) && i < |dir| && k <= 8
    ensures MatchingTo(f, img, dir, name, 8 * i + k) ==
      MatchingTo(f, img, dir, name, 8 * i) + MatchesIn(f, img, dir[i], name, k)
    decreases k
  {
    hide EntryAt, Names, SlotPos, MatchingTo, MatchesIn, InDisk, EntriesInside;
    if k == 0 {
      NoMatches(f, img, dir[i], name);
    } else {
      MatchSector(f, img, dir, name, i, k - 1);
      MatchStep(f, img, dir, name, i, k - 1);
      assert 8 * i + k == 8 * i + (k - 1) + 1;
    }
  }

  lemma MatchWalkStep(f: Format, img: seq<byte>, name: seq<byte>, l: Loc, seen: set<Loc>, found: seq<nat>)
    requires |img| >= Size(f) && InDisk(f, l) && l !in seen && EntriesInside(img, found)
    ensures WalkMatches(f, img, name, l.track, l.sector, seen, found) ==
            WalkMatches(f, img, name, ByteAt(f, img, l, 0), ByteAt(f, img, l, 1), seen + {l},
              found + MatchesIn(f, img, l, name, 8))
  {
    hide MatchesIn, ByteAt, SectorsPerTrack;
    assert l == Loc(l.track, l.sector);
  }

  lemma MatchWalkEnd(f: Format, img: seq<byte>, name: seq<byte>, sector: nat, seen: set<Loc>, found: seq<nat>)
    requires |img| >= Size(f) && EntriesInside(img, found)
    ensures WalkMatches(f, img, name, 0, sector, seen, found) == Some(found)
  {
  }

  /** On a sound directory chain the walk visits every slot once, in order. */
  lemma {:induction false} WalkFinds(f: Format, img: seq<byte>, inv: Inventory, name: seq<byte>, i: nat, seen: set<Loc>,
      found: seq<nat>)
    requires DirChain(f, img, inv) && i < |inv.dir| && (forall j | i <= j < |inv.dir| :: inv.dir[j] !in seen)
    requires EntriesInside(img, found) && found == MatchingTo(f, img, inv.dir, name, 8 * i)
    ensures WalkMatches(f, img, name, inv.dir[i].track, inv.dir[i].sector, seen, found) ==
            Some(MatchingTo(f, img, inv.dir, name, 8 * |inv.dir|))
    decreases |inv.dir| - i
  {
    hide WalkMatches, MatchesIn, MatchingTo, ByteAt, IsFree, InDisk, EntriesInside;
    var l := inv.dir[i];
    assert DirLink(f, img, inv, i);
    MatchWalkStep(f, img, name, l, seen, found);
    MatchSector(f, img, inv.dir, name, i, 8);
    var more := found + MatchesIn(f, img, l, name, 8);
    assert EntriesInside(img, more) by { InsideJoin(img, found, MatchesIn(f, img, l, name, 8)); }
    assert more == MatchingTo(f, img, inv.dir, name, 8 * (i + 1)) by { assert 8 * i + 8 == 8 * (i + 1); }
    if i + 1 < |inv.dir| {
      forall j | i < j < |inv.dir| ensures inv.dir[j] != l { assert DirLink(f, img, inv, j); }
      WalkFinds(f, img, inv, name, i + 1, seen + {l}, more);
    } else {
      MatchWalkEnd(f, img, name, ByteAt(f, img, l, 1), seen + {l}, more);
    }
  }

  lemma InsideJoin(img: seq<byte>, a: seq<nat>, b: seq<nat>)
    requires EntriesInside(img, a) && EntriesInside(img, b)
    ensures EntriesInside(img, a + b)
  {
  }

  // ----- the offsets of a sound file

  /** Every offset lies in the stream part of one of the chain's sectors. */
  ghost predicate InChain(f: Format, chain: seq<Loc>, p: nat) {
    exists l :: l in chain && InStream(f, l, p)
  }

  lemma PlacesStep(f: Format, img: seq<byte>, l: Loc, seen: set<Loc>, got: seq<nat>)
    requires |img| >= Size(f) && InDisk(f, l) && l !in seen && (ByteAt(f, img, l, 0) != 0 || ByteAt(f, img, l, 1) != 0)
    ensures ChainPlaces(f, img, l.track, l.sector, seen, got) ==
            ChainPlaces(f, img, ByteAt(f, img, l, 0), ByteAt(f, img, l, 1), seen + {l}, got + Places(f, img, l))
  {
    hide ByteAt, SectorsPerTrack, Places;
    assert l == Loc(l.track, l.sector);
  }

  lemma PlacesEnd(f: Format, img: seq<byte>, sector: nat, seen: set<Loc>, got: seq<nat>)
    requires |img| >= Size(f)
    ensures ChainPlaces(f, img, 0, sector, seen, got) == Some(got)
  {
  }

  ghost predicate AllInChain(f: Format, chain: seq<Loc>, offsets: seq<nat>) {
    forall i | 0 <= i < |offsets| :: InChain(f, chain, offsets[i])
  }

  lemma AllInMore(f: Format, img: seq<byte>, chain: seq<Loc>, i: nat, got: seq<nat>)
    requires |img| >= Size(f) && i < |chain| && InDisk(f, chain[i]) && AllInChain(f, chain, got)
    ensures AllInChain(f, chain, got + Places(f, img, chain[i]))
  {
    hide SectorsBefore, InDisk, Payload, Offset;
    var here := Places(f, img, chain[i]);
    forall j | 0 <= j < |here|
      ensures InChain(f, chain, here[j])
    {
      assert chain[i] in chain && InStream(f, chain[i], here[j]);
    }
  }

  lemma {:induction false} PlacesOfChain(f: Format, img: seq<byte>, chain: seq<Loc>, i: nat, seen: set<Loc>,
      got: seq<nat>)
    requires |img| >= Size(f) && Linked(f, img, chain) && Distinct(chain) && i < |chain|
    requires (forall j | i <= j < |chain| :: chain[j] !in seen) && AllInChain(f, chain, got)
    ensures var r := ChainPlaces(f, img, chain[i].track, chain[i].sector, seen, got);
      r.Some? && AllInChain(f, chain, r.value)
    decreases |chain| - i
  {
    hide ChainPlaces, ByteAt, Places, SectorsPerTrack, AllInChain;
    var l := chain[i];
    assert LinksOn(f, img, chain, i);
    PlacesStep(f, img, l, seen, got);
    AllInMore(f, img, chain, i, got);
    if i + 1 < |chain| {
      PlacesOfChain(f, img, chain, i + 1, seen + {l}, got + Places(f, img, l));
    } else {
      PlacesEnd(f, img, ByteAt(f, img, l, 1), seen + {l}, got + Places(f, img, l));
    }
  }

  ghost predicate Editable(f: Format, img: seq<byte>, inv: Inventory, name: seq<byte>, slot: nat) {
    Valid(f, img, inv) && OnlyMatch(f, img, inv.dir, name, 8 * |inv.dir|, slot)
  }

  lemma MatchIsFile(f: Format, img: seq<byte>, inv: Inventory, name: seq<byte>, slot: nat)
    requires Editable(f, img, inv, name, slot)
    ensures slot < 8 * |inv.dir| && slot in inv.files && FileSound(f, img, inv, slot)
  {
    hide SlotEntry, BamSound, OwnersUsed, BamOwned, DirSound, FileSound, NameOf;
    assert SlotSound(f, img, inv, slot);
  }

  /** Which entries match: a closed SEQ file of that name, or of the name with .BIN after it. */
  lemma MatchIs(entry: seq<byte>, name: seq<byte>)
    requires |entry| == 30
    ensures Names(entry, name) <==>
      entry[0] == 0x81 && (NameOf(entry) == name || NameOf(entry) == name + [0x2E, 0x42, 0x49, 0x4E])
  {
    hide NameOf;
  }

  /** The search succeeds exactly when one slot matches, and then returns its entry and offsets
      inside its chain. */
  lemma FindsSlot(f: Format, img: seq<byte>, inv: Inventory, name: seq<byte>)
    requires Valid(f, img, inv)
    ensures DosFile(f, img, name).Some? <==> exists slot :: OnlyMatch(f, img, inv.dir, name, 8 * |inv.dir|, slot)
  {
    hide WalkMatches, ChainPlaces, MatchingTo, Valid, OnlyMatch;
    DirectoryFound(f, img, inv, name);
    var found := MatchingTo(f, img, inv.dir, name, 8 * |inv.dir|);
    if |found| == 1 {
      var slot := OneMatch(f, img, inv.dir, name, 8 * |inv.dir|);
      FoundFile(f, img, inv, name, slot);
    }
    if slot :| OnlyMatch(f, img, inv.dir, name, 8 * |inv.dir|, slot) {
      OnlyIsOne(f, img, inv.dir, name, 8 * |inv.dir|, slot);
    }
  }

  lemma DirectoryFound(f: Format, img: seq<byte>, inv: Inventory, name: seq<byte>)
    requires Valid(f, img, inv)
    ensures |img| >= Size(f) && DirInDisk(f, inv.dir)
    ensures WalkMatches(f, img, name, FirstDir(f).track, FirstDir(f).sector, {}, []) ==
            Some(MatchingTo(f, img, inv.dir, name, 8 * |inv.dir|))
  {
    hide WalkMatches, BamSound, SlotSound, FileSound, OwnersUsed, BamOwned;
    WalkFinds(f, img, inv, name, 0, {}, []);
  }

  lemma FoundFile(f: Format, img: seq<byte>, inv: Inventory, name: seq<byte>, slot: nat)
    requires Editable(f, img, inv, name, slot)
    ensures slot < 8 * |inv.dir| && slot in inv.files && DirInDisk(f, inv.dir)
    ensures var file := DosFile(f, img, name);
      && file.Some? && file.value.entry == Pos(f, inv.dir, slot)
      && AllInChain(f, inv.files[slot], file.value.offsets)
      && var e := SlotEntry(f, img, inv.dir, slot);
      Some(file.value.offsets) == ChainPlaces(f, img, e[1], e[2], {}, [])
  {
    hide WalkMatches, ChainPlaces, MatchingTo, Valid, AllInChain, FileSound, SlotEntry, Pos, DosFile, OnlyMatch,
      DirInDisk, Size;
    MatchIsFile(f, img, inv, name, slot);
    DirectoryFound(f, img, inv, name);
    OnlyIsOne(f, img, inv.dir, name, 8 * |inv.dir|, slot);
    SlotPlaces(f, img, inv, slot);
    EntryBytesAt(f, img, inv.dir, slot);
    var e := SlotEntry(f, img, inv.dir, slot);
    DosFileIs(f, img, name, Pos(f, inv.dir, slot), ChainPlaces(f, img, e[1], e[2], {}, []).value);
  }

  lemma DosFileIs(f: Format, img: seq<byte>, name: seq<byte>, entry: nat, offsets: seq<nat>)
    requires |img| >= Size(f)
    requires WalkMatches(f, img, name, FirstDir(f).track, FirstDir(f).sector, {}, []) == Some([entry])
    requires entry + 30 <= |img| && ChainPlaces(f, img, img[entry + 1], img[entry + 2], {}, []) == Some(offsets)
    ensures DosFile(f, img, name) == Some(FileAt(entry, offsets))
  {
    hide WalkMatches, ChainPlaces, Size, FirstDir;
  }

  lemma SlotPlaces(f: Format, img: seq<byte>, inv: Inventory, slot: nat)
    requires Valid(f, img, inv) && slot in inv.files && slot < 8 * |inv.dir|
    ensures var e := SlotEntry(f, img, inv.dir, slot);
      var offsets := ChainPlaces(f, img, e[1], e[2], {}, []);
      offsets.Some? && AllInChain(f, inv.files[slot], offsets.value)
  {
    hide ChainPlaces, BamSound, OwnersUsed, BamOwned, AllInChain, DirSound, SlotSound, SlotEntry, SectorsPerTrack,
      LinksOn;
    assert FileSound(f, img, inv, slot);
    var chain := inv.files[slot];
    OwnedDistinct(inv.owner, slot, chain);
    NoneInChain(f, chain);
    PlacesOfChain(f, img, chain, 0, {}, []);
  }

  lemma NoneInChain(f: Format, chain: seq<Loc>)
    ensures AllInChain(f, chain, [])
  {
  }

  lemma EntryBytesAt(f: Format, img: seq<byte>, dir: seq<Loc>, slot: nat)
    requires |img| >= Size(f) && DirInDisk(f, dir) && slot < 8 * |dir|
    ensures Pos(f, dir, slot) + 30 <= |img|
    ensures forall i | 0 <= i < 30 :: SlotEntry(f, img, dir, slot)[i] == img[Pos(f, dir, slot) + i]
  {
    hide SectorsBefore;
    SectorInImage(f, dir[slot / 8]);
  }

  // ----- nothing else moves

  ghost predicate EditedAt(f: Format, a: seq<byte>, b: seq<byte>, inv: Inventory, slot: nat, offsets: seq<nat>) {
    && Valid(f, a, inv) && slot in inv.files
    && ChangedOnlyAt(a, b, offsets) && AllInChain(f, inv.files[slot], offsets) && SameLinks(f, a, b)
  }

  lemma OutsideChain(f: Format, a: seq<byte>, b: seq<byte>, chain: seq<Loc>, offsets: seq<nat>, m: Loc)
    requires |a| >= Size(f) && ChangedOnlyAt(a, b, offsets) && AllInChain(f, chain, offsets) && InDisk(f, m)
    requires m !in chain
    requires forall l | l in chain :: InDisk(f, l)
    ensures SameSector(f, a, b, m)
  {
    hide SectorsBefore, InDisk, Offset;
    SectorInImage(f, m);
    forall p | Offset(f, m) <= p < Offset(f, m) + 256 ensures p !in offsets {
      if p in offsets {
        var i :| 0 <= i < |offsets| && offsets[i] == p;
        var l :| l in chain && InStream(f, l, offsets[i]);
        SectorsDisjoint(f, l, m);
      }
    }
  }

  /** Sectors of the directory, of the BAM and of every other file lie outside the edited chain. */
  lemma ChainApart(f: Format, img: seq<byte>, inv: Inventory, slot: nat, m: Loc)
    requires Valid(f, img, inv) && slot in inv.files && InDisk(f, m) && m in inv.files[slot]
    ensures m !in inv.dir && !IsBam(f, m) && m in inv.owner && inv.owner[m].FileBlock? && inv.owner[m].slot == slot
  {
    hide IsFree, Linked, BamSound, SlotEntry, SlotSound, SectorsPerTrack, Describes;
    assert FileSound(f, img, inv, slot);
    forall i | 0 <= i < |inv.dir| ensures inv.dir[i] in inv.owner && inv.owner[inv.dir[i]].DirBlock? {
      assert DirLink(f, img, inv, i);
    }
    NotBam(f, inv.owner, m);
  }

  lemma EditedSectors(f: Format, a: seq<byte>, b: seq<byte>, inv: Inventory, slot: nat, offsets: seq<nat>, m: Loc)
    requires EditedAt(f, a, b, inv, slot, offsets) && InDisk(f, m)
    requires m in inv.dir || IsBam(f, m) || m !in inv.owner || !inv.owner[m].FileBlock? || inv.owner[m].slot != slot
    ensures SameSector(f, a, b, m)
  {
    hide BamSound, OwnersUsed, BamOwned, DirSound, SlotSound, SameSector, AllInChain, ChangedOnlyAt, SameLinks, IsBam,
      Owned, Describes, LinksOn, SlotEntry, SectorsPerTrack;
    assert FileSound(f, a, inv, slot);
    if m in inv.files[slot] { ChainApart(f, a, inv, slot, m); }
    OutsideChain(f, a, b, inv.files[slot], offsets, m);
  }

  lemma LinkedKept(f: Format, a: seq<byte>, b: seq<byte>, chain: seq<Loc>)
    requires |a| >= Size(f) && |b| >= Size(f) && SameLinks(f, a, b) && Linked(f, a, chain)
    ensures Linked(f, b, chain)
  {
    hide ByteAt, SectorsPerTrack;
    forall i | 0 <= i < |chain| ensures LinksOn(f, b, chain, i) { assert LinksOn(f, a, chain, i); }
  }

  lemma EditedEntry(f: Format, a: seq<byte>, b: seq<byte>, inv: Inventory, slot: nat, offsets: seq<nat>, s: nat)
    requires EditedAt(f, a, b, inv, slot, offsets) && s < 8 * |inv.dir|
    ensures SlotEntry(f, a, inv.dir, s) == SlotEntry(f, b, inv.dir, s)
  {
    hide BamSound, OwnersUsed, BamOwned, DirSound, SlotSound, FileSound, SameSector, AllInChain, ChangedOnlyAt,
      SameLinks, IsBam, SlotEntry, SectorsPerTrack;
    assert inv.dir[s / 8] in inv.dir;
    EditedSectors(f, a, b, inv, slot, offsets, inv.dir[s / 8]);
    SameLength(a, b, offsets);
    SlotEntrySame(f, a, b, inv.dir, s);
  }

  lemma SameLength(a: seq<byte>, b: seq<byte>, offsets: seq<nat>)
    requires ChangedOnlyAt(a, b, offsets)
    ensures |a| == |b|
  {
  }

  lemma EditedOther(f: Format, a: seq<byte>, b: seq<byte>, inv: Inventory, slot: nat, offsets: seq<nat>, s: nat)
    requires EditedAt(f, a, b, inv, slot, offsets) && s in inv.files && s != slot
    ensures |b| == |a| && s < 8 * |inv.dir| && FileSound(f, a, inv, s)
    ensures Gather(f, a, inv.files[s], 0) == Gather(f, b, inv.files[s], 0)
  {
    hide BamSound, OwnersUsed, BamOwned, DirSound, SlotSound, SameSector, AllInChain, ChangedOnlyAt, SameLinks, IsBam,
      SlotEntry, SectorsPerTrack, Gather, LinksOn, Describes;
    SameLength(a, b, offsets);
    assert FileSound(f, a, inv, s);
    forall m | m in inv.files[s] ensures InDisk(f, m) && SameSector(f, a, b, m) {
      EditedSectors(f, a, b, inv, slot, offsets, m);
    }
    GatherSame(f, a, b, inv.files[s], 0);
  }

  lemma EditedDir(f: Format, a: seq<byte>, b: seq<byte>, inv: Inventory, slot: nat, offsets: seq<nat>)
    requires EditedAt(f, a, b, inv, slot, offsets)
    ensures |b| >= Size(f) && DirSound(f, b, inv)
  {
    hide BamSound, OwnersUsed, BamOwned, SlotSound, FileSound, SameSector, AllInChain, ChangedOnlyAt, SameLinks, IsBam,
      SlotEntry, SectorsPerTrack, ByteAt;
    SameLength(a, b, offsets);
    forall i | 0 <= i < |inv.dir| ensures DirLink(f, b, inv, i) {
      assert DirLink(f, a, inv, i) && inv.dir[i] in inv.dir;
      EditedSectors(f, a, b, inv, slot, offsets, inv.dir[i]);
      SameBytes(f, a, b, inv.dir[i]);
    }
  }

  lemma EditedBam(f: Format, a: seq<byte>, b: seq<byte>, inv: Inventory, slot: nat, offsets: seq<nat>)
    requires EditedAt(f, a, b, inv, slot, offsets)
    ensures |b| == |a| && BamSound(f, b) && FreeBlocks(f, a, Tracks(f)) == FreeBlocks(f, b, Tracks(f))
    ensures OwnersUsed(f, b, inv.owner)
  {
    hide BamOwned, DirSound, SlotSound, FileSound, SameSector, AllInChain, ChangedOnlyAt, SameLinks, IsBam, IsFree,
      BamSound, FreeBlocks, SectorsPerTrack;
    SameLength(a, b, offsets);
    forall m | InDisk(f, m) && IsBam(f, m)
      ensures SameSector(f, a, b, m)
    {
      EditedSectors(f, a, b, inv, slot, offsets, m);
    }
    BamUntouched(f, a, b);
  }

  /** Edits inside one file's stream keep the disk sound and every directory entry, leave every
      other file's bytes and the free blocks alone. */
  lemma EditKeepsValid(f: Format, a: seq<byte>, b: seq<byte>, inv: Inventory, slot: nat, offsets: seq<nat>)
    requires EditedAt(f, a, b, inv, slot, offsets)
    ensures Valid(f, b, inv) && FreeBlocks(f, a, Tracks(f)) == FreeBlocks(f, b, Tracks(f))
    ensures forall s | 0 <= s < 8 * |inv.dir| :: SlotEntry(f, a, inv.dir, s) == SlotEntry(f, b, inv.dir, s)
  {
    hide BamOwned, DirSound, SameSector, AllInChain, ChangedOnlyAt, SameLinks, IsBam, IsFree, BamSound, FreeBlocks,
      SectorsPerTrack, SlotEntry, LinksOn, Describes, Owned;
    EditedBam(f, a, b, inv, slot, offsets);
    EditedDir(f, a, b, inv, slot, offsets);
    forall s | 0 <= s < 8 * |inv.dir|
      ensures SlotEntry(f, a, inv.dir, s) == SlotEntry(f, b, inv.dir, s) && SlotSound(f, b, inv, s)
    {
      EditedEntry(f, a, b, inv, slot, offsets, s);
      assert SlotSound(f, a, inv, s);
    }
    forall s | s in inv.files ensures FileSound(f, b, inv, s) {
      assert FileSound(f, a, inv, s);
      LinkedKept(f, a, b, inv.files[s]);
      EditedEntry(f, a, b, inv, slot, offsets, s);
    }
  }

  /** Editing the one file a name selects: refused exactly when an index is past its end, and
      otherwise its stream is edited and the rest of the disk reads as before. */
  lemma EditFileTheorem(f: Format, img: seq<byte>, inv: Inventory, name: seq<byte>, slot: nat, edits: seq<Edit>)
    requires Editable(f, img, inv, name, slot)
    ensures slot < 8 * |inv.dir| && slot in inv.files && DirInDisk(f, inv.dir)
    ensures DosFile(f, img, name).Some? && FileBytes(f, img, SlotEntry(f, img, inv.dir, slot)).Some?
    ensures var e := SlotEntry(f, img, inv.dir, slot);
      var data, offsets := FileBytes(f, img, e).value, DosFile(f, img, name).value.offsets;
      && Reads(img, offsets, data) && Distinct(offsets)
      && (ApplyEdits(img, offsets, edits, |edits|).Some? <==> InRange(edits, |data|))
      && (InRange(edits, |data|) ==>
        EditedFile(f, img, ApplyEdits(img, offsets, edits, |edits|).value, inv, slot, EditStream(data, edits, |edits|)))
  {
    hide BamOwned, DirSound, IsBam, IsFree, BamSound, FreeBlocks, SectorsPerTrack, SlotEntry, LinksOn, Owned,
      AllInChain, ReadChain, ChainPlaces, DosFile, Gather, EditStream, ApplyEdits, SlotSound, OwnersUsed, Names;
    MatchIsFile(f, img, inv, name, slot);
    FoundFile(f, img, inv, name, slot);
    ReadBack(f, img, inv, slot);
    var e := SlotEntry(f, img, inv.dir, slot);
    EditTheorem(f, img, e[1], e[2], edits);
    var data, offsets := FileBytes(f, img, e).value, DosFile(f, img, name).value.offsets;
    if InRange(edits, |data|) {
      var r := ApplyEdits(img, offsets, edits, |edits|).value;
      LinksKept(f, img, r, offsets);
      EditsKeepOthers(f, img, r, inv, slot, offsets);
      ReadBack(f, r, inv, slot);
    }
  }

  // ----- what each fault does to the stream

  /** The stream length each fault needs. */
  ghost function FaultLength(v: Variant): nat {
    match v
    case Missing => 0 case Magic => 1 case Version => 6 case Cpu => 7 case Flags => 8 case Slot => 16
    case EntryPoint => 15 case ImageSize => 12 case Bss => 14 case Opcode => 17
    case Peer => 19 case Outside => 19 case Vector => 19
  }

  /** The stream with one fault, byte by byte: XCLOCK runs in the slot of page 2 beside page $12, every
      other application the other way round. */
  ghost function Faulted(name: seq<byte>, v: Variant, data: seq<byte>): seq<byte>
    requires |data| >= FaultLength(v)
  {
    var clock := name == [0x58, 0x43, 0x4C, 0x4F, 0x43, 0x4B];
    match v
    case Missing => data
    case Magic => data[0 := 0]
    case Version => data[5 := 2]
    case Cpu => data[6 := 2]
    case Flags => data[7 := 0]
    case Slot => data[9 := if clock then 0x12 else 0x02][15 := if clock then 0x12 else 0x02]
    case EntryPoint => data[14 := 1]
    case ImageSize => data[10 := 0][11 := 0x0A]
    case Bss => data[12 := 0xFF][13 := 0xFF]
    case Opcode => data[16 := 0x60]
    case Peer => data[17 := 0][18 := if clock then 0x12 else 0x02]
    case Outside => data[17 := 0][18 := if clock then 0x0C else 0x1C]
    case Vector => data[17 := 3][18 := if clock then 0x02 else 0x12]
  }

  lemma TwoEdits(data: seq<byte>, edits: seq<Edit>)
    requires 1 <= |edits| <= 2 && InRange(edits, |data|)
    ensures |edits| == 1 ==> EditStream(data, edits, 1) == data[edits[0].index := edits[0].value]
    ensures |edits| == 2 ==>
      EditStream(data, edits, 2) == data[edits[0].index := edits[0].value][edits[1].index := edits[1].value]
  {
    assert EditStream(data, edits, 0) == data;
    assert EditStream(data, edits, 1) == data[edits[0].index := edits[0].value];
  }

  lemma FaultIs(name: seq<byte>, v: Variant, data: seq<byte>)
    requires !v.Missing?
    ensures var edits := EditsFor(name, v);
      && (InRange(edits, |data|) <==> |data| >= FaultLength(v))
      && (|data| >= FaultLength(v) ==> EditStream(data, edits, |edits|) == Faulted(name, v, data))
  {
    hide EditStream;
    var edits := EditsFor(name, v);
    assert InRange(edits, |data|) ==> edits[0].index < |data| && edits[|edits| - 1].index < |data|;
    if |data| >= FaultLength(v) { TwoEdits(data, edits); }
  }

  /** A fault other than the missing file is refused exactly when the stream is too short for it, and
      otherwise leaves the faulty stream there and everything else as it was. */
  lemma FixtureTheorem(f: Format, img: seq<byte>, inv: Inventory, name: seq<byte>, slot: nat, v: Variant)
    requires Editable(f, img, inv, name, slot) && !v.Missing?
    ensures slot < 8 * |inv.dir| && slot in inv.files && DirInDisk(f, inv.dir)
    ensures FileBytes(f, img, SlotEntry(f, img, inv.dir, slot)).Some?
    ensures var data := FileBytes(f, img, SlotEntry(f, img, inv.dir, slot)).value;
      && (Fixture(f, img, name, v).Some? <==> |data| >= FaultLength(v))
      && (|data| >= FaultLength(v) ==>
            EditedFile(f, img, Fixture(f, img, name, v).value, inv, slot, Faulted(name, v, data)))
  {
    hide OnlyMatch, EditStream, ApplyEdits, EditsFor, Faulted, FaultLength, InRange, EditedFile, Reads, SlotEntry,
      FileBytes, DosFile, DirInDisk, BamSound, OwnersUsed, DirSound, SlotSound, FileSound;
    EditFileTheorem(f, img, inv, name, slot, EditsFor(name, v));
    FaultIs(name, v, FileBytes(f, img, SlotEntry(f, img, inv.dir, slot)).value);
  }

  /** Every sector of the disk but these holds the same bytes. */
  ghost predicate SectorsSame(f: Format, a: seq<byte>, b: seq<byte>, but: seq<Loc>)
    requires |a| >= Size(f) && |b| >= Size(f)
  {
    forall m | InDisk(f, m) && m !in but :: SameSector(f, a, b, m)
  }

  /** What an edit of slot's stream leaves: the new stream there, everything else as it was. */
  ghost predicate EditedFile(f: Format, a: seq<byte>, b: seq<byte>, inv: Inventory, slot: nat, data: seq<byte>)
    requires |a| >= Size(f) && DirInDisk(f, inv.dir) && slot < 8 * |inv.dir|
  {
    && Valid(f, b, inv)
    && FileBytes(f, b, SlotEntry(f, b, inv.dir, slot)) == Some(data)
    && OthersSame(f, a, b, inv, slot)
  }

  ghost predicate OthersSame(f: Format, a: seq<byte>, b: seq<byte>, inv: Inventory, slot: nat)
    requires |a| >= Size(f) && |b| >= Size(f) && DirInDisk(f, inv.dir)
  {
    && (forall s | 0 <= s < 8 * |inv.dir| :: SlotEntry(f, a, inv.dir, s) == SlotEntry(f, b, inv.dir, s))
    && (forall s | s in inv.files && s != slot :: s < 8 * |inv.dir| &&
          FileBytes(f, a, SlotEntry(f, a, inv.dir, s)) == FileBytes(f, b, SlotEntry(f, b, inv.dir, s)))
    && FreeBlocks(f, a, Tracks(f)) == FreeBlocks(f, b, Tracks(f))
    && slot in inv.files && SectorsSame(f, a, b, inv.files[slot]) && BootKept(f, a, inv, b, inv)
  }

  lemma EditsKeepOthers(f: Format, a: seq<byte>, b: seq<byte>, inv: Inventory, slot: nat, offsets: seq<nat>)
    requires EditedAt(f, a, b, inv, slot, offsets)
    ensures Valid(f, b, inv) && DirInDisk(f, inv.dir) && |a| >= Size(f) && |b| >= Size(f)
    ensures OthersSame(f, a, b, inv, slot)
  {
    hide BamOwned, DirSound, SameSector, AllInChain, ChangedOnlyAt, SameLinks, IsBam, IsFree, BamSound, FreeBlocks,
      SectorsPerTrack, SlotEntry, LinksOn, Describes, Owned, Gather, FileBytes, SlotSound, OwnersUsed, FileSound;
    EditKeepsValid(f, a, b, inv, slot, offsets);
    EditKeepsSectors(f, a, b, inv, slot, offsets);
    forall s | s in inv.files && s != slot
      ensures s < 8 * |inv.dir|
      ensures FileBytes(f, a, SlotEntry(f, a, inv.dir, s)) == FileBytes(f, b, SlotEntry(f, b, inv.dir, s))
    {
      EditedOther(f, a, b, inv, slot, offsets, s);
      ReadBack(f, a, inv, s);
      ReadBack(f, b, inv, s);
    }
  }

  lemma EditKeepsSectors(f: Format, a: seq<byte>, b: seq<byte>, inv: Inventory, slot: nat, offsets: seq<nat>)
    requires EditedAt(f, a, b, inv, slot, offsets)
    ensures |a| >= Size(f) && |b| >= Size(f) && SectorsSame(f, a, b, inv.files[slot]) && BootKept(f, a, inv, b, inv)
  {
    hide BamSound, BamOwned, DirSound, SlotSound, SameSector, AllInChain, ChangedOnlyAt, SameLinks, IsBam, SlotEntry,
      SectorsPerTrack, LinksOn, Describes, IsFree;
    SameLength(a, b, offsets);
    assert FileSound(f, a, inv, slot);
    forall m | InDisk(f, m) && m !in inv.files[slot] ensures SameSector(f, a, b, m) {
      OutsideChain(f, a, b, inv.files[slot], offsets, m);
    }
    forall l | IsBoot(inv, l) ensures InDisk(f, l) && SameSector(f, a, b, l) {
      EditedSectors(f, a, b, inv, slot, offsets, l);
    }
  }

  // ----- the missing file

  ghost function Removed(f: Format, img: seq<byte>, dir: seq<Loc>, slot: nat): (b: seq<byte>)
    requires |img| >= Size(f) && DirInDisk(f, dir) && slot < 8 * |dir|
    ensures |b| == |img|
  {
    EntryBytesAt(f, img, dir, slot);
    img[Pos(f, dir, slot) := 0]
  }

  lemma RemovedFrame(f: Format, img: seq<byte>, inv: Inventory, slot: nat)
    requires Valid(f, img, inv) && slot in inv.files && slot < 8 * |inv.dir|
    ensures var b, at := Removed(f, img, inv.dir, slot), inv.dir[slot / 8];
      && BamSound(f, b) && FreeBlocks(f, b, Tracks(f)) == FreeBlocks(f, img, Tracks(f))
      && (forall m :: IsFree(f, b, m) <==> IsFree(f, img, m))
      && (forall m | InDisk(f, m) && m != at :: SameSector(f, img, b, m))
      && ByteAt(f, b, at, 0) == ByteAt(f, img, at, 0) && ByteAt(f, b, at, 1) == ByteAt(f, img, at, 1)
  {
    hide SectorsBefore, IsFree, FreeBlocks, BamSound, SlotSound, FileSound, IsBam, OwnersUsed;
    var b, at := Removed(f, img, inv.dir, slot), inv.dir[slot / 8];
    DirNotBam(f, img, inv, slot / 8);
    SectorInImage(f, at);
    WriteFrame(f, img, b, at);
  }

  lemma RemovedSectors(f: Format, img: seq<byte>, inv: Inventory, slot: nat)
    requires Valid(f, img, inv) && slot in inv.files && slot < 8 * |inv.dir|
    ensures var b := Removed(f, img, inv.dir, slot);
      SectorsSame(f, img, b, [inv.dir[slot / 8]]) && BootKept(f, img, inv, b, inv)
  {
    hide Removed, BamSound, BamOwned, DirSound, SlotSound, FileSound, SameSector, IsFree, IsBam, SectorsPerTrack,
      SlotEntry, FreeBlocks, ByteAt;
    RemovedFrame(f, img, inv, slot);
    DirNotBam(f, img, inv, slot / 8);
    forall l | IsBoot(inv, l) ensures InDisk(f, l) && l != inv.dir[slot / 8] {}
  }

  lemma RemovedEntry(f: Format, img: seq<byte>, inv: Inventory, slot: nat, s: nat)
    requires Valid(f, img, inv) && slot in inv.files && slot < 8 * |inv.dir| && s < 8 * |inv.dir|
    ensures var b := Removed(f, img, inv.dir, slot);
      if s == slot then SlotEntry(f, b, inv.dir, s)[0] == 0
        else SlotEntry(f, b, inv.dir, s) == SlotEntry(f, img, inv.dir, s)
  {
    hide SectorsBefore, BamSound, SlotSound, FileSound, IsBam, OwnersUsed, BamOwned, SlotEntry;
    var b := Removed(f, img, inv.dir, slot);
    EntryBytesAt(f, img, inv.dir, slot);
    EntryBytesAt(f, img, inv.dir, s);
    EntryBytesAt(f, b, inv.dir, s);
    if s != slot { PosApart(f, img, inv, slot, s); }
  }

  lemma PosApart(f: Format, img: seq<byte>, inv: Inventory, slot: nat, s: nat)
    requires Valid(f, img, inv) && slot < 8 * |inv.dir| && s < 8 * |inv.dir| && s != slot
    ensures Pos(f, inv.dir, s) + 30 <= Pos(f, inv.dir, slot) || Pos(f, inv.dir, slot) + 30 <= Pos(f, inv.dir, s)
  {
    hide SectorsBefore, Offset, BamSound, SlotSound, FileSound, IsBam, OwnersUsed, BamOwned, SlotEntry, ByteAt;
    var a, b := inv.dir[s / 8], inv.dir[slot / 8];
    assert DirLink(f, img, inv, s / 8) && DirLink(f, img, inv, slot / 8);
    if a != b { SectorsDisjoint(f, a, b); }
  }

  lemma RemovedFile(f: Format, img: seq<byte>, inv: Inventory, slot: nat, s: nat)
    requires Valid(f, img, inv) && slot in inv.files && slot < 8 * |inv.dir| && s in inv.files && s != slot
    ensures var b := Removed(f, img, inv.dir, slot);
      s < 8 * |inv.dir| && FileSound(f, b, inv, s) && Gather(f, b, inv.files[s], 0) == Gather(f, img, inv.files[s], 0)
  {
    hide IsFree, FreeBlocks, BamSound, SlotEntry, IsBam, SameSector, Gather, SlotSound, OwnersUsed, BamOwned, Removed,
      SectorsPerTrack, LinksOn, Describes;
    var b := Removed(f, img, inv.dir, slot);
    assert FileSound(f, img, inv, s);
    RemovedFrame(f, img, inv, slot);
    RemovedEntry(f, img, inv, slot, s);
    forall m | m in inv.files[s] ensures InDisk(f, m) && m != inv.dir[slot / 8] { ChainApart(f, img, inv, s, m); }
    LinkedSame(f, img, b, inv.files[s]);
    GatherSame(f, img, b, inv.files[s], 0);
  }

  lemma RemovedLink(f: Format, img: seq<byte>, inv: Inventory, slot: nat, i: nat)
    requires Valid(f, img, inv) && slot in inv.files && slot < 8 * |inv.dir| && i < |inv.dir|
    ensures |Removed(f, img, inv.dir, slot)| >= Size(f) && DirLink(f, Removed(f, img, inv.dir, slot), inv, i)
  {
    hide IsFree, FreeBlocks, BamSound, SlotEntry, IsBam, SlotSound, FileSound, OwnersUsed, BamOwned, Removed,
      SectorsPerTrack;
    RemovedFrame(f, img, inv, slot);
    assert DirLink(f, img, inv, i);
    if inv.dir[i] != inv.dir[slot / 8] { SameBytes(f, img, Removed(f, img, inv.dir, slot), inv.dir[i]); }
  }

  /** Every entry but one is the same, that one is empty, the other files' streams are unchanged, and
      only the one directory sector differs. */
  ghost predicate WithoutFile(f: Format, a: seq<byte>, b: seq<byte>, inv: Inventory, slot: nat) {
    && |a| == |b| == Size(f) && DirInDisk(f, inv.dir) && slot < 8 * |inv.dir|
    && FreeBlocks(f, b, Tracks(f)) == FreeBlocks(f, a, Tracks(f))
    && (forall s | 0 <= s < 8 * |inv.dir| && s != slot :: SlotEntry(f, b, inv.dir, s) == SlotEntry(f, a, inv.dir, s))
    && SlotEntry(f, b, inv.dir, slot)[0] == 0
    && SectorsSame(f, a, b, [inv.dir[slot / 8]]) && BootKept(f, a, inv, b, inv)
    && (forall s | s in inv.files && s != slot ::
      Linked(f, b, inv.files[s]) && Gather(f, b, inv.files[s], 0) == Gather(f, a, inv.files[s], 0))
  }

  /** Zeroing the type byte leaves a sound disk without that one file: every other entry, every
      other file's bytes, every sector but that entry's and the free blocks are the same (the blocks
      stay allocated). */
  lemma MissingTheorem(f: Format, img: seq<byte>, inv: Inventory, name: seq<byte>, slot: nat)
    requires Editable(f, img, inv, name, slot)
    ensures Fixture(f, img, name, Missing).Some? && slot < 8 * |inv.dir| && slot in inv.files && DirInDisk(f, inv.dir)
    ensures var b, inv' := Fixture(f, img, name, Missing).value, inv.(files := inv.files - {slot});
      Valid(f, b, inv') && WithoutFile(f, img, b, inv, slot)
  {
    MatchIsFile(f, img, inv, name, slot);
    RemovedIs(f, img, inv, name, slot);
    hide Valid, Fixture, OnlyMatch, WithoutFile, Removed, FileSound;
    RemovedKeeps(f, img, inv, slot);
  }

  lemma RemovedKeeps(f: Format, img: seq<byte>, inv: Inventory, slot: nat)
    requires Valid(f, img, inv) && slot in inv.files && slot < 8 * |inv.dir|
    ensures var b, inv' := Removed(f, img, inv.dir, slot), inv.(files := inv.files - {slot});
      Valid(f, b, inv') && WithoutFile(f, img, b, inv, slot)
  {
    RemovedValid(f, img, inv, slot);
    RemovedWithout(f, img, inv, slot);
  }

  lemma RemovedWithout(f: Format, img: seq<byte>, inv: Inventory, slot: nat)
    requires Valid(f, img, inv) && slot in inv.files && slot < 8 * |inv.dir|
    ensures WithoutFile(f, img, Removed(f, img, inv.dir, slot), inv, slot)
  {
    hide Valid, FreeBlocks, BamSound, SlotEntry, Gather, Removed, FileSound, SectorsSame, BootKept, LinksOn, InDisk,
      Size, ByteAt;
    SoundSizes(f, img, inv);
    var b := Removed(f, img, inv.dir, slot);
    RemovedFrame(f, img, inv, slot);
    RemovedSectors(f, img, inv, slot);
    forall s | 0 <= s < 8 * |inv.dir|
      ensures if s == slot then SlotEntry(f, b, inv.dir, s)[0] == 0
        else SlotEntry(f, b, inv.dir, s) == SlotEntry(f, img, inv.dir, s)
    {
      RemovedEntry(f, img, inv, slot, s);
    }
    forall s | s in inv.files && s != slot
      ensures Linked(f, b, inv.files[s]) && Gather(f, b, inv.files[s], 0) == Gather(f, img, inv.files[s], 0)
    {
      RemovedFile(f, img, inv, slot, s);
      SoundLinked(f, b, inv, s);
    }
  }

  lemma SoundSizes(f: Format, img: seq<byte>, inv: Inventory)
    requires Valid(f, img, inv)
    ensures |img| == Size(f) && DirInDisk(f, inv.dir)
  {
  }

  lemma SoundLinked(f: Format, b: seq<byte>, inv: Inventory, s: nat)
    requires |b| >= Size(f) && DirInDisk(f, inv.dir) && s in inv.files && FileSound(f, b, inv, s)
    ensures Linked(f, b, inv.files[s])
  {
    hide Linked, Describes, SlotEntry, Owned;
  }

  lemma RemovedValid(f: Format, img: seq<byte>, inv: Inventory, slot: nat)
    requires Valid(f, img, inv) && slot in inv.files && slot < 8 * |inv.dir|
    ensures Valid(f, Removed(f, img, inv.dir, slot), inv.(files := inv.files - {slot}))
  {
    hide IsFree, FreeBlocks, BamSound, SlotEntry, IsBam, SameSector, Gather, BamOwned, Removed, SectorsPerTrack,
      LinksOn, Describes, Owned;
    var b, inv' := Removed(f, img, inv.dir, slot), inv.(files := inv.files - {slot});
    RemovedFrame(f, img, inv, slot);
    forall i | 0 <= i < |inv.dir| ensures DirLink(f, b, inv', i) { RemovedLink(f, img, inv, slot, i); }
    forall s | 0 <= s < 8 * |inv.dir| ensures SlotSound(f, b, inv', s) {
      RemovedEntry(f, img, inv, slot, s);
      assert SlotSound(f, img, inv, s);
    }
    forall s | s in inv'.files ensures FileSound(f, b, inv', s) {
      assert inv'.files[s] == inv.files[s];
      RemovedFile(f, img, inv, slot, s);
    }
  }

  lemma RemovedIs(f: Format, img: seq<byte>, inv: Inventory, name: seq<byte>, slot: nat)
    requires Editable(f, img, inv, name, slot)
    ensures slot < 8 * |inv.dir| && DirInDisk(f, inv.dir) && |img| >= Size(f)
    ensures Fixture(f, img, name, Missing) == Some(Removed(f, img, inv.dir, slot))
  {
    assert |img| >= Size(f) && DirInDisk(f, inv.dir);
    hide DosFile, Valid, Matches, ChainPlaces, AllInChain;
    MatchIsFile(f, img, inv, name, slot);
    FoundFile(f, img, inv, name, slot);
  }
}
