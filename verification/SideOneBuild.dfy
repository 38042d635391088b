/** Builds that keep their files on side one: their D64 can always be derived. */
module SideOneBuild {
  import opened Bytes
  import opened Geometry
  import opened Bam
  import opened DiskRead
  import opened Inventory
  import opened Writing
  import opened Install
  import opened InstallProofs
  import opened InstallTheorems
  import opened Listings
  import opened Runs
  import opened RunAccounts
  import opened Repack
  import opened SideOne

  ghost predicate AllSideOne(inv: Inventory) {
    forall s | s in inv.files :: OnSideOne(inv.files[s])
  }

  lemma AllocatedSideOne(img: seq<byte>, data: seq<byte>)
    requires |img| >= Size(D71) && Blocks(data) <= |FreeList(D71, img, 35)|
    ensures OnSideOne(Allocated(D71, img, data, 35))
  {
    hide FreeList, IsFree;
    FreeListFacts(D71, img, 35);
    var all := FreeList(D71, img, 35);
    forall l | l in Allocated(D71, img, data, 35) ensures l.track <= 35 { assert l in all; }
  }

  lemma {:induction false} RunSideOne(img: seq<byte>, inv: Inventory, reqs: seq<Request>)
    requires Valid(D71, img, inv) && AllSideOne(inv) && Run(D71, img, reqs, 35).Done?
    ensures AllSideOne(RunInventory(D71, img, inv, reqs, 35))
    decreases |reqs|
  {
    hide Valid, InstallOn, After, OnSideOne, RunFits, Accounts, CanPlace, PlaceFile, FreeList, KeyOf, NewSlot, HasSlot;
    SoundShape(D71, img, inv);
    if reqs != [] {
      var before, req := reqs[..|reqs| - 1], reqs[|reqs| - 1];
      RunSideOne(img, inv, before);
      RunExactly(D71, img, inv, before, 35);
      var m, mid := Run(D71, img, before, 35).image, RunInventory(D71, img, inv, before, 35);
      SoundShape(D71, m, mid);
      InstallIsPlace(D71, m, mid, req, 35);
      AllocatedSideOne(m, req.data);
    }
  }

  /** A build restricted to side one always gives a D64, and that D64 lists exactly the requested files
      with their names, types and bytes and carries the boot sectors. */
  lemma BuildDerives(sectors: seq<seq<byte>>, reqs: seq<Request>)
    requires BootSectors(sectors) && BuildD71(sectors, reqs, 35).Some?
    ensures var d64 := D64Image(BuildD71(sectors, reqs, 35).value);
      d64.Some? && ListsRequests(D64, d64.value, reqs) && BootHolds(D64, d64.value, sectors)
  {
    hide Valid, WithBoot, Run, RunInventory, D64Image, ListsRequests, BootHolds;
    BootedIsValid(D71, DEFAULT_NAME, DEFAULT_ID, sectors);
    var img := WithBoot(D71, DEFAULT_NAME, DEFAULT_ID, sectors).value;
    NoneYet();
    RunSideOne(img, BootInventory(D71), reqs);
    RunExactly(D71, img, BootInventory(D71), reqs, 35);
    var b, inv := BuildD71(sectors, reqs, 35).value, RunInventory(D71, img, BootInventory(D71), reqs, 35);
    BuildTheorem(sectors, reqs, 35);
    DerivedExactly(b, inv);
    DerivedIsLossless(b, inv);
    SameAnswers(b, D64Image(b).value, reqs);
    DerivedBoot(b, sectors);
  }

  lemma DerivedBoot(b: seq<byte>, sectors: seq<seq<byte>>)
    requires |b| >= Size(D71) && BootSectors(sectors) && BootHolds(D71, b, sectors) && D64Image(b).Some?
    ensures BootHolds(D64, D64Image(b).value, sectors)
  {
    hide BootAt, ByteAt, D64Image, InDisk;
    forall i | 0 <= i < BOOT_BLOCKS
      ensures InDisk(D64, BootAt(i)) && Slice(D64, D64Image(b).value, BootAt(i), 0, 256) == sectors[i]
    {
      BootAtClosed(i);
      DerivedSector(b, BootAt(i));
      assert Slice(D64, D64Image(b).value, BootAt(i), 0, 256) == Slice(D71, b, BootAt(i), 0, 256);
    }
  }

  lemma NoneYet()
    ensures AllSideOne(BootInventory(D71))
  {
    assert BootInventory(D71).files == map[];
  }

  lemma SameAnswers(b: seq<byte>, r: seq<byte>, reqs: seq<Request>)
    requires |b| >= Size(D71) && |r| >= Size(D64) && ListsRequests(D71, b, reqs)
    requires DirEntries(D64, r) == DirEntries(D71, b)
    requires forall e | e in DirEntries(D71, b).entries :: FileBytes(D64, r, e) == FileBytes(D71, b, e)
    ensures ListsRequests(D64, r, reqs)
  {
    hide WalkDir, FileBytes, NameOf, Encode, DirEntries;
    var entries := DirEntries(D71, b).entries;
    forall i | 0 <= i < |reqs| ensures Answers(D64, r, entries[i], reqs[i]) {
      assert entries[i] in entries && Answers(D71, b, entries[i], reqs[i]);
    }
  }
}
