/** Exactly which D71 images the repack accepts, and that it accepts every D71 the build makes
    whose names stay different in upper case. */
module RepackAccepts {
  import opened Bytes
  import opened Geometry
  import opened Bam
  import opened DiskRead
  import opened Inventory
  import opened Writing
  import opened Directory
  import opened DirectoryProofs
  import opened Install
  import opened InstallProofs
  import opened InstallTheorems
  import opened Listings
  import opened Blank
  import opened Runs
  import opened RunAccounts
  import opened Repack
  import opened Rooms
  import opened Labels

  // ----- exactly which images the repack accepts

  ghost predicate Repackable(source: seq<byte>) {
    && |source| == Size(D71) && source[..7] == [67, 66, 77, 0, 0x1C, 0, 0xD4] && LabelOf(source).0 != [] &&
      DirEntries(D71, source).whole
    && var asked := RequestsFor(source, DirEntries(D71, source).entries);
       asked.Some? && FitsBooted(D81, asked.value, 80)
  }

  lemma LabelIsOk(source: seq<byte>)
    requires |source| >= Size(D71)
    ensures LabelOk(LabelOf(source).0, LabelOf(source).1) <==> LabelOf(source).0 != []
  {
    hide ByteAt;
  }

  /** A D71 image is accepted exactly when it has the boot magic, a disk name, a readable directory of
      readable files with ASCII names of 1 to 16 characters, no two the same in upper case, at most 296
      of them, and at most 2947 blocks of data. */
  lemma RepackExactly(source: seq<byte>)
    ensures Repacked(source).Some? <==> Repackable(source)
  {
    hide Valid, WithBoot, Run, RunInventory, RunFits, FitsBooted, BootInventory, Accounts, BootHolds, DirEntries,
      RequestsFor, LabelOf, SourceSectors, Size;
    if |source| == Size(D71) {
      var (name, id) := LabelOf(source);
      var sectors := SourceSectors(source, BOOT_BLOCKS);
      LabelIsOk(source);
      BootedIsValid(D81, name, id, sectors);
      var asked := RequestsFor(source, DirEntries(D71, source).entries);
      if LabelOk(name, id) && asked.Some? {
        RunExactly(D81, WithBoot(D81, name, id, sectors).value, BootInventory(D81), asked.value, 80);
        BootedFits(D81, name, id, sectors, asked.value, 80);
      }
    }
  }

  // ----- the repack of a build

  lemma {:induction false} AllReadable(source: seq<byte>, entries: seq<seq<byte>>)
    requires |source| >= Size(D71) && forall e | e in entries :: |e| == 30
    requires forall e | e in entries :: Decode(NameOf(e)).Some? && FileBytes(D71, source, e).Some?
    ensures RequestsFor(source, entries).Some?
    decreases |entries|
  {
    hide Decode, NameOf, FileBytes;
    if entries != [] {
      assert entries[|entries| - 1] in entries;
      AllReadable(source, entries[..|entries| - 1]);
    }
  }

  lemma EncodedDecodes(name: string)
    requires NameLengthOk(name)
    ensures var key := Encode(name).value;
      && UpperBytes(key) == key && Decode(key).Some? && NameLengthOk(Decode(key).value)
      && Encode(Decode(key).value).value == key
  {
    var key := Encode(name).value;
    forall i | 0 <= i < |key| ensures UpperBytes(key)[i] == key[i] { assert key[i] == Upper(name[i]) as int; }
    EncodeDecoded(key);
  }

  lemma {:induction false} SumSame(a: seq<Request>, b: seq<Request>)
    requires |a| == |b| && forall i | 0 <= i < |a| :: a[i].data == b[i].data
    ensures SumBlocks(a) == SumBlocks(b)
    decreases |a|
  {
    hide Blocks;
    if a != [] { SumSame(a[..|a| - 1], b[..|b| - 1]); }
  }

  /** The request the repack makes of an entry that answers `req`. */
  ghost predicate Reasks(asked: Request, req: Request) {
    && NameLengthOk(req.name) && NameLengthOk(asked.name) && asked.data == req.data && asked.fileType == req.fileType
    && KeyOf(asked) == KeyOf(req)
  }

  ghost predicate AsksFor(source: seq<byte>, e: seq<byte>, asked: Request)
    requires |source| >= Size(D71) && |e| == 30
  {
    Decode(NameOf(e)) == Some(asked.name) && FileBytes(D71, source, e) == Some(asked.data) && asked.fileType == e[0]
  }

  lemma AnswerDecodes(source: seq<byte>, e: seq<byte>, req: Request)
    requires |source| >= Size(D71) && |e| == 30 && Answers(D71, source, e, req)
    ensures Decode(NameOf(e)).Some? && FileBytes(D71, source, e).Some?
    ensures forall asked: Request | AsksFor(source, e, asked) :: Reasks(asked, req)
  {
    EncodedDecodes(req.name);
    hide NameOf, FileBytes, Encode, Decode, UpperBytes;
  }

  /** The entries of a disk that lists the requests ask for the same again. */
  lemma AskedAgain(source: seq<byte>, reqs: seq<Request>)
    requires |source| >= Size(D71) && ListsRequests(D71, source, reqs)
    ensures var asked := RequestsFor(source, DirEntries(D71, source).entries);
      asked.Some? && |asked.value| == |reqs| && forall i | 0 <= i < |reqs| :: Reasks(asked.value[i], reqs[i])
  {
    hide Answers, Reasks, WalkDir, NameOf, FileBytes, Decode, RequestsFor, DirEntries;
    var entries := DirEntries(D71, source).entries;
    forall e | e in entries ensures Decode(NameOf(e)).Some? && FileBytes(D71, source, e).Some? {
      var i :| 0 <= i < |entries| && entries[i] == e;
      AnswerDecodes(source, e, reqs[i]);
    }
    AllReadable(source, entries);
    forall i | 0 <= i < |reqs| ensures Reasks(RequestsFor(source, entries).value[i], reqs[i]) {
      AnswerDecodes(source, entries[i], reqs[i]);
      RequestsAnswer(source, entries, i);
      assert AsksFor(source, entries[i], RequestsFor(source, entries).value[i]);
    }
  }

  lemma AskedFits(asked: seq<Request>, reqs: seq<Request>, fileTracks: nat)
    requires |asked| == |reqs| && (forall i | 0 <= i < |reqs| :: Reasks(asked[i], reqs[i]))
    requires FitsBooted(D71, reqs, fileTracks)
    ensures FitsBooted(D81, asked, 80) <==> Distinct(KeysOf(reqs))
  {
    hide NameLengthOk, KeyOf, SumBlocks, Distinct;
    SumSame(asked, reqs);
    forall i | 0 <= i < |reqs| ensures Askable(D81, asked[i], 80) && KeysOf(asked)[i] == KeysOf(reqs)[i] {
      assert Askable(D71, reqs[i], fileTracks) && Reasks(asked[i], reqs[i]);
    }
    assert KeysOf(asked) == KeysOf(reqs);
  }

  lemma MagicIs(b: seq<byte>, sectors: seq<seq<byte>>)
    requires |b| >= Size(D71) && BootSectors(sectors) && BootHolds(D71, b, sectors)
    ensures b[..7] == sectors[0][..7]
  {
    assert BootAt(0) == Loc(1, 0) && Slice(D71, b, BootAt(0), 0, 256) == sectors[0];
    assert b[0..256] == sectors[0];
    assert b[..7] == b[0..256][..7];
  }

  /** Every D71 the build makes is accepted by the repack exactly when its first boot sector carries
      the boot magic and no two of its names are the same in upper case: the D81 always has the room. */
  lemma BuildRepacks(sectors: seq<seq<byte>>, reqs: seq<Request>, fileTracks: nat)
    requires BootSectors(sectors) && BuildD71(sectors, reqs, fileTracks).Some?
    ensures Repacked(BuildD71(sectors, reqs, fileTracks).value).Some? <==>
      sectors[0][..7] == [67, 66, 77, 0, 0x1C, 0, 0xD4] && Distinct(KeysOf(reqs))
  {
    hide BuildD71, Repacked, ListsRequests, BootHolds, FitsBooted, Distinct, KeysOf, DirEntries, RequestsFor, LabelOf,
      Valid, Size, Reasks;
    var b := BuildD71(sectors, reqs, fileTracks).value;
    BuildTheorem(sectors, reqs, fileTracks);
    BuildExactly(sectors, reqs, fileTracks);
    BuildLabel(sectors, reqs, fileTracks);
    MagicIs(b, sectors);
    RepackExactly(b);
    AskedAgain(b, reqs);
    AskedFits(RequestsFor(b, DirEntries(D71, b).entries).value, reqs, fileTracks);
    ListingWhole(b, reqs);
  }

  lemma ListingWhole(b: seq<byte>, reqs: seq<Request>)
    requires |b| >= Size(D71) && ListsRequests(D71, b, reqs)
    ensures DirEntries(D71, b).whole
  {
  }
}
