/** `build_bootfs` as it runs: one zeroed buffer, a write cursor and a dictionary of payloads. */
module BootfsTools {
  import opened Bytes
  import opened Sorting
  import opened Bootfs
  import opened BootfsProofs

  method NormalizeAll(entries: seq<Entry>) returns (r: Result<seq<File>, NameError>)
    ensures r == Normalize(entries, |entries|)
  {
    hide ValidateName;
    var files := [];
    for i := 0 to |entries|
      invariant Normalize(entries, i) == Ok(files)
    {
      var name := ValidateName(entries[i].name);
      if name.Err? {
        NormalizeStops(entries, i + 1, |entries|);
        return Err(name.error);
      }
      files := files + [File(name.value, entries[i].data)];
    }
    return Ok(files);
  }

  lemma {:induction false} NormalizeStops(entries: seq<Entry>, n: nat, k: nat)
    requires n <= k <= |entries| && Normalize(entries, n).Err?
    ensures Normalize(entries, k) == Normalize(entries, n)
    decreases k
  {
    if n < k { NormalizeStops(entries, n, k - 1); }
  }

  method CheckFiles(files: seq<File>) returns (fault: Option<BootfsError>)
    ensures fault == Fault(files, |files|)
  {
    for i := 0 to |files|
      invariant Fault(files, i).None?
    {
      if i != 0 && files[i - 1].name == files[i].name {
        FaultStops(files, i + 1, |files|);
        return Some(Duplicate);
      }
      if files[i].data == [] {
        FaultStops(files, i + 1, |files|);
        return Some(EmptyPayload);
      }
    }
    return None;
  }

  lemma {:induction false} FaultStops(files: seq<File>, n: nat, k: nat)
    requires n <= k <= |files| && Fault(files, n).Some?
    ensures Fault(files, k) == Fault(files, n)
    decreases k
  {
    if n < k { FaultStops(files, n, k - 1); }
  }

  method CountPayloads(files: seq<File>) returns (size: nat)
    ensures size == PayloadSize(files, |files|)
  {
    var seen: set<seq<byte>> := {};
    size := 0;
    for i := 0 to |files|
      invariant size == PayloadSize(files, i) && forall d :: d in seen <==> Seen(files, i, d)
    {
      if files[i].data !in seen {
        size := size + |files[i].data|;
        seen := seen + {files[i].data};
      }
    }
  }

  /** The five field assignments of one directory entry, over zero bytes. */
  method WriteEntry(image: array<byte>, at: nat, name: seq<byte>, offset: nat, size: nat)
    requires at + ENTRY <= image.Length && |name| <= NAME && offset <= 0xFFFF && size <= 0xFFFF
    requires forall k | at <= k < at + ENTRY :: image[k] == 0
    modifies image
    ensures image[..] == Splice(old(image[..]), at, DirectoryEntry(name, offset, size))
  {
    hide Splice;
    image[at] := 1;
    image[at + 1] := |name|;
    Store(image, at + 2, Le16(offset));
    Store(image, at + 4, Le16(size));
    Store(image, at + 8, name);
    ghost var e := DirectoryEntry(name, offset, size);
    assert e[2] == Le16(offset)[0] && e[3] == Le16(offset)[1] && e[4] == Le16(size)[0] && e[5] == Le16(size)[1];
    assert e[8..8 + |name|] == name;
    assert forall k | 0 <= k < |name| :: e[8 + k] == name[k];
  }

  /** `dirs` directory entries, zeros up to the payloads, and the first `pays` files' payloads. */
  ghost predicate Filled(image: seq<byte>, files: seq<File>, dirs: nat, pays: nat, cursor: nat)
    requires Buildable(files) && |image| == TotalSize(files) && dirs <= |files| && pays <= |files|
  {
    && cursor == DataOffset(files) + PayloadSize(files, pays) && cursor <= TotalSize(files)
    && image[..HEADER] == Head(|files|, TotalSize(files))
    && image[HEADER..HEADER + dirs * ENTRY] == DirectoryTo(files, dirs)
    && (forall k | HEADER + dirs * ENTRY <= k < DataOffset(files) :: image[k] == 0)
    && image[DataOffset(files)..cursor] == PayloadsTo(files, pays)
  }

  ghost predicate Placed(offsets: map<seq<byte>, nat>, files: seq<File>, i: nat)
    requires i <= |files|
  {
    && (forall d :: d in offsets <==> Seen(files, i, d))
    && (forall j | 0 <= j < i :: files[j].data in offsets && offsets[files[j].data] == PayloadAt(files, j))
  }

  lemma Started(image: seq<byte>, files: seq<File>)
    requires Buildable(files) && |image| == TotalSize(files) && image[..HEADER] == Head(|files|, TotalSize(files))
    requires forall k | HEADER <= k < |image| :: image[k] == 0
    ensures Filled(image, files, 0, 0, DataOffset(files)) && Placed(map[], files, 0)
  {
    hide Head;
  }

  lemma Finished(image: seq<byte>, files: seq<File>, cursor: nat)
    requires Buildable(files) && |image| == TotalSize(files) && Filled(image, files, |files|, |files|, cursor)
    ensures image == Image(files)
  {
    hide Head, DirectoryTo, PayloadsTo, PayloadSize, Seen;
    var d := DataOffset(files);
    assert image == image[..HEADER] + image[HEADER..d] + image[d..cursor];
  }

  lemma PayloadWritten(image: seq<byte>, files: seq<File>, i: nat, cursor: nat)
    requires Buildable(files) && |image| == TotalSize(files) && i < |files| && Filled(image, files, i, i, cursor)
    requires !Seen(files, i, files[i].data)
    ensures cursor + |files[i].data| <= |image|
    ensures Filled(Splice(image, cursor, files[i].data), files, i, i + 1, cursor + |files[i].data|)
  {
    hide Splice, Seen, DirectoryTo, Head, Buildable;
    SizeGrows(files, i, |files|);
    var after, data := Splice(image, cursor, files[i].data), files[i].data;
    assert after[..HEADER] == image[..HEADER] && after[HEADER..HEADER + i * ENTRY] == image[HEADER..HEADER + i * ENTRY];
    assert after[DataOffset(files)..cursor] == image[DataOffset(files)..cursor];
    assert after[cursor..cursor + |data|] == data;
    assert after[DataOffset(files)..cursor + |data|] ==
      after[DataOffset(files)..cursor] + after[cursor..cursor + |data|];
  }

  lemma PayloadShared(image: seq<byte>, files: seq<File>, i: nat, cursor: nat)
    requires Buildable(files) && |image| == TotalSize(files) && i < |files| && Filled(image, files, i, i, cursor)
    requires Seen(files, i, files[i].data)
    ensures Filled(image, files, i, i + 1, cursor)
  {
    hide Seen, DirectoryTo, Head, Buildable;
  }

  lemma EntryWritten(image: seq<byte>, files: seq<File>, i: nat, cursor: nat)
    requires Buildable(files) && |image| == TotalSize(files) && i < |files| && Filled(image, files, i, i + 1, cursor)
    ensures PayloadAt(files, i) <= 0xFFFF && |files[i].data| <= 0xFFFF && HEADER + (i + 1) * ENTRY <= |image|
    ensures Filled(Splice(image, HEADER + i * ENTRY,
      DirectoryEntry(files[i].name, PayloadAt(files, i), |files[i].data|)), files, i + 1, i + 1, cursor)
  {
    PayloadFits(files, i);
    hide Splice, PayloadAt, DirectoryEntry, PayloadSize, PayloadsTo, Head;
    var at, e := HEADER + i * ENTRY, DirectoryEntry(files[i].name, PayloadAt(files, i), |files[i].data|);
    var after := Splice(image, at, e);
    assert after[HEADER..at] == image[HEADER..at] && after[..HEADER] == image[..HEADER];
    assert after[at..at + ENTRY] == e;
    assert after[HEADER..at + ENTRY] == after[HEADER..at] + after[at..at + ENTRY];
    assert after[DataOffset(files)..cursor] == image[DataOffset(files)..cursor];
  }

  lemma OffsetKnown(offsets: map<seq<byte>, nat>, files: seq<File>, i: nat)
    requires i < |files| && Placed(offsets, files, i) && files[i].data in offsets
    ensures offsets[files[i].data] == PayloadAt(files, i)
    ensures Placed(offsets, files, i + 1)
  {
    hide PayloadAt;
    var j :| 0 <= j < i && files[j].data == files[i].data;
    SharedOrDisjoint(files, i, j);
    forall d ensures Seen(files, i + 1, d) <==> Seen(files, i, d) {}
  }

  lemma OwnPlace(files: seq<File>, i: nat)
    requires i < |files| && !Seen(files, i, files[i].data)
    ensures PayloadAt(files, i) == DataOffset(files) + PayloadSize(files, i)
  {
    hide PayloadSize;
    assert First(files, i, 0) == i;
  }

  lemma OffsetNew(offsets: map<seq<byte>, nat>, files: seq<File>, i: nat)
    requires i < |files| && Placed(offsets, files, i) && files[i].data !in offsets
    ensures Placed(offsets[files[i].data := PayloadAt(files, i)], files, i + 1)
  {
    hide PayloadAt, Seen;
    var more := offsets[files[i].data := PayloadAt(files, i)];
    assert !Seen(files, i, files[i].data);
    forall d ensures d in more <==> Seen(files, i + 1, d) { SeenNext(files, i, d); }
    forall j | 0 <= j < i + 1 ensures files[j].data in more && more[files[j].data] == PayloadAt(files, j) {
      if j < i { assert files[j].data in offsets; }
    }
  }

  lemma SeenNext(files: seq<File>, i: nat, d: seq<byte>)
    requires i < |files|
    ensures Seen(files, i + 1, d) <==> d == files[i].data || Seen(files, i, d)
  {
  }

  /** The assembly loop. */
  method Assemble(files: seq<File>, image: array<byte>)
    requires Buildable(files) && image.Length == TotalSize(files) && forall k | 0 <= k < image.Length :: image[k] == 0
    modifies image
    ensures image[..] == Image(files)
  {
    hide Splice, Head, DirectoryEntry, PayloadAt, PayloadSize, PayloadsTo, DirectoryTo, Seen, Placed, Filled, Image;
    Store(image, 0, Head(|files|, TotalSize(files)));
    var cursor := DataOffset(files);
    var offsets: map<seq<byte>, nat> := map[];
    assert image[..][..HEADER] == Head(|files|, TotalSize(files));
    Started(image[..], files);
    for i := 0 to |files|
      invariant Filled(image[..], files, i, i, cursor) && Placed(offsets, files, i)
    {
      cursor, offsets := PlacePayload(files, image, i, cursor, offsets);
      EntryWritten(image[..], files, i, cursor);
      assert forall k | HEADER + i * ENTRY <= k < HEADER + (i + 1) * ENTRY :: image[k] == 0 by {
        EntryBlank(image[..], files, i, cursor);
      }
      WriteEntry(image, HEADER + i * ENTRY, files[i].name, offsets[files[i].data], |files[i].data|);
    }
    Finished(image[..], files, cursor);
  }

  lemma EntryBlank(image: seq<byte>, files: seq<File>, i: nat, cursor: nat)
    requires Buildable(files) && |image| == TotalSize(files) && i < |files| && Filled(image, files, i, i + 1, cursor)
    ensures forall k | HEADER + i * ENTRY <= k < HEADER + (i + 1) * ENTRY :: image[k] == 0
  {
    hide PayloadSize, Head, DirectoryTo, PayloadsTo;
  }

  /** Payload i goes to the cursor unless an equal one is already stored. */
  method PlacePayload(files: seq<File>, image: array<byte>, i: nat, at: nat, known: map<seq<byte>, nat>)
    returns (cursor: nat, offsets: map<seq<byte>, nat>)
    requires Buildable(files) && image.Length == TotalSize(files) && i < |files|
    requires Filled(image[..], files, i, i, at) && Placed(known, files, i)
    modifies image
    ensures Filled(image[..], files, i, i + 1, cursor) && Placed(offsets, files, i + 1)
    ensures files[i].data in offsets && offsets[files[i].data] == PayloadAt(files, i)
  {
    hide Splice, PayloadAt, PayloadSize, Seen, Placed, Filled;
    var data := files[i].data;
    cursor, offsets := at, known;
    assert data in known <==> Seen(files, i, data) by { KnownSeen(known, files, i); }
    if data !in offsets {
      PayloadWritten(image[..], files, i, cursor);
      OwnPlace(files, i);
      OffsetNew(offsets, files, i);
      assert cursor == PayloadAt(files, i) by { CursorIs(image[..], files, i, cursor); }
      offsets := offsets[data := cursor];
      Store(image, cursor, data);
      cursor := cursor + |data|;
    } else {
      OffsetKnown(offsets, files, i);
      PayloadShared(image[..], files, i, cursor);
    }
  }

  lemma KnownSeen(known: map<seq<byte>, nat>, files: seq<File>, i: nat)
    requires i < |files| && Placed(known, files, i)
    ensures files[i].data in known <==> Seen(files, i, files[i].data)
  {
    hide Seen;
  }

  lemma CursorIs(image: seq<byte>, files: seq<File>, i: nat, cursor: nat)
    requires Buildable(files) && |image| == TotalSize(files) && i < |files| && Filled(image, files, i, i, cursor)
    ensures cursor == DataOffset(files) + PayloadSize(files, i)
  {
    hide PayloadSize;
  }

  method BuildImage(entries: seq<Entry>, maxSize: int) returns (r: Result<seq<byte>, BootfsError>)
    ensures r == BuildBootfs(entries, maxSize)
  {
    hide Normalize, Sort, Fault, PayloadSize, Image;
    if entries == [] { return Err(NoEntries); }
    if |entries| > 255 { return Err(TooMany); }
    var normal := NormalizeAll(entries);
    if normal.Err? { return Err(BadName(normal.error)); }
    var files := Sort(normal.value, ByName);
    var fault := CheckFiles(files);
    if fault.Some? { return Err(fault.value); }
    var payloads := CountPayloads(files);
    var total := DataOffset(files) + payloads;
    if total > maxSize || total > 0xFFFF { return Err(TooLarge); }
    CanBuild(entries);
    var image := new byte[total](_ => 0);
    Assemble(files, image);
    return Ok(image[..]);
  }
}
