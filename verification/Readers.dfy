/** Reading any image at all: a file is read exactly when its sectors form a linked chain of the
    length its entry states, and a directory exactly when its own chain ends. */
module Readers {
  import opened Bytes
  import opened Geometry
  import opened Bam
  import opened DiskRead
  import opened DiskLayout

  // ----- files

  lemma {:induction false} GatherShift(f: Format, img: seq<byte>, l: Loc, rest: seq<Loc>, i: nat)
    requires |img| >= Size(f) && i <= |rest| && InDisk(f, l) && forall m | m in rest :: InDisk(f, m)
    ensures Gather(f, img, [l] + rest, i + 1) == Gather(f, img, rest, i)
    decreases |rest| - i
  {
    hide Payload, InDisk, Size;
    if i < |rest| {
      GatherShift(f, img, l, rest, i + 1);
      assert ([l] + rest)[i + 1] == rest[i];
    }
  }

  lemma LinkedFront(f: Format, img: seq<byte>, l: Loc, rest: seq<Loc>)
    requires |img| >= Size(f) && InDisk(f, l) && Linked(f, img, rest)
    requires ByteAt(f, img, l, 0) == rest[0].track && ByteAt(f, img, l, 1) == rest[0].sector
    ensures Linked(f, img, [l] + rest)
    ensures Gather(f, img, [l] + rest, 0) == Payload(f, img, l) + Gather(f, img, rest, 0)
  {
    hide ByteAt, InDisk, Payload, SectorsPerTrack;
    var chain := [l] + rest;
    forall i | 0 <= i < |chain| ensures InDisk(f, chain[i]) && LinksOn(f, img, chain, i) {
      if i > 0 { assert chain[i] == rest[i - 1] && LinksOn(f, img, rest, i - 1); }
    }
    hide LinksOn;
    GatherShift(f, img, l, rest, 0);
  }

  lemma LinkedOne(f: Format, img: seq<byte>, l: Loc)
    requires |img| >= Size(f) && InDisk(f, l) && ByteAt(f, img, l, 0) == 0 && ByteAt(f, img, l, 1) > 0
    ensures Linked(f, img, [l]) && Gather(f, img, [l], 0) == Payload(f, img, l)
  {
    hide ByteAt, InDisk, Payload;
    assert LinksOn(f, img, [l], 0);
    assert Gather(f, img, [l], 1) == [];
  }

  /** A chain that was read to its end is linked, without repetition, through sectors not yet seen. */
  lemma {:induction false} ReadFollows(f: Format, img: seq<byte>, track: nat, sector: nat, seen: set<Loc>,
      got: seq<byte>) returns (chain: seq<Loc>)
    requires |img| >= Size(f) && track != 0 && ReadChain(f, img, track, sector, seen, got).Some?
    ensures Linked(f, img, chain) && Distinct(chain) && chain[0] == Loc(track, sector)
    ensures forall l | l in chain :: l !in seen
    ensures ReadChain(f, img, track, sector, seen, got) ==
      Some(Stream(got + Gather(f, img, chain, 0), |seen| + |chain|))
    decreases AllSectors(f) - seen
  {
    hide ByteAt, Payload, SectorsPerTrack, AllSectors, Gather, LinksOn;
    var l := Loc(track, sector);
    ReadOnce(f, img, track, sector, seen, got);
    InAllSectors(f, l);
    var next, last := ByteAt(f, img, l, 0), ByteAt(f, img, l, 1);
    if next == 0 {
      chain := [l];
      LinkedOne(f, img, l);
      ReadEnd(f, img, last, seen + {l}, got + Payload(f, img, l));
    } else {
      var rest := ReadFollows(f, img, next, last, seen + {l}, got + Payload(f, img, l));
      chain := [l] + rest;
      LinkedFront(f, img, l, rest);
      assert got + Payload(f, img, l) + Gather(f, img, rest, 0) == got + Gather(f, img, chain, 0);
    }
  }

  /** The sectors an entry's file occupies, as its first sector and block count say. */
  ghost predicate ChainOf(f: Format, img: seq<byte>, e: seq<byte>, chain: seq<Loc>)
    requires |img| >= Size(f) && |e| == 30
  {
    Linked(f, img, chain) && Distinct(chain) && chain[0] == Loc(e[1], e[2]) && WordIs(e, 28, |chain|)
  }

  /** A file is read exactly when the entry names a linked chain of as many different sectors as it
      says, and then as that chain's payloads; an entry of no sectors at all reads as nothing. */
  lemma FileReadsExactly(f: Format, img: seq<byte>, e: seq<byte>, data: seq<byte>)
    requires |img| >= Size(f) && |e| == 30
    ensures FileBytes(f, img, e) == Some(data) <==>
      || (e[1] == 0 && WordIs(e, 28, 0) && data == [])
      || exists chain :: ChainOf(f, img, e, chain) && Gather(f, img, chain, 0) == data
  {
    hide ReadChain, Gather, Payload, LinksOn;
    if e[1] == 0 {
      ReadEnd(f, img, e[2], {}, []);
    } else if ReadChain(f, img, e[1], e[2], {}, []).Some? {
      var chain := ReadFollows(f, img, e[1], e[2], {}, []);
      assert [] + Gather(f, img, chain, 0) == Gather(f, img, chain, 0);
      if FileBytes(f, img, e) == Some(data) { assert ChainOf(f, img, e, chain); }
    }
    forall chain | ChainOf(f, img, e, chain) ensures FileBytes(f, img, e) == Some(Gather(f, img, chain, 0)) {
      ReadLinked(f, img, chain, 0, {}, []);
      assert [] + Gather(f, img, chain, 0) == Gather(f, img, chain, 0);
    }
  }

  // ----- the directory

  /** The chain of a directory: from its first sector, each naming the next, to one that names none. */
  ghost predicate DirectoryOf(f: Format, img: seq<byte>, dir: seq<Loc>)
    requires |img| >= Size(f)
  {
    && |dir| > 0 && Distinct(dir) && (forall i | 0 <= i < |dir| :: NamesNext(f, img, dir, i))
  }

  ghost predicate NamesNext(f: Format, img: seq<byte>, dir: seq<Loc>, i: nat)
    requires |img| >= Size(f)
  {
    && i < |dir| && InDisk(f, dir[i])
    && if i + 1 < |dir| then ByteAt(f, img, dir[i], 0) == dir[i + 1].track &&
      ByteAt(f, img, dir[i], 1) == dir[i + 1].sector
       else ByteAt(f, img, dir[i], 0) == 0
  }

  /** Their occupied entries, in order. */
  ghost function EntriesOf(f: Format, img: seq<byte>, dir: seq<Loc>, i: nat): (found: seq<seq<byte>>)
    requires |img| >= Size(f) && i <= |dir| && forall l | l in dir :: InDisk(f, l)
    ensures forall e | e in found :: |e| == 30
    decreases |dir| - i
  {
    if i == |dir| then [] else Occupied(f, img, dir[i], 8) + EntriesOf(f, img, dir, i + 1)
  }

  lemma {:induction false} EntriesShift(f: Format, img: seq<byte>, l: Loc, rest: seq<Loc>, i: nat)
    requires |img| >= Size(f) && i <= |rest| && InDisk(f, l) && forall m | m in rest :: InDisk(f, m)
    ensures EntriesOf(f, img, [l] + rest, i + 1) == EntriesOf(f, img, rest, i)
    decreases |rest| - i
  {
    hide Occupied, InDisk;
    if i < |rest| { EntriesShift(f, img, l, rest, i + 1); }
  }

  lemma WalkOnce(f: Format, img: seq<byte>, l: Loc, seen: set<Loc>, found: seq<seq<byte>>)
    requires |img| >= Size(f) && forall e | e in found :: |e| == 30
    ensures WalkDir(f, img, l.track, l.sector, seen, found) ==
      if l.track == 0 then Listing(found, true)
      else if !InDisk(f, l) || l in seen then Listing(found, false)
      else WalkDir(f, img, ByteAt(f, img, l, 0), ByteAt(f, img, l, 1), seen + {l}, found + Occupied(f, img, l, 8))
  {
    hide ByteAt, Occupied, AllSectors;
    assert l == Loc(l.track, l.sector);
  }

  lemma DirectoryIn(f: Format, img: seq<byte>, dir: seq<Loc>)
    requires |img| >= Size(f) && DirectoryOf(f, img, dir)
    ensures forall l | l in dir :: InDisk(f, l)
  {
    forall l | l in dir ensures InDisk(f, l) {
      var i :| 0 <= i < |dir| && dir[i] == l;
      assert NamesNext(f, img, dir, i);
    }
  }

  lemma DirectoryFront(f: Format, img: seq<byte>, l: Loc, rest: seq<Loc>)
    requires |img| >= Size(f) && InDisk(f, l) && DirectoryOf(f, img, rest) && l !in rest
    requires ByteAt(f, img, l, 0) == rest[0].track && ByteAt(f, img, l, 1) == rest[0].sector
    ensures DirectoryOf(f, img, [l] + rest) && (forall m | m in [l] + rest :: InDisk(f, m))
    ensures (forall m | m in rest :: InDisk(f, m))
    ensures EntriesOf(f, img, [l] + rest, 0) == Occupied(f, img, l, 8) + EntriesOf(f, img, rest, 0)
  {
    hide ByteAt, InDisk, Occupied, NamesNext, SectorsPerTrack;
    var dir := [l] + rest;
    forall i: nat | i < |dir| ensures NamesNext(f, img, dir, i) { NextInFront(f, img, l, rest, i); }
    DirectoryIn(f, img, rest);
    hide DirectoryOf;
    EntriesShift(f, img, l, rest, 0);
  }

  lemma NextInFront(f: Format, img: seq<byte>, l: Loc, rest: seq<Loc>, i: nat)
    requires |img| >= Size(f) && InDisk(f, l) && DirectoryOf(f, img, rest) && i <= |rest|
    requires ByteAt(f, img, l, 0) == rest[0].track && ByteAt(f, img, l, 1) == rest[0].sector
    ensures NamesNext(f, img, [l] + rest, i)
  {
    hide ByteAt, InDisk;
    if i > 0 { assert NamesNext(f, img, rest, i - 1); }
  }

  lemma DirectoryOne(f: Format, img: seq<byte>, l: Loc)
    requires |img| >= Size(f) && InDisk(f, l) && ByteAt(f, img, l, 0) == 0
    ensures DirectoryOf(f, img, [l]) && EntriesOf(f, img, [l], 0) == Occupied(f, img, l, 8)
  {
    hide ByteAt, InDisk, Occupied;
    assert NamesNext(f, img, [l], 0);
    assert EntriesOf(f, img, [l], 1) == [];
  }

  lemma {:induction false} WalkFollows(f: Format, img: seq<byte>, l: Loc, seen: set<Loc>, found: seq<seq<byte>>)
      returns (dir: seq<Loc>)
    requires |img| >= Size(f) && l.track != 0 && (forall e | e in found :: |e| == 30)
    requires WalkDir(f, img, l.track, l.sector, seen, found).whole
    ensures DirectoryOf(f, img, dir) && dir[0] == l && (forall m | m in dir :: m !in seen && InDisk(f, m))
    ensures WalkDir(f, img, l.track, l.sector, seen, found) == Listing(found + EntriesOf(f, img, dir, 0), true)
    decreases AllSectors(f) - seen
  {
    hide ByteAt, Occupied, SectorsPerTrack, AllSectors, WalkDir, EntriesOf, DirectoryOf;
    WalkOnce(f, img, l, seen, found);
    InAllSectors(f, l);
    var next, more := Loc(ByteAt(f, img, l, 0), ByteAt(f, img, l, 1)), found + Occupied(f, img, l, 8);
    WalkOnce(f, img, next, seen + {l}, more);
    if next.track == 0 {
      dir := [l];
      DirectoryOne(f, img, l);
    } else {
      var rest := WalkFollows(f, img, next, seen + {l}, more);
      dir := [l] + rest;
      DirectoryFront(f, img, l, rest);
      assert more + EntriesOf(f, img, rest, 0) == found + EntriesOf(f, img, dir, 0);
    }
  }

  lemma {:induction false} WalkReads(f: Format, img: seq<byte>, dir: seq<Loc>, i: nat, seen: set<Loc>,
      found: seq<seq<byte>>)
    requires |img| >= Size(f) && DirectoryOf(f, img, dir) && i < |dir| && (forall e | e in found :: |e| == 30)
    requires (forall m | m in dir :: InDisk(f, m)) && forall j | i <= j < |dir| :: dir[j] !in seen
    ensures WalkDir(f, img, dir[i].track, dir[i].sector, seen, found) ==
      Listing(found + EntriesOf(f, img, dir, i), true)
    decreases |dir| - i
  {
    hide ByteAt, Occupied, SectorsPerTrack, AllSectors, WalkDir;
    var l := dir[i];
    assert NamesNext(f, img, dir, i);
    var next, more := Loc(ByteAt(f, img, l, 0), ByteAt(f, img, l, 1)), found + Occupied(f, img, l, 8);
    WalkOnce(f, img, l, seen, found);
    assert more + EntriesOf(f, img, dir, i + 1) == found + EntriesOf(f, img, dir, i);
    if i + 1 < |dir| {
      WalkReads(f, img, dir, i + 1, seen + {l}, more);
    } else {
      WalkOnce(f, img, next, seen + {l}, more);
      assert more + [] == more;
    }
  }

  /** A directory is read to its end exactly when its sectors, from 18/1 or 40/3 on, form a chain
      without repetition whose last sector names no other, and then its occupied entries are listed in
      order. */
  lemma DirectoryReadsExactly(f: Format, img: seq<byte>)
    requires |img| >= Size(f)
    ensures DirEntries(f, img).whole <==>
      exists dir :: DirectoryOf(f, img, dir) && dir[0] == if f.D81? then Loc(40, 3) else Loc(18, 1)
    ensures forall dir | DirectoryOf(f, img, dir) && dir[0] == (if f.D81? then Loc(40, 3) else Loc(18, 1)) ::
      (forall l | l in dir :: InDisk(f, l)) && DirEntries(f, img) == Listing(EntriesOf(f, img, dir, 0), true)
  {
    hide WalkDir, EntriesOf, NamesNext;
    if DirEntries(f, img).whole { var dir := WalkFollows(f, img, FirstDir(f), {}, []); }
    forall dir | DirectoryOf(f, img, dir) && dir[0] == (if f.D81? then Loc(40, 3) else Loc(18, 1))
      ensures (forall l | l in dir :: InDisk(f, l)) && DirEntries(f, img) == Listing(EntriesOf(f, img, dir, 0), true)
    {
      DirectoryIn(f, img, dir);
      WalkReads(f, img, dir, 0, {}, []);
      assert [] + EntriesOf(f, img, dir, 0) == EntriesOf(f, img, dir, 0);
    }
  }
}
