/** Installing a closed file: `install_prg_file` (build_d71.py, for D64 and D71 images) and
    `install_file` (build_d81.py). */
module Install {
  import opened Bytes
  import opened Geometry
  import opened Bam
  import opened DiskRead
  import opened Writing
  import opened Directory

  const SEQ: byte := 0x81
  const PRG: byte := 0x82

  // ----- names

  function Upper(c: char): char {
    if 'a' <= c <= 'z' then c - 'a' + 'A' else c
  }

  /** `name.upper().encode("ascii")`, for names whose characters have no special upper case. */
  function Encode(name: string): (e: Option<seq<byte>>)
    ensures e.Some? ==> |e.value| == |name| && forall i | 0 <= i < |name| ::
              e.value[i] == Upper(name[i]) as int && e.value[i] < 128
  {
    if forall i | 0 <= i < |name| :: name[i] < 128 as char
    then Some(seq(|name|, i requires 0 <= i < |name| && name[i] < 128 as char => Upper(name[i]) as byte))
    else None
  }

  /** `encoded.ljust(16, b"\xa0")`. */
  function Padded(encoded: seq<byte>): (s: seq<byte>)
    requires |encoded| <= 16
    ensures |s| == 16
  {
    encoded + seq(16 - |encoded|, _ => 0xA0)
  }

  /** `field.rstrip(b"\xa0")`. */
  function Stripped(field: seq<byte>): (s: seq<byte>)
    ensures s <= field
  {
    if |field| > 0 && field[|field| - 1] == 0xA0 then Stripped(field[..|field| - 1]) else field
  }

  function NameOf(entry: seq<byte>): seq<byte>
    requires |entry| == 30
  {
    Stripped(entry[3..19])
  }

  lemma {:induction false} StripPadded(encoded: seq<byte>, pad: nat)
    requires forall i | 0 <= i < |encoded| :: encoded[i] != 0xA0
    ensures Stripped(encoded + seq(pad, _ => 0xA0)) == encoded
    decreases pad
  {
    var field := encoded + seq(pad, _ => 0xA0);
    if pad == 0 {
      assert field == encoded;
    } else {
      StripPadded(encoded, pad - 1);
      assert field[..|field| - 1] == encoded + seq(pad - 1, _ => 0xA0);
    }
  }

  // ----- free sectors, in allocation order

  function FreeOn(f: Format, img: seq<byte>, t: nat, s: nat): seq<Loc>
    requires |img| >= Size(f)
    decreases s
  {
    if s == 0 then [] else FreeOn(f, img, t, s - 1) + if IsFree(f, img, Loc(t, s - 1)) then [Loc(t, s - 1)] else []
  }

  /** Free sectors of tracks 1..t, without the directory track. */
  function FreeList(f: Format, img: seq<byte>, t: nat): seq<Loc>
    requires |img| >= Size(f)
    decreases t
  {
    if t == 0 then []
    else if t == DirTrack(f) then FreeList(f, img, t - 1)
    else FreeList(f, img, t - 1) + FreeOn(f, img, t, SectorsPerTrack(f, t))
  }

  lemma {:induction false} FreeOnPrefix(f: Format, img: seq<byte>, t: nat, s: nat, u: nat)
    requires |img| >= Size(f) && s <= u
    ensures FreeOn(f, img, t, s) <= FreeOn(f, img, t, u)
    decreases u
  {
    if s < u { FreeOnPrefix(f, img, t, s, u - 1); }
  }

  lemma {:induction false} FreePrefix(f: Format, img: seq<byte>, t: nat, u: nat)
    requires |img| >= Size(f) && t <= u
    ensures FreeList(f, img, t) <= FreeList(f, img, u)
    decreases u
  {
    hide IsFree, FreeOn, SectorsPerTrack;
    if t < u { FreePrefix(f, img, t, u - 1); }
  }

  lemma FreeListNext(f: Format, img: seq<byte>, t: nat)
    requires |img| >= Size(f) && t > 0
    ensures FreeList(f, img, t) ==
      FreeList(f, img, t - 1) + if t == DirTrack(f) then [] else FreeOn(f, img, t, SectorsPerTrack(f, t))
    ensures FreeOn(f, img, t, 0) == []
  {
    hide IsFree, SectorsPerTrack;
  }

  lemma FreeOnNext(f: Format, img: seq<byte>, t: nat, s: nat)
    requires |img| >= Size(f)
    ensures FreeOn(f, img, t, s + 1) == FreeOn(f, img, t, s) + if IsFree(f, img, Loc(t, s)) then [Loc(t, s)] else []
  {
    hide IsFree;
  }

  /** The collection loop of `install_prg_file`, which stops at `blocks` sectors. */
  method CollectFree(f: Format, image: seq<byte>, maxTrack: nat, blocks: nat) returns (available: seq<Loc>)
    requires |image| >= Size(f) && blocks > 0
    ensures var all := FreeList(f, image, maxTrack);
      available == if |all| < blocks then all else all[..blocks]
  {
    hide IsFree, SectorsPerTrack, FreeList, FreeOn;
    available := [];
    NoFree(f, image);
    for track := 1 to maxTrack + 1
      invariant available == FreeList(f, image, track - 1) && |available| < blocks
    {
      FreeListNext(f, image, track);
      if track == DirTrack(f) { continue; }
      for sector := 0 to SectorsPerTrack(f, track)
        invariant available == FreeList(f, image, track - 1) + FreeOn(f, image, track, sector)
        invariant |available| < blocks
      {
        FreeOnNext(f, image, track, sector);
        if IsFree(f, image, Loc(track, sector)) {
          available := available + [Loc(track, sector)];
          if |available| == blocks {
            assert available == FreeList(f, image, track - 1) + FreeOn(f, image, track, sector + 1);
            FreeOnPrefix(f, image, track, sector + 1, SectorsPerTrack(f, track));
            FreePrefix(f, image, track, maxTrack);
            return;
          }
        }
      }
    }
  }

  lemma {:induction false} FreeOnFacts(f: Format, img: seq<byte>, t: nat, s: nat)
    requires |img| >= Size(f)
    ensures forall l :: l in FreeOn(f, img, t, s) <==> l.track == t && l.sector < s && IsFree(f, img, l)
    ensures Distinct(FreeOn(f, img, t, s)) && |FreeOn(f, img, t, s)| <= s
    decreases s
  {
    hide IsFree;
    if s > 0 { FreeOnFacts(f, img, t, s - 1); }
  }

  lemma DistinctConcat(a: seq<Loc>, b: seq<Loc>)
    requires Distinct(a) && Distinct(b) && forall l | l in a :: l !in b
    ensures Distinct(a + b)
  {
    forall i, j | 0 <= i < j < |a + b| ensures (a + b)[i] != (a + b)[j] {
      if i < |a| <= j { assert a[i] in a && b[j - |a|] in b; }
    }
  }

  lemma {:induction false} FreeListHolds(f: Format, img: seq<byte>, t: nat, l: Loc)
    requires |img| >= Size(f)
    ensures l in FreeList(f, img, t) <==> l.track <= t && l.track != DirTrack(f) && IsFree(f, img, l)
    decreases t
  {
    hide IsFree, FreeOn, FreeList, SectorsPerTrack, Size;
    FreeListStep(f, img, t, l);
    if t > 0 {
      FreeListHolds(f, img, t - 1, l);
      FreeTrackHolds(f, img, t, l);
    }
  }

  lemma FreeListStep(f: Format, img: seq<byte>, t: nat, l: Loc)
    requires |img| >= Size(f)
    ensures l in FreeList(f, img, t) <==>
      t > 0 && (l in FreeList(f, img, t - 1) || (t != DirTrack(f) && l in FreeOn(f, img, t, SectorsPerTrack(f, t))))
    ensures IsFree(f, img, l) ==> l.track > 0
  {
    FreeBounds(f, img, l);
    hide IsFree, FreeOn, SectorsPerTrack;
  }

  lemma FreeTrackHolds(f: Format, img: seq<byte>, t: nat, l: Loc)
    requires |img| >= Size(f)
    ensures l in FreeOn(f, img, t, SectorsPerTrack(f, t)) <==> l.track == t && IsFree(f, img, l)
  {
    FreeBounds(f, img, l);
    FreeOnHolds(f, img, t, SectorsPerTrack(f, t), l);
  }

  lemma {:induction false} FreeOnHolds(f: Format, img: seq<byte>, t: nat, s: nat, l: Loc)
    requires |img| >= Size(f)
    ensures l in FreeOn(f, img, t, s) <==> l.track == t && l.sector < s && IsFree(f, img, l)
    decreases s
  {
    hide IsFree;
    if s > 0 { FreeOnHolds(f, img, t, s - 1, l); }
  }

  lemma FreeBounds(f: Format, img: seq<byte>, l: Loc)
    requires |img| >= Size(f)
    ensures IsFree(f, img, l) ==> 1 <= l.track && l.sector < SectorsPerTrack(f, l.track)
  {
  }

  lemma {:induction false} FreeListDistinct(f: Format, img: seq<byte>, t: nat)
    requires |img| >= Size(f)
    ensures Distinct(FreeList(f, img, t)) && |FreeList(f, img, t)| <= 40 * t
    decreases t
  {
    hide IsFree, FreeOn, Distinct, SectorsPerTrack;
    if t == 0 {
      NoFree(f, img);
    } else {
      var before, here := FreeList(f, img, t - 1), FreeOn(f, img, t, SectorsPerTrack(f, t));
      FreeListDistinct(f, img, t - 1);
      FreeOnFacts(f, img, t, SectorsPerTrack(f, t));
      forall l | l in before ensures l !in here { FreeListHolds(f, img, t - 1, l); }
      DistinctConcat(before, here);
    }
  }

  lemma NoFree(f: Format, img: seq<byte>)
    requires |img| >= Size(f)
    ensures FreeList(f, img, 0) == [] && Distinct(FreeList(f, img, 0))
  {
  }

  /** The list holds exactly the free sectors off the directory track, each once. */
  lemma FreeListFacts(f: Format, img: seq<byte>, t: nat)
    requires |img| >= Size(f)
    ensures forall l :: l in FreeList(f, img, t) <==> l.track <= t && l.track != DirTrack(f) && IsFree(f, img, l)
    ensures Distinct(FreeList(f, img, t)) && |FreeList(f, img, t)| <= 40 * t
    decreases t
  {
    hide FreeList, IsFree;
    FreeListDistinct(f, img, t);
    forall l ensures l in FreeList(f, img, t) <==> l.track <= t && l.track != DirTrack(f) && IsFree(f, img, l) {
      FreeListHolds(f, img, t, l);
    }
  }

  // ----- the directory entry

  /** The 30 bytes written over an entry. The D71 tool leaves bytes 19..27 as they were. */
  function NewEntry(f: Format, prior: seq<byte>, fileType: byte, first: Loc, encoded: seq<byte>,
      blocks: nat): (e: seq<byte>)
    requires |prior| == 30 && first.track < 256 && first.sector < 256 && |encoded| <= 16 && blocks < 0x10000
    ensures |e| == 30
    ensures e[0] == fileType && e[1] == first.track && e[2] == first.sector && Word(e, 28) == blocks
    ensures e[3..19] == Padded(encoded)
  {
    var tail := if f.D81? then Zeros(9) else prior[19..28];
    var e := [fileType, first.track, first.sector] + Padded(encoded) + tail + Le16(blocks);
    assert e[28] == Le16(blocks)[0] && e[29] == Le16(blocks)[1];
    e
  }

  function WriteEntry(f: Format, img: seq<byte>, at: Loc, slot: nat, entry: seq<byte>): (r: seq<byte>)
    requires |img| >= Size(f) && InDisk(f, at) && slot < 8 && |entry| == 30
    ensures |r| == |img|
  {
    SectorInImage(f, at);
    Splice(img, Offset(f, at) + 2 + 32 * slot, entry)
  }

  /** Directory slot, then the data sectors, then the entry. */
  function PlaceFile(f: Format, img: seq<byte>, encoded: seq<byte>, data: seq<byte>, fileType: byte,
      chain: seq<Loc>): (o: Outcome)
    requires |img| >= Size(f) && OnDisk(f, chain) && 0 < |chain| < 0x10000 && |encoded| <= 16
    ensures |o.image| == |img|
  {
    match FindSlot(f, img, FirstDir(f), {})
    case NoSlot(bad, error) => Failed(bad, error)
    case Slot(ready, at, slot) =>
      match WriteChain(f, ready, chain, FileBlocks(chain, data), |chain|)
      case Failed(bad, error) => Failed(bad, error)
      case Done(written) =>
        assert chain[0] in chain;
        Done(WriteEntry(f, written, at, slot,
          NewEntry(f, EntryAt(f, written, at, slot), fileType, chain[0], encoded, |chain|)))
  }

  predicate NameLengthOk(name: string) {
    Encode(name).Some? && 1 <= |Encode(name).value| <= 16
  }

  lemma ChainFits(f: Format, img: seq<byte>, maxTrack: nat, n: nat)
    requires |img| >= Size(f) && n <= |FreeList(f, img, maxTrack)| && maxTrack <= 80
    ensures OnDisk(f, FreeList(f, img, maxTrack)[..n]) && n < 0x10000
  {
    FreeListFacts(f, img, maxTrack);
  }

  /** `install_prg_file`. */
  function InstallPrg(f: Format, img: seq<byte>, name: string, data: seq<byte>, fileType: byte,
      maxTrack: nat): (o: Outcome)
    requires !f.D81? && |img| == Size(f)
    ensures |o.image| == |img|
  {
    if maxTrack != 35 && maxTrack != 70 then Failed(img, BadRequest)
    else if fileType != SEQ && fileType != PRG then Failed(img, BadType)
    else if data == [] && fileType != SEQ then Failed(img, EmptyProgram)
    else if !NameLengthOk(name) then Failed(img, BadName)
    else if |FreeList(f, img, maxTrack)| < Blocks(data) then Failed(img, NoRoom)
    else
      ChainFits(f, img, maxTrack, Blocks(data));
      PlaceFile(f, img, Encode(name).value, data, fileType, FreeList(f, img, maxTrack)[..Blocks(data)])
  }

  /** `install_file` of the D81 tool. */
  function InstallFile(img: seq<byte>, name: string, data: seq<byte>, fileType: byte): (o: Outcome)
    ensures |o.image| == |img|
  {
    if |img| != Size(D81) || (fileType != SEQ && fileType != PRG) then Failed(img, BadRequest)
    else if !NameLengthOk(name) then Failed(img, BadName)
    else if exists e | e in DirEntries(D81, img).entries :: NameOf(e) == Encode(name).value then Failed(img, Duplicate)
    else if !DirEntries(D81, img).whole then Failed(img, BadDirectoryChain)
    else if |FreeList(D81, img, 80)| < Blocks(data) then Failed(img, NoRoom)
    else
      ChainFits(D81, img, 80, Blocks(data));
      PlaceFile(D81, img, Encode(name).value, data, fileType, FreeList(D81, img, 80)[..Blocks(data)])
  }

  // ----- the tools themselves, in place

  function ErrorOf(o: Outcome): Option<DiskError> {
    match o case Done(_) => None case Failed(_, e) => Some(e)
  }

  method PlaceFileInPlace(f: Format, image: array<byte>, encoded: seq<byte>, data: seq<byte>, fileType: byte,
      chain: seq<Loc>)
      returns (error: Option<DiskError>)
    requires image.Length >= Size(f) && OnDisk(f, chain) && 0 < |chain| < 0x10000 && |encoded| <= 16
    modifies image
    ensures var o := PlaceFile(f, old(image[..]), encoded, data, fileType, chain);
      image[..] == o.image && error == ErrorOf(o)
  {
    hide SectorsBefore, FindSlot, WriteChain, Padded, Splice, WriteEntry, NewEntry, EntryAt, FileBlocks, Offset, InDisk,
      Size, Le16, Zeros;
    var at, slot, noSlot := FindSlotInPlace(f, image);
    if noSlot.Some? { return noSlot; }
    error := WriteChainInPlace(f, image, chain, FileBlocks(chain, data));
    if error.Some? { return; }
    ghost var written := image[..];
    SectorInImage(f, at);
    assert chain[0] in chain;
    var pos := Offset(f, at) + 2 + 32 * slot;
    Store(image, pos, [fileType, chain[0].track, chain[0].sector] + Padded(encoded));
    if f.D81? { Store(image, pos + 19, Zeros(9)); }
    Store(image, pos + 28, Le16(|chain|));
    ThreeStores(f, written, image[..], at, slot, fileType, chain[0], encoded, |chain|);
    return None;
  }

  lemma ThreeStores(f: Format, a: seq<byte>, b: seq<byte>, at: Loc, slot: nat, fileType: byte, first: Loc,
      encoded: seq<byte>, blocks: nat)
    requires |a| >= Size(f) && InDisk(f, at) && slot < 8 && first.track < 256 && first.sector < 256
    requires |encoded| <= 16 && blocks < 0x10000 && Offset(f, at) + 256 <= |a|
    requires var pos := Offset(f, at) + 2 + 32 * slot;
      var named := Splice(a, pos, [fileType, first.track, first.sector] + Padded(encoded));
      b == Splice(if f.D81? then Splice(named, pos + 19, Zeros(9)) else named, pos + 28, Le16(blocks))
    ensures b == WriteEntry(f, a, at, slot, NewEntry(f, EntryAt(f, a, at, slot), fileType, first, encoded, blocks))
  {
    hide SectorsBefore, Padded;
    var pos := Offset(f, at) + 2 + 32 * slot;
    var prior := EntryAt(f, a, at, slot);
    var e := NewEntry(f, prior, fileType, first, encoded, blocks);
    var c := WriteEntry(f, a, at, slot, e);
    forall i | 0 <= i < |a| ensures b[i] == c[i] {
      if pos + 19 <= i < pos + 28 { assert e[i - pos] == if f.D81? then 0 else prior[i - pos]; }
    }
  }

  method InstallPrgFile(f: Format, image: array<byte>, name: string, data: seq<byte>, fileType: byte, maxTrack: nat)
      returns (error: Option<DiskError>)
    requires !f.D81? && image.Length == Size(f)
    modifies image
    ensures var o := InstallPrg(f, old(image[..]), name, data, fileType, maxTrack);
      image[..] == o.image && error == ErrorOf(o)
  {
    hide FreeList, PlaceFile, Encode;
    if maxTrack != 35 && maxTrack != 70 { return Some(BadRequest); }
    if fileType != SEQ && fileType != PRG { return Some(BadType); }
    if data == [] && fileType != SEQ { return Some(EmptyProgram); }
    var encoded := Encode(name);
    if encoded.None? || !(1 <= |encoded.value| <= 16) { return Some(BadName); }
    var available := CollectFree(f, image[..], maxTrack, Blocks(data));
    if |available| != Blocks(data) { return Some(NoRoom); }
    ChainFits(f, image[..], maxTrack, Blocks(data));
    error := PlaceFileInPlace(f, image, encoded.value, data, fileType, available);
  }

  method InstallD81File(image: array<byte>, name: string, data: seq<byte>, fileType: byte)
      returns (error: Option<DiskError>)
    modifies image
    ensures var o := InstallFile(old(image[..]), name, data, fileType);
      image[..] == o.image && error == ErrorOf(o)
  {
    hide FreeList, PlaceFile, Encode, WalkDir, NameOf;
    if image.Length != Size(D81) || (fileType != SEQ && fileType != PRG) { return Some(BadRequest); }
    var encoded := Encode(name);
    if encoded.None? || !(1 <= |encoded.value| <= 16) { return Some(BadName); }
    var listing := Entries(D81, image[..], 40, 3);
    if exists e | e in listing.entries :: NameOf(e) == encoded.value { return Some(Duplicate); }
    if !listing.whole { return Some(BadDirectoryChain); }
    var available := FreeList(D81, image[..], 80);
    if |available| < Blocks(data) { return Some(NoRoom); }
    ChainFits(D81, image[..], 80, Blocks(data));
    error := PlaceFileInPlace(D81, image, encoded.value, data, fileType, available[..Blocks(data)]);
  }
}
