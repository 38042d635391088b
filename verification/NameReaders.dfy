/** Reading the names of any image at all: `directory_names` of add_disk_apps.py succeeds exactly on a
    directory that ends, and on a D64 or D71 only if it also stays on track 18. */
module NameReaders {
  import opened Bytes
  import opened Geometry
  import opened DiskRead
  import opened DiskApps
  import opened Readers

  /** Every sector after the first is on track 18 and is not the header sector. */
  ghost predicate StaysOn18(dir: seq<Loc>) {
    forall i | 0 < i < |dir| :: dir[i].track == 18 && dir[i].sector != 0
  }

  lemma NamesOnce(f: Format, img: seq<byte>, l: Loc, seen: set<Loc>, names: set<seq<byte>>)
    requires !f.D81? && |img| >= Size(f)
    ensures WalkNames(f, img, l, seen, names) ==
      if !InDisk(f, l) || l in seen then None
      else
        var next, all := Loc(ByteAt(f, img, l, 0), ByteAt(f, img, l, 1)), names + Keys(Occupied(f, img, l, 8));
        if next.track == 0 then Some(all)
        else if next.track != 18 || next.sector == 0 then None
        else WalkNames(f, img, next, seen + {l}, all)
  {
    hide ByteAt, Occupied, AllSectors, Keys;
  }

  lemma KeysJoin(a: seq<seq<byte>>, b: seq<seq<byte>>)
    requires (forall e | e in a :: |e| == 30) && (forall e | e in b :: |e| == 30)
    ensures (forall e | e in a + b :: |e| == 30) && Keys(a + b) == Keys(a) + Keys(b)
  {
    assert forall e :: e in a + b <==> e in a || e in b;
  }

  lemma {:induction false} NamesFollow(f: Format, img: seq<byte>, l: Loc, seen: set<Loc>, names: set<seq<byte>>)
      returns (dir: seq<Loc>)
    requires !f.D81? && |img| >= Size(f) && WalkNames(f, img, l, seen, names).Some?
    ensures DirectoryOf(f, img, dir) && dir[0] == l && StaysOn18(dir)
    ensures forall m | m in dir :: m !in seen && InDisk(f, m)
    decreases AllSectors(f) - seen
  {
    hide ByteAt, Occupied, SectorsPerTrack, AllSectors, WalkNames, DirectoryOf, Keys, EntriesOf;
    NamesOnce(f, img, l, seen, names);
    InAllSectors(f, l);
    var next := Loc(ByteAt(f, img, l, 0), ByteAt(f, img, l, 1));
    if next.track == 0 {
      dir := [l];
      DirectoryOne(f, img, l);
    } else {
      var rest := NamesFollow(f, img, next, seen + {l}, names + Keys(Occupied(f, img, l, 8)));
      dir := [l] + rest;
      DirectoryFront(f, img, l, rest);
    }
  }

  lemma {:induction false} NamesReads(f: Format, img: seq<byte>, dir: seq<Loc>, i: nat, seen: set<Loc>,
      names: set<seq<byte>>)
    requires !f.D81? && |img| >= Size(f) && DirectoryOf(f, img, dir) && StaysOn18(dir) && i < |dir|
    requires (forall m | m in dir :: InDisk(f, m)) && forall j | i <= j < |dir| :: dir[j] !in seen
    ensures WalkNames(f, img, dir[i], seen, names) == Some(names + Keys(EntriesOf(f, img, dir, i)))
    decreases |dir| - i
  {
    hide ByteAt, Occupied, SectorsPerTrack, AllSectors, WalkNames, Keys;
    var l := dir[i];
    assert NamesNext(f, img, dir, i);
    NamesOnce(f, img, l, seen, names);
    KeysJoin(Occupied(f, img, l, 8), EntriesOf(f, img, dir, i + 1));
    var all := names + Keys(Occupied(f, img, l, 8));
    if i + 1 < |dir| {
      NamesReads(f, img, dir, i + 1, seen + {l}, all);
      assert all + Keys(EntriesOf(f, img, dir, i + 1)) == names + Keys(EntriesOf(f, img, dir, i));
    } else {
      NoKeys();
      assert EntriesOf(f, img, dir, i + 1) == [];
      assert names + (Keys(Occupied(f, img, l, 8)) + {}) == all;
    }
  }

  lemma NoKeys()
    ensures Keys([]) == {}
  {
  }

  /** The directory the names are read from. */
  ghost predicate NamesFrom(f: Format, img: seq<byte>, dir: seq<Loc>)
    requires |img| >= Size(f)
  {
    && DirectoryOf(f, img, dir) && dir[0] == (if f.D81? then Loc(40, 3) else Loc(18, 1))
    && (!f.D81? ==> StaysOn18(dir))
  }

  /** The names of any image are read exactly when its directory is a chain of different sectors, from
      18/1 or 40/3 to one that names no other, on a D64 or D71 all of them on track 18 away from sector
      0; and then they are the names of its occupied entries. */
  lemma NamesReadExactly(f: Format, img: seq<byte>)
    requires |img| >= Size(f)
    ensures DirectoryNames(f, img).Some? <==> exists dir :: NamesFrom(f, img, dir)
    ensures forall dir | NamesFrom(f, img, dir) ::
      (forall l | l in dir :: InDisk(f, l)) && DirectoryNames(f, img) == Some(Keys(EntriesOf(f, img, dir, 0)))
  {
    hide WalkDir, WalkNames, EntriesOf, NamesNext, DirectoryOf, Keys;
    if f.D81? {
      DirectoryReadsExactly(f, img);
    } else if DirectoryNames(f, img).Some? {
      var dir := NamesFollow(f, img, Loc(18, 1), {}, {});
      assert NamesFrom(f, img, dir);
    }
    forall dir | NamesFrom(f, img, dir)
      ensures forall l | l in dir :: InDisk(f, l)
      ensures DirectoryNames(f, img) == Some(Keys(EntriesOf(f, img, dir, 0)))
    {
      DirectoryIn(f, img, dir);
      if !f.D81? {
        Nonempty(f, img, dir);
        NamesReads(f, img, dir, 0, {}, {});
        assert {} + Keys(EntriesOf(f, img, dir, 0)) == Keys(EntriesOf(f, img, dir, 0));
      }
    }
  }

  lemma Nonempty(f: Format, img: seq<byte>, dir: seq<Loc>)
    requires |img| >= Size(f) && DirectoryOf(f, img, dir)
    ensures |dir| > 0 && forall i, j | 0 <= i < j < |dir| :: dir[i] != dir[j]
  {
  }
}
