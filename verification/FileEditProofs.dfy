/** Writing through a file's offsets is editing its stream: on any image for the file itself, and
    with nothing else disturbed on a sound disk. */
module FileEditProofs {
  import opened Bytes
  import opened Geometry
  import opened Bam
  import opened DiskRead
  import opened Inventory
  import opened Install
  import opened FileEdit

  // ----- the offsets gather to the stream

  ghost predicate Reads(img: seq<byte>, offsets: seq<nat>, data: seq<byte>) {
    |offsets| == |data| && PlacesInside(img, offsets) && forall i | 0 <= i < |data| :: img[offsets[i]] == data[i]
  }

  lemma PlacesRead(f: Format, img: seq<byte>, l: Loc)
    requires |img| >= Size(f) && InDisk(f, l)
    ensures Reads(img, Places(f, img, l), Payload(f, img, l))
  {
    hide SectorsBefore;
    SectorInImage(f, l);
  }

  lemma ReadsJoin(img: seq<byte>, a: seq<nat>, b: seq<nat>, x: seq<byte>, y: seq<byte>)
    requires Reads(img, a, x) && Reads(img, b, y)
    ensures Reads(img, a + b, x + y)
  {
  }

  /** Both walks accept the same chains, and the offsets gather to the stream. */
  lemma {:induction false} WalksAgree(f: Format, img: seq<byte>, track: nat, sector: nat, seen: set<Loc>,
      data: seq<byte>, got: seq<nat>)
    requires |img| >= Size(f) && Reads(img, got, data)
    ensures var s, p := ReadChain(f, img, track, sector, seen, data), ChainPlaces(f, img, track, sector, seen, got);
      (s.Some? <==> p.Some?) && (s.Some? ==> Reads(img, p.value, s.value.data))
    decreases AllSectors(f) - seen
  {
    hide SectorsBefore, InDisk, AllSectors, Payload, ByteAt, Places, Reads;
    var l := Loc(track, sector);
    if track != 0 && InDisk(f, l) && l !in seen {
      InAllSectors(f, l);
      PlacesRead(f, img, l);
      ReadsJoin(img, got, Places(f, img, l), data, Payload(f, img, l));
      WalksAgree(f, img, ByteAt(f, img, l, 0), ByteAt(f, img, l, 1), seen + {l}, data + Payload(f, img, l),
        got + Places(f, img, l));
    }
  }

  // ----- the offsets are distinct and are never link bytes

  predicate InStream(f: Format, l: Loc, p: nat) { Offset(f, l) + 2 <= p < Offset(f, l) + 256 }

  ghost predicate InSome(f: Format, sectors: set<Loc>, p: nat) {
    exists l :: l in sectors && InStream(f, l, p)
  }

  ghost predicate PlacedIn(f: Format, sectors: set<Loc>, offsets: seq<nat>) {
    Distinct(offsets) && forall i | 0 <= i < |offsets| :: InSome(f, sectors, offsets[i])
  }

  ghost predicate OnDiskSet(f: Format, sectors: set<Loc>) { forall l | l in sectors :: InDisk(f, l) }

  lemma PlacedMore(f: Format, img: seq<byte>, seen: set<Loc>, l: Loc, got: seq<nat>)
    requires |img| >= Size(f) && OnDiskSet(f, seen) && InDisk(f, l) && l !in seen && PlacedIn(f, seen, got)
    ensures PlacedIn(f, seen + {l}, got + Places(f, img, l))
  {
    hide SectorsBefore, Offset, InDisk, Payload;
    var here := Places(f, img, l);
    var all := got + here;
    forall i | 0 <= i < |here|
      ensures InStream(f, l, here[i]) && InSome(f, seen + {l}, here[i])
    {
      assert InStream(f, l, here[i]);
    }
    forall i | 0 <= i < |got| ensures InSome(f, seen + {l}, got[i]) && forall j | 0 <= j < |here| :: got[i] != here[j] {
      assert InSome(f, seen, got[i]);
      var m :| m in seen && InStream(f, m, got[i]);
      SectorsDisjoint(f, l, m);
      assert InStream(f, m, got[i]) && m in seen + {l};
    }
    forall i | 0 <= i < |all| ensures InSome(f, seen + {l}, all[i]) {
      if i < |got| { assert all[i] == got[i]; } else { assert all[i] == here[i - |got|]; }
    }
  }

  /** No chain walk returns an offset twice, and every offset lies past a sector's two link bytes. */
  lemma {:induction false} PlacesDistinct(f: Format, img: seq<byte>, track: nat, sector: nat, seen: set<Loc>,
      got: seq<nat>)
    requires |img| >= Size(f) && OnDiskSet(f, seen) && PlacedIn(f, seen, got)
    requires ChainPlaces(f, img, track, sector, seen, got).Some?
    ensures PlacedIn(f, AllSectors(f), ChainPlaces(f, img, track, sector, seen, got).value)
    decreases AllSectors(f) - seen
  {
    hide InDisk, AllSectors, ByteAt, Places, PlacedIn;
    var l := Loc(track, sector);
    if track == 0 {
      PlacedWider(f, seen, got);
    } else {
      InAllSectors(f, l);
      PlacedMore(f, img, seen, l, got);
      PlacesDistinct(f, img, ByteAt(f, img, l, 0), ByteAt(f, img, l, 1), seen + {l}, got + Places(f, img, l));
    }
  }

  lemma PlacedWider(f: Format, seen: set<Loc>, got: seq<nat>)
    requires OnDiskSet(f, seen) && PlacedIn(f, seen, got)
    ensures PlacedIn(f, AllSectors(f), got)
  {
    hide InDisk, AllSectors, InStream;
    forall i | 0 <= i < |got| ensures InSome(f, AllSectors(f), got[i]) {
      var m :| m in seen && InStream(f, m, got[i]);
      InAllSectors(f, m);
    }
  }

  lemma NeverLink(f: Format, p: nat, m: Loc)
    requires InSome(f, AllSectors(f), p) && InDisk(f, m)
    ensures p != Offset(f, m) && p != Offset(f, m) + 1
  {
    hide SectorsBefore, Offset;
    var l :| l in AllSectors(f) && InStream(f, l, p);
    if l != m { SectorsDisjoint(f, l, m); }
  }

  // ----- editing

  /** Edits applied to the stream itself. */
  function EditStream(data: seq<byte>, edits: seq<Edit>, n: nat): (r: seq<byte>)
    requires n <= |edits| && forall i | 0 <= i < |edits| :: edits[i].index < |data|
    ensures |r| == |data|
    decreases n
  {
    if n == 0 then data else EditStream(data, edits, n - 1)[edits[n - 1].index := edits[n - 1].value]
  }

  ghost predicate InRange(edits: seq<Edit>, n: nat) { forall i | 0 <= i < |edits| :: edits[i].index < n }

  ghost predicate ChangedOnlyAt(a: seq<byte>, b: seq<byte>, offsets: seq<nat>) {
    |a| == |b| && forall p | 0 <= p < |a| && p !in offsets :: a[p] == b[p]
  }

  lemma {:induction false} EditsEdit(img: seq<byte>, offsets: seq<nat>, edits: seq<Edit>, n: nat, data: seq<byte>)
    requires n <= |edits| && Reads(img, offsets, data) && Distinct(offsets) && InRange(edits, |data|)
    ensures var r := ApplyEdits(img, offsets, edits, n);
      r.Some? && ChangedOnlyAt(img, r.value, offsets) && Reads(r.value, offsets, EditStream(data, edits, n))
    decreases n
  {
    if n > 0 {
      EditsEdit(img, offsets, edits, n - 1, data);
      var e, before := edits[n - 1], ApplyEdits(img, offsets, edits, n - 1).value;
      OneEdit(before, offsets, EditStream(data, edits, n - 1), e);
      assert offsets[e.index] in offsets;
    }
  }

  lemma OneEdit(img: seq<byte>, offsets: seq<nat>, data: seq<byte>, e: Edit)
    requires Reads(img, offsets, data) && Distinct(offsets) && e.index < |data|
    ensures Reads(img[offsets[e.index] := e.value], offsets, data[e.index := e.value])
  {
  }

  lemma {:induction false} EditsRefused(img: seq<byte>, offsets: seq<nat>, edits: seq<Edit>, n: nat)
    requires n <= |edits| && PlacesInside(img, offsets)
    ensures ApplyEdits(img, offsets, edits, n).None? <==> exists i :: 0 <= i < n && edits[i].index >= |offsets|
    decreases n
  {
    if n > 0 { EditsRefused(img, offsets, edits, n - 1); }
  }

  ghost predicate SameLinks(f: Format, a: seq<byte>, b: seq<byte>)
    requires |a| >= Size(f) && |b| >= Size(f)
  {
    forall l | InDisk(f, l) :: ByteAt(f, a, l, 0) == ByteAt(f, b, l, 0) && ByteAt(f, a, l, 1) == ByteAt(f, b, l, 1)
  }

  lemma {:induction false} SameLinksSamePlaces(f: Format, a: seq<byte>, b: seq<byte>, track: nat, sector: nat,
      seen: set<Loc>, got: seq<nat>)
    requires |a| >= Size(f) && |b| >= Size(f) && SameLinks(f, a, b)
    ensures ChainPlaces(f, a, track, sector, seen, got) == ChainPlaces(f, b, track, sector, seen, got)
    decreases AllSectors(f) - seen
  {
    hide InDisk, AllSectors, ByteAt;
    var l := Loc(track, sector);
    if track != 0 && InDisk(f, l) && l !in seen {
      InAllSectors(f, l);
      assert Places(f, a, l) == Places(f, b, l);
      SameLinksSamePlaces(f, a, b, ByteAt(f, a, l, 0), ByteAt(f, a, l, 1), seen + {l}, got + Places(f, a, l));
    }
  }

  lemma LinksKept(f: Format, a: seq<byte>, b: seq<byte>, offsets: seq<nat>)
    requires |a| >= Size(f) && ChangedOnlyAt(a, b, offsets) && PlacedIn(f, AllSectors(f), offsets)
    ensures SameLinks(f, a, b)
  {
    hide SectorsBefore, InDisk, AllSectors, InSome, Offset;
    forall l | InDisk(f, l)
      ensures ByteAt(f, a, l, 0) == ByteAt(f, b, l, 0) && ByteAt(f, a, l, 1) == ByteAt(f, b, l, 1)
    {
      SectorInImage(f, l);
      forall i | 0 <= i < |offsets|
        ensures offsets[i] != Offset(f, l) && offsets[i] != Offset(f, l) + 1
      {
        NeverLink(f, offsets[i], l);
      }
    }
  }

  /** On any image at all: the offsets of a readable chain are distinct non-link bytes, they gather
      to its stream, edits out of range are the only ones refused, and otherwise the same chain of
      the edited image reads as the edited stream. */
  lemma EditTheorem(f: Format, img: seq<byte>, track: nat, sector: nat, edits: seq<Edit>)
    requires |img| >= Size(f) && ChainPlaces(f, img, track, sector, {}, []).Some?
    ensures var offsets, stream := ChainPlaces(f, img, track, sector, {}, []).value,
      ReadChain(f, img, track, sector, {}, []);
      && PlacedIn(f, AllSectors(f), offsets) && PlacesInside(img, offsets)
      && stream.Some? && Reads(img, offsets, stream.value.data)
      && (ApplyEdits(img, offsets, edits, |edits|).Some? <==> InRange(edits, |stream.value.data|))
      && (InRange(edits, |stream.value.data|) ==>
            var r := ApplyEdits(img, offsets, edits, |edits|).value;
            var after := ReadChain(f, r, track, sector, {}, []);
            && ChangedOnlyAt(img, r, offsets)
            && after.Some? && after.value.data == EditStream(stream.value.data, edits, |edits|))
  {
    hide AllSectors, ReadChain, ChainPlaces, InSome, ApplyEdits, EditStream;
    WalksAgree(f, img, track, sector, {}, [], []);
    PlacesDistinct(f, img, track, sector, {}, []);
    var offsets, stream := ChainPlaces(f, img, track, sector, {}, []).value, ReadChain(f, img, track, sector, {}, []);
    EditsRefused(img, offsets, edits, |edits|);
    if InRange(edits, |stream.value.data|) {
      EditsEdit(img, offsets, edits, |edits|, stream.value.data);
      var r := ApplyEdits(img, offsets, edits, |edits|).value;
      LinksKept(f, img, r, offsets);
      SameLinksSamePlaces(f, img, r, track, sector, {}, []);
      WalksAgree(f, r, track, sector, {}, [], []);
    }
  }
}
