/** Placing the scheduler in the free payload holes: `scheduler_holes`, `scheduler_layout` and
    `install_scheduler` (build_d71.py). */
module Scatter {
  import opened Bytes
  import opened Sorting
  import opened Holes

  const KERNEL_ADDRESS: int := 0x2000
  const MANIFEST_MAX: int := 7 + 4 * 8
  const MANIFEST: Hole := Hole(0xAD00 - MANIFEST_MAX, 0xACFF)

  /** Probe, crt0, bootfs tail, module, task request, bootfs request, task loader, bank gate. */
  const RESERVED: seq<Region> := [
    Region(0xAD00, 0x100), Region(0xAE00, 0x100), Region(0xAF00, 0x1400), Region(0xBFBB, 0x344),
    Region(0xC300, 0x109), Region(0xC4EF, 0x29B), Region(0xC800, 0x5F0), Region(0xCE00, 0xC0)
  ]

  function Reserved(shadowStart: int, capability: nat): seq<Region> {
    RESERVED + if capability > 0 then [Region(shadowStart, capability)] else []
  }

  predicate ByStartSize(a: Region, b: Region) { a.start < b.start || (a.start == b.start && a.size <= b.size) }

  predicate ByBounds(a: Hole, b: Hole) { a.start < b.start || (a.start == b.start && a.end <= b.end) }

  /** The sweep here has no window test. */
  function ScanAll(from: int, regions: seq<Region>, n: nat): (s: Scan)
    requires n <= |regions|
    decreases n
  {
    if n == 0 then Scan(from, []) else
      var s, r := ScanAll(from, regions, n - 1), regions[n - 1];
      Scan(Max(s.cursor, r.start + r.size),
        if r.start > s.cursor then s.holes + [Hole(s.cursor, r.start - 1)] else s.holes)
  }

  function StagingHoles(shadowStart: int, capability: nat): seq<Hole> {
    var regions := Sort(Reserved(shadowStart, capability), ByStartSize);
    var s := ScanAll(shadowStart, regions, |regions|);
    if s.cursor <= SYSCALL_PAGE - 1 then s.holes + [Hole(s.cursor, SYSCALL_PAGE - 1)] else s.holes
  }

  function BootHole(stage0End: int): Hole { Hole(stage0End + 1, BOOT_SECTOR_END) }

  /** `scheduler_holes`. */
  function SchedulerHoles(shadowStart: int, stage0End: int, capability: nat): seq<Hole> {
    Sort(StagingHoles(shadowStart, capability) + [BootHole(stage0End)], ByBounds)
  }

  method ListSchedulerHoles(shadowStart: int, stage0End: int, capability: nat) returns (holes: seq<Hole>)
    ensures holes == SchedulerHoles(shadowStart, stage0End, capability)
  {
    hide Sort, Reserved;
    var regions := Sort(Reserved(shadowStart, capability), ByStartSize);
    var cursor := shadowStart;
    holes := [];
    for i := 0 to |regions|
      invariant ScanAll(shadowStart, regions, i) == Scan(cursor, holes)
    {
      var r := regions[i];
      if r.start > cursor { holes := holes + [Hole(cursor, r.start - 1)]; }
      cursor := Max(cursor, r.start + r.size);
    }
    if cursor <= SYSCALL_PAGE - 1 { holes := holes + [Hole(cursor, SYSCALL_PAGE - 1)]; }
    holes := Sort(holes + [BootHole(stage0End)], ByBounds);
  }

  // ----- layout

  datatype Chunk = Chunk(start: int, take: nat) {
    function Range(): Hole { Hole(start, start + take - 1) }
  }

  datatype LayoutError = NoManifestRoom | TooBig(ceiling: int) | TooManyChunks
  datatype Layout = Placed(chunks: seq<Chunk>, ceiling: int) | Refused(error: LayoutError)

  function Length(h: Hole): int { h.end - h.start + 1 }

  /** Index of the first hole that contains the manifest, or the number of holes. */
  function ManifestHole(holes: seq<Hole>, i: nat): (m: nat)
    requires i <= |holes|
    ensures i <= m <= |holes|
    ensures m < |holes| ==> holes[m].start <= MANIFEST.start && MANIFEST.end <= holes[m].end
    ensures forall j | i <= j < m :: !(holes[j].start <= MANIFEST.start && MANIFEST.end <= holes[j].end)
    decreases |holes| - i
  {
    if i == |holes| ||
      (holes[i].start <= MANIFEST.start && MANIFEST.end <= holes[i].end) then i else ManifestHole(holes, i + 1)
  }

  /** What is left of the manifest's hole on each side. */
  function Around(h: Hole): seq<Hole> {
    (if h.start <= MANIFEST.start - 1 then [Hole(h.start, MANIFEST.start - 1)] else []) +
    (if MANIFEST.end + 1 <= h.end then [Hole(MANIFEST.end + 1, h.end)] else [])
  }

  function WithoutManifest(holes: seq<Hole>, m: nat): seq<Hole>
    requires m < |holes|
  {
    holes[..m] + Around(holes[m]) + holes[m + 1..]
  }

  function Ceiling(holes: seq<Hole>): int {
    if holes == [] then 0 else Ceiling(holes[..|holes| - 1]) + Length(holes[|holes| - 1])
  }

  datatype Fill = Fill(offset: nat, chunks: seq<Chunk>)

  /** The chunk loop over the first n holes. */
  function FillTo(holes: seq<Hole>, size: nat, n: nat): (f: Fill)
    requires n <= |holes|
    ensures f.offset <= size && |f.chunks| <= n
    decreases n
  {
    if n == 0 then Fill(0, []) else
      var f := FillTo(holes, size, n - 1);
      var take := if Length(holes[n - 1]) <= size - f.offset then Length(holes[n - 1]) else size - f.offset;
      if f.offset >= size || take <= 0 then f
      else Fill(f.offset + take, f.chunks + [Chunk(holes[n - 1].start, take)])
  }

  function LayoutOver(holes: seq<Hole>, size: nat): Layout {
    var m := ManifestHole(holes, 0);
    if m == |holes| then Refused(NoManifestRoom) else
      var free := WithoutManifest(holes, m);
      var f := FillTo(free, size, |free|);
      if f.offset < size then Refused(TooBig(Ceiling(free)))
      else if |f.chunks| > 8 then Refused(TooManyChunks)
      else Placed(f.chunks, Ceiling(free))
  }

  /** `scheduler_layout`. */
  function SchedulerLayout(shadowStart: int, stage0End: int, size: nat, capability: nat): Layout {
    LayoutOver(SchedulerHoles(shadowStart, stage0End, capability), size)
  }

  method FillChunks(holes: seq<Hole>, size: nat) returns (offset: nat, chunks: seq<Chunk>)
    ensures FillTo(holes, size, |holes|) == Fill(offset, chunks)
  {
    chunks, offset := [], 0;
    for i := 0 to |holes|
      invariant FillTo(holes, size, i) == Fill(offset, chunks)
    {
      if offset >= size {
        FillDone(holes, size, i, |holes|);
        return;
      }
      var take := if Length(holes[i]) <= size - offset then Length(holes[i]) else size - offset;
      if take <= 0 { continue; }
      chunks := chunks + [Chunk(holes[i].start, take)];
      offset := offset + take;
    }
  }

  method LayOut(shadowStart: int, stage0End: int, size: nat, capability: nat) returns (layout: Layout)
    ensures layout == SchedulerLayout(shadowStart, stage0End, size, capability)
  {
    hide FillTo, SchedulerHoles, WithoutManifest;
    var holes := ListSchedulerHoles(shadowStart, stage0End, capability);
    var m := 0;
    while m < |holes| && !(holes[m].start <= MANIFEST.start && MANIFEST.end <= holes[m].end)
      invariant m <= |holes| && ManifestHole(holes, 0) == ManifestHole(holes, m)
    {
      m := m + 1;
    }
    if m == |holes| { return Refused(NoManifestRoom); }
    var free := WithoutManifest(holes, m);
    var ceiling := CountCeiling(free);
    var offset, chunks := FillChunks(free, size);
    if offset < size { return Refused(TooBig(ceiling)); }
    if |chunks| > 8 { return Refused(TooManyChunks); }
    return Placed(chunks, ceiling);
  }

  method CountCeiling(holes: seq<Hole>) returns (ceiling: int)
    ensures ceiling == Ceiling(holes)
  {
    ceiling := 0;
    for i := 0 to |holes|
      invariant ceiling == Ceiling(holes[..i])
    {
      assert holes[..i + 1][..i] == holes[..i];
      ceiling := ceiling + Length(holes[i]);
    }
    assert holes[..|holes|] == holes;
  }

  lemma {:induction false} FillDone(holes: seq<Hole>, size: nat, n: nat, k: nat)
    requires n <= k <= |holes| && FillTo(holes, size, n).offset >= size
    ensures FillTo(holes, size, k) == FillTo(holes, size, n)
    decreases k
  {
    if n < k { FillDone(holes, size, n, k - 1); }
  }

  // ----- ranges that never meet

  /** No byte lies in both; an empty or inverted range meets nothing. */
  predicate Apart(a: Hole, b: Hole) {
    a.end < b.start || b.end < a.start || a.end < a.start || b.end < b.start
  }

  ghost predicate AllApart(s: seq<Hole>) {
    forall i, j | 0 <= i < j < |s| :: Apart(s[i], s[j])
  }

  ghost predicate ApartFrom(s: seq<Hole>, h: Hole) {
    forall i | 0 <= i < |s| :: Apart(s[i], h)
  }

  predicate Within(a: Hole, b: Hole) { b.start <= a.start && a.end <= b.end }

  /** Where sorting puts x when it is appended to the sorted list s. */
  ghost function Place(s: seq<Hole>, x: Hole): (i: nat)
    ensures i <= |s|
    decreases |s|
  {
    if s == [] then 0
    else if Place(s[1..], x) == 0 && !ByBounds(s[0], x) then 0 else Place(s[1..], x) + 1
  }

  lemma {:induction false} SortLast(s: seq<Hole>, x: Hole)
    requires Sorted(s, ByBounds)
    ensures Sort(s + [x], ByBounds) == s[..Place(s, x)] + [x] + s[Place(s, x)..]
    decreases |s|
  {
    hide Insert, Sort, Place, ByBounds, Sorted;
    if s == [] {
      SortOne(x, ByBounds);
      PlaceNone(x);
      assert s + [x] == [x] == s[..0] + [x] + s[0..];
    } else {
      SortedTail(s);
      SortLast(s[1..], x);
      SortStep(s, x, ByBounds);
      PlaceStep(s, x);
      InsertFront(s, x, Place(s[1..], x));
      if Place(s, x) == 0 { assert s[..0] + [x] + s[0..] == [x] + s; }
    }
  }

  lemma SortedTail(s: seq<Hole>)
    requires s != [] && Sorted(s, ByBounds)
    ensures Sorted(s[1..], ByBounds)
  {
    hide ByBounds;
  }

  lemma PlaceNone(x: Hole)
    ensures Place([], x) == 0
  {
  }

  lemma PlaceStep(s: seq<Hole>, x: Hole)
    requires s != []
    ensures Place(s, x) == if Place(s[1..], x) == 0 && !ByBounds(s[0], x) then 0 else Place(s[1..], x) + 1
  {
    hide ByBounds;
  }

  lemma InsertFront(s: seq<Hole>, x: Hole, k: nat)
    requires s != [] && Sorted(s, ByBounds) && k <= |s| - 1
    ensures var rest := s[1..][..k] + [x] + s[1..][k..];
      Insert(s[0], rest, ByBounds) ==
      if k == 0 && !ByBounds(s[0], x) then [x] + s else s[..k + 1] + [x] + s[k + 1..]
  {
    var rest := s[1..][..k] + [x] + s[1..][k..];
    if k == 0 && !ByBounds(s[0], x) {
      assert rest == [x] + s[1..];
      InsertSecond(s, x, ByBounds);
    } else {
      if k > 0 { assert rest[0] == s[1] && ByBounds(s[0], s[1]); }
      assert s[..k + 1] + [x] + s[k + 1..] == [s[0]] + rest;
    }
  }

  lemma ApartInserted(s: seq<Hole>, x: Hole, i: nat)
    requires i <= |s| && AllApart(s) && ApartFrom(s, x)
    ensures AllApart(s[..i] + [x] + s[i..])
  {
    var t := s[..i] + [x] + s[i..];
    forall a, b | 0 <= a < b < |t| ensures Apart(t[a], t[b]) {
      if a < i { assert t[a] == s[a]; } else if a > i { assert t[a] == s[a - 1]; }
      if b < i { assert t[b] == s[b]; } else if b > i { assert t[b] == s[b - 1]; }
    }
  }

  /** Cutting the manifest out keeps ranges apart, and leaves all of them apart from it. */
  lemma ManifestCut(holes: seq<Hole>, m: nat)
    requires m < |holes| && AllApart(holes) && Within(MANIFEST, holes[m])
    ensures AllApart(WithoutManifest(holes, m)) && ApartFrom(WithoutManifest(holes, m), MANIFEST)
  {
    var cut := Around(holes[m]);
    var t := WithoutManifest(holes, m);
    assert forall c | 0 <= c < |cut| :: Within(cut[c], holes[m]) && Apart(cut[c], MANIFEST);
    forall a | 0 <= a < |t| ensures Apart(t[a], MANIFEST) { CutParts(holes, m, a); }
    forall a, b | 0 <= a < b < |t| ensures Apart(t[a], t[b]) {
      CutParts(holes, m, a);
      CutParts(holes, m, b);
      if a < m && b >= m + |cut| { assert Apart(holes[a], holes[b - |cut| + 1]); }
      if a >= m + |cut| { assert Apart(holes[a - |cut| + 1], holes[b - |cut| + 1]); }
    }
  }

  lemma CutParts(holes: seq<Hole>, m: nat, a: nat)
    requires m < |holes| && AllApart(holes) && a < |WithoutManifest(holes, m)|
    ensures var cut, t := Around(holes[m]), WithoutManifest(holes, m);
      && (a < m ==> t[a] == holes[a] && Apart(holes[a], holes[m]))
      && (m <= a < m + |cut| ==> t[a] == cut[a - m])
      && (a >= m + |cut| ==>
        a - |cut| + 1 < |holes| && t[a] == holes[a - |cut| + 1] && Apart(holes[m], holes[a - |cut| + 1]))
  {
  }

  // ----- chunks

  function Ranges(chunks: seq<Chunk>): (r: seq<Hole>)
    ensures |r| == |chunks| && forall i | 0 <= i < |chunks| :: r[i] == chunks[i].Range()
  {
    seq(|chunks|, i requires 0 <= i < |chunks| => chunks[i].Range())
  }

  function Total(chunks: seq<Chunk>): nat {
    if chunks == [] then 0 else Total(chunks[..|chunks| - 1]) + chunks[|chunks| - 1].take
  }

  /** Room in the holes, not counting inverted ones. */
  function Deliverable(holes: seq<Hole>): nat {
    if holes == [] then 0 else
      Deliverable(holes[..|holes| - 1]) + if Length(holes[|holes| - 1]) > 0 then Length(holes[|holes| - 1]) else 0
  }

  ghost predicate InsideSome(c: Chunk, holes: seq<Hole>, n: nat)
    requires n <= |holes|
  {
    c.take > 0 && exists i | 0 <= i < n :: Within(c.Range(), holes[i])
  }

  lemma {:induction false} FillFacts(holes: seq<Hole>, size: nat, n: nat)
    requires n <= |holes| && AllApart(holes)
    ensures var f := FillTo(holes, size, n);
      && Total(f.chunks) == f.offset
      && f.offset == (if Deliverable(holes[..n]) <= size then Deliverable(holes[..n]) else size)
      && (forall c | 0 <= c < |f.chunks| :: InsideSome(f.chunks[c], holes, n))
      && AllApart(Ranges(f.chunks))
    decreases n
  {
    hide Apart, InsideSome, AllApart, FillTo, Deliverable, Total, Within;
    if n == 0 {
      NoChunks(holes, size);
    } else {
      FillFacts(holes, size, n - 1);
      var f, h := FillTo(holes, size, n - 1), holes[n - 1];
      FillStep(holes, size, n - 1, h);
      RoomStep(holes, n - 1);
      var take := if Length(h) <= size - f.offset then Length(h) else size - f.offset;
      forall c | 0 <= c < |f.chunks| ensures InsideSome(f.chunks[c], holes, n) {
        InsideLater(f.chunks[c], holes, n - 1);
      }
      if f.offset < size && take > 0 {
        StartWithin(h, take);
        FillOne(holes, f, n, Chunk(h.start, take));
      }
    }
  }

  lemma StartWithin(h: Hole, take: nat)
    requires 0 < take <= Length(h)
    ensures Within(Chunk(h.start, take).Range(), h)
  {
  }

  lemma NoChunks(holes: seq<Hole>, size: nat)
    ensures FillTo(holes, size, 0) == Fill(0, []) && Deliverable(holes[..0]) == 0 && Total([]) == 0
    ensures AllApart(Ranges([]))
  {
  }

  lemma FillStep(holes: seq<Hole>, size: nat, n: nat, h: Hole)
    requires n < |holes| && holes[n] == h
    ensures var f := FillTo(holes, size, n);
      var take := if Length(h) <= size - f.offset then Length(h) else size - f.offset;
      FillTo(holes, size, n + 1) ==
      if f.offset >= size || take <= 0 then f else Fill(f.offset + take, f.chunks + [Chunk(h.start, take)])
  {
  }

  lemma RoomStep(holes: seq<Hole>, n: nat)
    requires n < |holes|
    ensures Deliverable(holes[..n + 1]) == Deliverable(holes[..n]) + if Length(holes[n]) > 0 then Length(holes[n])
      else 0
  {
    assert holes[..n + 1][..n] == holes[..n];
  }

  lemma InsideLater(c: Chunk, holes: seq<Hole>, n: nat)
    requires n < |holes| && InsideSome(c, holes, n)
    ensures InsideSome(c, holes, n + 1)
  {
  }

  lemma FillOne(holes: seq<Hole>, f: Fill, n: nat, chunk: Chunk)
    requires 0 < n <= |holes| && AllApart(holes) && chunk.take > 0 && Within(chunk.Range(), holes[n - 1])
    requires AllApart(Ranges(f.chunks)) && forall c | 0 <= c < |f.chunks| :: InsideSome(f.chunks[c], holes, n - 1)
    ensures var more := f.chunks + [chunk];
      && Total(more) == Total(f.chunks) + chunk.take && AllApart(Ranges(more))
      && InsideSome(chunk, holes, n)
      && forall c | 0 <= c < |f.chunks| :: InsideSome(f.chunks[c], holes, n)
  {
    var more := f.chunks + [chunk];
    assert more[..|f.chunks|] == f.chunks;
    forall c | 0 <= c < |f.chunks|
      ensures Apart(f.chunks[c].Range(), chunk.Range()) && InsideSome(f.chunks[c], holes, n)
    {
      assert InsideSome(f.chunks[c], holes, n - 1);
      var i :| 0 <= i < n - 1 && Within(f.chunks[c].Range(), holes[i]);
      assert Apart(holes[i], holes[n - 1]);
    }
    forall a, b | 0 <= a < b < |more| ensures Apart(Ranges(more)[a], Ranges(more)[b]) {
      if b < |f.chunks| { assert Apart(Ranges(f.chunks)[a], Ranges(f.chunks)[b]); }
    }
  }
}
