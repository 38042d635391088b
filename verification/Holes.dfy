/** Interval sweeps: `free_holes` of boot_staging_map.py, and the sweep of `scheduler_holes`
    (build_d71.py). */
module Holes {
  import opened Sorting

  /** A staged range: `size` bytes copied from `start` on. */
  datatype Region = Region(start: int, size: nat) {
    function CopiedEnd(): int { start + size - 1 }
    predicate Copies(b: int) { start <= b <= CopiedEnd() }
  }

  /** Both ends included. */
  datatype Hole = Hole(start: int, end: int) {
    predicate Holds(b: int) { start <= b <= end }
  }

  predicate ByStart(a: Region, b: Region) { a.start <= b.start }

  datatype Scan = Scan(cursor: int, holes: seq<Hole>)

  function Max(a: int, b: int): int { if a < b then b else a }

  /** The loop over regions in order of start: the first n of them. */
  function ScanTo(low: int, from: int, high: int, regions: seq<Region>, n: nat): (s: Scan)
    requires n <= |regions|
    decreases n
  {
    if n == 0 then Scan(from, []) else
      var s, r := ScanTo(low, from, high, regions, n - 1), regions[n - 1];
      if r.CopiedEnd() < low || r.start > high then s
      else Scan(Max(s.cursor, r.CopiedEnd() + 1),
        if r.start > s.cursor then s.holes + [Hole(s.cursor, r.start - 1)] else s.holes)
  }

  function Sweep(low: int, from: int, high: int, regions: seq<Region>): seq<Hole> {
    var sorted := Sort(regions, ByStart);
    var s := ScanTo(low, from, high, sorted, |sorted|);
    if s.cursor <= high then s.holes + [Hole(s.cursor, high)] else s.holes
  }

  method SweepRegions(low: int, from: int, high: int, regions: seq<Region>) returns (holes: seq<Hole>)
    ensures holes == Sweep(low, from, high, regions)
  {
    var sorted := Sort(regions, ByStart);
    var cursor := from;
    holes := [];
    for i := 0 to |sorted|
      invariant ScanTo(low, from, high, sorted, i) == Scan(cursor, holes)
    {
      var r := sorted[i];
      if r.CopiedEnd() < low || r.start > high { continue; }
      if r.start > cursor { holes := holes + [Hole(cursor, r.start - 1)]; }
      cursor := Max(cursor, r.CopiedEnd() + 1);
    }
    if cursor <= high { holes := holes + [Hole(cursor, high)]; }
  }

  const BOOT_SECTOR_BASE: int := 0x0B00
  const BOOT_SECTOR_END: int := 0x0BFF
  const SYSCALL_PAGE: int := 0xCF00

  /** `free_holes`: the staging window, then what is left of the boot sector. */
  function FreeHoles(shadowStart: int, stage0Last: int, regions: seq<Region>): (seq<Hole>, seq<Hole>) {
    (Sweep(shadowStart, shadowStart, SYSCALL_PAGE - 1, regions),
      Sweep(BOOT_SECTOR_BASE, stage0Last + 1, BOOT_SECTOR_END, regions))
  }

  method ListFreeHoles(shadowStart: int, stage0Last: int, regions: seq<Region>)
      returns (staging: seq<Hole>, boot: seq<Hole>)
    ensures (staging, boot) == FreeHoles(shadowStart, stage0Last, regions)
  {
    staging := SweepRegions(shadowStart, shadowStart, SYSCALL_PAGE - 1, regions);
    boot := SweepRegions(BOOT_SECTOR_BASE, stage0Last + 1, BOOT_SECTOR_END, regions);
  }

  // ----- the sweep is exact

  ghost predicate InHole(holes: seq<Hole>, b: int) {
    exists i | 0 <= i < |holes| :: holes[i].Holds(b)
  }

  ghost predicate Copied(regions: seq<Region>, b: int) {
    exists i | 0 <= i < |regions| :: regions[i].Copies(b)
  }

  /** Some region that ends at low or above copies b. */
  ghost predicate Reached(low: int, regions: seq<Region>, b: int) {
    exists i | 0 <= i < |regions| :: low <= regions[i].CopiedEnd() && regions[i].Copies(b)
  }

  lemma ReachedAbove(low: int, regions: seq<Region>, b: int)
    requires low <= b
    ensures Reached(low, regions, b) <==> Copied(regions, b)
  {
    if Copied(regions, b) {
      var i :| 0 <= i < |regions| && regions[i].Copies(b);
      assert low <= regions[i].CopiedEnd();
    }
  }

  /** Nonempty, in order, disjoint, and inside [from, limit). */
  ghost predicate Ordered(holes: seq<Hole>, from: int, limit: int) {
    && (forall i | 0 <= i < |holes| :: from <= holes[i].start <= holes[i].end < limit)
    && (forall i, j | 0 <= i < j < |holes| :: holes[i].end < holes[j].start)
  }

  /** What the scan of a prefix knows: below the cursor holes and regions split the window. */
  ghost predicate ScanSound(low: int, from: int, high: int, done: seq<Region>, s: Scan) {
    && from <= s.cursor && Ordered(s.holes, from, s.cursor)
    && (forall b | from <= b <= high && b < s.cursor :: InHole(s.holes, b) <==> !Reached(low, done, b))
    && (forall i, b | 0 <= i < |done| && from <= b <= high && low <= done[i].CopiedEnd() && done[i].Copies(b) ::
      b < s.cursor)
    && (forall i | 0 <= i < |s.holes| :: s.holes[i].end <= high)
  }

  ghost predicate EndsBefore(done: seq<Region>, h: Hole) {
    exists j | 0 <= j < |done| :: h.end < done[j].start
  }

  /** Every hole ends before some region that was scanned. */
  ghost predicate Bounded(done: seq<Region>, s: Scan) {
    forall i | 0 <= i < |s.holes| :: EndsBefore(done, s.holes[i])
  }

  lemma InHoleMore(holes: seq<Hole>, h: Hole, b: int)
    ensures InHole(holes + [h], b) <==> InHole(holes, b) || h.Holds(b)
  {
    var more := holes + [h];
    assert more[|holes|] == h;
    if InHole(holes, b) {
      var i :| 0 <= i < |holes| && holes[i].Holds(b);
      assert more[i] == holes[i];
    }
  }

  lemma ReachedMore(low: int, regions: seq<Region>, r: Region, b: int)
    ensures Reached(low, regions + [r], b) <==>
      Reached(low, regions, b) || (low <= r.CopiedEnd() && r.Copies(b))
  {
    var more := regions + [r];
    assert more[|regions|] == r;
    if Reached(low, regions, b) {
      var i :| 0 <= i < |regions| && low <= regions[i].CopiedEnd() && regions[i].Copies(b);
      assert more[i] == regions[i];
    }
  }

  lemma {:induction false} ScanIsSound(low: int, from: int, high: int, regions: seq<Region>, n: nat)
    requires Sorted(regions, ByStart) && n <= |regions|
    ensures ScanSound(low, from, high, regions[..n], ScanTo(low, from, high, regions, n))
    ensures Bounded(regions[..n], ScanTo(low, from, high, regions, n))
    decreases n
  {
    hide ScanSound, Bounded;
    if n == 0 {
      NothingScanned(low, from, high);
      assert regions[..0] == [];
    } else {
      ScanIsSound(low, from, high, regions, n - 1);
      var s, r, done := ScanTo(low, from, high, regions, n - 1), regions[n - 1], regions[..n - 1];
      assert regions[..n] == done + [r];
      forall i | 0 <= i < |done| ensures done[i].start <= r.start { assert ByStart(regions[i], regions[n - 1]); }
      if r.CopiedEnd() < low || r.start > high {
        Skipped(low, from, high, done, r, s);
      } else {
        Scanned(low, from, high, done, r, s);
      }
    }
  }

  lemma NothingScanned(low: int, from: int, high: int)
    ensures ScanSound(low, from, high, [], Scan(from, [])) && Bounded([], Scan(from, []))
  {
  }

  lemma Skipped(low: int, from: int, high: int, done: seq<Region>, r: Region, s: Scan)
    requires ScanSound(low, from, high, done, s) && Bounded(done, s)
    requires r.CopiedEnd() < low || r.start > high
    ensures ScanSound(low, from, high, done + [r], s) && Bounded(done + [r], s)
  {
    hide InHole, Reached, Ordered;
    var more := done + [r];
    forall b | from <= b <= high ensures Reached(low, more, b) <==> Reached(low, done, b) {
      ReachedMore(low, done, r, b);
    }
    forall i, b | 0 <= i < |more| && from <= b <= high && low <= more[i].CopiedEnd() && more[i].Copies(b)
      ensures b < s.cursor
    {
      if i < |done| { assert more[i] == done[i]; }
    }
    BoundedMore(done, r, s);
  }

  lemma BoundedMore(done: seq<Region>, r: Region, s: Scan)
    requires Bounded(done, s)
    ensures Bounded(done + [r], s)
  {
    forall i | 0 <= i < |s.holes| ensures EndsBefore(done + [r], s.holes[i]) {
      assert EndsBefore(done, s.holes[i]);
      var j :| 0 <= j < |done| && s.holes[i].end < done[j].start;
      assert (done + [r])[j] == done[j];
    }
  }

  /** No scanned hole meets a region that starts no earlier than the scanned ones. */
  lemma HolesAvoid(done: seq<Region>, r: Region, s: Scan, b: int)
    requires Bounded(done, s) && (forall i | 0 <= i < |done| :: done[i].start <= r.start) && InHole(s.holes, b)
    ensures b < r.start
  {
    var i :| 0 <= i < |s.holes| && s.holes[i].Holds(b);
    assert EndsBefore(done, s.holes[i]);
    var j :| 0 <= j < |done| && s.holes[i].end < done[j].start;
  }

  lemma Scanned(low: int, from: int, high: int, done: seq<Region>, r: Region, s: Scan)
    requires ScanSound(low, from, high, done, s) && Bounded(done, s)
    requires forall i | 0 <= i < |done| :: done[i].start <= r.start
    requires low <= r.CopiedEnd() && r.start <= high
    ensures var s' := Scan(Max(s.cursor, r.CopiedEnd() + 1),
      if r.start > s.cursor then s.holes + [Hole(s.cursor, r.start - 1)] else s.holes);
      ScanSound(low, from, high, done + [r], s') && Bounded(done + [r], s')
  {
    hide InHole, Reached;
    var more := done + [r];
    var s' := Scan(Max(s.cursor, r.CopiedEnd() + 1),
      if r.start > s.cursor then s.holes + [Hole(s.cursor, r.start - 1)] else s.holes);
    forall b | from <= b <= high && b < s'.cursor ensures InHole(s'.holes, b) <==> !Reached(low, more, b) {
      ScannedByte(low, from, high, done, r, s, b);
    }
    forall i, b | 0 <= i < |more| && from <= b <= high && low <= more[i].CopiedEnd() && more[i].Copies(b)
      ensures b < s'.cursor
    {
      if i < |done| { assert more[i] == done[i]; }
    }
    BoundedMore(done, r, s);
    LastBounds(done, r, s, s');
    assert more[|done|] == r;
  }

  lemma LastBounds(done: seq<Region>, r: Region, s: Scan, s': Scan)
    requires Bounded(done + [r], s)
    requires s'.holes == s.holes || (s'.holes == s.holes + [Hole(s.cursor, r.start - 1)])
    ensures Bounded(done + [r], s')
  {
    hide EndsBefore;
    assert (done + [r])[|done|] == r;
    EndsBeforeLast(done, r, Hole(s.cursor, r.start - 1));
    forall i | 0 <= i < |s'.holes| ensures EndsBefore(done + [r], s'.holes[i]) {
      if i < |s.holes| { assert s'.holes[i] == s.holes[i]; }
    }
  }

  lemma EndsBeforeLast(done: seq<Region>, r: Region, h: Hole)
    requires h.end < r.start
    ensures EndsBefore(done + [r], h)
  {
    assert (done + [r])[|done|] == r;
  }

  lemma ScannedByte(low: int, from: int, high: int, done: seq<Region>, r: Region, s: Scan, b: int)
    requires ScanSound(low, from, high, done, s) && Bounded(done, s)
    requires forall i | 0 <= i < |done| :: done[i].start <= r.start
    requires low <= r.CopiedEnd() && from <= b <= high && b < Max(s.cursor, r.CopiedEnd() + 1)
    ensures InHole(if r.start > s.cursor then s.holes + [Hole(s.cursor, r.start - 1)] else s.holes, b) <==>
      !Reached(low, done + [r], b)
  {
    hide Ordered;
    ReachedMore(low, done, r, b);
    InHoleMore(s.holes, Hole(s.cursor, r.start - 1), b);
    if InHole(s.holes, b) { HolesAvoid(done, r, s, b); }
    if b >= s.cursor {
      assert !Reached(low, done, b);
      NotYet(from, s, b);
    }
  }

  lemma NotYet(from: int, s: Scan, b: int)
    requires Ordered(s.holes, from, s.cursor) && b >= s.cursor
    ensures !InHole(s.holes, b)
  {
  }

  /** The free-hole sweep is exact: for any regions, overlapping or straddling the window, a byte of
      the window lies in a reported hole if and only if no region that reaches the window copies it; the
      holes are in order, disjoint, nonempty and inside the window. */
  lemma SweepExact(low: int, from: int, high: int, regions: seq<Region>, b: int)
    ensures from <= b <= high ==> (InHole(Sweep(low, from, high, regions), b) <==> !Reached(low, regions, b))
    ensures Ordered(Sweep(low, from, high, regions), from, high + 1)
  {
    hide InHole, Reached, Sort, Sorted, ScanTo, TotalOrder, ScanSound, Bounded, Ordered;
    var sorted := Sort(regions, ByStart);
    StartsOrdered();
    SortSorts(regions, ByStart);
    ScanIsSound(low, from, high, sorted, |sorted|);
    assert sorted[..|sorted|] == sorted;
    SortedReaches(low, regions, b);
    SweepEnd(low, from, high, sorted, ScanTo(low, from, high, sorted, |sorted|), b);
  }

  lemma StartsOrdered()
    ensures TotalOrder(ByStart)
  {
  }

  /** What is left after the last region is free up to the window's end. */
  lemma SweepEnd(low: int, from: int, high: int, sorted: seq<Region>, s: Scan, b: int)
    requires ScanSound(low, from, high, sorted, s)
    ensures var holes := if s.cursor <= high then s.holes + [Hole(s.cursor, high)] else s.holes;
      && (from <= b <= high ==> (InHole(holes, b) <==> !Reached(low, sorted, b)))
      && Ordered(holes, from, high + 1)
  {
    hide InHole, Reached;
    InHoleMore(s.holes, Hole(s.cursor, high), b);
    if b >= s.cursor { NotYet(from, s, b); }
    assert from <= b <= high && b >= s.cursor ==> !Reached(low, sorted, b) by {
      if from <= b <= high && b >= s.cursor && Reached(low, sorted, b) { ReachedBelow(low, from, high, sorted, s, b); }
    }
  }

  lemma ReachedBelow(low: int, from: int, high: int, done: seq<Region>, s: Scan, b: int)
    requires ScanSound(low, from, high, done, s) && from <= b <= high && Reached(low, done, b)
    ensures b < s.cursor
  {
  }

  lemma SortedReaches(low: int, regions: seq<Region>, b: int)
    ensures Reached(low, Sort(regions, ByStart), b) <==> Reached(low, regions, b)
  {
    var sorted := Sort(regions, ByStart);
    SameElements(regions, ByStart);
    if Reached(low, regions, b) {
      var i :| 0 <= i < |regions| && low <= regions[i].CopiedEnd() && regions[i].Copies(b);
      assert regions[i] in sorted;
    }
    if Reached(low, sorted, b) {
      var i :| 0 <= i < |sorted| && low <= sorted[i].CopiedEnd() && sorted[i].Copies(b);
      assert sorted[i] in regions;
    }
  }

  /** Both windows of `free_holes` at once. Where stage 0 ends below the boot sector, the boot scan starts
      below it as well and there passes over regions that end below $B00. */
  lemma FreeHolesExact(shadowStart: int, stage0Last: int, regions: seq<Region>, b: int)
    ensures var (staging, boot) := FreeHoles(shadowStart, stage0Last, regions);
      && (shadowStart <= b < 0xCF00 ==> (InHole(staging, b) <==> !Copied(regions, b)))
      && (stage0Last < b <= 0xBFF ==> (InHole(boot, b) <==> !Reached(0xB00, regions, b)))
      && (stage0Last < b <= 0xBFF && b >= 0xB00 ==> (InHole(boot, b) <==> !Copied(regions, b)))
      && Ordered(staging, shadowStart, 0xCF00) && Ordered(boot, stage0Last + 1, 0xC00)
  {
    hide Sweep, InHole, Copied, Reached;
    SweepExact(shadowStart, shadowStart, SYSCALL_PAGE - 1, regions, b);
    SweepExact(BOOT_SECTOR_BASE, stage0Last + 1, BOOT_SECTOR_END, regions, b);
    if shadowStart <= b { ReachedAbove(shadowStart, regions, b); }
    if 0xB00 <= b { ReachedAbove(0xB00, regions, b); }
  }
}
