/** The scatter layout is safe and its size test exact, and scattering then gathering gives the
    scheduler back. */
module ScatterProofs {
  import opened Bytes
  import opened Sorting
  import opened Holes
  import opened Scatter

  // ----- the staging holes are exactly the unreserved bytes

  lemma {:induction false} ScanAllIsScan(from: int, high: int, regions: seq<Region>, n: nat)
    requires n <= |regions| && forall i | 0 <= i < |regions| :: 0 <= regions[i].start <= high
    ensures ScanAll(from, regions, n) == ScanTo(-1, from, high, regions, n)
    decreases n
  {
    if n > 0 { ScanAllIsScan(from, high, regions, n - 1); }
  }

  function SortedRegions(shadowStart: int, capability: nat): seq<Region> {
    Sort(Reserved(shadowStart, capability), ByStartSize)
  }

  lemma StartOrder()
    ensures TotalOrder(ByStartSize)
  {
  }

  lemma ReservedStarts(shadowStart: int, capability: nat, r: Region)
    requires 0 <= shadowStart < SYSCALL_PAGE && r in Reserved(shadowStart, capability)
    ensures 0 <= r.start <= SYSCALL_PAGE - 1
  {
  }

  lemma SortedReserved(shadowStart: int, capability: nat)
    requires 0 <= shadowStart < SYSCALL_PAGE
    ensures var regions := SortedRegions(shadowStart, capability);
      && Sorted(regions, ByStart)
      && (forall i | 0 <= i < |regions| :: 0 <= regions[i].start <= SYSCALL_PAGE - 1)
      && forall b :: Copied(regions, b) <==> Copied(Reserved(shadowStart, capability), b)
  {
    hide Reserved, Sort, TotalOrder, Copied;
    var all, regions := Reserved(shadowStart, capability), SortedRegions(shadowStart, capability);
    StartOrder();
    SortSorts(all, ByStartSize);
    SameElements(all, ByStartSize);
    forall i | 0 <= i < |regions| ensures 0 <= regions[i].start <= SYSCALL_PAGE - 1 {
      assert regions[i] in regions;
      ReservedStarts(shadowStart, capability, regions[i]);
    }
    forall b ensures Copied(regions, b) <==> Copied(all, b) { SameCopied(regions, all, b); }
    forall i, j | 0 <= i < j < |regions|
      ensures ByStart(regions[i], regions[j])
    {
      assert ByStartSize(regions[i], regions[j]);
    }
  }

  lemma SameCopied(a: seq<Region>, c: seq<Region>, b: int)
    requires forall r :: r in a <==> r in c
    ensures Copied(a, b) <==> Copied(c, b)
  {
    if Copied(a, b) {
      var i :| 0 <= i < |a| && a[i].Copies(b);
      assert a[i] in c;
    }
    if Copied(c, b) {
      var i :| 0 <= i < |c| && c[i].Copies(b);
      assert c[i] in a;
    }
  }

  lemma StagingExact(shadowStart: int, capability: nat, b: int)
    requires 0 <= shadowStart < 0xCF00
    ensures var staging := StagingHoles(shadowStart, capability);
      && Ordered(staging, shadowStart, 0xCF00)
      && (shadowStart <= b < 0xCF00 ==> (InHole(staging, b) <==> !Copied(Reserved(shadowStart, capability), b)))
  {
    hide InHole, Copied, Reached, Sort, Reserved;
    SortedReserved(shadowStart, capability);
    var regions := SortedRegions(shadowStart, capability);
    var high := SYSCALL_PAGE - 1;
    ScanAllIsScan(shadowStart, high, regions, |regions|);
    ScanIsSound(-1, shadowStart, high, regions, |regions|);
    assert regions[..|regions|] == regions;
    var s := ScanAll(shadowStart, regions, |regions|);
    hide ScanAll, ScanSound, Bounded, Ordered;
    SweepEnd(-1, shadowStart, high, regions, s, b);
    if shadowStart <= b { ReachedAbove(-1, regions, b); }
  }

  lemma StagingSorted(shadowStart: int, capability: nat)
    requires 0 <= shadowStart < SYSCALL_PAGE
    ensures Sorted(StagingHoles(shadowStart, capability), ByBounds) && AllApart(StagingHoles(shadowStart, capability))
    ensures forall i | 0 <= i < |StagingHoles(shadowStart, capability)| ::
      var h := StagingHoles(shadowStart, capability)[i]; shadowStart <= h.start <= h.end < SYSCALL_PAGE
  {
    hide StagingHoles;
    StagingExact(shadowStart, capability, 0);
  }

  // ----- the free ranges offered to the scheduler

  /** A range the scheduler may use: the rest of the boot sector, or staging bytes nobody copies. */
  ghost predicate FreeRange(h: Hole, shadowStart: int, stage0End: int, capability: nat) {
    || Within(h, BootHole(stage0End))
    || (shadowStart <= h.start && h.end < 0xCF00 && forall b | h.Holds(b) ::
      !Copied(Reserved(shadowStart, capability), b))
  }

  lemma HolesFree(shadowStart: int, stage0End: int, capability: nat)
    requires KERNEL_ADDRESS <= shadowStart < SYSCALL_PAGE
    ensures var holes := SchedulerHoles(shadowStart, stage0End, capability);
      && AllApart(holes)
      && (forall i | 0 <= i < |holes| :: FreeRange(holes[i], shadowStart, stage0End, capability))
  {
    hide StagingHoles, Copied, Sort, Reserved, Apart;
    var staging, boot := StagingHoles(shadowStart, capability), BootHole(stage0End);
    StagingSorted(shadowStart, capability);
    SortLast(staging, boot);
    assert ApartFrom(staging, boot) by { BootBelow(staging, stage0End, shadowStart); }
    ApartInserted(staging, boot, Place(staging, boot));
    forall i | 0 <= i < |staging| ensures FreeRange(staging[i], shadowStart, stage0End, capability) {
      forall b | staging[i].Holds(b) ensures !Copied(Reserved(shadowStart, capability), b) {
        StagingExact(shadowStart, capability, b);
        assert InHole(staging, b);
      }
    }
    var holes := SchedulerHoles(shadowStart, stage0End, capability);
    forall i | 0 <= i < |holes| ensures FreeRange(holes[i], shadowStart, stage0End, capability) {
      assert holes[i] == boot || holes[i] in staging;
    }
  }

  lemma BootBelow(staging: seq<Hole>, stage0End: int, shadowStart: int)
    requires KERNEL_ADDRESS <= shadowStart && forall i | 0 <= i < |staging| :: shadowStart <= staging[i].start
    ensures ApartFrom(staging, BootHole(stage0End))
  {
  }

  lemma SubFree(a: Hole, h: Hole, shadowStart: int, stage0End: int, capability: nat)
    requires FreeRange(h, shadowStart, stage0End, capability) && Within(a, h)
    ensures FreeRange(a, shadowStart, stage0End, capability)
  {
    hide Copied, Reserved;
  }

  lemma CutFree(holes: seq<Hole>, m: nat, shadowStart: int, stage0End: int, capability: nat)
    requires m < |holes| && Within(MANIFEST, holes[m])
    requires forall i | 0 <= i < |holes| :: FreeRange(holes[i], shadowStart, stage0End, capability)
    ensures forall i | 0 <= i < |WithoutManifest(holes, m)| ::
      FreeRange(WithoutManifest(holes, m)[i], shadowStart, stage0End, capability)
  {
    hide FreeRange;
    var t, cut := WithoutManifest(holes, m), Around(holes[m]);
    forall i | 0 <= i < |t| ensures FreeRange(t[i], shadowStart, stage0End, capability) {
      if m <= i < m + |cut| {
        assert t[i] == cut[i - m] && Within(cut[i - m], holes[m]);
        SubFree(t[i], holes[m], shadowStart, stage0End, capability);
      } else if i < m {
        assert t[i] == holes[i];
      } else {
        assert t[i] == holes[i - |cut| + 1];
      }
    }
  }

  /** The manifest only fits when the staging window starts below it. */
  lemma ManifestInWindow(shadowStart: int, stage0End: int, capability: nat)
    requires 0x2000 <= shadowStart
    requires ManifestHole(SchedulerHoles(shadowStart, stage0End, capability), 0) < |SchedulerHoles(shadowStart,
      stage0End, capability)|
    ensures shadowStart <= MANIFEST.start
  {
    hide Sort, Reserved;
    var holes := SchedulerHoles(shadowStart, stage0End, capability);
    var m := ManifestHole(holes, 0);
    SameElements(StagingHoles(shadowStart, capability) + [BootHole(stage0End)], ByBounds);
    assert holes[m] in holes;
    var regions := Sort(Reserved(shadowStart, capability), ByStartSize);
    StartsAbove(shadowStart, regions, |regions|);
  }

  lemma {:induction false} StartsAbove(from: int, regions: seq<Region>, n: nat)
    requires n <= |regions|
    ensures var s := ScanAll(from, regions, n);
      from <= s.cursor && forall i | 0 <= i < |s.holes| :: from <= s.holes[i].start
    decreases n
  {
    if n > 0 { StartsAbove(from, regions, n - 1); }
  }

  // ----- the layout

  /** What a placed scheduler's chunks are. */
  ghost predicate SafeChunks(chunks: seq<Chunk>, size: nat, shadowStart: int, stage0End: int, capability: nat) {
    && |chunks| <= 8 && Total(chunks) == size
    && AllApart(Ranges(chunks)) && ApartFrom(Ranges(chunks), MANIFEST)
    && forall i | 0 <= i < |chunks| ::
      chunks[i].take > 0 && FreeRange(chunks[i].Range(), shadowStart, stage0End, capability)
  }

  /** Whenever the layout succeeds its chunks hold exactly `size` bytes, are apart from each other
      and from the manifest, and use only boot-sector bytes past stage 0 or staging bytes that no
      reserved region copies. */
  lemma LayoutIsSafe(shadowStart: int, stage0End: int, size: nat, capability: nat)
    requires 0x2000 <= shadowStart
    requires SchedulerLayout(shadowStart, stage0End, size, capability).Placed?
    ensures shadowStart <= MANIFEST.start
    ensures SafeChunks(SchedulerLayout(shadowStart, stage0End, size, capability).chunks, size, shadowStart, stage0End,
      capability)
  {
    hide SchedulerHoles, FillTo, WithoutManifest, Apart, FreeRange, Deliverable, Ceiling;
    var holes := SchedulerHoles(shadowStart, stage0End, capability);
    var m := ManifestHole(holes, 0);
    ManifestInWindow(shadowStart, stage0End, capability);
    HolesFree(shadowStart, stage0End, capability);
    ManifestCut(holes, m);
    CutFree(holes, m, shadowStart, stage0End, capability);
    var free := WithoutManifest(holes, m);
    FillFacts(free, size, |free|);
    var chunks := FillTo(free, size, |free|).chunks;
    forall i | 0 <= i < |chunks|
      ensures chunks[i].take > 0 && FreeRange(chunks[i].Range(), shadowStart, stage0End, capability)
      ensures Apart(chunks[i].Range(), MANIFEST)
    {
      assert InsideSome(chunks[i], free, |free|);
      var j :| 0 <= j < |free| && Within(chunks[i].Range(), free[j]);
      SubFree(chunks[i].Range(), free[j], shadowStart, stage0End, capability);
      PartApart(chunks[i].Range(), free[j]);
    }
  }

  lemma PartApart(a: Hole, h: Hole)
    requires Within(a, h) && a.start <= a.end && Apart(h, MANIFEST)
    ensures Apart(a, MANIFEST)
  {
  }

  // ----- the size test against the reported ceiling

  function Deficit(holes: seq<Hole>): int {
    Ceiling(holes) - Deliverable(holes)
  }

  function Shortfall(h: Hole): int {
    if Length(h) < 0 then Length(h) else 0
  }

  lemma {:induction false} DeficitAppend(a: seq<Hole>, b: seq<Hole>)
    ensures Deficit(a + b) == Deficit(a) + Deficit(b)
    decreases |b|
  {
    if b == [] {
      assert a + b == a;
    } else {
      DeficitAppend(a, b[..|b| - 1]);
      assert (a + b)[..|a + b| - 1] == a + b[..|b| - 1];
    }
  }

  lemma {:induction false} NoDeficit(s: seq<Hole>)
    requires forall i | 0 <= i < |s| :: Length(s[i]) >= 0
    ensures Deficit(s) == 0
  {
    if s != [] { NoDeficit(s[..|s| - 1]); }
  }

  lemma DeficitOne(h: Hole)
    ensures Deficit([h]) == Shortfall(h)
  {
    var s := [h];
    assert s[..|s| - 1] == [] && s[|s| - 1] == h;
    assert Ceiling(s) == Ceiling(s[..|s| - 1]) + Length(h);
    assert Deliverable(s) == Deliverable(s[..|s| - 1]) + if Length(h) > 0 then Length(h) else 0;
    assert Ceiling([]) == 0 && Deliverable([]) == 0;
  }

  ghost predicate ManifestFits(shadowStart: int, stage0End: int, capability: nat) {
    var holes := SchedulerHoles(shadowStart, stage0End, capability);
    ManifestHole(holes, 0) < |holes|
  }

  ghost function FreeList(shadowStart: int, stage0End: int, capability: nat): seq<Hole>
    requires ManifestFits(shadowStart, stage0End, capability)
  {
    var holes := SchedulerHoles(shadowStart, stage0End, capability);
    WithoutManifest(holes, ManifestHole(holes, 0))
  }

  /** The reported ceiling is the deliverable room, lowered by an inverted boot-sector hole. */
  lemma CeilingIs(shadowStart: int, stage0End: int, capability: nat)
    requires 0x2000 <= shadowStart && ManifestFits(shadowStart, stage0End, capability)
    ensures var free := FreeList(shadowStart, stage0End, capability);
      Ceiling(free) == Deliverable(free) + Shortfall(BootHole(stage0End))
  {
    hide StagingHoles, Sort, Ceiling, Deliverable, Shortfall, Deficit;
    ManifestInWindow(shadowStart, stage0End, capability);
    var staging, boot := StagingHoles(shadowStart, capability), BootHole(stage0End);
    StagingSorted(shadowStart, capability);
    SortLast(staging, boot);
    var holes, k := SchedulerHoles(shadowStart, stage0End, capability), Place(staging, boot);
    var m := ManifestHole(holes, 0);
    assert m != k by { assert holes[k] == boot; }
    var cut := Around(holes[m]);
    NoDeficit(cut);
    DeficitOne(boot);
    SplitDeficit(staging, boot, k, m, cut);
    assert Deficit(FreeList(shadowStart, stage0End, capability)) == Shortfall(boot);
    DeficitMeans(FreeList(shadowStart, stage0End, capability));
  }

  lemma DeficitMeans(s: seq<Hole>)
    ensures Ceiling(s) == Deliverable(s) + Deficit(s)
  {
  }

  lemma SplitDeficit(staging: seq<Hole>, boot: Hole, k: nat, m: nat, cut: seq<Hole>)
    requires k <= |staging| && m <= |staging| && m != k
    requires forall i | 0 <= i < |staging| :: Length(staging[i]) >= 0
    requires Deficit(cut) == 0
    ensures var holes := staging[..k] + [boot] + staging[k..];
      Deficit(holes[..m] + cut + holes[m + 1..]) == Deficit([boot])
  {
    hide Deficit;
    var holes := staging[..k] + [boot] + staging[k..];
    DeficitAppend(holes[..m] + cut, holes[m + 1..]);
    DeficitAppend(holes[..m], cut);
    if m < k {
      var mid := staging[m + 1..k];
      assert holes[..m] == staging[..m] && holes[m + 1..] == (mid + [boot]) + staging[k..];
      NoDeficit(staging[..m]);
      NoDeficit(mid);
      NoDeficit(staging[k..]);
      DeficitAppend(mid + [boot], staging[k..]);
      DeficitAppend(mid, [boot]);
    } else {
      var mid := staging[k..m - 1];
      assert holes[..m] == (staging[..k] + [boot]) + mid && holes[m + 1..] == staging[m..];
      NoDeficit(staging[..k]);
      NoDeficit(mid);
      NoDeficit(staging[m..]);
      DeficitAppend(staging[..k] + [boot], mid);
      DeficitAppend(staging[..k], [boot]);
    }
  }

  ghost predicate TooBigFor(shadowStart: int, stage0End: int, size: nat, capability: nat) {
    var l := SchedulerLayout(shadowStart, stage0End, size, capability);
    l.Refused? && l.error.TooBig?
  }

  /** The size failure occurs exactly past the deliverable room. */
  lemma TooBigExactly(shadowStart: int, stage0End: int, size: nat, capability: nat)
    requires 0x2000 <= shadowStart && ManifestFits(shadowStart, stage0End, capability)
    ensures TooBigFor(shadowStart, stage0End, size, capability) <==>
      size > Deliverable(FreeList(shadowStart, stage0End, capability))
  {
    hide SchedulerHoles, FillTo, WithoutManifest, Apart, FreeRange, Deliverable, Ceiling;
    var holes := SchedulerHoles(shadowStart, stage0End, capability);
    ManifestInWindow(shadowStart, stage0End, capability);
    HolesFree(shadowStart, stage0End, capability);
    ManifestCut(holes, ManifestHole(holes, 0));
    var free := FreeList(shadowStart, stage0End, capability);
    FillFacts(free, size, |free|);
    assert free[..|free|] == free;
  }

  /** The reported ceiling is the true limit for every size exactly when stage 0 ends inside the
      boot sector; past it the empty hole counts as negative room. */
  lemma CeilingIsLimit(shadowStart: int, stage0End: int, capability: nat)
    requires 0x2000 <= shadowStart && ManifestFits(shadowStart, stage0End, capability)
    ensures (forall size: nat ::
      TooBigFor(shadowStart, stage0End, size, capability) <==>
        size > Ceiling(FreeList(shadowStart, stage0End, capability)))
       <==> stage0End <= 0xBFF
  {
    hide TooBigFor, Deliverable, Ceiling, FreeList, ManifestFits;
    CeilingIs(shadowStart, stage0End, capability);
    var free := FreeList(shadowStart, stage0End, capability);
    forall size: nat ensures TooBigFor(shadowStart, stage0End, size, capability) <==> size > Deliverable(free) {
      TooBigExactly(shadowStart, stage0End, size, capability);
    }
    if stage0End > BOOT_SECTOR_END {
      assert !(TooBigFor(shadowStart, stage0End, Deliverable(free), capability) <==> Deliverable(free) > Ceiling(free));
    }
  }

  // ----- the holes and the room in closed form

  /** The gaps between the reserved regions above the manifest. */
  const UPPER: seq<Hole> := [Hole(0xC409, 0xC4EE), Hole(0xC78A, 0xC7FF), Hole(0xCDF0, 0xCDFF), Hole(0xCEC0, 0xCEFF)]

  lemma ReservedInOrder()
    ensures Sorted(RESERVED, ByStartSize)
  {
  }

  lemma ReservedAbove(i: nat)
    requires i < |RESERVED|
    ensures RESERVED[i].start >= 0xAD00
  {
  }

  lemma RegionsAre(shadowStart: int, capability: nat)
    requires shadowStart < 0xAD00
    ensures Sort(Reserved(shadowStart, capability), ByStartSize) ==
      (if capability > 0 then [Region(shadowStart, capability)] else []) + RESERVED
  {
    hide Sort, Sorted;
    ReservedInOrder();
    ReservedIs(shadowStart, capability, RESERVED);
    var regions := RESERVED;
    forall i | 0 <= i < |regions| ensures regions[i].start >= 0xAD00 { ReservedAbove(i); }
    InFront(regions, Region(shadowStart, capability), capability > 0);
  }

  lemma ReservedIs(shadowStart: int, capability: nat, regions: seq<Region>)
    requires regions == RESERVED
    ensures Reserved(shadowStart, capability) == regions + if capability > 0 then [Region(shadowStart, capability)]
      else []
  {
  }

  lemma InFront(regions: seq<Region>, r: Region, present: bool)
    requires Sorted(regions, ByStartSize) && forall i | 0 <= i < |regions| :: regions[i].start > r.start
    ensures var one := if present then [r] else []; Sort(regions + one, ByStartSize) == one + regions
  {
    hide Sort, Sorted;
    if present {
      SortLeast(regions, r, ByStartSize);
    } else {
      assert regions + [] == regions == [] + regions;
      SortIdle(regions, ByStartSize);
    }
  }

  /** A first region that starts at the cursor only moves the cursor. */
  lemma {:induction false} ScanSkips(r: Region, rest: seq<Region>, n: nat)
    requires n <= |rest|
    ensures ScanAll(r.start, [r] + rest, n + 1) == ScanAll(r.start + r.size, rest, n)
    decreases n
  {
    if n > 0 { ScanSkips(r, rest, n - 1); }
  }

  lemma ScanNone(from: int, regions: seq<Region>)
    ensures ScanAll(from, regions, 0) == Scan(from, [])
  {
  }

  lemma ScanStep(from: int, regions: seq<Region>, n: nat, r: Region)
    requires n < |regions| && regions[n] == r
    ensures var s := ScanAll(from, regions, n);
      ScanAll(from, regions, n + 1) ==
      Scan(Max(s.cursor, r.start + r.size),
        if r.start > s.cursor then s.holes + [Hole(s.cursor, r.start - 1)] else s.holes)
  {
  }

  lemma ScanLow(from: int, regions: seq<Region>)
    requires from <= MANIFEST.start && |regions| == 8
    requires regions[0] == Region(0xAD00, 0x100) && regions[1] == Region(0xAE00, 0x100)
    requires regions[2] == Region(0xAF00, 0x1400) && regions[3] == Region(0xBFBB, 0x344)
    requires regions[4] == Region(0xC300, 0x109)
    ensures ScanAll(from, regions, 5) == Scan(0xC409, [Hole(from, 0xACFF)])
  {
    hide ScanAll;
    ScanNone(from, regions);
    ScanStep(from, regions, 0, regions[0]);
    ScanStep(from, regions, 1, regions[1]);
    ScanStep(from, regions, 2, regions[2]);
    ScanStep(from, regions, 3, regions[3]);
    ScanStep(from, regions, 4, regions[4]);
  }

  lemma ScanHigh(from: int, regions: seq<Region>, low: Hole)
    requires |regions| == 8 && ScanAll(from, regions, 5) == Scan(0xC409, [low])
    requires regions[5] == Region(0xC4EF, 0x29B) && regions[6] == Region(0xC800, 0x5F0)
    requires regions[7] == Region(0xCE00, 0xC0)
    ensures ScanAll(from, regions, 8) ==
      Scan(0xCEC0, [low] + [Hole(0xC409, 0xC4EE), Hole(0xC78A, 0xC7FF), Hole(0xCDF0, 0xCDFF)])
  {
    hide ScanAll;
    ScanStep(from, regions, 5, regions[5]);
    ScanStep(from, regions, 6, regions[6]);
    ScanStep(from, regions, 7, regions[7]);
  }

  lemma ScanReserved(from: int)
    requires from <= MANIFEST.start
    ensures |RESERVED| == 8 && ScanAll(from, RESERVED, 8) == Scan(0xCEC0, [Hole(from, 0xACFF)] + UPPER[..3])
  {
    hide ScanAll;
    ScanLow(from, RESERVED);
    ScanHigh(from, RESERVED, Hole(from, 0xACFF));
  }

  lemma ScanFront(shadowStart: int, capability: nat, reserved: seq<Region>)
    ensures var regions := (if capability > 0 then [Region(shadowStart, capability)] else []) + reserved;
      ScanAll(shadowStart, regions, |regions|) == ScanAll(shadowStart + capability, reserved, |reserved|)
  {
    hide ScanAll;
    if capability > 0 {
      ScanSkips(Region(shadowStart, capability), reserved, |reserved|);
    } else {
      assert [] + reserved == reserved;
    }
  }

  lemma StagingFrom(shadowStart: int, capability: nat, s: Scan)
    requires s == ScanAll(shadowStart, SortedRegions(shadowStart, capability), |SortedRegions(shadowStart, capability)|)
    requires s.cursor == 0xCEC0
    ensures StagingHoles(shadowStart, capability) == s.holes + [Hole(0xCEC0, 0xCEFF)]
  {
    hide Sort, ScanAll, Reserved;
  }

  /** When the capability ends below the manifest there are five staging holes. */
  lemma StagingIs(shadowStart: int, capability: nat)
    requires shadowStart + capability <= MANIFEST.start
    ensures StagingHoles(shadowStart, capability) == [Hole(shadowStart + capability, 0xACFF)] + UPPER
  {
    hide Sort, ScanAll, Reserved, StagingHoles;
    RegionsAre(shadowStart, capability);
    ScanFront(shadowStart, capability, RESERVED);
    ScanReserved(shadowStart + capability);
    var low := Hole(shadowStart + capability, 0xACFF);
    StagingFrom(shadowStart, capability, Scan(0xCEC0, [low] + UPPER[..3]));
    UpperSplits(low);
  }

  lemma UpperSplits(low: Hole)
    ensures [low] + UPPER[..3] + [Hole(0xCEC0, 0xCEFF)] == [low] + UPPER
  {
  }

  lemma HolesAre(shadowStart: int, stage0End: int, capability: nat)
    requires shadowStart + capability <= MANIFEST.start && KERNEL_ADDRESS <= shadowStart
    ensures var staging, boot := [Hole(shadowStart + capability, 0xACFF)] + UPPER, BootHole(stage0End);
      SchedulerHoles(shadowStart, stage0End, capability) ==
        staging[..Place(staging, boot)] + [boot] + staging[Place(staging, boot)..]
  {
    hide Sort, StagingHoles, Sorted;
    StagingIs(shadowStart, capability);
    StagingSorted(shadowStart, capability);
    SortLast(StagingHoles(shadowStart, capability), BootHole(stage0End));
  }

  /** The manifest has a hole exactly when the capability ends below it. */
  lemma ManifestFitsExactly(shadowStart: int, stage0End: int, capability: nat)
    requires 0x2000 <= shadowStart
    ensures ManifestFits(shadowStart, stage0End, capability) <==> shadowStart + capability <= 0xACD9
  {
    hide StagingHoles, Sort, Place;
    var holes := SchedulerHoles(shadowStart, stage0End, capability);
    if shadowStart + capability <= MANIFEST.start {
      HolesAre(shadowStart, stage0End, capability);
      var h := Hole(shadowStart + capability, 0xACFF);
      assert h in [h] + UPPER;
      assert h in holes;
    }
    if ManifestFits(shadowStart, stage0End, capability) {
      ManifestInWindow(shadowStart, stage0End, capability);
      HoleUncopied(shadowStart, stage0End, capability, holes[ManifestHole(holes, 0)]);
    }
  }

  lemma HoleUncopied(shadowStart: int, stage0End: int, capability: nat, h: Hole)
    requires KERNEL_ADDRESS <= shadowStart <= MANIFEST.start
    requires h in SchedulerHoles(shadowStart, stage0End, capability) && Within(MANIFEST, h)
    ensures shadowStart + capability <= MANIFEST.start
  {
    hide StagingHoles, Sort;
    var staging := StagingHoles(shadowStart, capability);
    SameElements(staging + [BootHole(stage0End)], ByBounds);
    StagingExact(shadowStart, capability, MANIFEST.start);
    var i :| 0 <= i < |staging| && staging[i] == h;
    assert InHole(staging, MANIFEST.start);
    CapabilityCopied(shadowStart, capability, MANIFEST.start);
  }

  lemma CapabilityCopied(shadowStart: int, capability: nat, b: int)
    ensures shadowStart <= b < shadowStart + capability ==> Copied(Reserved(shadowStart, capability), b)
  {
    if shadowStart <= b < shadowStart + capability {
      var regions := Reserved(shadowStart, capability);
      assert regions[8] == Region(shadowStart, capability) && regions[8].Copies(b);
    }
  }

  /** What the scheduler may occupy: the rest of the boot sector, the bytes below the manifest, and
      the 428 bytes of the upper gaps. */
  function Room(shadowStart: int, stage0End: int, capability: nat): int {
    (if stage0End < 0xBFF then 0xBFF - stage0End else 0) + (0xACD9 - shadowStart - capability) + 428
  }

  lemma {:induction false} RoomAppend(a: seq<Hole>, b: seq<Hole>)
    ensures Deliverable(a + b) == Deliverable(a) + Deliverable(b)
    decreases |b|
  {
    if b == [] {
      assert a + b == a;
    } else {
      RoomAppend(a, b[..|b| - 1]);
      assert (a + b)[..|a + b| - 1] == a + b[..|b| - 1];
    }
  }

  lemma RoomOne(h: Hole)
    ensures Deliverable([h]) == Max(0, Length(h))
  {
    assert [h][..0] == [] && Deliverable([]) == 0;
  }

  lemma RoomCut(holes: seq<Hole>, m: nat, cut: seq<Hole>)
    requires m < |holes|
    ensures Deliverable(holes[..m] + cut + holes[m + 1..]) ==
      Deliverable(holes) - Deliverable([holes[m]]) + Deliverable(cut)
  {
    hide Deliverable;
    assert holes == holes[..m] + [holes[m]] + holes[m + 1..];
    RoomAppend(holes[..m] + [holes[m]], holes[m + 1..]);
    RoomAppend(holes[..m], [holes[m]]);
    RoomAppend(holes[..m] + cut, holes[m + 1..]);
    RoomAppend(holes[..m], cut);
  }

  lemma RoomInserted(s: seq<Hole>, k: nat, x: Hole)
    requires k <= |s|
    ensures Deliverable(s[..k] + [x] + s[k..]) == Deliverable(s) + Deliverable([x])
  {
    hide Deliverable;
    assert s == s[..k] + s[k..];
    RoomAppend(s[..k], s[k..]);
    RoomAppend(s[..k] + [x], s[k..]);
    RoomAppend(s[..k], [x]);
  }

  lemma UpperRoom()
    ensures Deliverable(UPPER) == 428
  {
    hide Deliverable;
    var a, b, c, d := UPPER[0], UPPER[1], UPPER[2], UPPER[3];
    assert UPPER == [a] + [b] + [c] + [d];
    RoomAppend([a] + [b] + [c], [d]);
    RoomAppend([a] + [b], [c]);
    RoomAppend([a], [b]);
    RoomOne(a);
    RoomOne(b);
    RoomOne(c);
    RoomOne(d);
  }

  lemma CutRoom(low: int)
    requires low <= MANIFEST.start
    ensures var cut := Around(Hole(low, 0xACFF)); |cut| <= 1 && Deliverable(cut) == MANIFEST.start - low
  {
    RoomOne(Hole(low, MANIFEST.start - 1));
  }

  lemma ManifestLow(shadowStart: int, stage0End: int, capability: nat)
    requires KERNEL_ADDRESS <= shadowStart && shadowStart + capability <= MANIFEST.start
    requires ManifestFits(shadowStart, stage0End, capability)
    ensures var holes := SchedulerHoles(shadowStart, stage0End, capability);
      ManifestHole(holes, 0) < |holes| && holes[ManifestHole(holes, 0)] == Hole(shadowStart + capability, 0xACFF)
  {
    hide SchedulerHoles, Place;
    var low := Hole(shadowStart + capability, 0xACFF);
    var staging, boot := [low] + UPPER, BootHole(stage0End);
    var holes := SchedulerHoles(shadowStart, stage0End, capability);
    HolesAre(shadowStart, stage0End, capability);
    assert forall h :: h in holes ==> h in staging || h == boot;
    assert holes[ManifestHole(holes, 0)] in holes;
  }

  /** The manifest sits in the first staging hole; at most six ranges are left for the scheduler, and
      their room is as stated. */
  lemma FreeRoom(shadowStart: int, stage0End: int, capability: nat)
    requires KERNEL_ADDRESS <= shadowStart && shadowStart + capability <= MANIFEST.start
    requires ManifestFits(shadowStart, stage0End, capability)
    ensures var free := FreeList(shadowStart, stage0End, capability);
      |free| <= 6 && Deliverable(free) == Room(shadowStart, stage0End, capability)
  {
    hide SchedulerHoles, Deliverable, Around, Place;
    var low := Hole(shadowStart + capability, 0xACFF);
    var staging, boot := [low] + UPPER, BootHole(stage0End);
    var k, holes := Place(staging, boot), SchedulerHoles(shadowStart, stage0End, capability);
    var m := ManifestHole(holes, 0);
    HolesAre(shadowStart, stage0End, capability);
    ManifestLow(shadowStart, stage0End, capability);
    RoomCut(holes, m, Around(low));
    RoomInserted(staging, k, boot);
    RoomAppend([low], UPPER);
    RoomOne(low);
    RoomOne(boot);
    UpperRoom();
    CutRoom(shadowStart + capability);
  }

  /** The layout succeeds exactly when the capability ends below the manifest and the size is at most
      the room; the entry limit is never what refuses it. */
  lemma PlacedExactly(shadowStart: int, stage0End: int, size: nat, capability: nat)
    requires 0x2000 <= shadowStart
    ensures var l := SchedulerLayout(shadowStart, stage0End, size, capability);
      && (l.Placed? <==> shadowStart + capability <= 0xACD9 && size <= Room(shadowStart, stage0End, capability))
      && l != Refused(TooManyChunks)
      && (l.Placed? ==> l.ceiling == Room(shadowStart, stage0End, capability) + Shortfall(BootHole(stage0End)))
  {
    hide SchedulerHoles, FillTo, WithoutManifest, Deliverable, Ceiling, Shortfall, Room;
    ManifestFitsExactly(shadowStart, stage0End, capability);
    if ManifestFits(shadowStart, stage0End, capability) {
      FreeRoom(shadowStart, stage0End, capability);
      TooBigExactly(shadowStart, stage0End, size, capability);
      CeilingIs(shadowStart, stage0End, capability);
    }
  }
}
