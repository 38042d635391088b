/** Which bytes the scheduler gets: the free ranges in plain addresses, filled in order. */
module ScatterOrder {
  import opened Bytes
  import opened Sorting
  import opened Holes
  import opened Scatter
  import opened ScatterProofs

  /** A range without bytes is passed over. */
  lemma {:induction false} FillSkips(a: seq<Hole>, h: Hole, b: seq<Hole>, size: nat)
    requires Length(h) <= 0
    ensures FillTo(a + [h] + b, size, |a| + 1 + |b|) == FillTo(a + b, size, |a| + |b|)
    decreases |b|
  {
    hide FillTo;
    var s, t := a + [h] + b, a + b;
    if b == [] {
      FillSame(s, t, size, |a|);
      FillStep(s, size, |a| + 1);
    } else {
      var c := b[..|b| - 1];
      FillSkips(a, h, c, size);
      FillSame(s, a + [h] + c, size, |a| + |b|);
      FillSame(t, a + c, size, |a| + |b| - 1);
      FillStep(s, size, |a| + 1 + |b|);
      FillStep(t, size, |a| + |b|);
      assert s[|a| + |b|] == b[|b| - 1] == t[|a| + |b| - 1];
    }
  }

  lemma FillStep(s: seq<Hole>, size: nat, n: nat)
    requires 0 < n <= |s|
    ensures var f, h := FillTo(s, size, n - 1), s[n - 1];
      var take := if Length(h) <= size - f.offset then Length(h) else size - f.offset;
      FillTo(s, size, n) ==
        if f.offset >= size || take <= 0 then f else Fill(f.offset + take, f.chunks + [Chunk(h.start, take)])
  {
  }

  lemma {:induction false} FillSame(s: seq<Hole>, t: seq<Hole>, size: nat, n: nat)
    requires n <= |s| && n <= |t| && forall i | 0 <= i < n :: s[i] == t[i]
    ensures FillTo(s, size, n) == FillTo(t, size, n)
    decreases n
  {
    if n > 0 { FillSame(s, t, size, n - 1); }
  }

  ghost predicate NoneEmpty(ranges: seq<Hole>) { forall i | 0 <= i < |ranges| :: Length(ranges[i]) > 0 }

  /** Chunk i starts where range i starts and takes all of it, except that the last takes what is left. */
  ghost predicate FillsInOrder(chunks: seq<Chunk>, ranges: seq<Hole>) {
    && |chunks| <= |ranges|
    && (forall i | 0 <= i < |chunks| :: chunks[i].start == ranges[i].start && 0 < chunks[i].take <= Length(ranges[i]))
    && forall i | 0 <= i < |chunks| - 1 :: chunks[i].take == Length(ranges[i])
  }

  lemma {:induction false} FillOrdered(ranges: seq<Hole>, size: nat, n: nat)
    requires NoneEmpty(ranges) && n <= |ranges|
    ensures var f := FillTo(ranges, size, n);
      && |f.chunks| <= n && FillsInOrder(f.chunks, ranges)
      && (f.offset < size ==> |f.chunks| == n && (forall i | 0 <= i < n :: f.chunks[i].take == Length(ranges[i])))
    decreases n
  {
    if n > 0 { FillOrdered(ranges, size, n - 1); }
  }

  /** The free ranges: the rest of the boot sector, the bytes from the capability to the manifest, and
      the four gaps. */
  ghost function FreeRanges(shadowStart: int, stage0End: int, capability: nat): seq<Hole> {
    (if stage0End < 0xBFF then [Hole(stage0End + 1, 0xBFF)] else []) +
    (if shadowStart + capability < 0xACD9 then [Hole(shadowStart + capability, 0xACD8)] else []) +
    [Hole(0xC409, 0xC4EE), Hole(0xC78A, 0xC7FF), Hole(0xCDF0, 0xCDFF), Hole(0xCEC0, 0xCEFF)]
  }

  lemma GapsAre(shadowStart: int, stage0End: int, capability: nat)
    ensures NoneEmpty(FreeRanges(shadowStart, stage0End, capability))
  {
  }

  ghost function Below(low: Hole): seq<Hole> {
    if low.start < 0xACD9 then [Hole(low.start, 0xACD8)] else []
  }

  lemma AroundLow(low: Hole)
    requires low.end == 0xACFF
    ensures Around(low) == Below(low)
  {
  }

  /** A boot range with bytes sorts before the staging ranges. */
  lemma {:induction false} PlaceFirst(staging: seq<Hole>, boot: Hole)
    requires boot.start <= 0xBFF && forall h | h in staging :: h.start >= 0x2000
    ensures Place(staging, boot) == 0
    decreases |staging|
  {
    hide Place;
    if staging == [] {
      PlaceNone(boot);
    } else {
      PlaceFirst(staging[1..], boot);
      PlaceStep(staging, boot);
      assert staging[0] in staging;
    }
  }

  /** The boot range first: it is left out when it has no bytes. */
  lemma BootFirst(low: Hole, boot: Hole, m: nat, size: nat)
    requires low.end == 0xACFF && boot.end == 0xBFF
    requires m < 6 && ([boot, low] + UPPER)[m] == low
    ensures var free, rest := WithoutManifest([boot, low] + UPPER, m), Below(low) + UPPER;
      var ranges := if Length(boot) > 0 then [boot] + rest else rest;
      FillTo(free, size, |free|) == FillTo(ranges, size, |ranges|)
  {
    hide FillTo, Around;
    var holes, rest := [boot, low] + UPPER, Below(low) + UPPER;
    AroundLow(low);
    assert m == 1;
    assert holes[..1] == [boot] && holes[2..] == UPPER;
    var free := WithoutManifest(holes, m);
    assert free == [] + [boot] + rest;
    if Length(boot) <= 0 {
      FillSkips([], boot, rest, size);
      assert [] + rest == rest;
    } else {
      assert free == [boot] + rest;
    }
  }

  lemma LowFirst(low: Hole, boot: Hole, k: nat, m: nat)
    requires low.end == 0xACFF && boot.end == 0xBFF && k <= 4
    requires m < 6 && ([low] + UPPER[..k] + [boot] + UPPER[k..])[m] == low
    ensures m == 0
  {
  }

  /** The boot range behind the low one: it has no bytes. */
  lemma BootLater(low: Hole, boot: Hole, k: nat, m: nat, size: nat)
    requires low.end == 0xACFF && boot.end == 0xBFF && Length(boot) <= 0 && k <= 4
    requires m < 6 && ([low] + UPPER[..k] + [boot] + UPPER[k..])[m] == low
    ensures var free, ranges := WithoutManifest([low] + UPPER[..k] + [boot] + UPPER[k..], m), Below(low) + UPPER;
      FillTo(free, size, |free|) == FillTo(ranges, size, |ranges|)
  {
    hide FillTo, Around, Below;
    var a, b := UPPER[..k], UPPER[k..];
    var holes := [low] + a + [boot] + b;
    AroundLow(low);
    LowFirst(low, boot, k, m);
    assert holes[..0] == [] && holes[1..] == a + [boot] + b;
    var free := WithoutManifest(holes, m);
    assert free == (Below(low) + a) + [boot] + b;
    FillSkips(Below(low) + a, boot, b, size);
    assert (Below(low) + a) + b == Below(low) + UPPER;
  }

  /** What the layout fills, once the manifest is cut out: the free ranges. */
  lemma FreeFills(shadowStart: int, stage0End: int, capability: nat, size: nat)
    requires 0x2000 <= shadowStart && shadowStart + capability <= 0xACD9
    requires ManifestFits(shadowStart, stage0End, capability)
    ensures var free, ranges := FreeList(shadowStart, stage0End, capability),
      FreeRanges(shadowStart, stage0End, capability);
      FillTo(free, size, |free|) == FillTo(ranges, size, |ranges|)
  {
    hide SchedulerHoles, FillTo, ManifestHole, Place, WithoutManifest, ManifestFits, FreeRanges, Below;
    HolesAre(shadowStart, stage0End, capability);
    ManifestLow(shadowStart, stage0End, capability);
    var low, boot := Hole(shadowStart + capability, 0xACFF), BootHole(stage0End);
    var staging, holes := [low] + UPPER, SchedulerHoles(shadowStart, stage0End, capability);
    var k, m := Place(staging, boot), ManifestHole(holes, 0);
    RangesAre(shadowStart, stage0End, capability);
    if k == 0 {
      assert staging[..0] + [boot] + staging[0..] == [boot, low] + UPPER;
      BootFirst(low, boot, m, size);
    } else {
      if Length(boot) > 0 { PlaceFirst(staging, boot); }
      assert staging[..k] == [low] + UPPER[..k - 1] && staging[k..] == UPPER[k - 1..];
      BootLater(low, boot, k - 1, m, size);
    }
  }

  lemma RangesAre(shadowStart: int, stage0End: int, capability: nat)
    ensures var low, boot := Hole(shadowStart + capability, 0xACFF), BootHole(stage0End);
      FreeRanges(shadowStart, stage0End, capability) ==
        if Length(boot) > 0 then [boot] + (Below(low) + UPPER) else Below(low) + UPPER
  {
  }

  /** The chunks of a layout fill the free ranges in order: each starts where its range starts, and only
      the last may leave bytes of its range. */
  lemma LayoutInOrder(shadowStart: int, stage0End: int, size: nat, capability: nat)
    requires 0x2000 <= shadowStart && SchedulerLayout(shadowStart, stage0End, size, capability).Placed?
    ensures FillsInOrder(SchedulerLayout(shadowStart, stage0End, size, capability).chunks,
      FreeRanges(shadowStart, stage0End, capability))
  {
    hide SchedulerHoles, FillTo, ManifestHole, WithoutManifest, FreeRanges, FillsInOrder, NoneEmpty;
    ManifestFitsExactly(shadowStart, stage0End, capability);
    FreeFills(shadowStart, stage0End, capability, size);
    GapsAre(shadowStart, stage0End, capability);
    var ranges := FreeRanges(shadowStart, stage0End, capability);
    FillOrdered(ranges, size, |ranges|);
  }
}
