/** What installing the scheduler does to memory, and that gathering gives the scheduler back. */
module ScatterTheorems {
  import opened Bytes
  import opened Holes
  import opened Scatter
  import opened ScatterProofs
  import opened ScatterInstall

  ghost predicate Hit(chunks: seq<Chunk>, n: nat, a: int)
    requires n <= |chunks|
  {
    exists i | 0 <= i < n :: chunks[i].Range().Holds(a)
  }

  /** Bytes no chunk covers stay. */
  lemma {:induction false} ChunksFrame(p: Payload, chunks: seq<Chunk>, scheduler: seq<byte>, n: nat, a: int)
    requires Shaped(p) && Placeable(chunks, scheduler) && n <= |chunks| && !Hit(chunks, n, a)
    ensures Peek(PutChunks(p, chunks, scheduler, n).payload, a) == Peek(p, a)
    decreases n
  {
    hide Peek, Window, PutAt, AllZero, Part;
    if n > 0 {
      assert !chunks[n - 1].Range().Holds(a);
      ChunksFrame(p, chunks, scheduler, n - 1, a);
    }
  }

  lemma ChunkUnhit(chunks: seq<Chunk>, n: nat, a: int)
    requires n < |chunks| && AllApart(Ranges(chunks)) && chunks[n].Range().Holds(a)
    ensures !Hit(chunks, n, a)
  {
    forall i | 0 <= i < n ensures !chunks[i].Range().Holds(a) { assert Apart(Ranges(chunks)[i], Ranges(chunks)[n]); }
  }

  /** The n-th chunk still looks as it did before the loop when its turn comes. */
  lemma TurnClear(p: Payload, chunks: seq<Chunk>, scheduler: seq<byte>, n: nat)
    requires Shaped(p) && Placeable(chunks, scheduler) && n < |chunks| && AllApart(Ranges(chunks))
    ensures var q, c := PutChunks(p, chunks, scheduler, n).payload, chunks[n];
      AllZero(Window(q, c.start, c.take)) <==> Clear(p, c.start, c.take)
  {
    hide Peek, PutChunks, Hit, AllZero, Reachable, Window;
    var q, c := PutChunks(p, chunks, scheduler, n).payload, chunks[n];
    forall a | c.start <= a < c.start + c.take ensures Peek(q, a) == Peek(p, a) {
      ChunkUnhit(chunks, n, a);
      ChunksFrame(p, chunks, scheduler, n, a);
    }
    WindowClear(q, c.start, c.take);
  }

  ghost predicate ClearChunks(p: Payload, chunks: seq<Chunk>, n: nat)
    requires Shaped(p) && n <= |chunks|
  {
    forall i | 0 <= i < n :: Clear(p, chunks[i].start, chunks[i].take)
  }

  /** The loop fails exactly when some chunk's bytes were not all zero beforehand. */
  lemma {:induction false} ChunksSucceed(p: Payload, chunks: seq<Chunk>, scheduler: seq<byte>, n: nat)
    requires Shaped(p) && Placeable(chunks, scheduler) && n <= |chunks| && AllApart(Ranges(chunks))
    ensures PutChunks(p, chunks, scheduler, n).error.None? <==> ClearChunks(p, chunks, n)
    decreases n
  {
    hide Clear, AllApart, AllZero, Window, Reachable, Part, PutAt;
    if n > 0 {
      ChunksSucceed(p, chunks, scheduler, n - 1);
      TurnClear(p, chunks, scheduler, n - 1);
    }
  }

  /** A byte that was nonzero never changes, whatever the outcome. */
  lemma {:induction false} ChunksKeep(p: Payload, chunks: seq<Chunk>, scheduler: seq<byte>, n: nat, a: int)
    requires Shaped(p) && Placeable(chunks, scheduler) && n <= |chunks| && Peek(p, a) != 0
    ensures Peek(PutChunks(p, chunks, scheduler, n).payload, a) == Peek(p, a)
    decreases n
  {
    hide Peek, AllZero, Window, Reachable, Part, PutAt;
    if n > 0 {
      ChunksKeep(p, chunks, scheduler, n - 1, a);
      ChunkKeeps(PutChunks(p, chunks, scheduler, n - 1).payload, chunks[n - 1], Part(chunks, scheduler, n - 1), a);
    }
  }

  lemma ChunkKeeps(p: Payload, c: Chunk, data: seq<byte>, a: int)
    requires Shaped(p) && Reachable(c.start, c.take) && |data| == c.take && Peek(p, a) != 0
    ensures Peek(PutChunk(p, c, data).payload, a) == Peek(p, a)
  {
    hide Peek, AllZero, Window, Reachable;
    WindowClear(p, c.start, c.take);
  }

  /** After a successful loop every chunk holds its part of the scheduler. */
  lemma {:induction false} ChunksHold(p: Payload, chunks: seq<Chunk>, scheduler: seq<byte>, n: nat, i: nat)
    requires Shaped(p) && Placeable(chunks, scheduler) && i < n <= |chunks| && AllApart(Ranges(chunks))
    requires PutChunks(p, chunks, scheduler, n).error.None?
    ensures Window(PutChunks(p, chunks, scheduler, n).payload, chunks[i].start, chunks[i].take) ==
      Part(chunks, scheduler, i)
    decreases n
  {
    hide Peek, AllZero, Window, Reachable, Part, PutAt, AllApart;
    var before := PutChunks(p, chunks, scheduler, n - 1).payload;
    var c, data := chunks[n - 1], Part(chunks, scheduler, n - 1);
    if i == n - 1 {
      WindowOwn(before, c.start, data);
    } else {
      ChunksHold(p, chunks, scheduler, n - 1, i);
      assert Apart(Ranges(chunks)[i], Ranges(chunks)[n - 1]) by { Pairwise(Ranges(chunks), i, n - 1); }
      WindowOther(before, c.start, data, chunks[i].start, chunks[i].take);
    }
  }

  lemma Pairwise(s: seq<Hole>, i: nat, j: nat)
    requires AllApart(s) && i < j < |s|
    ensures Apart(s[i], s[j])
  {
  }

  lemma WindowOwn(p: Payload, start: int, data: seq<byte>)
    requires Shaped(p) && Reachable(start, |data|)
    ensures Window(PutAt(p, start, data), start, |data|) == data
  {
    hide Peek, Window, PutAt, Reachable;
  }

  lemma WindowOther(p: Payload, start: int, data: seq<byte>, other: int, n: nat)
    requires Shaped(p) && Reachable(start, |data|) && Reachable(other, n) && data != [] && n > 0
    requires Apart(Hole(other, other + n - 1), Hole(start, start + |data| - 1))
    ensures Window(PutAt(p, start, data), other, n) == Window(p, other, n)
  {
    hide Peek, Window, PutAt, Reachable;
  }

  // ----- the manifest

  lemma ManifestReachable(n: nat)
    requires n <= 8
    ensures Reachable(MANIFEST.start, 7 + 4 * n) && MANIFEST.start + 7 + 4 * n - 1 <= MANIFEST.end
    ensures BOOT_SECTOR_END < MANIFEST.start
  {
  }

  /** Bytes outside the manifest's reservation survive it; the write happens only over zeros. */
  lemma ManifestEffect(p: Payload, chunks: seq<Chunk>, scheduler: seq<byte>)
    requires Shaped(p) && Addressed(chunks)
    ensures var r, n := PutManifest(p, chunks, scheduler), 7 + 4 * |chunks|;
      && (r.error == if Clear(p, MANIFEST.start, n) then None else Some(ManifestOverlap))
      && (forall a :: Peek(p, a) != 0 ==> Peek(r.payload, a) == Peek(p, a))
      && (forall a | !(MANIFEST.start <= a < MANIFEST.start + n) :: Peek(r.payload, a) == Peek(p, a))
      && (r.error.None? ==> Window(r.payload, MANIFEST.start, n) == Manifest(chunks, scheduler))
  {
    assert |chunks| <= 8;
    hide Peek, Window, PutAt, Manifest, AllZero, Addressed;
    ManifestReachable(|chunks|);
    WindowClear(p, MANIFEST.start, 7 + 4 * |chunks|);
    WindowOwn(p, MANIFEST.start, Manifest(chunks, scheduler));
  }

  // ----- gathering, as the receiving side reads memory

  function PeekWord(p: Payload, a: int): nat
    requires Shaped(p)
  {
    Peek(p, a) as int + 256 * Peek(p, a + 1) as int
  }

  function Stretch(p: Payload, start: int, n: nat): (s: seq<byte>)
    requires Shaped(p)
    ensures |s| == n && forall i | 0 <= i < n :: s[i] == Peek(p, start + i)
  {
    seq<byte>(n, i => Peek(p, start + i))
  }

  /** The bytes named by the first n manifest entries, one after another. */
  function GatherTo(p: Payload, n: nat): seq<byte>
    requires Shaped(p)
    decreases n
  {
    if n == 0 then [] else
      var entry := 0xACD9 + 7 + 4 * (n - 1);
      GatherTo(p, n - 1) + Stretch(p, PeekWord(p, entry), PeekWord(p, entry + 2))
  }

  function Gather(p: Payload): seq<byte>
    requires Shaped(p)
  {
    GatherTo(p, Peek(p, 0xACDD))
  }

  lemma {:induction false} EntryAt(chunks: seq<Chunk>, i: nat)
    requires Addressed(chunks) && i < |chunks|
    ensures Word(Entries(chunks), 4 * i) == chunks[i].start && Word(Entries(chunks), 4 * i + 2) == chunks[i].take
    decreases |chunks|
  {
    var last := chunks[|chunks| - 1];
    var before := Entries(chunks[..|chunks| - 1]);
    var all := Entries(chunks);
    assert all == before + Le16(last.start) + Le16(last.take);
    var k := |before|;
    if i < |chunks| - 1 {
      EntryAt(chunks[..|chunks| - 1], i);
      assert all[4 * i] == before[4 * i] && all[4 * i + 1] == before[4 * i + 1];
      assert all[4 * i + 2] == before[4 * i + 2] && all[4 * i + 3] == before[4 * i + 3];
    } else {
      assert all[k] == Le16(last.start)[0] && all[k + 1] == Le16(last.start)[1];
      assert all[k + 2] == Le16(last.take)[0] && all[k + 3] == Le16(last.take)[1];
    }
  }

  /** Memory that still shows the manifest names its chunks. */
  ghost predicate Shows(p: Payload, chunks: seq<Chunk>, scheduler: seq<byte>)
    requires Shaped(p) && Addressed(chunks)
  {
    Window(p, MANIFEST.start, 7 + 4 * |chunks|) == Manifest(chunks, scheduler)
  }

  lemma ShownEntry(p: Payload, chunks: seq<Chunk>, scheduler: seq<byte>, i: nat)
    requires Shaped(p) && Addressed(chunks) && Shows(p, chunks, scheduler) && i < |chunks|
    ensures PeekWord(p, MANIFEST.start + 7 + 4 * i) == chunks[i].start
    ensures PeekWord(p, MANIFEST.start + 7 + 4 * i + 2) == chunks[i].take
  {
    assert |chunks| <= 8;
    hide Peek, Window, Entries, Addressed;
    ManifestReachable(|chunks|);
    EntryAt(chunks, i);
    var w, m, e := Window(p, MANIFEST.start, 7 + 4 * |chunks|), Manifest(chunks, scheduler), Entries(chunks);
    ManifestEntries(chunks, scheduler, 4 * i);
    ManifestEntries(chunks, scheduler, 4 * i + 1);
    ManifestEntries(chunks, scheduler, 4 * i + 2);
    ManifestEntries(chunks, scheduler, 4 * i + 3);
    hide Manifest;
    assert w == m && w[7 + 4 * i] == e[4 * i] && w[7 + (4 * i + 1)] == e[4 * i + 1];
    assert w[7 + (4 * i + 2)] == e[4 * i + 2] && w[7 + (4 * i + 3)] == e[4 * i + 3];
  }

  lemma ManifestEntries(chunks: seq<Chunk>, scheduler: seq<byte>, k: nat)
    requires Addressed(chunks) && k < 4 * |chunks|
    ensures Manifest(chunks, scheduler)[7 + k] == Entries(chunks)[k]
  {
    hide Entries, Sum;
  }

  lemma ShownHeader(p: Payload, chunks: seq<Chunk>, scheduler: seq<byte>)
    requires Shaped(p) && Addressed(chunks) && Shows(p, chunks, scheduler)
    ensures Stretch(p, MANIFEST.start, 4) == USCT
    ensures Peek(p, MANIFEST.start + 4) == |chunks|
    ensures PeekWord(p, MANIFEST.start + 5) == Sum(scheduler) % 0x10000
  {
    hide Peek, Window, Entries, Sum;
    var w, m := Window(p, MANIFEST.start, 7 + 4 * |chunks|), Manifest(chunks, scheduler);
    var check := Le16(Sum(scheduler) % 0x10000);
    assert m[..4] == USCT;
    assert m[5] == check[0] && m[6] == check[1] && m[4] == |chunks|;
    assert w[4] == Peek(p, MANIFEST.start + 4) && w[5] == Peek(p, MANIFEST.start + 5) &&
      w[6] == Peek(p, MANIFEST.start + 6);
    forall i | 0 <= i < 4 ensures Stretch(p, MANIFEST.start, 4)[i] == USCT[i] { assert w[i] == m[..4][i]; }
  }

  lemma {:induction false} GatherPrefix(p: Payload, chunks: seq<Chunk>, scheduler: seq<byte>, n: nat)
    requires Shaped(p) && Addressed(chunks) && Placeable(chunks, scheduler) && Shows(p, chunks, scheduler)
    requires n <= |chunks|
    requires forall i | 0 <= i < n :: Window(p, chunks[i].start, chunks[i].take) == Part(chunks, scheduler, i)
    ensures Total(chunks[..n]) <= |scheduler| && GatherTo(p, n) == scheduler[..Total(chunks[..n])]
    decreases n
  {
    hide Peek, Window, Shows, Addressed, Reachable, GatherTo, Total, Shaped;
    TotalPrefix(chunks, n);
    NothingGathered(p, chunks);
    if n > 0 {
      GatherPrefix(p, chunks, scheduler, n - 1);
      TotalPrefix(chunks, n - 1);
      GatherStep(p, chunks, scheduler, n - 1);
      Joined(scheduler, Total(chunks[..n - 1]), Total(chunks[..n]));
    } else {
      assert scheduler[..Total(chunks[..0])] == [];
    }
  }

  lemma NothingGathered(p: Payload, chunks: seq<Chunk>)
    requires Shaped(p)
    ensures GatherTo(p, 0) == [] && Total(chunks[..0]) == 0
  {
  }

  lemma Joined(s: seq<byte>, i: nat, j: nat)
    requires i <= j <= |s|
    ensures s[..i] + s[i..j] == s[..j]
  {
  }

  lemma GatherStep(p: Payload, chunks: seq<Chunk>, scheduler: seq<byte>, n: nat)
    requires Shaped(p) && Addressed(chunks) && Placeable(chunks, scheduler) && Shows(p, chunks, scheduler)
    requires n < |chunks|
    requires Window(p, chunks[n].start, chunks[n].take) == Part(chunks, scheduler, n)
    ensures GatherTo(p, n + 1) == GatherTo(p, n) + Part(chunks, scheduler, n)
  {
    hide Peek, Window, Shows, Addressed, Reachable, Part;
    ShownEntry(p, chunks, scheduler, n);
    var c := chunks[n];
    assert Stretch(p, c.start, c.take) == Window(p, c.start, c.take);
  }

  // ----- the theorem

  ghost predicate Spread(p: Payload, chunks: seq<Chunk>, scheduler: seq<byte>)
    requires Shaped(p)
  {
    && Addressed(chunks) && Placeable(chunks, scheduler)
    && AllApart(Ranges(chunks)) && ApartFrom(Ranges(chunks), MANIFEST)
  }

  lemma UnderManifest(chunks: seq<Chunk>, i: nat, a: int)
    requires i < |chunks| && ApartFrom(Ranges(chunks), MANIFEST) && chunks[i].Range().Holds(a)
    ensures !MANIFEST.Holds(a)
  {
    assert Apart(Ranges(chunks)[i], MANIFEST);
  }

  /** Writing the manifest leaves every chunk's bytes as they were. */
  lemma ManifestAside(p: Payload, chunks: seq<Chunk>, scheduler: seq<byte>)
    requires Shaped(p) && Spread(p, chunks, scheduler)
    ensures var q := PutManifest(p, chunks, scheduler).payload;
      forall i | 0 <= i < |chunks| ::
        Clear(q, chunks[i].start, chunks[i].take) <==> Clear(p, chunks[i].start, chunks[i].take)
  {
    hide Peek, PutManifest, AllApart, ApartFrom, Reachable;
    ManifestEffect(p, chunks, scheduler);
    ManifestReachable(|chunks|);
    var q := PutManifest(p, chunks, scheduler).payload;
    forall i, a | 0 <= i < |chunks| && chunks[i].Range().Holds(a) ensures Peek(q, a) == Peek(p, a) {
      UnderManifest(chunks, i, a);
    }
    forall i | 0 <= i < |chunks|
      ensures Clear(q, chunks[i].start, chunks[i].take) <==> Clear(p, chunks[i].start, chunks[i].take)
    {
      SameClear(p, q, chunks[i].start, chunks[i].take);
    }
  }

  lemma SameClear(p: Payload, q: Payload, start: int, n: nat)
    requires Shaped(p) && Shaped(q) && forall a | start <= a < start + n :: Peek(q, a) == Peek(p, a)
    ensures Clear(q, start, n) <==> Clear(p, start, n)
  {
    hide Peek;
  }

  ghost predicate AllClear(p: Payload, chunks: seq<Chunk>)
    requires Shaped(p)
  {
    Clear(p, MANIFEST.start, 7 + 4 * |chunks|) && ClearChunks(p, chunks, |chunks|)
  }

  lemma PlaceSucceeds(p: Payload, chunks: seq<Chunk>, scheduler: seq<byte>)
    requires Shaped(p) && Spread(p, chunks, scheduler)
    ensures PlaceScheduler(p, chunks, scheduler).error.None? <==> AllClear(p, chunks)
  {
    hide Peek, PutManifest, PutChunks, AllApart, ApartFrom, Reachable, Clear;
    ManifestEffect(p, chunks, scheduler);
    ManifestAside(p, chunks, scheduler);
    ChunksSucceed(PutManifest(p, chunks, scheduler).payload, chunks, scheduler, |chunks|);
  }

  lemma PlaceKeeps(p: Payload, chunks: seq<Chunk>, scheduler: seq<byte>, a: int)
    requires Shaped(p) && Addressed(chunks) && Placeable(chunks, scheduler) && Peek(p, a) != 0
    ensures Peek(PlaceScheduler(p, chunks, scheduler).payload, a) == Peek(p, a)
  {
    hide Peek, PutManifest, PutChunks, Reachable, Clear, Placeable;
    ManifestEffect(p, chunks, scheduler);
    ChunksKeep(PutManifest(p, chunks, scheduler).payload, chunks, scheduler, |chunks|, a);
  }

  lemma PlaceFrame(p: Payload, chunks: seq<Chunk>, scheduler: seq<byte>, a: int)
    requires Shaped(p) && Addressed(chunks) && Placeable(chunks, scheduler)
    requires !(MANIFEST.start <= a < MANIFEST.start + 7 + 4 * |chunks|) && !Hit(chunks, |chunks|, a)
    ensures Peek(PlaceScheduler(p, chunks, scheduler).payload, a) == Peek(p, a)
  {
    hide Peek, PutManifest, PutChunks, Reachable, Clear, Placeable, Hit;
    ManifestEffect(p, chunks, scheduler);
    ChunksFrame(PutManifest(p, chunks, scheduler).payload, chunks, scheduler, |chunks|, a);
  }

  /** The manifest is still there after the chunks are written. */
  lemma ManifestSurvives(q: Payload, chunks: seq<Chunk>, scheduler: seq<byte>)
    requires Shaped(q) && Spread(q, chunks, scheduler) && Shows(q, chunks, scheduler)
    ensures Shows(PutChunks(q, chunks, scheduler, |chunks|).payload, chunks, scheduler)
  {
    assert |chunks| <= 8;
    ManifestReachable(|chunks|);
    hide Peek, PutChunks, Reachable, Clear, Placeable, Hit, Window, ApartFrom;
    var r := PutChunks(q, chunks, scheduler, |chunks|).payload;
    forall a | MANIFEST.Holds(a) ensures Peek(r, a) == Peek(q, a) {
      Uncovered(chunks, a);
      ChunksFrame(q, chunks, scheduler, |chunks|, a);
    }
    SameWindow(q, r, MANIFEST.start, 7 + 4 * |chunks|);
  }

  lemma SameWindow(p: Payload, q: Payload, start: int, n: nat)
    requires Shaped(p) && Shaped(q) && Reachable(start, n)
    requires forall a | start <= a < start + n :: Peek(q, a) == Peek(p, a)
    ensures Window(q, start, n) == Window(p, start, n)
  {
    hide Peek, Window, Reachable;
  }

  lemma Uncovered(chunks: seq<Chunk>, a: int)
    requires ApartFrom(Ranges(chunks), MANIFEST) && MANIFEST.Holds(a)
    ensures !Hit(chunks, |chunks|, a)
  {
    forall i | 0 <= i < |chunks| ensures !chunks[i].Range().Holds(a) {
      if chunks[i].Range().Holds(a) { UnderManifest(chunks, i, a); }
    }
  }

  /** What the receiving side needs: the magic, the checksum, and the whole scheduler. */
  ghost predicate Delivers(p: Payload, scheduler: seq<byte>)
    requires Shaped(p)
  {
    && Stretch(p, 0xACD9, 4) == [0x55, 0x53, 0x43, 0x54]
    && PeekWord(p, 0xACDE) == Sum(scheduler) % 0x10000
    && Gather(p) == scheduler
  }

  lemma PlaceDelivers(p: Payload, chunks: seq<Chunk>, scheduler: seq<byte>)
    requires Shaped(p) && Spread(p, chunks, scheduler) && PlaceScheduler(p, chunks, scheduler).error.None?
    ensures Delivers(PlaceScheduler(p, chunks, scheduler).payload, scheduler)
  {
    hide Peek, PutManifest, PutChunks, Reachable, Clear, Window, ApartFrom, AllApart, Part, Stretch, Sum, GatherTo;
    ManifestEffect(p, chunks, scheduler);
    var q := PutManifest(p, chunks, scheduler).payload;
    ManifestSurvives(q, chunks, scheduler);
    var r := PutChunks(q, chunks, scheduler, |chunks|).payload;
    forall i | 0 <= i < |chunks| ensures Window(r, chunks[i].start, chunks[i].take) == Part(chunks, scheduler, i) {
      ChunksHold(q, chunks, scheduler, |chunks|, i);
    }
    ShownHeader(r, chunks, scheduler);
    GatherPrefix(r, chunks, scheduler, |chunks|);
    assert chunks[..|chunks|] == chunks && scheduler[..|scheduler|] == scheduler;
  }

  lemma LayoutSpread(p: Payload, scheduler: seq<byte>, shadowStart: int, capability: nat, reservedEnd: Option<int>)
    requires Shaped(p) && KERNEL_ADDRESS <= shadowStart
    requires SchedulerLayout(shadowStart, Stage0End(p.boot, reservedEnd), |scheduler|, capability).Placed?
    ensures Spread(p, SchedulerLayout(shadowStart, Stage0End(p.boot, reservedEnd), |scheduler|, capability).chunks,
      scheduler)
  {
    hide SchedulerLayout, FreeRange, Addressed, Placeable;
    LayoutIsSafe(shadowStart, Stage0End(p.boot, reservedEnd), |scheduler|, capability);
    ChunksReachable(p, scheduler, shadowStart, capability, reservedEnd);
  }

  /** The memory of the payload: the boot sector at $0B00 and the staging area at $2000. */
  lemma MemoryIs(p: Payload, a: int)
    requires Shaped(p)
    ensures 0xB00 <= a < 0xC00 ==> Peek(p, a) == p.boot[a - 0xB00]
    ensures 0x2000 <= a < 0xD000 ==> Peek(p, a) == p.kernel[a - 0x2000]
    ensures !(0xB00 <= a < 0xC00) && !(0x2000 <= a < 0xD000) ==> Peek(p, a) == 0
  {
  }

  /** The bytes the other staged parts reserve: up to $CEBF all but three gaps, the capability from the
      shadow area on, and never $CDF0-$CDFF or $CEC0 and up. */
  lemma ReservedIs(shadowStart: int, capability: nat, b: int)
    ensures Copied(Reserved(shadowStart, capability), b) <==>
      || 0xAD00 <= b <= 0xC408 || 0xC4EF <= b <= 0xC789 || 0xC800 <= b <= 0xCDEF || 0xCE00 <= b <= 0xCEBF
      || shadowStart <= b < shadowStart + capability
  {
    var regions := Reserved(shadowStart, capability);
    forall i: nat | i < 8 ensures regions[i] == RESERVED[i] {}
    if 0xAD00 <= b <= 0xADFF { assert regions[0].Copies(b); }
    if 0xAE00 <= b <= 0xAEFF { assert regions[1].Copies(b); }
    if 0xAF00 <= b <= 0xC2FF { assert regions[2].Copies(b); }
    if 0xC300 <= b <= 0xC408 { assert regions[4].Copies(b); }
    if 0xC4EF <= b <= 0xC789 { assert regions[5].Copies(b); }
    if 0xC800 <= b <= 0xCDEF { assert regions[6].Copies(b); }
    if 0xCE00 <= b <= 0xCEBF { assert regions[7].Copies(b); }
    if shadowStart <= b < shadowStart + capability { assert regions[8].Copies(b); }
  }

  /** Stage 0 ends at the last nonzero byte of the boot sector, $0B00 when there is none, or at a later
      reserved end. */
  lemma Stage0EndIs(boot: seq<byte>, reservedEnd: Option<int>)
    requires |boot| == 0x100
    ensures reservedEnd.None? ==>
      var k := Stage0End(boot, None) - 0xB00;
      && 0 <= k < 0x100 && (k == 0 || boot[k] != 0) && forall i | k < i < 0x100 :: boot[i] == 0
    ensures reservedEnd.Some? ==>
      var own := Stage0End(boot, None);
      Stage0End(boot, reservedEnd) == if own < reservedEnd.value then reservedEnd.value else own
  {
  }

  /** An admissible size, a capability that ends below the manifest, and room for all the bytes. */
  ghost predicate Placed(p: Payload, scheduler: seq<byte>, shadowStart: int, capability: nat, reservedEnd: Option<int>)
    requires Shaped(p)
  {
    && 0 < |scheduler| <= 0x400 && shadowStart + capability <= 0xACD9
    && |scheduler| <= Room(shadowStart, Stage0End(p.boot, reservedEnd), capability)
  }

  ghost function Chunks(p: Payload, scheduler: seq<byte>, shadowStart: int, capability: nat,
      reservedEnd: Option<int>): seq<Chunk>
    requires Shaped(p) && KERNEL_ADDRESS <= shadowStart && Placed(p, scheduler, shadowStart, capability, reservedEnd)
  {
    PlacedExactly(shadowStart, Stage0End(p.boot, reservedEnd), |scheduler|, capability);
    SchedulerLayout(shadowStart, Stage0End(p.boot, reservedEnd), |scheduler|, capability).chunks
  }

  /** Installing succeeds exactly when the scheduler has an admissible size, there is room, and every
      byte it needs was zero; success delivers it; the bytes outside are untouched; and whatever
      the outcome, no byte that was nonzero has changed. */
  lemma InstallTheorem(p: Payload, scheduler: seq<byte>, shadowStart: int, capability: nat, reservedEnd: Option<int>)
    requires Shaped(p) && 0x2000 <= shadowStart
    ensures var r := InstallScheduler(p, scheduler, shadowStart, capability, reservedEnd);
      && (r.error.None? <==> Placed(p, scheduler, shadowStart, capability, reservedEnd)
                             && AllClear(p, Chunks(p, scheduler, shadowStart, capability, reservedEnd)))
      && (r.error.None? ==> Delivers(r.payload, scheduler))
      && (forall a :: Peek(p, a) != 0 ==> Peek(r.payload, a) == Peek(p, a))
      && (Placed(p, scheduler, shadowStart, capability, reservedEnd) ==>
            var chunks := Chunks(p, scheduler, shadowStart, capability, reservedEnd);
            forall a | !(0xACD9 <= a < 0xACE0 + 4 * |chunks|) && !Hit(chunks, |chunks|, a) ::
              Peek(r.payload, a) == Peek(p, a))
      && (!Placed(p, scheduler, shadowStart, capability, reservedEnd) ==> r.payload == p)
  {
    hide SchedulerLayout, Peek, PlaceScheduler, AllClear, Delivers, Hit, Spread, Stage0End, Room;
    var r := InstallScheduler(p, scheduler, shadowStart, capability, reservedEnd);
    PlacedExactly(shadowStart, Stage0End(p.boot, reservedEnd), |scheduler|, capability);
    if Placed(p, scheduler, shadowStart, capability, reservedEnd) {
      var chunks := Chunks(p, scheduler, shadowStart, capability, reservedEnd);
      ChunksReachable(p, scheduler, shadowStart, capability, reservedEnd);
      LayoutSpread(p, scheduler, shadowStart, capability, reservedEnd);
      PlaceSucceeds(p, chunks, scheduler);
      if r.error.None? { PlaceDelivers(p, chunks, scheduler); }
      forall a | Peek(p, a) != 0 ensures Peek(r.payload, a) == Peek(p, a) { PlaceKeeps(p, chunks, scheduler, a); }
      forall a | !(MANIFEST.start <= a < MANIFEST.start + 7 + 4 * |chunks|) && !Hit(chunks, |chunks|, a)
        ensures Peek(r.payload, a) == Peek(p, a) { PlaceFrame(p, chunks, scheduler, a); }
    }
  }

  // ----- the boot-sector check never fires

  lemma BootTailClear(p: Payload, h: Hole, reservedEnd: Option<int>)
    requires Shaped(p) && Within(h, BootHole(Stage0End(p.boot, reservedEnd)))
    ensures forall a | h.Holds(a) :: Peek(p, a) == 0
  {
  }

  lemma {:induction false} NoBootOverlap(p: Payload, chunks: seq<Chunk>, scheduler: seq<byte>, n: nat)
    requires Shaped(p) && Placeable(chunks, scheduler) && n <= |chunks| && AllApart(Ranges(chunks))
    requires forall i | 0 <= i < |chunks| && chunks[i].start <= BOOT_SECTOR_END ::
      Clear(p, chunks[i].start, chunks[i].take)
    ensures PutChunks(p, chunks, scheduler, n).error != Some(BootOverlap)
    decreases n
  {
    hide Clear, AllApart, AllZero, Window, Reachable, Part, PutAt;
    if n > 0 {
      NoBootOverlap(p, chunks, scheduler, n - 1);
      TurnClear(p, chunks, scheduler, n - 1);
    }
  }

  lemma BootChunksClear(p: Payload, chunks: seq<Chunk>, size: nat, shadowStart: int, capability: nat,
      reservedEnd: Option<int>)
    requires Shaped(p) && KERNEL_ADDRESS <= shadowStart
    requires SafeChunks(chunks, size, shadowStart, Stage0End(p.boot, reservedEnd), capability)
    ensures forall i | 0 <= i < |chunks| && chunks[i].start <= BOOT_SECTOR_END ::
      Clear(p, chunks[i].start, chunks[i].take)
  {
    hide Peek, Stage0End, AllApart, ApartFrom, Copied;
    forall i | 0 <= i < |chunks| && chunks[i].start <= BOOT_SECTOR_END
      ensures Clear(p, chunks[i].start, chunks[i].take)
    {
      assert FreeRange(chunks[i].Range(), shadowStart, Stage0End(p.boot, reservedEnd), capability);
      BootTailClear(p, chunks[i].Range(), reservedEnd);
      assert forall a | chunks[i].start <= a < chunks[i].start + chunks[i].take :: chunks[i].Range().Holds(a);
    }
  }

  /** Stage 0 ends at the last nonzero boot byte, so what follows is always free. */
  lemma BootSectorAlwaysClear(p: Payload, scheduler: seq<byte>, shadowStart: int, capability: nat,
      reservedEnd: Option<int>)
    requires Shaped(p) && 0x2000 <= shadowStart
    ensures InstallScheduler(p, scheduler, shadowStart, capability, reservedEnd).error != Some(BootOverlap)
  {
    hide SchedulerLayout, Peek, PutChunks, PutManifest, Stage0End, SafeChunks, Clear, AllApart, ApartFrom, Room;
    PlacedExactly(shadowStart, Stage0End(p.boot, reservedEnd), |scheduler|, capability);
    if Placed(p, scheduler, shadowStart, capability, reservedEnd) {
      var chunks := Chunks(p, scheduler, shadowStart, capability, reservedEnd);
      ChunksReachable(p, scheduler, shadowStart, capability, reservedEnd);
      LayoutSpread(p, scheduler, shadowStart, capability, reservedEnd);
      LayoutIsSafe(shadowStart, Stage0End(p.boot, reservedEnd), |scheduler|, capability);
      BootChunksClear(p, chunks, |scheduler|, shadowStart, capability, reservedEnd);
      ManifestEffect(p, chunks, scheduler);
      ManifestAside(p, chunks, scheduler);
      NoBootOverlap(PutManifest(p, chunks, scheduler).payload, chunks, scheduler, |chunks|);
    }
  }

  // ----- the reported ceiling

  /** On an empty payload, with a reserved end just past the boot sector and no byte left below the
      manifest, a scheduler of 428 bytes is installed although the reported ceiling is 427. */
  lemma CeilingTooLow(scheduler: seq<byte>)
    requires |scheduler| == 428
    ensures var p := Payload(Zeros(0xB000), Zeros(0x100));
      var layout := SchedulerLayout(0xACD9, Stage0End(p.boot, Some(0xC00)), 428, 0);
      && InstallScheduler(p, scheduler, 0xACD9, 0, Some(0xC00)).error.None?
      && layout.Placed? && layout.ceiling == 427
  {
    hide SchedulerLayout, InstallScheduler;
    var p := Payload(Zeros(0xB000), Zeros(0x100));
    assert Stage0End(p.boot, Some(0xC00)) == 0xC00;
    PlacedExactly(0xACD9, 0xC00, 428, 0);
    InstallTheorem(p, scheduler, 0xACD9, 0, Some(0xC00));
    assert forall a :: Peek(p, a) == 0;
  }
}
