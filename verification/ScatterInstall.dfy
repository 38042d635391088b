/** Scattering the scheduler over the payload: `install_scheduler` (build_d71.py). */
module ScatterInstall {
  import opened Bytes
  import opened Holes
  import opened Scatter
  import opened ScatterProofs

  const BOOT_BASE: int := 0x0B00
  const SCHEDULER_MAX: nat := 0x0400

  /** The kernel staging area from $2000 on and the boot sector from $0B00 on. */
  datatype Payload = Payload(kernel: seq<byte>, boot: seq<byte>)

  predicate Shaped(p: Payload) { |p.kernel| == 0xB000 && |p.boot| == 0x100 }

  function Peek(p: Payload, a: int): byte
    requires Shaped(p)
  {
    if BOOT_BASE <= a < BOOT_BASE + 0x100 then p.boot[a - BOOT_BASE]
    else if KERNEL_ADDRESS <= a < KERNEL_ADDRESS + 0xB000 then p.kernel[a - KERNEL_ADDRESS]
    else 0
  }

  predicate InBoot(start: int, n: nat) { BOOT_BASE <= start <= BOOT_SECTOR_END && start + n <= BOOT_SECTOR_END + 1 }

  predicate InKernel(start: int, n: nat) { KERNEL_ADDRESS <= start && start + n <= KERNEL_ADDRESS + 0xB000 }

  predicate Reachable(start: int, n: nat) { InBoot(start, n) || InKernel(start, n) }

  ghost predicate Clear(p: Payload, start: int, n: nat)
    requires Shaped(p)
  {
    forall a | start <= a < start + n :: Peek(p, a) == 0
  }

  function PutAt(p: Payload, start: int, data: seq<byte>): (q: Payload)
    requires Shaped(p) && Reachable(start, |data|)
    ensures Shaped(q)
    ensures forall a :: Peek(q, a) == if start <= a < start + |data| then data[a - start] else Peek(p, a)
  {
    if start <= BOOT_SECTOR_END then Payload(p.kernel, Splice(p.boot, start - BOOT_BASE, data))
    else Payload(Splice(p.kernel, start - KERNEL_ADDRESS, data), p.boot)
  }

  function Window(p: Payload, start: int, n: nat): (s: seq<byte>)
    requires Shaped(p) && Reachable(start, n)
    ensures |s| == n && forall i | 0 <= i < n :: s[i] == Peek(p, start + i)
  {
    if start <= BOOT_SECTOR_END then p.boot[start - BOOT_BASE..start - BOOT_BASE + n]
    else p.kernel[start - KERNEL_ADDRESS..start - KERNEL_ADDRESS + n]
  }

  lemma WindowClear(p: Payload, start: int, n: nat)
    requires Shaped(p) && Reachable(start, n)
    ensures AllZero(Window(p, start, n)) <==> Clear(p, start, n)
  {
    hide Peek, Reachable;
    var s := Window(p, start, n);
    if AllZero(s) {
      forall a | start <= a < start + n ensures Peek(p, a) == 0 { assert s[a - start] == Peek(p, start + (a - start)); }
    }
  }

  datatype InstallError =
    | TooLarge | Empty | NoLayout(cause: LayoutError) | ManifestOverlap | BootOverlap | KernelOverlap

  datatype Installed = Installed(payload: Payload, error: Option<InstallError>)

  /** Highest nonzero offset among the first n bytes, or zero. */
  function LastSet(boot: seq<byte>, n: nat): (k: nat)
    requires n <= |boot|
    ensures forall i | k < i < n :: boot[i] == 0
    ensures k > 0 ==> k < n && boot[k] != 0
    decreases n
  {
    if n == 0 then 0 else if boot[n - 1] != 0 then n - 1 else LastSet(boot, n - 1)
  }

  function Stage0End(boot: seq<byte>, reservedEnd: Option<int>): int {
    var last := BOOT_BASE + LastSet(boot, |boot|);
    if reservedEnd.Some? then Max(last, reservedEnd.value) else last
  }

  predicate Addressed(chunks: seq<Chunk>) {
    |chunks| <= 8 && forall i | 0 <= i < |chunks| :: 0 <= chunks[i].start < 0x10000 && chunks[i].take < 0x10000
  }

  function Entries(chunks: seq<Chunk>): (s: seq<byte>)
    requires Addressed(chunks)
    ensures |s| == 4 * |chunks|
  {
    if chunks == [] then [] else
      var last := chunks[|chunks| - 1];
      Entries(chunks[..|chunks| - 1]) + Le16(last.start) + Le16(last.take)
  }

  const USCT: seq<byte> := [0x55, 0x53, 0x43, 0x54]

  function Manifest(chunks: seq<Chunk>, scheduler: seq<byte>): (s: seq<byte>)
    requires Addressed(chunks)
    ensures |s| == 7 + 4 * |chunks|
  {
    USCT + [|chunks|] + Le16(Sum(scheduler) % 0x10000) + Entries(chunks)
  }

  // ----- the operation

  ghost predicate Placeable(chunks: seq<Chunk>, scheduler: seq<byte>) {
    && Total(chunks) == |scheduler|
    && forall i | 0 <= i < |chunks| :: chunks[i].take > 0 && Reachable(chunks[i].start, chunks[i].take)
  }

  lemma {:induction false} TotalPrefix(chunks: seq<Chunk>, n: nat)
    requires n <= |chunks|
    ensures Total(chunks[..n]) <= Total(chunks)
    ensures n < |chunks| ==>
      Total(chunks[..n + 1]) == Total(chunks[..n]) + chunks[n].take && Total(chunks[..n + 1]) <= Total(chunks)
    decreases |chunks| - n
  {
    if n < |chunks| {
      TotalPrefix(chunks, n + 1);
      assert chunks[..n + 1][..n] == chunks[..n];
    } else {
      assert chunks[..n] == chunks;
    }
  }

  ghost function Part(chunks: seq<Chunk>, scheduler: seq<byte>, n: nat): (d: seq<byte>)
    requires Total(chunks) == |scheduler| && n < |chunks|
    ensures |d| == chunks[n].take
  {
    TotalPrefix(chunks, n);
    scheduler[Total(chunks[..n])..Total(chunks[..n]) + chunks[n].take]
  }

  /** One chunk is written only over zero bytes. */
  ghost function PutChunk(p: Payload, c: Chunk, data: seq<byte>): (r: Installed)
    requires Shaped(p) && Reachable(c.start, c.take) && |data| == c.take
    ensures Shaped(r.payload)
  {
    if !AllZero(Window(p, c.start, c.take)) then
      Installed(p, Some(if c.start <= BOOT_SECTOR_END then BootOverlap else KernelOverlap))
    else Installed(PutAt(p, c.start, data), None)
  }

  /** The first n rounds of the chunk loop. */
  ghost function PutChunks(p: Payload, chunks: seq<Chunk>, scheduler: seq<byte>, n: nat): (r: Installed)
    requires Shaped(p) && Placeable(chunks, scheduler) && n <= |chunks|
    ensures Shaped(r.payload)
    decreases n
  {
    if n == 0 then Installed(p, None) else
      var r := PutChunks(p, chunks, scheduler, n - 1);
      if r.error.Some? then r else PutChunk(r.payload, chunks[n - 1], Part(chunks, scheduler, n - 1))
  }

  ghost function PutManifest(p: Payload, chunks: seq<Chunk>, scheduler: seq<byte>): (r: Installed)
    requires Shaped(p) && Addressed(chunks)
    ensures Shaped(r.payload)
  {
    if !AllZero(Window(p, MANIFEST.start, 7 + 4 * |chunks|)) then Installed(p, Some(ManifestOverlap))
    else Installed(PutAt(p, MANIFEST.start, Manifest(chunks, scheduler)), None)
  }

  ghost function PlaceScheduler(p: Payload, chunks: seq<Chunk>, scheduler: seq<byte>): (r: Installed)
    requires Shaped(p) && Addressed(chunks) && Placeable(chunks, scheduler)
    ensures Shaped(r.payload)
  {
    var r := PutManifest(p, chunks, scheduler);
    if r.error.Some? then r else PutChunks(r.payload, chunks, scheduler, |chunks|)
  }

  /** `install_scheduler`. */
  ghost function InstallScheduler(p: Payload, scheduler: seq<byte>, shadowStart: int, capability: nat,
      reservedEnd: Option<int>): (r: Installed)
    requires Shaped(p) && KERNEL_ADDRESS <= shadowStart
    ensures Shaped(r.payload)
  {
    if |scheduler| > SCHEDULER_MAX then Installed(p, Some(TooLarge))
    else if scheduler == [] then Installed(p, Some(Empty))
    else
      var stage0End := Stage0End(p.boot, reservedEnd);
      var layout := SchedulerLayout(shadowStart, stage0End, |scheduler|, capability);
      if layout.Refused? then Installed(p, Some(NoLayout(layout.error)))
      else
        ChunksReachable(p, scheduler, shadowStart, capability, reservedEnd);
        PlaceScheduler(p, layout.chunks, scheduler)
  }

  lemma ChunksReachable(p: Payload, scheduler: seq<byte>, shadowStart: int, capability: nat, reservedEnd: Option<int>)
    requires Shaped(p) && KERNEL_ADDRESS <= shadowStart
    requires SchedulerLayout(shadowStart, Stage0End(p.boot, reservedEnd), |scheduler|, capability).Placed?
    ensures var chunks := SchedulerLayout(shadowStart, Stage0End(p.boot, reservedEnd), |scheduler|, capability).chunks;
      Addressed(chunks) && Placeable(chunks, scheduler)
  {
    hide SchedulerLayout, Copied, AllApart;
    var stage0End := Stage0End(p.boot, reservedEnd);
    var chunks := SchedulerLayout(shadowStart, stage0End, |scheduler|, capability).chunks;
    LayoutIsSafe(shadowStart, stage0End, |scheduler|, capability);
    forall i | 0 <= i < |chunks|
      ensures chunks[i].take > 0 && Reachable(chunks[i].start, chunks[i].take)
      ensures 0 <= chunks[i].start < 0x10000 && chunks[i].take < 0x10000
    {
      assert FreeRange(chunks[i].Range(), shadowStart, stage0End, capability);
    }
  }
}
