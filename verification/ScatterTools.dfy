/** The scheduler installer as it runs: the two buffers are written in place. */
module ScatterTools {
  import opened Bytes
  import opened Holes
  import opened Scatter
  import opened ScatterInstall

  method AnySet(buffer: array<byte>, from: nat, n: nat) returns (any: bool)
    requires from + n <= buffer.Length
    ensures any <==> !AllZero(buffer[from..from + n])
  {
    for i := from to from + n
      invariant forall j | from <= j < i :: buffer[j] == 0
    {
      if buffer[i] != 0 {
        assert buffer[from..from + n][i - from] != 0;
        return true;
      }
    }
    return false;
  }

  method LastSetIn(boot: array<byte>) returns (last: nat)
    ensures last == LastSet(boot[..], boot.Length)
  {
    last := 0;
    for i := 0 to boot.Length
      invariant last == LastSet(boot[..], i)
    {
      if boot[i] != 0 { last := i; }
    }
  }

  method Checksum(data: seq<byte>) returns (sum: nat)
    ensures sum == Sum(data)
  {
    sum := 0;
    for i := 0 to |data|
      invariant sum == Sum(data[..i])
    {
      assert data[..i + 1][..i] == data[..i];
      sum := sum + data[i];
    }
    assert data[..|data|] == data;
  }

  method BuildManifest(chunks: seq<Chunk>, scheduler: seq<byte>) returns (manifest: seq<byte>)
    requires Addressed(chunks)
    ensures manifest == Manifest(chunks, scheduler)
  {
    var sum := Checksum(scheduler);
    manifest := USCT + [|chunks|] + Le16(sum % 0x10000);
    ghost var head := manifest;
    for i := 0 to |chunks|
      invariant Addressed(chunks[..i]) && manifest == head + Entries(chunks[..i])
    {
      assert chunks[..i + 1][..i] == chunks[..i] && chunks[..i + 1][i] == chunks[i];
      manifest := manifest + Le16(chunks[i].start) + Le16(chunks[i].take);
    }
    assert chunks[..|chunks|] == chunks;
  }

  /** Writes data over zero bytes of whichever buffer holds the address. */
  method PutInPlace(kernel: array<byte>, boot: array<byte>, start: int, data: seq<byte>) returns (ok: bool)
    requires kernel != boot && Shaped(Payload(kernel[..], boot[..])) && Reachable(start, |data|)
    modifies kernel, boot
    ensures ok <==> AllZero(Window(old(Payload(kernel[..], boot[..])), start, |data|))
    ensures Payload(kernel[..], boot[..]) ==
      if ok then PutAt(old(Payload(kernel[..], boot[..])), start, data) else old(Payload(kernel[..], boot[..]))
  {
    var any;
    if start <= BOOT_SECTOR_END {
      any := AnySet(boot, start - BOOT_BASE, |data|);
      if any { return false; }
      Store(boot, start - BOOT_BASE, data);
    } else {
      any := AnySet(kernel, start - KERNEL_ADDRESS, |data|);
      if any { return false; }
      Store(kernel, start - KERNEL_ADDRESS, data);
    }
    return true;
  }

  method PutChunksInPlace(kernel: array<byte>, boot: array<byte>, chunks: seq<Chunk>, scheduler: seq<byte>)
    returns (error: Option<InstallError>)
    requires kernel != boot && Shaped(Payload(kernel[..], boot[..])) && Placeable(chunks, scheduler)
    modifies kernel, boot
    ensures Installed(Payload(kernel[..], boot[..]), error) ==
      PutChunks(old(Payload(kernel[..], boot[..])), chunks, scheduler, |chunks|)
  {
    hide AllZero, Window, PutAt, Reachable;
    ghost var p := Payload(kernel[..], boot[..]);
    var offset := 0;
    TotalPrefix(chunks, 0);
    for i := 0 to |chunks|
      invariant Shaped(Payload(kernel[..], boot[..])) && offset == Total(chunks[..i]) <= |scheduler|
      invariant PutChunks(p, chunks, scheduler, i) == Installed(Payload(kernel[..], boot[..]), None)
    {
      TotalPrefix(chunks, i);
      var c := chunks[i];
      var data := scheduler[offset..offset + c.take];
      assert data == Part(chunks, scheduler, i);
      var ok := PutInPlace(kernel, boot, c.start, data);
      if !ok {
        error := Some(if c.start <= BOOT_SECTOR_END then BootOverlap else KernelOverlap);
        ChunksStop(p, chunks, scheduler, i + 1, |chunks|);
        return;
      }
      offset := offset + c.take;
    }
    return None;
  }

  lemma {:induction false} ChunksStop(p: Payload, chunks: seq<Chunk>, scheduler: seq<byte>, n: nat, k: nat)
    requires Shaped(p) && Placeable(chunks, scheduler) && n <= k <= |chunks|
    requires PutChunks(p, chunks, scheduler, n).error.Some?
    ensures PutChunks(p, chunks, scheduler, k) == PutChunks(p, chunks, scheduler, n)
    decreases k
  {
    hide PutChunk, Part, Reachable, Placeable, Total, Shaped;
    if n < k { ChunksStop(p, chunks, scheduler, n, k - 1); }
  }

  method InstallSchedulerInPlace(kernel: array<byte>, boot: array<byte>, scheduler: seq<byte>,
                                 shadowStart: int, capability: nat, reservedEnd: Option<int>)
    returns (error: Option<InstallError>)
    requires kernel != boot && Shaped(Payload(kernel[..], boot[..])) && KERNEL_ADDRESS <= shadowStart
    modifies kernel, boot
    ensures Installed(Payload(kernel[..], boot[..]), error) ==
      InstallScheduler(old(Payload(kernel[..], boot[..])), scheduler, shadowStart, capability, reservedEnd)
  {
    hide SchedulerLayout, Placeable, PutChunks, Window, PutAt, AllZero, LastSet, Manifest;
    ghost var p := Payload(kernel[..], boot[..]);
    if |scheduler| > SCHEDULER_MAX { return Some(TooLarge); }
    if scheduler == [] { return Some(Empty); }
    var last := LastSetIn(boot);
    var stage0End := BOOT_BASE + last;
    if reservedEnd.Some? { stage0End := Max(stage0End, reservedEnd.value); }
    var layout := LayOut(shadowStart, stage0End, |scheduler|, capability);
    if layout.Refused? { return Some(NoLayout(layout.error)); }
    ChunksReachable(p, scheduler, shadowStart, capability, reservedEnd);
    var manifest := BuildManifest(layout.chunks, scheduler);
    var ok := PutInPlace(kernel, boot, MANIFEST.start, manifest);
    if !ok { return Some(ManifestOverlap); }
    error := PutChunksInPlace(kernel, boot, layout.chunks, scheduler);
  }
}
