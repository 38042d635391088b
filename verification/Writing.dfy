/** Writing a file's sectors: one block at a time, linked to the next, marked used. */
module Writing {
  import opened Bytes
  import opened Geometry
  import opened Bam
  import opened DiskRead

  /** Bytes [index*254 : (index+1)*254] of the data. */
  function Chunk(data: seq<byte>, index: nat): (c: seq<byte>)
    ensures |c| <= 254
  {
    var lo := if index * 254 <= |data| then index * 254 else |data|;
    var hi := if (index + 1) * 254 <= |data| then (index + 1) * 254 else |data|;
    data[lo..hi]
  }

  /** The link of the next block, or zero and the offset of the last byte used. */
  function Link(chain: seq<Loc>, data: seq<byte>, index: nat): (s: seq<byte>)
    requires index < |chain| && forall l | l in chain :: l.track < 256 && l.sector < 256
    ensures |s| == 2
  {
    if index + 1 < |chain| then [chain[index + 1].track, chain[index + 1].sector]
    else [0, |Chunk(data, index)| + 1]
  }

  /** What each sector of a file's chain holds: its link and its part of the data. */
  function FileBlocks(chain: seq<Loc>, data: seq<byte>): (blocks: seq<seq<byte>>)
    requires forall l | l in chain :: l.track < 256 && l.sector < 256
    ensures SectorBlocks(chain, blocks)
  {
    seq(|chain|, i requires 0 <= i < |chain| => Link(chain, data, i) + Chunk(data, i))
  }

  ghost predicate OnDisk(f: Format, chain: seq<Loc>) {
    forall l | l in chain :: InDisk(f, l) && l.track < 256 && l.sector < 256
  }

  /** One block of at most 256 bytes for each sector. */
  predicate SectorBlocks(chain: seq<Loc>, blocks: seq<seq<byte>>) {
    |blocks| == |chain| && forall i | 0 <= i < |blocks| :: |blocks[i]| <= 256
  }

  function WriteBlock(f: Format, img: seq<byte>, chain: seq<Loc>, blocks: seq<seq<byte>>, index: nat): (o: Outcome)
    requires |img| >= Size(f) && OnDisk(f, chain) && SectorBlocks(chain, blocks) && index < |chain|
    ensures |o.image| == |img|
    ensures o.Failed? ==> o.error == CountUnderflow
  {
    SectorInImage(f, chain[index]);
    MarkUsed(f, Splice(img, Offset(f, chain[index]), blocks[index]), chain[index])
  }

  /** The image after the first n blocks. */
  function WriteChain(f: Format, img: seq<byte>, chain: seq<Loc>, blocks: seq<seq<byte>>, n: nat): (o: Outcome)
    requires |img| >= Size(f) && OnDisk(f, chain) && SectorBlocks(chain, blocks) && n <= |chain|
    ensures |o.image| == |img|
    ensures o.Failed? ==> o.error == CountUnderflow
    decreases n
  {
    if n == 0 then Done(img) else
      var o := WriteChain(f, img, chain, blocks, n - 1);
      if o.Failed? then o else WriteBlock(f, o.image, chain, blocks, n - 1)
  }

  method WriteChainInPlace(f: Format, image: array<byte>, chain: seq<Loc>, blocks: seq<seq<byte>>)
      returns (error: Option<DiskError>)
    requires image.Length >= Size(f) && OnDisk(f, chain) && SectorBlocks(chain, blocks)
    modifies image
    ensures image[..] == WriteChain(f, old(image[..]), chain, blocks, |chain|).image
    ensures error.None? <==> WriteChain(f, old(image[..]), chain, blocks, |chain|).Done?
    ensures error.Some? ==> error.value == CountUnderflow
  {
    hide SectorsBefore, MarkUsed, IsFree;
    ghost var before := image[..];
    for index := 0 to |chain|
      invariant WriteChain(f, before, chain, blocks, index) == Done(image[..])
    {
      var l := chain[index];
      SectorInImage(f, l);
      Store(image, Offset(f, l), blocks[index]);
      error := MarkUsedInPlace(f, image, l);
      if error.Some? {
        StaysFailed(f, before, chain, blocks, index + 1, |chain|);
        return error;
      }
    }
    return None;
  }

  lemma {:induction false} StaysFailed(f: Format, img: seq<byte>, chain: seq<Loc>, blocks: seq<seq<byte>>, n: nat,
      m: nat)
    requires |img| >= Size(f) && OnDisk(f, chain) && SectorBlocks(chain, blocks) && n <= m <= |chain|
    requires WriteChain(f, img, chain, blocks, n).Failed?
    ensures WriteChain(f, img, chain, blocks, m) == WriteChain(f, img, chain, blocks, n)
    decreases m
  {
    hide WriteBlock, SectorsBefore, InDisk, Size;
    if n < m { StaysFailed(f, img, chain, blocks, n, m - 1); }
  }

  // ----- effect of the writes on a sound BAM

  /** b differs from a only in the sectors `written`, which are no longer free, and in the BAM. */
  ghost predicate WroteOnly(f: Format, a: seq<byte>, b: seq<byte>, written: set<Loc>) {
    && |a| >= Size(f) && |b| == |a| && BamSound(f, b)
    && (forall m :: IsFree(f, b, m) <==> IsFree(f, a, m) && m !in written)
    && (forall m | InDisk(f, m) && !IsBam(f, m) && m !in written :: SameSector(f, a, b, m))
  }

  lemma WroteMore(f: Format, a: seq<byte>, b: seq<byte>, c: seq<byte>, s: set<Loc>, t: set<Loc>)
    requires WroteOnly(f, a, b, s) && WroteOnly(f, b, c, t)
    ensures WroteOnly(f, a, c, s + t)
  {
    forall m | InDisk(f, m) && !IsBam(f, m) && m !in s + t ensures SameSector(f, a, c, m) {
      assert SameSector(f, a, b, m) && SameSector(f, b, c, m);
      SectorInImage(f, m);
    }
  }

  /** Overwriting a free sector and marking it used. */
  lemma WriteAndMark(f: Format, img: seq<byte>, l: Loc, bytes: seq<byte>)
    requires InDisk(f, l) && !IsBam(f, l) && BamSound(f, img) && IsFree(f, img, l) && |bytes| <= 256
    requires Offset(f, l) + |bytes| <= |img|
    ensures var o := MarkUsed(f, Splice(img, Offset(f, l), bytes), l);
      && o.Done?
      && WroteOnly(f, img, o.image, {l})
      && FreeBlocks(f, o.image, Tracks(f)) == FreeBlocks(f, img, Tracks(f)) - 1
      && forall i | 0 <= i < |bytes| :: ByteAt(f, o.image, l, i) == bytes[i]
  {
    hide SectorsBefore, MarkUsed, FreeBlocks, IsBam, TestBit, BitPos, SectorsPerTrack;
    var a := Splice(img, Offset(f, l), bytes);
    WriteFrame(f, img, a, l);
    MarkUsedSteps(f, a, l);
    MarkUsedKeepsSound(f, a, l);
    MarkUsedCharges(f, a, l, Tracks(f));
    var b := MarkUsed(f, a, l).image;
    forall m ensures IsFree(f, b, m) <==> IsFree(f, img, m) && m !in {l} { MarkUsedFreedom(f, a, l, m); }
    forall m | InDisk(f, m) && !IsBam(f, m) ensures SameSector(f, a, b, m) { MarkUsedFrame(f, a, l, m); }
    WriteAndMarkFrame(f, img, a, b, l);
    SameBytes(f, a, b, l);
    SectorInImage(f, l);
  }

  lemma WriteAndMarkFrame(f: Format, img: seq<byte>, a: seq<byte>, b: seq<byte>, l: Loc)
    requires |img| >= Size(f) && |a| == |img| && |b| == |img|
    requires forall m | InDisk(f, m) && m != l :: SameSector(f, img, a, m)
    requires forall m | InDisk(f, m) && !IsBam(f, m) :: SameSector(f, a, b, m)
    ensures forall m | InDisk(f, m) && !IsBam(f, m) && m !in {l} :: SameSector(f, img, b, m)
  {
    forall m | InDisk(f, m) && !IsBam(f, m) && m != l ensures SameSector(f, img, b, m) {
      assert SameSector(f, img, a, m) && SameSector(f, a, b, m);
      SectorInImage(f, m);
    }
  }

  // ----- a whole chain

  /** The chain may be written: distinct free sectors outside the BAM. */
  ghost predicate Writable(f: Format, img: seq<byte>, chain: seq<Loc>) {
    && BamSound(f, img) && OnDisk(f, chain) && Distinct(chain)
    && forall l | l in chain :: IsFree(f, img, l) && !IsBam(f, l)
  }

  ghost predicate HoldsBlock(f: Format, img: seq<byte>, chain: seq<Loc>, blocks: seq<seq<byte>>, j: nat)
    requires |img| >= Size(f) && OnDisk(f, chain) && SectorBlocks(chain, blocks) && j < |chain|
  {
    forall i | 0 <= i < |blocks[j]| :: ByteAt(f, img, chain[j], i) == blocks[j][i]
  }

  /** The first n sectors of a chain, as a set. */
  ghost function First(s: seq<Loc>, n: nat): set<Loc>
    requires n <= |s|
    decreases n
  {
    if n == 0 then {} else First(s, n - 1) + {s[n - 1]}
  }

  lemma {:induction false} FirstHolds(s: seq<Loc>, n: nat, l: Loc)
    requires n <= |s|
    ensures l in First(s, n) <==> exists i | 0 <= i < n :: s[i] == l
    decreases n
  {
    if n > 0 { FirstHolds(s, n - 1, l); }
  }

  lemma WriteBlockEffect(f: Format, img: seq<byte>, chain: seq<Loc>, blocks: seq<seq<byte>>, index: nat)
    requires BamSound(f, img) && OnDisk(f, chain) && SectorBlocks(chain, blocks) && index < |chain|
    requires InDisk(f, chain[index]) && !IsBam(f, chain[index]) && IsFree(f, img, chain[index])
    ensures var o := WriteBlock(f, img, chain, blocks, index);
      && o.Done?
      && WroteOnly(f, img, o.image, {chain[index]})
      && FreeBlocks(f, o.image, Tracks(f)) == FreeBlocks(f, img, Tracks(f)) - 1
      && HoldsBlock(f, o.image, chain, blocks, index)
  {
    hide SectorsBefore, MarkUsed, IsFree, TrackSound, FreeBlocks, IsBam, SectorsPerTrack, WroteOnly;
    SectorInImage(f, chain[index]);
    WriteAndMark(f, img, chain[index], blocks[index]);
  }

  /** Writing n blocks on a sound BAM never fails, charges n free blocks, and leaves each block in
      its sector. */
  lemma {:induction false} WriteChainEffect(f: Format, img: seq<byte>, chain: seq<Loc>, blocks: seq<seq<byte>>, n: nat)
    requires Writable(f, img, chain) && SectorBlocks(chain, blocks) && n <= |chain|
    ensures var o := WriteChain(f, img, chain, blocks, n);
      && o.Done?
      && WroteOnly(f, img, o.image, First(chain, n))
      && FreeBlocks(f, o.image, Tracks(f)) == FreeBlocks(f, img, Tracks(f)) - n
      && forall j | 0 <= j < n :: HoldsBlock(f, o.image, chain, blocks, j)
    decreases n
  {
    hide WriteChain, WriteBlock, FreeBlocks, HoldsBlock, WroteOnly, First, SectorBlocks, OnDisk, IsFree, Distinct,
      TrackSound;
    if n == 0 {
      NothingWritten(f, img, chain, blocks);
    } else {
      WriteChainEffect(f, img, chain, blocks, n - 1);
      WriteOneMore(f, img, WriteChain(f, img, chain, blocks, n - 1).image, chain, blocks, n - 1);
      ChainStep(f, img, chain, blocks, n);
    }
  }

  lemma ChainStep(f: Format, img: seq<byte>, chain: seq<Loc>, blocks: seq<seq<byte>>, n: nat)
    requires |img| >= Size(f) && OnDisk(f, chain) && SectorBlocks(chain, blocks) && 0 < n <= |chain|
    requires WriteChain(f, img, chain, blocks, n - 1).Done?
    ensures WriteChain(f, img, chain, blocks, n) ==
      WriteBlock(f, WriteChain(f, img, chain, blocks, n - 1).image, chain, blocks, n - 1)
  {
    hide WriteBlock, OnDisk, SectorBlocks;
  }

  lemma WriteOneMore(f: Format, img: seq<byte>, a: seq<byte>, chain: seq<Loc>, blocks: seq<seq<byte>>, n: nat)
    requires Writable(f, img, chain) && SectorBlocks(chain, blocks) && n < |chain|
    requires |a| >= Size(f) && WroteOnly(f, img, a, First(chain, n))
    requires forall j | 0 <= j < n :: HoldsBlock(f, a, chain, blocks, j)
    ensures var o := WriteBlock(f, a, chain, blocks, n);
      && o.Done?
      && WroteOnly(f, img, o.image, First(chain, n + 1))
      && FreeBlocks(f, o.image, Tracks(f)) == FreeBlocks(f, a, Tracks(f)) - 1
      && forall j | 0 <= j < n + 1 :: HoldsBlock(f, o.image, chain, blocks, j)
  {
    hide WriteBlock, IsFree, BamSound, FreeBlocks, IsBam, Size, InDisk, Tracks, HoldsBlock, WroteOnly, Distinct;
    NextIsFree(f, img, a, chain, n);
    WriteBlockEffect(f, a, chain, blocks, n);
    var b := WriteBlock(f, a, chain, blocks, n).image;
    WroteMore(f, img, a, b, First(chain, n), {chain[n]});
    forall j | 0 <= j < n ensures HoldsBlock(f, b, chain, blocks, j) {
      StillHolds(f, img, a, b, chain, blocks, j, n);
    }
  }

  lemma NextIsFree(f: Format, img: seq<byte>, a: seq<byte>, chain: seq<Loc>, n: nat)
    requires Writable(f, img, chain) && n < |chain| && WroteOnly(f, img, a, First(chain, n))
    ensures InDisk(f, chain[n]) && !IsBam(f, chain[n]) && IsFree(f, a, chain[n]) && BamSound(f, a)
  {
    FirstHolds(chain, n, chain[n]);
    assert chain[n] in chain;
  }

  lemma NothingWritten(f: Format, img: seq<byte>, chain: seq<Loc>, blocks: seq<seq<byte>>)
    requires Writable(f, img, chain) && SectorBlocks(chain, blocks)
    ensures WriteChain(f, img, chain, blocks, 0) == Done(img) && WroteOnly(f, img, img, First(chain, 0))
  {
  }

  lemma StillHolds(f: Format, img: seq<byte>, a: seq<byte>, b: seq<byte>, chain: seq<Loc>, blocks: seq<seq<byte>>,
      j: nat, n: nat)
    requires Writable(f, img, chain) && SectorBlocks(chain, blocks) && j < n < |chain| && WroteOnly(f, a, b, {chain[n]})
    requires HoldsBlock(f, a, chain, blocks, j)
    ensures HoldsBlock(f, b, chain, blocks, j)
  {
    hide IsFree, BamSound, SectorsBefore;
    assert chain[j] in chain && chain[j] != chain[n];
    SameBytes(f, a, b, chain[j]);
  }

  /** The number of blocks a stream needs: at least one, 254 bytes each. */
  function Blocks(data: seq<byte>): (n: nat)
    ensures n > 0 && |data| <= 254 * n
    ensures n == 1 || 254 * (n - 1) < |data|
  {
    if (|data| + 253) / 254 == 0 then 1 else (|data| + 253) / 254
  }

  /** A chain holding all its blocks is linked, and reads back as exactly the data. */
  lemma ChainHolds(f: Format, img: seq<byte>, chain: seq<Loc>, data: seq<byte>)
    requires |img| >= Size(f) && OnDisk(f, chain) && |chain| == Blocks(data)
    requires forall j | 0 <= j < |chain| :: HoldsBlock(f, img, chain, FileBlocks(chain, data), j)
    ensures Linked(f, img, chain) && Gather(f, img, chain, 0) == data
  {
    forall i | 0 <= i < |chain| ensures InDisk(f, chain[i]) && LinksOn(f, img, chain, i) {
      BlockReads(f, img, chain, data, i);
    }
    GatherHeld(f, img, chain, data, 0);
    assert data[0..] == data;
  }

  lemma BlockReads(f: Format, img: seq<byte>, chain: seq<Loc>, data: seq<byte>, i: nat)
    requires |img| >= Size(f) && OnDisk(f, chain) && |chain| == Blocks(data) && i < |chain|
    requires HoldsBlock(f, img, chain, FileBlocks(chain, data), i)
    ensures InDisk(f, chain[i]) && LinksOn(f, img, chain, i)
    ensures Payload(f, img, chain[i]) == Chunk(data, i)
    ensures i + 1 < |chain| ==> |Chunk(data, i)| == 254
  {
    hide SectorsBefore;
    var bytes := FileBlocks(chain, data)[i];
    assert bytes == Link(chain, data, i) + Chunk(data, i);
    assert ByteAt(f, img, chain[i], 0) == bytes[0] && ByteAt(f, img, chain[i], 1) == bytes[1];
    if i + 1 < |chain| { assert chain[i + 1] in chain && 254 * (|chain| - 1) < |data|; }
    assert bytes[2..] == Chunk(data, i);
    assert |Payload(f, img, chain[i])| == |Chunk(data, i)|;
    forall k | 0 <= k < |Chunk(data, i)| ensures Payload(f, img, chain[i])[k] == Chunk(data, i)[k] {
      assert bytes[2 + k] == Chunk(data, i)[k];
    }
  }

  lemma {:induction false} GatherHeld(f: Format, img: seq<byte>, chain: seq<Loc>, data: seq<byte>, i: nat)
    requires |img| >= Size(f) && OnDisk(f, chain) && |chain| == Blocks(data) && i <= |chain|
    requires forall j | 0 <= j < |chain| :: HoldsBlock(f, img, chain, FileBlocks(chain, data), j)
    ensures Gather(f, img, chain, i) == data[if 254 * i <= |data| then 254 * i else |data|..]
    decreases |chain| - i
  {
    hide Payload, HoldsBlock, FileBlocks, Chunk, InDisk;
    if i < |chain| {
      BlockReads(f, img, chain, data, i);
      GatherHeld(f, img, chain, data, i + 1);
      ChunkThenRest(data, i);
    }
  }

  lemma ChunkThenRest(data: seq<byte>, i: nat)
    requires i < Blocks(data)
    ensures 254 * i <= |data|
    ensures Chunk(data, i) + data[if 254 * (i + 1) <= |data| then 254 * (i + 1) else |data|..] == data[254 * i..]
  {
  }
}
