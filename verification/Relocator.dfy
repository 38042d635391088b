/** From an o65 object to a page-relocatable UDEX file and back to an installed executable:
    `pack_o65` and `relocate_executable` (o65_to_udex.py). */
module Relocator {
  import opened Bytes
  import opened Sorting
  import opened Udex
  import opened O65

  /** The high-byte offsets one segment contributes, in the order the loop appends them. */
  function HighPatches(relocs: seq<Reloc>, at: nat): seq<nat> {
    if relocs == [] then [] else
      var r := relocs[|relocs| - 1];
      HighPatches(relocs[..|relocs| - 1], at) +
        if r.Moves() && !r.kind.Low? then [at + r.address + if r.kind.WordKind? then 1 else 0] else []
  }

  function Patches(obj: Object): seq<nat> {
    HighPatches(obj.text, 0) + HighPatches(obj.data, obj.textSize)
  }

  predicate NatLe(a: nat, b: nat) { a <= b }

  predicate Increasing(s: seq<nat>) {
    forall i | 0 <= i < |s| - 1 :: s[i] < s[i + 1]
  }

  function WithMinor(file: seq<byte>, minor: byte): seq<byte>
    requires |file| > 5
  {
    file[5 := minor]
  }

  /** The tail of `pack_o65`: header, image, patch count, sorted patch offsets. */
  function PackObject(obj: Object, entry: int): Result<seq<byte>, O65Error> {
    match BuildExecutable(obj.image, 1, CANONICAL_BASE, entry, obj.bss, 0)
    case Err(e) => Err(Unbuildable(e))
    case Ok(executable) =>
      var offsets := Sort(Patches(obj), NatLe);
      if |offsets| != |Elements(offsets)| then Err(DuplicatePatches)
      else if |offsets| >= 0x10000 || !AllBelow(offsets, 0x10000) then Err(TooLong)
      else
        var file := WithMinor(executable, 2) + Le16(|offsets|) + Words(offsets);
        if |file| > 0xFFFF then Err(TooLong) else Ok(file)
  }

  function Pack(data: seq<byte>, entry: int): Result<seq<byte>, O65Error> {
    match Parse(data) case Err(e) => Err(e) case Ok(obj) => PackObject(obj, entry)
  }

  // ----- relocating an installed file

  datatype MoveError =
    | BadHeader | BadCanonical | BadDestination | TruncatedFile | BadTable | TooSmall | BadPatches
    | BuildFailed(udex: UdexError)

  function ReadWords(s: seq<byte>, n: nat): (w: seq<nat>)
    requires |s| == 2 * n
    ensures |w| == n && forall i | 0 <= i < n :: w[i] == Word(s, 2 * i)
  {
    seq(n, i requires 0 <= i < n => Word(s, 2 * i))
  }

  /** `image[offset] = (image[offset] + delta) & 255` for each offset. */
  function PatchAll(image: seq<byte>, patches: seq<nat>, delta: int): (r: seq<byte>)
    requires AllBelow(patches, |image|)
    ensures |r| == |image|
    decreases |patches|
  {
    if patches == [] then image else
      var p := patches[|patches| - 1];
      var before := PatchAll(image, patches[..|patches| - 1], delta);
      before[p := (before[p] + delta) % 256]
  }

  function ImageEnd(file: seq<byte>): nat
    requires |file| >= 16
  {
    16 + Word(file, 10)
  }

  function PatchList(file: seq<byte>): seq<nat>
    requires |file| >= 16 && ImageEnd(file) + 2 <= |file| && (|file| - ImageEnd(file)) % 2 == 0
  {
    ReadWords(file[ImageEnd(file) + 2..], (|file| - ImageEnd(file) - 2) / 2)
  }

  /** `relocate_executable`. */
  function Relocate(file: seq<byte>, base: int, capacity: int): Result<seq<byte>, MoveError> {
    if |file| < 19 || file[..8] != MAGIC + [0, 2, 1, 0] then Err(BadHeader) else
    var old_, size, bss, entry := Word(file, 8), Word(file, 10), Word(file, 12), Word(file, 14);
    if old_ != CANONICAL_BASE || size == 0 || !(old_ <= entry < old_ + size) then Err(BadCanonical)
    else if old_ + size + bss > 0x10000 || base % 256 != 0 || !(0 < base < 0x10000) || capacity <= 0 ||
      base + capacity > 0x10000 then Err(BadDestination)
    else if 16 + size + 2 > |file| then Err(TruncatedFile)
    else if 16 + size + 2 + 2 * Word(file, 16 + size) != |file| then Err(BadTable)
    else if (if |file| > size + bss then |file| else size + bss) > capacity then Err(TooSmall)
    else
      var patches := PatchList(file);
      if !AllBelow(patches, size) || !Increasing(patches) then Err(BadPatches)
      else
        var image := PatchAll(file[16..16 + size], patches, (base - old_) / 256);
        match BuildExecutable(image, 1, base, base + entry - old_, bss, 0)
        case Err(e) => Err(BuildFailed(e))
        case Ok(out) => Ok(out)
  }

  // ----- full relocation, the meaning of the object's tables

  /** One relocation in 16-bit arithmetic: the address it designates moves by delta. */
  function ApplyReloc(image: seq<byte>, r: Reloc, at: nat, delta: int): (out: seq<byte>)
    requires at + r.address + r.Width() <= |image|
    ensures |out| == |image|
  {
    var a := at + r.address;
    if !r.Moves() then image else
    match r.kind
    case Low => image[a := (image[a] + delta) % 256]
    case High(low) => image[a := (image[a] * 256 + low + delta) % 0x10000 / 256]
    case WordKind =>
      var v := (image[a] + 256 * image[a + 1] + delta) % 0x10000;
      image[a := v % 256][a + 1 := v / 256]
  }

  function ApplyAll(image: seq<byte>, relocs: seq<Reloc>, at: nat, delta: int): (out: seq<byte>)
    requires forall r | r in relocs :: at + r.address + r.Width() <= |image|
    ensures |out| == |image|
    decreases |relocs|
  {
    if relocs == [] then image else
      assert relocs[|relocs| - 1] in relocs;
      ApplyReloc(ApplyAll(image, relocs[..|relocs| - 1], at, delta), relocs[|relocs| - 1], at, delta)
  }

  ghost predicate ObjectSound(obj: Object) {
    && |obj.image| == obj.Size() && obj.textSize > 0 && CANONICAL_BASE + obj.Size() + obj.bss <= 0x10000
    && TableSound(obj.text, obj.textSize) && TableSound(obj.data, obj.dataSize)
  }

  /** The image with every relocation of the object applied. */
  ghost function FullyRelocated(obj: Object, delta: int): seq<byte>
    requires ObjectSound(obj)
  {
    SoundBounds(obj);
    ApplyAll(ApplyAll(obj.image, obj.text, 0, delta), obj.data, obj.textSize, delta)
  }

  lemma SoundBounds(obj: Object)
    requires ObjectSound(obj)
    ensures forall r | r in obj.text :: r.address + r.Width() <= |obj.image|
    ensures forall r | r in obj.data :: obj.textSize + r.address + r.Width() <= |obj.image|
  {
    forall r | r in obj.text ensures r.address + r.Width() <= |obj.image| {
      var i :| 0 <= i < |obj.text| && obj.text[i] == r;
    }
    forall r | r in obj.data ensures obj.textSize + r.address + r.Width() <= |obj.image| {
      var i :| 0 <= i < |obj.data| && obj.data[i] == r;
    }
  }

  lemma ParsedIsSound(data: seq<byte>)
    requires Parse(data).Ok?
    ensures ObjectSound(Parse(data).value)
  {
    hide Table, Options;
    var body := Options(data[26..]).value;
    BodyIsSound(body, Word(data, 10), Word(data, 14), Word(data, 18));
  }

  lemma BodyIsSound(s: seq<byte>, textSize: nat, dataSize: nat, bss: nat)
    requires ParseBody(s, textSize, dataSize, bss).Ok?
    ensures var obj := ParseBody(s, textSize, dataSize, bss).value;
      && obj.textSize == textSize && obj.dataSize == dataSize && obj.bss == bss && |obj.image| == textSize + dataSize
      && TableSound(obj.text, textSize) && TableSound(obj.data, dataSize)
  {
    hide Table;
    var t := s[textSize + dataSize + 2..];
    AcceptedIsSound(t, -1, {}, false, textSize, []);
    AcceptedIsSound(Table(t, -1, {}, false, textSize, []).value.1, -1, {}, false, dataSize, []);
  }

  // ----- the patches are already sorted

  lemma {:induction false} PatchesOrdered(relocs: seq<Reloc>, at: nat, size: nat)
    requires TableSound(relocs, size)
    ensures var p := HighPatches(relocs, at);
      && (forall i | 0 <= i < |p| :: at <= p[i] < at + size)
      && StrictlyUp(p)
      && (relocs != [] ==> forall i | 0 <= i < |p| ::
        p[i] < at + relocs[|relocs| - 1].address + relocs[|relocs| - 1].Width())
  {
    hide TableSound, StrictlyUp;
    if relocs == [] {
      NonePatched(at);
    } else {
      var before, r := relocs[..|relocs| - 1], relocs[|relocs| - 1];
      SoundPrefix(relocs, size);
      PatchesOrdered(before, at, size);
      var p, patches := at + r.address + if r.kind.WordKind? then 1 else 0, HighPatches(before, at);
      assert HighPatches(relocs, at) == patches + if r.Moves() && !r.kind.Low? then [p] else [];
      if r.Moves() && !r.kind.Low? {
        UpMore(patches, p);
      } else {
        assert patches + [] == patches;
      }
    }
  }

  lemma NonePatched(at: nat)
    ensures HighPatches([], at) == [] && StrictlyUp([])
  {
  }

  lemma UpMore(s: seq<nat>, p: nat)
    ensures StrictlyUp(s) && (forall i | 0 <= i < |s| :: s[i] < p) ==> StrictlyUp(s + [p])
  {
  }

  lemma SoundPrefix(relocs: seq<Reloc>, size: nat)
    requires TableSound(relocs, size) && relocs != []
    ensures var before, r := relocs[..|relocs| - 1], relocs[|relocs| - 1];
      && TableSound(before, size) && r.address + r.Width() <= size
      && (before != [] ==> before[|before| - 1].address + before[|before| - 1].Width() <= r.address)
  {
  }

  /** The collected offsets are strictly increasing and inside the image, so sorting them does
      nothing and the duplicate check never fires. */
  lemma SortNeverActs(obj: Object)
    requires ObjectSound(obj)
    ensures Sort(Patches(obj), NatLe) == Patches(obj) && Increasing(Patches(obj))
    ensures AllBelow(Patches(obj), obj.Size())
    ensures |Elements(Patches(obj))| == |Patches(obj)|
    ensures |Patches(obj)| <= obj.Size()
  {
    hide HighPatches, TableSound, Elements;
    PatchesOrdered(obj.text, 0, obj.textSize);
    PatchesOrdered(obj.data, obj.textSize, obj.dataSize);
    var p := Patches(obj);
    UpConcat(HighPatches(obj.text, 0), HighPatches(obj.data, obj.textSize), obj.textSize);
    SortIdle(p, NatLe);
    CountDistinct(p);
    BoundedCount(p, obj.Size());
  }

  ghost predicate StrictlyUp(s: seq<nat>) {
    forall i, j | 0 <= i < j < |s| :: s[i] < s[j]
  }

  lemma UpConcat(a: seq<nat>, b: seq<nat>, k: nat)
    requires StrictlyUp(a) && StrictlyUp(b) && AllBelow(a, k) && forall i | 0 <= i < |b| :: k <= b[i]
    ensures StrictlyUp(a + b)
  {
  }

  function Elements(s: seq<nat>): set<nat> {
    set x | x in s
  }

  lemma ElementsLast(s: seq<nat>)
    requires s != []
    ensures Elements(s) == Elements(s[..|s| - 1]) + {s[|s| - 1]}
  {
    var before := s[..|s| - 1];
    assert s == before + [s[|s| - 1]];
  }

  lemma {:induction false} CountDistinct(s: seq<nat>)
    requires StrictlyUp(s)
    ensures |Elements(s)| == |s|
  {
    if s != [] {
      CountDistinct(s[..|s| - 1]);
      ElementsLast(s);
      assert s[|s| - 1] !in s[..|s| - 1];
    }
  }

  lemma {:induction false} BoundedCount(s: seq<nat>, n: nat)
    requires StrictlyUp(s) && AllBelow(s, n)
    ensures |s| <= n
    decreases |s|
  {
    if s != [] {
      BoundedCount(s[..|s| - 1], s[|s| - 1]);
    }
  }

  // ----- the small form means the same as the full relocation

  /** One relocation moved by whole pages only ever changes its high byte. */
  lemma PageStep(image: seq<byte>, r: Reloc, at: nat, pages: int)
    requires at + r.address + r.Width() <= |image|
    ensures ApplyReloc(image, r, at, 256 * pages) ==
      if r.Moves() && !r.kind.Low? then
        var p := at + r.address + (if r.kind.WordKind? then 1 else 0); image[p := (image[p] + pages) % 256]
      else image
  {
    var a := at + r.address;
    match r.kind
    case Low =>
      PageLow(image[a], pages);
    case High(low) =>
      PageHigh(image[a], low, pages);
    case WordKind =>
      PageHigh(image[a + 1], image[a], pages);
      assert image[a := image[a]] == image;
  }

  lemma PageLow(low: byte, pages: int)
    ensures (low + 256 * pages) % 256 == low
  {
  }

  lemma PageHigh(high: byte, low: byte, pages: int)
    ensures (high * 256 + low + 256 * pages) % 0x10000 == (high + pages) % 256 * 256 + low
    ensures (high * 256 + low + 256 * pages) % 0x10000 / 256 == (high + pages) % 256
    ensures (high * 256 + low + 256 * pages) % 0x10000 % 256 == low
  {
    var q, m := (high + pages) / 256, (high + pages) % 256;
    assert high + pages == 256 * q + m;
    Wrapped(high * 256 + low + 256 * pages, q, m * 256 + low);
  }

  lemma Wrapped(x: int, q: int, r: nat)
    requires x == 0x10000 * q + r && r < 0x10000
    ensures x % 0x10000 == r
  {
  }

  lemma {:induction false} PagesMatch(image: seq<byte>, relocs: seq<Reloc>, at: nat, pages: int)
    requires forall r | r in relocs :: at + r.address + r.Width() <= |image|
    ensures AllBelow(HighPatches(relocs, at), |image|)
    ensures ApplyAll(image, relocs, at, 256 * pages) == PatchAll(image, HighPatches(relocs, at), pages)
    decreases |relocs|
  {
    if relocs != [] {
      hide PatchAll, ApplyAll, HighPatches, AllBelow;
      assert relocs[|relocs| - 1] in relocs;
      PagesMatch(image, relocs[..|relocs| - 1], at, pages);
      LastMatches(image, relocs, at, pages);
    }
  }

  lemma LastMatches(image: seq<byte>, relocs: seq<Reloc>, at: nat, pages: int)
    requires relocs != [] && forall r | r in relocs :: at + r.address + r.Width() <= |image|
    requires var before := relocs[..|relocs| - 1];
      AllBelow(HighPatches(before, at), |image|) &&
        ApplyAll(image, before, at, 256 * pages) == PatchAll(image, HighPatches(before, at), pages)
    ensures AllBelow(HighPatches(relocs, at), |image|)
    ensures ApplyAll(image, relocs, at, 256 * pages) == PatchAll(image, HighPatches(relocs, at), pages)
  {
    hide ApplyReloc, PatchAll, AllBelow;
    var before, r := relocs[..|relocs| - 1], relocs[|relocs| - 1];
    assert r in relocs;
    var ps, p := HighPatches(before, at), at + r.address + (if r.kind.WordKind? then 1 else 0);
    PageStep(ApplyAll(image, before, at, 256 * pages), r, at, pages);
    if r.Moves() && !r.kind.Low? {
      PatchLast(image, ps, p, pages);
    } else {
      assert ps + [] == ps;
    }
  }

  lemma PatchLast(image: seq<byte>, ps: seq<nat>, p: nat, delta: int)
    requires AllBelow(ps, |image|) && p < |image|
    ensures AllBelow(ps + [p], |image|)
    ensures var before := PatchAll(image, ps, delta);
      PatchAll(image, ps + [p], delta) == before[p := (before[p] + delta) % 256]
  {
    assert (ps + [p])[..|ps|] == ps;
  }

  lemma {:induction false} PatchTwice(image: seq<byte>, ps: seq<nat>, qs: seq<nat>, delta: int)
    requires AllBelow(ps, |image|) && AllBelow(qs, |image|)
    ensures AllBelow(ps + qs, |image|)
    ensures PatchAll(image, ps + qs, delta) == PatchAll(PatchAll(image, ps, delta), qs, delta)
    decreases |qs|
  {
    if qs == [] {
      assert ps + qs == ps;
    } else {
      PatchTwice(image, ps, qs[..|qs| - 1], delta);
      assert (ps + qs)[..|ps + qs| - 1] == ps + qs[..|qs| - 1];
    }
  }

  lemma PatchesAreFull(obj: Object, pages: int)
    requires ObjectSound(obj)
    ensures AllBelow(Patches(obj), |obj.image|)
    ensures PatchAll(obj.image, Patches(obj), pages) == FullyRelocated(obj, 256 * pages)
  {
    hide HighPatches, PatchAll, ApplyAll, TableSound;
    SoundBounds(obj);
    PagesMatch(obj.image, obj.text, 0, pages);
    PagesMatch(ApplyAll(obj.image, obj.text, 0, 256 * pages), obj.data, obj.textSize, pages);
    PatchTwice(obj.image, HighPatches(obj.text, 0), HighPatches(obj.data, obj.textSize), pages);
  }

  /** What a patched image is, byte by byte: listed offsets move by delta, all others are untouched. */
  lemma {:induction false} PatchedBytes(image: seq<byte>, patches: seq<nat>, delta: int, i: nat)
    requires AllBelow(patches, |image|) && i < |image|
    requires forall a, b | 0 <= a < b < |patches| :: patches[a] != patches[b]
    ensures PatchAll(image, patches, delta)[i] == if i in patches then (image[i] + delta) % 256 else image[i]
  {
    if patches != [] {
      var before, p := patches[..|patches| - 1], patches[|patches| - 1];
      PatchedBytes(image, before, delta, i);
      assert i in patches <==> i in before || i == p;
    }
  }

  /** Shifting by any number of pages and back restores the image. */
  lemma ShiftBack(image: seq<byte>, patches: seq<nat>, delta: int)
    requires AllBelow(patches, |image|)
    requires forall a, b | 0 <= a < b < |patches| :: patches[a] != patches[b]
    ensures PatchAll(PatchAll(image, patches, delta), patches, -delta) == image
  {
    hide PatchAll;
    var moved := PatchAll(image, patches, delta);
    forall i | 0 <= i < |image| ensures PatchAll(moved, patches, -delta)[i] == image[i] {
      PatchedBytes(image, patches, delta, i);
      PatchedBytes(moved, patches, -delta, i);
      Undone(image[i], delta);
    }
  }

  lemma Undone(b: byte, delta: int)
    ensures ((b + delta) % 256 - delta) % 256 == b
  {
    var q := (b + delta) / 256;
    assert (b + delta) % 256 - delta == b - 256 * q;
  }

  // ----- packer and relocator agree

  lemma {:induction false} WordsBack(values: seq<nat>, n: nat)
    requires AllBelow(values, 0x10000) && n == |values|
    ensures ReadWords(Words(values), n) == values
  {
  }

  /** The header fields, the image, the count and the table of a packed file. */
  ghost predicate PackedAs(file: seq<byte>, obj: Object, entry: int) {
    && CANONICAL_BASE <= entry < CANONICAL_BASE + obj.Size()
    && 19 <= |file| <= 0xFFFF && file[..8] == MAGIC + [0, 2, 1, 0]
    && Word(file, 8) == CANONICAL_BASE && Word(file, 10) == obj.Size() && Word(file, 12) == obj.bss &&
      Word(file, 14) == entry
    && |file| == 16 + obj.Size() + 2 + 2 * |Patches(obj)|
    && file[16..16 + obj.Size()] == obj.image
    && Word(file, 16 + obj.Size()) == |Patches(obj)| && PatchList(file) == Patches(obj)
  }

  /** The layout of a packed file. */
  lemma PackedLayout(obj: Object, entry: int)
    requires ObjectSound(obj) && PackObject(obj, entry).Ok?
    ensures PackedAs(PackObject(obj, entry).value, obj, entry)
  {
    hide HighPatches, TableSound, Sort, Patches, Words;
    SortNeverActs(obj);
    var ps := Patches(obj);
    var header := Header(1, 1, 0, CANONICAL_BASE, obj.Size(), obj.bss, entry);
    FileLayout(header, obj.image, ps, PackObject(obj, entry).value);
  }

  /** The header and image part, with the format's minor version set to 2. */
  lemma HeadLayout(header: seq<byte>, image: seq<byte>)
    requires |header| == 16 && header[..4] == MAGIC && header[4..8] == [0, 1, 1, 0]
    ensures var head := WithMinor(header + image, 2);
      && |head| == 16 + |image| && head[..8] == MAGIC + [0, 2, 1, 0] && head[16..] == image
      && Word(head, 8) == Word(header, 8) && Word(head, 10) == Word(header, 10)
      && Word(head, 12) == Word(header, 12) && Word(head, 14) == Word(header, 14)
  {
    var head := WithMinor(header + image, 2);
    assert head[..4] == header[..4];
    assert head[4] == header[4..8][0] && head[6] == header[4..8][2] && head[7] == header[4..8][3];
  }

  lemma Parts(head: seq<byte>, count: seq<byte>, table: seq<byte>)
    requires |head| >= 16 && |count| == 2
    ensures var file := head + count + table;
      && |file| == |head| + 2 + |table|
      && file[..8] == head[..8] && file[16..|head|] == head[16..]
      && Word(file, 8) == Word(head, 8) && Word(file, 10) == Word(head, 10) && Word(file, 12) == Word(head, 12) &&
        Word(file, 14) == Word(head, 14)
      && Word(file, |head|) == Word(count, 0) && file[|head| + 2..] == table
  {
    var file := head + count + table;
    assert file[..|head|] == head;
    assert file[|head|] == count[0] && file[|head| + 1] == count[1];
  }

  lemma FileLayout(header: seq<byte>, image: seq<byte>, ps: seq<nat>, file: seq<byte>)
    requires |header| == 16 && header[..4] == MAGIC && header[4..8] == [0, 1, 1, 0] && Word(header, 10) == |image|
    requires AllBelow(ps, 0x10000) && |ps| < 0x10000
    requires file == WithMinor(header + image, 2) + Le16(|ps|) + Words(ps)
    ensures |file| == 16 + |image| + 2 + 2 * |ps| && file[..8] == MAGIC + [0, 2, 1, 0]
    ensures Word(file, 8) == Word(header, 8) && Word(file, 10) == |image| && Word(file, 12) == Word(header, 12)
    ensures Word(file, 14) == Word(header, 14)
    ensures file[16..16 + |image|] == image && Word(file, 16 + |image|) == |ps| && PatchList(file) == ps
  {
    hide Words, ReadWords, WithMinor, Word, Le16;
    HeadLayout(header, image);
    Parts(WithMinor(header + image, 2), Le16(|ps|), Words(ps));
    WordsBack(ps, |ps|);
  }

  /** The bases and capacities `relocate_executable` can use for a file of this size. */
  predicate Admissible(fileSize: nat, size: nat, bss: nat, base: int, capacity: int) {
    && base % 256 == 0 && 0 < base < 0x10000 && 0 < capacity && base + capacity <= 0x10000
    && fileSize <= capacity && size + bss <= capacity
  }

  // ----- what becomes of every relocation, by segment number

  /** The cell of one relocation: a reference into text, data or BSS (segments 2, 3 and 4) moves by
      delta in 16 bits, an absolute or zero-page one (1 and 5) stays. */
  ghost predicate CellMoved(before: seq<byte>, after: seq<byte>, r: Reloc, at: nat, delta: int) {
    var a, moved := at + r.address, if 2 <= r.target <= 4 then delta else 0;
    && a + (if r.kind.WordKind? then 2 else 1) <= |before| == |after|
    && match r.kind
       case Low => after[a] == (before[a] + moved) % 256
       case High(low) => after[a] == (256 * (before[a] as int) + low + moved) % 0x10000 / 256
       case WordKind => WordIs(after, a, ((before[a] as int) + 256 * (before[a + 1] as int) + moved) % 0x10000)
  }

  ghost predicate InCell(r: Reloc, at: nat, p: nat) {
    at + r.address <= p < at + r.address + if r.kind.WordKind? then 2 else 1
  }

  /** Every relocation of both tables is applied, and bytes in no cell stay. */
  ghost predicate MovedBySegment(obj: Object, after: seq<byte>, delta: int) {
    && |after| == |obj.image|
    && (forall i | 0 <= i < |obj.text| :: CellMoved(obj.image, after, obj.text[i], 0, delta))
    && (forall i | 0 <= i < |obj.data| :: CellMoved(obj.image, after, obj.data[i], obj.textSize, delta))
    && forall p | 0 <= p < |after| && NoCell(obj.text, 0, p) && NoCell(obj.data, obj.textSize, p) ::
         after[p] == obj.image[p]
  }

  ghost predicate NoCell(relocs: seq<Reloc>, at: nat, p: nat) {
    forall i | 0 <= i < |relocs| :: !InCell(relocs[i], at, p)
  }

  ghost predicate PatchesAt(r: Reloc, at: nat, p: nat) {
    2 <= r.target <= 4 && !r.kind.Low? && p == at + r.address + if r.kind.WordKind? then 1 else 0
  }

  lemma {:induction false} PatchFrom(relocs: seq<Reloc>, at: nat, p: nat)
    ensures p in HighPatches(relocs, at) <==> exists i | 0 <= i < |relocs| :: PatchesAt(relocs[i], at, p)
    decreases |relocs|
  {
    hide HighPatches, PatchesAt;
    LastPatch(relocs, at, p);
    if relocs != [] {
      var before := relocs[..|relocs| - 1];
      PatchFrom(before, at, p);
      assert forall i | 0 <= i < |before| :: relocs[i] == before[i];
    }
  }

  lemma LastPatch(relocs: seq<Reloc>, at: nat, p: nat)
    ensures relocs == [] ==> p !in HighPatches(relocs, at)
    ensures relocs != [] ==>
      (p in HighPatches(relocs, at) <==>
         p in HighPatches(relocs[..|relocs| - 1], at) || PatchesAt(relocs[|relocs| - 1], at, p))
  {
  }

  /** In a sound table only the relocation whose cell a byte is in can patch it. */
  lemma OwnPatch(relocs: seq<Reloc>, size: nat, at: nat, i: nat, p: nat)
    requires TableSound(relocs, size) && i < |relocs| && InCell(relocs[i], at, p)
    ensures p in HighPatches(relocs, at) <==> PatchesAt(relocs[i], at, p)
    ensures p < at + size
  {
    hide HighPatches;
    PatchFrom(relocs, at, p);
    if p in HighPatches(relocs, at) {
      var j: nat :| j < |relocs| && PatchesAt(relocs[j], at, p);
      assert InCell(relocs[j], at, p);
      if j < i { CellsApart(relocs, size, at, j, i, p); }
      if i < j { CellsApart(relocs, size, at, i, j, p); }
    }
  }

  lemma CellsApart(relocs: seq<Reloc>, size: nat, at: nat, i: nat, j: nat, p: nat)
    requires TableSound(relocs, size) && i < j < |relocs|
    ensures !InCell(relocs[i], at, p) || !InCell(relocs[j], at, p)
  {
  }

  lemma PatchInRange(relocs: seq<Reloc>, size: nat, at: nat, p: nat)
    requires TableSound(relocs, size)
    ensures p in HighPatches(relocs, at) ==> at <= p < at + size && !NoCell(relocs, at, p)
  {
    hide HighPatches;
    PatchFrom(relocs, at, p);
    if p in HighPatches(relocs, at) {
      var i :| 0 <= i < |relocs| && PatchesAt(relocs[i], at, p);
      assert InCell(relocs[i], at, p);
    }
  }

  lemma CellFromPatches(before: seq<byte>, after: seq<byte>, r: Reloc, at: nat, pages: int)
    requires at + r.address + r.Width() <= |before| == |after|
    requires forall p: nat | InCell(r, at, p) ::
      p < |before| && after[p] == if PatchesAt(r, at, p) then (before[p] + pages) % 256 else before[p]
    ensures CellMoved(before, after, r, at, 256 * pages)
  {
    var a, moves := at + r.address, 2 <= r.target <= 4;
    assert InCell(r, at, a);
    match r.kind
    case Low =>
      if moves { PageLow(before[a], pages); }
    case High(low) =>
      CellWord(low, before[a], moves, pages);
    case WordKind =>
      assert InCell(r, at, a + 1);
      CellWord(before[a], before[a + 1], moves, pages);
  }

  lemma CellWord(low: byte, high: byte, moves: bool, pages: int)
    ensures var (shift, now) := if moves then (256 * pages, (high + pages) % 256) else (0, high as int);
      && ((low as int) + 256 * (high as int) + shift) % 0x10000 == low + 256 * now
      && (256 * (high as int) + low + shift) % 0x10000 / 256 == now
  {
    PageHigh(high, low, pages);
  }

  lemma SegmentsMoved(obj: Object, pages: int)
    requires ObjectSound(obj)
    ensures AllBelow(Patches(obj), |obj.image|)
    ensures MovedBySegment(obj, PatchAll(obj.image, Patches(obj), pages), 256 * pages)
  {
    hide HighPatches, PatchAll, CellMoved;
    PatchesAreFull(obj, pages);
    var after := PatchAll(obj.image, Patches(obj), pages);
    forall i | 0 <= i < |obj.text| ensures CellMoved(obj.image, after, obj.text[i], 0, 256 * pages) {
      TextMoved(obj, i, pages);
    }
    forall i | 0 <= i < |obj.data| ensures CellMoved(obj.image, after, obj.data[i], obj.textSize, 256 * pages) {
      DataMoved(obj, i, pages);
    }
    forall p: nat | p < |after| && NoCell(obj.text, 0, p) && NoCell(obj.data, obj.textSize, p)
      ensures after[p] == obj.image[p]
    {
      PatchedAt(obj, p, pages);
      PatchInRange(obj.text, obj.textSize, 0, p);
      PatchInRange(obj.data, obj.dataSize, obj.textSize, p);
    }
  }

  lemma PatchedAt(obj: Object, p: nat, pages: int)
    requires ObjectSound(obj) && p < |obj.image|
    ensures AllBelow(Patches(obj), |obj.image|)
    ensures PatchAll(obj.image, Patches(obj), pages)[p] ==
      if p in HighPatches(obj.text, 0) || p in HighPatches(obj.data, obj.textSize)
      then (obj.image[p] + pages) % 256 else obj.image[p]
  {
    hide HighPatches, PatchAll, TableSound, Increasing;
    SortNeverActs(obj);
    PatchedEither(obj.image, HighPatches(obj.text, 0), HighPatches(obj.data, obj.textSize), pages, p);
  }

  lemma PatchedEither(image: seq<byte>, a: seq<nat>, b: seq<nat>, pages: int, p: nat)
    requires AllBelow(a + b, |image|) && Increasing(a + b) && p < |image|
    ensures PatchAll(image, a + b, pages)[p] == if p in a || p in b then (image[p] + pages) % 256 else image[p]
  {
    hide PatchAll, Increasing, AllBelow;
    IncreasingDiffer(a + b);
    PatchedBytes(image, a + b, pages, p);
  }

  lemma {:induction false} IncreasingDiffer(s: seq<nat>)
    requires Increasing(s)
    ensures forall i, j | 0 <= i < j < |s| :: s[i] != s[j]
    ensures StrictlyUp(s)
  {
    if s != [] {
      var before := s[..|s| - 1];
      IncreasingDiffer(before);
      forall i, j | 0 <= i < j < |s| ensures s[i] < s[j] {
        if j == |s| - 1 && i < j - 1 { assert before[i] < before[j - 1]; }
        if j < |s| - 1 { assert before[i] < before[j]; }
      }
    }
  }

  lemma TextMoved(obj: Object, i: nat, pages: int)
    requires ObjectSound(obj) && i < |obj.text|
    ensures AllBelow(Patches(obj), |obj.image|)
    ensures CellMoved(obj.image, PatchAll(obj.image, Patches(obj), pages), obj.text[i], 0, 256 * pages)
  {
    hide HighPatches, PatchAll, CellMoved;
    PatchesAreFull(obj, pages);
    var r, after := obj.text[i], PatchAll(obj.image, Patches(obj), pages);
    forall p: nat | InCell(r, 0, p)
      ensures p < |obj.image| && after[p] == if PatchesAt(r, 0, p) then (obj.image[p] + pages) % 256 else obj.image[p]
    {
      OwnPatch(obj.text, obj.textSize, 0, i, p);
      PatchedAt(obj, p, pages);
      PatchInRange(obj.data, obj.dataSize, obj.textSize, p);
    }
    CellFromPatches(obj.image, after, r, 0, pages);
  }

  lemma DataMoved(obj: Object, i: nat, pages: int)
    requires ObjectSound(obj) && i < |obj.data|
    ensures AllBelow(Patches(obj), |obj.image|)
    ensures CellMoved(obj.image, PatchAll(obj.image, Patches(obj), pages), obj.data[i], obj.textSize, 256 * pages)
  {
    hide HighPatches, PatchAll, CellMoved;
    PatchesAreFull(obj, pages);
    var r, after, at := obj.data[i], PatchAll(obj.image, Patches(obj), pages), obj.textSize;
    forall p: nat | InCell(r, at, p)
      ensures p < |obj.image| && after[p] == if PatchesAt(r, at, p) then (obj.image[p] + pages) % 256 else obj.image[p]
    {
      OwnPatch(obj.data, obj.dataSize, at, i, p);
      PatchedAt(obj, p, pages);
      PatchInRange(obj.text, obj.textSize, 0, p);
    }
    CellFromPatches(obj.image, after, r, at, pages);
  }

  /** The plain executable installed at `base`: its header, and the object moved from $1000. */
  ghost predicate InstalledAs(out: seq<byte>, obj: Object, base: int, entry: int) {
    && |out| == 16 + |obj.image| && out[..8] == [0x55, 0x44, 0x45, 0x58, 0, 1, 1, 0]
    && WordIs(out, 8, base) && WordIs(out, 10, |obj.image|) && WordIs(out, 12, obj.bss)
    && WordIs(out, 14, base + entry - 0x1000)
    && MovedBySegment(obj, out[16..], base - 0x1000)
  }

  /** Every file the packer writes is accepted by the relocator for exactly the admissible
      destinations; the inner build never fails, and in the installed image every relocation of the
      object is applied by its segment number, which is the object relocated in full 16-bit
      arithmetic. */
  lemma RelocationPreservesMeaning(data: seq<byte>, entry: int, base: int, capacity: int)
    requires Pack(data, entry).Ok?
    ensures Parse(data).Ok? && ObjectSound(Parse(data).value)
    ensures var obj, file := Parse(data).value, Pack(data, entry).value;
      && (Relocate(file, base, capacity).Ok? <==>
          && base % 256 == 0 && 0 < base && 0 < capacity && base + capacity <= 0x10000
          && |file| <= capacity && |obj.image| + obj.bss <= capacity)
      && (Relocate(file, base, capacity).Ok? ==>
          && InstalledAs(Relocate(file, base, capacity).value, obj, base, entry)
          && Relocate(file, base, capacity).value[16..] == FullyRelocated(obj, base - 0x1000))
  {
    hide Parse, HighPatches, TableSound, Table, PatchAll, ApplyAll, Sort, Words, PatchList, Word, Patches,
      FullyRelocated, WithMinor, MovedBySegment, Header, InstalledAs;
    ParsedIsSound(data);
    var obj, file := Parse(data).value, Pack(data, entry).value;
    PackedLayout(obj, entry);
    SortNeverActs(obj);
    if Admissible(|file|, obj.Size(), obj.bss, base, capacity) {
      var pages := (base - CANONICAL_BASE) / 256;
      assert 256 * pages == base - CANONICAL_BASE;
      PatchesAreFull(obj, pages);
      SegmentsMoved(obj, pages);
      InstalledHeader(obj, PatchAll(obj.image, Patches(obj), pages), base, entry);
    }
  }

  lemma InstalledHeader(obj: Object, image: seq<byte>, base: nat, entry: int)
    requires |image| == |obj.image| < 0x10000 && base < 0x10000 && obj.bss < 0x10000
    requires 0 <= base + entry - 0x1000 < 0x10000 && MovedBySegment(obj, image, base - 0x1000)
    ensures var out := Header(1, 1, 0, base, |image|, obj.bss, base + entry - 0x1000) + image;
      InstalledAs(out, obj, base, entry) && out[16..] == image
  {
    hide MovedBySegment;
    var h := Header(1, 1, 0, base, |image|, obj.bss, base + entry - 0x1000);
    hide Header;
    assert (h + image)[..8] == h[..4] + h[4..8];
    assert (h + image)[16..] == image;
  }
}
