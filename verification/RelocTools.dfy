/** The o65 tools as they run: a reader that advances, and loops that collect and apply patches. */
module RelocTools {
  import opened Bytes
  import opened Sorting
  import opened Udex
  import opened O65
  import opened Relocator

  class Reader {
    const data: seq<byte>
    var position: nat

    ghost predicate Valid()
      reads this
    {
      position <= |data|
    }

    /** The unread bytes. */
    ghost function Rest(): seq<byte>
      reads this
      requires Valid()
    {
      data[position..]
    }

    constructor (data: seq<byte>)
      ensures Valid() && this.data == data && Rest() == data
    {
      this.data := data;
      position := 0;
    }

    method Take(size: nat) returns (r: Option<seq<byte>>)
      requires Valid()
      modifies this
      ensures Valid()
      ensures r.Some? <==> size <= |old(Rest())|
      ensures r.Some? ==> r.value == old(Rest())[..size] && Rest() == old(Rest())[size..]
      ensures r.None? ==> Rest() == old(Rest())
    {
      var end := position + size;
      if end > |data| { return None; }
      r := Some(data[position..end]);
      position := end;
    }

    method Byte() returns (r: Option<byte>)
      requires Valid()
      modifies this
      ensures Valid()
      ensures r.Some? <==> old(Rest()) != []
      ensures r.Some? ==> r.value == old(Rest())[0] && Rest() == old(Rest())[1..]
      ensures r.None? ==> Rest() == old(Rest())
    {
      var bytes := Take(1);
      if bytes.None? { return None; }
      return Some(bytes.value[0]);
    }

    method Word16() returns (r: Option<nat>)
      requires Valid()
      modifies this
      ensures Valid()
      ensures r.Some? <==> |old(Rest())| >= 2
      ensures r.Some? ==> r.value == Word(old(Rest()), 0) && Rest() == old(Rest())[2..]
      ensures r.None? ==> Rest() == old(Rest())
    {
      var bytes := Take(2);
      if bytes.None? { return None; }
      return Some(Word(bytes.value, 0));
    }
  }

  method SkipOptions(reader: Reader) returns (error: Option<O65Error>)
    requires reader.Valid()
    modifies reader
    ensures reader.Valid()
    ensures match Options(old(reader.Rest())) case Ok(rest) => error == None &&
      reader.Rest() == rest case Err(e) => error == Some(e)
  {
    ghost var start := reader.Rest();
    while true
      invariant reader.Valid() && Options(start) == Options(reader.Rest())
      decreases |reader.Rest()|
    {
      var length := reader.Byte();
      if length.None? { return Some(Truncated); }
      if length.value == 0 { return None; }
      if length.value < 2 { return Some(BadOption); }
      var option := reader.Take(length.value - 1);
      if option.None? { return Some(Truncated); }
    }
  }

  /** One segment's relocation loop; the patches it appends are those of the relocations it read. */
  method ReadTable(reader: Reader, at: nat, size: nat) returns (r: Result<seq<nat>, O65Error>, ghost relocs: seq<Reloc>)
    requires reader.Valid()
    modifies reader
    ensures reader.Valid()
    ensures match Table(old(reader.Rest()), -1, {}, false, size, [])
      case Ok((found, rest)) => relocs == found && r == Ok(HighPatches(found, at)) && reader.Rest() == rest
      case Err(e) => r == Err(e)
    ensures r.Ok? ==> forall p :: p in r.value <==> exists i | 0 <= i < |relocs| :: PatchesAt(relocs[i], at, p)
  {
    hide Cells, HighPatches, PatchesAt;
    ghost var start := reader.Rest();
    var address, occupied, escaping, patches := -1, {}, false, [];
    relocs := [];
    PatchesNone(at);
    while true
      invariant reader.Valid() && address >= -1
      invariant Table(start, -1, {}, false, size, []) == Table(reader.Rest(), address, occupied, escaping, size, relocs)
      invariant patches == HighPatches(relocs, at)
      decreases |reader.Rest()|
    {
      var delta := reader.Byte();
      if delta.None? { return Err(Truncated), relocs; }
      if delta.value == 0 {
        if escaping { return Err(BadEscape), relocs; }
        forall p ensures p in patches <==> exists i | 0 <= i < |relocs| :: PatchesAt(relocs[i], at, p) {
          PatchFrom(relocs, at, p);
        }
        return Ok(patches), relocs;
      }
      if delta.value == 255 {
        address, escaping := address + 254, true;
        continue;
      }
      address, escaping := address + delta.value, false;
      var d := reader.Byte();
      if d.None? { return Err(Truncated), relocs; }
      if !GoodDescriptor(d.value) { return Err(BadRelocation), relocs; }
      var width := if d.value / 32 == 4 then 2 else 1;
      if address < 0 || address + width > size { return Err(OutsideSegment), relocs; }
      var cells := Cells(address, width);
      if occupied * cells != {} { return Err(Overlap), relocs; }
      occupied := occupied + cells;
      ghost var kind := if d.value / 32 == 1 then Low else WordKind;
      if d.value / 32 == 2 {
        var addend := reader.Byte();
        if addend.None? { return Err(Truncated), relocs; }
        kind := High(addend.value);
      }
      var target := d.value % 8;
      PatchesOne(relocs, Reloc(address, kind, target), at);
      if (target == 2 || target == 3 || target == 4) && d.value / 32 != 1 {
        patches := patches + [at + address + if d.value / 32 == 4 then 1 else 0];
      }
      relocs := relocs + [Reloc(address, kind, target)];
    }
  }

  lemma PatchesNone(at: nat)
    ensures HighPatches([], at) == []
  {
  }

  lemma PatchesOne(relocs: seq<Reloc>, r: Reloc, at: nat)
    ensures HighPatches(relocs + [r], at) ==
      HighPatches(relocs, at) + if r.Moves() &&
        !r.kind.Low? then [at + r.address + if r.kind.WordKind? then 1 else 0] else []
  {
    assert (relocs + [r])[..|relocs|] == relocs;
  }

  /** `relocate_executable`: the patch loop runs over a private copy of the image. */
  method RelocateExecutable(file: seq<byte>, base: int, capacity: int) returns (r: Result<seq<byte>, MoveError>)
    ensures r == Relocate(file, base, capacity)
  {
    hide PatchAll, BuildExecutable;
    if |file| < 19 || file[..8] != MAGIC + [0, 2, 1, 0] { return Err(BadHeader); }
    var prior, size, bss, entry := Word(file, 8), Word(file, 10), Word(file, 12), Word(file, 14);
    if prior != CANONICAL_BASE || size == 0 || !(prior <= entry < prior + size) { return Err(BadCanonical); }
    if prior + size + bss > 0x10000 || base % 256 != 0 || !(0 < base < 0x10000) || capacity <= 0 ||
      base + capacity > 0x10000 {
      return Err(BadDestination);
    }
    var end := 16 + size;
    if end + 2 > |file| { return Err(TruncatedFile); }
    var count := Word(file, end);
    if end + 2 + 2 * count != |file| { return Err(BadTable); }
    if (if |file| > size + bss then |file| else size + bss) > capacity { return Err(TooSmall); }
    var patches := PatchList(file);
    if !AllBelow(patches, size) || !Increasing(patches) { return Err(BadPatches); }
    var image := new byte[size](i requires 0 <= i < size => file[16 + i]);
    assert image[..] == file[16..end];
    var delta := (base - prior) / 256;
    PatchInPlace(image, patches, delta);
    match BuildExecutable(image[..], 1, base, base + entry - prior, bss, 0)
    case Err(e) => return Err(BuildFailed(e));
    case Ok(out) => return Ok(out);
  }

  method PatchInPlace(image: array<byte>, patches: seq<nat>, delta: int)
    requires AllBelow(patches, image.Length)
    modifies image
    ensures image[..] == PatchAll(old(image[..]), patches, delta)
  {
    ghost var before := image[..];
    for i := 0 to |patches|
      invariant AllBelow(patches[..i], image.Length) && image[..] == PatchAll(before, patches[..i], delta)
    {
      image[patches[i]] := (image[patches[i]] + delta) % 256;
      assert patches[..i + 1] == patches[..i] + [patches[i]];
      PatchLast(before, patches[..i], patches[i], delta);
    }
    assert patches[..|patches|] == patches;
  }

  method ReadLayout(reader: Reader, n: nat) returns (words: Option<seq<nat>>)
    requires reader.Valid()
    modifies reader
    ensures reader.Valid()
    ensures words.Some? <==> 2 * n <= |old(reader.Rest())|
    ensures words.Some? ==> |words.value| == n && reader.Rest() == old(reader.Rest())[2 * n..]
    ensures words.Some? ==> forall j | 0 <= j < n :: words.value[j] == Word(old(reader.Rest()), 2 * j)
  {
    hide Word;
    ghost var start := reader.Rest();
    var list := [];
    for i := 0 to n
      invariant reader.Valid() && |list| == i && 2 * i <= |start| && reader.Rest() == start[2 * i..]
      invariant forall j | 0 <= j < i :: list[j] == Word(start, 2 * j)
    {
      var w := reader.Word16();
      if w.None? { return None; }
      WordInside(start, 2 * i);
      list := list + [w.value];
    }
    return Some(list);
  }

  lemma WordInside(s: seq<byte>, i: nat)
    requires i + 2 <= |s|
    ensures Word(s[i..], 0) == Word(s, i) && s[i..][2..] == s[i + 2..]
  {
  }

  /** The fixed header: magic, mode word and nine layout words. */
  method ReadHeader(reader: Reader) returns (r: Result<(nat, nat, nat), O65Error>)
    requires reader.Valid() && reader.Rest() == reader.data
    modifies reader
    ensures reader.Valid()
    ensures var data := reader.data;
      match r
      case Ok((textSize, dataSize, bss)) =>
        && |data| >= 26 && GoodMagic(data) && GoodLayout(data) && reader.Rest() == data[26..]
        && textSize == Word(data, 10) && dataSize == Word(data, 14) && bss == Word(data, 18)
      case Err(e) => Parse(data) == Err(e)
  {
    hide Word, Options, ParseBody;
    ghost var data := reader.data;
    var magic := reader.Take(6);
    if magic.None? { return Err(Truncated); }
    if magic.value != [1, 0, 0x6F, 0x36, 0x35, 0] { return Err(BadMagic); }
    var mode := reader.Word16();
    if mode.None? { return Err(Truncated); }
    WordInside(data, 6);
    if mode.value != 0x0800 { return Err(BadMagic); }
    var layout := ReadLayout(reader, 9);
    if layout.None? { return Err(Truncated); }
    var w := layout.value;
    LayoutWords(data, w);
    var base, textSize, dataBase, dataSize := w[0], w[1], w[2], w[3];
    var bssBase, bss, zp, zpSize, stack := w[4], w[5], w[6], w[7], w[8];
    var size := textSize + dataSize;
    if base != CANONICAL_BASE || textSize == 0 || dataBase != base + textSize || bssBase != base + size ||
       base + size + bss > 0x10000 || zp != 2 || zpSize > 30 || stack != 0 {
      return Err(BadLayout);
    }
    return Ok((textSize, dataSize, bss));
  }

  lemma LayoutWords(data: seq<byte>, w: seq<nat>)
    requires |data| >= 26 && |w| == 9 && forall j | 0 <= j < 9 :: w[j] == Word(data[8..], 2 * j)
    ensures w[0] == Word(data, 8) && w[1] == Word(data, 10) && w[2] == Word(data, 12) && w[3] == Word(data, 14)
    ensures w[4] == Word(data, 16) && w[5] == Word(data, 18) && w[6] == Word(data, 20) && w[7] == Word(data, 22)
    ensures w[8] == Word(data, 24)
  {
  }

  /** Image, import word, both relocation tables, export word and end of file. */
  method ReadBody(reader: Reader, textSize: nat, dataSize: nat, ghost bss: nat)
      returns (r: Result<(seq<byte>, seq<nat>), O65Error>, ghost obj: Object)
    requires reader.Valid()
    modifies reader
    ensures reader.Valid()
    ensures match ParseBody(old(reader.Rest()), textSize, dataSize, bss)
      case Ok(o) => r == Ok((o.image, Patches(o))) && obj == o
      case Err(e) => r == Err(e)
  {
    hide Table, HighPatches, Word;
    ghost var s := reader.Rest();
    obj := Object(0, 0, 0, [], [], []);
    var size := textSize + dataSize;
    var image := reader.Take(size);
    if image.None? { return Err(Truncated), obj; }
    var imports := reader.Word16();
    if imports.None? { return Err(Truncated), obj; }
    WordInside(s, size);
    if imports.value != 0 { return Err(Imports), obj; }
    var textPatches, dataPatches;
    ghost var text, data;
    textPatches, text := ReadTable(reader, 0, textSize);
    if textPatches.Err? { return Err(textPatches.error), obj; }
    dataPatches, data := ReadTable(reader, textSize, dataSize);
    if dataPatches.Err? { return Err(dataPatches.error), obj; }
    var exports := reader.Word16();
    if exports.None? { return Err(Truncated), obj; }
    if exports.value != 0 { return Err(Exports), obj; }
    if reader.position != |reader.data| { return Err(Trailing), obj; }
    obj := Object(textSize, dataSize, bss, image.value, text, data);
    return Ok((image.value, textPatches.value + dataPatches.value)), obj;
  }

  /** `pack_o65`. */
  method PackO65(data: seq<byte>, entry: int) returns (r: Result<seq<byte>, O65Error>)
    ensures r == Pack(data, entry)
  {
    hide ParseBody, Patches, Options, PackObject, Word, GoodMagic, GoodLayout;
    var reader := new Reader(data);
    var header := ReadHeader(reader);
    if header.Err? { return Err(header.error); }
    var (textSize, dataSize, bss) := header.value;
    MagicMeans(data);
    var options := SkipOptions(reader);
    if options.Some? { return Err(options.value); }
    var body;
    ghost var obj;
    body, obj := ReadBody(reader, textSize, dataSize, bss);
    if body.Err? { return Err(body.error); }
    BodyBss(Options(data[26..]).value, textSize, dataSize, bss);
    r := WritePacked(body.value.0, entry, bss, body.value.1, obj);
  }

  lemma MagicMeans(data: seq<byte>)
    requires GoodMagic(data)
    ensures |data| >= 8 && data[..6] == [1, 0, 0x6F, 0x36, 0x35, 0]
  {
  }

  lemma BodyBss(s: seq<byte>, textSize: nat, dataSize: nat, bss: nat)
    requires ParseBody(s, textSize, dataSize, bss).Ok?
    ensures ParseBody(s, textSize, dataSize, bss).value.bss == bss
  {
    hide Table;
  }

  method WritePacked(image: seq<byte>, entry: int, bss: nat, patches: seq<nat>, ghost obj: Object)
      returns (r: Result<seq<byte>, O65Error>)
    requires image == obj.image && bss == obj.bss && patches == Patches(obj)
    ensures r == PackObject(obj, entry)
  {
    hide BuildExecutable, HighPatches, Words, Sort, Elements;
    var executable := BuildExecutable(image, 1, CANONICAL_BASE, entry, bss, 0);
    if executable.Err? { return Err(Unbuildable(executable.error)); }
    BuiltLength(image, entry, bss);
    var offsets := Sort(patches, NatLe);
    if |offsets| != |Elements(offsets)| { return Err(DuplicatePatches); }
    if |offsets| >= 0x10000 || !AllBelow(offsets, 0x10000) { return Err(TooLong); }
    var file := WithMinor(executable.value, 2) + Le16(|offsets|) + Words(offsets);
    if |file| > 0xFFFF { return Err(TooLong); }
    return Ok(file);
  }

  lemma BuiltLength(image: seq<byte>, entry: int, bss: nat)
    requires BuildExecutable(image, 1, CANONICAL_BASE, entry, bss, 0).Ok?
    ensures |BuildExecutable(image, 1, CANONICAL_BASE, entry, bss, 0).value| == 16 + |image|
  {
  }
}
