/** Reading linker-authored o65 objects: the `Reader` and the parsing half of `pack_o65`
    (o65_to_udex.py). */
module O65 {
  import opened Bytes
  import opened Udex

  datatype O65Error =
    | Truncated | BadMagic | BadLayout | BadOption | Imports | BadEscape | BadRelocation
    | OutsideSegment | Overlap | Exports | Trailing | Unbuildable(udex: UdexError) | DuplicatePatches | TooLong

  const CANONICAL_BASE: nat := 0x1000

  // ----- relocation tables

  /** A HIGH relocation carries the low byte of its address in the table. */
  datatype Kind = Low | High(addend: byte) | WordKind

  datatype Reloc = Reloc(address: nat, kind: Kind, target: nat) {
    function Width(): nat { if kind.WordKind? then 2 else 1 }
    predicate Moves() { target == 2 || target == 3 || target == 4 }
  }

  /** Descriptor bits: type in the top three, target segment in the low three, the middle two clear. */
  predicate GoodDescriptor(d: byte) {
    (d / 8) % 4 == 0 && (d / 32 == 1 || d / 32 == 2 || d / 32 == 4) && 1 <= d % 8 <= 5
  }

  function Descriptor(r: Reloc): (d: byte)
    requires 1 <= r.target <= 5
    ensures GoodDescriptor(d)
  {
    (match r.kind case Low => 0x20 case High(_) => 0x40 case WordKind => 0x80) + r.target
  }

  /** The bytes a relocation patches. */
  function Cells(address: int, width: nat): set<int> {
    if width == 2 then {address, address + 1} else {address}
  }

  /** The relocation loop of one segment, from the unread bytes s on. */
  function Table(s: seq<byte>, address: int, occupied: set<int>, escaping: bool, size: nat, found: seq<Reloc>)
      : Result<(seq<Reloc>, seq<byte>), O65Error>
    decreases |s|
  {
    if s == [] then Err(Truncated)
    else if s[0] == 0 then (if escaping then Err(BadEscape) else Ok((found, s[1..])))
    else if s[0] == 255 then Table(s[1..], address + 254, occupied, true, size, found)
    else
      var at := address + s[0];
      if |s| < 2 then Err(Truncated) else
      var d := s[1];
      if !GoodDescriptor(d) then Err(BadRelocation) else
      var width := if d / 32 == 4 then 2 else 1;
      if at < 0 || at + width > size then Err(OutsideSegment)
      else if occupied * Cells(at, width) != {} then Err(Overlap)
      else if d / 32 == 2 && |s| < 3 then Err(Truncated)
      else
        var kind := if d / 32 == 1 then Low else if d / 32 == 2 then High(s[2]) else WordKind;
        Table(s[if d / 32 == 2 then 3 else 2..], at, occupied + Cells(at, width), false, size,
              found + [Reloc(at, kind, d % 8)])
  }

  // ----- the object

  datatype Object = Object(textSize: nat, dataSize: nat, bss: nat, image: seq<byte>, text: seq<Reloc>,
    data: seq<Reloc>) {
    function Size(): nat { textSize + dataSize }
  }

  /** Skips option records; the unread bytes after the terminating zero. */
  function Options(s: seq<byte>): Result<seq<byte>, O65Error>
    decreases |s|
  {
    if s == [] then Err(Truncated)
    else if s[0] == 0 then Ok(s[1..])
    else if s[0] < 2 then Err(BadOption)
    else if |s| < s[0] then Err(Truncated)
    else Options(s[s[0]..])
  }

  predicate GoodMagic(data: seq<byte>) {
    |data| >= 8 && data[..6] == [1, 0, 0x6F, 0x36, 0x35, 0] && Word(data, 6) == 0x0800
  }

  /** The nine header words must describe contiguous text, data and BSS at the canonical base. */
  predicate GoodLayout(data: seq<byte>)
    requires |data| >= 26
  {
    var base, textSize, dataBase, dataSize := Word(data, 8), Word(data, 10), Word(data, 12), Word(data, 14);
    var bssBase, bss, zp, zpSize, stack := Word(data, 16), Word(data, 18), Word(data, 20), Word(data, 22),
      Word(data, 24);
    && base == CANONICAL_BASE && textSize != 0 && dataBase == base + textSize
    && bssBase == base + textSize + dataSize && base + textSize + dataSize + bss <= 0x10000
    && zp == 2 && zpSize <= 30 && stack == 0
  }

  function ParseTables(s: seq<byte>, textSize: nat, dataSize: nat): Result<(seq<Reloc>, seq<Reloc>,
      seq<byte>), O65Error> {
    match Table(s, -1, {}, false, textSize, [])
    case Err(e) => Err(e)
    case Ok((text, afterText)) =>
      match Table(afterText, -1, {}, false, dataSize, [])
      case Err(e) => Err(e)
      case Ok((data, rest)) => Ok((text, data, rest))
  }

  function ParseBody(s: seq<byte>, textSize: nat, dataSize: nat, bss: nat): Result<Object, O65Error> {
    var size := textSize + dataSize;
    if |s| < size + 2 then Err(Truncated)
    else if Word(s, size) != 0 then Err(Imports)
    else
      match ParseTables(s[size + 2..], textSize, dataSize)
      case Err(e) => Err(e)
      case Ok((text, data, rest)) =>
        if |rest| < 2 then Err(Truncated)
        else if Word(rest, 0) != 0 then Err(Exports)
        else if |rest| != 2 then Err(Trailing)
        else Ok(Object(textSize, dataSize, bss, s[..size], text, data))
  }

  /** The whole object file. */
  function Parse(data: seq<byte>): Result<Object, O65Error> {
    if |data| < 6 then Err(Truncated)
    else if data[..6] != [1, 0, 0x6F, 0x36, 0x35, 0] then Err(BadMagic)
    else if |data| < 8 then Err(Truncated)
    else if !GoodMagic(data) then Err(BadMagic)
    else if |data| < 26 then Err(Truncated)
    else if !GoodLayout(data) then Err(BadLayout)
    else
      match Options(data[26..])
      case Err(e) => Err(e)
      case Ok(body) => ParseBody(body, Word(data, 10), Word(data, 14), Word(data, 18))
  }

  // ----- what an accepted table is

  /** In order, without overlap, inside the segment. */
  ghost predicate TableSound(relocs: seq<Reloc>, size: nat) {
    && (forall i | 0 <= i < |relocs| :: relocs[i].address + relocs[i].Width() <= size && 1 <= relocs[i].target <= 5)
    && (forall i, j | 0 <= i < j < |relocs| :: relocs[i].address + relocs[i].Width() <= relocs[j].address)
  }

  /** `occupied` covers everything found, and nothing found starts past `address`. */
  ghost predicate Covers(found: seq<Reloc>, address: int, occupied: set<int>) {
    forall i | 0 <= i < |found| :: found[i].address <= address && Cells(found[i].address, found[i].Width()) <= occupied
  }

  /** Every occupied byte belongs to a relocation already found. */
  ghost predicate OnlyFound(found: seq<Reloc>, occupied: set<int>) {
    forall a | a in occupied :: exists i | 0 <= i < |found| ::
      found[i].address <= a < found[i].address + found[i].Width()
  }

  ghost predicate Reached(found: seq<Reloc>, address: int, occupied: set<int>) {
    Covers(found, address, occupied) && OnlyFound(found, occupied)
  }

  lemma LastEnds(found: seq<Reloc>, address: int, occupied: set<int>, r: Reloc, i: nat)
    requires Covers(found, address, occupied) && i < |found| && address < r.address
    requires occupied * Cells(r.address, r.Width()) == {}
    ensures found[i].address + found[i].Width() <= r.address
  {
    assert r.address in occupied ==> r.address in occupied * Cells(r.address, r.Width());
    assert found[i].Width() == 2 ==> found[i].address + 1 in Cells(found[i].address, found[i].Width());
  }

  lemma ReachedMore(found: seq<Reloc>, address: int, occupied: set<int>, r: Reloc, size: nat)
    requires Reached(found, address, occupied) && TableSound(found, size)
    requires address < r.address && r.address + r.Width() <= size && 1 <= r.target <= 5
    requires occupied * Cells(r.address, r.Width()) == {}
    ensures Reached(found + [r], r.address, occupied + Cells(r.address, r.Width()))
    ensures TableSound(found + [r], size)
  {
    SoundMore(found, address, occupied, r, size);
    CoverMore(found, address, occupied, r);
  }

  lemma SoundMore(found: seq<Reloc>, address: int, occupied: set<int>, r: Reloc, size: nat)
    requires Reached(found, address, occupied) && TableSound(found, size)
    requires address < r.address && r.address + r.Width() <= size && 1 <= r.target <= 5
    requires occupied * Cells(r.address, r.Width()) == {}
    ensures TableSound(found + [r], size)
  {
    hide Covers, OnlyFound, Cells;
    forall i | 0 <= i < |found| ensures found[i].address + found[i].Width() <= r.address {
      LastEnds(found, address, occupied, r, i);
    }
  }

  lemma CoverMore(found: seq<Reloc>, address: int, occupied: set<int>, r: Reloc)
    requires Reached(found, address, occupied) && address < r.address
    ensures Reached(found + [r], r.address, occupied + Cells(r.address, r.Width()))
  {
    var more := found + [r];
    forall i | 0 <= i < |more|
      ensures more[i].address <= r.address
      ensures Cells(more[i].address, more[i].Width()) <= occupied + Cells(r.address, r.Width())
    {
      if i < |found| { assert more[i] == found[i]; }
    }
    forall a | a in occupied + Cells(r.address, r.Width())
      ensures exists i | 0 <= i < |more| :: more[i].address <= a < more[i].address + more[i].Width()
    {
      if a in occupied {
        var i :| 0 <= i < |found| && found[i].address <= a < found[i].address + found[i].Width();
        assert more[i] == found[i];
      } else {
        assert more[|found|] == r;
      }
    }
  }

  /** Every accepted table is sound: strictly ordered, non-overlapping, inside its segment. */
  lemma {:induction false} AcceptedIsSound(s: seq<byte>, address: int, occupied: set<int>, escaping: bool, size: nat,
      found: seq<Reloc>)
    requires Reached(found, address, occupied) && TableSound(found, size) && address >= -1
    requires Table(s, address, occupied, escaping, size, found).Ok?
    ensures TableSound(Table(s, address, occupied, escaping, size, found).value.0, size)
    decreases |s|
  {
    hide Reached, TableSound;
    if s[0] == 0 {
    } else if s[0] == 255 {
      ReachedLater(found, address, occupied, address + 254);
      AcceptedIsSound(s[1..], address + 254, occupied, true, size, found);
    } else {
      var at, d := address + s[0], s[1];
      var kind := if d / 32 == 1 then Low else if d / 32 == 2 then High(s[2]) else WordKind;
      var r := Reloc(at, kind, d % 8);
      ReachedMore(found, address, occupied, r, size);
      AcceptedIsSound(s[if d / 32 == 2 then 3 else 2..], at, occupied + Cells(at, r.Width()), false, size, found + [r]);
    }
  }

  lemma ReachedLater(found: seq<Reloc>, address: int, occupied: set<int>, later: int)
    requires Reached(found, address, occupied) && address <= later
    ensures Reached(found, later, occupied)
  {
  }

  // ----- the 254-step escape form

  /** A forward step: escapes of 254 until 1..254 remain. */
  function Gap(g: nat): (s: seq<byte>)
    requires g > 0
    ensures |s| > 0
  {
    if g > 254 then [255] + Gap(g - 254) else [g]
  }

  ghost predicate Encodable(relocs: seq<Reloc>, address: int) {
    && (forall i | 0 <= i < |relocs| :: 1 <= relocs[i].target <= 5 && address < relocs[i].address)
    && (forall i, j | 0 <= i < j < |relocs| :: relocs[i].address < relocs[j].address)
  }

  lemma EncodableRest(relocs: seq<Reloc>, address: int)
    requires Encodable(relocs, address) && relocs != []
    ensures Encodable(relocs[1..], relocs[0].address)
  {
  }

  function Record(r: Reloc): seq<byte>
    requires 1 <= r.target <= 5
  {
    [Descriptor(r)] + if r.kind.High? then [r.kind.addend] else []
  }

  /** The canonical encoding of a table, from position `address` on. */
  ghost function Encode(relocs: seq<Reloc>, address: int): seq<byte>
    requires Encodable(relocs, address)
    decreases |relocs|
  {
    if relocs == [] then [0] else
      EncodableRest(relocs, address);
      Gap(relocs[0].address - address) + Record(relocs[0]) + Encode(relocs[1..], relocs[0].address)
  }

  /** One plain step of the loop. */
  lemma TableRecord(r: Reloc, address: int, occupied: set<int>, escaping: bool, size: nat, found: seq<Reloc>,
      rest: seq<byte>)
    requires 1 <= r.target <= 5 && address < r.address <= address + 254 && r.address + r.Width() <= size
    requires occupied * Cells(r.address, r.Width()) == {}
    ensures Table([r.address - address] + Record(r) + rest, address, occupied, escaping, size, found) ==
            Table(rest, r.address, occupied + Cells(r.address, r.Width()), false, size, found + [r])
  {
    var s := [r.address - address] + Record(r) + rest;
    assert s[1] == Descriptor(r);
    if r.kind.High? {
      assert s[2] == r.kind.addend && s[3..] == rest;
    } else {
      assert s[2..] == rest;
    }
  }

  lemma {:induction false} TableGap(r: Reloc, address: int, occupied: set<int>, escaping: bool, size: nat,
      found: seq<Reloc>, rest: seq<byte>)
    requires 1 <= r.target <= 5 && address < r.address && r.address + r.Width() <= size
    requires occupied * Cells(r.address, r.Width()) == {}
    ensures Table(Gap(r.address - address) + Record(r) + rest, address, occupied, escaping, size, found) ==
            Table(rest, r.address, occupied + Cells(r.address, r.Width()), false, size, found + [r])
    decreases r.address - address
  {
    hide Record, Cells;
    var g := r.address - address;
    if g > 254 {
      var s := Gap(g) + Record(r) + rest;
      TableGap(r, address + 254, occupied, true, size, found, rest);
      assert s[0] == 255 && s[1..] == Gap(g - 254) + Record(r) + rest;
    } else {
      TableRecord(r, address, occupied, escaping, size, found, rest);
    }
  }

  /** Decoding inverts encoding, whatever follows the table. */
  lemma {:induction false} DecodeEncoded(relocs: seq<Reloc>, address: int, occupied: set<int>, size: nat,
      found: seq<Reloc>, rest: seq<byte>)
    requires Encodable(relocs, address) && TableSound(found + relocs, size)
    requires Reached(found, address, occupied)
    ensures Table(Encode(relocs, address) + rest, address, occupied, false, size, found) == Ok((found + relocs, rest))
    decreases |relocs|
  {
    hide Reached, TableSound, Table, Encode, Encodable, Record, Gap, Cells;
    if relocs == [] {
      EmptyTable(address, occupied, size, found, rest);
      assert found + relocs == found;
    } else {
      var r, later := relocs[0], relocs[1..];
      EncodableRest(relocs, address);
      assert found + relocs == (found + [r]) + later;
      NextFits(found, relocs, address, occupied, size);
      EncodeStep(relocs, address, rest);
      TableGap(r, address, occupied, false, size, found, Encode(later, r.address) + rest);
      DecodeEncoded(later, r.address, occupied + Cells(r.address, r.Width()), size, found + [r], rest);
    }
  }

  lemma EmptyTable(address: int, occupied: set<int>, size: nat, found: seq<Reloc>, rest: seq<byte>)
    ensures Encodable([], address)
    ensures Table(Encode([], address) + rest, address, occupied, false, size, found) == Ok((found, rest))
  {
  }

  lemma EncodeStep(relocs: seq<Reloc>, address: int, rest: seq<byte>)
    requires Encodable(relocs, address) && relocs != []
    ensures Encodable(relocs[1..], relocs[0].address)
    ensures Encode(relocs, address) + rest ==
            Gap(relocs[0].address - address) + Record(relocs[0]) + (Encode(relocs[1..], relocs[0].address) + rest)
  {
    EncodableRest(relocs, address);
  }

  lemma NextFits(found: seq<Reloc>, relocs: seq<Reloc>, address: int, occupied: set<int>, size: nat)
    requires Encodable(relocs, address) && relocs != [] && TableSound(found + relocs, size)
    requires Reached(found, address, occupied)
    ensures var r := relocs[0];
      && 1 <= r.target <= 5 && address < r.address && r.address + r.Width() <= size
      && occupied * Cells(r.address, r.Width()) == {}
      && Reached(found + [r], r.address, occupied + Cells(r.address, r.Width()))
  {
    var r := relocs[0];
    assert (found + relocs)[|found|] == r;
    forall a | a in occupied ensures a < r.address {
      var i :| 0 <= i < |found| && found[i].address <= a < found[i].address + found[i].Width();
      assert (found + relocs)[i] == found[i];
    }
    forall i | 0 <= i < |found| ensures found[i] == (found + relocs)[i] {}
    ReachedMore(found, address, occupied, r, size);
  }

  /** Only the canonical encoding is accepted: the bytes read are exactly the encoding of the result. */
  lemma {:induction false} AcceptedIsCanonical(s: seq<byte>, address: int, occupied: set<int>, escaping: bool,
      size: nat, found: seq<Reloc>)
    requires Table(s, address, occupied, escaping, size, found).Ok? && address >= -1
    ensures var (relocs, rest) := Table(s, address, occupied, escaping, size, found).value;
      && found <= relocs && Encodable(relocs[|found|..], address)
      && (escaping ==> |found| < |relocs|)
      && s == Encode(relocs[|found|..], address) + rest
    decreases |s|
  {
    hide Encode, Gap, Record, Descriptor;
    var (relocs, rest) := Table(s, address, occupied, escaping, size, found).value;
    if s[0] == 0 {
      NothingEncoded(address);
      assert s == [0] + s[1..] && relocs[|found|..] == [];
    } else if s[0] == 255 {
      AcceptedIsCanonical(s[1..], address + 254, occupied, true, size, found);
      EscapeJoins(relocs[|found|..], address, rest);
      assert s == [255] + s[1..];
    } else {
      var at, d := address + s[0], s[1];
      var kind := if d / 32 == 1 then Low else if d / 32 == 2 then High(s[2]) else WordKind;
      var r := Reloc(at, kind, d % 8);
      var after := s[if d / 32 == 2 then 3 else 2..];
      AcceptedIsCanonical(after, at, occupied + Cells(at, r.Width()), false, size, found + [r]);
      RecordJoins(relocs, found, r, address, rest, after);
      RecordBack(s, r, d, after);
    }
  }

  lemma NothingEncoded(address: int)
    ensures Encode([], address) == [0]
  {
  }

  lemma RecordBack(s: seq<byte>, r: Reloc, d: byte, after: seq<byte>)
    requires |s| >= 2 && s[1] == d && GoodDescriptor(d) && r.target == d % 8
    requires if d / 32 == 1 then r.kind.Low? && after == s[2..]
             else if d / 32 == 2 then |s| >= 3 && r.kind == High(s[2]) && after == s[3..]
             else r.kind.WordKind? && after == s[2..]
    ensures s == [s[0]] + Record(r) + after
  {
    DescriptorBack(d, r.kind);
  }

  lemma DescriptorBack(d: byte, kind: Kind)
    requires GoodDescriptor(d)
    requires if d / 32 == 1 then kind.Low? else if d / 32 == 2 then kind.High? else kind.WordKind?
    ensures Descriptor(Reloc(0, kind, d % 8)) == d
  {
  }

  lemma Front(a: seq<byte>, b: seq<byte>, c: seq<byte>, d: seq<byte>)
    ensures (a + b) + c + d == a + (b + c + d)
  {
  }

  lemma GapStep(g: nat)
    requires g > 254
    ensures Gap(g) == [255] + Gap(g - 254)
  {
  }

  lemma EncodableEarlier(relocs: seq<Reloc>, address: int)
    requires Encodable(relocs, address + 254) && relocs != []
    ensures Encodable(relocs, address) && relocs[0].address > address + 254
  {
  }

  lemma EscapeJoins(relocs: seq<Reloc>, address: int, rest: seq<byte>)
    requires Encodable(relocs, address + 254) && relocs != []
    ensures Encodable(relocs, address)
    ensures Encode(relocs, address) + rest == [255] + (Encode(relocs, address + 254) + rest)
  {
    hide Encode, Record, Gap, Encodable;
    EncodableEarlier(relocs, address);
    EncodeStep(relocs, address, rest);
    EncodeStep(relocs, address + 254, rest);
    var g := relocs[0].address - address;
    GapStep(g);
    Front([255], Gap(g - 254), Record(relocs[0]), Encode(relocs[1..], relocs[0].address) + rest);
  }

  lemma RecordJoins(relocs: seq<Reloc>, found: seq<Reloc>, r: Reloc, address: int, rest: seq<byte>, after: seq<byte>)
    requires found + [r] <= relocs && Encodable(relocs[|found| + 1..], r.address)
    requires 1 <= r.target <= 5 && address < r.address <= address + 254
    requires after == Encode(relocs[|found| + 1..], r.address) + rest
    ensures found <= relocs && Encodable(relocs[|found|..], address)
    ensures Encode(relocs[|found|..], address) + rest == [r.address - address] + Record(r) + after
  {
    var tail := relocs[|found|..];
    assert tail[0] == relocs[|found|] == (found + [r])[|found|];
    assert tail[1..] == relocs[|found| + 1..];
    forall i | 1 <= i < |tail| ensures tail[i] == tail[1..][i - 1] {}
    EncodableRest(tail, address);
  }
}
