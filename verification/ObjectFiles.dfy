/** The o65 object file as a format: what an accepted file is, byte by byte, and that reading and
    writing it are inverse. */
module ObjectFiles {
  import opened Bytes
  import opened Sorting
  import opened Udex
  import opened O65
  import opened Relocator

  // ----- the written form

  /** Escapes of 254 until 1 to 254 remain; type $20, $40 or $80 with the segment number. */
  lemma EncodingIs(g: nat, r: Reloc)
    requires g > 0 && 1 <= r.target <= 5
    ensures g <= 254 ==> Gap(g) == [g]
    ensures Gap(g + 254) == [255] + Gap(g)
    ensures r.kind.Low? ==> Record(r) == [0x20 + r.target]
    ensures r.kind.High? ==> Record(r) == [0x40 + r.target, r.kind.addend]
    ensures r.kind.WordKind? ==> Record(r) == [0x80 + r.target]
  {
  }

  /** Option records: a length that counts itself, then at least one byte. */
  predicate GoodRecords(records: seq<seq<byte>>) {
    forall i | 0 <= i < |records| :: 1 <= |records[i]| <= 254
  }

  ghost function OptionBytes(records: seq<seq<byte>>): (s: seq<byte>)
    requires GoodRecords(records)
    decreases |records|
  {
    if records == [] then [0] else [|records[0]| + 1] + records[0] + OptionBytes(records[1..])
  }

  /** An object file: magic and mode, nine layout words, options, image, no imports, the two
      relocation tables, no exports. */
  ghost predicate IsObjectFile(data: seq<byte>, obj: Object, records: seq<seq<byte>>, zp: nat) {
    && Encodable(obj.text, -1) && Encodable(obj.data, -1) && GoodRecords(records) && zp <= 30
    && |data| >= 26 && data[..8] == [1, 0, 0x6F, 0x36, 0x35, 0, 0, 8]
    && WordIs(data, 8, 0x1000) && WordIs(data, 10, obj.textSize)
    && WordIs(data, 12, 0x1000 + obj.textSize) && WordIs(data, 14, obj.dataSize)
    && WordIs(data, 16, 0x1000 + obj.textSize + obj.dataSize) && WordIs(data, 18, obj.bss)
    && WordIs(data, 20, 2) && WordIs(data, 22, zp) && WordIs(data, 24, 0)
    && data[26..] == OptionBytes(records) + BodyBytes(obj)
  }

  ghost function BodyBytes(obj: Object): seq<byte>
    requires Encodable(obj.text, -1) && Encodable(obj.data, -1)
  {
    obj.image + [0, 0] + (Encode(obj.text, -1) + (Encode(obj.data, -1) + [0, 0]))
  }

  /** The addresses of a sound object increase, so its tables can be written. */
  lemma SoundEncodable(relocs: seq<Reloc>, size: nat)
    requires TableSound(relocs, size)
    ensures Encodable(relocs, -1)
  {
  }

  // ----- options

  lemma {:induction false} OptionsRead(records: seq<seq<byte>>, rest: seq<byte>)
    requires GoodRecords(records)
    ensures Options(OptionBytes(records) + rest) == Ok(rest)
    decreases |records|
  {
    var s := OptionBytes(records) + rest;
    if records == [] {
      assert s[1..] == rest;
    } else {
      OptionsRead(records[1..], rest);
      assert s[0] == |records[0]| + 1 && s[s[0]..] == OptionBytes(records[1..]) + rest;
    }
  }

  lemma {:induction false} OptionsWritten(s: seq<byte>) returns (records: seq<seq<byte>>)
    requires Options(s).Ok?
    ensures GoodRecords(records) && s == OptionBytes(records) + Options(s).value
    decreases |s|
  {
    if s[0] == 0 {
      records := [];
      assert s == [0] + s[1..];
    } else {
      var later := OptionsWritten(s[s[0]..]);
      records := [s[1..s[0]]] + later;
      assert records[1..] == later;
      assert s == [s[0]] + s[1..s[0]] + s[s[0]..];
    }
  }

  // ----- the body

  lemma BodyRead(obj: Object)
    requires ObjectSound(obj)
    ensures Encodable(obj.text, -1) && Encodable(obj.data, -1)
    ensures ParseBody(BodyBytes(obj), obj.textSize, obj.dataSize, obj.bss) == Ok(obj)
  {
    hide Table, Encode, TableSound, Encodable;
    SoundEncodable(obj.text, obj.textSize);
    SoundEncodable(obj.data, obj.dataSize);
    var s, size, last := BodyBytes(obj), obj.Size(), [0, 0];
    var tables := Encode(obj.text, -1) + (Encode(obj.data, -1) + last);
    assert s[size + 2..] == tables && s[..size] == obj.image && s[size] == 0 && s[size + 1] == 0;
    TableRead(obj.text, obj.textSize, Encode(obj.data, -1) + last);
    TableRead(obj.data, obj.dataSize, last);
  }

  lemma TableRead(relocs: seq<Reloc>, size: nat, rest: seq<byte>)
    requires TableSound(relocs, size) && Encodable(relocs, -1)
    ensures Table(Encode(relocs, -1) + rest, -1, {}, false, size, []) == Ok((relocs, rest))
  {
    assert [] + relocs == relocs;
    DecodeEncoded(relocs, -1, {}, size, [], rest);
  }

  lemma BodyWritten(s: seq<byte>, textSize: nat, dataSize: nat, bss: nat)
    requires ParseBody(s, textSize, dataSize, bss).Ok?
    ensures var obj := ParseBody(s, textSize, dataSize, bss).value;
      && Encodable(obj.text, -1) && Encodable(obj.data, -1) && s == BodyBytes(obj)
  {
    hide Table, Encode, TableSound, Encodable;
    var obj, size := ParseBody(s, textSize, dataSize, bss).value, textSize + dataSize;
    var t := s[size + 2..];
    var (text, after) := Table(t, -1, {}, false, textSize, []).value;
    var (data, rest) := Table(after, -1, {}, false, dataSize, []).value;
    AcceptedIsCanonical(t, -1, {}, false, textSize, []);
    AcceptedIsCanonical(after, -1, {}, false, dataSize, []);
    assert text[0..] == text && data[0..] == data;
    assert rest == [0, 0];
    assert s[size..size + 2] == [0, 0];
    assert s == s[..size] + s[size..size + 2] + t;
  }

  // ----- the file

  lemma HeaderRead(data: seq<byte>, obj: Object, records: seq<seq<byte>>, zp: nat)
    requires ObjectSound(obj) && IsObjectFile(data, obj, records, zp)
    ensures |data| >= 26 && data[..6] == [1, 0, 0x6F, 0x36, 0x35, 0] && GoodMagic(data) && GoodLayout(data)
    ensures Word(data, 10) == obj.textSize && Word(data, 14) == obj.dataSize && Word(data, 18) == obj.bss
  {
    assert data[..6] == data[..8][..6] && data[6] == data[..8][6] && data[7] == data[..8][7];
    hide TableSound, Encodable, Encode, OptionBytes, BodyBytes, GoodRecords;
  }

  /** Every object file parses back to its object. */
  lemma ParseWritten(data: seq<byte>, obj: Object, records: seq<seq<byte>>, zp: nat)
    requires ObjectSound(obj) && IsObjectFile(data, obj, records, zp)
    ensures Parse(data) == Ok(obj)
  {
    HeaderRead(data, obj, records, zp);
    OptionsRead(records, BodyBytes(obj));
    BodyRead(obj);
    hide GoodMagic, GoodLayout, ParseBody, Options, ObjectSound, Encodable, Encode;
  }

  /** Every accepted file is an object file of the object it yields. */
  lemma ParsedIsWritten(data: seq<byte>) returns (records: seq<seq<byte>>, zp: nat)
    requires Parse(data).Ok?
    ensures ObjectSound(Parse(data).value) && IsObjectFile(data, Parse(data).value, records, zp)
  {
    hide Table, Encodable, Encode, OptionBytes, TableSound, GoodRecords, BodyBytes;
    ParsedIsSound(data);
    records := OptionsWritten(data[26..]);
    zp := Word(data, 22);
    BodyWritten(Options(data[26..]).value, Word(data, 10), Word(data, 14), Word(data, 18));
    hide ParseBody, Options, ObjectSound;
    assert data[..8] == data[..6] + [data[6], data[7]];
  }

  /** A file is accepted exactly when it is the object file of some sound object, which is then the
      result. */
  lemma ParsesExactly(data: seq<byte>)
    ensures Parse(data).Ok? <==>
      exists obj, records, zp: nat :: ObjectSound(obj) && IsObjectFile(data, obj, records, zp)
    ensures forall obj, records, zp: nat | ObjectSound(obj) && IsObjectFile(data, obj, records, zp) ::
      Parse(data) == Ok(obj)
  {
    hide Parse, ObjectSound, IsObjectFile;
    forall obj, records, zp: nat | ObjectSound(obj) && IsObjectFile(data, obj, records, zp)
      ensures Parse(data) == Ok(obj)
    {
      ParseWritten(data, obj, records, zp);
    }
    if Parse(data).Ok? {
      var records, zp := ParsedIsWritten(data);
    }
  }

  /** An object is packed exactly when the entry lies in its image and the file stays below 64 KiB. */
  lemma PacksExactly(data: seq<byte>, entry: int)
    ensures Pack(data, entry).Ok? <==>
      && Parse(data).Ok? && 0x1000 <= entry < 0x1000 + |Parse(data).value.image|
      && 18 + |Parse(data).value.image| + 2 * |Patches(Parse(data).value)| <= 0xFFFF
  {
    hide Parse, Patches, Sort, Words, Elements, TableSound, Header;
    if Parse(data).Ok? {
      ParsedIsSound(data);
      SortNeverActs(Parse(data).value);
    }
  }
}
