/** UDEX executables: `build_executable` of build_udex.py. */
module Udex {
  import opened Bytes

  datatype UdexError = BadCpu | BadFlags | FlagConflict | BadSize | BadLoad | BadBss | DoesNotFit | BadEntry

  const MAGIC: seq<byte> := [0x55, 0x44, 0x45, 0x58]

  function Header(minor: byte, cpu: byte, flags: byte, load: nat, size: nat, bss: nat, entry: nat): (h: seq<byte>)
    requires load < 0x10000 && size < 0x10000 && bss < 0x10000 && entry < 0x10000
    ensures |h| == 16
    ensures h[..4] == [0x55, 0x44, 0x45, 0x58] && h[4..8] == [0, minor, cpu, flags]
    ensures Word(h, 8) == load && Word(h, 10) == size && Word(h, 12) == bss && Word(h, 14) == entry
  {
    var h := MAGIC + [0, minor, cpu, flags] + Le16(load) + Le16(size) + Le16(bss) + Le16(entry);
    assert h[8] == Le16(load)[0] && h[9] == Le16(load)[1];
    assert h[10] == Le16(size)[0] && h[11] == Le16(size)[1];
    assert h[12] == Le16(bss)[0] && h[13] == Le16(bss)[1];
    assert h[14] == Le16(entry)[0] && h[15] == Le16(entry)[1];
    h
  }

  /** `flags & ~3` is nonzero exactly when flags reaches 4; 3 is the conflicting pair. */
  function BuildExecutable(image: seq<byte>, cpu: byte, load: int, entry: int, bss: int,
      flags: byte): Result<seq<byte>, UdexError> {
    if cpu != 1 && cpu != 2 then Err(BadCpu)
    else if flags >= 4 then Err(BadFlags)
    else if flags == 3 then Err(FlagConflict)
    else if image == [] || |image| > 0xFFFF then Err(BadSize)
    else if !(0 <= load <= 0xFFFF) then Err(BadLoad)
    else if !(0 <= bss <= 0xFFFF) then Err(BadBss)
    else if load + |image| > 0x10000 || load + |image| + bss > 0x10000 then Err(DoesNotFit)
    else if !(load <= entry < load + |image|) then Err(BadEntry)
    else Ok(Header(1, cpu, flags, load, |image|, bss, entry) + image)
  }
}
