/** The secondary boot envelope: `wrap_storage` and `install_bootfs` of build_storage.py. */
module Storage {
  import opened Bytes
  import opened Overlay

  const BASE: nat := 0x1200
  const LIMIT: nat := 0xE900
  const BOOTFS_BASE: nat := 0xA000
  const BOOTFS_LIMIT: nat := 0xB000

  datatype StorageError =
    | BadEnvelope | BadModule | BadLookup | BadPolicy | BadShell | BadHidden | BadLoader | BadGraphics | BadRelocation
    | Occupied

  datatype Inputs = Inputs(payload: seq<byte>, service: seq<byte>, policy: seq<byte>, driver: seq<byte>, ush: seq<byte>,
                           lookup: seq<byte>, loader: seq<byte>, graphics: seq<byte>, reloc: seq<byte>,
                             access: seq<byte>,
                           paths: seq<byte>, hidden: seq<byte>, installer: seq<byte>)

  datatype Part = Part(at: nat, data: seq<byte>) {
    predicate Fits() { BASE <= at && at + |data| <= LIMIT }
    predicate Inside(lo: nat, hi: nat) { lo <= at && at + |data| <= hi }
    predicate Outside(lo: nat, hi: nat) { at + |data| <= lo || hi <= at }
  }

  predicate AllFit(parts: seq<Part>) { forall i | 0 <= i < |parts| :: parts[i].Fits() }

  function Put(image: seq<byte>, p: Part): (r: seq<byte>)
    requires |image| == LIMIT - BASE && p.Fits()
    ensures |r| == |image|
  {
    Splice(image, p.at - BASE, p.data)
  }

  /** The first n slice assignments. */
  function PutAll(image: seq<byte>, parts: seq<Part>, n: nat): (r: seq<byte>)
    requires |image| == LIMIT - BASE && AllFit(parts) && n <= |parts|
    ensures |r| == |image|
    decreases n
  {
    if n == 0 then image else Put(PutAll(image, parts, n - 1), parts[n - 1])
  }

  predicate HasId(blob: seq<byte>, id: seq<byte>) { |blob| >= 9 && blob[3..9] == id }

  const UIEC1: seq<byte> := [0x55, 0x49, 0x45, 0x43, 0, 1]
  const UIEC3: seq<byte> := [0x55, 0x49, 0x45, 0x43, 0, 3]
  const ULKP: seq<byte> := [0x55, 0x4C, 0x4B, 0x50, 0, 1]
  const BLOD: seq<byte> := [0x42, 0x4C, 0x4F, 0x44, 0, 1]
  const BREL: seq<byte> := [0x42, 0x52, 0x45, 0x4C, 0, 1]
  const BACC: seq<byte> := [0x42, 0x41, 0x43, 0x43, 0, 1]

  predicate WantsHidden(i: Inputs) { i.hidden != [] || i.installer != [] }

  function CheckInputs(i: Inputs): Option<StorageError> {
    if |i.payload| < 2 || (Word(i.payload, 0) != 0x4200 && Word(i.payload, 0) != 0x5000)
       || Word(i.payload, 0) + |i.payload| - 2 > 0x8000 then Some(BadEnvelope)
    else if |i.service| > 0x800 || !HasId(i.service, if WantsHidden(i) then UIEC3 else UIEC1) then Some(BadModule)
    else if |i.lookup| > 0x600 || !HasId(i.lookup, ULKP) then Some(BadLookup)
    else if i.policy == [] || |i.policy| > 0x2000 || i.driver == [] || |i.driver| > 0x600 then Some(BadPolicy)
    else if i.ush == [] || |i.ush| + 0x170 > 0x1000 then Some(BadShell)
    else None
  }

  function BaseParts(i: Inputs): seq<Part>
    requires |i.payload| >= 2
  {
    [Part(BASE, i.service), Part(0x1A00, i.lookup), Part(Word(i.payload, 0), i.payload[2..]), Part(0xB000, i.policy),
      Part(0xE300, i.driver)]
  }

  function CheckHidden(i: Inputs): Option<StorageError> {
    if !(0 < |i.hidden| <= 0xF00) || !(9 < |i.installer| <= 0x100) || i.installer[0] != 0x4C
       || !HasId(i.installer, [0x53, 0x49, 0x4E, 0x53, 0, 1]) then Some(BadHidden) else None
  }

  function HiddenParts(i: Inputs): (parts: seq<Part>)
    ensures CheckHidden(i).None? ==> AllFit(parts)
  {
    [Part(0x2300, Padded(i.hidden, 0xF00)), Part(0x3200, i.installer)]
  }

  function CheckLoader(i: Inputs): Option<StorageError> {
    if |i.loader| > 0x700 || !HasId(i.loader, BLOD) || i.loader[0] != 0x4C then Some(BadLoader) else None
  }

  function LoaderParts(i: Inputs): (parts: seq<Part>)
    ensures CheckLoader(i).None? ==> AllFit(parts)
  {
    [Part(0xD900, i.loader)]
  }

  function CheckGraphics(i: Inputs): Option<StorageError> {
    if i.paths != [] then
      (if |i.graphics| != 0x700 || |i.paths| != 0x3F0 || |i.policy| > 0x1600 then Some(BadGraphics) else None)
    else if |i.graphics| != 0x600 || |i.policy| > 0x1700 then Some(BadGraphics) else None
  }

  function GraphicsParts(i: Inputs): (parts: seq<Part>)
    ensures CheckGraphics(i).None? ==> AllFit(parts)
  {
    if i.paths != [] then [Part(0xC600, i.graphics), Part(0xCD00, i.paths)] else [Part(0xC700, i.graphics)]
  }

  function GraphicsLow(i: Inputs): nat { if i.paths != [] then 0xC600 else 0xC700 }

  function GraphicsHigh(i: Inputs): nat { if i.paths != [] then 0xD100 else 0xD000 }

  predicate WantsRelocation(i: Inputs) { i.reloc != [] || i.access != [] }

  function CheckBlob(blob: seq<byte>, capacity: nat, id: seq<byte>): Option<StorageError> {
    if !(9 < |blob| <= capacity) || blob[0] != 0x4C || !HasId(blob, id) then Some(BadRelocation) else None
  }

  function CheckRelocation(i: Inputs): Option<StorageError> {
    if i.loader == [] || |i.service| > 0x680 || |i.lookup| > 0x500 then Some(BadRelocation)
    else CheckBlob(i.reloc, 0x180, BREL)
  }

  /** One optional delivery: its checks, the test that its reservation is still zero, its writes. */
  function Deliver(r: Result<seq<byte>, StorageError>, wanted: bool, fault: Option<StorageError>, lo: nat, hi: nat,
      parts: seq<Part>)
      : (s: Result<seq<byte>, StorageError>)
    requires r.Ok? ==> |r.value| == LIMIT - BASE
    requires BASE <= lo <= hi <= LIMIT && (wanted && fault.None? ==> AllFit(parts))
    ensures s.Ok? ==> |s.value| == LIMIT - BASE
  {
    if r.Err? || !wanted then r
    else if fault.Some? then Err(fault.value)
    else if !AllZero(r.value[lo - BASE..hi - BASE]) then Err(Occupied)
    else Ok(PutAll(r.value, parts, |parts|))
  }

  /** `wrap_storage`, without the hidden-bitmap tail. */
  function Compose(i: Inputs): (s: Result<seq<byte>, StorageError>)
    ensures s.Ok? ==> |s.value| == LIMIT - BASE
  {
    var fault := CheckInputs(i);
    if fault.Some? then Err(fault.value) else
      var base := Ok(PutAll(Zeros(LIMIT - BASE), BaseParts(i), 5));
      var hidden := Deliver(base, WantsHidden(i), CheckHidden(i), 0x2300, 0x3300, HiddenParts(i));
      var loader := Deliver(hidden, i.loader != [], CheckLoader(i), 0xD900, 0xE000, LoaderParts(i));
      var graphics := Deliver(loader, i.paths != [] || i.graphics != [], CheckGraphics(i), GraphicsLow(i),
        GraphicsHigh(i), GraphicsParts(i));
      var reloc := Deliver(graphics, WantsRelocation(i), CheckRelocation(i), 0x1880, 0x1A00, [Part(0x1880, i.reloc)]);
      Deliver(reloc, WantsRelocation(i), CheckBlob(i.access, 0x100, BACC), 0x1F00, 0x2000, [Part(0x1F00, i.access)])
  }

  function WrapStorage(i: Inputs): Result<seq<byte>, StorageError> {
    var image := Compose(i);
    if image.Err? then image else Ok(Le16(BASE) + image.value)
  }

  datatype BootfsError = NotSecondary | NoIdentity | NotEmpty | BadBootfs | BadBootfsSize

  const FS_AT: nat := 2 + BOOTFS_BASE - BASE
  const FS_END: nat := 2 + BOOTFS_LIMIT - BASE

  /** `install_bootfs`. */
  function InstallBootfs(payload: seq<byte>, bootfs: seq<byte>): Result<seq<byte>, BootfsError> {
    if |payload| != 2 + LIMIT - BASE || payload[..2] != Le16(BASE) then Err(NotSecondary)
    else if payload[5..11] != UIEC1 && payload[5..11] != UIEC3 then Err(NoIdentity)
    else if !AllZero(payload[FS_AT..FS_END]) then Err(NotEmpty)
    else if |bootfs| < 16 || bootfs[..6] != [0x55, 0x42, 0x46, 0x53, 0, 1] ||
      |bootfs| > BOOTFS_LIMIT - BOOTFS_BASE then Err(BadBootfs)
    else if Word(bootfs, 12) != |bootfs| then Err(BadBootfsSize)
    else Ok(payload[..FS_AT] + Padded(bootfs, BOOTFS_LIMIT - BOOTFS_BASE) + payload[FS_END..])
  }

  // ----- as it runs

  function State(error: Option<StorageError>, image: seq<byte>): Result<seq<byte>, StorageError> {
    if error.Some? then Err(error.value) else Ok(image)
  }

  method PutParts(image: array<byte>, parts: seq<Part>)
    requires image.Length == LIMIT - BASE && AllFit(parts)
    modifies image
    ensures image[..] == PutAll(old(image[..]), parts, |parts|)
  {
    hide Splice;
    ghost var before := image[..];
    for n := 0 to |parts|
      invariant image[..] == PutAll(before, parts, n)
    {
      Store(image, parts[n].at - BASE, parts[n].data);
    }
  }

  method StillZero(image: array<byte>, lo: nat, hi: nat) returns (zero: bool)
    requires lo <= hi <= image.Length
    ensures zero <==> AllZero(image[lo..hi])
  {
    for k := lo to hi
      invariant forall j | lo <= j < k :: image[j] == 0
    {
      if image[k] != 0 {
        assert image[lo..hi][k - lo] != 0;
        return false;
      }
    }
    return true;
  }

  /** One stage of the deliveries; nothing happens once a stage has failed. */
  method DeliverInPlace(image: array<byte>, failed: Option<StorageError>, wanted: bool, fault: Option<StorageError>,
                        lo: nat, hi: nat, parts: seq<Part>) returns (error: Option<StorageError>)
    requires image.Length == LIMIT - BASE && BASE <= lo <= hi <= LIMIT && (wanted && fault.None? ==> AllFit(parts))
    modifies image
    ensures State(error, image[..]) == Deliver(State(failed, old(image[..])), wanted, fault, lo, hi, parts)
  {
    hide PutAll, AllZero;
    if failed.Some? || !wanted { return failed; }
    if fault.Some? { return fault; }
    var zero := StillZero(image, lo - BASE, hi - BASE);
    if !zero { return Some(Occupied); }
    PutParts(image, parts);
    return None;
  }

  method BuildStorage(i: Inputs) returns (r: Result<seq<byte>, StorageError>)
    ensures r == WrapStorage(i)
  {
    hide HasId, PutAll, Splice, AllZero, Deliver;
    var fault := CheckInputs(i);
    if fault.Some? { return Err(fault.value); }
    var image := new byte[LIMIT - BASE](_ => 0);
    assert image[..] == Zeros(LIMIT - BASE);
    PutParts(image, BaseParts(i));
    var error := DeliverInPlace(image, None, WantsHidden(i), CheckHidden(i), 0x2300, 0x3300, HiddenParts(i));
    error := DeliverInPlace(image, error, i.loader != [], CheckLoader(i), 0xD900, 0xE000, LoaderParts(i));
    error := DeliverInPlace(image, error, i.paths != [] || i.graphics != [], CheckGraphics(i), GraphicsLow(i),
      GraphicsHigh(i), GraphicsParts(i));
    error := DeliverInPlace(image, error, WantsRelocation(i), CheckRelocation(i), 0x1880, 0x1A00,
      [Part(0x1880, i.reloc)]);
    error := DeliverInPlace(image, error, WantsRelocation(i), CheckBlob(i.access, 0x100, BACC), 0x1F00, 0x2000,
      [Part(0x1F00, i.access)]);
    if error.Some? { return Err(error.value); }
    return Ok(Le16(BASE) + image[..]);
  }
}
