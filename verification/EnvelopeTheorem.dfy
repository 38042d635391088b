/** Through all the wrappings, every published address still selects its component. */
module EnvelopeTheorem {
  import opened Bytes
  import opened Overlay
  import opened Storage
  import opened StorageProofs
  import Bootfs
  import BootfsProofs
  import BootfsTheorem

  lemma HeldIsSelected(image: seq<byte>, p: Part)
    requires |image| == LIMIT - BASE && Holds(image, p)
    ensures Selects(Le16(BASE) + image, p.at, p.data)
  {
    var q := Le16(BASE) + image;
    LoadWord(BASE, image, q);
    assert q[2..] == image;
    assert q[2 + p.at - BASE..2 + p.at - BASE + |p.data|] == q[2..][p.at - BASE..p.at - BASE + |p.data|];
  }

  /** Every part reads back at its address. */
  ghost predicate AllSelected(p: seq<byte>, parts: seq<Part>) {
    forall k | 0 <= k < |parts| :: Selects(p, parts[k].at, parts[k].data)
  }

  /** The overlap tests never fire; on success the parts lie apart and each reads back where it was put. */
  lemma AllDelivered(i: Inputs)
    ensures WrapStorage(i) != Err(Occupied)
    ensures WrapStorage(i).Ok? ==>
      var p := WrapStorage(i).value;
      && |i.payload| >= 2 && |p| == 2 + LIMIT - BASE && Word(p, 0) == BASE
      && Spread(AllParts(i)) && AllFit(AllParts(i))
      && AllSelected(p, AllParts(i))
  {
    if CheckInputs(i).None? {
      assert |i.payload| >= 2;
      hide Compose, AllParts, CheckInputs, PutAll, Holds, Selects, Spread, AllFit;
      ComposeDelivered(i);
      if Compose(i).Ok? {
        var image, parts := Compose(i).value, AllParts(i);
        LoadWord(BASE, image, Le16(BASE) + image);
        forall k | 0 <= k < |parts| ensures Selects(Le16(BASE) + image, parts[k].at, parts[k].data) {
          PutsHold(Zeros(LIMIT - BASE), parts, |parts|, k);
          HeldIsSelected(image, parts[k]);
        }
      }
    }
  }

  // ----- the envelope in plain addresses

  /** The bytes a part of `n` bytes at `at` is loaded over. */
  predicate Covers(at: int, n: nat, a: int) { at <= a < at + n }

  /** Loaded at $1200, the envelope puts the data at the address. */
  predicate LoadsAt(p: seq<byte>, at: int, data: seq<byte>) {
    && |p| == 2 + 0xD700 && 0x1200 <= at && at + |data| <= 0xE900
    && p[2 + at - 0x1200..2 + at - 0x1200 + |data|] == data
  }

  /** Every component of the storage envelope at its own address. */
  ghost predicate StorageAt(p: seq<byte>, i: Inputs) {
    && |p| == 2 + 0xD700 && WordIs(p, 0, 0x1200) && |i.payload| >= 2
    && LoadsAt(p, 0x1200, i.service) && LoadsAt(p, 0x1A00, i.lookup)
    && LoadsAt(p, (i.payload[0] as int) + 256 * (i.payload[1] as int), i.payload[2..])
    && LoadsAt(p, 0xB000, i.policy) && LoadsAt(p, 0xE300, i.driver)
    && (i.hidden != [] || i.installer != [] ==>
          && |i.hidden| <= 0xF00 && LoadsAt(p, 0x2300, i.hidden + Zeros(0xF00 - |i.hidden|))
          && LoadsAt(p, 0x3200, i.installer))
    && (i.loader != [] ==> LoadsAt(p, 0xD900, i.loader))
    && (i.paths != [] ==> LoadsAt(p, 0xC600, i.graphics) && LoadsAt(p, 0xCD00, i.paths))
    && (i.paths == [] && i.graphics != [] ==> LoadsAt(p, 0xC700, i.graphics))
    && (i.reloc != [] || i.access != [] ==> LoadsAt(p, 0x1880, i.reloc) && LoadsAt(p, 0x1F00, i.access))
  }

  /** The addresses that belong to no component. */
  ghost predicate Vacant(i: Inputs, a: int)
    requires |i.payload| >= 2
  {
    && !Covers(0x1200, |i.service|, a) && !Covers(0x1A00, |i.lookup|, a)
    && !Covers((i.payload[0] as int) + 256 * (i.payload[1] as int), |i.payload| - 2, a)
    && !Covers(0xB000, |i.policy|, a) && !Covers(0xE300, |i.driver|, a)
    && (i.hidden != [] || i.installer != [] ==> !Covers(0x2300, 0xF00, a) && !Covers(0x3200, |i.installer|, a))
    && !Covers(0xD900, |i.loader|, a)
    && (if i.paths != [] then !Covers(0xC600, |i.graphics|, a) && !Covers(0xCD00, |i.paths|, a)
        else !Covers(0xC700, |i.graphics|, a))
    && (i.reloc != [] || i.access != [] ==> !Covers(0x1880, |i.reloc|, a) && !Covers(0x1F00, |i.access|, a))
  }

  lemma SelectedLoads(p: seq<byte>, at: nat, data: seq<byte>)
    requires |p| == 2 + 0xD700 && Word(p, 0) == 0x1200 && Selects(p, at, data)
    ensures LoadsAt(p, at, data)
  {
  }

  /** A part of the envelope reads back, whichever group it is in. */
  lemma PartLoads(p: seq<byte>, i: Inputs, n: nat, part: Part)
    requires |i.payload| >= 2 && n < 6 && part in Group(i, n) && AllSelected(p, AllParts(i))
    requires |p| == 2 + 0xD700 && Word(p, 0) == 0x1200
    ensures LoadsAt(p, part.at, part.data)
  {
    hide Group, LoadsAt, Selects;
    var all := AllParts(i);
    assert part in all;
    var k :| 0 <= k < |all| && all[k] == part;
    SelectedLoads(p, all[k].at, all[k].data);
  }

  lemma PaddedIs(data: seq<byte>, n: nat)
    requires |data| <= n
    ensures Padded(data, n) == data + Zeros(n - |data|)
  {
  }

  lemma PartsAt(p: seq<byte>, i: Inputs)
    requires ChecksPass(i) && |p| == 2 + 0xD700 && Word(p, 0) == 0x1200
    requires |i.payload| >= 2 && AllSelected(p, AllParts(i))
    ensures StorageAt(p, i)
  {
    hide AllSelected, AllParts, LoadsAt, HasId, Padded;
    PartLoads(p, i, 0, Part(0x1200, i.service));
    PartLoads(p, i, 0, Part(0x1A00, i.lookup));
    PartLoads(p, i, 0, Part((i.payload[0] as int) + 256 * (i.payload[1] as int), i.payload[2..]));
    PartLoads(p, i, 0, Part(0xB000, i.policy));
    PartLoads(p, i, 0, Part(0xE300, i.driver));
    OptionalAt(p, i);
  }

  lemma OptionalAt(p: seq<byte>, i: Inputs)
    requires ChecksPass(i) && |p| == 2 + 0xD700 && Word(p, 0) == 0x1200
    requires |i.payload| >= 2 && AllSelected(p, AllParts(i))
    ensures i.hidden != [] || i.installer != [] ==>
      && |i.hidden| <= 0xF00 && LoadsAt(p, 0x2300, i.hidden + Zeros(0xF00 - |i.hidden|))
      && LoadsAt(p, 0x3200, i.installer)
    ensures i.loader != [] ==> LoadsAt(p, 0xD900, i.loader)
    ensures i.paths != [] ==> LoadsAt(p, 0xC600, i.graphics) && LoadsAt(p, 0xCD00, i.paths)
    ensures i.paths == [] && i.graphics != [] ==> LoadsAt(p, 0xC700, i.graphics)
    ensures i.reloc != [] || i.access != [] ==> LoadsAt(p, 0x1880, i.reloc) && LoadsAt(p, 0x1F00, i.access)
  {
    hide AllSelected, AllParts, LoadsAt, HasId, Padded, CheckInputs;
    if i.hidden != [] || i.installer != [] {
      PaddedIs(i.hidden, 0xF00);
      PartLoads(p, i, 1, Part(0x2300, i.hidden + Zeros(0xF00 - |i.hidden|)));
      PartLoads(p, i, 1, Part(0x3200, i.installer));
    }
    if i.loader != [] { PartLoads(p, i, 2, Part(0xD900, i.loader)); }
    if i.paths != [] {
      PartLoads(p, i, 3, Part(0xC600, i.graphics));
      PartLoads(p, i, 3, Part(0xCD00, i.paths));
    } else if i.graphics != [] {
      PartLoads(p, i, 3, Part(0xC700, i.graphics));
    }
    if i.reloc != [] || i.access != [] {
      PartLoads(p, i, 4, Part(0x1880, i.reloc));
      PartLoads(p, i, 5, Part(0x1F00, i.access));
    }
  }

  lemma VacantOutside(i: Inputs, a: nat, n: nat)
    requires ChecksPass(i) && |i.payload| >= 2 && Vacant(i, a) && n < 6
    ensures OutsideAll(Group(i, n), a, a + 1)
  {
    hide HasId, Padded;
    PaddedLength(i.hidden, 0xF00);
  }

  lemma PaddedLength(data: seq<byte>, n: nat)
    ensures |data| <= n ==> |Padded(data, n)| == n
  {
  }

  lemma VacantAll(i: Inputs, a: nat)
    requires ChecksPass(i) && |i.payload| >= 2 && Vacant(i, a)
    ensures OutsideAll(AllParts(i), a, a + 1)
  {
    hide OutsideAll, Group, ChecksPass, AllParts, Vacant;
    forall n: nat | n < 6 ensures OutsideAll(Group(i, n), a, a + 1) { VacantOutside(i, a, n); }
    JoinOutside(i, a, a + 1);
  }

  lemma VacantZero(i: Inputs, a: nat)
    requires ChecksPass(i) && |i.payload| >= 2 && Vacant(i, a) && 0x1200 <= a < 0xE900 && WrapStorage(i).Ok?
    ensures |WrapStorage(i).value| == 2 + 0xD700 && WrapStorage(i).value[2 + a - 0x1200] == 0
  {
    assert CheckInputs(i).None?;
    hide OutsideAll, ChecksPass, Compose, AllFit, Spread, PutAll, CheckInputs, Vacant, AllParts;
    VacantAll(i, a);
    ComposeDelivered(i);
    ZeroAt(AllParts(i), Compose(i).value, a);
  }

  lemma ZeroAt(parts: seq<Part>, image: seq<byte>, a: nat)
    requires AllFit(parts) && OutsideAll(parts, a, a + 1) && BASE <= a < LIMIT && |image| == LIMIT - BASE
    requires image == PutAll(Zeros(LIMIT - BASE), parts, |parts|)
    ensures (Le16(BASE) + image)[2 + a - BASE] == 0
  {
    hide PutAll, AllFit, OutsideAll;
    StillClear(parts, a, a + 1);
    assert image[a - BASE..a + 1 - BASE][0] == 0;
  }

  lemma JoinOutside(i: Inputs, lo: nat, hi: nat)
    requires |i.payload| >= 2 && forall n: nat | n < 6 :: OutsideAll(Group(i, n), lo, hi)
    ensures OutsideAll(AllParts(i), lo, hi)
  {
    hide OutsideAll, Group;
    var a := Group(i, 0) + Group(i, 1);
    OutsideJoin(Group(i, 0), Group(i, 1), lo, hi);
    OutsideJoin(a, Group(i, 2), lo, hi);
    OutsideJoin(a + Group(i, 2), Group(i, 3), lo, hi);
    OutsideJoin(a + Group(i, 2) + Group(i, 3), Group(i, 4), lo, hi);
    OutsideJoin(a + Group(i, 2) + Group(i, 3) + Group(i, 4), Group(i, 5), lo, hi);
  }

  /** The overlap tests never fire; on success every component lies at its address, and every other
      byte of the envelope is zero. */
  lemma StorageTheorem(i: Inputs)
    ensures WrapStorage(i) != Err(Occupied)
    ensures WrapStorage(i).Ok? ==>
      var p := WrapStorage(i).value;
      && StorageAt(p, i)
      && forall a | 0x1200 <= a < 0xE900 && Vacant(i, a) :: p[2 + a - 0x1200] == 0
  {
    hide AllSelected, AllParts, StorageAt, Compose, CheckInputs, Vacant, Spread, AllFit;
    AllDelivered(i);
    if WrapStorage(i).Ok? {
      ComposeChecks(i);
      var p := WrapStorage(i).value;
      PartsAt(p, i);
      forall a | 0x1200 <= a < 0xE900 && Vacant(i, a) ensures p[2 + a - 0x1200] == 0 { VacantZero(i, a); }
    }
  }

  // ----- when the envelope is built

  /** Every input check of `wrap_storage`. */
  ghost predicate ChecksPass(i: Inputs) {
    && CheckInputs(i).None? && (WantsHidden(i) ==> CheckHidden(i).None?) && (i.loader != [] ==> CheckLoader(i).None?)
    && (i.paths != [] || i.graphics != [] ==> CheckGraphics(i).None?)
    && (WantsRelocation(i) ==> CheckRelocation(i).None? && CheckBlob(i.access, 0x100, BACC).None?)
  }

  /** A module with its identity at byte 3, and one that starts with a jump too. */
  predicate Module(blob: seq<byte>, id: seq<byte>, capacity: nat) {
    |id| == 6 && 9 <= |blob| <= capacity && blob[3..9] == id
  }

  predicate JumpModule(blob: seq<byte>, id: seq<byte>, capacity: nat) {
    Module(blob, id, capacity) && blob[0] == 0x4C
  }

  /** What `wrap_storage` asks of its inputs, in plain sizes. */
  ghost predicate InputsOk(i: Inputs) {
    var staged, relocates := i.hidden != [] || i.installer != [], i.reloc != [] || i.access != [];
    && ((WordIs(i.payload, 0, 0x4200) && |i.payload| <= 0x3E02) ||
        (WordIs(i.payload, 0, 0x5000) && |i.payload| <= 0x3002))
    && Module(i.service, [0x55, 0x49, 0x45, 0x43, 0, if staged then 3 else 1], if relocates then 0x680 else 0x800)
    && Module(i.lookup, [0x55, 0x4C, 0x4B, 0x50, 0, 1], if relocates then 0x500 else 0x600)
    && 0 < |i.policy| <= (if i.paths != [] then 0x1600 else if i.graphics != [] then 0x1700 else 0x2000)
    && 0 < |i.driver| <= 0x600 && 0 < |i.ush| <= 0xE90
    && (staged ==>
          && 0 < |i.hidden| <= 0xF00 && |i.installer| > 9
          && JumpModule(i.installer, [0x53, 0x49, 0x4E, 0x53, 0, 1], 0x100))
    && (i.loader != [] ==> JumpModule(i.loader, [0x42, 0x4C, 0x4F, 0x44, 0, 1], 0x700))
    && (i.paths != [] ==> |i.graphics| == 0x700 && |i.paths| == 0x3F0)
    && (i.paths == [] && i.graphics != [] ==> |i.graphics| == 0x600)
    && (relocates ==>
          && i.loader != [] && |i.reloc| > 9 && |i.access| > 9
          && JumpModule(i.reloc, [0x42, 0x52, 0x45, 0x4C, 0, 1], 0x180)
          && JumpModule(i.access, [0x42, 0x41, 0x43, 0x43, 0, 1], 0x100))
  }

  lemma ChecksAre(i: Inputs)
    ensures ChecksPass(i) <==> InputsOk(i)
  {
  }

  /** The envelope is built exactly when its inputs are right. */
  lemma StorageExactly(i: Inputs)
    ensures WrapStorage(i).Ok? <==> InputsOk(i)
  {
    hide AllParts, Selects, Spread, AllFit, Compose, CheckInputs, InputsOk;
    AllDelivered(i);
    ChecksAre(i);
    if WrapStorage(i).Ok? { ComposeChecks(i); }
    if ChecksPass(i) { OnlyOccupied(i); }
  }

  lemma OnlyOccupied(i: Inputs)
    requires ChecksPass(i)
    ensures Compose(i).Ok? || Compose(i) == Err(Occupied)
  {
    hide CheckHidden, CheckLoader, CheckGraphics, CheckRelocation, CheckBlob, PutAll, AllZero, HasId, HiddenParts,
      LoaderParts, GraphicsParts, Zeros;
  }

  lemma PayloadPart(i: Inputs)
    requires |i.payload| >= 2
    ensures |AllParts(i)| >= 5
    ensures AllParts(i)[0] == Part(BASE, i.service) && AllParts(i)[2] == Part(Word(i.payload, 0), i.payload[2..])
  {
  }

  /** Selecting a stretch of a selected stretch. */
  lemma SelectsInner(p: seq<byte>, inner: seq<byte>, at: nat, data: seq<byte>)
    requires Selects(inner, at, data) && Selects(p, Word(inner, 0), inner[2..])
    ensures Selects(p, at, data)
  {
    var lo, n := Word(inner, 0), at - Word(inner, 0);
    var from := 2 + lo - Word(p, 0);
    SliceOfSlice(p, from, from + |inner| - 2, n, n + |data|);
    SliceOfSlice(inner, 2, |inner|, n, n + |data|);
    assert inner[2..|inner|] == inner[2..];
  }

  lemma SliceOfSlice(s: seq<byte>, a: nat, b: nat, c: nat, d: nat)
    requires a <= b <= |s| && c <= d <= b - a
    ensures s[a..b][c..d] == s[a + c..a + d]
  {
    var x, y := s[a..b][c..d], s[a + c..a + d];
    assert forall i | 0 <= i < d - c :: x[i] == s[a..b][c + i] == y[i];
  }

  /** Whatever an address selected in the wrapped payload it still selects in the secondary envelope. */
  lemma StorageKeeps(i: Inputs, at: nat, data: seq<byte>)
    requires WrapStorage(i).Ok? && Selects(i.payload, at, data)
    ensures Selects(WrapStorage(i).value, at, data)
  {
    hide WrapStorage, AllParts, Selects, Spread, AllFit;
    AllDelivered(i);
    PayloadPart(i);
    SelectsInner(WrapStorage(i).value, i.payload, at, data);
  }

  // ----- the boot filesystem window

  lemma WindowOutside(parts: seq<Part>, image: seq<byte>)
    requires |image| == LIMIT - BASE && AllFit(parts) && image == PutAll(Zeros(LIMIT - BASE), parts, |parts|)
    requires OutsideAll(parts, BOOTFS_BASE, BOOTFS_LIMIT)
    ensures AllZero((Le16(BASE) + image)[FS_AT..FS_END])
  {
    hide PutAll;
    StillClear(parts, BOOTFS_BASE, BOOTFS_LIMIT);
    assert (Le16(BASE) + image)[FS_AT..FS_END] == image[BOOTFS_BASE - BASE..BOOTFS_LIMIT - BASE];
  }

  lemma PartsOutsideWindow(i: Inputs)
    requires ChecksPass(i)
    ensures |i.payload| >= 2 && OutsideAll(AllParts(i), BOOTFS_BASE, BOOTFS_LIMIT)
  {
    assert |i.payload| >= 2;
    forall n: nat | n < 6 ensures OutsideAll(Group(i, n), BOOTFS_BASE, BOOTFS_LIMIT) { GroupOutside(i, n); }
    hide OutsideAll, Group, ChecksPass;
    JoinOutside(i, BOOTFS_BASE, BOOTFS_LIMIT);
  }

  lemma GroupOutside(i: Inputs, n: nat)
    requires ChecksPass(i) && n < 6
    ensures |i.payload| >= 2 && OutsideAll(Group(i, n), BOOTFS_BASE, BOOTFS_LIMIT)
  {
    hide HasId, Padded;
  }

  lemma InstalledBytes(p: seq<byte>, bootfs: seq<byte>)
    requires InstallBootfs(p, bootfs).Ok?
    ensures var q := InstallBootfs(p, bootfs).value;
      && |bootfs| <= BOOTFS_LIMIT - BOOTFS_BASE && |q| == |p| == 2 + LIMIT - BASE && Word(p, 0) == BASE &&
        q[FS_AT..FS_AT + |bootfs|] == bootfs
      && forall b | 0 <= b < |p| && !(FS_AT <= b < FS_END) :: q[b] == p[b]
  {
    LoadWord(BASE, p[2..], p);
    hide Padded, AllZero;
    var q, window := InstallBootfs(p, bootfs).value, Padded(bootfs, BOOTFS_LIMIT - BOOTFS_BASE);
    assert q == p[..FS_AT] + window + p[FS_END..];
    assert q[FS_AT..FS_AT + |bootfs|] == window[..|bootfs|];
  }

  lemma SelectsSame(p: seq<byte>, q: seq<byte>, at: nat, data: seq<byte>)
    requires Selects(p, at, data) && |q| == |p| && q[0] == p[0] && q[1] == p[1]
    requires var from := 2 + at - Word(p, 0); forall b | from <= b < from + |data| :: q[b] == p[b]
    ensures Selects(q, at, data)
  {
    var from := 2 + at - Word(p, 0);
    assert q[from..from + |data|] == p[from..from + |data|];
  }

  /** Installing the boot filesystem puts it at its address and changes no byte outside its window. */
  lemma InstallKeeps(p: seq<byte>, bootfs: seq<byte>, at: nat, data: seq<byte>)
    requires InstallBootfs(p, bootfs).Ok?
    ensures Selects(InstallBootfs(p, bootfs).value, 0xA000, bootfs)
    ensures Selects(p, at, data) && (at + |data| <= 0xA000 || 0xB000 <= at) ==>
      Selects(InstallBootfs(p, bootfs).value, at, data)
    ensures var q := InstallBootfs(p, bootfs).value;
      |q| == |p| == 0xD702 && forall b | 0 <= b < |p| && !(0x8E02 <= b < 0x9E02) :: q[b] == p[b]
  {
    hide InstallBootfs;
    InstalledBytes(p, bootfs);
    if Selects(p, at, data) && (at + |data| <= BOOTFS_BASE || BOOTFS_LIMIT <= at) {
      SelectsSame(p, InstallBootfs(p, bootfs).value, at, data);
    }
  }

  lemma ComposeChecks(i: Inputs)
    requires Compose(i).Ok?
    ensures ChecksPass(i)
  {
    hide CheckHidden, CheckLoader, CheckGraphics, CheckRelocation, CheckBlob, PutAll, AllZero, HasId, HiddenParts,
      LoaderParts, GraphicsParts;
  }

  /** The secondary envelope always offers an empty boot filesystem window: only the filesystem
      itself can be refused. */
  lemma WindowReady(i: Inputs, bootfs: seq<byte>)
    requires WrapStorage(i).Ok?
    ensures InstallBootfs(WrapStorage(i).value, bootfs).Ok? <==>
      && 16 <= |bootfs| <= 0x1000
      && bootfs[..6] == [0x55, 0x42, 0x46, 0x53, 0, 1] && Word(bootfs, 12) == |bootfs|
  {
    var p := WrapStorage(i).value;
    ComposeChecks(i);
    WindowClear(i);
    ModuleIdentity(i);
    assert p[..2] == Le16(BASE);
    hide AllZero, WrapStorage, Compose, CheckInputs, AllParts;
  }

  lemma WindowClear(i: Inputs)
    requires WrapStorage(i).Ok?
    ensures |WrapStorage(i).value| == 2 + LIMIT - BASE && AllZero(WrapStorage(i).value[FS_AT..FS_END])
  {
    hide AllParts, PutAll, CheckInputs, CheckHidden, CheckLoader, CheckGraphics, CheckRelocation, CheckBlob, AllZero,
      Compose, OutsideAll;
    PayloadLow(i);
    ComposeChecks(i);
    ComposeDelivered(i);
    PartsOutsideWindow(i);
    WindowOutside(AllParts(i), Compose(i).value);
  }

  lemma ModuleIdentity(i: Inputs)
    requires WrapStorage(i).Ok?
    ensures |WrapStorage(i).value| == 2 + LIMIT - BASE
    ensures WrapStorage(i).value[5..11] == UIEC1 || WrapStorage(i).value[5..11] == UIEC3
  {
    InputId(i) by { ComposeChecks(i); }
    hide AllParts, Compose, CheckInputs, WrapStorage, Spread, AllFit, Selects, HasId;
    var p := WrapStorage(i).value;
    AllDelivered(i);
    PayloadPart(i);
    assert Selects(p, BASE, i.service);
    IdSelected(p, i.service);
  }

  lemma IdSelected(p: seq<byte>, blob: seq<byte>)
    requires |p| >= 2 && Word(p, 0) == BASE && Selects(p, BASE, blob) && (HasId(blob, UIEC1) || HasId(blob, UIEC3))
    ensures |p| >= 11 && (p[5..11] == UIEC1 || p[5..11] == UIEC3)
  {
    SelectedId(p, blob);
  }

  lemma InputId(i: Inputs)
    requires CheckInputs(i).None?
    ensures HasId(i.service, UIEC1) || HasId(i.service, UIEC3)
  {
  }

  lemma SelectedId(p: seq<byte>, blob: seq<byte>)
    requires |p| >= 2 && Word(p, 0) == BASE && Selects(p, BASE, blob) && |blob| >= 9
    ensures |p| >= 11 && p[5..11] == blob[3..9]
  {
    SliceOfSlice(p, 2, 2 + |blob|, 3, 9);
  }

  /** A filesystem built with the default size limit is always accepted, and answers from $A000. */
  lemma BootfsInstalls(i: Inputs, entries: seq<Bootfs.Entry>)
    requires WrapStorage(i).Ok? && Bootfs.BuildBootfs(entries, 0x1000).Ok?
    ensures InstallBootfs(WrapStorage(i).value, Bootfs.BuildBootfs(entries, 0x1000).value).Ok?
  {
    hide WrapStorage, InstallBootfs, Bootfs.BuildBootfs, BootfsTheorem.Answers, Bootfs.Image;
    var image := Bootfs.BuildBootfs(entries, 0x1000).value;
    BootfsTheorem.BuildTheorem(entries, 0x1000);
    BootfsTheorem.BuildsExactly(entries, 0x1000);
    BootfsHead(BootfsTheorem.Files(entries));
    WindowReady(i, image);
  }

  lemma BootfsHead(files: seq<Bootfs.File>)
    requires Bootfs.Buildable(files)
    ensures |Bootfs.Image(files)| >= 16 && Bootfs.Image(files)[..6] == [0x55, 0x42, 0x46, 0x53, 0, 1]
  {
    hide Bootfs.DirectoryTo, Bootfs.PayloadsTo, Bootfs.PayloadSize;
    var head := Bootfs.Head(|files|, Bootfs.TotalSize(files));
    assert Bootfs.Image(files)[..6] == head[..6];
    assert head[..6] == Bootfs.UBFS + [0, 1];
  }

  // ----- the whole chain

  lemma PartsSelected(i: Inputs, bootfs: seq<byte>)
    requires WrapStorage(i).Ok? && InstallBootfs(WrapStorage(i).value, bootfs).Ok?
    ensures |i.payload| >= 2 && AllSelected(InstallBootfs(WrapStorage(i).value, bootfs).value, AllParts(i))
  {
    hide AllParts, Selects, Spread, AllFit, WrapStorage, InstallBootfs, ChecksPass, Compose, InputsOk;
    AllDelivered(i);
    Checked(i);
    PartsOutsideWindow(i);
    forall k | 0 <= k < |AllParts(i)|
      ensures Selects(InstallBootfs(WrapStorage(i).value, bootfs).value, AllParts(i)[k].at, AllParts(i)[k].data)
    {
      assert AllParts(i)[k].Outside(BOOTFS_BASE, BOOTFS_LIMIT);
      InstallKeeps(WrapStorage(i).value, bootfs, AllParts(i)[k].at, AllParts(i)[k].data);
    }
  }

  lemma Checked(i: Inputs)
    requires WrapStorage(i).Ok?
    ensures ChecksPass(i)
  {
    ComposeChecks(i);
  }

  /** Installing the filesystem leaves every component of the envelope at its address, and puts the
      filesystem, padded with zeros to 4 KiB, at $A000. */
  lemma PartsStay(i: Inputs, bootfs: seq<byte>)
    requires WrapStorage(i).Ok? && InstallBootfs(WrapStorage(i).value, bootfs).Ok?
    ensures var q := InstallBootfs(WrapStorage(i).value, bootfs).value;
      StorageAt(q, i) && |bootfs| <= 0x1000 && LoadsAt(q, 0xA000, bootfs + Zeros(0x1000 - |bootfs|))
  {
    Checked(i);
    hide AllSelected, AllParts, StorageAt, WrapStorage, ChecksPass;
    var p := WrapStorage(i).value;
    PartsSelected(i, bootfs);
    InstalledBytes(p, bootfs);
    var q := InstallBootfs(p, bootfs).value;
    assert q[0] == p[0] && q[1] == p[1];
    PartsAt(q, i);
    WindowFilled(p, bootfs);
  }

  lemma WindowFilled(p: seq<byte>, bootfs: seq<byte>)
    requires InstallBootfs(p, bootfs).Ok?
    ensures |bootfs| <= 0x1000
    ensures LoadsAt(InstallBootfs(p, bootfs).value, 0xA000, bootfs + Zeros(0x1000 - |bootfs|))
  {
    PaddedIs(bootfs, 0x1000);
    var q, window := InstallBootfs(p, bootfs).value, Padded(bootfs, 0x1000);
    hide Padded;
    assert q == p[..FS_AT] + window + p[FS_END..];
    assert q[FS_AT..FS_END] == window;
  }

  /** Loading the final payload finds the scheduler page and tail, the context and the switch tail
      where the published constants say, and every part of the storage envelope, the cache module,
      its identity and the filesystem at their fixed addresses. */
  lemma ChainTheorem(e: Envelope, cache: seq<byte>, i: Inputs, bootfs: seq<byte>, k: Components)
    requires Truthful(e, k)
    requires WrapScheduler(e, cache).Ok? && i.payload == WrapScheduler(e, cache).value.payload
    requires WrapStorage(i).Ok? && InstallBootfs(WrapStorage(i).value, bootfs).Ok?
    ensures var w := WrapScheduler(e, cache).value;
      var q := InstallBootfs(WrapStorage(i).value, bootfs).value;
      && Truthful(Envelope(q, w.constants), k) && w.constants.activation.Some?
      && Selects(q, 0x4200, cache) && Selects(q, 0x5210, Identity(cache)) && Selects(q, 0xA000, bootfs)
      && StorageAt(q, i)
  {
    assert |cache| <= IDENTITY - CORE;
    hide StorageAt, LoadsAt, Selects, Identity, WrapStorage, InstallBootfs, WrapScheduler, Sum, Truthful;
    PartsStay(i, bootfs);
    WrapTheorem(e, cache, k);
    TruthfulThere(WrapScheduler(e, cache).value, i, bootfs, k);
    InPlace(i, bootfs, CORE, cache);
    InPlace(i, bootfs, IDENTITY, Identity(cache));
    InstallKeeps(WrapStorage(i).value, bootfs, 0, []);
  }

  lemma TruthfulThere(w: Envelope, i: Inputs, bootfs: seq<byte>, k: Components)
    requires Truthful(w, k) && i.payload == w.payload
    requires WrapStorage(i).Ok? && InstallBootfs(WrapStorage(i).value, bootfs).Ok?
    ensures Truthful(Envelope(InstallBootfs(WrapStorage(i).value, bootfs).value, w.constants), k)
  {
    hide Selects, WrapStorage, InstallBootfs, Sum, HeaderSays;
    InPlace(i, bootfs, w.constants.load, k.overlay);
    InPlace(i, bootfs, w.constants.pageSource, k.page);
    InPlace(i, bootfs, w.constants.tailSource, k.tail);
    if w.constants.activation.Some? {
      InPlace(i, bootfs, w.constants.activation.value.contextSource, k.context);
      InPlace(i, bootfs, w.constants.activation.value.switchSource, k.switchTail);
    }
  }

  lemma InPlace(i: Inputs, bootfs: seq<byte>, at: nat, data: seq<byte>)
    requires WrapStorage(i).Ok? && InstallBootfs(WrapStorage(i).value, bootfs).Ok? && Selects(i.payload, at, data)
    ensures Selects(InstallBootfs(WrapStorage(i).value, bootfs).value, at, data)
  {
    hide WrapStorage, InstallBootfs;
    StorageKeeps(i, at, data);
    assert at + |data| <= 0x8000 by { PayloadLow(i); }
    InstallKeeps(WrapStorage(i).value, bootfs, at, data);
  }

  lemma PayloadLow(i: Inputs)
    requires WrapStorage(i).Ok?
    ensures |i.payload| >= 2 && Word(i.payload, 0) + |i.payload| - 2 <= 0x8000
  {
  }
}