/** Every component of the secondary envelope reads back at its address, its overlap tests never
    fire, and installing the boot filesystem changes only its own window. */
module StorageProofs {
  import opened Bytes
  import opened Overlay
  import opened Storage

  ghost predicate Disjoint(p: Part, q: Part) { p.at + |p.data| <= q.at || q.at + |q.data| <= p.at }

  ghost predicate Spread(parts: seq<Part>) {
    forall i, j | 0 <= i < j < |parts| :: Disjoint(parts[i], parts[j])
  }

  ghost predicate OutsideAll(parts: seq<Part>, lo: nat,
      hi: nat) { forall i | 0 <= i < |parts| :: parts[i].Outside(lo, hi) }

  ghost predicate InsideAll(parts: seq<Part>, lo: nat,
      hi: nat) { forall i | 0 <= i < |parts| :: parts[i].Inside(lo, hi) }

  ghost predicate Holds(image: seq<byte>, p: Part)
    requires |image| == LIMIT - BASE
  {
    p.Fits() && image[p.at - BASE..p.at - BASE + |p.data|] == p.data
  }

  lemma PutHolds(image: seq<byte>, p: Part, q: Part)
    requires |image| == LIMIT - BASE && p.Fits() && q.Fits()
    ensures Holds(Put(image, p), p)
    ensures Disjoint(p, q) && Holds(image, q) ==> Holds(Put(image, p), q)
  {
    hide Splice;
  }

  lemma {:induction false} PutsHold(image: seq<byte>, parts: seq<Part>, n: nat, k: nat)
    requires |image| == LIMIT - BASE && AllFit(parts) && Spread(parts) && k < n <= |parts|
    ensures Holds(PutAll(image, parts, n), parts[k])
    decreases n
  {
    hide Put, Holds;
    if k < n - 1 {
      PutsHold(image, parts, n - 1, k);
      assert Disjoint(parts[k], parts[n - 1]);
      PutHolds(PutAll(image, parts, n - 1), parts[n - 1], parts[k]);
    } else {
      PutHolds(PutAll(image, parts, n - 1), parts[n - 1], parts[n - 1]);
    }
  }

  lemma {:induction false} PutsFrame(image: seq<byte>, parts: seq<Part>, n: nat, lo: nat, hi: nat)
    requires |image| == LIMIT - BASE && AllFit(parts) && n <= |parts| && OutsideAll(parts, lo, hi)
    requires BASE <= lo <= hi <= LIMIT
    ensures forall b | lo - BASE <= b < hi - BASE :: PutAll(image, parts, n)[b] == image[b]
    decreases n
  {
    hide Splice;
    if n > 0 {
      PutsFrame(image, parts, n - 1, lo, hi);
      assert parts[n - 1].Outside(lo, hi);
    }
  }

  lemma StillClear(parts: seq<Part>, lo: nat, hi: nat)
    requires AllFit(parts) && OutsideAll(parts, lo, hi) && BASE <= lo <= hi <= LIMIT
    ensures AllZero(PutAll(Zeros(LIMIT - BASE), parts, |parts|)[lo - BASE..hi - BASE])
  {
    hide PutAll;
    PutsFrame(Zeros(LIMIT - BASE), parts, |parts|, lo, hi);
  }

  lemma {:induction false} PutsJoin(image: seq<byte>, a: seq<Part>, b: seq<Part>, n: nat)
    requires |image| == LIMIT - BASE && AllFit(a) && AllFit(b) && n <= |b|
    ensures AllFit(a + b) && PutAll(image, a + b, |a| + n) == PutAll(PutAll(image, a, |a|), b, n)
    decreases n
  {
    hide Put;
    JoinFits(a, b);
    if n == 0 {
      PutsPrefix(image, a, b, |a|);
    } else {
      PutsJoin(image, a, b, n - 1);
      assert (a + b)[|a| + n - 1] == b[n - 1];
    }
  }

  lemma JoinFits(a: seq<Part>, b: seq<Part>)
    requires AllFit(a) && AllFit(b)
    ensures AllFit(a + b)
  {
  }

  lemma {:induction false} PutsPrefix(image: seq<byte>, a: seq<Part>, b: seq<Part>, n: nat)
    requires |image| == LIMIT - BASE && AllFit(a) && AllFit(a + b) && n <= |a|
    ensures PutAll(image, a + b, n) == PutAll(image, a, n)
    decreases n
  {
    hide Put;
    if n > 0 { PutsPrefix(image, a, b, n - 1); }
  }

  lemma SpreadJoin(a: seq<Part>, b: seq<Part>, lo: nat, hi: nat)
    requires Spread(a) && Spread(b) && OutsideAll(a, lo, hi) && InsideAll(b, lo, hi)
    ensures Spread(a + b)
  {
    forall i, j | 0 <= i < j < |a + b| ensures Disjoint((a + b)[i], (a + b)[j]) {
      if i < |a| && j >= |a| { assert a[i].Outside(lo, hi) && b[j - |a|].Inside(lo, hi); }
      else if j < |a| { assert Disjoint(a[i], a[j]); }
      else { assert Disjoint(b[i - |a|], b[j - |a|]); }
    }
  }

  lemma OutsideJoin(a: seq<Part>, b: seq<Part>, lo: nat, hi: nat)
    ensures OutsideAll(a + b, lo, hi) <==> OutsideAll(a, lo, hi) && OutsideAll(b, lo, hi)
  {
    var c := a + b;
    assert forall i | 0 <= i < |a| :: c[i] == a[i];
    assert forall i | 0 <= i < |b| :: c[|a| + i] == b[i];
    if OutsideAll(c, lo, hi) {
      forall i | 0 <= i < |b| ensures b[i].Outside(lo, hi) { assert c[|a| + i].Outside(lo, hi); }
      forall i | 0 <= i < |a| ensures a[i].Outside(lo, hi) { assert c[i].Outside(lo, hi); }
    }
  }

  /** A result that is not an overlap, and when it is an image, exactly these separate parts. */
  ghost predicate Delivered(r: Result<seq<byte>, StorageError>, parts: seq<Part>) {
    && r != Err(Occupied)
    && (r.Ok? ==> AllFit(parts) && Spread(parts) && r.value == PutAll(Zeros(LIMIT - BASE), parts, |parts|))
  }

  function When(wanted: bool, parts: seq<Part>): seq<Part> { if wanted then parts else [] }

  lemma DeliverStep(r: Result<seq<byte>, StorageError>, parts: seq<Part>, wanted: bool, fault: Option<StorageError>,
                    lo: nat, hi: nat, more: seq<Part>)
    requires Delivered(r, parts) && (r.Ok? ==> |r.value| == LIMIT - BASE) && BASE <= lo <= hi <= LIMIT
    requires fault != Some(Occupied)
    requires wanted && fault.None? ==> InsideAll(more, lo, hi) && Spread(more)
    requires wanted && fault.None? && r.Ok? ==> OutsideAll(parts, lo, hi)
    ensures wanted && fault.None? ==> AllFit(more)
    ensures Delivered(Deliver(r, wanted, fault, lo, hi, more), parts + When(wanted, more))
  {
    hide PutAll, AllZero;
    if wanted && fault.None? {
      assert AllFit(more) by { InsideFits(more, lo, hi); }
      if r.Ok? {
        StillClear(parts, lo, hi);
        SpreadJoin(parts, more, lo, hi);
        PutsJoin(Zeros(LIMIT - BASE), parts, more, |more|);
      }
    } else if !wanted {
      assert parts + [] == parts;
    }
  }

  lemma InsideFits(parts: seq<Part>, lo: nat, hi: nat)
    requires InsideAll(parts, lo, hi) && BASE <= lo <= hi <= LIMIT
    ensures AllFit(parts)
  {
    forall i | 0 <= i < |parts| ensures parts[i].Fits() { assert parts[i].Inside(lo, hi); }
  }

  // ----- the groups of parts

  ghost function Group(i: Inputs, n: nat): seq<Part>
    requires |i.payload| >= 2
  {
    if n == 0 then BaseParts(i)
    else if n == 1 then When(WantsHidden(i), HiddenParts(i))
    else if n == 2 then When(i.loader != [], LoaderParts(i))
    else if n == 3 then When(i.paths != [] || i.graphics != [], GraphicsParts(i))
    else if n == 4 then When(WantsRelocation(i), [Part(0x1880, i.reloc)])
    else When(WantsRelocation(i), [Part(0x1F00, i.access)])
  }

  /** Everything the envelope delivers, in the order it is written. */
  ghost function AllParts(i: Inputs): seq<Part>
    requires |i.payload| >= 2
  {
    Group(i, 0) + Group(i, 1) + Group(i, 2) + Group(i, 3) + Group(i, 4) + Group(i, 5)
  }

  lemma BaseDelivered(i: Inputs)
    requires CheckInputs(i).None?
    ensures AllFit(BaseParts(i)) && Delivered(Ok(PutAll(Zeros(LIMIT - BASE), BaseParts(i), 5)), BaseParts(i))
  {
    hide PutAll, Zeros;
  }

  /** The base parts leave the optional windows free. */
  lemma BaseOutside(i: Inputs)
    requires CheckInputs(i).None?
    ensures OutsideAll(BaseParts(i), 0x2300, 0x3300) && OutsideAll(BaseParts(i), 0xD900, 0xE000)
    ensures (i.paths != [] || i.graphics != []) && CheckGraphics(i).None? ==>
      OutsideAll(BaseParts(i), GraphicsLow(i), GraphicsHigh(i))
    ensures |i.service| <= 0x680 ==> OutsideAll(BaseParts(i), 0x1880, 0x1A00)
    ensures |i.lookup| <= 0x500 ==> OutsideAll(BaseParts(i), 0x1F00, 0x2000)
  {
    hide HasId;
  }

  lemma HiddenOutside(i: Inputs, lo: nat, hi: nat)
    requires WantsHidden(i) ==> CheckHidden(i).None?
    requires hi <= 0x2300 || 0x3300 <= lo
    ensures OutsideAll(When(WantsHidden(i), HiddenParts(i)), lo, hi)
    ensures WantsHidden(i) ==> InsideAll(HiddenParts(i), 0x2300, 0x3300) && Spread(HiddenParts(i))
  {
    hide HasId;
  }

  lemma LoaderOutside(i: Inputs, lo: nat, hi: nat)
    requires i.loader != [] ==> CheckLoader(i).None?
    requires hi <= 0xD900 || 0xE000 <= lo
    ensures OutsideAll(When(i.loader != [], LoaderParts(i)), lo, hi)
    ensures i.loader != [] ==> InsideAll(LoaderParts(i), 0xD900, 0xE000)
  {
    hide HasId;
  }

  lemma GraphicsOutside(i: Inputs, lo: nat, hi: nat)
    requires i.paths != [] || i.graphics != [] ==> CheckGraphics(i).None?
    requires hi <= 0x2000
    ensures OutsideAll(When(i.paths != [] || i.graphics != [], GraphicsParts(i)), lo, hi)
    ensures i.paths != [] || i.graphics != [] ==>
      InsideAll(GraphicsParts(i), GraphicsLow(i), GraphicsHigh(i)) && Spread(GraphicsParts(i))
  {
  }

  lemma DeliverOk(r: Result<seq<byte>, StorageError>, wanted: bool, fault: Option<StorageError>, lo: nat, hi: nat,
      parts: seq<Part>)
    requires (r.Ok? ==> |r.value| == LIMIT - BASE) && BASE <= lo <= hi <= LIMIT
    requires (wanted && fault.None? ==> AllFit(parts))
    requires Deliver(r, wanted, fault, lo, hi, parts).Ok?
    ensures r.Ok? && (wanted ==> fault.None?)
  {
  }

  lemma HiddenStage(i: Inputs, r: Result<seq<byte>, StorageError>)
    requires CheckInputs(i).None? && Delivered(r, Group(i, 0)) && (r.Ok? ==> |r.value| == LIMIT - BASE)
    ensures WantsHidden(i) && CheckHidden(i).None? ==> AllFit(HiddenParts(i))
    ensures Delivered(Deliver(r, WantsHidden(i), CheckHidden(i), 0x2300, 0x3300, HiddenParts(i)),
      Group(i, 0) + Group(i, 1))
  {
    hide Deliver, Delivered, HiddenParts, BaseParts;
    BaseOutside(i);
    if WantsHidden(i) && CheckHidden(i).None? { HiddenOutside(i, 0, 0); }
    DeliverStep(r, Group(i, 0), WantsHidden(i), CheckHidden(i), 0x2300, 0x3300, HiddenParts(i));
  }

  lemma LoaderStage(i: Inputs, r: Result<seq<byte>, StorageError>, parts: seq<Part>)
    requires CheckInputs(i).None? && Delivered(r, parts) && (r.Ok? ==> |r.value| == LIMIT - BASE)
    requires parts == Group(i, 0) + Group(i, 1)
    requires r.Ok? && WantsHidden(i) ==> CheckHidden(i).None?
    ensures i.loader != [] && CheckLoader(i).None? ==> AllFit(LoaderParts(i))
    ensures Delivered(Deliver(r, i.loader != [], CheckLoader(i), 0xD900, 0xE000, LoaderParts(i)), parts + Group(i, 2))
  {
    hide Deliver, Delivered, HiddenParts, BaseParts, CheckHidden, OutsideAll;
    BaseOutside(i);
    if r.Ok? {
      HiddenOutside(i, 0xD900, 0xE000);
      OutsideJoin(Group(i, 0), Group(i, 1), 0xD900, 0xE000);
    }
    if i.loader != [] && CheckLoader(i).None? { LoaderOutside(i, 0, 0); }
    DeliverStep(r, parts, i.loader != [], CheckLoader(i), 0xD900, 0xE000, LoaderParts(i));
  }

  ghost predicate PassedTwo(i: Inputs) {
    (WantsHidden(i) ==> CheckHidden(i).None?) && (i.loader != [] ==> CheckLoader(i).None?)
  }

  lemma TwoOutside(i: Inputs, lo: nat, hi: nat)
    requires CheckInputs(i).None? && PassedTwo(i) && OutsideAll(Group(i, 0), lo, hi)
    requires (hi <= 0x2300 || 0x3300 <= lo) && (hi <= 0xD900 || 0xE000 <= lo)
    ensures OutsideAll(Group(i, 0) + Group(i, 1) + Group(i, 2), lo, hi)
  {
    hide HiddenParts, BaseParts, LoaderParts, CheckHidden, CheckLoader, OutsideAll;
    HiddenOutside(i, lo, hi);
    LoaderOutside(i, lo, hi);
    OutsideJoin(Group(i, 0), Group(i, 1), lo, hi);
    OutsideJoin(Group(i, 0) + Group(i, 1), Group(i, 2), lo, hi);
  }

  lemma GraphicsStage(i: Inputs, r: Result<seq<byte>, StorageError>, parts: seq<Part>)
    requires CheckInputs(i).None? && Delivered(r, parts) && (r.Ok? ==> |r.value| == LIMIT - BASE)
    requires parts == Group(i, 0) + Group(i, 1) + Group(i, 2) && (r.Ok? ==> PassedTwo(i))
    ensures (i.paths != [] || i.graphics != []) && CheckGraphics(i).None? ==> AllFit(GraphicsParts(i))
    ensures Delivered(Deliver(r, i.paths != [] || i.graphics != [], CheckGraphics(i), GraphicsLow(i), GraphicsHigh(i),
      GraphicsParts(i)), parts + Group(i, 3))
  {
    hide Deliver, Delivered, HiddenParts, BaseParts, GraphicsParts, OutsideAll, PassedTwo;
    var wanted := i.paths != [] || i.graphics != [];
    BaseOutside(i);
    if wanted && CheckGraphics(i).None? {
      GraphicsOutside(i, 0, 0);
      if r.Ok? { TwoOutside(i, GraphicsLow(i), GraphicsHigh(i)); }
    }
    DeliverStep(r, parts, wanted, CheckGraphics(i), GraphicsLow(i), GraphicsHigh(i), GraphicsParts(i));
  }

  ghost predicate PassedThree(i: Inputs) {
    PassedTwo(i) && (i.paths != [] || i.graphics != [] ==> CheckGraphics(i).None?)
  }

  lemma ThreeOutside(i: Inputs, lo: nat, hi: nat)
    requires CheckInputs(i).None? && PassedThree(i) && OutsideAll(Group(i, 0), lo, hi) && hi <= 0x2000
    ensures OutsideAll(Group(i, 0) + Group(i, 1) + Group(i, 2) + Group(i, 3), lo, hi)
  {
    hide HiddenParts, BaseParts, LoaderParts, GraphicsParts, CheckGraphics, OutsideAll, PassedTwo;
    TwoOutside(i, lo, hi);
    GraphicsOutside(i, lo, hi);
    OutsideJoin(Group(i, 0) + Group(i, 1) + Group(i, 2), Group(i, 3), lo, hi);
  }

  lemma BlobInside(at: nat, capacity: nat, blob: seq<byte>)
    requires |blob| <= capacity
    ensures InsideAll([Part(at, blob)], at, at + capacity) && Spread([Part(at, blob)])
  {
  }

  lemma RelocationStage(i: Inputs, r: Result<seq<byte>, StorageError>, parts: seq<Part>)
    requires CheckInputs(i).None? && Delivered(r, parts) && (r.Ok? ==> |r.value| == LIMIT - BASE)
    requires parts == Group(i, 0) + Group(i, 1) + Group(i, 2) + Group(i, 3) && (r.Ok? ==> PassedThree(i))
    ensures WantsRelocation(i) && CheckRelocation(i).None? ==> AllFit([Part(0x1880, i.reloc)])
    ensures Delivered(Deliver(r, WantsRelocation(i), CheckRelocation(i), 0x1880, 0x1A00, [Part(0x1880, i.reloc)]),
      parts + Group(i, 4))
  {
    hide Deliver, Delivered, HiddenParts, BaseParts, OutsideAll, PassedThree, InsideAll, Spread, HasId;
    BaseOutside(i);
    if WantsRelocation(i) && CheckRelocation(i).None? {
      BlobInside(0x1880, 0x180, i.reloc);
      if r.Ok? { ThreeOutside(i, 0x1880, 0x1A00); }
    }
    DeliverStep(r, parts, WantsRelocation(i), CheckRelocation(i), 0x1880, 0x1A00, [Part(0x1880, i.reloc)]);
  }

  lemma AccessStage(i: Inputs, r: Result<seq<byte>, StorageError>, parts: seq<Part>)
    requires CheckInputs(i).None? && Delivered(r, parts + Group(i, 4)) && (r.Ok? ==> |r.value| == LIMIT - BASE)
    requires parts == Group(i, 0) + Group(i, 1) + Group(i, 2) + Group(i, 3)
    requires r.Ok? ==> PassedThree(i) && (WantsRelocation(i) ==> CheckRelocation(i).None?)
    ensures WantsRelocation(i) && CheckBlob(i.access, 0x100, BACC).None? ==> AllFit([Part(0x1F00, i.access)])
    ensures Delivered(Deliver(r, WantsRelocation(i), CheckBlob(i.access, 0x100, BACC), 0x1F00, 0x2000,
      [Part(0x1F00, i.access)]),
                      parts + Group(i, 4) + Group(i, 5))
  {
    hide Deliver, Delivered, HiddenParts, BaseParts, OutsideAll, PassedThree, InsideAll, Spread, HasId;
    BaseOutside(i);
    if WantsRelocation(i) && CheckBlob(i.access, 0x100, BACC).None? {
      BlobInside(0x1F00, 0x100, i.access);
      if r.Ok? {
        ThreeOutside(i, 0x1F00, 0x2000);
        assert OutsideAll(Group(i, 4), 0x1F00, 0x2000) by { BlobOutside(i.reloc); }
        OutsideJoin(parts, Group(i, 4), 0x1F00, 0x2000);
      }
    }
    DeliverStep(r, parts + Group(i, 4), WantsRelocation(i), CheckBlob(i.access, 0x100, BACC), 0x1F00, 0x2000,
      [Part(0x1F00, i.access)]);
  }

  lemma BlobOutside(blob: seq<byte>)
    requires |blob| <= 0x180
    ensures OutsideAll([Part(0x1880, blob)], 0x1F00, 0x2000)
  {
  }

  lemma ComposeDelivered(i: Inputs)
    requires CheckInputs(i).None?
    ensures Delivered(Compose(i), AllParts(i))
  {
    hide Deliver, Delivered, PutAll, Zeros, Group, CheckHidden, CheckLoader, CheckGraphics, CheckRelocation, CheckBlob,
      PassedTwo, PassedThree, AllFit;
    BaseDelivered(i);
    assert Group(i, 0) == BaseParts(i) by { GroupBase(i); }
    var base := Ok(PutAll(Zeros(LIMIT - BASE), BaseParts(i), 5));
    HiddenStage(i, base);
    var hidden := Deliver(base, WantsHidden(i), CheckHidden(i), 0x2300, 0x3300, HiddenParts(i));
    if hidden.Ok? { DeliverOk(base, WantsHidden(i), CheckHidden(i), 0x2300, 0x3300, HiddenParts(i)); }
    LoaderStage(i, hidden, Group(i, 0) + Group(i, 1));
    var loader := Deliver(hidden, i.loader != [], CheckLoader(i), 0xD900, 0xE000, LoaderParts(i));
    if loader.Ok? { DeliverOk(hidden, i.loader != [], CheckLoader(i), 0xD900, 0xE000, LoaderParts(i)); PassTwo(i); }
    GraphicsStage(i, loader, Group(i, 0) + Group(i, 1) + Group(i, 2));
    LastStages(i, loader);
  }

  lemma GroupBase(i: Inputs)
    requires |i.payload| >= 2
    ensures Group(i, 0) == BaseParts(i)
  {
  }

  lemma PassTwo(i: Inputs)
    requires (WantsHidden(i) ==> CheckHidden(i).None?) && (i.loader != [] ==> CheckLoader(i).None?)
    ensures PassedTwo(i)
  {
  }

  lemma PassThree(i: Inputs)
    requires PassedTwo(i) && (i.paths != [] || i.graphics != [] ==> CheckGraphics(i).None?)
    ensures PassedThree(i)
  {
  }

  lemma LastStages(i: Inputs, loader: Result<seq<byte>, StorageError>)
    requires CheckInputs(i).None? && (loader.Ok? ==> |loader.value| == LIMIT - BASE && PassedTwo(i))
    requires Delivered(loader, Group(i, 0) + Group(i, 1) + Group(i, 2))
    ensures (i.paths != [] || i.graphics != []) && CheckGraphics(i).None? ==> AllFit(GraphicsParts(i))
    ensures WantsRelocation(i) && CheckRelocation(i).None? ==> AllFit([Part(0x1880, i.reloc)])
    ensures WantsRelocation(i) && CheckBlob(i.access, 0x100, BACC).None? ==> AllFit([Part(0x1F00, i.access)])
    ensures var graphics := Deliver(loader, i.paths != [] || i.graphics != [], CheckGraphics(i), GraphicsLow(i),
      GraphicsHigh(i), GraphicsParts(i));
      var reloc := Deliver(graphics, WantsRelocation(i), CheckRelocation(i), 0x1880, 0x1A00, [Part(0x1880, i.reloc)]);
      Delivered(Deliver(reloc, WantsRelocation(i), CheckBlob(i.access, 0x100, BACC), 0x1F00, 0x2000,
        [Part(0x1F00, i.access)]), AllParts(i))
  {
    assert |i.payload| >= 2;
    hide Deliver, Delivered, Group, CheckInputs, CheckHidden, CheckLoader, CheckGraphics, CheckRelocation, CheckBlob,
      PassedTwo, PassedThree, AllFit;
    GraphicsStage(i, loader, Group(i, 0) + Group(i, 1) + Group(i, 2));
    var wanted := i.paths != [] || i.graphics != [];
    var graphics := Deliver(loader, wanted, CheckGraphics(i), GraphicsLow(i), GraphicsHigh(i), GraphicsParts(i));
    if graphics.Ok? {
      DeliverOk(loader, wanted, CheckGraphics(i), GraphicsLow(i), GraphicsHigh(i), GraphicsParts(i));
      PassThree(i);
    }
    RelocationStage(i, graphics, Group(i, 0) + Group(i, 1) + Group(i, 2) + Group(i, 3));
    var reloc := Deliver(graphics, WantsRelocation(i), CheckRelocation(i), 0x1880, 0x1A00, [Part(0x1880, i.reloc)]);
    if reloc.Ok? {
      DeliverOk(graphics, WantsRelocation(i), CheckRelocation(i), 0x1880, 0x1A00, [Part(0x1880, i.reloc)]);
    }
    AccessStage(i, reloc, Group(i, 0) + Group(i, 1) + Group(i, 2) + Group(i, 3));
  }
}
