/** The scheduler's boot envelopes: `build_overlay` (build_scheduler_overlay.py), `install_router`
    (build_storage.py) and `wrap_scheduler` (build_window_cache.py). Linker maps and the generated
    constants are records here. */
module Overlay {
  import opened Bytes

  datatype Segment = Segment(start: nat, end: nat, size: nat)

  datatype OverlayError =
    | MissingSegment | BadPage | BadTail | BadBss | BadVectors | RouterReached | BadRouter
    | HandlerReached | ContextReached | Incomplete | BadContext | Unencodable
    | NotOverlay | TooLong | NoActivation | BadCacheModule

  /** The values published for the boot code. */
  datatype Constants = Constants(load: nat, end: nat, pageSource: nat, pageSize: nat, tailSource: nat, tailSize: nat,
                                 bss: nat, bssSize: nat, checksum: nat, activation: Option<Activation>)
  datatype Activation = Activation(contextSource: nat, contextSize: nat, switchSource: nat, switchSize: nat,
    checksum: nat)

  datatype Envelope = Envelope(payload: seq<byte>, constants: Constants)

  const LOAD: nat := 0x5000
  const PAGE: nat := 0x1C00
  const TAIL: nat := 0xC120
  const TAIL_LIMIT: nat := 0xCE00
  const HANDLER: nat := 0xC900
  const CONTEXT: nat := 0xCDBD
  const ROUTER: nat := 0xC880
  const HEADER_SIZE: nat := 20
  const USOV: seq<byte> := [0x55, 0x53, 0x4F, 0x56]

  /** `data.ljust(n, b"\0")`. */
  function Padded(data: seq<byte>, n: nat): (s: seq<byte>)
    ensures |data| <= n ==> |s| == n
    ensures |s| >= |data| && s[..|data|] == data
  {
    if |data| <= n then data + Zeros(n - |data|) else data
  }

  // ----- the scheduler page and tail

  function PatchVectors(page: seq<byte>, vectors: seq<byte>): Result<seq<byte>, OverlayError> {
    if vectors == [] then Ok(page)
    else if |vectors| != 6 || |page| != 0x400 || !AllZero(page[0x400 - 6..]) then Err(BadVectors)
    else Ok(page[..0x400 - 6] + vectors)
  }

  /** `install_router`, when there is a router. */
  function AddRouter(tail: seq<byte>, bssEnd: nat, router: seq<byte>): Result<seq<byte>, OverlayError> {
    if router == [] then Ok(tail)
    else if bssEnd >= ROUTER || |tail| > ROUTER - TAIL then Err(RouterReached)
    else if |router| > 0x80 then Err(BadRouter)
    else Ok(Padded(tail, ROUTER - TAIL) + router)
  }

  function AddHandler(tail: seq<byte>, handler: seq<byte>): Result<seq<byte>, OverlayError> {
    if handler == [] then Ok(tail)
    else if |tail| > HANDLER - TAIL then Err(HandlerReached)
    else if HANDLER + |handler| > CONTEXT then Err(ContextReached)
    else Ok(Padded(tail, HANDLER - TAIL) + handler)
  }

  function CheckMap(page: seq<byte>, tail: seq<byte>, scheduler: Option<Segment>, code: Option<Segment>,
      bss: Option<Segment>): Option<OverlayError> {
    if scheduler.None? || code.None? || bss.None? then Some(MissingSegment)
    else if scheduler.value.start != PAGE then Some(BadPage)
    else if code.value.start != TAIL then Some(BadTail)
    else if |page| < scheduler.value.size || |page| > 0x400 || !AllZero(page[scheduler.value.size..]) then Some(BadPage)
    else if |tail| != bss.value.start as int - TAIL then Some(BadTail)
    else if bss.value.size == 0 || bss.value.size > 0xFF || bss.value.end + 1 > TAIL_LIMIT then Some(BadBss)
    else None
  }

  function Header(page: seq<byte>, tail: seq<byte>, bssStart: nat, bssSize: nat): (h: seq<byte>)
    requires |page| < 0x10000 && |tail| < 0x10000 && bssStart < 0x10000 && bssSize < 0x10000
    ensures |h| == HEADER_SIZE && h[..6] == USOV + [0, 3]
  {
    USOV + [0, 3] + Words([PAGE, |page|, TAIL, |tail|, bssStart, bssSize, (Sum(page) + Sum(tail)) % 0x10000])
  }

  /** The task-activation inputs are all given or none is. */
  function CheckContext(context: seq<byte>, code: Option<Segment>, bss: Option<Segment>,
      switchTail: seq<byte>): Option<OverlayError> {
    if code.None? || bss.None? then Some(MissingSegment)
    else if code.value.start != CONTEXT || bss.value.end != 0xCEFF then Some(BadContext)
    else if |context| != bss.value.start as int - CONTEXT then Some(BadContext)
    else if |context| > 0xFF || bss.value.size > 0x80 then Some(BadContext)
    else if |switchTail| != 0xC0 then Some(BadContext)
    else None
  }

  /** Linker map of the context image: absent, or its CODE and BSS segments. */
  datatype ContextMap = NoMap | ContextMap(code: Option<Segment>, bss: Option<Segment>)

  /** `build_overlay`. */
  function BuildOverlay(page: seq<byte>, tail: seq<byte>, scheduler: Option<Segment>, code: Option<Segment>,
      bss: Option<Segment>,
                        context: seq<byte>, contextMap: ContextMap, switchTail: seq<byte>, handler: seq<byte>,
                        vectors: seq<byte>, router: seq<byte>): Result<Envelope, OverlayError>
  {
    var fault := CheckMap(page, tail, scheduler, code, bss);
    if fault.Some? then Err(fault.value) else
      var patched := PatchVectors(page, vectors);
      if patched.Err? then Err(patched.error) else
        var routed := AddRouter(tail, bss.value.end, router);
        if routed.Err? then Err(routed.error) else
          var installed := AddHandler(routed.value, handler);
          if installed.Err? then Err(installed.error)
          else if |installed.value| >= 0x10000 || bss.value.start >= 0x10000 then Err(Unencodable)
          else AddActivation(patched.value, installed.value, bss.value, context, contextMap, switchTail, handler)
  }

  function AddActivation(page: seq<byte>, tail: seq<byte>, bss: Segment, context: seq<byte>, contextMap: ContextMap,
                         switchTail: seq<byte>, handler: seq<byte>): Result<Envelope, OverlayError>
    requires |page| <= 0x400 && |tail| < 0x10000 && bss.start < 0x10000 && bss.size <= 0xFF
  {
    if context == [] && contextMap.NoMap? && switchTail == [] && handler == [] then
      Ok(Assemble(page, tail, bss, [], None))
    else if context == [] || contextMap.NoMap? || switchTail == [] || handler == [] then Err(Incomplete)
    else
      var fault := CheckContext(context, contextMap.code, contextMap.bss, switchTail);
      if fault.Some? then Err(fault.value) else
        var source := LOAD + HEADER_SIZE + |page| + |tail|;
        Ok(Assemble(page, tail, bss, context + switchTail,
                    Some(ActivationAt(source, context, switchTail))))
  }

  function Assemble(page: seq<byte>, tail: seq<byte>, bss: Segment, extension: seq<byte>,
      activation: Option<Activation>): Envelope
    requires |page| <= 0x400 && |tail| < 0x10000 && bss.start < 0x10000 && bss.size <= 0xFF
  {
    Envelope(Le16(LOAD) + Header(page, tail, bss.start, bss.size) + page + tail + extension,
             Constants(LOAD, LOAD + HEADER_SIZE + |page| + |tail| + |extension|, LOAD + HEADER_SIZE, |page|,
                       LOAD + HEADER_SIZE +
                         |page|, |tail|, bss.start, bss.size, (Sum(page) + Sum(tail)) % 0x10000, activation))
  }

  // ----- the cache envelope

  const CORE: nat := 0x4200
  const IDENTITY: nat := 0x5210
  const SOURCE: nat := 0x6000

  const VCC2: seq<byte> := [0x56, 0x43, 0x43, 0x32]

  function IdentityValues(cache: seq<byte>): (v: seq<nat>)
    requires |cache| <= IDENTITY - CORE
    ensures |v| == 5 && AllBelow(v, 0x10000)
  {
    [CORE, |cache|, Sum(cache) % 0x10000, 0x42D5, 2224]
  }

  function Identity(cache: seq<byte>): (s: seq<byte>)
    requires |cache| <= IDENTITY - CORE
    ensures |s| == 16
  {
    VCC2 + [0, 1] + Words(IdentityValues(cache))
  }

  function Moved(c: Constants): Constants
    requires c.activation.Some?
  {
    var a := c.activation.value;
    c.(load := c.load + 0x1000, end := c.end + 0x1000, pageSource := c.pageSource + 0x1000,
      tailSource := c.tailSource + 0x1000,
       activation := Some(a.(contextSource := a.contextSource + 0x1000, switchSource := a.switchSource + 0x1000)))
  }

  /** `wrap_scheduler`: two of the six moved names exist only with task activation. */
  function WrapScheduler(e: Envelope, cache: seq<byte>): Result<Envelope, OverlayError> {
    if |e.payload| < 8 || e.payload[..8] != Le16(LOAD) + USOV + [0, 3] then Err(NotOverlay)
    else if SOURCE + |e.payload| - 2 > 0x7FC0 then Err(TooLong)
    else if e.constants.activation.None? then Err(NoActivation)
    else if cache == [] || |cache| > IDENTITY - CORE then Err(BadCacheModule)
    else Ok(Envelope(Le16(CORE) + Padded(Padded(cache, IDENTITY - CORE) + Identity(cache), SOURCE - CORE) +
      e.payload[2..],
                     Moved(e.constants)))
  }

  // ----- what an address selects

  /** Loading the payload puts `data` at address `at`. */
  predicate Selects(payload: seq<byte>, at: nat, data: seq<byte>) {
    && |payload| >= 2 && Word(payload, 0) <= at && 2 + at - Word(payload, 0) + |data| <= |payload|
    && payload[2 + at - Word(payload, 0)..2 + at - Word(payload, 0) + |data|] == data
  }

  lemma SelectsAfter(load: nat, before: seq<byte>, data: seq<byte>, after: seq<byte>)
    requires load < 0x10000
    ensures Selects(Le16(load) + before + data + after, load + |before|, data)
  {
    var p := Le16(load) + before + data + after;
    assert p[0] == Le16(load)[0] && p[1] == Le16(load)[1];
  }

  /** What an envelope carries: the whole overlay and its parts. */
  datatype Components = Components(overlay: seq<byte>, page: seq<byte>, tail: seq<byte>, context: seq<byte>,
    switchTail: seq<byte>)

  /** The overlay's own header repeats the published values. */
  predicate HeaderSays(k: Components, c: Constants) {
    && |k.overlay| >= 20 && k.overlay[..6] == [0x55, 0x53, 0x4F, 0x56, 0, 3]
    && WordIs(k.overlay, 6, 0x1C00) && WordIs(k.overlay, 8, c.pageSize)
    && WordIs(k.overlay, 10, 0xC120) && WordIs(k.overlay, 12, c.tailSize)
    && WordIs(k.overlay, 14, c.bss) && WordIs(k.overlay, 16, c.bssSize) && WordIs(k.overlay, 18, c.checksum)
  }

  ghost predicate ActivationTrue(p: seq<byte>, k: Components, a: Activation) {
    && Selects(p, a.contextSource, k.context) && a.contextSize == |k.context|
    && Selects(p, a.switchSource, k.switchTail) && a.switchSize == |k.switchTail|
    && a.checksum == Sum(k.context + k.switchTail) % 0x10000
  }

  /** The overlay, its scheduler page and tail and, with activation, the context and the switch
      tail are where the constants say, with the sizes and checksums they say. */
  ghost predicate Truthful(e: Envelope, k: Components) {
    var c := e.constants;
    && Selects(e.payload, c.load, k.overlay) && c.end == c.load + |k.overlay| && HeaderSays(k, c)
    && Selects(e.payload, c.pageSource, k.page) && c.pageSize == |k.page|
    && Selects(e.payload, c.tailSource, k.tail) && c.tailSize == |k.tail|
    && c.checksum == (Sum(k.page) + Sum(k.tail)) % 0x10000
    && (c.activation.Some? ==> ActivationTrue(e.payload, k, c.activation.value))
  }

  /** The tail as installed at $C120: the linked tail, then zeros up to the router at $C880 and to the
      handler at $C900, each only when given. */
  ghost predicate TailLayout(installed: seq<byte>, tail: seq<byte>, router: seq<byte>, handler: seq<byte>) {
    && |installed| == (if handler != [] then 0x7E0 + |handler| else if router != [] then 0x760 + |router| else |tail|)
    && (router != [] ==> |tail| <= 0x760 && |router| <= 0x80) && (handler != [] ==> |tail| <= 0x7E0)
    && forall k | 0 <= k < |installed| ::
      installed[k] ==
        if k < |tail| then tail[k]
        else if router != [] && 0x760 <= k < 0x760 + |router| then router[k - 0x760]
        else if k >= 0x7E0 && handler != [] then handler[k - 0x7E0] else 0
  }

  lemma WordAfter(before: seq<byte>, values: seq<nat>, i: nat, v: nat)
    requires AllBelow(values, 0x10000) && i < |values| && values[i] == v && |before| == 6
    ensures Word(before + Words(values), 6 + 2 * i) == v
  {
    hide Words;
    var all, w := before + Words(values), Words(values);
    assert all[6 + 2 * i] == w[2 * i] && all[6 + 2 * i + 1] == w[2 * i + 1];
    assert Word(w, 2 * i) == values[i];
  }

  lemma HeaderWords(page: seq<byte>, tail: seq<byte>, bssStart: nat, bssSize: nat)
    requires |page| < 0x10000 && |tail| < 0x10000 && bssStart < 0x10000 && bssSize < 0x10000
    ensures var h := Header(page, tail, bssStart, bssSize);
      && Word(h, 6) == PAGE && Word(h, 8) == |page| && Word(h, 10) == TAIL && Word(h, 12) == |tail|
      && Word(h, 14) == bssStart && Word(h, 16) == bssSize && Word(h, 18) == (Sum(page) + Sum(tail)) % 0x10000
  {
    hide Sum, Words, Word;
    var checksum := (Sum(page) + Sum(tail)) % 0x10000;
    var before, values := USOV + [0, 3], [PAGE, |page|, TAIL, |tail|, bssStart, bssSize, checksum];
    WordAfter(before, values, 0, PAGE);
    WordAfter(before, values, 1, |page|);
    WordAfter(before, values, 2, TAIL);
    WordAfter(before, values, 3, |tail|);
    WordAfter(before, values, 4, bssStart);
    WordAfter(before, values, 5, bssSize);
    WordAfter(before, values, 6, checksum);
  }

  function Overlaid(page: seq<byte>, tail: seq<byte>, bss: Segment, extension: seq<byte>): seq<byte>
    requires |page| <= 0x400 && |tail| < 0x10000 && bss.start < 0x10000 && bss.size <= 0xFF
  {
    Header(page, tail, bss.start, bss.size) + page + tail + extension
  }

  lemma OverlaySelected(page: seq<byte>, tail: seq<byte>, bss: Segment, extension: seq<byte>,
      activation: Option<Activation>, context: seq<byte>, switchTail: seq<byte>)
    requires |page| <= 0x400 && |tail| < 0x10000 && bss.start < 0x10000 && bss.size <= 0xFF
    ensures var e, k := Assemble(page, tail, bss, extension, activation),
      Components(Overlaid(page, tail, bss, extension), page, tail, context, switchTail);
      && Selects(e.payload, LOAD, k.overlay) && e.constants.end == LOAD + |k.overlay| && HeaderSays(k, e.constants)
  {
    hide Selects, Header, Sum;
    var h, over := Header(page, tail, bss.start, bss.size), Overlaid(page, tail, bss, extension);
    HeaderWords(page, tail, bss.start, bss.size);
    SelectsAfter(LOAD, [], over, []);
    assert Le16(LOAD) + h + page + tail + extension == Le16(LOAD) + [] + over + [];
    assert over[..HEADER_SIZE] == h;
    assert forall i | 0 <= i < HEADER_SIZE :: over[i] == h[i];
    assert over[..6] == h[..6];
  }

  lemma PlainTruthful(page: seq<byte>, tail: seq<byte>, bss: Segment, context: seq<byte>, switchTail: seq<byte>)
    requires |page| <= 0x400 && |tail| < 0x10000 && bss.start < 0x10000 && bss.size <= 0xFF
    ensures Truthful(Assemble(page, tail, bss, [], None),
      Components(Overlaid(page, tail, bss, []), page, tail, context, switchTail))
  {
    hide Selects, Header, Sum, HeaderSays, Overlaid;
    OverlaySelected(page, tail, bss, [], None, context, switchTail);
    FourParts(Header(page, tail, bss.start, bss.size), page, tail, [], []);
    var none: seq<byte> := [];
    assert none + none == none;
  }

  function ActivationAt(source: nat, context: seq<byte>, switchTail: seq<byte>): Activation {
    Activation(source, |context|, source + |context|, |switchTail|, Sum(context + switchTail) % 0x10000)
  }

  lemma ActivatedTruthful(page: seq<byte>, tail: seq<byte>, bss: Segment, context: seq<byte>, switchTail: seq<byte>)
    requires |page| <= 0x400 && |tail| < 0x10000 && bss.start < 0x10000 && bss.size <= 0xFF
    ensures var source := LOAD + HEADER_SIZE + |page| + |tail|;
      Truthful(Assemble(page, tail, bss, context + switchTail, Some(ActivationAt(source, context, switchTail))),
               Components(Overlaid(page, tail, bss, context + switchTail), page, tail, context, switchTail))
  {
    hide Selects, Sum, HeaderSays, Overlaid;
    var a := ActivationAt(LOAD + HEADER_SIZE + |page| + |tail|, context, switchTail);
    OverlaySelected(page, tail, bss, context + switchTail, Some(a), context, switchTail);
    FourParts(Header(page, tail, bss.start, bss.size), page, tail, context, switchTail);
  }

  lemma OverlaidPayload(page: seq<byte>, tail: seq<byte>, bss: Segment, extension: seq<byte>, a: Option<Activation>)
    requires |page| <= 0x400 && |tail| < 0x10000 && bss.start < 0x10000 && bss.size <= 0xFF
    ensures var e := Assemble(page, tail, bss, extension, a);
      |e.payload| >= 2 && e.payload[2..] == Overlaid(page, tail, bss, extension)
  {
    hide Header, Sum;
    var h := Header(page, tail, bss.start, bss.size);
    assert (Le16(LOAD) + h + page + tail + extension)[2..] == h + page + tail + extension;
  }

  lemma FourParts(h: seq<byte>, page: seq<byte>, tail: seq<byte>, context: seq<byte>, switchTail: seq<byte>)
    ensures var p := Le16(LOAD) + h + page + tail + (context + switchTail);
      && Selects(p, LOAD + |h|, page) && Selects(p, LOAD + |h| + |page|, tail)
      && Selects(p, LOAD + |h| + |page| + |tail|, context) &&
        Selects(p, LOAD + |h| + |page| + |tail| + |context|, switchTail)
  {
    hide Selects, Le16;
    var l, both := Le16(LOAD), context + switchTail;
    var p := l + h + page + tail + both;
    SelectsAfter(LOAD, h, page, tail + both);
    Regrouped(l, h, page, tail, both);
    SelectsAfter(LOAD, h + page, tail, both);
    LastTwo(h + page + tail, context, switchTail);
    RegroupedTail(l, h, page, tail, both);
  }

  lemma Regrouped(l: seq<byte>, h: seq<byte>, page: seq<byte>, tail: seq<byte>, both: seq<byte>)
    ensures l + h + page + tail + both == l + h + page + (tail + both)
    ensures l + h + page + tail + both == l + (h + page) + tail + both
  {
  }

  lemma RegroupedTail(l: seq<byte>, h: seq<byte>, page: seq<byte>, tail: seq<byte>, both: seq<byte>)
    ensures l + h + page + tail + both == l + (h + page + tail) + both
  {
  }

  lemma LastTwo(before: seq<byte>, context: seq<byte>, switchTail: seq<byte>)
    ensures var p := Le16(LOAD) + before + (context + switchTail);
      Selects(p, LOAD + |before|, context) && Selects(p, LOAD + |before| + |context|, switchTail)
  {
    hide Selects, Le16;
    var p := Le16(LOAD) + before + (context + switchTail);
    SelectsAfter(LOAD, before, context, switchTail);
    assert p == Le16(LOAD) + before + context + switchTail;
    SelectsAfter(LOAD, before + context, switchTail, []);
    assert p == Le16(LOAD) + (before + context) + switchTail + [];
  }

  lemma RouterLayout(tail: seq<byte>, bssEnd: nat, router: seq<byte>)
    requires AddRouter(tail, bssEnd, router).Ok?
    ensures TailLayout(AddRouter(tail, bssEnd, router).value, tail, router, [])
  {
  }

  lemma HandlerLayout(routed: seq<byte>, tail: seq<byte>, router: seq<byte>, handler: seq<byte>)
    requires TailLayout(routed, tail, router, []) && AddHandler(routed, handler).Ok?
    ensures TailLayout(AddHandler(routed, handler).value, tail, router, handler)
  {
  }

  /** What the boot code finds: the envelope loads at $5000, its header at $5000, the page at $5014,
      then the tail, the context and the switch tail. */
  ghost predicate EnvelopeIs(e: Envelope, page: seq<byte>, tail: seq<byte>, bss: Segment, context: seq<byte>,
      switchTail: seq<byte>) {
    var c, activated := e.constants, context != [];
    && |e.payload| == 22 + |page| + |tail| + (if activated then |context| + |switchTail| else 0)
    && WordIs(e.payload, 0, 0x5000) && Truthful(e, Components(e.payload[2..], page, tail, context, switchTail))
    && c.load == 0x5000 && c.pageSource == 0x5014 && c.tailSource == 0x5014 + |page|
    && c.bss == bss.start && c.bssSize == bss.size
    && (c.activation.Some? <==> activated)
    && (activated ==>
          && c.activation.value.contextSource == 0x5014 + |page| + |tail|
          && c.activation.value.switchSource == 0x5014 + |page| + |tail| + |context|)
  }

  lemma AssembledIs(page: seq<byte>, tail: seq<byte>, bss: Segment, context: seq<byte>, switchTail: seq<byte>)
    requires |page| <= 0x400 && |tail| < 0x10000 && bss.start < 0x10000 && bss.size <= 0xFF
    ensures context == [] ==> EnvelopeIs(Assemble(page, tail, bss, [], None), page, tail, bss, context, switchTail)
    ensures context != [] ==>
      var a := ActivationAt(LOAD + HEADER_SIZE + |page| + |tail|, context, switchTail);
      EnvelopeIs(Assemble(page, tail, bss, context + switchTail, Some(a)), page, tail, bss, context, switchTail)
  {
    hide Truthful, Sum, Header, Overlaid;
    PlainTruthful(page, tail, bss, context, switchTail);
    ActivatedTruthful(page, tail, bss, context, switchTail);
    OverlaidPayload(page, tail, bss, [], None);
    var a := ActivationAt(LOAD + HEADER_SIZE + |page| + |tail|, context, switchTail);
    OverlaidPayload(page, tail, bss, context + switchTail, Some(a));
    LoadsAtStart(page, tail, bss, [], None);
    LoadsAtStart(page, tail, bss, context + switchTail, Some(a));
  }

  lemma LoadsAtStart(page: seq<byte>, tail: seq<byte>, bss: Segment, extension: seq<byte>, a: Option<Activation>)
    requires |page| <= 0x400 && |tail| < 0x10000 && bss.start < 0x10000 && bss.size <= 0xFF
    ensures var e := Assemble(page, tail, bss, extension, a);
      WordIs(e.payload, 0, 0x5000) && |e.payload| == 22 + |page| + |tail| + |extension|
  {
    hide Sum, Words;
    var h := Header(page, tail, bss.start, bss.size);
    hide Header;
    LoadWord(LOAD, h + page + tail + extension, Le16(LOAD) + (h + page + tail + extension));
    assert Le16(LOAD) + h + page + tail + extension == Le16(LOAD) + (h + page + tail + extension);
  }

  /** The page as installed: the vectors replace its last six bytes. */
  ghost function PageWith(page: seq<byte>, vectors: seq<byte>): seq<byte> {
    if |page| == 0x400 && vectors != [] then page[..0x3FA] + vectors else page
  }

  /** Every published source address and size of the overlay selects its component; the tail holds
      router and handler at their run addresses; the page carries the vectors. */
  lemma OverlayTheorem(page: seq<byte>, tail: seq<byte>, scheduler: Option<Segment>, code: Option<Segment>,
      bss: Option<Segment>,
                       context: seq<byte>, contextMap: ContextMap, switchTail: seq<byte>, handler: seq<byte>,
                       vectors: seq<byte>, router: seq<byte>)
    requires BuildOverlay(page, tail, scheduler, code, bss, context, contextMap, switchTail, handler, vectors,
      router).Ok?
    ensures bss.Some? && exists installed ::
      && TailLayout(installed, tail, router, handler)
      && EnvelopeIs(BuildOverlay(page, tail, scheduler, code, bss, context, contextMap, switchTail, handler, vectors,
           router).value, PageWith(page, vectors), installed, bss.value, context, switchTail)
  {
    hide EnvelopeIs, TailLayout, AllZero, Padded, Assemble, ActivationAt;
    RouterLayout(tail, bss.value.end, router);
    HandlerLayout(AddRouter(tail, bss.value.end, router).value, tail, router, handler);
    var patched, routed := PatchVectors(page, vectors).value, AddRouter(tail, bss.value.end, router).value;
    AssembledIs(patched, AddHandler(routed, handler).value, bss.value, context, switchTail);
  }

  // ----- which inputs are built

  ghost predicate ContextOk(context: seq<byte>, m: ContextMap, switchTail: seq<byte>) {
    && m.ContextMap? && m.code.Some? && m.bss.Some?
    && m.code.value.start == 0xCDBD && m.bss.value.start == 0xCDBD + |context| && m.bss.value.end == 0xCEFF
    && 0 < |context| <= 0xFF && m.bss.value.size <= 0x80 && |switchTail| == 0xC0
  }

  /** What `build_overlay` asks, in plain addresses and sizes. */
  ghost predicate OverlayInputsOk(page: seq<byte>, tail: seq<byte>, scheduler: Option<Segment>, code: Option<Segment>,
      bss: Option<Segment>, context: seq<byte>, contextMap: ContextMap, switchTail: seq<byte>, handler: seq<byte>,
      vectors: seq<byte>, router: seq<byte>) {
    && scheduler.Some? && code.Some? && bss.Some?
    && scheduler.value.start == 0x1C00 && code.value.start == 0xC120
    && scheduler.value.size <= |page| <= 0x400
    && (forall k | scheduler.value.size <= k < |page| :: page[k] == 0)
    && bss.value.start == 0xC120 + |tail| && 0 < bss.value.size <= 0xFF && bss.value.end < 0xCE00
    && (vectors != [] ==> |vectors| == 6 && |page| == 0x400 && forall k | 0x3FA <= k < 0x400 :: page[k] == 0)
    && (router != [] ==> bss.value.end < 0xC880 && |tail| <= 0x760 && |router| <= 0x80)
    && (handler != [] ==> |handler| <= 0x4BD && (router == [] ==> |tail| <= 0x7E0))
    && |tail| < 0x3EE0
    && (if context == [] && contextMap.NoMap? && switchTail == [] then handler == []
        else handler != [] && ContextOk(context, contextMap, switchTail))
  }

  lemma ZeroFrom(page: seq<byte>, n: nat)
    requires n <= |page|
    ensures AllZero(page[n..]) <==> forall k | n <= k < |page| :: page[k] == 0
  {
    if AllZero(page[n..]) {
      forall k | n <= k < |page| ensures page[k] == 0 { assert page[n..][k - n] == 0; }
    }
  }

  /** The overlay is built exactly when its inputs are right. */
  lemma OverlayExactly(page: seq<byte>, tail: seq<byte>, scheduler: Option<Segment>, code: Option<Segment>,
      bss: Option<Segment>, context: seq<byte>, contextMap: ContextMap, switchTail: seq<byte>, handler: seq<byte>,
      vectors: seq<byte>, router: seq<byte>)
    ensures BuildOverlay(page, tail, scheduler, code, bss, context, contextMap, switchTail, handler, vectors,
        router).Ok? <==>
      OverlayInputsOk(page, tail, scheduler, code, bss, context, contextMap, switchTail, handler, vectors, router)
  {
    hide AllZero, Padded, Assemble, Sum;
    if scheduler.Some? && scheduler.value.size <= |page| { ZeroFrom(page, scheduler.value.size); }
    if |page| == 0x400 { ZeroFrom(page, 0x3FA); }
  }

  // ----- moving the sources

  lemma SelectsMoved(p: seq<byte>, q: seq<byte>, at: nat, data: seq<byte>, shift: nat)
    requires Selects(p, at, data) && Word(p, 0) + shift >= CORE && |q| >= 2 && Word(q, 0) == CORE
    requires |q| == |p| + Word(p, 0) + shift - CORE && q[2 + Word(p, 0) + shift - CORE..] == p[2..]
    ensures Selects(q, at + shift, data)
  {
    var k, n := Word(p, 0) + shift - CORE, 2 + at - Word(p, 0);
    assert q[2 + k..][n - 2..n - 2 + |data|] == p[2..][n - 2..n - 2 + |data|];
    assert q[n + k..n + k + |data|] == p[n..n + |data|];
  }

  lemma WrappedShape(e: Envelope, cache: seq<byte>)
    requires WrapScheduler(e, cache).Ok?
    ensures var q := WrapScheduler(e, cache).value.payload;
      && |e.payload| >= 8 && Word(e.payload, 0) == LOAD && |q| >= 2 && Word(q, 0) == CORE
      && |q| == |e.payload| + SOURCE - CORE && q[2 + SOURCE - CORE..] == e.payload[2..]
      && Selects(q, CORE, cache) && Selects(q, IDENTITY, Identity(cache))
  {
    hide Selects, Identity, Sum, Padded, Le16;
    var q, id := WrapScheduler(e, cache).value.payload, Identity(cache);
    var prefix := Padded(Padded(cache, IDENTITY - CORE) + id, SOURCE - CORE);
    LoadWord(CORE, prefix + e.payload[2..], q);
    assert e.payload == Le16(LOAD) + (USOV + [0, 3] + e.payload[8..]) by {
      assert e.payload == e.payload[..8] + e.payload[8..];
    }
    LoadWord(LOAD, USOV + [0, 3] + e.payload[8..], e.payload);
    PaddedSelects(cache, id, e.payload[2..]);
  }

  lemma PaddedSelects(cache: seq<byte>, id: seq<byte>, rest: seq<byte>)
    requires |cache| <= IDENTITY - CORE && |id| == 16
    ensures var q := Le16(CORE) + Padded(Padded(cache, IDENTITY - CORE) + id, SOURCE - CORE) + rest;
      Selects(q, CORE, cache) && Selects(q, IDENTITY, id)
  {
    hide Selects, Padded, Le16;
    var first := Padded(cache, IDENTITY - CORE);
    var prefix := Padded(first + id, SOURCE - CORE);
    var q, l := Le16(CORE) + prefix + rest, Le16(CORE);
    var tail := prefix[|first + id|..] + rest;
    SelectsAfter(CORE, first, id, tail);
    assert q == l + first + id + tail by { assert prefix == first + id + prefix[|first + id|..]; }
    var others := first[|cache|..] + id + tail;
    SelectsAfter(CORE, [], cache, others);
    assert l + first + id + tail == l + [] + cache + others by { assert first == cache + first[|cache|..]; }
  }

  lemma LoadWord(load: nat, rest: seq<byte>, p: seq<byte>)
    requires load < 0x10000 && p == Le16(load) + rest
    ensures Word(p, 0) == load
  {
    assert p[0] == Le16(load)[0] && p[1] == Le16(load)[1];
  }

  /** Moving the sources keeps every published address true, and adds the cache module and its identity. */
  lemma WrapTheorem(e: Envelope, cache: seq<byte>, k: Components)
    requires Truthful(e, k) && WrapScheduler(e, cache).Ok?
    ensures var w := WrapScheduler(e, cache).value;
      && Truthful(w, k) && w.constants.activation.Some?
      && Selects(w.payload, 0x4200, cache) && Selects(w.payload, 0x5210, Identity(cache))
  {
    hide Selects, Identity, Sum, Padded, Word;
    WrappedShape(e, cache);
    var q, c := WrapScheduler(e, cache).value.payload, e.constants;
    var a := c.activation.value;
    SelectsMoved(e.payload, q, c.load, k.overlay, 0x1000);
    SelectsMoved(e.payload, q, c.pageSource, k.page, 0x1000);
    SelectsMoved(e.payload, q, c.tailSource, k.tail, 0x1000);
    SelectsMoved(e.payload, q, a.contextSource, k.context, 0x1000);
    SelectsMoved(e.payload, q, a.switchSource, k.switchTail, 0x1000);
  }

  /** The wrapped envelope byte by byte: the cache module at $4200, its identity at $5210, zeros between
      and after, and the overlay from $6000 on; the six moved sources go up by $1000, nothing else moves. */
  ghost predicate WrappedAs(e: Envelope, cache: seq<byte>, w: Envelope) {
    var q, c, d := w.payload, e.constants, w.constants;
    && 0 < |cache| <= 0x1010 && 2 <= |e.payload| && |q| == 0x1E00 + |e.payload| && WordIs(q, 0, 0x4200)
    && (forall k | 0 <= k < 0x1E00 :: q[2 + k] == if k < |cache| then cache[k]
                                                   else if 0x1010 <= k < 0x1020 then Identity(cache)[k - 0x1010] else 0)
    && q[0x1E02..] == e.payload[2..]
    && c.activation.Some? && d == c.(load := c.load + 0x1000, end := c.end + 0x1000,
      pageSource := c.pageSource + 0x1000, tailSource := c.tailSource + 0x1000, activation := d.activation)
    && d.activation == Some(c.activation.value.(contextSource := c.activation.value.contextSource + 0x1000,
      switchSource := c.activation.value.switchSource + 0x1000))
  }

  /** The scheduler envelope is wrapped exactly when it is the $5000 overlay of version 0.3 with
      activation, ends below $7FC0, and the cache module is not empty and ends below its identity. */
  lemma WrapExactly(e: Envelope, cache: seq<byte>)
    ensures WrapScheduler(e, cache).Ok? <==>
      && 8 <= |e.payload| <= 0x1FC2 && e.payload[..8] == [0, 0x50, 0x55, 0x53, 0x4F, 0x56, 0, 3]
      && e.constants.activation.Some? && 0 < |cache| <= 0x1010
    ensures WrapScheduler(e, cache).Ok? ==> WrappedAs(e, cache, WrapScheduler(e, cache).value)
  {
    assert Le16(LOAD) + USOV + [0, 3] == [0, 0x50, 0x55, 0x53, 0x4F, 0x56, 0, 3];
    hide Identity, Padded, Sum, WrappedAs;
    if WrapScheduler(e, cache).Ok? { WrappedBytes(e, cache); }
  }

  lemma WrappedBytes(e: Envelope, cache: seq<byte>)
    requires WrapScheduler(e, cache).Ok?
    ensures WrappedAs(e, cache, WrapScheduler(e, cache).value)
  {
    hide Identity, Sum, Word;
    WrappedShape(e, cache);
    var q, id := WrapScheduler(e, cache).value.payload, Identity(cache);
    var first := Padded(cache, 0x1010);
    var prefix := Padded(first + id, 0x1E00);
    assert q == Le16(CORE) + prefix + e.payload[2..];
    forall k | 0 <= k < 0x1E00
      ensures q[2 + k] == if k < |cache| then cache[k] else if 0x1010 <= k < 0x1020 then id[k - 0x1010] else 0
    {
      assert q[2 + k] == prefix[k];
    }
  }

  lemma IdentityIs(cache: seq<byte>)
    requires |cache| <= IDENTITY - CORE
    ensures Identity(cache) == VCC2 + [0, 1] + Words(IdentityValues(cache)) && |VCC2 + [0, 1]| == 6
    ensures var v := IdentityValues(cache);
      v[0] == CORE && v[1] == |cache| && v[2] == Sum(cache) % 0x10000 && v[3] == 0x42D5 && v[4] == 2224
  {
    hide Words, Sum;
  }

  /** The identity's fields. */
  lemma IdentityWords(cache: seq<byte>)
    requires |cache| <= 0x1010
    ensures var id := Identity(cache);
      && |id| == 16 && id[..6] == [0x56, 0x43, 0x43, 0x32, 0, 1]
      && WordIs(id, 6, 0x4200) && WordIs(id, 8, |cache|) && WordIs(id, 10, Sum(cache) % 0x10000)
      && WordIs(id, 12, 0x42D5) && WordIs(id, 14, 2224)
  {
    hide Identity, IdentityValues, Words, Sum;
    var values := IdentityValues(cache);
    IdentityIs(cache);
    assert Identity(cache)[..6] == VCC2 + [0, 1];
    WordAfter(VCC2 + [0, 1], values, 0, CORE);
    WordAfter(VCC2 + [0, 1], values, 1, |cache|);
    WordAfter(VCC2 + [0, 1], values, 2, Sum(cache) % 0x10000);
    WordAfter(VCC2 + [0, 1], values, 3, 0x42D5);
    WordAfter(VCC2 + [0, 1], values, 4, 2224);
  }
}
