/** The VIC bitmap of the raster oracle: cell-addressed pixels, a dirty-page map, and drawing as a
    sequence of pixel writes. */
module Raster {
  import opened Bytes
  import opened Bresenham

  const WIDTH: int := 320
  const HEIGHT: int := 200

  datatype Clip = Clip(left: int, top: int, right: int, bottom: int) {
    predicate OnScreen() { 0 <= left && 0 <= top && right <= WIDTH && bottom <= HEIGHT }
    predicate Inside(p: Point) { left <= p.x < right && top <= p.y < bottom }
  }

  const FULL: Clip := Clip(0, 0, WIDTH, HEIGHT)

  predicate Visible(p: Point) { 0 <= p.x < WIDTH && 0 <= p.y < HEIGHT }

  // ----- addressing

  /** `(y & 248) * 40 + (x & ~7) + (y & 7)`. */
  function ByteOf(p: Point): (o: nat)
    requires Visible(p)
    ensures o < 8000
  {
    (p.y / 8 * 8) * 40 + p.x / 8 * 8 + p.y % 8
  }

  /** `(y // 8) * 320 + (x // 8) * 8 + y % 8`, the sibling oracles' formula. */
  function CellByteOf(p: Point): nat
    requires Visible(p)
  {
    p.y / 8 * 320 + p.x / 8 * 8 + p.y % 8
  }

  /** The bit of `128 >> (x & 7)`. */
  function BitOf(p: Point): (k: nat)
    requires Visible(p)
    ensures k < 8
  {
    7 - p.x % 8
  }

  function PixelAt(o: nat, k: nat): (p: Point)
    requires o < 8000 && k < 8
    ensures Visible(p)
  {
    Point(o % 320 / 8 * 8 + 7 - k, o / 320 * 8 + o % 8)
  }

  lemma CellParts(p: Point)
    requires Visible(p)
    ensures ByteOf(p) == CellByteOf(p)
    ensures ByteOf(p) / 320 == p.y / 8 && ByteOf(p) % 320 == p.x / 8 * 8 + p.y % 8
  {
    var inner := p.x / 8 * 8 + p.y % 8;
    assert 0 <= inner < 320 && ByteOf(p) == 320 * (p.y / 8) + inner;
  }

  lemma PixelBack(p: Point)
    requires Visible(p)
    ensures PixelAt(ByteOf(p), BitOf(p)) == p
  {
    CellParts(p);
    hide ByteOf;
    var o := ByteOf(p);
    assert o % 8 == o % 320 % 8;
    assert (p.x / 8 * 8 + p.y % 8) / 8 == p.x / 8;
  }

  lemma BitBack(o: nat, k: nat)
    requires o < 8000 && k < 8
    ensures ByteOf(PixelAt(o, k)) == o && BitOf(PixelAt(o, k)) == k
  {
    assert o % 320 % 8 == o % 8;
  }

  /** The two formulas agree, and address and bit are a bijection of the 320x200 pixels onto the
      8000x8 bits. */
  lemma AddressBijection(p: Point, o: nat, k: nat)
    requires Visible(p) && o < 8000 && k < 8
    ensures ByteOf(p) == CellByteOf(p) == 320 * (p.y / 8) + 8 * (p.x / 8) + p.y % 8
    ensures PixelAt(ByteOf(p), BitOf(p)) == p
    ensures ByteOf(PixelAt(o, k)) == o && BitOf(PixelAt(o, k)) == k
  {
    hide ByteOf, BitOf, PixelAt, CellByteOf;
    CellParts(p);
    PixelBack(p);
    BitBack(o, k);
  }

  // ----- the screen and one pixel

  datatype Screen = Screen(bitmap: seq<byte>, dirty: seq<byte>) {
    predicate Ok() { |bitmap| == 8000 && |dirty| == 32 }
  }

  function Painted(b: byte, k: nat, color: int): (r: byte)
    requires k < 8
  {
    assert b < Pow2(8) by {
      assert Pow2(8) == 2 * Pow2(7) && Pow2(7) == 2 * Pow2(6) && Pow2(6) == 2 * Pow2(5) && Pow2(5) == 2 * Pow2(4) &&
        Pow2(4) == 2 * Pow2(3) && Pow2(3) == 8;
    }
    assert Pow2(8) == 256 by { assert Pow2(7) == 128 by { assert Pow2(6) == 64 by { assert Pow2(5) == 32 by {
      assert Pow2(4) == 16;
      } } }
    }
    if color == 0 then SetBit(b, k) else ClearBit(b, k)
  }

  function Plot(s: Screen, clip: Clip, p: Point, color: int): (r: Screen)
    requires s.Ok() && clip.OnScreen()
    ensures r.Ok()
  {
    if !clip.Inside(p) then s else
      var o := ByteOf(p);
      Screen(s.bitmap[o := Painted(s.bitmap[o], BitOf(p), color)], s.dirty[o / 256 := 1])
  }

  predicate Lit(s: Screen, p: Point)
    requires s.Ok() && Visible(p)
  {
    TestBit(s.bitmap[ByteOf(p)], BitOf(p))
  }

  /** The masks of a cell's eight pixels, left to right. */
  const MASKS: seq<nat> := [128, 64, 32, 16, 8, 4, 2, 1]

  lemma MaskIs(x: int)
    ensures 0 <= 7 - x % 8 < 8 && BIT_VALUES[7 - x % 8] == MASKS[x % 8] > 0
  {
  }

  lemma PaintedIs(b: byte, x: int, color: int)
    ensures 0 <= 7 - x % 8 < 8
    ensures var mask := MASKS[x % 8];
      Painted(b, 7 - x % 8, color) ==
        if color == 0 then (if b / mask % 2 == 1 then b else b + mask)
        else if b / mask % 2 == 1 then b - mask else b
  {
    MaskIs(x);
    hide MASKS, BIT_VALUES;
    BitsAreWorth(b, 7 - x % 8);
  }

  /** r is s with one pixel of byte o set (color 0) or cleared, and the byte's page flagged. */
  ghost predicate Plotted(s: Screen, r: Screen, o: int, mask: int, color: int) {
    && s.Ok() && r.Ok() && 0 <= o < 8000 && mask > 0
    && var lit := s.bitmap[o] / mask % 2 == 1;
    && r.bitmap[o] ==
      (s.bitmap[o] as int) + (if color == 0 && !lit then mask else if color != 0 && lit then -mask else 0)
    && (forall i | 0 <= i < 8000 && i != o :: r.bitmap[i] == s.bitmap[i])
    && forall i | 0 <= i < 32 :: r.dirty[i] == if i == o / 256 then 1 else s.dirty[i]
  }

  lemma PlotAt(s: Screen, clip: Clip, p: Point, color: int)
    requires s.Ok() && clip.OnScreen() && clip.Inside(p)
    ensures Plotted(s, Plot(s, clip, p, color), ByteOf(p), MASKS[p.x % 8], color)
  {
    hide TestBit, Painted, MASKS, ByteOf;
    PaintedIs(s.bitmap[ByteOf(p)], p.x, color);
    MaskIs(p.x);
  }

  /** One pixel write in plain numbers: inside the clip it sets or clears the pixel's bit of the byte
      at 320 times the cell row plus 8 times the cell column plus the line in the cell, and flags that
      byte's page; outside it does nothing. */
  lemma PlotIs(s: Screen, clip: Clip, p: Point, color: int)
    requires s.Ok() && clip.OnScreen()
    ensures 0 <= clip.left && 0 <= clip.top && clip.right <= 320 && clip.bottom <= 200
    ensures !(clip.left <= p.x < clip.right && clip.top <= p.y < clip.bottom) ==> Plot(s, clip, p, color) == s
    ensures clip.left <= p.x < clip.right && clip.top <= p.y < clip.bottom ==>
      && Plotted(s, Plot(s, clip, p, color), 320 * (p.y / 8) + 8 * (p.x / 8) + p.y % 8, MASKS[p.x % 8], color)
      && Lit(s, p) == (s.bitmap[ByteOf(p)] / MASKS[p.x % 8] % 2 == 1)
  {
    hide TestBit, MASKS, Plotted, Lit, ByteOf;
    if clip.Inside(p) {
      CellParts(p);
      LitIs(s, p);
      PlotAt(s, clip, p, color);
    }
  }

  lemma LitIs(s: Screen, p: Point)
    requires s.Ok() && Visible(p)
    ensures Lit(s, p) == (s.bitmap[ByteOf(p)] / MASKS[p.x % 8] % 2 == 1)
  {
    MaskIs(p.x);
    hide MASKS, BIT_VALUES, ByteOf, TestBit;
    BitsAreWorth(s.bitmap[ByteOf(p)], 7 - p.x % 8);
  }

  lemma PlotBits(s: Screen, clip: Clip, p: Point, color: int, q: Point)
    requires s.Ok() && clip.OnScreen() && Visible(q)
    ensures Lit(Plot(s, clip, p, color), q) == if p == q && clip.Inside(p) then color == 0 else Lit(s, q)
  {
    hide ByteOf, BitOf, TestBit, SetBit, ClearBit;
    if clip.Inside(p) {
      AddressBijection(p, 0, 0);
      AddressBijection(q, 0, 0);
      BitsOfSet(s.bitmap[ByteOf(p)], BitOf(p), BitOf(q));
      BitsOfClear(s.bitmap[ByteOf(p)], BitOf(p), BitOf(q));
    }
  }

  // ----- sequences of writes

  datatype Write = Write(at: Point, color: int)

  function Draw(s: Screen, clip: Clip, ws: seq<Write>): (r: Screen)
    requires s.Ok() && clip.OnScreen()
    ensures r.Ok()
    decreases |ws|
  {
    if ws == [] then s else Plot(Draw(s, clip, ws[..|ws| - 1]), clip, ws[|ws| - 1].at, ws[|ws| - 1].color)
  }

  lemma {:induction false} DrawAppend(s: Screen, clip: Clip, a: seq<Write>, b: seq<Write>)
    requires s.Ok() && clip.OnScreen()
    ensures Draw(s, clip, a + b) == Draw(Draw(s, clip, a), clip, b)
    decreases |b|
  {
    hide Plot;
    if b == [] {
      assert a + b == a;
    } else {
      DrawAppend(s, clip, a, b[..|b| - 1]);
      assert (a + b)[..|a + b| - 1] == a + b[..|b| - 1];
    }
  }

  lemma DrawOne(s: Screen, clip: Clip, a: seq<Write>, w: Write)
    requires s.Ok() && clip.OnScreen()
    ensures Draw(s, clip, a + [w]) == Plot(Draw(s, clip, a), clip, w.at, w.color)
  {
    hide Plot;
    assert (a + [w])[..|a|] == a;
  }

  /** The color of the last write at q inside the clip decides; without one the pixel keeps its bit. */
  function LastSays(ws: seq<Write>, clip: Clip, q: Point, before: bool): bool {
    if ws == [] then before
    else if ws[|ws| - 1].at == q && clip.Inside(q) then ws[|ws| - 1].color == 0
    else LastSays(ws[..|ws| - 1], clip, q, before)
  }

  /** Soundness of the bitmap over any sequence of writes: every pixel shows its last write. */
  lemma {:induction false} LastWriteWins(s: Screen, clip: Clip, ws: seq<Write>, q: Point)
    requires s.Ok() && clip.OnScreen() && Visible(q)
    ensures Lit(Draw(s, clip, ws), q) == LastSays(ws, clip, q, Lit(s, q))
    decreases |ws|
  {
    hide Plot, Lit;
    if ws != [] {
      LastWriteWins(s, clip, ws[..|ws| - 1], q);
      PlotBits(Draw(s, clip, ws[..|ws| - 1]), clip, ws[|ws| - 1].at, ws[|ws| - 1].color, q);
    }
  }

  ghost predicate Touches(ws: seq<Write>, clip: Clip, page: nat)
    requires clip.OnScreen()
  {
    exists i | 0 <= i < |ws| :: clip.Inside(ws[i].at) && ByteOf(ws[i].at) / 256 == page
  }

  /** The dirty map flags exactly the pages some visible write fell in, besides those already flagged,
      and every byte that changed lies in a flagged page. */
  lemma {:induction false} DirtyExactly(s: Screen, clip: Clip, ws: seq<Write>, page: nat, o: nat)
    requires s.Ok() && clip.OnScreen() && page < 32 && o < 8000
    ensures Draw(s, clip, ws).dirty[page] == if Touches(ws, clip, page) then 1 else s.dirty[page]
    ensures Draw(s, clip, ws).bitmap[o] != s.bitmap[o] ==> Touches(ws, clip, o / 256)
  {
    hide ByteOf, Painted;
    if ws != [] {
      var before, w := ws[..|ws| - 1], ws[|ws| - 1];
      DirtyExactly(s, clip, before, page, o);
      TouchesMore(before, w, clip, page);
      TouchesMore(before, w, clip, o / 256);
      assert before + [w] == ws;
    }
  }

  lemma TouchesMore(ws: seq<Write>, w: Write, clip: Clip, page: nat)
    requires clip.OnScreen()
    ensures Touches(ws + [w], clip, page) <==>
      Touches(ws, clip, page) || (clip.Inside(w.at) && ByteOf(w.at) / 256 == page)
  {
    hide ByteOf;
    var more := ws + [w];
    assert more[|ws|] == w;
    if Touches(ws, clip, page) {
      var i :| 0 <= i < |ws| && clip.Inside(ws[i].at) && ByteOf(ws[i].at) / 256 == page;
      assert more[i] == ws[i];
    }
  }

  // ----- shapes

  function RowWrites(x0: int, x1: int, y: int, color: int): seq<Write>
    decreases x1 - x0
  {
    if x1 <= x0 then [] else RowWrites(x0, x1 - 1, y, color) + [Write(Point(x1 - 1, y), color)]
  }

  /** Rows y0..y1-1, left to right, top to bottom. */
  function BoxWrites(x0: int, x1: int, y0: int, y1: int, color: int): seq<Write>
    decreases y1 - y0
  {
    if y1 <= y0 then [] else BoxWrites(x0, x1, y0, y1 - 1, color) + RowWrites(x0, x1, y1 - 1, color)
  }

  function EdgeRows(x0: int, x1: int, top: int, bottom: int, color: int): seq<Write>
    decreases x1 - x0
  {
    if x1 <= x0 then [] else
      EdgeRows(x0, x1 - 1, top, bottom, color) +
      [Write(Point(x1 - 1, top), color), Write(Point(x1 - 1, bottom), color)]
  }

  function EdgeColumns(y0: int, y1: int, left: int, right: int, color: int): seq<Write>
    decreases y1 - y0
  {
    if y1 <= y0 then [] else
      EdgeColumns(y0, y1 - 1, left, right, color) +
      [Write(Point(left, y1 - 1), color), Write(Point(right, y1 - 1), color)]
  }

  datatype Op =
    | Pixel(x: int, y: int, color: int)
    | Line(x: int, y: int, xx: int, yy: int, color: int)
    | Outline(x: int, y: int, w: int, h: int, color: int)
    | Fill(x: int, y: int, w: int, h: int, color: int)

  function LineWrites(x: int, y: int, xx: int, yy: int, color: int, n: nat): seq<Write> {
    if n == 0 then [] else LineWrites(x, y, xx, yy, color, n - 1) + [Write(LinePoint(x, y, xx, yy, n - 1), color)]
  }

  function WritesOf(op: Op): seq<Write> {
    match op
    case Pixel(x, y, c) => [Write(Point(x, y), c)]
    case Line(x, y, xx, yy, c) => LineWrites(x, y, xx, yy, c, Moves(x, y, xx, yy) + 1)
    case Outline(x, y, w, h, c) =>
      if w <= 0 || h <= 0 then [] else EdgeRows(x, x + w, y, y + h - 1, c) + EdgeColumns(y, y + h, x, x + w - 1, c)
    case Fill(x, y, w, h, c) => BoxWrites(x, x + w, y, y + h, c)
  }

  /** The points an operation covers, said without its loops. */
  ghost predicate Covers(op: Op, p: Point) {
    match op
    case Pixel(x, y, _) => p == Point(x, y)
    case Line(x, y, xx, yy, _) => exists k | 0 <= k <= Moves(x, y, xx, yy) :: LinePoint(x, y, xx, yy, k) == p
    case Outline(x, y, w, h, _) =>
      x <= p.x < x + w && y <= p.y < y + h && (p.x == x || p.x == x + w - 1 || p.y == y || p.y == y + h - 1)
    case Fill(x, y, w, h, _) => x <= p.x < x + w && y <= p.y < y + h
  }

  ghost predicate Hits(ws: seq<Write>, p: Point) {
    exists i | 0 <= i < |ws| :: ws[i].at == p
  }

  ghost predicate OneColor(ws: seq<Write>, color: int) {
    forall i | 0 <= i < |ws| :: ws[i].color == color
  }

  lemma HitsAppend(a: seq<Write>, b: seq<Write>, p: Point)
    ensures Hits(a + b, p) <==> Hits(a, p) || Hits(b, p)
  {
    if Hits(a, p) {
      var i :| 0 <= i < |a| && a[i].at == p;
      assert (a + b)[i].at == p;
    }
    if Hits(b, p) {
      var i :| 0 <= i < |b| && b[i].at == p;
      assert (a + b)[|a| + i].at == p;
    }
  }

  lemma {:induction false} RowHits(x0: int, x1: int, y: int, color: int, p: Point)
    ensures Hits(RowWrites(x0, x1, y, color), p) <==> x0 <= p.x < x1 && p.y == y
    ensures OneColor(RowWrites(x0, x1, y, color), color)
    decreases x1 - x0
  {
    if x0 < x1 {
      RowHits(x0, x1 - 1, y, color, p);
      HitsAppend(RowWrites(x0, x1 - 1, y, color), [Write(Point(x1 - 1, y), color)], p);
      HitsOne(Write(Point(x1 - 1, y), color), p);
    }
  }

  lemma HitsOne(w: Write, p: Point)
    ensures Hits([w], p) <==> w.at == p
  {
    assert [w][0] == w;
  }

  lemma HitsTwo(v: Write, w: Write, p: Point)
    ensures Hits([v, w], p) <==> v.at == p || w.at == p
  {
    assert [v, w][0] == v && [v, w][1] == w;
  }

  lemma {:induction false} BoxHits(x0: int, x1: int, y0: int, y1: int, color: int, p: Point)
    ensures Hits(BoxWrites(x0, x1, y0, y1, color), p) <==> x0 <= p.x < x1 && y0 <= p.y < y1
    ensures OneColor(BoxWrites(x0, x1, y0, y1, color), color)
    decreases y1 - y0
  {
    hide RowWrites;
    if y0 < y1 {
      BoxHits(x0, x1, y0, y1 - 1, color, p);
      RowHits(x0, x1, y1 - 1, color, p);
      HitsAppend(BoxWrites(x0, x1, y0, y1 - 1, color), RowWrites(x0, x1, y1 - 1, color), p);
    }
  }

  lemma {:induction false} EdgeRowsHit(x0: int, x1: int, top: int, bottom: int, color: int, p: Point)
    ensures Hits(EdgeRows(x0, x1, top, bottom, color), p) <==> x0 <= p.x < x1 && (p.y == top || p.y == bottom)
    ensures OneColor(EdgeRows(x0, x1, top, bottom, color), color)
    decreases x1 - x0
  {
    if x0 < x1 {
      EdgeRowsHit(x0, x1 - 1, top, bottom, color, p);
      var v, w := Write(Point(x1 - 1, top), color), Write(Point(x1 - 1, bottom), color);
      HitsAppend(EdgeRows(x0, x1 - 1, top, bottom, color), [v, w], p);
      HitsTwo(v, w, p);
    }
  }

  lemma {:induction false} EdgeColumnsHit(y0: int, y1: int, left: int, right: int, color: int, p: Point)
    ensures Hits(EdgeColumns(y0, y1, left, right, color), p) <==> y0 <= p.y < y1 && (p.x == left || p.x == right)
    ensures OneColor(EdgeColumns(y0, y1, left, right, color), color)
    decreases y1 - y0
  {
    if y0 < y1 {
      EdgeColumnsHit(y0, y1 - 1, left, right, color, p);
      var v, w := Write(Point(left, y1 - 1), color), Write(Point(right, y1 - 1), color);
      HitsAppend(EdgeColumns(y0, y1 - 1, left, right, color), [v, w], p);
      HitsTwo(v, w, p);
    }
  }

  lemma {:induction false} LineHits(x: int, y: int, xx: int, yy: int, color: int, n: nat, p: Point)
    ensures Hits(LineWrites(x, y, xx, yy, color, n), p) <==> exists k | 0 <= k < n :: LinePoint(x, y, xx, yy, k) == p
    ensures OneColor(LineWrites(x, y, xx, yy, color, n), color)
    decreases n
  {
    hide LinePoint;
    if n > 0 {
      LineHits(x, y, xx, yy, color, n - 1, p);
      var w := Write(LinePoint(x, y, xx, yy, n - 1), color);
      HitsAppend(LineWrites(x, y, xx, yy, color, n - 1), [w], p);
      HitsOne(w, p);
    }
  }

  /** Each operation writes exactly the points it covers, all in its own color. */
  lemma OpHits(op: Op, p: Point)
    ensures Hits(WritesOf(op), p) <==> Covers(op, p)
    ensures OneColor(WritesOf(op), op.color)
  {
    hide LinePoint, EdgeRows, EdgeColumns, BoxWrites, LineWrites, Moves;
    match op
    case Pixel(x, y, c) => HitsOne(Write(Point(x, y), c), p);
    case Line(x, y, xx, yy, c) => LineHits(x, y, xx, yy, c, Moves(x, y, xx, yy) + 1, p);
    case Outline(x, y, w, h, c) =>
      if w > 0 && h > 0 {
        EdgeRowsHit(x, x + w, y, y + h - 1, c, p);
        EdgeColumnsHit(y, y + h, x, x + w - 1, c, p);
        HitsAppend(EdgeRows(x, x + w, y, y + h - 1, c), EdgeColumns(y, y + h, x, x + w - 1, c), p);
      }
    case Fill(x, y, w, h, c) => BoxHits(x, x + w, y, y + h, c, p);
  }

  // ----- sequences of operations

  function Perform(s: Screen, clip: Clip, ops: seq<Op>): (r: Screen)
    requires s.Ok() && clip.OnScreen()
    ensures r.Ok()
    decreases |ops|
  {
    if ops == [] then s else Draw(Perform(s, clip, ops[..|ops| - 1]), clip, WritesOf(ops[|ops| - 1]))
  }

  /** The bit the last operation covering q gives it. */
  ghost function LastCover(ops: seq<Op>, clip: Clip, q: Point, before: bool): bool {
    if ops == [] then before
    else if Covers(ops[|ops| - 1], q) && clip.Inside(q) then ops[|ops| - 1].color == 0
    else LastCover(ops[..|ops| - 1], clip, q, before)
  }

  lemma {:induction false} OneColorSays(ws: seq<Write>, color: int, clip: Clip, q: Point, before: bool)
    requires OneColor(ws, color)
    ensures LastSays(ws, clip, q, before) == if Hits(ws, q) && clip.Inside(q) then color == 0 else before
    decreases |ws|
  {
    if ws != [] {
      OneColorSays(ws[..|ws| - 1], color, clip, q, before);
      HitsAppend(ws[..|ws| - 1], [ws[|ws| - 1]], q);
      HitsOne(ws[|ws| - 1], q);
      assert ws[..|ws| - 1] + [ws[|ws| - 1]] == ws;
    }
  }

  /** Over any sequence of pixels, lines, outlines and fills, each pixel ends with the color of the
      last operation covering it inside the clip. */
  lemma {:induction false} LastOperationWins(s: Screen, clip: Clip, ops: seq<Op>, q: Point)
    requires s.Ok() && clip.OnScreen() && Visible(q)
    ensures Lit(Perform(s, clip, ops), q) == LastCover(ops, clip, q, Lit(s, q))
    decreases |ops|
  {
    hide Draw, Covers, WritesOf, Lit, LastSays;
    if ops != [] {
      var op, before := ops[|ops| - 1], Perform(s, clip, ops[..|ops| - 1]);
      LastOperationWins(s, clip, ops[..|ops| - 1], q);
      LastWriteWins(before, clip, WritesOf(op), q);
      OpHits(op, q);
      OneColorSays(WritesOf(op), op.color, clip, q, Lit(before, q));
    }
  }

  /** Every byte that differs after any sequence of operations lies in a page the dirty map flags. */
  lemma {:induction false} ChangesAreDirty(s: Screen, clip: Clip, ops: seq<Op>, o: nat)
    requires s.Ok() && clip.OnScreen() && o < 8000
    ensures Perform(s, clip, ops).bitmap[o] != s.bitmap[o] ==> Perform(s, clip, ops).dirty[o / 256] == 1
    decreases |ops|
  {
    hide Draw, WritesOf, Touches;
    if ops != [] {
      ChangesAreDirty(s, clip, ops[..|ops| - 1], o);
      DirtyExactly(Perform(s, clip, ops[..|ops| - 1]), clip, WritesOf(ops[|ops| - 1]), o / 256, o);
    }
  }

  // ----- range-clamped fill

  function MinInt(a: int, b: int): int { if a <= b then a else b }
  function MaxInt(a: int, b: int): int { if a <= b then b else a }

  /** The fill of `matrix_reference`: ranges clamped to the screen instead of a test per pixel. */
  function ClampedFill(x: int, y: int, w: int, h: int, color: int): seq<Write> {
    if w <= 0 || h <= 0 then []
    else BoxWrites(MaxInt(0, x), MinInt(WIDTH, x + w), MaxInt(0, y), MinInt(HEIGHT, y + h), color)
  }

  /** The writes that fall inside the clip, in order. */
  function Kept(clip: Clip, ws: seq<Write>): seq<Write> {
    if ws == [] then [] else
      Kept(clip, ws[..|ws| - 1]) + if clip.Inside(ws[|ws| - 1].at) then [ws[|ws| - 1]] else []
  }

  lemma {:induction false} KeptDraws(s: Screen, clip: Clip, ws: seq<Write>)
    requires s.Ok() && clip.OnScreen()
    ensures Draw(s, clip, Kept(clip, ws)) == Draw(s, clip, ws)
  {
    hide ByteOf, Painted;
    if ws != [] {
      var before, w := ws[..|ws| - 1], ws[|ws| - 1];
      KeptDraws(s, clip, before);
      if clip.Inside(w.at) { DrawOne(s, clip, Kept(clip, before), w); } else {
        assert Kept(clip, ws) == Kept(clip, before);
      }
    }
  }

  lemma {:induction false} KeptAppend(clip: Clip, a: seq<Write>, b: seq<Write>)
    ensures Kept(clip, a + b) == Kept(clip, a) + Kept(clip, b)
    decreases |b|
  {
    if b == [] {
      assert a + b == a;
    } else {
      KeptAppend(clip, a, b[..|b| - 1]);
      assert (a + b)[..|a + b| - 1] == a + b[..|b| - 1];
    }
  }

  lemma {:induction false} KeptRow(x0: int, x1: int, y: int, color: int)
    ensures Kept(FULL, RowWrites(x0, x1, y, color)) ==
      if 0 <= y < HEIGHT then RowWrites(MaxInt(0, x0), MinInt(WIDTH, x1), y, color) else []
    decreases x1 - x0
  {
    if x0 < x1 {
      KeptRow(x0, x1 - 1, y, color);
      var before, w := RowWrites(x0, x1 - 1, y, color), Write(Point(x1 - 1, y), color);
      assert (before + [w])[..|before|] == before;
    }
  }

  lemma {:induction false} KeptBox(x0: int, x1: int, y0: int, y1: int, color: int)
    ensures Kept(FULL, BoxWrites(x0, x1, y0, y1, color)) ==
      BoxWrites(MaxInt(0, x0), MinInt(WIDTH, x1), MaxInt(0, y0), MinInt(HEIGHT, y1), color)
    decreases y1 - y0
  {
    hide RowWrites, Kept;
    if y0 < y1 {
      KeptBox(x0, x1, y0, y1 - 1, color);
      KeptRow(x0, x1, y1 - 1, color);
      KeptAppend(FULL, BoxWrites(x0, x1, y0, y1 - 1, color), RowWrites(x0, x1, y1 - 1, color));
    } else {
      KeptNothing();
    }
  }

  lemma KeptNothing()
    ensures Kept(FULL, []) == []
  {
  }

  lemma {:induction false} EmptyRows(x0: int, x1: int, y0: int, y1: int, color: int)
    requires x1 <= x0
    ensures BoxWrites(x0, x1, y0, y1, color) == []
    decreases y1 - y0
  {
    if y0 < y1 { EmptyRows(x0, x1, y0, y1 - 1, color); }
  }

  /** Clamping the ranges draws exactly what clipping each pixel draws, from any screen. */
  lemma ClampedEqualsClipped(s: Screen, x: int, y: int, w: int, h: int, color: int)
    requires s.Ok()
    ensures Draw(s, FULL, ClampedFill(x, y, w, h, color)) == Draw(s, FULL, WritesOf(Fill(x, y, w, h, color)))
  {
    hide Draw, Kept, BoxWrites;
    KeptBox(x, x + w, y, y + h, color);
    KeptDraws(s, FULL, BoxWrites(x, x + w, y, y + h, color));
    if w <= 0 { EmptyRows(x, x + w, y, y + h, color); }
    if h <= 0 { NoRows(x, x + w, y, y + h, color); }
  }

  lemma NoRows(x0: int, x1: int, y0: int, y1: int, color: int)
    requires y1 <= y0
    ensures BoxWrites(x0, x1, y0, y1, color) == []
  {
  }
}
