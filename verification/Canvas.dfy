/** The raster oracle as it runs: two mutable byte arrays, a clip, and drawing loops. */
module Canvas {
  import opened Bytes
  import opened Bresenham
  import opened Raster

  class Canvas {
    const bitmap: array<byte>
    const dirty: array<byte>
    const clip: Clip

    ghost predicate Valid()
      reads this
    {
      bitmap.Length == 8000 && dirty.Length == 32 && bitmap != dirty && clip.OnScreen()
    }

    ghost function View(): (s: Screen)
      reads this, bitmap, dirty
      requires Valid()
      ensures s.Ok()
    {
      Screen(bitmap[..], dirty[..])
    }

    /** The oracle's initial pattern and an empty dirty map. */
    constructor (clip: Clip)
      requires clip.OnScreen()
      ensures Valid() && this.clip == clip && fresh(bitmap) && fresh(dirty)
      ensures View() == Screen(seq(8000, i => (i * 13 + 7) % 256), Zeros(32))
    {
      this.clip := clip;
      bitmap := new byte[8000](i => (i * 13 + 7) % 256);
      dirty := new byte[32](_ => 0);
      new;
      assert bitmap[..] == seq(8000, i => (i * 13 + 7) % 256);
      assert dirty[..] == Zeros(32);
    }

    method DrawPixel(x: int, y: int, color: int)
      requires Valid()
      modifies bitmap, dirty
      ensures View() == Plot(old(View()), clip, Point(x, y), color)
    {
      if !(clip.left <= x < clip.right && clip.top <= y < clip.bottom) { return; }
      var p := Point(x, y);
      var o := ByteOf(p);
      bitmap[o] := Painted(bitmap[o], BitOf(p), color);
      dirty[o / 256] := 1;
    }

    /** The Bresenham loop draws exactly the points of the closed form, in order. */
    method DrawLine(x0: int, y0: int, xx: int, yy: int, color: int)
      requires Valid()
      modifies bitmap, dirty
      ensures View() == Draw(old(View()), clip, WritesOf(Op.Line(x0, y0, xx, yy, color)))
    {
      hide Rounded, Plot, Draw;
      var x, y := x0, y0;
      var dx, dy := Abs(xx - x), -(Abs(yy - y) as int);
      var sx, sy := if x < xx then 1 else -1, if y < yy then 1 else -1;
      var error := dx + dy;
      ghost var start, k := View(), 0;
      ghost var m := Moves(x0, y0, xx, yy);
      LineEnds(x0, y0, xx, yy);
      RoundedEnds(Abs(xx - x0), m);
      RoundedEnds(Abs(yy - y0), m);
      NothingDrawn(start, clip, x0, y0, xx, yy, color);
      while true
        invariant k <= m && Point(x, y) == LinePoint(x0, y0, xx, yy, k)
        invariant error == ErrorAt(dx, -dy, Rounded(k, dx, m), Rounded(k, -dy, m))
        invariant View() == Draw(start, clip, LineWrites(x0, y0, xx, yy, color, k))
        decreases m - k
      {
        DrawPixel(x, y, color);
        DrawOne(start, clip, LineWrites(x0, y0, xx, yy, color, k), Write(Point(x, y), color));
        if x == xx && y == yy { break; }
        StepDecided(x0, y0, xx, yy, k);
        var twice := error * 2;
        if twice >= dy { error, x := error + dy, x + sx; }
        if twice <= dx { error, y := error + dx, y + sy; }
        k := k + 1;
      }
      if k < m { NotEarly(x0, y0, xx, yy, k); }
    }

    method DrawOutline(x: int, y: int, w: int, h: int, color: int)
      requires Valid()
      modifies bitmap, dirty
      ensures View() == Draw(old(View()), clip, WritesOf(Op.Outline(x, y, w, h, color)))
    {
      hide Plot;
      if w <= 0 || h <= 0 { return; }
      ghost var start := View();
      for xx := x to x + w
        invariant View() == Draw(start, clip, EdgeRows(x, xx, y, y + h - 1, color))
      {
        ghost var done := EdgeRows(x, xx, y, y + h - 1, color);
        DrawPixel(xx, y, color);
        DrawPixel(xx, y + h - 1, color);
        DrawTwo(start, clip, done, Write(Point(xx, y), color), Write(Point(xx, y + h - 1), color));
      }
      ghost var rows, mid := EdgeRows(x, x + w, y, y + h - 1, color), View();
      for yy := y to y + h
        invariant View() == Draw(mid, clip, EdgeColumns(y, yy, x, x + w - 1, color))
      {
        ghost var done := EdgeColumns(y, yy, x, x + w - 1, color);
        DrawPixel(x, yy, color);
        DrawPixel(x + w - 1, yy, color);
        DrawTwo(mid, clip, done, Write(Point(x, yy), color), Write(Point(x + w - 1, yy), color));
      }
      DrawAppend(start, clip, rows, EdgeColumns(y, y + h, x, x + w - 1, color));
    }

    /** The nested loops of a fill, over the given ranges. */
    method DrawBox(x0: int, x1: int, y0: int, y1: int, color: int)
      requires Valid()
      modifies bitmap, dirty
      ensures View() == Draw(old(View()), clip, BoxWrites(x0, x1, y0, y1, color))
    {
      hide Plot;
      ghost var start := View();
      var yy := y0;
      while yy < y1
        invariant y0 <= yy && (yy <= y1 || yy == y0)
        invariant View() == Draw(start, clip, BoxWrites(x0, x1, y0, yy, color))
      {
        ghost var rows, mid := BoxWrites(x0, x1, y0, yy, color), View();
        var xx := x0;
        while xx < x1
          invariant x0 <= xx && (xx <= x1 || xx == x0)
          invariant View() == Draw(mid, clip, RowWrites(x0, xx, yy, color))
        {
          DrawPixel(xx, yy, color);
          DrawOne(mid, clip, RowWrites(x0, xx, yy, color), Write(Point(xx, yy), color));
          xx := xx + 1;
        }
        assert RowWrites(x0, xx, yy, color) == RowWrites(x0, x1, yy, color);
        DrawAppend(start, clip, rows, RowWrites(x0, x1, yy, color));
        yy := yy + 1;
      }
      assert BoxWrites(x0, x1, y0, yy, color) == BoxWrites(x0, x1, y0, y1, color);
    }

    method DrawFill(x: int, y: int, w: int, h: int, color: int)
      requires Valid()
      modifies bitmap, dirty
      ensures View() == Draw(old(View()), clip, WritesOf(Op.Fill(x, y, w, h, color)))
    {
      DrawBox(x, x + w, y, y + h, color);
    }

    /** `matrix_reference`'s fill, on the full screen: clamped ranges draw what a plain fill draws. */
    method DrawClampedFill(x: int, y: int, w: int, h: int, color: int)
      requires Valid() && clip == FULL
      modifies bitmap, dirty
      ensures View() == Draw(old(View()), clip, WritesOf(Op.Fill(x, y, w, h, color)))
    {
      hide Draw, BoxWrites;
      ClampedEqualsClipped(View(), x, y, w, h, color);
      NoWrites(View(), clip);
      if w <= 0 || h <= 0 { return; }
      DrawBox(MaxInt(0, x), MinInt(WIDTH, x + w), MaxInt(0, y), MinInt(HEIGHT, y + h), color);
    }

    /** Any list of operations. */
    method PerformAll(ops: seq<Op>)
      requires Valid()
      modifies bitmap, dirty
      ensures View() == Perform(old(View()), clip, ops)
    {
      hide Draw, WritesOf;
      ghost var start := View();
      for i := 0 to |ops|
        invariant View() == Perform(start, clip, ops[..i])
      {
        assert ops[..i + 1][..i] == ops[..i];
        match ops[i]
        case Pixel(x, y, c) =>
          DrawPixel(x, y, c);
          OnePixel(Perform(start, clip, ops[..i]), clip, x, y, c);
        case Line(x, y, xx, yy, c) => DrawLine(x, y, xx, yy, c);
        case Outline(x, y, w, h, c) => DrawOutline(x, y, w, h, c);
        case Fill(x, y, w, h, c) => DrawFill(x, y, w, h, c);
      }
      assert ops[..|ops|] == ops;
    }
  }

  lemma NothingDrawn(s: Screen, clip: Clip, x: int, y: int, xx: int, yy: int, color: int)
    requires s.Ok() && clip.OnScreen()
    ensures Draw(s, clip, LineWrites(x, y, xx, yy, color, 0)) == s
  {
  }

  lemma NoWrites(s: Screen, clip: Clip)
    requires s.Ok() && clip.OnScreen()
    ensures Draw(s, clip, []) == s
  {
  }

  lemma OnePixel(s: Screen, clip: Clip, x: int, y: int, color: int)
    requires s.Ok() && clip.OnScreen()
    ensures Draw(s, clip, WritesOf(Op.Pixel(x, y, color))) == Plot(s, clip, Point(x, y), color)
  {
    hide Plot;
    DrawOne(s, clip, [], Write(Point(x, y), color));
    assert [] + [Write(Point(x, y), color)] == WritesOf(Op.Pixel(x, y, color));
  }

  lemma DrawTwo(s: Screen, clip: Clip, a: seq<Write>, v: Write, w: Write)
    requires s.Ok() && clip.OnScreen()
    ensures Draw(s, clip, a + [v, w]) == Plot(Plot(Draw(s, clip, a), clip, v.at, v.color), clip, w.at, w.color)
  {
    hide Plot, Draw;
    DrawOne(s, clip, a, v);
    DrawOne(s, clip, a + [v], w);
    assert a + [v] + [w] == a + [v, w];
  }

  /** One pass of the loop: the two tests choose the next point and keep the error register. */
  lemma StepDecided(x: int, y: int, xx: int, yy: int, k: nat)
    requires k <= Moves(x, y, xx, yy) && LinePoint(x, y, xx, yy, k) != Point(xx, yy)
    ensures k < Moves(x, y, xx, yy)
    ensures var a, b, m := Abs(xx - x), Abs(yy - y), Moves(x, y, xx, yy);
      var e := ErrorAt(a, b, Rounded(k, a, m), Rounded(k, b, m));
      var p := LinePoint(x, y, xx, yy, k);
      var e1 := if e * 2 >= -(b as int) then e - b else e;
      var e2 := if e * 2 <= a then e1 + a else e1;
      && LinePoint(x, y, xx, yy, k + 1) ==
           Point(if e * 2 >= -(b as int) then p.x + Toward(x, xx) else p.x,
             if e * 2 <= a then p.y + Toward(y, yy) else p.y)
      && e2 == ErrorAt(a, b, Rounded(k + 1, a, m), Rounded(k + 1, b, m))
  {
    hide Rounded, ErrorAt, Toward, Abs;
    LineEnds(x, y, xx, yy);
    var a, b, m := Abs(xx - x), Abs(yy - y), Moves(x, y, xx, yy);
    TestsDecide(a, b, k);
    RoundedStep(k, a, m);
    RoundedStep(k, b, m);
    var i, j := Rounded(k, a, m), Rounded(k, b, m);
    ErrorMoves(a, b, i, j);
    MoveApart(x, xx, i);
    MoveApart(y, yy, j);
  }

  lemma ErrorMoves(a: nat, b: nat, i: nat, j: nat)
    ensures ErrorAt(a, b, i + 1, j) == ErrorAt(a, b, i, j) - b
    ensures ErrorAt(a, b, i, j + 1) == ErrorAt(a, b, i, j) + a
    ensures ErrorAt(a, b, i + 1, j + 1) == ErrorAt(a, b, i, j) - b + a
  {
    assert (i + 2) * b == (i + 1) * b + b && (j + 2) * a == (j + 1) * a + a;
  }

  lemma MoveApart(from: int, to: int, i: nat)
    ensures from + Toward(from, to) * (i + 1) == from + Toward(from, to) * i + Toward(from, to)
  {
  }
}
