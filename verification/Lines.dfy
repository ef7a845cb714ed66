/** The Paint brush: a 3x3 stamp along a Bresenham line. */
module Lines {
  import opened Numbers
  import opened Pixels

  function Abs(a: int): nat {
    if a < 0 then -a else a
  }

  function Max(a: int, b: int): int {
    if a > b then a else b
  }

  // ---- the stamp ----

  /** Pixel `i` lies under the 3x3 stamp at (x, y). */
  predicate Under(cw: nat, i: nat, x: int, y: int)
    requires cw > 0
  {
    -1 <= X(cw, i) - x <= 1 && -1 <= Y(cw, i) - y <= 1
  }

  /** The index of the pixel in column `x` of row `y`. */
  function At(cw: nat, x: nat, y: nat): nat {
    y * cw + x
  }

  lemma AtMeans(cw: nat, ch: nat, i: nat, x: nat, y: nat)
    requires x < cw && y < ch && i < cw * ch
    ensures i == At(cw, x, y) <==> X(cw, i) == x && Y(cw, i) == y
  {
    RowAndColumn(cw, ch, i);
    PixelAt(cw, ch, x, y);
  }

  /** The stamp away from the border: nine pixels, three on each of three rows. */
  lemma NinePixels(cw: nat, ch: nat, i: nat, x: nat, y: nat)
    requires 1 <= x < cw - 1 && 1 <= y < ch - 1 && i < cw * ch
    ensures Under(cw, i, x, y) <==> i in {
      At(cw, x - 1, y - 1), At(cw, x, y - 1), At(cw, x + 1, y - 1),
      At(cw, x - 1, y), At(cw, x, y), At(cw, x + 1, y),
      At(cw, x - 1, y + 1), At(cw, x, y + 1), At(cw, x + 1, y + 1)}
  {
    hide X, Y, At;
    for dy := -1 to 2
      invariant forall v: nat, u: nat {:trigger At(cw, u, v)} | y - 1 <= v < y + dy && x - 1 <= u <= x + 1 ::
        i == At(cw, u, v) <==> X(cw, i) == u && Y(cw, i) == v
    {
      AtMeans(cw, ch, i, x - 1, y + dy);
      AtMeans(cw, ch, i, x, y + dy);
      AtMeans(cw, ch, i, x + 1, y + dy);
    }
  }

  /** The stamp's pixels are visited row by row; this one comes before offset (ox, oy). */
  predicate Visited(cw: nat, i: nat, x: int, y: int, ox: int, oy: int)
    requires cw > 0
  {
    Under(cw, i, x, y) && (Y(cw, i) - y < oy || (Y(cw, i) - y == oy && X(cw, i) - x < ox))
  }

  method Stamp(canvas: array<int>, cw: nat, ch: nat, x: int, y: int, colour: int)
    requires canvas.Length == cw * ch && cw > 0
    modifies canvas
    ensures forall i | 0 <= i < cw * ch :: canvas[i] == if Under(cw, i, x, y) then colour else old(canvas[i])
  {
    var oy := -1;
    while oy <= 1
      invariant -1 <= oy <= 2
      invariant forall i | 0 <= i < cw * ch ::
        canvas[i] == if Visited(cw, i, x, y, -1, oy) then colour else old(canvas[i])
    {
      var ox := -1;
      while ox <= 1
        invariant -1 <= ox <= 2
        invariant forall i | 0 <= i < cw * ch ::
          canvas[i] == if Visited(cw, i, x, y, ox, oy) then colour else old(canvas[i])
      {
        var px, py := x + ox, y + oy;
        if px >= 0 && px < cw && py >= 0 && py < ch {
          PixelAt(cw, ch, px, py);
          canvas[py * cw + px] := colour;
        }
        VisitedNext(cw, ch, x, y, ox, oy);
        ox := ox + 1;
      }
      oy := oy + 1;
    }
  }

  lemma VisitedNext(cw: nat, ch: nat, x: int, y: int, ox: int, oy: int)
    requires cw > 0 && -1 <= ox <= 1 && -1 <= oy <= 1
    ensures forall i | 0 <= i < cw * ch ::
      Visited(cw, i, x, y, ox + 1, oy) <==> Visited(cw, i, x, y, ox, oy) || (X(cw, i) == x + ox && Y(cw, i) == y + oy)
    ensures forall i | 0 <= i < cw * ch && X(cw, i) == x + ox && Y(cw, i) == y + oy ::
      0 <= x + ox < cw && 0 <= y + oy < ch && i == (y + oy) * cw + (x + ox)
  {
    forall i | 0 <= i < cw * ch && X(cw, i) == x + ox && Y(cw, i) == y + oy
      ensures 0 <= x + ox < cw && 0 <= y + oy < ch && i == (y + oy) * cw + (x + ox)
    {
      RowAndColumn(cw, ch, i);
    }
  }

  // ---- the line ----

  datatype Point = Point(x: int, y: int)

  /** `k` pixels from `a` in the direction of `b`. */
  function Toward(a: int, b: int, k: nat): int {
    if a < b then a + k else a - k
  }

  /** The integer nearest to `k * b / a`; a half rounds down. */
  function Nearest(a: nat, b: nat, k: nat): nat
    requires a > 0
  {
    (2 * (b * k) + a - 1) / (2 * a)
  }

  /**
   * The `k`-th pixel of the line, in closed form: one step each time along the
   * longer axis, and the nearest pixel to the true line on the shorter one.
   */
  function PointAt(p: Point, q: Point, k: nat): Point {
    var dx, dy := Abs(q.x - p.x), Abs(q.y - p.y);
    if dx >= dy then
      Point(Toward(p.x, q.x, k), Toward(p.y, q.y, if dx == 0 then 0 else Nearest(dx, dy, k)))
    else
      Point(Toward(p.x, q.x, Nearest(dy, dx, k)), Toward(p.y, q.y, k))
  }

  function Steps(p: Point, q: Point): nat {
    Max(Abs(q.x - p.x), Abs(q.y - p.y))
  }

  /** Pixel `i` is under one of the first `n` stamps of the line. */
  ghost predicate Painted(cw: nat, i: nat, p: Point, q: Point, n: nat)
    requires cw > 0
  {
    exists k: nat | k < n :: UnderStep(cw, i, p, q, k)
  }

  predicate UnderStep(cw: nat, i: nat, p: Point, q: Point, k: nat)
    requires cw > 0
  {
    Under(cw, i, PointAt(p, q, k).x, PointAt(p, q, k).y)
  }

  /** Twice `a` times how far `m` lies above the true line of slope `b / a` after `k` steps. */
  function Drift(a: nat, b: nat, k: nat, m: nat): int {
    2 * (a * m - b * k)
  }

  lemma DriftSteps(a: nat, b: nat, k: nat, m: nat)
    ensures Drift(a, b, k + 1, m) == Drift(a, b, k, m) - 2 * b
    ensures Drift(a, b, k, m + 1) == Drift(a, b, k, m) + 2 * a
    ensures Drift(a, b, k + 1, m + 1) == Drift(a, b, k, m) - 2 * b + 2 * a
  {
    assert b * (k + 1) == b * k + b && a * (m + 1) == a * m + a;
  }

  /** The nearest pixel is the one whose drift is less than half a step; a half counts as below. */
  lemma NearestIs(a: nat, b: nat, k: nat, m: nat)
    requires a > 0
    ensures 0 <= Drift(a, b, k, m) + a < 2 * a <==> m == Nearest(a, b, k)
  {
    var t, d := 2 * (b * k) + a - 1, 2 * a;
    assert m * d == 2 * (a * m);
    if 0 <= Drift(a, b, k, m) + a < 2 * a {
      DivModUnique(t, m, t - m * d, d);
    }
    DivMod(t, d);
  }

  lemma NearestEnds(a: nat, b: nat)
    requires a > 0
    ensures Nearest(a, b, 0) == 0 && Nearest(a, b, a) == b
  {
    assert a * 0 == 0 && b * 0 == 0 && a * b == b * a;
    NearestIs(a, b, 0, 0);
    NearestIs(a, b, a, b);
  }

  lemma NearestSteps(a: nat, b: nat, k: nat)
    requires a > 0 && b <= a
    ensures Nearest(a, b, k) <= Nearest(a, b, k + 1) <= Nearest(a, b, k) + 1
  {
    hide Nearest, Drift;
    var m := Nearest(a, b, k);
    DriftSteps(a, b, k, m);
    NearestIs(a, b, k, m);
    NearestIs(a, b, k + 1, m);
    NearestIs(a, b, k + 1, m + 1);
  }

  /** The closed form joins the two end points, one pixel at a time. */
  lemma LineConnects(p: Point, q: Point)
    ensures PointAt(p, q, 0) == p && PointAt(p, q, Steps(p, q)) == q
    ensures forall k: nat | k < Steps(p, q) ::
      Abs(PointAt(p, q, k + 1).x - PointAt(p, q, k).x) <= 1 && Abs(PointAt(p, q, k + 1).y - PointAt(p, q, k).y) <= 1
  {
    var dx, dy := Abs(q.x - p.x), Abs(q.y - p.y);
    if dx > 0 { NearestEnds(dx, dy); }
    if dy > 0 { NearestEnds(dy, dx); }
    forall k: nat | k < Steps(p, q)
      ensures Abs(PointAt(p, q, k + 1).x - PointAt(p, q, k).x) <= 1 &&
        Abs(PointAt(p, q, k + 1).y - PointAt(p, q, k).y) <= 1
    {
      if dx >= dy { NearestSteps(dx, dy, k); } else { NearestSteps(dy, dx, k); }
    }
  }

  /** Every pixel of the line is within half a pixel of the true line. */
  lemma LineIsClose(p: Point, q: Point, k: nat)
    ensures var dx, dy := Abs(q.x - p.x), Abs(q.y - p.y);
      Abs(Drift(dx, dy, Abs(PointAt(p, q, k).x - p.x), Abs(PointAt(p, q, k).y - p.y))) <= Steps(p, q)
  {
    var dx, dy := Abs(q.x - p.x), Abs(q.y - p.y);
    if dx >= dy && dx > 0 { NearestIs(dx, dy, k, Nearest(dx, dy, k)); }
    if dx < dy { NearestIs(dy, dx, k, Nearest(dy, dx, k)); }
  }

  // ---- the loop ----

  /** After `i` steps in x and `j` in y the loop stands on the nearest pixel of the line. */
  predicate OnLine(dx: nat, dy: nat, i: nat, j: nat) {
    if dx >= dy then i <= dx && j == (if dx == 0 then 0 else Nearest(dx, dy, i))
    else j <= dy && i == Nearest(dy, dx, j)
  }

  /** One pass of the loop: its error term is `dx - dy` plus half the drift. */
  lemma NextStep(dx: nat, dy: nat, i: nat, j: nat, e2: int)
    requires OnLine(dx, dy, i, j) && e2 == 2 * (dx - dy) + Drift(dx, dy, i, j)
    requires if dx >= dy then i < dx else j < dy
    ensures OnLine(dx, dy, if e2 + dy > 0 then i + 1 else i, if e2 < dx then j + 1 else j)
    ensures if dx >= dy then e2 + dy > 0 else e2 < dx
  {
    hide Nearest, Drift;
    DriftSteps(dx, dy, i, j);
    if dx >= dy {
      if dx == dy { DriftDiagonal(dx, i); NearestIs(dx, dy, i, i); }
      NearestIs(dx, dy, i, j);
      NearestIs(dx, dy, i + 1, j);
      NearestIs(dx, dy, i + 1, j + 1);
    } else {
      NearestIs(dy, dx, j, i);
      NearestIs(dy, dx, j + 1, i);
      NearestIs(dy, dx, j + 1, i + 1);
      DriftFlips(dx, dy, i, j);
      DriftFlips(dx, dy, i, j + 1);
      DriftFlips(dx, dy, i + 1, j + 1);
    }
  }

  lemma DriftDiagonal(a: nat, k: nat)
    ensures Drift(a, a, k, k) == 0
  {
  }

  lemma DriftFlips(a: nat, b: nat, k: nat, m: nat)
    ensures Drift(b, a, m, k) == -Drift(a, b, k, m)
  {
  }

  /** Where the loop stands after `i` steps in x and `j` in y. */
  lemma Standing(p: Point, q: Point, i: nat, j: nat, x: int, y: int)
    requires OnLine(Abs(q.x - p.x), Abs(q.y - p.y), i, j)
    requires x == Toward(p.x, q.x, i) && y == Toward(p.y, q.y, j)
    ensures Max(i, j) <= Steps(p, q) && PointAt(p, q, Max(i, j)) == Point(x, y)
    ensures Max(i, j) == if Abs(q.x - p.x) >= Abs(q.y - p.y) then i else j
    ensures x == q.x && y == q.y <==> Max(i, j) == Steps(p, q)
  {
    var dx, dy := Abs(q.x - p.x), Abs(q.y - p.y);
    if dx >= dy && dx > 0 {
      NearestBelow(dx, dy, i);
      NearestEnds(dx, dy);
    } else if dy > dx {
      NearestBelow(dy, dx, j);
      NearestEnds(dy, dx);
    }
  }

  lemma NearestBelow(a: nat, b: nat, k: nat)
    requires a > 0 && b <= a
    ensures Nearest(a, b, k) <= k
  {
    if k == 0 {
      NearestEnds(a, b);
    } else {
      NearestBelow(a, b, k - 1);
      NearestSteps(a, b, k - 1);
    }
  }

  /** Stamps the brush once at each pixel of the line from `p` to `q`, and then stops. */
  method DrawLine(canvas: array<int>, cw: nat, ch: nat, p: Point, q: Point, colour: int) returns (ghost stamps: nat)
    requires canvas.Length == cw * ch && cw > 0
    modifies canvas
    ensures stamps == Steps(p, q) + 1
    ensures forall i | 0 <= i < cw * ch :: canvas[i] == if Painted(cw, i, p, q, stamps) then colour else old(canvas[i])
  {
    hide Nearest, Drift, Under, PointAt, OnLine;
    var dx := q.x - p.x;
    if dx < 0 { dx := -dx; }
    var dy := q.y - p.y;
    if dy < 0 { dy := -dy; }
    var sx := if p.x < q.x then 1 else -1;
    var sy := if p.y < q.y then 1 else -1;
    var err := dx - dy;
    var x, y := p.x, p.y;
    ghost var i: nat, j: nat := 0, 0;
    stamps := 0;
    LineStarts(dx, dy);
    while true
      invariant OnLine(dx, dy, i, j) && x == Toward(p.x, q.x, i) && y == Toward(p.y, q.y, j)
      invariant 2 * err == 2 * (dx - dy) + Drift(dx, dy, i, j) && stamps == Max(i, j) <= Steps(p, q)
      invariant forall n | 0 <= n < cw * ch ::
        canvas[n] == if Painted(cw, n, p, q, stamps) then colour else old(canvas[n])
      decreases Steps(p, q) - stamps
    {
      Standing(p, q, i, j, x, y);
      Stamp(canvas, cw, ch, x, y, colour);
      OneMore(cw, p, q, stamps);
      stamps := stamps + 1;
      if x == q.x && y == q.y { break; }
      var e2 := 2 * err;
      NextStep(dx, dy, i, j, e2);
      DriftSteps(dx, dy, i, j);
      if e2 > 0 - dy { err := err - dy; x := x + sx; i := i + 1; }
      if e2 < dx { err := err + dx; y := y + sy; j := j + 1; }
      Standing(p, q, i, j, x, y);
    }
  }

  lemma LineStarts(dx: nat, dy: nat)
    ensures OnLine(dx, dy, 0, 0) && Drift(dx, dy, 0, 0) == 0
  {
    if dx > 0 { NearestEnds(dx, dy); }
    if dy > 0 { NearestEnds(dy, dx); }
  }

  lemma OneMore(cw: nat, p: Point, q: Point, n: nat)
    requires cw > 0
    ensures forall i: nat :: Painted(cw, i, p, q, n + 1) <==> Painted(cw, i, p, q, n) || UnderStep(cw, i, p, q, n)
  {
    forall i: nat
      ensures Painted(cw, i, p, q, n + 1) <==> Painted(cw, i, p, q, n) || UnderStep(cw, i, p, q, n)
    {
      if Painted(cw, i, p, q, n + 1) {
        var k: nat :| k < n + 1 && UnderStep(cw, i, p, q, k);
        assert k == n || k < n;
      }
      if Painted(cw, i, p, q, n) {
        var k: nat :| k < n && UnderStep(cw, i, p, q, k);
        assert k < n + 1;
      }
    }
  }
}
