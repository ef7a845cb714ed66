/** How high the bucket tool's stack grows, and when the one entry per pixel that is reserved for it suffices. */
module Reserve {
  import opened Pixels
  import opened Flood

  /** Filled from pixel `s`, the stack never outgrows one entry per pixel. */
  ghost predicate Suffices(c: seq<int>, cw: nat, ch: nat, s: nat, colour: int)
    requires cw > 0 && s < |c|
  {
    forall n: nat :: |After(Fill(c, [s]), cw, ch, c[s], colour, n).stack| <= cw * ch
  }

  /** What FloodFill returns decides it. */
  lemma DepthDecides(c: seq<int>, cw: nat, ch: nat, s: nat, colour: int, depth: nat)
    requires cw > 0 && s < |c| && Deepest(Fill(c, [s]), cw, ch, c[s], colour, depth)
    ensures Suffices(c, cw, ch, s, colour) <==> depth <= cw * ch
  {
    hide After;
    var n: nat :| |After(Fill(c, [s]), cw, ch, c[s], colour, n).stack| == depth;
  }

  // ---- a bound for every canvas ----

  /** Painting pixel `i` pops one entry and pushes one for each neighbour. */
  function Gain(cw: nat, ch: nat, i: nat): nat
    requires cw > 0
  {
    if X(cw, i) < cw && Y(cw, i) < ch && |Neighbours(cw, ch, X(cw, i), Y(cw, i))| > 0
    then |Neighbours(cw, ch, X(cw, i), Y(cw, i))| - 1 else 0
  }

  /** What painting the first `k` pixels can still add to the stack. */
  function Gains(c: seq<int>, cw: nat, ch: nat, target: int, k: nat): nat
    requires cw > 0 && k <= |c|
  {
    if k == 0 then 0
    else Gains(c, cw, ch, target, k - 1) + if c[k - 1] == target then Gain(cw, ch, k - 1) else 0
  }

  lemma {:induction false} PaintedGains(c: seq<int>, cw: nat, ch: nat, target: int, colour: int, i: nat, k: nat)
    requires cw > 0 && i < |c| && k <= |c| && c[i] == target != colour
    ensures Gains(c[i := colour], cw, ch, target, k) + (if i < k then Gain(cw, ch, i)
      else 0) == Gains(c, cw, ch, target, k)
  {
    hide Gain;
    if k > 0 {
      PaintedGains(c, cw, ch, target, colour, i, k - 1);
    }
  }

  /** The height the stack can still reach. */
  function Reach(f: Fill, cw: nat, ch: nat, target: int): nat
    requires cw > 0
  {
    |f.stack| + Gains(f.canvas, cw, ch, target, |f.canvas|)
  }

  lemma ReachFalls(f: Fill, cw: nat, ch: nat, target: int, colour: int)
    requires cw > 0 && target != colour
    ensures Reach(FillStep(f, cw, ch, target, colour), cw, ch, target) <= Reach(f, cw, ch, target)
  {
    hide Gains, Neighbours, X, Y;
    if f.stack != [] {
      var i := f.stack[|f.stack| - 1];
      if i < |f.canvas| && f.canvas[i] == target {
        PaintedGains(f.canvas, cw, ch, target, colour, i, |f.canvas|);
      }
    }
  }

  /** No height exceeds what the start allows. */
  lemma {:induction false} WithinReach(f: Fill, cw: nat, ch: nat, target: int, colour: int, n: nat)
    requires cw > 0 && target != colour
    ensures |After(f, cw, ch, target, colour, n).stack| <= Reach(After(f, cw, ch, target, colour, n), cw, ch, target)
              <= Reach(f, cw, ch, target)
  {
    hide Gains, FillStep;
    if n > 0 {
      WithinReach(f, cw, ch, target, colour, n - 1);
      ReachFalls(After(f, cw, ch, target, colour, n - 1), cw, ch, target, colour);
    }
  }

  lemma {:induction false} GainsByCount(c: seq<int>, cw: nat, ch: nat, target: int, k: nat)
    requires cw > 0 && k <= |c|
    ensures Gains(c, cw, ch, target, k) <= 3 * |Left(c[..k], target)|
  {
    hide Neighbours, X, Y;
    if k > 0 {
      GainsByCount(c, cw, ch, target, k - 1);
      assert c[..k][..k - 1] == c[..k - 1];
      assert Left(c[..k], target) == Left(c[..k - 1], target) + (if c[k - 1] == target then {k - 1} else {});
    }
  }

  /** Few pixels of the start's colour: the reservation suffices, whatever their shape. */
  lemma FewSuffice(c: seq<int>, cw: nat, ch: nat, s: nat, colour: int)
    requires cw > 0 && s < |c| && colour != c[s] && 1 + 3 * |Left(c, c[s])| <= cw * ch
    ensures Suffices(c, cw, ch, s, colour)
  {
    hide After, Gains;
    assert c[..|c|] == c;
    GainsByCount(c, cw, ch, c[s], |c|);
    forall n: nat
      ensures |After(Fill(c, [s]), cw, ch, c[s], colour, n).stack| <= cw * ch
    {
      WithinReach(Fill(c, [s]), cw, ch, c[s], colour, n);
    }
  }

  // ---- a row, a column, and two by two ----

  /** In a single row or column the two ends gain nothing, any other pixel one. */
  lemma NarrowGain(cw: nat, ch: nat, i: nat)
    requires (cw == 1 || ch == 1) && i < cw * ch
    ensures Gain(cw, ch, i) == if 0 < i < cw * ch - 1 then 1 else 0
  {
    if cw == 1 {
      assert X(1, i) == 0 && Y(1, i) == i;
    } else {
      PixelAt(cw, 1, i, 0);
    }
  }

  lemma {:induction false} NarrowGains(c: seq<int>, cw: nat, ch: nat, target: int, k: nat)
    requires 0 < cw && (cw == 1 || ch == 1) && |c| == cw * ch && k <= |c|
    ensures Gains(c, cw, ch, target, k) <= (if k == 0 then 0 else k - 1)
    ensures 0 < k == |c| ==> Gains(c, cw, ch, target, k) <= (if k == 1 then 0 else k - 2)
  {
    hide Gain;
    if k > 0 {
      NarrowGain(cw, ch, k - 1);
      NarrowGains(c, cw, ch, target, k - 1);
    }
  }

  lemma NarrowSuffices(c: seq<int>, cw: nat, ch: nat, s: nat, colour: int)
    requires (cw == 1 || ch == 1) && |c| == cw * ch && s < |c| && colour != c[s]
    ensures Suffices(c, cw, ch, s, colour)
  {
    hide After, Gains;
    NarrowGains(c, cw, ch, c[s], |c|);
    forall n: nat
      ensures |After(Fill(c, [s]), cw, ch, c[s], colour, n).stack| <= cw * ch
    {
      WithinReach(Fill(c, [s]), cw, ch, c[s], colour, n);
    }
  }

  lemma {:induction false} AfterMore(f: Fill, cw: nat, ch: nat, target: int, colour: int, m: nat, n: nat)
    requires cw > 0
    ensures After(f, cw, ch, target, colour, m + n) ==
      After(After(f, cw, ch, target, colour, m), cw, ch, target, colour, n)
  {
    hide FillStep;
    if n > 0 {
      AfterMore(f, cw, ch, target, colour, m, n - 1);
    }
  }

  lemma PaintsTop(f: Fill, cw: nat, ch: nat, target: int, colour: int, x: nat, y: nat, rest: seq<nat>)
    requires cw > 0 && x < cw && y < ch && |f.canvas| == cw * ch && f.stack == rest + [y * cw + x]
    requires y * cw + x < |f.canvas| && f.canvas[y * cw + x] == target
    ensures FillStep(f, cw, ch, target, colour) == Fill(f.canvas[y * cw + x := colour], rest + Neighbours(cw, ch, x, y))
  {
    hide Neighbours, X, Y;
    PixelAt(cw, ch, x, y);
    assert f.stack[..|f.stack| - 1] == rest;
  }

  lemma SkipsTop(f: Fill, cw: nat, ch: nat, target: int, colour: int, i: nat, rest: seq<nat>)
    requires cw > 0 && i < |f.canvas| && f.stack == rest + [i] && f.canvas[i] != target
    ensures FillStep(f, cw, ch, target, colour) == Fill(f.canvas, rest)
  {
    hide Neighbours, X, Y;
    assert f.stack[..|f.stack| - 1] == rest;
  }

  /** On two by two pixels the second neighbour pushed has the start as its own second neighbour. */
  lemma SquareNeighbours(s: nat) returns (p: nat, q: nat, o: nat)
    requires s < 4
    ensures Neighbours(2, 2, s % 2, s / 2) == [p, q] && q < 4 && q != s && Neighbours(2, 2, q % 2, q / 2) == [o, s]
    ensures (s / 2) * 2 + s % 2 == s && (q / 2) * 2 + q % 2 == q
  {
    p, q, o := if s % 2 == 0 then s + 1 else s - 1, if s / 2 == 0 then s + 2 else s - 2, 3 - s;
  }

  /** So the third entry popped there is the start itself, painted already. */
  lemma ThirdIsSkipped(f: Fill, t: int, colour: int, s: nat)
    requires f.canvas == [t, t, t, t] && f.stack == [s] && s < 4 && t != colour
    ensures |After(f, 2, 2, t, colour, 1).stack| == 2 && |After(f, 2, 2, t, colour, 2).stack| == 3
    ensures Reach(After(f, 2, 2, t, colour, 3), 2, 2, t) == 4
  {
    hide FillStep, Neighbours, Reach;
    var p, q, o := SquareNeighbours(s);
    PaintsTop(f, 2, 2, t, colour, s % 2, s / 2, []);
    var f1 := Fill(f.canvas[s := colour], [p, q]);
    assert After(f, 2, 2, t, colour, 1) == f1;
    PaintsTop(f1, 2, 2, t, colour, q % 2, q / 2, [p]);
    var f2 := Fill(f1.canvas[q := colour], [p, o, s]);
    assert After(f, 2, 2, t, colour, 2) == f2;
    SkipsTop(f2, 2, 2, t, colour, s, [p, o]);
    assert After(f, 2, 2, t, colour, 3) == Fill(f2.canvas, [p, o]);
    TwoLeft(Fill(f2.canvas, [p, o]), t, colour, s, q);
  }

  lemma TwoLeft(f: Fill, t: int, colour: int, s: nat, q: nat)
    requires s < 4 && q < 4 && s != q && t != colour && f.canvas == [t, t, t, t][s := colour][q := colour] &&
      |f.stack| == 2
    ensures Reach(f, 2, 2, t) == 4
  {
    SquareGain();
    hide Gain;
    SquareGains(f.canvas, t);
  }

  lemma SquareGain()
    ensures forall i | 0 <= i < 4 :: Gain(2, 2, i) == 1
  {
  }

  lemma SquareGains(c: seq<int>, t: int)
    requires |c| == 4
    ensures Gains(c, 2, 2, t, 4) == (if c[0] == t then 1 else 0) + (if c[1] == t then 1 else 0) +
              (if c[2] == t then 1 else 0) + (if c[3] == t then 1 else 0)
  {
    SquareGain();
    hide Gain;
    assert Gains(c, 2, 2, t, 1) == if c[0] == t then 1 else 0;
    assert Gains(c, 2, 2, t, 2) == (if c[0] == t then 1 else 0) + (if c[1] == t then 1 else 0);
    assert Gains(c, 2, 2, t, 3) == Gains(c, 2, 2, t, 2) + if c[2] == t then 1 else 0;
  }

  lemma SquareSuffices(c: seq<int>, s: nat, colour: int)
    requires |c| == 4 && s < 4 && colour != c[s]
    ensures Suffices(c, 2, 2, s, colour)
  {
    hide After, Gains;
    var t, f := c[s], Fill(c, [s]);
    SquareGains(c, t);
    forall n: nat
      ensures |After(f, 2, 2, t, colour, n).stack| <= 4
    {
      if c != [t, t, t, t] {
        WithinReach(f, 2, 2, t, colour, n);
      } else {
        ThirdIsSkipped(f, t, colour, s);
        if n >= 3 {
          AfterMore(f, 2, 2, t, colour, 3, n - 3);
          WithinReach(After(f, 2, 2, t, colour, 3), 2, 2, t, colour, n - 3);
        } else {
          AfterNone(f, 2, 2, t, colour);
        }
      }
    }
  }

  lemma AfterNone(f: Fill, cw: nat, ch: nat, target: int, colour: int)
    requires cw > 0
    ensures After(f, cw, ch, target, colour, 0) == f
  {
  }

  // ---- any other size ----

  /** Colour of the pixel at column `x`, row `y`. */
  function At(c: seq<int>, cw: nat, x: nat, y: nat): int {
    if y * cw + x < |c| then c[y * cw + x] else 0
  }

  /** Whether the fill of a canvas of one colour has been at (a, b) before (x, y): it runs down the even columns and up
      the odd ones. */
  predicate Passed(a: nat, b: nat, x: nat, y: nat) {
    a < x || (a == x && if x % 2 == 0 then b < y else b > y)
  }

  /** Exactly the pixels before (x, y) are painted. */
  ghost predicate Upto(c: seq<int>, cw: nat, ch: nat, t: int, colour: int, x: nat, y: nat) {
    |c| == cw * ch && forall a: nat, b: nat | a < cw && b < ch ::
      At(c, cw, a, b) == if Passed(a, b, x, y) then colour else t
  }

  /** The fill is about to paint (x, y), with that many entries on the stack. */
  ghost predicate Arrived(f: Fill, cw: nat, ch: nat, t: int, colour: int, x: nat, y: nat, height: nat) {
    && x < cw && y < ch && Upto(f.canvas, cw, ch, t, colour, x, y)
    && |f.stack| == height > 0 && f.stack[height - 1] == y * cw + x
  }

  lemma AtPut(c: seq<int>, cw: nat, ch: nat, x: nat, y: nat, k: int, a: nat, b: nat)
    requires |c| == cw * ch && x < cw && y < ch && a < cw && b < ch
    ensures y * cw + x < |c| && At(c[y * cw + x := k], cw, a, b) == if (a, b) == (x, y) then k else At(c, cw, a, b)
  {
    PixelAt(cw, ch, x, y);
    PixelAt(cw, ch, a, b);
  }

  /** One pixel painted: the stack has gained its neighbours, the last of which is popped next. */
  lemma PaintsArrived(f: Fill, cw: nat, ch: nat, t: int, colour: int, x: nat, y: nat, height: nat) returns (g: Fill)
    requires Arrived(f, cw, ch, t, colour, x, y, height) && t != colour
    ensures g == FillStep(f, cw, ch, t, colour) && g.stack == f.stack[..height - 1] + Neighbours(cw, ch, x, y)
    ensures |g.canvas| == cw * ch
    ensures forall a: nat, b: nat | a < cw && b < ch ::
      At(g.canvas, cw, a, b) == if Passed(a, b, x, y) || (a, b) == (x, y) then colour else t
  {
    hide FillStep, Neighbours, At;
    PixelAt(cw, ch, x, y);
    g := Fill(f.canvas[y * cw + x := colour], f.stack[..height - 1] + Neighbours(cw, ch, x, y));
    assert f.stack == f.stack[..height - 1] + [y * cw + x];
    assert f.canvas[y * cw + x] == t by {
      AtIs(f.canvas, cw, x, y);
    }
    PaintsTop(f, cw, ch, t, colour, x, y, f.stack[..height - 1]);
    forall a: nat, b: nat | a < cw && b < ch
      ensures At(g.canvas, cw, a, b) == if Passed(a, b, x, y) || (a, b) == (x, y) then colour else t
    {
      AtPut(f.canvas, cw, ch, x, y, colour, a, b);
    }
  }

  lemma AtIs(c: seq<int>, cw: nat, x: nat, y: nat)
    requires y * cw + x < |c|
    ensures At(c, cw, x, y) == c[y * cw + x]
  {
  }

  function Degree(cw: nat, ch: nat, x: nat, y: nat): nat
    requires x < cw && y < ch
  {
    |Neighbours(cw, ch, x, y)|
  }

  lemma DegreeIs(cw: nat, ch: nat, x: nat, y: nat)
    requires x < cw && y < ch
    ensures Degree(cw, ch, x, y) == (if x > 0 then 1 else 0) + (if x < cw - 1 then 1 else 0) +
              (if y > 0 then 1 else 0) + (if y < ch - 1 then 1 else 0)
  {
  }

  /** The neighbour that lies below is pushed last, the one above before it, the one to the right before that. */
  lemma LastPushed(cw: nat, ch: nat, x: nat, y: nat)
    requires x < cw && y < ch
    ensures var ns := Neighbours(cw, ch, x, y); var n := |ns|;
      && (y < ch - 1 ==> n > 0 && ns[n - 1] == (y + 1) * cw + x)
      && (y < ch - 1 && y > 0 ==> n > 1 && ns[n - 2] == (y - 1) * cw + x)
      && (y == ch - 1 && y > 0 ==> n > 0 && ns[n - 1] == (y - 1) * cw + x)
      && (x < cw - 1 && ch > 1 && (y == 0 || y == ch - 1) ==> n > 1 && ns[n - 2] == y * cw + (x + 1))
  {
  }

  /** A painted pixel on top of the stack is dropped. */
  lemma DropsPainted(g: Fill, cw: nat, ch: nat, t: int, colour: int, x: nat, y: nat) returns (h: Fill)
    requires |g.canvas| == cw * ch && x < cw && y < ch && g.stack != [] && g.stack[|g.stack| - 1] == y * cw + x
    requires At(g.canvas, cw, x, y) == colour != t
    ensures h == FillStep(g, cw, ch, t, colour) == Fill(g.canvas, g.stack[..|g.stack| - 1])
  {
    hide FillStep;
    PixelAt(cw, ch, x, y);
    h := Fill(g.canvas, g.stack[..|g.stack| - 1]);
    assert g.stack == h.stack + [y * cw + x];
    SkipsTop(g, cw, ch, t, colour, y * cw + x, h.stack);
  }

  lemma OneStep(f: Fill, cw: nat, ch: nat, t: int, colour: int)
    requires cw > 0
    ensures After(f, cw, ch, t, colour, 1) == FillStep(f, cw, ch, t, colour)
    ensures After(f, cw, ch, t, colour, 2) == FillStep(FillStep(f, cw, ch, t, colour), cw, ch, t, colour)
  {
    hide FillStep;
    assert After(f, cw, ch, t, colour, 0) == f;
    assert After(f, cw, ch, t, colour, 1) == FillStep(f, cw, ch, t, colour);
  }

  /** Down an even column. */
  lemma GoesDown(f: Fill, cw: nat, ch: nat, t: int, colour: int, x: nat, y: nat, height: nat)
    requires Arrived(f, cw, ch, t, colour, x, y, height) && t != colour && x % 2 == 0 && y < ch - 1
    ensures Arrived(After(f, cw, ch, t, colour, 1), cw, ch, t, colour, x, y + 1, height - 1 + Degree(cw, ch, x, y))
  {
    hide FillStep, Neighbours, At, After;
    var g := PaintsArrived(f, cw, ch, t, colour, x, y, height);
    LastPushed(cw, ch, x, y);
    OneStep(f, cw, ch, t, colour);
  }

  /** Up an odd column, past the entry for the pixel below. */
  lemma GoesUp(f: Fill, cw: nat, ch: nat, t: int, colour: int, x: nat, y: nat, height: nat) returns (n: nat)
    requires Arrived(f, cw, ch, t, colour, x, y, height) && t != colour && x % 2 == 1 && y > 0
    ensures Arrived(After(f, cw, ch, t, colour, n), cw, ch, t, colour, x, y - 1,
              height - 1 + Degree(cw, ch, x, y) - (if y < ch - 1 then 1 else 0))
  {
    hide FillStep, Neighbours, At, After;
    var g := PaintsArrived(f, cw, ch, t, colour, x, y, height);
    LastPushed(cw, ch, x, y);
    OneStep(f, cw, ch, t, colour);
    n := 1;
    if y < ch - 1 {
      var h := DropsPainted(g, cw, ch, t, colour, x, y + 1);
      n := 2;
    }
  }

  /** The row a column is entered at, and the one it is left at. */
  function Entry(ch: nat, x: nat): nat
    requires ch > 0
  {
    if x % 2 == 0 then 0 else ch - 1
  }

  /** Over to the next column, past the entry for the pixel just left. */
  lemma GoesRight(f: Fill, cw: nat, ch: nat, t: int, colour: int, x: nat, height: nat)
    requires ch > 1 && Arrived(f, cw, ch, t, colour, x, Entry(ch, x + 1), height) && t != colour && x < cw - 1
    ensures Arrived(After(f, cw, ch, t, colour, 2), cw, ch, t, colour, x + 1, Entry(ch, x + 1),
              height - 2 + Degree(cw, ch, x, Entry(ch, x + 1)))
  {
    hide FillStep, Neighbours, At, After;
    var y := Entry(ch, x + 1);
    var g := PaintsArrived(f, cw, ch, t, colour, x, y, height);
    LastPushed(cw, ch, x, y);
    OneStep(f, cw, ch, t, colour);
    var h := DropsPainted(g, cw, ch, t, colour, x, if x % 2 == 0 then y - 1 else 1);
  }

  /** Pixels of the column from row `y` on, in the direction the fill takes. */
  function Ahead(ch: nat, x: nat, y: nat): nat
    requires y < ch
  {
    if x % 2 == 0 then ch - y else y + 1
  }

  /** What the stack gains at least on the way from (x, y) into the next column. */
  function ColumnGain(ch: nat, x: nat, y: nat): int
    requires y < ch
  {
    if x == 0 then (if y == 0 then 2 * ch - 3 else 2 * (ch - y) - 2)
    else if x % 2 == 1 then 2 * Ahead(ch, x, y) - 1
    else Ahead(ch, x, y)
  }

  /** One pixel further within the column. */
  lemma Along(f: Fill, cw: nat, ch: nat, t: int, colour: int, x: nat, y: nat, height: nat)
    returns (n: nat, y': nat, height': nat)
    requires Arrived(f, cw, ch, t, colour, x, y, height) && t != colour && ch > 1 && y != Entry(ch, x + 1)
    ensures y' == if x % 2 == 0 then y + 1 else y - 1
    ensures height' == height - 1 + Degree(cw, ch, x, y) - (if x % 2 == 1 && y < ch - 1 then 1 else 0)
    ensures Arrived(After(f, cw, ch, t, colour, n), cw, ch, t, colour, x, y', height')
  {
    hide After, Arrived, Degree;
    ArrivedIn(f, cw, ch, t, colour, x, y, height);
    DegreeIs(cw, ch, x, y);
    if x % 2 == 0 {
      GoesDown(f, cw, ch, t, colour, x, y, height);
      n, y', height' := 1, y + 1, height - 1 + Degree(cw, ch, x, y);
    } else {
      n := GoesUp(f, cw, ch, t, colour, x, y, height);
      y', height' := y - 1, height - 1 + Degree(cw, ch, x, y) - (if y < ch - 1 then 1 else 0);
    }
  }

  lemma ArrivedIn(f: Fill, cw: nat, ch: nat, t: int, colour: int, x: nat, y: nat, height: nat)
    requires Arrived(f, cw, ch, t, colour, x, y, height)
    ensures x < cw && y < ch && height > 0
  {
  }

  lemma {:induction false} Column(f: Fill, cw: nat, ch: nat, t: int, colour: int, x: nat, y: nat, height: nat)
    returns (n: nat, height': nat)
    requires Arrived(f, cw, ch, t, colour, x, y, height) && t != colour && ch > 1 && x < cw - 1
    ensures Arrived(After(f, cw, ch, t, colour, n), cw, ch, t, colour, x + 1, Entry(ch, x + 1), height')
    ensures y < ch && height' >= height + ColumnGain(ch, x, y)
    decreases if x % 2 == 0 then ch - y else y
  {
    hide After, Arrived, Degree;
    ArrivedIn(f, cw, ch, t, colour, x, y, height);
    DegreeIs(cw, ch, x, y);
    if y == Entry(ch, x + 1) {
      GoesRight(f, cw, ch, t, colour, x, height);
      n, height' := 2, height - 2 + Degree(cw, ch, x, y);
    } else {
      var m, z, up := Along(f, cw, ch, t, colour, x, y, height);
      var k;
      k, height' := Column(After(f, cw, ch, t, colour, m), cw, ch, t, colour, x, z, up);
      AfterMore(f, cw, ch, t, colour, m, k);
      n := m + k;
    }
  }

  /** In the last column every pixel leaves at least one entry more. */
  lemma {:induction false} LastColumn(f: Fill, cw: nat, ch: nat, t: int, colour: int, x: nat, y: nat, height: nat)
    returns (n: nat)
    requires Arrived(f, cw, ch, t, colour, x, y, height) && t != colour && ch > 1 && x == cw - 1 > 0
    ensures y < ch && |After(f, cw, ch, t, colour, n).stack| >= height + Ahead(ch, x, y)
    decreases if x % 2 == 0 then ch - y else y
  {
    hide After, Arrived, Degree;
    ArrivedIn(f, cw, ch, t, colour, x, y, height);
    DegreeIs(cw, ch, x, y);
    if y == Entry(ch, x + 1) {
      LastPixel(f, cw, ch, t, colour, x, y, height);
      n := 1;
    } else {
      var m, z, up := Along(f, cw, ch, t, colour, x, y, height);
      var k := LastColumn(After(f, cw, ch, t, colour, m), cw, ch, t, colour, x, z, up);
      AfterMore(f, cw, ch, t, colour, m, k);
      n := m + k;
    }
  }

  lemma LastPixel(f: Fill, cw: nat, ch: nat, t: int, colour: int, x: nat, y: nat, height: nat)
    requires Arrived(f, cw, ch, t, colour, x, y, height) && t != colour
    ensures |After(f, cw, ch, t, colour, 1).stack| == height - 1 + Degree(cw, ch, x, y)
  {
    hide FillStep, Neighbours, At, After;
    var g := PaintsArrived(f, cw, ch, t, colour, x, y, height);
    OneStep(f, cw, ch, t, colour);
  }

  lemma StartsAtOrigin(f: Fill, cw: nat, ch: nat, t: int, colour: int)
    requires cw > 0 && ch > 0 && |f.canvas| == cw * ch && f.stack == [0] && forall i | 0 <= i < |f.canvas| ::
      f.canvas[i] == t
    ensures Arrived(f, cw, ch, t, colour, 0, 0, 1)
  {
    forall a: nat, b: nat | a < cw && b < ch
      ensures At(f.canvas, cw, a, b) == if Passed(a, b, 0, 0) then colour else t
    {
      PixelAt(cw, ch, a, b);
    }
  }

  /** Column after column, the stack grows faster than the pixels painted. */
  lemma {:induction false} Columns(f: Fill, cw: nat, ch: nat, t: int, colour: int, x: nat) returns (n: nat, height: nat)
    requires Arrived(f, cw, ch, t, colour, 0, 0, 1) && t != colour && ch > 1 && 0 < x < cw
    ensures Arrived(After(f, cw, ch, t, colour, n), cw, ch, t, colour, x, Entry(ch, x), height)
    ensures height >= if x == 1 then 2 * ch - 2 else x * ch + 1
  {
    hide After, Arrived;
    var m, before: nat := 0, 1;
    AfterNone(f, cw, ch, t, colour);
    if x > 1 {
      m, before := Columns(f, cw, ch, t, colour, x - 1);
    }
    var k;
    k, height := Column(After(f, cw, ch, t, colour, m), cw, ch, t, colour, x - 1, Entry(ch, x - 1), before);
    AfterMore(f, cw, ch, t, colour, m, k);
    n := m + k;
    assert x * ch == (x - 1) * ch + ch;
  }

  /** A canvas of one colour, filled from its first pixel, outgrows the reservation when it is wider and higher than
      one pixel, but for two by two. */
  lemma PlainOutgrows(c: seq<int>, cw: nat, ch: nat, colour: int)
    requires cw > 1 && ch > 1 && (cw > 2 || ch > 2) && |c| == cw * ch > 0
    requires colour != c[0] && Plain(c)
    ensures !Suffices(c, cw, ch, 0, colour)
  {
    hide After, Arrived;
    var f, t := Fill(c, [0]), c[0];
    StartsAtOrigin(f, cw, ch, t, colour);
    var m, height := Columns(f, cw, ch, t, colour, cw - 1);
    var k := LastColumn(After(f, cw, ch, t, colour, m), cw, ch, t, colour, cw - 1, Entry(ch, cw - 1), height);
    AfterMore(f, cw, ch, t, colour, m, k);
    assert cw * ch == (cw - 1) * ch + ch;
    assert |After(f, cw, ch, t, colour, m + k).stack| > cw * ch;
  }

  // ---- when the reservation suffices ----

  /** A single row, a single column, or two by two pixels. */
  predicate Small(cw: nat, ch: nat) {
    cw == 1 || ch == 1 || (cw == 2 && ch == 2)
  }

  lemma SmallSuffices(c: seq<int>, cw: nat, ch: nat, s: nat, colour: int)
    requires 0 < cw && Small(cw, ch) && |c| == cw * ch && s < |c| && colour != c[s]
    ensures Suffices(c, cw, ch, s, colour)
  {
    hide Suffices;
    if cw == 1 || ch == 1 {
      NarrowSuffices(c, cw, ch, s, colour);
    } else {
      SquareSuffices(c, s, colour);
    }
  }

  predicate Plain(c: seq<int>) {
    forall i | 0 <= i < |c| :: c[i] == c[0]
  }

  /** A canvas of one colour filled from its first pixel keeps within the reservation if and only if it is small. */
  lemma PlainExactly(c: seq<int>, cw: nat, ch: nat, colour: int)
    requires cw > 0 && |c| == cw * ch > 0 && colour != c[0] && Plain(c)
    ensures Suffices(c, cw, ch, 0, colour) <==> Small(cw, ch)
  {
    hide Suffices;
    if Small(cw, ch) {
      SmallSuffices(c, cw, ch, 0, colour);
    } else {
      PlainOutgrows(c, cw, ch, colour);
    }
  }

  /** Every fill of every canvas of that size keeps within the reservation. */
  ghost predicate AlwaysSuffices(cw: nat, ch: nat)
    requires cw > 0
  {
    forall c: seq<int>, s: nat, colour | |c| == cw * ch && s < |c| && c[s] != colour :: Suffices(c, cw, ch, s, colour)
  }

  /** One entry for each pixel is enough for all canvases of a size if and only if that size is small. */
  lemma ReservationExactly(cw: nat, ch: nat)
    requires cw > 0 && ch > 0
    ensures AlwaysSuffices(cw, ch) <==> Small(cw, ch)
  {
    hide Suffices;
    if Small(cw, ch) {
      forall c: seq<int>, s: nat, colour | |c| == cw * ch && s < |c| && c[s] != colour
        ensures Suffices(c, cw, ch, s, colour)
      {
        SmallSuffices(c, cw, ch, s, colour);
      }
    } else {
      var c := seq(cw * ch, _ => 0);
      MulMono(cw, 1, ch);
      PlainExactly(c, cw, ch, 1);
      assert |c| == cw * ch && c[0] != 1;
    }
  }

  /** The bucket tool with the entries it reserves: they suffice on every small canvas, when few pixels have the start's
      colour, and on a canvas of one colour filled from its first pixel only if it is small. */
  method FillWithin(canvas: array<int>, cw: nat, ch: nat, x: nat, y: nat, colour: int) returns (ghost depth: nat)
    requires canvas.Length == cw * ch && x < cw && y < ch
    modifies canvas
    ensures y * cw + x < cw * ch && Filled(old(canvas[..]), canvas[..], cw, y * cw + x, colour)
    ensures Small(cw, ch) ==> depth <= cw * ch
    ensures 1 + 3 * |Left(old(canvas[..]), old(canvas[y * cw + x]))| <= cw * ch ==> depth <= cw * ch
    ensures Plain(old(canvas[..])) && x == y == 0 && old(canvas[0]) != colour ==> (depth <= cw * ch <==> Small(cw, ch))
  {
    hide Suffices, Small, Deepest, Filled;
    PixelAt(cw, ch, x, y);
    ghost var c, s := canvas[..], y * cw + x;
    depth := FloodFill(canvas, cw, ch, x, y, colour);
    if c[s] != colour {
      DepthDecides(c, cw, ch, s, colour, depth);
      if Small(cw, ch) {
        SmallSuffices(c, cw, ch, s, colour);
      }
      if Plain(c) {
        PlainExactly(c, cw, ch, colour);
      }
    }
  }
}
