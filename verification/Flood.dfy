/** The Paint bucket: an explicit stack recolours exactly one 4-connected region. */
module Flood {
  import opened Pixels

  /** Side by side in a row, or one above the other. */
  predicate Adjacent(cw: nat, i: nat, j: nat)
    requires cw > 0
  {
    || (Y(cw, i) == Y(cw, j) && (X(cw, i) == X(cw, j) + 1 || X(cw, j) == X(cw, i) + 1))
    || (X(cw, i) == X(cw, j) && (Y(cw, i) == Y(cw, j) + 1 || Y(cw, j) == Y(cw, i) + 1))
  }

  /** A walk over adjacent pixels of one colour. */
  ghost predicate Walk(c: seq<int>, cw: nat, colour: int, p: seq<nat>)
    requires cw > 0
  {
    && p != []
    && (forall k | 0 <= k < |p| :: p[k] < |c| && c[p[k]] == colour)
    && (forall k | 0 <= k < |p| - 1 :: Adjacent(cw, p[k], p[k + 1]))
  }

  /** Pixel `i` lies in the region of pixel `s`. */
  ghost predicate Region(c: seq<int>, cw: nat, s: nat, i: nat)
    requires cw > 0 && s < |c|
  {
    exists p :: Walk(c, cw, c[s], p) && p[0] == s && p[|p| - 1] == i
  }

  lemma RegionStart(c: seq<int>, cw: nat, s: nat)
    requires cw > 0 && s < |c|
    ensures Region(c, cw, s, s)
  {
    assert Walk(c, cw, c[s], [s]);
  }

  lemma RegionStep(c: seq<int>, cw: nat, s: nat, i: nat, j: nat)
    requires cw > 0 && s < |c| && Region(c, cw, s, i) && j < |c| && c[j] == c[s] && Adjacent(cw, i, j)
    ensures Region(c, cw, s, j)
  {
    var p :| Walk(c, cw, c[s], p) && p[0] == s && p[|p| - 1] == i;
    assert Walk(c, cw, c[s], p + [j]);
  }

  /** A set that holds the start and is closed under adjacency within the colour holds the region. */
  lemma {:induction false} ClosedHoldsWalk(c: seq<int>, cw: nat, colour: int, p: seq<nat>, done: set<nat>, k: nat)
    requires cw > 0 && Walk(c, cw, colour, p) && p[0] in done && k < |p|
    requires forall i, j | i in done && 0 <= j < |c| && c[j] == colour && Adjacent(cw, i, j) :: j in done
    ensures p[k] in done
  {
    if k > 0 {
      ClosedHoldsWalk(c, cw, colour, p, done, k - 1);
      assert Adjacent(cw, p[k - 1], p[k - 1 + 1]);
    }
  }

  lemma PixelIsAt(cw: nat, ch: nat, j: nat, x: nat, y: nat)
    requires cw > 0 && j < cw * ch && X(cw, j) == x && Y(cw, j) == y
    ensures j == y * cw + x && x < cw && y < ch
  {
    RowAndColumn(cw, ch, j);
  }

  /** The pixels pushed when pixel (x, y) is painted. */
  function Neighbours(cw: nat, ch: nat, x: nat, y: nat): (r: seq<nat>)
    requires x < cw && y < ch
    ensures |r| <= 4
  {
    (if x > 0 then [y * cw + (x - 1)] else []) +
    (if x < cw - 1 then [y * cw + (x + 1)] else []) +
    (if y > 0 then [(y - 1) * cw + x] else []) +
    (if y < ch - 1 then [(y + 1) * cw + x] else [])
  }

  lemma NeighboursAreAdjacent(cw: nat, ch: nat, i: nat, j: nat)
    requires cw > 0 && i < cw * ch && X(cw, i) < cw && Y(cw, i) < ch
    requires j in Neighbours(cw, ch, X(cw, i), Y(cw, i))
    ensures j < cw * ch && Adjacent(cw, i, j)
  {
    var x, y := X(cw, i), Y(cw, i);
    if x > 0 && j == y * cw + (x - 1) {
      PixelAt(cw, ch, x - 1, y);
    } else if x < cw - 1 && j == y * cw + (x + 1) {
      PixelAt(cw, ch, x + 1, y);
    } else if y > 0 && j == (y - 1) * cw + x {
      PixelAt(cw, ch, x, y - 1);
    } else {
      PixelAt(cw, ch, x, y + 1);
    }
  }

  lemma AdjacentAreNeighbours(cw: nat, ch: nat, i: nat, j: nat)
    requires cw > 0 && i < cw * ch && j < cw * ch && Adjacent(cw, i, j) && X(cw, i) < cw && Y(cw, i) < ch
    ensures j in Neighbours(cw, ch, X(cw, i), Y(cw, i))
  {
    PixelIsAt(cw, ch, j, X(cw, j), Y(cw, j));
  }

  // ---- the fill ----

  ghost predicate Painted(c0: seq<int>, c: seq<int>, s: nat, colour: int, i: nat)
    requires |c| == |c0| && s < |c0|
  {
    i < |c| && c0[i] == c0[s] && c[i] == colour
  }

  /** Only pixels of the region have changed. */
  ghost predicate OnlyRegion(c0: seq<int>, c: seq<int>, cw: nat, s: nat, colour: int)
    requires cw > 0 && |c| == |c0| && s < |c0|
  {
    forall i | 0 <= i < |c| :: c[i] == c0[i] || (c[i] == colour && c0[i] == c0[s] && Region(c0, cw, s, i))
  }

  /** The stack holds nothing outside the region but pixels of other colours. */
  ghost predicate StackOk(c0: seq<int>, cw: nat, s: nat, stack: seq<nat>)
    requires cw > 0 && s < |c0|
  {
    forall k | 0 <= k < |stack| :: stack[k] < |c0| && (c0[stack[k]] == c0[s] ==> Region(c0, cw, s, stack[k]))
  }

  /** Every neighbour of a painted pixel is painted or still on the stack. */
  ghost predicate Closed(c0: seq<int>, c: seq<int>, cw: nat, s: nat, colour: int, stack: seq<nat>)
    requires cw > 0 && |c| == |c0| && s < |c0|
  {
    && (forall i, j | Painted(c0, c, s, colour, i) && 0 <= j < |c| && c0[j] == c0[s] && Adjacent(cw, i, j) ::
          Painted(c0, c, s, colour, j) || j in stack)
    && (Painted(c0, c, s, colour, s) || s in stack)
  }

  /** Halfway through the fill. */
  ghost predicate Filling(c0: seq<int>, c: seq<int>, cw: nat, s: nat, colour: int, stack: seq<nat>)
    requires cw > 0
  {
    && |c| == |c0| && s < |c0|
    && OnlyRegion(c0, c, cw, s, colour) && StackOk(c0, cw, s, stack) && Closed(c0, c, cw, s, colour, stack)
  }

  /** The canvas with exactly the region recoloured. */
  ghost predicate Filled(c0: seq<int>, c: seq<int>, cw: nat, s: nat, colour: int)
    requires cw > 0 && s < |c0|
  {
    |c| == |c0| && forall i | 0 <= i < |c| :: c[i] == if Region(c0, cw, s, i) then colour else c0[i]
  }

  lemma FillingEnds(c0: seq<int>, c: seq<int>, cw: nat, s: nat, colour: int)
    requires cw > 0 && Filling(c0, c, cw, s, colour, []) && colour != c0[s]
    ensures Filled(c0, c, cw, s, colour)
  {
    var done := set i | 0 <= i < |c| && Painted(c0, c, s, colour, i);
    forall i | 0 <= i < |c| && Region(c0, cw, s, i)
      ensures c[i] == colour
    {
      var p :| Walk(c0, cw, c0[s], p) && p[0] == s && p[|p| - 1] == i;
      ClosedHoldsWalk(c0, cw, c0[s], p, done, |p| - 1);
    }
  }

  lemma FillingStarts(c0: seq<int>, cw: nat, s: nat, colour: int)
    requires cw > 0 && s < |c0| && colour != c0[s]
    ensures Filling(c0, c0, cw, s, colour, [s])
  {
    RegionStart(c0, cw, s);
  }

  lemma Popped(stack: seq<nat>)
    requires stack != []
    ensures forall j :: j in stack <==> j in stack[..|stack| - 1] || j == stack[|stack| - 1]
  {
    assert stack == stack[..|stack| - 1] + [stack[|stack| - 1]];
  }

  lemma SkipsPixel(c0: seq<int>, c: seq<int>, cw: nat, s: nat, colour: int, stack: seq<nat>)
    requires cw > 0 && Filling(c0, c, cw, s, colour, stack) && stack != [] && colour != c0[s]
    requires c[stack[|stack| - 1]] != c0[s]
    ensures Filling(c0, c, cw, s, colour, stack[..|stack| - 1])
  {
    hide Region, Adjacent;
    var e := stack[|stack| - 1];
    Popped(stack);
    assert c0[e] == c0[s] ==> Painted(c0, c, s, colour, e);
  }

  lemma PaintsPixel(c0: seq<int>, c: seq<int>, cw: nat, ch: nat, s: nat, colour: int, stack: seq<nat>, more: seq<nat>)
    requires cw > 0 && |c| == cw * ch && Filling(c0, c, cw, s, colour, stack) && stack != [] && colour != c0[s]
    requires c[stack[|stack| - 1]] == c0[s]
    requires X(cw, stack[|stack| - 1]) < cw && Y(cw, stack[|stack| - 1]) < ch
    requires more == Neighbours(cw, ch, X(cw, stack[|stack| - 1]), Y(cw, stack[|stack| - 1]))
    ensures Filling(c0, c[stack[|stack| - 1] := colour], cw, s, colour, stack[..|stack| - 1] + more)
  {
    hide Neighbours, Adjacent, Closed, Region;
    var e := stack[|stack| - 1];
    assert c0[e] == c0[s] && Region(c0, cw, s, e);
    NeighboursOk(c0, cw, ch, s, e);
    PaintsClosed(c0, c, cw, ch, s, colour, stack, more);
  }

  lemma NeighboursOk(c0: seq<int>, cw: nat, ch: nat, s: nat, e: nat)
    requires cw > 0 && |c0| == cw * ch && s < |c0| && e < |c0| && Region(c0, cw, s, e) && X(cw, e) < cw && Y(cw, e) < ch
    ensures StackOk(c0, cw, s, Neighbours(cw, ch, X(cw, e), Y(cw, e)))
  {
    hide Neighbours, Adjacent, Region;
    var more := Neighbours(cw, ch, X(cw, e), Y(cw, e));
    forall k | 0 <= k < |more|
      ensures more[k] < |c0| && (c0[more[k]] == c0[s] ==> Region(c0, cw, s, more[k]))
    {
      NeighboursAreAdjacent(cw, ch, e, more[k]);
      if c0[more[k]] == c0[s] {
        RegionStep(c0, cw, s, e, more[k]);
      }
    }
  }

  lemma PaintsClosed(c0: seq<int>, c: seq<int>, cw: nat, ch: nat, s: nat, colour: int, stack: seq<nat>, more: seq<nat>)
    requires cw > 0 && |c| == |c0| == cw * ch && s < |c0| && stack != [] && Closed(c0, c, cw, s, colour, stack)
    requires stack[|stack| - 1] < |c0| && c0[stack[|stack| - 1]] == c0[s]
    requires X(cw, stack[|stack| - 1]) < cw && Y(cw, stack[|stack| - 1]) < ch
    requires more == Neighbours(cw, ch, X(cw, stack[|stack| - 1]), Y(cw, stack[|stack| - 1]))
    ensures Closed(c0, c[stack[|stack| - 1] := colour], cw, s, colour, stack[..|stack| - 1] + more)
  {
    hide Neighbours, Adjacent;
    var e := stack[|stack| - 1];
    var c', stack' := c[e := colour], stack[..|stack| - 1] + more;
    Popped(stack);
    assert forall i :: Painted(c0, c', s, colour, i) <==> Painted(c0, c, s, colour, i) || i == e;
    forall i, j | Painted(c0, c', s, colour, i) && 0 <= j < |c'| && c0[j] == c0[s] && Adjacent(cw, i, j)
      ensures Painted(c0, c', s, colour, j) || j in stack'
    {
      if i == e {
        AdjacentAreNeighbours(cw, ch, e, j);
      }
    }
  }

  ghost function Left(c: seq<int>, target: int): set<nat> {
    set i | 0 <= i < |c| && c[i] == target
  }

  lemma {:induction false} LeftBound(c: seq<int>, target: int)
    ensures |Left(c, target)| <= |c|
  {
    if c != [] {
      var n := |c| - 1;
      LeftBound(c[..n], target);
      assert Left(c, target) == Left(c[..n], target) + (if c[n] == target then {n} else {});
    }
  }

  // ---- how high the stack grows ----

  datatype Fill = Fill(canvas: seq<int>, stack: seq<nat>)

  /** One pass of the loop. */
  function FillStep(f: Fill, cw: nat, ch: nat, target: int, colour: int): Fill
    requires cw > 0
  {
    if f.stack == [] then f else
      var idx, rest := f.stack[|f.stack| - 1], f.stack[..|f.stack| - 1];
      if idx >= |f.canvas| || X(cw, idx) >= cw || Y(cw, idx) >= ch || f.canvas[idx] != target then Fill(f.canvas, rest)
      else Fill(f.canvas[idx := colour], rest + Neighbours(cw, ch, X(cw, idx), Y(cw, idx)))
  }

  function After(f: Fill, cw: nat, ch: nat, target: int, colour: int, n: nat): Fill
    requires cw > 0
  {
    if n == 0 then f else FillStep(After(f, cw, ch, target, colour, n - 1), cw, ch, target, colour)
  }

  lemma {:induction false} EmptyStays(f: Fill, cw: nat, ch: nat, target: int, colour: int, k: nat, n: nat)
    requires cw > 0 && k <= n && After(f, cw, ch, target, colour, k).stack == []
    ensures After(f, cw, ch, target, colour, n) == After(f, cw, ch, target, colour, k)
    decreases n
  {
    if k < n {
      EmptyStays(f, cw, ch, target, colour, k, n - 1);
    }
  }

  /** `depth` is the greatest height the stack ever has. */
  ghost predicate Deepest(f: Fill, cw: nat, ch: nat, target: int, colour: int, depth: nat)
    requires cw > 0
  {
    && (forall n: nat :: |After(f, cw, ch, target, colour, n).stack| <= depth)
    && (exists n: nat :: |After(f, cw, ch, target, colour, n).stack| == depth)
  }

  /** Bucket tool: recolours exactly the 4-connected region of the start pixel and nothing else. The stack's greatest
      height is at most one more than three times the pixels of the start's colour. */
  method FloodFill(canvas: array<int>, cw: nat, ch: nat, startX: int, startY: int, colour: int)
    returns (ghost depth: nat)
    requires canvas.Length == cw * ch
    modifies canvas
    ensures !(0 <= startX < cw && 0 <= startY < ch) ==> canvas[..] == old(canvas[..])
    ensures 0 <= startX < cw && 0 <= startY < ch ==>
              startY * cw + startX < cw * ch && Filled(old(canvas[..]), canvas[..], cw, startY * cw + startX, colour)
    ensures 0 <= startX < cw && 0 <= startY < ch ==>
              depth <= 1 + 3 * |Left(old(canvas[..]), old(canvas[startY * cw + startX]))| <= 1 + 3 * (cw * ch)
    ensures 0 <= startX < cw && 0 <= startY < ch && old(canvas[startY * cw + startX]) == colour ==> depth == 0
    ensures 0 <= startX < cw && 0 <= startY < ch && old(canvas[startY * cw + startX]) != colour ==>
              Deepest(Fill(old(canvas[..]), [startY * cw + startX]), cw, ch, old(canvas[startY * cw + startX]), colour,
                depth)
  {
    hide OnlyRegion, Closed, Region, Neighbours, Filled, X, Y, FillStep;
    depth := 0;
    if startX < 0 || startX >= cw || startY < 0 || startY >= ch {
      return;
    }
    PixelAt(cw, ch, startX, startY);
    var start: nat := startY * cw + startX;
    ghost var c0 := canvas[..];
    var target := canvas[start];
    LeftBound(c0, target);
    if target == colour {
      SameColour(c0, cw, start);
      return;
    }
    FillingStarts(c0, cw, start, colour);
    var stack: seq<nat> := [start];
    depth := 1;
    ghost var f, k, peak := Fill(c0, stack), 0, 0;
    while stack != []
      invariant canvas.Length == cw * ch && Filling(c0, canvas[..], cw, start, colour, stack)
      invariant |stack| + 3 * |Left(canvas[..], target)| <= 1 + 3 * |Left(c0, target)|
      invariant depth <= 1 + 3 * |Left(c0, target)|
      invariant After(f, cw, ch, target, colour, k) == Fill(canvas[..], stack) && 0 <= peak <= k
      invariant |After(f, cw, ch, target, colour, peak).stack| == depth
      invariant forall n | 0 <= n <= k :: |After(f, cw, ch, target, colour, n).stack| <= depth
      decreases Left(canvas[..], target), |stack|
    {
      ghost var c, before := canvas[..], stack;
      var idx := stack[|stack| - 1];
      stack := stack[..|stack| - 1];
      k := k + 1;
      RowAndColumn(cw, ch, idx);
      StepIs(Fill(c, before), cw, ch, target, colour);
      if canvas[idx] != target {
        SkipsPixel(c0, c, cw, start, colour, before);
        continue;
      }
      canvas[idx] := colour;
      assert canvas[..] == c[idx := colour];
      PaintsPixel(c0, c, cw, ch, start, colour, before, Neighbours(cw, ch, X(cw, idx), Y(cw, idx)));
      stack := stack + Neighbours(cw, ch, X(cw, idx), Y(cw, idx));
      LeftShrinks(c, target, idx, colour);
      if |stack| > depth {
        depth, peak := |stack|, k;
      }
    }
    DeepestSoFar(f, cw, ch, target, colour, depth, k, peak);
    FillingEnds(c0, canvas[..], cw, start, colour);
  }

  lemma SameColour(c: seq<int>, cw: nat, s: nat)
    requires cw > 0 && s < |c|
    ensures Filled(c, c, cw, s, c[s])
  {
    forall i | 0 <= i < |c| && Region(c, cw, s, i)
      ensures c[i] == c[s]
    {
      var p :| Walk(c, cw, c[s], p) && p[0] == s && p[|p| - 1] == i;
    }
  }

  lemma LeftShrinks(c: seq<int>, target: int, i: nat, colour: int)
    requires i < |c| && c[i] == target && colour != target
    ensures Left(c[i := colour], target) < Left(c, target) && |Left(c[i := colour], target)| == |Left(c, target)| - 1
  {
    assert Left(c[i := colour], target) == Left(c, target) - {i};
  }

  lemma StepIs(f: Fill, cw: nat, ch: nat, target: int, colour: int)
    requires cw > 0 && f.stack != [] && f.stack[|f.stack| - 1] < |f.canvas|
    requires X(cw, f.stack[|f.stack| - 1]) < cw && Y(cw, f.stack[|f.stack| - 1]) < ch
    ensures var idx, rest := f.stack[|f.stack| - 1], f.stack[..|f.stack| - 1];
      FillStep(f, cw, ch, target, colour) ==
      if f.canvas[idx] != target then Fill(f.canvas, rest)
      else Fill(f.canvas[idx := colour], rest + Neighbours(cw, ch, X(cw, idx), Y(cw, idx)))
  {
  }

  lemma DeepestSoFar(f: Fill, cw: nat, ch: nat, target: int, colour: int, depth: nat, k: nat, peak: nat)
    requires cw > 0 && After(f, cw, ch, target, colour, k).stack == [] && peak <= k
    requires |After(f, cw, ch, target, colour, peak).stack| == depth
    requires forall n | 0 <= n <= k :: |After(f, cw, ch, target, colour, n).stack| <= depth
    ensures Deepest(f, cw, ch, target, colour, depth)
  {
    forall n: nat | n > k
      ensures |After(f, cw, ch, target, colour, n).stack| <= depth
    {
      EmptyStays(f, cw, ch, target, colour, k, n);
    }
  }
}
