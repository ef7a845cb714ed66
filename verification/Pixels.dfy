/** Pixels of a canvas, numbered row by row. */
module Pixels {
  import opened Numbers

  /** Column and row of pixel `i` on a canvas `cw` wide. */
  function X(cw: nat, i: nat): nat
    requires cw > 0
  {
    i % cw
  }

  function Y(cw: nat, i: nat): nat
    requires cw > 0
  {
    i / cw
  }

  lemma RowAndColumn(cw: nat, ch: nat, i: nat)
    requires cw > 0 && i < cw * ch
    ensures i == Y(cw, i) * cw + X(cw, i) && X(cw, i) < cw && Y(cw, i) < ch
  {
    DivMod(i, cw);
    if Y(cw, i) >= ch {
      MulMono(cw, ch, Y(cw, i));
    }
  }

  lemma MulMono(n: nat, a: nat, b: nat)
    requires a <= b
    ensures n * a <= n * b
  {
  }

  lemma PixelAt(cw: nat, ch: nat, x: nat, y: nat)
    requires cw > 0 && x < cw && y < ch
    ensures y * cw + x < cw * ch && X(cw, y * cw + x) == x && Y(cw, y * cw + x) == y
  {
    DivModUnique(y * cw + x, y, x, cw);
    MulMono(cw, y + 1, ch);
    assert cw * (y + 1) == cw * y + cw;
  }
}
