/** The BMP codec: 24-bit uncompressed images, rows bottom-up and padded to four bytes. */
module Bmp {
  import opened Bytes
  import opened Numbers
  import opened Options
  import opened Framebuffer
  import opened Pixels

  const INT32_MAX := 0x7fff_ffff
  const HEADER: nat := 54

  // ---- bytes ----

  function Octet(b: bv8): byte {
    b as int
  }

  function Bits(x: byte): bv8 {
    x as bv8
  }

  lemma OctetBits(b: bv8)
    ensures Bits(Octet(b)) == b
  {
  }

  function Get16(s: seq<byte>, at: nat): u16
    requires at + 2 <= |s|
  {
    var b0: int, b1: int := s[at], s[at + 1];
    b0 + 0x100 * b1
  }

  /** A cast of an unsigned word to a signed one. */
  function Signed32(v: u32): int {
    if v <= INT32_MAX then v else v - 0x1_0000_0000
  }

  method PutU16(p: array<byte>, at: nat, v: u16)
    requires at + 2 <= p.Length
    modifies p
    ensures Get16(p[..], at) == v
    ensures forall k | 0 <= k < p.Length && !(at <= k < at + 2) :: p[k] == old(p[k])
  {
    p[at] := v % 0x100;
    p[at + 1] := v / 0x100;
  }

  method PutU32(p: array<byte>, at: nat, v: u32)
    requires at + 4 <= p.Length
    modifies p
    ensures Get32(p[..], at) == v
    ensures forall k | 0 <= k < p.Length && !(at <= k < at + 4) :: p[k] == old(p[k])
  {
    p[at] := v % 0x100;
    p[at + 1] := v / 0x100 % 0x100;
    p[at + 2] := v / 0x1_0000 % 0x100;
    p[at + 3] := v / 0x100_0000 % 0x100;
    assert v / 0x1_0000 == v / 0x100 / 0x100 && v / 0x100_0000 == v / 0x1_0000 / 0x100;
    assert p[..][at] == Put32(v)[0] && p[..][at + 1] == Put32(v)[1] && p[..][at + 2] == Put32(v)[2] &&
      p[..][at + 3] == Put32(v)[3];
    Get32Put32(v, p[..], at);
  }

  // ---- the layout of a file ----

  /** Bytes of a row, padded to a multiple of four. */
  function Padded(w: int): int {
    (w * 3 + 3) / 4 * 4
  }

  /** A row takes the least multiple of four bytes that holds its pixels. */
  lemma PaddedIsLeast(w: nat)
    ensures Padded(w) % 4 == 0 && 3 * w <= Padded(w) < 3 * w + 4
  {
  }

  function RowAt(offset: nat, w: nat, y: nat): (r: nat)
    ensures r >= offset
  {
    offset + y * Padded(w)
  }

  function FileSize(w: nat, h: nat): nat {
    RowAt(HEADER, w, h)
  }

  /** The header of a file of `w` by `h` pixels. */
  predicate HeaderOk(s: seq<byte>, w: nat, h: nat)
    requires |s| >= 54
  {
    s[0] == 66 && s[1] == 77 &&
    Get32(s, 2) == FileSize(w, h) && Get32(s, 6) == 0 && Get32(s, 10) == HEADER && Get32(s, 14) == 40 &&
    Get32(s, 18) == w && Get32(s, 22) == h && Get16(s, 26) == 1 && Get16(s, 28) == 24 && Get32(s, 30) == 0 &&
    Get32(s, 34) == FileSize(w, h) - HEADER && Get32(s, 38) == 0 && Get32(s, 42) == 0 && Get32(s, 46) == 0 &&
      Get32(s, 50) == 0
  }

  /** Pixel `x` of the row at `base` holds, blue first, the colour of canvas pixel `start + x`. */
  predicate PixelOk(f: PixelFormat, s: seq<byte>, base: nat, canvas: seq<bv32>, start: nat, x: nat)
    requires ValidFormat(f)
  {
    base + 3 * x + 2 < |s| && start + x < |canvas| &&
    s[base + 3 * x] == Octet(UnpackChannel(f.blue, canvas[start + x])) &&
    s[base + 3 * x + 1] == Octet(UnpackChannel(f.green, canvas[start + x])) &&
    s[base + 3 * x + 2] == Octet(UnpackChannel(f.red, canvas[start + x]))
  }

  predicate RowOk(f: PixelFormat, s: seq<byte>, base: nat, canvas: seq<bv32>, start: nat, w: nat)
    requires ValidFormat(f)
  {
    forall x: nat | x < w :: PixelOk(f, s, base, canvas, start, x)
  }

  /** The first canvas pixel of file row `y`. */
  function Start(w: nat, h: nat, y: nat): nat
    requires y < h
  {
    (h - 1 - y) * w
  }

  /** File row `y` is canvas row `h - 1 - y`. */
  predicate FileRowOk(f: PixelFormat, s: seq<byte>, canvas: seq<bv32>, w: nat, h: nat, y: nat)
    requires ValidFormat(f) && y < h
  {
    RowOk(f, s, RowAt(HEADER, w, y), canvas, Start(w, h, y), w)
  }

  predicate Encoded(f: PixelFormat, s: seq<byte>, canvas: seq<bv32>, w: nat, h: nat)
    requires ValidFormat(f)
  {
    |s| >= FileSize(w, h) >= 54 && HeaderOk(s, w, h) && forall y: nat | y < h :: FileRowOk(f, s, canvas, w, h, y)
  }

  lemma RowsInOrder(w: nat, y: nat, y': nat)
    requires y < y'
    ensures RowAt(HEADER, w, y) + 3 * w <= RowAt(HEADER, w, y) + Padded(w) <= RowAt(HEADER, w, y')
  {
    MulMono(Padded(w), y + 1, y');
  }

  /** A byte of a row's pixels is not in the row's padding. */
  lemma NotPadding(w: nat, y: nat, k: nat)
    requires RowAt(HEADER, w, y) <= k < RowAt(HEADER, w, y) + 3 * w
    ensures 0 < Padded(w) && (k - HEADER) % Padded(w) < 3 * w
  {
    DivModUnique(k - HEADER, y, k - RowAt(HEADER, w, y), Padded(w));
  }

  method EncodeRow(f: PixelFormat, canvas: seq<bv32>, w: nat, start: nat, out: array<byte>, base: nat)
    requires ValidFormat(f) && start + w <= |canvas| && base + 3 * w <= out.Length
    modifies out
    ensures RowOk(f, out[..], base, canvas, start, w)
    ensures forall k | 0 <= k < out.Length && !(base <= k < base + 3 * w) :: out[k] == old(out[k])
  {
    hide UnpackChannel, Octet;
    var x := 0;
    while x < w
      invariant x <= w
      invariant RowOk(f, out[..], base, canvas, start, x)
      invariant forall k | 0 <= k < out.Length && !(base <= k < base + 3 * w) :: out[k] == old(out[k])
    {
      var colour := canvas[start + x];
      ghost var was := out[..];
      out[base + x * 3] := Octet(UnpackChannel(f.blue, colour));
      out[base + x * 3 + 1] := Octet(UnpackChannel(f.green, colour));
      out[base + x * 3 + 2] := Octet(UnpackChannel(f.red, colour));
      forall x' | 0 <= x' <= x
        ensures PixelOk(f, out[..], base, canvas, start, x')
      {
        assert x' < x ==> PixelOk(f, was, base, canvas, start, x');
      }
      x := x + 1;
    }
  }

  method PutSizes(out: array<byte>, fileSize: u32)
    requires out.Length >= 54
    modifies out
    ensures Get32(out[..], 2) == fileSize && Get32(out[..], 10) == HEADER && Get32(out[..], 14) == 40
    ensures forall k | 0 <= k < out.Length && (k < 2 || 6 <= k < 10 || 18 <= k) :: out[k] == old(out[k])
  {
    PutU32(out, 2, fileSize);
    PutU32(out, 10, 54);
    PutU32(out, 14, 40);
  }

  method PutShape(out: array<byte>, w: u32, h: u32, dataSize: u32)
    requires out.Length >= 54
    modifies out
    ensures Get32(out[..], 18) == w && Get32(out[..], 22) == h
    ensures Get16(out[..], 26) == 1 && Get16(out[..], 28) == 24 && Get32(out[..], 34) == dataSize
    ensures forall k | 0 <= k < out.Length && (k < 18 || 30 <= k < 34 || 38 <= k) :: out[k] == old(out[k])
  {
    PutU32(out, 18, w);
    PutU32(out, 22, h);
    PutU16(out, 26, 1);
    PutU16(out, 28, 24);
    PutU32(out, 34, dataSize);
  }

  lemma Same32(s: seq<byte>, t: seq<byte>, at: nat)
    requires at + 4 <= |s| && at + 4 <= |t|
    requires forall k | at <= k < at + 4 :: s[k] == t[k]
    ensures Get32(s, at) == Get32(t, at)
  {
  }

  lemma Same16(s: seq<byte>, t: seq<byte>, at: nat)
    requires at + 2 <= |s| && at + 2 <= |t|
    requires forall k | at <= k < at + 2 :: s[k] == t[k]
    ensures Get16(s, at) == Get16(t, at)
  {
  }

  lemma Zero32(s: seq<byte>, at: nat)
    requires at + 4 <= |s|
    requires forall k | at <= k < at + 4 :: s[k] == 0
    ensures Get32(s, at) == 0
  {
  }

  method PutHeader(out: array<byte>, w: u32, h: u32, fileSize: u32)
    requires out.Length >= 54 && fileSize == FileSize(w, h) >= 54
    modifies out
    ensures HeaderOk(out[..], w, h)
    ensures forall k | 54 <= k < out.Length :: out[k] == old(out[k])
  {
    hide Get32, Get16, Padded;
    for k := 0 to 54
      invariant forall j | 0 <= j < k :: out[j] == 0
      invariant forall j | 54 <= j < out.Length :: out[j] == old(out[j])
    {
      out[k] := 0;
    }
    out[0], out[1] := 66, 77;
    PutSizes(out, fileSize);
    ghost var was := out[..];
    PutShape(out, w, h, fileSize - 54);
    Same32(was, out[..], 2);
    Same32(was, out[..], 10);
    Same32(was, out[..], 14);
    Zero32(out[..], 6);
    Zero32(out[..], 30);
    Zero32(out[..], 38);
    Zero32(out[..], 42);
    Zero32(out[..], 46);
    Zero32(out[..], 50);
  }

  /** The two files differ at most in the pixels of row `y`. */
  predicate OnlyRow(s: seq<byte>, t: seq<byte>, w: nat, y: nat) {
    |s| == |t| && forall k | 0 <= k < |s| && !(RowAt(HEADER, w, y) <= k < RowAt(HEADER, w, y) + 3 * w) :: s[k] == t[k]
  }

  lemma HeaderKept(s: seq<byte>, t: seq<byte>, w: nat, h: nat, y: nat)
    requires OnlyRow(s, t, w, y) && |s| >= 54 && HeaderOk(s, w, h)
    ensures HeaderOk(t, w, h)
  {
    hide HeaderOk, RowAt;
    HeaderSame(s, t, w, h);
  }

  /** The header is in the first 54 bytes. */
  lemma HeaderSame(s: seq<byte>, t: seq<byte>, w: nat, h: nat)
    requires 54 <= |s| && 54 <= |t| && (forall k | 0 <= k < 54 :: s[k] == t[k]) && HeaderOk(s, w, h)
    ensures HeaderOk(t, w, h)
  {
    hide Get32, Get16, FileSize;
    Same32(s, t, 2);
    Same32(s, t, 6);
    Same32(s, t, 10);
    Same32(s, t, 14);
    Same32(s, t, 18);
    Same32(s, t, 22);
    Same16(s, t, 26);
    Same16(s, t, 28);
    Same32(s, t, 30);
    Same32(s, t, 34);
    Same32(s, t, 38);
    Same32(s, t, 42);
    Same32(s, t, 46);
    Same32(s, t, 50);
  }

  lemma FileRowKept(f: PixelFormat, s: seq<byte>, t: seq<byte>, canvas: seq<bv32>, w: nat, h: nat, y: nat, r: nat)
    requires ValidFormat(f) && OnlyRow(s, t, w, y) && r < y < h && FileRowOk(f, s, canvas, w, h, r)
    ensures FileRowOk(f, t, canvas, w, h, r)
  {
    hide RowOk, RowAt, Padded, Start;
    RowsInOrder(w, r, y);
    RowKept(f, s, t, RowAt(HEADER, w, r), canvas, Start(w, h, r), w);
  }

  lemma RowsKept(f: PixelFormat, s: seq<byte>, t: seq<byte>, canvas: seq<bv32>, w: nat, h: nat, y: nat)
    requires ValidFormat(f) && OnlyRow(s, t, w, y) && y < h
    requires forall r: nat | r < y :: FileRowOk(f, s, canvas, w, h, r)
    ensures forall r: nat | r < y :: FileRowOk(f, t, canvas, w, h, r)
  {
    hide FileRowOk, OnlyRow;
    forall r: nat | r < y ensures FileRowOk(f, t, canvas, w, h, r) {
      FileRowKept(f, s, t, canvas, w, h, y, r);
    }
  }

  /** Nothing outside the header and the pixels of the first `y` rows has changed. */
  predicate PadKept(s: seq<byte>, t: seq<byte>, w: nat, y: nat) {
    |s| == |t| && forall k | 54 <= k < |s| &&
      (RowAt(HEADER, w, y) <= k || (Padded(w) > 0 && (k - HEADER) % Padded(w) >= 3 * w)) :: s[k] == t[k]
  }

  lemma PadKeptNext(s: seq<byte>, t: seq<byte>, u: seq<byte>, w: nat, y: nat)
    requires PadKept(s, t, w, y) && OnlyRow(t, u, w, y)
    ensures PadKept(s, u, w, y + 1)
  {
    hide RowAt;
    RowsInOrder(w, y, y + 1);
    forall k | 54 <= k < |s| && (RowAt(HEADER, w, y + 1) <= k || (Padded(w) > 0 && (k - HEADER) % Padded(w) >= 3 * w))
      ensures s[k] == u[k]
    {
      if RowAt(HEADER, w, y) <= k < RowAt(HEADER, w, y) + 3 * w { NotPadding(w, y, k); }
    }
  }

  lemma RowDone(f: PixelFormat, s: seq<byte>, t: seq<byte>, canvas: seq<bv32>, w: nat, h: nat, y: nat)
    requires ValidFormat(f) && OnlyRow(s, t, w, y) && y < h && |s| >= 54 && HeaderOk(s, w, h)
    requires forall r: nat | r < y :: FileRowOk(f, s, canvas, w, h, r)
    requires RowOk(f, t, RowAt(HEADER, w, y), canvas, Start(w, h, y), w)
    ensures HeaderOk(t, w, h) && forall r: nat | r < y + 1 :: FileRowOk(f, t, canvas, w, h, r)
  {
    hide HeaderOk, RowOk, Start;
    HeaderKept(s, t, w, h, y);
    RowsKept(f, s, t, canvas, w, h, y);
  }

  lemma RowKept(f: PixelFormat, s: seq<byte>, t: seq<byte>, base: nat, canvas: seq<bv32>, start: nat, w: nat)
    requires ValidFormat(f) && RowOk(f, s, base, canvas, start, w) && |s| == |t|
    requires forall k | base <= k < base + 3 * w && k < |s| :: s[k] == t[k]
    ensures RowOk(f, t, base, canvas, start, w)
  {
    hide UnpackChannel, Octet;
    forall x: nat | x < w ensures PixelOk(f, t, base, canvas, start, x) {
      assert PixelOk(f, s, base, canvas, start, x);
    }
  }

  lemma Sizes(w: nat, h: nat)
    requires w > 0 && h > 0
    ensures 3 * w <= Padded(w) && FileSize(w, h) == 54 + Padded(w) * h && w <= FileSize(w, h) && h <= FileSize(w, h)
  {
    MulMono(Padded(w), 1, h);
    MulMono(h, 1, Padded(w));
  }

  method EncodeRows(f: PixelFormat, canvas: seq<bv32>, w: nat, h: nat, paddedRow: nat, out: array<byte>)
    requires ValidFormat(f) && |canvas| == w * h && paddedRow == Padded(w) && FileSize(w, h) <= out.Length
    requires out.Length >= 54 && HeaderOk(out[..], w, h)
    modifies out
    ensures HeaderOk(out[..], w, h) && forall r: nat | r < h :: FileRowOk(f, out[..], canvas, w, h, r)
    ensures PadKept(old(out[..]), out[..], w, h)
  {
    hide HeaderOk, RowOk, FileRowOk;
    var y := 0;
    while y < h
      invariant y <= h && HeaderOk(out[..], w, h)
      invariant forall r: nat | r < y :: FileRowOk(f, out[..], canvas, w, h, r)
      invariant PadKept(old(out[..]), out[..], w, y)
    {
      var srcY := h - 1 - y;
      ghost var was := out[..];
      RowFits(w, h, srcY);
      RowsInOrder(w, y, y + 1);
      if y + 1 < h { RowsInOrder(w, y + 1, h); }
      EncodeRow(f, canvas, w, srcY * w, out, 54 + y * paddedRow);
      RowDone(f, was, out[..], canvas, w, h, y);
      PadKeptNext(old(out[..]), was, out[..], w, y);
      y := y + 1;
    }
  }

  /** Writes the image, or answers -1 when it is empty or does not fit. */
  method Encode(f: PixelFormat, canvas: seq<bv32>, w: int, h: int, out: array<byte>) returns (size: int)
    requires ValidFormat(f)
    requires w > 0 && h > 0 ==> |canvas| == w * h && FileSize(w, h) <= INT32_MAX
    modifies out
    ensures size == if w <= 0 || h <= 0 || FileSize(w, h) > out.Length then -1 else FileSize(w, h)
    ensures size == -1 ==> out[..] == old(out[..])
    ensures size != -1 ==> Encoded(f, out[..], canvas, w, h)
    ensures size != -1 ==> PadKept(old(out[..]), out[..], w, h)
  {
    hide HeaderOk, FileRowOk;
    var rowBytes := w * 3;
    var paddedRow := (rowBytes + 3) / 4 * 4;
    var dataSize := paddedRow * h;
    var fileSize := 54 + dataSize;
    if fileSize > out.Length || w <= 0 || h <= 0 { return -1; }
    Sizes(w, h);
    PutHeader(out, w, h, fileSize);
    EncodeRows(f, canvas, w, h, paddedRow, out);
    return fileSize;
  }

  lemma RowFits(w: nat, h: nat, y: nat)
    requires y < h
    ensures y * w + w <= w * h
  {
    MulMono(w, y + 1, h);
  }

  // ---- reading a file ----

  datatype Head = Head(offset: nat, width: nat, height: nat, bottomUp: bool)

  /** C's negation of a 32-bit integer. */
  function Negated32(v: int): int {
    if v == -INT32_MAX - 1 then v else -v
  }

  /** The header of an uncompressed 24-bit image that is not empty. */
  function ParseHead(s: seq<byte>): Option<Head> {
    if |s| < 54 || s[0] != 66 || s[1] != 77 then None
    else
      var width, raw := Signed32(Get32(s, 18)), Signed32(Get32(s, 22));
      var height := if raw >= 0 then raw else Negated32(raw);
      if width <= 0 || height <= 0 || Get16(s, 28) != 24 || Get32(s, 30) != 0 then None
      else Some(Head(Get32(s, 10), width, height, raw >= 0))
  }

  /** What a header says: its sizes as signed 32-bit numbers, the height negative when the top row comes first. */
  predicate HeadSays(s: seq<byte>, h: Head) {
    && |s| >= 54 && s[0] == 66 && s[1] == 77 && h.offset == Get32(s, 10)
    && 1 <= h.width <= INT32_MAX && Get32(s, 18) == h.width
    && 1 <= h.height <= INT32_MAX && Get32(s, 22) == (if h.bottomUp then h.height else 0x1_0000_0000 - h.height)
    && Get16(s, 28) == 24 && Get32(s, 30) == 0
  }

  /** Exactly such headers are accepted, and read as they say. */
  lemma HeadExactly(s: seq<byte>, h: Head)
    ensures ParseHead(s) == Some(h) <==> HeadSays(s, h)
  {
    hide Get32, Get16;
  }

  /** Rows are stored one behind the other, from the bottom up or from the top down; the first one is at the offset. */
  lemma RowsStored(h: Head, y: nat)
    requires y < h.height
    ensures h.bottomUp ==> RowBase(h, h.height - 1) == h.offset
    ensures !h.bottomUp ==> RowBase(h, 0) == h.offset
    ensures y > 0 && h.bottomUp ==> RowBase(h, y - 1) == RowBase(h, y) + Padded(h.width)
    ensures y > 0 && !h.bottomUp ==> RowBase(h, y) == RowBase(h, y - 1) + Padded(h.width)
  {
  }

  /** Where image row `y`, counted from the top, is stored. */
  function RowBase(h: Head, y: nat): nat
    requires y < h.height
  {
    RowAt(h.offset, h.width, if h.bottomUp then h.height - 1 - y else y)
  }

  predicate Readable(h: Head, len: nat, y: nat)
    requires y < h.height
  {
    RowBase(h, y) + h.width * 3 <= len
  }

  /** Reading stops at the first row that is not wholly in the file. */
  predicate Shown(h: Head, len: nat, y: nat)
    requires y < h.height
  {
    Readable(h, len, y) && forall r: nat | r < y :: Readable(h, len, r)
  }

  function PixelIn(f: PixelFormat, s: seq<byte>, base: nat, x: nat): bv32
    requires ValidFormat(f) && base + 3 * x + 2 < |s|
  {
    PackColour(f, Bits(s[base + 3 * x + 2]), Bits(s[base + 3 * x + 1]), Bits(s[base + 3 * x]))
  }

  /** The `w` by `h` crop of the image is on the canvas `t`, as far as the file goes; the rest is as in `s`. */
  predicate Decoded(f: PixelFormat, data: seq<byte>, head: Head, s: seq<bv32>, t: seq<bv32>, w: nat, h: nat)
    requires ValidFormat(f) && 0 < w <= head.width && h <= head.height
  {
    |s| == |t| && forall i: nat | i < |s| ::
      t[i] == if Y(w, i) < h && Shown(head, |data|, Y(w, i)) then PixelIn(f, data, RowBase(head, Y(w, i)), X(w, i))
        else s[i]
  }

  method DecodeRow(f: PixelFormat, data: seq<byte>, base: nat, w: nat, out: array<bv32>, start: nat)
    requires ValidFormat(f) && base + 3 * w <= |data| && start + w <= out.Length
    modifies out
    ensures forall i | 0 <= i < out.Length ::
      out[i] == if start <= i < start + w then PixelIn(f, data, base, i - start) else old(out[i])
  {
    var x := 0;
    while x < w
      invariant x <= w
      invariant forall i | 0 <= i < out.Length ::
        out[i] == if start <= i < start + x then PixelIn(f, data, base, i - start) else old(out[i])
    {
      var b, g, r := data[base + x * 3], data[base + x * 3 + 1], data[base + x * 3 + 2];
      out[start + x] := PackColour(f, Bits(r), Bits(g), Bits(b));
      x := x + 1;
    }
  }

  /** Decodes the top left corner of the image, at most `maxW` by `maxH`. */
  method Decode(f: PixelFormat, data: seq<byte>, out: array<bv32>, maxW: int, maxH: int)
    returns (ok: bool, w: int, h: int)
    requires ValidFormat(f)
    requires maxW > 0 && maxH > 0 ==> maxW * maxH <= out.Length
    requires ParseHead(data).Some? ==> ParseHead(data).value.width * 3 + 3 <= INT32_MAX
    modifies out
    ensures ok <==> ParseHead(data).Some?
    ensures ok ==> var head := ParseHead(data).value;
      w == (if head.width < maxW then head.width else maxW) && h == (if head.height < maxH then head.height else maxH)
    ensures ok && w > 0 && h > 0 ==> Decoded(f, data, ParseHead(data).value, old(out[..]), out[..], w, h)
    ensures !ok || w <= 0 || h <= 0 ==> out[..] == old(out[..])
  {
    hide Get32, Get16, Signed32, PackColour, Bits, Decoded, Negated32;
    ok, w, h := false, 0, 0;
    if |data| < 54 || data[0] != 66 || data[1] != 77 { return; }
    var dataOffset := Get32(data, 10);
    var width, heightRaw := Signed32(Get32(data, 18)), Signed32(Get32(data, 22));
    var bottomUp := heightRaw >= 0;
    var height := if bottomUp then heightRaw else Negated32(heightRaw);
    if width <= 0 || height <= 0 || Get16(data, 28) != 24 || Get32(data, 30) != 0 { return; }
    var rowBytes := width * 3;
    var paddedRow := (rowBytes + 3) / 4 * 4;
    w := if width < maxW then width else maxW;
    h := if height < maxH then height else maxH;
    ok := true;
    if w > 0 && h > 0 {
      CropFits(w, h, maxW, maxH);
      DecodeRows(f, data, Head(dataOffset, width, height, bottomUp), out, w, h, paddedRow);
    }
  }

  /** The decoder's loop over the rows of a crop that is not empty. */
  method DecodeRows(f: PixelFormat, data: seq<byte>, head: Head, out: array<bv32>, w: nat, h: nat, paddedRow: nat)
    requires ValidFormat(f) && 0 < w <= head.width && h <= head.height && w * h <= out.Length &&
      paddedRow == Padded(head.width)
    modifies out
    ensures Decoded(f, data, head, old(out[..]), out[..], w, h)
  {
    hide PackColour, Bits, Padded, PixelIn, Decoded, RowAt, RowBase, Readable;
    DecodedNone(f, data, head, out[..], w);
    var y := 0;
    while y < h
      invariant y <= h && forall r: nat | r < y :: Readable(head, |data|, r)
      invariant Decoded(f, data, head, old(out[..]), out[..], w, y)
    {
      var srcY := if head.bottomUp then head.height - 1 - y else y;
      var row := head.offset + srcY * paddedRow;
      RowIs(head, |data|, y, paddedRow);
      if row + head.width * 3 > |data| { break; }
      ghost var was := out[..];
      RowFits(w, h, y);
      DecodeRow(f, data, row, w, out, y * w);
      RowDecoded(f, data, head, old(out[..]), was, out[..], w, y);
      y := y + 1;
    }
    AllDecoded(f, data, head, old(out[..]), out[..], w, h, y);
  }

  lemma RowIs(head: Head, len: nat, y: nat, paddedRow: nat)
    requires y < head.height && paddedRow == Padded(head.width)
    ensures RowBase(head, y) == head.offset + (if head.bottomUp then head.height - 1 - y else y) * paddedRow
    ensures Readable(head, len, y) <==> RowBase(head, y) + head.width * 3 <= len
  {
  }

  lemma DecodedNone(f: PixelFormat, data: seq<byte>, head: Head, s: seq<bv32>, w: nat)
    requires ValidFormat(f) && 0 < w <= head.width
    ensures Decoded(f, data, head, s, s, w, 0)
  {
  }

  lemma RowDecoded(f: PixelFormat, data: seq<byte>, head: Head, s: seq<bv32>, t: seq<bv32>, u: seq<bv32>, w: nat,
                   y: nat)
    requires ValidFormat(f) && 0 < w <= head.width && y < head.height && Shown(head, |data|, y)
    requires Decoded(f, data, head, s, t, w, y) && |u| == |t|
    requires forall i | 0 <= i < |u| ::
      u[i] == if y * w <= i < y * w + w then PixelIn(f, data, RowBase(head, y), i - y * w) else t[i]
    ensures Decoded(f, data, head, s, u, w, y + 1)
  {
    hide PixelIn, Y;
    forall i: nat | i < |u|
      ensures u[i] == if Y(w, i) < y + 1 && Shown(head, |data|, Y(w, i)) then
        PixelIn(f, data, RowBase(head, Y(w, i)), X(w, i)) else s[i]
    {
      OnRow(w, y, i);
    }
  }

  lemma OnRow(w: nat, y: nat, i: nat)
    requires w > 0
    ensures y * w <= i < y * w + w <==> Y(w, i) == y
    ensures Y(w, i) == y ==> X(w, i) == i - y * w
    ensures X(w, i) < w
  {
    DivMod(i, w);
    if y * w <= i < y * w + w { DivModUnique(i, y, i - y * w, w); }
  }

  /** Once a row cannot be read the rows below it are left alone. */
  lemma AllDecoded(f: PixelFormat, data: seq<byte>, head: Head, s: seq<bv32>, t: seq<bv32>, w: nat, h: nat, n: nat)
    requires ValidFormat(f) && 0 < w <= head.width && n <= h <= head.height
    requires Decoded(f, data, head, s, t, w, n) && (n < h ==> !Readable(head, |data|, n))
    ensures Decoded(f, data, head, s, t, w, h)
  {
    hide PixelIn, RowBase, X, Y, Readable;
  }

  lemma CropFits(w: nat, h: nat, maxW: nat, maxH: nat)
    requires w <= maxW && h <= maxH
    ensures w * h <= maxW * maxH
  {
    MulMono(w, h, maxH);
    MulMono(maxH, w, maxW);
  }

  // ---- the round trip ----

  lemma EncodedHead(f: PixelFormat, s: seq<byte>, canvas: seq<bv32>, w: nat, h: nat)
    requires ValidFormat(f) && Encoded(f, s, canvas, w, h) && w > 0 && h > 0 && FileSize(w, h) <= INT32_MAX
    ensures ParseHead(s) == Some(Head(HEADER, w, h, true))
  {
    hide Get32, Get16;
    Sizes(w, h);
  }

  lemma EncodedRows(f: PixelFormat, s: seq<byte>, canvas: seq<bv32>, w: nat, h: nat, y: nat)
    requires ValidFormat(f) && Encoded(f, s, canvas, w, h) && w > 0 && y < h
    ensures Shown(Head(HEADER, w, h, true), |s|, y)
  {
    hide HeaderOk, FileRowOk, RowAt;
    forall r: nat | r <= y ensures Readable(Head(HEADER, w, h, true), |s|, r) {
      RowsInOrder(w, h - 1 - r, h);
    }
  }

  lemma PixelDecodes(f: PixelFormat, s: seq<byte>, base: nat, canvas: seq<bv32>, start: nat, x: nat)
    requires ValidFormat(f) && PixelOk(f, s, base, canvas, start, x)
    ensures PixelIn(f, s, base, x) == And(canvas[start + x], Colours(f))
  {
    hide Octet, Bits, PackColour, UnpackChannel, Colours, And;
    var c := canvas[start + x];
    OctetBits(UnpackChannel(f.red, c));
    OctetBits(UnpackChannel(f.green, c));
    OctetBits(UnpackChannel(f.blue, c));
    PackUnpack(f, c);
  }

  /**
   * Decoding an encoded canvas gives its top left `w` by `h` crop, every pixel
   * reduced to the bits of its colour channels, and touches nothing else.
   */
  lemma RoundTrip(f: PixelFormat, file: seq<byte>, canvas: seq<bv32>, width: nat, height: nat,
                  s: seq<bv32>, t: seq<bv32>, w: nat, h: nat)
    requires ValidFormat(f) && |canvas| == width * height && FileSize(width, height) <= INT32_MAX
    requires Encoded(f, file, canvas, width, height) && 0 < w <= width && 0 < h <= height
    requires ParseHead(file).Some? ==> w <= ParseHead(file).value.width && h <= ParseHead(file).value.height &&
                                       Decoded(f, file, ParseHead(file).value, s, t, w, h)
    ensures ParseHead(file) == Some(Head(HEADER, width, height, true)) && |s| == |t|
    ensures forall i: nat | i < |s| :: t[i] == if Y(w, i) < h then Shade(f, canvas, width, X(w, i), Y(w, i)) else s[i]
  {
    hide Encoded, Shade, PixelIn, RowBase, X, Y;
    EncodedHead(f, file, canvas, width, height);
    forall i: nat | i < |s| && Y(w, i) < h
      ensures t[i] == Shade(f, canvas, width, X(w, i), Y(w, i))
    {
      OnRow(w, 0, i);
      EncodedRows(f, file, canvas, width, height, Y(w, i));
      PixelBack(f, file, canvas, width, height, X(w, i), Y(w, i));
    }
  }

  /** Pixel (x, y) of a canvas, without the bits outside its colour channels. */
  function Shade(f: PixelFormat, canvas: seq<bv32>, width: nat, x: nat, y: nat): bv32
    requires ValidFormat(f)
  {
    if y * width + x < |canvas| then And(canvas[y * width + x], Colours(f)) else 0
  }

  lemma PixelBack(f: PixelFormat, file: seq<byte>, canvas: seq<bv32>, width: nat, height: nat, x: nat, y: nat)
    requires ValidFormat(f) && |canvas| == width * height
    requires Encoded(f, file, canvas, width, height) && x < width && y < height
    ensures var h := Head(HEADER, width, height, true);
      Readable(h, |file|, y) && PixelIn(f, file, RowBase(h, y), x) == Shade(f, canvas, width, x, y)
  {
    hide HeaderOk, PixelOk, PixelIn, And, Colours;
    EncodedRows(f, file, canvas, width, height, y);
    var r := height - 1 - y;
    assert FileRowOk(f, file, canvas, width, height, r);
    assert PixelOk(f, file, RowAt(HEADER, width, r), canvas, Start(width, height, r), x);
    PixelDecodes(f, file, RowAt(HEADER, width, r), canvas, Start(width, height, r), x);
    RowFits(width, height, y);
  }

  /** Only the bytes of the file itself matter, not what follows them in the buffer. */
  lemma EncodedSlice(f: PixelFormat, s: seq<byte>, canvas: seq<bv32>, w: nat, h: nat)
    requires ValidFormat(f) && Encoded(f, s, canvas, w, h)
    ensures Encoded(f, s[..FileSize(w, h)], canvas, w, h)
  {
    hide RowAt, PixelOk;
    var t := s[..FileSize(w, h)];
    HeaderSlice(s, t, w, h);
    forall y: nat | y < h ensures FileRowOk(f, t, canvas, w, h, y) {
      assert FileRowOk(f, s, canvas, w, h, y);
      RowsInOrder(w, y, h);
      RowSlice(f, s, t, RowAt(HEADER, w, y), canvas, Start(w, h, y), w);
    }
  }

  lemma HeaderSlice(s: seq<byte>, t: seq<byte>, w: nat, h: nat)
    requires 54 <= |t| <= |s| && t == s[..|t|] && HeaderOk(s, w, h)
    ensures HeaderOk(t, w, h)
  {
    hide HeaderOk;
    HeaderSame(s, t, w, h);
  }

  lemma RowSlice(f: PixelFormat, s: seq<byte>, t: seq<byte>, base: nat, canvas: seq<bv32>, start: nat, w: nat)
    requires ValidFormat(f) && RowOk(f, s, base, canvas, start, w)
    requires base + 3 * w <= |t| <= |s| && t == s[..|t|]
    ensures RowOk(f, t, base, canvas, start, w)
  {
    hide UnpackChannel, Octet;
    forall x: nat | x < w ensures PixelOk(f, t, base, canvas, start, x) {
      assert PixelOk(f, s, base, canvas, start, x);
    }
  }
}
