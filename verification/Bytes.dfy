/** Bytes, little-endian words and fixed-size records inside a block, as the packed C structures lay them out. */
module Bytes {
  type byte = x: int | 0 <= x < 0x100
  type u16 = x: int | 0 <= x < 0x1_0000
  type u32 = x: int | 0 <= x < 0x1_0000_0000

  function Zeros(n: nat): (r: seq<byte>)
    ensures |r| == n
  {
    seq(n, _ => 0)
  }

  function Put32(v: u32): (r: seq<byte>)
    ensures |r| == 4
  {
    var v1 := v / 0x100;
    var v2 := v1 / 0x100;
    [v % 0x100, v1 % 0x100, v2 % 0x100, v2 / 0x100]
  }

  function Get32(s: seq<byte>, off: nat): u32
    requires off + 4 <= |s|
  {
    var b0: int, b1: int, b2: int, b3: int := s[off], s[off + 1], s[off + 2], s[off + 3];
    b0 + 0x100 * b1 + 0x1_0000 * b2 + 0x100_0000 * b3
  }

  lemma Get32Put32(v: u32, s: seq<byte>, off: nat)
    requires off + 4 <= |s|
    requires forall j :: 0 <= j < 4 ==> s[off + j] == Put32(v)[j]
    ensures Get32(s, off) == v
  {
    var v1 := v / 0x100;
    var v2 := v1 / 0x100;
    assert s[off + 0] == Put32(v)[0] == v % 0x100;
    assert s[off + 1] == Put32(v)[1] == v1 % 0x100;
    assert s[off + 2] == Put32(v)[2] == v2 % 0x100;
    assert s[off + 3] == Put32(v)[3] == v2 / 0x100;
  }

  lemma Put32Get32(s: seq<byte>, off: nat)
    requires off + 4 <= |s|
    ensures Put32(Get32(s, off)) == s[off..off + 4]
  {
    var b0: int, b1: int, b2: int, b3: int := s[off], s[off + 1], s[off + 2], s[off + 3];
    var v := Get32(s, off);
    assert v / 0x100 == b1 + 0x100 * b2 + 0x1_0000 * b3;
    assert v / 0x100 / 0x100 == b2 + 0x100 * b3;
  }

  // ---- words in network order ----

  function Be16(v: u16): seq<byte> {
    [v / 0x100, v % 0x100]
  }

  function Be32(v: u32): seq<byte> {
    var w := Put32(v);
    [w[3], w[2], w[1], w[0]]
  }

  function GetBe32(s: seq<byte>, at: nat): u32
    requires at + 4 <= |s|
  {
    Get32([s[at + 3], s[at + 2], s[at + 1], s[at]], 0)
  }

  function GetBe16(s: seq<byte>, at: nat): u16
    requires at + 2 <= |s|
  {
    var hi: int, lo: int := s[at], s[at + 1];
    hi * 0x100 + lo
  }

  lemma GetBe16Be16(v: u16, s: seq<byte>, at: nat)
    requires at + 2 <= |s| && s[at..at + 2] == Be16(v)
    ensures GetBe16(s, at) == v
  {
    var t := s[at..at + 2];
    assert t[0] == s[at] && t[1] == s[at + 1];
  }

  lemma GetBe32Be32(v: u32, s: seq<byte>, at: nat)
    requires at + 4 <= |s| && s[at..at + 4] == Be32(v)
    ensures GetBe32(s, at) == v
  {
    var t := s[at..at + 4];
    var w := [s[at + 3], s[at + 2], s[at + 1], s[at]];
    assert forall j | 0 <= j < 4 :: w[j] == t[3 - j] && t[3 - j] == Put32(v)[j];
    Get32Put32(v, w, 0);
  }

  /** An array of 32-bit words as it lies in memory. */
  function Pack(ws: seq<u32>): (r: seq<byte>)
    ensures |r| == 4 * |ws|
  {
    seq(4 * |ws|, j requires 0 <= j < 4 * |ws| => Put32(ws[j / 4])[j % 4])
  }

  function Unpack(s: seq<byte>, off: nat, n: nat): (r: seq<u32>)
    requires off + 4 * n <= |s|
    ensures |r| == n
  {
    seq(n, w requires 0 <= w < n => Get32(s, off + 4 * w))
  }

  lemma UnpackPack(ws: seq<u32>, s: seq<byte>, off: nat)
    requires off + 4 * |ws| <= |s|
    requires s[off..off + 4 * |ws|] == Pack(ws)
    ensures Unpack(s, off, |ws|) == ws
  {
    forall w | 0 <= w < |ws|
      ensures Get32(s, off + 4 * w) == ws[w]
    {
      UnpackPackAt(ws, s, off, w);
    }
  }

  lemma PackAt(ws: seq<u32>, w: nat, j: nat)
    requires w < |ws| && j < 4
    ensures Pack(ws)[4 * w + j] == Put32(ws[w])[j]
  {
    assert (4 * w + j) / 4 == w && (4 * w + j) % 4 == j;
  }

  lemma UnpackPackAt(ws: seq<u32>, s: seq<byte>, off: nat, w: nat)
    requires off + 4 * |ws| <= |s| && w < |ws|
    requires s[off..off + 4 * |ws|] == Pack(ws)
    ensures Get32(s, off + 4 * w) == ws[w]
  {
    hide Pack, Put32, Get32;
    forall j | 0 <= j < 4
      ensures s[off + 4 * w + j] == Put32(ws[w])[j]
    {
      PackAt(ws, w, j);
      assert s[off..off + 4 * |ws|][4 * w + j] == s[off + 4 * w + j];
    }
    Get32Put32(ws[w], s, off + 4 * w);
  }

  /** Record number `i` of `size` bytes in a block that is an array of such records. */
  function Record(s: seq<byte>, size: nat, i: nat): (r: seq<byte>)
    requires size * i + size <= |s|
    ensures |r| == size
  {
    s[size * i..size * i + size]
  }

  function PutRecord(s: seq<byte>, size: nat, i: nat, bs: seq<byte>): (r: seq<byte>)
    requires size * i + size <= |s| && |bs| == size
    ensures |r| == |s|
  {
    s[..size * i] + bs + s[size * i + size..]
  }

  /** Writing one record changes that record and no other. */
  lemma RecordPut(s: seq<byte>, size: nat, i: nat, bs: seq<byte>, j: nat)
    requires size * i + size <= |s| && size * j + size <= |s| && |bs| == size
    ensures Record(PutRecord(s, size, i, bs), size, j) == if i == j then bs else Record(s, size, j)
  {
    if i < j {
      Apart(size, i, j);
    } else if j < i {
      Apart(size, j, i);
    }
    Patched(s, size * i, bs, size * j);
  }

  /** A slice of a patched sequence that is the patch, or lies beside it. */
  lemma Patched(s: seq<byte>, a: nat, bs: seq<byte>, b: nat)
    requires a + |bs| <= |s| && b + |bs| <= |s| && (a == b || a + |bs| <= b || b + |bs| <= a)
    ensures (s[..a] + bs + s[a + |bs|..])[b..b + |bs|] == if a == b then bs else s[b..b + |bs|]
  {
  }

  lemma {:induction false} Apart(size: nat, i: nat, j: nat)
    requires i < j
    ensures size * i + size <= size * j
  {
    if i + 1 < j {
      Apart(size, i, j - 1);
    }
    assert size * j == size * (j - 1) + size;
  }
}
