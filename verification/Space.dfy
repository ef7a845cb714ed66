/** Counting free blocks: how many a file needs, and what taking one leaves. */
module Space {
  import opened Layout
  import opened Volume
  import opened Store
  import opened Directory

  /** Places of the clear bits. */
  function ClearBits(bits: seq<bool>): set<nat> {
    set k: nat | k < |bits| && !bits[k]
  }

  /** How many blocks of the data area are free. */
  function Free(v: Vol): nat {
    |ClearBits(v.bits)|
  }

  /** How many are free on disk, as a mount would find them. */
  function Kept(v: Vol): nat {
    |ClearBits(v.saved)|
  }

  ghost function FreeBlocks(v: Vol): set<nat> {
    set y | v.start <= y < v.start + |v.data| && !Bit(v, y)
  }

  lemma ShiftCount(s: set<nat>, k: nat)
    ensures |set x | x in s :: x + k| == |s|
  {
    var t := set x | x in s :: x + k;
    if s != {} {
      var x :| x in s;
      ShiftCount(s - {x}, k);
      var r := set z | z in s - {x} :: z + k;
      assert x + k in t && x + k !in r;
      forall y
        ensures y in t <==> y in r || y == x + k
      {
        if y in t {
          var z :| z in s && z + k == y;
          assert z != x ==> z in s - {x};
        }
      }
      assert t == r + {x + k};
    }
  }

  lemma FreeIsCount(v: Vol)
    ensures |FreeBlocks(v)| == Free(v)
  {
    var t := set k | k in ClearBits(v.bits) :: k + v.start;
    forall y | y in FreeBlocks(v)
      ensures y in t
    {
      assert y - v.start in ClearBits(v.bits);
    }
    assert t == FreeBlocks(v);
    ShiftCount(ClearBits(v.bits), v.start);
  }

  /** Freeing a set of marked blocks adds their number to the free ones. */
  lemma FreedCount(v: Vol, w: Vol, ys: set<nat>)
    requires w.start == v.start && |w.data| == |v.data|
    requires forall y | InData(v, y) :: Bit(w, y) <==> Bit(v, y) && y !in ys
    requires forall y | y in ys :: Bit(v, y)
    ensures Free(w) == Free(v) + |ys|
  {
    FreeIsCount(v);
    FreeIsCount(w);
    assert FreeBlocks(w) == FreeBlocks(v) + ys;
  }

  lemma FreeNone(bits: seq<bool>)
    ensures |ClearBits(bits)| == 0 <==> AllSet(bits)
  {
    if AllSet(bits) {
      assert ClearBits(bits) == {};
    } else {
      var k: nat :| k < |bits| && !bits[k];
      assert k in ClearBits(bits);
    }
  }

  lemma FreeTaken(bits: seq<bool>, k: nat)
    requires k < |bits| && !bits[k]
    ensures |ClearBits(bits[k := true])| == |ClearBits(bits)| - 1
  {
    assert ClearBits(bits[k := true]) == ClearBits(bits) - {k};
  }

  // ---- what a file needs ----

  /** Blocks a file of `n` logical blocks owns, its indirect block included. */
  function Total(n: nat): nat {
    if n > DIRECT then n + 1 else n
  }

  /** Blocks a file of `m` logical blocks lacks to hold `n`. */
  function Extra(m: nat, n: nat): nat {
    if n > m then Total(n) - Total(m) else 0
  }

  // ---- what a directory needs ----

  /** One of the directory's own blocks has an unused entry. */
  ghost predicate Slack(v: Vol, d: nat)
    requires d < MAX_INODES
  {
    exists b, s | 0 <= b < DIRECT && 0 <= s < DIRENTS_PER_BLOCK :: OpenSlot(v, d, b, s)
  }

  predicate OpenSlot(v: Vol, d: nat, b: nat, s: nat)
    requires d < MAX_INODES && b < DIRECT && s < DIRENTS_PER_BLOCK
  {
    v.inodes[d].blocks[b] != 0 && Ent(v, d, b, s).used == 0
  }

  /** Blocks an entry added to directory `d` takes. */
  ghost function Growth(v: Vol, d: nat): nat
    requires d < MAX_INODES
  {
    if Slack(v, d) then 0 else 1
  }

  lemma BehindMissing(x: Inode, b: nat, c: nat)
    requires DirShape(x) && b <= c < DIRECT && x.blocks[b] == 0
    ensures x.blocks[c] == 0
  {
    if b < c {
      BehindMissing(x, b, c - 1);
    }
  }

  function FirstZero(x: Inode, b: nat): (r: nat)
    requires b <= DIRECT
    ensures b <= r <= DIRECT && (forall a | b <= a < r :: x.blocks[a] != 0) && (r < DIRECT ==> x.blocks[r] == 0)
    decreases DIRECT - b
  {
    if b == DIRECT || x.blocks[b] == 0 then b else FirstZero(x, b + 1)
  }

  /** Blocks a directory has: they come first in its direct slots. */
  function Width(x: Inode): (r: nat)
    ensures r <= DIRECT
  {
    FirstZero(x, 0)
  }

  lemma WidthIs(x: Inode, b: nat)
    requires b <= DIRECT && (forall a | 0 <= a < b :: x.blocks[a] != 0) && (b < DIRECT ==> x.blocks[b] == 0)
    ensures Width(x) == b
  {
  }

  lemma HasTo(x: Inode, b: nat)
    requires DirShape(x) && b < DIRECT
    ensures x.blocks[b] != 0 <==> b < Width(x)
  {
    if Width(x) <= b {
      BehindMissing(x, Width(x), b);
    }
  }

  /**
   * `w` is `v` after directory `d` has grown by `n` blocks, none or one: no other inode has
   * changed, and without growth no inode and no mark; with it, that many blocks are taken and
   * the bitmap is saved.
   */
  ghost predicate Grew(v: Vol, w: Vol, d: nat, n: nat)
    requires d < MAX_INODES
  {
    && w.start == v.start && |w.data| == |v.data|
    && (forall i | 0 <= i < MAX_INODES && i != d :: w.inodes[i] == v.inodes[i])
    && Width(w.inodes[d]) == Width(v.inodes[d]) + n && Free(w) + n == Free(v) && (forall y | Bit(v, y) :: Bit(w, y))
    && if n == 0 then w.inodes == v.inodes && w.bits == v.bits && w.saved == v.saved else w.saved == w.bits
  }

  /** An added entry takes a free block exactly when the directory has no slack. */
  lemma AddedGrows(v: Vol, w: Vol, d: nat, b: nat, s: nat, e: Dirent)
    requires Added(v, w, d, b, s, e) && DirShape(v.inodes[d])
    ensures Grew(v, w, d, Growth(v, d))
  {
    if v.inodes[d].blocks[b] != 0 {
      assert OpenSlot(v, d, b, s);
    } else {
      hide DirentAt, PutDirent, NO_DIRENT, Width, Ent;
      NoSlackBehind(v, d, b);
      AddedBlock(v, w, d, b, s, e);
    }
  }

  lemma AddedBlock(v: Vol, w: Vol, d: nat, b: nat, s: nat, e: Dirent)
    requires Added(v, w, d, b, s, e) && DirShape(v.inodes[d]) && v.inodes[d].blocks[b] == 0
    ensures Grew(v, w, d, 1)
  {
    hide DirentAt, PutDirent, NO_DIRENT, Width;
    var nb := w.inodes[d].blocks[b];
    FreeTaken(v.bits, nb - v.start);
    forall a | 0 <= a < b
      ensures v.inodes[d].blocks[a] != 0
    {
      assert Ent(v, d, a, 0).used != 0;
      NoEntryUnused();
    }
    hide Ent;
    WidthIs(v.inodes[d], b);
    if b + 1 < DIRECT {
      BehindMissing(v.inodes[d], b, b + 1);
    }
    WidthIs(w.inodes[d], b + 1);
  }

  lemma NoEntryUnused()
    ensures NO_DIRENT.used == 0
  {
  }

  lemma NoSlackBehind(v: Vol, d: nat, b: nat)
    requires d < MAX_INODES && b < DIRECT && DirShape(v.inodes[d]) && FullTo(v, d, b) && v.inodes[d].blocks[b] == 0
    ensures !Slack(v, d)
  {
    hide Ent;
    forall c, t | 0 <= c < DIRECT && 0 <= t < DIRENTS_PER_BLOCK
      ensures !OpenSlot(v, d, c, t)
    {
      if c >= b {
        BehindMissing(v.inodes[d], b, c);
      }
    }
  }

  lemma {:induction false} FirstMissing(x: Inode, c: nat) returns (b: nat)
    requires c <= DIRECT && forall a | 0 <= a < c :: x.blocks[a] != 0
    ensures b <= DIRECT && (forall a | 0 <= a < b :: x.blocks[a] != 0) && (b < DIRECT ==> x.blocks[b] == 0)
    decreases DIRECT - c
  {
    if c == DIRECT || x.blocks[c] == 0 {
      b := c;
    } else {
      b := FirstMissing(x, c + 1);
    }
  }

  /** A directory without slack has no room once no block is free. */
  lemma NoSlackNoRoom(v: Vol, d: nat)
    requires d < MAX_INODES && !Slack(v, d) && AllSet(v.bits)
    ensures NoRoom(v, d)
  {
    hide Ent;
    var b := FirstMissing(v.inodes[d], 0);
    forall c, t | 0 <= c < b && 0 <= t < DIRENTS_PER_BLOCK
      ensures Ent(v, d, c, t).used != 0
    {
      assert !OpenSlot(v, d, c, t);
    }
    assert FullTo(v, d, b);
  }

  lemma NoRoomNoSlack(v: Vol, d: nat)
    requires d < MAX_INODES && DirShape(v.inodes[d]) && NoRoom(v, d)
    ensures !Slack(v, d)
  {
    hide Ent, OpenSlot;
    var b :| 0 <= b <= DIRECT && FullTo(v, d, b) && (b == DIRECT || (v.inodes[d].blocks[b] == 0 && AllSet(v.bits)));
    if b < DIRECT {
      NoSlackBehind(v, d, b);
    } else {
      FullNoSlack(v, d);
    }
  }

  lemma FullNoSlack(v: Vol, d: nat)
    requires d < MAX_INODES && FullTo(v, d, DIRECT)
    ensures !Slack(v, d)
  {
    hide Ent;
  }
}
