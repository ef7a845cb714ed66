/** A write that runs out of space: its inode and indirect block on disk are untouched, no other file has changed;
    the only damage is bits taken for nothing and an overwritten prefix of the file's own blocks. */
module Tearing {
  import opened Bytes
  import opened Layout
  import opened Volume
  import opened Frames
  import opened Drafts
  import opened Rewrites
  import opened Writing
  import opened Trees
  import opened Store
  import opened Space

  /** The old contents with the first `b` blocks replaced by those of `data`. */
  function Overlay(old_data: seq<byte>, data: seq<byte>, b: nat): (r: seq<byte>)
    requires b <= BlocksFor(|data|)
    ensures |r| == |old_data|
  {
    seq(|old_data|, j requires 0 <= j < |old_data| =>
      if j / BLOCK_SIZE < b then Chunk(data, j / BLOCK_SIZE)[j % BLOCK_SIZE] else old_data[j])
  }

  /** A write that fails needed more blocks than the file had, so it has replaced all of the old contents. */
  lemma OverlayAll(old_data: seq<byte>, data: seq<byte>, b: nat)
    requires BlocksFor(|old_data|) <= b < BlocksFor(|data|)
    ensures |old_data| <= |data| && Overlay(old_data, data, b) == data[..|old_data|]
  {
    forall j | 0 <= j < |old_data|
      ensures Overlay(old_data, data, b)[j] == data[j]
    {
      assert j / BLOCK_SIZE < b;
      assert BLOCK_SIZE * (j / BLOCK_SIZE) + j % BLOCK_SIZE == j;
    }
  }

  ghost predicate Torn(v: Vol, u0: Vol, u: Vol, i: nat, w: Draft, data: seq<byte>, b: nat) {
    Progress(v, u0, i, w, data, b) && MoreBits(u0, u)
  }

  lemma TornKeeps(v: Vol, u0: Vol, u: Vol, i: nat, w: Draft, data: seq<byte>, b: nat, j: nat)
    requires Torn(v, u0, u, i, w, data, b) && j < MAX_INODES && j != i
    ensures Keeps(v, u, j)
  {
    hide Chunk, Written, DPtr, DraftOwns, OldOrFresh, Uses, Ptr;
    forall k | 0 <= k < SLOTS && Ptr(v, j, k) != 0
      ensures BlockAt(u, Ptr(v, j, k)) == BlockAt(v, Ptr(v, j, k))
    {
      OthersApart(v, u0, i, w, j, k);
      NotOwnedNotWritten(v, i, w, b, Ptr(v, j, k));
    }
  }

  /** The indirect block on disk is as it was, so the file's own pointers are too. */
  lemma TornPtr(v: Vol, u0: Vol, u: Vol, i: nat, w: Draft, data: seq<byte>, b: nat, k: nat)
    requires Torn(v, u0, u, i, w, data, b) && k < SLOTS
    ensures Ptr(u, i, k) == Ptr(v, i, k)
  {
    hide Chunk;
    var y := v.inodes[i].indirect;
    if y != 0 {
      assert Ptr(v, i, DIRECT) == y;
      assert OldOrFresh(v, i, w, DIRECT);
      assert DPtr(v, i, w, DIRECT) == y;
      DraftInData(v, u0, i, w, DIRECT);
      forall c | 0 <= c < b
        ensures DPtr(v, i, w, FileSlot(c)) != y
      {
        assert FileSlot(c) != DIRECT;
      }
      assert !Written(v, i, w, b, y);
      assert BlockAt(u, y) == BlockAt(v, y);
    }
  }

  lemma TornBlock(v: Vol, u0: Vol, u: Vol, i: nat, w: Draft, data: seq<byte>, b: nat, c: nat)
    requires Torn(v, u0, u, i, w, data, b) && c < DIRECT + INDIRECT && Ptr(v, i, FileSlot(c)) != 0
    ensures BlockAt(u, Ptr(v, i, FileSlot(c))) == if c < b then Chunk(data, c) else BlockAt(v, Ptr(v, i, FileSlot(c)))
  {
    hide Chunk, Written, DPtr, DraftOwns, Uses;
    var y := Ptr(v, i, FileSlot(c));
    assert OldOrFresh(v, i, w, FileSlot(c));
    assert DPtr(v, i, w, FileSlot(c)) == y;
    DraftInData(v, u0, i, w, FileSlot(c));
    if c >= b {
      NotYetWritten(v, u0, i, w, b, c);
    }
  }

  lemma NotYetWritten(v: Vol, u0: Vol, i: nat, w: Draft, b: nat, c: nat)
    requires Drafted(v, u0, i, w) && b <= c < DIRECT + INDIRECT && DPtr(v, i, w, FileSlot(c)) != 0
    ensures !Written(v, i, w, b, DPtr(v, i, w, FileSlot(c)))
  {
    hide OldOrFresh, DraftOwns, DPtr;
    forall a | 0 <= a < b
      ensures DPtr(v, i, w, FileSlot(a)) != DPtr(v, i, w, FileSlot(c))
    {
      assert FileSlot(a) != FileSlot(c);
    }
  }

  lemma TornContent(v: Vol, u0: Vol, u: Vol, i: nat, w: Draft, data: seq<byte>, b: nat)
    requires Torn(v, u0, u, i, w, data, b)
    ensures i < MAX_INODES && Kind(u, i) == Kind(v, i) == FILE && v.inodes[i].size <= MAX_FILE_SIZE &&
      u.inodes[i].size == v.inodes[i].size
    ensures b <= BlocksFor(|data|) && Content(u, i) == Overlay(Content(v, i), data, b)
  {
    assert Shape(v, i);
    forall j | 0 <= j < v.inodes[i].size
      ensures Content(u, i)[j] == Overlay(Content(v, i), data, b)[j]
    {
      TornByte(v, u0, u, i, w, data, b, j);
    }
  }

  lemma TornByte(v: Vol, u0: Vol, u: Vol, i: nat, w: Draft, data: seq<byte>, b: nat, j: nat)
    requires i < MAX_INODES && Torn(v, u0, u, i, w, data, b) && FileShape(v, i) && j < v.inodes[i].size
    ensures b <= BlocksFor(|data|) && Content(u, i)[j] == Overlay(Content(v, i), data, b)[j]
  {
    hide Progress;
    var c := j / BLOCK_SIZE;
    assert Uses(BlocksFor(v.inodes[i].size), FileSlot(c));
    TornPtr(v, u0, u, i, w, data, b, FileSlot(c));
    TornBlock(v, u0, u, i, w, data, b, c);
    ProgressFacts(v, u0, i, w, data, b);
  }

  /**
   * A failed write keeps every invariant and every inode. The blocks that were free are marked
   * and leak, and the file holds the beginning of the new contents, cut to the old length.
   */
  lemma TornMeaning(v: Vol, u0: Vol, u: Vol, g: Plan, p: Path, i: nat, w: Draft, data: seq<byte>, b: nat)
    requires Inv(v, g) && p in g.home && g.home[p].ino == i && Torn(v, u0, u, i, w, data, b)
    requires AllSet(u.bits) && BlocksFor(v.inodes[i].size) <= b < BlocksFor(|data|)
    ensures Inv(u, g) && u.inodes == v.inodes && u.saved == v.saved && Leaked(u) == Leaked(v) + FreeBlocks(v)
    ensures p in Tree(v, g) && Tree(v, g)[p].File? && |Tree(v, g)[p].bytes| <= |data|
    ensures Tree(u, g) == Tree(v, g)[p := File(data[..|Tree(v, g)[p].bytes|])]
  {
    TornContent(v, u0, u, i, w, data, b);
    TornBlockInv(v, u0, u, i, w, data, b);
    TornTreeInv(v, u0, u, g, i, w, data, b);
    TornSelf(v, u0, u, g, p, i, w, data, b);
    forall q | q in g.home && q != p
      ensures NodeOf(u, g, q) == NodeOf(v, g, q)
    {
      TornNode(v, u0, u, g, p, q, w, data, b);
    }
    hide Torn, Inv, NodeOf;
    OverlayAll(Content(v, i), data, b);
    OneNode(v, g, u, g, p, File(Content(u, i)));
  }

  lemma TornSelf(v: Vol, u0: Vol, u: Vol, g: Plan, p: Path, i: nat, w: Draft, data: seq<byte>, b: nat)
    requires Inv(v, g) && Inv(u, g) && p in g.home && g.home[p].ino == i && Torn(v, u0, u, i, w, data, b)
    requires v.inodes[i].size <= MAX_FILE_SIZE && u.inodes[i].size <= MAX_FILE_SIZE
    ensures u.inodes == v.inodes && u.saved == v.saved
    ensures NodeOf(u, g, p) == File(Content(u, i)) && NodeOf(v, g, p) == File(Content(v, i))
  {
  }

  lemma TornNode(v: Vol, u0: Vol, u: Vol, g: Plan, p: Path, q: Path, w: Draft, data: seq<byte>, b: nat)
    requires Inv(v, g) && Inv(u, g) && p in g.home && q in g.home && q != p && Torn(v, u0, u, g.home[p].ino, w, data, b)
    ensures NodeOf(u, g, q) == NodeOf(v, g, q)
  {
    assert HomeOk(v, g, p) && HomeOk(v, g, q) && Shape(v, g.home[q].ino);
    TornKeeps(v, u0, u, g.home[p].ino, w, data, b, g.home[q].ino);
    RewrittenNode(v, u, g.home[q].ino);
  }

  lemma TornBlockInv(v: Vol, u0: Vol, u: Vol, i: nat, w: Draft, data: seq<byte>, b: nat)
    requires BlockInv(v) && Torn(v, u0, u, i, w, data, b) && AllSet(u.bits)
    ensures BlockInv(u) && Leaked(u) == Leaked(v) + FreeBlocks(v)
  {
    forall j, k | 0 <= j < MAX_INODES && 0 <= k < SLOTS
      ensures Ptr(u, j, k) == Ptr(v, j, k)
    {
      if j == i {
        TornPtr(v, u0, u, i, w, data, b, k);
      } else {
        TornKeeps(v, u0, u, i, w, data, b, j);
        KeepsPtr(v, u, j, k);
      }
    }
    TornBits(v, u0, u, i, w, data, b);
    hide Torn, Ptr;
    MorePointers(v, u);
  }

  lemma TornBits(v: Vol, u0: Vol, u: Vol, i: nat, w: Draft, data: seq<byte>, b: nat)
    requires Torn(v, u0, u, i, w, data, b)
    ensures u.start == v.start && |u.data| == |v.data| && u.inodes == v.inodes && u.saved == v.saved
    ensures forall y | Bit(v, y) :: Bit(u, y)
  {
    hide Filled;
  }

  lemma MorePointers(v: Vol, u: Vol)
    requires BlockInv(v) && u.start == v.start && |u.data| == |v.data| && u.inodes == v.inodes && u.saved == v.saved
    requires forall y | Bit(v, y) :: Bit(u, y)
    requires forall j, k | 0 <= j < MAX_INODES && 0 <= k < SLOTS :: Ptr(u, j, k) == Ptr(v, j, k)
    ensures BlockInv(u) && (AllSet(u.bits) ==> Leaked(u) == Leaked(v) + FreeBlocks(v))
  {
    forall j | 0 <= j < MAX_INODES
      ensures Shape(u, j)
    {
      assert Shape(v, j);
    }
    forall y
      ensures Owned(u, y) == Owned(v, y)
    {
    }
  }

  lemma TornTreeInv(v: Vol, u0: Vol, u: Vol, g: Plan, i: nat, w: Draft, data: seq<byte>, b: nat)
    requires TreeInv(v, g) && Torn(v, u0, u, i, w, data, b)
    ensures TreeInv(u, g)
  {
    TornBits(v, u0, u, i, w, data, b);
    assert Kind(v, i) == FILE;
    hide TreeInv, Torn;
    forall j, c, s | 0 <= j < MAX_INODES && 0 <= c < DIRECT && 0 <= s < DIRENTS_PER_BLOCK && Kind(v, j) == DIR
      ensures Ent(u, j, c, s) == Ent(v, j, c, s)
    {
      TornKeeps(v, u0, u, i, w, data, b, j);
      KeepsEnt(v, u, j, c, s);
    }
    SameEntries(v, u, g);
  }
}
