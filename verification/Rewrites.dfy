/** The volume after a file has been rewritten: what became of its blocks, and that nothing else moved. */
module Rewrites {
  import opened Bytes
  import opened Layout
  import opened Volume
  import opened Frames
  import opened Drafts
  import opened Trees

  /** The pointer that stays in slot `k` of a file of `n` blocks. */
  function FinalPtr(v: Vol, i: nat, w: Draft, n: nat, k: nat): u32
    requires i < MAX_INODES && k < SLOTS && |w.ptrs| == INDIRECT
  {
    if Uses(n, k) then DPtr(v, i, w, k) else 0
  }

  ghost predicate Dropped(v: Vol, i: nat, w: Draft, n: nat, y: nat)
    requires i < MAX_INODES && |w.ptrs| == INDIRECT
  {
    exists k | 0 <= k < SLOTS && !Uses(n, k) :: DPtr(v, i, w, k) == y
  }

  /** All blocks of the draft are filled. */
  ghost predicate Complete(v: Vol, u: Vol, i: nat, w: Draft, data: seq<byte>) {
    Progress(v, u, i, w, data, BlocksFor(|data|))
  }

  /** `z` is `v` with file `i` rewritten: its inode and indirect block hold the final pointers, the bitmap has
      gained the draft's blocks and lost the dropped ones and is saved, the file's blocks hold the new contents. */
  ghost predicate Rewritten(v: Vol, z: Vol, i: nat, w: Draft, data: seq<byte>)
    requires i < MAX_INODES && |w.ptrs| == INDIRECT && |data| <= MAX_FILE_SIZE
  {
    var n := BlocksFor(|data|);
    && z.start == v.start && |z.data| == |v.data| && z.saved == z.bits
    && (forall j | 0 <= j < MAX_INODES && j != i :: z.inodes[j] == v.inodes[j])
    && z.inodes[i].kind == FILE && z.inodes[i].size == |data|
    && (forall k | 0 <= k < SLOTS :: Ptr(z, i, k) == FinalPtr(v, i, w, n, k))
    && (forall y | InData(v, y) :: Bit(z, y) <==> (Bit(v, y) || DraftOwns(v, i, w, y)) && !Dropped(v, i, w, n, y))
    && (forall c | 0 <= c < n :: BlockAt(z, DPtr(v, i, w, FileSlot(c))) == Chunk(data, c))
    && (forall y | InData(v, y) && !DraftOwns(v, i, w, y) :: BlockAt(z, y) == BlockAt(v, y))
  }

  /** A block of another inode is none of the draft's. */
  lemma OthersApart(v: Vol, u: Vol, i: nat, w: Draft, j: nat, k: nat)
    requires Drafted(v, u, i, w) && j < MAX_INODES && j != i && k < SLOTS && Ptr(v, j, k) != 0
    ensures InData(v, Ptr(v, j, k)) && Bit(v, Ptr(v, j, k)) && !DraftOwns(v, i, w, Ptr(v, j, k))
  {
    forall l | 0 <= l < SLOTS
      ensures DPtr(v, i, w, l) != Ptr(v, j, k)
    {
      assert OldOrFresh(v, i, w, l);
    }
  }

  lemma RewrittenKeeps(v: Vol, u: Vol, z: Vol, i: nat, w: Draft, data: seq<byte>, j: nat)
    requires Complete(v, u, i, w, data) && Rewritten(v, z, i, w, data) && j < MAX_INODES && j != i
    ensures Keeps(v, z, j)
  {
    hide Filled, Chunk;
    forall k | 0 <= k < SLOTS && Ptr(v, j, k) != 0
      ensures BlockAt(z, Ptr(v, j, k)) == BlockAt(v, Ptr(v, j, k))
    {
      OthersApart(v, u, i, w, j, k);
    }
  }

  lemma RewrittenShape(v: Vol, u: Vol, z: Vol, i: nat, w: Draft, data: seq<byte>)
    requires Complete(v, u, i, w, data) && Rewritten(v, z, i, w, data)
    ensures Shape(z, i)
  {
    hide Filled, Chunk;
    var n := BlocksFor(|data|);
    forall k | 0 <= k < SLOTS
      ensures Ptr(z, i, k) != 0 <==> Uses(n, k)
    {
      assert DPtr(v, i, w, k) != 0 <==> Ptr(v, i, k) != 0 || Uses(n, k);
    }
  }

  /** Every pointer the file keeps is marked, in memory and on disk. */
  lemma RewrittenBacked(v: Vol, u: Vol, z: Vol, i: nat, w: Draft, data: seq<byte>, k: nat)
    requires Complete(v, u, i, w, data) && Rewritten(v, z, i, w, data) && k < SLOTS && Ptr(z, i, k) != 0
    ensures Bit(z, Ptr(z, i, k)) && SavedBit(z, Ptr(z, i, k))
    ensures OwnedBy(v, i, Ptr(z, i, k)) || !Bit(v, Ptr(z, i, k))
  {
    hide Filled, Chunk, Uses;
    var y := DPtr(v, i, w, k);
    assert Ptr(z, i, k) == y;
    assert OldOrFresh(v, i, w, k);
    assert y == Ptr(v, i, k) || !Bit(v, y);
    DraftInData(v, u, i, w, k);
    assert DraftOwns(v, i, w, y);
    assert !Dropped(v, i, w, BlocksFor(|data|), y);
  }

  lemma DroppedIsOwn(v: Vol, i: nat, w: Draft, n: nat, y: nat)
    requires i < MAX_INODES && |w.ptrs| == INDIRECT
    ensures Dropped(v, i, w, n, y) ==> DraftOwns(v, i, w, y)
  {
    hide DPtr, Uses;
    if Dropped(v, i, w, n, y) {
      var l :| 0 <= l < SLOTS && !Uses(n, l) && DPtr(v, i, w, l) == y;
      assert DraftOwns(v, i, w, y);
    }
  }

  lemma OthersBacked(v: Vol, u: Vol, z: Vol, i: nat, w: Draft, data: seq<byte>, j: nat, k: nat)
    requires Complete(v, u, i, w, data) && Rewritten(v, z, i, w, data) && j < MAX_INODES && j != i && k < SLOTS &&
      Ptr(v, j, k) != 0
    ensures Bit(z, Ptr(v, j, k)) && SavedBit(z, Ptr(v, j, k))
  {
    hide Filled, Chunk, Uses;
    var y := Ptr(v, j, k);
    OthersApart(v, u, i, w, j, k);
    DroppedIsOwn(v, i, w, BlocksFor(|data|), y);
  }

  lemma RewrittenBlockInv(v: Vol, u: Vol, z: Vol, i: nat, w: Draft, data: seq<byte>)
    requires Complete(v, u, i, w, data) && Rewritten(v, z, i, w, data)
    ensures BlockInv(z)
  {
    assert BlockInv(v);
    RewrittenShape(v, u, z, i, w, data);
    forall j | 0 <= j < MAX_INODES && j != i
      ensures Keeps(v, z, j)
    {
      RewrittenKeeps(v, u, z, i, w, data, j);
    }
    forall k | 0 <= k < SLOTS && Ptr(z, i, k) != 0
      ensures Bit(z, Ptr(z, i, k)) && SavedBit(z, Ptr(z, i, k))
      ensures OwnedBy(v, i, Ptr(z, i, k)) || !Bit(v, Ptr(z, i, k))
    {
      RewrittenBacked(v, u, z, i, w, data, k);
    }
    forall j, k | 0 <= j < MAX_INODES && j != i && 0 <= k < SLOTS && Ptr(v, j, k) != 0
      ensures Bit(z, Ptr(v, j, k)) && SavedBit(z, Ptr(v, j, k))
    {
      OthersBacked(v, u, z, i, w, data, j, k);
    }
    RewrittenDistinct(v, u, z, i, w, data);
    hide Complete, Rewritten, BlockInv, Keeps, Shape, OwnedBy, Ptr, Bit, SavedBit;
    BlockInvStep(v, z, i);
  }

  lemma RewrittenDistinct(v: Vol, u: Vol, z: Vol, i: nat, w: Draft, data: seq<byte>)
    requires Complete(v, u, i, w, data) && Rewritten(v, z, i, w, data)
    ensures forall k, l | 0 <= k < SLOTS && 0 <= l < SLOTS && k != l ::
      Ptr(z, i, k) == 0 || Ptr(z, i, k) != Ptr(z, i, l)
  {
    hide Filled, Chunk, Uses;
    forall k, l | 0 <= k < SLOTS && 0 <= l < SLOTS && k != l && Ptr(z, i, k) != 0
      ensures Ptr(z, i, k) != Ptr(z, i, l)
    {
      assert Ptr(z, i, k) == FinalPtr(v, i, w, BlocksFor(|data|), k) == DPtr(v, i, w, k);
      assert Ptr(z, i, l) == FinalPtr(v, i, w, BlocksFor(|data|), l);
    }
  }

  /** The write-read round trip: the rewritten file holds exactly the data written. */
  lemma RewrittenContent(v: Vol, u: Vol, z: Vol, i: nat, w: Draft, data: seq<byte>)
    requires Complete(v, u, i, w, data) && Rewritten(v, z, i, w, data)
    ensures Content(z, i) == data
  {
    hide Filled;
    var n := BlocksFor(|data|);
    forall j | 0 <= j < |data|
      ensures Content(z, i)[j] == data[j]
    {
      var c := j / BLOCK_SIZE;
      assert Uses(n, FileSlot(c));
      assert Ptr(z, i, FileSlot(c)) == DPtr(v, i, w, FileSlot(c));
      assert BlockAt(z, DPtr(v, i, w, FileSlot(c))) == Chunk(data, c);
      ChunkAt(data, j);
    }
  }

  lemma ChunkAt(data: seq<byte>, j: nat)
    requires j < |data|
    ensures Chunk(data, j / BLOCK_SIZE)[j % BLOCK_SIZE] == data[j]
  {
  }

  /** Blocks gained were free and are now the file's, blocks given up were the file's and are now free. */
  lemma RewrittenLeak(v: Vol, u: Vol, z: Vol, i: nat, w: Draft, data: seq<byte>)
    requires Complete(v, u, i, w, data) && Rewritten(v, z, i, w, data)
    ensures Leaked(z) == Leaked(v)
  {
    forall j, k | 0 <= j < MAX_INODES && j != i && 0 <= k < SLOTS
      ensures Ptr(z, j, k) == Ptr(v, j, k)
    {
      RewrittenKeeps(v, u, z, i, w, data, j);
      KeepsPtr(v, z, j, k);
    }
    forall y
      ensures Bit(z, y) && !Bit(v, y) ==> OwnedBy(z, i, y)
      ensures Bit(v, y) && !Bit(z, y) ==> OwnedBy(v, i, y)
      ensures y != 0 && OwnedBy(z, i, y) ==> OwnedBy(v, i, y) || !Bit(v, y)
      ensures y != 0 && OwnedBy(v, i, y) && !OwnedBy(z, i, y) ==> !Bit(z, y)
    {
      if Bit(z, y) && !Bit(v, y) {
        GainedIsOwned(v, u, z, i, w, data, y);
      }
      if Bit(v, y) && !Bit(z, y) {
        LostWasOwned(v, u, z, i, w, data, y);
      }
      if y != 0 && OwnedBy(z, i, y) {
        var k :| 0 <= k < SLOTS && Ptr(z, i, k) == y;
        RewrittenBacked(v, u, z, i, w, data, k);
      }
      if y != 0 && OwnedBy(v, i, y) && !OwnedBy(z, i, y) {
        GivenUpIsClear(v, u, z, i, w, data, y);
      }
    }
    hide Complete, Rewritten, OwnedBy, Ptr, Bit;
    LeakStep(v, z, i);
  }

  lemma GainedIsOwned(v: Vol, u: Vol, z: Vol, i: nat, w: Draft, data: seq<byte>, y: nat)
    requires Complete(v, u, i, w, data) && Rewritten(v, z, i, w, data) && Bit(z, y) && !Bit(v, y)
    ensures OwnedBy(z, i, y)
  {
    hide Filled, Chunk, Uses, DPtr;
    var k :| 0 <= k < SLOTS && DPtr(v, i, w, k) == y;
    assert !Dropped(v, i, w, BlocksFor(|data|), y);
    assert Ptr(z, i, k) == FinalPtr(v, i, w, BlocksFor(|data|), k);
  }

  lemma LostWasOwned(v: Vol, u: Vol, z: Vol, i: nat, w: Draft, data: seq<byte>, y: nat)
    requires Complete(v, u, i, w, data) && Rewritten(v, z, i, w, data) && Bit(v, y) && !Bit(z, y)
    ensures OwnedBy(v, i, y)
  {
    hide Filled, Chunk, Uses, DPtr;
    var k :| 0 <= k < SLOTS && !Uses(BlocksFor(|data|), k) && DPtr(v, i, w, k) == y;
    assert OldOrFresh(v, i, w, k);
  }

  lemma GivenUpIsClear(v: Vol, u: Vol, z: Vol, i: nat, w: Draft, data: seq<byte>, y: nat)
    requires Complete(v, u, i, w, data) && Rewritten(v, z, i, w, data) && y != 0 && OwnedBy(v, i, y) &&
      !OwnedBy(z, i, y)
    ensures !Bit(z, y)
  {
    hide Filled, Chunk, Uses, DPtr;
    var k :| 0 <= k < SLOTS && Ptr(v, i, k) == y;
    assert OldOrFresh(v, i, w, k);
    assert Ptr(z, i, k) == FinalPtr(v, i, w, BlocksFor(|data|), k);
    assert Dropped(v, i, w, BlocksFor(|data|), y);
  }

  /** A rewrite changes what one path holds and nothing else. */
  lemma RewrittenTree(v: Vol, u: Vol, z: Vol, g: Plan, p: Path, i: nat, w: Draft, data: seq<byte>)
    requires Inv(v, g) && p in g.home && g.home[p].ino == i && Complete(v, u, i, w, data) && Rewritten(v, z, i, w, data)
    ensures Inv(z, g) && Tree(z, g) == Tree(v, g)[p := File(data)]
  {
    RewrittenBlockInv(v, u, z, i, w, data);
    RewrittenTreeInv(v, u, z, g, i, w, data);
    RewrittenSelf(v, u, z, g, p, i, w, data);
    forall q | q in g.home && q != p
      ensures NodeOf(z, g, q) == NodeOf(v, g, q)
    {
      RewrittenOther(v, u, z, g, p, q, w, data);
    }
    hide Complete, Rewritten, Inv, NodeOf;
    OneNode(v, g, z, g, p, File(data));
  }

  lemma RewrittenSelf(v: Vol, u: Vol, z: Vol, g: Plan, p: Path, i: nat, w: Draft, data: seq<byte>)
    requires Inv(v, g) && Inv(z, g) && p in g.home && g.home[p].ino == i && Complete(v, u, i, w, data) &&
      Rewritten(v, z, i, w, data)
    ensures NodeOf(z, g, p) == File(data)
  {
    RewrittenContent(v, u, z, i, w, data);
    assert Kind(z, i) == FILE;
  }

  lemma RewrittenOther(v: Vol, u: Vol, z: Vol, g: Plan, p: Path, q: Path, w: Draft, data: seq<byte>)
    requires Inv(v, g) && Inv(z, g) && p in g.home && q in g.home && q != p
    requires Complete(v, u, g.home[p].ino, w, data) && Rewritten(v, z, g.home[p].ino, w, data)
    ensures NodeOf(z, g, q) == NodeOf(v, g, q)
  {
    assert HomeOk(v, g, p) && HomeOk(v, g, q) && Shape(v, g.home[q].ino);
    RewrittenKeeps(v, u, z, g.home[p].ino, w, data, g.home[q].ino);
    RewrittenNode(v, z, g.home[q].ino);
  }

  lemma RewrittenNode(v: Vol, z: Vol, j: nat)
    requires j < MAX_INODES && Keeps(v, z, j) && (Kind(v, j) == FILE ==> v.inodes[j].size <= MAX_FILE_SIZE)
    ensures NodeAt(z, j) == NodeAt(v, j)
  {
    if Kind(v, j) == FILE {
      KeepsContent(v, z, j);
    }
  }

  lemma RewrittenTreeInv(v: Vol, u: Vol, z: Vol, g: Plan, i: nat, w: Draft, data: seq<byte>)
    requires TreeInv(v, g) && Complete(v, u, i, w, data) && Rewritten(v, z, i, w, data)
    ensures TreeInv(z, g)
  {
    hide TreeInv;
    assert Kind(v, i) == FILE;
    forall j, b, s | 0 <= j < MAX_INODES && 0 <= b < DIRECT && 0 <= s < DIRENTS_PER_BLOCK && Kind(v, j) == DIR
      ensures Ent(z, j, b, s) == Ent(v, j, b, s)
    {
      RewrittenKeeps(v, u, z, i, w, data, j);
      KeepsEnt(v, z, j, b, s);
    }
    SameEntries(v, z, g);
  }
}
