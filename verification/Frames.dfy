/** What a single write to the volume leaves unchanged, and why the block invariant survives it. */
module Frames {
  import opened Layout
  import opened Volume

  /** Inode `i` and every block it owns are the same in both volumes. */
  ghost predicate Keeps(v: Vol, w: Vol, i: nat)
    requires i < MAX_INODES
  {
    && w.start == v.start && |w.data| == |v.data| && w.inodes[i] == v.inodes[i]
    && forall k | 0 <= k < SLOTS && Ptr(v, i, k) != 0 :: BlockAt(w, Ptr(v, i, k)) == BlockAt(v, Ptr(v, i, k))
  }

  lemma KeepsPtr(v: Vol, w: Vol, i: nat, k: nat)
    requires i < MAX_INODES && k < SLOTS && Keeps(v, w, i)
    ensures Ptr(w, i, k) == Ptr(v, i, k)
  {
    assert Ptr(v, i, DIRECT) == v.inodes[i].indirect;
  }

  lemma KeepsEnt(v: Vol, w: Vol, i: nat, b: nat, s: nat)
    requires i < MAX_INODES && b < DIRECT && s < DIRENTS_PER_BLOCK && Keeps(v, w, i)
    ensures Ent(w, i, b, s) == Ent(v, i, b, s)
  {
    assert Ptr(v, i, b) == v.inodes[i].blocks[b];
  }

  lemma KeepsContent(v: Vol, w: Vol, i: nat)
    requires i < MAX_INODES && Keeps(v, w, i) && v.inodes[i].size <= MAX_FILE_SIZE
    ensures Content(w, i) == Content(v, i)
  {
    forall j | 0 <= j < v.inodes[i].size
      ensures Content(w, i)[j] == Content(v, i)[j]
    {
      KeepsPtr(v, w, i, FileSlot(j / BLOCK_SIZE));
    }
  }

  lemma KeepsShape(v: Vol, w: Vol, i: nat)
    requires i < MAX_INODES && Keeps(v, w, i)
    ensures Shape(w, i) == Shape(v, i)
  {
    forall k | 0 <= k < SLOTS
      ensures Ptr(w, i, k) == Ptr(v, i, k)
    {
      KeepsPtr(v, w, i, k);
    }
  }

  lemma SetBlockKeeps(v: Vol, y: nat, x: Block, i: nat)
    requires i < MAX_INODES
    requires y == 0 || forall k | 0 <= k < SLOTS :: Ptr(v, i, k) != y
    ensures Keeps(v, SetBlock(v, y, x), i)
  {
  }

  /** If every inode but `c` is kept and `c` owns blocks nobody else had, the block invariant carries over. */
  lemma BlockInvStep(v: Vol, w: Vol, c: nat)
    requires BlockInv(v) && c < MAX_INODES && w.start == v.start && |w.data| == |v.data|
    requires forall i | 0 <= i < MAX_INODES && i != c :: Keeps(v, w, i)
    requires Shape(w, c)
    requires forall k, l | 0 <= k < SLOTS && 0 <= l < SLOTS && k != l ::
      Ptr(w, c, k) == 0 || Ptr(w, c, k) != Ptr(w, c, l)
    requires forall k | 0 <= k < SLOTS && Ptr(w, c, k) != 0 :: OwnedBy(v, c, Ptr(w, c, k)) || !Bit(v, Ptr(w, c, k))
    requires forall k | 0 <= k < SLOTS && Ptr(w, c, k) != 0 :: Bit(w, Ptr(w, c, k)) && SavedBit(w, Ptr(w, c, k))
    requires forall i, k | 0 <= i < MAX_INODES && i != c && 0 <= k < SLOTS && Ptr(v, i, k) != 0 ::
               Bit(w, Ptr(v, i, k)) && SavedBit(w, Ptr(v, i, k))
    ensures BlockInv(w)
  {
    forall i, k | 0 <= i < MAX_INODES && i != c && 0 <= k < SLOTS
      ensures Ptr(w, i, k) == Ptr(v, i, k)
    {
      KeepsPtr(v, w, i, k);
    }
    forall i | 0 <= i < MAX_INODES && i != c
      ensures Shape(w, i)
    {
      KeepsShape(v, w, i);
    }
    DisjointStep(v, w, c);
  }

  ghost predicate OwnedBy(v: Vol, i: nat, b: nat)
    requires i < MAX_INODES
  {
    exists k | 0 <= k < SLOTS :: Ptr(v, i, k) == b
  }

  lemma DisjointStep(v: Vol, w: Vol, c: nat)
    requires Disjoint(v) && Backed(v) && c < MAX_INODES
    requires forall i, k | 0 <= i < MAX_INODES && i != c && 0 <= k < SLOTS :: Ptr(w, i, k) == Ptr(v, i, k)
    requires forall k, l | 0 <= k < SLOTS && 0 <= l < SLOTS && k != l ::
      Ptr(w, c, k) == 0 || Ptr(w, c, k) != Ptr(w, c, l)
    requires forall k | 0 <= k < SLOTS && Ptr(w, c, k) != 0 :: OwnedBy(v, c, Ptr(w, c, k)) || !Bit(v, Ptr(w, c, k))
    ensures Disjoint(w)
  {
    forall k, j, l | 0 <= k < SLOTS && 0 <= j < MAX_INODES && 0 <= l < SLOTS && j != c && Ptr(w, c, k) != 0
      ensures Ptr(w, c, k) != Ptr(w, j, l)
    {
      assert Ptr(w, j, l) == Ptr(v, j, l);
      if OwnedBy(v, c, Ptr(w, c, k)) {
        var m :| 0 <= m < SLOTS && Ptr(v, c, m) == Ptr(w, c, k);
      }
    }
    forall i, k, j, l | 0 <= i < MAX_INODES && 0 <= k < SLOTS && 0 <= j < MAX_INODES && 0 <= l < SLOTS
      ensures Ptr(w, i, k) != 0 && Ptr(w, i, k) == Ptr(w, j, l) ==> i == j && k == l
    {
      if i != c && j != c {
        assert Ptr(w, i, k) == Ptr(v, i, k) && Ptr(w, j, l) == Ptr(v, j, l);
      }
    }
  }

  /** Blocks that inode `c` gains were clear and get marked, blocks it gives up get cleared: nothing leaks. */
  lemma LeakStep(v: Vol, w: Vol, c: nat)
    requires c < MAX_INODES && w.start == v.start && |w.data| == |v.data|
    requires forall i, k | 0 <= i < MAX_INODES && i != c && 0 <= k < SLOTS :: Ptr(w, i, k) == Ptr(v, i, k)
    requires forall b | Bit(w, b) && !Bit(v, b) :: OwnedBy(w, c, b)
    requires forall b | Bit(v, b) && !Bit(w, b) :: OwnedBy(v, c, b)
    requires forall b | b != 0 && OwnedBy(w, c, b) :: OwnedBy(v, c, b) || !Bit(v, b)
    requires forall b | b != 0 && OwnedBy(v, c, b) && !OwnedBy(w, c, b) :: !Bit(w, b)
    ensures Leaked(w) == Leaked(v)
  {
    forall b | v.start <= b < v.start + |v.data|
      ensures b in Leaked(w) <==> b in Leaked(v)
    {
      OwnedSplit(v, c, b);
      OwnedSplit(w, c, b);
      assert OwnedByOther(w, c, b) == OwnedByOther(v, c, b);
    }
  }

  ghost predicate OwnedByOther(v: Vol, c: nat, b: nat) {
    exists i, k | 0 <= i < MAX_INODES && i != c && 0 <= k < SLOTS :: Ptr(v, i, k) == b
  }

  lemma OwnedSplit(v: Vol, c: nat, b: nat)
    requires c < MAX_INODES
    ensures Owned(v, b) <==> OwnedBy(v, c, b) || OwnedByOther(v, c, b)
  {
    if Owned(v, b) {
      var i, k :| 0 <= i < MAX_INODES && 0 <= k < SLOTS && Ptr(v, i, k) == b;
      assert OwnedBy(v, c, b) || OwnedByOther(v, c, b);
    }
    if OwnedBy(v, c, b) {
      var k :| 0 <= k < SLOTS && Ptr(v, c, k) == b;
      assert Owned(v, b);
    }
    if OwnedByOther(v, c, b) {
      var i, k :| 0 <= i < MAX_INODES && i != c && 0 <= k < SLOTS && Ptr(v, i, k) == b;
      assert Owned(v, b);
    }
  }
}
