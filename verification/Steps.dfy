/** The single steps file operations are made of, on values: a fresh inode, a directory growing by a block,
    a directory entry written. Each keeps the block invariant and leaks nothing. */
module Steps {
  import opened Bytes
  import opened Layout
  import opened Volume
  import opened Frames

  // ---- a fresh inode ----

  function FreshInode(kind: byte): Inode {
    Inode(kind, 0, [0, 0, 0, 0, 0, 0, 0, 0, 0, 0], 0)
  }

  lemma FreshPtr(v: Vol, c: nat, kind: byte, k: nat)
    requires c < MAX_INODES && k < SLOTS
    ensures Ptr(SetInode(v, c, FreshInode(kind)), c, k) == 0
  {
  }

  lemma FreshKeepsBlockInv(v: Vol, c: nat, kind: byte)
    requires BlockInv(v) && c < MAX_INODES && Kind(v, c) == FREE && (kind == FILE || kind == DIR)
    ensures BlockInv(SetInode(v, c, FreshInode(kind)))
    ensures Leaked(SetInode(v, c, FreshInode(kind))) == Leaked(v)
  {
    var w := SetInode(v, c, FreshInode(kind));
    forall k | 0 <= k < SLOTS
      ensures Ptr(w, c, k) == 0 && Ptr(v, c, k) == 0
    {
      FreshPtr(v, c, kind, k);
      assert Shape(v, c);
    }
    BlockInvStep(v, w, c);
    LeakStep(v, w, c);
  }

  // ---- a directory grows by one zeroed block ----

  /** Block `nb` becomes block `b` of directory `d`; the bitmap, flushed, becomes the saved one too. */
  function Grown(v: Vol, d: nat, b: nat, nb: u32): Vol
    requires d < MAX_INODES && b < DIRECT && InData(v, nb)
  {
    var x := v.inodes[d];
    var bits := v.bits[nb - v.start := true];
    Vol(v.start, v.inodes[d := Inode(x.kind, x.size, x.blocks[b := nb], x.indirect)],
      v.data[nb - v.start := ZERO_BLOCK], bits, bits)
  }

  predicate CanGrow(v: Vol, d: nat, b: nat, nb: u32)
    requires d < MAX_INODES && b < DIRECT
  {
    && Kind(v, d) == DIR && v.inodes[d].blocks[b] == 0 && (b > 0 ==> v.inodes[d].blocks[b - 1] != 0)
    && InData(v, nb) && !Bit(v, nb)
  }

  lemma GrownKeeps(v: Vol, d: nat, b: nat, nb: u32, i: nat)
    requires BlockInv(v) && d < MAX_INODES && b < DIRECT && CanGrow(v, d, b, nb) && i < MAX_INODES && i != d
    ensures Keeps(v, Grown(v, d, b, nb), i)
  {
  }

  lemma GrownPtr(v: Vol, d: nat, b: nat, nb: u32, k: nat)
    requires BlockInv(v) && d < MAX_INODES && b < DIRECT && CanGrow(v, d, b, nb) && k < SLOTS
    ensures Ptr(Grown(v, d, b, nb), d, k) == if k == b then nb else Ptr(v, d, k)
  {
    assert Shape(v, d);
  }

  lemma GrownKeepsBlockInv(v: Vol, d: nat, b: nat, nb: u32)
    requires BlockInv(v) && d < MAX_INODES && b < DIRECT && CanGrow(v, d, b, nb)
    ensures BlockInv(Grown(v, d, b, nb))
    ensures Leaked(Grown(v, d, b, nb)) == Leaked(v)
  {
    var w := Grown(v, d, b, nb);
    forall k | 0 <= k < SLOTS
      ensures Ptr(w, d, k) == if k == b then nb else Ptr(v, d, k)
    {
      GrownPtr(v, d, b, nb, k);
    }
    forall i | 0 <= i < MAX_INODES && i != d
      ensures Keeps(v, w, i)
    {
      GrownKeeps(v, d, b, nb, i);
    }
    assert Shape(w, d) by {
      assert Shape(v, d);
    }
    GrownLeak(v, w, d, b, nb);
    BlockInvStep(v, w, d);
  }

  lemma GrownLeak(v: Vol, w: Vol, d: nat, b: nat, nb: u32)
    requires BlockInv(v) && d < MAX_INODES && b < DIRECT && CanGrow(v, d, b, nb) && w == Grown(v, d, b, nb)
    requires forall k | 0 <= k < SLOTS :: Ptr(w, d, k) == if k == b then nb else Ptr(v, d, k)
    requires forall i | 0 <= i < MAX_INODES && i != d :: Keeps(v, w, i)
    ensures Leaked(w) == Leaked(v)
  {
    forall i, k | 0 <= i < MAX_INODES && i != d && 0 <= k < SLOTS
      ensures Ptr(w, i, k) == Ptr(v, i, k)
    {
      KeepsPtr(v, w, i, k);
    }
    assert Ptr(w, d, b) == nb;
    forall x | x != 0 && OwnedBy(w, d, x)
      ensures OwnedBy(v, d, x) || !Bit(v, x)
    {
      var k :| 0 <= k < SLOTS && Ptr(w, d, k) == x;
      assert k != b ==> Ptr(v, d, k) == x;
    }
    forall x | x != 0 && OwnedBy(v, d, x)
      ensures OwnedBy(w, d, x)
    {
      var k :| 0 <= k < SLOTS && Ptr(v, d, k) == x;
      assert k != b ==> Ptr(w, d, k) == x;
      assert Ptr(v, d, b) == 0;
    }
    LeakStep(v, w, d);
  }

  /** The new block is empty, so no entry appears. */
  lemma GrownEnt(v: Vol, d: nat, b: nat, nb: u32, i: nat, c: nat, s: nat)
    requires BlockInv(v) && d < MAX_INODES && b < DIRECT && CanGrow(v, d, b, nb)
    requires i < MAX_INODES && c < DIRECT && s < DIRENTS_PER_BLOCK
    ensures Ent(Grown(v, d, b, nb), i, c, s) == Ent(v, i, c, s)
  {
    if i != d {
      GrownKeeps(v, d, b, nb, i);
      KeepsEnt(v, Grown(v, d, b, nb), i, c, s);
    } else if c == b {
      ZeroBlockHasNoDirent(s);
    } else {
      assert Ptr(v, d, c) == v.inodes[d].blocks[c];
    }
  }

  // ---- one directory entry is written ----

  function PutEnt(v: Vol, d: nat, b: nat, s: nat, e: Dirent): Vol
    requires d < MAX_INODES && b < DIRECT && s < DIRENTS_PER_BLOCK
  {
    SetBlock(v, v.inodes[d].blocks[b], PutDirent(BlockAt(v, v.inodes[d].blocks[b]), s, e))
  }

  predicate HasBlock(v: Vol, d: nat, b: nat)
    requires d < MAX_INODES && b < DIRECT
  {
    Kind(v, d) == DIR && v.inodes[d].blocks[b] != 0
  }

  lemma PutEntKeeps(v: Vol, d: nat, b: nat, s: nat, e: Dirent, i: nat)
    requires BlockInv(v) && d < MAX_INODES && b < DIRECT && s < DIRENTS_PER_BLOCK && HasBlock(v, d, b)
    requires i < MAX_INODES && i != d
    ensures Keeps(v, PutEnt(v, d, b, s, e), i)
  {
    var y := v.inodes[d].blocks[b];
    assert Ptr(v, d, b) == y;
    SetBlockKeeps(v, y, PutDirent(BlockAt(v, y), s, e), i);
  }

  lemma PutEntPtr(v: Vol, d: nat, b: nat, s: nat, e: Dirent, i: nat, k: nat)
    requires BlockInv(v) && d < MAX_INODES && b < DIRECT && s < DIRENTS_PER_BLOCK && HasBlock(v, d, b)
    requires i < MAX_INODES && k < SLOTS
    ensures Ptr(PutEnt(v, d, b, s, e), i, k) == Ptr(v, i, k)
  {
    if i != d {
      PutEntKeeps(v, d, b, s, e, i);
      KeepsPtr(v, PutEnt(v, d, b, s, e), i, k);
    } else {
      assert Shape(v, d);
    }
  }

  lemma PutEntKeepsBlockInv(v: Vol, d: nat, b: nat, s: nat, e: Dirent)
    requires BlockInv(v) && d < MAX_INODES && b < DIRECT && s < DIRENTS_PER_BLOCK && HasBlock(v, d, b)
    ensures BlockInv(PutEnt(v, d, b, s, e))
    ensures Leaked(PutEnt(v, d, b, s, e)) == Leaked(v)
  {
    var w := PutEnt(v, d, b, s, e);
    forall i, k | 0 <= i < MAX_INODES && 0 <= k < SLOTS
      ensures Ptr(w, i, k) == Ptr(v, i, k)
    {
      PutEntPtr(v, d, b, s, e, i, k);
    }
    SamePointers(v, w);
  }

  lemma SamePointers(v: Vol, w: Vol)
    requires BlockInv(v) && w.start == v.start && |w.data| == |v.data| && w.inodes == v.inodes
    requires w.bits == v.bits && w.saved == v.saved
    requires forall i, k | 0 <= i < MAX_INODES && 0 <= k < SLOTS :: Ptr(w, i, k) == Ptr(v, i, k)
    ensures BlockInv(w) && Leaked(w) == Leaked(v)
  {
    forall i | 0 <= i < MAX_INODES
      ensures Shape(w, i)
    {
      assert Shape(v, i);
    }
    forall b | v.start <= b < v.start + |v.data|
      ensures Owned(w, b) == Owned(v, b)
    {
    }
  }

  lemma PutEntEnt(v: Vol, d: nat, b: nat, s: nat, e: Dirent, i: nat, c: nat, t: nat)
    requires BlockInv(v) && d < MAX_INODES && b < DIRECT && s < DIRENTS_PER_BLOCK && HasBlock(v, d, b)
    requires i < MAX_INODES && c < DIRECT && t < DIRENTS_PER_BLOCK
    ensures Ent(PutEnt(v, d, b, s, e), i, c, t) == if (i, c, t) == (d, b, s) then e else Ent(v, i, c, t)
  {
    assert Ptr(v, d, b) == v.inodes[d].blocks[b] && Ptr(v, d, c) == v.inodes[d].blocks[c];
    if i != d {
      PutEntKeeps(v, d, b, s, e, i);
      KeepsEnt(v, PutEnt(v, d, b, s, e), i, c, t);
    } else if c == b {
      DirentPut(BlockAt(v, v.inodes[d].blocks[b]), s, e, t);
    }
  }
}
