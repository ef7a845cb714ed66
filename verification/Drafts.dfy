/** The in-memory draft of a file's pointers while nfs_write_path rewrites the file. */
module Drafts {
  import opened Bytes
  import opened Layout
  import opened Volume

  /** The inode being edited and, once loaded, the entries of its indirect block. */
  datatype Draft = Draft(inode: Inode, ptrs: seq<u32>, loaded: bool, dirty: bool)

  /** The pointer the draft holds in slot `k`; entries not yet loaded are those on disk. */
  function DPtr(v: Vol, i: nat, w: Draft, k: nat): u32
    requires i < MAX_INODES && k < SLOTS && |w.ptrs| == INDIRECT
  {
    if k < DIRECT then w.inode.blocks[k]
    else if k == DIRECT then w.inode.indirect
    else if w.loaded then w.ptrs[k - DIRECT - 1]
    else Ptr(v, i, k)
  }

  ghost predicate DraftOwns(v: Vol, i: nat, w: Draft, y: nat)
    requires i < MAX_INODES && |w.ptrs| == INDIRECT
  {
    exists k | 0 <= k < SLOTS :: DPtr(v, i, w, k) == y
  }

  /** A pointer of the draft is the one on disk, or a block that was free. */
  ghost predicate OldOrFresh(v: Vol, i: nat, w: Draft, k: nat)
    requires i < MAX_INODES && k < SLOTS && |w.ptrs| == INDIRECT
  {
    DPtr(v, i, w, k) == Ptr(v, i, k) || (Ptr(v, i, k) == 0 && InData(v, DPtr(v, i, w, k)) && !Bit(v, DPtr(v, i, w, k)))
  }

  /** The draft `w` of file `i` of volume `v`, while the volume has become `u`: pointers are old or freshly taken,
      distinct, and exactly the fresh ones have been marked. */
  ghost predicate Drafted(v: Vol, u: Vol, i: nat, w: Draft) {
    && BlockInv(v) && i < MAX_INODES && Kind(v, i) == FILE && |w.ptrs| == INDIRECT
    && u.start == v.start && |u.data| == |v.data| && u.inodes == v.inodes && u.saved == v.saved
    && w.inode.kind == FILE && w.inode.size == v.inodes[i].size
    && (forall k | 0 <= k < SLOTS :: OldOrFresh(v, i, w, k))
    && (forall k, l | 0 <= k < SLOTS && 0 <= l < SLOTS && k != l ::
      DPtr(v, i, w, k) == 0 || DPtr(v, i, w, k) != DPtr(v, i, w, l))
    && (forall y | InData(v, y) :: Bit(u, y) <==> Bit(v, y) || DraftOwns(v, i, w, y))
    && (w.loaded ==> w.inode.indirect != 0) && (w.dirty ==> w.loaded)
    && (w.loaded && !w.dirty ==> forall k | DIRECT < k < SLOTS :: DPtr(v, i, w, k) == Ptr(v, i, k))
  }

  function StartDraft(v: Vol, i: nat): Draft
    requires i < MAX_INODES
  {
    Draft(v.inodes[i], seq(INDIRECT, _ => 0), false, false)
  }

  lemma StartsDrafted(v: Vol, i: nat)
    requires BlockInv(v) && i < MAX_INODES && Kind(v, i) == FILE
    ensures Drafted(v, v, i, StartDraft(v, i))
  {
    var w := StartDraft(v, i);
    forall k | 0 <= k < SLOTS
      ensures DPtr(v, i, w, k) == Ptr(v, i, k)
    {
    }
    forall y | InData(v, y) && DraftOwns(v, i, w, y)
      ensures Bit(v, y)
    {
      var k :| 0 <= k < SLOTS && DPtr(v, i, w, k) == y;
      assert Ptr(v, i, k) == y;
    }
  }

  function SetSlot(w: Draft, k: nat, nb: u32): Draft
    requires k < SLOTS && |w.ptrs| == INDIRECT
  {
    if k < DIRECT then
      Draft(Inode(w.inode.kind, w.inode.size, w.inode.blocks[k := nb], w.inode.indirect), w.ptrs, w.loaded, w.dirty)
    else if k == DIRECT then
      Draft(Inode(w.inode.kind, w.inode.size, w.inode.blocks, nb), seq(INDIRECT, _ => 0), true, w.dirty)
    else Draft(w.inode, w.ptrs[k - DIRECT - 1 := nb], w.loaded, true)
  }

  lemma SetSlotPtr(v: Vol, i: nat, w: Draft, k: nat, nb: u32, l: nat)
    requires i < MAX_INODES && |w.ptrs| == INDIRECT && k < SLOTS && l < SLOTS
    requires k > DIRECT ==> w.loaded
    requires k == DIRECT ==> !w.loaded && v.inodes[i].indirect == 0
    ensures DPtr(v, i, SetSlot(w, k, nb), l) == if l == k then nb else DPtr(v, i, w, l)
  {
  }

  /** A free block is taken for an empty slot. */
  lemma TakeSlot(v: Vol, u: Vol, i: nat, w: Draft, k: nat, nb: u32)
    requires Drafted(v, u, i, w) && k < SLOTS && DPtr(v, i, w, k) == 0
    requires k > DIRECT ==> w.loaded
    requires k == DIRECT ==> !w.loaded
    requires InData(u, nb) && !Bit(u, nb)
    ensures Drafted(v, SetBit(u, nb, true), i, SetSlot(w, k, nb))
  {
    var w' := SetSlot(w, k, nb);
    var u' := SetBit(u, nb, true);
    assert OldOrFresh(v, i, w, k);
    assert nb != 0 && Ptr(v, i, k) == 0 by {
      assert u.start > 0;
    }
    assert k == DIRECT ==> v.inodes[i].indirect == 0;
    forall l | 0 <= l < SLOTS
      ensures DPtr(v, i, w', l) == if l == k then nb else DPtr(v, i, w, l)
    {
      SetSlotPtr(v, i, w, k, nb, l);
    }
    TakeSlotDistinct(v, u, i, w, k, nb);
    TakeSlotOwns(v, u, i, w, k, nb);
    forall l | 0 <= l < SLOTS
      ensures OldOrFresh(v, i, w', l)
    {
      assert OldOrFresh(v, i, w, l);
    }
  }

  lemma TakeSlotOwns(v: Vol, u: Vol, i: nat, w: Draft, k: nat, nb: u32)
    requires Drafted(v, u, i, w) && k < SLOTS && DPtr(v, i, w, k) == 0 && InData(u, nb) && !Bit(u, nb)
    requires forall l | 0 <= l < SLOTS :: DPtr(v, i, SetSlot(w, k, nb), l) == if l == k then nb else DPtr(v, i, w, l)
    ensures forall y | InData(v, y) ::
      Bit(SetBit(u, nb, true), y) <==> Bit(v, y) || DraftOwns(v, i, SetSlot(w, k, nb), y)
  {
    var w' := SetSlot(w, k, nb);
    forall y | InData(v, y)
      ensures Bit(SetBit(u, nb, true), y) <==> Bit(v, y) || DraftOwns(v, i, w', y)
    {
      if y == nb {
        assert DPtr(v, i, w', k) == y;
      } else {
        if DraftOwns(v, i, w', y) {
          var l :| 0 <= l < SLOTS && DPtr(v, i, w', l) == y;
          assert DPtr(v, i, w, l) == y;
        }
        if DraftOwns(v, i, w, y) {
          var l :| 0 <= l < SLOTS && DPtr(v, i, w, l) == y;
          assert y != 0;
          assert DPtr(v, i, w', l) == y;
        }
      }
    }
  }

  lemma TakeSlotDistinct(v: Vol, u: Vol, i: nat, w: Draft, k: nat, nb: u32)
    requires Drafted(v, u, i, w) && k < SLOTS && InData(u, nb) && !Bit(u, nb)
    ensures forall l | 0 <= l < SLOTS :: DPtr(v, i, w, l) != nb
    ensures !Bit(v, nb)
  {
    assert Bit(u, nb) <==> Bit(v, nb) || DraftOwns(v, i, w, nb);
  }

  /** The indirect block is read into the draft. */
  lemma LoadsDrafted(v: Vol, u: Vol, i: nat, w: Draft)
    requires Drafted(v, u, i, w) && !w.loaded && w.inode.indirect != 0
    requires BlockAt(u, w.inode.indirect) == BlockAt(v, w.inode.indirect) && w.inode.indirect == v.inodes[i].indirect
    ensures Drafted(v, u, i, Draft(w.inode, Pointers(BlockAt(u, w.inode.indirect)), true, w.dirty))
    ensures forall k | 0 <= k < SLOTS ::
      DPtr(v, i, Draft(w.inode, Pointers(BlockAt(u, w.inode.indirect)), true, w.dirty), k) == DPtr(v, i, w, k)
  {
    var w' := Draft(w.inode, Pointers(BlockAt(u, w.inode.indirect)), true, w.dirty);
    forall k | 0 <= k < SLOTS
      ensures DPtr(v, i, w', k) == DPtr(v, i, w, k)
    {
    }
    SamePtrsOwn(v, i, w, w');
    forall k | 0 <= k < SLOTS
      ensures OldOrFresh(v, i, w', k)
    {
      assert OldOrFresh(v, i, w, k);
    }
  }

  lemma SamePtrsOwn(v: Vol, i: nat, w: Draft, w': Draft)
    requires i < MAX_INODES && |w.ptrs| == INDIRECT && |w'.ptrs| == INDIRECT
    requires forall k | 0 <= k < SLOTS :: DPtr(v, i, w', k) == DPtr(v, i, w, k)
    ensures forall y :: DraftOwns(v, i, w', y) <==> DraftOwns(v, i, w, y)
  {
    forall y
      ensures DraftOwns(v, i, w', y) <==> DraftOwns(v, i, w, y)
    {
      assert forall k | 0 <= k < SLOTS :: DPtr(v, i, w', k) == y <==> DPtr(v, i, w, k) == y;
    }
  }

  // ---- progress of the write loop ----

  /** Block `b` of the new contents, zero filled. */
  function Chunk(data: seq<byte>, b: nat): Block
    requires BLOCK_SIZE * b <= |data|
  {
    if BLOCK_SIZE * b + BLOCK_SIZE <= |data| then data[BLOCK_SIZE * b..BLOCK_SIZE * b + BLOCK_SIZE]
    else data[BLOCK_SIZE * b..] + Zeros(BLOCK_SIZE * b + BLOCK_SIZE - |data|)
  }

  ghost predicate Written(v: Vol, i: nat, w: Draft, b: nat, y: nat)
    requires i < MAX_INODES && |w.ptrs| == INDIRECT && b <= DIRECT + INDIRECT
  {
    exists c | 0 <= c < b :: DPtr(v, i, w, FileSlot(c)) == y
  }

  lemma NotOwnedNotWritten(v: Vol, i: nat, w: Draft, b: nat, y: nat)
    requires i < MAX_INODES && |w.ptrs| == INDIRECT && b <= DIRECT + INDIRECT && !DraftOwns(v, i, w, y)
    ensures !Written(v, i, w, b, y)
  {
    hide DPtr;
  }

  ghost predicate Filled(v: Vol, u: Vol, i: nat, w: Draft, data: seq<byte>, b: nat)
    requires i < MAX_INODES && |w.ptrs| == INDIRECT && b <= DIRECT + INDIRECT && b <= BlocksFor(|data|)
  {
    && (forall c | 0 <= c < b :: BlockAt(u, DPtr(v, i, w, FileSlot(c))) == Chunk(data, c))
    && (forall y | InData(v, y) && !Written(v, i, w, b, y) :: BlockAt(u, y) == BlockAt(v, y))
  }

  /** After `b` blocks: slots are filled exactly up to `b`, the blocks behind them hold the new contents and no
      other block has changed. */
  ghost predicate Progress(v: Vol, u: Vol, i: nat, w: Draft, data: seq<byte>, b: nat) {
    && Drafted(v, u, i, w) && |data| <= MAX_FILE_SIZE && b <= BlocksFor(|data|)
    && (forall k | 0 <= k < SLOTS :: DPtr(v, i, w, k) != 0 <==> Ptr(v, i, k) != 0 || Uses(b, k))
    && (w.loaded <==> b > DIRECT)
    && Filled(v, u, i, w, data, b)
  }

  lemma ProgressStarts(v: Vol, i: nat, data: seq<byte>)
    requires BlockInv(v) && i < MAX_INODES && Kind(v, i) == FILE && |data| <= MAX_FILE_SIZE
    ensures Progress(v, v, i, StartDraft(v, i), data, 0)
  {
    StartsDrafted(v, i);
    forall k | 0 <= k < SLOTS
      ensures DPtr(v, i, StartDraft(v, i), k) == Ptr(v, i, k)
    {
    }
  }

  /** The slots the next block needs have been filled and nothing else has changed. */
  ghost predicate Extended(v: Vol, i: nat, w: Draft, w': Draft, b: nat)
    requires i < MAX_INODES && |w.ptrs| == INDIRECT
  {
    && |w'.ptrs| == INDIRECT && (w'.loaded <==> b >= DIRECT)
    && (forall k | 0 <= k < SLOTS && DPtr(v, i, w, k) != 0 :: DPtr(v, i, w', k) == DPtr(v, i, w, k))
    && (forall k | 0 <= k < SLOTS ::
      DPtr(v, i, w', k) != 0 <==> DPtr(v, i, w, k) != 0 || k == FileSlot(b) || (k == DIRECT && b >= DIRECT))
  }

  lemma ExtendedProgress(v: Vol, u: Vol, u': Vol, i: nat, w: Draft, w': Draft, data: seq<byte>, b: nat)
    requires Progress(v, u, i, w, data, b) && b < BlocksFor(|data|) && Drafted(v, u', i, w') && Extended(v, i, w, w', b)
    requires u'.data == u.data
    ensures InData(v, DPtr(v, i, w', FileSlot(b)))
    ensures Progress(v, SetBlock(u', DPtr(v, i, w', FileSlot(b)), Chunk(data, b)), i, w', data, b + 1)
  {
    var blk := DPtr(v, i, w', FileSlot(b));
    ExtendedSlots(v, u, i, w, w', data, b);
    DraftInData(v, u', i, w', FileSlot(b));
    SetBlockDrafted(v, u', i, w', blk, Chunk(data, b));
    assert u.start == v.start;
    hide Drafted, Uses;
    FilledNext(v, u, u', i, w, w', data, b);
  }

  lemma ExtendedSlots(v: Vol, u: Vol, i: nat, w: Draft, w': Draft, data: seq<byte>, b: nat)
    requires i < MAX_INODES && |w.ptrs| == INDIRECT && |data| <= MAX_FILE_SIZE
    requires Progress(v, u, i, w, data, b) && b < BlocksFor(|data|) && Extended(v, i, w, w', b)
    ensures forall k | 0 <= k < SLOTS :: DPtr(v, i, w', k) != 0 <==> Ptr(v, i, k) != 0 || Uses(b + 1, k)
    ensures forall c | 0 <= c < b :: DPtr(v, i, w', FileSlot(c)) == DPtr(v, i, w, FileSlot(c)) != 0
    ensures w'.loaded <==> b + 1 > DIRECT
  {
    hide Drafted, Filled, Ptr, DPtr;
    forall k | 0 <= k < SLOTS
      ensures DPtr(v, i, w', k) != 0 <==> Ptr(v, i, k) != 0 || Uses(b + 1, k)
    {
      assert Uses(b + 1, k) <==> Uses(b, k) || k == FileSlot(b) || (k == DIRECT && b >= DIRECT);
    }
    forall c | 0 <= c < b
      ensures DPtr(v, i, w', FileSlot(c)) == DPtr(v, i, w, FileSlot(c)) != 0
    {
      assert Uses(b, FileSlot(c));
    }
  }

  lemma SetBlockDrafted(v: Vol, u: Vol, i: nat, w: Draft, y: nat, x: Block)
    requires Drafted(v, u, i, w)
    ensures Drafted(v, SetBlock(u, y, x), i, w)
  {
    assert forall z :: Bit(SetBlock(u, y, x), z) == Bit(u, z);
  }

  lemma DraftInData(v: Vol, u: Vol, i: nat, w: Draft, k: nat)
    requires Drafted(v, u, i, w) && k < SLOTS && DPtr(v, i, w, k) != 0
    ensures InData(v, DPtr(v, i, w, k))
  {
    assert OldOrFresh(v, i, w, k);
  }

  lemma FilledNext(v: Vol, u: Vol, u': Vol, i: nat, w: Draft, w': Draft, data: seq<byte>, b: nat)
    requires Drafted(v, u', i, w') && |w.ptrs| == INDIRECT && |data| <= MAX_FILE_SIZE && b < BlocksFor(|data|)
    requires Filled(v, u, i, w, data, b) && u'.data == u.data && u.start == v.start
    requires forall c | 0 <= c < b :: DPtr(v, i, w', FileSlot(c)) == DPtr(v, i, w, FileSlot(c)) != 0
    requires InData(v, DPtr(v, i, w', FileSlot(b)))
    ensures Filled(v, SetBlock(u', DPtr(v, i, w', FileSlot(b)), Chunk(data, b)), i, w', data, b + 1)
  {
    hide Chunk;
    var blk := DPtr(v, i, w', FileSlot(b));
    var x := SetBlock(u', blk, Chunk(data, b));
    assert forall y :: y != blk ==> BlockAt(x, y) == BlockAt(u, y);
    forall c | 0 <= c < b + 1
      ensures BlockAt(x, DPtr(v, i, w', FileSlot(c))) == Chunk(data, c)
    {
      if c < b {
        assert FileSlot(c) != FileSlot(b);
      }
    }
    forall y | InData(v, y) && !Written(v, i, w', b + 1, y)
      ensures BlockAt(x, y) == BlockAt(v, y)
    {
      assert y != blk;
      assert !Written(v, i, w, b, y);
    }
  }
}
