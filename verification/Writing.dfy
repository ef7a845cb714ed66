/** nfs_write_path after the file has been found: the block loop, the truncation, the final writes. */
module Writing {
  import opened Bytes
  import opened Layout
  import opened Volume
  import opened Image
  import opened Store
  import opened Drafts
  import opened Rewrites
  import opened Space

  /** Only bits have been added. */
  ghost predicate MoreBits(u: Vol, u': Vol) {
    && u'.start == u.start && u'.inodes == u.inodes && u'.data == u.data && u'.saved == u.saved
    && forall y | Bit(u, y) :: Bit(u', y)
  }

  lemma MoreBitsSet(u: Vol, nb: nat)
    requires InData(u, nb)
    ensures MoreBits(u, SetBit(u, nb, true))
  {
  }

  /** Takes a free block for slot `k` of the draft. */
  method FillSlot(st: Store, ghost v: Vol, i: nat, w: Draft, k: nat) returns (ok: bool, w': Draft)
    requires st.Mounted() && Drafted(v, st.State(), i, w) && k < SLOTS && DPtr(v, i, w, k) == 0
    requires (k > DIRECT ==> w.loaded) && (k == DIRECT ==> !w.loaded)
    modifies st, st.bitmap
    ensures st.Kept() && st.inodeCursor == old(st.inodeCursor) && MoreBits(old(st.State()), st.State())
    ensures ok ==> Drafted(v, st.State(), i, w') && exists nb: u32 :: nb != 0 && w' == SetSlot(w, k, nb)
    ensures ok ==> Free(st.State()) + 1 == Free(old(st.State()))
    ensures !ok ==> AllSet(st.State().bits) && Free(old(st.State())) == 0
  {
    hide VolOf, Formatted, BlockInv, NextFit, DPtr, ClearBits;
    ghost var u := st.State();
    assert |w.ptrs| == INDIRECT && u.start > 0;
    w' := w;
    var nb := st.AllocDataBlock(false);
    if nb < 0 {
      FreeNone(u.bits);
      return false, w';
    }
    FreeTaken(u.bits, nb - u.start);
    TakeSlot(v, u, i, w, k, nb);
    MoreBitsSet(u, nb);
    w' := SetSlot(w, k, nb);
    assert nb != 0;
    ok := true;
  }

  /** The indirect block's entries are in memory: read from disk, or all zero behind a block just taken. */
  method EnsureLoaded(st: Store, ghost v: Vol, i: nat, w: Draft) returns (ok: bool, w': Draft)
    requires st.Mounted() && Drafted(v, st.State(), i, w)
    requires !w.loaded && w.inode.indirect != 0 ==> IndirectIntact(v, st.State(), i, w)
    modifies st, st.bitmap
    ensures st.Kept() && st.inodeCursor == old(st.inodeCursor) && MoreBits(old(st.State()), st.State())
    ensures ok ==> Drafted(v, st.State(), i, w') && Loaded(v, i, w, w')
    ensures ok ==> Free(st.State()) + LacksIndirect(w) == Free(old(st.State()))
    ensures !ok ==> AllSet(st.State().bits) && Free(old(st.State())) == 0 && LacksIndirect(w) == 1
  {
    hide VolOf, Formatted, BlockInv, SetSlot, Free;
    w' := w;
    ok := true;
    if !w.loaded {
      if w.inode.indirect == 0 {
        EmptyIndirect(v, st.State(), i, w);
        ok, w' := FillSlot(st, v, i, w, DIRECT);
        if ok {
          FilledLoads(v, i, w, w');
        }
      } else {
        DraftInData(v, st.State(), i, w, DIRECT);
        VolBlock(st.sb, st.disk, st.bitmap[..], w.inode.indirect);
        var buf := st.BlockRead(w.inode.indirect);
        LoadsDrafted(v, st.State(), i, w);
        w' := Draft(w.inode, Pointers(buf), true, w.dirty);
      }
    }
  }

  function LacksIndirect(w: Draft): nat {
    if w.inode.indirect == 0 then 1 else 0
  }

  /** Blocks to be taken before block `b` of the file can be written. */
  function Lacks(v: Vol, i: nat, w: Draft, b: nat): nat
    requires i < MAX_INODES && |w.ptrs| == INDIRECT && b < DIRECT + INDIRECT
  {
    (if DPtr(v, i, w, FileSlot(b)) == 0 then 1 else 0) + (if b >= DIRECT then LacksIndirect(w) else 0)
  }

  ghost predicate IndirectIntact(v: Vol, u: Vol, i: nat, w: Draft)
    requires i < MAX_INODES
  {
    BlockAt(u, w.inode.indirect) == BlockAt(v, w.inode.indirect) && w.inode.indirect == v.inodes[i].indirect
  }

  /** The draft after loading: the same pointers, except that an indirect block has been taken if there was none. */
  ghost predicate Loaded(v: Vol, i: nat, w: Draft, w': Draft)
    requires i < MAX_INODES && |w.ptrs| == INDIRECT
  {
    && |w'.ptrs| == INDIRECT && w'.loaded
    && (forall k | 0 <= k < SLOTS && k != DIRECT :: DPtr(v, i, w', k) == DPtr(v, i, w, k))
    && DPtr(v, i, w', DIRECT) != 0
    && (DPtr(v, i, w, DIRECT) != 0 ==> DPtr(v, i, w', DIRECT) == DPtr(v, i, w, DIRECT))
  }

  lemma EmptyIndirect(v: Vol, u: Vol, i: nat, w: Draft)
    requires Drafted(v, u, i, w) && w.inode.indirect == 0
    ensures DPtr(v, i, w, DIRECT) == 0 && v.inodes[i].indirect == 0
  {
    assert OldOrFresh(v, i, w, DIRECT);
  }

  lemma FilledLoads(v: Vol, i: nat, w: Draft, w': Draft)
    requires i < MAX_INODES && |w.ptrs| == INDIRECT && v.inodes[i].indirect == 0 && !w.loaded &&
      DPtr(v, i, w, DIRECT) == 0
    requires exists nb: u32 :: nb != 0 && w' == SetSlot(w, DIRECT, nb)
    ensures Loaded(v, i, w, w')
  {
    var nb: u32 :| nb != 0 && w' == SetSlot(w, DIRECT, nb);
    forall k | 0 <= k < SLOTS
      ensures DPtr(v, i, w', k) == if k == DIRECT then nb else DPtr(v, i, w, k)
    {
      SetSlotPtr(v, i, w, DIRECT, nb, k);
    }
  }

  /** Ready to look up block `b`: the draft as it was, or loaded when the block lies behind the indirect block. */
  ghost predicate ReadyFor(v: Vol, i: nat, w: Draft, w1: Draft, b: nat)
    requires i < MAX_INODES && |w.ptrs| == INDIRECT
  {
    if b < DIRECT then w1 == w && !w.loaded else Loaded(v, i, w, w1)
  }

  function Entry(w: Draft, b: nat): u32
    requires |w.ptrs| == INDIRECT && b < DIRECT + INDIRECT
  {
    if b < DIRECT then w.inode.blocks[b] else w.ptrs[b - DIRECT]
  }

  lemma LoadedDraft(v: Vol, u: Vol, i: nat, w: Draft, w1: Draft, b: nat)
    requires Drafted(v, u, i, w1) && |w.ptrs| == INDIRECT && b < DIRECT + INDIRECT && ReadyFor(v, i, w, w1, b)
    ensures |w1.ptrs| == INDIRECT && Entry(w1, b) == DPtr(v, i, w1, FileSlot(b)) && (b >= DIRECT ==> w1.loaded)
    ensures Entry(w1, b) != 0 ==> Extended(v, i, w, w1, b)
    ensures DPtr(v, i, w1, FileSlot(b)) == DPtr(v, i, w, FileSlot(b))
  {
  }

  lemma FilledExtends(v: Vol, u: Vol, i: nat, w: Draft, w1: Draft, w': Draft, b: nat)
    requires Drafted(v, u, i, w') && |w.ptrs| == INDIRECT && b < DIRECT + INDIRECT && |w1.ptrs| == INDIRECT
    requires ReadyFor(v, i, w, w1, b) && (b >= DIRECT ==> w1.loaded) && DPtr(v, i, w1, FileSlot(b)) == 0
    requires exists nb: u32 :: nb != 0 && w' == SetSlot(w1, FileSlot(b), nb)
    ensures |w'.ptrs| == INDIRECT && Extended(v, i, w, w', b) && Entry(w', b) == DPtr(v, i, w', FileSlot(b))
  {
    var nb: u32 :| nb != 0 && w' == SetSlot(w1, FileSlot(b), nb);
    forall k | 0 <= k < SLOTS
      ensures DPtr(v, i, w', k) == if k == FileSlot(b) then nb else DPtr(v, i, w1, k)
    {
      SetSlotPtr(v, i, w1, FileSlot(b), nb, k);
    }
    assert w'.loaded == w1.loaded;
    hide DPtr, Drafted, SetSlot;
  }

  lemma DraftFacts(v: Vol, u: Vol, i: nat, w: Draft)
    requires Drafted(v, u, i, w)
    ensures i < MAX_INODES && |w.ptrs| == INDIRECT
    ensures w.loaded ==> Loaded(v, i, w, w)
  {
  }

  /** The pointer to block `b` of the file, taking free blocks for it as needed. */
  method EnsureBlock(st: Store, ghost v: Vol, i: nat, w: Draft, b: nat) returns (ok: bool, w': Draft, blk: u32)
    requires st.Mounted() && Drafted(v, st.State(), i, w) && b < DIRECT + INDIRECT && (w.loaded <==> b > DIRECT)
    requires !w.loaded && w.inode.indirect != 0 ==> IndirectIntact(v, st.State(), i, w)
    modifies st, st.bitmap
    ensures st.Kept() && st.inodeCursor == old(st.inodeCursor) && MoreBits(old(st.State()), st.State())
    ensures ok ==> Drafted(v, st.State(), i, w') && Extended(v, i, w, w', b) && blk == DPtr(v, i, w', FileSlot(b))
    ensures |w.ptrs| == INDIRECT
    ensures ok ==> Free(st.State()) + Lacks(v, i, w, b) == Free(old(st.State()))
    ensures !ok ==> AllSet(st.State().bits) && Free(old(st.State())) < Lacks(v, i, w, b)
  {
    hide VolOf, Formatted, BlockInv, SetSlot, Drafted, DPtr, Extended, Loaded, IndirectIntact, AllSet, Free,
      LacksIndirect;
    ghost var u := st.State();
    DraftFacts(v, u, i, w);
    ok, w', blk := true, w, 0;
    if b >= DIRECT {
      ok, w' := EnsureLoaded(st, v, i, w);
    }
    if ok {
      ghost var w1 := w';
      LoadedDraft(v, st.State(), i, w, w1, b);
      blk := Entry(w', b);
      if blk == 0 {
        ok, w' := FillSlot(st, v, i, w', FileSlot(b));
        if ok {
          FilledExtends(v, st.State(), i, w, w1, w', b);
          blk := Entry(w', b);
        }
      }
    }
  }

  /** Until it is loaded, the indirect block is the one on disk and has not been written. */
  lemma IndirectSafe(v: Vol, u: Vol, i: nat, w: Draft, data: seq<byte>, b: nat)
    requires Progress(v, u, i, w, data, b) && !w.loaded && w.inode.indirect != 0
    ensures IndirectIntact(v, u, i, w)
  {
    hide Chunk;
    assert OldOrFresh(v, i, w, DIRECT);
    assert DPtr(v, i, w, DIRECT) == w.inode.indirect;
    assert !Uses(b, DIRECT);
    DraftInData(v, u, i, w, DIRECT);
    forall c | 0 <= c < b
      ensures DPtr(v, i, w, FileSlot(c)) != w.inode.indirect
    {
      assert FileSlot(c) != DIRECT;
    }
    assert !Written(v, i, w, b, w.inode.indirect);
  }

  lemma ProgressFacts(v: Vol, u: Vol, i: nat, w: Draft, data: seq<byte>, b: nat)
    requires Progress(v, u, i, w, data, b)
    ensures Drafted(v, u, i, w) && |data| <= MAX_FILE_SIZE && b <= BlocksFor(|data|) <= DIRECT + INDIRECT
    ensures w.loaded <==> b > DIRECT
  {
  }

  /** What the next block lacks is what the file needs for one block more. */
  lemma LacksInProgress(v: Vol, u: Vol, i: nat, w: Draft, data: seq<byte>, b: nat)
    requires Progress(v, u, i, w, data, b) && b < BlocksFor(|data|)
    ensures i < MAX_INODES && |w.ptrs| == INDIRECT && b < DIRECT + INDIRECT
    ensures var m := BlocksFor(v.inodes[i].size);
      Extra(m, b + 1) == Extra(m, b) + Lacks(v, i, w, b) && (Lacks(v, i, w, b) > 0 ==> m <= b)
  {
    var m := BlocksFor(v.inodes[i].size);
    assert Shape(v, i);
    hide Drafted, Filled, Ptr;
    assert Uses(m, FileSlot(b)) <==> b < m;
    assert Uses(m, DIRECT) <==> m > DIRECT;
  }

  lemma SameFree(u: Vol, y: nat, x: Block)
    ensures Free(SetBlock(u, y, x)) == Free(u)
  {
  }

  lemma ExtraSteps(m: nat, b: nat, n: nat)
    requires b <= n
    ensures Extra(m, 0) == 0 && Extra(m, b) <= Extra(m, n)
  {
  }

  /** The write loop: every block of the new contents goes to its place, or the disk fills up on the way. */
  method WriteBlocks(st: Store, i: nat, data: seq<byte>, ghost v: Vol)
    returns (ok: bool, w: Draft, ghost b: nat, ghost u0: Vol)
    requires st.Mounted() && v == st.State() && BlockInv(v) && i < MAX_INODES && Kind(v, i) == FILE &&
      |data| <= MAX_FILE_SIZE
    modifies st, st.bitmap
    ensures st.Kept() && st.inodeCursor == old(st.inodeCursor)
    ensures ok ==> Complete(v, st.State(), i, w, data)
    ensures !ok ==>
      b < BlocksFor(|data|) && Progress(v, u0, i, w, data, b) && MoreBits(u0, st.State()) && AllSet(st.State().bits)
    ensures ok <==> Free(v) >= Extra(BlocksFor(v.inodes[i].size), BlocksFor(|data|))
    ensures !ok ==> BlocksFor(v.inodes[i].size) <= b
  {
    hide VolOf, Formatted, BlockInv, Progress, Drafted, Chunk, Extended, IndirectIntact, AllSet, Free, Lacks, Extra,
      Total;
    var x := st.InodeRead(i);
    w := Draft(x, seq(INDIRECT, _ => 0), false, false);
    ProgressStarts(v, i, data);
    assert w == StartDraft(v, i);
    b, u0 := 0, v;
    ghost var m := BlocksFor(v.inodes[i].size);
    ExtraSteps(m, 0, BlocksFor(|data|));
    var c := 0;
    while c < BlocksFor(|data|)
      invariant st.Kept() && st.inodeCursor == old(st.inodeCursor) && c <= BlocksFor(|data|)
      invariant Progress(v, st.State(), i, w, data, c)
      invariant Free(st.State()) + Extra(m, c) == Free(v)
    {
      ghost var u := st.State();
      b, u0 := c, u;
      ProgressFacts(v, u, i, w, data, c);
      LacksInProgress(v, u, i, w, data, c);
      ExtraSteps(m, c + 1, BlocksFor(|data|));
      if !w.loaded && w.inode.indirect != 0 {
        IndirectSafe(v, u, i, w, data, c);
      }
      var w', blk;
      ok, w', blk := EnsureBlock(st, v, i, w, c);
      if !ok {
        return;
      }
      ExtendedProgress(v, u, st.State(), i, w, w', data, c);
      SameFree(st.State(), blk, Chunk(data, c));
      st.DataWrite(blk, Chunk(data, c));
      w := w';
      c := c + 1;
    }
    ok := true;
  }
}
