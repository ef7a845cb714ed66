/** The end of nfs_write_path: blocks of a longer earlier version are freed, then indirect block, bitmap and inode
    are written. */
module Truncating {
  import opened Bytes
  import opened Layout
  import opened Volume
  import opened Image
  import opened Store
  import opened Drafts
  import opened Rewrites
  import opened Writing

  ghost predicate Released(v: Vol, i: nat, w: Draft, ks: set<nat>, y: nat)
    requires i < MAX_INODES && |w.ptrs| == INDIRECT
  {
    exists k | k in ks && 0 <= k < SLOTS :: DPtr(v, i, w, k) == y
  }

  /** `z` is `u` with the blocks in the draft's slots `ks` cleared in the bitmap. */
  ghost predicate Trimmed(v: Vol, u: Vol, z: Vol, i: nat, w: Draft, ks: set<nat>)
    requires i < MAX_INODES && |w.ptrs| == INDIRECT
  {
    && z.start == u.start && z.inodes == u.inodes && z.data == u.data && z.saved == u.saved
    && forall y | InData(u, y) :: Bit(z, y) <==> Bit(u, y) && !Released(v, i, w, ks, y)
  }

  lemma TrimmedKeeps(v: Vol, u: Vol, z: Vol, i: nat, w: Draft, ks: set<nat>)
    requires i < MAX_INODES && |w.ptrs| == INDIRECT && Trimmed(v, u, z, i, w, ks)
    ensures z.start == u.start && z.inodes == u.inodes && z.data == u.data && z.saved == u.saved
  {
  }

  lemma TrimmedNothing(v: Vol, u: Vol, i: nat, w: Draft)
    requires i < MAX_INODES && |w.ptrs| == INDIRECT
    ensures Trimmed(v, u, u, i, w, {})
  {
  }

  lemma TrimOne(v: Vol, u: Vol, z: Vol, i: nat, w: Draft, ks: set<nat>, k: nat)
    requires i < MAX_INODES && |w.ptrs| == INDIRECT && k < SLOTS && Trimmed(v, u, z, i, w, ks)
    requires InData(u, DPtr(v, i, w, k))
    ensures Trimmed(v, u, SetBit(z, DPtr(v, i, w, k), false), i, w, ks + {k})
  {
    hide DPtr;
    var b := DPtr(v, i, w, k);
    var z' := SetBit(z, b, false);
    forall y | InData(u, y)
      ensures Bit(z', y) <==> Bit(u, y) && !Released(v, i, w, ks + {k}, y)
    {
      assert Bit(z', y) <==> Bit(z, y) && y != b;
      ReleasedMore(v, i, w, ks, k, y);
    }
  }

  lemma ReleasedMore(v: Vol, i: nat, w: Draft, ks: set<nat>, k: nat, y: nat)
    requires i < MAX_INODES && |w.ptrs| == INDIRECT && k < SLOTS
    ensures Released(v, i, w, ks + {k}, y) <==> Released(v, i, w, ks, y) || DPtr(v, i, w, k) == y
  {
    hide DPtr;
    if Released(v, i, w, ks + {k}, y) {
      var l :| l in ks + {k} && 0 <= l < SLOTS && DPtr(v, i, w, l) == y;
    }
    if Released(v, i, w, ks, y) {
      var l :| l in ks && 0 <= l < SLOTS && DPtr(v, i, w, l) == y;
      assert l in ks + {k};
    }
    assert k in ks + {k};
  }

  /** An empty slot has nothing to free. */
  lemma TrimEmpty(v: Vol, u: Vol, z: Vol, i: nat, w: Draft, ks: set<nat>, k: nat)
    requires i < MAX_INODES && |w.ptrs| == INDIRECT && k < SLOTS && Trimmed(v, u, z, i, w, ks) && DPtr(v, i, w, k) == 0
    ensures Trimmed(v, u, z, i, w, ks + {k})
  {
    hide DPtr;
    forall y | InData(u, y)
      ensures Released(v, i, w, ks + {k}, y) <==> Released(v, i, w, ks, y)
    {
      ReleasedMore(v, i, w, ks, k, y);
      assert y != 0;
    }
  }

  /** Frees the block in slot `k` of the draft, if there is one. */
  method ReleaseSlot(st: Store, ghost v: Vol, ghost u: Vol, i: nat, ghost w: Draft, ghost ks: set<nat>, ghost k: nat,
                     blk: u32)
    requires st.Mounted() && Drafted(v, u, i, w) && Trimmed(v, u, st.State(), i, w, ks)
    requires k < SLOTS && blk == DPtr(v, i, w, k)
    modifies st`disk, st.bitmap
    ensures st.Kept() && Trimmed(v, u, st.State(), i, w, ks + {k})
  {
    hide VolOf, Formatted, BlockInv, DPtr;
    if blk != 0 {
      DraftInData(v, u, i, w, k);
      TrimOne(v, u, st.State(), i, w, ks, k);
      st.FreeDataBlock(blk, false);
    } else {
      TrimEmpty(v, u, st.State(), i, w, ks, k);
    }
  }

  function Slots(lo: nat, hi: nat): (r: set<nat>)
    ensures forall k: nat :: k in r <==> lo <= k < hi
  {
    if lo >= hi then {} else Slots(lo, hi - 1) + {hi - 1}
  }

  /** Frees the direct blocks from `n` on. */
  method TrimDirect(st: Store, ghost v: Vol, ghost u: Vol, i: nat, w: Draft, n: nat, old_n: nat) returns (x: Inode)
    requires st.Mounted() && u == st.State() && Drafted(v, u, i, w) && n <= old_n
    modifies st`disk, st.bitmap
    ensures st.Kept() && Trimmed(v, u, st.State(), i, w, Slots(n, if old_n < DIRECT then old_n else DIRECT))
    ensures x.kind == w.inode.kind && x.size == w.inode.size && x.indirect == w.inode.indirect
    ensures forall k | 0 <= k < DIRECT :: x.blocks[k] == if n <= k < old_n then 0 else w.inode.blocks[k]
  {
    hide VolOf, Formatted, BlockInv;
    x := w.inode;
    DraftFacts(v, u, i, w);
    TrimmedNothing(v, u, i, w);
    var b := n;
    assert Slots(n, n) == {};
    while b < old_n && b < DIRECT
      invariant st.Kept() && n <= b && (b <= DIRECT || b == n) && b <= old_n
      invariant Trimmed(v, u, st.State(), i, w, Slots(n, b))
      invariant x.kind == w.inode.kind && x.size == w.inode.size && x.indirect == w.inode.indirect
      invariant forall k | 0 <= k < DIRECT :: x.blocks[k] == if n <= k < b then 0 else w.inode.blocks[k]
    {
      ReleaseSlot(st, v, u, i, w, Slots(n, b), b, x.blocks[b]);
      assert Slots(n, b) + {b} == Slots(n, b + 1);
      if x.blocks[b] != 0 {
        x := Inode(x.kind, x.size, x.blocks[b := 0], x.indirect);
      }
      b := b + 1;
    }
    if b > DIRECT {
      assert Slots(n, b) == Slots(n, DIRECT);
    }
  }

  /** Frees the blocks behind the indirect block's entries from `from` on. */
  method TrimEntries(st: Store, ghost v: Vol, ghost u: Vol, i: nat, ghost w: Draft, ghost ks: set<nat>, src: seq<u32>,
                     from: nat)
    returns (ptrs: seq<u32>, any: bool)
    requires st.Mounted() && Drafted(v, u, i, w) && Trimmed(v, u, st.State(), i, w, ks)
    requires |src| == INDIRECT && from <= INDIRECT
    requires forall e | from <= e < INDIRECT :: src[e] == DPtr(v, i, w, DIRECT + 1 + e)
    modifies st`disk, st.bitmap
    ensures st.Kept() && Trimmed(v, u, st.State(), i, w, ks + Slots(DIRECT + 1 + from, SLOTS))
    ensures |ptrs| == INDIRECT && forall e | 0 <= e < INDIRECT :: ptrs[e] == if e < from then src[e] else 0
    ensures !any ==> ptrs == src
  {
    hide VolOf, Formatted, BlockInv, DPtr, Drafted, Trimmed;
    DraftFacts(v, u, i, w);
    ptrs, any := src, false;
    var e := from;
    assert ks + Slots(DIRECT + 1 + from, DIRECT + 1 + from) == ks;
    while e < INDIRECT
      invariant st.Kept() && from <= e <= INDIRECT && |ptrs| == INDIRECT
      invariant Trimmed(v, u, st.State(), i, w, ks + Slots(DIRECT + 1 + from, DIRECT + 1 + e))
      invariant forall f | 0 <= f < INDIRECT :: ptrs[f] == if from <= f < e then 0 else src[f]
      invariant !any ==> ptrs == src
    {
      ghost var done := ks + Slots(DIRECT + 1 + from, DIRECT + 1 + e);
      ReleaseSlot(st, v, u, i, w, done, DIRECT + 1 + e, ptrs[e]);
      assert done + {DIRECT + 1 + e} == ks + Slots(DIRECT + 1 + from, DIRECT + 1 + (e + 1));
      if ptrs[e] != 0 {
        ptrs, any := ptrs[e := 0], true;
      }
      e := e + 1;
    }
  }

  /** What truncation leaves: exactly the blocks the new version does not use are cleared, and the draft (inode `x`,
      entries `ptrs`) holds the final pointers. */
  ghost predicate Settled(v: Vol, u: Vol, z: Vol, i: nat, w: Draft, x: Inode, ptrs: seq<u32>, dirty: bool, n: nat)
    requires i < MAX_INODES && |w.ptrs| == INDIRECT
  {
    && z.start == u.start && z.inodes == u.inodes && z.data == u.data && z.saved == u.saved
    && (forall y | InData(u, y) :: Bit(z, y) <==> Bit(u, y) && !Dropped(v, i, w, n, y))
    && Holds(v, i, w, x, ptrs, dirty, n)
  }

  ghost predicate Holds(v: Vol, i: nat, w: Draft, x: Inode, ptrs: seq<u32>, dirty: bool, n: nat)
    requires i < MAX_INODES && |w.ptrs| == INDIRECT
  {
    && x.kind == FILE && |ptrs| == INDIRECT && (dirty ==> n > DIRECT)
    && (forall k | 0 <= k < DIRECT :: x.blocks[k] == FinalPtr(v, i, w, n, k))
    && x.indirect == FinalPtr(v, i, w, n, DIRECT)
    && (n > DIRECT ==> forall k | DIRECT < k < SLOTS :: ptrs[k - DIRECT - 1] == FinalPtr(v, i, w, n, k))
    && (n > DIRECT && !dirty ==> forall k | DIRECT < k < SLOTS :: FinalPtr(v, i, w, n, k) == Ptr(v, i, k))
  }

  /** Freeing all slots the new version does not use, but for empty ones, frees exactly the dropped blocks. */
  lemma TrimmedDropped(v: Vol, u: Vol, z: Vol, i: nat, w: Draft, ks: set<nat>, n: nat)
    requires i < MAX_INODES && |w.ptrs| == INDIRECT && Trimmed(v, u, z, i, w, ks)
    requires forall k | k in ks :: !Uses(n, k)
    requires forall k | 0 <= k < SLOTS && k !in ks && !Uses(n, k) :: DPtr(v, i, w, k) == 0
    ensures forall y | InData(u, y) :: Bit(z, y) <==> Bit(u, y) && !Dropped(v, i, w, n, y)
  {
    hide DPtr, Uses;
    forall y | InData(u, y)
      ensures Released(v, i, w, ks, y) <==> Dropped(v, i, w, n, y)
    {
      if Released(v, i, w, ks, y) {
        var k :| k in ks && 0 <= k < SLOTS && DPtr(v, i, w, k) == y;
        assert !Uses(n, k);
      }
      if Dropped(v, i, w, n, y) {
        var k :| 0 <= k < SLOTS && !Uses(n, k) && DPtr(v, i, w, k) == y;
        assert y != 0;
        assert k in ks;
      }
    }
  }

  /** Slots neither the old nor the new version uses are empty. */
  lemma UnusedIsEmpty(v: Vol, u: Vol, i: nat, w: Draft, data: seq<byte>, k: nat)
    requires Complete(v, u, i, w, data) && k < SLOTS
    requires !Uses(BlocksFor(|data|), k) && !Uses(BlocksFor(w.inode.size), k)
    ensures DPtr(v, i, w, k) == 0
  {
    hide Filled, Uses;
    assert Shape(v, i);
    assert DPtr(v, i, w, k) != 0 <==> Ptr(v, i, k) != 0 || Uses(BlocksFor(|data|), k);
  }

  lemma NoIndirectIsEmpty(v: Vol, u: Vol, i: nat, w: Draft, data: seq<byte>, k: nat)
    requires Complete(v, u, i, w, data) && DIRECT <= k < SLOTS && w.inode.indirect == 0
    ensures DPtr(v, i, w, k) == 0
  {
    hide Filled;
    assert OldOrFresh(v, i, w, DIRECT);
  }

  /** Nothing to free when the new version is at least as long. */
  lemma SettledLonger(v: Vol, u: Vol, i: nat, w: Draft, data: seq<byte>)
    requires Complete(v, u, i, w, data) && BlocksFor(w.inode.size) <= BlocksFor(|data|)
    ensures Settled(v, u, u, i, w, w.inode, w.ptrs, w.dirty, BlocksFor(|data|))
  {
    var n := BlocksFor(|data|);
    forall k | 0 <= k < SLOTS && !Uses(n, k)
      ensures DPtr(v, i, w, k) == 0
    {
      UnusedIsEmpty(v, u, i, w, data, k);
    }
    TrimmedNothing(v, u, i, w);
    TrimmedDropped(v, u, u, i, w, {}, n);
    hide Filled;
  }

  /** With an indirect block, the slots a version does not use are those behind its last block. */
  lemma TailSlots(n: nat)
    requires n > DIRECT
    ensures forall k: nat :: k in Slots(n + 1, SLOTS) <==> k < SLOTS && !Uses(n, k)
  {
  }

  lemma TailHolds(v: Vol, u: Vol, i: nat, w: Draft, data: seq<byte>, x: Inode, ptrs: seq<u32>, any: bool)
    requires Complete(v, u, i, w, data) && BlocksFor(|data|) > DIRECT
    requires x.kind == FILE && x.indirect == w.inode.indirect && x.blocks == w.inode.blocks
    requires |ptrs| == INDIRECT && forall e | 0 <= e < INDIRECT ::
      ptrs[e] == if e < BlocksFor(|data|) - DIRECT then w.ptrs[e] else 0
    requires !any ==> ptrs == w.ptrs
    ensures Holds(v, i, w, x, ptrs, w.dirty || any, BlocksFor(|data|))
  {
    hide Filled;
  }

  /** The new version still needs the indirect block: its tail entries have been freed. */
  lemma SettledTail(v: Vol, u: Vol, z: Vol, i: nat, w: Draft, data: seq<byte>, x: Inode, ptrs: seq<u32>, any: bool)
    requires Complete(v, u, i, w, data) && BlocksFor(|data|) > DIRECT
    requires Trimmed(v, u, z, i, w, Slots(BlocksFor(|data|) + 1, SLOTS))
    requires x.kind == FILE && x.indirect == w.inode.indirect && x.blocks == w.inode.blocks
    requires |ptrs| == INDIRECT && forall e | 0 <= e < INDIRECT ::
      ptrs[e] == if e < BlocksFor(|data|) - DIRECT then w.ptrs[e] else 0
    requires !any ==> ptrs == w.ptrs
    ensures Settled(v, u, z, i, w, x, ptrs, w.dirty || any, BlocksFor(|data|))
  {
    hide Filled, Holds, Uses, DPtr, Trimmed, BlocksFor;
    TailSlots(BlocksFor(|data|));
    TrimmedDropped(v, u, z, i, w, Slots(BlocksFor(|data|) + 1, SLOTS), BlocksFor(|data|));
    TailHolds(v, u, i, w, data, x, ptrs, any);
    assert z.start == u.start && z.inodes == u.inodes && z.data == u.data && z.saved == u.saved by {
      TrimmedKeeps(v, u, z, i, w, Slots(BlocksFor(|data|) + 1, SLOTS));
    }
  }

  /** Slots not listed to be freed are used by the new version or empty. */
  lemma DirectSlots(v: Vol, u: Vol, i: nat, w: Draft, data: seq<byte>, k: nat)
    requires Complete(v, u, i, w, data) && k < SLOTS && !Uses(BlocksFor(|data|), k)
    requires k < DIRECT ==> k >= BlocksFor(w.inode.size)
    requires k >= DIRECT ==> w.inode.indirect == 0
    ensures DPtr(v, i, w, k) == 0
  {
    hide Filled, DPtr, OldOrFresh, DraftOwns;
    if k < DIRECT {
      UnusedIsEmpty(v, u, i, w, data, k);
    } else {
      NoIndirectIsEmpty(v, u, i, w, data, k);
    }
  }

  lemma DirectHolds(v: Vol, u: Vol, i: nat, w: Draft, data: seq<byte>, x: Inode)
    requires Complete(v, u, i, w, data) && BlocksFor(|data|) <= DIRECT && x.kind == FILE && x.indirect == 0
    requires forall k | 0 <= k < DIRECT ::
      x.blocks[k] == if BlocksFor(|data|) <= k < BlocksFor(w.inode.size) then 0 else w.inode.blocks[k]
    ensures Holds(v, i, w, x, w.ptrs, false, BlocksFor(|data|))
  {
    hide Filled, OldOrFresh, DraftOwns, BlocksFor;
    var n := BlocksFor(|data|);
    forall k | 0 <= k < DIRECT
      ensures x.blocks[k] == FinalPtr(v, i, w, n, k)
    {
      if k >= n && k >= BlocksFor(w.inode.size) {
        UnusedIsEmpty(v, u, i, w, data, k);
      }
    }
  }

  /** The new version fits the direct blocks: every other block has been freed. */
  lemma SettledDirect(v: Vol, u: Vol, z: Vol, i: nat, w: Draft, data: seq<byte>, x: Inode, ks: set<nat>)
    requires Complete(v, u, i, w, data) && BlocksFor(|data|) <= DIRECT && Trimmed(v, u, z, i, w, ks)
    requires var m := BlocksFor(w.inode.size);
      ks == Slots(BlocksFor(|data|), if m < DIRECT then m else DIRECT) +
            (if w.inode.indirect == 0 then {} else Slots(DIRECT, SLOTS))
    requires x.kind == FILE && x.indirect == 0
    requires forall k | 0 <= k < DIRECT ::
      x.blocks[k] == if BlocksFor(|data|) <= k < BlocksFor(w.inode.size) then 0 else w.inode.blocks[k]
    ensures Settled(v, u, z, i, w, x, w.ptrs, false, BlocksFor(|data|))
  {
    hide Filled, Holds, DPtr, Trimmed, BlocksFor, OldOrFresh, DraftOwns;
    var n := BlocksFor(|data|);
    forall k | 0 <= k < SLOTS && k !in ks && !Uses(n, k)
      ensures DPtr(v, i, w, k) == 0
    {
      DirectSlots(v, u, i, w, data, k);
    }
    TrimmedDropped(v, u, z, i, w, ks, n);
    TrimmedKeeps(v, u, z, i, w, ks);
    DirectHolds(v, u, i, w, data, x);
  }

  lemma CompleteFacts(v: Vol, u: Vol, i: nat, w: Draft, data: seq<byte>)
    requires Complete(v, u, i, w, data)
    ensures Drafted(v, u, i, w) && i < MAX_INODES && |w.ptrs| == INDIRECT && |data| <= MAX_FILE_SIZE
    ensures w.inode.kind == FILE && (w.loaded <==> BlocksFor(|data|) > DIRECT) && BlocksFor(|data|) <= DIRECT + INDIRECT
    ensures w.loaded ==> forall e | 0 <= e < INDIRECT :: w.ptrs[e] == DPtr(v, i, w, DIRECT + 1 + e)
  {
  }

  /** Frees the blocks of a longer earlier version. */
  method Truncate(st: Store, i: nat, w: Draft, data: seq<byte>, ghost v: Vol)
    returns (x: Inode, ptrs: seq<u32>, dirty: bool)
    requires st.Mounted() && Complete(v, st.State(), i, w, data) && i < MAX_INODES && |w.ptrs| == INDIRECT
    modifies st`disk, st.bitmap
    ensures st.Kept()
    ensures Settled(v, old(st.State()), st.State(), i, w, x, ptrs, dirty, BlocksFor(|data|))
  {
    hide VolOf, Formatted, BlockInv, Complete, Drafted, DPtr, Settled, Trimmed;
    ghost var u := st.State();
    CompleteFacts(v, u, i, w, data);
    var n, old_n := BlocksFor(|data|), BlocksFor(w.inode.size);
    x, ptrs, dirty := w.inode, w.ptrs, w.dirty;
    if old_n <= n {
      SettledLonger(v, u, i, w, data);
      return;
    }
    ghost var m := if old_n < DIRECT then old_n else DIRECT;
    x := TrimDirect(st, v, u, i, w, n, old_n);
    if n <= DIRECT {
      ghost var ks := Slots(n, m);
      if x.indirect != 0 {
        var src := IndirectEntries(st, v, u, i, w, data, ks);
        var _, _ := TrimEntries(st, v, u, i, w, ks, src, 0);
        ReleaseSlot(st, v, u, i, w, ks + Slots(DIRECT + 1, SLOTS), DIRECT, x.indirect);
        assert ks + Slots(DIRECT + 1, SLOTS) + {DIRECT} == ks + Slots(DIRECT, SLOTS);
        ks := ks + Slots(DIRECT, SLOTS);
        x := Inode(x.kind, x.size, x.blocks, 0);
      } else {
        assert ks + {} == ks;
      }
      dirty := false;
      SettledDirect(v, u, st.State(), i, w, data, x, ks);
    } else {
      assert Slots(n, m) == {};
      var any;
      assert {} + Slots(n + 1, SLOTS) == Slots(n + 1, SLOTS);
      ptrs, any := TrimEntries(st, v, u, i, w, {}, w.ptrs, n - DIRECT);
      dirty := dirty || any;
      assert x.blocks == w.inode.blocks;
      SettledTail(v, u, st.State(), i, w, data, x, ptrs, any);
    }
  }

  /** The entries of an indirect block that the write has not touched, read afresh. */
  method IndirectEntries(st: Store, ghost v: Vol, ghost u: Vol, i: nat, w: Draft, ghost data: seq<byte>,
                         ghost ks: set<nat>)
    returns (src: seq<u32>)
    requires st.Mounted() && Complete(v, u, i, w, data) && Trimmed(v, u, st.State(), i, w, ks)
    requires !w.loaded && w.inode.indirect != 0
    ensures |src| == INDIRECT && forall e | 0 <= e < INDIRECT :: src[e] == DPtr(v, i, w, DIRECT + 1 + e)
    ensures w.inode.indirect == DPtr(v, i, w, DIRECT)
  {
    hide VolOf, Formatted, BlockInv, Filled, Chunk;
    IndirectSafe(v, u, i, w, data, BlocksFor(|data|));
    DraftInData(v, u, i, w, DIRECT);
    VolBlock(st.sb, st.disk, st.bitmap[..], w.inode.indirect);
    var buf := st.BlockRead(w.inode.indirect);
    src := Pointers(buf);
  }

  /** The last writes: the indirect block if it changed, the bitmap, the inode with its new size. */
  function Finished(z: Vol, i: nat, x: Inode, ptrs: seq<u32>, dirty: bool, len: u32): Vol
    requires i < MAX_INODES && |ptrs| == INDIRECT
  {
    var w := if dirty then SetBlock(z, x.indirect, Pack(ptrs)) else z;
    SetInode(Flushed(w), i, Inode(x.kind, len, x.blocks, x.indirect))
  }

  lemma FinishedRewritten(v: Vol, u: Vol, z: Vol, i: nat, w: Draft, data: seq<byte>, x: Inode, ptrs: seq<u32>,
                          dirty: bool)
    requires Complete(v, u, i, w, data) && i < MAX_INODES && |w.ptrs| == INDIRECT && |data| <= MAX_FILE_SIZE
    requires Settled(v, u, z, i, w, x, ptrs, dirty, BlocksFor(|data|))
    ensures dirty ==> InData(z, x.indirect)
    ensures Rewritten(v, Finished(z, i, x, ptrs, dirty, |data|), i, w, data)
  {
    var f := Finished(z, i, x, ptrs, dirty, |data|);
    FinishedIndirect(v, u, z, i, w, data, x, ptrs, dirty);
    FinishedBlocks(v, u, z, i, w, data, x, ptrs, dirty);
    FinishedPtr(v, u, z, i, w, data, x, ptrs, dirty);
    FinishedBits(v, u, z, i, w, data, x, ptrs, dirty);
    hide Chunk, Pack, Complete, DraftOwns, Dropped, BlockAt, FinalPtr, Ptr, DPtr, Bit;
  }

  lemma FinishedBits(v: Vol, u: Vol, z: Vol, i: nat, w: Draft, data: seq<byte>, x: Inode, ptrs: seq<u32>, dirty: bool)
    requires Complete(v, u, i, w, data) && i < MAX_INODES && |w.ptrs| == INDIRECT && |data| <= MAX_FILE_SIZE
    requires Settled(v, u, z, i, w, x, ptrs, dirty, BlocksFor(|data|))
    ensures var f := Finished(z, i, x, ptrs, dirty, |data|); var n := BlocksFor(|data|);
      z.start == v.start && |z.data| == |v.data| && f.start == v.start && |f.data| == |v.data| && f.saved == f.bits &&
      (forall j | 0 <= j < MAX_INODES && j != i :: f.inodes[j] == v.inodes[j]) &&
      f.inodes[i].kind == FILE && f.inodes[i].size == |data| &&
      forall y | InData(v, y) :: Bit(f, y) <==> (Bit(v, y) || DraftOwns(v, i, w, y)) && !Dropped(v, i, w, n, y)
  {
    hide Filled, DPtr, Pack, Holds, Uses;
    HoldsFile(v, i, w, x, ptrs, dirty, BlocksFor(|data|));
    var f := Finished(z, i, x, ptrs, dirty, |data|);
    forall y | InData(v, y)
      ensures Bit(f, y) == Bit(z, y)
    {
    }
  }

  lemma HoldsFile(v: Vol, i: nat, w: Draft, x: Inode, ptrs: seq<u32>, dirty: bool, n: nat)
    requires i < MAX_INODES && |w.ptrs| == INDIRECT && Holds(v, i, w, x, ptrs, dirty, n)
    ensures x.kind == FILE && |ptrs| == INDIRECT
  {
  }

  /** The indirect slot is filled when entries are, and its block is the draft's alone. */
  lemma FinishedIndirect(v: Vol, u: Vol, z: Vol, i: nat, w: Draft, data: seq<byte>, x: Inode, ptrs: seq<u32>,
                         dirty: bool)
    requires Complete(v, u, i, w, data) && i < MAX_INODES && |w.ptrs| == INDIRECT && |data| <= MAX_FILE_SIZE
    requires Holds(v, i, w, x, ptrs, dirty, BlocksFor(|data|))
    ensures BlocksFor(|data|) > DIRECT ==> x.indirect == DPtr(v, i, w, DIRECT) != 0 && InData(v, x.indirect)
    ensures BlocksFor(|data|) > DIRECT && !dirty ==>
      x.indirect == v.inodes[i].indirect && BlockAt(u, x.indirect) == BlockAt(v, x.indirect)
    ensures BlocksFor(|data|) > DIRECT ==> forall c | 0 <= c < BlocksFor(|data|) ::
      DPtr(v, i, w, FileSlot(c)) != x.indirect
  {
    hide Chunk;
    var n := BlocksFor(|data|);
    if n > DIRECT {
      DraftInData(v, u, i, w, DIRECT);
      forall c | 0 <= c < n
        ensures DPtr(v, i, w, FileSlot(c)) != x.indirect
      {
        assert FileSlot(c) != DIRECT;
      }
      assert !Written(v, i, w, n, x.indirect);
      if !dirty {
        assert DPtr(v, i, w, n) == FinalPtr(v, i, w, n, n) == Ptr(v, i, n);
        assert OldOrFresh(v, i, w, DIRECT);
      }
    }
  }

  lemma NotOwnedIsOther(v: Vol, i: nat, w: Draft, y: nat, k: nat)
    requires i < MAX_INODES && |w.ptrs| == INDIRECT && k < SLOTS && !DraftOwns(v, i, w, y)
    ensures y != DPtr(v, i, w, k)
  {
    hide DPtr;
  }

  lemma FinishedElsewhere(u: Vol, z: Vol, i: nat, x: Inode, ptrs: seq<u32>, dirty: bool, len: u32, y: nat)
    requires i < MAX_INODES && |ptrs| == INDIRECT && z.start == u.start && z.data == u.data
    requires !(dirty && y == x.indirect)
    ensures BlockAt(Finished(z, i, x, ptrs, dirty, len), y) == BlockAt(u, y)
  {
    hide Pack;
  }

  lemma FinishedBlocks(v: Vol, u: Vol, z: Vol, i: nat, w: Draft, data: seq<byte>, x: Inode, ptrs: seq<u32>, dirty: bool)
    requires Complete(v, u, i, w, data) && i < MAX_INODES && |w.ptrs| == INDIRECT && |data| <= MAX_FILE_SIZE
    requires Settled(v, u, z, i, w, x, ptrs, dirty, BlocksFor(|data|))
    ensures var f := Finished(z, i, x, ptrs, dirty, |data|);
      (forall c | 0 <= c < BlocksFor(|data|) :: BlockAt(f, DPtr(v, i, w, FileSlot(c))) == Chunk(data, c)) &&
      (forall y | InData(v, y) && !DraftOwns(v, i, w, y) :: BlockAt(f, y) == BlockAt(v, y))
  {
    hide Chunk, Finished, DPtr, DraftOwns, Written, Uses, OldOrFresh;
    var n := BlocksFor(|data|);
    var f := Finished(z, i, x, ptrs, dirty, |data|);
    FinishedIndirect(v, u, z, i, w, data, x, ptrs, dirty);
    forall c | 0 <= c < n
      ensures BlockAt(f, DPtr(v, i, w, FileSlot(c))) == Chunk(data, c)
    {
      FinishedElsewhere(u, z, i, x, ptrs, dirty, |data|, DPtr(v, i, w, FileSlot(c)));
    }
    forall y | InData(v, y) && !DraftOwns(v, i, w, y)
      ensures BlockAt(f, y) == BlockAt(v, y)
    {
      NotOwnedNotWritten(v, i, w, n, y);
      NotOwnedIsOther(v, i, w, y, DIRECT);
      FinishedElsewhere(u, z, i, x, ptrs, dirty, |data|, y);
    }
  }

  lemma FinishedPtr(v: Vol, u: Vol, z: Vol, i: nat, w: Draft, data: seq<byte>, x: Inode, ptrs: seq<u32>, dirty: bool)
    requires Complete(v, u, i, w, data) && i < MAX_INODES && |w.ptrs| == INDIRECT && |data| <= MAX_FILE_SIZE
    requires Settled(v, u, z, i, w, x, ptrs, dirty, BlocksFor(|data|))
    ensures forall k | 0 <= k < SLOTS ::
      Ptr(Finished(z, i, x, ptrs, dirty, |data|), i, k) == FinalPtr(v, i, w, BlocksFor(|data|), k)
  {
    var n := BlocksFor(|data|);
    var f := Finished(z, i, x, ptrs, dirty, |data|);
    FinishedIndirect(v, u, z, i, w, data, x, ptrs, dirty);
    PointersPack(ptrs);
    hide Pack, Filled, Chunk, Drafted, Dropped, DPtr, Uses, BlocksFor, Progress, Written;
    assert f.inodes[i].blocks == x.blocks && f.inodes[i].indirect == x.indirect;
    forall k | 0 <= k < SLOTS
      ensures Ptr(f, i, k) == FinalPtr(v, i, w, n, k)
    {
      if k > DIRECT {
        if n <= DIRECT {
          assert x.indirect == 0;
        } else if dirty {
          assert BlockAt(f, x.indirect) == Pack(ptrs);
        } else {
          assert BlockAt(f, x.indirect) == BlockAt(v, v.inodes[i].indirect);
        }
      }
    }
  }

  /** nfs_write_path's tail, from a filled draft to the rewritten file on disk. */
  method Finish(st: Store, i: nat, w: Draft, data: seq<byte>, ghost v: Vol)
    requires st.Mounted() && Complete(v, st.State(), i, w, data) && i < MAX_INODES && |w.ptrs| == INDIRECT &&
      |data| <= MAX_FILE_SIZE
    modifies st`disk, st.bitmap
    ensures st.Kept() && Rewritten(v, st.State(), i, w, data)
  {
    hide VolOf, Formatted, BlockInv, Complete, Settled, Rewritten, Pack;
    ghost var u := st.State();
    var x, ptrs, dirty := Truncate(st, i, w, data, v);
    ghost var z := st.State();
    SettledSized(v, u, z, i, w, x, ptrs, dirty, BlocksFor(|data|));
    FinishedRewritten(v, u, z, i, w, data, x, ptrs, dirty);
    if dirty {
      PointersPack(ptrs);
      st.DataWrite(x.indirect, Pack(ptrs));
    }
    st.BitmapFlush();
    st.InodeWrite(i, Inode(x.kind, |data|, x.blocks, x.indirect));
  }

  lemma SettledSized(v: Vol, u: Vol, z: Vol, i: nat, w: Draft, x: Inode, ptrs: seq<u32>, dirty: bool, n: nat)
    requires i < MAX_INODES && |w.ptrs| == INDIRECT && Settled(v, u, z, i, w, x, ptrs, dirty, n)
    ensures |ptrs| == INDIRECT
  {
  }
}
