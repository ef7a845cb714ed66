/** nfs_format and nfs_mount: an empty tree to start from, and the disk alone determines the tree. */
module Mounting {
  import opened Bytes
  import Numbers
  import opened Layout
  import opened Volume
  import opened Image
  import opened Frames
  import opened Steps
  import opened Store
  import opened Trees
  import opened Linking
  import opened Creating
  import opened Rewrites
  import opened Space

  // ---- formatting ----

  function BitmapBlocksFor(total: nat): nat {
    var n := ((total + 7) / 8 + BLOCK_SIZE - 1) / BLOCK_SIZE;
    if n == 0 then 1 else n
  }

  /** The fewest blocks, but at least one, with a bit for each block of the disk. */
  lemma BitmapIsLeast(total: nat)
    ensures var k := BitmapBlocksFor(total);
      1 <= k && total <= 32768 * k && (k > 1 ==> 32768 * (k - 1) < total)
  {
    var b := (total + 7) / 8;
    assert 8 * b >= total && 8 * b <= total + 7;
    Numbers.DivMod(b + BLOCK_SIZE - 1, BLOCK_SIZE);
  }

  const TABLE_BLOCKS := (MAX_INODES * INODE_SIZE + BLOCK_SIZE - 1) / BLOCK_SIZE

  /** The first data block of a disk of `total` blocks. */
  function MetaBlocks(total: nat): nat {
    1 + BitmapBlocksFor(total) + TABLE_BLOCKS
  }

  function SuperFor(total: u32): Super
    requires MetaBlocks(total) <= total
  {
    Super(MAGIC, total, 1, BitmapBlocksFor(total), 1 + BitmapBlocksFor(total), TABLE_BLOCKS, MetaBlocks(total), 0)
  }

  lemma SuperForIsLaid(total: u32)
    requires MetaBlocks(total) <= total
    ensures Laid(SuperFor(total))
  {
  }

  const ROOT_PLAN: Plan := Plan(map[[] := Home(0, 0, 0)], map[0 := []], {})

  /** A volume on which nothing is used. */
  ghost predicate Blank(v: Vol) {
    && (forall i | 0 <= i < MAX_INODES :: v.inodes[i] == ZERO_INODE)
    && (forall k | 0 <= k < |v.bits| :: !v.bits[k]) && v.saved == v.bits
  }

  lemma BlankBlockInv(v: Vol)
    requires Blank(v)
    ensures BlockInv(v) && Leaked(v) == {}
  {
    forall i, k | 0 <= i < MAX_INODES && 0 <= k < SLOTS
      ensures Ptr(v, i, k) == 0
    {
    }
    forall i | 0 <= i < MAX_INODES
      ensures Shape(v, i)
    {
    }
  }

  lemma RootInv(v: Vol)
    requires Blank(v)
    ensures Inv(SetInode(v, 0, FreshInode(DIR)), ROOT_PLAN) && Leaked(SetInode(v, 0, FreshInode(DIR))) == {}
    ensures Tree(SetInode(v, 0, FreshInode(DIR)), ROOT_PLAN) == map[[] := Folder]
  {
    BlankBlockInv(v);
    FreshKeepsBlockInv(v, 0, DIR);
    RootTree(v);
  }

  lemma RootTree(v: Vol)
    requires Blank(v) && BlockInv(SetInode(v, 0, FreshInode(DIR)))
    ensures TreeInv(SetInode(v, 0, FreshInode(DIR)), ROOT_PLAN)
    ensures Tree(SetInode(v, 0, FreshInode(DIR)), ROOT_PLAN) == map[[] := Folder]
  {
    var w := SetInode(v, 0, FreshInode(DIR));
    assert HomeOk(w, ROOT_PLAN, []);
    forall i | 0 <= i < MAX_INODES
      ensures InoOk(w, ROOT_PLAN, i)
    {
    }
    hide BlockInv;
    assert NodeOf(w, ROOT_PLAN, []) == Folder;
  }

  lemma ZeroTable(sb: Super, disk: seq<Block>, i: nat)
    requires Laid(sb) && sb.totalBlocks <= |disk| && i < MAX_INODES
    requires forall n | sb.tableStart <= n < sb.dataStart :: disk[n] == ZERO_BLOCK
    ensures InodeAt(sb, disk, i) == ZERO_INODE
  {
    hide DecodeInode;
    assert disk[sb.tableStart + i / INODES_PER_BLOCK] == ZERO_BLOCK;
    var bs := Record(ZERO_BLOCK, INODE_SIZE, i % INODES_PER_BLOCK);
    assert forall j | 0 <= j < INODE_SIZE :: bs[j] == 0;
    ZeroInodeDecodes(bs);
  }

  lemma BlankAfterFormat(sb: Super, disk: seq<Block>, bytes: seq<byte>)
    requires Formatted(sb, disk, bytes) && (forall j | 0 <= j < |bytes| :: bytes[j] == 0)
    requires forall n | sb.tableStart <= n < sb.dataStart :: disk[n] == ZERO_BLOCK
    requires VolOf(sb, disk, bytes).saved == VolOf(sb, disk, bytes).bits
    ensures Blank(VolOf(sb, disk, bytes))
  {
    hide VolOf, InodeAt, Formatted, Laid;
    BlankInodes(sb, disk, bytes);
    BlankBits(sb, disk, bytes);
  }

  lemma BlankInodes(sb: Super, disk: seq<Block>, bytes: seq<byte>)
    requires Formatted(sb, disk, bytes)
    requires forall n | sb.tableStart <= n < sb.dataStart :: disk[n] == ZERO_BLOCK
    ensures forall i | 0 <= i < MAX_INODES :: VolOf(sb, disk, bytes).inodes[i] == ZERO_INODE
  {
    hide VolOf, InodeAt;
    forall i | 0 <= i < MAX_INODES
      ensures VolOf(sb, disk, bytes).inodes[i] == ZERO_INODE
    {
      ZeroTable(sb, disk, i);
      VolInode(sb, disk, bytes, i);
    }
  }

  lemma BlankBits(sb: Super, disk: seq<Block>, bytes: seq<byte>)
    requires Formatted(sb, disk, bytes) && (forall j | 0 <= j < |bytes| :: bytes[j] == 0)
    ensures forall k | 0 <= k < |VolOf(sb, disk, bytes).bits| :: !VolOf(sb, disk, bytes).bits[k]
  {
    hide VolOf, Formatted;
    VolBitCount(sb, disk, bytes);
    forall k | 0 <= k < |VolOf(sb, disk, bytes).bits|
      ensures !VolOf(sb, disk, bytes).bits[k]
    {
      BlankBit(sb, disk, bytes, k);
    }
  }

  lemma BlankBit(sb: Super, disk: seq<Block>, bytes: seq<byte>, k: nat)
    requires Formatted(sb, disk, bytes) && (forall j | 0 <= j < |bytes| :: bytes[j] == 0)
    requires k < |VolOf(sb, disk, bytes).bits|
    ensures !VolOf(sb, disk, bytes).bits[k]
  {
    hide VolOf, InodeAt;
    VolBitCount(sb, disk, bytes);
    VolBit(sb, disk, bytes, k);
    ZeroBits(k % 8);
  }

  lemma VolBitCount(sb: Super, disk: seq<Block>, bytes: seq<byte>)
    requires Formatted(sb, disk, bytes)
    ensures |VolOf(sb, disk, bytes).bits| == sb.totalBlocks - sb.dataStart
  {
  }

  /** Only the root directory exists, and no block is in use. */
  ghost predicate Pristine(v: Vol) {
    && v.inodes[0] == FreshInode(DIR) && (forall i | 0 < i < MAX_INODES :: v.inodes[i] == ZERO_INODE)
    && (forall k | 0 <= k < |v.bits| :: !v.bits[k]) && Synced(v)
  }

  lemma PristineIsFree(v: Vol)
    requires Pristine(v)
    ensures Free(v) == |v.data|
  {
    CountClear(v.bits);
  }

  lemma {:induction false} CountClear(bits: seq<bool>)
    requires forall k | 0 <= k < |bits| :: !bits[k]
    ensures |ClearBits(bits)| == |bits|
  {
    if bits != [] {
      var n := |bits| - 1;
      CountClear(bits[..n]);
      assert ClearBits(bits) == ClearBits(bits[..n]) + {n};
    } else {
      assert ClearBits(bits) == {};
    }
  }

  /** Formatting a disk larger than its metadata gives the empty tree, with no block in use. */
  method Format(st: Store, sectors: u32)
    requires MetaBlocks(sectors / SECTORS_PER_BLOCK) <= sectors / SECTORS_PER_BLOCK <= |st.disk|
    requires 1 <= st.inodeCursor <= MAX_INODES
    modifies st
    ensures Good(st) && fresh(st.bitmap) && TreeOf(st) == map[[] := Folder]
    ensures Leaked(st.State()) == {} && Pristine(st.State()) && st.plan == ROOT_PLAN
    ensures st.sb == SuperFor(sectors / SECTORS_PER_BLOCK)
  {
    hide VolOf, SavedBytes, InodeAt, BlockInv, TreeInv, BitmapBlocksFor, Pack, Tree, Leaked;
    var total := sectors / SECTORS_PER_BLOCK;
    SuperForIsLaid(total);
    st.sb := SuperFor(total);
    var block := EncodeSuper(st.sb) + Zeros(BLOCK_SIZE - 32);
    st.BlockWrite(0, block);
    SuperRoundTrip(st.sb, block);
    st.bitmap := new byte[BLOCK_SIZE * st.sb.bitmapBlocks](_ => 0);
    assert forall j | 0 <= j < |st.bitmap[..]| :: st.bitmap[..][j] == 0;
    assert st.Mounted();
    st.BitmapFlush();
    ZeroTheTable(st);
    st.InodeWrite(0, FreshInode(DIR));
    st.plan := ROOT_PLAN;
  }

  /** Zeroes the inode table block by block. */
  method ZeroTheTable(st: Store)
    requires st.Mounted() && st.State().saved == st.State().bits && forall j | 0 <= j < st.bitmap.Length ::
      st.bitmap[j] == 0
    modifies st`disk
    ensures st.Kept() && Blank(st.State())
    ensures Inv(SetInode(st.State(), 0, FreshInode(DIR)), ROOT_PLAN) &&
      Leaked(SetInode(st.State(), 0, FreshInode(DIR))) == {}
    ensures Tree(SetInode(st.State(), 0, FreshInode(DIR)), ROOT_PLAN) == map[[] := Folder]
  {
    hide VolOf, SavedBytes, InodeAt, Blank, Inv, Tree, Leaked, DecodeSuper;
    ghost var disk0 := st.disk;
    var b := 0;
    while b < st.sb.tableBlocks
      invariant 0 <= b <= st.sb.tableBlocks && |st.disk| == |disk0|
      invariant forall n | 0 <= n < |disk0| && !(st.sb.tableStart <= n < st.sb.tableStart + b) :: st.disk[n] == disk0[n]
      invariant forall n | st.sb.tableStart <= n < st.sb.tableStart + b :: st.disk[n] == ZERO_BLOCK
    {
      st.BlockWrite(st.sb.tableStart + b, ZERO_BLOCK);
      b := b + 1;
    }
    TableZeroed(st.sb, disk0, st.disk, st.bitmap[..]);
  }

  lemma TableZeroed(sb: Super, disk: seq<Block>, disk': seq<Block>, bytes: seq<byte>)
    requires Formatted(sb, disk, bytes) && |disk'| == |disk| &&
      VolOf(sb, disk, bytes).saved == VolOf(sb, disk, bytes).bits
    requires forall j | 0 <= j < |bytes| :: bytes[j] == 0
    requires forall n | 0 <= n < sb.tableStart :: disk'[n] == disk[n]
    requires forall n | sb.tableStart <= n < sb.dataStart :: disk'[n] == ZERO_BLOCK
    ensures Formatted(sb, disk', bytes) && Blank(VolOf(sb, disk', bytes))
    ensures var w := SetInode(VolOf(sb, disk', bytes), 0, FreshInode(DIR));
      Inv(w, ROOT_PLAN) && Leaked(w) == {} && Tree(w, ROOT_PLAN) == map[[] := Folder]
  {
    hide VolOf, InodeAt, BlockInv, TreeInv, Tree, Leaked, Blank;
    SavedSame(sb, disk, disk', bytes);
    BlankAfterFormat(sb, disk', bytes);
    RootInv(VolOf(sb, disk', bytes));
  }

  lemma SavedSame(sb: Super, disk: seq<Block>, disk': seq<Block>, bytes: seq<byte>)
    requires Formatted(sb, disk, bytes) && |disk'| == |disk|
    requires forall n | 0 <= n < sb.tableStart :: disk'[n] == disk[n]
    ensures Formatted(sb, disk', bytes) && VolOf(sb, disk', bytes).bits == VolOf(sb, disk, bytes).bits
    ensures VolOf(sb, disk', bytes).saved == VolOf(sb, disk, bytes).saved
  {
    assert SavedBytes(sb, disk') == SavedBytes(sb, disk);
  }

  // ---- mounting ----

  /** The volume as the next mount will see it: the bitmap in memory is forgotten for the one on disk. */
  function Reread(v: Vol): Vol {
    Vol(v.start, v.inodes, v.data, v.saved, v.saved)
  }

  /**
   * A disk left behind by any run is mounted to the same tree. Of the leaked blocks those come
   * back that were never marked on disk; no others leak.
   */
  lemma RereadKeeps(v: Vol, g: Plan)
    requires Inv(v, g)
    ensures Inv(Reread(v), g) && Tree(Reread(v), g) == Tree(v, g)
    ensures Synced(v) ==> Reread(v) == v
    ensures Tidy(v) ==> Leaked(Reread(v)) <= Leaked(v)
  {
    var w := Reread(v);
    assert forall i, k | 0 <= i < MAX_INODES && 0 <= k < SLOTS :: Ptr(w, i, k) == Ptr(v, i, k);
    RereadBlockInv(v, w);
    RereadTreeInv(v, w, g);
    hide BlockInv, TreeInv;
    forall i | 0 <= i < MAX_INODES
      ensures SameFile(v, w, i)
    {
      if v.inodes[i].size <= MAX_FILE_SIZE {
        KeepsContent(v, w, i);
      }
    }
    SameTree(v, w, g);
  }

  lemma RereadBlockInv(v: Vol, w: Vol)
    requires BlockInv(v) && w == Reread(v)
    requires forall i, k | 0 <= i < MAX_INODES && 0 <= k < SLOTS :: Ptr(w, i, k) == Ptr(v, i, k)
    ensures BlockInv(w)
  {
    forall i | 0 <= i < MAX_INODES
      ensures Shape(w, i)
    {
      assert Shape(v, i);
    }
    forall i, k | 0 <= i < MAX_INODES && 0 <= k < SLOTS && Ptr(w, i, k) != 0
      ensures Bit(w, Ptr(w, i, k)) && SavedBit(w, Ptr(w, i, k))
    {
      assert SavedBit(v, Ptr(v, i, k));
    }
  }

  lemma RereadTreeInv(v: Vol, w: Vol, g: Plan)
    requires TreeInv(v, g) && w == Reread(v)
    ensures TreeInv(w, g)
  {
    hide TreeInv, DirentAt;
    SameEntries(v, w, g);
  }

  lemma MountSees(sb: Super, disk: seq<Block>, bytes: seq<byte>)
    requires Formatted(sb, disk, bytes)
    ensures Formatted(sb, disk, SavedBytes(sb, disk))
    ensures VolOf(sb, disk, SavedBytes(sb, disk)) == Reread(VolOf(sb, disk, bytes))
  {
    hide InodeAt, BitsOf, DecodeSuper;
  }

  /** The disk was left by a run that had it mounted with the bitmap `bytes` and the tree of `g`. */
  ghost predicate LeftBy(disk: seq<Block>, bytes: seq<byte>, g: Plan) {
    Formatted(DecodeSuper(DiskRead(disk, 0)), disk, bytes) && Inv(VolOf(DecodeSuper(DiskRead(disk, 0)), disk, bytes), g)
  }

  ghost predicate Mounts(disk: seq<Block>, bytes: seq<byte>, g: Plan, w: Vol)
    requires LeftBy(disk, bytes, g)
  {
    && w == Reread(VolOf(DecodeSuper(DiskRead(disk, 0)), disk, bytes)) && Inv(w, g)
    && Tree(w, g) == Tree(VolOf(DecodeSuper(DiskRead(disk, 0)), disk, bytes), g)
  }

  /** Mounting rebuilds everything from the disk alone: after any run the same tree, and the same volume unless a write
      had failed since the bitmap was last saved. */
  method Mount(st: Store, ghost bytes: seq<byte>, ghost g: Plan) returns (ok: bool)
    modifies st
    ensures st.disk == old(st.disk) && st.inodeCursor == old(st.inodeCursor)
    ensures ok <==> DecodeSuper(DiskRead(st.disk, 0)).magic == MAGIC
    ensures ok ==> fresh(st.bitmap) && st.bitmap[..] == SavedBytes(st.sb, st.disk)
    ensures !ok ==> st.bitmap == old(st.bitmap)
    ensures LeftBy(st.disk, bytes, g) && 1 <= st.inodeCursor <= MAX_INODES ==>
      ok && Good(st) && st.plan == g && Mounts(st.disk, bytes, g, st.State())
  {
    hide VolOf, SavedBytes, DecodeSuper, Inv, Tree, Laid;
    var block := st.BlockRead(0);
    st.sb := DecodeSuper(block);
    if LeftBy(st.disk, bytes, g) {
      LeftFacts(st.disk, bytes, g);
    }
    if st.sb.magic != MAGIC {
      return false;
    }
    st.bitmap := new byte[BLOCK_SIZE * st.sb.bitmapBlocks];
    ReadBitmap(st.sb, st.disk, st.bitmap, st);
    st.plan := g;
    ok := true;
  }

  lemma LeftFacts(disk: seq<Block>, bytes: seq<byte>, g: Plan)
    requires LeftBy(disk, bytes, g)
    ensures var sb := DecodeSuper(DiskRead(disk, 0));
      sb.magic == MAGIC && Formatted(sb, disk, SavedBytes(sb, disk)) && Inv(VolOf(sb, disk, SavedBytes(sb, disk)), g) &&
      Mounts(disk, bytes, g, VolOf(sb, disk, SavedBytes(sb, disk)))
  {
    hide VolOf, SavedBytes, DecodeSuper, Inv, Tree;
    var sb := DecodeSuper(DiskRead(disk, 0));
    MountSees(sb, disk, bytes);
    RereadKeeps(VolOf(sb, disk, bytes), g);
  }

  /** Copies the saved bitmap into memory block by block. */
  method ReadBitmap(sb: Super, ghost disk: seq<Block>, bitmap: array<byte>, st: Store)
    requires st.disk == disk && bitmap.Length == BLOCK_SIZE * sb.bitmapBlocks
    modifies bitmap
    ensures bitmap[..] == SavedBytes(sb, disk)
  {
    var i := 0;
    while i < sb.bitmapBlocks
      invariant 0 <= i <= sb.bitmapBlocks
      invariant forall j | 0 <= j < BLOCK_SIZE * i :: bitmap[j] == SavedBytes(sb, disk)[j]
    {
      var block := st.BlockRead(sb.bitmapStart + i);
      forall j | 0 <= j < BLOCK_SIZE {
        bitmap[BLOCK_SIZE * i + j] := block[j];
      }
      forall j | BLOCK_SIZE * i <= j < BLOCK_SIZE * (i + 1)
        ensures bitmap[j] == SavedBytes(sb, disk)[j]
      {
        assert j / BLOCK_SIZE == i;
        assert bitmap[BLOCK_SIZE * i + (j - BLOCK_SIZE * i)] == block[j - BLOCK_SIZE * i];
      }
      i := i + 1;
    }
  }

  // ---- the disk determines the tree ----

  /** Two witnesses for the same inodes and blocks agree on every path. */
  lemma {:induction false} SameHome(v: Vol, w: Vol, g: Plan, h: Plan, p: Path)
    requires TreeInv(v, g) && TreeInv(w, h) && w.start == v.start && w.inodes == v.inodes && w.data == v.data &&
      p in g.home
    ensures p in h.home && h.home[p].ino == g.home[p].ino
    decreases |p|
  {
    assert HomeOk(v, g, p);
    if p == [] {
      assert HomeOk(w, h, []);
    } else {
      SameHome(v, w, g, h, Init(p));
      SameChild(v, w, g, h, p);
    }
  }

  lemma SameChild(v: Vol, w: Vol, g: Plan, h: Plan, p: Path)
    requires TreeInv(v, g) && TreeInv(w, h) && w.start == v.start && w.inodes == v.inodes && w.data == v.data
    requires p in g.home && p != [] && HomeOk(v, g, p) && Init(p) in h.home &&
      h.home[Init(p)].ino == g.home[Init(p)].ino
    ensures p in h.home && h.home[p].ino == g.home[p].ino
  {
    hide NameField, Matches, Ent;
    var n := Last(p);
    assert Init(p) + [n] == p;
    assert HomeOk(w, h, Init(p));
    MatchesOwnField(n, n);
    SameEnt(v, w, g.home[Init(p)].ino, g.home[p].b, g.home[p].s);
    MatchIsChild(w, h, Init(p), n, g.home[p].b, g.home[p].s);
  }

  lemma SameEnt(v: Vol, w: Vol, i: nat, b: nat, s: nat)
    requires w.start == v.start && w.inodes == v.inodes && w.data == v.data
    requires i < MAX_INODES && b < DIRECT && s < DIRENTS_PER_BLOCK
    ensures Ent(w, i, b, s) == Ent(v, i, b, s)
  {
    hide DirentAt;
  }

  /** The bytes on disk determine the tree: no two trees fit the same inode table and data blocks. */
  lemma TreeDetermined(v: Vol, w: Vol, g: Plan, h: Plan)
    requires Inv(v, g) && Inv(w, h) && w.start == v.start && w.inodes == v.inodes && w.data == v.data
    ensures Tree(v, g) == Tree(w, h)
  {
    hide BlockInv, TreeInv;
    forall p
      ensures p in g.home <==> p in h.home
      ensures p in g.home ==> p in h.home && NodeOf(v, g, p) == NodeOf(w, h, p)
    {
      if p in g.home {
        SameHome(v, w, g, h, p);
        SameNodes(v, w, g, h, p);
      }
      if p in h.home {
        SameHome(w, v, h, g, p);
      }
    }
  }

  lemma SameNodes(v: Vol, w: Vol, g: Plan, h: Plan, p: Path)
    requires Inv(v, g) && Inv(w, h) && w.start == v.start && w.inodes == v.inodes && w.data == v.data
    requires p in g.home && p in h.home && h.home[p].ino == g.home[p].ino
    ensures NodeOf(v, g, p) == NodeOf(w, h, p)
  {
    assert HomeOk(v, g, p) && Shape(v, g.home[p].ino);
    assert Keeps(v, w, g.home[p].ino);
    RewrittenNode(v, w, g.home[p].ino);
  }
}
