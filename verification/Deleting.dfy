/** delete_inode_recursive: a whole subtree of inodes and all their blocks are freed, and nothing else. */
module Deleting {
  import opened Bytes
  import opened Layout
  import opened Volume
  import opened Accounts
  import opened Image
  import opened Store
  import opened Trees
  import opened Paths
  import opened Reading
  import opened Drafts
  import opened Truncating

  /** `z` is `u` with the inodes `js` zeroed and the blocks they owned in `v` cleared. */
  ghost predicate Freed(v: Vol, u: Vol, z: Vol, js: set<nat>) {
    && z.start == u.start && z.data == u.data && |z.inodes| == |u.inodes|
    && (forall j | 0 <= j < MAX_INODES :: z.inodes[j] == if j in js then ZERO_INODE else u.inodes[j])
    && (forall y | InData(u, y) :: Bit(z, y) <==> Bit(u, y) && !OwnedIn(v, js, y))
  }

  lemma FreedNothing(v: Vol, u: Vol)
    ensures Freed(v, u, u, {})
  {
  }

  lemma FreedBoth(v: Vol, u: Vol, z: Vol, z': Vol, a: set<nat>, b: set<nat>)
    requires Freed(v, u, z, a) && Freed(v, z, z', b)
    ensures Freed(v, u, z', a + b)
  {
    hide Ptr;
    forall y | InData(u, y)
      ensures OwnedIn(v, a + b, y) <==> OwnedIn(v, a, y) || OwnedIn(v, b, y)
    {
      OwnedUnion(v, a, b, y);
    }
  }

  // ---- the children visited so far ----

  predicate Before(h: Home, b: nat, s: nat) {
    h.b < b || (h.b == b && h.s < s)
  }

  /** The child of `p` a deeper path goes through. */
  function Via(p: Path, q: Path): Path
    requires p <= q && p != q
  {
    q[..|p| + 1]
  }

  /** The inodes below the children of `p` whose entries come before slot (b, s). */
  ghost function Done(g: Plan, p: Path, b: nat, s: nat): set<nat> {
    set j | j in g.path && p <= g.path[j] && p != g.path[j] && Via(p, g.path[j]) in g.home &&
      Before(g.home[Via(p, g.path[j])], b, s)
  }

  /** A used entry leads to exactly one child. */
  lemma DoneUsed(v: Vol, g: Plan, p: Path, n: Name, b: nat, s: nat)
    requires TreeInv(v, g) && p in g.home && HomeOk(v, g, p) && p + [n] in g.home
    requires g.home[p + [n]].b == b && g.home[p + [n]].s == s
    ensures Done(g, p, b, s + 1) == Done(g, p, b, s) + Below(g, p + [n])
    ensures Done(g, p, b, s) !! Below(g, p + [n])
  {
    var q := p + [n];
    forall j | j in g.path && p <= g.path[j] && p != g.path[j] && Via(p, g.path[j]) in g.home &&
      g.home[Via(p, g.path[j])].b == b && g.home[Via(p, g.path[j])].s == s
      ensures Via(p, g.path[j]) == q
    {
      SameSlotSameChild(v, g, p, Via(p, g.path[j]), q);
    }
    assert Via(p, q) == q;
    forall j | j in Below(g, q)
      ensures p <= g.path[j] && p != g.path[j] && Via(p, g.path[j]) == q
    {
      assert p <= q;
    }
  }

  lemma SameSlotSameChild(v: Vol, g: Plan, p: Path, q: Path, r: Path)
    requires TreeInv(v, g) && q in g.home && r in g.home && |q| == |r| == |p| + 1 && p <= q && p <= r
    requires g.home[q].b == g.home[r].b && g.home[q].s == g.home[r].s
    ensures q == r
  {
    assert Init(q) == p && Init(r) == p;
    assert HomeOk(v, g, q) && HomeOk(v, g, r);
    OneName(v, g, q, r);
  }

  /** An unused entry leads nowhere. */
  lemma DoneUnused(v: Vol, g: Plan, p: Path, b: nat, s: nat)
    requires TreeInv(v, g) && p in g.home && HomeOk(v, g, p) && b < DIRECT && s < DIRENTS_PER_BLOCK
    requires Ent(v, g.home[p].ino, b, s).used == 0
    ensures Done(g, p, b, s + 1) == Done(g, p, b, s)
  {
    forall j | j in g.path && p <= g.path[j] && p != g.path[j] && Via(p, g.path[j]) in g.home
      ensures !(g.home[Via(p, g.path[j])].b == b && g.home[Via(p, g.path[j])].s == s)
    {
      var c := Via(p, g.path[j]);
      assert HomeOk(v, g, c);
      assert Init(c) == p;
    }
  }

  lemma ChildSlot(v: Vol, g: Plan, p: Path, c: Path)
    requires TreeInv(v, g) && c in g.home && p <= c && |c| == |p| + 1
    ensures p in g.home && g.home[c].b < DIRECT && g.home[c].s < DIRENTS_PER_BLOCK
    ensures g.home[p].ino < MAX_INODES && Ent(v, g.home[p].ino, g.home[c].b, g.home[c].s).used != 0
  {
    assert HomeOk(v, g, c);
    assert Init(c) == p;
  }

  lemma DoneBlock(v: Vol, g: Plan, p: Path, b: nat)
    requires TreeInv(v, g) && p in g.home && HomeOk(v, g, p)
    ensures Done(g, p, b, DIRENTS_PER_BLOCK) == Done(g, p, b + 1, 0)
  {
    forall j | j in g.path && p <= g.path[j] && p != g.path[j] && Via(p, g.path[j]) in g.home
      ensures g.home[Via(p, g.path[j])].s < DIRENTS_PER_BLOCK
    {
      ChildSlot(v, g, p, Via(p, g.path[j]));
    }
  }

  lemma DoneMissing(v: Vol, g: Plan, p: Path, b: nat)
    requires TreeInv(v, g) && p in g.home && HomeOk(v, g, p) && b < DIRECT && v.inodes[g.home[p].ino].blocks[b] == 0
    ensures Done(g, p, b, 0) == Done(g, p, b + 1, 0)
  {
    forall j | j in g.path && p <= g.path[j] && p != g.path[j] && Via(p, g.path[j]) in g.home
      ensures g.home[Via(p, g.path[j])].b != b
    {
      ChildSlot(v, g, p, Via(p, g.path[j]));
    }
  }

  lemma DoneAll(v: Vol, g: Plan, p: Path)
    requires TreeInv(v, g) && p in g.home && HomeOk(v, g, p)
    ensures Done(g, p, DIRECT, 0) + {g.home[p].ino} == Below(g, p)
    ensures g.home[p].ino in Below(g, p)
  {
    var i := g.home[p].ino;
    forall j | j in Below(g, p) && j != i
      ensures j in Done(g, p, DIRECT, 0)
    {
      assert j < MAX_INODES && InoOk(v, g, j);
      var c := Via(p, g.path[j]);
      PrefixLives(v, g, g.path[j], c);
      ChildSlot(v, g, p, c);
    }
  }

  lemma DoneNone(v: Vol, g: Plan, p: Path)
    ensures Done(g, p, 0, 0) == {}
  {
  }

  // ---- the recursion ----

  /** The subtree at `p` has not been touched yet. */
  ghost predicate Intact(v: Vol, u: Vol, g: Plan, p: Path) {
    && u.start == v.start && u.data == v.data
    && forall j | j in Below(g, p) && 0 <= j < MAX_INODES :: u.inodes[j] == v.inodes[j]
  }

  lemma IntactChild(v: Vol, u: Vol, z: Vol, g: Plan, p: Path, n: Name, js: set<nat>)
    requires Intact(v, u, g, p) && Freed(v, u, z, js) && js !! Below(g, p + [n])
    ensures Intact(v, z, g, p + [n])
  {
    assert p <= p + [n];
  }

  /** A child's subtree is a proper part of its parent's. */
  lemma ChildIsSmaller(v: Vol, g: Plan, p: Path, n: Name)
    requires TreeInv(v, g) && p in g.home && HomeOk(v, g, p)
    ensures Below(g, p + [n]) < Below(g, p)
  {
    assert p <= p + [n];
    assert g.home[p].ino in Below(g, p) && g.home[p].ino !in Below(g, p + [n]);
  }

  method DeleteInodeRecursive(st: Store, i: nat, ghost v: Vol, ghost g: Plan, ghost p: Path)
    requires st.Mounted() && Inv(v, g) && p in g.home && g.home[p].ino == i && Intact(v, st.State(), g, p)
    modifies st, st.bitmap
    ensures st.Kept() && st.inodeCursor == old(st.inodeCursor)
    ensures Freed(v, old(st.State()), st.State(), Below(g, p)) && st.State().saved == st.State().bits
    decreases Below(g, p), 1
  {
    hide VolOf, Formatted, BlockInv, TreeInv, Freed, Below;
    ghost var u := st.State();
    LiveHome(v, g, p);
    DoneAllInv(v, g, p);
    IntactSelf(v, u, g, p);
    var x := st.InodeRead(i);
    if x.kind == DIR {
      DeleteChildren(st, i, x, v, g, p);
    } else {
      FileHasNoChildren(v, u, g, p);
    }
    ghost var z := st.State();
    FreedFacts(v, u, z, Done(g, p, DIRECT, 0));
    FreeOwnBlocks(st, x, i, v);
    FreedBoth(v, u, z, st.State(), Done(g, p, DIRECT, 0), {i});
  }

  lemma DoneAllInv(v: Vol, g: Plan, p: Path)
    requires Inv(v, g) && p in g.home && HomeOk(v, g, p)
    ensures Done(g, p, DIRECT, 0) + {g.home[p].ino} == Below(g, p)
  {
    DoneAll(v, g, p);
  }

  lemma IntactSelf(v: Vol, u: Vol, g: Plan, p: Path)
    requires p in g.home && HomeOk(v, g, p) && Intact(v, u, g, p)
    ensures u.inodes[g.home[p].ino] == v.inodes[g.home[p].ino]
  {
    assert g.home[p].ino in Below(g, p);
  }

  lemma FreedFacts(v: Vol, u: Vol, z: Vol, js: set<nat>)
    requires Freed(v, u, z, js)
    ensures z.start == u.start && z.data == u.data
  {
  }

  lemma FileHasNoChildren(v: Vol, u: Vol, g: Plan, p: Path)
    requires Inv(v, g) && p in g.home && HomeOk(v, g, p) && Kind(v, g.home[p].ino) != DIR
    ensures Freed(v, u, u, Done(g, p, DIRECT, 0))
  {
    forall j | j in Done(g, p, DIRECT, 0)
      ensures false
    {
      InnerIsFolder(v, g, p, Via(p, g.path[j]));
    }
    assert Done(g, p, DIRECT, 0) == {};
    FreedNothing(v, u);
  }

  method DeleteChildren(st: Store, i: nat, x: Inode, ghost v: Vol, ghost g: Plan, ghost p: Path)
    requires st.Mounted() && Inv(v, g) && p in g.home && g.home[p].ino == i && HomeOk(v, g, p) &&
      Intact(v, st.State(), g, p)
    requires x == v.inodes[i] && x.kind == DIR
    modifies st, st.bitmap
    ensures st.Kept() && st.inodeCursor == old(st.inodeCursor)
    ensures Freed(v, old(st.State()), st.State(), Done(g, p, DIRECT, 0))
    decreases Below(g, p), 0
  {
    hide VolOf, Formatted, BlockInv, TreeInv, Freed, Below, Done, Intact;
    ghost var u := st.State();
    DoneNone(v, g, p);
    FreedNothing(v, u);
    var b := 0;
    while b < DIRECT
      invariant st.Kept() && st.inodeCursor == old(st.inodeCursor) && 0 <= b <= DIRECT
      invariant Freed(v, u, st.State(), Done(g, p, b, 0))
    {
      if x.blocks[b] == 0 {
        DoneMissingInv(v, g, p, b);
      } else {
        DeleteBlock(st, i, x, b, v, u, g, p);
      }
      b := b + 1;
    }
  }

  lemma DoneMissingInv(v: Vol, g: Plan, p: Path, b: nat)
    requires Inv(v, g) && p in g.home && HomeOk(v, g, p) && b < DIRECT && v.inodes[g.home[p].ino].blocks[b] == 0
    ensures Done(g, p, b, 0) == Done(g, p, b + 1, 0)
  {
    DoneMissing(v, g, p, b);
  }

  /** Deletes what the entries of block `b` of a directory lead to. */
  method DeleteBlock(st: Store, i: nat, x: Inode, b: nat, ghost v: Vol, ghost u: Vol, ghost g: Plan, ghost p: Path)
    requires st.Mounted() && Inv(v, g) && p in g.home && g.home[p].ino == i && HomeOk(v, g, p) && Intact(v, u, g, p)
    requires x == v.inodes[i] && x.kind == DIR && b < DIRECT && x.blocks[b] != 0 &&
      Freed(v, u, st.State(), Done(g, p, b, 0))
    modifies st, st.bitmap
    ensures st.Kept() && st.inodeCursor == old(st.inodeCursor)
    ensures Freed(v, u, st.State(), Done(g, p, b + 1, 0))
    decreases Below(g, p), 0, DIRECT - b
  {
    hide VolOf, Formatted, BlockInv, TreeInv, Freed, Below, Done, Intact, DirentAt;
    var buf := st.BlockRead(x.blocks[b]);
    BlockOfFolder(st.sb, st.disk, st.bitmap[..], v, u, g, p, b);
    var s := 0;
    while s < DIRENTS_PER_BLOCK
      invariant st.Kept() && st.inodeCursor == old(st.inodeCursor) && 0 <= s <= DIRENTS_PER_BLOCK
      invariant Freed(v, u, st.State(), Done(g, p, b, s))
    {
      assert Ent(v, i, b, s) == DirentAt(buf, s);
      if DirentAt(buf, s).used != 0 {
        ghost var n := ChildOf(v, g, p, b, s);
        ghost var z := st.State();
        IntactChildInv(v, u, z, g, p, n, b, s);
        DeleteInodeRecursive(st, DirentAt(buf, s).inode, v, g, p + [n]);
        FreedBoth(v, u, z, st.State(), Done(g, p, b, s), Below(g, p + [n]));
      } else {
        DoneUnusedInv(v, g, p, b, s);
      }
      s := s + 1;
    }
    DoneBlockInv(v, g, p, b);
  }

  lemma BlockOfFolder(sb: Super, disk: seq<Block>, bytes: seq<byte>, v: Vol, u: Vol, g: Plan, p: Path, b: nat)
    requires Formatted(sb, disk, bytes) && Inv(v, g) && p in g.home && HomeOk(v, g, p) && Intact(v, u, g, p)
    requires Freed(v, u, VolOf(sb, disk, bytes), Done(g, p, b, 0)) && b < DIRECT &&
      v.inodes[g.home[p].ino].blocks[b] != 0
    ensures BlockAt(v, v.inodes[g.home[p].ino].blocks[b]) == DiskRead(disk, v.inodes[g.home[p].ino].blocks[b])
  {
    hide VolOf, Formatted;
    var y := v.inodes[g.home[p].ino].blocks[b];
    assert Ptr(v, g.home[p].ino, b) == y;
    VolBlock(sb, disk, bytes, y);
  }

  lemma ChildOf(v: Vol, g: Plan, p: Path, b: nat, s: nat) returns (n: Name)
    requires Inv(v, g) && p in g.home && HomeOk(v, g, p) && Kind(v, g.home[p].ino) == DIR && b < DIRECT &&
      s < DIRENTS_PER_BLOCK
    requires Ent(v, g.home[p].ino, b, s).used != 0
    ensures p + [n] in g.home && g.home[p + [n]] == Home(Ent(v, g.home[p].ino, b, s).inode, b, s)
  {
    assert EntOk(v, g, g.home[p].ino, b, s);
    n :| ValidName(n) && Listed(v, g, g.home[p].ino, b, s, n);
  }

  lemma IntactChildInv(v: Vol, u: Vol, z: Vol, g: Plan, p: Path, n: Name, b: nat, s: nat)
    requires Inv(v, g) && p in g.home && HomeOk(v, g, p) && p + [n] in g.home && g.home[p + [n]].b == b &&
      g.home[p + [n]].s == s
    requires Intact(v, u, g, p) && Freed(v, u, z, Done(g, p, b, s))
    ensures Intact(v, z, g, p + [n]) && Below(g, p + [n]) < Below(g, p)
    ensures Done(g, p, b, s + 1) == Done(g, p, b, s) + Below(g, p + [n])
  {
    hide Done;
    DoneUsed(v, g, p, n, b, s);
    IntactChild(v, u, z, g, p, n, Done(g, p, b, s));
    ChildIsSmaller(v, g, p, n);
  }

  lemma DoneUnusedInv(v: Vol, g: Plan, p: Path, b: nat, s: nat)
    requires Inv(v, g) && p in g.home && HomeOk(v, g, p) && b < DIRECT && s < DIRENTS_PER_BLOCK
    requires Ent(v, g.home[p].ino, b, s).used == 0
    ensures Done(g, p, b, s + 1) == Done(g, p, b, s)
  {
    DoneUnused(v, g, p, b, s);
  }

  lemma DoneBlockInv(v: Vol, g: Plan, p: Path, b: nat)
    requires Inv(v, g) && p in g.home && HomeOk(v, g, p)
    ensures Done(g, p, b, DIRENTS_PER_BLOCK) == Done(g, p, b + 1, 0)
  {
    DoneBlock(v, g, p, b);
  }

  // ---- one inode's own blocks ----

  /** The slots of the first `b` logical blocks. */
  function FileSlots(b: nat): (r: set<nat>)
    ensures forall k: nat :: k in r <==> (k < DIRECT && k < b) || (k > DIRECT && k - 1 < b)
  {
    if b == 0 then {} else FileSlots(b - 1) + {FileSlot(b - 1)}
  }

  lemma RawPtrIs(sb: Super, disk: seq<Block>, bytes: seq<byte>, v: Vol, i: nat, b: nat)
    requires Formatted(sb, disk, bytes) && BlockInv(v) && i < MAX_INODES && b < DIRECT + INDIRECT
    requires VolOf(sb, disk, bytes).start == v.start && VolOf(sb, disk, bytes).data == v.data
    ensures RawPtr(disk, v.inodes[i], b) == Ptr(v, i, FileSlot(b))
  {
    hide VolOf, Formatted;
    var x := v.inodes[i];
    assert Ptr(v, i, DIRECT) == x.indirect;
    if b >= DIRECT && x.indirect != 0 {
      VolBlock(sb, disk, bytes, x.indirect);
    }
  }

  lemma StartPtr(v: Vol, i: nat, k: nat)
    requires i < MAX_INODES && k < SLOTS
    ensures |StartDraft(v, i).ptrs| == INDIRECT && DPtr(v, i, StartDraft(v, i), k) == Ptr(v, i, k)
  {
  }

  /** Frees block `blk`, slot `k` of inode `i`, if there is one. */
  method ReleaseOwn(st: Store, ghost v: Vol, ghost u: Vol, i: nat, ghost ks: set<nat>, ghost k: nat, blk: u32)
    requires st.Mounted() && BlockInv(v) && i < MAX_INODES && k < SLOTS && blk == Ptr(v, i, k)
    requires u.start == v.start && |u.data| == |v.data| && Trimmed(v, u, st.State(), i, StartDraft(v, i), ks)
    modifies st`disk, st.bitmap
    ensures st.Kept() && Trimmed(v, u, st.State(), i, StartDraft(v, i), ks + {k})
  {
    hide VolOf, Formatted, DPtr, StartDraft;
    StartPtr(v, i, k);
    if blk != 0 {
      assert Bit(v, blk);
      TrimOne(v, u, st.State(), i, StartDraft(v, i), ks, k);
      st.FreeDataBlock(blk, false);
    } else {
      TrimEmpty(v, u, st.State(), i, StartDraft(v, i), ks, k);
    }
  }

  /** Logical blocks up to the size and the indirect block are all an inode owns. */
  lemma OwnSlots(v: Vol, i: nat, n: nat, ks: set<nat>, y: nat)
    requires BlockInv(v) && i < MAX_INODES && Kind(v, i) != FREE && y != 0
    requires n == if Kind(v, i) == DIR then DIRECT else BlocksFor(v.inodes[i].size)
    requires ks == FileSlots(n) + (if v.inodes[i].indirect != 0 then {DIRECT} else {})
    ensures Released(v, i, StartDraft(v, i), ks, y) <==> OwnedIn(v, {i}, y)
  {
    assert Shape(v, i);
    var w := StartDraft(v, i);
    if Released(v, i, w, ks, y) {
      var k :| k in ks && 0 <= k < SLOTS && DPtr(v, i, w, k) == y;
      StartPtr(v, i, k);
      assert i in {i};
    }
    if OwnedIn(v, {i}, y) {
      var j, k :| j in {i} && 0 <= j < MAX_INODES && 0 <= k < SLOTS && Ptr(v, j, k) == y;
      StartPtr(v, i, k);
      assert k in ks;
    }
  }

  lemma TrimmedFrees(v: Vol, u: Vol, z: Vol, i: nat, n: nat, ks: set<nat>)
    requires BlockInv(v) && i < MAX_INODES && Kind(v, i) != FREE && u.start == v.start
    requires n == if Kind(v, i) == DIR then DIRECT else BlocksFor(v.inodes[i].size)
    requires ks == FileSlots(n) + (if v.inodes[i].indirect != 0 then {DIRECT} else {})
    requires Trimmed(v, u, z, i, StartDraft(v, i), ks)
    ensures Freed(v, u, SetInode(Flushed(z), i, ZERO_INODE), {i})
  {
    hide BlockInv, StartDraft;
    var f := SetInode(Flushed(z), i, ZERO_INODE);
    forall y | InData(u, y)
      ensures Bit(f, y) <==> Bit(u, y) && !OwnedIn(v, {i}, y)
    {
      OwnSlots(v, i, n, ks, y);
      assert Bit(f, y) == Bit(z, y);
    }
  }

  method FreeOwnBlocks(st: Store, x: Inode, i: nat, ghost v: Vol)
    requires st.Mounted() && BlockInv(v) && i < MAX_INODES && x == v.inodes[i] && x.kind != FREE
    requires st.State().start == v.start && st.State().data == v.data
    modifies st, st.bitmap
    ensures st.Kept() && st.inodeCursor == old(st.inodeCursor)
    ensures Freed(v, old(st.State()), st.State(), {i}) && st.State().saved == st.State().bits
  {
    hide VolOf, Formatted, BlockInv, Trimmed, Freed, StartDraft, RawPtr;
    ghost var u := st.State();
    var max := if x.kind == DIR then DIRECT else BlocksFor(x.size);
    OwnCount(v, i);
    TrimmedNothing(v, u, i, StartDraft(v, i));
    var b := 0;
    while b < max
      invariant st.Kept() && st.inodeCursor == old(st.inodeCursor) && 0 <= b <= max && st.State().data == u.data
      invariant Trimmed(v, u, st.State(), i, StartDraft(v, i), FileSlots(b))
    {
      RawPtrIs(st.sb, st.disk, st.bitmap[..], v, i, b);
      var blk := GetInodeBlock(st, x, b);
      ReleaseOwn(st, v, u, i, FileSlots(b), FileSlot(b), blk);
      TrimmedData(v, u, st.State(), i, FileSlots(b) + {FileSlot(b)});
      assert FileSlots(b) + {FileSlot(b)} == FileSlots(b + 1);
      b := b + 1;
    }
    ghost var ks := FileSlots(max);
    if x.indirect != 0 {
      ReleaseOwn(st, v, u, i, ks, DIRECT, x.indirect);
      ks := ks + {DIRECT};
    }
    assert ks == FileSlots(max) + (if x.indirect != 0 then {DIRECT} else {});
    TrimmedFrees(v, u, st.State(), i, max, ks);
    st.BitmapFlush();
    st.InodeWrite(i, ZERO_INODE);
  }

  lemma OwnCount(v: Vol, i: nat)
    requires BlockInv(v) && i < MAX_INODES && Kind(v, i) != FREE
    ensures Kind(v, i) != DIR ==> BlocksFor(v.inodes[i].size) <= DIRECT + INDIRECT
    ensures |StartDraft(v, i).ptrs| == INDIRECT
  {
    assert Shape(v, i);
  }

  lemma TrimmedData(v: Vol, u: Vol, z: Vol, i: nat, ks: set<nat>)
    requires i < MAX_INODES && |StartDraft(v, i).ptrs| == INDIRECT && Trimmed(v, u, z, i, StartDraft(v, i), ks)
    ensures z.data == u.data
  {
  }
}
