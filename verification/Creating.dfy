/** create_in_dir: a fresh inode linked into a directory, rolled back when the entry does not fit. */
module Creating {
  import opened Bytes
  import opened Layout
  import opened Volume
  import opened Image
  import opened Frames
  import opened Steps
  import opened Store
  import opened Trees
  import opened Directory
  import opened Linking
  import opened Paths
  import opened Space

  ghost predicate Good(st: Store)
    reads st, st.bitmap
  {
    st.Mounted() && Inv(st.State(), st.plan)
  }

  ghost function TreeOf(st: Store): map<Path, Node>
    requires Good(st)
    reads st, st.bitmap
  {
    Tree(st.State(), st.plan)
  }

  ghost predicate Synced(v: Vol) {
    v.saved == v.bits
  }

  function NewNode(kind: byte): Node {
    if kind == FILE then File([]) else Folder
  }

  lemma SameTree(v: Vol, w: Vol, g: Plan)
    requires Inv(v, g) && Inv(w, g) && SameFiles(v, w)
    ensures Tree(w, g) == Tree(v, g)
  {
    forall p | p in g.home
      ensures NodeOf(w, g, p) == NodeOf(v, g, p)
    {
      assert HomeOk(v, g, p);
      assert Shape(v, g.home[p].ino);
      assert SameFile(v, w, g.home[p].ino);
    }
  }

  /** The volume after inode `c` was made fresh and linked under name `n` in the directory at `p`. */
  ghost predicate Created(v: Vol, w: Vol, g: Plan, p: Path, d: nat, n: Name, c: nat, kind: byte, b: nat, s: nat) {
    && Inv(v, g) && FolderAt(v, g, p, d) && ValidName(n) && p + [n] !in g.home
    && c < MAX_INODES && Kind(v, c) == FREE && (kind == FILE || kind == DIR)
    && Added(SetInode(v, c, FreshInode(kind)), w, d, b, s, NewEntry(n, c))
  }

  lemma CreatedMeaning(v: Vol, w: Vol, g: Plan, p: Path, d: nat, n: Name, c: nat, kind: byte, b: nat, s: nat)
    requires Created(v, w, g, p, d, n, c, kind, b, s)
    ensures Inv(w, LinkPlan(g, p, n, c, b, s)) && Leaked(w) == Leaked(v)
    ensures Tree(w, LinkPlan(g, p, n, c, b, s)) == Tree(v, g)[p + [n] := NewNode(kind)]
  {
    hide BlockInv, TreeInv, Added, Tree;
    var u := SetInode(v, c, FreshInode(kind));
    FreshKeepsBlockInv(v, c, kind);
    AddedMeaning(u, w, d, b, s, NewEntry(n, c));
    CreatedLinks(v, w, g, p, d, n, c, kind, b, s);
    LinkKeepsTree(v, w, g, p, n, c, b, s);
    CreatedTree(v, w, g, p, d, n, c, kind, b, s);
  }

  /** A fresh inode elsewhere takes no block and leaves the parent's entries alone. */
  lemma FreshElsewhere(v: Vol, c: nat, kind: byte, d: nat)
    requires c < MAX_INODES && d < MAX_INODES && c != d
    ensures var u := SetInode(v, c, FreshInode(kind)); Free(u) == Free(v) && Growth(u, d) == Growth(v, d)
  {
    hide DirentAt;
    var u := SetInode(v, c, FreshInode(kind));
    forall b, s | 0 <= b < DIRECT && 0 <= s < DIRENTS_PER_BLOCK
      ensures OpenSlot(u, d, b, s) <==> OpenSlot(v, d, b, s)
    {
    }
  }

  /** What the creation takes: the new inode, and a block if the parent must grow. */
  lemma CreatedSpace(v: Vol, w: Vol, g: Plan, p: Path, d: nat, n: Name, c: nat, kind: byte, b: nat, s: nat)
    requires Created(v, w, g, p, d, n, c, kind, b, s)
    ensures d < MAX_INODES && Grew(SetInode(v, c, FreshInode(kind)), w, d, Growth(v, d))
  {
    hide BlockInv, TreeInv, Added, Growth, Grew;
    CreatedParent(v, g, p, d, c);
    FreshElsewhere(v, c, kind, d);
    AddedGrows(SetInode(v, c, FreshInode(kind)), w, d, b, s, NewEntry(n, c));
  }

  lemma AddedToFolder(v: Vol, w: Vol, d: nat, b: nat, s: nat, e: Dirent)
    requires BlockInv(v) && Added(v, w, d, b, s, e) && Kind(v, d) == DIR
    ensures Grew(v, w, d, Growth(v, d))
  {
    assert Shape(v, d);
    hide Added, BlockInv, Grew;
    AddedGrows(v, w, d, b, s, e);
  }

  lemma CreatedParent(v: Vol, g: Plan, p: Path, d: nat, c: nat)
    requires Inv(v, g) && FolderAt(v, g, p, d) && c < MAX_INODES && Kind(v, c) == FREE
    ensures d < MAX_INODES && d != c && Kind(v, d) == DIR && DirShape(v.inodes[d])
  {
    assert Shape(v, d);
  }

  lemma CreatedLinks(v: Vol, w: Vol, g: Plan, p: Path, d: nat, n: Name, c: nat, kind: byte, b: nat, s: nat)
    requires Created(v, w, g, p, d, n, c, kind, b, s)
    ensures Links(v, w, g, p, n, c, b, s)
  {
    hide BlockInv;
    var u := SetInode(v, c, FreshInode(kind));
    FreshKeepsBlockInv(v, c, kind);
    AddedMeaning(u, w, d, b, s, NewEntry(n, c));
    hide Added, NameField;
    assert HomeOk(v, g, p);
    assert c != d;
    assert v.inodes[c] == ZERO_INODE by {
      FreeIsZero(v, c);
    }
    FreshEnt(v, c, kind);
    hide Ent;
    forall i | 0 <= i < MAX_INODES && i != c
      ensures Kind(w, i) == Kind(v, i)
    {
      assert SameFile(u, w, i);
    }
    assert SameFile(u, w, c);
  }

  lemma FreeIsZero(v: Vol, c: nat)
    requires BlockInv(v) && c < MAX_INODES && Kind(v, c) == FREE
    ensures v.inodes[c] == ZERO_INODE
  {
    assert Shape(v, c);
  }

  lemma FreshEnt(v: Vol, c: nat, kind: byte)
    requires c < MAX_INODES && v.inodes[c] == ZERO_INODE
    ensures forall i, a, t | 0 <= i < MAX_INODES && 0 <= a < DIRECT && 0 <= t < DIRENTS_PER_BLOCK ::
      Ent(SetInode(v, c, FreshInode(kind)), i, a, t) == Ent(v, i, a, t)
    ensures forall a, t | 0 <= a < DIRECT && 0 <= t < DIRENTS_PER_BLOCK :: Ent(v, c, a, t).used == 0
  {
  }

  lemma CreatedTree(v: Vol, w: Vol, g: Plan, p: Path, d: nat, n: Name, c: nat, kind: byte, b: nat, s: nat)
    requires Created(v, w, g, p, d, n, c, kind, b, s) && Inv(w, LinkPlan(g, p, n, c, b, s))
    requires SameFiles(SetInode(v, c, FreshInode(kind)), w)
    ensures Tree(w, LinkPlan(g, p, n, c, b, s)) == Tree(v, g)[p + [n] := NewNode(kind)]
  {
    var g' := LinkPlan(g, p, n, c, b, s);
    forall q | q in g.home && q != p + [n]
      ensures NodeOf(w, g', q) == NodeOf(v, g, q)
    {
      CreatedOther(v, w, g, p, d, n, c, kind, b, s, q);
    }
    CreatedSelf(v, w, g, p, d, n, c, kind, b, s);
    hide Inv, NodeOf, Created;
    OneNode(v, g, w, g', p + [n], NewNode(kind));
  }

  lemma CreatedOther(v: Vol, w: Vol, g: Plan, p: Path, d: nat, n: Name, c: nat, kind: byte, b: nat, s: nat, q: Path)
    requires Created(v, w, g, p, d, n, c, kind, b, s) && Inv(w, LinkPlan(g, p, n, c, b, s))
    requires SameFiles(SetInode(v, c, FreshInode(kind)), w) && q in g.home && q != p + [n]
    ensures NodeOf(w, LinkPlan(g, p, n, c, b, s), q) == NodeOf(v, g, q)
  {
    hide Added;
    assert HomeOk(v, g, q) && Shape(v, g.home[q].ino);
    assert SameFile(SetInode(v, c, FreshInode(kind)), w, g.home[q].ino);
    FreshContent(v, c, kind, g.home[q].ino);
  }

  lemma CreatedSelf(v: Vol, w: Vol, g: Plan, p: Path, d: nat, n: Name, c: nat, kind: byte, b: nat, s: nat)
    requires Created(v, w, g, p, d, n, c, kind, b, s) && Inv(w, LinkPlan(g, p, n, c, b, s))
    requires SameFiles(SetInode(v, c, FreshInode(kind)), w)
    ensures NodeOf(w, LinkPlan(g, p, n, c, b, s), p + [n]) == NewNode(kind)
  {
    hide Added;
    assert SameFile(SetInode(v, c, FreshInode(kind)), w, c);
  }

  lemma FreshContent(v: Vol, c: nat, kind: byte, i: nat)
    requires c < MAX_INODES && i < MAX_INODES && i != c
    ensures v.inodes[i].size <= MAX_FILE_SIZE ==> Content(SetInode(v, c, FreshInode(kind)), i) == Content(v, i)
  {
    if v.inodes[i].size <= MAX_FILE_SIZE {
      KeepsContent(v, SetInode(v, c, FreshInode(kind)), i);
    }
  }

  ghost predicate InodesTaken(v: Vol) {
    forall i | 0 < i < MAX_INODES :: Kind(v, i) != FREE
  }

  /** A fresh inode elsewhere does not change whether directory `d` has room. */
  lemma RoomElsewhere(v: Vol, c: nat, kind: byte, d: nat)
    requires c < MAX_INODES && d < MAX_INODES && c != d
    ensures NoRoom(SetInode(v, c, FreshInode(kind)), d) == NoRoom(v, d)
    ensures Slack(SetInode(v, c, FreshInode(kind)), d) == Slack(v, d)
  {
    var u := SetInode(v, c, FreshInode(kind));
    assert u.inodes[d] == v.inodes[d] && u.bits == v.bits;
    assert forall a, t | 0 <= a < DIRECT && 0 <= t < DIRENTS_PER_BLOCK :: Ent(u, d, a, t) == Ent(v, d, a, t);
    hide Ent, SetInode;
    assert forall a, t | 0 <= a < DIRECT && 0 <= t < DIRENTS_PER_BLOCK :: OpenSlot(u, d, a, t) == OpenSlot(v, d, a, t);
    forall b | 0 <= b <= DIRECT
      ensures FullTo(u, d, b) == FullTo(v, d, b)
    {
      if FullTo(v, d, b) {
        assert forall a, t | 0 <= a < b && 0 <= t < DIRENTS_PER_BLOCK :: Ent(u, d, a, t) == Ent(v, d, a, t);
      } else {
        assert forall a, t | 0 <= a < b && 0 <= t < DIRENTS_PER_BLOCK :: Ent(v, d, a, t) == Ent(u, d, a, t);
      }
    }
  }

  lemma AddedHadRoom(v: Vol, w: Vol, d: nat, b: nat, s: nat, e: Dirent)
    requires Added(v, w, d, b, s, e)
    ensures !NoRoom(v, d)
  {
    hide PutEnt, Grown, DirentAt;
    var nb := w.inodes[d].blocks[b];
    assert v.inodes[d].blocks[b] == 0 ==> !v.bits[nb - v.start];
    forall c | 0 <= c <= DIRECT && FullTo(v, d, c)
      ensures c < DIRECT && (v.inodes[d].blocks[c] != 0 || !AllSet(v.bits))
    {
      assert c <= b;
      assert c < b ==> v.inodes[d].blocks[c] != 0 by {
        assert c < b ==> Ent(v, d, c, 0).used != 0;
      }
    }
  }

  /** No block is marked on disk that is free in memory. */
  ghost predicate Tidy(v: Vol) {
    forall k | 0 <= k < |v.bits| :: v.saved[k] ==> v.bits[k]
  }

  /** Every path keeps its inode and its entry. */
  ghost predicate SamePlaces(g: Plan, g': Plan) {
    forall q | q in g.home :: q in g'.home && g'.home[q] == g.home[q]
  }

  /**
   * create_in_dir fails exactly when the name is taken, no inode is free or the directory has
   * no room; then nothing changes. Otherwise the tree gains that one path, every other keeps its
   * place, a free inode is taken, a block only if the directory had no unused entry, and nothing
   * leaks.
   */
  ghost predicate CreateResult(v: Vol, g: Plan, w: Vol, g': Plan, p: Path, d: nat, n: Name, kind: byte, r: int)
    requires Inv(v, g) && d < MAX_INODES
  {
    && (r < 0 <==> p + [n] in g.home || InodesTaken(v) || NoRoom(v, d))
    && if r < 0 then r == -1 && w == v && g' == g
       else
         && 0 < r < MAX_INODES && Kind(v, r) == FREE && Inv(w, g')
         && p + [n] in g'.home && g'.home[p + [n]].ino == r && SamePlaces(g, g')
         && Tree(w, g') == Tree(v, g)[p + [n] := NewNode(kind)]
         && g'.lost == g.lost && Leaked(w) == Leaked(v) && Grew(SetInode(v, r, FreshInode(kind)), w, d, Growth(v, d))
  }

  method CreateInDir(st: Store, parent: nat, n: Name, kind: byte, ghost p: Path) returns (r: int)
    requires Good(st) && FolderAt(st.State(), st.plan, p, parent) && ValidName(n) && (kind == FILE || kind == DIR)
    modifies st, st.bitmap
    ensures Good(st) && st.bitmap == old(st.bitmap) && st.sb == old(st.sb)
    ensures CreateResult(old(st.State()), old(st.plan), st.State(), st.plan, p, parent, n, kind, r)
  {
    hide VolOf, Formatted, BlockInv, TreeInv, Tree, Added, FirstHit, InodeAt, NextInode, Free, Slack, Grew;
    ghost var v, g := st.State(), st.plan;
    var taken, _ := LookUp(st, parent, n, p);
    if taken {
      return -1;
    }
    var c := st.AllocInode();
    if c < 0 {
      return -1;
    }
    st.InodeWrite(c, FreshInode(kind));
    ghost var u := st.State();
    FreshIsReady(v, parent, c, kind);
    RoomElsewhere(v, c, kind, parent);
    var ok, b, s := DirAddEntryIn(st, parent, n, c);
    if !ok {
      st.InodeWrite(c, ZERO_INODE);
      FreeIsZero(v, c);
      assert st.State() == v;
      return -1;
    }
    AddedHadRoom(u, st.State(), parent, b, s, NewEntry(n, c));
    CreatedMeaning(v, st.State(), g, p, parent, n, c, kind, b, s);
    CreatedSpace(v, st.State(), g, p, parent, n, c, kind, b, s);
    st.plan := LinkPlan(g, p, n, c, b, s);
    return c;
  }

  lemma FreshIsReady(v: Vol, d: nat, c: nat, kind: byte)
    requires BlockInv(v) && d < MAX_INODES && Kind(v, d) == DIR && c < MAX_INODES && Kind(v, c) == FREE
    ensures Ready(SetInode(v, c, FreshInode(kind)), d)
  {
    DirectoriesAreReady(v, d);
  }

  /** dir_find_in on a live directory: found exactly when the path exists, and then the entry names its inode. */
  method LookUp(st: Store, d: nat, n: Name, ghost p: Path) returns (found: bool, entry: Dirent)
    requires Good(st) && FolderAt(st.State(), st.plan, p, d) && 0 !in n
    ensures found <==> p + [n] in st.plan.home
    ensures found ==> entry.inode == st.plan.home[p + [n]].ino
  {
    hide VolOf, Formatted, BlockInv, FirstHit, InodeAt, RawEnt;
    assert HomeOk(st.State(), st.plan, p);
    SearchFindsChild(st.sb, st.disk, st.bitmap[..], st.plan, p, n);
    found, entry := DirFindIn(st, d, n);
  }
}
