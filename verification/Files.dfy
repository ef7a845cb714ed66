/** nfs_create_path, nfs_mkdir_path, nfs_write_path and nfs_read_path against the tree of paths. */
module Files {
  import opened Bytes
  import opened Layout
  import opened Volume
  import opened Image
  import opened Store
  import opened Directory
  import opened Steps
  import opened Frames
  import opened Accounts
  import opened Paths
  import opened Creating
  import opened Drafts
  import opened Rewrites
  import opened Writing
  import opened Truncating
  import opened Tearing
  import opened Space

  /** The path string names a possible entry of an existing directory. */
  ghost predicate Creatable(t: map<Path, Node>, path: seq<byte>) {
    Strict(path) && Init(Components(path)) in t && t[Init(Components(path))] == Folder
  }

  lemma CreatableMeaning(v: Vol, g: Plan, path: seq<byte>)
    requires Inv(v, g)
    ensures Creatable(Tree(v, g), path) <==> Strict(path) && ParentLive(v, g, Components(path))
  {
    var p := Init(Components(path));
    if p in g.home {
      assert HomeOk(v, g, p) && Shape(v, g.home[p].ino);
      assert Tree(v, g)[p] == NodeOf(v, g, p);
    }
  }

  lemma TreeKeys(v: Vol, g: Plan)
    requires Inv(v, g)
    ensures Tree(v, g).Keys == g.home.Keys
  {
  }

  /** Why an entry could not be created: the name exists, every inode is taken, or the directory has no room. */
  ghost predicate Refused(v: Vol, g: Plan, path: seq<byte>)
    requires Inv(v, g)
  {
    || !Creatable(Tree(v, g), path) || Components(path) in Tree(v, g) || InodesTaken(v)
    || (Init(Components(path)) in g.home && g.home[Init(Components(path))].ino < MAX_INODES &&
      NoRoom(v, g.home[Init(Components(path))].ino))
  }

  /** The inode of a folder; meaningful when the path lives. */
  ghost function FolderIno(g: Plan, p: Path): nat {
    if p in g.home && g.home[p].ino < MAX_INODES then g.home[p].ino else 0
  }

  /** The inode of the directory a new entry would go to; meaningful when the path can be created. */
  ghost function ParentIno(g: Plan, p: Path): nat {
    if p != [] then FolderIno(g, Init(p)) else 0
  }

  /**
   * Creation fails exactly when refused, and then nothing changes. Otherwise the tree gains that
   * node under the inode returned, every other path keeps its inode and its entry, no inode is
   * lost, no block leaks, and a free block is taken only to grow the parent.
   */
  ghost predicate MakeResult(v: Vol, g: Plan, w: Vol, g': Plan, path: seq<byte>, kind: byte, r: int)
    requires Inv(v, g)
  {
    && (r < 0 <==> Refused(v, g, path))
    && if r < 0 then r == -1 && w == v && g' == g
       else
         && 0 < r < MAX_INODES && Inv(w, g') && Tree(w, g') == Tree(v, g)[Components(path) := NewNode(kind)]
         && Components(path) in g'.home && g'.home[Components(path)].ino == r && SamePlaces(g, g') && g'.lost == g.lost
         && Leaked(w) == Leaked(v) && Kind(v, r) == FREE
         && Grew(SetInode(v, r, FreshInode(kind)), w, ParentIno(g, Components(path)),
           Growth(v, ParentIno(g, Components(path))))
  }

  method MakePath(st: Store, path: seq<byte>, kind: byte) returns (r: int)
    requires Good(st) && 0 !in path && (kind == FILE || kind == DIR)
    modifies st, st.bitmap
    ensures Good(st) && st.bitmap == old(st.bitmap) && st.sb == old(st.sb)
    ensures MakeResult(old(st.State()), old(st.plan), st.State(), st.plan, path, kind, r)
  {
    hide VolOf, Formatted, BlockInv, TreeInv, Tree, Strict, Components, NoRoom, InodesTaken;
    ghost var v, g, cs := st.State(), st.plan, Components(path);
    CreatableMeaning(v, g, path);
    TreeKeys(v, g);
    var ok, parent, name := ResolveParent(st, path);
    if !ok {
      return -1;
    }
    NameIsValid(path);
    r := CreateInDir(st, parent, name, kind, Init(cs));
  }

  lemma NameIsValid(path: seq<byte>)
    requires Strict(path) && 0 !in path
    ensures ValidName(Last(Components(path))) && Init(Components(path)) + [Last(Components(path))] == Components(path)
  {
    var cs := Components(path);
    assert Component(cs[|cs| - 1]);
    SplitNoNul(Strip(path), |cs| - 1);
  }

  // ---- writing ----

  /** Why nfs_write_path touches nothing: too long, no such directory, the path is a directory, or it does not exist
      and cannot be created. */
  ghost predicate WriteRefused(v: Vol, g: Plan, path: seq<byte>, len: nat)
    requires Inv(v, g)
  {
    || len > MAX_FILE_SIZE || !Creatable(Tree(v, g), path)
    || (if Components(path) in Tree(v, g) then Tree(v, g)[Components(path)] == Folder else Refused(v, g, path))
  }

  function OldBytes(t: map<Path, Node>, p: Path): seq<byte> {
    if p in t && t[p].File? then t[p].bytes else []
  }

  /** Free blocks the write needs: what the file lacks, and for a new file a block if the parent must grow. */
  ghost function WriteCost(v: Vol, g: Plan, p: Path, len: nat): nat
    requires Inv(v, g)
  {
    if p in Tree(v, g) then Extra(BlocksFor(|OldBytes(Tree(v, g), p)|), BlocksFor(len))
    else Growth(v, ParentIno(g, p)) + Total(BlocksFor(len))
  }

  /** Every path keeps its place; only the file's inode changes, and for a new file the parent's if it must grow. */
  ghost predicate Placed(v: Vol, g: Plan, w: Vol, g': Plan, p: Path)
    requires Inv(v, g)
  {
    && p in g'.home && g'.home[p].ino < MAX_INODES && SamePlaces(g, g') && g'.lost == g.lost
    && (forall i | 0 <= i < MAX_INODES && i != g'.home[p].ino && (p in g.home || i != ParentIno(g, p)) ::
          w.inodes[i] == v.inodes[i])
    && (p !in g.home ==>
          && Kind(v, g'.home[p].ino) == FREE
          && Width(w.inodes[ParentIno(g, p)]) == Width(v.inodes[ParentIno(g, p)]) + NewGrowth(v, g, p))
  }

  /** Blocks the parent of a new path takes; none for a path that exists. */
  ghost function NewGrowth(v: Vol, g: Plan, p: Path): nat {
    if p in g.home then 0 else Growth(v, ParentIno(g, p))
  }

  /**
   * The write ran out of space. Every block is marked; those that were free and that nobody owns
   * now have leaked. The file holds the beginning of the data, cut to its old length, and every
   * other path is untouched; an existing file keeps its inode, and the saved bitmap is as before,
   * but for the parent's new block.
   */
  ghost predicate Overwritten(v: Vol, g: Plan, w: Vol, g': Plan, p: Path, data: seq<byte>)
    requires Inv(v, g)
  {
    && Inv(w, g') && Placed(v, g, w, g', p) && w.start == v.start && |w.data| == |v.data| && AllSet(w.bits)
    && Leaked(w) == Leaked(v) + (set y | y in FreeBlocks(v) && !Owned(w, y))
    && |OldBytes(Tree(v, g), p)| <= |data|
    && Tree(w, g') == Tree(v, g)[p := File(data[..|OldBytes(Tree(v, g), p)|])]
    && (p in Tree(v, g) ==> w.inodes == v.inodes && w.saved == v.saved && g' == g)
    && Kept(w) == if NewGrowth(v, g, p) == 0 then Kept(v) else Free(v) - 1
  }

  /**
   * nfs_write_path refuses without touching anything; or replaces what the path holds, exactly
   * when the free blocks suffice, losing no inode, leaking no block and taking exactly the blocks
   * the new contents need beyond the old ones; or runs out of space.
   */
  ghost predicate WriteResult(v: Vol, g: Plan, w: Vol, g': Plan, path: seq<byte>, data: seq<byte>, r: int)
    requires Inv(v, g)
  {
    var p := Components(path);
    if WriteRefused(v, g, path, |data|) then r == -1 && w == v && g' == g
    else if Free(v) >= WriteCost(v, g, p, |data|) then
      && r == |data| && Inv(w, g') && Tree(w, g') == Tree(v, g)[p := File(data)] && Placed(v, g, w, g', p)
      && Free(w) + NewGrowth(v, g, p) + Total(BlocksFor(|data|))
         == Free(v) + Total(BlocksFor(|OldBytes(Tree(v, g), p)|))
      && Leaked(w) == Leaked(v) && Synced(w)
    else r == -1 && Overwritten(v, g, w, g', p, data)
  }

  lemma NodeKind(v: Vol, g: Plan, p: Path)
    requires Inv(v, g) && p in g.home
    ensures p in Tree(v, g) && g.home[p].ino < MAX_INODES
    ensures Tree(v, g)[p].File? <==> Kind(v, g.home[p].ino) == FILE
    ensures Kind(v, g.home[p].ino) == FILE ==>
      FileShape(v, g.home[p].ino) && Tree(v, g)[p] == File(Content(v, g.home[p].ino))
    ensures Kind(v, g.home[p].ino) == FILE || Kind(v, g.home[p].ino) == DIR
  {
    assert HomeOk(v, g, p) && Shape(v, g.home[p].ino);
    assert Tree(v, g)[p] == NodeOf(v, g, p);
  }

  /** The write loop, the truncation and the final writes, on a live file. */
  method WriteInode(st: Store, i: nat, data: seq<byte>, ghost p: Path) returns (ok: bool)
    requires Good(st) && p in st.plan.home && st.plan.home[p].ino == i && i < MAX_INODES && Kind(st.State(), i) == FILE
    requires |data| <= MAX_FILE_SIZE
    modifies st, st.bitmap
    ensures Good(st) && st.bitmap == old(st.bitmap) && st.sb == old(st.sb) && st.plan == old(st.plan)
    ensures FileWritten(old(st.State()), st.State(), st.plan, p, data, ok)
  {
    hide VolOf, Formatted, BlockInv, TreeInv, Tree, Progress, Free, AllSet, Extra;
    ghost var v, g := st.State(), st.plan;
    NodeKind(v, g, p);
    var w;
    ghost var b, u0;
    ok, w, b, u0 := WriteBlocks(st, i, data, v);
    if ok {
      ghost var u := st.State();
      CompleteFacts(v, u, i, w, data);
      Finish(st, i, w, data, v);
      RewrittenTree(v, u, st.State(), g, p, i, w, data);
      RewrittenLeak(v, u, st.State(), i, w, data);
      RewrittenFree(v, u, st.State(), i, w, data);
    } else {
      TornMeaning(v, u0, st.State(), g, p, i, w, data, b);
      OwnNotFree(v, st.State());
    }
    PlacedBefore(v, g, st.State(), p);
  }

  /** On one existing file: success exactly when the free blocks suffice, and then exactly those needed are taken. */
  ghost predicate FileWritten(v: Vol, w: Vol, g: Plan, p: Path, data: seq<byte>, ok: bool)
    requires Inv(v, g)
  {
    && Inv(w, g) && p in Tree(v, g) && Tree(v, g)[p].File? && Placed(v, g, w, g, p)
    && (ok <==> Free(v) >= Extra(BlocksFor(|Tree(v, g)[p].bytes|), BlocksFor(|data|)))
    && if ok then
         && Tree(w, g) == Tree(v, g)[p := File(data)] && Leaked(w) == Leaked(v) && Synced(w)
         && Free(w) + Total(BlocksFor(|data|)) == Free(v) + Total(BlocksFor(|Tree(v, g)[p].bytes|))
       else Overwritten(v, g, w, g, p, data)
  }

  lemma PlacedBefore(v: Vol, g: Plan, w: Vol, p: Path)
    requires Inv(v, g) && p in g.home && g.home[p].ino < MAX_INODES
    requires forall i | 0 <= i < MAX_INODES && i != g.home[p].ino :: w.inodes[i] == v.inodes[i]
    ensures Placed(v, g, w, g, p)
  {
    hide Inv;
  }

  /** A rewrite takes exactly the blocks the new contents need beyond the old ones. */
  lemma RewrittenFree(v: Vol, u: Vol, z: Vol, i: nat, w: Draft, data: seq<byte>)
    requires BlockInv(v) && BlockInv(z) && i < MAX_INODES && Complete(v, u, i, w, data) && Rewritten(v, z, i, w, data)
    requires Leaked(z) == Leaked(v) && Kind(v, i) == FILE
    ensures Free(z) + Total(BlocksFor(|data|)) == Free(v) + Total(BlocksFor(v.inodes[i].size))
    ensures forall j | 0 <= j < MAX_INODES && j != i :: z.inodes[j] == v.inodes[j]
  {
    hide BlockInv, Leaked, Free, Total, Complete;
    forall j, k | 0 <= j < MAX_INODES && j != i && 0 <= k < SLOTS
      ensures Ptr(z, j, k) == Ptr(v, j, k)
    {
      RewrittenKeeps(v, u, z, i, w, data, j);
      KeepsPtr(v, z, j, k);
    }
    OneChanged(v, z, i);
  }

  /** Free blocks have no owner, and keep none while no pointer changes. */
  lemma OwnNotFree(v: Vol, u: Vol)
    requires BlockInv(v) && BlockInv(u) && Leaked(u) == Leaked(v) + FreeBlocks(v)
    ensures Leaked(u) == Leaked(v) + (set y | y in FreeBlocks(v) && !Owned(u, y))
  {
    hide Owned;
    forall y | y in FreeBlocks(v)
      ensures !Owned(u, y)
    {
      assert y in Leaked(u);
    }
  }

  method WritePath(st: Store, path: seq<byte>, data: seq<byte>) returns (r: int)
    requires Good(st) && 0 !in path
    modifies st, st.bitmap
    ensures Good(st) && st.bitmap == old(st.bitmap) && st.sb == old(st.sb)
    ensures WriteResult(old(st.State()), old(st.plan), st.State(), st.plan, path, data, r)
  {
    hide VolOf, Formatted, BlockInv, TreeInv, Tree, Strict, Components, NoRoom, InodesTaken, Free, Slack, AllSet,
      Overwritten, Extra, Grew;
    ghost var v, g, cs := st.State(), st.plan, Components(path);
    if |data| > MAX_FILE_SIZE {
      return -1;
    }
    CreatableMeaning(v, g, path);
    TreeKeys(v, g);
    var ok, parent, name := ResolveParent(st, path);
    if !ok {
      return -1;
    }
    NameIsValid(path);
    var found, entry := LookUp(st, parent, name, Init(cs));
    var i: nat;
    if found {
      i := entry.inode;
    } else {
      var created := CreateInDir(st, parent, name, FILE, Init(cs));
      if created < 0 {
        return -1;
      }
      i := created;
      NewParent(v, g, cs, i);
    }
    ghost var v1, g1 := st.State(), st.plan;
    NodeKind(v1, g1, cs);
    var x := st.InodeRead(i);
    if x.kind != FILE {
      return -1;
    }
    ok := WriteInode(st, i, data, cs);
    if !found {
      NewFileWritten(v, g, v1, g1, st.State(), path, data, i, ok);
    }
    return if ok then |data| else -1;
  }

  /** A write to a file just created. */
  lemma NewFileWritten(v: Vol, g: Plan, v1: Vol, g1: Plan, w: Vol, path: seq<byte>, data: seq<byte>, r: nat, ok: bool)
    requires Inv(v, g) && Inv(v1, g1) && !WriteRefused(v, g, path, |data|) && Components(path) !in Tree(v, g)
    requires 0 < r < MAX_INODES && ParentIno(g, Components(path)) != r
    requires CreateResult(v, g, v1, g1, Init(Components(path)), ParentIno(g, Components(path)), Last(Components(path)),
      FILE, r)
    requires Init(Components(path)) + [Last(Components(path))] == Components(path)
    requires FileWritten(v1, w, g1, Components(path), data, ok)
    ensures WriteResult(v, g, w, g1, path, data, if ok then |data| else -1)
  {
    hide Inv, Tree, Components, Free, AllSet, Overwritten, Extra, Grew, Growth, Placed, NoRoom, InodesTaken, Refused,
      Creatable, Leaked;
    var p := Components(path);
    TreeKeys(v, g);
    TreeTwice(Tree(v, g), p, File([]), File(data));
    NewFileCost(|data|);
    KeptAfter(v, v1, g, p, r, FILE);
    PlacedNew(v, g, v1, g1, w, p, r);
    if !ok {
      NewFileTorn(v, g, v1, g1, w, p, data, r);
    }
  }

  lemma NewParent(v: Vol, g: Plan, p: Path, r: nat)
    requires ParentLive(v, g, p) && r < MAX_INODES && Kind(v, r) == FREE
    ensures ParentIno(g, p) != r
  {
  }

  lemma TreeTwice(t: map<Path, Node>, p: Path, a: Node, b: Node)
    ensures t[p := a][p := b] == t[p := b] && t[p := a][p] == a
  {
  }

  lemma NewFileCost(len: nat)
    ensures Extra(BlocksFor(0), BlocksFor(len)) == Total(BlocksFor(len))
  {
  }

  /** What a write to a file just created comes to, seen from before the creation. */
  lemma PlacedNew(v: Vol, g: Plan, v1: Vol, g1: Plan, w: Vol, p: Path, r: nat)
    requires Inv(v, g) && Inv(v1, g1) && p !in g.home && r < MAX_INODES && Kind(v, r) == FREE
    requires SamePlaces(g, g1) && g1.lost == g.lost && p in g1.home && g1.home[p].ino == r && ParentIno(g, p) != r
    requires Grew(SetInode(v, r, FreshInode(FILE)), v1, ParentIno(g, p), Growth(v, ParentIno(g, p)))
    requires Placed(v1, g1, w, g1, p)
    ensures Placed(v, g, w, g1, p)
  {
    hide Inv, Growth, Width, Free;
  }

  lemma KeptAfter(v: Vol, v1: Vol, g: Plan, p: Path, r: nat, kind: byte)
    requires r < MAX_INODES && Grew(SetInode(v, r, FreshInode(kind)), v1, ParentIno(g, p), Growth(v, ParentIno(g, p)))
    ensures Free(v1) + Growth(v, ParentIno(g, p)) == Free(v)
    ensures Kept(v1) == if Growth(v, ParentIno(g, p)) == 0 then Kept(v) else Free(v) - 1
    ensures forall y | Bit(v, y) :: Bit(v1, y)
    ensures v1.start == v.start && |v1.data| == |v.data|
  {
    hide Slack, Width;
    var u := SetInode(v, r, FreshInode(kind));
    assert forall y :: Bit(u, y) <==> Bit(v, y);
  }

  /** A new file that could not be written stays behind empty. */
  lemma NewFileTorn(v: Vol, g: Plan, v1: Vol, g1: Plan, w: Vol, p: Path, data: seq<byte>, r: nat)
    requires Inv(v, g) && Inv(v1, g1) && p !in Tree(v, g) && Tree(v1, g1) == Tree(v, g)[p := File([])] && r < MAX_INODES
    requires Leaked(v1) == Leaked(v)
    requires Grew(SetInode(v, r, FreshInode(FILE)), v1, ParentIno(g, p), Growth(v, ParentIno(g, p)))
    requires Overwritten(v1, g1, w, g1, p, data) && Placed(v, g, w, g1, p)
    ensures Overwritten(v, g, w, g1, p, data)
  {
    hide Inv, Tree, Owned, Placed, Growth;
    assert OldBytes(Tree(v1, g1), p) == [] && data[..0] == [];
    TreeKeys(v, g);
    TreeKeys(v1, g1);
    KeptAfter(v, v1, g, p, r, FILE);
    TreeTwice(Tree(v, g), p, File([]), File(data[..0]));
    forall y | y in FreeBlocks(v) && !Owned(w, y)
      ensures y in FreeBlocks(v1)
    {
      assert y in Leaked(w);
      assert y !in Leaked(v);
    }
    assert FreeBlocks(v1) <= FreeBlocks(v);
    hide FreeBlocks, Leaked;
  }
}
