/** nfs_delete_path: the subtree is freed, its entry cleared, and the tree loses exactly the paths below it. */
module Removing {
  import opened Bytes
  import opened Layout
  import opened Volume
  import opened Accounts
  import opened Image
  import opened Frames
  import opened Steps
  import opened Store
  import opened Trees
  import opened Directory
  import opened Linking
  import opened Paths
  import opened Creating
  import opened Files
  import opened Rewrites
  import opened Reading
  import opened Deleting
  import opened Space

  // ---- freeing keeps the block invariant ----

  lemma FreedPtr(v: Vol, u: Vol, js: set<nat>, j: nat, k: nat)
    requires Freed(v, v, u, js) && j < MAX_INODES && k < SLOTS
    ensures Ptr(u, j, k) == if j in js then 0 else Ptr(v, j, k)
  {
    assert u.data == v.data;
  }

  lemma FreedOwned(v: Vol, u: Vol, js: set<nat>, y: nat)
    requires Freed(v, v, u, js) && y != 0
    ensures Owned(v, y) <==> Owned(u, y) || OwnedIn(v, js, y)
  {
    forall j, k | 0 <= j < MAX_INODES && 0 <= k < SLOTS
      ensures Ptr(u, j, k) == if j in js then 0 else Ptr(v, j, k)
    {
      FreedPtr(v, u, js, j, k);
    }
    hide Ptr, Freed;
    if Owned(v, y) {
      var j, k :| 0 <= j < MAX_INODES && 0 <= k < SLOTS && Ptr(v, j, k) == y;
      assert j !in js ==> Ptr(u, j, k) == y;
    }
    if Owned(u, y) {
      var j, k :| 0 <= j < MAX_INODES && 0 <= k < SLOTS && Ptr(u, j, k) == y;
      assert Ptr(v, j, k) == y;
    }
    if OwnedIn(v, js, y) {
      var j, k :| j in js && 0 <= j < MAX_INODES && 0 <= k < SLOTS && Ptr(v, j, k) == y;
      assert Owned(v, y);
    }
  }

  lemma FreedBacked(v: Vol, u: Vol, js: set<nat>, j: nat, k: nat)
    requires BlockInv(v) && Freed(v, v, u, js) && u.saved == u.bits && j < MAX_INODES && k < SLOTS && Ptr(u, j, k) != 0
    ensures Bit(u, Ptr(u, j, k)) && SavedBit(u, Ptr(u, j, k))
  {
    FreedPtr(v, u, js, j, k);
    var y := Ptr(v, j, k);
    assert !OwnedIn(v, js, y);
    assert Bit(v, y);
  }

  lemma FreedBlockInv(v: Vol, u: Vol, js: set<nat>)
    requires BlockInv(v) && Freed(v, v, u, js) && u.saved == u.bits
    ensures BlockInv(u) && Leaked(u) == Leaked(v)
  {
    forall j, k | 0 <= j < MAX_INODES && 0 <= k < SLOTS
      ensures Ptr(u, j, k) == if j in js then 0 else Ptr(v, j, k)
      ensures Ptr(u, j, k) != 0 ==> Bit(u, Ptr(u, j, k)) && SavedBit(u, Ptr(u, j, k))
    {
      FreedPtr(v, u, js, j, k);
      if Ptr(u, j, k) != 0 {
        FreedBacked(v, u, js, j, k);
      }
    }
    FreedShapes(v, u, js);
    FreedLeak(v, u, js);
    hide Ptr, Freed, Bit, SavedBit;
    assert Disjoint(u);
  }

  lemma FreedShapes(v: Vol, u: Vol, js: set<nat>)
    requires BlockInv(v) && Freed(v, v, u, js)
    ensures Shapes(u)
  {
    forall j | 0 <= j < MAX_INODES
      ensures Shape(u, j)
    {
      assert Shape(v, j);
      if j !in js {
        KeepsShape(v, u, j);
      }
    }
  }

  lemma FreedLeak(v: Vol, u: Vol, js: set<nat>)
    requires BlockInv(v) && Freed(v, v, u, js)
    ensures Leaked(u) == Leaked(v)
  {
    hide Ptr, OwnedIn;
    forall y | v.start <= y < v.start + |v.data|
      ensures y in Leaked(u) <==> y in Leaked(v)
    {
      FreedOwned(v, u, js, y);
      assert Bit(u, y) <==> Bit(v, y) && !OwnedIn(v, js, y);
    }
  }

  // ---- the tree without a subtree ----

  ghost function Without<T>(t: map<Path, T>, p: Path): map<Path, T> {
    map q | q in t && !(p <= q) :: t[q]
  }

  /** `w` is `u` with the entry of `sp` cleared, `u` is `v` with the subtree freed. */
  ghost predicate Removed(v: Vol, u: Vol, w: Vol, g: Plan, sp: Path, b: nat, s: nat) {
    && Inv(v, g) && sp in g.home && sp != [] && HomeOk(v, g, sp)
    && Freed(v, v, u, Below(g, sp)) && u.saved == u.bits
    && b < DIRECT && s < DIRENTS_PER_BLOCK && HasBlock(u, g.home[Init(sp)].ino, b)
    && Hit(Ent(u, g.home[Init(sp)].ino, b, s), Last(sp))
    && w == PutEnt(u, g.home[Init(sp)].ino, b, s, Cleared(Ent(u, g.home[Init(sp)].ino, b, s)))
  }

  lemma ParentStays(v: Vol, g: Plan, sp: Path)
    requires Inv(v, g) && sp in g.home && sp != [] && HomeOk(v, g, sp)
    ensures Init(sp) in g.home && HomeOk(v, g, Init(sp)) && g.home[Init(sp)].ino !in Below(g, sp)
    ensures Kind(v, g.home[Init(sp)].ino) == DIR && Init(sp) + [Last(sp)] == sp
  {
    assert HomeOk(v, g, Init(sp));
  }

  /** The entry found again is the one of the path. */
  lemma RemovedSlot(v: Vol, u: Vol, w: Vol, g: Plan, sp: Path, b: nat, s: nat)
    requires Removed(v, u, w, g, sp, b, s)
    ensures g.home[sp].b == b && g.home[sp].s == s
  {
    hide PutEnt, Ent, Freed, BlockInv, Cleared, NameField, Matches;
    ParentStays(v, g, sp);
    FreedEnt(v, u, Below(g, sp), g.home[Init(sp)].ino, b, s);
    assert 0 !in Last(sp);
    MatchIsChild(v, g, Init(sp), Last(sp), b, s);
  }

  lemma FreedEnt(v: Vol, u: Vol, js: set<nat>, i: nat, a: nat, t: nat)
    requires Freed(v, v, u, js) && i < MAX_INODES && i !in js && a < DIRECT && t < DIRENTS_PER_BLOCK
    ensures Ent(u, i, a, t) == Ent(v, i, a, t)
  {
    assert u.inodes[i] == v.inodes[i] && u.data == v.data;
  }

  lemma FreedKind(v: Vol, u: Vol, w: Vol, g: Plan, js: set<nat>, i: nat)
    requires TreeInv(v, g) && Freed(v, v, u, js) && SameFiles(u, w) && i < MAX_INODES
    ensures Kind(w, i) == if i in js then FREE else Kind(v, i)
    ensures i in g.path ==> i !in g.lost
  {
    assert SameFile(u, w, i);
    assert InoOk(v, g, i);
  }

  lemma RemovedCuts(v: Vol, u: Vol, w: Vol, g: Plan, sp: Path, b: nat, s: nat)
    requires Removed(v, u, w, g, sp, b, s)
    requires BlockInv(u) && SameFiles(u, w) && EntriesBut(u, w, g.home[Init(sp)].ino, b, s)
    requires Ent(w, g.home[Init(sp)].ino, b, s).used == 0
    ensures Cuts(v, w, g, sp, g.lost)
  {
    RemovedSlot(v, u, w, g, sp, b, s);
    hide PutEnt, Cleared, Hit, Ent, Freed, BlockInv, Kind;
    forall i | 0 <= i < MAX_INODES
      ensures Kind(w, i) == if i in Below(g, sp) then FREE else Kind(v, i)
      ensures i in Below(g, sp) ==> i !in g.lost
    {
      FreedKind(v, u, w, g, Below(g, sp), i);
    }
    forall i, a, t | 0 <= i < MAX_INODES && i !in Below(g, sp) && 0 <= a < DIRECT && 0 <= t < DIRENTS_PER_BLOCK
      ensures (i, a, t) != (g.home[Init(sp)].ino, b, s) ==> Ent(w, i, a, t) == Ent(v, i, a, t)
    {
      FreedEnt(v, u, Below(g, sp), i, a, t);
    }
  }

  lemma RemovedMeaning(v: Vol, u: Vol, w: Vol, g: Plan, sp: Path, b: nat, s: nat)
    requires Removed(v, u, w, g, sp, b, s)
    ensures Inv(w, CutPlan(g, sp, g.lost)) && Leaked(w) == Leaked(v) && Synced(w)
    ensures Tree(w, CutPlan(g, sp, g.lost)) == Without(Tree(v, g), sp)
    ensures Used(w) == Used(v) - BlocksOf(v, Below(g, sp)) && Free(w) == Free(v) + |BlocksOf(v, Below(g, sp))|
    ensures forall i | 0 <= i < MAX_INODES :: w.inodes[i] == if i in Below(g, sp) then ZERO_INODE else v.inodes[i]
  {
    hide BlockInv, TreeInv, PutEnt, Ent, Freed, Tree, Below, Leaked, Used, BlocksOf, Hit, CutPlan, Cuts, SameFiles,
      EntriesBut, Free, Kind;
    FreedBlockInv(v, u, Below(g, sp));
    RemovedPut(v, u, w, g, sp, b, s);
    RemovedCuts(v, u, w, g, sp, b, s);
    CutKeepsTree(v, w, g, sp, g.lost);
    RemovedUsed(v, u, Below(g, sp));
    SameUsed(u, w);
    RemovedFree(v, u, w, Below(g, sp));
    RemovedInodes(v, u, w, g, sp, b, s);
    RemovedTree(v, u, w, g, sp);
  }

  lemma RemovedInodes(v: Vol, u: Vol, w: Vol, g: Plan, sp: Path, b: nat, s: nat)
    requires Removed(v, u, w, g, sp, b, s)
    ensures forall i | 0 <= i < MAX_INODES :: w.inodes[i] == if i in Below(g, sp) then ZERO_INODE else v.inodes[i]
  {
    hide Inv, HomeOk, Below, Hit, Ent, PutDirent;
  }

  /** The free blocks grow by exactly the number of blocks the inodes owned. */
  lemma RemovedFree(v: Vol, u: Vol, w: Vol, js: set<nat>)
    requires BlockInv(v) && Freed(v, v, u, js) && w.bits == u.bits && w.start == u.start && |w.data| == |u.data|
    ensures Free(w) == Free(v) + |BlocksOf(v, js)|
  {
    RemovedUsed(v, u, js);
    hide OwnedIn, BlocksOf;
    forall y | InData(v, y)
      ensures Bit(w, y) <==> Bit(v, y) && y !in BlocksOf(v, js)
    {
      assert y in Used(u) <==> y in Used(v) && y !in BlocksOf(v, js);
    }
    forall y | y in BlocksOf(v, js)
      ensures Bit(v, y)
    {
      assert y in Used(v);
    }
    FreedCount(v, w, BlocksOf(v, js));
  }

  lemma SameUsed(u: Vol, w: Vol)
    requires w.bits == u.bits && w.start == u.start
    ensures Used(w) == Used(u)
  {
  }

  lemma RemovedPut(v: Vol, u: Vol, w: Vol, g: Plan, sp: Path, b: nat, s: nat)
    requires Removed(v, u, w, g, sp, b, s) && BlockInv(u)
    ensures BlockInv(w) && Leaked(w) == Leaked(u) && SameFiles(u, w) && w.bits == u.bits && w.saved == u.saved &&
      w.start == u.start
    ensures EntriesBut(u, w, g.home[Init(sp)].ino, b, s) && Ent(w, g.home[Init(sp)].ino, b, s).used == 0
  {
    var d := g.home[Init(sp)].ino;
    PutEntMeaning(u, w, d, b, s, Cleared(Ent(u, d, b, s)));
  }

  lemma RemovedUsed(v: Vol, u: Vol, js: set<nat>)
    requires BlockInv(v) && Freed(v, v, u, js)
    ensures Used(u) == Used(v) - BlocksOf(v, js) && BlocksOf(v, js) <= Used(v)
  {
    forall y | y in BlocksOf(v, js)
      ensures y in Used(v)
    {
      var j, k :| j in js && 0 <= j < MAX_INODES && 0 <= k < SLOTS && Ptr(v, j, k) == y;
      assert Bit(v, Ptr(v, j, k));
    }
    hide Ptr, OwnedIn;
  }

  lemma RemovedTree(v: Vol, u: Vol, w: Vol, g: Plan, sp: Path)
    requires Inv(v, g) && sp in g.home && Freed(v, v, u, Below(g, sp)) && SameFiles(u, w)
    requires Inv(w, CutPlan(g, sp, g.lost))
    ensures Tree(w, CutPlan(g, sp, g.lost)) == Without(Tree(v, g), sp)
  {
    hide NodeOf, BlockInv, TreeInv;
    var g' := CutPlan(g, sp, g.lost);
    forall q | q in g'.home
      ensures NodeOf(w, g', q) == NodeOf(v, g, q)
    {
      RemovedNode(v, u, w, g, sp, q);
    }
  }

  lemma RemovedNode(v: Vol, u: Vol, w: Vol, g: Plan, sp: Path, q: Path)
    requires Inv(v, g) && sp in g.home && Freed(v, v, u, Below(g, sp)) && SameFiles(u, w)
    requires Inv(w, CutPlan(g, sp, g.lost)) && q in g.home && !(sp <= q)
    ensures NodeOf(w, CutPlan(g, sp, g.lost), q) == NodeOf(v, g, q)
  {
    assert HomeOk(v, g, q) && Shape(v, g.home[q].ino);
    var i := g.home[q].ino;
    assert i !in Below(g, sp);
    assert SameFile(u, w, i);
    assert Keeps(v, u, i) by {
      assert u.data == v.data;
    }
    RewrittenNode(v, u, i);
  }

  // ---- nfs_delete_path ----

  /**
   * Deleting succeeds exactly on an existing path other than the root. The tree loses the paths
   * at and below it and every other keeps its place; exactly the inodes of that subtree become
   * free, no other changes, and exactly the blocks they own; nothing leaks and no inode is lost.
   */
  ghost predicate DeleteResult(v: Vol, g: Plan, w: Vol, g': Plan, path: seq<byte>, r: int)
    requires Inv(v, g)
  {
    if Creatable(Tree(v, g), path) && Components(path) in Tree(v, g) then
      && r == 0 && Inv(w, g') && Tree(w, g') == Without(Tree(v, g), Components(path))
      && (forall i | 0 <= i < MAX_INODES ::
            w.inodes[i] == if i in Below(g, Components(path)) then ZERO_INODE else v.inodes[i])
      && SamePlaces(g', g)
      && Used(w) == Used(v) - BlocksOf(v, Below(g, Components(path)))
      && Free(w) == Free(v) + |BlocksOf(v, Below(g, Components(path)))|
      && g'.lost == g.lost && Leaked(w) == Leaked(v) && Synced(w)
    else r == -1 && w == v && g' == g
  }

  method DeletePath(st: Store, path: seq<byte>) returns (r: int)
    requires Good(st) && 0 !in path
    modifies st, st.bitmap
    ensures Good(st) && st.bitmap == old(st.bitmap) && st.sb == old(st.sb)
    ensures DeleteResult(old(st.State()), old(st.plan), st.State(), st.plan, path, r)
  {
    hide VolOf, Formatted, BlockInv, TreeInv, Tree, Strict, Components, Freed, Below, Leaked, Used, BlocksOf, Hit,
      Cleared;
    ghost var v, g, cs := st.State(), st.plan, Components(path);
    CreatableMeaning(v, g, path);
    TreeKeys(v, g);
    var ok, parent, name := ResolveParent(st, path);
    if !ok {
      return -1;
    }
    NameIsValid(path);
    var found, entry := LookUp(st, parent, name, Init(cs));
    if !found {
      return -1;
    }
    LiveHome(v, g, cs);
    IntactNow(v, g, cs);
    DeleteInodeRecursive(st, entry.inode, v, g, cs);
    ghost var u := st.State();
    ParentReady(v, u, g, cs);
    ghost var b, s;
    ok, b, s := DirRemoveEntryIn(st, parent, name);
    EntryStillThere(v, u, g, cs);
    assert ok;
    HitHasBlock(u, parent, b, s, name);
    RemovedMeaning(v, u, st.State(), g, cs, b, s);
    st.plan := CutPlan(g, cs, g.lost);
    return 0;
  }

  lemma IntactNow(v: Vol, g: Plan, p: Path)
    ensures Intact(v, v, g, p)
  {
  }

  lemma ParentReady(v: Vol, u: Vol, g: Plan, sp: Path)
    requires Inv(v, g) && sp in g.home && sp != [] && HomeOk(v, g, sp) && Freed(v, v, u, Below(g, sp)) &&
      u.saved == u.bits
    ensures Init(sp) in g.home && Ready(u, g.home[Init(sp)].ino)
  {
    ParentStays(v, g, sp);
    FreedBlockInv(v, u, Below(g, sp));
    DirectoriesAreReady(u, g.home[Init(sp)].ino);
  }

  /** The parent still lists the deleted child. */
  lemma EntryStillThere(v: Vol, u: Vol, g: Plan, sp: Path)
    requires Inv(v, g) && sp in g.home && sp != [] && HomeOk(v, g, sp) && Freed(v, v, u, Below(g, sp))
    ensures Init(sp) in g.home && g.home[Init(sp)].ino < MAX_INODES && !Absent(u, g.home[Init(sp)].ino, Last(sp))
  {
    hide Ent, Freed, BlockInv;
    ParentStays(v, g, sp);
    ChildMatches(v, g, Init(sp), Last(sp));
    FreedEnt(v, u, Below(g, sp), g.home[Init(sp)].ino, g.home[sp].b, g.home[sp].s);
    assert Hit(Ent(u, g.home[Init(sp)].ino, g.home[sp].b, g.home[sp].s), Last(sp));
  }
}
