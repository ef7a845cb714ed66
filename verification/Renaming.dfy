/** nfs_rename_path and nfs_move_path against the tree of paths, and why a directory is never full. */
module Renaming {
  import opened Bytes
  import opened Layout
  import opened Volume
  import opened Image
  import opened Store
  import opened Trees
  import opened Steps
  import opened Linking
  import opened Space
  import opened Directory
  import opened Paths
  import opened Creating
  import opened Files
  import opened Reading
  import opened Moving
  import opened Deleting
  import opened Removing

  /** The path, when it exists, is reached through folders only and names a folder. */
  ghost predicate NamesFolder(t: map<Path, Node>, cs: Path) {
    Plain(t, cs) && (cs in t ==> t[cs] == Folder)
  }

  /** A name as it fits an entry: cut to 31 characters. */
  function CutName(n: Name): Name {
    if |n| < MAX_NAME then n else n[..MAX_NAME - 1]
  }

  lemma CutNameField(n: Name)
    requires 0 !in n
    ensures ValidName(CutName(n)) && NameField(CutName(n)) == NameField(n) && (|n| < MAX_NAME ==> CutName(n) == n)
  {
  }

  /**
   * A rename succeeds exactly when the directory and the old name exist and the new name does
   * not; then the subtree hangs under the new name. It never loses the entry.
   */
  ghost predicate RenameResult(v: Vol, g: Plan, w: Vol, g': Plan, p: Path, old_name: Name, new_name: Name, ok: bool)
    requires Inv(v, g)
  {
    && (ok <==> p in Tree(v, g) && p + [new_name] !in Tree(v, g) && p + [old_name] in Tree(v, g))
    && if ok then
         && Inv(w, g') && Tree(w, g') == Moved(Tree(v, g), p + [old_name], p + [CutName(new_name)]) && g'.lost == g.lost
         && Leaked(w) == Leaked(v) && Grew(v, w, FolderIno(g, p), 0)
         && Rebased(g, g', p + [old_name], p + [CutName(new_name)])
       else w == v && g' == g
  }

  /**
   * The rename leaves a tree behind: the new name fits its entry, or what is left of it is free
   * or the old name itself, or there is nothing to rename.
   */
  predicate RenameClean(t: map<Path, Node>, p: Path, old_name: Name, new_name: Name) {
    || |new_name| < MAX_NAME || p + [CutName(new_name)] !in t || CutName(new_name) == old_name || p + [old_name] !in t
  }

  /** Some tree fits the volume. */
  ghost predicate Sound(w: Vol) {
    exists h :: Inv(w, h)
  }

  /** A rename that is not clean succeeds and leaves two used entries of one name in the folder, which no tree fits. */
  ghost predicate RenameOutcome(v: Vol, g: Plan, w: Vol, g': Plan, p: Path, old_name: Name, new_name: Name, ok: bool)
    requires Inv(v, g)
  {
    if RenameClean(Tree(v, g), p, old_name, new_name) then
      Inv(w, g') && RenameResult(v, g, w, g', p, old_name, new_name, ok)
    else ok && p in g.home && TwoOfOneName(w, g.home[p].ino, CutName(new_name)) && !Sound(w)
  }

  /** A tree fits the disk after a rename exactly when the rename was clean. */
  lemma RenameSoundExactly(v: Vol, g: Plan, w: Vol, g': Plan, p: Path, old_name: Name, new_name: Name, ok: bool)
    requires Inv(v, g) && RenameOutcome(v, g, w, g', p, old_name, new_name, ok)
    ensures Sound(w) <==> RenameClean(Tree(v, g), p, old_name, new_name)
  {
    hide Inv, Tree, RenameResult;
  }

  method RenamePath(st: Store, dir_path: seq<byte>, old_name: Name, new_name: Name) returns (ok: bool)
    requires Good(st) && 0 !in dir_path && 0 !in old_name && 0 !in new_name
    requires NamesFolder(TreeOf(st), FullComponents(dir_path))
    modifies st, st.bitmap
    ensures st.Mounted() && st.bitmap == old(st.bitmap) && st.sb == old(st.sb)
    ensures RenameOutcome(old(st.State()), old(st.plan), st.State(), st.plan, FullComponents(dir_path), old_name,
      new_name, ok)
    ensures Sound(st.State()) <==> RenameClean(old(TreeOf(st)), FullComponents(dir_path), old_name, new_name)
  {
    hide VolOf, Formatted, BlockInv, TreeInv, Tree, FullComponents, Walk, NameField, Leaked, Below, Moved, Without,
      Plain, NoRoom, Unlinked,
      Added, TwoOfOneName, CutName, Sound;
    ghost var v, g, p := st.State(), st.plan, FullComponents(dir_path);
    TreeKeys(v, g);
    var d := Resolve(st, dir_path);
    if d < 0 {
      NoDirectory(v, g, p, old_name);
      RenameSoundExactly(v, g, v, g, p, old_name, new_name, false);
      return false;
    }
    NodeKind(v, g, p);
    var taken, _ := LookUp(st, d, new_name, p);
    if taken {
      LiveName(v, g, p, new_name);
      RenameSoundExactly(v, g, v, g, p, old_name, new_name, false);
      return false;
    }
    var found, entry := LookUp(st, d, old_name, p);
    if !found {
      RenameSoundExactly(v, g, v, g, p, old_name, new_name, false);
      return false;
    }
    CutNameField(new_name);
    Child(p, old_name);
    Child(p, CutName(new_name));
    ghost var u, b, s, c, t;
    ok, u, b, s, c, t := Rewire(st, d, old_name, d, new_name, entry.inode, p + [old_name]);
    SameFolderFits(v, u, g, p + [old_name], b, s);
    if p + [CutName(new_name)] in g.home && CutName(new_name) != old_name {
      assert |new_name| >= MAX_NAME;
      Twins(v, u, st.State(), g, p, old_name, new_name, entry.inode, b, s, c, t);
    } else {
      FitsMeaning(v, u, g, p + [old_name], p + [CutName(new_name)], b, s);
      st.plan := RelinkOutcome(v, u, st.State(), g, p + [old_name], p + [CutName(new_name)], b, s, c, t, ok);
    }
    RenameSoundExactly(v, g, st.State(), st.plan, p, old_name, new_name, ok);
  }

  /** A directory of the volume holds two used entries of one name. */
  ghost predicate TwoOfOneName(w: Vol, d: nat, n: Name) {
    d < MAX_INODES && exists b, s, c, t | 0 <= b < DIRECT && 0 <= s < DIRENTS_PER_BLOCK && 0 <= c < DIRECT &&
      0 <= t < DIRENTS_PER_BLOCK ::
      (b, s) != (c, t) && Named(w, d, b, s, n) && Named(w, d, c, t, n)
  }

  predicate Named(w: Vol, d: nat, b: nat, s: nat, n: Name)
    requires d < MAX_INODES && b < DIRECT && s < DIRENTS_PER_BLOCK
  {
    Ent(w, d, b, s).used != 0 && Ent(w, d, b, s).name == NameField(n)
  }

  lemma NoDirectory(v: Vol, g: Plan, p: Path, n: Name)
    requires Inv(v, g) && p !in g.home
    ensures p + [n] !in g.home
  {
    assert p + [n] in g.home ==> HomeOk(v, g, p + [n]);
    assert Init(p + [n]) == p;
  }

  lemma LiveName(v: Vol, g: Plan, p: Path, n: Name)
    requires Inv(v, g) && p + [n] in g.home
    ensures |n| < MAX_NAME
  {
    assert HomeOk(v, g, p + [n]);
  }

  lemma Child(p: Path, n: Name)
    ensures p + [n] != [] && Init(p + [n]) == p && Last(p + [n]) == n && !(p + [n] <= p)
  {
  }

  /** A move touches nothing when a path is missing or the name is taken; otherwise it ends as RelinkResult says. */
  ghost predicate MoveResult(v: Vol, g: Plan, w: Vol, g': Plan, p: Path, n: Name, q: Path, ok: bool)
    requires Inv(v, g)
  {
    if p in Tree(v, g) && q in Tree(v, g) && q + [n] !in Tree(v, g) && p + [n] in Tree(v, g)
    then RelinkResult(v, g, w, g', p, n, q, n, ok)
    else !ok && w == v && g' == g
  }

  method MovePath(st: Store, src_path: seq<byte>, name: Name, dst_path: seq<byte>) returns (ok: bool)
    requires Good(st) && 0 !in src_path && 0 !in dst_path && 0 !in name
    requires NamesFolder(TreeOf(st), FullComponents(src_path)) && NamesFolder(TreeOf(st), FullComponents(dst_path))
    modifies st, st.bitmap
    ensures Good(st) && st.bitmap == old(st.bitmap) && st.sb == old(st.sb)
    ensures MoveResult(old(st.State()), old(st.plan), st.State(), st.plan, FullComponents(src_path), name,
      FullComponents(dst_path), ok)
  {
    hide VolOf, Formatted, BlockInv, TreeInv, Tree, FullComponents, Walk, NameField, Leaked, Below, Moved, Without,
      Plain, NoRoom, RelinkResult;
    ghost var v, g, p, q := st.State(), st.plan, FullComponents(src_path), FullComponents(dst_path);
    TreeKeys(v, g);
    var sd := Resolve(st, src_path);
    if sd < 0 {
      return false;
    }
    var dd := Resolve(st, dst_path);
    if dd < 0 {
      return false;
    }
    NodeKind(v, g, p);
    NodeKind(v, g, q);
    Child(p, name);
    Child(q, name);
    var taken, _ := LookUp(st, dd, name, q);
    if taken {
      return false;
    }
    var found, entry := LookUp(st, sd, name, p);
    if !found {
      return false;
    }
    LiveHome(v, g, p + [name]);
    ok := Relink(st, sd, name, dd, name, entry.inode, p + [name], q + [name]);
  }

  // ---- a directory is never full ----

  lemma {:induction false} Pigeonhole(xs: seq<nat>, n: nat)
    requires forall i | 0 <= i < |xs| :: xs[i] < n
    requires forall i, j | 0 <= i < j < |xs| :: xs[i] != xs[j]
    ensures |xs| <= n
    decreases n
  {
    assert xs != [] ==> xs[0] < n;
    if n > 0 && xs != [] {
      if k :| 0 <= k < |xs| && xs[k] == n - 1 {
        var ys := xs[..k] + xs[k + 1..];
        assert forall i | 0 <= i < |ys| :: ys[i] == if i < k then xs[i] else xs[i + 1];
        Pigeonhole(ys, n - 1);
      } else {
        Pigeonhole(xs, n - 1);
      }
    }
  }

  /** The inode entry number `e` of a directory names. */
  function Target(v: Vol, d: nat, e: nat): nat
    requires d < MAX_INODES && e < ENTRIES
  {
    Ent(v, d, e / DIRENTS_PER_BLOCK, e % DIRENTS_PER_BLOCK).inode
  }

  /** Two used entries of a live directory name different inodes. */
  lemma TargetsDiffer(v: Vol, g: Plan, p: Path, e: nat, f: nat)
    requires Inv(v, g) && p in g.home && HomeOk(v, g, p) && Kind(v, g.home[p].ino) == DIR && e < f < ENTRIES
    requires Ent(v, g.home[p].ino, e / DIRENTS_PER_BLOCK, e % DIRENTS_PER_BLOCK).used != 0
    requires Ent(v, g.home[p].ino, f / DIRENTS_PER_BLOCK, f % DIRENTS_PER_BLOCK).used != 0
    ensures Target(v, g.home[p].ino, e) != Target(v, g.home[p].ino, f) && Target(v, g.home[p].ino, e) < MAX_INODES
  {
    hide BlockInv, Ent;
    var n := ChildOf(v, g, p, e / DIRENTS_PER_BLOCK, e % DIRENTS_PER_BLOCK);
    var m := ChildOf(v, g, p, f / DIRENTS_PER_BLOCK, f % DIRENTS_PER_BLOCK);
    assert HomeOk(v, g, p + [n]);
    if Target(v, g.home[p].ino, e) == Target(v, g.home[p].ino, f) {
      OneName(v, g, p + [n], p + [m]);
    }
  }

  /** 256 inodes cannot fill 1100 entries: a directory runs out of room only when the disk does. */
  lemma NeverFull(v: Vol, g: Plan, p: Path)
    requires Inv(v, g) && p in g.home && HomeOk(v, g, p) && Kind(v, g.home[p].ino) == DIR
    ensures NoRoom(v, g.home[p].ino) ==> AllSet(v.bits)
  {
    hide Ent, BlockInv, TreeInv;
    var d := g.home[p].ino;
    if FullTo(v, d, DIRECT) {
      var xs := seq(ENTRIES, e requires 0 <= e < ENTRIES => Target(v, d, e));
      forall e, f | 0 <= e < f < ENTRIES
        ensures xs[e] != xs[f]
      {
        TargetsDiffer(v, g, p, e, f);
      }
      forall e | 0 <= e < ENTRIES - 1
        ensures xs[e] < MAX_INODES
      {
        TargetsDiffer(v, g, p, e, e + 1);
      }
      Pigeonhole(xs[..MAX_INODES + 1], MAX_INODES);
    }
  }

  /** A folder of the tree has no room exactly when its blocks are full and no block of the disk is free. */
  lemma NoRoomExactly(v: Vol, g: Plan, p: Path)
    requires Inv(v, g) && p in g.home && HomeOk(v, g, p) && Kind(v, g.home[p].ino) == DIR
    ensures NoRoom(v, g.home[p].ino) <==> !Slack(v, g.home[p].ino) && Free(v) == 0
  {
    assert Shape(v, g.home[p].ino);
    hide NoRoom, Slack, Free, AllSet, BlockInv, TreeInv;
    NeverFull(v, g, p);
    FreeIsNone(v);
    if NoRoom(v, g.home[p].ino) {
      NoRoomNoSlack(v, g.home[p].ino);
    } else if AllSet(v.bits) && !Slack(v, g.home[p].ino) {
      NoSlackNoRoom(v, g.home[p].ino);
    }
  }

  lemma FreeIsNone(v: Vol)
    ensures Free(v) == 0 <==> AllSet(v.bits)
  {
    FreeNone(v.bits);
  }

  /** A move whose names check out loses its entry only when every block of the disk is taken, and never within one
      folder. */
  lemma MoveLosesOnlyWhenFull(v: Vol, g: Plan, w: Vol, g': Plan, p: Path, n: Name, q: Path)
    requires Inv(v, g) && p in Tree(v, g) && q in Tree(v, g) && Tree(v, g)[q] == Folder
    requires p + [n] in Tree(v, g) && q + [n] !in Tree(v, g) && MoveResult(v, g, w, g', p, n, q, false)
    ensures p != q && AllSet(v.bits) && NoRoom(v, g.home[q].ino)
  {
    hide BlockInv, Moved, Without, Leaked, NoRoom, AllSet;
    NodeKind(v, g, q);
    assert HomeOk(v, g, q);
    NeverFull(v, g, q);
  }

  // ---- a cut name that is taken ----

  /** Along the path of a directory whose ancestors kept their entries, every tree that fits agrees. */
  lemma {:induction false} AncestorsAgree(v: Vol, w: Vol, g: Plan, h: Plan, p: Path, k: nat)
    requires TreeInv(v, g) && TreeInv(w, h) && p in g.home && k <= |p|
    requires forall i, a, t | 0 <= i < MAX_INODES && i != g.home[p].ino && 0 <= a < DIRECT &&
      0 <= t < DIRENTS_PER_BLOCK ::
      Ent(w, i, a, t) == Ent(v, i, a, t)
    requires forall i | 0 <= i < MAX_INODES :: Kind(w, i) == Kind(v, i)
    ensures p[..k] in g.home && p[..k] in h.home && h.home[p[..k]].ino == g.home[p[..k]].ino
  {
    hide Ent, NameField;
    PrefixLives(v, g, p, p[..k]);
    assert HomeOk(v, g, p[..k]);
    if k == 0 {
      assert p[..k] == [];
      assert HomeOk(w, h, []);
    } else {
      AncestorsAgree(v, w, g, h, p, k - 1);
      AncestorChild(v, w, g, h, p, k);
    }
  }

  lemma AncestorChild(v: Vol, w: Vol, g: Plan, h: Plan, p: Path, k: nat)
    requires TreeInv(v, g) && TreeInv(w, h) && p in g.home && 0 < k <= |p|
    requires forall i, a, t | 0 <= i < MAX_INODES && i != g.home[p].ino && 0 <= a < DIRECT &&
      0 <= t < DIRENTS_PER_BLOCK ::
      Ent(w, i, a, t) == Ent(v, i, a, t)
    requires forall i | 0 <= i < MAX_INODES :: Kind(w, i) == Kind(v, i)
    requires p[..k] in g.home && HomeOk(v, g, p[..k])
    requires p[..k - 1] in g.home && p[..k - 1] in h.home && h.home[p[..k - 1]].ino == g.home[p[..k - 1]].ino
    ensures p[..k] in h.home && h.home[p[..k]].ino == g.home[p[..k]].ino
  {
    hide NameField, Matches, Ent;
    var q, n := p[..k - 1], p[k - 1];
    assert p[..k] == q + [n] && Init(p[..k]) == q && Last(p[..k]) == n;
    if g.home[q].ino == g.home[p].ino {
      OneName(v, g, q, p);
    }
    assert HomeOk(w, h, q);
    MatchesOwnField(n, n);
    MatchIsChild(w, h, q, n, g.home[p[..k]].b, g.home[p[..k]].s);
  }

  /** Two used entries of one name in a directory of the tree fit no tree. */
  lemma TwinEntries(w: Vol, h: Plan, d: nat, n: Name)
    requires d < MAX_INODES && Kind(w, d) == DIR && d in h.path && ValidName(n) && TwoOfOneName(w, d, n)
    ensures !TreeInv(w, h)
  {
    hide Ent, NameField;
    var b, s, c, t :| 0 <= b < DIRECT && 0 <= s < DIRENTS_PER_BLOCK && 0 <= c < DIRECT && 0 <= t < DIRENTS_PER_BLOCK &&
      (b, s) != (c, t) && Named(w, d, b, s, n) && Named(w, d, c, t, n);
    if TreeInv(w, h) {
      assert EntOk(w, h, d, b, s) && EntOk(w, h, d, c, t);
      var m :| ValidName(m) && Listed(w, h, d, b, s, m);
      var k :| ValidName(k) && Listed(w, h, d, c, t, k);
      NameFieldInjective(m, n);
      NameFieldInjective(k, n);
    }
  }

  /** The twin keeps its entry when the old one is cleared and the cut name written elsewhere. */
  lemma TwinsThere(v: Vol, u: Vol, w: Vol, g: Plan, p: Path, old_name: Name, new_name: Name, ino: u32,
                   b: nat, s: nat, c: nat, t: nat)
    requires Unlinked(v, u, g, p + [old_name], b, s) && FolderAt(v, g, p, g.home[p].ino) && ValidName(CutName(new_name))
    requires p + [CutName(new_name)] in g.home && CutName(new_name) != old_name &&
      NameField(CutName(new_name)) == NameField(new_name)
    requires Added(u, w, g.home[p].ino, c, t, NewEntry(new_name, ino))
    ensures TwoOfOneName(w, g.home[p].ino, CutName(new_name))
    ensures forall i | 0 <= i < MAX_INODES :: Kind(w, i) == Kind(v, i)
    ensures forall i, a, x | 0 <= i < MAX_INODES && i != g.home[p].ino && 0 <= a < DIRECT &&
      0 <= x < DIRENTS_PER_BLOCK ::
      Ent(w, i, a, x) == Ent(v, i, a, x)
  {
    hide BlockInv, TreeInv, Ent, PutEnt, NameField, SameFiles, Added, Hit, Cleared, Matches;
    var d, m, sp := g.home[p].ino, CutName(new_name), p + [old_name];
    Child(p, old_name);
    Child(p, m);
    UnlinkedFacts(v, u, g, sp, b, s);
    UnlinkedMeaning(v, u, g, sp, b, s);
    SameKinds(v, u);
    AddedMeaning(u, w, d, c, t, NewEntry(new_name, ino));
    AddedSlot(u, w, d, c, t, NewEntry(new_name, ino));
    SameKinds(u, w);
    LiveHome(v, g, p + [m]);
    OtherSlot(v, g, p, old_name, m);
    hide Unlinked, HomeOk, InoOk, EntOk;
    var home := g.home[p + [m]];
    assert (d, home.b, home.s) != (d, b, s) && (d, home.b, home.s) != (d, c, t);
    assert Named(w, d, home.b, home.s, m) && Named(w, d, c, t, m);
  }

  lemma OtherSlot(v: Vol, g: Plan, p: Path, m: Name, n: Name)
    requires TreeInv(v, g) && p + [m] in g.home && p + [n] in g.home && m != n
    ensures p in g.home && g.home[p].ino < MAX_INODES
    ensures var x, y := g.home[p + [m]], g.home[p + [n]];
      (x.b, x.s) != (y.b, y.s) && y.b < DIRECT && y.s < DIRENTS_PER_BLOCK &&
        IsEntry(Ent(v, g.home[p].ino, y.b, y.s), n, y.ino)
  {
    hide Ent, NameField;
    Child(p, m);
    Child(p, n);
    assert HomeOk(v, g, p + [m]) && HomeOk(v, g, p + [n]);
    if NameField(m) == NameField(n) {
      NameFieldInjective(m, n);
    }
  }

  /** Clearing the old entry and writing the cut name beside its twin leaves a disk that fits no tree. */
  lemma Twins(v: Vol, u: Vol, w: Vol, g: Plan, p: Path, old_name: Name, new_name: Name, ino: u32,
              b: nat, s: nat, c: nat, t: nat)
    requires Unlinked(v, u, g, p + [old_name], b, s) && p in g.home && FolderAt(v, g, p, g.home[p].ino)
    requires 0 !in new_name && p + [CutName(new_name)] in g.home && CutName(new_name) != old_name
    requires Added(u, w, g.home[p].ino, c, t, NewEntry(new_name, ino))
    ensures TwoOfOneName(w, g.home[p].ino, CutName(new_name))
    ensures !Sound(w)
  {
    hide Added, TwoOfOneName, BlockInv, NameField, Ent;
    CutNameField(new_name);
    LiveHome(v, g, p + [CutName(new_name)]);
    Child(p, CutName(new_name));
    TwinsThere(v, u, w, g, p, old_name, new_name, ino, b, s, c, t);
    hide Unlinked, TreeInv;
    forall h
      ensures !Inv(w, h)
    {
      if TreeInv(w, h) {
        AncestorsAgree(v, w, g, h, p, |p|);
        assert p[..|p|] == p;
        FolderLives(w, h, p);
        TwinEntries(w, h, g.home[p].ino, CutName(new_name));
      }
    }
  }

  lemma FolderLives(w: Vol, h: Plan, p: Path)
    requires TreeInv(w, h) && p in h.home
    ensures h.home[p].ino in h.path
  {
    assert HomeOk(w, h, p);
  }
}
