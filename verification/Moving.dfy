/** nfs_rename_path and nfs_move_path: an entry is cleared and written again under another name or elsewhere. */
module Moving {
  import opened Bytes
  import opened Layout
  import opened Volume
  import opened Image
  import opened Steps
  import opened Store
  import opened Trees
  import opened Directory
  import opened Linking
  import opened Paths
  import opened Creating
  import opened Files
  import opened Space
  import opened Reading
  import opened Removing

  // ---- the tree after a move ----

  /** The subtree at `sp` hangs at `q`; everything else is where it was. */
  ghost function Moved<T>(t: map<Path, T>, sp: Path, q: Path): map<Path, T> {
    map x | x in (set p | p in t :: Rebase(p, sp, q)) && Rebase(x, q, sp) in t :: t[Rebase(x, q, sp)]
  }

  lemma MovedTree(v: Vol, w: Vol, g: Plan, sp: Path, q: Path, b: nat, s: nat)
    requires Inv(v, g) && Moves(v, w, g, sp, q, b, s) && SameFiles(v, w) && Inv(w, MovePlan(g, sp, q, b, s))
    ensures Tree(w, MovePlan(g, sp, q, b, s)) == Moved(Tree(v, g), sp, q)
  {
    hide NodeOf, BlockInv, TreeInv, Moves;
    var g' := MovePlan(g, sp, q, b, s);
    forall x | x in g'.home
      ensures NodeOf(w, g', x) == NodeOf(v, g, Rebase(x, q, sp))
    {
      var p := MovedFrom(v, w, g, sp, q, b, s, x);
      MovedNode(v, w, g, sp, q, b, s, p);
    }
  }

  lemma MovedNode(v: Vol, w: Vol, g: Plan, sp: Path, q: Path, b: nat, s: nat, p: Path)
    requires Inv(v, g) && Moves(v, w, g, sp, q, b, s) && SameFiles(v, w) && Inv(w, MovePlan(g, sp, q, b, s)) &&
      p in g.home
    ensures Rebase(p, sp, q) in MovePlan(g, sp, q, b, s).home && Rebase(Rebase(p, sp, q), q, sp) == p
    ensures NodeOf(w, MovePlan(g, sp, q, b, s), Rebase(p, sp, q)) == NodeOf(v, g, p)
  {
    hide Moves, MovePlan, Rebase;
    MovedHomes(v, w, g, sp, q, b, s, p);
    MovesFacts(v, w, g, sp, q, b, s);
    MoveBack(v, g, sp, q, p);
    assert HomeOk(v, g, p) && Shape(v, g.home[p].ino);
    assert SameFile(v, w, g.home[p].ino);
  }

  lemma MovesFacts(v: Vol, w: Vol, g: Plan, sp: Path, q: Path, b: nat, s: nat)
    requires Moves(v, w, g, sp, q, b, s)
    ensures TreeInv(v, g) && sp in g.home && sp != [] && q != [] && (q !in g.home || q == sp) && !(sp <= Init(q))
  {
  }

  // ---- the two steps: the old entry is cleared, the new one written ----

  /** `u` is `v` with the entry of `sp` cleared; `sp` stays in the plan. */
  ghost predicate Unlinked(v: Vol, u: Vol, g: Plan, sp: Path, b: nat, s: nat) {
    && Inv(v, g) && sp in g.home && sp != [] && HomeOk(v, g, sp)
    && b < DIRECT && s < DIRENTS_PER_BLOCK && HasBlock(v, g.home[Init(sp)].ino, b)
    && Hit(Ent(v, g.home[Init(sp)].ino, b, s), Last(sp))
    && u == PutEnt(v, g.home[Init(sp)].ino, b, s, Cleared(Ent(v, g.home[Init(sp)].ino, b, s)))
  }

  lemma UnlinkedMeaning(v: Vol, u: Vol, g: Plan, sp: Path, b: nat, s: nat)
    requires Unlinked(v, u, g, sp, b, s)
    ensures g.home[sp].b == b && g.home[sp].s == s
    ensures BlockInv(u) && Leaked(u) == Leaked(v) && SameFiles(v, u) && u.bits == v.bits && u.saved == v.saved
    ensures EntriesBut(v, u, g.home[Init(sp)].ino, b, s) && Ent(u, g.home[Init(sp)].ino, b, s).used == 0
  {
    ParentStays(v, g, sp);
    var d := g.home[Init(sp)].ino;
    PutEntMeaning(v, u, d, b, s, Cleared(Ent(v, d, b, s)));
    hide PutEnt, Ent, BlockInv, Cleared, NameField, Matches;
    assert 0 !in Last(sp);
    MatchIsChild(v, g, Init(sp), Last(sp), b, s);
  }

  lemma UnlinkedFacts(v: Vol, u: Vol, g: Plan, sp: Path, b: nat, s: nat)
    requires Unlinked(v, u, g, sp, b, s)
    ensures Inv(v, g) && sp in g.home && sp != [] && HomeOk(v, g, sp) && Init(sp) in g.home
    ensures g.home[Init(sp)].ino < MAX_INODES && b < DIRECT && s < DIRENTS_PER_BLOCK
  {
  }

  lemma SameKinds(v: Vol, w: Vol)
    requires SameFiles(v, w)
    ensures forall i | 0 <= i < MAX_INODES :: Kind(w, i) == Kind(v, i)
  {
    forall i | 0 <= i < MAX_INODES
      ensures Kind(w, i) == Kind(v, i)
    {
      assert SameFile(v, w, i);
    }
  }

  /** All entries but one of a directory in the subtree are the same. */
  ghost predicate AddedBelow(u: Vol, w: Vol, g: Plan, sp: Path) {
    exists d: nat, c: nat, t: nat | d in Below(g, sp) :: EntriesBut(u, w, d, c, t)
  }

  /** Clearing the entry without writing another cuts the subtree off: its inodes are lost. */
  lemma UnlinkedCuts(v: Vol, u: Vol, w: Vol, g: Plan, sp: Path, b: nat, s: nat)
    requires Unlinked(v, u, g, sp, b, s) && BlockInv(w) && SameFiles(u, w)
    requires w == u || AddedBelow(u, w, g, sp)
    ensures Inv(w, CutPlan(g, sp, g.lost + Below(g, sp)))
    ensures Tree(w, CutPlan(g, sp, g.lost + Below(g, sp))) == Without(Tree(v, g), sp)
  {
    hide BlockInv, TreeInv, Unlinked, Tree, CutPlan, Ent, SameFiles;
    UnlinkedMeaning(v, u, g, sp, b, s);
    SameFilesTrans(v, u, w);
    LostCuts(v, u, w, g, sp, b, s);
    CutKeepsTree(v, w, g, sp, g.lost + Below(g, sp));
    LostTree(v, u, w, g, sp, b, s);
  }

  lemma LostCuts(v: Vol, u: Vol, w: Vol, g: Plan, sp: Path, b: nat, s: nat)
    requires Unlinked(v, u, g, sp, b, s) && SameFiles(v, w)
    requires w == u || AddedBelow(u, w, g, sp)
    ensures Cuts(v, w, g, sp, g.lost + Below(g, sp))
  {
    hide BlockInv, Ent, PutEnt, Hit, SameFiles, Kind, Cleared, EntriesBut, InoOk, EntOk, Below;
    UnlinkedMeaning(v, u, g, sp, b, s);
    ParentStays(v, g, sp);
    SameKinds(v, w);
    BelowLive(v, g, sp);
    CutEntries(v, u, w, g, sp, b, s);
  }

  lemma BelowLive(v: Vol, g: Plan, sp: Path)
    requires TreeInv(v, g)
    ensures forall i | i in Below(g, sp) :: i < MAX_INODES
    ensures forall i | 0 <= i < MAX_INODES && i in Below(g, sp) :: Kind(v, i) != FREE
    ensures forall i | i in g.lost :: i < MAX_INODES
  {
    forall i | 0 <= i < MAX_INODES && i in Below(g, sp)
      ensures Kind(v, i) != FREE
    {
      assert InoOk(v, g, i);
    }
  }

  lemma CutEntries(v: Vol, u: Vol, w: Vol, g: Plan, sp: Path, b: nat, s: nat)
    requires sp in g.home && sp != [] && Init(sp) in g.home && g.home[Init(sp)].ino !in Below(g, sp)
    requires g.home[Init(sp)].ino < MAX_INODES && b < DIRECT && s < DIRENTS_PER_BLOCK
    requires EntriesBut(v, u, g.home[Init(sp)].ino, b, s) && Ent(u, g.home[Init(sp)].ino, b, s).used == 0
    requires w == u || AddedBelow(u, w, g, sp)
    ensures forall i, a, t | 0 <= i < MAX_INODES && i !in Below(g, sp) && 0 <= a < DIRECT &&
      0 <= t < DIRENTS_PER_BLOCK ::
              (i, a, t) != (g.home[Init(sp)].ino, b, s) ==> Ent(w, i, a, t) == Ent(v, i, a, t)
    ensures Ent(w, g.home[Init(sp)].ino, b, s).used == 0
  {
    hide Ent, Below;
    if w != u {
      var d: nat, c: nat, x: nat :| d in Below(g, sp) && EntriesBut(u, w, d, c, x);
      forall i, a, t | 0 <= i < MAX_INODES && i !in Below(g, sp) && 0 <= a < DIRECT && 0 <= t < DIRENTS_PER_BLOCK
        ensures Ent(w, i, a, t) == Ent(u, i, a, t)
      {
        assert (i, a, t) != (d, c, x);
      }
    }
  }

  lemma LostTree(v: Vol, u: Vol, w: Vol, g: Plan, sp: Path, b: nat, s: nat)
    requires Unlinked(v, u, g, sp, b, s) && SameFiles(v, w) && Inv(w, CutPlan(g, sp, g.lost + Below(g, sp)))
    ensures Tree(w, CutPlan(g, sp, g.lost + Below(g, sp))) == Without(Tree(v, g), sp)
  {
    hide BlockInv, TreeInv, NodeOf, SameFiles;
    var g' := CutPlan(g, sp, g.lost + Below(g, sp));
    forall q | q in g'.home
      ensures NodeOf(w, g', q) == NodeOf(v, g, q)
    {
      SameNode(v, w, g, g', q);
    }
  }

  lemma SameNode(v: Vol, w: Vol, g: Plan, g': Plan, q: Path)
    requires Inv(v, g) && Inv(w, g') && SameFiles(v, w) && q in g.home && q in g'.home &&
      g'.home[q].ino == g.home[q].ino
    ensures NodeOf(w, g', q) == NodeOf(v, g, q)
  {
    assert HomeOk(v, g, q) && Shape(v, g.home[q].ino);
    assert SameFile(v, w, g.home[q].ino);
  }

  /** The entry has been written again at `q`, outside the subtree: the subtree has moved. */
  lemma RelinkedMeaning(v: Vol, u: Vol, w: Vol, g: Plan, sp: Path, q: Path, b: nat, s: nat, c: nat, t: nat)
    requires Unlinked(v, u, g, sp, b, s) && q != [] && (q !in g.home || q == sp) && Init(q) in g.home
    requires FolderAt(v, g, Init(q), g.home[Init(q)].ino) && !(sp <= Init(q))
    requires ValidName(Last(q)) && Added(u, w, g.home[Init(q)].ino, c, t, NewEntry(Last(q), g.home[sp].ino))
    ensures Inv(w, MovePlan(g, sp, q, c, t)) && Tree(w, MovePlan(g, sp, q, c, t)) == Moved(Tree(v, g), sp, q)
    ensures Leaked(w) == Leaked(v) && MovePlan(g, sp, q, c, t).lost == g.lost &&
      Rebased(g, MovePlan(g, sp, q, c, t), sp, q)
  {
    hide BlockInv, TreeInv, Unlinked, Tree, MovePlan, Ent, SameFiles, Added, PutEnt, Leaked, EntriesBut, NameField,
      Rebased;
    UnlinkedFacts(v, u, g, sp, b, s);
    UnlinkedMeaning(v, u, g, sp, b, s);
    assert Kind(u, g.home[Init(q)].ino) == DIR by {
      SameKinds(v, u);
    }
    AddedMeaning(u, w, g.home[Init(q)].ino, c, t, NewEntry(Last(q), g.home[sp].ino));
    SameFilesTrans(v, u, w);
    RelinkedMoves(v, u, w, g, sp, q, b, s, c, t);
    MoveKeepsTree(v, w, g, sp, q, c, t);
    MovedTree(v, w, g, sp, q, c, t);
    MovedLost(v, w, g, sp, q, c, t);
  }

  lemma RelinkedMoves(v: Vol, u: Vol, w: Vol, g: Plan, sp: Path, q: Path, b: nat, s: nat, c: nat, t: nat)
    requires Unlinked(v, u, g, sp, b, s) && q != [] && (q !in g.home || q == sp) && Init(q) in g.home
    requires FolderAt(v, g, Init(q), g.home[Init(q)].ino) && !(sp <= Init(q))
    requires ValidName(Last(q)) && Added(u, w, g.home[Init(q)].ino, c, t, NewEntry(Last(q), g.home[sp].ino))
    requires SameFiles(v, w) && EntriesBut(u, w, g.home[Init(q)].ino, c, t)
    requires Ent(w, g.home[Init(q)].ino, c, t) == NewEntry(Last(q), g.home[sp].ino)
    ensures Moves(v, w, g, sp, q, c, t)
  {
    hide BlockInv, Ent, PutEnt, Hit, SameFiles, Kind, Cleared, HomeOk, InoOk, EntOk, NameField, Added, Unlinked,
      TreeInv;
    UnlinkedFacts(v, u, g, sp, b, s);
    UnlinkedMeaning(v, u, g, sp, b, s);
    SameKinds(v, w);
    ParentStays(v, g, sp);
    LiveHome(v, g, Init(q));
    AddedSlot(u, w, g.home[Init(q)].ino, c, t, NewEntry(Last(q), g.home[sp].ino));
  }

  lemma AddedSlot(u: Vol, w: Vol, d: nat, c: nat, t: nat, e: Dirent)
    requires Added(u, w, d, c, t, e)
    ensures d < MAX_INODES && c < DIRECT && t < DIRENTS_PER_BLOCK && Ent(u, d, c, t).used == 0
  {
  }

  // ---- room for the new entry ----

  /** Whether an entry fits folder `q` once one of folder `p` is cleared: always in the same folder. */
  ghost predicate Fits(v: Vol, g: Plan, p: Path, q: Path)
    requires q in g.home
  {
    q == p || g.home[q].ino >= MAX_INODES || !NoRoom(v, g.home[q].ino)
  }

  /** A rename never loses the entry: the slot just cleared lies before any missing block. */
  lemma SameFolderFits(v: Vol, u: Vol, g: Plan, sp: Path, b: nat, s: nat)
    requires Unlinked(v, u, g, sp, b, s)
    ensures !NoRoom(u, g.home[Init(sp)].ino)
  {
    UnlinkedMeaning(v, u, g, sp, b, s);
    ParentStays(v, g, sp);
    var d := g.home[Init(sp)].ino;
    assert u.inodes == v.inodes;
    assert Shape(v, d);
    hide Ent, BlockInv, TreeInv, PutEnt, Hit;
    forall c | 0 <= c <= DIRECT && FullTo(u, d, c)
      ensures c < DIRECT && u.inodes[d].blocks[c] != 0
    {
      assert c <= b;
      PrefixBlocks(v.inodes[d], c, b);
    }
  }

  lemma {:induction false} PrefixBlocks(x: Inode, c: nat, b: nat)
    requires DirShape(x) && c <= b < DIRECT && x.blocks[b] != 0
    ensures x.blocks[c] != 0
    decreases b - c
  {
    if c < b {
      assert x.blocks[b - 1] != 0;
      PrefixBlocks(x, c, b - 1);
    }
  }

  lemma OtherFolderFits(v: Vol, u: Vol, g: Plan, sp: Path, b: nat, s: nat, d: nat)
    requires Unlinked(v, u, g, sp, b, s) && d < MAX_INODES && d != g.home[Init(sp)].ino
    ensures NoRoom(u, d) == NoRoom(v, d)
  {
    UnlinkedMeaning(v, u, g, sp, b, s);
    assert u.inodes == v.inodes;
    hide Ent, BlockInv, TreeInv, PutEnt, Hit;
    forall c | 0 <= c <= DIRECT
      ensures FullTo(u, d, c) == FullTo(v, d, c)
    {
      if FullTo(v, d, c) {
        assert forall a, t | 0 <= a < c && 0 <= t < DIRENTS_PER_BLOCK :: Ent(u, d, a, t) == Ent(v, d, a, t);
      } else {
        assert forall a, t | 0 <= a < c && 0 <= t < DIRENTS_PER_BLOCK :: Ent(v, d, a, t) == Ent(u, d, a, t);
      }
    }
  }

  lemma FitsMeaning(v: Vol, u: Vol, g: Plan, sp: Path, q: Path, b: nat, s: nat)
    requires Unlinked(v, u, g, sp, b, s) && q != [] && Init(q) in g.home && g.home[Init(q)].ino < MAX_INODES
    ensures Init(sp) in g.home && (Fits(v, g, Init(sp), Init(q)) <==> !NoRoom(u, g.home[Init(q)].ino))
  {
    UnlinkedFacts(v, u, g, sp, b, s);
    hide Unlinked, NoRoom, BlockInv;
    if g.home[Init(q)].ino == g.home[Init(sp)].ino {
      OneName(v, g, Init(q), Init(sp));
      SameFolderFits(v, u, g, sp, b, s);
    } else {
      OtherFolderFits(v, u, g, sp, b, s, g.home[Init(q)].ino);
    }
  }

  // ---- the two writes ----

  /** Entry `n` of folder `p` has been moved to name `m` of folder `q`. It arrives exactly when `q` lies outside the
      moved subtree and has room. Otherwise the subtree is cut off: its paths are gone and its inodes lost, although
      the call still reports success when there was room. */
  ghost predicate RelinkResult(v: Vol, g: Plan, w: Vol, g': Plan, p: Path, n: Name, q: Path, m: Name, ok: bool)
    requires Inv(v, g) && q in g.home
  {
    && Inv(w, g') && Leaked(w) == Leaked(v) && (ok <==> Fits(v, g, p, q))
    && Grew(v, w, FolderIno(g, q), if ok then MoveGrowth(v, g, p, q) else 0)
    && if ok && !(p + [n] <= q) then
         Tree(w, g') == Moved(Tree(v, g), p + [n], q + [m]) && g'.lost == g.lost && Rebased(g, g', p + [n], q + [m])
       else Tree(w, g') == Without(Tree(v, g), p + [n]) && g'.lost == g.lost + Below(g, p + [n]) && SamePlaces(g', g)
  }

  /** Blocks the entry takes in folder `q`: none in the folder it was cleared in. */
  ghost function MoveGrowth(v: Vol, g: Plan, p: Path, q: Path): nat {
    if q == p then 0 else Growth(v, FolderIno(g, q))
  }

  /** Every path keeps its inode, those at and below `sp` under their new names. */
  ghost predicate Rebased(g: Plan, g': Plan, sp: Path, q: Path) {
    forall x | x in g.home :: Rebase(x, sp, q) in g'.home && g'.home[Rebase(x, sp, q)].ino == g.home[x].ino
  }

  /** The two writes by themselves: the old entry is cleared, the new one written where there is room. */
  method Rewire(st: Store, sd: nat, old_name: Name, dd: nat, new_name: Name, ino: u32, ghost sp: Path)
    returns (ok: bool, ghost u: Vol, ghost b: nat, ghost s: nat, ghost c: nat, ghost t: nat)
    requires Good(st) && sp in st.plan.home && sp != [] && Init(sp) in st.plan.home
    requires FolderAt(st.State(), st.plan, Init(sp), sd) && Last(sp) == old_name
    requires dd < MAX_INODES && Kind(st.State(), dd) == DIR
    modifies st, st.bitmap
    ensures st.Kept() && st.inodeCursor == old(st.inodeCursor) && Unlinked(old(st.State()), u, st.plan, sp, b, s)
    ensures ok ==> Added(u, st.State(), dd, c, t, NewEntry(new_name, ino))
    ensures !ok ==> st.State() == u && NoRoom(u, dd)
  {
    hide VolOf, Formatted, BlockInv, TreeInv, Tree, NoRoom, NameField, Leaked, Below, Hit, Cleared, PutEnt, Added;
    ghost var v, g := st.State(), st.plan;
    LiveHome(v, g, sp);
    ParentReadyNow(v, sd);
    ok, b, s := DirRemoveEntryIn(st, sd, old_name);
    EntryIsThere(v, g, sp);
    assert ok;
    HitHasBlock(v, sd, b, s, old_name);
    u := st.State();
    UnlinkedMeaning(v, u, g, sp, b, s);
    TargetReady(v, u, dd);
    ok, c, t := DirAddEntryIn(st, dd, new_name, ino);
  }

  method Relink(st: Store, sd: nat, old_name: Name, dd: nat, new_name: Name, ino: u32, ghost sp: Path, ghost q: Path)
    returns (ok: bool)
    requires Good(st) && sp in st.plan.home && sp != [] && q != [] && (q !in st.plan.home || q == sp)
    requires Init(sp) in st.plan.home && Init(q) in st.plan.home
    requires FolderAt(st.State(), st.plan, Init(sp), sd) && Last(sp) == old_name && st.plan.home[sp].ino == ino
    requires FolderAt(st.State(), st.plan, Init(q), dd) && ValidName(Last(q)) &&
      NameField(Last(q)) == NameField(new_name)
    modifies st, st.bitmap
    ensures Good(st) && st.bitmap == old(st.bitmap) && st.sb == old(st.sb)
    ensures RelinkResult(old(st.State()), old(st.plan), st.State(), st.plan, Init(sp), Last(sp), Init(q), Last(q), ok)
  {
    hide VolOf, Formatted, BlockInv, TreeInv, Tree, NoRoom, NameField, Leaked, Below, Added, Moved, Without, Unlinked;
    ghost var v, g := st.State(), st.plan;
    ghost var u, b, s, c, t;
    ok, u, b, s, c, t := Rewire(st, sd, old_name, dd, new_name, ino, sp);
    FitsMeaning(v, u, g, sp, q, b, s);
    st.plan := RelinkOutcome(v, u, st.State(), g, sp, q, b, s, c, t, ok);
  }

  lemma ParentReadyNow(v: Vol, d: nat)
    requires BlockInv(v) && d < MAX_INODES && Kind(v, d) == DIR
    ensures Ready(v, d)
  {
    DirectoriesAreReady(v, d);
  }

  lemma TargetReady(v: Vol, u: Vol, d: nat)
    requires BlockInv(u) && SameFiles(v, u) && d < MAX_INODES && Kind(v, d) == DIR
    ensures Ready(u, d)
  {
    assert SameFile(v, u, d);
    DirectoriesAreReady(u, d);
  }

  lemma EntryIsThere(v: Vol, g: Plan, sp: Path)
    requires Inv(v, g) && sp in g.home && sp != [] && HomeOk(v, g, sp)
    ensures Init(sp) in g.home && g.home[Init(sp)].ino < MAX_INODES && !Absent(v, g.home[Init(sp)].ino, Last(sp))
  {
    hide Ent, BlockInv;
    ParentStays(v, g, sp);
    ChildMatches(v, g, Init(sp), Last(sp));
    assert Hit(Ent(v, g.home[Init(sp)].ino, g.home[sp].b, g.home[sp].s), Last(sp));
  }

  lemma RelinkOutcome(v: Vol, u: Vol, w: Vol, g: Plan, sp: Path, q: Path, b: nat, s: nat, c: nat, t: nat, ok: bool)
    returns (g': Plan)
    requires Unlinked(v, u, g, sp, b, s) && q != [] && (q !in g.home || q == sp) && Init(sp) in g.home &&
      Init(q) in g.home
    requires FolderAt(v, g, Init(q), g.home[Init(q)].ino) && ValidName(Last(q))
    requires Fits(v, g, Init(sp), Init(q)) <==> !NoRoom(u, g.home[Init(q)].ino)
    requires ok ==> Added(u, w, g.home[Init(q)].ino, c, t, NewEntry(Last(q), g.home[sp].ino))
    requires !ok ==> w == u && NoRoom(u, g.home[Init(q)].ino)
    ensures RelinkResult(v, g, w, g', Init(sp), Last(sp), Init(q), Last(q), ok)
  {
    hide BlockInv, TreeInv, Tree, NoRoom, NameField, Leaked, Added, CutPlan, MovePlan, Moved, Without, Unlinked, Fits,
      SameFiles, EntriesBut, Ent, Below, Grew, MoveGrowth, Growth;
    UnlinkedFacts(v, u, g, sp, b, s);
    UnlinkedMeaning(v, u, g, sp, b, s);
    var d := g.home[Init(q)].ino;
    assert Init(sp) + [Last(sp)] == sp && Init(q) + [Last(q)] == q;
    RelinkGrows(v, u, w, g, sp, q, b, s, c, t, NewEntry(Last(q), g.home[sp].ino));
    if ok {
      AddedHadRoom(u, w, d, c, t, NewEntry(Last(q), g.home[sp].ino));
    }
    if ok && !(sp <= Init(q)) {
      RelinkedMeaning(v, u, w, g, sp, q, b, s, c, t);
      g' := MovePlan(g, sp, q, c, t);
    } else {
      if ok {
        assert Kind(u, d) == DIR by {
          SameKinds(v, u);
        }
        AddedMeaning(u, w, d, c, t, NewEntry(Last(q), g.home[sp].ino));
        FolderBelow(v, g, sp, Init(q));
        assert AddedBelow(u, w, g, sp);
      } else {
        SameFilesSelf(u);
      }
      UnlinkedCuts(v, u, w, g, sp, b, s);
      g' := CutPlan(g, sp, g.lost + Below(g, sp));
      CutLost(g, sp, g.lost + Below(g, sp));
    }
  }

  lemma RelinkGrows(v: Vol, u: Vol, w: Vol, g: Plan, sp: Path, q: Path, b: nat, s: nat, c: nat, t: nat, e: Dirent)
    requires Unlinked(v, u, g, sp, b, s) && q != [] && Init(sp) in g.home && Init(q) in g.home
    requires FolderAt(v, g, Init(q), g.home[Init(q)].ino) && (w == u || Added(u, w, g.home[Init(q)].ino, c, t, e))
    ensures w == u ==> Grew(v, w, FolderIno(g, Init(q)), 0)
    ensures Added(u, w, g.home[Init(q)].ino, c, t, e) ==>
      Grew(v, w, FolderIno(g, Init(q)), MoveGrowth(v, g, Init(sp), Init(q)))
  {
    hide BlockInv, TreeInv, Added, PutEnt, Ent, Unlinked, Slack;
    var d := g.home[Init(q)].ino;
    UnlinkedFacts(v, u, g, sp, b, s);
    UnlinkedMeaning(v, u, g, sp, b, s);
    SameKinds(v, u);
    UnlinkedArea(v, u, g, sp, b, s);
    UnlinkedSlack(v, u, g, sp, b, s, d);
    if g.home[Init(q)].ino == g.home[Init(sp)].ino {
      OneName(v, g, Init(q), Init(sp));
    }
    if Added(u, w, d, c, t, e) {
      AddedToFolder(u, w, d, c, t, e);
    }
  }

  /** The folder an entry was cleared in has slack; any other is as before. */
  lemma UnlinkedSlack(v: Vol, u: Vol, g: Plan, sp: Path, b: nat, s: nat, d: nat)
    requires Unlinked(v, u, g, sp, b, s) && d < MAX_INODES
    ensures Init(sp) in g.home && Growth(u, d) == if d == g.home[Init(sp)].ino then 0 else Growth(v, d)
  {
    UnlinkedMeaning(v, u, g, sp, b, s);
    assert u.inodes == v.inodes;
    hide BlockInv, TreeInv, PutEnt, Ent, Hit, Cleared;
    if d == g.home[Init(sp)].ino {
      assert OpenSlot(u, d, b, s);
    } else {
      assert forall c, t | 0 <= c < DIRECT && 0 <= t < DIRENTS_PER_BLOCK ::
        OpenSlot(u, d, c, t) == OpenSlot(v, d, c, t);
    }
  }

  lemma UnlinkedArea(v: Vol, u: Vol, g: Plan, sp: Path, b: nat, s: nat)
    requires Unlinked(v, u, g, sp, b, s)
    ensures u.start == v.start && |u.data| == |v.data| && u.inodes == v.inodes
  {
  }

  lemma MovedLost(v: Vol, w: Vol, g: Plan, sp: Path, q: Path, b: nat, s: nat)
    requires Moves(v, w, g, sp, q, b, s)
    ensures MovePlan(g, sp, q, b, s).lost == g.lost && Rebased(g, MovePlan(g, sp, q, b, s), sp, q)
  {
    hide MovePlan, Moves, Rebase;
    assert MovePlan(g, sp, q, b, s).lost == g.lost by {
      MoveLost(g, sp, q, b, s);
    }
    forall x | x in g.home
      ensures Rebase(x, sp, q) in MovePlan(g, sp, q, b, s).home
      ensures MovePlan(g, sp, q, b, s).home[Rebase(x, sp, q)].ino == g.home[x].ino
    {
      MovedHomes(v, w, g, sp, q, b, s, x);
    }
  }

  lemma MoveLost(g: Plan, sp: Path, q: Path, b: nat, s: nat)
    ensures MovePlan(g, sp, q, b, s).lost == g.lost
  {
  }

  lemma CutLost(g: Plan, sp: Path, lost: set<nat>)
    ensures CutPlan(g, sp, lost).lost == lost && SamePlaces(CutPlan(g, sp, lost), g)
  {
  }

  lemma FolderBelow(v: Vol, g: Plan, sp: Path, p: Path)
    requires Inv(v, g) && p in g.home && sp <= p
    ensures g.home[p].ino in Below(g, sp)
  {
    assert HomeOk(v, g, p);
  }

  lemma SameFilesSelf(u: Vol)
    ensures SameFiles(u, u)
  {
  }
}
