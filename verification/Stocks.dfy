/** What decides the outcome of an operation besides the tree: counts of blocks and inodes, not where they lie. */
module Stocks {
  import opened Bytes
  import opened Layout
  import opened Volume
  import opened Trees
  import opened Directory
  import opened Creating
  import opened Files
  import opened Space
  import opened Accounts

  /** Free blocks in memory and on disk, lost inodes, and how many blocks each folder has. */
  datatype Stock = Stock(free: nat, kept: nat, lost: nat, width: map<Path, nat>)

  ghost function Widths(v: Vol, g: Plan): map<Path, nat> {
    map p | p in g.home && FolderOf(v, g, p) :: Width(v.inodes[g.home[p].ino])
  }

  ghost predicate FolderOf(v: Vol, g: Plan, p: Path)
    requires p in g.home
  {
    g.home[p].ino < MAX_INODES && Kind(v, g.home[p].ino) == DIR
  }

  ghost function StockOf(v: Vol, g: Plan): Stock {
    Stock(Free(v), Kept(v), |g.lost|, Widths(v, g))
  }

  lemma FolderMeans(v: Vol, g: Plan, p: Path)
    requires Inv(v, g)
    ensures p in Widths(v, g) <==> p in Tree(v, g) && Tree(v, g)[p] == Folder
    ensures p in g.home ==> g.home[p].ino < MAX_INODES && HomeOk(v, g, p)
  {
    TreeKeys(v, g);
    if p in g.home {
      NodeKind(v, g, p);
      assert HomeOk(v, g, p);
    }
  }

  // ---- entries of a folder ----

  /** The paths directly in folder `p`. */
  function Children(ps: set<Path>, p: Path): set<Path> {
    set q | q in ps && q != [] && Init(q) == p
  }

  /** The number of a path's entry in its folder. */
  function EntryNumber(h: Home): nat {
    h.b * DIRENTS_PER_BLOCK + h.s
  }

  ghost function Numbers(g: Plan, ps: set<Path>): set<nat> {
    set q | q in ps && q in g.home :: EntryNumber(g.home[q])
  }

  lemma EntryNumberIs(b: nat, s: nat, c: nat, t: nat)
    requires s < DIRENTS_PER_BLOCK && t < DIRENTS_PER_BLOCK
    ensures EntryNumber(Home(0, b, s)) == EntryNumber(Home(0, c, t)) <==> b == c && s == t
  {
  }

  /** Children of one folder have different entries. */
  lemma ChildEntry(v: Vol, g: Plan, p: Path, q: Path)
    requires Inv(v, g) && q in Children(g.home.Keys, p)
    ensures p in g.home && FolderOf(v, g, p) && g.home[q].b < DIRECT && g.home[q].s < DIRENTS_PER_BLOCK
    ensures Ent(v, g.home[p].ino, g.home[q].b, g.home[q].s).used != 0
    ensures Ent(v, g.home[p].ino, g.home[q].b, g.home[q].s).inode == g.home[q].ino
  {
    assert HomeOk(v, g, q);
  }

  lemma {:induction false} NumbersCount(v: Vol, g: Plan, p: Path, qs: set<Path>)
    requires Inv(v, g) && qs <= Children(g.home.Keys, p)
    ensures |Numbers(g, qs)| == |qs|
  {
    hide Inv, EntryNumber, Ent;
    if qs == {} {
      assert Numbers(g, qs) == {};
    } else {
      var q :| q in qs;
      var rest := qs - {q};
      NumbersCount(v, g, p, rest);
      forall x | x in rest
        ensures EntryNumber(g.home[x]) != EntryNumber(g.home[q])
      {
        OtherEntry(v, g, p, x, q);
      }
      assert q in g.home;
      assert Numbers(g, qs) == Numbers(g, rest) + {EntryNumber(g.home[q])};
    }
  }

  lemma OtherEntry(v: Vol, g: Plan, p: Path, x: Path, q: Path)
    requires Inv(v, g) && x in Children(g.home.Keys, p) && q in Children(g.home.Keys, p) && x != q
    ensures EntryNumber(g.home[x]) != EntryNumber(g.home[q])
  {
    hide BlockInv, TreeInv, Ent, EntryNumber;
    ChildEntry(v, g, p, x);
    ChildEntry(v, g, p, q);
    var a, b := g.home[x], g.home[q];
    if a.b == b.b && a.s == b.s {
      OneName(v, g, x, q);
    }
    EntryNumberIs(a.b, a.s, b.b, b.s);
    SameNumber(a);
    SameNumber(b);
  }

  lemma SameNumber(h: Home)
    ensures EntryNumber(h) == EntryNumber(Home(0, h.b, h.s))
  {
  }

  /** A folder's blocks have an unused entry exactly when it has fewer children than its blocks have entries. */
  lemma SlackMeans(v: Vol, g: Plan, p: Path)
    requires Inv(v, g) && p in g.home && FolderOf(v, g, p)
    ensures Slack(v, g.home[p].ino) <==> |Children(g.home.Keys, p)| < DIRENTS_PER_BLOCK * Width(v.inodes[g.home[p].ino])
  {
    hide BlockInv, TreeInv, Ent, EntryNumber, Children, Numbers, Slack, Width, HomeOk;
    var d, qs := g.home[p].ino, Children(g.home.Keys, p);
    var all := Upto(DIRENTS_PER_BLOCK * Width(v.inodes[d]));
    NumbersCount(v, g, p, qs);
    forall e | e in Numbers(g, qs)
      ensures e in all
    {
      NumberWithin(v, g, p, e);
    }
    if Slack(v, d) {
      var e := OpenNumber(v, g, p);
      SmallerSet(Numbers(g, qs), all, e);
    } else {
      forall e | e in all
        ensures e in Numbers(g, qs)
      {
        NumberTaken(v, g, p, e);
      }
      assert Numbers(g, qs) == all;
    }
  }

  lemma SmallerSet(a: set<nat>, b: set<nat>, e: nat)
    requires a <= b && e in b && e !in a
    ensures |a| < |b|
  {
    SubsetCount(a, b - {e});
  }

  lemma {:induction false} SubsetCount(a: set<nat>, b: set<nat>)
    requires a <= b
    ensures |a| <= |b|
  {
    if a != {} {
      var x :| x in a;
      SubsetCount(a - {x}, b - {x});
    }
  }

  lemma FolderBlocks(v: Vol, g: Plan, p: Path, b: nat)
    requires Inv(v, g) && p in g.home && FolderOf(v, g, p) && b < DIRECT
    ensures v.inodes[g.home[p].ino].blocks[b] != 0 <==> b < Width(v.inodes[g.home[p].ino])
  {
    assert Shape(v, g.home[p].ino);
    HasTo(v.inodes[g.home[p].ino], b);
  }

  lemma UsedHasBlock(v: Vol, d: nat, b: nat, s: nat)
    requires d < MAX_INODES && b < DIRECT && s < DIRENTS_PER_BLOCK && Ent(v, d, b, s).used != 0
    ensures v.inodes[d].blocks[b] != 0
  {
  }

  lemma NumberWithin(v: Vol, g: Plan, p: Path, e: nat)
    requires Inv(v, g) && p in g.home && FolderOf(v, g, p) && e in Numbers(g, Children(g.home.Keys, p))
    ensures e < DIRENTS_PER_BLOCK * Width(v.inodes[g.home[p].ino])
  {
    hide BlockInv, TreeInv, Ent, Children, Width;
    var q :| q in Children(g.home.Keys, p) && q in g.home && EntryNumber(g.home[q]) == e;
    ChildEntry(v, g, p, q);
    UsedHasBlock(v, g.home[p].ino, g.home[q].b, g.home[q].s);
    FolderBlocks(v, g, p, g.home[q].b);
  }

  /** An unused entry of the folder's blocks is no child's. */
  lemma OpenNumber(v: Vol, g: Plan, p: Path) returns (e: nat)
    requires Inv(v, g) && p in g.home && FolderOf(v, g, p) && Slack(v, g.home[p].ino)
    ensures e < DIRENTS_PER_BLOCK * Width(v.inodes[g.home[p].ino]) && e !in Numbers(g, Children(g.home.Keys, p))
  {
    hide BlockInv, TreeInv, Ent, Children, Width, EntryNumber;
    var d := g.home[p].ino;
    var b: nat, s: nat :| b < DIRECT && s < DIRENTS_PER_BLOCK && OpenSlot(v, d, b, s);
    FolderBlocks(v, g, p, b);
    e := EntryNumber(Home(0, b, s));
    NumberBelow(b, s, Width(v.inodes[d]));
    if e in Numbers(g, Children(g.home.Keys, p)) {
      var q :| q in Children(g.home.Keys, p) && q in g.home && EntryNumber(g.home[q]) == e;
      ChildEntry(v, g, p, q);
      SameNumber(g.home[q]);
      EntryNumberIs(g.home[q].b, g.home[q].s, b, s);
      assert false;
    }
  }

  lemma NumberBelow(b: nat, s: nat, n: nat)
    requires b < n && s < DIRENTS_PER_BLOCK
    ensures EntryNumber(Home(0, b, s)) < DIRENTS_PER_BLOCK * n
  {
  }

  /** Without slack every entry of the folder's blocks is a child's. */
  lemma NumberTaken(v: Vol, g: Plan, p: Path, e: nat)
    requires Inv(v, g) && p in g.home && FolderOf(v, g, p) && !Slack(v, g.home[p].ino)
    requires e < DIRENTS_PER_BLOCK * Width(v.inodes[g.home[p].ino])
    ensures e in Numbers(g, Children(g.home.Keys, p))
  {
    hide BlockInv, Ent, Width, EntryNumber;
    var d, b, s := g.home[p].ino, e / DIRENTS_PER_BLOCK, e % DIRENTS_PER_BLOCK;
    SplitNumber(e, Width(v.inodes[d]));
    FolderBlocks(v, g, p, b);
    assert !OpenSlot(v, d, b, s);
    assert HomeOk(v, g, p);
    assert EntOk(v, g, d, b, s);
    hide TreeInv, EntOk, OpenSlot;
    var n :| ValidName(n) && Listed(v, g, d, b, s, n);
    var q := p + [n];
    assert Init(q) == p;
    SameNumber(g.home[q]);
    assert q in Children(g.home.Keys, p) && EntryNumber(g.home[q]) == e;
  }

  lemma SplitNumber(e: nat, n: nat)
    requires e < DIRENTS_PER_BLOCK * n && n <= DIRECT
    ensures e / DIRENTS_PER_BLOCK < n && EntryNumber(Home(0, e / DIRENTS_PER_BLOCK, e % DIRENTS_PER_BLOCK)) == e
  {
  }

  // ---- inodes ----

  ghost function Inos(g: Plan, ps: set<Path>): set<nat> {
    set q | q in ps && q in g.home :: g.home[q].ino
  }

  lemma {:induction false} InosCount(v: Vol, g: Plan, ps: set<Path>)
    requires Inv(v, g) && ps <= g.home.Keys
    ensures |Inos(g, ps)| == |ps|
  {
    hide BlockInv, TreeInv;
    if ps == {} {
      assert Inos(g, ps) == {};
    } else {
      var q :| q in ps;
      InosCount(v, g, ps - {q});
      InosPick(v, g, ps, q);
    }
  }

  lemma InosPick(v: Vol, g: Plan, ps: set<Path>, q: Path)
    requires Inv(v, g) && ps <= g.home.Keys && q in ps
    ensures Inos(g, ps) == Inos(g, ps - {q}) + {g.home[q].ino} && g.home[q].ino !in Inos(g, ps - {q})
  {
    hide BlockInv, TreeInv;
    forall x | x in ps - {q}
      ensures g.home[x].ino != g.home[q].ino
    {
      if g.home[x].ino == g.home[q].ino {
        OneName(v, g, x, q);
      }
    }
  }

  /** The paths at and below `p`. */
  function Subtree(ps: set<Path>, p: Path): set<Path> {
    set q | q in ps && p <= q
  }

  lemma BelowIs(v: Vol, g: Plan, p: Path)
    requires Inv(v, g)
    ensures Below(g, p) == Inos(g, Subtree(g.home.Keys, p))
    ensures |Below(g, p)| == |Subtree(g.home.Keys, p)| && Below(g, p) !! g.lost
  {
    hide BlockInv;
    forall i
      ensures i in Below(g, p) <==> i in Inos(g, Subtree(g.home.Keys, p))
      ensures i in Below(g, p) ==> i !in g.lost
    {
      if i in Below(g, p) {
        assert InoOk(v, g, i);
        assert g.path[i] in Subtree(g.home.Keys, p);
      }
      if i in Inos(g, Subtree(g.home.Keys, p)) {
        var q :| q in Subtree(g.home.Keys, p) && q in g.home && g.home[q].ino == i;
        assert HomeOk(v, g, q);
      }
    }
    InosCount(v, g, Subtree(g.home.Keys, p));
  }

  /** An inode is free exactly when paths and lost inodes do not take all 256. */
  lemma SpareMeans(v: Vol, g: Plan)
    requires Inv(v, g)
    ensures InodesTaken(v) <==> |g.home| + |g.lost| >= MAX_INODES
  {
    hide BlockInv, TreeInv, Inos;
    LiveOrLost(v, g);
    InosCount(v, g, g.home.Keys);
    RootTaken(v, g);
    CountTaken(v, Inos(g, g.home.Keys), g.lost);
  }

  lemma CountTaken(v: Vol, a: set<nat>, b: set<nat>)
    requires a !! b && Kind(v, 0) != FREE && forall i: nat :: i in a + b <==> i < MAX_INODES && Kind(v, i) != FREE
    ensures InodesTaken(v) <==> |a| + |b| >= MAX_INODES
  {
    assert |a + b| == |a| + |b|;
    TakenCount(v, a + b);
  }

  lemma TakenCount(v: Vol, used: set<nat>)
    requires Kind(v, 0) != FREE && forall i: nat :: i in used <==> i < MAX_INODES && Kind(v, i) != FREE
    ensures InodesTaken(v) <==> |used| >= MAX_INODES
  {
    if InodesTaken(v) {
      AllTaken(used);
    } else {
      var i: nat :| 0 < i < MAX_INODES && Kind(v, i) == FREE;
      hide InodesTaken, Kind, Upto;
      SmallerSet(used, Upto(MAX_INODES), i);
    }
  }

  lemma AllTaken(used: set<nat>)
    requires forall i: nat :: i in used <==> i < MAX_INODES
    ensures |used| == MAX_INODES
  {
    hide Upto;
    assert used == Upto(MAX_INODES);
  }

  lemma RootTaken(v: Vol, g: Plan)
    requires Inv(v, g)
    ensures Kind(v, 0) != FREE
  {
    assert HomeOk(v, g, []);
  }

  lemma LiveOrLost(v: Vol, g: Plan)
    requires Inv(v, g)
    ensures forall i: nat :: i in Inos(g, g.home.Keys) + g.lost <==> i < MAX_INODES && Kind(v, i) != FREE
    ensures Inos(g, g.home.Keys) !! g.lost
  {
    hide BlockInv;
    BelowIs(v, g, []);
    assert Subtree(g.home.Keys, []) == g.home.Keys;
    forall i: nat
      ensures i in Inos(g, g.home.Keys) + g.lost <==> i < MAX_INODES && Kind(v, i) != FREE
    {
      if i < MAX_INODES {
        assert InoOk(v, g, i);
      }
    }
  }

  // ---- blocks of a subtree ----

  ghost function Sum(m: map<Path, nat>): nat {
    if m == map[] then 0 else var p :| p in m; m[p] + Sum(m - {p})
  }

  lemma {:induction false} SumPick(m: map<Path, nat>, p: Path)
    requires p in m
    ensures Sum(m) == m[p] + Sum(m - {p})
    decreases |m|
  {
    var q :| q in m && Sum(m) == m[q] + Sum(m - {q});
    if q != p {
      SumPick(m - {q}, p);
      SumPick(m - {p}, q);
      assert m - {q} - {p} == m - {p} - {q};
    }
  }

  /** Blocks a node takes: what its contents need, or what the folder has. */
  function NodeBlocks(n: Node, k: Stock, p: Path): nat {
    match n
    case File(bytes) => Total(BlocksFor(|bytes|))
    case Folder => if p in k.width then k.width[p] else 0
  }

  function Blocks(t: map<Path, Node>, k: Stock, ps: set<Path>): map<Path, nat> {
    map q | q in ps && q in t :: NodeBlocks(t[q], k, q)
  }

  lemma NodeWeight(v: Vol, g: Plan, q: Path)
    requires Inv(v, g) && q in g.home
    ensures q in Tree(v, g) && g.home[q].ino < MAX_INODES
    ensures NodeBlocks(Tree(v, g)[q], StockOf(v, g), q) == Weight(v, g.home[q].ino)
  {
    hide BlockInv, TreeInv, Tree, Free, Content;
    TreeKeys(v, g);
    NodeKind(v, g, q);
  }

  lemma {:induction false} SubtreeBlocks(v: Vol, g: Plan, ps: set<Path>)
    requires Inv(v, g) && ps <= g.home.Keys
    ensures |BlocksOf(v, Inos(g, ps))| == Sum(Blocks(Tree(v, g), StockOf(v, g), ps))
  {
    hide BlockInv, TreeInv, Tree, StockOf, NodeBlocks, BlocksOf, Weight;
    TreeKeys(v, g);
    var m := Blocks(Tree(v, g), StockOf(v, g), ps);
    if ps == {} {
      assert Inos(g, ps) == {} && m == map[];
      NoBlocks(v);
    } else {
      var q :| q in ps;
      SubtreeBlocks(v, g, ps - {q});
      InosPick(v, g, ps, q);
      NodeWeight(v, g, q);
      OneInode(v, g.home[q].ino);
      BlocksApart(v, Inos(g, ps - {q}), {g.home[q].ino});
      SumPick(m, q);
      assert m - {q} == Blocks(Tree(v, g), StockOf(v, g), ps - {q});
    }
  }

  lemma NoBlocks(v: Vol)
    ensures BlocksOf(v, {}) == {}
  {
  }
}
