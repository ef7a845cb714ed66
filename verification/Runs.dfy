/** Whole runs: every sequence of file operations is a run of the abstract file system, with the same results. */
module Runs {
  import opened Bytes
  import opened Layout
  import opened Volume
  import opened Steps
  import opened Trees
  import opened Paths
  import opened Directory
  import opened Store
  import opened Creating
  import opened Accounts
  import opened Files
  import opened Space
  import opened Reading
  import opened Removing
  import opened Moving
  import opened Renaming
  import opened Mounting
  import opened Stocks
  import opened Machine

  // ---- the concrete steps: what the operations ensure ----

  datatype State = State(vol: Vol, plan: Plan)

  /** What the abstract file system sees of a state. */
  ghost function AbsOf(s: State): Abs
    requires Inv(s.vol, s.plan)
  {
    Abs(Tree(s.vol, s.plan), StockOf(s.vol, s.plan))
  }

  /** Renames are clean, and the destination of a move is a folder if it exists. */
  ghost predicate Step(s: State, op: Op, r: int, s': State) {
    && Inv(s.vol, s.plan)
    && match op
       case Create(path) => MakeResult(s.vol, s.plan, s'.vol, s'.plan, path, FILE, r)
       case Mkdir(path) => MakeResult(s.vol, s.plan, s'.vol, s'.plan, path, DIR, r)
       case Write(path, data) => WriteResult(s.vol, s.plan, s'.vol, s'.plan, path, data, r)
       case Delete(path) => DeleteResult(s.vol, s.plan, s'.vol, s'.plan, path, r)
       case Rename(dir, o, n) =>
         RenameClean(Tree(s.vol, s.plan), dir, o, n) && (r == 0 || r == 1) &&
           RenameOutcome(s.vol, s.plan, s'.vol, s'.plan, dir, o, n, r == 1)
       case Move(src, n, dst) =>
         && (dst in Tree(s.vol, s.plan) ==> Tree(s.vol, s.plan)[dst] == Folder)
         && (r == 0 || r == 1) && MoveResult(s.vol, s.plan, s'.vol, s'.plan, src, n, dst, r == 1)
       case Remount => r == 0 && s'.vol == Reread(s.vol) && s'.plan == s.plan
  }

  // ---- counts and the volume ----

  lemma SameWidths(w: Vol, g': Plan, m: map<Path, nat>)
    requires Inv(w, g')
    requires forall p :: p in m <==> p in Tree(w, g') && Tree(w, g')[p] == Folder
    requires forall p | p in m && p in g'.home && g'.home[p].ino < MAX_INODES :: m[p] == Width(w.inodes[g'.home[p].ino])
    ensures Widths(w, g') == m
  {
    hide Tree, Inv, Width, FolderOf;
    forall p
      ensures p in Widths(w, g') <==> p in m
      ensures p in m ==> p in g'.home && g'.home[p].ino < MAX_INODES
    {
      FolderMeans(w, g', p);
      TreeKeys(w, g');
    }
  }

  /** Whether a folder needs a block for another entry. */
  lemma NeedsMeans(v: Vol, g: Plan, p: Path)
    requires Inv(v, g) && p in Tree(v, g) && Tree(v, g)[p] == Folder
    ensures p in g.home && g.home[p].ino < MAX_INODES && p in Widths(v, g)
    ensures Widths(v, g)[p] == Width(v.inodes[FolderIno(g, p)])
    ensures Needs(Tree(v, g), StockOf(v, g), p) == Growth(v, FolderIno(g, p))
    ensures NoRoom(v, g.home[p].ino) <==> Needs(Tree(v, g), StockOf(v, g), p) > Free(v)
  {
    TreeKeys(v, g);
    FolderMeans(v, g, p);
    NodeKind(v, g, p);
    assert HomeOk(v, g, p);
    hide BlockInv, TreeInv, Tree, NoRoom, Slack, Free, Width, Children;
    NoRoomExactly(v, g, p);
    SlackMeans(v, g, p);
  }

  lemma MakesMeans(v: Vol, g: Plan, path: seq<byte>)
    requires Inv(v, g) && Creatable(Tree(v, g), path)
    ensures Refused(v, g, path) <==> !Makes(Tree(v, g), StockOf(v, g), Components(path))
    ensures Components(path) != [] && Init(Components(path)) in g.home
    ensures Needs(Tree(v, g), StockOf(v, g), Init(Components(path))) == Growth(v, ParentIno(g, Components(path)))
  {
    hide NoRoom, Slack, Free, InodesTaken, Widths, Needs, Growth, BlockInv, TreeInv;
    TreeKeys(v, g);
    NeedsMeans(v, g, Init(Components(path)));
    hide Components, Strict;
    SpareMeans(v, g);
    MapCount(Tree(v, g), g.home);
  }

  lemma MapCount<T, U>(a: map<Path, T>, b: map<Path, U>)
    requires a.Keys == b.Keys
    ensures |a| == |b|
  {
    assert |a| == |a.Keys| && |b| == |b.Keys|;
  }

  // ---- creating ----

  /** The widths after an entry was added to the folder above a new path. */
  lemma GrewWidths(v: Vol, g: Plan, w: Vol, g': Plan, p: Path, q: Path)
    requires Inv(v, g) && p != [] && Init(p) in g.home && p !in g.home && p in g'.home && SamePlaces(g, g')
    requires g'.home[p].ino < MAX_INODES && Kind(v, g'.home[p].ino) == FREE
    requires forall i | 0 <= i < MAX_INODES && i != g'.home[p].ino && i != ParentIno(g, p) :: w.inodes[i] == v.inodes[i]
    requires Width(w.inodes[ParentIno(g, p)]) == Width(v.inodes[ParentIno(g, p)]) + Growth(v, ParentIno(g, p))
    requires q in Widths(v, g)
    ensures q in g'.home && g'.home[q].ino < MAX_INODES
    ensures Width(w.inodes[g'.home[q].ino]) == Widths(v, g)[q] + if q == Init(p) then Growth(v, ParentIno(g, p)) else 0
  {
    hide BlockInv, TreeInv, Width, Growth;
    FolderMeans(v, g, q);
    FolderMeans(v, g, Init(p));
    if g.home[q].ino == ParentIno(g, p) {
      OneName(v, g, q, Init(p));
    }
  }

  lemma FreshWidth(kind: byte)
    ensures Width(FreshInode(kind)) == 0
  {
    WidthIs(FreshInode(kind), 0);
  }

  lemma MadeWidths(v: Vol, g: Plan, w: Vol, g': Plan, path: seq<byte>, kind: byte, r: int)
    requires Inv(v, g) && MakeResult(v, g, w, g', path, kind, r) && r >= 0 && (kind == FILE || kind == DIR)
    requires Components(path) != [] && Init(Components(path)) in Widths(v, g)
    ensures var p := Components(path);
      var m := Widths(v, g)[Init(p) := Widths(v, g)[Init(p)] + Growth(v, ParentIno(g, p))];
      Widths(w, g') == if kind == DIR then m[p := 0] else m
  {
    hide Components, Inv, Tree, Growth, Refused, Leaked, Free, Width, Widths, Grew, SamePlaces;
    var p := Components(path);
    NewPath(v, g, path);
    MadeFolders(v, g, w, g', p, kind, r);
  }

  lemma MadeFolders(v: Vol, g: Plan, w: Vol, g': Plan, p: Path, kind: byte, r: nat)
    requires Inv(v, g) && Inv(w, g') && p != [] && Init(p) in Widths(v, g) && Init(p) in g.home && p !in g.home
    requires Tree(w, g') == Tree(v, g)[p := NewNode(kind)] && (kind == FILE || kind == DIR) && SamePlaces(g, g')
    requires r < MAX_INODES && Kind(v, r) == FREE && r != ParentIno(g, p) && p in g'.home && g'.home[p].ino == r
    requires Grew(SetInode(v, r, FreshInode(kind)), w, ParentIno(g, p), Growth(v, ParentIno(g, p)))
    ensures var m := Widths(v, g)[Init(p) := Widths(v, g)[Init(p)] + Growth(v, ParentIno(g, p))];
      Widths(w, g') == if kind == DIR then m[p := 0] else m
  {
    hide BlockInv, TreeInv, Tree, Growth, Free, Width, Widths;
    var m := Widths(v, g)[Init(p) := Widths(v, g)[Init(p)] + Growth(v, ParentIno(g, p))];
    var m' := if kind == DIR then m[p := 0] else m;
    TreeKeys(v, g);
    FreshWidth(kind);
    forall q
      ensures q in m' <==> q in Tree(w, g') && Tree(w, g')[q] == Folder
      ensures q in m' && q in g'.home && g'.home[q].ino < MAX_INODES ==> m'[q] == Width(w.inodes[g'.home[q].ino])
    {
      FolderMeans(v, g, q);
      if q in Widths(v, g) {
        GrewWidths(v, g, w, g', p, q);
      }
    }
    SameWidths(w, g', m');
  }

  lemma NewPath(v: Vol, g: Plan, path: seq<byte>)
    requires Inv(v, g) && !Refused(v, g, path) && Components(path) != [] && Init(Components(path)) in Widths(v, g)
    ensures Components(path) !in g.home && Init(Components(path)) in g.home &&
      Init(Components(path)) != Components(path)
    ensures forall r | 0 <= r < MAX_INODES && Kind(v, r) == FREE :: r != ParentIno(g, Components(path))
  {
    TreeKeys(v, g);
    FolderMeans(v, g, Init(Components(path)));
  }

  lemma GrewCounts(v: Vol, w: Vol, d: nat, n: nat)
    requires d < MAX_INODES && Grew(v, w, d, n)
    ensures Free(w) == Free(v) - n && Kept(w) == if n == 0 then Kept(v) else Free(v) - n
  {
    hide Width;
  }

  lemma FreshCounts(v: Vol, r: nat, kind: byte)
    requires r < MAX_INODES
    ensures Free(SetInode(v, r, FreshInode(kind))) == Free(v) && Kept(SetInode(v, r, FreshInode(kind))) == Kept(v)
  {
  }

  ghost predicate Refines(s: State, op: Op, r: int, s': State)
    requires Inv(s.vol, s.plan)
  {
    && Inv(s'.vol, s'.plan) && AbsOf(s') == Next(AbsOf(s), op).next && Answers(op, Next(AbsOf(s), op).ok, r)
  }

  lemma TakenIs(k: Stock, p: Path, n: nat)
    requires n <= k.free && p in k.width
    ensures Taken(k, p, n) == Stock(k.free - n, if n == 0 then k.kept
      else k.free - n, k.lost, k.width[p := k.width[p] + n])
  {
  }

  lemma MadeStock(v: Vol, g: Plan, w: Vol, g': Plan, path: seq<byte>, kind: byte, r: int)
    requires Inv(v, g) && MakeResult(v, g, w, g', path, kind, r) && r >= 0 && (kind == FILE || kind == DIR)
    ensures Creatable(Tree(v, g), path) && Makes(Tree(v, g), StockOf(v, g), Components(path))
    ensures var p := Components(path);
      var k := Taken(StockOf(v, g), Init(p), Needs(Tree(v, g), StockOf(v, g), Init(p)));
      StockOf(w, g') == if kind == DIR then k.(width := k.width[p := 0]) else k
  {
    hide Components, Inv, Tree, Growth, Leaked, Free, Kept, Width, Widths, Creatable, Makes, Needs, Grew, Taken,
      SamePlaces;
    MadeWhere(v, g, w, g', path, kind, r);
    hide MakeResult, Refused;
    var p := Components(path);
    MadeCounts(v, g, w, g', p, kind, r);
    TakenIs(StockOf(v, g), Init(p), Growth(v, ParentIno(g, p)));
  }

  lemma MadeWhere(v: Vol, g: Plan, w: Vol, g': Plan, path: seq<byte>, kind: byte, r: int)
    requires Inv(v, g) && MakeResult(v, g, w, g', path, kind, r) && r >= 0 && (kind == FILE || kind == DIR)
    ensures Creatable(Tree(v, g), path) && Makes(Tree(v, g), StockOf(v, g), Components(path))
    ensures var p := Components(path); p != [] && Init(p) in Widths(v, g) && r < MAX_INODES
    ensures var p := Components(path);
      && Needs(Tree(v, g), StockOf(v, g), Init(p)) == Growth(v, ParentIno(g, p)) <= Free(v) && g'.lost == g.lost
      && Grew(SetInode(v, r, FreshInode(kind)), w, ParentIno(g, p), Growth(v, ParentIno(g, p)))
    ensures var p := Components(path);
      var m := Widths(v, g)[Init(p) := Widths(v, g)[Init(p)] + Growth(v, ParentIno(g, p))];
      Widths(w, g') == if kind == DIR then m[p := 0] else m
  {
    MakesMeans(v, g, path);
    NeedsMeans(v, g, Init(Components(path)));
    hide Components, Inv, Tree, Growth, Leaked, Free, Kept, Width, Widths, Creatable, Makes, Needs, Grew, SamePlaces;
    MadeWidths(v, g, w, g', path, kind, r);
    MakesNeeds(Tree(v, g), StockOf(v, g), Components(path));
  }

  lemma MadeCounts(v: Vol, g: Plan, w: Vol, g': Plan, p: Path, kind: byte, r: nat)
    requires r < MAX_INODES && Growth(v, ParentIno(g, p)) <= Free(v)
    requires Grew(SetInode(v, r, FreshInode(kind)), w, ParentIno(g, p), Growth(v, ParentIno(g, p)))
    ensures var n := Growth(v, ParentIno(g, p));
      Free(w) == Free(v) - n && Kept(w) == if n == 0 then Kept(v) else Free(v) - n
  {
    hide Growth, Grew, Free, Kept;
    FreshCounts(v, r, kind);
    GrewCounts(SetInode(v, r, FreshInode(kind)), w, ParentIno(g, p), Growth(v, ParentIno(g, p)));
  }

  lemma MakesNeeds(t: FileTree, k: Stock, p: Path)
    requires Makes(t, k, p)
    ensures p != [] && Needs(t, k, Init(p)) <= k.free
  {
  }

  lemma MakeRefines(s: State, op: Op, r: int, s': State)
    requires (op.Create? || op.Mkdir?) && Step(s, op, r, s')
    ensures Refines(s, op, r, s')
  {
    var v, g, w, g' := s.vol, s.plan, s'.vol, s'.plan;
    if Creatable(Tree(v, g), op.path) {
      MakesMeans(v, g, op.path);
    }
    hide BlockInv, TreeInv, Tree, InodesTaken, NoRoom, Leaked, Creatable, Components, StockOf, Grew, Growth, Makes,
      Needs, Taken;
    var kind := if op.Create? then FILE else DIR;
    if r >= 0 {
      MadeStock(v, g, w, g', op.path, kind, r);
    }
  }

  // ---- writing ----

  lemma PlacedWidths(v: Vol, g: Plan, w: Vol, g': Plan, p: Path, bytes: seq<byte>)
    requires Inv(v, g) && Inv(w, g') && Placed(v, g, w, g', p) && Tree(w, g') == Tree(v, g)[p := File(bytes)]
    requires p !in Widths(v, g) && (p !in g.home ==> p != [] && Init(p) in Widths(v, g))
    ensures Widths(w, g') == if p in g.home then Widths(v, g)
                             else Widths(v, g)[Init(p) := Widths(v, g)[Init(p)] + Growth(v, ParentIno(g, p))]
  {
    hide BlockInv, TreeInv, Tree, Growth, Width, Widths;
    var m := if p in g.home then Widths(v, g)
             else Widths(v, g)[Init(p) := Widths(v, g)[Init(p)] + Growth(v, ParentIno(g, p))];
    TreeKeys(v, g);
    if p !in g.home {
      FolderMeans(v, g, Init(p));
    }
    forall q
      ensures q in m <==> q in Tree(w, g') && Tree(w, g')[q] == Folder
      ensures q in m && q in g'.home && g'.home[q].ino < MAX_INODES ==> m[q] == Width(w.inodes[g'.home[q].ino])
    {
      FolderMeans(v, g, q);
      if q in Widths(v, g) {
        PlacedWidth(v, g, w, g', p, q);
      }
    }
    SameWidths(w, g', m);
  }

  lemma PlacedWidth(v: Vol, g: Plan, w: Vol, g': Plan, p: Path, q: Path)
    requires Inv(v, g) && Placed(v, g, w, g', p) && p !in Widths(v, g) && q in Widths(v, g)
    requires p !in g.home ==> p != [] && Init(p) in g.home
    ensures q in g'.home && g'.home[q].ino < MAX_INODES
    ensures Width(w.inodes[g'.home[q].ino]) ==
      Widths(v, g)[q] + if p !in g.home && q == Init(p) then Growth(v, ParentIno(g, p)) else 0
  {
    hide BlockInv, TreeInv, Width, Growth;
    FolderMeans(v, g, q);
    if p in g.home {
      if g.home[q].ino == g'.home[p].ino {
        OneName(v, g, q, p);
      }
    } else {
      GrewWidths(v, g, w, g', p, q);
    }
  }

  /** The counts before the file itself is written. */
  function Parented(t: FileTree, k: Stock, p: Path): Stock {
    if p in t || p == [] then k else Taken(k, Init(p), Needs(t, k, Init(p)))
  }

  lemma ParentedFacts(v: Vol, g: Plan, path: seq<byte>, len: nat)
    requires Inv(v, g) && !WriteRefused(v, g, path, len)
    ensures var p := Components(path); p != [] && p !in Widths(v, g) && (p !in g.home ==> Init(p) in Widths(v, g))
    ensures var p, k := Components(path), StockOf(v, g);
      p in g.home <==> p in Tree(v, g)
    ensures var p, k := Components(path), StockOf(v, g);
      p !in g.home ==> Needs(Tree(v, g), k, Init(p)) == NewGrowth(v, g, p) == Growth(v, ParentIno(g, p)) <= k.free
  {
    MakesMeans(v, g, path);
    NeedsMeans(v, g, Init(Components(path)));
    var p := Components(path);
    TreeKeys(v, g);
    FolderMeans(v, g, p);
    hide Components, BlockInv, TreeInv, Tree, Growth, Free, Kept, Widths, Creatable, Makes, Needs, Refused;
    if p !in Tree(v, g) {
      MakesNeeds(Tree(v, g), StockOf(v, g), p);
    }
  }

  lemma ParentedTaken(t: FileTree, k: Stock, p: Path, n: nat)
    requires p != [] && (p in t || (n == Needs(t, k, Init(p)) <= k.free && Init(p) in k.width))
    ensures Parented(t, k, p) ==
      if p in t then k
      else Stock(k.free - n, if n == 0 then k.kept else k.free - n, k.lost, k.width[Init(p) := k.width[Init(p)] + n])
  {
    hide Needs;
  }

  lemma ParentedIs(v: Vol, g: Plan, path: seq<byte>, len: nat)
    requires Inv(v, g) && !WriteRefused(v, g, path, len)
    ensures var p := Components(path); p != [] && p !in Widths(v, g) && (p !in g.home ==> Init(p) in Widths(v, g))
    ensures var p, k := Components(path), StockOf(v, g); var n, k1 := NewGrowth(v, g, p), Parented(Tree(v, g), k, p);
      && k1.free == k.free - n && k1.kept == (if n == 0 then k.kept else k1.free) && k1.lost == k.lost
      && k1.width == if p in g.home then Widths(v, g)
                     else Widths(v, g)[Init(p) := Widths(v, g)[Init(p)] + Growth(v, ParentIno(g, p))]
  {
    hide Components, Inv, Tree, Growth, Needs, Widths, Free, Kept, WriteRefused, Parented, Creatable;
    ParentedFacts(v, g, path, len);
    ParentedTaken(Tree(v, g), StockOf(v, g), Components(path), NewGrowth(v, g, Components(path)));
  }

  lemma WrittenWidths(v: Vol, g: Plan, w: Vol, g': Plan, path: seq<byte>, data: seq<byte>, r: int)
    requires Inv(v, g) && WriteResult(v, g, w, g', path, data, r) && !WriteRefused(v, g, path, |data|)
    ensures Inv(w, g') && Widths(w, g') == Parented(Tree(v, g), StockOf(v, g), Components(path)).width &&
      g'.lost == g.lost
  {
    hide Components, Inv, Tree, WriteResult, WriteRefused, Widths, Parented, Placed, Growth, NewGrowth, Free, Kept;
    ParentedIs(v, g, path, |data|);
    var bytes := WrittenPlaced(v, g, w, g', path, data, r);
    PlacedWidths(v, g, w, g', Components(path), bytes);
    PlacedLost(v, g, w, g', Components(path));
  }

  lemma WrittenPlaced(v: Vol, g: Plan, w: Vol, g': Plan, path: seq<byte>, data: seq<byte>, r: int)
    returns (bytes: seq<byte>)
    requires Inv(v, g) && WriteResult(v, g, w, g', path, data, r) && !WriteRefused(v, g, path, |data|)
    ensures Placed(v, g, w, g', Components(path)) && Inv(w, g') &&
      Tree(w, g') == Tree(v, g)[Components(path) := File(bytes)]
  {
    hide Inv, Tree, Components, WriteRefused, WriteCost, Placed, Owned, FreeBlocks, Leaked, Kept, Free, AllSet,
      NewGrowth;
    WrittenTree(v, g, w, g', path, data, r);
    bytes := if r >= 0 then data else data[..|OldBytes(Tree(v, g), Components(path))|];
  }

  lemma PlacedLost(v: Vol, g: Plan, w: Vol, g': Plan, p: Path)
    requires Inv(v, g) && Placed(v, g, w, g', p)
    ensures g'.lost == g.lost
  {
  }

  /** The write is refused exactly when the abstract one is. */
  lemma WritableMeans(v: Vol, g: Plan, path: seq<byte>, len: nat)
    requires Inv(v, g)
    ensures WriteRefused(v, g, path, len) <==>
      len > MAX_FILE_SIZE || !Creatable(Tree(v, g), path) || !Writable(Tree(v, g), StockOf(v, g), Components(path))
  {
    if Creatable(Tree(v, g), path) {
      MakesMeans(v, g, path);
    }
    hide Inv, Tree, StockOf, Creatable, Components, Makes, Refused;
  }

  /** Counts, contents and result of a write that is not refused. */
  lemma WriteGoesOn(v: Vol, g: Plan, w: Vol, g': Plan, path: seq<byte>, data: seq<byte>, r: int)
    requires Inv(v, g) && WriteResult(v, g, w, g', path, data, r) && !WriteRefused(v, g, path, |data|)
    ensures Inv(w, g') && r == if r >= 0 then |data| else -1
    ensures Written(Abs(Tree(v, g), StockOf(v, g)), path, data) == Outcome(Abs(Tree(w, g'), StockOf(w, g')), r >= 0)
  {
    hide Inv, Tree, Creatable, Components, Writable, WriteRefused, WriteResult, Widths, Needs, Taken, NewGrowth, Free,
      Kept,
      Total, Growth, OldBytes, BlocksFor, Parented, Written;
    WritableMeans(v, g, path, |data|);
    ParentedIs(v, g, path, |data|);
    WrittenWidths(v, g, w, g', path, data, r);
    WrittenTree(v, g, w, g', path, data, r);
    WrittenCounts(v, g, w, g', path, data, r);
    WrittenIs(Abs(Tree(v, g), StockOf(v, g)), path, data);
  }

  lemma WrittenIs(a: Abs, path: seq<byte>, data: seq<byte>)
    requires |data| <= MAX_FILE_SIZE && Creatable(a.tree, path) && Writable(a.tree, a.stock, Components(path))
    ensures var p := Components(path); var before, k := OldBytes(a.tree, p), Parented(a.tree, a.stock, p);
      Written(a, path, data) ==
      if Lacks(a.tree, p, |data|) <= k.free then
        var free := k.free + Total(BlocksFor(|before|)) - Total(BlocksFor(|data|));
        Outcome(Abs(a.tree[p := File(data)], Stock(free, free, k.lost, k.width)), true)
      else
        Outcome(Abs(a.tree[p := File(if |before| <= |data| then data[..|before|] else data)],
                    Stock(0, k.kept, k.lost, k.width)), false)
  {
    hide Components, Needs, Taken, Creatable;
  }

  lemma WriteRefines(s: State, path: seq<byte>, data: seq<byte>, r: int, s': State)
    requires Step(s, Write(path, data), r, s')
    ensures Refines(s, Write(path, data), r, s')
  {
    var v, g, w, g' := s.vol, s.plan, s'.vol, s'.plan;
    WritableMeans(v, g, path, |data|);
    hide Inv, Tree, StockOf, Creatable, Components, Writable, WriteRefused, Overwritten, Placed, WriteCost;
    if WriteRefused(v, g, path, |data|) {
      assert Next(AbsOf(s), Write(path, data)) == Outcome(AbsOf(s), false);
    } else {
      WriteGoesOn(v, g, w, g', path, data, r);
      assert Next(AbsOf(s), Write(path, data)) == Written(AbsOf(s), path, data);
    }
  }

  lemma WrittenTree(v: Vol, g: Plan, w: Vol, g': Plan, path: seq<byte>, data: seq<byte>, r: int)
    requires Inv(v, g) && WriteResult(v, g, w, g', path, data, r) && !WriteRefused(v, g, path, |data|)
    ensures var p := Components(path); var old_bytes := OldBytes(Tree(v, g), p);
      && Inv(w, g') && (r < 0 ==> |old_bytes| <= |data|)
      && Tree(w, g') == Tree(v, g)[p := File(if r >= 0 then data else data[..|old_bytes|])]
  {
    hide Inv, Tree, Components, WriteRefused, WriteCost, Placed, Owned, FreeBlocks, Leaked, Kept, Free, AllSet,
      NewGrowth;
  }

  lemma WrittenCounts(v: Vol, g: Plan, w: Vol, g': Plan, path: seq<byte>, data: seq<byte>, r: int)
    requires Inv(v, g) && WriteResult(v, g, w, g', path, data, r) && !WriteRefused(v, g, path, |data|)
    ensures var p := Components(path); var old_bytes := OldBytes(Tree(v, g), p);
      if Free(v) >= NewGrowth(v, g, p) + Extra(BlocksFor(|old_bytes|), BlocksFor(|data|)) then
        && r == |data| && Kept(w) == Free(w)
        && Free(w) == Free(v) - NewGrowth(v, g, p) + Total(BlocksFor(|old_bytes|)) - Total(BlocksFor(|data|))
      else
        && r == -1 && |old_bytes| <= |data| && Free(w) == 0
        && Kept(w) == if NewGrowth(v, g, p) == 0 then Kept(v) else Free(v) - NewGrowth(v, g, p)
  {
    hide BlockInv, TreeInv, Tree, Leaked, Creatable, Components, Slack, Refused, Placed, Owned, FreeBlocks, AllSet;
    FreeIsNone(w);
    TreeKeys(v, g);
    NewFileCost(|data|);
  }

  // ---- deleting ----

  lemma CutWidths(v: Vol, g: Plan, w: Vol, g': Plan, sp: Path, m: map<Path, nat>)
    requires Inv(v, g) && Inv(w, g') && Tree(w, g') == Without(Tree(v, g), sp) && SamePlaces(g', g)
    requires m.Keys == Widths(v, g).Keys
    requires forall q | q in m && !(sp <= q) && q in g.home && g.home[q].ino < MAX_INODES ::
      m[q] == Width(w.inodes[g.home[q].ino])
    ensures Widths(w, g') == Without(m, sp)
  {
    hide BlockInv, TreeInv, Tree, Width, Widths;
    forall q
      ensures q in Without(m, sp) <==> q in Tree(w, g') && Tree(w, g')[q] == Folder
      ensures q in Without(m, sp) && q in g'.home && g'.home[q].ino < MAX_INODES ==>
        Without(m, sp)[q] == Width(w.inodes[g'.home[q].ino])
    {
      FolderMeans(v, g, q);
    }
    SameWidths(w, g', Without(m, sp));
  }

  lemma NotBelowIno(v: Vol, g: Plan, sp: Path, q: Path)
    requires Inv(v, g) && q in g.home && !(sp <= q)
    ensures g.home[q].ino !in Below(g, sp)
  {
    assert HomeOk(v, g, q);
  }

  lemma DeletedStock(v: Vol, g: Plan, w: Vol, g': Plan, path: seq<byte>, r: int)
    requires Inv(v, g) && DeleteResult(v, g, w, g', path, r) && r >= 0
    ensures var p, k := Components(path), StockOf(v, g);
      var free := k.free + Sum(Blocks(Tree(v, g), k, Subtree(Tree(v, g).Keys, p)));
      StockOf(w, g') == Stock(free, free, k.lost, Without(k.width, p))
  {
    var p := Components(path);
    hide Components, BlockInv, TreeInv, Tree, Leaked, Free, Width, Creatable, Sum, Blocks, BlocksOf, Used, Below,
      Subtree, Without;
    TreeKeys(v, g);
    BelowIs(v, g, p);
    InKeys(g.home.Keys, p);
    SubtreeBlocks(v, g, Subtree(g.home.Keys, p));
    forall q | q in Widths(v, g) && !(p <= q) && q in g.home && g.home[q].ino < MAX_INODES
      ensures Widths(v, g)[q] == Width(w.inodes[g.home[q].ino])
    {
      NotBelowIno(v, g, p, q);
    }
    CutWidths(v, g, w, g', p, Widths(v, g));
    SyncedKept(w);
  }

  lemma InKeys(ps: set<Path>, p: Path)
    ensures Subtree(ps, p) <= ps
  {
  }

  lemma SyncedKept(w: Vol)
    requires Synced(w)
    ensures Kept(w) == Free(w)
  {
  }

  lemma DeleteRefines(s: State, path: seq<byte>, r: int, s': State)
    requires Step(s, Delete(path), r, s')
    ensures Refines(s, Delete(path), r, s')
  {
    var v, g, w, g' := s.vol, s.plan, s'.vol, s'.plan;
    hide Inv, Tree, Creatable, Components, StockOf, Leaked, Used, BlocksOf, Below, Free, Sum, Blocks, Subtree, Without;
    if r >= 0 {
      DeletedStock(v, g, w, g', path, r);
    }
  }

  // ---- moving ----

  /** The folder that an entry was added to has grown, every other is as before. */
  lemma GrewWidth(v: Vol, g: Plan, w: Vol, q0: Path, n: nat, q: Path)
    requires Inv(v, g) && q0 in g.home && q in Widths(v, g) && Grew(v, w, FolderIno(g, q0), n)
    ensures q in g.home && g.home[q].ino < MAX_INODES
    ensures Width(w.inodes[g.home[q].ino]) == Widths(v, g)[q] + if q == q0 then n else 0
  {
    hide BlockInv, TreeInv, Width, Free;
    FolderMeans(v, g, q);
    FolderMeans(v, g, q0);
    if g.home[q].ino == g.home[q0].ino {
      OneName(v, g, q, q0);
    }
  }

  lemma MovedWidths(v: Vol, g: Plan, w: Vol, g': Plan, sp: Path, q: Path, q0: Path, n: nat)
    requires Inv(v, g) && Inv(w, g') && Tree(w, g') == Moved(Tree(v, g), sp, q) && Rebased(g, g', sp, q)
    requires q0 in Widths(v, g) && q0 in g.home && Grew(v, w, FolderIno(g, q0), n)
    requires sp in g.home && sp != [] && q != [] && (q !in g.home || q == sp) && !(sp <= Init(q))
    ensures Widths(w, g') == Moved(Widths(v, g)[q0 := Widths(v, g)[q0] + n], sp, q)
  {
    hide BlockInv, TreeInv, Tree, Width, Widths, Grew, Rebase;
    var m := Widths(v, g)[q0 := Widths(v, g)[q0] + n];
    TreeKeys(v, g);
    forall x
      ensures x in Moved(m, sp, q) <==> x in Tree(w, g') && Tree(w, g')[x] == Folder
      ensures x in Moved(m, sp, q) && x in g'.home && g'.home[x].ino < MAX_INODES ==>
        Moved(m, sp, q)[x] == Width(w.inodes[g'.home[x].ino])
    {
      var y := Rebase(x, q, sp);
      FolderMeans(v, g, y);
      if z :| z in g.home && Rebase(z, sp, q) == x {
        MoveBack(v, g, sp, q, z);
        if y in Widths(v, g) {
          GrewWidth(v, g, w, q0, n, y);
        }
      } else {
        NotMoved(v, g, m, sp, q, x);
      }
    }
    SameWidths(w, g', Moved(m, sp, q));
  }

  lemma NotMoved(v: Vol, g: Plan, m: map<Path, nat>, sp: Path, q: Path, x: Path)
    requires Inv(v, g) && m.Keys == Widths(v, g).Keys && forall z | z in g.home :: Rebase(z, sp, q) != x
    ensures x !in Moved(m, sp, q) && x !in Moved(Tree(v, g), sp, q)
  {
    hide BlockInv, TreeInv, Tree, Rebase;
    TreeKeys(v, g);
  }

  lemma ParentFolder(v: Vol, g: Plan, p: Path, n: Name)
    requires Inv(v, g) && p + [n] in Tree(v, g)
    ensures p in Widths(v, g) && p in g.home && p + [n] in g.home && p + [n] != []
  {
    TreeKeys(v, g);
    ParentIsFolder(v, g, p + [n]);
    assert Init(p + [n]) == p;
  }

  lemma MovedOnce(m: map<Path, nat>, p: Path)
    requires p in m
    ensures m[p := m[p] + 0] == m
  {
  }

  lemma RenameRefines(s: State, p: Path, o: Name, n: Name, r: int, s': State)
    requires Step(s, Rename(p, o, n), r, s')
    ensures Refines(s, Rename(p, o, n), r, s')
  {
    var v, g, w, g' := s.vol, s.plan, s'.vol, s'.plan;
    hide BlockInv, TreeInv, Tree, Leaked, Free, Kept, Moved, Grew, Widths, CutName, Rebased;
    TreeKeys(v, g);
    if r == 1 {
      var sp, q := p + [o], p + [CutName(n)];
      ParentFolder(v, g, p, o);
      CleanTarget(v, g, p, o, n);
      MovedWidths(v, g, w, g', sp, q, p, 0);
      MovedOnce(Widths(v, g), p);
      GrewCounts(v, w, FolderIno(g, p), 0);
    }
  }

  lemma CleanTarget(v: Vol, g: Plan, p: Path, o: Name, n: Name)
    requires Inv(v, g) && RenameClean(Tree(v, g), p, o, n) && p + [n] !in Tree(v, g) && p + [o] in Tree(v, g)
    ensures p + [CutName(n)] !in g.home || p + [CutName(n)] == p + [o]
    ensures p + [CutName(n)] != [] && !(p + [o] <= Init(p + [CutName(n)]))
  {
    TreeKeys(v, g);
    assert Init(p + [CutName(n)]) == p;
    hide Tree, Inv;
  }

  lemma MoveRefines(s: State, p: Path, n: Name, q: Path, r: int, s': State)
    requires Step(s, Move(p, n, q), r, s')
    ensures Refines(s, Move(p, n, q), r, s')
  {
    var v, g, w, g' := s.vol, s.plan, s'.vol, s'.plan;
    TreeKeys(v, g);
    if Movable(Tree(v, g), p, n, q) {
      hide Inv, Tree, Moved, Without, RelinkResult, Needs, Subtree, StockOf;
      MoveGoesOn(s, p, n, q, r, s');
    } else {
      hide Inv, Tree, StockOf;
      assert Next(AbsOf(s), Move(p, n, q)) == Outcome(AbsOf(s), false);
    }
  }

  lemma MoveGoesOn(s: State, p: Path, n: Name, q: Path, r: int, s': State)
    requires Inv(s.vol, s.plan) && Movable(Tree(s.vol, s.plan), p, n, q) && Tree(s.vol, s.plan)[q] == Folder
    requires q in s.plan.home && (r == 0 || r == 1) && RelinkResult(s.vol, s.plan, s'.vol, s'.plan, p, n, q, n, r == 1)
    ensures Refines(s, Move(p, n, q), r, s')
  {
    hide Inv, Tree, Moved, Without, Needs, Subtree, Taken, Widths, Free, Kept, RelinkResult, Movable;
    var v, g, w, g' := s.vol, s.plan, s'.vol, s'.plan;
    MoveFits(v, g, w, g', p, n, q, r == 1);
    if r == 1 && !(p + [n] <= q) {
      ArrivedStock(v, g, w, g', p, n, q);
    } else {
      CutOffStock(v, g, w, g', p, n, q, r == 1);
    }
    assert Next(AbsOf(s), Move(p, n, q)) == MovedTo(AbsOf(s), p, n, q);
  }

  /** Whether the destination has room, and what the entry takes there. */
  lemma MoveFits(v: Vol, g: Plan, w: Vol, g': Plan, p: Path, n: Name, q: Path, ok: bool)
    requires Inv(v, g) && Movable(Tree(v, g), p, n, q) && Tree(v, g)[q] == Folder && q in g.home
    requires RelinkResult(v, g, w, g', p, n, q, n, ok)
    ensures ok <==> Needs(Tree(v, g), StockOf(v, g), q) <= Free(v)
    ensures q in Widths(v, g) && p + [n] in g.home && p + [n] != []
    ensures Grew(v, w, FolderIno(g, q), if ok then Needs(Tree(v, g), StockOf(v, g), q) else 0)
  {
    TreeKeys(v, g);
    NeedsMeans(v, g, q);
    assert p != q;
    ParentFolder(v, g, p, n);
    hide BlockInv, TreeInv, Tree, Leaked, Free, Moved, Without, Grew, Widths, Rebased, Growth, NoRoom, Below, Needs;
  }

  /** The counts after folder `q` has grown by `n` blocks. */
  lemma TakenStock(v: Vol, g: Plan, w: Vol, q: Path, n: nat)
    requires Inv(v, g) && q in g.home && q in Widths(v, g) && Grew(v, w, FolderIno(g, q), n)
    ensures var k := Taken(StockOf(v, g), q, n);
      && k.free == Free(w) && k.kept == Kept(w) && k.lost == |g.lost|
      && k.width == Widths(v, g)[q := Widths(v, g)[q] + n]
  {
    hide Inv, Widths, Free, Kept, Grew;
    GrewCounts(v, w, FolderIno(g, q), n);
  }

  lemma ArrivedStock(v: Vol, g: Plan, w: Vol, g': Plan, p: Path, n: Name, q: Path)
    requires Inv(v, g) && Movable(Tree(v, g), p, n, q) && Tree(v, g)[q] == Folder && q in g.home && !(p + [n] <= q)
    requires RelinkResult(v, g, w, g', p, n, q, n, true)
    ensures Inv(w, g') && Tree(w, g') == Moved(Tree(v, g), p + [n], q + [n])
    ensures var k := Taken(StockOf(v, g), q, Needs(Tree(v, g), StockOf(v, g), q));
      StockOf(w, g') == k.(width := Moved(k.width, p + [n], q + [n]))
  {
    var need := Needs(Tree(v, g), StockOf(v, g), q);
    MoveFits(v, g, w, g', p, n, q, true);
    TreeKeys(v, g);
    hide BlockInv, TreeInv, Tree, Leaked, Free, Kept, Moved, Without, Grew, Widths, Rebased, Growth, NoRoom, Below,
      Needs, Taken,
      Fits, MoveGrowth;
    TakenStock(v, g, w, q, need);
    assert Init(q + [n]) == q;
    MovedWidths(v, g, w, g', p + [n], q + [n], q, need);
  }

  lemma CutOffStock(v: Vol, g: Plan, w: Vol, g': Plan, p: Path, n: Name, q: Path, ok: bool)
    requires Inv(v, g) && Movable(Tree(v, g), p, n, q) && Tree(v, g)[q] == Folder && q in g.home &&
      !(ok && !(p + [n] <= q))
    requires RelinkResult(v, g, w, g', p, n, q, n, ok)
    ensures Inv(w, g') && Tree(w, g') == Without(Tree(v, g), p + [n])
    ensures var t, k := Tree(v, g), StockOf(v, g); var k1 := Taken(k, q, if ok then Needs(t, k, q) else 0);
      StockOf(w, g') == Stock(k1.free, k1.kept, k1.lost + |Subtree(t.Keys, p + [n])|, Without(k1.width, p + [n]))
  {
    var taken := if ok then Needs(Tree(v, g), StockOf(v, g), q) else 0;
    MoveFits(v, g, w, g', p, n, q, ok);
    hide BlockInv, TreeInv, Tree, Leaked, Free, Kept, Moved, Without, Grew, Widths, Rebased, Growth, NoRoom, Subtree,
      Below,
      Needs, Taken, Fits, MoveGrowth;
    TakenStock(v, g, w, q, taken);
    LostStock(v, g, w, g', p + [n], q, taken);
  }

  lemma LostStock(v: Vol, g: Plan, w: Vol, g': Plan, sp: Path, q: Path, n: nat)
    requires Inv(v, g) && Inv(w, g') && q in g.home && q in Widths(v, g) && Grew(v, w, FolderIno(g, q), n)
    requires Tree(w, g') == Without(Tree(v, g), sp) && SamePlaces(g', g) && g'.lost == g.lost + Below(g, sp)
    ensures Widths(w, g') == Without(Widths(v, g)[q := Widths(v, g)[q] + n], sp)
    ensures |g'.lost| == |g.lost| + |Subtree(Tree(v, g).Keys, sp)|
  {
    hide BlockInv, TreeInv, Tree, Free, Without, Grew, Widths, Below, Subtree, Width;
    var m := Widths(v, g)[q := Widths(v, g)[q] + n];
    TreeKeys(v, g);
    BelowIs(v, g, sp);
    forall x | x in m && !(sp <= x) && x in g.home && g.home[x].ino < MAX_INODES
      ensures m[x] == Width(w.inodes[g.home[x].ino])
    {
      GrewWidth(v, g, w, q, n, x);
    }
    CutWidths(v, g, w, g', sp, m);
  }

  // ---- every operation ----

  lemma RemountRefines(s: State, r: int, s': State)
    requires Step(s, Remount, r, s')
    ensures Refines(s, Remount, r, s')
  {
    hide Inv, Tree, Leaked, Width;
    RereadKeeps(s.vol, s.plan);
    assert Widths(s'.vol, s'.plan) == Widths(s.vol, s.plan);
  }

  /** Every operation does to the tree and the counts what the abstract one does, and answers alike. */
  lemma StepRefines(s: State, op: Op, r: int, s': State)
    requires Step(s, op, r, s')
    ensures Refines(s, op, r, s')
  {
    hide Step, Refines;
    StepStarts(s, op, r, s');
    match op
    case Create(_) => MakeRefines(s, op, r, s');
    case Mkdir(_) => MakeRefines(s, op, r, s');
    case Write(path, data) => WriteRefines(s, path, data, r, s');
    case Delete(path) => DeleteRefines(s, path, r, s');
    case Rename(dir, o, n) => RenameRefines(s, dir, o, n, r, s');
    case Move(src, n, dst) => MoveRefines(s, src, n, dst, r, s');
    case Remount => RemountRefines(s, r, s');
  }

  lemma StepStarts(s: State, op: Op, r: int, s': State)
    requires Step(s, op, r, s')
    ensures Inv(s.vol, s.plan)
  {
  }

  // ---- what does not leak ----

  lemma OutOfSpaceMeans(v: Vol, g: Plan, path: seq<byte>, data: seq<byte>)
    requires Inv(v, g)
    ensures OutOfSpace(Abs(Tree(v, g), StockOf(v, g)), Write(path, data)) <==>
      !WriteRefused(v, g, path, |data|) && Free(v) < WriteCost(v, g, Components(path), |data|)
  {
    WritableMeans(v, g, path, |data|);
    if Creatable(Tree(v, g), path) {
      MakesMeans(v, g, path);
    }
    NewFileCost(|data|);
    hide Inv, Tree, Creatable, Components, Writable, WriteRefused, Widths, Free, Kept, Growth, Needs, Total;
  }

  /** No operation but a write that does not fit changes which blocks leak, and none but a losing move loses an inode.
      */
  lemma StepLeak(s: State, op: Op, r: int, s': State)
    requires Step(s, op, r, s') && Synced(s.vol) && !OutOfSpace(AbsOf(s), op)
    ensures Leaked(s'.vol) == Leaked(s.vol) && Synced(s'.vol)
    ensures !LosingMove(AbsOf(s), op) ==> s'.plan.lost == s.plan.lost
  {
    hide Inv, Tree, Moved, Without, Leaked, Used, BlocksOf, Fits, Refused, Creatable, Components, StockOf, Free,
      WriteCost, Below,
      Width, Growth, Placed, Needs, WriteRefused, OutOfSpace;
    match op
    case Write(path, data) =>
      OutOfSpaceMeans(s.vol, s.plan, path, data);
      WriteLeak(s.vol, s.plan, s'.vol, s'.plan, path, data, r);
    case Move(src, n, dst) => MoveLeak(s, src, n, dst, r, s');
    case Remount => RereadKeeps(s.vol, s.plan);
    case _ =>
  }

  lemma WriteLeak(v: Vol, g: Plan, w: Vol, g': Plan, path: seq<byte>, data: seq<byte>, r: int)
    requires Inv(v, g) && WriteResult(v, g, w, g', path, data, r) && Synced(v)
    requires WriteRefused(v, g, path, |data|) || Free(v) >= WriteCost(v, g, Components(path), |data|)
    ensures Leaked(w) == Leaked(v) && Synced(w) && g'.lost == g.lost
  {
    if !WriteRefused(v, g, path, |data|) {
      PlacedLost(v, g, w, g', Components(path));
    }
    hide Inv, Tree, Components, WriteRefused, Leaked, Free, WriteCost, Placed;
  }

  lemma MoveLeak(s: State, p: Path, n: Name, q: Path, r: int, s': State)
    requires Step(s, Move(p, n, q), r, s') && Synced(s.vol)
    ensures Leaked(s'.vol) == Leaked(s.vol) && Synced(s'.vol)
    ensures !LosingMove(AbsOf(s), Move(p, n, q)) ==> s'.plan.lost == s.plan.lost
  {
    TreeKeys(s.vol, s.plan);
    if Movable(Tree(s.vol, s.plan), p, n, q) {
      MoveFits(s.vol, s.plan, s'.vol, s'.plan, p, n, q, r == 1);
    }
    hide Inv, Tree, Moved, Without, Leaked, Fits, StockOf, Free, Below, Width, Needs, MoveGrowth;
  }

  /** Whatever happens, no block is marked on disk that is free in memory. */
  lemma StepTidy(s: State, op: Op, r: int, s': State)
    requires Step(s, op, r, s') && Tidy(s.vol)
    ensures Tidy(s'.vol) && Leaked(Reread(s'.vol)) <= Leaked(s'.vol)
  {
    StepRefines(s, op, r, s');
    hide Inv, Tree, Moved, Without, Leaked, Used, BlocksOf, Fits, Refused, Creatable, Components, StockOf, Free,
      WriteCost, Next,
      FreeBlocks, Placed, Width, Kept, Below, Growth, MoveGrowth, WriteRefused, NewGrowth;
    RereadKeeps(s'.vol, s'.plan);
  }

  // ---- runs ----

  ghost predicate Run(ss: seq<State>, ops: seq<Op>, rs: seq<int>) {
    && |ss| == |ops| + 1 == |rs| + 1
    && forall k | 0 <= k < |ops| :: Step(ss[k], ops[k], rs[k], ss[k + 1])
  }

  /**
   * Every run is the abstract run from the tree and the counts it starts with: they alone
   * determine every later tree, every later count and whether each operation succeeds.
   */
  lemma {:induction false} RunRefines(ss: seq<State>, ops: seq<Op>, rs: seq<int>, k: nat)
    requires Run(ss, ops, rs) && Inv(ss[0].vol, ss[0].plan) && k <= |ops|
    ensures Inv(ss[k].vol, ss[k].plan) && AbsOf(ss[k]) == After(AbsOf(ss[0]), ops, k)
    ensures k < |ops| ==> Answers(ops[k], Next(After(AbsOf(ss[0]), ops, k), ops[k]).ok, rs[k])
  {
    hide Inv, Step, AbsOf, Answers, Next;
    if k > 0 {
      RunRefines(ss, ops, rs, k - 1);
      assert Step(ss[k - 1], ops[k - 1], rs[k - 1], ss[k - 1 + 1]);
      StepRefines(ss[k - 1], ops[k - 1], rs[k - 1], ss[k]);
    }
    if k < |ops| {
      StepRefines(ss[k], ops[k], rs[k], ss[k + 1]);
    }
  }

  /** A formatted disk of `n` data blocks, as the abstract file system sees it. */
  function FreshDisk(n: nat): Abs {
    Abs(map[[] := Folder], Stock(n, n, 0, map[[] := 0]))
  }

  lemma FormattedIs(v: Vol)
    requires Inv(v, ROOT_PLAN) && Pristine(v)
    ensures AbsOf(State(v, ROOT_PLAN)) == FreshDisk(|v.data|)
  {
    PristineIsFree(v);
    FreshWidth(DIR);
    SyncedKept(v);
    hide Free, Kept, Width, BlockInv;
    assert NodeOf(v, ROOT_PLAN, []) == Folder;
    assert Widths(v, ROOT_PLAN) == map[[] := 0];
    assert Tree(v, ROOT_PLAN) == map[[] := Folder];
  }

  /** From a formatted disk on, the number of its blocks and the operations so far determine the tree and all results.
      */
  lemma FormattedRun(ss: seq<State>, ops: seq<Op>, rs: seq<int>, k: nat)
    requires Run(ss, ops, rs) && ss[0].plan == ROOT_PLAN && Inv(ss[0].vol, ROOT_PLAN) && Pristine(ss[0].vol) &&
      k < |ops|
    ensures var a := After(FreshDisk(|ss[0].vol.data|), ops, k);
      Inv(ss[k].vol, ss[k].plan) && AbsOf(ss[k]) == a && Answers(ops[k], Next(a, ops[k]).ok, rs[k])
  {
    hide Pristine, AbsOf, Answers, Next, Inv, Step;
    FormattedIs(ss[0].vol);
    assert ss[0] == State(ss[0].vol, ROOT_PLAN);
    RunRefines(ss, ops, rs, k);
  }

  /** No write of the run runs out of space, and no move loses its entry. */
  ghost predicate Careful(a: Abs, ops: seq<Op>) {
    forall k | 0 <= k < |ops| :: !OutOfSpace(After(a, ops, k), ops[k]) && !LosingMove(After(a, ops, k), ops[k])
  }

  /** Nothing has leaked, nothing is lost, and the bitmap on disk is the one in memory. */
  ghost predicate Clean(s: State) {
    Inv(s.vol, s.plan) && Leaked(s.vol) == {} && s.plan.lost == {} && Synced(s.vol)
  }

  /**
   * A careful run from a clean state, such as a formatted disk, stays clean: at every state the
   * set bits are exactly the blocks that paths reach, and remounting changes nothing at all.
   */
  lemma {:induction false} CleanRun(ss: seq<State>, ops: seq<Op>, rs: seq<int>, k: nat)
    requires Run(ss, ops, rs) && Clean(ss[0]) && Careful(AbsOf(ss[0]), ops) && k <= |ops|
    ensures Clean(ss[k]) && Reread(ss[k].vol) == ss[k].vol
    ensures forall y | InData(ss[k].vol, y) :: Bit(ss[k].vol, y) <==> Reachable(ss[k], y)
  {
    hide Inv, AbsOf, Leaked, Step, OutOfSpace, LosingMove, Reachable, Bit, Next;
    if k > 0 {
      CleanRun(ss, ops, rs, k - 1);
      RunRefines(ss, ops, rs, k - 1);
      assert Step(ss[k - 1], ops[k - 1], rs[k - 1], ss[k - 1 + 1]);
      StepInv(ss[k - 1], ops[k - 1], rs[k - 1], ss[k]);
      StepLeak(ss[k - 1], ops[k - 1], rs[k - 1], ss[k]);
    }
    RereadKeeps(ss[k].vol, ss[k].plan);
    forall y | InData(ss[k].vol, y)
      ensures Bit(ss[k].vol, y) <==> Reachable(ss[k], y)
    {
      BitmapIsReachable(ss[k].vol, ss[k].plan, y);
    }
  }

  lemma StepInv(s: State, op: Op, r: int, s': State)
    requires Step(s, op, r, s')
    ensures Inv(s'.vol, s'.plan)
  {
    hide Step, Inv, Next, AbsOf, Answers;
    StepRefines(s, op, r, s');
  }

  /** A formatted disk is a clean state. */
  lemma FormattedIsClean(v: Vol)
    requires Inv(v, ROOT_PLAN) && Leaked(v) == {} && Pristine(v)
    ensures Clean(State(v, ROOT_PLAN))
  {
  }

  /** In a clean state the free blocks and those of all nodes make up the whole data area. */
  lemma CleanConserves(s: State)
    requires Clean(s)
    ensures var t, k := Tree(s.vol, s.plan), StockOf(s.vol, s.plan);
      k.free + Sum(Blocks(t, k, t.Keys)) == |s.vol.data|
  {
    hide BlockInv, TreeInv, Tree, StockOf, Sum, Blocks, Free;
    TreeKeys(s.vol, s.plan);
    Conservation(s.vol);
    SubtreeBlocks(s.vol, s.plan, s.plan.home.Keys);
    AllAreLive(s.vol, s.plan);
    StockFree(s.vol, s.plan);
  }

  lemma StockFree(v: Vol, g: Plan)
    ensures StockOf(v, g).free == Free(v)
  {
  }

  lemma AllAreLive(v: Vol, g: Plan)
    requires Inv(v, g) && g.lost == {}
    ensures BlocksOf(v, Upto(MAX_INODES)) == BlocksOf(v, Inos(g, g.home.Keys))
  {
    LiveOrLost(v, g);
    hide BlockInv, TreeInv, OwnedIn, Inos;
    forall y | v.start <= y < v.start + |v.data|
      ensures OwnedIn(v, Upto(MAX_INODES), y) <==> OwnedIn(v, Inos(g, g.home.Keys), y)
    {
      OwnerLives(v, Inos(g, g.home.Keys), y);
    }
  }

  lemma OwnerLives(v: Vol, js: set<nat>, y: nat)
    requires BlockInv(v) && y != 0 && forall i: nat :: i in js <==> i < MAX_INODES && Kind(v, i) != FREE
    ensures OwnedIn(v, Upto(MAX_INODES), y) <==> OwnedIn(v, js, y)
  {
    hide BlockInv, Ptr, Weight;
    if OwnedIn(v, Upto(MAX_INODES), y) {
      var i, k :| i in Upto(MAX_INODES) && 0 <= i < MAX_INODES && 0 <= k < SLOTS && Ptr(v, i, k) == y;
      FirstSlots(v, i, k);
      OnlyLive(v, i);
    }
    if OwnedIn(v, js, y) {
      var i, k :| i in js && 0 <= i < MAX_INODES && 0 <= k < SLOTS && Ptr(v, i, k) == y;
      assert i in Upto(MAX_INODES);
    }
  }

  lemma OnlyLive(v: Vol, i: nat)
    requires i < MAX_INODES && Weight(v, i) > 0
    ensures Kind(v, i) != FREE
  {
  }

  ghost predicate Reachable(s: State, y: nat) {
    exists p | p in s.plan.home :: Reaches(s.vol, s.plan, p, y)
  }

  // ---- what the invariant means ----

  /** Set bits are exactly the blocks of live paths, once nothing has leaked or been lost. */
  lemma BitmapIsReachable(v: Vol, g: Plan, y: nat)
    requires Inv(v, g) && Leaked(v) == {} && g.lost == {} && InData(v, y)
    ensures Bit(v, y) <==> Reachable(State(v, g), y)
  {
    hide Ptr;
    if Bit(v, y) {
      assert y !in Leaked(v);
      var i, k :| 0 <= i < MAX_INODES && 0 <= k < SLOTS && Ptr(v, i, k) == y;
      OwnerIsLive(v, g, i, k);
      assert Reaches(v, g, g.path[i], y);
    }
    forall p | p in g.home && Reaches(v, g, p, y)
      ensures Bit(v, y)
    {
      var k :| 0 <= k < SLOTS && Ptr(v, g.home[p].ino, k) == y;
      assert Bit(v, Ptr(v, g.home[p].ino, k));
    }
  }

  ghost predicate Reaches(v: Vol, g: Plan, p: Path, y: nat)
    requires p in g.home
  {
    g.home[p].ino < MAX_INODES && exists k | 0 <= k < SLOTS :: Ptr(v, g.home[p].ino, k) == y
  }

  lemma OwnerIsLive(v: Vol, g: Plan, i: nat, k: nat)
    requires Inv(v, g) && g.lost == {} && i < MAX_INODES && k < SLOTS && Ptr(v, i, k) != 0
    ensures i in g.path && g.path[i] in g.home && g.home[g.path[i]].ino == i
  {
    assert Shape(v, i);
    assert InoOk(v, g, i);
  }

  /** No block belongs to two paths. */
  lemma OneOwner(v: Vol, g: Plan, p: Path, q: Path, y: nat)
    requires Inv(v, g) && p in g.home && q in g.home && y != 0 && Reaches(v, g, p, y) && Reaches(v, g, q, y)
    ensures p == q
  {
    hide Ptr;
    var k :| 0 <= k < SLOTS && Ptr(v, g.home[p].ino, k) == y;
    var l :| 0 <= l < SLOTS && Ptr(v, g.home[q].ino, l) == y;
    OneName(v, g, p, q);
  }

  /** Write then read: after a successful write, reading the same path returns the first bytes written, whatever the
      file held before. */
  lemma WriteReadRoundTrip(v: Vol, g: Plan, w: Vol, g': Plan, path: seq<byte>, data: seq<byte>, r: int,
                           before: seq<byte>, after: seq<byte>, maxlen: nat, n: int)
    requires Inv(v, g) && 0 !in path && WriteResult(v, g, w, g', path, data, r) && r >= 0
    requires Plain(Tree(w, g'), FullComponents(path)) ==>
      ReadResult(Tree(w, g'), FullComponents(path), before, after, maxlen, n)
    ensures r == |data| && n == Least(|data|, maxlen) && n <= |after| && after[..n] == data[..n]
  {
    hide BlockInv, TreeInv, Refused, Tree, Components, FullComponents;
    CreatableMeaning(v, g, path);
    StrictIsFull(path);
    TreeKeys(v, g);
    var cs := Components(path);
    forall k | 0 <= k < |cs| && cs[..k] in Tree(w, g')
      ensures Tree(w, g')[cs[..k]] == Folder
    {
      AboveIsFolder(v, g, cs, k);
    }
    assert Plain(Tree(w, g'), cs);
  }

  lemma AboveIsFolder(v: Vol, g: Plan, cs: Path, k: nat)
    requires Inv(v, g) && ParentLive(v, g, cs) && k < |cs|
    ensures cs[..k] in Tree(v, g) && Tree(v, g)[cs[..k]] == Folder && cs[..k] != cs
  {
    AboveParent(v, g, cs, k);
    assert [] + cs[..k] == cs[..k];
    NodeKind(v, g, cs[..k]);
    if Tree(v, g)[cs[..k]].File? {
      assert false;
    }
  }
}
