/** How the tree invariant follows the volume when an entry is added, moved or cut off. */
module Trees {
  import opened Layout
  import opened Volume

  // ---- reading the tree ----

  lemma {:induction false} PrefixLives(v: Vol, g: Plan, p: Path, q: Path)
    requires TreeInv(v, g) && p in g.home && q <= p
    ensures q in g.home
    decreases |p|
  {
    if q != p {
      assert HomeOk(v, g, p);
      assert q <= Init(p);
      PrefixLives(v, g, Init(p), q);
    }
  }

  lemma ParentIsFolder(v: Vol, g: Plan, p: Path)
    requires TreeInv(v, g) && p in g.home && p != []
    ensures Init(p) in g.home && g.home[Init(p)].ino < MAX_INODES && Kind(v, g.home[Init(p)].ino) == DIR
  {
    assert HomeOk(v, g, p);
  }

  /** An inode is named by one path only. */
  lemma OneName(v: Vol, g: Plan, p: Path, q: Path)
    requires TreeInv(v, g) && p in g.home && q in g.home && g.home[p].ino == g.home[q].ino
    ensures p == q
  {
    assert HomeOk(v, g, p) && HomeOk(v, g, q);
  }

  /** A used entry of a live directory that matches a name is the entry of that path. */
  lemma MatchIsChild(v: Vol, g: Plan, p: Path, n: Name, b: nat, s: nat)
    requires TreeInv(v, g) && p in g.home && 0 !in n
    requires HomeOk(v, g, p) && Kind(v, g.home[p].ino) == DIR && b < DIRECT && s < DIRENTS_PER_BLOCK
    requires Ent(v, g.home[p].ino, b, s).used != 0 && Matches(Ent(v, g.home[p].ino, b, s).name, n)
    ensures p + [n] in g.home && g.home[p + [n]] == Home(Ent(v, g.home[p].ino, b, s).inode, b, s) && ValidName(n)
  {
    var i := g.home[p].ino;
    assert EntOk(v, g, i, b, s);
    var m :| ValidName(m) && Listed(v, g, i, b, s, m);
    MatchesOwnField(m, n);
  }

  lemma ChildMatches(v: Vol, g: Plan, p: Path, n: Name)
    requires TreeInv(v, g) && p in g.home && HomeOk(v, g, p) && p + [n] in g.home
    ensures ValidName(n) && Kind(v, g.home[p].ino) == DIR
    ensures g.home[p + [n]].b < DIRECT && g.home[p + [n]].s < DIRENTS_PER_BLOCK
    ensures IsEntry(Ent(v, g.home[p].ino, g.home[p + [n]].b, g.home[p + [n]].s), n, g.home[p + [n]].ino)
    ensures Matches(Ent(v, g.home[p].ino, g.home[p + [n]].b, g.home[p + [n]].s).name, n)
  {
    var q := p + [n];
    assert HomeOk(v, g, q);
    assert Init(q) == p && Last(q) == n;
    MatchesOwnField(n, n);
  }

  /** The tree invariant looks at inode kinds and directory entries only. */
  lemma SameEntries(v: Vol, w: Vol, g: Plan)
    requires TreeInv(v, g)
    requires forall i | 0 <= i < MAX_INODES :: Kind(w, i) == Kind(v, i)
    requires forall i, b, s | 0 <= i < MAX_INODES && 0 <= b < DIRECT && 0 <= s < DIRENTS_PER_BLOCK &&
      Kind(v, i) == DIR ::
               Ent(w, i, b, s) == Ent(v, i, b, s)
    ensures TreeInv(w, g)
  {
    forall p | p in g.home
      ensures HomeOk(w, g, p)
    {
      assert HomeOk(v, g, p);
    }
    forall i | 0 <= i < MAX_INODES
      ensures InoOk(w, g, i)
    {
      assert InoOk(v, g, i);
    }
    forall i, b, s | i in g.path && 0 <= b < DIRECT && 0 <= s < DIRENTS_PER_BLOCK && Kind(w, i) == DIR &&
      Ent(w, i, b, s).used != 0
      ensures EntOk(w, g, i, b, s)
    {
      assert Ent(w, i, b, s) == Ent(v, i, b, s);
      assert EntOk(v, g, i, b, s);
      var n :| ValidName(n) && Listed(v, g, i, b, s, n);
      assert Listed(w, g, i, b, s, n);
    }
  }

  // ---- adding an entry ----

  function LinkPlan(g: Plan, p: Path, n: Name, c: nat, b: nat, s: nat): Plan {
    Plan(g.home[p + [n] := Home(c, b, s)], g.path[c := p + [n]], g.lost)
  }

  ghost predicate Links(v: Vol, w: Vol, g: Plan, p: Path, n: Name, c: nat, b: nat, s: nat) {
    && TreeInv(v, g) && p in g.home && HomeOk(v, g, p) && ValidName(n) && p + [n] !in g.home
    && c < MAX_INODES && b < DIRECT && s < DIRENTS_PER_BLOCK
    && Kind(v, g.home[p].ino) == DIR && Kind(v, c) == FREE && Kind(w, c) != FREE
    && Ent(v, g.home[p].ino, b, s).used == 0
    && (forall i | 0 <= i < MAX_INODES && i != c :: Kind(w, i) == Kind(v, i))
    && (forall i, a, t | 0 <= i < MAX_INODES && 0 <= a < DIRECT && 0 <= t < DIRENTS_PER_BLOCK ::
          (i, a, t) != (g.home[p].ino, b, s) ==> Ent(w, i, a, t) == Ent(v, i, a, t))
    && IsEntry(Ent(w, g.home[p].ino, b, s), n, c)
    && (forall a, t | 0 <= a < DIRECT && 0 <= t < DIRENTS_PER_BLOCK :: Ent(v, c, a, t).used == 0)
  }

  lemma LinkIno(v: Vol, w: Vol, g: Plan, p: Path, n: Name, c: nat, b: nat, s: nat, i: nat)
    requires Links(v, w, g, p, n, c, b, s) && i < MAX_INODES
    ensures InoOk(w, LinkPlan(g, p, n, c, b, s), i)
  {
    assert InoOk(v, g, i) && InoOk(v, g, c);
  }

  lemma LinkKeepsTree(v: Vol, w: Vol, g: Plan, p: Path, n: Name, c: nat, b: nat, s: nat)
    requires Links(v, w, g, p, n, c, b, s)
    ensures TreeInv(w, LinkPlan(g, p, n, c, b, s))
  {
    hide Ent, HomeOk, InoOk, EntOk, IsEntry;
    var g' := LinkPlan(g, p, n, c, b, s);
    forall q | q in g'.home
      ensures HomeOk(w, g', q)
    {
      LinkHome(v, w, g, p, n, c, b, s, q);
    }
    forall i | 0 <= i < MAX_INODES
      ensures InoOk(w, g', i)
    {
      LinkIno(v, w, g, p, n, c, b, s, i);
    }
    forall i, a, t | i in g'.path && 0 <= a < DIRECT && 0 <= t < DIRENTS_PER_BLOCK && Kind(w, i) == DIR &&
      Ent(w, i, a, t).used != 0
      ensures EntOk(w, g', i, a, t)
    {
      LinkEnt(v, w, g, p, n, c, b, s, i, a, t);
    }
  }

  lemma LinkHome(v: Vol, w: Vol, g: Plan, p: Path, n: Name, c: nat, b: nat, s: nat, q: Path)
    requires Links(v, w, g, p, n, c, b, s) && q in LinkPlan(g, p, n, c, b, s).home
    ensures HomeOk(w, LinkPlan(g, p, n, c, b, s), q)
  {
    assert InoOk(v, g, c);
    assert HomeOk(v, g, []);
    if q == p + [n] {
      assert Init(q) == p && Last(q) == n;
    } else {
      assert HomeOk(v, g, q);
      if q != [] {
        assert HomeOk(v, g, Init(q));
      }
    }
  }

  lemma LinkEnt(v: Vol, w: Vol, g: Plan, p: Path, n: Name, c: nat, b: nat, s: nat, i: nat, a: nat, t: nat)
    requires Links(v, w, g, p, n, c, b, s)
    requires i in LinkPlan(g, p, n, c, b, s).path && i < MAX_INODES && a < DIRECT && t < DIRENTS_PER_BLOCK
    requires Kind(w, i) == DIR && Ent(w, i, a, t).used != 0
    ensures EntOk(w, LinkPlan(g, p, n, c, b, s), i, a, t)
  {
    var g' := LinkPlan(g, p, n, c, b, s);
    if (i, a, t) == (g.home[p].ino, b, s) {
      assert i != c;
      assert Listed(w, g', i, a, t, n);
    } else {
      assert i != c && i in g.path;
      assert EntOk(v, g, i, a, t);
      var m :| ValidName(m) && Listed(v, g, i, a, t, m);
      assert Listed(w, g', i, a, t, m);
    }
  }

  // ---- cutting a subtree off ----

  /** The inodes at or below path `sp`. */
  ghost function Below(g: Plan, sp: Path): set<nat> {
    set i | i in g.path && sp <= g.path[i]
  }

  ghost function CutPlan(g: Plan, sp: Path, lost: set<nat>): Plan {
    Plan(map p | p in g.home && !(sp <= p) :: g.home[p], map i | i in g.path && !(sp <= g.path[i]) :: g.path[i], lost)
  }

  /** `w` is `v` with the entry of `sp` cleared; the inodes below are freed, or kept and counted as lost. */
  ghost predicate Cuts(v: Vol, w: Vol, g: Plan, sp: Path, lost: set<nat>) {
    && TreeInv(v, g) && sp in g.home && sp != [] && HomeOk(v, g, sp)
    && (forall i | 0 <= i < MAX_INODES && i !in Below(g, sp) :: Kind(w, i) == Kind(v, i))
    && (forall i | i in lost :: i < MAX_INODES)
    && (forall i | 0 <= i < MAX_INODES && i !in Below(g, sp) :: i in lost <==> i in g.lost)
    && (forall i | i in Below(g, sp) && 0 <= i < MAX_INODES :: Kind(w, i) != FREE <==> i in lost)
    && (forall i, a, t | 0 <= i < MAX_INODES && i !in Below(g, sp) && 0 <= a < DIRECT && 0 <= t < DIRENTS_PER_BLOCK ::
          (i, a, t) != (g.home[Init(sp)].ino, g.home[sp].b, g.home[sp].s) ==> Ent(w, i, a, t) == Ent(v, i, a, t))
    && Ent(w, g.home[Init(sp)].ino, g.home[sp].b, g.home[sp].s).used == 0
  }

  lemma CutKeepsTree(v: Vol, w: Vol, g: Plan, sp: Path, lost: set<nat>)
    requires Cuts(v, w, g, sp, lost)
    ensures TreeInv(w, CutPlan(g, sp, lost))
  {
    hide Ent, HomeOk, InoOk, EntOk, IsEntry;
    var g' := CutPlan(g, sp, lost);
    forall q | q in g'.home
      ensures HomeOk(w, g', q)
    {
      CutHome(v, w, g, sp, lost, q);
    }
    forall i | 0 <= i < MAX_INODES
      ensures InoOk(w, g', i)
    {
      CutIno(v, w, g, sp, lost, i);
    }
    forall i, a, t | i in g'.path && 0 <= a < DIRECT && 0 <= t < DIRENTS_PER_BLOCK && Kind(w, i) == DIR &&
      Ent(w, i, a, t).used != 0
      ensures EntOk(w, g', i, a, t)
    {
      CutEnt(v, w, g, sp, lost, i, a, t);
    }
  }

  lemma CutHome(v: Vol, w: Vol, g: Plan, sp: Path, lost: set<nat>, q: Path)
    requires Cuts(v, w, g, sp, lost) && q in g.home && !(sp <= q)
    ensures HomeOk(w, CutPlan(g, sp, lost), q)
  {
    assert HomeOk(v, g, q);
    assert HomeOk(v, g, []);
    assert g.home[q].ino !in Below(g, sp);
    if q != [] {
      assert HomeOk(v, g, Init(q));
      assert !(sp <= Init(q));
      assert g.home[Init(q)].ino !in Below(g, sp);
      CutKeepsSlot(v, w, g, sp, lost, q);
    }
  }

  /** Two paths do not share an entry, so the entries of the paths that stay are untouched. */
  lemma CutKeepsSlot(v: Vol, w: Vol, g: Plan, sp: Path, lost: set<nat>, q: Path)
    requires Cuts(v, w, g, sp, lost) && q in g.home && q != [] && !(sp <= q) && HomeOk(v, g, q)
    requires g.home[Init(q)].ino !in Below(g, sp)
    ensures Ent(w, g.home[Init(q)].ino, g.home[q].b, g.home[q].s) ==
      Ent(v, g.home[Init(q)].ino, g.home[q].b, g.home[q].s)
  {
    if (g.home[Init(q)].ino, g.home[q].b, g.home[q].s) == (g.home[Init(sp)].ino, g.home[sp].b, g.home[sp].s) {
      OneName(v, g, sp, q);
    }
  }

  lemma CutIno(v: Vol, w: Vol, g: Plan, sp: Path, lost: set<nat>, i: nat)
    requires Cuts(v, w, g, sp, lost) && i < MAX_INODES
    ensures InoOk(w, CutPlan(g, sp, lost), i)
  {
    assert InoOk(v, g, i);
  }

  lemma CutEnt(v: Vol, w: Vol, g: Plan, sp: Path, lost: set<nat>, i: nat, a: nat, t: nat)
    requires Cuts(v, w, g, sp, lost) && i in g.path && !(sp <= g.path[i]) && i < MAX_INODES && a < DIRECT &&
      t < DIRENTS_PER_BLOCK
    requires Kind(w, i) == DIR && Ent(w, i, a, t).used != 0
    ensures EntOk(w, CutPlan(g, sp, lost), i, a, t)
  {
    assert EntOk(v, g, i, a, t);
    var n :| ValidName(n) && Listed(v, g, i, a, t, n);
    var q := g.path[i] + [n];
    assert Init(q) == g.path[i] && Last(q) == n;
    assert InoOk(v, g, i);
    assert sp <= q ==> sp == q;
    assert Listed(w, CutPlan(g, sp, lost), i, a, t, n);
  }

  // ---- moving a subtree ----

  /** Where path `p` goes when the subtree at `sp` is hung at `q`, and back. */
  function Rebase(p: Path, sp: Path, q: Path): Path {
    if sp <= p then q + p[|sp|..] else p
  }

  function MovedHome(g: Plan, sp: Path, q: Path, b: nat, s: nat, x: Path): Home
    requires Rebase(x, q, sp) in g.home
  {
    if x == q then Home(g.home[Rebase(x, q, sp)].ino, b, s) else g.home[Rebase(x, q, sp)]
  }

  ghost function MovePlan(g: Plan, sp: Path, q: Path, b: nat, s: nat): Plan {
    Plan(map x | x in (set p | p in g.home :: Rebase(p, sp, q)) && Rebase(x, q, sp) in g.home ::
      MovedHome(g, sp, q, b, s, x),
         map i | i in g.path :: Rebase(g.path[i], sp, q), g.lost)
  }

  /** `w` is `v` with the entry of `sp` cleared and an entry for `q` written in slot (b, s) of its parent. */
  ghost predicate Moves(v: Vol, w: Vol, g: Plan, sp: Path, q: Path, b: nat, s: nat) {
    && TreeInv(v, g) && sp in g.home && sp != [] && HomeOk(v, g, sp)
    && q != [] && (q !in g.home || q == sp) && Init(q) in g.home && HomeOk(v, g, Init(q)) && !(sp <= Init(q))
    && ValidName(Last(q))
    && Kind(v, g.home[Init(q)].ino) == DIR && b < DIRECT && s < DIRENTS_PER_BLOCK
    && (Ent(v, g.home[Init(q)].ino, b, s).used == 0 || SameSlot(g, sp, q, b, s))
    && (forall i | 0 <= i < MAX_INODES :: Kind(w, i) == Kind(v, i))
    && (forall i, a, t | 0 <= i < MAX_INODES && 0 <= a < DIRECT && 0 <= t < DIRENTS_PER_BLOCK ::
          (i, a, t) != (g.home[Init(sp)].ino, g.home[sp].b, g.home[sp].s) && (i, a, t) != (g.home[Init(q)].ino, b, s)
          ==> Ent(w, i, a, t) == Ent(v, i, a, t))
    && IsEntry(Ent(w, g.home[Init(q)].ino, b, s), Last(q), g.home[sp].ino)
    && (SameSlot(g, sp, q, b, s) || Ent(w, g.home[Init(sp)].ino, g.home[sp].b, g.home[sp].s).used == 0)
  }

  ghost predicate SameSlot(g: Plan, sp: Path, q: Path, b: nat, s: nat)
    requires sp in g.home && sp != [] && Init(sp) in g.home && q != [] && Init(q) in g.home
  {
    (g.home[Init(q)].ino, b, s) == (g.home[Init(sp)].ino, g.home[sp].b, g.home[sp].s)
  }

  /** No live path but the moved ones lies at or below `q`, so moving to `q` is undone by moving back. */
  lemma MoveBack(v: Vol, g: Plan, sp: Path, q: Path, p: Path)
    requires TreeInv(v, g) && sp in g.home && sp != [] && q != [] && (q !in g.home || q == sp) && p in g.home
    requires !(sp <= Init(q))
    ensures (q == sp || !(q <= p)) && Rebase(Rebase(p, sp, q), q, sp) == p
  {
    if q <= p && q != sp {
      PrefixLives(v, g, p, q);
    }
    if sp <= p {
      var x := q + p[|sp|..];
      assert x[|q|..] == p[|sp|..];
      assert sp + p[|sp|..] == p;
    }
  }

  lemma MovedHomes(v: Vol, w: Vol, g: Plan, sp: Path, q: Path, b: nat, s: nat, p: Path)
    requires Moves(v, w, g, sp, q, b, s) && p in g.home
    ensures Rebase(p, sp, q) in MovePlan(g, sp, q, b, s).home
    ensures MovePlan(g, sp, q, b, s).home[Rebase(p, sp, q)] == if p == sp then Home(g.home[p].ino, b, s) else g.home[p]
  {
    MoveBack(v, g, sp, q, p);
    assert sp <= p && |p| == |sp| ==> p == sp;
  }

  lemma MovedFrom(v: Vol, w: Vol, g: Plan, sp: Path, q: Path, b: nat, s: nat, x: Path) returns (p: Path)
    requires Moves(v, w, g, sp, q, b, s) && x in MovePlan(g, sp, q, b, s).home
    ensures p in g.home && x == Rebase(p, sp, q)
  {
    p :| p in g.home && x == Rebase(p, sp, q);
  }

  /** Extending a path by one name commutes with moving it. */
  lemma RebaseChild(p: Path, n: Name, sp: Path, q: Path)
    requires p + [n] != sp
    ensures Rebase(p + [n], sp, q) == Rebase(p, sp, q) + [n]
  {
    if sp <= p + [n] {
      assert sp <= p;
      assert (p + [n])[|sp|..] == p[|sp|..] + [n];
    }
  }

  lemma MoveKeepsTree(v: Vol, w: Vol, g: Plan, sp: Path, q: Path, b: nat, s: nat)
    requires Moves(v, w, g, sp, q, b, s)
    ensures TreeInv(w, MovePlan(g, sp, q, b, s))
  {
    hide Ent, HomeOk, InoOk, EntOk, IsEntry;
    var g' := MovePlan(g, sp, q, b, s);
    assert [] in g'.home by {
      MovedHomes(v, w, g, sp, q, b, s, []);
    }
    forall x | x in g'.home
      ensures HomeOk(w, g', x)
    {
      var p := MovedFrom(v, w, g, sp, q, b, s, x);
      MoveHome(v, w, g, sp, q, b, s, p);
    }
    forall i | 0 <= i < MAX_INODES
      ensures InoOk(w, g', i)
    {
      MoveIno(v, w, g, sp, q, b, s, i);
    }
    forall i, a, t | i in g'.path && 0 <= a < DIRECT && 0 <= t < DIRENTS_PER_BLOCK && Kind(w, i) == DIR &&
      Ent(w, i, a, t).used != 0
      ensures EntOk(w, g', i, a, t)
    {
      MoveEnt(v, w, g, sp, q, b, s, i, a, t);
    }
  }

  lemma MoveRoot(v: Vol, w: Vol, g: Plan, sp: Path, q: Path, b: nat, s: nat)
    requires Moves(v, w, g, sp, q, b, s)
    ensures Rebase(sp, sp, q) == q && q in MovePlan(g, sp, q, b, s).home
    ensures HomeOk(w, MovePlan(g, sp, q, b, s), q)
  {
    MovedHomes(v, w, g, sp, q, b, s, sp);
    MovedHomes(v, w, g, sp, q, b, s, Init(q));
    assert Rebase(Init(q), sp, q) == Init(q);
  }

  lemma MoveHome(v: Vol, w: Vol, g: Plan, sp: Path, q: Path, b: nat, s: nat, p: Path)
    requires Moves(v, w, g, sp, q, b, s) && p in g.home
    ensures Rebase(p, sp, q) in MovePlan(g, sp, q, b, s).home
    ensures HomeOk(w, MovePlan(g, sp, q, b, s), Rebase(p, sp, q))
  {
    if p == sp {
      MoveRoot(v, w, g, sp, q, b, s);
    } else if p == [] {
      MovedHomes(v, w, g, sp, q, b, s, p);
      assert HomeOk(v, g, p);
    } else {
      assert HomeOk(v, g, p);
      MoveInner(v, w, g, sp, q, b, s, p);
    }
  }

  lemma MovedPath(g: Plan, sp: Path, q: Path, b: nat, s: nat, i: nat)
    requires sp in g.home && i in g.path
    ensures var g' := MovePlan(g, sp, q, b, s); i in g'.path && g'.path[i] == Rebase(g.path[i], sp, q)
  {
  }

  lemma MoveInner(v: Vol, w: Vol, g: Plan, sp: Path, q: Path, b: nat, s: nat, p: Path)
    requires Moves(v, w, g, sp, q, b, s) && p in g.home && p != sp && p != [] && HomeOk(v, g, p)
    ensures Rebase(p, sp, q) in MovePlan(g, sp, q, b, s).home
    ensures HomeOk(w, MovePlan(g, sp, q, b, s), Rebase(p, sp, q))
  {
    hide IsEntry, TreeInv, MovePlan, Rebase, SameSlot;
    RebaseInit(p, sp, q);
    MovedHomes(v, w, g, sp, q, b, s, p);
    MovedHomes(v, w, g, sp, q, b, s, Init(p));
    MovedPath(g, sp, q, b, s, g.home[p].ino);
    MoveKeepsSlot(v, w, g, sp, q, b, s, p);
  }

  lemma RebaseInit(p: Path, sp: Path, q: Path)
    requires p != [] && p != sp
    ensures var x := Rebase(p, sp, q); x != [] && Init(x) == Rebase(Init(p), sp, q) && Last(x) == Last(p)
  {
    assert p == Init(p) + [Last(p)];
    RebaseChild(Init(p), Last(p), sp, q);
  }

  lemma MoveKeepsSlot(v: Vol, w: Vol, g: Plan, sp: Path, q: Path, b: nat, s: nat, p: Path)
    requires Moves(v, w, g, sp, q, b, s) && p in g.home && p != [] && p != sp && HomeOk(v, g, p)
    ensures g.home[Init(p)].ino < MAX_INODES && g.home[p].b < DIRECT && g.home[p].s < DIRENTS_PER_BLOCK
    ensures Ent(w, g.home[Init(p)].ino, g.home[p].b, g.home[p].s) ==
      Ent(v, g.home[Init(p)].ino, g.home[p].b, g.home[p].s)
  {
    if (g.home[Init(p)].ino, g.home[p].b, g.home[p].s) == (g.home[Init(sp)].ino, g.home[sp].b, g.home[sp].s) {
      OneName(v, g, sp, p);
    }
  }

  lemma MoveIno(v: Vol, w: Vol, g: Plan, sp: Path, q: Path, b: nat, s: nat, i: nat)
    requires Moves(v, w, g, sp, q, b, s) && i < MAX_INODES
    ensures InoOk(w, MovePlan(g, sp, q, b, s), i)
  {
    assert InoOk(v, g, i);
    if i in g.path {
      MovedHomes(v, w, g, sp, q, b, s, g.path[i]);
    }
  }

  lemma MoveEnt(v: Vol, w: Vol, g: Plan, sp: Path, q: Path, b: nat, s: nat, i: nat, a: nat, t: nat)
    requires Moves(v, w, g, sp, q, b, s)
    requires i in g.path && i < MAX_INODES && a < DIRECT && t < DIRENTS_PER_BLOCK && Kind(w, i) == DIR &&
      Ent(w, i, a, t).used != 0
    ensures EntOk(w, MovePlan(g, sp, q, b, s), i, a, t)
  {
    assert InoOk(v, g, i);
    if (i, a, t) == (g.home[Init(q)].ino, b, s) {
      MoveEntNew(v, w, g, sp, q, b, s, i);
    } else {
      MoveEntOther(v, w, g, sp, q, b, s, i, a, t);
    }
  }

  lemma MoveEntNew(v: Vol, w: Vol, g: Plan, sp: Path, q: Path, b: nat, s: nat, i: nat)
    requires Moves(v, w, g, sp, q, b, s)
    requires i in g.path && i < MAX_INODES && i == g.home[Init(q)].ino && InoOk(v, g, i)
    ensures EntOk(w, MovePlan(g, sp, q, b, s), i, b, s)
  {
    hide IsEntry, TreeInv, Ent, SameSlot, MovePlan;
    var g' := MovePlan(g, sp, q, b, s);
    assert g.path[i] == Init(q) && Init(q) + [Last(q)] == q;
    MovedPath(g, sp, q, b, s, i);
    MovedHomes(v, w, g, sp, q, b, s, sp);
    assert Rebase(sp, sp, q) == q && Rebase(Init(q), sp, q) == Init(q);
    assert Listed(w, g', i, b, s, Last(q));
  }

  lemma MoveEntOther(v: Vol, w: Vol, g: Plan, sp: Path, q: Path, b: nat, s: nat, i: nat, a: nat, t: nat)
    requires Moves(v, w, g, sp, q, b, s)
    requires i in g.path && i < MAX_INODES && a < DIRECT && t < DIRENTS_PER_BLOCK && Kind(w, i) == DIR &&
      Ent(w, i, a, t).used != 0
    requires (i, a, t) != (g.home[Init(q)].ino, b, s)
    ensures EntOk(w, MovePlan(g, sp, q, b, s), i, a, t)
  {
    hide IsEntry, Ent, MovePlan;
    var g' := MovePlan(g, sp, q, b, s);
    MovedPath(g, sp, q, b, s, i);
    assert Ent(w, i, a, t) == Ent(v, i, a, t);
    assert EntOk(v, g, i, a, t);
    var n :| ValidName(n) && Listed(v, g, i, a, t, n);
    var p := g.path[i];
    assert InoOk(v, g, i);
    assert Init(p + [n]) == p;
    RebaseChild(p, n, sp, q);
    MovedHomes(v, w, g, sp, q, b, s, p + [n]);
    assert Listed(w, g', i, a, t, n);
  }
}
