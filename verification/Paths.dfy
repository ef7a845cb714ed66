/** Path strings and their resolution: resolve_parent checks what it walks through, resolve_full does not. */
module Paths {
  import opened Bytes
  import opened Layout
  import opened Volume
  import opened Image
  import opened Store
  import opened Directory
  import opened Trees

  const SLASH: byte := 47

  // ---- path strings ----

  /** The length of the first component. */
  function Span(p: seq<byte>): (r: nat)
    ensures r <= |p| && SLASH !in p[..r] && (r < |p| ==> p[r] == SLASH)
  {
    if p == [] || p[0] == SLASH then 0 else 1 + Span(p[1..])
  }

  function Split(p: seq<byte>): (r: Path)
    ensures r != []
    decreases |p|
  {
    var n := Span(p);
    if n == |p| then [p] else [p[..n]] + Split(p[n + 1..])
  }

  /** One leading slash is optional. */
  function Strip(path: seq<byte>): seq<byte> {
    if path != [] && path[0] == SLASH then path[1..] else path
  }

  function Components(path: seq<byte>): Path {
    Split(Strip(path))
  }

  /** A trailing slash is ignored; the empty path and "/" are the root. */
  function FullComponents(path: seq<byte>): Path {
    Lenient(Strip(path))
  }

  function Lenient(p: seq<byte>): Path {
    if Last(Split(p)) == [] then Init(Split(p)) else Split(p)
  }

  lemma SplitStep(p: seq<byte>)
    ensures Split(p) == if Span(p) == |p| then [p] else [p[..Span(p)]] + Split(p[Span(p) + 1..])
  {
  }

  lemma LenientStep(p: seq<byte>)
    requires p != []
    ensures Lenient(p) == if Span(p) == |p| then [p] else [p[..Span(p)]] + Lenient(p[Span(p) + 1..])
  {
    hide Span, Split, Init, Last;
    SplitStep(p);
    if Span(p) < |p| {
      LastOfCons(p[..Span(p)], Split(p[Span(p) + 1..]));
    } else {
      LastOfOne(p);
    }
  }

  lemma LastOfCons(c: Name, rest: Path)
    requires rest != []
    ensures Last([c] + rest) == Last(rest) && Init([c] + rest) == [c] + Init(rest)
  {
  }

  lemma LastOfOne(c: Name)
    ensures Last([c]) == c
  {
  }

  /** On a path without empty last component both readings agree. */
  lemma StrictIsFull(path: seq<byte>)
    requires Strict(path)
    ensures FullComponents(path) == Components(path)
  {
    assert Component(Components(path)[|Components(path)| - 1]);
  }

  lemma {:induction false} SplitNoNul(p: seq<byte>, k: nat)
    requires 0 !in p && k < |Split(p)|
    ensures 0 !in Split(p)[k]
    decreases |p|
  {
    var n := Span(p);
    if n < |p| && k > 0 {
      SplitNoNul(p[n + 1..], k - 1);
      assert Split(p)[k] == Split(p[n + 1..])[k - 1];
    }
  }

  lemma SpanIs(p: seq<byte>, k: nat)
    requires k <= |p| && SLASH !in p[..k] && (k < |p| ==> p[k] == SLASH)
    ensures Span(p) == k
  {
  }

  /** Splitting at the last slash. */
  lemma {:induction false} SplitAppend(p: seq<byte>, n: Name)
    requires SLASH !in n
    ensures Split(p + ([SLASH] + n)) == Split(p) + [n]
    decreases |p|
  {
    hide Span;
    var k, q := Span(p), p + ([SLASH] + n);
    assert q[..k] == p[..k];
    assert q[k] == SLASH;
    SpanIs(q, k);
    if k == |p| {
      assert q[k + 1..] == n;
      SpanIs(n, |n|);
      assert p[..k] == p;
    } else {
      SplitAppend(p[k + 1..], n);
      assert q[k + 1..] == p[k + 1..] + ([SLASH] + n);
      Assoc([p[..k]], Split(p[k + 1..]), [n]);
    }
  }

  lemma Assoc(a: Path, b: Path, c: Path)
    ensures a + (b + c) == a + b + c
  {
  }

  /** One component more on a path without empty components. */
  lemma BelowPath(path: seq<byte>, n: Name)
    requires Strict(path) && n != [] && SLASH !in n
    ensures FullComponents(path + ([SLASH] + n)) == Components(path) + [n]
  {
    hide Split, Span;
    assert path != [] by {
      assert Component(Components(path)[0]);
      EmptySplit();
    }
    assert Strip(path + ([SLASH] + n)) == Strip(path) + ([SLASH] + n);
    SplitAppend(Strip(path), n);
    assert Last(Split(Strip(path)) + [n]) == n;
  }

  lemma EmptySplit()
    ensures Split([]) == [[]]
  {
  }

  predicate Component(n: Name) {
    0 < |n| < MAX_NAME
  }

  /** What resolve_parent accepts: no empty component and none longer than 31 characters. */
  predicate Strict(path: seq<byte>) {
    forall k | 0 <= k < |Components(path)| :: Component(Components(path)[k])
  }

  // ---- what a path string spells ----

  /** Names with a slash between each two. */
  function Join(ns: Path): seq<byte>
    requires ns != []
  {
    if |ns| == 1 then ns[0] else ns[0] + ([SLASH] + Join(ns[1..]))
  }

  predicate SlashFree(ns: Path) {
    forall k | 0 <= k < |ns| :: SLASH !in ns[k]
  }

  /** Splitting loses nothing, and cuts at every slash. */
  lemma {:induction false} JoinSplit(p: seq<byte>)
    ensures Join(Split(p)) == p && SlashFree(Split(p))
    decreases |p|
  {
    hide Span;
    SplitStep(p);
    var n := Span(p);
    if n < |p| {
      var rest := p[n + 1..];
      JoinSplit(rest);
      assert Split(p)[1..] == Split(rest);
      assert p == p[..n] + ([SLASH] + rest);
    } else {
      assert p[..n] == p;
    }
  }

  /** Names without slashes are recovered from what they are joined to. */
  lemma {:induction false} SplitJoin(ns: Path)
    requires ns != [] && SlashFree(ns)
    ensures Split(Join(ns)) == ns
    decreases |ns|
  {
    hide Span;
    var p := Join(ns);
    SplitStep(p);
    if |ns| == 1 {
      SpanIs(p, |p|);
      assert ns == [ns[0]];
    } else {
      var rest := Join(ns[1..]);
      SplitJoin(ns[1..]);
      assert p[..|ns[0]|] == ns[0] && p[|ns[0]|] == SLASH && p[|ns[0]| + 1..] == rest;
      SpanIs(p, |ns[0]|);
      assert ns == [ns[0]] + ns[1..];
    }
  }

  /** One slash in front of a path changes nothing. */
  lemma LeadingSlash(p: seq<byte>)
    requires p == [] || p[0] != SLASH
    ensures Components([SLASH] + p) == Components(p) && FullComponents([SLASH] + p) == FullComponents(p)
    ensures Join(Components(p)) == p
  {
    hide Split;
    assert ([SLASH] + p)[1..] == p;
    JoinSplit(p);
  }

  /** The root is "" or "/" to resolve_full, and neither to resolve_parent. */
  lemma RootSpelling()
    ensures FullComponents([]) == [] && FullComponents([SLASH]) == []
    ensures !Strict([]) && !Strict([SLASH])
  {
    EmptySplit();
    LeadingSlash([]);
    assert [SLASH] + [] == [SLASH];
    assert !Component(Components([])[0]);
    assert !Component(Components([SLASH])[0]);
  }

  /** Names joined by slashes spell exactly those names, with or without a leading slash; resolve_full also allows one
      behind the last name. */
  lemma PathSpelling(ns: Path)
    requires ns != [] && SlashFree(ns) && forall k | 0 <= k < |ns| :: ns[k] != []
    ensures var p := Join(ns);
      Components(p) == ns && Components([SLASH] + p) == ns && FullComponents(p) == ns &&
      FullComponents([SLASH] + p) == ns && FullComponents(p + [SLASH]) == ns &&
      FullComponents([SLASH] + (p + [SLASH])) == ns
  {
    hide Split;
    var p := Join(ns);
    assert p[0] != SLASH by {
      assert p[0] == ns[0][0] && ns[0][0] in ns[0];
    }
    SplitJoin(ns);
    LeadingSlash(p);
    assert p + [SLASH] == p + ([SLASH] + []);
    SplitAppend(p, []);
    LeadingSlash(p + [SLASH]);
    assert Init(ns + [[]]) == ns && Last(ns + [[]]) == [];
    assert Last(ns) != [];
  }

  method ScanComponent(p: seq<byte>) returns (len: nat)
    ensures len == Span(p)
  {
    len := 0;
    while len < |p| && p[len] != SLASH
      invariant len <= |p| && Span(p) == len + Span(p[len..])
    {
      assert p[len..][1..] == p[len + 1..];
      len := len + 1;
    }
  }

  // ---- what walking the entries finds ----

  /** resolve_full's walk from inode `cur`, or -1. */
  function Walk(sb: Super, disk: seq<Block>, cur: nat, cs: Path): int
    decreases |cs|
  {
    if cs == [] then cur else if |cs[0]| >= MAX_NAME then -1 else
      var x := InodeAt(sb, disk, cur);
      var e := FirstHit(disk, x, cs[0], 0);
      if e == ENTRIES then -1 else Walk(sb, disk, RawEnt(disk, x, e).inode, cs[1..])
  }

  predicate NoNul(p: Path) {
    forall k | 0 <= k < |p| :: 0 !in p[k]
  }

  /** In a live directory the search finds exactly the children of its path. */
  lemma SearchFindsChild(sb: Super, disk: seq<Block>, bytes: seq<byte>, g: Plan, p: Path, n: Name)
    requires Formatted(sb, disk, bytes) && Inv(VolOf(sb, disk, bytes), g) && p in g.home && 0 !in n
    requires HomeOk(VolOf(sb, disk, bytes), g, p) && Kind(VolOf(sb, disk, bytes), g.home[p].ino) == DIR
    ensures var x := InodeAt(sb, disk, g.home[p].ino); var e := FirstHit(disk, x, n, 0);
      (e < ENTRIES <==> p + [n] in g.home) &&
      (e < ENTRIES ==> g.home[p + [n]] == Home(RawEnt(disk, x, e).inode, e / DIRENTS_PER_BLOCK, e % DIRENTS_PER_BLOCK))
  {
    hide FirstHit, RawEnt, InodeAt, Ent, Formatted, Matches;
    var v := VolOf(sb, disk, bytes);
    var d := g.home[p].ino;
    DirectoriesAreReady(v, d);
    SearchMeaning(sb, disk, bytes, d, n);
    var e := FirstHit(disk, InodeAt(sb, disk, d), n, 0);
    if e < ENTRIES {
      MatchIsChild(v, g, p, n, e / DIRENTS_PER_BLOCK, e % DIRENTS_PER_BLOCK);
    } else if p + [n] in g.home {
      ChildMatches(v, g, p, n);
    }
  }

  /** Below a live path that has a longer live path under it lies a directory. */
  lemma InnerIsFolder(v: Vol, g: Plan, p: Path, q: Path)
    requires TreeInv(v, g) && q in g.home && p <= q && p != q
    ensures p in g.home && g.home[p].ino < MAX_INODES && Kind(v, g.home[p].ino) == DIR
  {
    var c := q[..|p| + 1];
    PrefixLives(v, g, q, c);
    ParentIsFolder(v, g, c);
    assert Init(c) == p;
  }

  ghost predicate ParentLive(v: Vol, g: Plan, cs: Path) {
    cs != [] && Init(cs) in g.home && g.home[Init(cs)].ino < MAX_INODES && Kind(v, g.home[Init(cs)].ino) == DIR
  }

  ghost predicate FolderAt(v: Vol, g: Plan, p: Path, i: nat) {
    p in g.home && g.home[p].ino == i && i < MAX_INODES && Kind(v, i) == DIR
  }

  /** One step of resolve_parent's walk: into the directory of that name, or -1. */
  method Enter(st: Store, current: nat, c: Name, ghost p: Path) returns (r: int)
    requires st.Mounted() && Inv(st.State(), st.plan) && 0 !in c && FolderAt(st.State(), st.plan, p, current)
    ensures r >= 0 ==> FolderAt(st.State(), st.plan, p + [c], r)
    ensures r < 0 ==> r == -1 && forall q | p + [c] <= q ::
      !(q in st.plan.home && FolderAt(st.State(), st.plan, q, st.plan.home[q].ino))
  {
    hide VolOf, Formatted, FirstHit, RawEnt, InodeAt, BlockInv;
    ghost var v, g := st.State(), st.plan;
    assert HomeOk(v, g, p);
    SearchFindsChild(st.sb, st.disk, st.bitmap[..], g, p, c);
    var found, entry := DirFindIn(st, current, c);
    if !found {
      NotBelow(v, g, p + [c]);
      return -1;
    }
    assert HomeOk(v, g, p + [c]);
    var x := st.InodeRead(entry.inode);
    if x.kind != DIR {
      FileNotAbove(v, g, p + [c]);
      return -1;
    }
    return entry.inode;
  }

  method ResolveParent(st: Store, path: seq<byte>) returns (ok: bool, dir: nat, name: Name)
    requires st.Mounted() && Inv(st.State(), st.plan) && 0 !in path
    ensures ok <==> Strict(path) && ParentLive(st.State(), st.plan, Components(path))
    ensures ok ==> dir == st.plan.home[Init(Components(path))].ino && name == Last(Components(path))
  {
    hide VolOf, Formatted, Inv, Split, Span;
    ghost var v, g, cs := st.State(), st.plan, Components(path);
    RootIsFolder(st.sb, st.disk, st.bitmap[..], g);
    ghost var done: Path := [];
    var current: nat := st.sb.root;
    var p := Strip(path);
    while true
      invariant cs == done + Split(p) && 0 !in p
      invariant forall k | 0 <= k < |done| :: Component(done[k])
      invariant FolderAt(v, g, done, current)
      decreases |p|
    {
      var len := ScanComponent(p);
      var c := p[..len];
      NextComponent(cs, done, p);
      if len == 0 || len >= MAX_NAME {
        return false, 0, [];
      }
      if len == |p| {
        return true, current, c;
      }
      var next := Enter(st, current, c, done);
      if next < 0 {
        return false, 0, [];
      }
      current := next;
      done := done + [c];
      p := p[len + 1..];
    }
  }

  lemma NextComponent(cs: Path, done: Path, p: seq<byte>)
    requires cs == done + Split(p)
    ensures |done| < |cs| && cs[|done|] == p[..Span(p)]
    ensures Span(p) == |p| ==> cs == done + [p[..Span(p)]] && Init(cs) == done
    ensures Span(p) < |p| ==>
      cs == (done + [p[..Span(p)]]) + Split(p[Span(p) + 1..]) && done + [p[..Span(p)]] <= Init(cs)
  {
    hide Span, Split;
    SplitStep(p);
    if Span(p) < |p| {
      FrontOf(done, p[..Span(p)], Split(p[Span(p) + 1..]));
    } else {
      assert p[..Span(p)] == p;
    }
  }

  lemma FrontOf(done: Path, c: Name, rest: Path)
    requires rest != []
    ensures done + ([c] + rest) == (done + [c]) + rest && (done + ([c] + rest))[|done|] == c
    ensures done + [c] <= Init(done + ([c] + rest))
  {
    Assoc(done, [c], rest);
  }

  lemma RootIsFolder(sb: Super, disk: seq<Block>, bytes: seq<byte>, g: Plan)
    requires Formatted(sb, disk, bytes) && Inv(VolOf(sb, disk, bytes), g)
    ensures sb.root == 0 && FolderAt(VolOf(sb, disk, bytes), g, [], sb.root)
  {
    assert HomeOk(VolOf(sb, disk, bytes), g, []);
  }

  lemma NotBelow(v: Vol, g: Plan, p: Path)
    requires TreeInv(v, g) && p !in g.home
    ensures forall q | p <= q :: q !in g.home
  {
    forall q | p <= q && q in g.home
      ensures false
    {
      PrefixLives(v, g, q, p);
    }
  }

  lemma FileNotAbove(v: Vol, g: Plan, p: Path)
    requires TreeInv(v, g) && p in g.home && g.home[p].ino < MAX_INODES && Kind(v, g.home[p].ino) != DIR
    ensures forall q | p <= q :: !(q in g.home && FolderAt(v, g, q, g.home[q].ino))
  {
    forall q | p <= q && q in g.home && p != q
      ensures false
    {
      InnerIsFolder(v, g, p, q);
    }
  }

  method ResolveFull(st: Store, path: seq<byte>) returns (r: int)
    ensures r == Walk(st.sb, st.disk, st.sb.root, FullComponents(path))
  {
    hide FirstHit, RawEnt, InodeAt;
    ghost var goal := Walk(st.sb, st.disk, st.sb.root, FullComponents(path));
    var p := Strip(path);
    var current: nat := st.sb.root;
    while p != []
      invariant goal == Walk(st.sb, st.disk, current, Lenient(p))
      decreases |p|
    {
      LenientStep(p);
      var len := ScanComponent(p);
      var c := p[..len];
      assert c == Lenient(p)[0];
      if len >= MAX_NAME {
        return -1;
      }
      var found, entry := DirFindIn(st, current, c);
      if !found {
        return -1;
      }
      current := entry.inode;
      p := p[if len < |p| then len + 1 else len..];
    }
    return current;
  }
}
