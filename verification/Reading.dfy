/** resolve_full, nfs_is_dir_path, nfs_exists_path and nfs_read_path against the tree of paths. */
module Reading {
  import opened Bytes
  import opened Layout
  import opened Volume
  import opened Image
  import opened Store
  import opened Trees
  import opened Directory
  import opened Paths
  import opened Creating
  import opened Files

  // ---- resolve_full, which checks no types, and the tree ----

  /** No component but the last names a file. */
  ghost predicate Plain(t: map<Path, Node>, cs: Path) {
    forall k | 0 <= k < |cs| :: cs[..k] in t ==> t[cs[..k]] == Folder
  }

  ghost predicate FoldersAlong(v: Vol, g: Plan, p: Path, cs: Path) {
    forall k | 0 <= k < |cs| :: p + cs[..k] in g.home ==> FolderAt(v, g, p + cs[..k], g.home[p + cs[..k]].ino)
  }

  /** Where no file is walked through, the walk finds exactly the paths of the tree. */
  lemma {:induction false} WalkFinds(sb: Super, disk: seq<Block>, bytes: seq<byte>, g: Plan, p: Path, cs: Path)
    requires Formatted(sb, disk, bytes) && Inv(VolOf(sb, disk, bytes), g) && p in g.home && NoNul(cs)
    requires FoldersAlong(VolOf(sb, disk, bytes), g, p, cs)
    ensures Walk(sb, disk, g.home[p].ino, cs) == if p + cs in g.home then g.home[p + cs].ino else -1
    decreases |cs|
  {
    hide VolOf, Formatted, FirstHit, RawEnt, InodeAt, BlockInv, TreeInv;
    var v := VolOf(sb, disk, bytes);
    if cs == [] {
      assert p + cs == p;
    } else {
      var c, q := cs[0], p + [cs[0]];
      assert p + cs[..0] == p;
      assert q + cs[1..] == p + cs;
      assert FolderAt(v, g, p, g.home[p].ino);
      assert 0 !in c;
      LiveHome(v, g, p);
      if |c| >= MAX_NAME {
        LongName(v, g, p, c);
        NothingBelow(v, g, q, p + cs);
      } else {
        SearchFindsChild(sb, disk, bytes, g, p, c);
        if q in g.home {
          AlongTail(v, g, p, cs);
          assert NoNul(cs[1..]) by {
            assert forall k | 0 <= k < |cs| - 1 :: cs[1..][k] == cs[k + 1];
          }
          WalkFinds(sb, disk, bytes, g, q, cs[1..]);
        } else {
          NothingBelow(v, g, q, p + cs);
        }
      }
    }
  }

  lemma AlongTail(v: Vol, g: Plan, p: Path, cs: Path)
    requires cs != [] && FoldersAlong(v, g, p, cs)
    ensures FoldersAlong(v, g, p + [cs[0]], cs[1..])
  {
    forall k | 0 <= k < |cs| - 1
      ensures (p + [cs[0]]) + cs[1..][..k] == p + cs[..k + 1]
    {
      assert [cs[0]] + cs[1..][..k] == cs[..k + 1];
    }
  }

  lemma LiveHome(v: Vol, g: Plan, p: Path)
    requires Inv(v, g) && p in g.home
    ensures HomeOk(v, g, p)
  {
  }

  lemma LongName(v: Vol, g: Plan, p: Path, c: Name)
    requires Inv(v, g) && |c| >= MAX_NAME
    ensures p + [c] !in g.home
  {
    assert Last(p + [c]) == c;
    assert p + [c] in g.home ==> HomeOk(v, g, p + [c]);
  }

  lemma NothingBelow(v: Vol, g: Plan, q: Path, p: Path)
    requires Inv(v, g) && q !in g.home && q <= p
    ensures p !in g.home
  {
    NotBelow(v, g, q);
  }

  lemma PlainIsAlong(v: Vol, g: Plan, cs: Path)
    requires Inv(v, g) && Plain(Tree(v, g), cs)
    ensures FoldersAlong(v, g, [], cs)
  {
    TreeKeys(v, g);
    hide Tree;
    forall k | 0 <= k < |cs| && [] + cs[..k] in g.home
      ensures FolderAt(v, g, [] + cs[..k], g.home[[] + cs[..k]].ino)
    {
      assert [] + cs[..k] == cs[..k];
      NodeKind(v, g, cs[..k]);
    }
  }

  lemma FullNoNul(path: seq<byte>)
    requires 0 !in path
    ensures NoNul(FullComponents(path))
  {
    forall k | 0 <= k < |FullComponents(path)|
      ensures 0 !in FullComponents(path)[k]
    {
      SplitNoNul(Strip(path), k);
    }
  }

  /** resolve_full on a path that walks through no file: the inode of the path, or -1 when there is none. */
  method Resolve(st: Store, path: seq<byte>) returns (r: int)
    requires Good(st) && 0 !in path
    ensures r == Walk(st.sb, st.disk, st.sb.root, FullComponents(path))
    ensures Plain(TreeOf(st), FullComponents(path)) ==>
      r == if FullComponents(path) in st.plan.home then st.plan.home[FullComponents(path)].ino else -1
  {
    hide VolOf, Formatted, BlockInv, TreeInv, Walk, FullComponents, Tree;
    ghost var v, g, cs := st.State(), st.plan, FullComponents(path);
    RootIsFolder(st.sb, st.disk, st.bitmap[..], g);
    FullNoNul(path);
    if Plain(Tree(v, g), cs) {
      PlainIsAlong(v, g, cs);
      WalkFinds(st.sb, st.disk, st.bitmap[..], g, [], cs);
      assert [] + cs == cs;
    }
    r := ResolveFull(st, path);
  }

  /** Path resolution agreement: where resolve_parent accepts a path and finds its last component, resolve_full gives
      the same inode. */
  lemma ResolutionsAgree(sb: Super, disk: seq<Block>, bytes: seq<byte>, g: Plan, path: seq<byte>)
    requires Formatted(sb, disk, bytes) && Inv(VolOf(sb, disk, bytes), g) && 0 !in path
    requires Strict(path) && ParentLive(VolOf(sb, disk, bytes), g, Components(path))
    ensures Walk(sb, disk, sb.root, FullComponents(path))
         == if Components(path) in g.home then g.home[Components(path)].ino else -1
  {
    hide VolOf, Formatted, Walk, BlockInv, TreeInv, FullComponents, Components;
    var v, cs := VolOf(sb, disk, bytes), Components(path);
    StrictIsFull(path);
    FullNoNul(path);
    RootIsFolder(sb, disk, bytes, g);
    forall k | 0 <= k < |cs| && [] + cs[..k] in g.home
      ensures FolderAt(v, g, [] + cs[..k], g.home[[] + cs[..k]].ino)
    {
      AboveParent(v, g, cs, k);
    }
    WalkFinds(sb, disk, bytes, g, [], cs);
    assert [] + cs == cs;
  }

  lemma AboveParent(v: Vol, g: Plan, cs: Path, k: nat)
    requires Inv(v, g) && ParentLive(v, g, cs) && k < |cs|
    ensures [] + cs[..k] in g.home && FolderAt(v, g, [] + cs[..k], g.home[[] + cs[..k]].ino)
  {
    assert [] + cs[..k] == cs[..k];
    if k < |cs| - 1 {
      InnerIsFolder(v, g, cs[..k], Init(cs));
    }
  }

  // ---- reading ----

  /** get_inode_block: the pointer to logical block `index`, read straight off the disk. */
  function RawPtr(disk: seq<Block>, x: Inode, index: nat): u32 {
    if index < DIRECT then x.blocks[index]
    else if x.indirect == 0 || index - DIRECT >= INDIRECT then 0
    else PtrAt(DiskRead(disk, x.indirect), index - DIRECT)
  }

  method GetInodeBlock(st: Store, x: Inode, index: nat) returns (blk: u32)
    ensures blk == RawPtr(st.disk, x, index)
  {
    if index < DIRECT {
      return x.blocks[index];
    }
    if x.indirect == 0 {
      return 0;
    }
    var buf := st.BlockRead(x.indirect);
    if index - DIRECT >= INDIRECT {
      return 0;
    }
    return PtrAt(buf, index - DIRECT);
  }

  function RawByte(disk: seq<Block>, x: Inode, j: nat): byte {
    DiskRead(disk, RawPtr(disk, x, j / BLOCK_SIZE))[j % BLOCK_SIZE]
  }

  /** Logical blocks 0 to `b` all exist. */
  predicate NoHole(disk: seq<Block>, x: Inode, b: nat) {
    forall c | 0 <= c <= b :: RawPtr(disk, x, c) != 0
  }

  /** Copies the first `to_read` bytes of a file into the caller's buffer, stopping at a missing block. */
  method ReadInode(st: Store, x: Inode, buf: array<byte>, to_read: nat)
    requires to_read <= buf.Length
    modifies buf
    ensures forall j | 0 <= j < buf.Length ::
      buf[j] == if j < to_read && NoHole(st.disk, x, j / BLOCK_SIZE) then RawByte(st.disk, x, j) else old(buf[j])
  {
    hide RawPtr, DiskRead;
    var b := 0;
    while b < BlocksFor(to_read)
      invariant 0 <= b <= BlocksFor(to_read) && forall c | 0 <= c < b :: RawPtr(st.disk, x, c) != 0
      invariant forall j | 0 <= j < buf.Length ::
        buf[j] == if j < to_read && j < b * BLOCK_SIZE then RawByte(st.disk, x, j) else old(buf[j])
    {
      var blk := GetInodeBlock(st, x, b);
      if blk == 0 {
        break;
      }
      var tmp := st.BlockRead(blk);
      var off := b * BLOCK_SIZE;
      var chunk := if to_read - off < BLOCK_SIZE then to_read - off else BLOCK_SIZE;
      ghost var was := buf[..];
      forall j | 0 <= j < chunk {
        buf[off + j] := tmp[j];
      }
      forall j | 0 <= j < buf.Length
        ensures buf[j] == if off <= j < off + chunk then RawByte(st.disk, x, j) else was[j]
      {
        if off <= j < off + chunk {
          assert buf[off + (j - off)] == tmp[j - off] && j / BLOCK_SIZE == b;
        }
      }
      b := b + 1;
    }
  }

  lemma LivePtr(sb: Super, disk: seq<Block>, bytes: seq<byte>, i: nat, b: nat)
    requires Formatted(sb, disk, bytes) && BlockInv(VolOf(sb, disk, bytes)) && i < MAX_INODES && b < DIRECT + INDIRECT
    ensures RawPtr(disk, InodeAt(sb, disk, i), b) == Ptr(VolOf(sb, disk, bytes), i, FileSlot(b))
  {
    hide VolOf, Formatted, InodeAt;
    var v := VolOf(sb, disk, bytes);
    VolInode(sb, disk, bytes, i);
    var x := v.inodes[i];
    assert Ptr(v, i, DIRECT) == x.indirect;
    if b >= DIRECT && x.indirect != 0 {
      VolBlock(sb, disk, bytes, x.indirect);
    }
  }

  lemma LiveByte(sb: Super, disk: seq<Block>, bytes: seq<byte>, i: nat, j: nat)
    requires Formatted(sb, disk, bytes) && BlockInv(VolOf(sb, disk, bytes)) && i < MAX_INODES
    requires FileShape(VolOf(sb, disk, bytes), i) && j < VolOf(sb, disk, bytes).inodes[i].size
    ensures RawPtr(disk, InodeAt(sb, disk, i), j / BLOCK_SIZE) != 0
    ensures RawByte(disk, InodeAt(sb, disk, i), j) == Content(VolOf(sb, disk, bytes), i)[j]
  {
    hide VolOf, Formatted, InodeAt, RawPtr, DiskRead;
    var v := VolOf(sb, disk, bytes);
    var b := j / BLOCK_SIZE;
    LivePtr(sb, disk, bytes, i, b);
    assert Uses(BlocksFor(v.inodes[i].size), FileSlot(b));
    VolBlock(sb, disk, bytes, Ptr(v, i, FileSlot(b)));
  }

  function Least(a: nat, b: nat): nat {
    if a < b then a else b
  }

  /** A file is read from its start into the buffer, as far as it and `maxlen` go; anything else gives -1. */
  ghost predicate ReadResult(t: map<Path, Node>, cs: Path, before: seq<byte>, after: seq<byte>, maxlen: nat, r: int) {
    && |after| == |before|
    && if cs in t && t[cs].File? then
         && r == Least(|t[cs].bytes|, maxlen) <= |after|
         && after[..r] == t[cs].bytes[..r] && after[r..] == before[r..]
       else r == -1 && after == before
  }

  /** What the inode that the walk ended at gives, whatever it is. */
  ghost predicate RawRead(disk: seq<Block>, x: Inode, before: seq<byte>, after: seq<byte>, maxlen: nat, r: int) {
    && |after| == |before|
    && if x.kind != FILE then r == -1 && after == before
       else
         && r == Least(x.size, maxlen)
         && forall j | 0 <= j < |after| ::
              after[j] == if j < r && NoHole(disk, x, j / BLOCK_SIZE) then RawByte(disk, x, j) else before[j]
  }

  /** On a path through folders only, the tree decides; on any other, the entries that the walk meets. */
  method ReadPath(st: Store, path: seq<byte>, buf: array<byte>, maxlen: nat) returns (r: int)
    requires Good(st) && 0 !in path && maxlen <= buf.Length && buf != st.bitmap
    modifies buf
    ensures Good(st) && st.State() == old(st.State())
    ensures Plain(old(TreeOf(st)), FullComponents(path)) ==>
      ReadResult(old(TreeOf(st)), FullComponents(path), old(buf[..]), buf[..], maxlen, r)
    ensures var i := Walk(st.sb, st.disk, st.sb.root, FullComponents(path));
      if i < 0 then r == -1 && buf[..] == old(buf[..])
      else RawRead(st.disk, InodeAt(st.sb, st.disk, i), old(buf[..]), buf[..], maxlen, r)
  {
    hide VolOf, Formatted, BlockInv, TreeInv, Tree, Walk, FullComponents, InodeAt, RawByte, RawPtr, Content, Plain,
      NoHole;
    ghost var v, g, cs := st.State(), st.plan, FullComponents(path);
    ghost var before := buf[..];
    TreeKeys(v, g);
    var i := Resolve(st, path);
    if i < 0 {
      return -1;
    }
    if Plain(Tree(v, g), cs) {
      NodeKind(v, g, cs);
    }
    var x := st.InodeRead(i);
    if x.kind != FILE {
      return -1;
    }
    r := Least(x.size, maxlen);
    ReadInode(st, x, buf, r);
    if Plain(Tree(v, g), cs) {
      LiveBytes(st.sb, st.disk, st.bitmap[..], i, r);
      WholeFile(st.disk, x, r);
      assert buf[..][..r] == Content(v, i)[..r];
      assert buf[..][r..] == before[r..];
    }
  }

  lemma WholeFile(disk: seq<Block>, x: Inode, n: nat)
    requires forall b | 0 <= b < BlocksFor(n) :: RawPtr(disk, x, b) != 0
    ensures forall j | 0 <= j < n :: NoHole(disk, x, j / BLOCK_SIZE)
  {
    hide RawPtr;
    forall j | 0 <= j < n
      ensures NoHole(disk, x, j / BLOCK_SIZE)
    {
      assert j / BLOCK_SIZE < BlocksFor(n);
    }
  }

  lemma LiveBytes(sb: Super, disk: seq<Block>, bytes: seq<byte>, i: nat, n: nat)
    requires Formatted(sb, disk, bytes) && BlockInv(VolOf(sb, disk, bytes)) && i < MAX_INODES
    requires FileShape(VolOf(sb, disk, bytes), i) && n <= VolOf(sb, disk, bytes).inodes[i].size
    ensures forall b | 0 <= b < BlocksFor(n) :: RawPtr(disk, InodeAt(sb, disk, i), b) != 0
    ensures forall j | 0 <= j < n :: RawByte(disk, InodeAt(sb, disk, i), j) == Content(VolOf(sb, disk, bytes), i)[j]
  {
    hide VolOf, Formatted, InodeAt, RawPtr, RawByte, Content, BlockInv;
    forall b | 0 <= b < BlocksFor(n)
      ensures RawPtr(disk, InodeAt(sb, disk, i), b) != 0
    {
      LiveByte(sb, disk, bytes, i, b * BLOCK_SIZE);
    }
    forall j | 0 <= j < n
      ensures RawByte(disk, InodeAt(sb, disk, i), j) == Content(VolOf(sb, disk, bytes), i)[j]
    {
      LiveByte(sb, disk, bytes, i, j);
    }
  }

  method IsDirPath(st: Store, path: seq<byte>) returns (r: bool)
    requires Good(st) && 0 !in path
    ensures Plain(TreeOf(st), FullComponents(path)) ==>
      (r <==> FullComponents(path) in TreeOf(st) && TreeOf(st)[FullComponents(path)] == Folder)
    ensures var i := Walk(st.sb, st.disk, st.sb.root, FullComponents(path));
      r <==> i >= 0 && InodeAt(st.sb, st.disk, i).kind == DIR
  {
    hide VolOf, Formatted, BlockInv, TreeInv, Tree, Walk, FullComponents, InodeAt, Plain;
    ghost var v, g, cs := st.State(), st.plan, FullComponents(path);
    TreeKeys(v, g);
    var i := Resolve(st, path);
    if i < 0 {
      return false;
    }
    if Plain(Tree(v, g), cs) {
      NodeKind(v, g, cs);
    }
    var x := st.InodeRead(i);
    r := x.kind == DIR;
  }

  method ExistsPath(st: Store, path: seq<byte>) returns (r: bool)
    requires Good(st) && 0 !in path
    ensures Plain(TreeOf(st), FullComponents(path)) ==> (r <==> FullComponents(path) in TreeOf(st))
    ensures r <==> Walk(st.sb, st.disk, st.sb.root, FullComponents(path)) >= 0
  {
    hide VolOf, Formatted, BlockInv, TreeInv, Tree, Walk, FullComponents, Plain;
    TreeKeys(st.State(), st.plan);
    var i := Resolve(st, path);
    r := i >= 0;
  }

  // ---- where resolve_full and the tree part ways ----

  lemma {:induction false} WalkConcat(sb: Super, disk: seq<Block>, cur: nat, a: Path, b: Path)
    ensures Walk(sb, disk, cur, a + b) == if Walk(sb, disk, cur, a) < 0 then -1
      else Walk(sb, disk, Walk(sb, disk, cur, a), b)
    decreases |a|
  {
    hide FirstHit, RawEnt, InodeAt;
    if a == [] {
      assert a + b == b;
    } else {
      var x := InodeAt(sb, disk, cur);
      var e := FirstHit(disk, x, a[0], 0);
      assert (a + b)[1..] == a[1..] + b;
      if |a[0]| < MAX_NAME && e < ENTRIES {
        WalkConcat(sb, disk, RawEnt(disk, x, e).inode, a[1..], b);
      }
    }
  }

  /** A live path is found from the root, so a longer one is walked on from there. */
  lemma WalkPast(sb: Super, disk: seq<Block>, bytes: seq<byte>, g: Plan, p: Path, cs: Path)
    requires Formatted(sb, disk, bytes) && Inv(VolOf(sb, disk, bytes), g) && p in g.home
    ensures Walk(sb, disk, sb.root, p + cs) == Walk(sb, disk, g.home[p].ino, cs)
  {
    hide VolOf, Formatted, Walk, BlockInv;
    var v := VolOf(sb, disk, bytes);
    RootIsFolder(sb, disk, bytes, g);
    forall k | 0 <= k < |p| && [] + p[..k] in g.home
      ensures FolderAt(v, g, [] + p[..k], g.home[[] + p[..k]].ino)
    {
      assert [] + p[..k] == p[..k];
      InnerIsFolder(v, g, p[..k], p);
    }
    forall k | 0 <= k < |p|
      ensures 0 !in p[k]
    {
      PrefixLives(v, g, p, p[..k + 1]);
      LiveHome(v, g, p[..k + 1]);
    }
    WalkFinds(sb, disk, bytes, g, [], p);
    assert [] + p == p;
    WalkConcat(sb, disk, sb.root, p, cs);
  }

  /** The inode's direct blocks, read as entries, hold a used one of that name. */
  ghost predicate Spells(disk: seq<Block>, x: Inode, n: Name) {
    exists e | 0 <= e < ENTRIES :: Hit(RawEnt(disk, x, e), n)
  }

  /**
   * resolve_full takes the bytes of a file for entries: a path one below a file is never in the
   * tree, and is found exactly when the file's direct blocks happen to hold a used entry of that name.
   */
  lemma WalkThroughFile(sb: Super, disk: seq<Block>, bytes: seq<byte>, g: Plan, p: Path, n: Name)
    requires Formatted(sb, disk, bytes) && Inv(VolOf(sb, disk, bytes), g) && p in g.home
    requires HomeOk(VolOf(sb, disk, bytes), g, p) && Kind(VolOf(sb, disk, bytes), g.home[p].ino) == FILE
    ensures p + [n] !in g.home
    ensures Walk(sb, disk, sb.root, p + [n]) >= 0
      <==> |n| < MAX_NAME && Spells(disk, InodeAt(sb, disk, g.home[p].ino), n)
  {
    hide VolOf, Formatted, FirstHit, RawEnt, InodeAt, BlockInv, Hit;
    var v := VolOf(sb, disk, bytes);
    var x := InodeAt(sb, disk, g.home[p].ino);
    WalkPast(sb, disk, bytes, g, p, [n]);
    if p + [n] in g.home {
      InnerIsFolder(v, g, p, p + [n]);
    }
    var e := FirstHit(disk, x, n, 0);
    if e < ENTRIES {
      assert Walk(sb, disk, RawEnt(disk, x, e).inode, [n][1..]) >= 0;
    } else {
      forall f | 0 <= f < ENTRIES
        ensures !Hit(RawEnt(disk, x, f), n)
      {
        FirstHitMisses(disk, x, n, 0, f);
      }
    }
  }

  predicate BelowFile(t: map<Path, Node>, cs: Path) {
    cs != [] && Init(cs) in t && t[Init(cs)].File?
  }

  /** The file above the last component spells an entry of its name. */
  ghost predicate Spelled(st: Store, cs: Path)
    requires st.Mounted() && cs != []
    reads st, st.bitmap
  {
    && |Last(cs)| < MAX_NAME && Init(cs) in st.plan.home && st.plan.home[Init(cs)].ino < MAX_INODES
    && Spells(st.disk, InodeAt(st.sb, st.disk, st.plan.home[Init(cs)].ino), Last(cs))
  }

  /** nfs_exists_path on a path string one below a file. */
  method ExistsBelowFile(st: Store, path: seq<byte>) returns (r: bool)
    requires Good(st) && 0 !in path && BelowFile(TreeOf(st), FullComponents(path))
    ensures FullComponents(path) !in TreeOf(st)
    ensures r <==> Spelled(st, FullComponents(path))
  {
    hide VolOf, Formatted, BlockInv, TreeInv, Tree, Walk, FullComponents, Plain, InodeAt, Spells;
    ghost var cs := FullComponents(path);
    TreeKeys(st.State(), st.plan);
    NodeKind(st.State(), st.plan, Init(cs));
    LiveHome(st.State(), st.plan, Init(cs));
    WalkThroughFile(st.sb, st.disk, st.bitmap[..], st.plan, Init(cs), Last(cs));
    assert Init(cs) + [Last(cs)] == cs;
    r := ExistsPath(st, path);
  }

  /** A concrete such file: 37 bytes that spell an entry. */
  lemma CraftedFile(sb: Super, disk: seq<Block>, bytes: seq<byte>, g: Plan, p: Path, n: Name, target: u32)
    requires Formatted(sb, disk, bytes) && Inv(VolOf(sb, disk, bytes), g) && p in g.home && ValidName(n)
    requires HomeOk(VolOf(sb, disk, bytes), g, p) && Kind(VolOf(sb, disk, bytes), g.home[p].ino) == FILE
    requires FileShape(VolOf(sb, disk, bytes), g.home[p].ino)
    requires Content(VolOf(sb, disk, bytes), g.home[p].ino) == EncodeDirent(NewEntry(n, target))
    ensures p + [n] !in g.home && Walk(sb, disk, sb.root, p + [n]) >= 0
  {
    hide VolOf, Formatted, InodeAt, BlockInv, EncodeDirent, NameField, Walk, Matches, FileShape, Record, DiskRead,
      Content;
    var v, i := VolOf(sb, disk, bytes), g.home[p].ino;
    var x := InodeAt(sb, disk, i);
    FirstRecord(sb, disk, bytes, i);
    DirentRoundTrip(NewEntry(n, target));
    assert RawEnt(disk, x, 0) == NewEntry(n, target);
    MatchesOwnField(n, n);
    assert Hit(RawEnt(disk, x, 0), n);
    WalkThroughFile(sb, disk, bytes, g, p, n);
  }

  lemma FirstRecord(sb: Super, disk: seq<Block>, bytes: seq<byte>, i: nat)
    requires Formatted(sb, disk, bytes) && BlockInv(VolOf(sb, disk, bytes)) && i < MAX_INODES
    requires FileShape(VolOf(sb, disk, bytes), i) && |Content(VolOf(sb, disk, bytes), i)| == DIRENT_SIZE
    ensures InodeAt(sb, disk, i).blocks[0] != 0
    ensures Record(DiskRead(disk, InodeAt(sb, disk, i).blocks[0]), DIRENT_SIZE, 0) == Content(VolOf(sb, disk, bytes), i)
  {
    hide VolOf, Formatted, InodeAt, Record, DiskRead;
    var v := VolOf(sb, disk, bytes);
    VolInode(sb, disk, bytes, i);
    var y := v.inodes[i].blocks[0];
    assert Ptr(v, i, 0) == y && Uses(1, 0);
    VolBlock(sb, disk, bytes, y);
    CraftedBytes(v, i, DiskRead(disk, y));
  }

  lemma CraftedBytes(v: Vol, i: nat, blk: Block)
    requires i < MAX_INODES && v.inodes[i].size == DIRENT_SIZE && BlockAt(v, Ptr(v, i, 0)) == blk
    ensures Record(blk, DIRENT_SIZE, 0) == Content(v, i)
  {
    forall j | 0 <= j < DIRENT_SIZE
      ensures Record(blk, DIRENT_SIZE, 0)[j] == Content(v, i)[j]
    {
      assert j / BLOCK_SIZE == 0 && j % BLOCK_SIZE == j;
    }
  }
}
