/** Short programs on a freshly formatted disk that end where the code and what one would expect of it part. */
module Scenarios {
  import opened Bytes
  import opened Layout
  import opened Volume
  import opened Image
  import opened Store
  import opened Directory
  import opened Paths
  import opened Trees
  import opened Space
  import opened Creating
  import opened Files
  import opened Reading
  import opened Removing
  import opened Renaming
  import opened Mounting

  const A: Name := [97]
  const B: Name := [98]

  // ---- a fresh disk ----

  lemma PlainPath(n: Name)
    requires Component(n) && SLASH !in n
    ensures Components(n) == [n] && FullComponents(n) == [n] && Strict(n)
  {
    SpanIs(n, |n|);
    assert Strip(n) == n;
  }

  lemma RootPath()
    ensures FullComponents([]) == []
  {
  }

  lemma DataCount(sb: Super, disk: seq<Block>, bytes: seq<byte>)
    requires Formatted(sb, disk, bytes)
    ensures |VolOf(sb, disk, bytes).data| == sb.totalBlocks - sb.dataStart
  {
  }

  lemma AllFree(sb: Super, disk: seq<Block>, bytes: seq<byte>)
    requires Formatted(sb, disk, bytes) && Pristine(VolOf(sb, disk, bytes))
    ensures Free(VolOf(sb, disk, bytes)) == sb.totalBlocks - sb.dataStart
  {
    hide VolOf, Pristine, Formatted;
    VolBitCount(sb, disk, bytes);
    PristineIsFree(VolOf(sb, disk, bytes));
  }

  /** The first entry of a fresh disk takes one block. */
  lemma FirstEntry(v: Vol, n: Name)
    requires Inv(v, ROOT_PLAN) && Pristine(v) && Free(v) > 0 && Component(n) && SLASH !in n &&
      Tree(v, ROOT_PLAN) == map[[] := Folder]
    ensures !Refused(v, ROOT_PLAN, n) && Growth(v, ParentIno(ROOT_PLAN, Components(n))) == 1
  {
    hide BlockInv, Tree, Components, Free;
    PlainPath(n);
    assert Init([n]) == [];
    assert HomeOk(v, ROOT_PLAN, []);
    assert Kind(v, 1) == FREE;
    hide TreeInv, NoRoom;
    NoRoomExactly(v, ROOT_PLAN, []);
  }

  ghost predicate Room(st: Store, sectors: u32, blocks: nat)
    reads st
  {
    && MetaBlocks(sectors / SECTORS_PER_BLOCK) + blocks <= sectors / SECTORS_PER_BLOCK <= |st.disk|
    && 1 <= st.inodeCursor <= MAX_INODES
  }

  function DataBlocks(sectors: u32): int {
    sectors / SECTORS_PER_BLOCK - MetaBlocks(sectors / SECTORS_PER_BLOCK)
  }

  /** Formats a disk and makes one entry. */
  method FirstMake(st: Store, sectors: u32, n: Name, kind: byte)
    requires Room(st, sectors, 1) && Component(n) && 0 !in n && SLASH !in n && (kind == FILE || kind == DIR)
    modifies st
    ensures Good(st) && fresh(st.bitmap) && TreeOf(st) == map[[] := Folder][[n] := NewNode(kind)]
    ensures st.plan.lost == {} && Free(st.State()) == DataBlocks(sectors) - 1
    ensures st.sb.totalBlocks - st.sb.dataStart == DataBlocks(sectors)
  {
    hide VolOf, Formatted, BlockInv, TreeInv, Tree, Components, Refused, Free, Pristine, MetaBlocks, Growth, Grew;
    Format(st, sectors);
    AllFree(st.sb, st.disk, st.bitmap[..]);
    FirstEntry(st.State(), n);
    PlainPath(n);
    ghost var v, g := st.State(), st.plan;
    var r := MakePath(st, n, kind);
    KeptAfter(v, st.State(), g, Components(n), r, kind);
  }

  // ---- a folder moved into itself ----

  lemma IntoItself(v: Vol, g: Plan, w: Vol, g': Plan, ok: bool)
    requires Inv(v, g) && Tree(v, g) == map[[] := Folder][[A] := Folder] && g.lost == {} && Free(v) > 0
    requires MoveResult(v, g, w, g', [], A, [A], ok)
    ensures ok && Inv(w, g') && Tree(w, g') == map[[] := Folder] && g'.lost != {}
  {
    hide BlockInv, Leaked, Grew, Free, NoRoom;
    TreeKeys(v, g);
    NodeKind(v, g, [A]);
    NoRoomExactly(v, g, [A]);
    assert [] + [A] == [A];
    assert Without(Tree(v, g), [A]) == map[[] := Folder];
    assert HomeOk(v, g, [A]);
    assert g.home[[A]].ino in Below(g, [A]);
  }

  /** mkdir a; move a into a: the call reports success, and the folder is gone from the tree with its inode still in
      use. */
  method MoveIntoItself(st: Store, sectors: u32) returns (ok: bool)
    requires Room(st, sectors, 2)
    modifies st
    ensures Good(st) && ok && TreeOf(st) == map[[] := Folder]
    ensures exists i | i in st.plan.lost :: i < MAX_INODES && Kind(st.State(), i) != FREE
  {
    hide VolOf, Formatted, BlockInv, TreeInv, Tree, FullComponents, Free, MetaBlocks, MoveResult;
    FirstMake(st, sectors, A, DIR);
    RootPath();
    PlainPath(A);
    assert Plain(TreeOf(st), [A]) by {
      assert [A][..0] == [];
    }
    ghost var v, g := st.State(), st.plan;
    ok := MovePath(st, [], A, A);
    IntoItself(v, g, st.State(), st.plan, ok);
    LostInUse(st.State(), st.plan);
  }

  lemma LostInUse(v: Vol, g: Plan)
    requires Inv(v, g)
    ensures forall i | i in g.lost :: i < MAX_INODES && Kind(v, i) != FREE
  {
    forall i | i in g.lost
      ensures i < MAX_INODES && Kind(v, i) != FREE
    {
      assert InoOk(v, g, i);
    }
  }

  // ---- a rename to a name that is too long ----

  const CUT: Name := seq(31, _ => 97)
  const LONG: Name := seq(32, _ => 97)

  lemma CutIsShort()
    ensures CutName(LONG) == CUT && Component(CUT) && Component(B) && B != CUT
    ensures 0 !in CUT && SLASH !in CUT && 0 !in LONG && |LONG| == 32
  {
  }

  /** With one path besides the root, some inode is free. */
  lemma SpareInode(v: Vol, g: Plan, n: Name)
    requires Inv(v, g) && g.lost == {} && g.home.Keys == {[], [n]}
    ensures !InodesTaken(v)
  {
    var i := if g.home[[n]].ino == 1 then 2 else 1;
    assert HomeOk(v, g, []);
    assert InoOk(v, g, i);
  }

  lemma SecondEntry(v: Vol, g: Plan, n: Name, m: Name)
    requires Inv(v, g) && Tree(v, g) == map[[] := Folder][[n] := File([])] && g.lost == {} && Free(v) > 0
    requires Component(m) && SLASH !in m && n != m
    ensures !Refused(v, g, m)
  {
    hide BlockInv, Tree, Components, Free, NoRoom, InodesTaken, Tree;
    TreeKeys(v, g);
    PlainPath(m);
    assert Init([m]) == [];
    assert [n] != [m] by {
      assert [n][0] != [m][0];
    }
    assert HomeOk(v, g, []);
    SpareInode(v, g, n);
    NoRoomExactly(v, g, []);
  }

  /** Two files, one of a 31-letter name; renaming the other to that name and one letter more gives the folder two
      entries of the 31-letter name, and no tree fits the disk. */
  method RenameToTwin(st: Store, sectors: u32) returns (ok: bool)
    requires Room(st, sectors, 2)
    modifies st
    ensures ok && st.Mounted() && TwoOfOneName(st.State(), 0, CUT) && !Sound(st.State())
  {
    hide VolOf, Formatted, BlockInv, TreeInv, Tree, FullComponents, Components, Free, MetaBlocks, Refused, CutName,
      Sound, TwoOfOneName;
    CutIsShort();
    FirstMake(st, sectors, CUT, FILE);
    SecondEntry(st.State(), st.plan, CUT, B);
    PlainPath(B);
    var r := MakePath(st, B, FILE);
    RootPath();
    RootIno(st.State(), st.plan);
    assert [] + [CUT] == [CUT] && [] + [B] == [B];
    ok := RenamePath(st, [], B, LONG);
  }

  lemma RootIno(v: Vol, g: Plan)
    requires Inv(v, g)
    ensures [] in g.home && g.home[[]].ino == 0
  {
    assert HomeOk(v, g, []);
  }

  // ---- a write that does not fit ----

  lemma OneBlock()
    ensures BlocksFor(1) == 1 && BlocksFor(0) == 0 && BlocksFor(BLOCK_SIZE + 1) == 2 && Extra(1, 2) == 1 &&
      Extra(0, 1) == 1
  {
  }

  /** The folder's block and the file's block are the only two of the disk. */
  lemma BothTaken(v: Vol, g: Plan, x: byte)
    requires Inv(v, g) && Tree(v, g) == map[[] := Folder][[A] := File([x])] && |v.data| == 2
    ensures Free(v) == 0
  {
    hide DirentAt;
    TreeKeys(v, g);
    assert HomeOk(v, g, [A]) && HomeOk(v, g, []);
    NodeKind(v, g, [A]);
    assert Init([A]) == [];
    var i, b := g.home[[A]].ino, g.home[[A]].b;
    assert Ptr(v, 0, b) != 0;
    assert v.inodes[i].size == 1;
    assert Uses(BlocksFor(1), 0);
    assert Ptr(v, i, 0) != 0;
    assert Ptr(v, i, 0) != Ptr(v, 0, b);
    assert Bit(v, Ptr(v, i, 0)) && Bit(v, Ptr(v, 0, b));
    FreeIsNone(v);
  }

  /** On a disk of two data blocks, a file of one byte survives a write of two blocks with its first byte replaced,
      although the call reports failure. */
  method TornWrite(st: Store, sectors: u32, x: byte, data: seq<byte>) returns (r: int)
    requires Room(st, sectors, 2) && DataBlocks(sectors) == 2 && |data| == BLOCK_SIZE + 1
    modifies st
    ensures Good(st) && r == -1 && TreeOf(st) == map[[] := Folder][[A] := File([data[0]])]
  {
    hide VolOf, Formatted, BlockInv, TreeInv, Tree, FullComponents, Components, Free, MetaBlocks, Refused, Extra, Total,
      BlocksFor, Leaked, FreeBlocks, Owned;
    FirstMake(st, sectors, A, FILE);
    PlainPath(A);
    OneBlock();
    assert Init([A]) == [];
    r := WritePath(st, A, [x]);
    DataCount(st.sb, st.disk, st.bitmap[..]);
    assert map[[] := Folder][[A] := File([])][[A] := File([x])] == map[[] := Folder][[A] := File([x])];
    BothTaken(st.State(), st.plan, x);
    r := WritePath(st, A, data);
    assert data[..1] == [data[0]];
  }

  // ---- a file taken for a folder ----

  /** Once the 37 bytes of an entry are written into a file, a path below that file exists. */
  method CraftedPath(st: Store, path: seq<byte>, n: Name, target: u32) returns (r: int, there: bool)
    requires Good(st) && 0 !in path && ValidName(n) && n != [] && SLASH !in n
    modifies st, st.bitmap
    ensures Good(st) &&
      WriteResult(old(st.State()), old(st.plan), st.State(), st.plan, path, EncodeDirent(NewEntry(n, target)), r)
    ensures r >= 0 ==> there && FullComponents(path + ([SLASH] + n)) !in TreeOf(st)
  {
    hide VolOf, Formatted, BlockInv, TreeInv, Tree, FullComponents, Components, Free, Refused, WriteCost, EncodeDirent,
      Walk, Plain, Overwritten, Content;
    r := WritePath(st, path, EncodeDirent(NewEntry(n, target)));
    there := ExistsPath(st, path + ([SLASH] + n));
    if r >= 0 {
      BelowPath(path, n);
      ghost var p := Components(path);
      TreeKeys(st.State(), st.plan);
      NodeKind(st.State(), st.plan, p);
      LiveHome(st.State(), st.plan, p);
      CraftedFile(st.sb, st.disk, st.bitmap[..], st.plan, p, n, target);
    }
  }
}
