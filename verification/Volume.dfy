/** What the bytes of a mounted volume mean: inodes, block pointers, directory entries, file contents,
    and the invariant that ties them to a tree of paths. Everything here is a value. */
module Volume {
  import opened Bytes
  import opened Layout

  type Path = seq<Name>

  function Init(p: Path): Path
    requires p != []
  {
    p[..|p| - 1]
  }

  function Last(p: Path): Name
    requires p != []
  {
    p[|p| - 1]
  }

  /** Blocks start.. are the data area; `bits` is the bitmap in memory, `saved` the one on disk. */
  datatype RawVol = Vol(start: nat, inodes: seq<Inode>, data: seq<Block>, bits: seq<bool>, saved: seq<bool>)

  predicate Sized(v: RawVol) {
    && 0 < v.start
    && |v.inodes| == MAX_INODES
    && |v.data| == |v.bits| == |v.saved|
    && v.start + |v.data| < 0x1_0000_0000
  }

  type Vol = v: RawVol | Sized(v) witness Vol(1, seq(MAX_INODES, _ => ZERO_INODE), [], [], [])

  /** An inode's pointers: slots 0..9 direct, slot 10 the indirect block, slots 11.. its entries. */
  const SLOTS := DIRECT + 1 + INDIRECT

  predicate InData(v: Vol, b: nat) {
    v.start <= b < v.start + |v.data|
  }

  predicate Bit(v: Vol, b: nat) {
    InData(v, b) && v.bits[b - v.start]
  }

  predicate SavedBit(v: Vol, b: nat) {
    InData(v, b) && v.saved[b - v.start]
  }

  function BlockAt(v: Vol, b: nat): Block {
    if InData(v, b) then v.data[b - v.start] else ZERO_BLOCK
  }

  function Kind(v: Vol, i: nat): byte
    requires i < MAX_INODES
  {
    v.inodes[i].kind
  }

  function Ptr(v: Vol, i: nat, k: nat): u32
    requires i < MAX_INODES && k < SLOTS
  {
    if k < DIRECT then v.inodes[i].blocks[k]
    else if k == DIRECT then v.inodes[i].indirect
    else if v.inodes[i].indirect == 0 then 0
    else PtrAt(BlockAt(v, v.inodes[i].indirect), k - DIRECT - 1)
  }

  function Ent(v: Vol, i: nat, b: nat, s: nat): Dirent
    requires i < MAX_INODES && b < DIRECT && s < DIRENTS_PER_BLOCK
  {
    if v.inodes[i].blocks[b] == 0 then NO_DIRENT else DirentAt(BlockAt(v, v.inodes[i].blocks[b]), s)
  }

  function SetInode(v: Vol, i: nat, x: Inode): Vol
    requires i < MAX_INODES
  {
    Vol(v.start, v.inodes[i := x], v.data, v.bits, v.saved)
  }

  function SetBlock(v: Vol, b: nat, x: Block): Vol {
    if InData(v, b) then Vol(v.start, v.inodes, v.data[b - v.start := x], v.bits, v.saved) else v
  }

  function SetBit(v: Vol, b: nat, on: bool): Vol
    requires InData(v, b)
  {
    Vol(v.start, v.inodes, v.data, v.bits[b - v.start := on], v.saved)
  }

  // ---- files ----

  function BlocksFor(size: nat): nat {
    (size + BLOCK_SIZE - 1) / BLOCK_SIZE
  }

  /** The slot that holds the pointer to logical block `b` of a file. */
  function FileSlot(b: nat): nat {
    if b < DIRECT then b else b + 1
  }

  /** Whether a file of `n` blocks uses slot `k`. */
  predicate Uses(n: nat, k: nat) {
    if k < DIRECT then k < n else if k == DIRECT then n > DIRECT else k - 1 < n
  }

  function Content(v: Vol, i: nat): (r: seq<byte>)
    requires i < MAX_INODES && v.inodes[i].size <= MAX_FILE_SIZE
    ensures |r| == v.inodes[i].size
  {
    seq(v.inodes[i].size, j requires 0 <= j < v.inodes[i].size =>
      BlockAt(v, Ptr(v, i, FileSlot(j / BLOCK_SIZE)))[j % BLOCK_SIZE])
  }

  // ---- the block invariant: every block has one owner ----

  /** A file has block b exactly when b < ceil(size / 4096), and an indirect block exactly when that count
      exceeds 10; a directory's blocks form a prefix of its direct slots; a free inode is all zero. */
  ghost predicate Shape(v: Vol, i: nat)
    requires i < MAX_INODES
  {
    if Kind(v, i) == FREE then v.inodes[i] == ZERO_INODE
    else if Kind(v, i) == FILE then FileShape(v, i)
    else Kind(v, i) == DIR && DirShape(v.inodes[i])
  }

  ghost predicate FileShape(v: Vol, i: nat)
    requires i < MAX_INODES
  {
    && v.inodes[i].size <= MAX_FILE_SIZE
    && forall k :: 0 <= k < SLOTS ==> (Ptr(v, i, k) != 0 <==> Uses(BlocksFor(v.inodes[i].size), k))
  }

  predicate DirShape(x: Inode) {
    x.indirect == 0 && forall b | 0 < b < DIRECT :: x.blocks[b] != 0 ==> x.blocks[b - 1] != 0
  }

  ghost predicate Shapes(v: Vol) {
    forall i :: 0 <= i < MAX_INODES ==> Shape(v, i)
  }

  ghost predicate Disjoint(v: Vol) {
    forall i, k, j, l | 0 <= i < MAX_INODES && 0 <= k < SLOTS && 0 <= j < MAX_INODES && 0 <= l < SLOTS ::
      Ptr(v, i, k) != 0 && Ptr(v, i, k) == Ptr(v, j, l) ==> i == j && k == l
  }

  /** Every block in use is marked, in memory and on disk. */
  ghost predicate Backed(v: Vol) {
    forall i, k | 0 <= i < MAX_INODES && 0 <= k < SLOTS && Ptr(v, i, k) != 0 ::
      Bit(v, Ptr(v, i, k)) && SavedBit(v, Ptr(v, i, k))
  }

  ghost predicate BlockInv(v: Vol) {
    Shapes(v) && Disjoint(v) && Backed(v)
  }

  ghost predicate Owned(v: Vol, b: nat) {
    exists i, k :: 0 <= i < MAX_INODES && 0 <= k < SLOTS && Ptr(v, i, k) == b
  }

  /** Blocks marked as used that no inode reaches. */
  ghost function Leaked(v: Vol): set<nat> {
    set b | v.start <= b < v.start + |v.data| && Bit(v, b) && !Owned(v, b)
  }

  // ---- the tree invariant: directories form a tree of paths rooted at inode 0 ----

  /** Where a path's entry lies: block and slot within the parent directory, and the inode it names. */
  datatype Home = Home(ino: nat, b: nat, s: nat)

  /** Ghost witness of the tree: the live paths and, inversely, the path of each live inode. `lost` holds the
      inodes a failed move has cut off from the root. */
  datatype Plan = Plan(home: map<Path, Home>, path: map<nat, Path>, lost: set<nat>)

  predicate IsEntry(e: Dirent, n: Name, ino: nat) {
    e.used != 0 && e.inode == ino && e.name == NameField(n)
  }

  ghost predicate HomeOk(v: Vol, g: Plan, p: Path)
    requires p in g.home
  {
    && g.home[p].ino < MAX_INODES && Kind(v, g.home[p].ino) != FREE
    && g.home[p].ino in g.path && g.path[g.home[p].ino] == p
    && if p == [] then g.home[p].ino == 0 && Kind(v, 0) == DIR else Hangs(v, g, p)
  }

  /** A path other than the root hangs in its parent directory by one used entry. */
  ghost predicate Hangs(v: Vol, g: Plan, p: Path)
    requires p in g.home && p != []
  {
    && ValidName(Last(p)) && g.home[p].b < DIRECT && g.home[p].s < DIRENTS_PER_BLOCK
    && Init(p) in g.home && g.home[Init(p)].ino < MAX_INODES
    && Kind(v, g.home[Init(p)].ino) == DIR
    && IsEntry(Ent(v, g.home[Init(p)].ino, g.home[p].b, g.home[p].s), Last(p), g.home[p].ino)
  }

  ghost predicate InoOk(v: Vol, g: Plan, i: nat)
    requires i < MAX_INODES
  {
    && (Kind(v, i) != FREE <==> i in g.path || i in g.lost)
    && (i in g.path ==> i !in g.lost && g.path[i] in g.home && g.home[g.path[i]].ino == i)
  }

  /** The path a used entry of directory `i` stands for. */
  ghost predicate EntOk(v: Vol, g: Plan, i: nat, b: nat, s: nat)
    requires i < MAX_INODES && i in g.path && b < DIRECT && s < DIRENTS_PER_BLOCK
  {
    exists n :: ValidName(n) && Listed(v, g, i, b, s, n)
  }

  ghost predicate Listed(v: Vol, g: Plan, i: nat, b: nat, s: nat, n: Name)
    requires i < MAX_INODES && i in g.path && b < DIRECT && s < DIRENTS_PER_BLOCK
  {
    && g.path[i] + [n] in g.home
    && g.home[g.path[i] + [n]].b == b && g.home[g.path[i] + [n]].s == s
    && IsEntry(Ent(v, i, b, s), n, g.home[g.path[i] + [n]].ino)
  }

  ghost predicate TreeInv(v: Vol, g: Plan) {
    && [] in g.home
    && (forall p {:trigger HomeOk(v, g, p)} :: p in g.home ==> HomeOk(v, g, p))
    && (forall i :: i in g.path ==> i < MAX_INODES)
    && (forall i :: i in g.lost ==> i < MAX_INODES)
    && (forall i {:trigger InoOk(v, g, i)} :: 0 <= i < MAX_INODES ==> InoOk(v, g, i))
    && (forall i, b, s {:trigger EntOk(v, g, i, b, s)} | i in g.path && 0 <= b < DIRECT && 0 <= s < DIRENTS_PER_BLOCK ::
          Kind(v, i) == DIR && Ent(v, i, b, s).used != 0 ==> EntOk(v, g, i, b, s))
  }

  ghost predicate Inv(v: Vol, g: Plan) {
    BlockInv(v) && TreeInv(v, g)
  }

  // ---- the abstract file system ----

  datatype Node = Folder | File(bytes: seq<byte>)

  ghost function NodeAt(v: Vol, i: nat): Node
    requires i < MAX_INODES && (Kind(v, i) == FILE ==> v.inodes[i].size <= MAX_FILE_SIZE)
  {
    if Kind(v, i) == FILE then File(Content(v, i)) else Folder
  }

  /** The file system a volume stands for: which paths exist, and what each holds. */
  ghost function Tree(v: Vol, g: Plan): map<Path, Node>
    requires Inv(v, g)
  {
    map p | p in g.home :: NodeOf(v, g, p)
  }

  ghost function NodeOf(v: Vol, g: Plan, p: Path): Node
    requires Inv(v, g) && p in g.home
  {
    assert HomeOk(v, g, p) && Shape(v, g.home[p].ino);
    NodeAt(v, g.home[p].ino)
  }

  /** Two volumes that agree on every path but `p` differ in the tree by one update. */
  lemma OneNode(v: Vol, g: Plan, z: Vol, h: Plan, p: Path, node: Node)
    requires Inv(v, g) && Inv(z, h) && h.home.Keys == g.home.Keys + {p} && NodeOf(z, h, p) == node
    requires forall q | q in g.home && q != p :: NodeOf(z, h, q) == NodeOf(v, g, q)
    ensures Tree(z, h) == Tree(v, g)[p := node]
  {
    hide Inv, NodeOf;
  }
}
