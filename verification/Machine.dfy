/**
 * The abstract file system: a map from paths to nodes, with four counts in place of the disk.
 * Each operation is a function of the two, so what it does and whether it succeeds can be
 * computed beforehand, for whole sequences of operations.
 */
module Machine {
  import opened Bytes
  import opened Layout
  import opened Volume
  import opened Paths
  import opened Space
  import opened Files
  import opened Removing
  import opened Moving
  import opened Renaming
  import opened Stocks

  datatype Op =
    | Create(path: seq<byte>)
    | Mkdir(path: seq<byte>)
    | Write(path: seq<byte>, data: seq<byte>)
    | Delete(path: seq<byte>)
    | Rename(dir: Path, old_name: Name, new_name: Name)
    | Move(src: Path, name: Name, dst: Path)
    | Remount

  type FileTree = map<Path, Node>

  datatype Abs = Abs(tree: FileTree, stock: Stock)

  /** What an operation leaves, and whether it reports success. */
  datatype Outcome = Outcome(next: Abs, ok: bool)

  // ---- what the counts decide ----

  /** The folder's blocks have an unused entry. */
  predicate HasSlack(t: FileTree, k: Stock, p: Path) {
    p in k.width && |Children(t.Keys, p)| < DIRENTS_PER_BLOCK * k.width[p]
  }

  /** Blocks a new entry takes in folder `p`. */
  function Needs(t: FileTree, k: Stock, p: Path): nat {
    if HasSlack(t, k, p) then 0 else 1
  }

  predicate Makes(t: FileTree, k: Stock, p: Path) {
    p != [] && p !in t && |t| + k.lost < MAX_INODES && Needs(t, k, Init(p)) <= k.free
  }

  /** Folder `p` has grown by `n` blocks; if it has, the bitmap is saved. */
  function Taken(k: Stock, p: Path, n: nat): Stock {
    if n <= k.free && p in k.width then
      Stock(k.free - n, if n == 0 then k.kept else k.free - n, k.lost, k.width[p := k.width[p] + n])
    else k
  }

  // ---- the operations ----

  ghost function Made(a: Abs, path: seq<byte>, node: Node): Outcome {
    var p := Components(path);
    if Creatable(a.tree, path) && Makes(a.tree, a.stock, p) then
      var k := Taken(a.stock, Init(p), Needs(a.tree, a.stock, Init(p)));
      Outcome(Abs(a.tree[p := node], if node == Folder then k.(width := k.width[p := 0]) else k), true)
    else Outcome(a, false)
  }

  /** Free blocks a write of `len` bytes takes from the file's own account. */
  function Lacks(t: FileTree, p: Path, len: nat): nat {
    Extra(BlocksFor(|OldBytes(t, p)|), BlocksFor(len))
  }

  predicate Writable(t: FileTree, k: Stock, p: Path) {
    if p in t then t[p].File? else Makes(t, k, p)
  }

  /** A write replaces the contents when the free blocks suffice; otherwise it reaches up to the old length only, and
      marks every free block. */
  ghost function Written(a: Abs, path: seq<byte>, data: seq<byte>): Outcome {
    var p := Components(path);
    if |data| > MAX_FILE_SIZE || !Creatable(a.tree, path) || !Writable(a.tree, a.stock, p) then Outcome(a, false) else
      var before := OldBytes(a.tree, p);
      var k := if p in a.tree then a.stock else Taken(a.stock, Init(p), Needs(a.tree, a.stock, Init(p)));
      if Lacks(a.tree, p, |data|) <= k.free then
        var free := k.free + Total(BlocksFor(|before|)) - Total(BlocksFor(|data|));
        Outcome(Abs(a.tree[p := File(data)], Stock(free, free, k.lost, k.width)), true)
      else
        Outcome(Abs(a.tree[p := File(if |before| <= |data| then data[..|before|] else data)],
                    Stock(0, k.kept, k.lost, k.width)), false)
  }

  ghost function Deleted(a: Abs, path: seq<byte>): Outcome {
    var p := Components(path);
    if Creatable(a.tree, path) && p in a.tree then
      var free := a.stock.free + Sum(Blocks(a.tree, a.stock, Subtree(a.tree.Keys, p)));
      Outcome(Abs(Without(a.tree, p), Stock(free, free, a.stock.lost, Without(a.stock.width, p))), true)
    else Outcome(a, false)
  }

  ghost function Renamed(a: Abs, p: Path, old_name: Name, new_name: Name): Outcome {
    if p in a.tree && p + [new_name] !in a.tree && p + [old_name] in a.tree then
      var sp, q := p + [old_name], p + [CutName(new_name)];
      Outcome(Abs(Moved(a.tree, sp, q), a.stock.(width := Moved(a.stock.width, sp, q))), true)
    else Outcome(a, false)
  }

  /** The names of a move check out. */
  predicate Movable(t: FileTree, p: Path, n: Name, q: Path) {
    p in t && q in t && q + [n] !in t && p + [n] in t
  }

  /** A move into the moved subtree itself, or into a folder without room, cuts the subtree off. */
  ghost function MovedTo(a: Abs, p: Path, n: Name, q: Path): Outcome {
    if !Movable(a.tree, p, n, q) then Outcome(a, false) else
      var sp, need := p + [n], Needs(a.tree, a.stock, q);
      var fits := need <= a.stock.free;
      var k := Taken(a.stock, q, if fits then need else 0);
      if fits && !(sp <= q) then
        Outcome(Abs(Moved(a.tree, sp, q + [n]), k.(width := Moved(k.width, sp, q + [n]))), true)
      else
        var lost := k.lost + |Subtree(a.tree.Keys, sp)|;
        Outcome(Abs(Without(a.tree, sp), Stock(k.free, k.kept, lost, Without(k.width, sp))), fits)
  }

  /** A mount forgets what was marked in memory only. */
  function Remounted(a: Abs): Outcome {
    Outcome(Abs(a.tree, a.stock.(free := a.stock.kept)), true)
  }

  ghost function Next(a: Abs, op: Op): Outcome {
    match op
    case Create(path) => Made(a, path, File([]))
    case Mkdir(path) => Made(a, path, Folder)
    case Write(path, data) => Written(a, path, data)
    case Delete(path) => Deleted(a, path)
    case Rename(dir, o, n) => Renamed(a, dir, o, n)
    case Move(src, n, dst) => MovedTo(a, src, n, dst)
    case Remount => Remounted(a)
  }

  /** The number an operation returns, given its success; a created path's inode is any but the root's. */
  predicate Answers(op: Op, ok: bool, r: int) {
    match op
    case Create(_) => if ok then 0 < r < MAX_INODES else r == -1
    case Mkdir(_) => if ok then 0 < r < MAX_INODES else r == -1
    case Write(_, data) => r == if ok then |data| else -1
    case Delete(_) => r == if ok then 0 else -1
    case Rename(_, _, _) => r == if ok then 1 else 0
    case Move(_, _, _) => r == if ok then 1 else 0
    case Remount => r == 0
  }

  /** The state after the first `n` operations. */
  ghost function After(a: Abs, ops: seq<Op>, n: nat): Abs
    requires n <= |ops|
  {
    if n == 0 then a else Next(After(a, ops, n - 1), ops[n - 1]).next
  }

  // ---- what goes wrong ----

  /** A write that is not refused and does not fit. */
  ghost predicate OutOfSpace(a: Abs, op: Op) {
    op.Write? && var p := Components(op.path);
      && |op.data| <= MAX_FILE_SIZE && Creatable(a.tree, op.path) && Writable(a.tree, a.stock, p)
      && a.stock.free < (if p in a.tree then 0 else Needs(a.tree, a.stock, Init(p))) + Lacks(a.tree, p, |op.data|)
  }

  /** A move whose names check out but whose entry does not arrive. */
  predicate LosingMove(a: Abs, op: Op) {
    op.Move? && Movable(a.tree, op.src, op.name, op.dst) &&
    (op.src + [op.name] <= op.dst || Needs(a.tree, a.stock, op.dst) > a.stock.free)
  }
}
