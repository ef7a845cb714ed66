/** On-disk layout of NuggetFS: superblock, packed inodes, directory entries, indirect blocks. */
module Layout {
  import opened Bytes

  const MAGIC: u32 := 0x4E55_4747
  const BLOCK_SIZE := 4096
  const SECTORS_PER_BLOCK := 8
  const MAX_INODES := 256
  const MAX_NAME := 32
  const DIRECT := 10
  const INDIRECT := 1024
  const MAX_FILE_SIZE := (DIRECT + INDIRECT) * BLOCK_SIZE
  const INODE_SIZE := 49
  const INODES_PER_BLOCK := 83
  const DIRENT_SIZE := 37
  const DIRENTS_PER_BLOCK := 110

  const FREE: byte := 0
  const FILE: byte := 1
  const DIR: byte := 2

  type Block = s: seq<byte> | |s| == BLOCK_SIZE witness seq(BLOCK_SIZE, _ => 0)

  const ZERO_BLOCK: Block := Zeros(BLOCK_SIZE)

  // ---- superblock ----

  datatype Super = Super(magic: u32, totalBlocks: u32, bitmapStart: u32, bitmapBlocks: u32,
                         tableStart: u32, tableBlocks: u32, dataStart: u32, root: u32)

  function EncodeSuper(s: Super): (r: seq<byte>)
    ensures |r| == 32
  {
    Pack([s.magic, s.totalBlocks, s.bitmapStart, s.bitmapBlocks, s.tableStart, s.tableBlocks, s.dataStart, s.root])
  }

  function DecodeSuper(b: Block): Super {
    var ws := Unpack(b, 0, 8);
    Super(ws[0], ws[1], ws[2], ws[3], ws[4], ws[5], ws[6], ws[7])
  }

  lemma SuperRoundTrip(s: Super, b: Block)
    requires b[..32] == EncodeSuper(s)
    ensures DecodeSuper(b) == s
  {
    assert b[0..32] == b[..32];
    UnpackPack([s.magic, s.totalBlocks, s.bitmapStart, s.bitmapBlocks, s.tableStart, s.tableBlocks, s.dataStart,
      s.root], b, 0);
  }

  // ---- inodes ----

  datatype RawInode = Inode(kind: byte, size: u32, blocks: seq<u32>, indirect: u32)

  type Inode = i: RawInode | |i.blocks| == DIRECT witness Inode(0, 0, seq(DIRECT, _ => 0), 0)

  const ZERO_INODE: Inode := Inode(FREE, 0, [0, 0, 0, 0, 0, 0, 0, 0, 0, 0], 0)

  function EncodeInode(i: Inode): (r: seq<byte>)
    ensures |r| == INODE_SIZE
  {
    [i.kind] + Pack([i.size] + i.blocks + [i.indirect])
  }

  function DecodeInode(bs: seq<byte>): Inode
    requires |bs| == INODE_SIZE
  {
    var ws := Unpack(bs, 1, 12);
    Inode(bs[0], ws[0], ws[1..11], ws[11])
  }

  lemma InodeRoundTrip(i: Inode)
    ensures DecodeInode(EncodeInode(i)) == i
  {
    var ws := [i.size] + i.blocks + [i.indirect];
    var bs := EncodeInode(i);
    assert bs[1..1 + 4 * |ws|] == Pack(ws);
    UnpackPack(ws, bs, 1);
    assert ws[1..11] == i.blocks;
  }

  lemma ZeroInodeDecodes(bs: seq<byte>)
    requires |bs| == INODE_SIZE
    requires forall j :: 0 <= j < INODE_SIZE ==> bs[j] == 0
    ensures DecodeInode(bs) == ZERO_INODE
  {
    forall w | 0 <= w < 12
      ensures Get32(bs, 1 + 4 * w) == 0
    {
    }
    assert Unpack(bs, 1, 12)[1..11] == ZERO_INODE.blocks;
  }

  // ---- directory entries ----

  type Name = seq<byte>

  datatype RawDirent = Dirent(name: seq<byte>, inode: u32, used: byte)

  type Dirent = e: RawDirent | |e.name| == MAX_NAME witness Dirent(seq(MAX_NAME, _ => 0), 0, 0)

  const NO_DIRENT: Dirent := Dirent(Zeros(MAX_NAME), 0, 0)

  function EncodeDirent(e: Dirent): (r: seq<byte>)
    ensures |r| == DIRENT_SIZE
  {
    e.name + Put32(e.inode) + [e.used]
  }

  function DecodeDirent(bs: seq<byte>): Dirent
    requires |bs| == DIRENT_SIZE
  {
    Dirent(bs[..MAX_NAME], Get32(bs, MAX_NAME), bs[36])
  }

  lemma DirentRoundTrip(e: Dirent)
    ensures DecodeDirent(EncodeDirent(e)) == e
  {
    var bs := EncodeDirent(e);
    forall j | 0 <= j < 4
      ensures bs[MAX_NAME + j] == Put32(e.inode)[j]
    {
    }
    Get32Put32(e.inode, bs, MAX_NAME);
    assert bs[..MAX_NAME] == e.name;
  }

  /** Entry `s` of a directory block. */
  function DirentAt(b: Block, s: nat): Dirent
    requires s < DIRENTS_PER_BLOCK
  {
    DecodeDirent(Record(b, DIRENT_SIZE, s))
  }

  function PutDirent(b: Block, s: nat, e: Dirent): Block
    requires s < DIRENTS_PER_BLOCK
  {
    PutRecord(b, DIRENT_SIZE, s, EncodeDirent(e))
  }

  lemma DirentPut(b: Block, s: nat, e: Dirent, t: nat)
    requires s < DIRENTS_PER_BLOCK && t < DIRENTS_PER_BLOCK
    ensures DirentAt(PutDirent(b, s, e), t) == if s == t then e else DirentAt(b, t)
  {
    RecordPut(b, DIRENT_SIZE, s, EncodeDirent(e), t);
    DirentRoundTrip(e);
  }

  lemma ZeroBlockHasNoDirent(s: nat)
    requires s < DIRENTS_PER_BLOCK
    ensures DirentAt(ZERO_BLOCK, s) == NO_DIRENT
  {
    var bs := Record(ZERO_BLOCK, DIRENT_SIZE, s);
    assert forall j :: 0 <= j < DIRENT_SIZE ==> bs[j] == 0;
    assert bs[..MAX_NAME] == Zeros(MAX_NAME);
  }

  /** A directory entry's name as strncpy leaves it: cut to 31 characters, zero filled. */
  function NameField(n: Name): (r: seq<byte>)
    ensures |r| == MAX_NAME
  {
    if |n| < MAX_NAME then n + Zeros(MAX_NAME - |n|) else n[..MAX_NAME - 1] + [0]
  }

  /** strcmp(field, n) == 0 for a C string `n` shorter than the field. */
  predicate Matches(field: seq<byte>, n: Name)
    requires |field| == MAX_NAME
  {
    |n| < MAX_NAME && field[..|n|] == n && field[|n|] == 0
  }

  /** A C string that fits the name field of an entry. */
  predicate ValidName(n: Name) {
    |n| < MAX_NAME && 0 !in n
  }

  lemma MatchesOwnField(n: Name, m: Name)
    requires |n| < MAX_NAME && 0 !in n && 0 !in m
    ensures Matches(NameField(n), m) <==> n == m
  {
    var f := NameField(n);
    assert f[..|n|] == n;
    assert |m| < |n| ==> f[|m|] == n[|m|] && n[|m|] in n;
    if |n| < |m| < MAX_NAME && f[..|m|] == m {
      assert m[|n|] == f[..|m|][|n|] && m[|n|] in m;
    }
  }

  lemma NameFieldInjective(n: Name, m: Name)
    requires ValidName(n) && ValidName(m) && NameField(n) == NameField(m)
    ensures n == m
  {
    MatchesOwnField(m, m);
    MatchesOwnField(n, m);
  }

  // ---- indirect blocks ----

  function PtrAt(b: Block, e: nat): u32
    requires e < INDIRECT
  {
    Get32(b, 4 * e)
  }

  function Pointers(b: Block): (r: seq<u32>)
    ensures |r| == INDIRECT
    ensures forall e :: 0 <= e < INDIRECT ==> r[e] == PtrAt(b, e)
  {
    Unpack(b, 0, INDIRECT)
  }

  lemma PointersPack(ws: seq<u32>)
    requires |ws| == INDIRECT
    ensures |Pack(ws)| == BLOCK_SIZE && Pointers(Pack(ws)) == ws
  {
    assert Pack(ws)[0..0 + 4 * |ws|] == Pack(ws);
    UnpackPack(ws, Pack(ws), 0);
  }
}
