/** How superblock, disk bytes and bitmap bytes determine a volume, and what single writes to them do to it. */
module Image {
  import opened Bytes
  import opened Layout
  import opened Volume

  // ---- bits of a byte ----

  function Pow2(n: nat): nat {
    if n == 0 then 1 else 2 * Pow2(n - 1)
  }

  /** (x >> k) & 1 */
  predicate BitOf(x: nat, k: nat) {
    if k == 0 then x % 2 == 1 else BitOf(x / 2, k - 1)
  }

  /** x | (1 << k), for a number of `n` bits */
  function BitOn(x: nat, k: nat, n: nat): (r: nat)
    requires k < n && x < Pow2(n)
    ensures r < Pow2(n)
  {
    if k == 0 then x - x % 2 + 1 else 2 * BitOn(x / 2, k - 1, n - 1) + x % 2
  }

  /** x & ~(1 << k) */
  function BitOff(x: nat, k: nat): (r: nat)
    ensures r <= x
  {
    if k == 0 then x - x % 2 else 2 * BitOff(x / 2, k - 1) + x % 2
  }

  lemma {:induction false} BitOnBits(x: nat, k: nat, n: nat, j: nat)
    requires k < n && x < Pow2(n)
    ensures BitOf(BitOn(x, k, n), j) == (j == k || BitOf(x, j))
    decreases k
  {
    var r := BitOn(x, k, n);
    assert k == 0 ==> r / 2 == x / 2;
    if k > 0 {
      assert r / 2 == BitOn(x / 2, k - 1, n - 1) && r % 2 == x % 2;
      if j > 0 {
        BitOnBits(x / 2, k - 1, n - 1, j - 1);
      }
    }
  }

  lemma {:induction false} BitOffBits(x: nat, k: nat, j: nat)
    ensures BitOf(BitOff(x, k), j) == (j != k && BitOf(x, j))
    decreases k
  {
    var r := BitOff(x, k);
    assert k == 0 ==> r / 2 == x / 2;
    if k > 0 {
      assert r / 2 == BitOff(x / 2, k - 1) && r % 2 == x % 2;
      if j > 0 {
        BitOffBits(x / 2, k - 1, j - 1);
      }
    }
  }

  lemma {:induction false} ZeroBits(k: nat)
    ensures !BitOf(0, k)
  {
    if k > 0 {
      ZeroBits(k - 1);
    }
  }

  // ---- the bitmap ----

  predicate BitIn(bytes: seq<byte>, i: nat)
    requires i / 8 < |bytes|
  {
    BitOf(bytes[i / 8], i % 8)
  }

  function BitsOf(bytes: seq<byte>, n: nat): (r: seq<bool>)
    requires n <= 8 * |bytes|
    ensures |r| == n
  {
    seq(n, i requires 0 <= i < n => BitIn(bytes, i))
  }

  function ByteWith(x: byte, k: nat, on: bool): byte
    requires k < 8
  {
    assert Pow2(8) == 256;
    if on then BitOn(x, k, 8) else BitOff(x, k)
  }

  lemma SetBitIn(bytes: seq<byte>, n: nat, i: nat, on: bool)
    requires n <= 8 * |bytes| && i < n
    ensures BitsOf(bytes[i / 8 := ByteWith(bytes[i / 8], i % 8, on)], n) == BitsOf(bytes, n)[i := on]
  {
    var bs := bytes[i / 8 := ByteWith(bytes[i / 8], i % 8, on)];
    assert Pow2(8) == 256;
    forall j | 0 <= j < n
      ensures BitIn(bs, j) == if j == i then on else BitIn(bytes, j)
    {
      if j / 8 == i / 8 {
        BitOnBits(bytes[i / 8], i % 8, 8, j % 8);
        BitOffBits(bytes[i / 8], i % 8, j % 8);
      }
    }
  }

  // ---- the disk ----

  /** A total block device: past its end it reads as zeros and drops writes. */
  function DiskRead(disk: seq<Block>, n: nat): Block {
    if n < |disk| then disk[n] else ZERO_BLOCK
  }

  function DiskWrite(disk: seq<Block>, n: nat, b: Block): seq<Block> {
    if n < |disk| then disk[n := b] else disk
  }

  function InodeBlock(sb: Super, idx: nat): nat {
    sb.tableStart + idx / INODES_PER_BLOCK
  }

  function InodeAt(sb: Super, disk: seq<Block>, idx: nat): Inode {
    DecodeInode(Record(DiskRead(disk, InodeBlock(sb, idx)), INODE_SIZE, idx % INODES_PER_BLOCK))
  }

  function Slice(bytes: seq<byte>, k: nat): Block
    requires BLOCK_SIZE * k + BLOCK_SIZE <= |bytes|
  {
    bytes[BLOCK_SIZE * k..BLOCK_SIZE * k + BLOCK_SIZE]
  }

  /** The bitmap as it lies on disk. */
  function SavedBytes(sb: Super, disk: seq<Block>): (r: seq<byte>)
    ensures |r| == BLOCK_SIZE * sb.bitmapBlocks
  {
    seq(BLOCK_SIZE * sb.bitmapBlocks,
      j requires 0 <= j => DiskRead(disk, sb.bitmapStart + j / BLOCK_SIZE)[j % BLOCK_SIZE])
  }

  /** The layout nfs_format lays down for a disk that holds `sb.totalBlocks` blocks. */
  predicate Laid(sb: Super) {
    && sb.magic == MAGIC && sb.root == 0 && sb.bitmapStart == 1
    && sb.totalBlocks <= 8 * BLOCK_SIZE * sb.bitmapBlocks
    && sb.tableStart == 1 + sb.bitmapBlocks
    && sb.tableBlocks == (MAX_INODES * INODE_SIZE + BLOCK_SIZE - 1) / BLOCK_SIZE
    && sb.dataStart == sb.tableStart + sb.tableBlocks
    && sb.dataStart <= sb.totalBlocks
  }

  predicate Formatted(sb: Super, disk: seq<Block>, bytes: seq<byte>) {
    && Laid(sb) && sb.totalBlocks <= |disk| && DecodeSuper(disk[0]) == sb
    && |bytes| == BLOCK_SIZE * sb.bitmapBlocks
  }

  function Inodes(sb: Super, disk: seq<Block>): (r: seq<Inode>)
    ensures |r| == MAX_INODES
    ensures forall i | 0 <= i < MAX_INODES :: r[i] == InodeAt(sb, disk, i)
  {
    seq(MAX_INODES, i requires 0 <= i => InodeAt(sb, disk, i))
  }

  function VolOf(sb: Super, disk: seq<Block>, bytes: seq<byte>): (v: Vol)
    requires Formatted(sb, disk, bytes)
    ensures v.start == sb.dataStart && |v.data| == sb.totalBlocks - sb.dataStart
  {
    assert sb.totalBlocks - sb.dataStart <= 8 * |bytes| && |SavedBytes(sb, disk)| == |bytes|;
    Vol(sb.dataStart,
        Inodes(sb, disk),
        disk[sb.dataStart..sb.totalBlocks],
        BitsOf(bytes, sb.totalBlocks - sb.dataStart),
        BitsOf(SavedBytes(sb, disk), sb.totalBlocks - sb.dataStart))
  }

  lemma VolBit(sb: Super, disk: seq<Block>, bytes: seq<byte>, i: nat)
    requires Formatted(sb, disk, bytes) && i < sb.totalBlocks - sb.dataStart
    ensures VolOf(sb, disk, bytes).bits[i] == BitIn(bytes, i)
  {
  }

  lemma VolInode(sb: Super, disk: seq<Block>, bytes: seq<byte>, i: nat)
    requires Formatted(sb, disk, bytes) && i < MAX_INODES
    ensures VolOf(sb, disk, bytes).inodes[i] == InodeAt(sb, disk, i)
  {
  }

  lemma VolBlock(sb: Super, disk: seq<Block>, bytes: seq<byte>, b: nat)
    requires Formatted(sb, disk, bytes) && InData(VolOf(sb, disk, bytes), b)
    ensures DiskRead(disk, b) == BlockAt(VolOf(sb, disk, bytes), b)
  {
  }

  lemma SameMeta(sb: Super, disk: seq<Block>, disk': seq<Block>, bytes: seq<byte>)
    requires Formatted(sb, disk, bytes) && |disk'| == |disk|
    requires forall n | 0 <= n < sb.dataStart :: disk'[n] == disk[n]
    ensures Formatted(sb, disk', bytes)
    ensures forall i | 0 <= i < MAX_INODES :: InodeAt(sb, disk', i) == InodeAt(sb, disk, i)
    ensures SavedBytes(sb, disk') == SavedBytes(sb, disk)
  {
  }

  /** Writing a data block. */
  lemma WriteData(sb: Super, disk: seq<Block>, bytes: seq<byte>, n: nat, b: Block)
    requires Formatted(sb, disk, bytes) && sb.dataStart <= n < sb.totalBlocks
    ensures Formatted(sb, DiskWrite(disk, n, b), bytes)
    ensures VolOf(sb, DiskWrite(disk, n, b), bytes) == SetBlock(VolOf(sb, disk, bytes), n, b)
  {
    SameMeta(sb, disk, DiskWrite(disk, n, b), bytes);
    assert disk[n := b][sb.dataStart..sb.totalBlocks] == disk[sb.dataStart..sb.totalBlocks][n - sb.dataStart := b];
  }

  function DiskWithInode(sb: Super, disk: seq<Block>, idx: nat, x: Inode): seq<Block> {
    var n := InodeBlock(sb, idx);
    DiskWrite(disk, n, PutRecord(DiskRead(disk, n), INODE_SIZE, idx % INODES_PER_BLOCK, EncodeInode(x)))
  }

  lemma InodeWritten(sb: Super, disk: seq<Block>, idx: nat, x: Inode, i: nat)
    requires Laid(sb) && sb.totalBlocks <= |disk| && idx < MAX_INODES && i < MAX_INODES
    ensures InodeAt(sb, DiskWithInode(sb, disk, idx, x), i) == if i == idx then x else InodeAt(sb, disk, i)
  {
    hide EncodeInode, DecodeInode, Record, PutRecord;
    var n := InodeBlock(sb, idx);
    InodeRoundTrip(x);
    if InodeBlock(sb, i) == n {
      RecordPut(DiskRead(disk, n), INODE_SIZE, idx % INODES_PER_BLOCK, EncodeInode(x), i % INODES_PER_BLOCK);
    }
  }

  lemma InodeOutside(sb: Super, disk: seq<Block>, idx: nat, x: Inode)
    requires Laid(sb) && sb.totalBlocks <= |disk| && idx < MAX_INODES
    ensures |DiskWithInode(sb, disk, idx, x)| == |disk| && DiskWithInode(sb, disk, idx, x)[0] == disk[0]
    ensures DiskWithInode(sb, disk, idx, x)[sb.dataStart..sb.totalBlocks] == disk[sb.dataStart..sb.totalBlocks]
    ensures SavedBytes(sb, DiskWithInode(sb, disk, idx, x)) == SavedBytes(sb, disk)
  {
    hide EncodeInode, PutRecord;
    assert sb.bitmapStart + sb.bitmapBlocks <= InodeBlock(sb, idx) < sb.dataStart;
  }

  /** Writing inode `idx` into its slot of the byte-packed table changes that inode and nothing else. */
  lemma WriteInode(sb: Super, disk: seq<Block>, bytes: seq<byte>, idx: nat, x: Inode)
    requires Formatted(sb, disk, bytes) && idx < MAX_INODES
    ensures Formatted(sb, DiskWithInode(sb, disk, idx, x), bytes)
    ensures VolOf(sb, DiskWithInode(sb, disk, idx, x), bytes) == SetInode(VolOf(sb, disk, bytes), idx, x)
  {
    hide InodeAt, BitsOf, EncodeInode, PutRecord;
    var disk' := DiskWithInode(sb, disk, idx, x);
    InodeOutside(sb, disk, idx, x);
    forall i | 0 <= i < MAX_INODES
      ensures InodeAt(sb, disk', i) == if i == idx then x else InodeAt(sb, disk, i)
    {
      InodeWritten(sb, disk, idx, x, i);
    }
    assert VolOf(sb, disk', bytes).inodes == VolOf(sb, disk, bytes).inodes[idx := x];
  }

  /** Switching one bit of the bitmap in memory. */
  lemma WriteBit(sb: Super, disk: seq<Block>, bytes: seq<byte>, i: nat, on: bool)
    requires Formatted(sb, disk, bytes) && i < sb.totalBlocks - sb.dataStart
    ensures VolOf(sb, disk, bytes[i / 8 := ByteWith(bytes[i / 8], i % 8, on)])
         == SetBit(VolOf(sb, disk, bytes), sb.dataStart + i, on)
  {
    SetBitIn(bytes, sb.totalBlocks - sb.dataStart, i, on);
  }

  /** Copying the bitmap to its blocks on disk. */
  lemma WriteBitmap(sb: Super, disk: seq<Block>, disk': seq<Block>, bytes: seq<byte>)
    requires Formatted(sb, disk, bytes) && |disk'| == |disk|
    requires forall n | 0 <= n < |disk| && !(sb.bitmapStart <= n < sb.bitmapStart + sb.bitmapBlocks) ::
      disk'[n] == disk[n]
    requires forall k | 0 <= k < sb.bitmapBlocks :: disk'[sb.bitmapStart + k] == Slice(bytes, k)
    ensures Formatted(sb, disk', bytes) && SavedBytes(sb, disk') == bytes
    ensures var v := VolOf(sb, disk, bytes); VolOf(sb, disk', bytes) == Vol(v.start, v.inodes, v.data, v.bits, v.bits)
  {
    SavedIs(sb, disk', bytes);
    hide SavedBytes, Slice, BitsOf;
    assert disk'[0] == disk[0];
    assert disk'[sb.dataStart..sb.totalBlocks] == disk[sb.dataStart..sb.totalBlocks];
    forall i | 0 <= i < MAX_INODES
      ensures InodeAt(sb, disk', i) == InodeAt(sb, disk, i)
    {
    }
    hide InodeAt;
    assert Inodes(sb, disk') == Inodes(sb, disk);
  }

  lemma SavedIs(sb: Super, disk: seq<Block>, bytes: seq<byte>)
    requires Laid(sb) && sb.totalBlocks <= |disk| && |bytes| == BLOCK_SIZE * sb.bitmapBlocks
    requires forall k | 0 <= k < sb.bitmapBlocks :: disk[sb.bitmapStart + k] == Slice(bytes, k)
    ensures SavedBytes(sb, disk) == bytes
  {
    forall j | 0 <= j < |bytes|
      ensures SavedBytes(sb, disk)[j] == bytes[j]
    {
      assert disk[sb.bitmapStart + j / BLOCK_SIZE] == Slice(bytes, j / BLOCK_SIZE);
    }
  }
}
