/** The mounted volume: the block device, the superblock and bitmap held in memory, the two search cursors. */
module Store {
  import opened Bytes
  import opened Numbers
  import opened Layout
  import opened Volume
  import opened Image

  /** `v` with its bitmap written to disk. */
  function Flushed(v: Vol): Vol {
    Vol(v.start, v.inodes, v.data, v.bits, v.bits)
  }

  function Marked(v: Vol, b: nat, on: bool, flush: bool): Vol
    requires InData(v, b)
  {
    if flush then Flushed(SetBit(v, b, on)) else SetBit(v, b, on)
  }

  lemma BitInRange(sb: Super, disk: seq<Block>, bytes: seq<byte>, bit: nat)
    requires Formatted(sb, disk, bytes) && bit < |VolOf(sb, disk, bytes).data|
    ensures bit < sb.totalBlocks - sb.dataStart && bit / 8 < |bytes| && VolOf(sb, disk, bytes).start == sb.dataStart
  {
  }

  class Store {
    var disk: seq<Block>
    var sb: Super
    var bitmap: array<byte>
    var bitmapCursor: nat
    var inodeCursor: nat
    ghost var plan: Plan

    constructor (disk: seq<Block>)
      ensures this.disk == disk && bitmap.Length == 0 && fresh(bitmap) && bitmapCursor == 0 && inodeCursor == 1
    {
      this.disk := disk;
      sb := Super(0, 0, 0, 0, 0, 0, 0, 0);
      bitmap := new byte[0];
      bitmapCursor := 0;
      inodeCursor := 1;
      plan := Plan(map[], map[], {});
    }

    predicate Mounted()
      reads this, bitmap
    {
      Formatted(sb, disk, bitmap[..]) && 1 <= inodeCursor <= MAX_INODES
    }

    function State(): Vol
      requires Mounted()
      reads this, bitmap
    {
      VolOf(sb, disk, bitmap[..])
    }

    /** No step below a format or a mount changes the superblock, the size of the disk or where the bitmap is kept. */
    twostate predicate Kept()
      reads this, bitmap
    {
      Mounted() && sb == old(sb) && |disk| == old(|disk|) && bitmap == old(bitmap) && plan == old(plan)
    }

    // ---- blocks ----

    method BlockRead(n: nat) returns (b: Block)
      ensures b == DiskRead(disk, n)
    {
      b := if n < |disk| then disk[n] else ZERO_BLOCK;
    }

    method BlockWrite(n: nat, b: Block)
      modifies this`disk
      ensures disk == DiskWrite(old(disk), n, b)
    {
      if n < |disk| {
        disk := disk[n := b];
      }
    }

    /** Writing a block of the data area changes that block and nothing else. */
    method DataWrite(n: nat, b: Block)
      requires Mounted() && InData(State(), n)
      modifies this`disk
      ensures Kept() && State() == SetBlock(old(State()), n, b)
    {
      WriteData(sb, disk, bitmap[..], n, b);
      BlockWrite(n, b);
    }

    // ---- the bitmap ----

    method BitmapPut(bit: nat, on: bool)
      requires Mounted() && bit < |State().data|
      modifies bitmap
      ensures Kept() && State() == SetBit(old(State()), sb.dataStart + bit, on)
    {
      BitInRange(sb, disk, bitmap[..], bit);
      hide VolOf;
      WriteBit(sb, disk, bitmap[..], bit, on);
      ghost var bytes := bitmap[..];
      bitmap[bit / 8] := ByteWith(bitmap[bit / 8], bit % 8, on);
      assert bitmap[..] == bytes[bit / 8 := ByteWith(bytes[bit / 8], bit % 8, on)];
    }

    method BitmapTest(bit: nat) returns (r: bool)
      requires Mounted() && bit < |State().data|
      ensures r == State().bits[bit]
    {
      BitInRange(sb, disk, bitmap[..], bit);
      hide VolOf, Formatted;
      VolBit(sb, disk, bitmap[..], bit);
      hide BitOf;
      r := BitOf(bitmap[bit / 8], bit % 8);
    }

    method BitmapFlush()
      requires Mounted()
      modifies this`disk
      ensures Kept() && State() == Flushed(old(State()))
    {
      hide VolOf;
      ghost var disk0 := disk;
      var i := 0;
      while i < sb.bitmapBlocks
        invariant 0 <= i <= sb.bitmapBlocks && |disk| == |disk0|
        invariant forall n | 0 <= n < |disk| && !(sb.bitmapStart <= n < sb.bitmapStart + i) :: disk[n] == disk0[n]
        invariant forall k | 0 <= k < i :: disk[sb.bitmapStart + k] == Slice(bitmap[..], k)
      {
        BlockWrite(sb.bitmapStart + i, Slice(bitmap[..], i));
        i := i + 1;
      }
      WriteBitmap(sb, disk0, disk, bitmap[..]);
    }

    /** Next fit: the first clear bit at or cyclically after the cursor, or -1 when every bit is set. */
    method AllocDataBlock(flush: bool) returns (r: int)
      requires Mounted()
      modifies this, bitmap
      ensures Kept() && inodeCursor == old(inodeCursor)
      ensures r < 0 ==> r == -1 && State() == old(State()) && AllSet(State().bits)
      ensures r >= 0 ==>
        InData(old(State()), r) && !Bit(old(State()), r) && State() == Marked(old(State()), r, true, flush)
      ensures r >= 0 ==> NextFit(old(State()).bits, old(bitmapCursor), r - sb.dataStart)
    {
      hide VolOf;
      ghost var v := State();
      var total := sb.totalBlocks - sb.dataStart;
      var k := 0;
      while k < total
        modifies {}
        invariant 0 <= k <= total
        invariant SetFrom(v.bits, bitmapCursor, k)
      {
        var used := BitmapTest(Turn(bitmapCursor, k, total));
        if !used {
          break;
        }
        k := k + 1;
      }
      if k == total {
        CycleCovers(v.bits, bitmapCursor);
        return -1;
      }
      var i := Turn(bitmapCursor, k, total);
      BitmapPut(i, true);
      bitmapCursor := i + 1;
      if flush {
        BitmapFlush();
      }
      return sb.dataStart + i;
    }

    method FreeDataBlock(n: nat, flush: bool)
      requires Mounted() && InData(State(), n)
      modifies this`disk, bitmap
      ensures Kept() && State() == Marked(old(State()), n, false, flush)
    {
      BitmapPut(n - sb.dataStart, false);
      if flush {
        BitmapFlush();
      }
    }

    // ---- inodes ----

    method InodeRead(idx: nat) returns (x: Inode)
      ensures x == InodeAt(sb, disk, idx)
      ensures Mounted() && idx < MAX_INODES ==> x == State().inodes[idx]
    {
      var block := sb.tableStart + idx / INODES_PER_BLOCK;
      var tmp := BlockRead(block);
      x := DecodeInode(Record(tmp, INODE_SIZE, idx % INODES_PER_BLOCK));
    }

    method InodeWrite(idx: nat, x: Inode)
      requires Mounted() && idx < MAX_INODES
      modifies this`disk
      ensures Kept() && State() == SetInode(old(State()), idx, x)
    {
      var block := sb.tableStart + idx / INODES_PER_BLOCK;
      WriteInode(sb, disk, bitmap[..], idx, x);
      var tmp := BlockRead(block);
      BlockWrite(block, PutRecord(tmp, INODE_SIZE, idx % INODES_PER_BLOCK, EncodeInode(x)));
    }

    /** Next fit over inodes 1..255. */
    method AllocInode() returns (r: int)
      requires Mounted()
      modifies this`inodeCursor
      ensures Kept() && State() == old(State())
      ensures r < 0 ==> r == -1 && forall i | 0 < i < MAX_INODES :: Kind(State(), i) != FREE
      ensures r >= 0 ==> 0 < r < MAX_INODES && Kind(State(), r) == FREE && inodeCursor == r + 1
      ensures r >= 0 ==> NextInode(State(), old(inodeCursor), r)
    {
      hide VolOf;
      ghost var v := State();
      var k := 0;
      while k < MAX_INODES - 1
        modifies {}
        invariant 0 <= k <= MAX_INODES - 1
        invariant TakenFrom(v, inodeCursor, k)
      {
        var tmp := InodeRead(1 + Turn(inodeCursor - 1, k, MAX_INODES - 1));
        if tmp.kind == FREE {
          break;
        }
        k := k + 1;
      }
      if k == MAX_INODES - 1 {
        InodeCycle(v, inodeCursor);
        return -1;
      }
      r := 1 + Turn(inodeCursor - 1, k, MAX_INODES - 1);
      inodeCursor := r + 1;
    }
  }

  ghost predicate AllSet(bits: seq<bool>) {
    forall i | 0 <= i < |bits| :: bits[i]
  }

  /** Place `m` of a turn over `n` places that starts at `cursor`. */
  function Turn(cursor: nat, m: nat, n: nat): (r: nat)
    requires n > 0
    ensures r < n
  {
    (cursor + m) % n
  }

  ghost predicate SetFrom(bits: seq<bool>, cursor: nat, k: nat) {
    |bits| > 0 ==> forall m | 0 <= m < k :: bits[Turn(cursor, m, |bits|)]
  }

  /** Bit `i` is the first clear one at or cyclically after `cursor`. */
  ghost predicate NextFit(bits: seq<bool>, cursor: nat, i: nat) {
    |bits| > 0 && exists k | 0 <= k < |bits| :: i == Turn(cursor, k, |bits|) && SetFrom(bits, cursor, k)
  }

  /** The first `k` inodes from `cursor` on, cyclically over inodes 1..255, are taken. */
  ghost predicate TakenFrom(v: Vol, cursor: nat, k: nat)
    requires cursor > 0
  {
    forall m | 0 <= m < k :: TakenAt(v, cursor, m)
  }

  ghost predicate TakenAt(v: Vol, c: nat, m: nat) {
    c > 0 && Kind(v, 1 + Turn(c - 1, m, MAX_INODES - 1)) != FREE
  }

  ghost predicate NextInode(v: Vol, cursor: nat, i: nat)
    requires cursor > 0
  {
    exists k | 0 <= k < MAX_INODES - 1 :: i == 1 + Turn(cursor - 1, k, MAX_INODES - 1) && TakenFrom(v, cursor, k)
  }

  /** A full turn from any cursor meets every bit. */
  lemma CycleCovers(bits: seq<bool>, cursor: nat)
    requires SetFrom(bits, cursor, |bits|)
    ensures AllSet(bits)
  {
    forall i | 0 <= i < |bits|
      ensures bits[i]
    {
      var m := Meets(cursor, i, |bits|);
    }
  }

  lemma InodeCycle(v: Vol, cursor: nat)
    requires cursor > 0 && TakenFrom(v, cursor, MAX_INODES - 1)
    ensures forall i | 0 < i < MAX_INODES :: Kind(v, i) != FREE
  {
    forall i | 0 < i < MAX_INODES
      ensures Kind(v, i) != FREE
    {
      var m := Meets(cursor - 1, i - 1, MAX_INODES - 1);
      assert TakenAt(v, cursor, m);
    }
  }

  lemma Meets(cursor: nat, i: nat, n: nat) returns (m: nat)
    requires i < n
    ensures m < n && Turn(cursor, m, n) == i
  {
    var q, c := cursor / n, cursor % n;
    DivMod(cursor, n);
    if c <= i {
      m := i - c;
      DivModUnique(cursor + m, q, i, n);
    } else {
      m := i - c + n;
      assert n * (q + 1) == n * q + n;
      DivModUnique(cursor + m, q + 1, i, n);
    }
  }
}
