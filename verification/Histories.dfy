/** Whole histories of the kernel heap and of the bytes its blocks hold. */
module Histories {
  import opened Bytes
  import opened Heap

  /** A request of so many bytes that returned `ptr`; the freeing of the k-th block; or its owner storing byte `y` at
      offset `off` of its payload. */
  datatype HeapOp = Malloc(request: u64, ptr: nat) | Free(k: nat) | Poke(k: nat, off: nat, y: byte)

  datatype HeapState = HeapState(blocks: Blocks, cursor: nat, memory: nat -> byte)

  /** What KMalloc and KFree ensure, in a region that ends at `end`; only live blocks are freed and stored into. */
  ghost predicate HeapStep(end: nat, s: HeapState, op: HeapOp, t: HeapState) {
    match op
    case Malloc(request, ptr) =>
      MallocResult(s.blocks, s.cursor, end, t.blocks, t.cursor, Rounded(request), ptr) && OnlyHeaders(s, t)
    case Free(k) =>
      && k < |s.blocks| && !s.blocks[k].free && t.blocks == Merge(Mark(s.blocks, k, true)) && t.cursor == s.cursor
      && OnlyHeaders(s, t)
    case Poke(k, off, y) =>
      && k < |s.blocks| && !s.blocks[k].free && off < s.blocks[k].size && t.blocks == s.blocks && t.cursor == s.cursor
      && forall x: nat :: t.memory(x) == if Pokes(s, op, x) then y else s.memory(x)
  }

  /** The addresses whose headers WritesAt allows kmalloc and kfree to write. */
  predicate HeaderAddress(s: HeapState, a: nat) {
    a == s.cursor || exists j | 0 <= j < |s.blocks| :: s.blocks[j].addr == a
  }

  /** The allocator itself stores into the 24 bytes of headers and nowhere else. */
  ghost predicate OnlyHeaders(s: HeapState, t: HeapState) {
    forall x: nat | t.memory(x) != s.memory(x) :: exists a: nat | HeaderAddress(s, a) :: a <= x < a + HEADER
  }

  predicate Pokes(s: HeapState, op: HeapOp, x: nat) {
    op.Poke? && op.k < |s.blocks| && x == s.blocks[op.k].addr + HEADER + op.off
  }

  // ---- the allocator's calls are such steps ----

  /** A header that changes changes its own 24 bytes and no others. */
  ghost predicate StoresOwnBytes(mem: map<nat, Header>, mem': map<nat, Header>, m: nat -> byte, m': nat -> byte) {
    forall x: nat | m'(x) != m(x) :: exists a: nat | Differs(mem, mem', a) :: a <= x < a + HEADER
  }

  lemma OnlyTheirHeaders(mem: map<nat, Header>, mem': map<nat, Header>, list: seq<nat>, cursor: nat, s: HeapState,
                         t: HeapState)
    requires AllIn(mem, list) && s.blocks == BlocksAt(mem, list) && s.cursor == cursor
    requires WritesAt(mem, mem', list + [cursor]) && StoresOwnBytes(mem, mem', s.memory, t.memory)
    ensures OnlyHeaders(s, t)
  {
    hide Differs;
    forall x: nat | t.memory(x) != s.memory(x)
      ensures exists a: nat | HeaderAddress(s, a) :: a <= x < a + HEADER
    {
      var a: nat :| Differs(mem, mem', a) && a <= x < a + HEADER;
      assert a in list + [cursor];
      if a != cursor {
        var j :| 0 <= j < |list| && list[j] == a;
        assert s.blocks[j].addr == a;
      }
      assert HeaderAddress(s, a);
    }
  }

  /** A call of KMalloc that keeps the heap in order is a step, on the sole assumption that headers store their own
      bytes. */
  method MallocStep(heap: Allocator, request: u64, ghost s: HeapState) returns (ptr: nat, ghost m: map<nat, Header>)
    requires heap.Valid() && s.blocks == heap.Blocks() && s.cursor == heap.heapCursor
    requires !Overruns(heap.Blocks(), heap.heapCursor, heap.heapEnd, Rounded(request))
    modifies heap
    ensures heap.Valid() && m == old(heap.mem)
    ensures forall t: HeapState | t.blocks == heap.Blocks() && t.cursor == heap.heapCursor &&
      StoresOwnBytes(m, heap.mem, s.memory, t.memory) :: HeapStep(heap.heapEnd, s, Malloc(request, ptr), t)
  {
    hide Tiles, NoTwoFree, Linked, MallocResult, OnlyHeaders, StoresOwnBytes, WritesAt, Spares, Overruns;
    m := heap.mem;
    ghost var list, cursor := heap.list, heap.heapCursor;
    ptr := heap.KMalloc(request);
    forall t: HeapState | StoresOwnBytes(m, heap.mem, s.memory, t.memory)
      ensures OnlyHeaders(s, t)
    {
      OnlyTheirHeaders(m, heap.mem, list, cursor, s, t);
    }
  }

  lemma RoundedIsEights(request: u64)
    ensures Rounded(request) % 8 == 0
  {
    Align8Wraps(request);
  }

  /** So is a call of KFree on a live block. */
  method FreeStep(heap: Allocator, ptr: nat, ghost k: nat, ghost s: HeapState) returns (ghost m: map<nat, Header>)
    requires heap.Valid() && s.blocks == heap.Blocks() && s.cursor == heap.heapCursor
    requires k < |heap.list| && ptr == heap.list[k] + HEADER && !heap.Blocks()[k].free
    modifies heap`mem, heap`list
    ensures heap.Valid() && m == old(heap.mem)
    ensures forall t: HeapState | t.blocks == heap.Blocks() && t.cursor == heap.heapCursor &&
      StoresOwnBytes(m, heap.mem, s.memory, t.memory) :: HeapStep(heap.heapEnd, s, Free(k), t)
  {
    hide Tiles, NoTwoFree, Linked, OnlyHeaders, StoresOwnBytes, Spares, Merge;
    m := heap.mem;
    ghost var list, cursor := heap.list, heap.heapCursor;
    heap.KFree(ptr, k);
    forall t: HeapState | StoresOwnBytes(m, heap.mem, s.memory, t.memory)
      ensures OnlyHeaders(s, t)
    {
      OnlyTheirHeaders(m, heap.mem, list, cursor, s, t);
    }
  }

  predicate Frees(s: HeapState, op: HeapOp, b: Block) {
    op.Free? && op.k < |s.blocks| && s.blocks[op.k] == b
  }

  ghost predicate HeapOk(start: nat, s: HeapState) {
    Tiles(s.blocks, start, s.cursor) && NoTwoFree(s.blocks)
  }

  lemma StepKeepsHeap(start: nat, end: nat, s: HeapState, op: HeapOp, t: HeapState)
    requires HeapOk(start, s) && HeapStep(end, s, op, t)
    ensures HeapOk(start, t)
  {
    hide Merge, FirstFit, Rounded;
    match op
    case Malloc(request, ptr) =>
      var size := Rounded(request);
      var k := FirstFit(s.blocks, size);
      RoundedIsEights(request);
      if k < |s.blocks| {
        TilesMark(s.blocks, start, s.cursor, k, false);
        MarkUsed(s.blocks, k);
      } else if ptr != 0 {
        TilesAppend(s.blocks, start, s.cursor, Block(s.cursor, size, false));
      }
    case Free(k) =>
      TilesMark(s.blocks, start, s.cursor, k, true);
      MergeKeeps(Mark(s.blocks, k, true), start, s.cursor);
    case Poke(_, _, _) =>
  }

  /** The block that an operation frees is the only live one to go. */
  lemma StepKeepsLive(start: nat, end: nat, s: HeapState, op: HeapOp, t: HeapState, b: Block)
    requires HeapOk(start, s) && HeapStep(end, s, op, t) && b in Live(s.blocks)
    requires !Frees(s, op, b)
    ensures b in Live(t.blocks)
  {
    hide Merge, FirstFit, Tiles, NoTwoFree, MallocResult, Rounded;
    match op
    case Malloc(request, ptr) =>
      var size := Rounded(request);
      RoundedIsEights(request);
      if ptr != 0 {
        var n := MallocGivesBlock(s.blocks, start, s.cursor, end, t.blocks, t.cursor, size, ptr);
      } else {
        FailedMalloc(start, s, end, t, size);
      }
    case Free(k) => FreeRemovesBlock(s.blocks, start, s.cursor, k);
    case Poke(_, _, _) =>
  }

  predicate InPayload(b: Block, x: nat) {
    b.addr + HEADER <= x < End(b)
  }

  /** Nothing but a store to that very byte changes a byte of a live block. */
  lemma StepKeepsPayload(start: nat, end: nat, s: HeapState, op: HeapOp, t: HeapState, b: Block, x: nat)
    requires HeapOk(start, s) && HeapStep(end, s, op, t) && b in Live(s.blocks) && InPayload(b, x)
    ensures !Pokes(s, op, x) ==> t.memory(x) == s.memory(x)
  {
    hide Merge, FirstFit, Tiles, NoTwoFree, MallocResult;
    if !op.Poke? && t.memory(x) != s.memory(x) {
      var a: nat :| HeaderAddress(s, a) && a <= x < a + HEADER;
      var k :| 0 <= k < |s.blocks| && s.blocks[k] == b;
      HeaderSpares(s.blocks, start, s.cursor, a, k);
    }
  }

  lemma FailedMalloc(start: nat, s: HeapState, end: nat, t: HeapState, size: nat)
    requires MallocResult(s.blocks, s.cursor, end, t.blocks, t.cursor, size, 0)
    ensures t.blocks == s.blocks && FirstFit(s.blocks, size) == |s.blocks| && s.cursor + HEADER + size > end
  {
  }

  ghost predicate History(end: nat, ss: seq<HeapState>, ops: seq<HeapOp>) {
    |ss| == |ops| + 1 && forall n | 0 <= n < |ops| :: HeapStep(end, ss[n], ops[n], ss[n + 1])
  }

  /**
   * Over every history the blocks tile the region used so far, none of it is lost, no two
   * neighbours are free, and a block stays where it is and as it is until it is freed.
   */
  lemma {:induction false} HistoryKeeps(start: nat, end: nat, ss: seq<HeapState>, ops: seq<HeapOp>, m: nat, n: nat)
    requires History(end, ss, ops) && HeapOk(start, ss[0]) && m <= n <= |ops|
    ensures HeapOk(start, ss[m]) && HeapOk(start, ss[n]) && Total(ss[n].blocks) == ss[n].cursor - start
    ensures forall b | b in Live(ss[m].blocks) && (forall k | m <= k < n :: !Frees(ss[k], ops[k], b)) ::
              b in Live(ss[n].blocks)
    decreases n
  {
    hide Live, Tiles, NoTwoFree, MallocResult, Merge;
    if n > 0 {
      HistoryKeeps(start, end, ss, ops, if m < n then m else n - 1, n - 1);
      assert HeapStep(end, ss[n - 1], ops[n - 1], ss[n - 1 + 1]);
      StepKeepsHeap(start, end, ss[n - 1], ops[n - 1], ss[n]);
      if m < n {
        forall b | b in Live(ss[m].blocks) && (forall k | m <= k < n :: !Frees(ss[k], ops[k], b))
          ensures b in Live(ss[n].blocks)
        {
          StepKeepsLive(start, end, ss[n - 1], ops[n - 1], ss[n], b);
        }
      }
    }
    TilesTotal(ss[n].blocks, start, ss[n].cursor);
  }

  /** A live block keeps its bytes over every history, whatever is requested, freed and merged around it, until it is
      freed itself or its owner stores there. */
  lemma {:induction false} PayloadKept(start: nat, end: nat, ss: seq<HeapState>, ops: seq<HeapOp>, m: nat, n: nat,
                                       b: Block, x: nat)
    requires History(end, ss, ops) && HeapOk(start, ss[0]) && m <= n <= |ops| && b in Live(ss[m].blocks) &&
      InPayload(b, x)
    requires forall k | m <= k < n :: !Frees(ss[k], ops[k], b) && !Pokes(ss[k], ops[k], x)
    ensures ss[n].memory(x) == ss[m].memory(x)
    decreases n
  {
    hide Live, HeapOk, HeapStep, Frees, Pokes;
    if m < n {
      PayloadKept(start, end, ss, ops, m, n - 1, b, x);
      HistoryKeeps(start, end, ss, ops, m, n - 1);
      assert HeapStep(end, ss[n - 1], ops[n - 1], ss[n - 1 + 1]);
      StepKeepsPayload(start, end, ss[n - 1], ops[n - 1], ss[n], b, x);
    }
  }

  /** What the owner of a live block stores at an offset is what it finds there, until the block is freed or it stores
      there again. */
  lemma StoreKept(start: nat, end: nat, ss: seq<HeapState>, ops: seq<HeapOp>, m: nat, n: nat, b: Block)
    requires History(end, ss, ops) && HeapOk(start, ss[0]) && m < n <= |ops| && ops[m].Poke?
    requires ops[m].k < |ss[m].blocks| && ss[m].blocks[ops[m].k] == b
    requires forall k | m < k < n :: !Frees(ss[k], ops[k], b) && !Pokes(ss[k], ops[k], b.addr + HEADER + ops[m].off)
    ensures ops[m].off < b.size && ss[n].memory(b.addr + HEADER + ops[m].off) == ops[m].y
  {
    hide Tiles, NoTwoFree, HeapOk, Frees;
    assert HeapStep(end, ss[m], ops[m], ss[m + 1]);
    PayloadKept(start, end, ss, ops, m + 1, n, b, b.addr + HEADER + ops[m].off);
  }

  /** The bytes of the request: from `ptr` on. */
  predicate Requested(op: HeapOp, x: nat) {
    op.Malloc? && op.ptr <= x < op.ptr + Roundable(op.request)
  }

  /** Nothing from the m-th operation to the n-th frees the block. */
  predicate Untouched(ss: seq<HeapState>, ops: seq<HeapOp>, m: nat, n: nat, b: Block)
    requires n <= |ops| <= |ss|
  {
    forall k | m <= k < n :: !Frees(ss[k], ops[k], b)
  }

  /** The bytes a caller asked for are its own: whatever happens later, until the block is freed they change by stores
      to them alone, and no other live block holds any of them. */
  lemma RequestKept(start: nat, end: nat, ss: seq<HeapState>, ops: seq<HeapOp>, m: nat, n: nat, x: nat)
    returns (b: Block)
    requires History(end, ss, ops) && HeapOk(start, ss[0]) && m < n <= |ops|
    requires ops[m].Malloc? && ops[m].ptr != 0
    ensures Obtained(ss[m].blocks, ss[m + 1].blocks, Roundable(ops[m].request), ops[m].ptr, b)
    ensures Untouched(ss, ops, m + 1, n, b) ==> b in Live(ss[n].blocks)
    ensures Untouched(ss, ops, m + 1, n, b) && Requested(ops[m], x) ==>
      forall c | c in Live(ss[n].blocks) && c != b :: !InPayload(c, x)
    ensures (Untouched(ss, ops, m + 1, n, b) && Requested(ops[m], x) &&
             forall k | m < k < n :: !Pokes(ss[k], ops[k], x)) ==> ss[n].memory(x) == ss[m + 1].memory(x)
  {
    hide Live, Tiles, MallocResult, Served, Pokes, Frees;
    HistoryKeeps(start, end, ss, ops, m, m);
    assert HeapStep(end, ss[m], ops[m], ss[m + 1]);
    b := TheBlock(start, end, ss[m], ops[m], ss[m + 1]);
    HistoryKeeps(start, end, ss, ops, m + 1, n);
    if Untouched(ss, ops, m + 1, n, b) {
      assert b in Live(ss[n].blocks);
      if Requested(ops[m], x) {
        assert InPayload(b, x);
        forall c | c in Live(ss[n].blocks) && c != b
          ensures !InPayload(c, x)
        {
          LiveDisjoint(ss[n].blocks, start, ss[n].cursor, b, c, x);
        }
        if forall k | m < k < n :: !Pokes(ss[k], ops[k], x) {
          PayloadKept(start, end, ss, ops, m + 1, n, b, x);
        }
      }
    }
  }

  lemma TheBlock(start: nat, end: nat, s: HeapState, op: HeapOp, t: HeapState) returns (b: Block)
    requires HeapOk(start, s) && HeapStep(end, s, op, t) && op.Malloc? && op.ptr != 0
    ensures Obtained(s.blocks, t.blocks, Roundable(op.request), op.ptr, b) && b in Live(t.blocks)
  {
    hide Tiles, MallocResult, NoTwoFree, Rounded, Live;
    MallocServes(s.blocks, start, s.cursor, end, t.blocks, t.cursor, op.request, op.ptr);
    b :| Obtained(s.blocks, t.blocks, Roundable(op.request), op.ptr, b);
  }

  /** No byte lies in two live payloads. */
  lemma LiveDisjoint(bs: Blocks, start: nat, end: nat, b: Block, c: Block, x: nat)
    requires Tiles(bs, start, end) && b in Live(bs) && c in Live(bs) && b != c
    ensures !(InPayload(b, x) && InPayload(c, x))
  {
    hide Tiles;
    var i, j :| 0 <= i < |bs| && 0 <= j < |bs| && bs[i] == b && bs[j] == c;
    if i < j {
      TilesApart(bs, start, end, i, j);
    } else {
      TilesApart(bs, start, end, j, i);
    }
  }
}
