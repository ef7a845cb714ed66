/** The kernel heap: a first-fit list of blocks over a bump region, merged when neighbours are free. */
module Heap {
  const WRAP: nat := 0x1_0000_0000_0000_0000
  const HEADER := 24

  type u64 = x: int | 0 <= x < WRAP

  /** (x + 7) & ~7 in 64 bits. */
  function Align8(x: u64): (r: u64) {
    (x + 7) % WRAP / 8 * 8
  }

  /** Rounding up yields at least the request exactly when it does not wrap; past that it yields zero. */
  lemma Align8Wraps(x: u64)
    ensures Align8(x) % 8 == 0
    ensures Align8(x) >= x <==> x <= WRAP - 8
    ensures x > WRAP - 8 ==> Align8(x) == 0
  {
  }

  // ---- the list of blocks, as a value ----

  /** A block: its header lies at `addr`, its payload behind it. */
  datatype Block = Block(addr: nat, size: nat, free: bool)

  type Blocks = seq<Block>

  function End(b: Block): nat {
    b.addr + HEADER + b.size
  }

  /** The blocks lie side by side, in address order, from `start` to `end`, with sizes in eights. */
  ghost predicate Tiles(bs: Blocks, start: nat, end: nat) {
    if bs == [] then start == end
    else bs[0].addr == start && bs[0].size % 8 == 0 && Tiles(bs[1..], End(bs[0]), end)
  }

  ghost predicate NoTwoFree(bs: Blocks) {
    forall i | 0 <= i < |bs| - 1 :: !(bs[i].free && bs[i + 1].free)
  }

  /** Headers and payloads together: conserved, since they fill the region. */
  function Total(bs: Blocks): nat {
    if bs == [] then 0 else HEADER + bs[0].size + Total(bs[1..])
  }

  ghost function Live(bs: Blocks): set<Block> {
    set b | b in bs && !b.free
  }

  lemma {:induction false} TilesTotal(bs: Blocks, start: nat, end: nat)
    requires Tiles(bs, start, end)
    ensures end == start + Total(bs)
  {
    if bs != [] {
      TilesTotal(bs[1..], End(bs[0]), end);
    }
  }

  lemma {:induction false} TilesAt(bs: Blocks, start: nat, end: nat, i: nat)
    requires Tiles(bs, start, end) && i < |bs|
    ensures start <= bs[i].addr && End(bs[i]) <= end && bs[i].size % 8 == 0
    ensures start % 8 == 0 ==> bs[i].addr % 8 == 0
  {
    if i > 0 {
      TilesAt(bs[1..], End(bs[0]), end, i - 1);
    } else {
      TilesTotal(bs[1..], End(bs[0]), end);
    }
  }

  /** Blocks do not overlap: one ends before the next begins. */
  lemma {:induction false} TilesApart(bs: Blocks, start: nat, end: nat, i: nat, j: nat)
    requires Tiles(bs, start, end) && i < j < |bs|
    ensures End(bs[i]) <= bs[j].addr
  {
    if i > 0 {
      TilesApart(bs[1..], End(bs[0]), end, i - 1, j - 1);
    } else {
      TilesAt(bs[1..], End(bs[0]), end, j - 1);
    }
  }

  lemma {:induction false} TilesAppend(bs: Blocks, start: nat, end: nat, b: Block)
    requires Tiles(bs, start, end) && b.addr == end && b.size % 8 == 0
    ensures Tiles(bs + [b], start, End(b))
  {
    if bs == [] {
      assert (bs + [b])[1..] == [];
    } else {
      assert (bs + [b])[1..] == bs[1..] + [b];
      TilesAppend(bs[1..], End(bs[0]), end, b);
    }
  }

  lemma {:induction false} TilesMark(bs: Blocks, start: nat, end: nat, i: nat, free: bool)
    requires Tiles(bs, start, end) && i < |bs|
    ensures Tiles(Mark(bs, i, free), start, end)
  {
    if i > 0 {
      assert Mark(bs, i, free)[1..] == Mark(bs[1..], i - 1, free);
      TilesMark(bs[1..], End(bs[0]), end, i - 1, free);
    } else {
      assert Mark(bs, i, free)[1..] == bs[1..];
    }
  }

  function Mark(bs: Blocks, i: nat, free: bool): Blocks
    requires i < |bs|
  {
    bs[i := Block(bs[i].addr, bs[i].size, free)]
  }

  // ---- merging free neighbours in one pass ----

  function Joined(a: Block, b: Block): Block {
    Block(a.addr, a.size + HEADER + b.size, true)
  }

  function Merge(bs: Blocks): Blocks
    decreases |bs|
  {
    if |bs| < 2 then bs
    else if bs[0].free && bs[1].free then Merge([Joined(bs[0], bs[1])] + bs[2..])
    else [bs[0]] + Merge(bs[1..])
  }

  /** Merging keeps the tiling, the live blocks and the first block's place, and leaves no two free neighbours. */
  lemma {:induction false} MergeKeeps(bs: Blocks, start: nat, end: nat)
    requires Tiles(bs, start, end)
    ensures Tiles(Merge(bs), start, end) && Live(Merge(bs)) == Live(bs) && NoTwoFree(Merge(bs))
    ensures bs != [] ==> Merge(bs) != [] && Merge(bs)[0].addr == bs[0].addr && Merge(bs)[0].free == bs[0].free
    decreases |bs|
  {
    if |bs| >= 2 {
      if bs[0].free && bs[1].free {
        MergeJoins(bs, start, end);
      } else {
        MergeSkips(bs, start, end);
      }
    }
  }

  lemma MergeJoins(bs: Blocks, start: nat, end: nat)
    requires Tiles(bs, start, end) && |bs| >= 2 && bs[0].free && bs[1].free
    ensures Tiles(Merge(bs), start, end) && Live(Merge(bs)) == Live(bs) && NoTwoFree(Merge(bs))
    ensures Merge(bs) != [] && Merge(bs)[0].addr == bs[0].addr && Merge(bs)[0].free == bs[0].free
    decreases |bs|, 0
  {
    var cs := [Joined(bs[0], bs[1])] + bs[2..];
    assert cs[1..] == bs[1..][1..];
    MergeKeeps(cs, start, end);
    assert bs == [bs[0], bs[1]] + bs[2..];
    assert Live(cs) == Live(bs);
  }

  lemma MergeSkips(bs: Blocks, start: nat, end: nat)
    requires Tiles(bs, start, end) && |bs| >= 2 && !(bs[0].free && bs[1].free)
    ensures Tiles(Merge(bs), start, end) && Live(Merge(bs)) == Live(bs) && NoTwoFree(Merge(bs))
    ensures Merge(bs) != [] && Merge(bs)[0].addr == bs[0].addr && Merge(bs)[0].free == bs[0].free
    decreases |bs|, 0
  {
    var ms := Merge(bs[1..]);
    MergeKeeps(bs[1..], End(bs[0]), end);
    assert Merge(bs)[1..] == ms;
    assert bs == [bs[0]] + bs[1..];
    LiveCons(bs[0], bs[1..]);
    LiveCons(bs[0], ms);
  }

  lemma LiveCons(b: Block, bs: Blocks)
    ensures Live([b] + bs) == (if b.free then {} else {b}) + Live(bs)
  {
  }

  // ---- the allocator ----

  /** A block header in memory; `next` is an address, 0 for none. */
  datatype Header = Header(size: nat, free: bool, next: nat)

  function BlockAt(mem: map<nat, Header>, a: nat): Block
    requires a in mem
  {
    Block(a, mem[a].size, mem[a].free)
  }

  predicate AllIn(mem: map<nat, Header>, list: seq<nat>) {
    forall i | 0 <= i < |list| :: list[i] in mem
  }

  function BlocksAt(mem: map<nat, Header>, list: seq<nat>): (r: Blocks)
    requires AllIn(mem, list)
    ensures |r| == |list|
  {
    seq(|list|, i requires 0 <= i < |list| => BlockAt(mem, list[i]))
  }

  /** The headers from address `a` on form the list of addresses `list`. */
  predicate Linked(mem: map<nat, Header>, a: nat, list: seq<nat>)
    decreases |list|
  {
    if list == [] then a == 0 else a != 0 && a == list[0] && a in mem && Linked(mem, mem[a].next, list[1..])
  }

  lemma {:induction false} LinkedIn(mem: map<nat, Header>, a: nat, list: seq<nat>)
    requires Linked(mem, a, list)
    ensures AllIn(mem, list)
    decreases |list|
  {
    if list != [] {
      LinkedIn(mem, mem[a].next, list[1..]);
    }
  }

  lemma {:induction false} LinkedAt(mem: map<nat, Header>, a: nat, list: seq<nat>, i: nat)
    requires Linked(mem, a, list) && i < |list|
    ensures list[i] in mem && list[i] != 0 && Linked(mem, list[i], list[i..])
    ensures mem[list[i]].next == if i + 1 < |list| then list[i + 1] else 0
    decreases |list|
  {
    if i > 0 {
      LinkedAt(mem, mem[a].next, list[1..], i - 1);
      assert list[1..][i - 1..] == list[i..];
    }
  }

  /** Writing a header that is not on the list leaves the list as it is. */
  lemma {:induction false} LinkedElsewhere(mem: map<nat, Header>, a: nat, list: seq<nat>, x: nat, h: Header)
    requires Linked(mem, a, list) && x !in list
    ensures Linked(mem[x := h], a, list)
    decreases |list|
  {
    if list != [] {
      LinkedElsewhere(mem, mem[a].next, list[1..], x, h);
    }
  }

  function Rounded(request: u64): nat {
    if Align8(request) == 0 then 8 else Align8(request)
  }

  predicate Fits(b: Block, size: nat) {
    b.free && b.size >= size
  }

  /** The first block that fits, or the number of blocks. */
  function FirstFit(bs: Blocks, size: nat): (r: nat)
    ensures r <= |bs| && (r < |bs| ==> Fits(bs[r], size))
  {
    if bs == [] || Fits(bs[0], size) then 0 else 1 + FirstFit(bs[1..], size)
  }

  lemma {:induction false} FitIsFirst(bs: Blocks, size: nat, k: nat)
    requires k < |bs| && Fits(bs[k], size) && forall j | 0 <= j < k :: !Fits(bs[j], size)
    ensures FirstFit(bs, size) == k
  {
    if k > 0 {
      FitIsFirst(bs[1..], size, k - 1);
    }
  }

  lemma {:induction false} NoneFits(bs: Blocks, size: nat)
    requires forall j | 0 <= j < |bs| :: !Fits(bs[j], size)
    ensures FirstFit(bs, size) == |bs|
  {
    if bs != [] {
      NoneFits(bs[1..], size);
    }
  }

  lemma {:induction false} FitComesFirst(bs: Blocks, size: nat)
    ensures forall i | 0 <= i < FirstFit(bs, size) :: !Fits(bs[i], size)
  {
    if bs != [] && !Fits(bs[0], size) {
      FitComesFirst(bs[1..], size);
      forall i | 0 < i < FirstFit(bs, size) ensures !Fits(bs[i], size) {
        assert bs[i] == bs[1..][i - 1];
      }
    }
  }

  /** The cursor behind a new block, in 64 bits. */
  function NextCursor(cursor: nat, size: nat): u64 {
    (cursor + HEADER + size) % WRAP
  }

  /** No block fits, and the sum that is compared with the region's end has wrapped: the request is granted although
      the region cannot hold it. */
  predicate Overruns(bs: Blocks, cursor: nat, end: nat, size: nat) {
    FirstFit(bs, size) == |bs| && cursor + HEADER + size >= WRAP && NextCursor(cursor, size) <= end
  }

  /** A request for all but the last eight bytes of the address space is granted whenever 16 bytes are left. */
  lemma HugeIsGranted(bs: Blocks, cursor: nat, end: nat)
    requires cursor + 16 <= end < WRAP && FirstFit(bs, Rounded(WRAP - 8)) == |bs|
    ensures Overruns(bs, cursor, end, Rounded(WRAP - 8))
  {
    hide FirstFit;
    assert Rounded(WRAP - 8) == WRAP - 8 by {
      AlreadyRound();
    }
    hide Rounded;
    assert cursor + HEADER + (WRAP - 8) == (cursor + 16) + WRAP;
  }

  lemma AlreadyRound()
    ensures Rounded(WRAP - 8) == WRAP - 8
  {
    assert (WRAP - 1) % WRAP == WRAP - 1;
  }

  /** kmalloc reuses the first block that fits, else takes one from the region, else fails and changes nothing. */
  ghost predicate MallocResult(bs: Blocks, cursor: nat, end: nat, bs': Blocks, cursor': nat, size: nat, ptr: nat) {
    var k := FirstFit(bs, size);
    if k < |bs| then ptr == bs[k].addr + HEADER && bs' == Mark(bs, k, false) && cursor' == cursor
    else if cursor + HEADER + size > end then ptr == 0 && bs' == bs && cursor' == cursor
    else ptr == cursor + HEADER && bs' == bs + [Block(cursor, size, false)] && cursor' == cursor + HEADER + size
  }

  /** A successful kmalloc adds one live block of at least the size asked for, eight-aligned and apart from every other
      live block, none of which has changed. */
  lemma MallocGivesBlock(bs: Blocks, start: nat, cursor: nat, end: nat, bs': Blocks, cursor': nat, size: nat, ptr: nat)
    returns (b: Block)
    requires Tiles(bs, start, cursor) && MallocResult(bs, cursor, end, bs', cursor', size, ptr) && ptr != 0 &&
      size % 8 == 0
    ensures b !in Live(bs) && Live(bs') == Live(bs) + {b}
    ensures ptr == b.addr + HEADER && b.size >= size && (start % 8 == 0 ==> ptr % 8 == 0)
    ensures forall c | c in Live(bs) :: End(c) <= b.addr || End(b) <= c.addr
    ensures var k := FirstFit(bs, size);
      b == if k < |bs| then Block(bs[k].addr, bs[k].size, false) else Block(cursor, size, false)
  {
    hide Tiles, FirstFit;
    var k := FirstFit(bs, size);
    if k < |bs| {
      b := bs'[k];
      TilesAt(bs, start, cursor, k);
      MarkedLive(bs, start, cursor, k);
      forall c | c in Live(bs)
        ensures End(c) <= b.addr || End(b) <= c.addr
      {
        LiveApart(bs, start, cursor, k, c);
      }
    } else {
      b := Block(cursor, size, false);
      forall c | c in bs
        ensures End(c) <= b.addr
      {
        var j :| 0 <= j < |bs| && bs[j] == c;
        TilesAt(bs, start, cursor, j);
      }
      TilesAppend(bs, start, cursor, b);
      TilesAt(bs + [b], start, End(b), |bs|);
      AppendedLive(bs, b);
    }
  }

  /** A payload of `n` bytes serves a request: it is long enough, positive and a multiple of eight. */
  predicate Holds(n: nat, request: nat) {
    n % 8 == 0 && 8 <= n && request <= n
  }

  /** Rounding up gives the least payload that serves; a request that wraps gets what a request for nothing gets. */
  lemma RoundedIsLeast(request: u64)
    ensures Holds(Rounded(request), Roundable(request))
    ensures forall n | Holds(n, Roundable(request)) :: Rounded(request) <= n
  {
    Align8Wraps(request);
  }

  /** The request itself, unless rounding it up wraps around 64 bits. */
  function Roundable(request: u64): u64 {
    if request <= WRAP - 8 then request else 0
  }

  /** What a caller of kmalloc gets: a new live block that serves the request, apart from every other live block. */
  ghost predicate Obtained(bs: Blocks, bs': Blocks, request: nat, ptr: nat, b: Block) {
    && ptr == b.addr + HEADER && Holds(b.size, request)
    && b !in Live(bs) && Live(bs') == Live(bs) + {b} && forall c | c in Live(bs) :: End(c) <= b.addr || End(b) <= c.addr
  }

  /** It is the first free block that serves, else one of the least size taken at the cursor; neither exists when
      kmalloc fails. */
  ghost predicate Served(bs: Blocks, cursor: nat, end: nat, bs': Blocks, cursor': nat, request: nat, ptr: nat) {
    if ptr == 0 then
      && bs' == bs && cursor' == cursor && (forall i | 0 <= i < |bs| :: !(bs[i].free && Holds(bs[i].size, request)))
      && forall n | Holds(n, request) :: cursor + HEADER + n > end
    else
      exists b :: Obtained(bs, bs', request, ptr, b) && ServedBy(bs, cursor, end, cursor', request, b)
  }

  ghost predicate ServedBy(bs: Blocks, cursor: nat, end: nat, cursor': nat, request: nat, b: Block) {
    if exists i :: 0 <= i < |bs| && bs[i].free && Holds(bs[i].size, request) then
      cursor' == cursor && exists k | 0 <= k < |bs| ::
        && bs[k] == Block(b.addr, b.size, true)
        && forall i | 0 <= i < k :: !(bs[i].free && Holds(bs[i].size, request))
    else
      b.addr == cursor && cursor' == End(b) <= end && forall n | Holds(n, request) :: b.size <= n
  }

  lemma FitsHolds(b: Block, request: u64)
    requires b.size % 8 == 0
    ensures Fits(b, Rounded(request)) <==> b.free && Holds(b.size, Roundable(request))
  {
    hide Rounded;
    RoundedIsLeast(request);
  }

  /** The block that kmalloc returns serves the request. */
  lemma MallocServes(bs: Blocks, start: nat, cursor: nat, end: nat, bs': Blocks, cursor': nat, request: u64, ptr: nat)
    requires Tiles(bs, start, cursor) && MallocResult(bs, cursor, end, bs', cursor', Rounded(request), ptr)
    ensures Served(bs, cursor, end, bs', cursor', Roundable(request), ptr)
  {
    hide Tiles, Rounded, Roundable, Live, Fits;
    var size, r, k := Rounded(request), Roundable(request), FirstFit(bs, Rounded(request));
    RoundedIsLeast(request);
    forall i | 0 <= i < |bs|
      ensures Fits(bs[i], size) <==> bs[i].free && Holds(bs[i].size, r)
    {
      TilesAt(bs, start, cursor, i);
      FitsHolds(bs[i], request);
    }
    FitComesFirst(bs, size);
    hide FirstFit;
    if ptr != 0 {
      var b := MallocGivesBlock(bs, start, cursor, end, bs', cursor', size, ptr);
      assert k < |bs| ==> bs[k] == Block(b.addr, b.size, true) by {
        assert k < |bs| ==> bs[k].free;
      }
      assert Obtained(bs, bs', r, ptr, b) && ServedBy(bs, cursor, end, cursor', r, b);
    }
  }

  /** A live block other than the k-th lies apart from it. */
  lemma LiveApart(bs: Blocks, start: nat, end: nat, k: nat, c: Block)
    requires Tiles(bs, start, end) && k < |bs| && bs[k].free && c in Live(bs)
    ensures End(c) <= bs[k].addr || End(bs[k]) <= c.addr
  {
    hide Tiles;
    var j :| 0 <= j < |bs| && bs[j] == c;
    if j < k {
      TilesApart(bs, start, end, j, k);
    } else {
      TilesApart(bs, start, end, k, j);
    }
  }

  lemma AppendedLive(bs: Blocks, b: Block)
    requires !b.free
    ensures Live(bs + [b]) == Live(bs) + {b}
  {
    assert forall c :: c in bs + [b] <==> c in bs || c == b;
  }

  lemma MarkedLive(bs: Blocks, start: nat, end: nat, k: nat)
    requires Tiles(bs, start, end) && k < |bs| && bs[k].free
    ensures Live(Mark(bs, k, false)) == Live(bs) + {Mark(bs, k, false)[k]} && Mark(bs, k, false)[k] !in Live(bs)
  {
    var bs' := Mark(bs, k, false);
    forall c | c in Live(bs)
      ensures c in Live(bs') && c != bs'[k]
    {
      var j :| 0 <= j < |bs| && bs[j] == c;
      assert bs'[j] == c;
      Distinct(bs, start, end, j, k);
    }
    forall c | c in Live(bs') && c != bs'[k]
      ensures c in Live(bs)
    {
      var j :| 0 <= j < |bs'| && bs'[j] == c;
      assert bs[j] == c;
    }
  }

  lemma Distinct(bs: Blocks, start: nat, end: nat, j: nat, k: nat)
    requires Tiles(bs, start, end) && j < |bs| && k < |bs| && j != k
    ensures bs[j].addr != bs[k].addr
  {
    if j < k {
      TilesApart(bs, start, end, j, k);
    } else {
      TilesApart(bs, start, end, k, j);
    }
  }

  /** kfree removes exactly the freed block from the live ones; the region stays tiled, so nothing is lost. */
  lemma FreeRemovesBlock(bs: Blocks, start: nat, end: nat, k: nat)
    requires Tiles(bs, start, end) && k < |bs|
    ensures Live(Merge(Mark(bs, k, true))) == Live(bs) - {bs[k]}
    ensures Total(Merge(Mark(bs, k, true))) == Total(bs) == end - start
  {
    var fs := Mark(bs, k, true);
    TilesMark(bs, start, end, k, true);
    MergeKeeps(fs, start, end);
    TilesTotal(bs, start, end);
    TilesTotal(Merge(fs), start, end);
    forall c
      ensures c in Live(fs) <==> c in Live(bs) && c != bs[k]
    {
      if c in Live(fs) {
        var j :| 0 <= j < |fs| && fs[j] == c;
        assert bs[j] == c && j != k;
        Distinct(bs, start, end, j, k);
      }
      if c in Live(bs) && c != bs[k] {
        var j :| 0 <= j < |bs| && bs[j] == c;
        assert fs[j] == c;
      }
    }
  }

  // ---- writing headers ----

  lemma {:induction false} LinkedSameNext(mem: map<nat, Header>, a: nat, list: seq<nat>, x: nat, h: Header)
    requires Linked(mem, a, list) && x in mem && h.next == mem[x].next
    ensures Linked(mem[x := h], a, list)
    decreases |list|
  {
    if list != [] {
      LinkedSameNext(mem, mem[a].next, list[1..], x, h);
    }
  }

  lemma AddressesDiffer(mem: map<nat, Header>, list: seq<nat>, start: nat, end: nat, i: nat, j: nat)
    requires (forall k | 0 <= k < |list| :: list[k] in mem) && Tiles(BlocksAt(mem, list), start, end) && i < j < |list|
    ensures list[i] < list[j] < end
  {
    TilesApart(BlocksAt(mem, list), start, end, i, j);
    TilesAt(BlocksAt(mem, list), start, end, j);
    assert BlocksAt(mem, list)[i].addr == list[i] && BlocksAt(mem, list)[j].addr == list[j];
  }

  /** Setting the free flag of the k-th header marks the k-th block. */
  lemma MarkInMemory(mem: map<nat, Header>, a: nat, list: seq<nat>, start: nat, end: nat, k: nat, free: bool)
    requires Linked(mem, a, list) && AllIn(mem, list)
    requires Tiles(BlocksAt(mem, list), start, end) && k < |list|
    ensures var mem' := mem[list[k] := Header(mem[list[k]].size, free, mem[list[k]].next)];
      Linked(mem', a, list) && BlocksAt(mem', list) == Mark(BlocksAt(mem, list), k, free) &&
        Tiles(BlocksAt(mem', list), start, end)
  {
    var mem' := mem[list[k] := Header(mem[list[k]].size, free, mem[list[k]].next)];
    LinkedSameNext(mem, a, list, list[k], mem'[list[k]]);
    forall i | 0 <= i < |list|
      ensures BlocksAt(mem', list)[i] == Mark(BlocksAt(mem, list), k, free)[i]
    {
      if i < k {
        AddressesDiffer(mem, list, start, end, i, k);
      } else if k < i {
        AddressesDiffer(mem, list, start, end, k, i);
      }
    }
    assert BlocksAt(mem', list) == Mark(BlocksAt(mem, list), k, free);
    TilesMark(BlocksAt(mem, list), start, end, k, free);
  }

  lemma MarkUsed(bs: Blocks, k: nat)
    requires NoTwoFree(bs) && k < |bs|
    ensures NoTwoFree(Mark(bs, k, false))
  {
  }

  /** The memory after a block has been appended at the end of the region. */
  function WithAppended(mem: map<nat, Header>, list: seq<nat>, blk: nat, size: nat): map<nat, Header>
    requires AllIn(mem, list)
  {
    if list == [] then mem[blk := Header(size, false, 0)]
    else
      var last := list[|list| - 1];
      mem[blk := Header(size, false, 0)][last := Header(mem[last].size, mem[last].free, blk)]
  }

  lemma {:induction false} LinkedAppend(mem: map<nat, Header>, a: nat, list: seq<nat>, blk: nat, size: nat)
    requires Linked(mem, a, list) && (forall i | 0 <= i < |list| :: list[i] in mem && list[i] != blk) && blk != 0
    requires forall i, j | 0 <= i < j < |list| :: list[i] != list[j]
    ensures Linked(WithAppended(mem, list, blk, size), if list == [] then blk else a, list + [blk])
    decreases |list|
  {
    var mem' := WithAppended(mem, list, blk, size);
    if |list| == 1 {
      assert (list + [blk])[1..] == [blk] && [blk][1..] == [];
    } else if |list| > 1 {
      assert (list + [blk])[1..] == list[1..] + [blk];
      assert list[1..][|list| - 2] == list[|list| - 1];
      LinkedAppend(mem, mem[a].next, list[1..], blk, size);
    } else {
      assert ([] + [blk])[1..] == [];
    }
  }

  lemma Appended(mem: map<nat, Header>, a: nat, list: seq<nat>, start: nat, end: nat, size: nat)
    requires Linked(mem, a, list) && AllIn(mem, list) && 0 < start && size % 8 == 0
    requires Tiles(BlocksAt(mem, list), start, end) && NoTwoFree(BlocksAt(mem, list))
    ensures var mem' := WithAppended(mem, list, end, size);
      Linked(mem', if list == [] then end else a, list + [end]) && AllIn(mem', list + [end]) &&
      BlocksAt(mem', list + [end]) == BlocksAt(mem, list) + [Block(end, size, false)] &&
      Tiles(BlocksAt(mem', list + [end]), start, end + HEADER + size) && NoTwoFree(BlocksAt(mem', list + [end]))
    ensures list == [] ==> a == 0
    ensures list != [] ==> list[|list| - 1] != 0 && list[|list| - 1] != end
  {
    var bs, mem' := BlocksAt(mem, list), WithAppended(mem, list, end, size);
    TilesTotal(bs, start, end);
    forall i | 0 <= i < |list|
      ensures list[i] != end && list[i] != 0
    {
      TilesAt(bs, start, end, i);
      assert bs[i].addr == list[i];
    }
    forall i, j | 0 <= i < j < |list|
      ensures list[i] != list[j]
    {
      AddressesDiffer(mem, list, start, end, i, j);
    }
    LinkedAppend(mem, a, list, end, size);
    AppendedBlocks(mem, list, end, size);
    TilesAppend(bs, start, end, Block(end, size, false));
  }

  lemma WrapsOnce(cursor: nat, size: nat)
    ensures (cursor + (HEADER + size) % WRAP) % WRAP == NextCursor(cursor, size)
  {
  }

  lemma TilesUnique(bs: Blocks, start: nat, end: nat, other: nat)
    requires Tiles(bs, start, end) && end != other
    ensures !Tiles(bs, start, other)
  {
    hide Tiles;
    TilesTotal(bs, start, end);
    if Tiles(bs, start, other) {
      TilesTotal(bs, start, other);
    }
  }

  lemma AppendedBlocks(mem: map<nat, Header>, list: seq<nat>, blk: nat, size: nat)
    requires forall i | 0 <= i < |list| :: list[i] in mem && list[i] != blk
    ensures AllIn(WithAppended(mem, list, blk, size), list + [blk])
    ensures BlocksAt(WithAppended(mem, list, blk, size), list + [blk]) ==
      BlocksAt(mem, list) + [Block(blk, size, false)]
  {
  }

  // ---- headers and payloads ----

  /** The header at `a` is not what it was. */
  predicate Differs(mem: map<nat, Header>, mem': map<nat, Header>, a: nat) {
    (a in mem <==> a !in mem') || (a in mem && a in mem' && mem[a] != mem'[a])
  }

  /** The 24 bytes of a header at `a` lie outside the payload of `b`. */
  predicate Apart(a: nat, b: Block) {
    a + HEADER <= b.addr + HEADER || End(b) <= a
  }

  /** No header that changed touches the payload of any of the blocks. */
  ghost predicate Spares(mem: map<nat, Header>, mem': map<nat, Header>, bs: Blocks) {
    forall a: nat, k | 0 <= k < |bs| && Differs(mem, mem', a) :: Apart(a, bs[k])
  }

  /** Only headers at the given addresses changed. */
  ghost predicate WritesAt(mem: map<nat, Header>, mem': map<nat, Header>, list: seq<nat>) {
    forall a: nat | Differs(mem, mem', a) :: a in list
  }

  /** A header on the list, or the next one of the region, lies outside every payload. */
  lemma HeaderSpares(bs: Blocks, start: nat, cursor: nat, a: nat, k: nat)
    requires Tiles(bs, start, cursor) && k < |bs| && (a == cursor || exists j | 0 <= j < |bs| :: bs[j].addr == a)
    ensures Apart(a, bs[k])
  {
    if a == cursor {
      TilesAt(bs, start, cursor, k);
    } else {
      var j :| 0 <= j < |bs| && bs[j].addr == a;
      if j < k {
        TilesApart(bs, start, cursor, j, k);
      } else if k < j {
        TilesApart(bs, start, cursor, k, j);
      }
    }
  }

  lemma WritesSpare(mem: map<nat, Header>, mem': map<nat, Header>, list: seq<nat>, start: nat, cursor: nat)
    requires AllIn(mem, list) && Tiles(BlocksAt(mem, list), start, cursor) && WritesAt(mem, mem', list + [cursor])
    ensures Spares(mem, mem', BlocksAt(mem, list))
  {
    hide Tiles, Differs, Apart;
    var bs := BlocksAt(mem, list);
    forall a: nat, k | 0 <= k < |bs| && Differs(mem, mem', a)
      ensures Apart(a, bs[k])
    {
      assert a in list + [cursor];
      if a != cursor {
        var j :| 0 <= j < |list| && list[j] == a;
        assert bs[j].addr == a;
      }
      HeaderSpares(bs, start, cursor, a, k);
    }
  }

  // ---- coalescing in memory ----

  function Without<T>(s: seq<T>, k: nat): seq<T>
    requires k < |s|
  {
    s[..k] + s[k + 1..]
  }

  /** Block `k` swallows the next one. */
  function JoinedAt(bs: Blocks, k: nat): Blocks
    requires k + 1 < |bs|
  {
    bs[..k] + [Joined(bs[k], bs[k + 1])] + bs[k + 2..]
  }

  lemma {:induction false} LinkedJoin(mem: map<nat, Header>, a: nat, list: seq<nat>, k: nat, h: Header)
    requires Linked(mem, a, list) && k + 1 < |list| && list[k + 1] in mem && h.next == mem[list[k + 1]].next
    requires forall i, j | 0 <= i < j < |list| :: list[i] != list[j]
    ensures Linked(mem[list[k] := h], a, Without(list, k + 1))
    decreases |list|
  {
    var rest := Without(list, k + 1);
    if k == 0 {
      assert rest[1..] == list[1..][1..];
      LinkedElsewhere(mem, h.next, list[1..][1..], a, h);
    } else {
      assert rest[1..] == Without(list[1..], k);
      LinkedJoin(mem, mem[a].next, list[1..], k - 1, h);
    }
  }

  lemma {:induction false} TilesJoin(bs: Blocks, start: nat, end: nat, k: nat)
    requires Tiles(bs, start, end) && k + 1 < |bs|
    ensures Tiles(JoinedAt(bs, k), start, end)
    decreases k
  {
    var js := JoinedAt(bs, k);
    if k == 0 {
      assert js[1..] == bs[1..][1..];
    } else {
      assert js[1..] == JoinedAt(bs[1..], k - 1);
      TilesJoin(bs[1..], End(bs[0]), end, k - 1);
    }
  }

  lemma JoinInMemory(mem: map<nat, Header>, a: nat, list: seq<nat>, start: nat, end: nat, k: nat)
    requires Linked(mem, a, list) && AllIn(mem, list) && Tiles(BlocksAt(mem, list), start, end)
    requires k + 1 < |list| && mem[list[k]].free && mem[list[k + 1]].free
    ensures var mem' := mem[list[k] := Header(mem[list[k]].size + HEADER + mem[list[k + 1]].size, true,
      mem[list[k + 1]].next)];
      Linked(mem', a, Without(list, k + 1)) && AllIn(mem', Without(list, k + 1)) &&
      BlocksAt(mem', Without(list, k + 1)) == JoinedAt(BlocksAt(mem, list), k) &&
      Tiles(BlocksAt(mem', Without(list, k + 1)), start, end)
  {
    hide Tiles, Linked;
    var h := Header(mem[list[k]].size + HEADER + mem[list[k + 1]].size, true, mem[list[k + 1]].next);
    forall i, j | 0 <= i < j < |list|
      ensures list[i] != list[j]
    {
      AddressesDiffer(mem, list, start, end, i, j);
    }
    LinkedJoin(mem, a, list, k, h);
    JoinedBlocks(mem, list, k, h);
    TilesJoin(BlocksAt(mem, list), start, end, k);
  }

  lemma JoinedBlocks(mem: map<nat, Header>, list: seq<nat>, k: nat, h: Header)
    requires AllIn(mem, list) && k + 1 < |list|
    requires forall i, j | 0 <= i < j < |list| :: list[i] != list[j]
    requires h.size == mem[list[k]].size + HEADER + mem[list[k + 1]].size && h.free
    ensures AllIn(mem[list[k] := h], Without(list, k + 1))
    ensures BlocksAt(mem[list[k] := h], Without(list, k + 1)) == JoinedAt(BlocksAt(mem, list), k)
  {
  }

  lemma MergeJoined(bs: Blocks, k: nat)
    requires k + 1 < |bs| && bs[k].free && bs[k + 1].free
    ensures bs[..k] + Merge(bs[k..]) == JoinedAt(bs, k)[..k] + Merge(JoinedAt(bs, k)[k..])
  {
    assert bs[k..][2..] == bs[k + 2..];
    assert JoinedAt(bs, k)[k..] == [Joined(bs[k], bs[k + 1])] + bs[k + 2..];
  }

  lemma MergeStep(bs: Blocks, k: nat)
    requires k + 1 < |bs| && !(bs[k].free && bs[k + 1].free)
    ensures bs[..k] + Merge(bs[k..]) == bs[..k + 1] + Merge(bs[k + 1..])
  {
    assert bs[k..][1..] == bs[k + 1..];
    assert Merge(bs[k..]) == [bs[k]] + Merge(bs[k + 1..]);
  }

  lemma MergeEnds(bs: Blocks, k: nat)
    requires k <= |bs| <= k + 1
    ensures bs[..k] + Merge(bs[k..]) == bs
  {
  }

  class Allocator {
    var heapStart: nat
    var heapEnd: nat
    var heapCursor: nat
    var mem: map<nat, Header>
    ghost var list: seq<nat>
    ghost var base: nat

    ghost predicate Valid()
      reads this
    {
      && 0 < base && heapCursor <= heapEnd < WRAP
      && Linked(mem, heapStart, list) && AllIn(mem, list)
      && Tiles(BlocksAt(mem, list), base, heapCursor) && NoTwoFree(BlocksAt(mem, list))
    }

    ghost function Blocks(): Blocks
      reads this
      requires Valid()
    {
      BlocksAt(mem, list)
    }

    constructor Init(start: u64, size: nat)
      requires 0 < start && start + size < WRAP
      ensures Valid() && Blocks() == [] && base == heapCursor == start && heapEnd == start + size
    {
      heapCursor, heapEnd, heapStart := start, start + size, 0;
      mem := map[];
      list, base := [], start;
    }

    /** Takes a new block from the bump region; 0 when the region is too short. */
    method RequestBlock(size: nat) returns (blk: nat)
      requires Valid() && size % 8 == 0
      modifies this`heapCursor, this`mem
      ensures blk == 0 <==> NextCursor(old(heapCursor), size) > heapEnd
      ensures blk == 0 ==> mem == old(mem) && heapCursor == old(heapCursor)
      ensures blk != 0 ==>
        blk == old(heapCursor) && heapCursor == NextCursor(blk, size) && mem == old(mem)[blk := Header(size, false, 0)]
    {
      TilesTotal(Blocks(), base, heapCursor);
      var total := (HEADER + size) % WRAP;
      WrapsOnce(heapCursor, size);
      if (heapCursor + total) % WRAP > heapEnd {
        return 0;
      }
      blk := heapCursor;
      heapCursor := (heapCursor + total) % WRAP;
      mem := mem[blk := Header(size, false, 0)];
    }

    /** The list walk of kmalloc: the first block that fits, or 0, and the block before it. */
    method FindFit(size: nat) returns (cur: nat, prev: nat, ghost k: nat)
      requires Valid()
      ensures k == FirstFit(Blocks(), size) && k <= |list|
      ensures cur == if FirstFit(Blocks(), size) < |list| then list[FirstFit(Blocks(), size)] else 0
      ensures k < |list| ==> cur in mem && cur != 0
      ensures k == |list| ==> prev == if list == [] then 0 else list[|list| - 1]
    {
      ghost var bs := Blocks();
      k := 0;
      cur, prev := heapStart, 0;
      while cur != 0 && !(mem[cur].free && mem[cur].size >= size)
        invariant 0 <= k <= |list| && Linked(mem, cur, list[k..])
        invariant prev == if k == 0 then 0 else list[k - 1]
        invariant forall j | 0 <= j < k :: !Fits(bs[j], size)
        decreases |list| - k
      {
        assert cur == list[k] && list[k..][1..] == list[k + 1..];
        assert bs[k] == BlockAt(mem, cur);
        prev := cur;
        cur := mem[cur].next;
        k := k + 1;
      }
      if cur != 0 {
        assert cur == list[k] && bs[k] == BlockAt(mem, cur) && Fits(bs[k], size);
        FitIsFirst(bs, size, k);
      } else {
        NoneFits(bs, size);
      }
    }

    /** The end of kmalloc: a new block is taken from the region and linked behind the last one. */
    method Extend(prev: nat, size: nat) returns (ptr: nat)
      requires Valid() && size % 8 == 0 && prev == if list == [] then 0 else list[|list| - 1]
      modifies this
      ensures base == old(base) && heapEnd == old(heapEnd) && WritesAt(old(mem), mem, old(list) + [old(heapCursor)])
      ensures if NextCursor(old(heapCursor), size) > heapEnd
              then ptr == 0 && Valid() && Blocks() == old(Blocks()) && heapCursor == old(heapCursor)
              else ptr == old(heapCursor) + HEADER && heapCursor == NextCursor(old(heapCursor), size)
      ensures ptr != 0 ==> (Valid() <==> old(heapCursor) + HEADER + size < WRAP)
      ensures ptr != 0 && Valid() ==> Blocks() == old(Blocks()) + [Block(old(heapCursor), size, false)]
    {
      hide Tiles, NoTwoFree, Linked;
      var blk := RequestBlock(size);
      if blk == 0 {
        return 0;
      }
      Appended(old(mem), heapStart, list, base, blk, size);
      if prev != 0 {
        mem := mem[prev := Header(mem[prev].size, mem[prev].free, blk)];
      } else {
        heapStart := blk;
      }
      assert mem == WithAppended(old(mem), list, blk, size);
      list := list + [blk];
      if blk + HEADER + size >= WRAP {
        TilesUnique(BlocksAt(mem, list), base, blk + HEADER + size, heapCursor);
      }
      return blk + HEADER;
    }

    /** First fit, or a new block at the end; 0 exactly when no free block fits and the region is too short. The heap
        stays in order exactly when the request does not overrun 64 bits, and then the caller is served. */
    method KMalloc(request: u64) returns (ptr: nat)
      requires Valid()
      modifies this
      ensures base == old(base) && heapEnd == old(heapEnd)
      ensures Valid() <==> !Overruns(old(Blocks()), old(heapCursor), heapEnd, Rounded(request))
      ensures if Valid() then
        MallocResult(old(Blocks()), old(heapCursor), heapEnd, Blocks(), heapCursor, Rounded(request), ptr)
              else ptr == old(heapCursor) + HEADER
      ensures Valid() ==>
        Served(old(Blocks()), old(heapCursor), heapEnd, Blocks(), heapCursor, Roundable(request), ptr)
      ensures WritesAt(old(mem), mem, old(list) + [old(heapCursor)]) && Spares(old(mem), mem, old(Blocks()))
    {
      hide Tiles, NoTwoFree, Linked, FirstFit, Spares, Served, Roundable;
      var size := Align8(request);
      if size == 0 {
        size := 8;
      }
      ghost var bs := Blocks();
      var cur, prev;
      ghost var k;
      cur, prev, k := FindFit(size);
      if cur != 0 {
        MarkInMemory(mem, heapStart, list, base, heapCursor, k, false);
        MarkUsed(bs, k);
        mem := mem[cur := Header(mem[cur].size, false, mem[cur].next)];
        ptr := cur + HEADER;
      } else {
        ptr := Extend(prev, size);
      }
      if Valid() {
        MallocServes(bs, base, old(heapCursor), heapEnd, Blocks(), heapCursor, request, ptr);
      }
      WritesSpare(old(mem), mem, old(list), base, old(heapCursor));
    }

    /** Frees the block behind `ptr` and merges free neighbours in one pass over the list. */
    method KFree(ptr: nat, ghost k: nat)
      requires Valid() && (ptr != 0 ==> k < |list| && ptr == list[k] + HEADER)
      modifies this`mem, this`list
      ensures Valid()
      ensures Blocks() == if ptr == 0 then old(Blocks()) else Merge(Mark(old(Blocks()), k, true))
      ensures ptr == 0 ==> mem == old(mem)
      ensures WritesAt(old(mem), mem, old(list)) && Spares(old(mem), mem, old(Blocks()))
    {
      hide Tiles, NoTwoFree, Linked, Merge, Spares;
      if ptr == 0 {
        WritesSpare(old(mem), mem, list, base, heapCursor);
        return;
      }
      var blk := ptr - HEADER;
      ghost var bs := Mark(Blocks(), k, true);
      MarkInMemory(mem, heapStart, list, base, heapCursor, k, true);
      MergeKeeps(bs, base, heapCursor);
      mem := mem[blk := Header(mem[blk].size, true, mem[blk].next)];
      Coalesce(bs);
      WritesSpare(old(mem), mem, old(list), base, heapCursor);
    }

    /** The coalescing loop of kfree. */
    method Coalesce(ghost bs: Blocks)
      requires 0 < base && heapCursor <= heapEnd < WRAP && Linked(mem, heapStart, list)
      requires AllIn(mem, list) && BlocksAt(mem, list) == bs && Tiles(bs, base, heapCursor)
      modifies this`mem, this`list
      ensures Linked(mem, heapStart, list) && AllIn(mem, list) && BlocksAt(mem, list) == Merge(bs)
      ensures WritesAt(old(mem), mem, old(list))
    {
      hide Tiles, Merge;
      ghost var k := 0;
      var cur: nat := heapStart;
      while cur != 0 && mem[cur].next != 0
        invariant 0 <= k <= |list| && Linked(mem, heapStart, list)
        invariant cur == if k < |list| then list[k] else 0
        invariant AllIn(mem, list) && (forall i | 0 <= i < |list| :: list[i] in old(list)) &&
          WritesAt(old(mem), mem, old(list))
        invariant Tiles(BlocksAt(mem, list), base, heapCursor)
        invariant Merge(bs) == BlocksAt(mem, list)[..k] + Merge(BlocksAt(mem, list)[k..])
        decreases |list| - k
      {
        LinkedAt(mem, heapStart, list, k);
        var next := mem[cur].next;
        ghost var now := BlocksAt(mem, list);
        if mem[cur].free && mem[next].free {
          JoinInMemory(mem, heapStart, list, base, heapCursor, k);
          MergeJoined(now, k);
          mem := mem[cur := Header(mem[cur].size + HEADER + mem[next].size, true, mem[next].next)];
          list := Without(list, k + 1);
        } else {
          MergeStep(now, k);
          cur := next;
          k := k + 1;
        }
      }
      if k < |list| {
        LinkedAt(mem, heapStart, list, k);
      }
      MergeEnds(BlocksAt(mem, list), k);
    }
  }
}
