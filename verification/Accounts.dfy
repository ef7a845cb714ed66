/** Which blocks the inodes own and how many: free, owned and leaked blocks always add up to the data area. */
module Accounts {
  import opened Layout
  import opened Volume
  import opened Space

  ghost predicate OwnedIn(v: Vol, js: set<nat>, y: nat) {
    exists j, k | j in js && 0 <= j < MAX_INODES && 0 <= k < SLOTS :: Ptr(v, j, k) == y
  }

  /** The blocks the inodes `js` own. */
  ghost function BlocksOf(v: Vol, js: set<nat>): set<nat> {
    set y | v.start <= y < v.start + |v.data| && OwnedIn(v, js, y)
  }

  ghost function Used(v: Vol): set<nat> {
    set y | v.start <= y < v.start + |v.data| && Bit(v, y)
  }

  lemma OwnedUnion(v: Vol, a: set<nat>, b: set<nat>, y: nat)
    ensures OwnedIn(v, a + b, y) <==> OwnedIn(v, a, y) || OwnedIn(v, b, y)
  {
    hide Ptr;
    if OwnedIn(v, a + b, y) {
      var j, k :| j in a + b && 0 <= j < MAX_INODES && 0 <= k < SLOTS && Ptr(v, j, k) == y;
      assert j in a || j in b;
    }
    if OwnedIn(v, a, y) {
      var j, k :| j in a && 0 <= j < MAX_INODES && 0 <= k < SLOTS && Ptr(v, j, k) == y;
      assert j in a + b;
    }
    if OwnedIn(v, b, y) {
      var j, k :| j in b && 0 <= j < MAX_INODES && 0 <= k < SLOTS && Ptr(v, j, k) == y;
      assert j in a + b;
    }
  }


  // ---- one inode ----

  /** How many blocks inode `i` owns, its indirect block included. */
  function Weight(v: Vol, i: nat): nat
    requires i < MAX_INODES
  {
    if Kind(v, i) == FILE then Total(BlocksFor(v.inodes[i].size)) else if Kind(v, i) == DIR then Width(v.inodes[i])
      else 0
  }

  /** The slots a file of `n` blocks uses are the first ones. */
  lemma UsesFirst(n: nat, k: nat)
    ensures Uses(n, k) <==> k < Total(n)
  {
  }

  lemma FirstSlots(v: Vol, i: nat, k: nat)
    requires BlockInv(v) && i < MAX_INODES && k < SLOTS
    ensures Ptr(v, i, k) != 0 <==> k < Weight(v, i)
    ensures Weight(v, i) <= SLOTS
  {
    assert Shape(v, i);
    hide BlockInv;
    if Kind(v, i) == FILE {
      UsesFirst(BlocksFor(v.inodes[i].size), k);
    } else if Kind(v, i) == DIR && k < DIRECT {
      HasTo(v.inodes[i], k);
    }
  }

  /** The blocks in the first `m` slots. */
  ghost function FirstBlocks(v: Vol, i: nat, m: nat): set<nat>
    requires i < MAX_INODES && m <= SLOTS
  {
    if m == 0 then {} else FirstBlocks(v, i, m - 1) + {Ptr(v, i, m - 1)}
  }

  lemma {:induction false} FirstBlocksAre(v: Vol, i: nat, m: nat)
    requires BlockInv(v) && i < MAX_INODES && m <= Weight(v, i) && m <= SLOTS
    ensures |FirstBlocks(v, i, m)| == m
    ensures forall y :: y in FirstBlocks(v, i, m) <==> exists k | 0 <= k < m :: Ptr(v, i, k) == y
  {
    hide Ptr, Weight, BlockInv;
    if m > 0 {
      FirstBlocksAre(v, i, m - 1);
      FirstSlots(v, i, m - 1);
      forall k | 0 <= k < m - 1
        ensures Ptr(v, i, k) != Ptr(v, i, m - 1)
      {
        OtherSlot(v, i, k, m - 1);
      }
    }
  }

  lemma OtherSlot(v: Vol, i: nat, k: nat, l: nat)
    requires BlockInv(v) && i < MAX_INODES && k < l < SLOTS && Ptr(v, i, l) != 0
    ensures Ptr(v, i, k) != Ptr(v, i, l)
  {
    hide Ptr, Shapes, Backed;
  }

  lemma OneInode(v: Vol, i: nat)
    requires BlockInv(v) && i < MAX_INODES
    ensures |BlocksOf(v, {i})| == Weight(v, i)
  {
    hide Ptr, Weight, Shapes, Disjoint;
    FirstSlots(v, i, 0);
    var m := Weight(v, i);
    FirstBlocksAre(v, i, m);
    forall y
      ensures y in BlocksOf(v, {i}) <==> y in FirstBlocks(v, i, m)
    {
      if y in BlocksOf(v, {i}) {
        var k :| 0 <= k < SLOTS && Ptr(v, i, k) == y;
        FirstSlots(v, i, k);
      }
      if y in FirstBlocks(v, i, m) {
        var k :| 0 <= k < m && Ptr(v, i, k) == y;
        FirstSlots(v, i, k);
        assert Bit(v, Ptr(v, i, k));
        assert i in {i};
      }
    }
    assert BlocksOf(v, {i}) == FirstBlocks(v, i, m);
  }

  // ---- several inodes ----

  lemma BlocksApart(v: Vol, a: set<nat>, b: set<nat>)
    requires BlockInv(v) && a !! b
    ensures BlocksOf(v, a + b) == BlocksOf(v, a) + BlocksOf(v, b)
    ensures |BlocksOf(v, a + b)| == |BlocksOf(v, a)| + |BlocksOf(v, b)|
  {
    forall y
      ensures y in BlocksOf(v, a + b) <==> y in BlocksOf(v, a) || y in BlocksOf(v, b)
      ensures !(y in BlocksOf(v, a) && y in BlocksOf(v, b))
    {
      OwnedUnion(v, a, b, y);
      if y in BlocksOf(v, a) && y in BlocksOf(v, b) {
        OneHolder(v, a, b, y);
      }
    }
    hide BlockInv, BlocksOf;
    assert BlocksOf(v, a) !! BlocksOf(v, b);
  }

  lemma OneHolder(v: Vol, a: set<nat>, b: set<nat>, y: nat)
    requires BlockInv(v) && y != 0 && OwnedIn(v, a, y) && OwnedIn(v, b, y)
    ensures !(a !! b)
  {
    hide Ptr;
    var i, k :| i in a && 0 <= i < MAX_INODES && 0 <= k < SLOTS && Ptr(v, i, k) == y;
    var j, l :| j in b && 0 <= j < MAX_INODES && 0 <= l < SLOTS && Ptr(v, j, l) == y;
    assert i == j;
  }

  // ---- the whole data area ----

  function Upto(n: nat): (r: set<nat>)
    ensures |r| == n && forall k: nat :: k in r <==> k < n
  {
    if n == 0 then {} else Upto(n - 1) + {n - 1}
  }

  /** The data area, block by block. */
  ghost function Area(v: Vol): set<nat> {
    set k | k in Upto(|v.data|) :: k + v.start
  }

  lemma AreaIs(v: Vol, y: nat)
    ensures y in Area(v) <==> InData(v, y)
  {
    if InData(v, y) {
      assert y - v.start in Upto(|v.data|);
    }
  }

  lemma MarkedOrFree(v: Vol)
    ensures Free(v) + |Used(v)| == |v.data|
  {
    hide Free, Area;
    FreeIsCount(v);
    AreaCount(v);
    forall y: nat
      ensures y in Area(v) <==> y in FreeBlocks(v) || y in Used(v)
      ensures !(y in FreeBlocks(v) && y in Used(v))
    {
      AreaIs(v, y);
    }
    hide FreeBlocks, Used;
    TwoParts(Area(v), FreeBlocks(v), Used(v));
  }

  lemma AreaCount(v: Vol)
    ensures |Area(v)| == |v.data|
  {
    ShiftCount(Upto(|v.data|), v.start);
  }

  /** Every block of the data area is free, owned by one inode, or leaked. */
  lemma Conservation(v: Vol)
    requires BlockInv(v)
    ensures Free(v) + |BlocksOf(v, Upto(MAX_INODES))| + |Leaked(v)| == |v.data|
  {
    hide BlockInv, Used, Leaked, Free, BlocksOf;
    MarkedOrFree(v);
    forall y: nat
      ensures y in Used(v) <==> y in BlocksOf(v, Upto(MAX_INODES)) || y in Leaked(v)
      ensures !(y in BlocksOf(v, Upto(MAX_INODES)) && y in Leaked(v))
    {
      OwnedOrLeaked(v, y);
    }
    TwoParts(Used(v), BlocksOf(v, Upto(MAX_INODES)), Leaked(v));
  }

  lemma OwnedOrLeaked(v: Vol, y: nat)
    requires BlockInv(v)
    ensures y in Used(v) <==> y in BlocksOf(v, Upto(MAX_INODES)) || y in Leaked(v)
    ensures !(y in BlocksOf(v, Upto(MAX_INODES)) && y in Leaked(v))
  {
    OwnedByAll(v, y);
    hide BlockInv, OwnedIn, Owned;
  }

  lemma TwoParts(a: set<nat>, b: set<nat>, c: set<nat>)
    requires forall y: nat :: (y in a <==> y in b || y in c) && !(y in b && y in c)
    ensures |a| == |b| + |c|
  {
    assert a == b + c;
    assert b !! c;
  }

  lemma OwnedByAll(v: Vol, y: nat)
    requires BlockInv(v)
    ensures OwnedIn(v, Upto(MAX_INODES), y) <==> Owned(v, y)
    ensures y != 0 && Owned(v, y) ==> Bit(v, y)
  {
    hide Ptr;
    if Owned(v, y) {
      var i, k :| 0 <= i < MAX_INODES && 0 <= k < SLOTS && Ptr(v, i, k) == y;
      assert i in Upto(MAX_INODES);
    }
    if OwnedIn(v, Upto(MAX_INODES), y) {
      var i, k :| i in Upto(MAX_INODES) && 0 <= i < MAX_INODES && 0 <= k < SLOTS && Ptr(v, i, k) == y;
    }
  }

  /** When one inode has changed and nothing has leaked, the free blocks make up for its change of weight. */
  lemma OneChanged(v: Vol, w: Vol, i: nat)
    requires BlockInv(v) && BlockInv(w) && i < MAX_INODES && |w.data| == |v.data| && w.start == v.start
    requires Leaked(w) == Leaked(v)
    requires forall j, k | 0 <= j < MAX_INODES && j != i && 0 <= k < SLOTS :: Ptr(w, j, k) == Ptr(v, j, k)
    ensures Free(w) + Weight(w, i) == Free(v) + Weight(v, i)
  {
    hide BlockInv, Ptr, Weight, Leaked, Free;
    Conservation(v);
    Conservation(w);
    OneInode(v, i);
    OneInode(w, i);
    var rest := Upto(MAX_INODES) - {i};
    assert Upto(MAX_INODES) == {i} + rest;
    BlocksApart(v, {i}, rest);
    BlocksApart(w, {i}, rest);
    SameBlocks(v, w, rest);
  }

  lemma SameBlocks(v: Vol, w: Vol, js: set<nat>)
    requires |w.data| == |v.data| && w.start == v.start
    requires forall j, k | j in js && 0 <= j < MAX_INODES && 0 <= k < SLOTS :: Ptr(w, j, k) == Ptr(v, j, k)
    ensures BlocksOf(w, js) == BlocksOf(v, js)
  {
    hide Ptr;
    forall y
      ensures OwnedIn(v, js, y) <==> OwnedIn(w, js, y)
    {
      if OwnedIn(v, js, y) {
        var j, k :| j in js && 0 <= j < MAX_INODES && 0 <= k < SLOTS && Ptr(v, j, k) == y;
        assert Ptr(w, j, k) == y;
      }
      if OwnedIn(w, js, y) {
        var j, k :| j in js && 0 <= j < MAX_INODES && 0 <= k < SLOTS && Ptr(w, j, k) == y;
        assert Ptr(v, j, k) == y;
      }
    }
  }
}
