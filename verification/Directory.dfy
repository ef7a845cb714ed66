/** Searching, extending and pruning the entries of one directory. */
module Directory {
  import opened Bytes
  import opened Layout
  import opened Volume
  import opened Image
  import opened Steps
  import opened Store

  const ENTRIES := DIRECT * DIRENTS_PER_BLOCK

  // ---- what a search through an inode's blocks finds ----

  /** Entry number `e` of the blocks of `x`, read straight off the disk. */
  function RawEnt(disk: seq<Block>, x: Inode, e: nat): Dirent
    requires e < ENTRIES
  {
    var blk := x.blocks[e / DIRENTS_PER_BLOCK];
    if blk == 0 then NO_DIRENT else DirentAt(DiskRead(disk, blk), e % DIRENTS_PER_BLOCK)
  }

  predicate Hit(e: Dirent, n: Name) {
    e.used != 0 && Matches(e.name, n)
  }

  /** The first entry from `e` on that bears the name, or ENTRIES. */
  function FirstHit(disk: seq<Block>, x: Inode, n: Name, e: nat): (r: nat)
    requires e <= ENTRIES
    ensures e <= r <= ENTRIES
    ensures r < ENTRIES ==> Hit(RawEnt(disk, x, r), n)
    decreases ENTRIES - e
  {
    if e == ENTRIES then e else if Hit(RawEnt(disk, x, e), n) then e else FirstHit(disk, x, n, e + 1)
  }

  lemma {:induction false} FirstHitMisses(disk: seq<Block>, x: Inode, n: Name, e: nat, f: nat)
    requires e <= ENTRIES && e <= f < FirstHit(disk, x, n, e)
    ensures !Hit(RawEnt(disk, x, f), n)
    decreases f - e
  {
    hide RawEnt, Hit;
    if e < f {
      FirstHitMisses(disk, x, n, e + 1, f);
    }
  }

  lemma {:induction false} SkipBlock(disk: seq<Block>, x: Inode, n: Name, b: nat, e: nat)
    requires b < DIRECT && x.blocks[b] == 0 && b * DIRENTS_PER_BLOCK <= e <= (b + 1) * DIRENTS_PER_BLOCK
    ensures FirstHit(disk, x, n, e) == FirstHit(disk, x, n, (b + 1) * DIRENTS_PER_BLOCK)
    decreases (b + 1) * DIRENTS_PER_BLOCK - e
  {
    hide DirentAt, Matches;
    if e < (b + 1) * DIRENTS_PER_BLOCK {
      assert e / DIRENTS_PER_BLOCK == b;
      SkipBlock(disk, x, n, b, e + 1);
    }
  }

  lemma FirstHitStep(disk: seq<Block>, x: Inode, n: Name, b: nat, s: nat)
    requires b < DIRECT && s < DIRENTS_PER_BLOCK && x.blocks[b] != 0
    ensures var e := b * DIRENTS_PER_BLOCK + s;
      RawEnt(disk, x, e) == DirentAt(DiskRead(disk, x.blocks[b]), s) &&
      FirstHit(disk, x, n, e) == if Hit(RawEnt(disk, x, e), n) then e else FirstHit(disk, x, n, e + 1)
  {
    hide DirentAt, Hit;
    var e := b * DIRENTS_PER_BLOCK + s;
    assert e / DIRENTS_PER_BLOCK == b && e % DIRENTS_PER_BLOCK == s;
  }

  /** The search loop dir_find_in and dir_remove_entry_in share. */
  method Search(st: Store, d: nat, n: Name) returns (e: nat, entry: Dirent)
    ensures e == FirstHit(st.disk, InodeAt(st.sb, st.disk, d), n, 0)
    ensures e < ENTRIES ==> entry == RawEnt(st.disk, InodeAt(st.sb, st.disk, d), e)
  {
    hide DirentAt, Hit, InodeAt, FirstHit, RawEnt;
    var x := st.InodeRead(d);
    ghost var first := FirstHit(st.disk, x, n, 0);
    var b := 0;
    while b < DIRECT
      invariant 0 <= b <= DIRECT && first == FirstHit(st.disk, x, n, b * DIRENTS_PER_BLOCK)
    {
      var blk := x.blocks[b];
      if blk == 0 {
        SkipBlock(st.disk, x, n, b, b * DIRENTS_PER_BLOCK);
      } else {
        var buf := st.BlockRead(blk);
        var s := 0;
        while s < DIRENTS_PER_BLOCK
          invariant 0 <= s <= DIRENTS_PER_BLOCK && first == FirstHit(st.disk, x, n, b * DIRENTS_PER_BLOCK + s)
        {
          FirstHitStep(st.disk, x, n, b, s);
          if Hit(DirentAt(buf, s), n) {
            return b * DIRENTS_PER_BLOCK + s, DirentAt(buf, s);
          }
          s := s + 1;
        }
      }
      b := b + 1;
    }
    return ENTRIES, NO_DIRENT;
  }

  method DirFindIn(st: Store, d: nat, n: Name) returns (found: bool, entry: Dirent)
    ensures found <==> FirstHit(st.disk, InodeAt(st.sb, st.disk, d), n, 0) < ENTRIES
    ensures found ==>
      entry == RawEnt(st.disk, InodeAt(st.sb, st.disk, d), FirstHit(st.disk, InodeAt(st.sb, st.disk, d), n, 0))
  {
    hide *;
    var e;
    e, entry := Search(st, d, n);
    found := e < ENTRIES;
  }

  // ---- the same entries, seen through the volume ----

  /** A directory whose blocks lie in the data area and form a prefix of its slots. */
  predicate Ready(v: Vol, d: nat) {
    && d < MAX_INODES && Kind(v, d) == DIR && DirShape(v.inodes[d])
    && forall b | 0 <= b < DIRECT && v.inodes[d].blocks[b] != 0 :: InData(v, v.inodes[d].blocks[b])
  }

  lemma DirectoriesAreReady(v: Vol, d: nat)
    requires BlockInv(v) && d < MAX_INODES && Kind(v, d) == DIR
    ensures Ready(v, d)
  {
    assert Shape(v, d);
    forall b | 0 <= b < DIRECT && v.inodes[d].blocks[b] != 0
      ensures InData(v, v.inodes[d].blocks[b])
    {
      assert Ptr(v, d, b) == v.inodes[d].blocks[b];
    }
  }

  lemma RawIsEnt(sb: Super, disk: seq<Block>, bytes: seq<byte>, d: nat, b: nat, s: nat)
    requires Formatted(sb, disk, bytes) && d < MAX_INODES && b < DIRECT && s < DIRENTS_PER_BLOCK
    requires Ready(VolOf(sb, disk, bytes), d)
    ensures RawEnt(disk, InodeAt(sb, disk, d), b * DIRENTS_PER_BLOCK + s) == Ent(VolOf(sb, disk, bytes), d, b, s)
  {
    hide DirentAt, InodeAt, VolOf, Formatted;
    VolInode(sb, disk, bytes, d);
    var blk := VolOf(sb, disk, bytes).inodes[d].blocks[b];
    if blk != 0 {
      VolBlock(sb, disk, bytes, blk);
    }
    var e := b * DIRENTS_PER_BLOCK + s;
    assert e / DIRENTS_PER_BLOCK == b && e % DIRENTS_PER_BLOCK == s;
  }

  // ---- adding an entry ----

  /** The first unused entry of a directory block, or DIRENTS_PER_BLOCK. */
  method FreeSlot(buf: Block) returns (s: nat)
    ensures s <= DIRENTS_PER_BLOCK
    ensures s < DIRENTS_PER_BLOCK ==> DirentAt(buf, s).used == 0
    ensures forall t | 0 <= t < s :: DirentAt(buf, t).used != 0
  {
    hide DirentAt;
    s := 0;
    while s < DIRENTS_PER_BLOCK && DirentAt(buf, s).used != 0
      invariant s <= DIRENTS_PER_BLOCK
      invariant forall t | 0 <= t < s :: DirentAt(buf, t).used != 0
    {
      s := s + 1;
    }
  }

  /** The first `b` slots of directory `d` hold blocks, and every entry in them is used. */
  ghost predicate FullTo(v: Vol, d: nat, b: nat)
    requires d < MAX_INODES && b <= DIRECT
  {
    forall c, t | 0 <= c < b && 0 <= t < DIRENTS_PER_BLOCK :: Ent(v, d, c, t).used != 0
  }

  /** No entry can be added: all ten blocks are full, or the existing ones are and no block is free. */
  ghost predicate NoRoom(v: Vol, d: nat)
    requires d < MAX_INODES
  {
    exists b | 0 <= b <= DIRECT :: FullTo(v, d, b) && (b == DIRECT || (v.inodes[d].blocks[b] == 0 && AllSet(v.bits)))
  }

  /** `w` is `v` with entry `e` written to an unused slot of directory `d`, which may have grown for it. */
  ghost predicate Added(v: Vol, w: Vol, d: nat, b: nat, s: nat, e: Dirent) {
    && d < MAX_INODES && b < DIRECT && s < DIRENTS_PER_BLOCK && FullTo(v, d, b) && Ent(v, d, b, s).used == 0
    && if v.inodes[d].blocks[b] != 0 then w == PutEnt(v, d, b, s, e)
       else
         && InData(v, w.inodes[d].blocks[b]) && CanGrow(v, d, b, w.inodes[d].blocks[b])
         && w == PutEnt(Grown(v, d, b, w.inodes[d].blocks[b]), d, b, s, e)
  }

  function NewEntry(n: Name, ino: u32): Dirent {
    Dirent(NameField(n), ino, 1)
  }

  lemma GrownSteps(v: Vol, d: nat, b: nat, nb: u32)
    requires d < MAX_INODES && b < DIRECT && InData(v, nb)
    ensures var x := v.inodes[d];
      SetInode(SetBlock(Marked(v, nb, true, true), nb, ZERO_BLOCK), d,
        Inode(x.kind, x.size, x.blocks[b := nb], x.indirect))
        == Grown(v, d, b, nb)
  {
  }

  /** A zeroed block becomes block `b` of the directory; -1 when no block is free. */
  method Grow(st: Store, d: nat, b: nat) returns (nb: int)
    requires st.Mounted() && Ready(st.State(), d) && b < DIRECT && st.State().inodes[d].blocks[b] == 0
    requires b > 0 ==> st.State().inodes[d].blocks[b - 1] != 0
    modifies st, st.bitmap
    ensures st.Kept() && st.inodeCursor == old(st.inodeCursor)
    ensures nb < 0 ==> st.State() == old(st.State()) && AllSet(st.State().bits)
    ensures nb >= 0 ==> InData(old(st.State()), nb) && CanGrow(old(st.State()), d, b, nb)
    ensures nb >= 0 ==> st.State() == Grown(old(st.State()), d, b, nb)
  {
    hide VolOf, Formatted, NextFit, ZERO_BLOCK;
    ghost var v := st.State();
    var x := st.InodeRead(d);
    nb := st.AllocDataBlock(true);
    if nb >= 0 {
      GrownSteps(v, d, b, nb);
      st.DataWrite(nb, ZERO_BLOCK);
      st.InodeWrite(d, Inode(x.kind, x.size, x.blocks[b := nb], x.indirect));
    }
  }

  /** Read-modify-write of one entry. */
  method PutEntry(st: Store, d: nat, b: nat, s: nat, e: Dirent)
    requires st.Mounted() && d < MAX_INODES && b < DIRECT && s < DIRENTS_PER_BLOCK
    requires InData(st.State(), st.State().inodes[d].blocks[b])
    modifies st`disk
    ensures st.Kept() && st.State() == PutEnt(old(st.State()), d, b, s, e)
  {
    hide VolOf, Formatted, PutDirent;
    var x := st.InodeRead(d);
    VolBlock(st.sb, st.disk, st.bitmap[..], x.blocks[b]);
    var buf := st.BlockRead(x.blocks[b]);
    st.DataWrite(x.blocks[b], PutDirent(buf, s, e));
  }

  method DirAddEntryIn(st: Store, d: nat, n: Name, ino: u32) returns (ok: bool, ghost b: nat, ghost s: nat)
    requires st.Mounted() && Ready(st.State(), d)
    modifies st, st.bitmap
    ensures st.Kept() && st.inodeCursor == old(st.inodeCursor)
    ensures !ok ==> st.State() == old(st.State()) && NoRoom(old(st.State()), d)
    ensures ok ==> Added(old(st.State()), st.State(), d, b, s, NewEntry(n, ino))
  {
    hide VolOf, Formatted, DirentAt, PutDirent, NameField, Ent, ZERO_BLOCK;
    var x := st.InodeRead(d);
    var c, slot := FirstRoom(st, d, x);
    b, s := c, slot;
    if c == DIRECT {
      return false, b, s;
    }
    if x.blocks[c] == 0 {
      var nb := Grow(st, d, c);
      if nb < 0 {
        return false, b, s;
      }
    }
    PutEntry(st, d, c, slot, NewEntry(n, ino));
    ok := true;
  }

  /** The first block slot with an unused entry, or without a block; DIRECT if there is none. */
  method FirstRoom(st: Store, d: nat, x: Inode) returns (b: nat, s: nat)
    requires st.Mounted() && Ready(st.State(), d) && x == st.State().inodes[d]
    ensures b <= DIRECT && s < DIRENTS_PER_BLOCK && FullTo(st.State(), d, b)
    ensures b < DIRECT ==> Ent(st.State(), d, b, s).used == 0
    ensures b < DIRECT && x.blocks[b] == 0 ==> s == 0
    ensures 0 < b < DIRECT ==> x.blocks[b - 1] != 0
  {
    hide VolOf, Formatted, DirentAt;
    ghost var v := st.State();
    b := 0;
    while b < DIRECT && x.blocks[b] != 0
      invariant b <= DIRECT && FullTo(v, d, b)
      invariant b > 0 ==> x.blocks[b - 1] != 0
    {
      var buf := st.BlockRead(x.blocks[b]);
      VolBlock(st.sb, st.disk, st.bitmap[..], x.blocks[b]);
      s := FreeSlot(buf);
      if s < DIRENTS_PER_BLOCK {
        return;
      }
      forall t | 0 <= t < DIRENTS_PER_BLOCK
        ensures Ent(v, d, b, t).used != 0
      {
        assert Ent(v, d, b, t) == DirentAt(buf, t);
      }
      b := b + 1;
    }
    s := 0;
  }

  // ---- removing an entry ----

  function Cleared(e: Dirent): Dirent {
    Dirent(e.name, e.inode, 0)
  }

  ghost predicate Absent(v: Vol, d: nat, n: Name)
    requires d < MAX_INODES
  {
    forall b, s | 0 <= b < DIRECT && 0 <= s < DIRENTS_PER_BLOCK :: !Hit(Ent(v, d, b, s), n)
  }

  /** What a search of a directory finds is an entry of the volume; when it finds none there is none. */
  lemma SearchMeaning(sb: Super, disk: seq<Block>, bytes: seq<byte>, d: nat, n: Name)
    requires Formatted(sb, disk, bytes) && Ready(VolOf(sb, disk, bytes), d)
    ensures var e := FirstHit(disk, InodeAt(sb, disk, d), n, 0);
      if e == ENTRIES then Absent(VolOf(sb, disk, bytes), d, n)
      else
        RawEnt(disk, InodeAt(sb, disk, d), e) ==
        Ent(VolOf(sb, disk, bytes), d, e / DIRENTS_PER_BLOCK, e % DIRENTS_PER_BLOCK)
  {
    hide RawEnt, Hit, InodeAt, Ent, VolOf, Formatted, FirstHit;
    var x := InodeAt(sb, disk, d);
    var e := FirstHit(disk, x, n, 0);
    if e < ENTRIES {
      RawIsEnt(sb, disk, bytes, d, e / DIRENTS_PER_BLOCK, e % DIRENTS_PER_BLOCK);
    } else {
      forall b, s | 0 <= b < DIRECT && 0 <= s < DIRENTS_PER_BLOCK
        ensures !Hit(Ent(VolOf(sb, disk, bytes), d, b, s), n)
      {
        FirstHitMisses(disk, x, n, 0, b * DIRENTS_PER_BLOCK + s);
        RawIsEnt(sb, disk, bytes, d, b, s);
      }
    }
  }

  method DirRemoveEntryIn(st: Store, d: nat, n: Name) returns (ok: bool, ghost b: nat, ghost s: nat)
    requires st.Mounted() && Ready(st.State(), d)
    modifies st`disk
    ensures st.Kept()
    ensures !ok ==> st.State() == old(st.State()) && Absent(old(st.State()), d, n)
    ensures ok ==> b < DIRECT && s < DIRENTS_PER_BLOCK && Hit(Ent(old(st.State()), d, b, s), n)
    ensures ok ==> st.State() == PutEnt(old(st.State()), d, b, s, Cleared(Ent(old(st.State()), d, b, s)))
  {
    hide VolOf, Formatted, RawEnt, Hit, FirstHit, InodeAt, Ent;
    SearchMeaning(st.sb, st.disk, st.bitmap[..], d, n);
    var e, entry := Search(st, d, n);
    b, s := 0, 0;
    if e == ENTRIES {
      return false, b, s;
    }
    b, s := e / DIRENTS_PER_BLOCK, e % DIRENTS_PER_BLOCK;
    assert InData(st.State(), st.State().inodes[d].blocks[b]) by {
      HitHasBlock(st.State(), d, b, s, n);
    }
    PutEntry(st, d, e / DIRENTS_PER_BLOCK, e % DIRENTS_PER_BLOCK, Cleared(entry));
    ok := true;
  }

  lemma HitHasBlock(v: Vol, d: nat, b: nat, s: nat, n: Name)
    requires Ready(v, d) && b < DIRECT && s < DIRENTS_PER_BLOCK && Hit(Ent(v, d, b, s), n)
    ensures HasBlock(v, d, b) && InData(v, v.inodes[d].blocks[b])
  {
  }
}
