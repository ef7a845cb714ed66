/** What adding or removing one directory entry does to the invariants and to the tree. */
module Linking {
  import opened Bytes
  import opened Layout
  import opened Volume
  import opened Frames
  import opened Steps
  import opened Directory

  /** Every file keeps its bytes. */
  ghost predicate SameFile(v: Vol, w: Vol, i: nat)
    requires i < MAX_INODES
  {
    && Kind(w, i) == Kind(v, i) && w.inodes[i].size == v.inodes[i].size
    && (Kind(v, i) == FILE && v.inodes[i].size <= MAX_FILE_SIZE ==> Content(w, i) == Content(v, i))
  }

  ghost predicate SameFiles(v: Vol, w: Vol) {
    forall i {:trigger SameFile(v, w, i)} | 0 <= i < MAX_INODES :: SameFile(v, w, i)
  }

  /** All entries but one are the same. */
  ghost predicate EntriesBut(v: Vol, w: Vol, d: nat, b: nat, s: nat) {
    forall i, c, t | 0 <= i < MAX_INODES && 0 <= c < DIRECT && 0 <= t < DIRENTS_PER_BLOCK && (i, c, t) != (d, b, s) ::
      Ent(w, i, c, t) == Ent(v, i, c, t)
  }

  lemma GrownFiles(v: Vol, d: nat, b: nat, nb: u32)
    requires BlockInv(v) && d < MAX_INODES && b < DIRECT && CanGrow(v, d, b, nb)
    ensures SameFiles(v, Grown(v, d, b, nb))
  {
    forall i | 0 <= i < MAX_INODES
      ensures SameFile(v, Grown(v, d, b, nb), i)
    {
      if i != d {
        GrownKeeps(v, d, b, nb, i);
        if v.inodes[i].size <= MAX_FILE_SIZE {
          KeepsContent(v, Grown(v, d, b, nb), i);
        }
      }
    }
  }

  lemma PutEntFiles(v: Vol, d: nat, b: nat, s: nat, e: Dirent)
    requires BlockInv(v) && d < MAX_INODES && b < DIRECT && s < DIRENTS_PER_BLOCK && HasBlock(v, d, b)
    ensures SameFiles(v, PutEnt(v, d, b, s, e))
  {
    forall i | 0 <= i < MAX_INODES
      ensures SameFile(v, PutEnt(v, d, b, s, e), i)
    {
      if i != d {
        PutEntKeeps(v, d, b, s, e, i);
        if v.inodes[i].size <= MAX_FILE_SIZE {
          KeepsContent(v, PutEnt(v, d, b, s, e), i);
        }
      }
    }
  }

  lemma SameFilesTrans(u: Vol, v: Vol, w: Vol)
    requires SameFiles(u, v) && SameFiles(v, w)
    ensures SameFiles(u, w)
  {
    hide Content, Kind;
    forall i | 0 <= i < MAX_INODES
      ensures SameFile(u, w, i)
    {
      assert SameFile(u, v, i) && SameFile(v, w, i);
    }
  }

  lemma PutEntMeaning(v: Vol, w: Vol, d: nat, b: nat, s: nat, e: Dirent)
    requires BlockInv(v) && d < MAX_INODES && b < DIRECT && s < DIRENTS_PER_BLOCK && HasBlock(v, d, b) &&
      w == PutEnt(v, d, b, s, e)
    ensures BlockInv(w) && Leaked(w) == Leaked(v) && SameFiles(v, w) && w.bits == v.bits && w.saved == v.saved
    ensures EntriesBut(v, w, d, b, s) && Ent(w, d, b, s) == e
  {
    PutEntKeepsBlockInv(v, d, b, s, e);
    PutEntFiles(v, d, b, s, e);
    hide BlockInv, PutEnt, Ent;
    forall i, c, t | 0 <= i < MAX_INODES && 0 <= c < DIRECT && 0 <= t < DIRENTS_PER_BLOCK
      ensures Ent(w, i, c, t) == if (i, c, t) == (d, b, s) then e else Ent(v, i, c, t)
    {
      PutEntEnt(v, d, b, s, e, i, c, t);
    }
    PutEntBits(v, d, b, s, e);
  }

  lemma PutEntBits(v: Vol, d: nat, b: nat, s: nat, e: Dirent)
    requires d < MAX_INODES && b < DIRECT && s < DIRENTS_PER_BLOCK
    ensures PutEnt(v, d, b, s, e).bits == v.bits && PutEnt(v, d, b, s, e).saved == v.saved
  {
  }

  lemma GrownMeaning(v: Vol, w: Vol, d: nat, b: nat, nb: u32)
    requires BlockInv(v) && d < MAX_INODES && b < DIRECT && CanGrow(v, d, b, nb) && w == Grown(v, d, b, nb)
    ensures BlockInv(w) && Leaked(w) == Leaked(v) && SameFiles(v, w) && w.saved == w.bits && HasBlock(w, d, b)
    ensures forall i, c, t | 0 <= i < MAX_INODES && 0 <= c < DIRECT && 0 <= t < DIRENTS_PER_BLOCK ::
      Ent(w, i, c, t) == Ent(v, i, c, t)
  {
    GrownKeepsBlockInv(v, d, b, nb);
    GrownFiles(v, d, b, nb);
    assert HasBlock(w, d, b) && w.saved == w.bits by {
      assert v.start <= nb;
    }
    hide BlockInv, Grown, Ent;
    forall i, c, t | 0 <= i < MAX_INODES && 0 <= c < DIRECT && 0 <= t < DIRENTS_PER_BLOCK
      ensures Ent(w, i, c, t) == Ent(v, i, c, t)
    {
      GrownEnt(v, d, b, nb, i, c, t);
    }
  }

  /** Adding an entry writes that entry and keeps the block invariant, the leak, every file and every other entry. */
  lemma AddedMeaning(v: Vol, w: Vol, d: nat, b: nat, s: nat, e: Dirent)
    requires BlockInv(v) && Added(v, w, d, b, s, e) && Kind(v, d) == DIR
    ensures BlockInv(w) && Leaked(w) == Leaked(v) && SameFiles(v, w)
    ensures EntriesBut(v, w, d, b, s) && Ent(w, d, b, s) == e
    ensures (w.bits == v.bits && w.saved == v.saved) || w.saved == w.bits
  {
    hide BlockInv, PutEnt, Grown, Ent;
    var nb := w.inodes[d].blocks[b];
    if v.inodes[d].blocks[b] != 0 {
      PutEntMeaning(v, w, d, b, s, e);
    } else {
      var u := Grown(v, d, b, nb);
      GrownMeaning(v, u, d, b, nb);
      PutEntMeaning(u, w, d, b, s, e);
      SameFilesTrans(v, u, w);
    }
  }
}
