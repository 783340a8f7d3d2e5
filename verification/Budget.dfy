/** Free blocks and the blocks that an access to a file still needs, counted. */
module Budget {
  import opened Bytes
  import opened FsSpec

  ghost function FreeSet(sb: Super, blk: seq<Block>): set<nat> {
    set b: nat | b < sb.size && !Used(sb, blk, b)
  }

  /** Slot u is for one of the file blocks first .. last - 1, or for the indirect block of one of them. */
  predicate SlotFor(u: nat, first: nat, last: nat) {
    if u == NDIRECT then NDIRECT < last && first < last else first <= (if u < NDIRECT then u else u - 1) < last
  }

  /** The blocks that have to be handed out before those file blocks are all there. */
  ghost function Missing(blk: seq<Block>, ino: seq<Inode>, i: nat, first: nat, last: nat): set<nat>
    requires InodesOk(ino)
  {
    set u: nat | u < NSLOT && SlotFor(u, first, last) && Slot(blk, ino, i, u) == 0
  }

  /** How many more they are than there are free blocks. */
  ghost function Debt(sb: Super, blk: seq<Block>, ino: seq<Inode>, i: nat, first: nat, last: nat): int
    requires InodesOk(ino)
  {
    |Missing(blk, ino, i, first, last)| - |FreeSet(sb, blk)|
  }

  /** Slot t of inode i is in use now, with a block that was free if it was not before; nothing else changed
      hands. */
  ghost predicate Filled(sb: Super, blk0: seq<Block>, ino0: seq<Inode>, blk: seq<Block>, ino: seq<Inode>,
                         i: nat, t: nat)
    requires InodesOk(ino0) && InodesOk(ino)
  {
    && Slot(blk, ino, i, t) != 0
    && if Slot(blk0, ino0, i, t) != 0 then blk == blk0 && ino == ino0
       else
         && Adds(blk0, ino0, blk, ino, i, t, Slot(blk, ino, i, t))
         && Slot(blk, ino, i, t) in FreeSet(sb, blk0)
         && FreeSet(sb, blk) == FreeSet(sb, blk0) - {Slot(blk, ino, i, t)}
  }

  lemma FilledPays(sb: Super, blk0: seq<Block>, ino0: seq<Inode>, blk: seq<Block>, ino: seq<Inode>, i: nat, t: nat,
                   first: nat, last: nat)
    requires InodesOk(ino0) && InodesOk(ino) && Filled(sb, blk0, ino0, blk, ino, i, t)
    requires t < NSLOT && SlotFor(t, first, last)
    ensures Debt(sb, blk, ino, i, first, last) == Debt(sb, blk0, ino0, i, first, last)
  {
    if Slot(blk0, ino0, i, t) == 0 {
      assert Missing(blk, ino, i, first, last) == Missing(blk0, ino0, i, first, last) - {t};
    }
  }

  /** Taking a block that was free. */
  lemma TakesFree(sb: Super, blk0: seq<Block>, blk: seq<Block>, r: nat)
    requires r < sb.size && !Used(sb, blk0, r) && forall c: nat :: Used(sb, blk, c) <==> c == r || Used(sb, blk0, c)
    ensures r in FreeSet(sb, blk0) && FreeSet(sb, blk) == FreeSet(sb, blk0) - {r}
  {
  }

  lemma SameFree(sb: Super, blk0: seq<Block>, blk: seq<Block>)
    requires forall c: nat :: Used(sb, blk, c) <==> Used(sb, blk0, c)
    ensures FreeSet(sb, blk) == FreeSet(sb, blk0)
  {
  }

  lemma SameDebt(sb: Super, blk0: seq<Block>, ino0: seq<Inode>, blk: seq<Block>, ino: seq<Inode>, i: nat,
                 first: nat, last: nat)
    requires InodesOk(ino0) && InodesOk(ino) && SameSlots(blk0, ino0, blk, ino)
    requires FreeSet(sb, blk) == FreeSet(sb, blk0)
    ensures Debt(sb, blk, ino, i, first, last) == Debt(sb, blk0, ino0, i, first, last)
  {
    assert Missing(blk, ino, i, first, last) == Missing(blk0, ino0, i, first, last);
  }

  /** References in use stay in use. */
  ghost predicate SlotsStay(blk0: seq<Block>, ino0: seq<Inode>, blk: seq<Block>, ino: seq<Inode>)
    requires InodesOk(ino0) && InodesOk(ino)
  {
    forall j: nat, u: nat :: Slot(blk0, ino0, j, u) != 0 ==> Slot(blk, ino, j, u) != 0
  }

  lemma FilledStays(sb: Super, blk0: seq<Block>, ino0: seq<Inode>, blk: seq<Block>, ino: seq<Inode>, i: nat, t: nat)
    requires InodesOk(ino0) && InodesOk(ino) && Filled(sb, blk0, ino0, blk, ino, i, t)
    ensures SlotsStay(blk0, ino0, blk, ino)
  {
  }

  /** With no free block and a block missing, the debt is positive. */
  lemma Broke(sb: Super, blk: seq<Block>, ino: seq<Inode>, i: nat, first: nat, last: nat, t: nat)
    requires InodesOk(ino) && t < NSLOT && SlotFor(t, first, last) && Slot(blk, ino, i, t) == 0
    requires forall b: nat :: b < sb.size ==> Used(sb, blk, b)
    ensures Debt(sb, blk, ino, i, first, last) > 0
  {
    assert t in Missing(blk, ino, i, first, last);
    assert FreeSet(sb, blk) == {};
  }

  /** With every file block there, nothing is owed. */
  lemma PaidUp(sb: Super, blk: seq<Block>, ino: seq<Inode>, i: nat, first: nat, last: nat)
    requires InodesOk(ino) && Live(ino, i) && last <= MAXFILE
    requires forall bn :: first <= bn < last ==> Slot(blk, ino, i, SlotOf(bn)) != 0
    ensures Debt(sb, blk, ino, i, first, last) <= 0
  {
    forall u: nat | u < NSLOT && SlotFor(u, first, last) ensures Slot(blk, ino, i, u) != 0 {
      var bn := if u == NDIRECT then last - 1 else if u < NDIRECT then u else u - 1;
      assert Slot(blk, ino, i, SlotOf(bn)) != 0;
    }
    assert Missing(blk, ino, i, first, last) == {};
  }

  /** The file blocks that n bytes at an offset touch: the first one, and the one behind the last. */
  function FirstBlock(off: nat): nat {
    off / BSIZE
  }

  function PastBlock(off: nat, n: nat): nat {
    if n == 0 then off / BSIZE else (off + n - 1) / BSIZE + 1
  }

  /** How many more blocks an access to n bytes at an offset needs than there are free ones. */
  ghost function Owed(sb: Super, blk: seq<Block>, ino: seq<Inode>, i: nat, off: nat, n: nat): int
    requires InodesOk(ino)
  {
    Debt(sb, blk, ino, i, FirstBlock(off), PastBlock(off, n))
  }

  /** An access to n bytes at an offset needs more blocks than are free. */
  ghost predicate TooFew(sb: Super, blk: seq<Block>, ino: seq<Inode>, i: nat, off: nat, n: nat)
    requires InodesOk(ino)
  {
    |Missing(blk, ino, i, FirstBlock(off), PastBlock(off, n))| > |FreeSet(sb, blk)|
  }

  /** The file blocks of the first n bytes from an offset are all there. */
  ghost predicate Reached(blk: seq<Block>, ino: seq<Inode>, i: nat, off: nat, n: nat)
    requires InodesOk(ino)
  {
    forall bn :: FirstBlock(off) <= bn < PastBlock(off, n) ==> Slot(blk, ino, i, SlotOf(bn)) != 0
  }

  lemma InRange(off: nat, tot: nat, n: nat)
    requires tot < n
    ensures FirstBlock(off) <= (off + tot) / BSIZE < PastBlock(off, n)
    ensures off + n <= MAXFILE * BSIZE ==> PastBlock(off, n) <= MAXFILE
  {
  }

  lemma PastNext(off: nat, tot: nat, m: nat, bn: nat)
    requires 0 < m && (off + tot) % BSIZE + m <= BSIZE && FirstBlock(off) <= bn < PastBlock(off, tot + m)
    ensures bn < PastBlock(off, tot) || bn == (off + tot) / BSIZE
  {
  }

  /** One more piece, in the block at off + tot. */
  lemma ReachedNext(blk0: seq<Block>, ino0: seq<Inode>, blk: seq<Block>, ino: seq<Inode>, i: nat, off: nat,
                    tot: nat, m: nat)
    requires InodesOk(ino0) && InodesOk(ino) && Reached(blk0, ino0, i, off, tot) && SlotsStay(blk0, ino0, blk, ino)
    requires 0 < m && (off + tot) % BSIZE + m <= BSIZE && Slot(blk, ino, i, SlotOf((off + tot) / BSIZE)) != 0
    ensures Reached(blk, ino, i, off, tot + m)
  {
    forall bn | FirstBlock(off) <= bn < PastBlock(off, tot + m) ensures Slot(blk, ino, i, SlotOf(bn)) != 0 {
      PastNext(off, tot, m, bn);
      if bn < PastBlock(off, tot) { assert Slot(blk0, ino0, i, SlotOf(bn)) != 0; }
    }
  }

  lemma AllReached(sb: Super, blk: seq<Block>, ino: seq<Inode>, i: nat, off: nat, n: nat)
    requires InodesOk(ino) && Live(ino, i) && off + n <= MAXFILE * BSIZE && Reached(blk, ino, i, off, n)
    ensures Owed(sb, blk, ino, i, off, n) <= 0
  {
    if n > 0 {
      InRange(off, n - 1, n);
      PaidUp(sb, blk, ino, i, FirstBlock(off), PastBlock(off, n));
    } else {
      assert Missing(blk, ino, i, FirstBlock(off), PastBlock(off, n)) == {};
    }
  }
}
