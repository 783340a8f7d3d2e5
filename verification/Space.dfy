/** How many blocks a file takes, and that handing them out one file block at a time, as iappend of
    user/src/mkfs/main.c does, takes exactly that many. */
module Space {
  import opened Bytes
  import opened FsSpec

  /** The blocks of a file of the given length: its data, and the indirect block past the direct ones. */
  function Blocks(len: nat): nat {
    (len + BSIZE - 1) / BSIZE + if len > NDIRECT * BSIZE then 1 else 0
  }

  /** Whether slot u is in use in a file of the given length. */
  predicate Needed(u: nat, len: nat) {
    (if u <= NDIRECT then u else u - 1) * BSIZE < len
  }

  predicate SnugAt(blk: seq<Block>, ino: seq<Inode>, i: nat, off: nat, j: nat, u: nat)
    requires InodesOk(ino)
  {
    Slot(blk, ino, j, u) != 0 <==> Live(ino, j) && Needed(u, if j == i then off else ino[j].size)
  }

  /** Every file has exactly the blocks that its size needs, and file i those that off needs. */
  ghost predicate Snug(blk: seq<Block>, ino: seq<Inode>, i: nat, off: nat)
    requires InodesOk(ino)
  {
    forall j: nat, u: nat :: u < NSLOT ==> SnugAt(blk, ino, i, off, j, u)
  }

  /** Slot t of inode i is in use now, for n blocks; no other slot came or went. */
  ghost predicate Fills(blk: seq<Block>, ino: seq<Inode>, blk': seq<Block>, ino': seq<Inode>, i: nat, t: nat, n: int)
    requires InodesOk(ino) && InodesOk(ino')
  {
    && n == (if Slot(blk, ino, i, t) == 0 then 1 else 0)
    && forall j: nat, u: nat :: FillsAt(blk, ino, blk', ino', i, t, j, u)
  }

  predicate FillsAt(blk: seq<Block>, ino: seq<Inode>, blk': seq<Block>, ino': seq<Inode>, i: nat, t: nat, j: nat,
                    u: nat)
    requires InodesOk(ino) && InodesOk(ino')
  {
    Slot(blk', ino', j, u) != 0 <==> Slot(blk, ino, j, u) != 0 || (j == i && u == t)
  }

  /** How many blocks must be handed out for file block bn. */
  function Missing(blk: seq<Block>, ino: seq<Inode>, i: nat, bn: nat): nat
    requires InodesOk(ino)
  {
    (if bn >= NDIRECT && Slot(blk, ino, i, NDIRECT) == 0 then 1 else 0)
    + if Slot(blk, ino, i, SlotOf(bn)) == 0 then 1 else 0
  }

  predicate InUseFor(i: nat, bn: nat, j: nat, u: nat) {
    j == i && (u == SlotOf(bn) || (bn >= NDIRECT && u == NDIRECT))
  }

  predicate TakesAt(blk: seq<Block>, ino: seq<Inode>, blk': seq<Block>, ino': seq<Inode>, i: nat, bn: nat, j: nat,
                    u: nat)
    requires InodesOk(ino) && InodesOk(ino')
  {
    Slot(blk', ino', j, u) != 0 <==> Slot(blk, ino, j, u) != 0 || InUseFor(i, bn, j, u)
  }

  /** File block bn of inode i has its slots in use now, for n blocks; no other slot came or went. */
  ghost predicate Takes(blk: seq<Block>, ino: seq<Inode>, blk': seq<Block>, ino': seq<Inode>, i: nat, bn: nat, n: int)
    requires InodesOk(ino) && InodesOk(ino')
  {
    n == Missing(blk, ino, i, bn) && forall j: nat, u: nat :: TakesAt(blk, ino, blk', ino', i, bn, j, u)
  }

  lemma AddsFills(blk: seq<Block>, ino: seq<Inode>, blk1: seq<Block>, blk': seq<Block>, ino': seq<Inode>, i: nat,
                  t: nat, r: nat)
    requires InodesOk(ino) && InodesOk(ino') && r != 0
    requires SameSlots(blk, ino, blk1, ino) && Adds(blk1, ino, blk', ino', i, t, r)
    ensures Fills(blk, ino, blk', ino', i, t, 1)
  {
    forall j: nat, u: nat ensures FillsAt(blk, ino, blk', ino', i, t, j, u) {
      assert Slot(blk1, ino, j, u) == Slot(blk, ino, j, u);
    }
    assert Slot(blk1, ino, i, t) == Slot(blk, ino, i, t);
  }

  lemma FillsNothing(blk: seq<Block>, ino: seq<Inode>, i: nat, t: nat)
    requires InodesOk(ino) && Slot(blk, ino, i, t) != 0
    ensures Fills(blk, ino, blk, ino, i, t, 0)
  {
  }

  lemma TakesDirect(blk: seq<Block>, ino: seq<Inode>, blk': seq<Block>, ino': seq<Inode>, i: nat, bn: nat, n: int)
    requires InodesOk(ino) && InodesOk(ino') && bn < NDIRECT && Fills(blk, ino, blk', ino', i, bn, n)
    ensures Takes(blk, ino, blk', ino', i, bn, n)
  {
    forall j: nat, u: nat ensures TakesAt(blk, ino, blk', ino', i, bn, j, u) {
      assert FillsAt(blk, ino, blk', ino', i, bn, j, u);
    }
  }

  lemma TakesIndirect(blk: seq<Block>, ino: seq<Inode>, blk1: seq<Block>, ino1: seq<Inode>, blk': seq<Block>,
                      i: nat, bn: nat, n: int, m: int)
    requires InodesOk(ino) && InodesOk(ino1) && NDIRECT <= bn
    requires Fills(blk, ino, blk1, ino1, i, NDIRECT, n) && Fills(blk1, ino1, blk', ino1, i, SlotOf(bn), m)
    ensures Takes(blk, ino, blk', ino1, i, bn, n + m)
  {
    assert FillsAt(blk, ino, blk1, ino1, i, NDIRECT, i, SlotOf(bn));
    forall j: nat, u: nat ensures TakesAt(blk, ino, blk', ino1, i, bn, j, u) {
      assert FillsAt(blk, ino, blk1, ino1, i, NDIRECT, j, u) && FillsAt(blk1, ino1, blk', ino1, i, SlotOf(bn), j, u);
    }
  }

  lemma TakesThen(blk: seq<Block>, ino: seq<Inode>, blk1: seq<Block>, ino1: seq<Inode>, blk': seq<Block>, i: nat,
                  bn: nat, n: int)
    requires InodesOk(ino) && InodesOk(ino1) && Takes(blk, ino, blk1, ino1, i, bn, n)
    requires SameSlots(blk1, ino1, blk', ino1)
    ensures Takes(blk, ino, blk', ino1, i, bn, n)
  {
    forall j: nat, u: nat ensures TakesAt(blk, ino, blk', ino1, i, bn, j, u) {
      assert TakesAt(blk, ino, blk1, ino1, i, bn, j, u) && Slot(blk', ino1, j, u) == Slot(blk1, ino1, j, u);
    }
  }

  /** The arithmetic of one turn: n bytes that stay within the block at off. */
  lemma BlocksStep(off: nat, n: nat)
    requires 0 < n && off % BSIZE + n <= BSIZE
    ensures Blocks(off + n)
      == Blocks(off) + (if off % BSIZE == 0 then 1 else 0) + (if off == NDIRECT * BSIZE then 1 else 0)
  {
  }

  lemma NeededStep(off: nat, n: nat, u: nat)
    requires 0 < n && off % BSIZE + n <= BSIZE
    ensures Needed(u, off + n) <==> Needed(u, off) || InUseFor(0, off / BSIZE, 0, u)
  {
    var bn, pos := off / BSIZE, if u <= NDIRECT then u else u - 1;
    if pos < bn { assert pos * BSIZE + BSIZE <= bn * BSIZE; }
    if pos > bn { assert bn * BSIZE + BSIZE <= pos * BSIZE; }
  }

  /** One turn of iappend's loop takes exactly the blocks by which the file's count grows. */
  lemma SnugStep(blk: seq<Block>, ino: seq<Inode>, blk': seq<Block>, ino': seq<Inode>, i: nat, off: nat, n: nat,
                 taken: int)
    requires InodesOk(ino) && InodesOk(ino') && Live(ino, i) && SameInodes(ino, ino', i)
    requires 0 < n && off % BSIZE + n <= BSIZE && off / BSIZE < MAXFILE
    requires Snug(blk, ino, i, off) && Takes(blk, ino, blk', ino', i, off / BSIZE, taken)
    ensures Snug(blk', ino', i, off + n) && taken == Blocks(off + n) - Blocks(off)
  {
    var end := off + n;
    forall j: nat, u: nat | u < NSLOT ensures SnugAt(blk', ino', i, end, j, u) {
      assert SnugAt(blk, ino, i, off, j, u) && TakesAt(blk, ino, blk', ino', i, off / BSIZE, j, u);
      NeededStep(off, n, u);
    }
    SnugMissing(blk, ino, i, off);
    BlocksStep(off, n);
  }

  lemma SnugMissing(blk: seq<Block>, ino: seq<Inode>, i: nat, off: nat)
    requires InodesOk(ino) && Live(ino, i) && Snug(blk, ino, i, off) && off / BSIZE < MAXFILE
    ensures Missing(blk, ino, i, off / BSIZE)
      == (if off % BSIZE == 0 then 1 else 0) + (if off == NDIRECT * BSIZE then 1 else 0)
  {
    assert SnugAt(blk, ino, i, off, i, NDIRECT) && SnugAt(blk, ino, i, off, i, SlotOf(off / BSIZE));
  }

  /** The blocks of all files. */
  function SumTo(files: map<nat, seq<Byte>>, n: nat): nat {
    if n == 0 then 0 else SumTo(files, n - 1) + Blocks(|BytesOf(files, n - 1)|)
  }

  function BytesOf(files: map<nat, seq<Byte>>, i: nat): seq<Byte> {
    if i in files then files[i] else []
  }

  lemma {:induction false} SumPut(files: map<nat, seq<Byte>>, i: nat, c: seq<Byte>, n: nat)
    ensures SumTo(files[i := c], n) == SumTo(files, n) + if i < n then Blocks(|c|) - Blocks(|BytesOf(files, i)|) else 0
  {
    if n > 0 { SumPut(files, i, c, n - 1); }
  }

  /** A turn that finds no block for its bytes. */
  lemma SnugShort(blk: seq<Block>, ino: seq<Inode>, i: nat, off: nat, n: nat)
    requires InodesOk(ino) && Live(ino, i) && Snug(blk, ino, i, off) && off / BSIZE < MAXFILE
    requires 0 < n && off % BSIZE + n <= BSIZE
    ensures Missing(blk, ino, i, off / BSIZE) == Blocks(off + n) - Blocks(off)
  {
    SnugMissing(blk, ino, i, off);
    BlocksStep(off, n);
  }

  lemma BlocksGrow(m: nat, n: nat)
    requires m <= n
    ensures Blocks(m) <= Blocks(n)
  {
  }

  /** With the pointer taken, the entry is what is missing. */
  lemma MissingEntry(blk: seq<Block>, ino: seq<Inode>, blk1: seq<Block>, ino1: seq<Inode>, i: nat, bn: nat, n: int)
    requires InodesOk(ino) && InodesOk(ino1) && NDIRECT <= bn && Fills(blk, ino, blk1, ino1, i, NDIRECT, n)
    requires Slot(blk1, ino1, i, SlotOf(bn)) == 0
    ensures Missing(blk, ino, i, bn) == n + 1
  {
    assert FillsAt(blk, ino, blk1, ino1, i, NDIRECT, i, SlotOf(bn));
  }
}
