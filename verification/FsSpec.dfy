/** What the blocks of a file system mean (inc/fs.h, kern/fs.c): the free-block bitmap, an inode's
    block references and the bytes behind them, and the ownership of blocks. Blocks are the cached
    view: what bread returns. */
module FsSpec {
  import opened Bytes

  const NDIRECT: nat := 12
  const NINDIRECT: nat := 128
  const MAXFILE: nat := 140
  const NSLOT: nat := 141         // direct entries, the indirect pointer, indirect entries
  const IPB: nat := 8             // inodes per block
  const BPB: nat := 4096          // bitmap bits per block
  const T_DEV: nat := 3

  datatype Inode = Inode(typ: nat, major: nat, minor: nat, nlink: nat, size: nat, addrs: seq<nat>)

  /** The superblock fields the kernel uses, and the first data block that follows from them. */
  datatype Super = Super(size: nat, ninodes: nat, inodestart: nat, bmapstart: nat) {
    function DataStart(): nat {
      bmapstart + Bitmaps()
    }

    function Bitmaps(): nat {
      (size + BPB - 1) / BPB
    }

    predicate Ok() {
      && size < U32
      && 2 <= inodestart && inodestart + ninodes / IPB + 1 <= bmapstart && DataStart() < size
    }
  }

  // ---- bitmap ------------------------------------------------------------------------------

  predicate BitOf(x: nat, k: nat) {
    if k == 0 then x % 2 == 1 else BitOf(x / 2, k - 1)
  }

  /** x with bit k as given: `x |= 1 << k`, and `x ^= 1 << k` for a bit that is set. */
  function PutBit(x: nat, k: nat, v: bool): nat {
    if k == 0 then x / 2 * 2 + (if v then 1 else 0) else PutBit(x / 2, k - 1, v) * 2 + x % 2
  }

  lemma {:induction false} PutBitGet(x: nat, k: nat, v: bool, j: nat)
    ensures BitOf(PutBit(x, k, v), j) == if j == k then v else BitOf(x, j)
    decreases k
  {
    if k == 0 {
      assert PutBit(x, k, v) / 2 == x / 2;
    } else {
      assert PutBit(x, k, v) / 2 == PutBit(x / 2, k - 1, v) && PutBit(x, k, v) % 2 == x % 2;
      if j > 0 { PutBitGet(x / 2, k - 1, v, j - 1); }
    }
  }

  function Pow2(w: nat): (p: nat)
    ensures p > 0
  {
    if w == 0 then 1 else 2 * Pow2(w - 1)
  }

  lemma {:induction false} PutBitFits(x: nat, k: nat, v: bool, w: nat)
    requires k < w && x < Pow2(w)
    ensures PutBit(x, k, v) < Pow2(w)
    decreases k
  {
    if k > 0 { PutBitFits(x / 2, k - 1, v, w - 1); }
  }

  function PutBit8(x: Byte, k: nat, v: bool): (y: Byte)
    requires k < 8
    ensures forall j: nat :: BitOf(y, j) == if j == k then v else BitOf(x, j)
  {
    assert Pow2(8) == 256;
    PutBitFits(x, k, v, 8);
    assert forall j: nat :: BitOf(PutBit(x, k, v), j) == (if j == k then v else BitOf(x, j)) by {
      forall j: nat ensures BitOf(PutBit(x, k, v), j) == if j == k then v else BitOf(x, j) {
        PutBitGet(x, k, v, j);
      }
    }
    PutBit(x, k, v)
  }

  /** The bitmap's bit for block b. Blocks past the bitmap count as used. */
  predicate Used(sb: Super, blk: seq<Block>, b: nat) {
    var m := sb.bmapstart + b / BPB;
    b / BPB < sb.Bitmaps() && m < |blk| ==> BitOf(blk[m][b % BPB / 8], b % 8)
  }

  predicate Free(sb: Super, blk: seq<Block>, b: nat) {
    b < sb.size && !Used(sb, blk, b)
  }

  function Mark(sb: Super, blk: seq<Block>, b: nat): (r: seq<Block>)
    requires sb.bmapstart + b / BPB < |blk|
    ensures |r| == |blk|
  {
    var m := sb.bmapstart + b / BPB;
    blk[m := blk[m][b % BPB / 8 := PutBit8(blk[m][b % BPB / 8], b % 8, true)]]
  }

  function Unmark(sb: Super, blk: seq<Block>, b: nat): (r: seq<Block>)
    requires b / BPB < sb.Bitmaps() && sb.bmapstart + b / BPB < |blk| && Used(sb, blk, b)
    ensures |r| == |blk|
  {
    var m := sb.bmapstart + b / BPB;
    blk[m := blk[m][b % BPB / 8 := PutBit8(blk[m][b % BPB / 8], b % 8, false)]]
  }

  lemma MarkBits(sb: Super, blk: seq<Block>, b: nat, c: nat)
    requires b / BPB < sb.Bitmaps() && sb.bmapstart + b / BPB < |blk|
    ensures Used(sb, Mark(sb, blk, b), c) <==> c == b || Used(sb, blk, c)
  {
    if c / BPB == b / BPB && c % BPB / 8 == b % BPB / 8 && c % 8 == b % 8 {
      SameBit(b, c);
    }
  }

  lemma UnmarkBits(sb: Super, blk: seq<Block>, b: nat, c: nat)
    requires b / BPB < sb.Bitmaps() && sb.bmapstart + b / BPB < |blk| && Used(sb, blk, b)
    ensures Used(sb, Unmark(sb, blk, b), c) <==> c != b && Used(sb, blk, c)
  {
    if c / BPB == b / BPB && c % BPB / 8 == b % BPB / 8 && c % 8 == b % 8 {
      SameBit(b, c);
    }
  }

  lemma SameBit(b: nat, c: nat)
    requires c / BPB == b / BPB && c % BPB / 8 == b % BPB / 8 && c % 8 == b % 8
    ensures b == c
  {
    assert b % BPB % 8 == b % 8 && c % BPB % 8 == c % 8;
  }

  // ---- references --------------------------------------------------------------------------

  predicate Live(ino: seq<Inode>, i: nat) {
    i < |ino| && ino[i].typ != 0
  }

  /** What slot t of an inode refers to: slots below NDIRECT are direct entries, slot NDIRECT is
      the indirect pointer, later slots are the indirect block's entries; 0 is no reference. */
  function Ref(blk: seq<Block>, ip: Inode, t: nat): nat
    requires |ip.addrs| == NDIRECT + 1
  {
    if t <= NDIRECT then ip.addrs[t]
    else if t < NSLOT && 0 < ip.addrs[NDIRECT] < |blk| then Word(blk[ip.addrs[NDIRECT]], t - NDIRECT - 1)
    else 0
  }

  predicate InodesOk(ino: seq<Inode>) {
    forall i :: 0 <= i < |ino| ==> |ino[i].addrs| == NDIRECT + 1
  }

  /** Slot t of inode i; dead inodes refer to nothing. */
  function Slot(blk: seq<Block>, ino: seq<Inode>, i: nat, t: nat): nat
    requires InodesOk(ino)
  {
    if Live(ino, i) then Ref(blk, ino[i], t) else 0
  }

  /** The slot that holds file block bn. */
  function SlotOf(bn: nat): nat {
    if bn < NDIRECT then bn else bn + 1
  }

  predicate Shape(sb: Super, blk: seq<Block>, ino: seq<Inode>) {
    sb.Ok() && |blk| == sb.size && InodesOk(ino) && forall i :: 0 <= i < |ino| ==> ino[i].size <= MAXFILE * BSIZE
  }

  /** Every referenced block is a data block marked in the bitmap. */
  ghost predicate Marked(sb: Super, blk: seq<Block>, ino: seq<Inode>)
    requires InodesOk(ino)
  {
    forall i: nat, t: nat :: Slot(blk, ino, i, t) != 0 ==>
      sb.DataStart() <= Slot(blk, ino, i, t) < sb.size && Used(sb, blk, Slot(blk, ino, i, t))
  }

  /** No block is referenced twice. */
  ghost predicate Unshared(blk: seq<Block>, ino: seq<Inode>)
    requires InodesOk(ino)
  {
    forall i: nat, t: nat, j: nat, u: nat ::
      Slot(blk, ino, i, t) == Slot(blk, ino, j, u) && Slot(blk, ino, i, t) != 0 ==> i == j && t == u
  }

  /** Block ownership: the invariant of the allocator and the block maps. */
  ghost predicate Own(sb: Super, blk: seq<Block>, ino: seq<Inode>) {
    && Shape(sb, blk, ino)
    && Marked(sb, blk, ino)
    && Unshared(blk, ino)
    && forall b :: 0 <= b < sb.DataStart() ==> Used(sb, blk, b)
  }

  // ---- contents ----------------------------------------------------------------------------

  /** Byte k of a file; a block that was never allocated reads as zeros. */
  function ByteAt(blk: seq<Block>, ip: Inode, k: nat): Byte
    requires |ip.addrs| == NDIRECT + 1
  {
    var a := Ref(blk, ip, SlotOf(k / BSIZE));
    if 0 < a < |blk| then blk[a][k % BSIZE] else 0
  }

  function Content(blk: seq<Block>, ip: Inode): (c: seq<Byte>)
    requires |ip.addrs| == NDIRECT + 1
    ensures |c| == ip.size && forall k :: 0 <= k < ip.size ==> c[k] == ByteAt(blk, ip, k)
  {
    seq(ip.size, k requires 0 <= k < ip.size => ByteAt(blk, ip, k))
  }

  /** Bytes written over a sequence at an offset, extending it if they reach past its end. */
  function Splice(c: seq<Byte>, off: nat, s: seq<Byte>): (r: seq<Byte>)
    requires off <= |c|
  {
    c[..off] + s + if off + |s| < |c| then c[off + |s|..] else []
  }

  // ---- how a step changes references -------------------------------------------------------

  /** All references are as before, except that slot t of inode i, empty before, now is r. */
  ghost predicate Adds(blk: seq<Block>, ino: seq<Inode>, blk': seq<Block>, ino': seq<Inode>, i: nat, t: nat, r: nat)
    requires InodesOk(ino) && InodesOk(ino')
  {
    && Slot(blk, ino, i, t) == 0
    && forall j: nat, u: nat :: Slot(blk', ino', j, u) == if j == i && u == t then r else Slot(blk, ino, j, u)
  }

  ghost predicate SameSlots(blk: seq<Block>, ino: seq<Inode>, blk': seq<Block>, ino': seq<Inode>)
    requires InodesOk(ino) && InodesOk(ino')
  {
    forall j: nat, u: nat :: Slot(blk', ino', j, u) == Slot(blk, ino, j, u)
  }

  predicate SameButAddrs(a: Inode, b: Inode) {
    b.typ == a.typ && b.major == a.major && b.minor == a.minor && b.nlink == a.nlink && b.size == a.size
  }

  /** The same inodes with the same types and sizes, inodes other than i entirely equal. */
  predicate SameInodes(ino: seq<Inode>, ino': seq<Inode>, i: nat)
    requires InodesOk(ino) && InodesOk(ino')
  {
    && |ino'| == |ino|
    && (forall j :: 0 <= j < |ino| && j != i ==> ino'[j] == ino[j])
    && (i < |ino| ==> SameButAddrs(ino[i], ino'[i]))
  }

  /** Every byte of every live file reads as before. */
  ghost predicate SameBytes(blk: seq<Block>, ino: seq<Inode>, blk': seq<Block>, ino': seq<Inode>)
    requires InodesOk(ino) && InodesOk(ino')
  {
    && |ino'| == |ino|
    && (forall j: nat :: Live(ino, j) ==> Live(ino', j))
    && forall j: nat, k: nat :: Live(ino, j) ==> ByteAt(blk', ino'[j], k) == ByteAt(blk, ino[j], k)
  }

  /** A block nobody refers to, marked, past the metadata. */
  ghost predicate Spare(sb: Super, blk: seq<Block>, ino: seq<Inode>, r: nat)
    requires InodesOk(ino)
  {
    && sb.DataStart() <= r < sb.size && Used(sb, blk, r)
    && forall j: nat, u: nat :: Slot(blk, ino, j, u) != r
  }

  /** A data block that is no live inode's indirect block may change freely: references stay. */
  lemma SlotFrame(blk: seq<Block>, ino: seq<Inode>, blk': seq<Block>)
    requires InodesOk(ino) && |blk'| == |blk|
    requires forall j: nat :: Live(ino, j) && 0 < ino[j].addrs[NDIRECT] < |blk| ==>
      blk'[ino[j].addrs[NDIRECT]] == blk[ino[j].addrs[NDIRECT]]
    ensures SameSlots(blk, ino, blk', ino)
  {
  }

  /** Balloc's effect: mark a free block and zero it. It becomes spare and nothing else changes. */
  lemma Allocate(sb: Super, blk: seq<Block>, ino: seq<Inode>, r: nat)
    requires Own(sb, blk, ino) && Free(sb, blk, r)
    ensures sb.bmapstart + r / BPB < |blk|
    ensures var blk' := Mark(sb, blk, r)[r := ZeroBlock()];
      Own(sb, blk', ino) && Spare(sb, blk', ino, r) && SameSlots(blk, ino, blk', ino)
      && SameBytes(blk, ino, blk', ino)
      && forall c: nat :: Used(sb, blk', c) <==> c == r || Used(sb, blk, c)
  {
    BitmapBlock(sb, r);
    var mid := Mark(sb, blk, r);
    var blk' := mid[r := ZeroBlock()];
    forall c: nat ensures Used(sb, blk', c) <==> c == r || Used(sb, blk, c) {
      MarkBits(sb, blk, r, c);
    }
    forall j: nat, u: nat ensures Slot(blk, ino, j, u) != r {
    }
    forall j: nat | Live(ino, j) && 0 < ino[j].addrs[NDIRECT] < |blk|
      ensures blk'[ino[j].addrs[NDIRECT]] == blk[ino[j].addrs[NDIRECT]]
    {
      assert Slot(blk, ino, j, NDIRECT) == ino[j].addrs[NDIRECT];
    }
    SlotFrame(blk, ino, blk');
    BytesFrame(sb, blk, ino, blk');
  }

  /** Bitmap sectors are metadata: below the first data block, and on the disk. */
  lemma BitmapBlock(sb: Super, b: nat)
    requires sb.Ok() && b < sb.size
    ensures sb.bmapstart <= sb.bmapstart + b / BPB < sb.DataStart()
  {
  }

  lemma BytesFrame(sb: Super, blk: seq<Block>, ino: seq<Inode>, blk': seq<Block>)
    requires Shape(sb, blk, ino) && |blk'| == |blk| && SameSlots(blk, ino, blk', ino)
    requires forall j: nat, u: nat :: var a := Slot(blk, ino, j, u); 0 < a < |blk| && u != NDIRECT ==> blk'[a] == blk[a]
    ensures SameBytes(blk, ino, blk', ino)
  {
    forall j: nat, k: nat | Live(ino, j) ensures ByteAt(blk', ino[j], k) == ByteAt(blk, ino[j], k) {
      var u := SlotOf(k / BSIZE);
      assert Slot(blk', ino, j, u) == Slot(blk, ino, j, u);
    }
  }

  /** The bitmap does not see changes to data blocks. */
  lemma UsedFrame(sb: Super, blk: seq<Block>, blk': seq<Block>)
    requires sb.Ok() && |blk'| == |blk| == sb.size
    requires forall b :: 0 <= b < sb.DataStart() ==> blk'[b] == blk[b]
    ensures forall c: nat :: Used(sb, blk', c) <==> Used(sb, blk, c)
  {
  }

  /** One more reference, to a spare block, keeps ownership. */
  lemma OwnAdds(sb: Super, blk: seq<Block>, ino: seq<Inode>, blk': seq<Block>, ino': seq<Inode>, i: nat, t: nat, r: nat)
    requires Own(sb, blk, ino) && Spare(sb, blk, ino, r) && Shape(sb, blk', ino')
    requires Adds(blk, ino, blk', ino', i, t, r)
    requires forall c: nat :: Used(sb, blk', c) <==> Used(sb, blk, c)
    ensures Own(sb, blk', ino')
  {
  }

  /** One more reference, to a block of zeros, keeps every byte: it fills a hole with a hole. */
  lemma BytesAdds(blk: seq<Block>, ino: seq<Inode>, blk': seq<Block>, ino': seq<Inode>, i: nat, t: nat, r: nat)
    requires InodesOk(ino) && InodesOk(ino') && |blk'| == |blk| && r < |blk|
    requires |ino'| == |ino| && (forall j :: 0 <= j < |ino| ==> ino'[j].typ == ino[j].typ)
    requires Adds(blk, ino, blk', ino', i, t, r) && (t != NDIRECT ==> blk'[r] == ZeroBlock())
    requires forall j: nat, u: nat :: var a := Slot(blk, ino, j, u); 0 < a < |blk| && u != NDIRECT ==> blk'[a] == blk[a]
    ensures SameBytes(blk, ino, blk', ino')
  {
    forall j: nat, k: nat | Live(ino, j) ensures ByteAt(blk', ino'[j], k) == ByteAt(blk, ino[j], k) {
      var u := SlotOf(k / BSIZE);
      assert u != NDIRECT;
      assert Slot(blk', ino', j, u) == Ref(blk', ino'[j], u) && Slot(blk, ino, j, u) == Ref(blk, ino[j], u);
    }
  }

  function PutAddr(ino: seq<Inode>, i: nat, t: nat, r: nat): (ino': seq<Inode>)
    requires InodesOk(ino) && i < |ino| && t <= NDIRECT
    ensures InodesOk(ino') && SameInodes(ino, ino', i)
  {
    ino[i := ino[i].(addrs := ino[i].addrs[t := r])]
  }

  /** `ip->addrs[t] = r` for an empty entry and a freshly allocated block. */
  lemma AttachAddr(sb: Super, blk: seq<Block>, ino: seq<Inode>, i: nat, t: nat, r: nat)
    requires Own(sb, blk, ino) && Spare(sb, blk, ino, r) && blk[r] == ZeroBlock()
    requires Live(ino, i) && t <= NDIRECT && ino[i].addrs[t] == 0
    ensures Own(sb, blk, PutAddr(ino, i, t, r)) && SameBytes(blk, ino, blk, PutAddr(ino, i, t, r))
    ensures Adds(blk, ino, blk, PutAddr(ino, i, t, r), i, t, r)
  {
    var ino' := PutAddr(ino, i, t, r);
    if t == NDIRECT {
      forall w | 0 <= w < WORDS ensures Word(blk[r], w) == 0 { ZeroWords(w); }
    }
    assert Adds(blk, ino, blk, ino', i, t, r);
    OwnAdds(sb, blk, ino, blk, ino', i, t, r);
    BytesAdds(blk, ino, blk, ino', i, t, r);
  }

  /** `addrs[w] = r` in the indirect block, for an empty entry and a freshly allocated block. */
  lemma AttachEntry(sb: Super, blk: seq<Block>, ino: seq<Inode>, i: nat, w: nat, r: nat)
    requires Own(sb, blk, ino) && Spare(sb, blk, ino, r) && blk[r] == ZeroBlock()
    requires Live(ino, i) && w < NINDIRECT && 0 < ino[i].addrs[NDIRECT] < |blk|
    requires Word(blk[ino[i].addrs[NDIRECT]], w) == 0
    ensures var a := ino[i].addrs[NDIRECT];
      var blk' := blk[a := PutWord(blk[a], w, r)];
      Own(sb, blk', ino) && SameBytes(blk, ino, blk', ino) && Adds(blk, ino, blk', ino, i, NDIRECT + 1 + w, r)
  {
    var a := ino[i].addrs[NDIRECT];
    var blk' := blk[a := PutWord(blk[a], w, r)];
    PutWordGet(blk[a], w, r);
    assert Slot(blk, ino, i, NDIRECT) == a;
    var t := NDIRECT + 1 + w;
    assert Slot(blk, ino, i, t) == 0;
    forall j: nat, u: nat ensures Slot(blk', ino, j, u) == if j == i && u == t then r else Slot(blk, ino, j, u) {
      if Live(ino, j) && j != i {
        assert Slot(blk, ino, j, NDIRECT) == ino[j].addrs[NDIRECT];
      }
    }
    UsedFrame(sb, blk, blk');
    OwnAdds(sb, blk, ino, blk', ino, i, t, r);
    BytesAdds(blk, ino, blk', ino, i, t, r);
  }

  predicate PutByte(blk: seq<Block>, ino: seq<Inode>, blk': seq<Block>, i: nat, bn: nat, data: Block, j: nat, k: nat)
    requires InodesOk(ino) && Live(ino, j)
  {
    ByteAt(blk', ino[j], k) == if j == i && k / BSIZE == bn then data[k % BSIZE] else ByteAt(blk, ino[j], k)
  }

  /** File block bn of inode i now holds `data`; every other byte of every file is as before. */
  ghost predicate BlockPut(blk: seq<Block>, ino: seq<Inode>, blk': seq<Block>, i: nat, bn: nat, data: Block)
    requires InodesOk(ino)
  {
    forall j: nat, k: nat :: Live(ino, j) ==> PutByte(blk, ino, blk', i, bn, data, j, k)
  }

  /** Changing the contents of one file's block: ownership stays, and so does every byte of every
      file outside that file block. */
  lemma WriteBlock(sb: Super, blk: seq<Block>, ino: seq<Inode>, i: nat, bn: nat, data: Block)
    requires Own(sb, blk, ino) && Live(ino, i) && bn < MAXFILE && Slot(blk, ino, i, SlotOf(bn)) != 0
    ensures var a := Slot(blk, ino, i, SlotOf(bn));
      var blk' := blk[a := data];
      Own(sb, blk', ino) && SameSlots(blk, ino, blk', ino) && BlockPut(blk, ino, blk', i, bn, data)
  {
    var a := Slot(blk, ino, i, SlotOf(bn));
    var blk' := blk[a := data];
    forall j: nat | Live(ino, j) && 0 < ino[j].addrs[NDIRECT] < |blk|
      ensures blk'[ino[j].addrs[NDIRECT]] == blk[ino[j].addrs[NDIRECT]]
    {
      assert Slot(blk, ino, j, NDIRECT) == ino[j].addrs[NDIRECT];
    }
    SlotFrame(blk, ino, blk');
    UsedFrame(sb, blk, blk');
    forall j: nat, k: nat | Live(ino, j) ensures PutByte(blk, ino, blk', i, bn, data, j, k) {
      var u := SlotOf(k / BSIZE);
      assert Slot(blk', ino, j, u) == Slot(blk, ino, j, u);
      assert Slot(blk, ino, j, u) == a ==> j == i && u == SlotOf(bn);
    }
  }

  // ---- files as byte sequences -------------------------------------------------------------

  predicate WrittenByte(blk: seq<Block>, ino: seq<Inode>, blk': seq<Block>, ino': seq<Inode>,
                        i: nat, off: nat, s: seq<Byte>, j: nat, k: nat)
    requires InodesOk(ino) && InodesOk(ino') && Live(ino, j) && Live(ino', j)
  {
    ByteAt(blk', ino'[j], k) == if j == i && off <= k < off + |s| then s[k - off] else ByteAt(blk, ino[j], k)
  }

  /** Bytes `s` at offset `off` of inode i have been written, and no other byte of any file. */
  ghost predicate Written(blk: seq<Block>, ino: seq<Inode>, blk': seq<Block>, ino': seq<Inode>, i: nat, off: nat,
                          s: seq<Byte>)
    requires InodesOk(ino) && InodesOk(ino')
  {
    && |ino'| == |ino|
    && (forall j: nat :: Live(ino, j) ==> Live(ino', j))
    && forall j: nat, k: nat :: Live(ino, j) ==> WrittenByte(blk, ino, blk', ino', i, off, s, j, k)
  }

  /** One turn of writei's loop: bmap keeps all bytes, then m bytes go into one block. */
  lemma WrittenStep(blk: seq<Block>, ino: seq<Inode>, blk1: seq<Block>, ino1: seq<Inode>, blk2: seq<Block>,
                    ino2: seq<Inode>,
                    blk3: seq<Block>, i: nat, off: nat, s: seq<Byte>, piece: seq<Byte>, data: Block)
    requires InodesOk(ino) && InodesOk(ino1) && InodesOk(ino2) && |blk3| == |blk2| && Live(ino, i)
    requires Written(blk, ino, blk1, ino1, i, off, s) && SameBytes(blk1, ino1, blk2, ino2)
    requires var at := (off + |s|) % BSIZE; at + |piece| <= BSIZE
    requires var bn := (off + |s|) / BSIZE; var at := (off + |s|) % BSIZE;
      && BlockPut(blk2, ino2, blk3, i, bn, data)
      && forall x :: 0 <= x < BSIZE ==>
           data[x] == if at <= x < at + |piece| then piece[x - at] else ByteAt(blk2, ino2[i], bn * BSIZE + x)
    ensures Written(blk, ino, blk3, ino2, i, off, s + piece)
  {
    var p := off + |s|;
    forall j: nat | Live(ino, j) ensures Live(ino2, j) {
      assert Live(ino1, j);
    }
    forall j: nat, k: nat | Live(ino, j) ensures WrittenByte(blk, ino, blk3, ino2, i, off, s + piece, j, k) {
      assert Live(ino1, j) && WrittenByte(blk, ino, blk1, ino1, i, off, s, j, k);
      assert Live(ino2, j) && ByteAt(blk2, ino2[j], k) == ByteAt(blk1, ino1[j], k);
      assert PutByte(blk2, ino2, blk3, i, p / BSIZE, data, j, k);
      if j == i && k / BSIZE == p / BSIZE {
        assert k == p / BSIZE * BSIZE + k % BSIZE;
      }
    }
  }

  /** Writing within or just past a file is splicing into its contents. */
  lemma WrittenContent(blk: seq<Block>, ip: Inode, blk': seq<Block>, ip': Inode, off: nat, s: seq<Byte>)
    requires |ip.addrs| == |ip'.addrs| == NDIRECT + 1 && off <= ip.size
    requires ip'.size == if off + |s| > ip.size then off + |s| else ip.size
    requires forall k: nat :: ByteAt(blk', ip', k) == if off <= k < off + |s| then s[k - off] else ByteAt(blk, ip, k)
    ensures Content(blk', ip') == Splice(Content(blk, ip), off, s)
  {
    var c := Splice(Content(blk, ip), off, s);
    assert |c| == ip'.size;
    forall k | 0 <= k < |c| ensures Content(blk', ip')[k] == c[k] {
    }
  }

  /** Sizes are not references: changing one keeps ownership. */
  lemma PutSize(sb: Super, blk: seq<Block>, ino: seq<Inode>, i: nat, size: nat)
    requires Own(sb, blk, ino) && i < |ino| && size <= MAXFILE * BSIZE
    ensures Own(sb, blk, ino[i := ino[i].(size := size)])
  {
    var ino' := ino[i := ino[i].(size := size)];
    assert forall j: nat, u: nat :: Slot(blk, ino', j, u) == Slot(blk, ino, j, u);
  }
}
