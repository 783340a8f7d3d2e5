/** kern/fs.c: the block allocator, block maps, inode contents and inode allocation, as methods that
    change the cached blocks and the current inodes in place. */
module Fs {
  import opened Bytes
  import opened FsSpec
  import opened Budget

  const U64: nat := 0x1_0000_0000_0000_0000
  const FAILED: int := -1       // the source returns -1
  const STUCK: int := -2        // balloc finds no free block; the source has no return there

  predicate HasFree(sb: Super, blk: seq<Block>) {
    exists b :: 0 <= b < sb.size && !Used(sb, blk, b)
  }

  lemma ModAdd(q: nat, j: nat)
    ensures (8 * q + j) % 8 == j % 8
  {
  }

  /** Bit j of the bitmap sector that starts at block number i. */
  lemma BitIndex(i: nat, j: nat)
    requires i % BPB == 0 && j < BPB
    ensures (i + j) / BPB == i / BPB && (i + j) % BPB == j && (i + j) % 8 == j % 8
  {
    ModAdd(512 * (i / BPB), j);
  }

  /** s are the bytes of a file at an offset. */
  predicate BytesAt(s: seq<Byte>, blk: seq<Block>, ip: Inode, off: nat)
    requires |ip.addrs| == NDIRECT + 1
  {
    forall k :: 0 <= k < |s| ==> s[k] == ByteAt(blk, ip, off + k)
  }

  lemma BytesOn(s: seq<Byte>, t: seq<Byte>, blk: seq<Block>, ip: Inode, blk1: seq<Block>, ip1: Inode, off: nat, p: nat)
    requires |ip.addrs| == |ip1.addrs| == NDIRECT + 1 && p == off + |s| && BytesAt(s, blk, ip, off)
    requires BytesAt(t, blk1, ip1, p) && forall k: nat :: ByteAt(blk1, ip1, k) == ByteAt(blk, ip, k)
    ensures BytesAt(s + t, blk, ip, off)
  {
    forall k | 0 <= k < |s + t| ensures (s + t)[k] == ByteAt(blk, ip, off + k) {
      if k >= |s| { assert (s + t)[k] == t[k - |s|] == ByteAt(blk1, ip1, p + (k - |s|)); }
    }
  }

  lemma ReadWhole(blk: seq<Block>, ip: Inode, off: nat, n: nat, dst: seq<Byte>)
    requires |ip.addrs| == NDIRECT + 1 && off + n <= ip.size && |dst| == n
    requires BytesAt(dst, blk, ip, off)
    ensures dst == Content(blk, ip)[off..off + n]
  {
  }

  class FileSystem {
    const sb: Super
    var blk: seq<Block>         // what bread returns
    var ino: seq<Inode>         // the current inodes: the cached copy of each, else the one on disk

    ghost predicate Valid()
      reads this
    {
      Own(sb, blk, ino)
    }

    constructor (sb: Super, blk: seq<Block>, ino: seq<Inode>)
      requires Own(sb, blk, ino)
      ensures Valid() && this.sb == sb && this.blk == blk && this.ino == ino
    {
      this.sb, this.blk, this.ino := sb, blk, ino;
    }

    /** The least free block, marked and zeroed. */
    method Balloc() returns (r: nat)
      requires Valid() && HasFree(sb, blk)
      modifies this`blk
      ensures Free(sb, old(blk), r) && forall b :: 0 <= b < r ==> Used(sb, old(blk), b)
      ensures sb.bmapstart + r / BPB < |old(blk)| && blk == Mark(sb, old(blk), r)[r := ZeroBlock()]
      ensures Valid() && Spare(sb, blk, ino, r)
      ensures SameSlots(old(blk), ino, blk, ino) && SameBytes(old(blk), ino, blk, ino)
      ensures r in FreeSet(sb, old(blk)) && FreeSet(sb, blk) == FreeSet(sb, old(blk)) - {r}
    {
      var i := 0;
      while i < sb.size
        invariant i % BPB == 0 && blk == old(blk)
        invariant forall b :: 0 <= b < i ==> Used(sb, blk, b)
      {
        BitmapBlock(sb, i);
        var bf := blk[sb.bmapstart + i / BPB];
        var j := 0;
        while j < BPB
          invariant 0 <= j <= BPB && blk == old(blk)
          invariant forall b :: 0 <= b < i + j ==> Used(sb, blk, b)
        {
          BitIndex(i, j);
          if !BitOf(bf[j / 8], j % 8) {
            r := i + j;
            Allocate(sb, blk, ino, r);
            blk := Mark(sb, blk, r);
            blk := blk[r := ZeroBlock()];
            TakesFree(sb, old(blk), blk, r);
            return;
          }
          j := j + 1;
        }
        i := i + BPB;
      }
      assert false;
    }

    method Bfree(b: nat)
      requires sb.Ok() && |blk| == sb.size && b < sb.size && Used(sb, blk, b)
      modifies this`blk
      ensures |blk| == sb.size && forall c :: sb.DataStart() <= c < sb.size ==> blk[c] == old(blk)[c]
      ensures forall c: nat :: Used(sb, blk, c) <==> c != b && Used(sb, old(blk), c)
    {
      BitmapBlock(sb, b);
      forall c: nat ensures Used(sb, Unmark(sb, blk, b), c) <==> c != b && Used(sb, blk, c) {
        UnmarkBits(sb, blk, b, c);
      }
      blk := Unmark(sb, blk, b);
    }

    /** The disk block of file block bn, allocated if there is none; 0 when the disk is full.
        Whatever is allocated, every byte of every file reads as before. Each block taken is one that the
        file blocks first .. last - 1 needed. */
    method Bmap(i: nat, bn: nat, ghost first: nat, ghost last: nat) returns (a: nat)
      requires Valid() && Live(ino, i) && bn < MAXFILE && first <= bn < last
      modifies this`blk, this`ino
      ensures Valid() && SameInodes(old(ino), ino, i)
      ensures SameBytes(old(blk), old(ino), blk, ino)
      ensures a == 0 ==> !HasFree(sb, blk) && Debt(sb, blk, ino, i, first, last) > 0
      ensures a != 0 ==> a < |blk| && a == Slot(blk, ino, i, SlotOf(bn))
      ensures old(Slot(blk, ino, i, SlotOf(bn))) != 0 ==> a != 0 && blk == old(blk) && ino == old(ino)
      ensures Debt(sb, blk, ino, i, first, last) == Debt(sb, old(blk), old(ino), i, first, last)
      ensures SlotsStay(old(blk), old(ino), blk, ino)
    {
      if bn < NDIRECT {
        a := BmapAddr(i, bn);
        if a == 0 {
          Broke(sb, blk, ino, i, first, last, bn);
        } else {
          FilledPays(sb, old(blk), old(ino), blk, ino, i, bn, first, last);
          FilledStays(sb, old(blk), old(ino), blk, ino, i, bn);
        }
        return;
      }
      a := BmapIndirect(i, bn, first, last);
    }

    /** bmap behind the direct entries. */
    method BmapIndirect(i: nat, bn: nat, ghost first: nat, ghost last: nat) returns (a: nat)
      requires Valid() && Live(ino, i) && NDIRECT <= bn < MAXFILE && first <= bn < last
      modifies this`blk, this`ino
      ensures Valid() && SameInodes(old(ino), ino, i)
      ensures SameBytes(old(blk), old(ino), blk, ino)
      ensures a == 0 ==> !HasFree(sb, blk) && Debt(sb, blk, ino, i, first, last) > 0
      ensures a != 0 ==> a < |blk| && a == Slot(blk, ino, i, SlotOf(bn))
      ensures old(Slot(blk, ino, i, SlotOf(bn))) != 0 ==> a != 0 && blk == old(blk) && ino == old(ino)
      ensures Debt(sb, blk, ino, i, first, last) == Debt(sb, old(blk), old(ino), i, first, last)
      ensures SlotsStay(old(blk), old(ino), blk, ino)
    {
      var ind := BmapAddr(i, NDIRECT);
      if ind == 0 {
        Broke(sb, blk, ino, i, first, last, NDIRECT);
        return 0;
      }
      FilledPays(sb, old(blk), old(ino), blk, ino, i, NDIRECT, first, last);
      FilledStays(sb, old(blk), old(ino), blk, ino, i, NDIRECT);
      a := BmapLast(i, bn, first, last);
    }

    /** bmap once the indirect block is there. */
    method BmapLast(i: nat, bn: nat, ghost first: nat, ghost last: nat) returns (a: nat)
      requires Valid() && Live(ino, i) && NDIRECT <= bn < MAXFILE && first <= bn < last
      requires 0 < ino[i].addrs[NDIRECT] < |blk|
      modifies this`blk
      ensures Valid() && SameBytes(old(blk), ino, blk, ino)
      ensures a == 0 ==> !HasFree(sb, blk) && Debt(sb, blk, ino, i, first, last) > 0
      ensures a != 0 ==> a < |blk| && a == Slot(blk, ino, i, SlotOf(bn))
      ensures old(Slot(blk, ino, i, SlotOf(bn))) != 0 ==> a != 0 && blk == old(blk)
      ensures Debt(sb, blk, ino, i, first, last) == Debt(sb, old(blk), ino, i, first, last)
      ensures SlotsStay(old(blk), ino, blk, ino)
    {
      a := BmapEntry(i, bn - NDIRECT);
      if a == 0 {
        Broke(sb, blk, ino, i, first, last, bn + 1);
      } else {
        FilledPays(sb, old(blk), ino, blk, ino, i, bn + 1, first, last);
        FilledStays(sb, old(blk), ino, blk, ino, i, bn + 1);
      }
    }

    /** The two uses of `ip->addrs`: a direct entry, or the indirect pointer. */
    method BmapAddr(i: nat, t: nat) returns (a: nat)
      requires Valid() && Live(ino, i) && t <= NDIRECT
      modifies this`blk, this`ino
      ensures Valid() && SameInodes(old(ino), ino, i)
      ensures SameBytes(old(blk), old(ino), blk, ino)
      ensures a == 0 ==> !HasFree(sb, blk) && blk == old(blk) && ino == old(ino) && Slot(blk, ino, i, t) == 0
      ensures a != 0 ==> a < |blk| && a == ino[i].addrs[t] == Slot(blk, ino, i, t)
      ensures a != 0 ==> Filled(sb, old(blk), old(ino), blk, ino, i, t)
    {
      if ino[i].addrs[t] == 0 {
        if !HasFree(sb, blk) {
          return 0;
        }
        var r := Balloc();
        AttachAddr(sb, blk, ino, i, t, r);
        ino := PutAddr(ino, i, t, r);
      }
      a := ino[i].addrs[t];
      assert a == Slot(blk, ino, i, t);
    }

    method BmapEntry(i: nat, w: nat) returns (a: nat)
      requires Valid() && Live(ino, i) && w < NINDIRECT && 0 < ino[i].addrs[NDIRECT] < |blk|
      modifies this`blk
      ensures Valid()
      ensures SameBytes(old(blk), ino, blk, ino)
      ensures a == 0 ==> !HasFree(sb, blk) && blk == old(blk) && Slot(blk, ino, i, NDIRECT + 1 + w) == 0
      ensures a != 0 ==> a < |blk| && a == Slot(blk, ino, i, NDIRECT + 1 + w)
      ensures a != 0 ==> Filled(sb, old(blk), ino, blk, ino, i, NDIRECT + 1 + w)
    {
      var ind := ino[i].addrs[NDIRECT];
      assert Slot(blk, ino, i, NDIRECT) == ind;
      if Word(blk[ind], w) == 0 {
        if !HasFree(sb, blk) {
          return 0;
        }
        var r := Balloc();
        assert Slot(blk, ino, i, NDIRECT + 1 + w) == 0;
        AttachEntry(sb, blk, ino, i, w, r);
        ghost var blk1 := blk;
        blk := blk[ind := PutWord(blk[ind], w, r)];
        UsedFrame(sb, blk1, blk);
        SameFree(sb, blk1, blk);
      }
      a := Word(blk[ind], w);
      assert a == Slot(blk, ino, i, NDIRECT + 1 + w);
    }

    /** The disk block of a piece of an access to n bytes at off0: the m bytes at p, tot bytes on. */
    method FileBlock(i: nat, p: nat, ghost off0: nat, ghost n: nat, ghost tot: nat, ghost m: nat) returns (a: nat)
      requires Valid() && Live(ino, i) && p / BSIZE < MAXFILE && p % BSIZE + m <= BSIZE
      requires 0 < m && tot < n && p == off0 + tot && Reached(blk, ino, i, off0, tot)
      modifies this`blk, this`ino
      ensures Valid() && SameInodes(old(ino), ino, i) && SameBytes(old(blk), old(ino), blk, ino)
      ensures Owed(sb, blk, ino, i, off0, n) == Owed(sb, old(blk), old(ino), i, off0, n)
      ensures a == 0 ==> !HasFree(sb, blk) && Owed(sb, blk, ino, i, off0, n) > 0
      ensures a != 0 ==> a < |blk| && a == Slot(blk, ino, i, SlotOf(p / BSIZE)) && Reached(blk, ino, i, off0, tot + m)
    {
      InRange(off0, tot, n);
      a := Bmap(i, p / BSIZE, FirstBlock(off0), PastBlock(off0, n));
      if a != 0 { ReachedNext(old(blk), old(ino), blk, ino, i, off0, tot, m); }
    }

    /** One turn of readi's loop. */
    method ReadPiece(i: nat, p: nat, m: nat, ghost off0: nat, ghost n: nat, ghost tot: nat)
      returns (ok: bool, piece: seq<Byte>)
      requires Valid() && Live(ino, i) && p / BSIZE < MAXFILE && p % BSIZE + m <= BSIZE
      requires 0 < m && tot < n && p == off0 + tot && Reached(blk, ino, i, off0, tot)
      modifies this`blk, this`ino
      ensures Valid() && SameInodes(old(ino), ino, i) && SameBytes(old(blk), old(ino), blk, ino)
      ensures Owed(sb, blk, ino, i, off0, n) == Owed(sb, old(blk), old(ino), i, off0, n)
      ensures !ok ==> !HasFree(sb, blk) && Owed(sb, blk, ino, i, off0, n) > 0
      ensures ok ==> Reached(blk, ino, i, off0, tot + m) && |piece| == m
      ensures ok ==> BytesAt(piece, old(blk), old(ino)[i], p)
    {
      var a := FileBlock(i, p, off0, n, tot, m);
      ok, piece := a != 0, [];
      if ok {
        piece := blk[a][p % BSIZE..p % BSIZE + m];
        PieceRead(blk, ino[i], old(blk), old(ino)[i], p, piece, a);
      }
    }

    /** readi returns exactly the slice of the file's contents, and changes no byte of any file. It finds the
        disk full exactly when the slice lacks more blocks than are free. */
    method Readi(i: nat, off0: nat, n0: nat) returns (r: int, dst: seq<Byte>)
      requires Valid() && Live(ino, i) && ino[i].typ != T_DEV && off0 < U64 && n0 < U64
      modifies this`blk, this`ino
      ensures Valid() && SameInodes(old(ino), ino, i) && SameBytes(old(blk), old(ino), blk, ino)
      ensures r == FAILED <==> off0 > old(ino)[i].size || off0 + n0 >= U64
      ensures r == STUCK ==> !HasFree(sb, blk)
      ensures r == STUCK <==>
        r != FAILED && TooFew(sb, old(blk), old(ino), i, off0, Least(n0, old(ino)[i].size - off0))
      ensures r != FAILED && r != STUCK ==>
        && r == (if off0 + n0 > old(ino)[i].size then old(ino)[i].size - off0 else n0)
        && dst == Content(old(blk), old(ino)[i])[off0..off0 + r]
    {
      dst := [];
      if off0 > ino[i].size || (off0 + n0) % U64 < off0 {
        return FAILED, [];
      }
      var n := n0;
      if off0 + n > ino[i].size {
        n := ino[i].size - off0;
      }
      var ok;
      ok, dst := ReadRange(i, off0, n);
      r := if ok then n else STUCK;
    }

    /** The loop of readi, over bytes that the file has. */
    method ReadRange(i: nat, off0: nat, n: nat) returns (ok: bool, dst: seq<Byte>)
      requires Valid() && Live(ino, i) && off0 + n <= ino[i].size
      modifies this`blk, this`ino
      ensures Valid() && SameInodes(old(ino), ino, i) && SameBytes(old(blk), old(ino), blk, ino)
      ensures !ok ==> !HasFree(sb, blk)
      ensures ok <==> !TooFew(sb, old(blk), old(ino), i, off0, n)
      ensures ok ==> dst == Content(old(blk), old(ino)[i])[off0..off0 + n]
    {
      dst := [];
      var off, tot := off0, 0;
      while tot < n
        invariant Valid() && SameInodes(old(ino), ino, i) && SameBytes(old(blk), old(ino), blk, ino) && Live(ino, i)
        invariant Owed(sb, blk, ino, i, off0, n) == Owed(sb, old(blk), old(ino), i, off0, n)
        invariant Reached(blk, ino, i, off0, tot)
        invariant tot <= n && off == off0 + tot && tot == |dst|
        invariant off0 + n <= old(ino)[i].size
        invariant BytesAt(dst, old(blk), old(ino)[i], off0)
      {
        var m := Least(n - tot, BSIZE - off % BSIZE);
        ghost var blk1, ino1 := blk, ino;
        var piece;
        ok, piece := ReadPiece(i, off, m, off0, n, tot);
        if !ok {
          return false, [];
        }
        BytesOn(dst, piece, old(blk), old(ino)[i], blk1, ino1[i], off0, off);
        dst := dst + piece;
        tot, off := tot + m, off + m;
      }
      ok := true;
      AllReached(sb, blk, ino, i, off0, n);
      ReadWhole(old(blk), old(ino)[i], off0, n, dst);
    }

    /** One turn of writei's loop: bytes that fit in the block at offset p. */
    method WritePiece(i: nat, piece: seq<Byte>, p: nat, ghost blk0: seq<Block>, ghost ino0: seq<Inode>,
                      ghost off0: nat, ghost s: seq<Byte>, ghost t: seq<Byte>, ghost n: nat)
      returns (ok: bool)
      requires Valid() && Live(ino, i) && p / BSIZE < MAXFILE && p % BSIZE + |piece| <= BSIZE
      requires InodesOk(ino0) && Live(ino0, i) && Written(blk0, ino0, blk, ino, i, off0, s) && p == off0 + |s|
      requires 0 < |piece| && |s| < n && t == s + piece && Reached(blk, ino, i, off0, |s|)
      modifies this`blk, this`ino
      ensures Valid() && SameInodes(old(ino), ino, i)
      ensures Owed(sb, blk, ino, i, off0, n) == Owed(sb, old(blk), old(ino), i, off0, n)
      ensures ok ==> Reached(blk, ino, i, off0, |t|) && Written(blk0, ino0, blk, ino, i, off0, t)
      ensures !ok ==> !HasFree(sb, blk) && SameBytes(old(blk), old(ino), blk, ino)
      ensures !ok ==> Owed(sb, blk, ino, i, off0, n) > 0
    {
      var a := FileBlock(i, p, off0, n, |s|, |piece|);
      if a == 0 {
        return false;
      }
      var at := p % BSIZE;
      var data := Patched(blk[a], at, piece);
      WriteBlock(sb, blk, ino, i, p / BSIZE, data);
      PieceDebt(sb, blk, ino, blk[a := data], i, a, off0, n, |s| + |piece|);
      PutPiece(blk0, ino0, old(blk), old(ino), blk, ino, i, off0, s, piece, p, a, data);
      blk := blk[a := data];
      ok := true;
    }

    /** writei splices bytes into the contents of one file and leaves every other file alone. */
    method Writei(i: nat, src: seq<Byte>, off0: nat) returns (r: int)
      requires Valid() && Live(ino, i) && ino[i].typ != T_DEV && off0 < U64 && |src| < U64
      modifies this`blk, this`ino
      ensures Valid() && |ino| == |old(ino)|
      ensures forall j :: 0 <= j < |ino| && j != i ==> ino[j] == old(ino)[j]
      ensures forall j: nat :: Live(old(ino), j) && j != i ==> Content(blk, ino[j]) == Content(old(blk), old(ino)[j])
      ensures r == FAILED <==> off0 > old(ino)[i].size || off0 + |src| > MAXFILE * BSIZE
      ensures r == FAILED ==> blk == old(blk) && ino == old(ino)
      ensures ino[i] == old(ino)[i].(addrs := ino[i].addrs, size := ino[i].size)
      ensures r == STUCK ==> !HasFree(sb, blk)
      ensures r == STUCK <==> r != FAILED && TooFew(sb, old(blk), old(ino), i, off0, |src|)
      ensures r != FAILED && r != STUCK ==> Reached(blk, ino, i, off0, |src|)
      ensures r != FAILED && r != STUCK ==>
        r == |src| && Content(blk, ino[i]) == Splice(Content(old(blk), old(ino)[i]), off0, src)
      ensures r == STUCK ==>
        exists m :: 0 <= m < |src| && Content(blk, ino[i]) == Cut(old(blk), old(ino)[i], off0, src[..m])
    {
      var n := |src|;
      if off0 > ino[i].size || (off0 + n) % U64 < off0 {
        return FAILED;
      }
      if off0 + n > MAXFILE * BSIZE {
        return FAILED;
      }
      var off, tot := off0, 0;
      ghost var done: seq<Byte> := [];
      while tot < n
        invariant Valid() && SameInodes(old(ino), ino, i) && Live(ino, i) && off0 <= old(ino)[i].size
        invariant tot <= n && off == off0 + tot
        invariant done == src[..tot] && Written(old(blk), old(ino), blk, ino, i, off0, done)
        invariant Reached(blk, ino, i, off0, tot)
        invariant Owed(sb, blk, ino, i, off0, n) == Owed(sb, old(blk), old(ino), i, off0, n)
      {
        var m := Least(n - tot, BSIZE - off % BSIZE);
        ghost var blk1, ino1, next := blk, ino, src[..tot + m];
        var ok := WritePiece(i, src[tot..tot + m], off, old(blk), old(ino), off0, done, next, n);
        if !ok {
          StuckContent(old(blk), old(ino), blk1, ino1, blk, ino, i, off0, done);
          OthersKept(old(blk), old(ino), blk1, ino1, blk, ino, i, off0, done);
          return STUCK;
        }
        done := next;
        tot, off := tot + m, off + m;
      }
      assert src[..n] == src;
      AllReached(sb, blk, ino, i, off0, n);
      NewSize(i, src, off0, off, old(blk), old(ino));
      r := n;
    }

    /** The end of writei: a file that was written past its end gets its new size. */
    method NewSize(i: nat, src: seq<Byte>, off0: nat, off: nat, ghost blk0: seq<Block>, ghost ino0: seq<Inode>)
      requires InodesOk(ino0) && Live(ino0, i) && off0 <= ino0[i].size && off == off0 + |src| <= MAXFILE * BSIZE
      requires Valid() && Live(ino, i) && SameInodes(ino0, ino, i) && Written(blk0, ino0, blk, ino, i, off0, src)
      requires Reached(blk, ino, i, off0, |src|)
      modifies this`ino
      ensures Valid() && |ino| == |ino0| && forall j :: 0 <= j < |ino| && j != i ==> ino[j] == ino0[j]
      ensures ino[i] == ino0[i].(addrs := ino[i].addrs, size := ino[i].size)
      ensures Content(blk, ino[i]) == Splice(Content(blk0, ino0[i]), off0, src) && Reached(blk, ino, i, off0, |src|)
      ensures forall j: nat :: Live(ino0, j) && j != i ==> Content(blk, ino[j]) == Content(blk0, ino0[j])
    {
      if |src| > 0 && off > ino[i].size {
        PutSize(sb, blk, ino, i, off);
        ino := ino[i := ino[i].(size := off)];
      }
      WrittenFile(blk0, ino0, blk, old(ino), ino, i, off0, src);
      OthersKept(blk0, ino0, blk, old(ino), blk, old(ino), i, off0, src);
    }

    /** What was written is what is read back, at any offset that writei accepts. */
    method WriteThenRead(i: nat, src: seq<Byte>, off: nat) returns (r: int, dst: seq<Byte>)
      requires Valid() && Live(ino, i) && ino[i].typ != T_DEV && off < U64 && |src| < U64
      modifies this`blk, this`ino
      ensures Valid()
      ensures r == FAILED <==> off > old(ino)[i].size || off + |src| > MAXFILE * BSIZE
      ensures r == STUCK <==> r != FAILED && TooFew(sb, old(blk), old(ino), i, off, |src|)
      ensures r != FAILED && r != STUCK ==> dst == src
    {
      dst := [];
      r := Writei(i, src, off);
      if r != FAILED && r != STUCK {
        ghost var c := Content(blk, ino[i]);
        assert c[off..off + |src|] == src;
        AllReached(sb, blk, ino, i, off, |src|);
        r, dst := Readi(i, off, |src|);
      }
    }

    /** itrunc's walk over the references of inode i: direct entries, indirect entries, indirect
        block. No bfree panics, and exactly the referenced blocks become free. */
    method FreeBlocks(i: nat)
      requires Valid() && Live(ino, i)
      modifies this`blk
      ensures |blk| == sb.size && forall c :: sb.DataStart() <= c < sb.size ==> blk[c] == old(blk)[c]
      ensures forall c: nat :: Used(sb, blk, c) <==> Used(sb, old(blk), c) && !Refers(old(blk), ino, i, c)
    {
      ghost var blk0 := blk;
      var k := 0;
      while k < NDIRECT
        invariant 0 <= k <= NDIRECT && Freed(sb, blk0, blk, ino, i, k)
      {
        FreeSlot(i, k, blk0);
        k := k + 1;
      }
      if ino[i].addrs[NDIRECT] != 0 {
        k := 0;
        while k < NINDIRECT
          invariant 0 <= k <= NINDIRECT && Freed(sb, blk0, blk, ino, i, NDIRECT + k)
        {
          FreeSlot(i, NDIRECT + 1 + k, blk0);
          k := k + 1;
        }
        FreeSlot(i, NDIRECT, blk0);
      } else {
        FreedAll(sb, blk0, blk, ino, i);
      }
    }

    /** Free the block of one slot, if it has one; the slots before it in itrunc's order are done. */
    method FreeSlot(i: nat, t: nat, ghost blk0: seq<Block>)
      requires Own(sb, blk0, ino) && Live(ino, i) && t < NSLOT
      requires Freed(sb, blk0, blk, ino, i, Order(t))
      modifies this`blk
      ensures Freed(sb, blk0, blk, ino, i, Order(t) + 1)
    {
      assert Slot(blk0, ino, i, NDIRECT) == ino[i].addrs[NDIRECT];
      var b := Ref(blk, ino[i], t);
      assert b == Slot(blk0, ino, i, t);
      if b != 0 {
        assert forall u: nat :: u != t ==> Slot(blk0, ino, i, u) != b;
        Bfree(b);
      }
    }

    /** itrunc: exactly the blocks that the inode refers to are freed, and its size is zero. */
    method Itrunc(i: nat)
      requires Valid() && Live(ino, i)
      modifies this`blk, this`ino
      ensures |blk| == sb.size && forall c :: sb.DataStart() <= c < sb.size ==> blk[c] == old(blk)[c]
      ensures forall c: nat :: Used(sb, blk, c) <==> Used(sb, old(blk), c) && !Refers(old(blk), old(ino), i, c)
      ensures ino == old(ino)[i := old(ino)[i].(size := 0)]
    {
      FreeBlocks(i);
      ino := ino[i := ino[i].(size := 0)];
    }

    /** iput's free path, for the last reference to an inode without links: truncate, then give up
        the inode. Ownership holds again once the type is zero, and no other file changes. */
    method IputFree(i: nat)
      requires Valid() && Live(ino, i)
      modifies this`blk, this`ino
      ensures Valid() && ino == old(ino)[i := old(ino)[i].(size := 0, typ := 0)]
      ensures forall c: nat :: Used(sb, blk, c) <==> Used(sb, old(blk), c) && !Refers(old(blk), old(ino), i, c)
      ensures forall j: nat :: Live(old(ino), j) && j != i ==> Content(blk, ino[j]) == Content(old(blk), old(ino)[j])
    {
      Itrunc(i);
      ino := ino[i := ino[i].(typ := 0)];
      AfterFree(sb, old(blk), old(ino), blk, ino, i);
    }

    /** ialloc takes the first dead inode it looks at; it never looks at the first of a block. */
    method Ialloc(typ: nat) returns (ok: bool, i: nat)
      requires Valid() && |ino| == sb.ninodes / IPB * IPB + IPB && typ != 0
      modifies this`ino
      ensures Valid()
      ensures !ok ==> ino == old(ino) && forall j :: 0 <= j < sb.ninodes && j % IPB != 0 ==> Live(ino, j)
      ensures ok ==> i < |old(ino)| && i % IPB != 0 && !Live(old(ino), i)
      ensures ok ==> ino == old(ino)[i := Inode(typ, 0, 0, 0, 0, seq(NDIRECT + 1, _ => 0))]
      ensures ok ==> forall j :: 0 <= j < i && j % IPB != 0 ==> Live(old(ino), j)
      ensures ok ==> SameBytes(blk, old(ino), blk, ino) && Content(blk, ino[i]) == []
    {
      i := 0;
      while i < sb.ninodes
        invariant i % IPB == 0 && i <= sb.ninodes / IPB * IPB + IPB && ino == old(ino)
        invariant forall x :: 0 <= x < i && x % IPB != 0 ==> Live(ino, x)
      {
        var j := 1;
        while j < IPB
          invariant 1 <= j <= IPB && ino == old(ino)
          invariant forall x :: 0 <= x < i + j && x % IPB != 0 ==> Live(ino, x)
        {
          if ino[i + j].typ == 0 {
            ghost var was := ino;
            ino := ino[i + j := Inode(typ, 0, 0, 0, 0, seq(NDIRECT + 1, _ => 0))];
            NewInode(sb, blk, was, i + j, ino);
            i := i + j;
            return true, i;
          }
          j := j + 1;
        }
        i := i + IPB;
      }
      ok := false;
    }
  }

  /** Block c is referenced by inode i. */
  ghost predicate Refers(blk: seq<Block>, ino: seq<Inode>, i: nat, c: nat)
    requires InodesOk(ino)
  {
    c != 0 && exists t: nat :: Slot(blk, ino, i, t) == c
  }

  /** itrunc's order: direct entries, indirect entries, indirect pointer. */
  function Order(t: nat): nat {
    if t < NDIRECT then t else if t == NDIRECT then NSLOT - 1 else t - 1
  }

  /** Starting from blk0, the first k slots have given up their blocks and nothing else changed. */
  ghost predicate Freed(sb: Super, blk0: seq<Block>, blk: seq<Block>, ino: seq<Inode>, i: nat, k: nat)
    requires InodesOk(ino)
  {
    && sb.Ok() && |blk| == |blk0| == sb.size
    && (forall c :: sb.DataStart() <= c < sb.size ==> blk[c] == blk0[c])
    && forall c: nat :: Used(sb, blk, c) <==> Used(sb, blk0, c) && !Done(blk0, ino, i, k, c)
  }

  ghost predicate Done(blk0: seq<Block>, ino: seq<Inode>, i: nat, k: nat, c: nat)
    requires InodesOk(ino)
  {
    c != 0 && exists t: nat :: Order(t) < k && Slot(blk0, ino, i, t) == c
  }

  /** Without an indirect block the remaining slots are empty. */
  lemma FreedAll(sb: Super, blk0: seq<Block>, blk: seq<Block>, ino: seq<Inode>, i: nat)
    requires Own(sb, blk0, ino) && Live(ino, i) && ino[i].addrs[NDIRECT] == 0
    requires Freed(sb, blk0, blk, ino, i, NDIRECT)
    ensures Freed(sb, blk0, blk, ino, i, NSLOT)
  {
    assert forall t: nat :: t >= NDIRECT ==> Slot(blk0, ino, i, t) == 0;
    forall c: nat ensures Done(blk0, ino, i, NDIRECT, c) <==> Done(blk0, ino, i, NSLOT, c) {
    }
  }

  lemma AfterFree(sb: Super, blk0: seq<Block>, ino0: seq<Inode>, blk: seq<Block>, ino: seq<Inode>, i: nat)
    requires Own(sb, blk0, ino0) && Live(ino0, i) && ino == ino0[i := ino0[i].(size := 0, typ := 0)]
    requires |blk| == sb.size && forall c :: sb.DataStart() <= c < sb.size ==> blk[c] == blk0[c]
    requires forall c: nat :: Used(sb, blk, c) <==> Used(sb, blk0, c) && !Refers(blk0, ino0, i, c)
    ensures Own(sb, blk, ino)
    ensures forall j: nat :: Live(ino0, j) && j != i ==> Content(blk, ino[j]) == Content(blk0, ino0[j])
  {
    forall j: nat, u: nat ensures Slot(blk, ino, j, u) == if j == i then 0 else Slot(blk0, ino0, j, u) {
      if Live(ino0, j) { assert Slot(blk0, ino0, j, NDIRECT) == ino0[j].addrs[NDIRECT]; }
    }
    forall b | 0 <= b < sb.DataStart() ensures Used(sb, blk, b) {
      assert forall t: nat :: Slot(blk0, ino0, i, t) != 0 ==> Slot(blk0, ino0, i, t) >= sb.DataStart();
    }
    forall j: nat | Live(ino0, j) && j != i ensures Content(blk, ino[j]) == Content(blk0, ino0[j]) {
      forall k: nat ensures ByteAt(blk, ino[j], k) == ByteAt(blk0, ino0[j], k) {
        assert Slot(blk, ino, j, SlotOf(k / BSIZE)) == Slot(blk0, ino0, j, SlotOf(k / BSIZE));
      }
    }
  }

  lemma NewInode(sb: Super, blk: seq<Block>, ino: seq<Inode>, i: nat, ino': seq<Inode>)
    requires Own(sb, blk, ino) && i < |ino| && !Live(ino, i) && |ino'| == |ino|
    requires ino'[i].addrs == seq(NDIRECT + 1, _ => 0) && ino'[i].size == 0
    requires forall j :: 0 <= j < |ino| && j != i ==> ino'[j] == ino[j]
    ensures Own(sb, blk, ino') && SameBytes(blk, ino, blk, ino')
  {
    assert InodesOk(ino');
    forall j: nat, u: nat ensures Slot(blk, ino', j, u) == Slot(blk, ino, j, u) {
    }
  }

  /** Bytes in a data block are no references, and do not count. */
  lemma PieceDebt(sb: Super, blk: seq<Block>, ino: seq<Inode>, blk': seq<Block>, i: nat, a: nat,
                  off: nat, n: nat, m: nat)
    requires InodesOk(ino) && sb.Ok() && |blk| == |blk'| == sb.size && sb.DataStart() <= a < sb.size
    requires blk' == blk[a := blk'[a]] && SameSlots(blk, ino, blk', ino)
    ensures Owed(sb, blk', ino, i, off, n) == Owed(sb, blk, ino, i, off, n)
    ensures Reached(blk, ino, i, off, m) ==> Reached(blk', ino, i, off, m)
  {
    UsedFrame(sb, blk, blk');
    SameFree(sb, blk, blk');
    SameDebt(sb, blk, ino, blk', ino, i, FirstBlock(off), PastBlock(off, n));
  }

  function Least(a: nat, b: nat): nat {
    if a < b then a else b
  }

  /** memmove of a piece into a block. */
  function Patched(b: Block, at: nat, piece: seq<Byte>): Block
    requires at + |piece| <= BSIZE
  {
    b[..at] + piece + b[at + |piece|..]
  }

  lemma PutPiece(blk0: seq<Block>, ino0: seq<Inode>, blk1: seq<Block>, ino1: seq<Inode>, blk: seq<Block>,
                 ino: seq<Inode>, i: nat, off: nat, s: seq<Byte>, piece: seq<Byte>, p: nat, a: nat, data: Block)
    requires InodesOk(ino0) && InodesOk(ino1) && InodesOk(ino) && Live(ino0, i) && Live(ino, i)
    requires Written(blk0, ino0, blk1, ino1, i, off, s) && SameBytes(blk1, ino1, blk, ino)
    requires p == off + |s| && p % BSIZE + |piece| <= BSIZE
    requires 0 < a < |blk| && a == Slot(blk, ino, i, SlotOf(p / BSIZE))
    requires data == Patched(blk[a], p % BSIZE, piece) && BlockPut(blk, ino, blk[a := data], i, p / BSIZE, data)
    ensures Written(blk0, ino0, blk[a := data], ino, i, off, s + piece)
  {
    PieceWritten(blk, ino[i], p, piece, a, data);
    WrittenStep(blk0, ino0, blk1, ino1, blk, ino, blk[a := data], i, off, s, piece, data);
  }

  lemma PieceRead(blk: seq<Block>, ip: Inode, blk0: seq<Block>, ip0: Inode, off: nat, piece: seq<Byte>, a: nat)
    requires |ip.addrs| == |ip0.addrs| == NDIRECT + 1 && off % BSIZE + |piece| <= BSIZE && 0 < a < |blk|
    requires a == Ref(blk, ip, SlotOf(off / BSIZE)) && piece == blk[a][off % BSIZE..off % BSIZE + |piece|]
    requires forall k: nat :: ByteAt(blk, ip, k) == ByteAt(blk0, ip0, k)
    ensures forall x :: 0 <= x < |piece| ==> piece[x] == ByteAt(blk0, ip0, off + x)
  {
    forall x | 0 <= x < |piece| ensures piece[x] == ByteAt(blk0, ip0, off + x) {
      InBlock(off, x);
      assert ByteAt(blk, ip, off + x) == ByteAt(blk0, ip0, off + x);
    }
  }

  lemma InBlock(off: nat, x: nat)
    requires off % BSIZE + x < BSIZE
    ensures (off + x) / BSIZE == off / BSIZE && (off + x) % BSIZE == off % BSIZE + x
  {
  }

  lemma PieceWritten(blk: seq<Block>, ip: Inode, off: nat, piece: seq<Byte>, a: nat, data: Block)
    requires |ip.addrs| == NDIRECT + 1 && off % BSIZE + |piece| <= BSIZE && 0 < a < |blk|
    requires a == Ref(blk, ip, SlotOf(off / BSIZE))
    requires data == blk[a][..off % BSIZE] + piece + blk[a][off % BSIZE + |piece|..]
    ensures forall x :: 0 <= x < BSIZE ==>
      (data[x] == if off % BSIZE <= x < off % BSIZE + |piece| then piece[x - off % BSIZE]
                  else ByteAt(blk, ip, off / BSIZE * BSIZE + x))
  {
    forall x | 0 <= x < BSIZE && !(off % BSIZE <= x < off % BSIZE + |piece|)
      ensures data[x] == ByteAt(blk, ip, off / BSIZE * BSIZE + x)
    {
      InBlock(off / BSIZE * BSIZE, x);
    }
  }

  /** What the other files hold after a write to file i. */
  lemma OthersKept(blk: seq<Block>, ino: seq<Inode>, blk1: seq<Block>, ino1: seq<Inode>, blk2: seq<Block>,
                   ino2: seq<Inode>,
                   i: nat, off: nat, s: seq<Byte>)
    requires InodesOk(ino) && InodesOk(ino1) && InodesOk(ino2)
    requires Written(blk, ino, blk1, ino1, i, off, s) && SameBytes(blk1, ino1, blk2, ino2) && SameInodes(ino, ino2, i)
    ensures forall j: nat :: Live(ino, j) && j != i ==> Content(blk2, ino2[j]) == Content(blk, ino[j])
  {
    forall j: nat | Live(ino, j) && j != i ensures Content(blk2, ino2[j]) == Content(blk, ino[j]) {
      assert Live(ino1, j);
      forall k: nat ensures ByteAt(blk2, ino2[j], k) == ByteAt(blk, ino[j], k) {
        assert WrittenByte(blk, ino, blk1, ino1, i, off, s, j, k);
      }
    }
  }

  lemma WrittenFile(blk: seq<Block>, ino: seq<Inode>, blk': seq<Block>, ino1: seq<Inode>, ino': seq<Inode>,
                    i: nat, off: nat, s: seq<Byte>)
    requires InodesOk(ino) && InodesOk(ino1) && InodesOk(ino') && Live(ino, i) && off <= ino[i].size
    requires Written(blk, ino, blk', ino1, i, off, s) && i < |ino'| && ino'[i].addrs == ino1[i].addrs
    requires ino'[i].size == if off + |s| > ino[i].size then off + |s| else ino[i].size
    ensures Content(blk', ino'[i]) == Splice(Content(blk, ino[i]), off, s)
  {
    forall k: nat
      ensures ByteAt(blk', ino'[i], k) == if off <= k < off + |s| then s[k - off] else ByteAt(blk, ino[i], k)
    {
      assert WrittenByte(blk, ino, blk', ino1, i, off, s, i, k);
      assert ByteAt(blk', ino'[i], k) == ByteAt(blk', ino1[i], k);
    }
    WrittenContent(blk, ino[i], blk', ino'[i], off, s);
  }

  /** Contents with bytes written over them, seen through the size from before. */
  function Cut(blk: seq<Block>, ip: Inode, off: nat, s: seq<Byte>): seq<Byte>
    requires |ip.addrs| == NDIRECT + 1 && off <= ip.size
  {
    Splice(Content(blk, ip), off, s)[..ip.size]
  }

  /** When the disk fills up part way, what was written so far shows below the old size. */
  lemma StuckContent(blk: seq<Block>, ino: seq<Inode>, blk1: seq<Block>, ino1: seq<Inode>, blk2: seq<Block>,
                     ino2: seq<Inode>,
                     i: nat, off: nat, s: seq<Byte>)
    requires InodesOk(ino) && InodesOk(ino1) && InodesOk(ino2) && Live(ino, i) && off <= ino[i].size
    requires Written(blk, ino, blk1, ino1, i, off, s) && SameBytes(blk1, ino1, blk2, ino2) && SameInodes(ino, ino2, i)
    ensures Content(blk2, ino2[i]) == Cut(blk, ino[i], off, s)
  {
    assert Live(ino1, i);
    forall k | 0 <= k < ino[i].size
      ensures Content(blk2, ino2[i])[k] == Cut(blk, ino[i], off, s)[k]
    {
      assert WrittenByte(blk, ino, blk1, ino1, i, off, s, i, k);
      assert ByteAt(blk2, ino2[i], k) == ByteAt(blk1, ino1[i], k);
    }
  }
}
