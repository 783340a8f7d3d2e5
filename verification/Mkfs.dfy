/** user/src/mkfs/main.c: building a disk image with ialloc and iappend, and its agreement with the
    kernel's reading of the same bytes. */
module Mkfs {
  import opened Bytes
  import opened FsSpec
  import opened Dinode
  import opened Space
  import Fs

  const FSSIZE: nat := 1000
  const NINODES: nat := 200
  const NLOG: nat := 30

  // the layout arithmetic of main
  const NBITMAP: nat := FSSIZE / (BSIZE * 8) + 1
  const NINODEBLOCKS: nat := NINODES / IPB + 1
  const NTABLE: nat := NINODEBLOCKS * IPB      // inodes the inode sectors hold
  const NMETA: nat := 2 + NLOG + NINODEBLOCKS + NBITMAP

  const SB: Super := Super(FSSIZE, NINODES, 2 + NLOG, 2 + NLOG + NINODEBLOCKS)

  /** The super block in main's field order. */
  const SUPER: seq<nat> := [FSSIZE, FSSIZE - NMETA, NINODES, NLOG, 2, 2 + NLOG, 2 + NLOG + NINODEBLOCKS]

  function SuperSector(k: nat): (b: Block)
    requires k <= |SUPER|
    ensures forall w :: 0 <= w < k ==> Word(b, w) == SUPER[w]
  {
    if k == 0 then ZeroBlock()
    else
      PutWordGet(SuperSector(k - 1), k - 1, SUPER[k - 1]);
      PutWord(SuperSector(k - 1), k - 1, SUPER[k - 1])
  }

  /** initlog's copy of sector 1 into the kernel's super block. */
  function ReadSuper(b: Block): Super {
    Super(Word(b, 0), Word(b, 2), Word(b, 5), Word(b, 6))
  }

  lemma SuperReadBack()
    ensures ReadSuper(SuperSector(|SUPER|)) == SB
    ensures Word(SuperSector(|SUPER|), 3) == NLOG && Word(SuperSector(|SUPER|), 4) == 2
  {
  }

  /** The first block mkfs hands out is the kernel's first data block. */
  lemma LayoutsAgree()
    ensures SB.Ok() && SB.DataStart() == NMETA && NMETA < FSSIZE
  {
  }

  // ---- the bitmap sector -------------------------------------------------------------------

  /** balloc's loop: bits 0 .. k - 1 set, one after the other. */
  function Prefix(k: nat): Block
    requires k <= BPB
  {
    if k == 0 then ZeroBlock()
    else
      var b := Prefix(k - 1);
      b[(k - 1) / 8 := PutBit8(b[(k - 1) / 8], (k - 1) % 8, true)]
  }

  /** The image as the kernel will see it: with a bitmap that marks the blocks below freeblock. */
  function View(img: seq<Block>, freeblock: nat): seq<Block>
    requires |img| == FSSIZE && freeblock <= FSSIZE
  {
    img[SB.bmapstart := Prefix(freeblock)]
  }

  lemma {:induction false} ZeroBits(x: nat)
    ensures !BitOf(0, x)
  {
    if x > 0 { ZeroBits(x - 1); }
  }

  lemma {:induction false} PrefixBits(k: nat, c: nat)
    requires k <= BPB && c < BPB
    ensures BitOf(Prefix(k)[c / 8], c % 8) <==> c < k
  {
    if k == 0 {
      ZeroBits(c % 8);
    } else {
      PrefixBits(k - 1, c);
    }
  }

  /** Handing out freeblock is, in the kernel's terms, marking the first free block. */
  lemma NextBlock(img: seq<Block>, freeblock: nat)
    requires |img| == FSSIZE && freeblock < FSSIZE
    ensures Mark(SB, View(img, freeblock), freeblock) == View(img, freeblock + 1)
    ensures Free(SB, View(img, freeblock), freeblock)
  {
    PrefixBits(freeblock, freeblock);
  }

  /** Exactly the blocks below freeblock are marked. */
  lemma ViewBits(img: seq<Block>, freeblock: nat, b: nat)
    requires |img| == FSSIZE && freeblock <= FSSIZE && b < FSSIZE
    ensures Used(SB, View(img, freeblock), b) <==> b < freeblock
  {
    PrefixBits(freeblock, b);
  }

  // ---- metadata sectors --------------------------------------------------------------------

  /** Inode sectors hold no references: rewriting one keeps ownership and contents. */
  lemma MetaFrame(blk: seq<Block>, ino: seq<Inode>, m: nat, data: Block)
    requires Own(SB, blk, ino) && m < SB.bmapstart
    ensures Own(SB, blk[m := data], ino) && SameBytes(blk, ino, blk[m := data], ino)
  {
    var blk' := blk[m := data];
    forall j: nat | Live(ino, j) && 0 < ino[j].addrs[NDIRECT] < |blk|
      ensures blk'[ino[j].addrs[NDIRECT]] == blk[ino[j].addrs[NDIRECT]]
    {
      assert Slot(blk, ino, j, NDIRECT) == ino[j].addrs[NDIRECT];
    }
    SlotFrame(blk, ino, blk');
    forall c: nat ensures Used(SB, blk', c) <==> Used(SB, blk, c) {
    }
    BytesFrame(SB, blk, ino, blk');
  }

  /** Data blocks are not inode sectors: the table stays. */
  lemma TableFrame(img: seq<Block>, img': seq<Block>)
    requires |img| == |img'| == FSSIZE && forall b :: 0 <= b < SB.bmapstart ==> img'[b] == img[b]
    ensures Table(SB, img', NTABLE) == Table(SB, img, NTABLE)
  {
    TableReads(SB, img, img', NTABLE);
  }

  // ---- what holds of an image being built --------------------------------------------------

  /** Ownership is a statement about all pairs of references, so it is kept folded: it unfolds where a
      proof mentions Unfold. */
  predicate Unfold(k: nat) {
    true
  }

  ghost predicate Owned(img: seq<Block>, freeblock: nat, ino: seq<Inode>)
    requires |img| == FSSIZE && freeblock <= FSSIZE
  {
    forall k: nat :: Unfold(k) ==> Own(SB, View(img, freeblock), ino)
  }

  lemma OpenOwn(img: seq<Block>, freeblock: nat, ino: seq<Inode>)
    requires Built(img, freeblock, ino)
    ensures Own(SB, View(img, freeblock), ino)
  {
    assert Unfold(0);
  }

  /** The kernel's ownership over the view, and blocks not yet handed out are still zero. */
  ghost predicate Built(img: seq<Block>, freeblock: nat, ino: seq<Inode>) {
    && |img| == FSSIZE && NMETA <= freeblock <= FSSIZE && |ino| == NTABLE
    && InodesOk(ino) && (forall i :: 0 <= i < NTABLE ==> ino[i].size <= MAXFILE * BSIZE) && Owned(img, freeblock, ino)
    && (forall b :: freeblock <= b < FSSIZE ==> img[b] == ZeroBlock())
  }

  /** No byte of a file past its end was ever written. */
  ghost predicate CleanTail(blk: seq<Block>, ip: Inode)
    requires |ip.addrs| == NDIRECT + 1
  {
    forall k: nat :: ip.size <= k ==> ByteAt(blk, ip, k) == 0
  }

  /** The inodes handed out are live and hold the bytes appended to them. */
  ghost predicate Filed(blk: seq<Block>, ino: seq<Inode>, freeinode: nat, files: map<nat, seq<Byte>>)
    requires InodesOk(ino)
  {
    && (forall i: nat :: Live(ino, i) <==> 1 <= i < freeinode)
    && (forall i: nat :: i in files <==> Live(ino, i))
    && (forall i: nat :: Live(ino, i) ==> FileOk(blk, ino[i], files[i]))
  }

  ghost predicate FileOk(blk: seq<Block>, ip: Inode, c: seq<Byte>) {
    Encodable(ip) && Content(blk, ip) == c && CleanTail(blk, ip)
  }

  /** A well-formed image under construction. */
  ghost predicate Good(img: seq<Block>, freeblock: nat, freeinode: nat, files: map<nat, seq<Byte>>) {
    && |img| == FSSIZE && freeblock <= FSSIZE && 1 <= freeinode <= NTABLE
    && ReadSuper(img[1]) == SB
    && Built(img, freeblock, Table(SB, img, NTABLE))
    && Filed(View(img, freeblock), Table(SB, img, NTABLE), freeinode, files)
  }

  /** Filed reads the blocks only through the bytes of live files. */
  lemma FiledFrame(blk: seq<Block>, blk': seq<Block>, ino: seq<Inode>, freeinode: nat, files: map<nat, seq<Byte>>)
    requires InodesOk(ino) && Filed(blk, ino, freeinode, files) && SameBytes(blk, ino, blk', ino)
    ensures Filed(blk', ino, freeinode, files)
  {
    forall i: nat | Live(ino, i) ensures FileOk(blk', ino[i], files[i]) {
      assert FileOk(blk, ino[i], files[i]);
      assert forall k: nat :: ByteAt(blk', ino[i], k) == ByteAt(blk, ino[i], k);
    }
  }

  lemma EmptyTable(img: seq<Block>, i: nat)
    requires |img| == FSSIZE && i < NTABLE && img[IBlock(SB, i)] == ZeroBlock()
    ensures Table(SB, img, NTABLE)[i].typ == 0 && Table(SB, img, NTABLE)[i].size == 0
  {
    TableAt(SB, img, NTABLE, i);
    ZeroWords(DWORDS * (i % IPB));
    ZeroWords(DWORDS * (i % IPB) + 2);
  }

  lemma EmptyBuilt(img: seq<Block>)
    requires |img| == FSSIZE && forall b :: 1 < b < FSSIZE ==> img[b] == ZeroBlock()
    ensures Built(img, NMETA, Table(SB, img, NTABLE))
    ensures Filed(View(img, NMETA), Table(SB, img, NTABLE), 1, map[])
  {
    var ino := Table(SB, img, NTABLE);
    forall i | 0 <= i < NTABLE ensures ino[i].typ == 0 && ino[i].size == 0 {
      EmptyTable(img, i);
    }
    EmptyOver(img, ino);
  }

  lemma EmptyOver(img: seq<Block>, ino: seq<Inode>)
    requires |img| == FSSIZE && forall b :: 1 < b < FSSIZE ==> img[b] == ZeroBlock()
    requires |ino| == NTABLE && InodesOk(ino) && forall i :: 0 <= i < NTABLE ==> ino[i].typ == 0 && ino[i].size == 0
    ensures Built(img, NMETA, ino) && Filed(View(img, NMETA), ino, 1, map[])
  {
    EmptyOwn(img, ino);
  }

  lemma EmptyOwn(img: seq<Block>, ino: seq<Inode>)
    requires |img| == FSSIZE && InodesOk(ino) && forall i :: 0 <= i < |ino| ==> ino[i].typ == 0 && ino[i].size == 0
    ensures Own(SB, View(img, NMETA), ino)
  {
    LayoutsAgree();
    forall b | 0 <= b < NMETA ensures Used(SB, View(img, NMETA), b) {
      ViewBits(img, NMETA, b);
    }
  }

  lemma TakeBlock(img: seq<Block>, freeblock: nat, ino: seq<Inode>)
    requires Built(img, freeblock, ino) && freeblock < FSSIZE
    ensures Built(img, freeblock + 1, ino) && Spare(SB, View(img, freeblock + 1), ino, freeblock)
    ensures SameBytes(View(img, freeblock), ino, View(img, freeblock + 1), ino)
    ensures SameSlots(View(img, freeblock), ino, View(img, freeblock + 1), ino)
    ensures View(img, freeblock + 1)[freeblock] == ZeroBlock()
  {
    OpenOwn(img, freeblock, ino);
    NextBlock(img, freeblock);
    Allocate(SB, View(img, freeblock), ino, freeblock);
    assert View(img, freeblock + 1)[freeblock := ZeroBlock()] == View(img, freeblock + 1);
  }

  /** Writing a data sector writes the same sector of the view. */
  lemma PutView(img: seq<Block>, freeblock: nat, x: nat, data: Block)
    requires |img| == FSSIZE && freeblock <= FSSIZE && SB.bmapstart < x < FSSIZE
    ensures View(img[x := data], freeblock) == View(img, freeblock)[x := data]
  {
  }

  /** An indirect block in use was handed out. */
  lemma IndirectBelow(img: seq<Block>, fb: nat, ino: seq<Inode>, i: nat, ind: nat)
    requires Built(img, fb, ino) && Live(ino, i) && ind == ino[i].addrs[NDIRECT] && NMETA <= ind < FSSIZE
    ensures ind < fb
  {
    OpenOwn(img, fb, ino);
    assert Slot(View(img, fb), ino, i, NDIRECT) == ind;
    ViewBits(img, fb, ind);
  }

  lemma EntryUsed(img: seq<Block>, fb: nat, ino: seq<Inode>, i: nat, w: nat, ind: nat)
    requires Built(img, fb, ino) && Live(ino, i) && w < NINDIRECT && ind == ino[i].addrs[NDIRECT] && NMETA <= ind < fb
    requires Word(img[ind], w) != 0
    ensures HasEntry(img, fb, img, fb, ino, i, NDIRECT + 1 + w, Word(img[ind], w))
  {
    OpenOwn(img, fb, ino);
    assert Word(img[ind], w) == Slot(View(img, fb), ino, i, NDIRECT + 1 + w);
    FillsNothing(View(img, fb), ino, i, NDIRECT + 1 + w);
  }

  /** Slot t of inode i is x now, handed out if it was empty; no byte of any file changed. */
  ghost predicate HasEntry(img0: seq<Block>, fb0: nat, img: seq<Block>, fb: nat, ino: seq<Inode>, i: nat, t: nat,
                           x: nat) {
    forall k: nat :: Look(k) ==> GotEntry(img0, fb0, img, fb, ino, i, t, x)
  }

  lemma OpenEntry(img0: seq<Block>, fb0: nat, img: seq<Block>, fb: nat, ino: seq<Inode>, i: nat, t: nat, x: nat)
    requires HasEntry(img0, fb0, img, fb, ino, i, t, x)
    ensures GotEntry(img0, fb0, img, fb, ino, i, t, x)
  {
    assert Look(0);
  }

  ghost predicate GotEntry(img0: seq<Block>, fb0: nat, img: seq<Block>, fb: nat, ino: seq<Inode>, i: nat, t: nat,
                           x: nat) {
    && |img0| == FSSIZE && fb0 <= FSSIZE && fb <= FSSIZE && Built(img, fb, ino)
    && (forall b :: 0 <= b < SB.bmapstart ==> img[b] == img0[b])
    && SameBytes(View(img0, fb0), ino, View(img, fb), ino)
    && NMETA <= x < FSSIZE && x == Slot(View(img, fb), ino, i, t)
    && Fills(View(img0, fb0), ino, View(img, fb), ino, i, t, fb - fb0)
  }

  /** The next block becomes entry t of an inode's own map. */
  lemma AddrTaken(img: seq<Block>, fb: nat, ino: seq<Inode>, i: nat, t: nat)
    requires Built(img, fb, ino) && fb < FSSIZE && Live(ino, i) && t <= NDIRECT && ino[i].addrs[t] == 0
    ensures var ino' := ino[i := ino[i].(addrs := ino[i].addrs[t := fb])];
      InodesOk(ino') && Built(img, fb + 1, ino') && SameBytes(View(img, fb), ino, View(img, fb + 1), ino')
      && Fills(View(img, fb), ino, View(img, fb + 1), ino', i, t, 1)
  {
    TakeBlock(img, fb, ino);
    OpenOwn(img, fb + 1, ino);
    AttachAddr(SB, View(img, fb + 1), ino, i, t, fb);
    AddsFills(View(img, fb), ino, View(img, fb + 1), View(img, fb + 1), PutAddr(ino, i, t, fb), i, t, fb);
    SameBytesTrans(View(img, fb), ino, View(img, fb + 1), ino, View(img, fb + 1), PutAddr(ino, i, t, fb));
  }

  lemma SameBytesTrans(blk: seq<Block>, ino: seq<Inode>, blk1: seq<Block>, ino1: seq<Inode>, blk2: seq<Block>,
                       ino2: seq<Inode>)
    requires InodesOk(ino) && InodesOk(ino1) && InodesOk(ino2)
    requires SameBytes(blk, ino, blk1, ino1) && SameBytes(blk1, ino1, blk2, ino2)
    ensures SameBytes(blk, ino, blk2, ino2)
  {
    forall j: nat, k: nat | Live(ino, j) ensures ByteAt(blk2, ino2[j], k) == ByteAt(blk, ino[j], k) {
      assert ByteAt(blk1, ino1[j], k) == ByteAt(blk, ino[j], k);
    }
  }

  lemma AddrUsed(img: seq<Block>, fb: nat, ino: seq<Inode>, i: nat, t: nat)
    requires Built(img, fb, ino) && Live(ino, i) && t <= NDIRECT && ino[i].addrs[t] != 0
    ensures NMETA <= ino[i].addrs[t] < FSSIZE && Fills(View(img, fb), ino, View(img, fb), ino, i, t, 0)
    ensures SameBytes(View(img, fb), ino, View(img, fb), ino)
  {
    OpenOwn(img, fb, ino);
    assert Slot(View(img, fb), ino, i, t) == ino[i].addrs[t];
    FillsNothing(View(img, fb), ino, i, t);
  }

  /** The next block becomes entry w of an indirect block. */
  lemma EntryTaken(img: seq<Block>, fb: nat, ino: seq<Inode>, i: nat, w: nat, ind: nat)
    requires Built(img, fb, ino) && fb < FSSIZE && Live(ino, i) && w < NINDIRECT && ind == ino[i].addrs[NDIRECT]
    requires NMETA <= ind < fb && Word(img[ind], w) == 0
    ensures var img' := img[ind := PutWord(img[ind], w, fb)];
      HasEntry(img, fb, img', fb + 1, ino, i, NDIRECT + 1 + w, fb)
  {
    var img' := img[ind := PutWord(img[ind], w, fb)];
    TakeBlock(img, fb, ino);
    EntryAttached(img, fb, ino, i, w, ind);
    AddsFills(View(img, fb), ino, View(img, fb + 1), View(img', fb + 1), ino, i, NDIRECT + 1 + w, fb);
    SameBytesTrans(View(img, fb), ino, View(img, fb + 1), ino, View(img', fb + 1), ino);
  }

  lemma EntryAttached(img: seq<Block>, fb: nat, ino: seq<Inode>, i: nat, w: nat, ind: nat)
    requires fb < FSSIZE && Built(img, fb + 1, ino) && Live(ino, i) && w < NINDIRECT && ind == ino[i].addrs[NDIRECT]
    requires NMETA <= ind < fb && Word(img[ind], w) == 0
    requires Spare(SB, View(img, fb + 1), ino, fb) && View(img, fb + 1)[fb] == ZeroBlock()
    ensures var img' := img[ind := PutWord(img[ind], w, fb)];
      Built(img', fb + 1, ino) && SameBytes(View(img, fb + 1), ino, View(img', fb + 1), ino)
      && Adds(View(img, fb + 1), ino, View(img', fb + 1), ino, i, NDIRECT + 1 + w, fb)
  {
    var img' := img[ind := PutWord(img[ind], w, fb)];
    EntryOwned(img, fb, ino, i, w, ind, img');
  }

  lemma EntryOwned(img: seq<Block>, fb: nat, ino: seq<Inode>, i: nat, w: nat, ind: nat, img': seq<Block>)
    requires fb < FSSIZE && Built(img, fb + 1, ino) && Live(ino, i) && w < NINDIRECT && ind == ino[i].addrs[NDIRECT]
    requires NMETA <= ind < fb && Word(img[ind], w) == 0 && img' == img[ind := PutWord(img[ind], w, fb)]
    requires Spare(SB, View(img, fb + 1), ino, fb) && View(img, fb + 1)[fb] == ZeroBlock()
    ensures Owned(img', fb + 1, ino) && SameBytes(View(img, fb + 1), ino, View(img', fb + 1), ino)
    ensures Adds(View(img, fb + 1), ino, View(img', fb + 1), ino, i, NDIRECT + 1 + w, fb)
  {
    OpenOwn(img, fb + 1, ino);
    PutView(img, fb + 1, ind, PutWord(img[ind], w, fb));
    AttachEntry(SB, View(img, fb + 1), ino, i, w, fb);
  }

  lemma IndirectSlot(img: seq<Block>, fb: nat, ino: seq<Inode>, i: nat, w: nat, ind: nat)
    requires Built(img, fb, ino) && Live(ino, i) && w < NINDIRECT && ind == ino[i].addrs[NDIRECT] && NMETA <= ind < fb
    ensures Slot(View(img, fb), ino, i, NDIRECT + 1 + w) == Word(img[ind], w)
  {
  }

  // ---- how many blocks an image holds ------------------------------------------------------

  /** The image holds exactly the blocks its files need. */
  ghost predicate Tidy(img: seq<Block>, freeblock: nat, freeinode: nat, files: map<nat, seq<Byte>>) {
    && |img| == FSSIZE && freeblock <= FSSIZE && freeblock == NMETA + SumTo(files, freeinode)
    && Snug(View(img, freeblock), Table(SB, img, NTABLE), NTABLE, 0)
  }

  /** These are kept folded too, and unfold where a proof mentions Look. */
  predicate Look(k: nat) {
    true
  }

  ghost predicate Legible(img: seq<Block>, freeblock: nat, freeinode: nat, files: map<nat, seq<Byte>>) {
    forall k: nat :: Look(k) ==> Good(img, freeblock, freeinode, files)
  }

  ghost predicate Sound(img: seq<Block>, freeblock: nat, freeinode: nat, files: map<nat, seq<Byte>>) {
    forall k: nat :: Look(k) ==> Good(img, freeblock, freeinode, files) && Tidy(img, freeblock, freeinode, files)
  }

  lemma OpenSound(img: seq<Block>, freeblock: nat, freeinode: nat, files: map<nat, seq<Byte>>)
    requires Sound(img, freeblock, freeinode, files)
    ensures Good(img, freeblock, freeinode, files) && Tidy(img, freeblock, freeinode, files)
  {
    assert Look(0);
  }

  lemma SoundLegible(img: seq<Block>, freeblock: nat, freeinode: nat, files: map<nat, seq<Byte>>)
    requires Sound(img, freeblock, freeinode, files)
    ensures Legible(img, freeblock, freeinode, files)
  {
  }

  /** The inodes handed out are the files. */
  predicate Handed(files: map<nat, seq<Byte>>, freeinode: nat) {
    (forall i :: 1 <= i < freeinode ==> i in files) && forall i <- files :: 1 <= i < freeinode
  }

  lemma SoundFacts(img: seq<Block>, freeblock: nat, freeinode: nat, files: map<nat, seq<Byte>>)
    requires Sound(img, freeblock, freeinode, files)
    ensures |img| == FSSIZE && freeblock <= FSSIZE && 1 <= freeinode <= NTABLE && Handed(files, freeinode)
    ensures freeblock == NMETA + SumTo(files, freeinode)
  {
    OpenSound(img, freeblock, freeinode, files);
    var ino := Table(SB, img, NTABLE);
    forall i | 1 <= i < freeinode ensures i in files { assert Live(ino, i); }
    forall i <- files ensures 1 <= i < freeinode { assert Live(ino, i); }
  }

  lemma NextFree(img: seq<Block>, freeblock: nat, freeinode: nat, files: map<nat, seq<Byte>>)
    requires Sound(img, freeblock, freeinode, files)
    ensures |img| == FSSIZE && freeblock <= FSSIZE && 1 <= freeinode <= NTABLE && freeinode !in files
  {
    SoundFacts(img, freeblock, freeinode, files);
  }

  lemma RoomFor(freeblock: nat, freeinode: nat, files: map<nat, seq<Byte>>, i: nat, p: seq<Byte>)
    requires i in files && i < freeinode && freeblock == NMETA + SumTo(files, freeinode)
    ensures NMETA + SumTo(files[i := files[i] + p], freeinode)
      == freeblock + Blocks(|files[i]| + |p|) - Blocks(|files[i]|)
    ensures HasRoom(freeblock, |files[i]|, |p|) <==>
      |files[i]| + |p| <= MAXFILE * BSIZE && NMETA + SumTo(files[i := files[i] + p], freeinode) <= FSSIZE
  {
    SumPut(files, i, files[i] + p, freeinode);
  }

  /** With fb blocks handed out, a file of the given length can grow by n bytes. */
  predicate HasRoom(fb: nat, len: nat, n: nat) {
    len + n <= MAXFILE * BSIZE && fb + Blocks(len + n) - Blocks(len) <= FSSIZE
  }

  /** What iappend finds. */
  lemma FileFacts(img: seq<Block>, freeblock: nat, freeinode: nat, files: map<nat, seq<Byte>>, i: nat)
    requires Sound(img, freeblock, freeinode, files) && i in files
    ensures |img| == FSSIZE && freeblock <= FSSIZE && i < NTABLE
    ensures Ready(img, freeblock, Table(SB, img, NTABLE), i) && Live(Table(SB, img, NTABLE), i)
    ensures Table(SB, img, NTABLE)[i].size == |files[i]| <= MAXFILE * BSIZE && Encodable(Table(SB, img, NTABLE)[i])
  {
    OpenSound(img, freeblock, freeinode, files);
    var ino := Table(SB, img, NTABLE);
    assert Live(ino, i) && FileOk(View(img, freeblock), ino[i], files[i]);
    SnugAlso(View(img, freeblock), ino, i);
  }

  /** What iappend's loop has done when it ends. */
  ghost predicate Grew(img0: seq<Block>, fb0: nat, ino: seq<Inode>, img: seq<Block>, fb: nat, i: nat, din: Inode,
                       p: seq<Byte>) {
    && |img0| == |img| == FSSIZE && fb0 <= FSSIZE && fb <= FSSIZE && i < |ino| == NTABLE && InodesOk(ino)
    && ino[i].size + |p| <= MAXFILE * BSIZE
    && SameButAddrs(ino[i], din) && Encodable(din) && Built(img, fb, ino[i := din])
    && (forall b :: 0 <= b < SB.bmapstart ==> img[b] == img0[b])
    && Written(View(img0, fb0), ino, View(img, fb), ino[i := din], i, ino[i].size, p)
    && Snug(View(img, fb), ino[i := din], i, ino[i].size + |p|)
    && fb == fb0 + Blocks(ino[i].size + |p|) - Blocks(ino[i].size)
  }

  /** The same type, device numbers and links. */
  predicate SameHead(a: Inode, b: Inode) {
    b.typ == a.typ && b.major == a.major && b.minor == a.minor && b.nlink == a.nlink
  }

  /** No inode changed its type, device numbers or links. */
  ghost predicate SameTypes(img0: seq<Block>, img: seq<Block>) {
    && |img0| == |img| == FSSIZE
    && forall j :: 0 <= j < NTABLE ==> SameHead(Table(SB, img0, NTABLE)[j], Table(SB, img, NTABLE)[j])
  }

  lemma TypesKept(img0: seq<Block>, ino: seq<Inode>, i: nat, din: Inode, img: seq<Block>)
    requires |img0| == |img| == FSSIZE && i < |ino| && Table(SB, img0, NTABLE) == ino
    requires Table(SB, img, NTABLE) == ino[i := din] && SameHead(ino[i], din)
    ensures SameTypes(img0, img)
  {
  }

  function EmptyInode(typ: nat): (din: Inode)
    requires 0 < typ < U16
    ensures Encodable(din) && din.typ == typ && din.size == 0 && din.addrs == seq(NDIRECT + 1, _ => 0)
    ensures din.nlink == 1 && din.major == 0 && din.minor == 0
  {
    Inode(typ, 0, 0, 1, 0, seq(NDIRECT + 1, _ => 0))
  }

  ghost predicate Grown(img0: seq<Block>, fb0: nat, ino: seq<Inode>, img: seq<Block>, fb: nat, i: nat, din: Inode,
                        p: seq<Byte>) {
    forall k: nat :: Look(k) ==> Grew(img0, fb0, ino, img, fb, i, din, p)
  }

  /** A turn's bytes added to those before. */
  lemma GrewMore(img0: seq<Block>, fb0: nat, ino: seq<Inode>, img1: seq<Block>, fb1: nat, i: nat, din1: Inode,
                 p: seq<Byte>,
                 n: nat, m: nat, img: seq<Block>, fb: nat, din: Inode)
    requires 0 < m && n + m <= |p| && Grew(img0, fb0, ino, img1, fb1, i, din1, p[..n]) && Live(ino, i)
    requires (din1.size + n) % BSIZE + m <= BSIZE && (din1.size + n) / BSIZE < MAXFILE
    requires fb <= FSSIZE && Built(img, fb, ino[i := din]) && SameButAddrs(din1, din) && Encodable(din)
    requires forall b :: 0 <= b < SB.bmapstart ==> img[b] == img1[b]
    requires Written(View(img0, fb0), ino, View(img, fb), ino[i := din], i, ino[i].size, p[..n] + p[n..n + m])
    requires Takes(View(img1, fb1), ino[i := din1], View(img, fb), ino[i := din], i, (din1.size + n) / BSIZE, fb - fb1)
    ensures Grown(img0, fb0, ino, img, fb, i, din, p[..n + m])
  {
    var off := din1.size + n;
    SnugSame(View(img1, fb1), ino[i := din1], i, ino[i].size + |p[..n]|, off);
    SnugStep(View(img1, fb1), ino[i := din1], View(img, fb), ino[i := din], i, off, m, fb - fb1);
    SnugSame(View(img, fb), ino[i := din], i, off + m, ino[i].size + |p[..n + m]|);
    assert p[..n] + p[n..n + m] == p[..n + m];
    assert Grew(img0, fb0, ino, img, fb, i, din, p[..n + m]);
  }

  lemma GrewNothing(img: seq<Block>, fb: nat, ino: seq<Inode>, i: nat)
    requires Ready(img, fb, ino, i) && i < |ino|
    ensures Grown(img, fb, ino, img, fb, i, ino[i], [])
  {
    assert Look(0);
    assert ino[i := ino[i]] == ino;
    assert Grew(img, fb, ino, img, fb, i, ino[i], []);
  }

  /** Inode i can be appended to. */
  ghost predicate Ready(img: seq<Block>, freeblock: nat, ino: seq<Inode>, i: nat) {
    forall k: nat :: Look(k) ==> Prepared(img, freeblock, ino, i)
  }

  ghost predicate Prepared(img: seq<Block>, freeblock: nat, ino: seq<Inode>, i: nat) {
    && Built(img, freeblock, ino) && Live(ino, i) && Encodable(ino[i])
      && Snug(View(img, freeblock), ino, i, ino[i].size)
  }

  class Image {
    var img: seq<Block>
    var freeinode: nat
    var freeblock: nat
    ghost var files: map<nat, seq<Byte>>    // what has been appended to each inode

    /** The files can be read as the kernel reads them. */
    ghost predicate Readable()
      reads this
    {
      Legible(img, freeblock, freeinode, files)
    }

    /** And the image has handed out exactly the blocks they need, so it can grow. */
    ghost predicate Valid()
      reads this
    {
      Sound(img, freeblock, freeinode, files)
    }

    /** An empty image: zeroed sectors and the super block. */
    constructor ()
      ensures Valid() && files == map[] && freeinode == 1 && freeblock == NMETA
    {
      img := seq(FSSIZE, _ => ZeroBlock())[1 := SuperSector(|SUPER|)];
      freeinode := 1;
      freeblock := NMETA;
      files := map[];
      new;
      SuperReadBack();
      EmptyBuilt(img);
      EmptyTidy(img);
      assert Sound(img, NMETA, 1, map[]);
    }

    method Rinode(i: nat) returns (din: Inode)
      requires |img| == FSSIZE && i < NTABLE
      ensures din == Table(SB, img, NTABLE)[i]
    {
      TableAt(SB, img, NTABLE, i);
      din := Decode(img[IBlock(SB, i)], i % IPB);
    }

    method Winode(i: nat, din: Inode)
      requires |img| == FSSIZE && i < NTABLE && Encodable(din)
      modifies this`img
      ensures SB.inodestart <= IBlock(SB, i) < SB.bmapstart
      ensures |img| == FSSIZE && img == old(img)[IBlock(SB, i) := img[IBlock(SB, i)]]
      ensures Table(SB, img, NTABLE) == Table(SB, old(img), NTABLE)[i := din]
    {
      PutTable(SB, img, NTABLE, i, din);
      img := img[IBlock(SB, i) := PutInode(img[IBlock(SB, i)], i % IPB, din)];
    }

    /** A new empty file; false when the inode table is full. */
    method Ialloc(typ: nat) returns (ok: bool, inum: nat)
      requires Valid() && 0 < typ < U16
      modifies this
      ensures Valid() && (ok <==> old(freeinode) < NTABLE)
      ensures ok ==> inum == old(freeinode) && inum !in old(files) && files == old(files)[inum := []]
      ensures freeblock == old(freeblock) && (ok ==> freeinode == old(freeinode) + 1)
      ensures ok ==> |old(img)| == |img| == FSSIZE
      ensures ok ==> Table(SB, img, NTABLE) == Table(SB, old(img), NTABLE)[inum := EmptyInode(typ)]
      ensures ok ==> EmptyInode(typ) == Inode(typ, 0, 0, 1, 0, seq(NDIRECT + 1, _ => 0))
      ensures !ok ==> files == old(files)
    {
      NextFree(img, freeblock, freeinode, files);
      inum := freeinode;
      if inum >= NTABLE {
        return false, inum;
      }
      PutNew(inum, typ);
      freeinode, files := freeinode + 1, files[inum := []];
      ok := true;
    }

    /** ialloc's inode goes into its sector. */
    method PutNew(inum: nat, typ: nat)
      requires Sound(img, freeblock, inum, files) && 0 < typ < U16 && |img| == FSSIZE && freeblock <= FSSIZE
      requires 1 <= inum < NTABLE
      modifies this`img
      ensures |img| == FSSIZE && Table(SB, img, NTABLE) == Table(SB, old(img), NTABLE)[inum := EmptyInode(typ)]
      ensures Sound(img, freeblock, inum + 1, files[inum := []])
    {
      Winode(inum, EmptyInode(typ));
      IallocSound(old(img), freeblock, inum, typ, files, img);
    }

    /** `din.addrs[t]`, handed out now if it is empty: a direct entry or the indirect pointer. */
    method AddrFor(inum: nat, din0: Inode, t: nat, ghost ino: seq<Inode>) returns (ok: bool, x: nat, din: Inode)
      requires Built(img, freeblock, ino) && Live(ino, inum) && ino[inum] == din0 && t <= NDIRECT && Encodable(din0)
      modifies this`freeblock
      ensures ok ==> freeblock <= FSSIZE && Built(img, freeblock, ino[inum := din])
      ensures ok ==> SameButAddrs(din0, din) && Encodable(din)
      ensures ok ==> SameBytes(View(img, old(freeblock)), ino, View(img, freeblock), ino[inum := din])
      ensures ok ==> NMETA <= x < FSSIZE && x == din.addrs[t]
      ensures ok ==>
        Fills(View(img, old(freeblock)), ino, View(img, freeblock), ino[inum := din],
              inum, t, freeblock - old(freeblock))
      ensures !ok ==> old(freeblock) == FSSIZE && din0.addrs[t] == 0
    {
      din, ok := din0, true;
      if din.addrs[t] == 0 {
        if freeblock >= FSSIZE {
          return false, 0, din;
        }
        AddrTaken(img, freeblock, ino, inum, t);
        din := din.(addrs := din.addrs[t := freeblock]);
        freeblock := freeblock + 1;
      } else {
        assert ino[inum := din] == ino;
        AddrUsed(img, freeblock, ino, inum, t);
      }
      x := din.addrs[t];
    }

    /** Entry w of the indirect block, handed out and written back now if it is empty. */
    method EntryFor(inum: nat, w: nat, ghost ino: seq<Inode>, ind: nat) returns (ok: bool, x: nat)
      requires Built(img, freeblock, ino) && Live(ino, inum) && w < NINDIRECT
      requires ind == ino[inum].addrs[NDIRECT] && NMETA <= ind < FSSIZE
      modifies this`img, this`freeblock
      ensures ok ==> HasEntry(old(img), old(freeblock), img, freeblock, ino, inum, NDIRECT + 1 + w, x)
      ensures !ok ==> old(freeblock) == FSSIZE && Slot(View(old(img), old(freeblock)), ino, inum, NDIRECT + 1 + w) == 0
    {
      IndirectBelow(img, freeblock, ino, inum, ind);
      var indirect := img[ind];
      x := Word(indirect, w);
      ok := true;
      if x == 0 {
        x := freeblock;
        if x >= FSSIZE {
          IndirectSlot(img, freeblock, ino, inum, w, ind);
          return false, 0;
        }
        EntryTaken(img, freeblock, ino, inum, w, ind);
        freeblock := freeblock + 1;
        img := img[ind := PutWord(indirect, w, x)];
      } else {
        EntryUsed(img, freeblock, ino, inum, w, ind);
      }
    }

    /** The sector of file block fbn. */
    method BlockFor(inum: nat, din0: Inode, fbn: nat, ghost ino: seq<Inode>) returns (ok: bool, x: nat, din: Inode)
      requires Built(img, freeblock, ino) && Live(ino, inum) && ino[inum] == din0 && fbn < MAXFILE && Encodable(din0)
      modifies this`img, this`freeblock
      ensures ok ==> freeblock <= FSSIZE && Built(img, freeblock, ino[inum := din])
      ensures ok ==> SameButAddrs(din0, din) && Encodable(din)
      ensures ok ==> forall b :: 0 <= b < SB.bmapstart ==> img[b] == old(img)[b]
      ensures ok ==> SameBytes(View(old(img), old(freeblock)), ino, View(img, freeblock), ino[inum := din])
      ensures ok ==> NMETA <= x < FSSIZE && x == Slot(View(img, freeblock), ino[inum := din], inum, SlotOf(fbn))
      ensures ok ==>
        Takes(View(old(img), old(freeblock)), ino, View(img, freeblock), ino[inum := din],
              inum, fbn, freeblock - old(freeblock))
      ensures !ok ==> old(freeblock) + Missing(View(old(img), old(freeblock)), ino, inum, fbn) > FSSIZE
    {
      ghost var blk0 := View(img, freeblock);
      ghost var fb0 := freeblock;
      if fbn < NDIRECT {
        ok, x, din := AddrFor(inum, din0, fbn, ino);
        if ok { TakesDirect(blk0, ino, View(img, freeblock), ino[inum := din], inum, fbn, freeblock - fb0); }
      } else {
        ok, x, din := AddrFor(inum, din0, NDIRECT, ino);
        if ok {
          ghost var img1, fb1, blk1 := img, freeblock, View(img, freeblock);
          ok, x := EntryFor(inum, fbn - NDIRECT, ino[inum := din], x);
          if ok {
            OpenEntry(img1, fb1, img, freeblock, ino[inum := din], inum, SlotOf(fbn), x);
            TakesIndirect(blk0, ino, blk1, ino[inum := din], View(img, freeblock), inum, fbn, fb1 - fb0,
              freeblock - fb1);
          } else {
            MissingEntry(blk0, ino, blk1, ino[inum := din], inum, fbn, fb1 - fb0);
          }
        }
      }
    }

    /** One turn of iappend's loop: bytes that fit in the block at offset off. */
    method AppendPiece(inum: nat, din0: Inode, piece: seq<Byte>, off: nat, ghost blk0: seq<Block>,
                       ghost ino: seq<Inode>, ghost s: seq<Byte>)
      returns (ok: bool, din: Inode)
      requires InodesOk(ino) && Live(ino, inum) && |ino| == NTABLE && Encodable(din0) && SameButAddrs(ino[inum], din0)
      requires Built(img, freeblock, ino[inum := din0]) && off / BSIZE < MAXFILE && off % BSIZE + |piece| <= BSIZE
      requires Written(blk0, ino, View(img, freeblock), ino[inum := din0], inum, ino[inum].size, s)
      requires off == ino[inum].size + |s|
      modifies this`img, this`freeblock
      ensures ok ==> freeblock <= FSSIZE && Built(img, freeblock, ino[inum := din])
      ensures ok ==> SameButAddrs(din0, din) && Encodable(din)
      ensures ok ==> forall b :: 0 <= b < SB.bmapstart ==> img[b] == old(img)[b]
      ensures ok ==> Written(blk0, ino, View(img, freeblock), ino[inum := din], inum, ino[inum].size, s + piece)
      ensures ok ==>
        Takes(View(old(img), old(freeblock)), ino[inum := din0], View(img, freeblock), ino[inum := din],
              inum, off / BSIZE, freeblock - old(freeblock))
      ensures !ok ==>
        old(freeblock) + Missing(View(old(img), old(freeblock)), ino[inum := din0], inum, off / BSIZE) > FSSIZE
    {
      ghost var blk1, ino1 := View(img, freeblock), ino[inum := din0];
      var x;
      ok, x, din := BlockFor(inum, din0, off / BSIZE, ino1);
      if ok {
        ghost var ino2 := ino[inum := din];
        assert ino1[inum := din] == ino2;
        var at := off % BSIZE;
        var buf := img[x][..at] + piece + img[x][at + |piece|..];
        OpenOwn(img, freeblock, ino2);
        AppendOwn(View(img, freeblock), ino2, inum, off, piece, x, buf);
        AppendWritten(blk0, ino, blk1, ino1, View(img, freeblock), ino2, inum, s, piece, x, buf);
        TakesThen(blk1, ino1, View(img, freeblock), ino2, View(img, freeblock)[x := buf], inum, off / BSIZE,
          freeblock - old(freeblock));
        PutView(img, freeblock, x, buf);
        ViewBits(img, freeblock, x);
        img := img[x := buf];
      }
    }

    /** iappend's loop over the bytes. */
    method AppendAll(inum: nat, din0: Inode, p: seq<Byte>, ghost ino: seq<Inode>) returns (ok: bool, din: Inode)
      requires Ready(img, freeblock, ino, inum) && Live(ino, inum) && ino[inum] == din0
      modifies this`img, this`freeblock
      ensures ok <==> HasRoom(old(freeblock), ino[inum].size, |p|)
      ensures ok ==> Grown(old(img), old(freeblock), ino, img, freeblock, inum, din, p)
    {
      ghost var img0, fb0 := img, freeblock;
      din := din0;
      var n := 0;
      GrewNothing(img, freeblock, ino, inum);
      assert p[..0] == [];
      while n < |p|
        invariant 0 <= n <= |p| && Grown(img0, fb0, ino, img, freeblock, inum, din, p[..n])
      {
        var m;
        ok, din, m := AppendTurn(inum, din, p, n, img0, fb0, ino);
        if !ok {
          return;
        }
        n := n + m;
      }
      assert p[..n] == p;
      OpenGrown(img0, fb0, ino, img, freeblock, inum, din, p);
      ok := true;
    }

    /** One turn of that loop: m bytes, up to the next block boundary. */
    method AppendTurn(inum: nat, din0: Inode, p: seq<Byte>, n: nat, ghost img0: seq<Block>, ghost fb0: nat,
                      ghost ino: seq<Inode>)
      returns (ok: bool, din: Inode, m: nat)
      requires n < |p| && Grown(img0, fb0, ino, img, freeblock, inum, din0, p[..n]) && Live(ino, inum)
      modifies this`img, this`freeblock
      ensures ok ==> 0 < m <= |p| - n && Grown(img0, fb0, ino, img, freeblock, inum, din, p[..n + m])
      ensures !ok ==> !HasRoom(fb0, ino[inum].size, |p|)
    {
      OpenGrown(img0, fb0, ino, img, freeblock, inum, din0, p[..n]);
      var off := din0.size + n;
      din, m := din0, 0;
      if off / BSIZE >= MAXFILE {
        return false, din, m;
      }
      m := Fs.Least(|p| - n, (off / BSIZE + 1) * BSIZE - off);
      ghost var img1, fb1 := img, freeblock;
      ok, din := AppendPiece(inum, din0, p[n..n + m], off, View(img0, fb0), ino, p[..n]);
      if ok {
        GrewMore(img0, fb0, ino, img1, fb1, inum, din0, p, n, m, img, freeblock, din);
      } else {
        BlocksGrow(off + m, din0.size + |p|);
        SnugShort(View(img1, fb1), ino[inum := din0], inum, off, m);
      }
    }

    /** iappend: the bytes go to the end of the file and nothing else changes. It fails exactly when the
        file would pass its limit (the source's assert) or the image its last block. */
    method Iappend(inum: nat, p: seq<Byte>) returns (ok: bool)
      requires Valid() && inum in files
      modifies this
      ensures ok <==> |old(files)[inum]| + |p| <= MAXFILE * BSIZE
                      && NMETA + SumTo(old(files)[inum := old(files)[inum] + p], old(freeinode)) <= FSSIZE
      ensures ok ==> Valid() && files == old(files)[inum := old(files)[inum] + p] && freeinode == old(freeinode)
      ensures ok ==> SameTypes(old(img), img)
    {
      SoundFacts(img, freeblock, freeinode, files);
      RoomFor(freeblock, freeinode, files, inum, p);
      ok := Grow(inum, p);
      if ok { files := files[inum := files[inum] + p]; }
    }

    /** iappend, as far as the image goes. */
    method Grow(inum: nat, p: seq<Byte>) returns (ok: bool)
      requires Sound(img, freeblock, freeinode, files) && inum in files
      modifies this`img, this`freeblock
      ensures ok <==> HasRoom(old(freeblock), |files[inum]|, |p|)
      ensures ok ==> Sound(img, freeblock, freeinode, files[inum := files[inum] + p]) && SameTypes(old(img), img)
    {
      SoundFacts(img, freeblock, freeinode, files);
      FileFacts(img, freeblock, freeinode, files, inum);
      var din := Rinode(inum);
      ghost var ino := Table(SB, img, NTABLE);
      ok, din := AppendAll(inum, din, p, ino);
      if ok { EndAppend(inum, din, p, old(img), old(freeblock), ino); }
    }

    /** iappend behind its loop. */
    method EndAppend(inum: nat, din: Inode, p: seq<Byte>, ghost img0: seq<Block>, ghost fb0: nat, ghost ino: seq<Inode>)
      requires Sound(img0, fb0, freeinode, files) && |img0| == FSSIZE && fb0 <= FSSIZE && inum in files
      requires 1 <= inum < freeinode && inum < NTABLE && ino == Table(SB, img0, NTABLE)
      requires ino[inum].size == |files[inum]| && Grown(img0, fb0, ino, img, freeblock, inum, din, p)
      modifies this`img
      ensures Sound(img, freeblock, freeinode, files[inum := files[inum] + p]) && SameTypes(img0, img)
    {
      AppendEnds(img0, fb0, freeinode, files, ino, inum, din, p, img, freeblock);
      FinishAppend(inum, din, p, View(img0, fb0), ino);
      TypesKept(img0, ino, inum, din.(size := din.size + |p|), img);
    }

    /** The last lines of iappend: the new size, and the inode back in its sector. */
    method FinishAppend(inum: nat, din: Inode, p: seq<Byte>, ghost blk0: seq<Block>, ghost ino: seq<Inode>)
      requires Pending(blk0, ino, img, freeblock, inum, din, p, freeinode, files) && inum in files
      modifies this`img
      ensures Sound(img, freeblock, freeinode, files[inum := files[inum] + p])
      ensures |img| == FSSIZE && inum < |ino| == NTABLE && SameHead(ino[inum], din)
      ensures Table(SB, img, NTABLE) == ino[inum := din.(size := din.size + |p|)]
    {
      ghost var before := img;
      PendingFacts(blk0, ino, img, freeblock, inum, din, p, freeinode, files);
      Winode(inum, din.(size := din.size + |p|));
      IappendDone(blk0, ino, before, freeblock, inum, din, p, din.size + |p|, freeinode, files, img);
    }

    /** main's last correction: the root's size goes up to the next block boundary, by a whole block
        if it already is at one. The added bytes read as zeros, so as free directory entries. */
    method FixRoot(root: nat) returns (ok: bool)
      requires Valid() && root in files
      modifies this
      ensures ok <==> |old(files)[root]| / BSIZE < MAXFILE
      ensures Readable() && files == if ok then old(files)[root := Padded(old(files)[root])] else old(files)
      ensures freeinode == old(freeinode) && freeblock == old(freeblock) && SameTypes(old(img), img)
    {
      FileFacts(img, freeblock, freeinode, files, root);
      var din := Rinode(root);
      var off := (din.size / BSIZE + 1) * BSIZE;
      if off > MAXFILE * BSIZE {
        SoundLegible(img, freeblock, freeinode, files);
        return false;
      }
      Winode(root, din.(size := off));
      RootSettles(old(img), freeblock, root, off, freeinode, files, img);
      files := files[root := Padded(files[root])];
      ok := true;
    }

    /** balloc: write the bitmap. From here on the image is what the kernel boots from: its block
        ownership holds, exactly the blocks below freeblock are marked, and every inode's bytes,
        read with the kernel's block map, are the bytes appended to it. */
    method Balloc()
      requires Readable()
      modifies this`img
      ensures |img| == FSSIZE && Own(SB, img, Table(SB, img, NTABLE)) && ReadSuper(img[1]) == SB
      ensures forall b :: 0 <= b < FSSIZE ==> (Used(SB, img, b) <==> b < freeblock)
      ensures forall i: nat :: i in files <==> Live(Table(SB, img, NTABLE), i)
      ensures forall i: nat :: Live(Table(SB, img, NTABLE), i) ==>
        Content(img, Table(SB, img, NTABLE)[i]) == BytesOf(files, i)
      ensures |old(img)| == FSSIZE && Table(SB, img, NTABLE) == Table(SB, old(img), NTABLE)
    {
      LegibleFacts(img, freeblock, freeinode, files);
      var buf := ZeroBlock();
      for i := 0 to freeblock
        invariant buf == Prefix(i)
      {
        buf := buf[i / 8 := PutBit8(buf[i / 8], i % 8, true)];
      }
      img := img[SB.bmapstart := buf];
      assert img == View(old(img), freeblock);
      TableFrame(old(img), img);
      BitmapDone(old(img), freeblock, freeinode, files, img);
    }
  }

  lemma LegibleFacts(img: seq<Block>, freeblock: nat, freeinode: nat, files: map<nat, seq<Byte>>)
    requires Legible(img, freeblock, freeinode, files)
    ensures |img| == FSSIZE && NMETA <= freeblock <= FSSIZE
  {
    assert Look(0);
  }

  /** With the bitmap written, the image is the view that was kept well formed all along. */
  lemma BitmapDone(img0: seq<Block>, freeblock: nat, freeinode: nat, files: map<nat, seq<Byte>>, img: seq<Block>)
    requires |img0| == FSSIZE && freeblock <= FSSIZE && Legible(img0, freeblock, freeinode, files)
    requires img == View(img0, freeblock)
    ensures |img| == FSSIZE && Own(SB, img, Table(SB, img, NTABLE)) && ReadSuper(img[1]) == SB
    ensures forall b :: 0 <= b < FSSIZE ==> (Used(SB, img, b) <==> b < freeblock)
    ensures forall i: nat :: i in files <==> Live(Table(SB, img, NTABLE), i)
    ensures forall i: nat :: Live(Table(SB, img, NTABLE), i) ==>
      Content(img, Table(SB, img, NTABLE)[i]) == BytesOf(files, i)
  {
    assert Look(0);
    OpenOwn(img0, freeblock, Table(SB, img0, NTABLE));
    TableFrame(img0, img);
    forall b | 0 <= b < FSSIZE ensures Used(SB, img, b) <==> b < freeblock {
      ViewBits(img0, freeblock, b);
    }
    FiledContents(img, Table(SB, img, NTABLE), freeinode, files);
  }

  lemma FiledContents(blk: seq<Block>, ino: seq<Inode>, freeinode: nat, files: map<nat, seq<Byte>>)
    requires InodesOk(ino) && Filed(blk, ino, freeinode, files)
    ensures forall i: nat :: i in files <==> Live(ino, i)
    ensures forall i: nat :: Live(ino, i) ==> Content(blk, ino[i]) == BytesOf(files, i)
  {
    forall i: nat | Live(ino, i) ensures Content(blk, ino[i]) == BytesOf(files, i) {
      assert FileOk(blk, ino[i], files[i]);
    }
  }

  lemma EmptyTidy(img: seq<Block>)
    requires |img| == FSSIZE && forall b :: SB.inodestart <= b < SB.bmapstart ==> img[b] == ZeroBlock()
    ensures Tidy(img, NMETA, 1, map[])
  {
    EmptySum(1);
    forall i: nat | i < NTABLE ensures !Live(Table(SB, img, NTABLE), i) { EmptyTable(img, i); }
    forall j: nat, u: nat | u < NSLOT ensures SnugAt(View(img, NMETA), Table(SB, img, NTABLE), NTABLE, 0, j, u) {}
  }

  lemma {:induction false} EmptySum(n: nat)
    ensures SumTo(map[], n) == 0
  {
    if n > 0 { EmptySum(n - 1); }
  }

  /** Slots are references in data blocks and block maps: inode sectors and sizes do not matter. */
  lemma SlotsKept(img: seq<Block>, fb: nat, ino: seq<Inode>, m: nat, img': seq<Block>, ino': seq<Inode>)
    requires Built(img, fb, ino) && |img'| == FSSIZE && SB.inodestart <= m < SB.bmapstart && img' == img[m := img'[m]]
    requires InodesOk(ino') && |ino'| == |ino|
    requires forall j :: 0 <= j < |ino| ==> ino'[j].addrs == ino[j].addrs && ino'[j].typ == ino[j].typ
    ensures SameSlots(View(img, fb), ino, View(img', fb), ino')
  {
    OpenOwn(img, fb, ino);
    forall j: nat, u: nat ensures Slot(View(img', fb), ino', j, u) == Slot(View(img, fb), ino, j, u) {
      if Live(ino, j) { assert Slot(View(img, fb), ino, j, NDIRECT) == ino[j].addrs[NDIRECT]; }
    }
  }

  lemma IallocSnug(img: seq<Block>, fb: nat, ino: seq<Inode>, i: nat, din: Inode, m: nat, img': seq<Block>)
    requires Built(img, fb, ino) && Snug(View(img, fb), ino, NTABLE, 0) && i < NTABLE && !Live(ino, i)
    requires din.size == 0 && din.addrs == seq(NDIRECT + 1, _ => 0)
    requires |img'| == FSSIZE && SB.inodestart <= m < SB.bmapstart && img' == img[m := img'[m]]
    ensures InodesOk(ino[i := din]) && Snug(View(img', fb), ino[i := din], NTABLE, 0)
  {
    var ino', blk, blk' := ino[i := din], View(img, fb), View(img', fb);
    SlotsKept(img, fb, ino, m, img', ino);
    forall j: nat, u: nat | u < NSLOT ensures SnugAt(blk', ino', NTABLE, 0, j, u) {
      assert SnugAt(blk, ino, NTABLE, 0, j, u) && Slot(blk', ino, j, u) == Slot(blk, ino, j, u);
    }
  }

  lemma IallocTidy(img: seq<Block>, fb: nat, i: nat, din: Inode, files: map<nat, seq<Byte>>, img': seq<Block>)
    requires Sound(img, fb, i, files) && i < NTABLE && |img| == |img'| == FSSIZE && fb <= FSSIZE
    requires Encodable(din) && din.size == 0 && din.addrs == seq(NDIRECT + 1, _ => 0)
    requires SB.inodestart <= IBlock(SB, i) < SB.bmapstart && img' == img[IBlock(SB, i) := img'[IBlock(SB, i)]]
    requires Table(SB, img', NTABLE) == Table(SB, img, NTABLE)[i := din]
    ensures Tidy(img', fb, i + 1, files[i := []])
  {
    OpenSound(img, fb, i, files);
    var ino := Table(SB, img, NTABLE);
    assert !Live(ino, i) && i !in files;
    SumPut(files, i, [], i);
    IallocSnug(img, fb, ino, i, din, IBlock(SB, i), img');
  }

  lemma IallocSound(img: seq<Block>, fb: nat, i: nat, typ: nat, files: map<nat, seq<Byte>>, img': seq<Block>)
    requires Sound(img, fb, i, files) && 1 <= i < NTABLE && |img| == |img'| == FSSIZE && fb <= FSSIZE && 0 < typ < U16
    requires SB.inodestart <= IBlock(SB, i) < SB.bmapstart && img' == img[IBlock(SB, i) := img'[IBlock(SB, i)]]
    requires Table(SB, img', NTABLE) == Table(SB, img, NTABLE)[i := EmptyInode(typ)]
    ensures Sound(img', fb, i + 1, files[i := []])
  {
    IallocSettles(img, fb, i, EmptyInode(typ), files, img');
    IallocTidy(img, fb, i, EmptyInode(typ), files, img');
    Seal(img', fb, i + 1, files[i := []]);
  }

  lemma IappendTidy(img: seq<Block>, fb: nat, ino: seq<Inode>, i: nat, din: Inode, size: nat, img': seq<Block>)
    requires |ino| == NTABLE && i < NTABLE && InodesOk(ino) && Live(ino, i) && SameButAddrs(ino[i], din)
    requires Built(img, fb, ino[i := din]) && Snug(View(img, fb), ino[i := din], i, size) && |img'| == FSSIZE
    requires SB.inodestart <= IBlock(SB, i) < SB.bmapstart && img' == img[IBlock(SB, i) := img'[IBlock(SB, i)]]
    requires Table(SB, img', NTABLE) == ino[i := din.(size := size)]
    ensures Snug(View(img', fb), Table(SB, img', NTABLE), NTABLE, 0)
  {
    var ino1, last := ino[i := din], ino[i := din.(size := size)];
    SlotsKept(img, fb, ino1, IBlock(SB, i), img', last);
    forall j: nat, u: nat | u < NSLOT ensures SnugAt(View(img', fb), last, NTABLE, 0, j, u) {
      assert SnugAt(View(img, fb), ino1, i, size, j, u);
      assert Slot(View(img', fb), last, j, u) == Slot(View(img, fb), ino1, j, u);
    }
  }

  lemma SnugAlso(blk: seq<Block>, ino: seq<Inode>, i: nat)
    requires InodesOk(ino) && i < |ino| == NTABLE && Snug(blk, ino, NTABLE, 0)
    ensures Snug(blk, ino, i, ino[i].size)
  {
    forall j: nat, u: nat | u < NSLOT ensures SnugAt(blk, ino, i, ino[i].size, j, u) {
      assert SnugAt(blk, ino, NTABLE, 0, j, u);
    }
  }

  /** What main does to the root directory's bytes. */
  function Padded(c: seq<Byte>): (r: seq<Byte>)
    ensures |r| % BSIZE == 0 && |c| < |r| <= |c| + BSIZE
    ensures r[..|c|] == c && forall k :: |c| <= k < |r| ==> r[k] == 0
  {
    c + seq((|c| / BSIZE + 1) * BSIZE - |c|, _ => 0)
  }

  lemma RootSettles(img: seq<Block>, freeblock: nat, i: nat, off: nat, freeinode: nat, files: map<nat, seq<Byte>>,
                    img': seq<Block>)
    requires Sound(img, freeblock, freeinode, files) && i in files && |img| == |img'| == FSSIZE && i < NTABLE
    requires off == (Table(SB, img, NTABLE)[i].size / BSIZE + 1) * BSIZE <= MAXFILE * BSIZE
    requires SB.inodestart <= IBlock(SB, i) < SB.bmapstart && img' == img[IBlock(SB, i) := img'[IBlock(SB, i)]]
    requires Table(SB, img', NTABLE) == Table(SB, img, NTABLE)[i := Table(SB, img, NTABLE)[i].(size := off)]
    ensures Legible(img', freeblock, freeinode, files[i := Padded(files[i])])
  {
    OpenSound(img, freeblock, freeinode, files);
    var ino := Table(SB, img, NTABLE);
    RootGood(img, freeblock, ino, i, off, freeinode, files, img');
  }

  lemma RootGood(img: seq<Block>, freeblock: nat, ino: seq<Inode>, i: nat, off: nat, freeinode: nat,
                 files: map<nat, seq<Byte>>,
                 img': seq<Block>)
    requires |img| == |img'| == FSSIZE && freeblock <= FSSIZE && 1 <= freeinode <= NTABLE && ReadSuper(img[1]) == SB
    requires Built(img, freeblock, ino) && Filed(View(img, freeblock), ino, freeinode, files) && i in files
    requires i < NTABLE
    requires off == (ino[i].size / BSIZE + 1) * BSIZE <= MAXFILE * BSIZE
    requires SB.inodestart <= IBlock(SB, i) < SB.bmapstart && img' == img[IBlock(SB, i) := img'[IBlock(SB, i)]]
    requires Table(SB, img', NTABLE) == ino[i := ino[i].(size := off)]
    ensures Good(img', freeblock, freeinode, files[i := Padded(files[i])])
  {
    var last := ino[i := ino[i].(size := off)];
    SizeBuilt(img, freeblock, ino, i, off);
    RootFiled(View(img, freeblock), ino, i, off, freeinode, files);
    Settle(img, freeblock, last, freeinode, files[i := Padded(files[i])], IBlock(SB, i), img');
    IsGood(img', freeblock, freeinode, files[i := Padded(files[i])], last);
  }

  lemma SizeBuilt(img: seq<Block>, fb: nat, ino: seq<Inode>, i: nat, size: nat)
    requires Built(img, fb, ino) && i < NTABLE && size <= MAXFILE * BSIZE
    ensures Built(img, fb, ino[i := ino[i].(size := size)])
  {
    OpenOwn(img, fb, ino);
    PutSize(SB, View(img, fb), ino, i, size);
  }

  lemma RootFiled(blk: seq<Block>, ino: seq<Inode>, i: nat, off: nat, freeinode: nat, files: map<nat, seq<Byte>>)
    requires InodesOk(ino) && Filed(blk, ino, freeinode, files) && i in files && i < |ino|
    requires off == (ino[i].size / BSIZE + 1) * BSIZE <= MAXFILE * BSIZE
    ensures var last := ino[i := ino[i].(size := off)];
      InodesOk(last) && Filed(blk, last, freeinode, files[i := Padded(files[i])])
  {
    var last := ino[i := ino[i].(size := off)];
    assert forall j: nat :: Live(last, j) <==> Live(ino, j);
    forall j: nat | Live(last, j) ensures FileOk(blk, last[j], files[i := Padded(files[i])][j]) {
      assert FileOk(blk, ino[j], files[j]);
      assert forall k: nat :: ByteAt(blk, last[j], k) == ByteAt(blk, ino[j], k);
      if j == i {
        assert Content(blk, last[i]) == Padded(files[i]);
      }
    }
  }

  /** One turn of iappend's loop, in the kernel's terms: bytes that fit in the block at offset p. */
  ghost predicate Turn(blk: seq<Block>, ino: seq<Inode>, i: nat, p: nat, piece: seq<Byte>, x: nat, buf: Block)
    requires InodesOk(ino)
  {
    var at := p % BSIZE;
    && p / BSIZE < MAXFILE && at + |piece| <= BSIZE && 0 < x < |blk| && x == Slot(blk, ino, i, SlotOf(p / BSIZE))
    && buf == blk[x][..at] + piece + blk[x][at + |piece|..]
  }

  lemma AppendOwn(blk2: seq<Block>, ino2: seq<Inode>, i: nat, p: nat, piece: seq<Byte>, x: nat, buf: Block)
    requires Own(SB, blk2, ino2) && Live(ino2, i) && Turn(blk2, ino2, i, p, piece, x, buf)
    ensures Own(SB, blk2[x := buf], ino2) && SameSlots(blk2, ino2, blk2[x := buf], ino2)
  {
    WriteBlock(SB, blk2, ino2, i, p / BSIZE, buf);
  }

  lemma AppendWritten(blk0: seq<Block>, ino: seq<Inode>, blk1: seq<Block>, ino1: seq<Inode>, blk2: seq<Block>,
                      ino2: seq<Inode>,
                      i: nat, s: seq<Byte>, piece: seq<Byte>, x: nat, buf: Block)
    requires InodesOk(ino) && InodesOk(ino1) && Live(ino, i) && Own(SB, blk2, ino2) && Live(ino2, i)
    requires Written(blk0, ino, blk1, ino1, i, ino[i].size, s) && SameBytes(blk1, ino1, blk2, ino2)
    requires Turn(blk2, ino2, i, ino[i].size + |s|, piece, x, buf)
    ensures Written(blk0, ino, blk2[x := buf], ino2, i, ino[i].size, s + piece)
  {
    var p := ino[i].size + |s|;
    WriteBlock(SB, blk2, ino2, i, p / BSIZE, buf);
    Fs.PutPiece(blk0, ino, blk1, ino1, blk2, ino2, i, ino[i].size, s, piece, p, x, buf);
  }

  /** After the loop: with the new size, file i has the bytes appended and the others are as before. */
  lemma Appended(blk0: seq<Block>, ino: seq<Inode>, blk: seq<Block>, ino1: seq<Inode>, i: nat, p: seq<Byte>,
                 freeinode: nat, files: map<nat, seq<Byte>>)
    requires InodesOk(ino) && InodesOk(ino1) && Live(ino, i) && |ino1| == |ino| && i in files
    requires Filed(blk0, ino, freeinode, files) && Written(blk0, ino, blk, ino1, i, ino[i].size, p)
    requires ino1 == ino[i := ino1[i]] && SameButAddrs(ino[i], ino1[i]) && Encodable(ino1[i]) && ino[i].size + |p| < U32
    ensures Filed(blk, ino1[i := ino1[i].(size := ino[i].size + |p|)], freeinode, files[i := files[i] + p])
  {
    var last := ino1[i := ino1[i].(size := ino[i].size + |p|)];
    assert forall j: nat :: Live(last, j) <==> Live(ino, j);
    forall j: nat | Live(last, j) ensures FileOk(blk, last[j], files[i := files[i] + p][j]) {
      assert Live(ino, j) && FileOk(blk0, ino[j], files[j]);
      forall k: nat
        ensures ByteAt(blk, last[j], k) == ByteAt(blk, ino1[j], k)
        ensures WrittenByte(blk0, ino, blk, ino1, i, ino[i].size, p, j, k)
      {
      }
      if j == i {
        WrittenContent(blk0, ino[i], blk, last[i], ino[i].size, p);
      } else {
        assert forall k: nat :: ByteAt(blk, last[j], k) == ByteAt(blk0, ino[j], k);
      }
    }
  }

  /** ialloc's winode: the new table entry is a live, empty file. */
  lemma IallocSettles(img: seq<Block>, freeblock: nat, i: nat, din: Inode, files: map<nat, seq<Byte>>, img': seq<Block>)
    requires Sound(img, freeblock, i, files) && i < NTABLE && Encodable(din) && |img| == |img'| == FSSIZE
    requires freeblock <= FSSIZE
    requires din.typ != 0 && din.size == 0 && din.addrs == seq(NDIRECT + 1, _ => 0)
    requires SB.inodestart <= IBlock(SB, i) < SB.bmapstart && img' == img[IBlock(SB, i) := img'[IBlock(SB, i)]]
    requires Table(SB, img', NTABLE) == Table(SB, img, NTABLE)[i := din]
    ensures Good(img', freeblock, i + 1, files[i := []])
  {
    OpenSound(img, freeblock, i, files);
    IallocGood(img, freeblock, Table(SB, img, NTABLE), i, din, files, img');
  }

  lemma IallocGood(img: seq<Block>, fb: nat, ino: seq<Inode>, i: nat, din: Inode, files: map<nat, seq<Byte>>,
                   img': seq<Block>)
    requires |img| == |img'| == FSSIZE && fb <= FSSIZE && 1 <= i < NTABLE && ReadSuper(img[1]) == SB && Encodable(din)
    requires Built(img, fb, ino) && Filed(View(img, fb), ino, i, files)
    requires din.typ != 0 && din.size == 0 && din.addrs == seq(NDIRECT + 1, _ => 0)
    requires SB.inodestart <= IBlock(SB, i) < SB.bmapstart && img' == img[IBlock(SB, i) := img'[IBlock(SB, i)]]
    requires Table(SB, img', NTABLE) == ino[i := din]
    ensures Good(img', fb, i + 1, files[i := []])
  {
    var last := ino[i := din];
    FiledNew(View(img, fb), ino, i, din, files);
    NewBuilt(img, fb, ino, i, din);
    Settle(img, fb, last, i + 1, files[i := []], IBlock(SB, i), img');
    IsGood(img', fb, i + 1, files[i := []], last);
  }

  lemma NewBuilt(img: seq<Block>, fb: nat, ino: seq<Inode>, i: nat, din: Inode)
    requires Built(img, fb, ino) && i < NTABLE && !Live(ino, i)
    requires din.typ != 0 && din.size == 0 && din.addrs == seq(NDIRECT + 1, _ => 0)
    ensures InodesOk(ino[i := din]) && Built(img, fb, ino[i := din])
  {
    OpenOwn(img, fb, ino);
    Fs.NewInode(SB, View(img, fb), ino, i, ino[i := din]);
  }

  /** iappend between its loop and its winode: the blocks hold the bytes, `din` maps them, and the
      inode on the image is still the old one. */
  ghost predicate Appending(blk0: seq<Block>, ino: seq<Inode>, img: seq<Block>, fb: nat, i: nat, din: Inode,
                            p: seq<Byte>,
                            freeinode: nat, files: map<nat, seq<Byte>>) {
    && |img| == FSSIZE && fb <= FSSIZE && i < NTABLE == |ino| && i in files && 1 <= freeinode <= NTABLE
      && ReadSuper(img[1]) == SB
    && Table(SB, img, NTABLE) == ino && InodesOk(ino) && Filed(blk0, ino, freeinode, files)
    && Encodable(din) && SameButAddrs(ino[i], din) && Built(img, fb, ino[i := din])
    && ino[i].size + |p| <= MAXFILE * BSIZE
    && Written(blk0, ino, View(img, fb), ino[i := din], i, ino[i].size, p)
    && Snug(View(img, fb), ino[i := din], i, ino[i].size + |p|)
      && fb == NMETA + SumTo(files[i := files[i] + p], freeinode)
  }

  ghost predicate Pending(blk0: seq<Block>, ino: seq<Inode>, img: seq<Block>, fb: nat, i: nat, din: Inode, p: seq<Byte>,
                          freeinode: nat, files: map<nat, seq<Byte>>) {
    forall k: nat :: Look(k) ==> Appending(blk0, ino, img, fb, i, din, p, freeinode, files)
  }

  lemma PendingFacts(blk0: seq<Block>, ino: seq<Inode>, img: seq<Block>, fb: nat, i: nat, din: Inode, p: seq<Byte>,
                     freeinode: nat, files: map<nat, seq<Byte>>)
    requires Pending(blk0, ino, img, fb, i, din, p, freeinode, files)
    ensures |img| == FSSIZE && fb <= FSSIZE && i < NTABLE == |ino| && i in files && Table(SB, img, NTABLE) == ino
    ensures din.size == ino[i].size && SameHead(ino[i], din) && Encodable(din.(size := din.size + |p|))
  {
    assert Look(0);
  }

  lemma AppendEnds(img0: seq<Block>, fb0: nat, freeinode: nat, files: map<nat, seq<Byte>>, ino: seq<Inode>, i: nat,
                   din: Inode,
                   p: seq<Byte>, img: seq<Block>, fb: nat)
    requires Sound(img0, fb0, freeinode, files) && |img0| == FSSIZE && fb0 <= FSSIZE && i in files && 1 <= i < freeinode
    requires ino == Table(SB, img0, NTABLE) && i < NTABLE && ino[i].size == |files[i]|
    requires Grown(img0, fb0, ino, img, fb, i, din, p)
    ensures Pending(View(img0, fb0), ino, img, fb, i, din, p, freeinode, files)
  {
    OpenGrown(img0, fb0, ino, img, fb, i, din, p);
    assert Table(SB, img, NTABLE) == ino by { TableFrame(img0, img); }
    assert fb == NMETA + SumTo(files[i := files[i] + p], freeinode) by {
      SoundFacts(img0, fb0, freeinode, files);
      RoomFor(fb0, freeinode, files, i, p);
    }
    StillFiled(img0, fb0, freeinode, files, ino);
    AppendJoin(img0, fb0, freeinode, files, ino, i, din, p, img, fb);
  }

  lemma OpenGrown(img0: seq<Block>, fb0: nat, ino: seq<Inode>, img: seq<Block>, fb: nat, i: nat, din: Inode,
                  p: seq<Byte>)
    requires Grown(img0, fb0, ino, img, fb, i, din, p)
    ensures Grew(img0, fb0, ino, img, fb, i, din, p)
  {
    assert Look(0);
  }

  lemma StillFiled(img: seq<Block>, fb: nat, freeinode: nat, files: map<nat, seq<Byte>>, ino: seq<Inode>)
    requires Sound(img, fb, freeinode, files) && |img| == FSSIZE && fb <= FSSIZE && ino == Table(SB, img, NTABLE)
    ensures freeinode <= NTABLE && ReadSuper(img[1]) == SB && Filed(View(img, fb), ino, freeinode, files)
  {
    OpenSound(img, fb, freeinode, files);
  }

  lemma AppendJoin(img0: seq<Block>, fb0: nat, freeinode: nat, files: map<nat, seq<Byte>>, ino: seq<Inode>, i: nat,
                   din: Inode,
                   p: seq<Byte>, img: seq<Block>, fb: nat)
    requires Grew(img0, fb0, ino, img, fb, i, din, p) && i in files && 1 <= freeinode <= NTABLE
    requires Table(SB, img, NTABLE) == ino && ReadSuper(img0[1]) == SB && Filed(View(img0, fb0), ino, freeinode, files)
    requires fb == NMETA + SumTo(files[i := files[i] + p], freeinode)
    ensures Pending(View(img0, fb0), ino, img, fb, i, din, p, freeinode, files)
  {
    assert Appending(View(img0, fb0), ino, img, fb, i, din, p, freeinode, files);
  }

  /** iappend's winode: the table entry gets the new size and block map. */
  lemma IappendDone(blk0: seq<Block>, ino: seq<Inode>, img: seq<Block>, fb: nat, i: nat, din: Inode, p: seq<Byte>,
                    size: nat,
                    freeinode: nat, files: map<nat, seq<Byte>>, img': seq<Block>)
    requires Pending(blk0, ino, img, fb, i, din, p, freeinode, files) && |img'| == FSSIZE && i in files
    requires Rewritten(ino, img, i, din, p, size, img')
    ensures Sound(img', fb, freeinode, files[i := files[i] + p])
  {
    IappendGood(blk0, ino, img, fb, i, din, p, size, freeinode, files, img');
    IappendSnug(blk0, ino, img, fb, i, din, p, size, freeinode, files, img');
    Seal(img', fb, freeinode, files[i := files[i] + p]);
  }

  /** winode has written inode i, with its new size. */
  ghost predicate Rewritten(ino: seq<Inode>, img: seq<Block>, i: nat, din: Inode, p: seq<Byte>, size: nat,
                            img': seq<Block>) {
    && |img| == |img'| == FSSIZE && i < |ino| && size == ino[i].size + |p|
    && SB.inodestart <= IBlock(SB, i) < SB.bmapstart && img' == img[IBlock(SB, i) := img'[IBlock(SB, i)]]
    && Table(SB, img', NTABLE) == ino[i := din.(size := size)]
  }

  lemma IappendGood(blk0: seq<Block>, ino: seq<Inode>, img: seq<Block>, fb: nat, i: nat, din: Inode, p: seq<Byte>,
                    size: nat,
                    freeinode: nat, files: map<nat, seq<Byte>>, img': seq<Block>)
    requires Pending(blk0, ino, img, fb, i, din, p, freeinode, files) && i in files
    requires Rewritten(ino, img, i, din, p, size, img')
    ensures Good(img', fb, freeinode, files[i := files[i] + p])
  {
    assert Look(0);
    assert Live(ino, i);
    IappendSettles(blk0, ino, img, fb, i, din, p, size, freeinode, files, img');
    IsGood(img', fb, freeinode, files[i := files[i] + p], ino[i := din.(size := size)]);
  }

  lemma IappendSnug(blk0: seq<Block>, ino: seq<Inode>, img: seq<Block>, fb: nat, i: nat, din: Inode, p: seq<Byte>,
                    size: nat,
                    freeinode: nat, files: map<nat, seq<Byte>>, img': seq<Block>)
    requires Pending(blk0, ino, img, fb, i, din, p, freeinode, files) && i in files
    requires Rewritten(ino, img, i, din, p, size, img')
    ensures Tidy(img', fb, freeinode, files[i := files[i] + p])
  {
    PendingSnug(blk0, ino, img, fb, i, din, p, freeinode, files);
    SnugSame(View(img, fb), ino[i := din], i, ino[i].size + |p|, size);
    IappendTidy(img, fb, ino, i, din, size, img');
  }

  lemma PendingSnug(blk0: seq<Block>, ino: seq<Inode>, img: seq<Block>, fb: nat, i: nat, din: Inode, p: seq<Byte>,
                    freeinode: nat, files: map<nat, seq<Byte>>)
    requires Pending(blk0, ino, img, fb, i, din, p, freeinode, files) && i in files
    ensures |img| == FSSIZE && fb <= FSSIZE && i < |ino| == NTABLE && InodesOk(ino) && Live(ino, i)
    ensures SameButAddrs(ino[i], din)
    ensures Built(img, fb, ino[i := din]) && Snug(View(img, fb), ino[i := din], i, ino[i].size + |p|)
    ensures fb == NMETA + SumTo(files[i := files[i] + p], freeinode)
  {
    assert Look(0);
    assert Live(ino, i);
  }

  lemma SnugSame(blk: seq<Block>, ino: seq<Inode>, i: nat, m: nat, n: nat)
    requires InodesOk(ino) && Snug(blk, ino, i, m) && m == n
    ensures Snug(blk, ino, i, n)
  {
  }

  lemma Seal(img: seq<Block>, fb: nat, freeinode: nat, files: map<nat, seq<Byte>>)
    requires Good(img, fb, freeinode, files) && Tidy(img, fb, freeinode, files)
    ensures Sound(img, fb, freeinode, files)
  {
  }

  lemma IsGood(img: seq<Block>, fb: nat, freeinode: nat, files: map<nat, seq<Byte>>, ino: seq<Inode>)
    requires |img| == FSSIZE && fb <= FSSIZE && 1 <= freeinode <= NTABLE && ReadSuper(img[1]) == SB
    requires Table(SB, img, NTABLE) == ino
    requires Built(img, fb, ino) && Filed(View(img, fb), ino, freeinode, files)
    ensures Good(img, fb, freeinode, files)
  {
  }

  lemma IappendSettles(blk0: seq<Block>, ino: seq<Inode>, img: seq<Block>, freeblock: nat, i: nat, din: Inode,
                       p: seq<Byte>,
                       size: nat, freeinode: nat, files: map<nat, seq<Byte>>, img': seq<Block>)
    requires |img| == |img'| == FSSIZE && freeblock <= FSSIZE && InodesOk(ino) && Live(ino, i) && i in files
    requires Encodable(din) && SameButAddrs(ino[i], din) && Built(img, freeblock, ino[i := din])
    requires Filed(blk0, ino, freeinode, files) && size == ino[i].size + |p| <= MAXFILE * BSIZE
    requires Written(blk0, ino, View(img, freeblock), ino[i := din], i, ino[i].size, p)
    requires SB.inodestart <= IBlock(SB, i) < SB.bmapstart && img' == img[IBlock(SB, i) := img'[IBlock(SB, i)]]
    ensures var last := ino[i := din.(size := size)];
      Built(img', freeblock, last) && Filed(View(img', freeblock), last, freeinode, files[i := files[i] + p])
  {
    var ino1, blk, last := ino[i := din], View(img, freeblock), ino[i := din.(size := size)];
    assert ino1[i := ino1[i].(size := size)] == last;
    Appended(blk0, ino, blk, ino1, i, p, freeinode, files);
    SizeBuilt(img, freeblock, ino1, i, size);
    Settle(img, freeblock, last, freeinode, files[i := files[i] + p], IBlock(SB, i), img');
  }

  lemma FiledNew(blk: seq<Block>, ino: seq<Inode>, i: nat, din: Inode, files: map<nat, seq<Byte>>)
    requires InodesOk(ino) && Filed(blk, ino, i, files) && 1 <= i < |ino| && Encodable(din)
    requires din.typ != 0 && din.size == 0 && din.addrs == seq(NDIRECT + 1, _ => 0)
    ensures Filed(blk, ino[i := din], i + 1, files[i := []])
  {
    var ino' := ino[i := din];
    assert forall j: nat :: Live(ino', j) <==> j == i || Live(ino, j);
    forall j: nat | Live(ino', j) ensures FileOk(blk, ino'[j], files[i := []][j]) {
      if j == i {
        assert forall k: nat :: ByteAt(blk, din, k) == 0;
      } else {
        assert Live(ino, j) && FileOk(blk, ino[j], files[j]);
      }
    }
  }

  /** Rewriting an inode sector at the end of an operation: everything said over the view carries
      over to the image whose table now is `ino`. */
  lemma Settle(img: seq<Block>, freeblock: nat, ino: seq<Inode>, freeinode: nat, files: map<nat, seq<Byte>>, m: nat,
               img': seq<Block>)
    requires |img| == FSSIZE == |img'| && freeblock <= FSSIZE && InodesOk(ino)
    requires Built(img, freeblock, ino) && Filed(View(img, freeblock), ino, freeinode, files)
    requires SB.inodestart <= m < SB.bmapstart && img' == img[m := img'[m]]
    ensures Built(img', freeblock, ino) && Filed(View(img', freeblock), ino, freeinode, files)
  {
    OpenOwn(img, freeblock, ino);
    assert View(img', freeblock) == View(img, freeblock)[m := img'[m]];
    MetaFrame(View(img, freeblock), ino, m, img'[m]);
    FiledFrame(View(img, freeblock), View(img', freeblock), ino, freeinode, files);
  }
}
