/** struct dinode of inc/fs.h inside an inode block: sixteen little-endian words per inode. Both the
    kernel (ilock, iupdate) and mkfs (rinode, winode) read and write this layout. */
module Dinode {
  import opened Bytes
  import opened FsSpec

  const DWORDS: nat := 16       // words in a dinode

  predicate Encodable(ip: Inode) {
    && ip.typ < U16 && ip.major < U16 && ip.minor < U16 && ip.nlink < U16 && ip.size < U32
    && |ip.addrs| == NDIRECT + 1 && forall t :: 0 <= t <= NDIRECT ==> ip.addrs[t] < U32
  }

  /** Word w of the encoded inode: two 16-bit fields in each of the first two, then size, addrs. */
  function Field(ip: Inode, w: nat): (x: nat)
    requires Encodable(ip) && w < DWORDS
    ensures x < U32
  {
    if w == 0 then ip.typ + U16 * ip.major
    else if w == 1 then ip.minor + U16 * ip.nlink
    else if w == 2 then ip.size
    else ip.addrs[w - 3]
  }

  /** The k-th inode of an inode block. */
  function Decode(b: Block, k: nat): (ip: Inode)
    requires k < IPB
    ensures Encodable(ip)
  {
    var at := DWORDS * k;
    var addrs := seq<nat>(NDIRECT + 1, t requires 0 <= t <= NDIRECT => Word(b, at + 3 + t));
    assert forall t :: 0 <= t <= NDIRECT ==> addrs[t] == Word(b, at + 3 + t);
    Inode(Word(b, at) % U16, Word(b, at) / U16, Word(b, at + 1) % U16, Word(b, at + 1) / U16, Word(b, at + 2), addrs)
  }

  function PutWords(b: Block, k: nat, ip: Inode, n: nat): (r: Block)
    requires k < IPB && Encodable(ip) && n <= DWORDS
    ensures forall w :: 0 <= w < WORDS ==>
      Word(r, w) == if DWORDS * k <= w < DWORDS * k + n then Field(ip, w - DWORDS * k) else Word(b, w)
  {
    if n == 0 then b
    else
      var r := PutWords(b, k, ip, n - 1);
      PutWordGet(r, DWORDS * k + n - 1, Field(ip, n - 1));
      PutWord(r, DWORDS * k + n - 1, Field(ip, n - 1))
  }

  function PutInode(b: Block, k: nat, ip: Inode): Block
    requires k < IPB && Encodable(ip)
  {
    PutWords(b, k, ip, DWORDS)
  }

  /** An inode written is the inode read. */
  lemma PutInodeSame(b: Block, k: nat, ip: Inode)
    requires k < IPB && Encodable(ip)
    ensures Decode(PutInode(b, k, ip), k) == ip
  {
    var r := PutInode(b, k, ip);
    assert Word(r, DWORDS * k) == Field(ip, 0);
    assert Word(r, DWORDS * k + 1) == Field(ip, 1);
    assert Word(r, DWORDS * k + 2) == Field(ip, 2);
    forall t | 0 <= t <= NDIRECT ensures Decode(r, k).addrs[t] == ip.addrs[t] {
      assert Word(r, DWORDS * k + 3 + t) == Field(ip, 3 + t);
    }
  }

  /** The other seven inodes of the block are untouched. */
  lemma PutInodeOther(b: Block, k: nat, ip: Inode, j: nat)
    requires k < IPB && j < IPB && j != k && Encodable(ip)
    ensures Decode(PutInode(b, k, ip), j) == Decode(b, j)
  {
    var r := PutInode(b, k, ip);
    var at := DWORDS * j;
    assert at + DWORDS <= DWORDS * k || DWORDS * k + DWORDS <= at;
    assert Word(r, at) == Word(b, at) && Word(r, at + 1) == Word(b, at + 1) && Word(r, at + 2) == Word(b, at + 2);
    forall t | 0 <= t <= NDIRECT ensures Decode(r, j).addrs[t] == Decode(b, j).addrs[t] {
      assert Word(r, at + 3 + t) == Word(b, at + 3 + t);
    }
  }

  /** IBLOCK: the sector of inode i. */
  function IBlock(sb: Super, i: nat): nat {
    i / IPB + sb.inodestart
  }

  /** The inode table of a disk image, read with ilock's formulas. */
  function Table(sb: Super, img: seq<Block>, n: nat): (ino: seq<Inode>)
    requires sb.Ok() && |img| == sb.size && n <= sb.ninodes / IPB * IPB + IPB
    ensures |ino| == n && InodesOk(ino)
  {
    if n == 0 then [] else Table(sb, img, n - 1) + [Decode(img[IBlock(sb, n - 1)], (n - 1) % IPB)]
  }

  lemma {:induction false} TableAt(sb: Super, img: seq<Block>, n: nat, i: nat)
    requires sb.Ok() && |img| == sb.size && i < n <= sb.ninodes / IPB * IPB + IPB
    ensures Table(sb, img, n)[i] == Decode(img[IBlock(sb, i)], i % IPB)
  {
    if i < n - 1 { TableAt(sb, img, n - 1, i); }
  }

  /** iupdate and winode: writing inode i changes that entry of the table and no other. */
  lemma PutTable(sb: Super, img: seq<Block>, n: nat, i: nat, ip: Inode)
    requires sb.Ok() && |img| == sb.size && i < n <= sb.ninodes / IPB * IPB + IPB && Encodable(ip)
    ensures IBlock(sb, i) < sb.bmapstart
    ensures var img' := img[IBlock(sb, i) := PutInode(img[IBlock(sb, i)], i % IPB, ip)];
      Table(sb, img', n) == Table(sb, img, n)[i := ip]
  {
    var img' := img[IBlock(sb, i) := PutInode(img[IBlock(sb, i)], i % IPB, ip)];
    forall j | 0 <= j < n ensures Table(sb, img', n)[j] == Table(sb, img, n)[i := ip][j] {
      TableAt(sb, img, n, j);
      TableAt(sb, img', n, j);
      if j / IPB == i / IPB {
        if j % IPB == i % IPB {
          assert j == i;
          PutInodeSame(img[IBlock(sb, i)], i % IPB, ip);
        } else {
          PutInodeOther(img[IBlock(sb, i)], i % IPB, ip, j % IPB);
        }
      }
    }
  }

  /** The table reads only the inode sectors. */
  lemma {:induction false} TableReads(sb: Super, img: seq<Block>, img': seq<Block>, n: nat)
    requires sb.Ok() && |img| == |img'| == sb.size && n <= sb.ninodes / IPB * IPB + IPB
    requires forall b :: sb.inodestart <= b < sb.bmapstart ==> img'[b] == img[b]
    ensures Table(sb, img', n) == Table(sb, img, n)
  {
    if n > 0 { TableReads(sb, img, img', n - 1); }
  }
}
