/** The bytes on the disk, spelled out: words, the super block, inodes, directory entries and bitmap bits. */
module Layout {
  import opened Bytes
  import opened FsSpec
  import opened DirSpec
  import Dinode
  import Mkfs

  /** xint: the least significant byte comes first. */
  lemma WordBytes(b: Block, i: nat, w: nat)
    requires i < WORDS && w < U32
    ensures var r := PutWord(b, i, w);
      r[4 * i] == w % 256 && r[4 * i + 1] == w / 256 % 256
      && r[4 * i + 2] == w / 65536 % 256 && r[4 * i + 3] == w / 16777216
  {
  }

  lemma BytesWord(b: Block, i: nat)
    requires i < WORDS
    ensures Word(b, i) % 256 == b[4 * i] && Word(b, i) / 256 % 256 == b[4 * i + 1]
    ensures Word(b, i) / 65536 % 256 == b[4 * i + 2] && Word(b, i) / 16777216 == b[4 * i + 3]
  {
    Digits(Word(b, i), b[4 * i], b[4 * i + 1], b[4 * i + 2], b[4 * i + 3]);
  }

  lemma Digits(w: nat, p: Byte, q: Byte, r: Byte, s: Byte)
    requires w == p + 256 * q + 65536 * r + 16777216 * s
    ensures w % 256 == p && w / 256 % 256 == q && w / 65536 % 256 == r && w / 16777216 == s
  {
    Digit(p, q + 256 * r + 65536 * s);
    Digit(q, r + 256 * s);
    Digit(r, s);
    assert w / 256 == q + 256 * r + 65536 * s;
    assert w / 65536 == w / 256 / 256 == r + 256 * s;
    assert w / 16777216 == w / 65536 / 256;
  }

  lemma Digit(p: Byte, n: nat)
    ensures (p + 256 * n) % 256 == p && (p + 256 * n) / 256 == n
  {
  }

  /** Bytes i, i + 1, i + 2 and i + 3. */
  predicate Four(b: Block, i: nat, p: Byte, q: Byte, r: Byte, s: Byte)
    requires i + 4 <= BSIZE
  {
    b[i] == p && b[i + 1] == q && b[i + 2] == r && b[i + 3] == s
  }

  lemma FourBytes(b: Block, i: nat, w: nat, p: Byte, q: Byte)
    requires i < WORDS && Word(b, i) == w == p + 256 * q
    ensures Four(b, 4 * i, p, q, 0, 0)
  {
    BytesWord(b, i);
  }

  /** The first bytes of sector 1 of every image, in seven words: the size, the data blocks, the inodes, the
      log's length and start, and the starts of inodes and bitmap. */
  lemma SuperBytes(b: Block)
    requires b == Mkfs.SuperSector(|Mkfs.SUPER|)
    ensures Four(b, 0, 232, 3, 0, 0) && Four(b, 4, 173, 3, 0, 0) && Four(b, 8, 200, 0, 0, 0)
    ensures Four(b, 12, 30, 0, 0, 0) && Four(b, 16, 2, 0, 0, 0) && Four(b, 20, 32, 0, 0, 0)
    ensures Four(b, 24, 58, 0, 0, 0)
  {
    SuperWords(b, |Mkfs.SUPER|);
    SevenWords(b);
  }

  lemma SevenWords(b: Block)
    requires Word(b, 0) == 1000 && Word(b, 1) == 941 && Word(b, 2) == 200 && Word(b, 3) == 30
    requires Word(b, 4) == 2 && Word(b, 5) == 32 && Word(b, 6) == 58
    ensures Four(b, 0, 232, 3, 0, 0) && Four(b, 4, 173, 3, 0, 0) && Four(b, 8, 200, 0, 0, 0)
    ensures Four(b, 12, 30, 0, 0, 0) && Four(b, 16, 2, 0, 0, 0) && Four(b, 20, 32, 0, 0, 0)
    ensures Four(b, 24, 58, 0, 0, 0)
  {
    FourBytes(b, 0, 1000, 232, 3);
    FourBytes(b, 1, 941, 173, 3);
    FourBytes(b, 2, 200, 200, 0);
    FourBytes(b, 3, 30, 30, 0);
    FourBytes(b, 4, 2, 2, 0);
    FourBytes(b, 5, 32, 32, 0);
    FourBytes(b, 6, 58, 58, 0);
  }

  lemma SuperWords(b: Block, n: nat)
    requires n == |Mkfs.SUPER| && forall w :: 0 <= w < n ==> Word(b, w) == Mkfs.SUPER[w]
    ensures Word(b, 0) == 1000 && Word(b, 1) == 941 && Word(b, 2) == 200 && Word(b, 3) == 30
    ensures Word(b, 4) == 2 && Word(b, 5) == 32 && Word(b, 6) == 58
  {
    assert Mkfs.SUPER[0] == 1000 && Mkfs.SUPER[1] == 941 && Mkfs.SUPER[6] == 58;
  }

  /** A 16-bit field at a byte offset. */
  function HalfAt(b: seq<Byte>, at: nat): nat
    requires at + 2 <= |b|
  {
    b[at] as int + 256 * b[at + 1] as int
  }

  /** An inode takes 64 bytes: type, major, minor, links, size, and thirteen block numbers. */
  lemma InodeBytes(b: Block, k: nat, ip: Inode)
    requires k < IPB && Dinode.Encodable(ip)
    ensures IPB == 8 && NDIRECT == 12
    ensures var r := Dinode.PutInode(b, k, ip);
      && HalfAt(r, 64 * k) == ip.typ && HalfAt(r, 64 * k + 2) == ip.major
      && HalfAt(r, 64 * k + 4) == ip.minor && HalfAt(r, 64 * k + 6) == ip.nlink
      && HalfAt(r, 64 * k + 8) + 65536 * HalfAt(r, 64 * k + 10) == ip.size
      && forall t :: 0 <= t <= 12 ==>
        HalfAt(r, 64 * k + 12 + 4 * t) + 65536 * HalfAt(r, 64 * k + 14 + 4 * t) == ip.addrs[t]
  {
    var r := Dinode.PutInode(b, k, ip);
    WordHalves(r, 16 * k);
    WordHalves(r, 16 * k + 1);
    WordHalves(r, 16 * k + 2);
    TwoHalves(ip.typ, ip.major);
    TwoHalves(ip.minor, ip.nlink);
    forall t | 0 <= t <= 12
      ensures HalfAt(r, 64 * k + 12 + 4 * t) + 65536 * HalfAt(r, 64 * k + 14 + 4 * t) == ip.addrs[t]
    {
      WordHalves(r, 16 * k + 3 + t);
      assert Word(r, Dinode.DWORDS * k + (3 + t)) == Dinode.Field(ip, 3 + t);
    }
    assert Word(r, Dinode.DWORDS * k) == Dinode.Field(ip, 0);
    assert Word(r, Dinode.DWORDS * k + 1) == Dinode.Field(ip, 1);
    assert Word(r, Dinode.DWORDS * k + 2) == Dinode.Field(ip, 2);
  }

  lemma WordHalves(b: Block, w: nat)
    requires w < WORDS
    ensures HalfAt(b, 4 * w) == Word(b, w) % 65536 && HalfAt(b, 4 * w + 2) == Word(b, w) / 65536
    ensures Word(b, w) == HalfAt(b, 4 * w) + 65536 * HalfAt(b, 4 * w + 2)
  {
    BytesWord(b, w);
  }

  lemma TwoHalves(x: nat, y: nat)
    requires x < 65536 && y < 65536
    ensures (x + U16 * y) % 65536 == x && (x + U16 * y) / 65536 == y
  {
  }

  /** A directory entry takes 16 bytes: the number, and the name up to a NUL or 14 bytes, filled up with NULs. */
  lemma EntryLayout(name: seq<Byte>, inum: nat)
    ensures var r := EntryBytes(name, inum);
      && |r| == 16 && HalfAt(r, 0) == inum % 65536
      && forall k :: 0 <= k < 14 ==> r[k + 2] == if k < |Trunc(name)| then name[k] else 0
  {
    var r := EntryBytes(name, inum);
    forall k | 0 <= k < 14 ensures r[k + 2] == if k < |Trunc(name)| then name[k] else 0 {
      assert r[k + 2] == Padded(name)[k];
      PaddedAt(name, k);
    }
  }

  lemma PaddedAt(name: seq<Byte>, k: nat)
    requires k < 14
    ensures |Trunc(name)| <= |name| && Padded(name)[k] == if k < |Trunc(name)| then name[k] else 0
  {
    var t := Trunc(name);
    assert Padded(name) == t + seq(DIRSIZ - |t|, _ => 0);
  }

  /** A file has at most 12 blocks and as many as there are words in one more: 71680 bytes. */
  lemma FileLimit()
    ensures MAXFILE == NDIRECT + BSIZE / 4 && NINDIRECT == WORDS && MAXFILE * BSIZE == 71680
    ensures forall bn: nat :: SlotOf(bn) == if bn < 12 then bn else bn + 1
  {
  }

  const POWERS: seq<nat> := [1, 2, 4, 8, 16, 32, 64, 128]

  /** A bitmap bit is the kernel's `data[b / 8] & (1 << (b % 8))`. */
  lemma BitIsMask(x: Byte, j: nat)
    requires j < 8
    ensures BitOf(x, j) <==> x / POWERS[j] % 2 == 1
  {
  }
}
