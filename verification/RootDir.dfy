/** The root directory that user/src/mkfs/main.c writes, as kern/fs.c reads it. */
module RootDir {
  import opened Bytes
  import opened FsSpec
  import opened DirSpec
  import Mkfs

  datatype File = File(name: seq<Byte>, inum: nat)

  /** What mkfs appends to the root, one entry after the other. */
  function RootBytes(fs: seq<File>): (c: seq<Byte>)
    ensures |c| == ENT * |fs|
  {
    if fs == [] then [] else RootBytes(fs[..|fs| - 1]) + EntryBytes(fs[|fs| - 1].name, fs[|fs| - 1].inum)
  }

  /** The entries as a map, from the k-th on: of two with the same name the first counts. */
  function NamesFrom(fs: seq<File>, k: nat): map<seq<Byte>, nat>
    requires k <= |fs|
    decreases |fs| - k
  {
    if k == |fs| then map[] else NamesFrom(fs, k + 1)[Trunc(fs[k].name) := fs[k].inum]
  }

  predicate Numbered(fs: seq<File>) {
    forall k :: 0 <= k < |fs| ==> 0 < fs[k].inum < U16
  }

  lemma {:induction false} RootEntry(fs: seq<File>, k: nat)
    requires k < |fs|
    ensures RootBytes(fs)[ENT * k..ENT * k + ENT] == EntryBytes(fs[k].name, fs[k].inum)
    decreases |fs|
  {
    var es, f := fs[..|fs| - 1], fs[|fs| - 1];
    if k < |fs| - 1 {
      RootEntry(es, k);
      SliceLeft(RootBytes(es), EntryBytes(f.name, f.inum), ENT * k, ENT * k + ENT);
    } else {
      SliceRight(RootBytes(es), EntryBytes(f.name, f.inum));
    }
  }

  lemma SliceLeft(a: seq<Byte>, b: seq<Byte>, i: nat, j: nat)
    requires i <= j <= |a|
    ensures (a + b)[i..j] == a[i..j]
  {
  }

  lemma SliceRight(a: seq<Byte>, b: seq<Byte>)
    ensures (a + b)[|a|..|a| + |b|] == b
  {
  }

  /** The kernel reads the entries that mkfs wrote. */
  lemma {:induction false} RootIsNames(fs: seq<File>, k: nat)
    requires Numbered(fs) && k <= |fs|
    ensures k <= Entries(RootBytes(fs)) == |fs| && DirFrom(RootBytes(fs), k) == NamesFrom(fs, k)
    decreases |fs| - k
  {
    EntriesOf(RootBytes(fs), |fs|);
    if k < |fs| {
      RootIsNames(fs, k + 1);
      RootAt(fs, k);
    }
  }

  lemma EntriesOf(c: seq<Byte>, n: nat)
    requires |c| == ENT * n
    ensures Entries(c) == n && |c| % ENT == 0
  {
  }

  lemma Small(n: nat)
    requires n < U16
    ensures n % U16 == n
  {
  }

  lemma RootAt(fs: seq<File>, k: nat)
    requires Numbered(fs) && k < |fs| == Entries(RootBytes(fs))
    ensures Num(RootBytes(fs), k) == fs[k].inum && NameAt(RootBytes(fs), k) == Trunc(fs[k].name)
  {
    RootEntry(fs, k);
    EntryReads(fs[k].name, fs[k].inum);
    Small(fs[k].inum);
    SameEntry(RootBytes(fs), k, EntryBytes(fs[k].name, fs[k].inum));
  }

  /** An entry appended to a directory is inserted into the map. */
  lemma AppendEntry(c: seq<Byte>, n: nat, name: seq<Byte>, inum: nat)
    requires |c| == ENT * n && Trunc(name) !in Dir(c) && 0 < inum < U16
    ensures Dir(c + EntryBytes(name, inum)) == Dir(c)[Trunc(name) := inum]
  {
    AtEnd(c, n, EntryBytes(name, inum));
    Small(inum);
    LinkInserts(c, n, name, inum, c + EntryBytes(name, inum));
  }

  lemma AtEnd(c: seq<Byte>, n: nat, e: seq<Byte>)
    requires |c| == ENT * n && |e| == ENT
    ensures Entries(c) == n && Replaced(c, n, e, c + e)
  {
    EntriesOf(c, n);
    assert c[..|c|] == c;
  }

  // ---- the root's last block ---------------------------------------------------------------

  predicate ZeroFrom(d: seq<Byte>, m: nat) {
    forall x :: m <= x < |d| ==> d[x] == 0
  }

  lemma ZeroEntry(d: seq<Byte>, m: nat, k: nat)
    requires ZeroFrom(d, m) && m <= ENT * k && k < Entries(d)
    ensures Num(d, k) == 0
  {
    assert d[ENT * k] == 0 && d[ENT * k + 1] == 0;
  }

  lemma {:induction false} ZeroTail(d: seq<Byte>, m: nat, k: nat)
    requires ZeroFrom(d, m) && m <= ENT * k && k <= Entries(d)
    ensures DirFrom(d, k) == map[]
    decreases Entries(d) - k
  {
    if k < Entries(d) {
      ZeroEntry(d, m, k);
      ZeroTail(d, m, k + 1);
    }
  }

  lemma SameSlice(c: seq<Byte>, d: seq<Byte>, i: nat, j: nat)
    requires |c| <= |d| && d[..|c|] == c && i <= j <= |c|
    ensures d[i..j] == c[i..j]
  {
    forall x | i <= x < j ensures d[x] == c[x] { assert d[..|c|][x] == d[x]; }
  }

  lemma PrefixEntry(c: seq<Byte>, d: seq<Byte>, k: nat)
    requires |c| <= |d| && d[..|c|] == c && k < Entries(c)
    ensures k < Entries(d) && Num(d, k) == Num(c, k) && NameAt(d, k) == NameAt(c, k)
  {
    var e := c[ENT * k..ENT * k + ENT];
    SameSlice(c, d, ENT * k, ENT * k + ENT);
    SameEntry(d, k, e);
    SameEntry(c, k, e);
  }

  lemma {:induction false} ZerosAdd(c: seq<Byte>, d: seq<Byte>, n: nat, k: nat)
    requires |c| == ENT * n && |c| <= |d| && d[..|c|] == c && ZeroFrom(d, |c|) && k <= n
    ensures k <= Entries(d) && DirFrom(d, k) == DirFrom(c, k)
    decreases n - k
  {
    if k < n {
      ZerosAdd(c, d, n, k + 1);
      PrefixEntry(c, d, k);
    } else {
      ZeroTail(d, |c|, k);
    }
  }

  lemma Whole(n: nat)
    requires n % BSIZE == 0
    ensures n % ENT == 0
  {
  }

  /** The size correction of the root adds no names, and leaves whole entries. */
  lemma PaddingAddsNothing(c: seq<Byte>, n: nat)
    requires |c| == ENT * n
    ensures |Mkfs.Padded(c)| % ENT == 0 && Dir(Mkfs.Padded(c)) == Dir(c)
  {
    var d := Mkfs.Padded(c);
    Whole(|d|);
    ZerosAdd(c, d, n, 0);
  }

  /** The corrected root is a directory of whole entries, with the names that mkfs listed and no other. */
  lemma RootReads(fs: seq<File>)
    requires Numbered(fs)
    ensures var c := Mkfs.Padded(RootBytes(fs)); |c| % ENT == 0 && Dir(c) == NamesFrom(fs, 0)
  {
    RootIsNames(fs, 0);
    PaddingAddsNothing(RootBytes(fs), |fs|);
  }

  /** The first file of a name is the one that is found under it. */
  lemma {:induction false} FirstNamed(fs: seq<File>, j: nat, k: nat)
    requires j <= k < |fs| && forall i :: j <= i < k ==> Trunc(fs[i].name) != Trunc(fs[k].name)
    ensures Trunc(fs[k].name) in NamesFrom(fs, j) && NamesFrom(fs, j)[Trunc(fs[k].name)] == fs[k].inum
    decreases k - j
  {
    if j < k { FirstNamed(fs, j + 1, k); }
  }

  lemma {:induction false} NotNamed(fs: seq<File>, j: nat, name: seq<Byte>)
    requires j <= |fs| && forall i :: j <= i < |fs| ==> Trunc(fs[i].name) != Trunc(name)
    ensures Trunc(name) !in NamesFrom(fs, j)
    decreases |fs| - j
  {
    if j < |fs| { NotNamed(fs, j + 1, name); }
  }
}
