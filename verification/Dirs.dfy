/** kern/fs.c: names and path elements, and lookup and insertion of directory entries. */
module Dirs {
  import opened Bytes
  import opened FsSpec
  import opened DirSpec
  import opened Fs

  const PANIC: int := -3

  // ---- names -------------------------------------------------------------------------------

  /** namecmp: strncmp of a C string with an entry's 14 bytes. */
  method NameEqual(p: seq<Byte>, q: seq<Byte>) returns (eq: bool)
    requires |q| == DIRSIZ
    ensures eq <==> Trunc(p) == CStr(q)
  {
    var n := 0;
    while n < DIRSIZ && n < |p| && p[n] != 0 && p[n] == q[n]
      invariant n <= DIRSIZ && n <= |p| && forall k :: 0 <= k < n ==> p[k] == q[k] != 0
      decreases DIRSIZ - n
    {
      n := n + 1;
    }
    eq := n == DIRSIZ || (if n < |p| then p[n] else 0) == q[n];
    Compared(p, q, n, eq);
  }

  /** The first n bytes agree and are not NUL; either that is all, or the next bytes decide. */
  lemma Compared(p: seq<Byte>, q: seq<Byte>, n: nat, eq: bool)
    requires |q| == DIRSIZ && n <= DIRSIZ && n <= |p| && forall k :: 0 <= k < n ==> p[k] == q[k] != 0
    requires n == DIRSIZ || n == |p| || p[n] == 0 || p[n] != q[n]
    requires eq == (n == DIRSIZ || (if n < |p| then p[n] else 0) == q[n])
    ensures eq <==> Trunc(p) == CStr(q)
  {
    var t := if |p| <= DIRSIZ then p else p[..DIRSIZ];
    if eq {
      CStrIs(t, n);
      CStrIs(q, n);
      assert t[..n] == q[..n];
    } else {
      Differ(t, q, n);
    }
  }

  lemma Differ(t: seq<Byte>, q: seq<Byte>, n: nat)
    requires n < |q| && n <= |t| && (forall k :: 0 <= k < n ==> t[k] == q[k] != 0)
    requires (if n < |t| then t[n] else 0) != q[n]
    ensures CStr(t) != CStr(q)
  {
    if q[n] == 0 {
      CStrIs(q, n);
      assert |CStr(t)| != n;
    } else {
      assert |CStr(q)| > n && CStr(q)[n] == q[n];
      assert |CStr(t)| > n ==> CStr(t)[n] == t[n];
    }
  }

  /** strncpy into an entry. */
  method CopyName(name: seq<Byte>) returns (dst: seq<Byte>)
    ensures dst == Padded(name)
  {
    dst := [];
    var i, src := 0, 0;
    while i < DIRSIZ
      invariant i == |dst| <= DIRSIZ && src <= |name|
      invariant src == |Trunc(name)| <= i || (src == i < |Trunc(name)|)
      invariant dst == Padded(name)[..i]
    {
      var ch := if src < |name| then name[src] else 0;
      dst := dst + [ch];
      if ch != 0 { src := src + 1; }
      i := i + 1;
    }
  }

  // ---- directories -------------------------------------------------------------------------

  /** A directory's bytes. */
  ghost function Listing(fs: FileSystem, i: nat): seq<Byte>
    reads fs
    requires fs.Valid() && i < |fs.ino|
  {
    Content(fs.blk, fs.ino[i])
  }

  /** dirlookup: the first entry for the name. r is its position, -1 if there is none. */
  method Dirlookup(fs: FileSystem, i: nat, name: seq<Byte>) returns (r: int, inum: nat)
    requires fs.Valid() && i < |fs.ino| && fs.ino[i].typ == T_DIR
    modifies fs`blk, fs`ino
    ensures fs.Valid() && Kept(old(fs.blk), old(fs.ino), fs.blk, fs.ino)
    ensures r == PANIC ==> |old(Listing(fs, i))| % ENT != 0
    ensures r == STUCK ==> !HasFree(fs.sb, fs.blk)
    ensures r != PANIC && r != STUCK ==> Answer(old(Listing(fs, i)), name, r, inum)
  {
    ghost var c := Listing(fs, i);
    ghost var blk0, ino0 := fs.blk, fs.ino;
    var k: nat := 0;
    KeptSelf(fs.blk, fs.ino);
    while ENT * k < fs.ino[i].size
      invariant fs.Valid() && |fs.ino| == |ino0| && Kept(blk0, ino0, fs.blk, fs.ino) && SameButAddrs(ino0[i], fs.ino[i])
      invariant k <= Entries(c) && NoneBefore(c, name, k)
      decreases |c| - ENT * k
    {
      var code, n := LookAt(fs, i, k, name, c, blk0, ino0);
      if code != 0 { return if code == 1 then k else code, n; }
      k := k + 1;
    }
    NoMatch(c, 0, name);
    return -1, 0;
  }

  predicate NoneBefore(c: seq<Byte>, name: seq<Byte>, k: nat)
    requires k <= Entries(c)
  {
    forall j :: 0 <= j < k ==> !Matches(c, j, name)
  }

  /** One turn of dirlookup's loop: 1 and the number when entry k is for the name, 0 when not. */
  method LookAt(fs: FileSystem, i: nat, k: nat, name: seq<Byte>, ghost c: seq<Byte>, ghost blk0: seq<Block>,
                ghost ino0: seq<Inode>)
    returns (code: int, inum: nat)
    requires fs.Valid() && i < |fs.ino| && fs.ino[i].typ == T_DIR && ENT * k < fs.ino[i].size
    requires InodesOk(ino0) && Kept(blk0, ino0, fs.blk, fs.ino) && |ino0| == |fs.ino| && Live(ino0, i)
    requires c == Content(blk0, ino0[i])
    requires k <= Entries(c) && NoneBefore(c, name, k)
    modifies fs`blk, fs`ino
    ensures fs.Valid() && |fs.ino| == |ino0| && Kept(blk0, ino0, fs.blk, fs.ino) && SameButAddrs(ino0[i], fs.ino[i])
    ensures code == 0 || code == 1 || code == STUCK || code == PANIC
    ensures code == STUCK ==> !HasFree(fs.sb, fs.blk)
    ensures code == PANIC ==> |c| % ENT != 0
    ensures code == 0 ==> k < Entries(c) && NoneBefore(c, name, k + 1)
    ensures code == 1 ==> Answer(c, name, k, inum)
  {
    var de;
    code, de := ReadEntry(fs, i, k, c, blk0, ino0);
    if code != ENT { return code, 0; }
    inum := Half(de[0], de[1]);
    var eq := NameEqual(name, de[2..]);
    code := if inum != 0 && eq then 1 else 0;
    Decided(c, k, name, inum, eq);
  }

  lemma Decided(c: seq<Byte>, k: nat, name: seq<Byte>, inum: nat, eq: bool)
    requires k < Entries(c) && inum == Num(c, k) && (eq <==> Trunc(name) == NameAt(c, k)) && NoneBefore(c, name, k)
    ensures inum != 0 && eq ==> Answer(c, name, k, inum)
    ensures !(inum != 0 && eq) ==> NoneBefore(c, name, k + 1)
  {
    if inum != 0 && eq { FirstMatch(c, 0, k, name); }
  }

  /** One readi of an entry: ENT, or why it could not be had. */
  method ReadEntry(fs: FileSystem, i: nat, k: nat, ghost c: seq<Byte>, ghost blk0: seq<Block>, ghost ino0: seq<Inode>)
    returns (code: int, de: seq<Byte>)
    requires fs.Valid() && i < |fs.ino| && fs.ino[i].typ == T_DIR && ENT * k < fs.ino[i].size
    requires InodesOk(ino0) && Kept(blk0, ino0, fs.blk, fs.ino) && |ino0| == |fs.ino| && Live(ino0, i)
    requires c == Content(blk0, ino0[i])
    modifies fs`blk, fs`ino
    ensures fs.Valid() && |fs.ino| == |ino0| && Kept(blk0, ino0, fs.blk, fs.ino) && SameButAddrs(ino0[i], fs.ino[i])
    ensures code == ENT || code == STUCK || code == PANIC
    ensures code == STUCK ==> !HasFree(fs.sb, fs.blk)
    ensures code == PANIC ==> |c| % ENT != 0
    ensures code == ENT ==>
      k < Entries(c) && |de| == ENT && de == c[ENT * k..ENT * k + ENT] && Num(c, k) == Half(de[0], de[1])
        && NameAt(c, k) == CStr(de[2..])
  {
    assert KeptOne(blk0, ino0, fs.blk, fs.ino, i);
    ghost var blk1, ino1 := fs.blk, fs.ino;
    code, de := fs.Readi(i, ENT * k, ENT);
    ReadKeeps(blk1, ino1, fs.blk, fs.ino, i);
    KeptTrans(blk0, ino0, blk1, ino1, fs.blk, fs.ino);
    assert KeptOne(blk0, ino0, fs.blk, fs.ino, i);
    if code != STUCK {
      if code != ENT {
        code := PANIC;
        Ragged(|c|, k);
      } else {
        SameEntry(c, k, de);
      }
    }
  }

  lemma Ragged(n: nat, k: nat)
    requires ENT * k < n < ENT * k + ENT
    ensures n % ENT != 0
  {
  }

  lemma KeptSelf(blk: seq<Block>, ino: seq<Inode>)
    requires InodesOk(ino)
    ensures Kept(blk, ino, blk, ino)
  {
  }

  /** The first free entry, or the end when there is none. */
  predicate FirstFree(c: seq<Byte>, k: nat) {
    TakenBefore(c, k) && (k < Entries(c) ==> Num(c, k) == 0)
  }

  predicate TakenBefore(c: seq<Byte>, k: nat) {
    k <= Entries(c) && forall j :: 0 <= j < k ==> Num(c, j) != 0
  }

  lemma TakenNext(c: seq<Byte>, k: nat)
    requires TakenBefore(c, k) && k < Entries(c) && Num(c, k) != 0
    ensures TakenBefore(c, k + 1)
  {
  }

  lemma TakenAll(c: seq<Byte>, k: nat)
    requires TakenBefore(c, k) && ENT * k >= |c|
    ensures FirstFree(c, k)
  {
  }

  /** The entry is in the first free place, and all other bytes are as before. */
  ghost predicate InFirstPlace(c: seq<Byte>, e: seq<Byte>, c': seq<Byte>) {
    exists k: nat :: FirstFree(c, k) && ENT * k <= |c| && c' == Splice(c, ENT * k, e)
  }

  /** A directory with a free entry does not grow when a name is linked into it. */
  lemma NoGrowth(c: seq<Byte>, e: seq<Byte>, c': seq<Byte>)
    requires |c| % ENT == 0 && |e| == ENT && InFirstPlace(c, e, c')
    ensures |c'| == if exists j :: 0 <= j < Entries(c) && Num(c, j) == 0 then |c| else |c| + ENT
  {
  }

  /** The place dirlink takes. */
  method FindFree(fs: FileSystem, i: nat, ghost c: seq<Byte>, ghost blk0: seq<Block>,
                  ghost ino0: seq<Inode>) returns (code: int, k: nat)
    requires fs.Valid() && i < |fs.ino| && fs.ino[i].typ == T_DIR
    requires InodesOk(ino0) && Kept(blk0, ino0, fs.blk, fs.ino) && |ino0| == |fs.ino| && Live(ino0, i)
    requires c == Content(blk0, ino0[i])
    requires SameButAddrs(ino0[i], fs.ino[i]) && |c| % ENT == 0
    modifies fs`blk, fs`ino
    ensures fs.Valid() && |fs.ino| == |ino0| && Kept(blk0, ino0, fs.blk, fs.ino) && SameButAddrs(ino0[i], fs.ino[i])
    ensures code == 0 || code == STUCK
    ensures code == STUCK ==> !HasFree(fs.sb, fs.blk)
    ensures code == 0 ==> FirstFree(c, k)
  {
    k := 0;
    while ENT * k < fs.ino[i].size
      invariant fs.Valid() && |fs.ino| == |ino0| && Kept(blk0, ino0, fs.blk, fs.ino) && SameButAddrs(ino0[i], fs.ino[i])
      invariant TakenBefore(c, k)
      decreases |c| - ENT * k
    {
      var r, de := ReadEntry(fs, i, k, c, blk0, ino0);
      if r != ENT { return r, 0; }
      if Half(de[0], de[1]) == 0 { return 0, k; }
      TakenNext(c, k);
      k := k + 1;
    }
    TakenAll(c, k);
    return 0, k;
  }

  /** dirlink: insert a name into a directory, unless it is there. */
  method Dirlink(fs: FileSystem, i: nat, name: seq<Byte>, inum: nat) returns (r: int)
    requires fs.Valid() && i < |fs.ino| && fs.ino[i].typ == T_DIR
    modifies fs`blk, fs`ino
    ensures fs.Valid() && |fs.ino| == |old(fs.ino)|
    ensures r == 0 || r == -1 || r == STUCK || r == PANIC
    ensures r == -1 ==> Trunc(name) in Dir(old(Listing(fs, i))) && Kept(old(fs.blk), old(fs.ino), fs.blk, fs.ino)
    ensures r == 0 ==>
      Trunc(name) !in Dir(old(Listing(fs, i))) && Dir(Listing(fs, i)) == Linked(Dir(old(Listing(fs, i))), name, inum)
    ensures r == 0 ==> |Listing(fs, i)| % ENT == 0
    ensures r == 0 ==> InFirstPlace(old(Listing(fs, i)), EntryBytes(name, inum), Listing(fs, i))
    ensures r == 0 ==> forall j: nat :: Live(old(fs.ino), j) && j != i ==>
      Content(fs.blk, fs.ino[j]) == Content(old(fs.blk), old(fs.ino)[j])
    ensures r == STUCK ==> !HasFree(fs.sb, fs.blk)
    ensures r == PANIC ==> |old(Listing(fs, i))| % ENT != 0 || |old(Listing(fs, i))| + ENT > MAXFILE * BSIZE
  {
    ghost var c := Listing(fs, i);
    ghost var blk0, ino0 := fs.blk, fs.ino;
    var found, _ := Dirlookup(fs, i, name);
    if found == PANIC || found == STUCK { return found; }
    if found >= 0 { return -1; }
    assert KeptOne(blk0, ino0, fs.blk, fs.ino, i);
    var code, k := FindFree(fs, i, c, blk0, ino0);
    if code != 0 { return STUCK; }
    r := PutEntry(fs, i, k, name, inum, c, blk0, ino0);
  }

  method PutEntry(fs: FileSystem, i: nat, k: nat, name: seq<Byte>, inum: nat, ghost c: seq<Byte>,
                  ghost blk0: seq<Block>, ghost ino0: seq<Inode>)
    returns (r: int)
    requires fs.Valid() && i < |fs.ino| && fs.ino[i].typ == T_DIR
    requires InodesOk(ino0) && Kept(blk0, ino0, fs.blk, fs.ino) && |ino0| == |fs.ino| && Live(ino0, i)
    requires c == Content(blk0, ino0[i])
    requires |c| % ENT == 0 && FirstFree(c, k) && Trunc(name) !in Dir(c)
    modifies fs`blk, fs`ino
    ensures fs.Valid() && |fs.ino| == |ino0|
    ensures r == 0 || r == STUCK || r == PANIC
    ensures r == 0 ==> Dir(Listing(fs, i)) == Linked(Dir(c), name, inum) && |Listing(fs, i)| % ENT == 0
    ensures r == 0 ==> Listing(fs, i) == Splice(c, ENT * k, EntryBytes(name, inum))
    ensures r == 0 ==> forall j: nat :: Live(ino0, j) && j != i ==> Content(fs.blk, fs.ino[j]) == Content(blk0, ino0[j])
    ensures r == STUCK ==> !HasFree(fs.sb, fs.blk)
    ensures r == PANIC ==> |c| + ENT > MAXFILE * BSIZE
  {
    assert KeptOne(blk0, ino0, fs.blk, fs.ino, i);
    assert ENT * k <= |c|;
    var de := CopyName(name);
    de := [inum % 0x100, inum / 0x100 % 0x100] + de;
    ghost var blk1, ino1 := fs.blk, fs.ino;
    var n := fs.Writei(i, de, ENT * k);
    if n == STUCK { return STUCK; }
    if n != ENT { return PANIC; }
    LinkInserts(c, k, name, inum, Listing(fs, i));
    forall j: nat | Live(ino0, j) && j != i ensures Content(fs.blk, fs.ino[j]) == Content(blk0, ino0[j]) {
      assert KeptOne(blk0, ino0, blk1, ino1, j);
    }
    return 0;
  }

  // ---- paths -------------------------------------------------------------------------------

  /** `while (*path == '/') path++`. */
  method PastSlashes(path: seq<Byte>, at: nat) returns (i: nat)
    requires at <= |path|
    ensures at <= i <= |path| && Elems(path[i..]) == Elems(path[at..]) && (i == |path| || path[i] != SLASH)
  {
    i := at;
    while i < |path| && path[i] == SLASH
      invariant at <= i <= |path| && forall k :: at <= k < i ==> path[k] == SLASH
    {
      i := i + 1;
    }
    SkipSlashes(path, at, i);
  }

  method PastElem(path: seq<Byte>, at: nat) returns (i: nat)
    requires at < |path| && path[at] != SLASH
    ensures at < i <= |path| && Elems(path[at..]) == [Trunc(path[at..i])] + Elems(path[i..])
  {
    i := at;
    while i < |path| && path[i] != SLASH
      invariant at <= i <= |path| && forall k :: at <= k < i ==> path[k] != SLASH
    {
      i := i + 1;
    }
    FirstElem(path, at, i);
  }

  /** skipelem: the next component, and the position after it and the slashes behind it. */
  method SkipElem(path: seq<Byte>, at: nat) returns (more: bool, name: seq<Byte>, next: nat)
    requires at <= |path|
    ensures more <==> Elems(path[at..]) != []
    ensures more ==> at < next <= |path| && Elems(path[at..]) == [Trunc(name)] + Elems(path[next..])
    ensures more ==> (Elems(path[next..]) == [] <==> next == |path|)
  {
    var i := PastSlashes(path, at);
    if i == |path| { return false, [], i; }
    var j := PastElem(path, i);
    name := if j - i >= DIRSIZ then path[i..i + DIRSIZ] else path[i..j];
    TruncOnce(path[i..j], name);
    next := PastSlashes(path, j);
    NoElems(path[next..]);
    more := true;
  }

  lemma TruncOnce(elem: seq<Byte>, name: seq<Byte>)
    requires name == if |elem| >= DIRSIZ then elem[..DIRSIZ] else elem
    ensures Trunc(name) == Trunc(elem)
  {
    if |elem| == DIRSIZ { assert elem[..DIRSIZ] == elem; }
  }
}
