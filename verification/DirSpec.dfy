/** Directories and paths as values (inc/fs.h, kern/fs.c): a directory's bytes as a map from names of at
    most 14 bytes to inode numbers, and a path as the list of its components. */
module DirSpec {
  import opened Common
  import opened Bytes
  import opened FsSpec

  const DIRSIZ: nat := 14
  const ENT: nat := 16              // sizeof(struct dirent)
  const SLASH: Byte := 47
  const T_DIR: nat := 1

  /** A C string: the bytes before the first NUL, or all of them. */
  function CStr(b: seq<Byte>): (s: seq<Byte>)
    ensures |s| <= |b| && s == b[..|s|] && (|s| < |b| ==> b[|s|] == 0) && forall k :: 0 <= k < |s| ==> s[k] != 0
  {
    if b == [] || b[0] == 0 then [] else [b[0]] + CStr(b[1..])
  }

  lemma {:induction false} CStrIs(b: seq<Byte>, n: nat)
    requires n <= |b| && (forall k :: 0 <= k < n ==> b[k] != 0) && (n < |b| ==> b[n] == 0)
    ensures CStr(b) == b[..n]
  {
    assert |CStr(b)| == n;
  }

  /** The part of a name that counts. */
  function Trunc(name: seq<Byte>): seq<Byte> {
    CStr(if |name| <= DIRSIZ then name else name[..DIRSIZ])
  }

  // ---- a directory's bytes -----------------------------------------------------------------

  function Entries(c: seq<Byte>): nat {
    |c| / ENT
  }

  /** A little-endian 16-bit number. */
  function Half(a: Byte, b: Byte): nat {
    (a as int) + 0x100 * (b as int)
  }

  function Num(c: seq<Byte>, k: nat): nat
    requires k < Entries(c)
  {
    Half(c[ENT * k], c[ENT * k + 1])
  }

  function NameAt(c: seq<Byte>, k: nat): seq<Byte>
    requires k < Entries(c)
  {
    CStr(c[ENT * k + 2..ENT * k + ENT])
  }

  /** The directory as a map, from entry k on: of two entries with the same name the first counts. */
  function DirFrom(c: seq<Byte>, k: nat): map<seq<Byte>, nat>
    requires k <= Entries(c)
    decreases Entries(c) - k
  {
    if k == Entries(c) then map[]
    else if Num(c, k) == 0 then DirFrom(c, k + 1)
    else DirFrom(c, k + 1)[NameAt(c, k) := Num(c, k)]
  }

  function Dir(c: seq<Byte>): map<seq<Byte>, nat> {
    DirFrom(c, 0)
  }

  predicate Matches(c: seq<Byte>, k: nat, name: seq<Byte>)
    requires k < Entries(c)
  {
    Num(c, k) != 0 && NameAt(c, k) == Trunc(name)
  }

  /** The first entry for a name is what the map says of it. */
  lemma {:induction false} FirstMatch(c: seq<Byte>, j: nat, k: nat, name: seq<Byte>)
    requires j <= k < Entries(c) && Matches(c, k, name) && forall i :: j <= i < k ==> !Matches(c, i, name)
    ensures Trunc(name) in DirFrom(c, j) && DirFrom(c, j)[Trunc(name)] == Num(c, k)
    decreases k - j
  {
    if j < k {
      assert !Matches(c, j, name);
      FirstMatch(c, j + 1, k, name);
    }
  }

  lemma {:induction false} NoMatch(c: seq<Byte>, j: nat, name: seq<Byte>)
    requires j <= Entries(c) && forall i :: j <= i < Entries(c) ==> !Matches(c, i, name)
    ensures Trunc(name) !in DirFrom(c, j)
    decreases Entries(c) - j
  {
    if j < Entries(c) {
      assert !Matches(c, j, name);
      NoMatch(c, j + 1, name);
    }
  }

  /** What a lookup may answer: entry r and its number, or -1 if the name is not in the directory. */
  predicate Answer(c: seq<Byte>, name: seq<Byte>, r: int, inum: nat) {
    if r >= 0 then
      r < Entries(c) && Matches(c, r, name) && Trunc(name) in Dir(c) && inum == Dir(c)[Trunc(name)]
    else
      r == -1 && Trunc(name) !in Dir(c) && |c| % ENT == 0
  }

  // ---- adding an entry ---------------------------------------------------------------------

  /** strncpy of a name into an entry. */
  function Padded(name: seq<Byte>): (r: seq<Byte>)
    ensures |r| == DIRSIZ
  {
    var s := Trunc(name);
    s + seq(DIRSIZ - |s|, _ => 0)
  }

  /** The entry as bytes; the inode number is cut to 16 bits. */
  function EntryBytes(name: seq<Byte>, inum: nat): (r: seq<Byte>)
    ensures |r| == ENT
  {
    [inum % 0x100, inum / 0x100 % 0x100] + Padded(name)
  }

  lemma PaddedName(name: seq<Byte>)
    ensures CStr(Padded(name)) == Trunc(name)
  {
    CStrIs(Padded(name), |Trunc(name)|);
    assert Padded(name)[..|Trunc(name)|] == Trunc(name);
  }

  lemma Cut16(n: nat)
    ensures n % 0x100 + 0x100 * (n / 0x100 % 0x100) == n % U16
  {
  }

  /** The bytes of c with entry k replaced, or appended when k is the first past the end. */
  predicate Replaced(c: seq<Byte>, k: nat, e: seq<Byte>, c': seq<Byte>) {
    |c| % ENT == 0 && k <= Entries(c) && |e| == ENT && c' == Splice(c, ENT * k, e)
  }

  lemma ReplacedAt(c: seq<Byte>, k: nat, e: seq<Byte>, c': seq<Byte>, j: nat)
    requires Replaced(c, k, e, c')
    ensures Entries(c') == (if k == Entries(c) then k + 1 else Entries(c)) && |c'| % ENT == 0
    ensures j == k ==> c'[ENT * j..ENT * j + ENT] == e
    ensures j != k && j < Entries(c) ==> c'[ENT * j..ENT * j + ENT] == c[ENT * j..ENT * j + ENT]
  {
    if j < k { assert ENT * j + ENT <= ENT * k; }
    if k < j { assert ENT * k + ENT <= ENT * j; }
    assert |c| == ENT * Entries(c);
  }

  /** Entries with the same bytes say the same. */
  lemma SameEntry(c: seq<Byte>, k: nat, e: seq<Byte>)
    requires k < Entries(c) && |e| == ENT && c[ENT * k..ENT * k + ENT] == e
    ensures Num(c, k) == Half(e[0], e[1]) && NameAt(c, k) == CStr(e[2..])
  {
    var d := c[ENT * k..ENT * k + ENT];
    assert d[0] == c[ENT * k] && d[1] == c[ENT * k + 1];
    assert d[2..] == c[ENT * k + 2..ENT * k + ENT];
  }

  lemma EntryReads(name: seq<Byte>, inum: nat)
    ensures var e := EntryBytes(name, inum); Half(e[0], e[1]) == inum % U16 && CStr(e[2..]) == Trunc(name)
  {
    Cut16(inum);
    PaddedName(name);
    assert EntryBytes(name, inum)[2..] == Padded(name);
  }

  lemma OtherEntry(c: seq<Byte>, k: nat, e: seq<Byte>, c': seq<Byte>, j: nat)
    requires Replaced(c, k, e, c') && j != k && j < Entries(c)
    ensures j < Entries(c') && Num(c', j) == Num(c, j) && NameAt(c', j) == NameAt(c, j)
  {
    ReplacedAt(c, k, e, c', j);
    SameEntry(c, j, c[ENT * j..ENT * j + ENT]);
    SameEntry(c', j, c[ENT * j..ENT * j + ENT]);
  }

  lemma {:induction false} TailKept(c: seq<Byte>, k: nat, e: seq<Byte>, c': seq<Byte>, j: nat)
    requires Replaced(c, k, e, c') && k < j <= Entries(c)
    ensures j <= Entries(c') == Entries(c) && DirFrom(c', j) == DirFrom(c, j)
    decreases Entries(c) - j
  {
    ReplacedAt(c, k, e, c', j);
    if j < Entries(c) {
      TailKept(c, k, e, c', j + 1);
      OtherEntry(c, k, e, c', j);
    }
  }

  /** What a new entry in a free place adds to the map. */
  function Linked(d: map<seq<Byte>, nat>, name: seq<Byte>, inum: nat): map<seq<Byte>, nat> {
    if inum % U16 == 0 then d else d[Trunc(name) := inum % U16]
  }

  lemma LinkedBehind(d: map<seq<Byte>, nat>, name: seq<Byte>, inum: nat, key: seq<Byte>, x: nat)
    requires key != Trunc(name)
    ensures Linked(d[key := x], name, inum) == Linked(d, name, inum)[key := x]
  {
  }

  lemma {:induction false} LinkFrom(c: seq<Byte>, k: nat, name: seq<Byte>, inum: nat, c': seq<Byte>, j: nat)
    requires Replaced(c, k, EntryBytes(name, inum), c') && (k < Entries(c) ==> Num(c, k) == 0) && j <= k
    requires Trunc(name) !in DirFrom(c, j)
    ensures j <= Entries(c') && DirFrom(c', j) == Linked(DirFrom(c, j), name, inum)
    decreases k - j
  {
    ReplacedAt(c, k, EntryBytes(name, inum), c', k);
    if j < k {
      OtherEntry(c, k, EntryBytes(name, inum), c', j);
      LinkFrom(c, k, name, inum, c', j + 1);
      if Num(c, j) != 0 { LinkedBehind(DirFrom(c, j + 1), name, inum, NameAt(c, j), Num(c, j)); }
    } else {
      LinkHere(c, k, name, inum, c');
    }
  }

  lemma LinkHere(c: seq<Byte>, k: nat, name: seq<Byte>, inum: nat, c': seq<Byte>)
    requires Replaced(c, k, EntryBytes(name, inum), c') && (k < Entries(c) ==> Num(c, k) == 0)
    ensures k < Entries(c') && DirFrom(c', k) == Linked(DirFrom(c, k), name, inum)
  {
    NewEntry(c, k, name, inum, c');
    if k < Entries(c) { TailKept(c, k, EntryBytes(name, inum), c', k + 1); }
  }

  lemma NewEntry(c: seq<Byte>, k: nat, name: seq<Byte>, inum: nat, c': seq<Byte>)
    requires Replaced(c, k, EntryBytes(name, inum), c')
    ensures k < Entries(c') == (if k == Entries(c) then k + 1 else Entries(c))
    ensures Num(c', k) == inum % U16 && NameAt(c', k) == Trunc(name)
  {
    ReplacedAt(c, k, EntryBytes(name, inum), c', k);
    EntryReads(name, inum);
    SameEntry(c', k, EntryBytes(name, inum));
  }

  /** Writing the entry inserts into the map, and leaves a well-formed directory. */
  lemma LinkInserts(c: seq<Byte>, k: nat, name: seq<Byte>, inum: nat, c': seq<Byte>)
    requires Replaced(c, k, EntryBytes(name, inum), c') && (k < Entries(c) ==> Num(c, k) == 0)
    requires Trunc(name) !in Dir(c)
    ensures Dir(c') == Linked(Dir(c), name, inum) && |c'| % ENT == 0
  {
    ReplacedAt(c, k, EntryBytes(name, inum), c', k);
    LinkFrom(c, k, name, inum, c', 0);
  }

  /** dirlink inserts the number it is given exactly when it fits 16 bits and is not zero. */
  lemma LinkedExactly(d: map<seq<Byte>, nat>, name: seq<Byte>, inum: nat)
    requires Trunc(name) !in d
    ensures Linked(d, name, inum) == d[Trunc(name) := inum] <==> 0 < inum < U16
  {
    if Linked(d, name, inum) == d[Trunc(name) := inum] {
      assert d[Trunc(name) := inum][Trunc(name)] == inum;
      assert Trunc(name) in Linked(d, name, inum);
    }
  }

  // ---- paths -------------------------------------------------------------------------------

  /** How far the first component reaches. */
  function ElemLen(p: seq<Byte>): (n: nat)
    ensures n <= |p| && (n < |p| ==> p[n] == SLASH) && forall k :: 0 <= k < n ==> p[k] != SLASH
  {
    if p == [] || p[0] == SLASH then 0 else 1 + ElemLen(p[1..])
  }

  /** The slash-separated components of a path, each cut to 14 bytes. */
  function Elems(p: seq<Byte>): seq<seq<Byte>>
    decreases |p|
  {
    if p == [] then []
    else if p[0] == SLASH then Elems(p[1..])
    else [Trunc(p[..ElemLen(p)])] + Elems(p[ElemLen(p)..])
  }

  /** Leading slashes do not count. */
  lemma {:induction false} SkipSlashes(p: seq<Byte>, i: nat, j: nat)
    requires i <= j <= |p| && forall k :: i <= k < j ==> p[k] == SLASH
    ensures Elems(p[i..]) == Elems(p[j..])
    decreases j - i
  {
    if i < j {
      SkipSlashes(p, i + 1, j);
      assert p[i..][1..] == p[i + 1..];
    }
  }

  lemma ElemLenIs(p: seq<Byte>, n: nat)
    requires n <= |p| && (forall k :: 0 <= k < n ==> p[k] != SLASH) && (n < |p| ==> p[n] == SLASH)
    ensures ElemLen(p) == n
  {
  }

  lemma FirstElem(p: seq<Byte>, i: nat, j: nat)
    requires i < j <= |p| && (forall k :: i <= k < j ==> p[k] != SLASH) && (j < |p| ==> p[j] == SLASH)
    ensures Elems(p[i..]) == [Trunc(p[i..j])] + Elems(p[j..])
  {
    ElemLenIs(p[i..], j - i);
    assert p[i..][..j - i] == p[i..j] && p[i..][j - i..] == p[j..];
  }

  lemma NoElems(p: seq<Byte>)
    requires p == [] || p[0] != SLASH
    ensures Elems(p) == [] <==> p == []
  {
  }

  // ---- the text of a path ------------------------------------------------------------------

  /** A component with the slashes before it. */
  datatype Part = Part(slashes: nat, name: seq<Byte>)

  function Slashes(n: nat): seq<Byte> {
    if n == 0 then [] else ['/' as Byte] + Slashes(n - 1)
  }

  function PathText(parts: seq<Part>, end: nat): seq<Byte> {
    if parts == [] then Slashes(end) else Slashes(parts[0].slashes) + (parts[0].name + PathText(parts[1..], end))
  }

  /** Components without slashes, with slashes between them. */
  predicate Parts(parts: seq<Part>) {
    && (forall k :: 0 <= k < |parts| ==> parts[k].name != [] && forall x <- parts[k].name :: x != '/' as Byte)
    && forall k :: 0 < k < |parts| ==> parts[k].slashes > 0
  }

  function Names(parts: seq<Part>): seq<seq<Byte>> {
    if parts == [] then [] else [Trunc(parts[0].name)] + Names(parts[1..])
  }

  lemma {:induction false} ManySlashes(n: nat, p: seq<Byte>)
    ensures Elems(Slashes(n) + p) == Elems(p)
  {
    if n == 0 {
      assert Slashes(n) + p == p;
    } else {
      ManySlashes(n - 1, p);
      assert (Slashes(n) + p)[1..] == Slashes(n - 1) + p;
    }
  }

  /** However many slashes stand before, between and behind them, the components are read. */
  lemma {:induction false} PathIs(parts: seq<Part>, end: nat)
    requires Parts(parts)
    ensures Elems(PathText(parts, end)) == Names(parts)
    decreases |parts|
  {
    if parts == [] {
      ManySlashes(end, []);
      assert Slashes(end) + [] == Slashes(end);
    } else {
      var name, rest := parts[0].name, PathText(parts[1..], end);
      PathIs(parts[1..], end);
      ManySlashes(parts[0].slashes, name + rest);
      StartsWithSlash(parts[1..], end);
      FirstName(name, rest);
    }
  }

  lemma StartsWithSlash(parts: seq<Part>, end: nat)
    requires parts != [] ==> parts[0].slashes > 0
    ensures PathText(parts, end) == [] || PathText(parts, end)[0] == '/' as Byte
  {
    if parts != [] { assert Slashes(parts[0].slashes)[0] == '/' as Byte; }
  }

  lemma FirstName(name: seq<Byte>, rest: seq<Byte>)
    requires name != [] && (forall x <- name :: x != '/' as Byte) && (rest == [] || rest[0] == '/' as Byte)
    ensures Elems(name + rest) == [Trunc(name)] + Elems(rest)
  {
    var p := name + rest;
    forall k | 0 <= k < |name| ensures p[k] != SLASH { assert p[k] == name[k] && name[k] in name; }
    ElemLenIs(p, |name|);
    assert p[..|name|] == name && p[|name|..] == rest;
  }

  // ---- walking a path ----------------------------------------------------------------------

  /** Folding lookup over the components, from inode i. */
  ghost function Walk(blk: seq<Block>, ino: seq<Inode>, i: nat, names: seq<seq<Byte>>): Option<nat>
    requires InodesOk(ino)
    decreases |names|
  {
    if names == [] then Some(i)
    else if i >= |ino| || ino[i].typ != T_DIR then None
    else
      var d := Dir(Content(blk, ino[i]));
      if names[0] !in d then None else Walk(blk, ino, d[names[0]], names[1..])
  }

  /** Every inode has the same fields, but for where its blocks are, and every live one the same bytes. */
  ghost predicate Kept(blk: seq<Block>, ino: seq<Inode>, blk': seq<Block>, ino': seq<Inode>)
    requires InodesOk(ino) && InodesOk(ino')
  {
    |ino'| == |ino| && (forall j: nat :: j < |ino| ==> KeptOne(blk, ino, blk', ino', j))
  }

  ghost predicate KeptOne(blk: seq<Block>, ino: seq<Inode>, blk': seq<Block>, ino': seq<Inode>, j: nat)
    requires InodesOk(ino) && InodesOk(ino') && |ino'| == |ino| && j < |ino|
  {
    SameButAddrs(ino[j], ino'[j]) && (Live(ino, j) ==> Content(blk', ino'[j]) == Content(blk, ino[j]))
  }

  lemma {:induction false} WalkKept(blk: seq<Block>, ino: seq<Inode>, blk': seq<Block>, ino': seq<Inode>, i: nat,
                                    names: seq<seq<Byte>>)
    requires InodesOk(ino) && InodesOk(ino') && Kept(blk, ino, blk', ino')
    ensures Walk(blk', ino', i, names) == Walk(blk, ino, i, names)
    decreases |names|
  {
    if names != [] && i < |ino| {
      assert KeptOne(blk, ino, blk', ino', i);
      if ino[i].typ == T_DIR {
        var d := Dir(Content(blk, ino[i]));
        if names[0] in d { WalkKept(blk, ino, blk', ino', d[names[0]], names[1..]); }
      }
    }
  }

  lemma KeptTrans(blk0: seq<Block>, ino0: seq<Inode>, blk1: seq<Block>, ino1: seq<Inode>, blk2: seq<Block>,
                  ino2: seq<Inode>)
    requires InodesOk(ino0) && InodesOk(ino1) && InodesOk(ino2) && Kept(blk0, ino0, blk1, ino1)
    requires Kept(blk1, ino1, blk2, ino2)
    ensures Kept(blk0, ino0, blk2, ino2)
  {
    forall j: nat | j < |ino0| ensures KeptOne(blk0, ino0, blk2, ino2, j) {
      assert KeptOne(blk0, ino0, blk1, ino1, j) && KeptOne(blk1, ino1, blk2, ino2, j);
    }
  }

  lemma ReadKeeps(blk: seq<Block>, ino: seq<Inode>, blk': seq<Block>, ino': seq<Inode>, i: nat)
    requires InodesOk(ino) && InodesOk(ino') && SameInodes(ino, ino', i) && SameBytes(blk, ino, blk', ino')
    ensures Kept(blk, ino, blk', ino')
  {
    forall j: nat | j < |ino| ensures KeptOne(blk, ino, blk', ino', j) {
      assert Live(ino, j) ==> forall k: nat :: ByteAt(blk', ino'[j], k) == ByteAt(blk, ino[j], k);
    }
  }
}
