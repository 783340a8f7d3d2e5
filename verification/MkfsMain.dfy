/** main of user/src/mkfs/main.c as a whole: the root directory, its entries and the files' contents, the
    correction of the root's size and the bitmap; and what the kernel finds when it boots from the image. */
module MkfsMain {
  import opened Bytes
  import opened FsSpec
  import opened DirSpec
  import opened Dinode
  import opened Space
  import opened Mkfs
  import opened MkfsRun
  import opened RootDir
  import Fs
  import Dirs

  const T_FILE: nat := 2
  const ROOTINO: nat := 1
  const CHUNK: nat := 512           // main's read buffer
  const DOT: Byte := 46

  /** A file on the command line: its name in the image, and its bytes. */
  datatype Input = Input(name: seq<Byte>, bytes: seq<Byte>)

  // ---- what main does ----------------------------------------------------------------------

  /** The entries of the root, in order. */
  function Entered(ins: seq<Input>): seq<File> {
    if ins == [] then [File([DOT], ROOTINO), File([DOT, DOT], ROOTINO)]
    else Entered(ins[..|ins| - 1]) + [File(ins[|ins| - 1].name, |ins| + 1)]
  }

  /** The read loop: one iappend per buffer. */
  function Chunks(i: nat, b: seq<Byte>): seq<Cmd> {
    if |b| == 0 then []
    else if |b| <= CHUNK then [Append(i, b)]
    else [Append(i, b[..CHUNK])] + Chunks(i, b[CHUNK..])
  }

  function Entry(f: File): Cmd {
    Append(ROOTINO, EntryBytes(f.name, f.inum))
  }

  /** The calls of ialloc and iappend that main makes. */
  function Script(ins: seq<Input>): seq<Cmd> {
    if ins == [] then [Alloc(T_DIR), Entry(File([DOT], ROOTINO)), Entry(File([DOT, DOT], ROOTINO))]
    else
      var k, f := |ins| - 1, ins[|ins| - 1];
      Script(ins[..k]) + FileScript(k, f)
  }

  /** The calls for the k-th file. */
  function FileScript(k: nat, f: Input): seq<Cmd> {
    [Alloc(T_FILE), Entry(File(f.name, k + 2))] + Chunks(k + 2, f.bytes)
  }

  // ---- what the script amounts to ----------------------------------------------------------

  lemma {:induction false} PiecesConcat(a: seq<Cmd>, b: seq<Cmd>, i: nat)
    ensures Pieces(a + b, i) == Pieces(a, i) + Pieces(b, i)
    decreases |b|
  {
    if b == [] {
      assert a + b == a;
    } else {
      var b0, c := b[..|b| - 1], b[|b| - 1];
      PiecesConcat(a, b0, i);
      assert (a + b)[..|a + b| - 1] == a + b0 && (a + b)[|a + b| - 1] == c;
      Regroup(Pieces(a, i), Pieces(b0, i), PieceOf(c, i));
    }
  }

  lemma Regroup<T>(a: seq<T>, b: seq<T>, c: seq<T>)
    ensures (a + b) + c == a + (b + c)
  {
  }

  lemma {:induction false} TypesConcat(a: seq<Cmd>, b: seq<Cmd>)
    ensures TypesOf(a + b) == TypesOf(a) + TypesOf(b) && Allocs(a + b) == Allocs(a) + Allocs(b)
    decreases |b|
  {
    if b == [] {
      assert a + b == a;
    } else {
      var b0, c := b[..|b| - 1], b[|b| - 1];
      TypesConcat(a, b0);
      assert (a + b)[..|a + b| - 1] == a + b0;
    }
  }

  lemma {:induction false} One(c: Cmd, i: nat)
    ensures Pieces([c], i) == PieceOf(c, i) && TypesOf([c]) == NextTypes([], c)
    ensures Allocs([c]) == if c.Alloc? then 1 else 0
  {
    assert [c][..0] == [];
  }

  /** The buffers put together are the file. */
  lemma {:induction false} ChunksWhole(i: nat, b: seq<Byte>, j: nat)
    ensures Pieces(Chunks(i, b), j) == (if j == i then b else []) && TypesOf(Chunks(i, b)) == []
    ensures Allocs(Chunks(i, b)) == 0
    decreases |b|
  {
    if |b| == 0 {
    } else if |b| <= CHUNK {
      One(Append(i, b), j);
    } else {
      var c, rest := Append(i, b[..CHUNK]), Chunks(i, b[CHUNK..]);
      One(c, j);
      ChunksWhole(i, b[CHUNK..], j);
      PiecesConcat([c], rest, j);
      TypesConcat([c], rest);
      Rejoin(b, CHUNK);
    }
  }

  lemma {:induction false} Rejoin(b: seq<Byte>, k: nat)
    requires k <= |b|
    ensures b[..k] + b[k..] == b
  {
  }

  lemma {:induction false} OnePair(a: Cmd, b: Cmd, i: nat)
    ensures Pieces([a, b], i) == PieceOf(a, i) + PieceOf(b, i) && TypesOf([a, b]) == NextTypes(NextTypes([], a), b)
    ensures Allocs([a, b]) == (if a.Alloc? then 1 else 0) + (if b.Alloc? then 1 else 0)
  {
    One(a, i);
    One(b, i);
    PiecesConcat([a], [b], i);
    TypesConcat([a], [b]);
    assert [a] + [b] == [a, b];
  }

  /** What one file on the command line adds. */
  lemma {:induction false} FileAdds(k: nat, f: Input, j: nat)
    ensures Pieces(FileScript(k, f), j)
      == if j == ROOTINO then EntryBytes(f.name, k + 2) else if j == k + 2 then f.bytes else []
    ensures TypesOf(FileScript(k, f)) == [T_FILE] && Allocs(FileScript(k, f)) == 1
  {
    var a, b, rest := Alloc(T_FILE), Entry(File(f.name, k + 2)), Chunks(k + 2, f.bytes);
    OnePair(a, b, j);
    ChunksWhole(k + 2, f.bytes, j);
    PiecesConcat([a, b], rest, j);
    TypesConcat([a, b], rest);
    Ends(PieceOf(a, j), PieceOf(b, j), Pieces(rest, j));
  }

  lemma {:induction false} Ends(a: seq<Byte>, b: seq<Byte>, c: seq<Byte>)
    ensures a == [] && b == [] ==> (a + b) + c == c
    ensures a == [] && c == [] ==> (a + b) + c == b
  {
  }

  lemma {:induction false} StartAdds(j: nat)
    ensures Pieces(Script([]), j) == if j == ROOTINO then RootBytes(Entered([])) else []
    ensures TypesOf(Script([])) == [T_DIR] && Allocs(Script([])) == 1
  {
    var a, b, c := Alloc(T_DIR), Entry(File([DOT], ROOTINO)), Entry(File([DOT, DOT], ROOTINO));
    OnePair(a, b, j);
    One(c, j);
    PiecesConcat([a, b], [c], j);
    TypesConcat([a, b], [c]);
    assert Script([]) == [a, b] + [c];
    StartBytes();
  }

  lemma {:induction false} StartBytes()
    ensures RootBytes(Entered([])) == EntryBytes([DOT], ROOTINO) + EntryBytes([DOT, DOT], ROOTINO)
  {
    var es := Entered([]);
    assert es[..1] == [es[0]] && es[..1][..0] == [];
    assert RootBytes(es[..1]) == EntryBytes([DOT], ROOTINO);
  }

  /** The script's pieces: the entries in the root, and each file in its inode. */
  lemma {:induction false} ScriptPieces(ins: seq<Input>, j: nat)
    ensures Pieces(Script(ins), j)
      == if j == ROOTINO then RootBytes(Entered(ins)) else if 2 <= j < |ins| + 2 then ins[j - 2].bytes else []
    decreases |ins|
  {
    if ins == [] {
      StartAdds(j);
    } else {
      var k, f := |ins| - 1, ins[|ins| - 1];
      ScriptPieces(ins[..k], j);
      FileAdds(k, f, j);
      PiecesConcat(Script(ins[..k]), FileScript(k, f), j);
      assert Entered(ins)[..|Entered(ins)| - 1] == Entered(ins[..k]);
    }
  }

  lemma {:induction false} ScriptTypes(ins: seq<Input>)
    ensures Allocs(Script(ins)) == 1 + |ins| && |TypesOf(Script(ins))| == 1 + |ins|
    ensures forall i :: 0 <= i <= |ins| ==> TypesOf(Script(ins))[i] == if i == 0 then T_DIR else T_FILE
    decreases |ins|
  {
    if ins == [] {
      StartAdds(0);
    } else {
      var k, f := |ins| - 1, ins[|ins| - 1];
      ScriptTypes(ins[..k]);
      FileAdds(k, f, 0);
      TypesConcat(Script(ins[..k]), FileScript(k, f));
    }
  }

  lemma {:induction false} EnteredAt(ins: seq<Input>)
    ensures |Entered(ins)| == |ins| + 2
    ensures Entered(ins)[0] == File([DOT], ROOTINO) && Entered(ins)[1] == File([DOT, DOT], ROOTINO)
    ensures forall i :: 2 <= i < |ins| + 2 ==> Entered(ins)[i] == File(ins[i - 2].name, i)
    decreases |ins|
  {
    if ins != [] { EnteredAt(ins[..|ins| - 1]); }
  }

  // ---- the image and the kernel ------------------------------------------------------------

  /** The blocks of the first n files. */
  function FileBlocks(ins: seq<Input>, n: nat): nat
    requires n <= |ins|
  {
    if n == 0 then 0 else FileBlocks(ins, n - 1) + Blocks(|ins[n - 1].bytes|)
  }

  /** Everything main asks for fits: inodes, file sizes, and blocks for the root and the files. */
  predicate Fits(ins: seq<Input>) {
    && |ins| + 2 <= NTABLE && (forall k :: 0 <= k < |ins| ==> SizeFits(ins, k))
    && NMETA + Blocks(ENT * (|ins| + 2)) + FileBlocks(ins, |ins|) <= FSSIZE
  }

  lemma {:induction false} TakenByScript(ins: seq<Input>, cmds: seq<Cmd>, n: nat)
    requires n <= |ins| && cmds == Script(ins)
    ensures TakenTo(cmds, n + 2) == Blocks(ENT * (|ins| + 2)) + FileBlocks(ins, n)
    decreases n
  {
    if n == 0 {
      TakenByRoot(ins, cmds);
    } else {
      TakenByScript(ins, cmds, n - 1);
      FileTakes(ins, cmds, n);
    }
  }

  lemma {:induction false} TakenByRoot(ins: seq<Input>, cmds: seq<Cmd>)
    requires cmds == Script(ins)
    ensures TakenTo(cmds, 2) == Blocks(ENT * (|ins| + 2))
  {
    ScriptPieces(ins, 0);
    ScriptPieces(ins, 1);
    EnteredAt(ins);
    TakenNext(cmds, 1, 0);
    TakenNext(cmds, 2, ENT * (|ins| + 2));
  }

  lemma {:induction false} FileTakes(ins: seq<Input>, cmds: seq<Cmd>, n: nat)
    requires 0 < n <= |ins| && cmds == Script(ins)
    ensures TakenTo(cmds, n + 2) == TakenTo(cmds, n + 1) + Blocks(|ins[n - 1].bytes|)
  {
    ScriptPieces(ins, n + 1);
    TakenNext(cmds, n + 2, |ins[n - 1].bytes|);
  }

  lemma {:induction false} TakenNext(cmds: seq<Cmd>, n: nat, len: nat)
    requires n > 0 && |Pieces(cmds, n - 1)| == len
    ensures TakenTo(cmds, n) == TakenTo(cmds, n - 1) + Blocks(len)
  {
  }

  lemma {:induction false} ScriptOrdered(ins: seq<Input>)
    ensures Ordered(Script(ins))
    decreases |ins|
  {
    if ins == [] {
      StartOrdered();
    } else {
      var k, f := |ins| - 1, ins[|ins| - 1];
      ScriptOrdered(ins[..k]);
      ScriptTypes(ins[..k]);
      NoAllocs(k + 2, f.bytes);
      OrderedConcat(Script(ins[..k]), FileScript(k, f));
    }
  }

  lemma {:induction false} StartOrdered()
    ensures Ordered(Script([]))
  {
    var s := Script([]);
    assert s[..1] == [s[0]] && s[..2] == [s[0], s[1]];
    One(s[0], 0);
    OnePair(s[0], s[1], 0);
  }

  /** A part that begins with ialloc and then appends to that inode or to an older one. */
  lemma {:induction false} OrderedConcat(a: seq<Cmd>, b: seq<Cmd>)
    requires Ordered(a) && b != [] && b[0].Alloc?
    requires forall y :: 0 <= y < |b| && b[y].Append? ==> 1 <= b[y].inum <= Allocs(a) + 1
    ensures Ordered(a + b)
  {
    var s := a + b;
    forall x | 0 <= x < |s| ensures OrderedAt(s, x) {
      if x < |a| {
        assert OrderedAt(a, x) && s[..x] == a[..x];
      } else if s[x].Append? {
        var y := x - |a|;
        assert s[..x] == a + ([b[0]] + b[1..y]);
        TypesConcat(a, [b[0]] + b[1..y]);
        TypesConcat([b[0]], b[1..y]);
        One(b[0], 0);
      }
    }
  }

  predicate SizeFits(ins: seq<Input>, k: nat)
    requires k < |ins|
  {
    |ins[k].bytes| <= MAXFILE * BSIZE
  }

  lemma {:induction false} SizeIff(ins: seq<Input>, cmds: seq<Cmd>, i: nat)
    requires |ins| + 2 <= NTABLE && cmds == Script(ins)
    ensures SizeOk(cmds, i) <==> (2 <= i < |ins| + 2 ==> SizeFits(ins, i - 2))
  {
    ScriptPieces(ins, i);
    EnteredAt(ins);
  }

  lemma {:induction false} ScriptSizes(ins: seq<Input>, cmds: seq<Cmd>)
    requires |ins| + 2 <= NTABLE && cmds == Script(ins)
    ensures (forall i: nat :: SizeOk(cmds, i)) <==> forall k :: 0 <= k < |ins| ==> SizeFits(ins, k)
  {
    forall i: nat | !SizeOk(cmds, i) ensures 2 <= i < |ins| + 2 && !SizeFits(ins, i - 2) {
      SizeIff(ins, cmds, i);
    }
    forall k | 0 <= k < |ins| && !SizeFits(ins, k) ensures !SizeOk(cmds, k + 2) {
      SizeIff(ins, cmds, k + 2);
    }
  }

  /** The script runs to its end exactly when the files fit. */
  lemma {:induction false} FitsIff(ins: seq<Input>)
    ensures InCapacity(Script(ins)) <==> Fits(ins)
  {
    CapacityIff(Script(ins));
    ScriptOrdered(ins);
    RoomyIff(ins, Script(ins));
  }

  lemma {:induction false} RoomyIff(ins: seq<Input>, cmds: seq<Cmd>)
    requires cmds == Script(ins)
    ensures Roomy(cmds) <==> Fits(ins)
  {
    ScriptTypes(ins);
    TakenByScript(ins, cmds, |ins|);
    if |ins| + 2 <= NTABLE { ScriptSizes(ins, cmds); }
  }

  /** The files a kernel finds: inode 1 is the root, a directory (type 1) with the names on the command
      line, and inode k + 2 is a file (type 2) with the bytes of the k-th input; each has one link. */
  ghost predicate Holds(ins: seq<Input>, blk: seq<Block>, ino: seq<Inode>) {
    && |ins| + 2 <= |ino| == NTABLE && InodesOk(ino) && (forall i: nat :: Live(ino, i) <==> 1 <= i < |ins| + 2)
    && OneLink(ino[1], 1) && Content(blk, ino[1]) == Mkfs.Padded(RootBytes(Entered(ins)))
    && forall k :: 0 <= k < |ins| ==> HoldsFile(ins, blk, ino, k)
  }

  ghost predicate HoldsFile(ins: seq<Input>, blk: seq<Block>, ino: seq<Inode>, k: nat)
    requires k < |ins| && |ins| + 2 <= |ino| && InodesOk(ino)
  {
    OneLink(ino[k + 2], 2) && Content(blk, ino[k + 2]) == ins[k].bytes
  }

  /** main. When it succeeds, exactly the blocks handed out are marked, and the kernel that boots from
      the image has its ownership invariant and finds the files of the command line. */
  method MakeImage(ins: seq<Input>) returns (ok: bool, fs: Fs.FileSystem?, ghost used: nat)
    ensures ok <==> Fits(ins)
    ensures ok ==> fs != null && fresh(fs) && fs.Valid() && fs.sb == SB && Holds(ins, fs.blk, fs.ino)
    ensures ok ==> forall b :: 0 <= b < FSSIZE ==> (Used(SB, fs.blk, b) <==> b < used)
  {
    ScriptTyped(ins);
    FitsIff(ins);
    var im;
    ok, im := Build(Script(ins));
    fs, used := null, 0;
    if !ok { return; }
    SoundFacts(im.img, im.freeblock, im.freeinode, im.files);
    BuiltFiles(ins, im.freeinode, im.files);
    RootSmall(ins, im.files);
    Fixed(ins, im.files);
    ghost var built := im.img;
    ok := im.FixRoot(ROOTINO);
    ghost var fixed := im.img;
    im.Balloc();
    used := im.freeblock;
    var ino := Table(SB, im.img, NTABLE);
    TypesKept(ins, built, fixed, ino);
    fs := new Fs.FileSystem(SB, im.img, ino);
    Finds(ins, im.img, ino, im.files);
  }

  lemma {:induction false} ScriptTyped(ins: seq<Input>)
    ensures forall x :: 0 <= x < |Script(ins)| ==> Script(ins)[x].Alloc? ==> 0 < Script(ins)[x].typ < U16
    decreases |ins|
  {
    if ins != [] {
      ScriptTyped(ins[..|ins| - 1]);
      NoAllocs(|ins| + 1, ins[|ins| - 1].bytes);
    }
  }

  lemma {:induction false} NoAllocs(i: nat, b: seq<Byte>)
    ensures forall x :: 0 <= x < |Chunks(i, b)| ==> Chunks(i, b)[x].Append? && Chunks(i, b)[x].inum == i
    decreases |b|
  {
    if |b| > CHUNK { NoAllocs(i, b[CHUNK..]); }
  }

  /** What the image holds before the root is corrected. */
  lemma {:induction false} BuiltFiles(ins: seq<Input>, freeinode: nat, files: map<nat, seq<Byte>>)
    requires Handed(files, freeinode) && Tracks(files, Script(ins)) && |TypesOf(Script(ins))| + 1 == freeinode
    ensures freeinode == |ins| + 2 && FilesAre(ins, files, RootBytes(Entered(ins)))
  {
    ScriptTypes(ins);
    forall i: nat ensures BytesOf(files, i) == Wanted(ins, RootBytes(Entered(ins)), i) {
      ScriptPieces(ins, i);
    }
  }

  function Wanted(ins: seq<Input>, root: seq<Byte>, i: nat): seq<Byte> {
    if i == ROOTINO then root else if 2 <= i < |ins| + 2 then ins[i - 2].bytes else []
  }

  ghost predicate FilesAre(ins: seq<Input>, files: map<nat, seq<Byte>>, root: seq<Byte>) {
    Handed(files, |ins| + 2) && forall i: nat :: BytesOf(files, i) == Wanted(ins, root, i)
  }

  lemma {:induction false} RootSmall(ins: seq<Input>, files: map<nat, seq<Byte>>)
    requires |ins| + 2 <= NTABLE && FilesAre(ins, files, RootBytes(Entered(ins)))
    ensures ROOTINO in files && |files[ROOTINO]| / BSIZE < MAXFILE
  {
    EnteredAt(ins);
    assert BytesOf(files, ROOTINO) == Wanted(ins, RootBytes(Entered(ins)), ROOTINO);
  }

  lemma {:induction false} Fixed(ins: seq<Input>, files: map<nat, seq<Byte>>)
    requires FilesAre(ins, files, RootBytes(Entered(ins))) && ROOTINO in files
    ensures FilesAre(ins, files[ROOTINO := Mkfs.Padded(files[ROOTINO])], Mkfs.Padded(RootBytes(Entered(ins))))
  {
    var root, files' := RootBytes(Entered(ins)), files[ROOTINO := Mkfs.Padded(files[ROOTINO])];
    assert BytesOf(files, ROOTINO) == Wanted(ins, root, ROOTINO);
    forall i: nat ensures BytesOf(files', i) == Wanted(ins, Mkfs.Padded(root), i) {
      assert BytesOf(files, i) == Wanted(ins, root, i);
    }
  }

  ghost predicate TypesAre(ins: seq<Input>, ino: seq<Inode>) {
    && |ins| + 2 <= |ino| == NTABLE && OneLink(ino[ROOTINO], T_DIR)
    && forall i :: 2 <= i < |ins| + 2 ==> OneLink(ino[i], T_FILE)
  }

  /** The correction of the root and the bitmap leave the types that ialloc was asked for. */
  lemma {:induction false} TypesKept(ins: seq<Input>, built: seq<Block>, fixed: seq<Block>, ino: seq<Inode>)
    requires Typed(built, TypesOf(Script(ins)), |ins| + 2) && SameTypes(built, fixed)
    requires |fixed| == FSSIZE && ino == Table(SB, fixed, NTABLE)
    ensures TypesAre(ins, ino)
  {
    ScriptTypes(ins);
    TypedSame(built, TypesOf(Script(ins)), |ins| + 2, fixed);
    forall i | 2 <= i < |ins| + 2 ensures OneLink(ino[i], T_FILE) {
      assert TypesOf(Script(ins))[i - 1] == T_FILE;
    }
  }

  /** What the kernel makes of it. */
  lemma {:induction false} Finds(ins: seq<Input>, blk: seq<Block>, ino: seq<Inode>, files: map<nat, seq<Byte>>)
    requires InodesOk(ino) && TypesAre(ins, ino) && FilesAre(ins, files, Mkfs.Padded(RootBytes(Entered(ins))))
    requires forall i: nat :: i in files <==> Live(ino, i)
    requires forall i: nat :: Live(ino, i) ==> Content(blk, ino[i]) == BytesOf(files, i)
    ensures Holds(ins, blk, ino)
  {
    var root := Mkfs.Padded(RootBytes(Entered(ins)));
    assert Live(ino, ROOTINO) && BytesOf(files, ROOTINO) == Wanted(ins, root, ROOTINO);
    forall k | 0 <= k < |ins| ensures HoldsFile(ins, blk, ino, k) {
      assert Live(ino, k + 2) && BytesOf(files, k + 2) == Wanted(ins, root, k + 2);
    }
  }

  // ---- what the kernel finds by name -------------------------------------------------------

  /** Entry k is the first of that name. */
  predicate First(es: seq<File>, k: nat, name: seq<Byte>) {
    k < |es| && Trunc(es[k].name) == Trunc(name) && forall j :: 0 <= j < k ==> Trunc(es[j].name) != Trunc(name)
  }

  predicate Unnamed(es: seq<File>, name: seq<Byte>) {
    forall j :: 0 <= j < |es| ==> Trunc(es[j].name) != Trunc(name)
  }

  /** What a lookup may answer: the number of the first entry of that name, or -1 without one. */
  ghost predicate Located(ins: seq<Input>, name: seq<Byte>, r: int, inum: nat) {
    && (r < 0 <==> Unnamed(Entered(ins), name))
    && forall k: nat :: First(Entered(ins), k, name) ==> inum == Entered(ins)[k].inum
  }

  lemma {:induction false} LocatedByDir(ins: seq<Input>, name: seq<Byte>, r: int, inum: nat)
    requires |ins| + 2 < U16 && Answer(Mkfs.Padded(RootBytes(Entered(ins))), name, r, inum)
    ensures Located(ins, name, r, inum)
  {
    var es := Entered(ins);
    EnteredAt(ins);
    RootReads(es);
    if Unnamed(es, name) {
      NotNamed(es, 0, name);
    } else {
      var k := FirstOf(es, name, 0);
      FirstNamed(es, 0, k);
    }
    forall k: nat | First(es, k, name) ensures inum == es[k].inum {
      FirstNamed(es, 0, k);
    }
  }

  ghost function FirstOf(es: seq<File>, name: seq<Byte>, j: nat): (k: nat)
    requires j <= |es| && !Unnamed(es, name) && forall i :: 0 <= i < j ==> Trunc(es[i].name) != Trunc(name)
    ensures First(es, k, name)
    decreases |es| - j
  {
    if Trunc(es[j].name) == Trunc(name) then j else FirstOf(es, name, j + 1)
  }

  lemma {:induction false} HoldsKept(ins: seq<Input>, blk: seq<Block>, ino: seq<Inode>, blk': seq<Block>,
                                     ino': seq<Inode>)
    requires Holds(ins, blk, ino) && InodesOk(ino') && Kept(blk, ino, blk', ino')
    ensures Holds(ins, blk', ino')
  {
    forall i: nat ensures Live(ino', i) <==> Live(ino, i) {
      assert i < |ino| ==> KeptOne(blk, ino, blk', ino', i);
    }
    assert KeptOne(blk, ino, blk', ino', ROOTINO);
    forall k | 0 <= k < |ins| ensures HoldsFile(ins, blk', ino', k) {
      assert HoldsFile(ins, blk, ino, k) && KeptOne(blk, ino, blk', ino', k + 2);
    }
  }

  /** The kernel's dirlookup in the root of main's image. */
  method FindInRoot(ins: seq<Input>, fs: Fs.FileSystem, name: seq<Byte>) returns (r: int, inum: nat)
    requires fs.Valid() && Holds(ins, fs.blk, fs.ino)
    modifies fs`blk, fs`ino
    ensures fs.Valid() && Holds(ins, fs.blk, fs.ino)
    ensures r == Fs.STUCK ==> !Fs.HasFree(fs.sb, fs.blk)
    ensures r != Fs.STUCK ==> Located(ins, name, r, inum)
  {
    EnteredAt(ins);
    RootWhole(ins);
    r, inum := Dirs.Dirlookup(fs, ROOTINO, name);
    HoldsKept(ins, old(fs.blk), old(fs.ino), fs.blk, fs.ino);
    if r != Fs.STUCK { LocatedByDir(ins, name, r, inum); }
  }

  lemma {:induction false} RootWhole(ins: seq<Input>)
    ensures |Mkfs.Padded(RootBytes(Entered(ins)))| % ENT == 0
  {
    PaddingAddsNothing(RootBytes(Entered(ins)), |Entered(ins)|);
  }

  /** The whole way: main builds the image, the kernel boots from it, finds the k-th file under its
      name and reads it. It gets that file's bytes. */
  method BuildAndRead(ins: seq<Input>, k: nat)
    returns (ok: bool, fs: Fs.FileSystem?, r: int, inum: nat, data: seq<Byte>)
    requires k < |ins| && First(Entered(ins), k + 2, ins[k].name)
    ensures ok <==> Fits(ins)
    ensures ok ==> fs != null && fs.Valid() && (r == Fs.STUCK ==> !Fs.HasFree(fs.sb, fs.blk))
    ensures ok && r != Fs.STUCK ==> inum == k + 2 && data == ins[k].bytes
  {
    data, r, inum := [], 0, 0;
    ghost var used;
    ok, fs, used := MakeImage(ins);
    if ok {
      EnteredAt(ins);
      r, inum := FindInRoot(ins, fs, ins[k].name);
      if r != Fs.STUCK {
        assert HoldsFile(ins, fs.blk, fs.ino, k);
        r, data := fs.Readi(inum, 0, fs.ino[inum].size);
      }
    }
  }
}
