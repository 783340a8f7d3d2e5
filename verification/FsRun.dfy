/** Whole runs of the file system refine a map from inode numbers to files. */
module FsRun {
  import opened Bytes
  import opened FsSpec
  import opened Fs
  import opened Budget

  datatype File = File(typ: nat, bytes: seq<Byte>)

  type Files = map<nat, File>

  /** The files of a file system: the types and contents of its live inodes. */
  ghost function FilesOf(blk: seq<Block>, ino: seq<Inode>): (f: Files)
    requires InodesOk(ino)
    ensures forall i: nat :: i in f <==> Live(ino, i)
    ensures forall i: nat :: Live(ino, i) ==> f[i] == FileAt(blk, ino[i])
  {
    map i: nat | i < |ino| && Live(ino, i) :: FileAt(blk, ino[i])
  }

  function FileAt(blk: seq<Block>, ip: Inode): File
    requires |ip.addrs| == NDIRECT + 1
  {
    File(ip.typ, Content(blk, ip))
  }

  datatype Op = Create(typ: nat) | Write(i: nat, off: nat, src: seq<Byte>) | Read(i: nat, off: nat, n: nat)
    | Remove(i: nat)

  /** What an operation did to the files, or what it read. */
  datatype Effect = Nothing | Created(i: nat, typ: nat) | Wrote(i: nat, off: nat, src: seq<Byte>) | Removed(i: nat)
    | Got(data: seq<Byte>)

  // ---- the files as a map ------------------------------------------------------------------

  /** A plain file or directory, not a device (type 3), as far as offset off. */
  predicate Plain(f: Files, i: nat, off: nat) {
    i in f && f[i].typ != 3 && off <= |f[i].bytes|
  }

  /** At most n bytes from offset off. */
  function Slice(b: seq<Byte>, off: nat, n: nat): seq<Byte>
    requires off <= |b|
  {
    if off + n > |b| then b[off..] else b[off..off + n]
  }

  /** The one answer to each operation, but for which free inode a creation takes. A creation fails only
      if every inode that ialloc looks at is in use. */
  predicate Answers(f: Files, ninodes: nat, op: Op, e: Effect) {
    match op
    case Create(typ) =>
      if e.Created? then e.typ == typ && e.i !in f
      else e == Nothing && forall j :: 0 <= j < ninodes && j % IPB != 0 ==> j in f
    case Write(i, off, src) =>
      e == if Plain(f, i, off) && off + |src| <= MAXFILE * BSIZE then Wrote(i, off, src) else Nothing
    case Read(i, off, n) => e == if Plain(f, i, off) && off + n < U64 then Got(Slice(f[i].bytes, off, n)) else Nothing
    case Remove(i) => e == if i in f then Removed(i) else Nothing
  }

  /** The file-level meaning: create an empty file, splice bytes into one, delete one. */
  function After(f: Files, e: Effect): Files {
    match e
    case Nothing => f
    case Got(_) => f
    case Created(i, typ) => f[i := File(typ, [])]
    case Wrote(i, off, src) =>
      if i in f && off <= |f[i].bytes| then f[i := File(f[i].typ, Splice(f[i].bytes, off, src))] else f
    case Removed(i) => f - {i}
  }

  function Replay(f: Files, es: seq<Effect>): Files {
    if es == [] then f else After(Replay(f, es[..|es| - 1]), es[|es| - 1])
  }

  /** es are the answers to ops when the files are a map. */
  predicate Explains(f: Files, ninodes: nat, ops: seq<Op>, es: seq<Effect>) {
    |ops| == |es| && forall x :: 0 <= x < |es| ==> Answers(Replay(f, es[..x]), ninodes, ops[x], es[x])
  }

  predicate OpOk(op: Op) {
    match op
    case Create(typ) => 0 < typ
    case Write(_, off, src) => off < U64 && |src| < U64
    case Read(_, off, n) => off < U64 && n < U64
    case Remove(_) => true
  }

  // ---- the file system's answers -----------------------------------------------------------

  /** The operation touches file blocks that are not there, more of them than blocks are free. */
  ghost predicate Lacks(sb: Super, blk: seq<Block>, ino: seq<Inode>, op: Op)
    requires InodesOk(ino)
  {
    match op
    case Write(i, off, src) => Fitting(ino, i, off, |src|) && TooFew(sb, blk, ino, i, off, |src|)
    case Read(i, off, n) =>
      Accessible(ino, i, off) && off + n < U64 && TooFew(sb, blk, ino, i, off, Least(n, ino[i].size - off))
    case _ => false
  }

  predicate Accessible(ino: seq<Inode>, i: nat, off: nat) {
    Live(ino, i) && ino[i].typ != T_DEV && off <= ino[i].size
  }

  predicate Fitting(ino: seq<Inode>, i: nat, off: nat, n: nat) {
    Accessible(ino, i, off) && off + n <= MAXFILE * BSIZE
  }

  /** One operation. `ok` is false exactly when a write or read needs more blocks than are free. */
  method Do(fs: FileSystem, op: Op) returns (ok: bool, e: Effect)
    requires fs.Valid() && |fs.ino| == fs.sb.ninodes / IPB * IPB + IPB && OpOk(op)
    modifies fs
    ensures fs.Valid() && |fs.ino| == |old(fs.ino)|
    ensures ok <==> !Lacks(fs.sb, old(fs.blk), old(fs.ino), op)
    ensures ok ==> Answers(FilesOf(old(fs.blk), old(fs.ino)), fs.sb.ninodes, op, e)
    ensures ok ==> FilesOf(fs.blk, fs.ino) == After(FilesOf(old(fs.blk), old(fs.ino)), e)
  {
    match op {
      case Create(typ) =>
        ok, e := DoCreate(fs, typ);
      case Write(i, off, src) =>
        ok, e := DoWrite(fs, i, off, src);
      case Read(i, off, n) =>
        ok, e := DoRead(fs, i, off, n);
      case Remove(i) =>
        ok, e := true, Nothing;
        if i < |fs.ino| && fs.ino[i].typ != 0 {
          fs.IputFree(i);
          e := Removed(i);
          OnlyOne(old(fs.blk), old(fs.ino), fs.blk, fs.ino, i);
        }
    }
  }

  method DoCreate(fs: FileSystem, typ: nat) returns (ok: bool, e: Effect)
    requires fs.Valid() && |fs.ino| == fs.sb.ninodes / IPB * IPB + IPB && 0 < typ
    modifies fs
    ensures fs.Valid() && |fs.ino| == |old(fs.ino)| && ok
    ensures Answers(FilesOf(old(fs.blk), old(fs.ino)), fs.sb.ninodes, Create(typ), e)
    ensures FilesOf(fs.blk, fs.ino) == After(FilesOf(old(fs.blk), old(fs.ino)), e)
  {
    ok, e := true, Nothing;
    var done, i := fs.Ialloc(typ);
    if done {
      e := Created(i, typ);
      SameFiles(fs.blk, old(fs.ino), fs.blk, fs.ino, i);
      OnlyOne(fs.blk, old(fs.ino), fs.blk, fs.ino, i);
    }
  }

  method DoWrite(fs: FileSystem, i: nat, off: nat, src: seq<Byte>) returns (ok: bool, e: Effect)
    requires fs.Valid() && off < U64 && |src| < U64
    modifies fs
    ensures fs.Valid() && |fs.ino| == |old(fs.ino)|
    ensures ok <==> !Lacks(fs.sb, old(fs.blk), old(fs.ino), Write(i, off, src))
    ensures ok ==> Answers(FilesOf(old(fs.blk), old(fs.ino)), fs.sb.ninodes, Write(i, off, src), e)
    ensures ok ==> FilesOf(fs.blk, fs.ino) == After(FilesOf(old(fs.blk), old(fs.ino)), e)
  {
    ok, e := true, Nothing;
    if i < |fs.ino| && fs.ino[i].typ != 0 && fs.ino[i].typ != T_DEV {
      var r := fs.Writei(i, src, off);
      if r == STUCK {
        ok := false;
      } else if r != FAILED {
        e := Wrote(i, off, src);
        OnlyOne(old(fs.blk), old(fs.ino), fs.blk, fs.ino, i);
      }
    }
  }

  method DoRead(fs: FileSystem, i: nat, off: nat, n: nat) returns (ok: bool, e: Effect)
    requires fs.Valid() && off < U64 && n < U64
    modifies fs
    ensures fs.Valid() && |fs.ino| == |old(fs.ino)|
    ensures ok <==> !Lacks(fs.sb, old(fs.blk), old(fs.ino), Read(i, off, n))
    ensures ok ==> Answers(FilesOf(old(fs.blk), old(fs.ino)), fs.sb.ninodes, Read(i, off, n), e)
    ensures ok ==> FilesOf(fs.blk, fs.ino) == FilesOf(old(fs.blk), old(fs.ino))
  {
    ok, e := true, Nothing;
    if i < |fs.ino| && fs.ino[i].typ != 0 && fs.ino[i].typ != T_DEV {
      var r, dst := fs.Readi(i, off, n);
      SameFiles(old(fs.blk), old(fs.ino), fs.blk, fs.ino, |fs.ino|);
      OnlyOne(old(fs.blk), old(fs.ino), fs.blk, fs.ino, |fs.ino|);
      ok := r != STUCK;
      if ok && r != FAILED { e := Got(dst); }
    }
  }

  /** Equal bytes and equal sizes are equal files, apart from inode `x`. */
  lemma SameFiles(blk: seq<Block>, ino: seq<Inode>, blk': seq<Block>, ino': seq<Inode>, x: nat)
    requires InodesOk(ino) && InodesOk(ino') && SameBytes(blk, ino, blk', ino')
    requires forall j :: 0 <= j < |ino| && j != x ==> ino'[j].typ == ino[j].typ && ino'[j].size == ino[j].size
    ensures forall j: nat :: j != x && Live(ino, j) ==> Content(blk', ino'[j]) == Content(blk, ino[j])
  {
    forall j: nat | j != x && Live(ino, j) ensures Content(blk', ino'[j]) == Content(blk, ino[j]) {
      assert forall k: nat :: ByteAt(blk', ino'[j], k) == ByteAt(blk, ino[j], k);
    }
  }

  /** When only inode x changed, the files differ in file x only. */
  lemma OnlyOne(blk: seq<Block>, ino: seq<Inode>, blk': seq<Block>, ino': seq<Inode>, x: nat)
    requires InodesOk(ino) && InodesOk(ino') && |ino'| == |ino|
    requires forall j :: 0 <= j < |ino| && j != x ==> ino'[j].typ == ino[j].typ
    requires forall j: nat :: j != x && Live(ino, j) ==> Content(blk', ino'[j]) == Content(blk, ino[j])
    ensures FilesOf(blk', ino') - {x} == FilesOf(blk, ino) - {x}
    ensures x >= |ino| ==> FilesOf(blk', ino') == FilesOf(blk, ino)
    ensures Live(ino', x) ==> FilesOf(blk', ino') == FilesOf(blk, ino)[x := FileAt(blk', ino'[x])]
    ensures !Live(ino', x) ==> FilesOf(blk', ino') == FilesOf(blk, ino) - {x}
  {
  }

  /** Any sequence of operations, up to one that needs more blocks than are free when it comes: block
      ownership always holds, and the answers and the files are those of a map from inode numbers to files. */
  method RunAll(fs: FileSystem, ops: seq<Op>)
    returns (done: nat, es: seq<Effect>, ghost blk1: seq<Block>, ghost ino1: seq<Inode>)
    requires fs.Valid() && |fs.ino| == fs.sb.ninodes / IPB * IPB + IPB
    requires forall x :: 0 <= x < |ops| ==> OpOk(ops[x])
    modifies fs
    ensures fs.Valid() && done <= |ops| && |es| == done
    ensures done < |ops| ==> InodesOk(ino1) && Lacks(fs.sb, blk1, ino1, ops[done])
    ensures done < |ops| ==> InodesOk(ino1) && FilesOf(blk1, ino1) == Replay(FilesOf(old(fs.blk), old(fs.ino)), es)
    ensures Explains(FilesOf(old(fs.blk), old(fs.ino)), fs.sb.ninodes, ops[..done], es)
    ensures done == |ops| ==> FilesOf(fs.blk, fs.ino) == Replay(FilesOf(old(fs.blk), old(fs.ino)), es)
  {
    done, es := 0, [];
    blk1, ino1 := fs.blk, fs.ino;
    ghost var f := FilesOf(fs.blk, fs.ino);
    while done < |ops|
      invariant fs.Valid() && |fs.ino| == fs.sb.ninodes / IPB * IPB + IPB
      invariant done <= |ops| && |es| == done
      invariant Explains(f, fs.sb.ninodes, ops[..done], es)
      invariant FilesOf(fs.blk, fs.ino) == Replay(f, es)
    {
      blk1, ino1 := fs.blk, fs.ino;
      var ok, e := Do(fs, ops[done]);
      if !ok {
        return;
      }
      ExplainsOne(f, fs.sb.ninodes, ops, es, e);
      done, es := done + 1, es + [e];
    }
  }

  lemma ExplainsOne(f: Files, ninodes: nat, ops: seq<Op>, es: seq<Effect>, e: Effect)
    requires |es| < |ops| && Explains(f, ninodes, ops[..|es|], es) && Answers(Replay(f, es), ninodes, ops[|es|], e)
    ensures Explains(f, ninodes, ops[..|es| + 1], es + [e]) && Replay(f, es + [e]) == After(Replay(f, es), e)
  {
    var es' := es + [e];
    assert es'[..|es|] == es;
    forall x | 0 <= x < |es'| ensures Answers(Replay(f, es'[..x]), ninodes, ops[..|es| + 1][x], es'[x]) {
      if x < |es| { assert es'[..x] == es[..x] && ops[..|es|][x] == ops[x]; }
    }
  }
}
