/** Whole runs of ialloc and iappend of user/src/mkfs/main.c. */
module MkfsRun {
  import opened Bytes
  import opened FsSpec
  import opened Dinode
  import opened Space
  import opened Mkfs
  import Fs

  datatype Cmd = Alloc(typ: nat) | Append(inum: nat, bytes: seq<Byte>)

  function PieceOf(c: Cmd, i: nat): seq<Byte> {
    if c.Append? && c.inum == i then c.bytes else []
  }

  /** The pieces appended to an inode, in order. */
  function Pieces(cmds: seq<Cmd>, i: nat): seq<Byte> {
    if cmds == [] then [] else Pieces(cmds[..|cmds| - 1], i) + PieceOf(cmds[|cmds| - 1], i)
  }

  /** Each inode holds the concatenation of the pieces appended to it. */
  ghost predicate Tracks(files: map<nat, seq<Byte>>, cmds: seq<Cmd>) {
    && (forall i: nat :: BytesOf(files, i) == Pieces(cmds, i))
    && forall x :: 0 <= x < |cmds| && cmds[x].Append? ==> cmds[x].inum in files
  }

  ghost predicate TracksOne(files: map<nat, seq<Byte>>, c: Cmd, files': map<nat, seq<Byte>>) {
    && files.Keys <= files'.Keys && (c.Append? ==> c.inum in files')
    && forall i: nat :: BytesOf(files', i) == BytesOf(files, i) + PieceOf(c, i)
  }

  lemma {:induction false} TracksStep(files: map<nat, seq<Byte>>, cmds: seq<Cmd>, x: nat, files': map<nat, seq<Byte>>)
    requires x < |cmds| && Tracks(files, cmds[..x]) && TracksOne(files, cmds[x], files')
    ensures Tracks(files', cmds[..x + 1])
  {
    assert cmds[..x + 1][..x] == cmds[..x];
    forall y | 0 <= y < x && cmds[..x + 1][y].Append? ensures cmds[y].inum in files' {
      assert cmds[..x][y] == cmds[y];
    }
  }

  /** The types that ialloc was asked for, in order. */
  function TypesOf(cmds: seq<Cmd>): seq<nat> {
    if cmds == [] then [] else NextTypes(TypesOf(cmds[..|cmds| - 1]), cmds[|cmds| - 1])
  }

  function NextTypes(types: seq<nat>, c: Cmd): seq<nat> {
    if c.Alloc? then types + [c.typ] else types
  }

  /** A file's or directory's inode with one link. */
  predicate OneLink(ip: Inode, typ: nat) {
    ip.typ == typ && ip.nlink == 1 && ip.major == 0 && ip.minor == 0
  }

  /** The inodes handed out have these types, one link each and no device numbers. */
  ghost predicate Typed(img: seq<Block>, types: seq<nat>, freeinode: nat) {
    && |img| == FSSIZE && |types| + 1 == freeinode <= NTABLE
    && forall i :: 1 <= i < freeinode ==> OneLink(Table(SB, img, NTABLE)[i], types[i - 1])
  }

  lemma {:induction false} TypedSame(img0: seq<Block>, types: seq<nat>, freeinode: nat, img: seq<Block>)
    requires Typed(img0, types, freeinode) && SameTypes(img0, img)
    ensures Typed(img, types, freeinode)
  {
    forall i | 1 <= i < freeinode ensures OneLink(Table(SB, img, NTABLE)[i], types[i - 1]) {
      assert SameHead(Table(SB, img0, NTABLE)[i], Table(SB, img, NTABLE)[i]);
      assert OneLink(Table(SB, img0, NTABLE)[i], types[i - 1]);
    }
  }

  lemma {:induction false} TypedMore(img0: seq<Block>, types: seq<nat>, i: nat, typ: nat, img: seq<Block>)
    requires Typed(img0, types, i) && i < NTABLE && 0 < typ < U16 && |img| == FSSIZE
    requires Table(SB, img, NTABLE) == Table(SB, img0, NTABLE)[i := EmptyInode(typ)]
    ensures Typed(img, types + [typ], i + 1)
  {
  }

  /** One command on the image. */
  method Do(im: Image, c: Cmd, ghost types: seq<nat>) returns (ok: bool)
    requires im.Valid() && Typed(im.img, types, im.freeinode) && (c.Alloc? ==> 0 < c.typ < U16)
    modifies im
    ensures ok ==> im.Valid() && TracksOne(old(im.files), c, im.files)
    ensures ok ==> im.freeinode == old(im.freeinode) + (if c.Alloc? then 1 else 0)
    ensures ok <==> Possible(old(im.freeinode), old(im.files), c)
    ensures ok ==> Typed(im.img, NextTypes(types, c), im.freeinode)
  {
    SoundFacts(im.img, im.freeblock, im.freeinode, im.files);
    match c
    case Alloc(typ) =>
      var inum;
      ok, inum := im.Ialloc(typ);
      if ok {
        AllocTracks(old(im.files), inum, typ);
        TypedMore(old(im.img), types, inum, typ, im.img);
      }
    case Append(inum, bytes) =>
      if inum == 0 || inum >= im.freeinode {
        return false;
      }
      ok := im.Iappend(inum, bytes);
      if ok {
        AppendTracks(old(im.files), inum, bytes);
        TypedSame(old(im.img), types, im.freeinode, im.img);
      }
  }

  /** The command fits: a free inode, or an inode handed out, a size within the limit and blocks for all. */
  predicate Possible(freeinode: nat, files: map<nat, seq<Byte>>, c: Cmd) {
    match c
    case Alloc(_) => freeinode < NTABLE
    case Append(i, p) =>
      1 <= i < freeinode && |BytesOf(files, i)| + |p| <= MAXFILE * BSIZE
      && NMETA + SumTo(files[i := BytesOf(files, i) + p], freeinode) <= FSSIZE
  }

  function Allocs(cmds: seq<Cmd>): nat {
    if cmds == [] then 0 else Allocs(cmds[..|cmds| - 1]) + if cmds[|cmds| - 1].Alloc? then 1 else 0
  }

  /** The blocks that the files of the first n inodes take after these commands. */
  function TakenTo(cmds: seq<Cmd>, n: nat): nat {
    if n == 0 then 0 else TakenTo(cmds, n - 1) + Blocks(|Pieces(cmds, n - 1)|)
  }

  /** Command x fits behind those before it. */
  predicate FitsAt(cmds: seq<Cmd>, x: nat)
    requires x < |cmds|
  {
    match cmds[x]
    case Alloc(_) => 1 + Allocs(cmds[..x]) < NTABLE
    case Append(i, _) =>
      1 <= i <= Allocs(cmds[..x]) && Within(cmds[..x + 1], i, 1 + Allocs(cmds[..x]))
  }

  /** File i and the blocks of the files of the first n inodes are within their limits. */
  predicate Within(cmds: seq<Cmd>, i: nat, n: nat) {
    |Pieces(cmds, i)| <= MAXFILE * BSIZE && NMETA + TakenTo(cmds, n) <= FSSIZE
  }

  predicate InCapacity(cmds: seq<Cmd>) {
    forall x :: 0 <= x < |cmds| ==> FitsAt(cmds, x)
  }

  lemma {:induction false} TakenIsSum(files: map<nat, seq<Byte>>, cmds: seq<Cmd>, n: nat)
    requires Tracks(files, cmds)
    ensures TakenTo(cmds, n) == SumTo(files, n)
  {
    if n > 0 {
      TakenIsSum(files, cmds, n - 1);
      assert BytesOf(files, n - 1) == Pieces(cmds, n - 1);
    }
  }

  /** What the commands say of a step is what the image says of it. */
  lemma {:induction false} FitsHere(cmds: seq<Cmd>, x: nat, freeinode: nat, files: map<nat, seq<Byte>>)
    requires x < |cmds| && Tracks(files, cmds[..x]) && freeinode == 1 + Allocs(cmds[..x])
    requires Handed(files, freeinode)
    ensures FitsAt(cmds, x) <==> Possible(freeinode, files, cmds[x])
  {
    if cmds[x].Append? { FitsAppendHere(cmds, x, freeinode, files); }
  }

  lemma {:induction false} FitsAppendHere(cmds: seq<Cmd>, x: nat, freeinode: nat, files: map<nat, seq<Byte>>)
    requires x < |cmds| && Tracks(files, cmds[..x]) && freeinode == 1 + Allocs(cmds[..x])
    requires Handed(files, freeinode) && cmds[x].Append?
    ensures FitsAt(cmds, x) <==> Possible(freeinode, files, cmds[x])
  {
    if 1 <= cmds[x].inum < freeinode {
      FitsAppend(cmds, x, freeinode, files);
      WithinIs(cmds[..x + 1], cmds[x].inum, freeinode, files, cmds[x].bytes);
    }
  }

  lemma {:induction false} WithinIs(cmds: seq<Cmd>, i: nat, n: nat, files: map<nat, seq<Byte>>, p: seq<Byte>)
    requires i in files && Pieces(cmds, i) == files[i] + p
    requires TakenTo(cmds, n) == SumTo(files[i := BytesOf(files, i) + p], n)
    ensures Within(cmds, i, n) <==>
      |BytesOf(files, i)| + |p| <= MAXFILE * BSIZE && NMETA + SumTo(files[i := BytesOf(files, i) + p], n) <= FSSIZE
  {
  }

  /** One more command. */
  lemma {:induction false} OneMore(cmds: seq<Cmd>, x: nat)
    requires x < |cmds|
    ensures Allocs(cmds[..x + 1]) == Allocs(cmds[..x]) + (if cmds[x].Alloc? then 1 else 0)
    ensures TypesOf(cmds[..x + 1]) == NextTypes(TypesOf(cmds[..x]), cmds[x])
  {
    assert cmds[..x + 1][..x] == cmds[..x];
  }

  lemma {:induction false} FitsAppend(cmds: seq<Cmd>, x: nat, freeinode: nat, files: map<nat, seq<Byte>>)
    requires x < |cmds| && Tracks(files, cmds[..x]) && cmds[x].Append? && cmds[x].inum in files
    ensures var i, p := cmds[x].inum, cmds[x].bytes;
      Pieces(cmds[..x + 1], i) == files[i] + p
      && TakenTo(cmds[..x + 1], freeinode) == SumTo(files[i := BytesOf(files, i) + p], freeinode)
  {
    var i, p := cmds[x].inum, cmds[x].bytes;
    var files' := files[i := files[i] + p];
    AppendTracks(files, i, p);
    TracksStep(files, cmds, x, files');
    TakenIsSum(files', cmds[..x + 1], freeinode);
    assert BytesOf(files', i) == Pieces(cmds[..x + 1], i);
  }

  lemma {:induction false} AppendTracks(files: map<nat, seq<Byte>>, inum: nat, bytes: seq<Byte>)
    requires inum in files
    ensures TracksOne(files, Append(inum, bytes), files[inum := files[inum] + bytes])
  {
  }

  lemma {:induction false} AllocTracks(files: map<nat, seq<Byte>>, inum: nat, typ: nat)
    requires inum !in files
    ensures TracksOne(files, Alloc(typ), files[inum := []])
  {
  }

  // ---- the capacity as a condition on the whole sequence -----------------------------------

  /** Every append names an inode handed out before it. */
  predicate Ordered(cmds: seq<Cmd>) {
    forall x :: 0 <= x < |cmds| ==> OrderedAt(cmds, x)
  }

  predicate OrderedAt(cmds: seq<Cmd>, x: nat)
    requires x < |cmds|
  {
    cmds[x].Append? ==> 1 <= cmds[x].inum <= Allocs(cmds[..x])
  }

  predicate SizeOk(cmds: seq<Cmd>, i: nat) {
    |Pieces(cmds, i)| <= MAXFILE * BSIZE
  }

  /** The inodes, the sizes of the files, and the blocks for all of them. */
  ghost predicate Roomy(cmds: seq<Cmd>) {
    && Allocs(cmds) < NTABLE && (forall i: nat :: SizeOk(cmds, i))
    && NMETA + TakenTo(cmds, 1 + Allocs(cmds)) <= FSSIZE
  }

  lemma {:induction false} NothingPast(cmds: seq<Cmd>, i: nat)
    requires Ordered(cmds) && i > Allocs(cmds)
    ensures Pieces(cmds, i) == []
    decreases |cmds|
  {
    if cmds != [] {
      OrderedPrefix(cmds);
      NothingPast(cmds[..|cmds| - 1], i);
      assert OrderedAt(cmds, |cmds| - 1);
    }
  }

  lemma {:induction false} OrderedPrefix(cmds: seq<Cmd>)
    requires cmds != [] && Ordered(cmds)
    ensures Ordered(cmds[..|cmds| - 1])
  {
    var c0 := cmds[..|cmds| - 1];
    forall x | 0 <= x < |c0| ensures OrderedAt(c0, x) {
      assert OrderedAt(cmds, x) && c0[..x] == cmds[..x];
    }
  }

  /** The last command adds to the files, or leaves them. */
  lemma {:induction false} TakenGrows(cmds: seq<Cmd>, n: nat)
    requires cmds != []
    ensures TakenTo(cmds[..|cmds| - 1], n) <= TakenTo(cmds, n)
    ensures cmds[|cmds| - 1].Alloc? ==> TakenTo(cmds[..|cmds| - 1], n) == TakenTo(cmds, n)
  {
    if n > 0 {
      TakenGrows(cmds, n - 1);
      BlocksGrow(|Pieces(cmds[..|cmds| - 1], n - 1)|, |Pieces(cmds, n - 1)|);
    }
  }

  lemma {:induction false} RoomyPrefix(cmds: seq<Cmd>)
    requires cmds != [] && Roomy(cmds)
    ensures Roomy(cmds[..|cmds| - 1])
  {
    var c0 := cmds[..|cmds| - 1];
    forall i: nat ensures SizeOk(c0, i) {
      assert SizeOk(cmds, i);
    }
    TakenGrows(cmds, 1 + Allocs(c0));
  }

  lemma {:induction false} InCapacityLast(cmds: seq<Cmd>)
    requires cmds != []
    ensures InCapacity(cmds) <==> InCapacity(cmds[..|cmds| - 1]) && FitsAt(cmds, |cmds| - 1)
  {
    var c0 := cmds[..|cmds| - 1];
    forall x | 0 <= x < |c0| ensures FitsAt(c0, x) <==> FitsAt(cmds, x) {
      assert c0[..x] == cmds[..x] && c0[..x + 1] == cmds[..x + 1];
    }
  }

  lemma {:induction false} RoomyAppend(cmds: seq<Cmd>, c0: seq<Cmd>, c: Cmd)
    requires cmds != [] && c0 == cmds[..|cmds| - 1] && c == cmds[|cmds| - 1] && c.Append?
    requires Roomy(c0) && FitsAt(cmds, |cmds| - 1)
    ensures Roomy(cmds)
  {
    assert cmds[..|cmds|] == cmds;
    forall i: nat ensures SizeOk(cmds, i) {
      assert SizeOk(c0, i);
    }
  }

  lemma {:induction false} RoomyAlloc(cmds: seq<Cmd>, c0: seq<Cmd>, c: Cmd, n: nat)
    requires cmds != [] && c0 == cmds[..|cmds| - 1] && c == cmds[|cmds| - 1] && c.Alloc? && n == 1 + Allocs(c0) < NTABLE
    requires Ordered(c0) && Roomy(c0)
    ensures Roomy(cmds)
  {
    forall i: nat ensures SizeOk(cmds, i) {
      assert SizeOk(c0, i);
    }
    TakenGrows(cmds, n);
    NothingPast(c0, n);
    assert Pieces(cmds, n) == [] && TakenTo(cmds, n + 1) == TakenTo(cmds, n) + Blocks(0);
  }

  /** A sequence fits step by step exactly when appends follow their inodes and the whole fits. */
  lemma {:induction false} CapacityIff(cmds: seq<Cmd>)
    ensures InCapacity(cmds) <==> Ordered(cmds) && Roomy(cmds)
    decreases |cmds|
  {
    if cmds != [] {
      var x := |cmds| - 1;
      CapacityIff(cmds[..x]);
      InCapacityLast(cmds);
      assert cmds[..|cmds|] == cmds;
      if InCapacity(cmds) {
        OrderedLast(cmds);
        if cmds[x].Alloc? {
          RoomyAlloc(cmds, cmds[..x], cmds[x], 1 + Allocs(cmds[..x]));
        } else {
          RoomyAppend(cmds, cmds[..x], cmds[x]);
        }
      }
      if Ordered(cmds) && Roomy(cmds) {
        OrderedPrefix(cmds);
        RoomyPrefix(cmds);
        assert OrderedAt(cmds, x);
        FitsLast(cmds);
      }
    } else {
      assert TakenTo(cmds, 1) == TakenTo(cmds, 0) + Blocks(0);
    }
  }

  lemma {:induction false} OrderedLast(cmds: seq<Cmd>)
    requires cmds != [] && Ordered(cmds[..|cmds| - 1]) && FitsAt(cmds, |cmds| - 1)
    ensures Ordered(cmds)
  {
    var c0 := cmds[..|cmds| - 1];
    forall x | 0 <= x < |c0| ensures OrderedAt(cmds, x) {
      assert OrderedAt(c0, x) && c0[..x] == cmds[..x];
    }
  }

  lemma {:induction false} FitsLast(cmds: seq<Cmd>)
    requires cmds != [] && Roomy(cmds) && OrderedAt(cmds, |cmds| - 1)
    ensures FitsAt(cmds, |cmds| - 1)
  {
    assert cmds[..|cmds|] == cmds;
    if cmds[|cmds| - 1].Append? { assert SizeOk(cmds, cmds[|cmds| - 1].inum); }
  }

  // ---- running them ------------------------------------------------------------------------

  /** Any sequence of ialloc and iappend that fits leaves each inode with the concatenation of the
      pieces appended to it. */
  method Build(cmds: seq<Cmd>) returns (ok: bool, im: Image)
    requires forall x :: 0 <= x < |cmds| ==> cmds[x].Alloc? ==> 0 < cmds[x].typ < U16
    ensures fresh(im)
    ensures ok ==> im.Valid() && Tracks(im.files, cmds) && Typed(im.img, TypesOf(cmds), im.freeinode)
    ensures ok ==> im.freeinode == 1 + Allocs(cmds)
    ensures ok <==> InCapacity(cmds)
  {
    im := new Image();
    var x := 0;
    assert BuiltTo(im, cmds, 0) by { SoundFacts(im.img, im.freeblock, im.freeinode, im.files); }
    while x < |cmds|
      invariant 0 <= x <= |cmds| && fresh(im) && BuiltTo(im, cmds, x)
    {
      ok := BuildOne(im, cmds, x);
      if !ok {
        return;
      }
      x := x + 1;
    }
    assert cmds[..x] == cmds;
    ok := true;
  }

  /** The first x commands fitted, and are what the image holds. */
  ghost predicate BuiltTo(im: Image, cmds: seq<Cmd>, x: nat)
    requires x <= |cmds|
    reads im
  {
    && im.Valid() && Tracks(im.files, cmds[..x]) && im.freeinode == 1 + Allocs(cmds[..x])
    && (forall y :: 0 <= y < x ==> FitsAt(cmds, y))
    && Typed(im.img, TypesOf(cmds[..x]), im.freeinode)
  }

  method BuildOne(im: Image, cmds: seq<Cmd>, x: nat) returns (ok: bool)
    requires x < |cmds| && BuiltTo(im, cmds, x) && (cmds[x].Alloc? ==> 0 < cmds[x].typ < U16)
    modifies im
    ensures ok <==> FitsAt(cmds, x)
    ensures ok ==> BuiltTo(im, cmds, x + 1)
  {
    ghost var files := im.files;
    SoundFacts(im.img, im.freeblock, im.freeinode, im.files);
    FitsHere(cmds, x, im.freeinode, im.files);
    ok := Do(im, cmds[x], TypesOf(cmds[..x]));
    if ok {
      TracksStep(files, cmds, x, im.files);
      OneMore(cmds, x);
    }
  }

  /** The kernel agrees: booted from that image, its own ownership invariant holds, exactly the blocks
      handed out are marked, and every inode's contents, through the kernel's block map, are those pieces. */
  method BuildAndBoot(cmds: seq<Cmd>) returns (ok: bool, fs: Fs.FileSystem?, ghost used: nat)
    requires forall x :: 0 <= x < |cmds| ==> cmds[x].Alloc? ==> 0 < cmds[x].typ < U16
    ensures ok <==> InCapacity(cmds)
    ensures ok ==> fs != null && fs.Valid() && fs.sb == SB && |fs.ino| == NTABLE
    ensures ok ==> forall b :: 0 <= b < FSSIZE ==> (Used(SB, fs.blk, b) <==> b < used)
    ensures ok ==> used == NMETA + TakenTo(cmds, 1 + Allocs(cmds))
    ensures ok ==> forall i: nat :: Live(fs.ino, i) <==> 1 <= i <= Allocs(cmds)
    ensures ok ==> forall i: nat :: Live(fs.ino, i) ==> Content(fs.blk, fs.ino[i]) == Pieces(cmds, i)
  {
    var im;
    ok, im := Build(cmds);
    fs, used := null, 0;
    if ok {
      SoundFacts(im.img, im.freeblock, im.freeinode, im.files);
      TakenIsSum(im.files, cmds, im.freeinode);
      im.Balloc();
      used := im.freeblock;
      fs := new Fs.FileSystem(SB, im.img, Table(SB, im.img, NTABLE));
      forall i: nat | Live(fs.ino, i) ensures Content(fs.blk, fs.ino[i]) == Pieces(cmds, i) {
        assert BytesOf(im.files, i) == Pieces(cmds, i);
      }
    }
  }
}
