/** The kernel's inode cache and path walking on the image that user/src/mkfs/main.c builds. */
module BootImage {
  import opened Common
  import opened Bytes
  import opened FsSpec
  import opened DirSpec
  import opened RootDir
  import opened MkfsMain
  import opened Namex
  import Fs
  import Dirs
  import Mkfs

  const ROOT: nat := 1

  /** Every inode in use has a link, so none waits for its last reference to be freed. */
  lemma {:induction false} Linked(ins: seq<Input>, blk: seq<Block>, ino: seq<Inode>, i: nat)
    requires Holds(ins, blk, ino) && Live(ino, i)
    ensures ino[i].nlink == 1
  {
    if i >= 2 { assert HoldsFile(ins, blk, ino, i - 2); }
  }

  lemma {:induction false} NoneOrphaned(ins: seq<Input>, blk: seq<Block>, ino: seq<Inode>, slots: seq<Slot>)
    requires Holds(ins, blk, ino)
    ensures NoOrphans(slots, ino)
  {
    forall j: nat | Live(ino, j) ensures ino[j].nlink == 1 { Linked(ins, blk, ino, j); }
  }

  /** Taking an inode of the image, locking it and giving it back leaves the image and the counts alone. */
  method TakeAndPut(ins: seq<Input>, c: Icache, inum: nat) returns (r: int)
    requires c.Valid() && Unlocked(c.slots) && Holds(ins, c.fs.blk, c.fs.ino) && Live(c.fs.ino, inum)
    modifies c, c.fs`blk, c.fs`ino
    ensures r == Dirs.PANIC ==> AllTaken(old(c.slots))
    ensures r != Dirs.PANIC ==> c.Valid() && c.fs.blk == old(c.fs.blk) && c.fs.ino == old(c.fs.ino)
    ensures r != Dirs.PANIC ==> Plus(old(c.slots), c.slots, multiset{})
  {
    r := c.Iget(Id(ROOTDEV, inum));
    if r == Dirs.PANIC { return; }
    ghost var s1 := c.slots;
    c.Ilock(r);
    ghost var s2 := c.slots;
    c.Iunlock(r);
    ghost var s3 := c.slots;
    Linked(ins, c.fs.blk, c.fs.ino, inum);
    c.Iput(r);
    PlusTrans(old(c.slots), s1, s2, multiset{Id(ROOTDEV, inum)}, multiset{});
    PlusTrans(old(c.slots), s2, s3, multiset{Id(ROOTDEV, inum)}, multiset{});
    forall id ensures Total(c.slots, id) == Total(old(c.slots), id) {
      assert Total(s3, id) == Total(old(c.slots), id) + multiset{Id(ROOTDEV, inum)}[id];
      assert Total(s3, id) == Total(c.slots, id) + multiset{Id(ROOTDEV, inum)}[id];
    }
  }

  /** The entries of the root as the kernel's map of names. */
  lemma {:induction false} InRoot(ins: seq<Input>, blk: seq<Block>, ino: seq<Inode>, name: seq<Byte>)
    requires Holds(ins, blk, ino)
    ensures var d := DirSpec.Dir(Content(blk, ino[ROOT]));
      && (Trunc(name) in d <==> !Unnamed(Entered(ins), name))
      && forall k: nat :: First(Entered(ins), k, name) ==> Trunc(name) in d && d[Trunc(name)] == Entered(ins)[k].inum
  {
    var es := Entered(ins);
    EnteredAt(ins);
    RootReads(es);
    if Unnamed(es, name) {
      NotNamed(es, 0, name);
    } else {
      var k := FirstOf(es, name, 0);
      FirstNamed(es, 0, k);
    }
    forall k: nat | First(es, k, name)
      ensures Trunc(name) in NamesFrom(es, 0) && NamesFrom(es, 0)[Trunc(name)] == es[k].inum
    {
      FirstNamed(es, 0, k);
    }
  }

  /** What namei looks for under one name in the root: the number of the first file of that name. */
  lemma {:induction false} TargetInRoot(ins: seq<Input>, blk: seq<Block>, ino: seq<Inode>, name: seq<Byte>)
    requires Holds(ins, blk, ino)
    ensures Unnamed(Entered(ins), name) ==> Target(blk, ino, ROOT, [Trunc(name)], false) == None
    ensures forall k: nat :: First(Entered(ins), k, name) ==>
      Target(blk, ino, ROOT, [Trunc(name)], false) == Some(Entered(ins)[k].inum)
  {
    InRoot(ins, blk, ino, name);
    var names, d := [Trunc(name)], DirSpec.Dir(Content(blk, ino[ROOT]));
    assert names[1..] == [];
    if Trunc(name) in d { assert Target(blk, ino, d[names[0]], [], false) == Some(d[names[0]]); }
  }

  /** The root's own entries lead to the root. */
  lemma {:induction false} Dots(ins: seq<Input>, blk: seq<Block>, ino: seq<Inode>)
    requires Holds(ins, blk, ino)
    ensures Target(blk, ino, ROOT, [['.' as Byte]], false) == Some(1)
    ensures Target(blk, ino, ROOT, [['.' as Byte, '.' as Byte]], false) == Some(1)
  {
    DotsFirst(ins);
    TargetInRoot(ins, blk, ino, ['.' as Byte]);
    TargetInRoot(ins, blk, ino, ['.' as Byte, '.' as Byte]);
    ShortName(['.' as Byte]);
    ShortName(['.' as Byte, '.' as Byte]);
  }

  lemma {:induction false} ShortName(name: seq<Byte>)
    requires |name| <= DIRSIZ && forall k :: 0 <= k < |name| ==> name[k] != 0
    ensures Trunc(name) == name
  {
    CStrIs(name, |name|);
  }

  lemma {:induction false} DotsFirst(ins: seq<Input>)
    ensures var es := Entered(ins);
      && First(es, 0, ['.' as Byte]) && First(es, 1, ['.' as Byte, '.' as Byte])
      && es[0].inum == 1 && es[1].inum == 1
  {
    EnteredAt(ins);
    ShortName(['.' as Byte]);
    ShortName(['.' as Byte, '.' as Byte]);
    assert |['.' as Byte]| != |['.' as Byte, '.' as Byte]|;
  }

  /** A walk along any path keeps the image as main made it, whatever it takes and gives back on the way. */
  method WalkImage(ins: seq<Input>, c: Icache, path: seq<Byte>, parent: bool, cwd: nat)
    returns (r: int, name: seq<Byte>)
    requires c.Valid() && Unlocked(c.slots) && Holds(ins, c.fs.blk, c.fs.ino)
    requires cwd < |c.slots| && c.slots[cwd].ref > 0
    modifies c, c.fs`blk, c.fs`ino
    ensures r in {NULL, WILD, Dirs.PANIC, Fs.STUCK} || 0 <= r < |c.slots|
    ensures r >= 0 || r == NULL ==> c.Valid() && Unlocked(c.slots) && Holds(ins, c.fs.blk, c.fs.ino)
    ensures r >= 0 ==> c.slots[r].ref > 0 && Plus(old(c.slots), c.slots, multiset{c.slots[r].id})
    ensures r == NULL ==> Plus(old(c.slots), c.slots, multiset{})
    ensures r >= 0 || r == NULL ==>
      Target(old(c.fs.blk), old(c.fs.ino), old(FirstInode(c.slots, path, cwd)), Elems(path), parent)
      == if r == NULL then None else Some(c.slots[r].id.inum)
  {
    NoneOrphaned(ins, c.fs.blk, c.fs.ino, c.slots);
    r, name := Namex.Namex(c, path, parent, cwd);
    if r >= 0 || r == NULL {
      HoldsKept(ins, old(c.fs.blk), old(c.fs.ino), c.fs.blk, c.fs.ino);
    }
  }

  /** The whole way by path: main builds the image, the kernel boots from it with an empty inode cache, takes
      the root, walks `/name` from there, and reads the k-th file. */
  method OpenAndRead(ins: seq<Input>, k: nat, n: nat, path: seq<Byte>)
    returns (ok: bool, r: int, data: seq<Byte>)
    requires k < |ins| && First(Entered(ins), k + 2, ins[k].name)
    requires path != [] && path[0] == SLASH && Elems(path) == [Trunc(ins[k].name)]
    ensures ok <==> Fits(ins)
    ensures ok && r >= 0 ==> data == ins[k].bytes
    ensures ok ==> r != NULL
  {
    data, r := [], 0;
    var fs;
    ghost var used;
    ok, fs, used := MakeImage(ins);
    if !ok { return; }
    var c := new Icache(fs, n);
    var cwd := c.Iget(Id(ROOTDEV, ROOT));
    if cwd == Dirs.PANIC { return ok, cwd, data; }
    EnteredAt(ins);
    TargetInRoot(ins, fs.blk, fs.ino, ins[k].name);
    var name;
    r, name := WalkImage(ins, c, path, false, cwd);
    if r >= 0 {
      r, data := ReadFile(ins, fs, c.slots[r].id.inum, k);
    }
  }

  /** readi of a whole file of the image. */
  method ReadFile(ins: seq<Input>, fs: Fs.FileSystem, inum: nat, k: nat) returns (r: int, data: seq<Byte>)
    requires fs.Valid() && Holds(ins, fs.blk, fs.ino) && k < |ins| && inum == k + 2
    modifies fs`blk, fs`ino
    ensures r != NULL && (r >= 0 ==> data == ins[k].bytes)
  {
    assert HoldsFile(ins, fs.blk, fs.ino, k);
    r, data := fs.Readi(inum, 0, fs.ino[inum].size);
  }
}
