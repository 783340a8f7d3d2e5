/** kern/fs.c: the inode cache and path walking, as one process sees them: every reference taken and
    every lock held on the way is given back, except one reference on the inode returned. */
module Namex {
  import opened Common
  import opened Bytes
  import opened FsSpec
  import opened DirSpec
  import opened Fs
  import opened Dirs

  const ROOTDEV: nat := 1
  const ROOTINO: nat := 1
  const NULL: int := -1
  const WILD: int := -4         // a directory entry led to an inode that is not in use

  datatype Id = Id(dev: nat, inum: nat)

  /** An entry of icache; `locked` is for locks this process holds. */
  datatype Slot = Slot(id: Id, ref: nat, valid: bool, locked: bool)

  // ---- reference counts --------------------------------------------------------------------

  /** All references to an inode. */
  function Total(slots: seq<Slot>, id: Id): nat {
    if slots == [] then 0 else (if slots[0].id == id then slots[0].ref else 0) + Total(slots[1..], id)
  }

  lemma {:induction false} TotalPut(slots: seq<Slot>, k: nat, x: Slot, id: Id)
    requires k < |slots|
    ensures Total(slots[k := x], id)
      == Total(slots, id) - (if slots[k].id == id then slots[k].ref else 0) + (if x.id == id then x.ref else 0)
    decreases |slots|
  {
    if k > 0 {
      TotalPut(slots[1..], k - 1, x, id);
      assert slots[k := x][1..] == slots[1..][k - 1 := x];
    } else {
      assert slots[k := x][1..] == slots[1..];
    }
  }

  predicate SameId(slots: seq<Slot>, a: nat, b: nat)
    requires a < |slots| && b < |slots|
  {
    slots[a].ref > 0 && slots[b].ref > 0 && slots[a].id == slots[b].id
  }

  predicate SlotOk(slots: seq<Slot>, k: nat)
    requires k < |slots|
  {
    (slots[k].locked ==> slots[k].ref > 0) && (slots[k].ref > 0 ==> slots[k].id.dev == ROOTDEV)
  }

  /** A slot that was read in stands for an inode in use. */
  predicate LiveOk(slots: seq<Slot>, ino: seq<Inode>, k: nat)
    requires k < |slots|
  {
    slots[k].ref > 0 && slots[k].valid ==> Live(ino, slots[k].id.inum)
  }

  ghost predicate AllLive(slots: seq<Slot>, ino: seq<Inode>) {
    forall k :: 0 <= k < |slots| ==> LiveOk(slots, ino, k)
  }

  /** An inode in use has one slot, and only such slots are locked. */
  predicate CacheOk(slots: seq<Slot>) {
    (forall a, b :: 0 <= a < b < |slots| ==> !SameId(slots, a, b)) && forall k :: 0 <= k < |slots| ==> SlotOk(slots, k)
  }

  lemma {:induction false} TotalFrom(slots: seq<Slot>, k: nat)
    requires k < |slots| && slots[k].ref > 0
    requires forall a :: 0 <= a < |slots| && a != k ==> slots[a].ref == 0 || slots[a].id != slots[k].id
    ensures Total(slots, slots[k].id) == slots[k].ref
    decreases |slots|
  {
    if k > 0 {
      TotalFrom(slots[1..], k - 1);
    } else {
      TotalNone(slots[1..], slots[0].id);
    }
  }

  lemma {:induction false} TotalNone(slots: seq<Slot>, id: Id)
    requires forall a :: 0 <= a < |slots| ==> slots[a].ref == 0 || slots[a].id != id
    ensures Total(slots, id) == 0
  {
    if slots != [] { TotalNone(slots[1..], id); }
  }

  lemma TotalIsRef(slots: seq<Slot>, k: nat)
    requires CacheOk(slots) && k < |slots| && slots[k].ref > 0
    ensures Total(slots, slots[k].id) == slots[k].ref
  {
    forall a | 0 <= a < |slots| && a != k ensures slots[a].ref == 0 || slots[a].id != slots[k].id {
      assert a < k ==> !SameId(slots, a, k);
      assert k < a ==> !SameId(slots, k, a);
    }
    TotalFrom(slots, k);
  }

  /** The case in which iput frees the inode. */
  predicate LastOfUnlinked(slots: seq<Slot>, ino: seq<Inode>, r: nat) {
    r < |slots| && slots[r].ref == 1 && slots[r].valid && slots[r].id.inum < |ino| && ino[slots[r].id.inum].nlink == 0
  }

  /** An inode in use without links is referenced, as iput sees to. */
  ghost predicate NoOrphans(slots: seq<Slot>, ino: seq<Inode>) {
    forall j: nat :: Live(ino, j) && ino[j].nlink == 0 ==> Total(slots, Id(ROOTDEV, j)) > 0
  }

  /** The counts of s plus one for each of the given inodes. */
  ghost predicate Plus(s: seq<Slot>, t: seq<Slot>, held: multiset<Id>) {
    forall id :: Total(t, id) == Total(s, id) + held[id]
  }

  predicate Unlocked(slots: seq<Slot>) {
    forall k :: 0 <= k < |slots| ==> !slots[k].locked
  }

  class Icache {
    const fs: FileSystem
    var slots: seq<Slot>

    ghost predicate Valid()
      reads this, fs
    {
      fs.Valid() && CacheOk(slots) && AllLive(slots, fs.ino)
    }

    constructor (fs: FileSystem, n: nat)
      requires fs.Valid()
      ensures Valid() && this.fs == fs && slots == seq(n, _ => Slot(Id(0, 0), 0, false, false))
    {
      this.fs := fs;
      slots := seq(n, _ => Slot(Id(0, 0), 0, false, false));
    }

    /** iget: the inode's slot with one more reference, else the first free slot. */
    method Iget(id: Id) returns (r: int)
      requires Valid() && id.dev == ROOTDEV
      modifies this
      ensures Valid() && |slots| == |old(slots)|
      ensures r == PANIC ==>
        slots == old(slots) && forall k :: 0 <= k < |slots| ==> slots[k].ref > 0 && slots[k].id != id
      ensures r == PANIC || 0 <= r < |slots|
      ensures r >= 0 ==> slots[r].id == id && slots[r].ref > 0 && Plus(old(slots), slots, multiset{id})
      ensures r >= 0 ==> forall k :: 0 <= k < |slots| ==>
        slots[k].locked == old(slots)[k].locked && (k != r ==> slots[k] == old(slots)[k])
      ensures r >= 0 && old(slots)[r].ref > 0 ==> slots[r] == old(slots)[r].(ref := old(slots)[r].ref + 1)
    {
      var ind, emp := 0, -1;
      while ind < |slots|
        invariant ind <= |slots| && slots == old(slots) && -1 <= emp < ind
        invariant forall k :: 0 <= k < ind && slots[k].ref > 0 ==> slots[k].id != id
        invariant emp == -1 ==> forall k :: 0 <= k < ind ==> slots[k].ref > 0
        invariant emp >= 0 ==> slots[emp].ref == 0
      {
        if slots[ind].id == id && slots[ind].ref > 0 {
          Took(slots, fs.ino, ind, slots[ind].(ref := slots[ind].ref + 1), id);
          slots := slots[ind := slots[ind].(ref := slots[ind].ref + 1)];
          return ind;
        } else if slots[ind].ref == 0 && emp == -1 {
          emp := ind;
        }
        ind := ind + 1;
      }
      if emp == -1 { return PANIC; }
      Took(slots, fs.ino, emp, slots[emp].(id := id, ref := 1, valid := false), id);
      slots := slots[emp := slots[emp].(id := id, ref := 1, valid := false)];
      return emp;
    }

    method Idup(r: nat)
      requires Valid() && r < |slots| && slots[r].ref > 0
      modifies this
      ensures Valid() && slots == old(slots)[r := old(slots)[r].(ref := old(slots)[r].ref + 1)]
      ensures Plus(old(slots), slots, multiset{slots[r].id})
    {
      assert SlotOk(slots, r);
      Took(slots, fs.ino, r, slots[r].(ref := slots[r].ref + 1), slots[r].id);
      slots := slots[r := slots[r].(ref := slots[r].ref + 1)];
    }

    /** ilock: read in and locked. */
    method Ilock(r: nat)
      requires Valid() && r < |slots| && slots[r].ref > 0 && !slots[r].locked && Live(fs.ino, slots[r].id.inum)
      modifies this
      ensures Valid() && slots == old(slots)[r := old(slots)[r].(valid := true, locked := true)]
      ensures Plus(old(slots), slots, multiset{})
    {
      FlagsKept(slots, fs.ino, r, slots[r].(valid := true, locked := true));
      slots := slots[r := slots[r].(valid := true, locked := true)];
    }

    method Iunlock(r: nat)
      requires Valid() && r < |slots| && slots[r].locked
      modifies this
      ensures Valid() && slots == old(slots)[r := old(slots)[r].(locked := false)]
      ensures Plus(old(slots), slots, multiset{})
    {
      assert SlotOk(slots, r) && LiveOk(slots, fs.ino, r);
      FlagsKept(slots, fs.ino, r, slots[r].(locked := false));
      slots := slots[r := slots[r].(locked := false)];
    }

    /** iput: one reference less; the last one to an inode without links frees it. */
    method Iput(r: nat)
      requires Valid() && r < |slots| && slots[r].ref > 0 && !slots[r].locked
      modifies this, fs`blk, fs`ino
      ensures Valid() && |slots| == |old(slots)| && Plus(slots, old(slots), multiset{old(slots)[r].id})
      ensures forall k :: 0 <= k < |slots| ==>
        slots[k].locked == old(slots)[k].locked && (k != r ==> slots[k] == old(slots)[k])
      ensures slots[r].id == old(slots)[r].id && slots[r].ref == old(slots)[r].ref - 1
      ensures !LastOfUnlinked(old(slots), old(fs.ino), r) ==> fs.blk == old(fs.blk) && fs.ino == old(fs.ino)
      ensures LastOfUnlinked(old(slots), old(fs.ino), r) ==> !Live(fs.ino, slots[r].id.inum)
    {
      assert LiveOk(slots, fs.ino, r) && SlotOk(slots, r);
      var i := slots[r].id.inum;
      if slots[r].ref == 1 && slots[r].valid && fs.ino[i].nlink == 0 {
        ghost var ino0 := fs.ino;
        fs.IputFree(i);
        FreedOne(slots, ino0, r, fs.ino);
        slots := slots[r := slots[r].(valid := false)];
      }
      Gave(slots, fs.ino, r);
      slots := slots[r := slots[r].(ref := slots[r].ref - 1)];
    }
  }

  /** A slot's flags changed. */
  lemma FlagsKept(slots: seq<Slot>, ino: seq<Inode>, k: nat, x: Slot)
    requires CacheOk(slots) && AllLive(slots, ino) && k < |slots| && slots[k].ref > 0 && x.ref == slots[k].ref
    requires x.id == slots[k].id
    requires x.valid ==> Live(ino, x.id.inum)
    ensures CacheOk(slots[k := x]) && AllLive(slots[k := x], ino) && Plus(slots, slots[k := x], multiset{})
  {
    var t := slots[k := x];
    forall a, b | 0 <= a < b < |t| ensures !SameId(t, a, b) { assert !SameId(slots, a, b); }
    forall a | 0 <= a < |t| ensures SlotOk(t, a) && LiveOk(t, ino, a) {
      assert SlotOk(slots, a) && LiveOk(slots, ino, a);
    }
    forall i ensures Total(t, i) == Total(slots, i) { TotalPut(slots, k, x, i); }
  }

  /** The inode of slot k, and of no other slot, was freed. */
  lemma FreedOne(slots: seq<Slot>, ino: seq<Inode>, k: nat, ino': seq<Inode>)
    requires CacheOk(slots) && AllLive(slots, ino) && k < |slots| && slots[k].ref > 0
    requires slots[k].id.inum < |ino| == |ino'|
    requires forall j :: 0 <= j < |ino| && j != slots[k].id.inum ==> ino'[j] == ino[j]
    ensures CacheOk(slots[k := slots[k].(valid := false)]) && AllLive(slots[k := slots[k].(valid := false)], ino')
    ensures Plus(slots, slots[k := slots[k].(valid := false)], multiset{})
  {
    var t := slots[k := slots[k].(valid := false)];
    forall a, b | 0 <= a < b < |t| ensures !SameId(t, a, b) { assert !SameId(slots, a, b); }
    forall a | 0 <= a < |t| ensures SlotOk(t, a) && LiveOk(t, ino', a) {
      assert SlotOk(slots, a) && LiveOk(slots, ino, a) && SlotOk(slots, k);
      assert a < k ==> !SameId(slots, a, k);
      assert k < a ==> !SameId(slots, k, a);
    }
    forall i ensures Total(t, i) == Total(slots, i) { TotalPut(slots, k, t[k], i); }
  }

  /** A reference given back. */
  lemma Gave(slots: seq<Slot>, ino: seq<Inode>, k: nat)
    requires CacheOk(slots) && AllLive(slots, ino) && k < |slots| && slots[k].ref > 0 && !slots[k].locked
    ensures var t := slots[k := slots[k].(ref := slots[k].ref - 1)];
      CacheOk(t) && AllLive(t, ino) && Plus(t, slots, multiset{slots[k].id})
  {
    var t := slots[k := slots[k].(ref := slots[k].ref - 1)];
    forall a, b | 0 <= a < b < |t| ensures !SameId(t, a, b) { assert !SameId(slots, a, b); }
    forall a | 0 <= a < |t| ensures SlotOk(t, a) && LiveOk(t, ino, a) {
      assert SlotOk(slots, a) && LiveOk(slots, ino, a);
    }
    forall i ensures Total(slots, i) == Total(t, i) + multiset{slots[k].id}[i] { TotalPut(slots, k, t[k], i); }
  }

  /** A reference taken in slot k. */
  lemma Took(slots: seq<Slot>, ino: seq<Inode>, k: nat, x: Slot, id: Id)
    requires CacheOk(slots) && AllLive(slots, ino) && k < |slots| && id.dev == ROOTDEV
    requires (x.valid ==> slots[k].ref > 0 && slots[k].valid) && x.id == id && x.locked == slots[k].locked
    requires x.ref == slots[k].ref + 1
    requires slots[k].ref > 0 ==> slots[k].id == id
    requires slots[k].ref == 0 ==> forall a :: 0 <= a < |slots| && slots[a].ref > 0 ==> slots[a].id != id
    ensures CacheOk(slots[k := x]) && AllLive(slots[k := x], ino) && Plus(slots, slots[k := x], multiset{id})
  {
    var t := slots[k := x];
    forall a, b | 0 <= a < b < |t| ensures !SameId(t, a, b) { assert !SameId(slots, a, b); }
    forall a | 0 <= a < |t| ensures SlotOk(t, a) && LiveOk(t, ino, a) {
      assert SlotOk(slots, a) && LiveOk(slots, ino, a);
    }
    forall i ensures Total(t, i) == Total(slots, i) + multiset{id}[i] { TotalPut(slots, k, x, i); }
  }

  // ---- namex -------------------------------------------------------------------------------

  /** What namex is for: the inode a list of components leads to from i, or its parent directory. */
  ghost function Target(blk: seq<Block>, ino: seq<Inode>, i: nat, names: seq<seq<Byte>>, parent: bool): Option<nat>
    requires InodesOk(ino)
    decreases |names|
  {
    if names == [] then if parent then None else Some(i)
    else if i >= |ino| || ino[i].typ != T_DIR then None
    else if parent && |names| == 1 then Some(i)
    else
      var d := DirSpec.Dir(Content(blk, ino[i]));
      if names[0] !in d then None else Target(blk, ino, d[names[0]], names[1..], parent)
  }

  /** namei folds lookup over the components. */
  lemma {:induction false} TargetIsWalk(blk: seq<Block>, ino: seq<Inode>, i: nat, names: seq<seq<Byte>>)
    requires InodesOk(ino)
    ensures Target(blk, ino, i, names, false) == Walk(blk, ino, i, names)
    decreases |names|
  {
    if names != [] && i < |ino| && ino[i].typ == T_DIR {
      var d := DirSpec.Dir(Content(blk, ino[i]));
      if names[0] in d { TargetIsWalk(blk, ino, d[names[0]], names[1..]); }
    }
  }

  /** nameiparent folds it over all but the last, and wants a directory there. */
  lemma {:induction false} TargetIsParent(blk: seq<Block>, ino: seq<Inode>, i: nat, names: seq<seq<Byte>>)
    requires InodesOk(ino) && names != []
    ensures var w := Walk(blk, ino, i, names[..|names| - 1]);
      Target(blk, ino, i, names, true) == if w.Some? && w.value < |ino| && ino[w.value].typ == T_DIR then w else None
    decreases |names|
  {
    if |names| > 1 && i < |ino| && ino[i].typ == T_DIR {
      var d := DirSpec.Dir(Content(blk, ino[i]));
      assert names[..|names| - 1][1..] == names[1..][..|names[1..]| - 1];
      if names[0] in d { TargetIsParent(blk, ino, d[names[0]], names[1..]); }
    }
  }

  /** The state namex started from. */
  datatype Start = Start(slots: seq<Slot>, blk: seq<Block>, ino: seq<Inode>)

  /** Files as at the start, no lock held, and the given references more than at the start. */
  ghost predicate Balanced(c: Icache, s: Start, held: multiset<Id>)
    reads c, c.fs
  {
    c.Valid() && InodesOk(s.ino) && Unlocked(c.slots) && Plus(s.slots, c.slots, held)
      && Kept(s.blk, s.ino, c.fs.blk, c.fs.ino)
  }

  /** Those, and the process stands on slot ip. */
  ghost predicate On(c: Icache, s: Start, ip: nat)
    reads c, c.fs
  {
    ip < |c.slots| && c.slots[ip].ref > 0 && Balanced(c, s, multiset{c.slots[ip].id})
  }

  /** The ways in which the kernel gives up: every slot taken, a directory that does not hold whole
      entries, an entry for an inode that is not in use, a disk with no free block. */
  predicate AllTaken(slots: seq<Slot>) {
    forall k :: 0 <= k < |slots| ==> slots[k].ref > 0
  }

  predicate RaggedDir(ino: seq<Inode>) {
    exists j :: 0 <= j < |ino| && ino[j].typ == T_DIR && ino[j].size % ENT != 0
  }

  predicate Dangling(slots: seq<Slot>, ino: seq<Inode>) {
    exists k :: 0 <= k < |slots| && slots[k].ref > 0 && !Live(ino, slots[k].id.inum)
  }

  ghost predicate Excused(c: Icache, s: Start, code: int)
    reads c, c.fs
  {
    (code == PANIC ==> AllTaken(c.slots) || RaggedDir(s.ino))
    && (code == WILD ==> Dangling(c.slots, s.ino))
    && (code == STUCK ==> !HasFree(c.fs.sb, c.fs.blk))
  }

  /** Another reference keeps a directory on the way from being freed when it is put back. */
  lemma StaysAlive(c: Icache, s: Start, ip: nat, held: multiset<Id>)
    requires Balanced(c, s, held) && NoOrphans(s.slots, s.ino) && ip < |c.slots| && c.slots[ip].ref > 0
    requires held[c.slots[ip].id] > 0
    ensures !LastOfUnlinked(c.slots, c.fs.ino, ip)
  {
    var id := c.slots[ip].id;
    assert LiveOk(c.slots, c.fs.ino, ip) && SlotOk(c.slots, ip);
    TotalIsRef(c.slots, ip);
    assert Total(c.slots, id) == Total(s.slots, id) + held[id];
    if id.inum < |s.ino| { assert KeptOne(s.blk, s.ino, c.fs.blk, c.fs.ino, id.inum); }
  }

  method PutBack(c: Icache, ip: nat, ghost s: Start, ghost held: multiset<Id>)
    requires ip < |c.slots| && c.slots[ip].ref > 0 && NoOrphans(s.slots, s.ino)
    requires Balanced(c, s, held + multiset{c.slots[ip].id})
    modifies c, c.fs`blk, c.fs`ino
    ensures Balanced(c, s, held) && |c.slots| == |old(c.slots)|
    ensures forall k :: 0 <= k < |c.slots| && k != ip ==> c.slots[k] == old(c.slots)[k]
    ensures c.slots[ip].id == old(c.slots)[ip].id && c.slots[ip].ref == old(c.slots)[ip].ref - 1
  {
    StaysAlive(c, s, ip, held + multiset{c.slots[ip].id});
    ghost var before := c.slots;
    c.Iput(ip);
    forall id ensures Total(c.slots, id) == Total(s.slots, id) + held[id] {
      assert Total(before, id) == Total(c.slots, id) + multiset{before[ip].id}[id];
      assert Total(before, id) == Total(s.slots, id) + (held + multiset{before[ip].id})[id];
    }
  }

  /** ilock, and the check of the type. */
  method LockDir(c: Icache, ip: nat, ghost s: Start) returns (dir: bool)
    requires On(c, s, ip) && Live(c.fs.ino, c.slots[ip].id.inum)
    modifies c
    ensures c.Valid() && c.slots == old(c.slots)[ip := old(c.slots)[ip].(valid := true, locked := true)]
    ensures Plus(s.slots, c.slots, multiset{c.slots[ip].id})
    ensures dir <==> c.fs.ino[c.slots[ip].id.inum].typ == T_DIR
  {
    ghost var before := c.slots;
    c.Ilock(ip);
    dir := c.fs.ino[c.slots[ip].id.inum].typ == T_DIR;
    PlusTrans(s.slots, before, c.slots, multiset{c.slots[ip].id}, multiset{});
  }

  lemma PlusTrans(a: seq<Slot>, b: seq<Slot>, c: seq<Slot>, x: multiset<Id>, y: multiset<Id>)
    requires Plus(a, b, x) && Plus(b, c, y)
    ensures Plus(a, c, x + y)
    ensures y == multiset{} ==> Plus(a, c, x)
  {
    forall id ensures Total(c, id) == Total(a, id) + (x + y)[id] {
      assert Total(b, id) == Total(a, id) + x[id] && Total(c, id) == Total(b, id) + y[id];
    }
  }

  /** iunlock of the one lock held. */
  method UnlockDir(c: Icache, ip: nat, ghost s: Start, ghost held: multiset<Id>)
    requires c.Valid() && ip < |c.slots| && c.slots[ip].locked
    requires (forall k :: 0 <= k < |c.slots| && k != ip ==> !c.slots[k].locked)
    requires InodesOk(s.ino) && Plus(s.slots, c.slots, held) && Kept(s.blk, s.ino, c.fs.blk, c.fs.ino)
    modifies c
    ensures Balanced(c, s, held) && c.slots == old(c.slots)[ip := old(c.slots)[ip].(locked := false)]
  {
    ghost var before := c.slots;
    c.Iunlock(ip);
    PlusTrans(s.slots, before, c.slots, held, multiset{});
  }

  lemma AllLiveKept(slots: seq<Slot>, blk: seq<Block>, ino: seq<Inode>, blk': seq<Block>, ino': seq<Inode>)
    requires InodesOk(ino) && InodesOk(ino') && AllLive(slots, ino) && Kept(blk, ino, blk', ino')
    ensures AllLive(slots, ino')
  {
    forall k | 0 <= k < |slots| ensures LiveOk(slots, ino', k) {
      assert LiveOk(slots, ino, k);
      if slots[k].id.inum < |ino| { assert KeptOne(blk, ino, blk', ino', slots[k].id.inum); }
    }
  }

  /** dirlookup in the directory that ip has locked: the number found, or a code. */
  method LookIn(c: Icache, ip: nat, name: seq<Byte>, ghost s: Start) returns (r: int, inum: nat)
    requires c.Valid() && ip < |c.slots| && c.slots[ip].ref > 0 && c.slots[ip].valid && InodesOk(s.ino)
    requires Kept(s.blk, s.ino, c.fs.blk, c.fs.ino) && c.slots[ip].id.inum < |c.fs.ino|
    requires c.fs.ino[c.slots[ip].id.inum].typ == T_DIR
    modifies c.fs`blk, c.fs`ino
    ensures c.Valid() && c.slots == old(c.slots) && Kept(s.blk, s.ino, c.fs.blk, c.fs.ino)
    ensures r == PANIC || r == STUCK || r >= -1
    ensures c.slots[ip].id.inum < |s.ino| && s.ino[c.slots[ip].id.inum].typ == T_DIR
    ensures r >= -1 ==> Answer(Content(s.blk, s.ino[c.slots[ip].id.inum]), name, r, inum)
    ensures Excused(c, s, r)
  {
    var i := c.slots[ip].id.inum;
    assert KeptOne(s.blk, s.ino, c.fs.blk, c.fs.ino, i);
    ghost var blk1, ino1 := c.fs.blk, c.fs.ino;
    r, inum := Dirlookup(c.fs, i, name);
    KeptTrans(s.blk, s.ino, blk1, ino1, c.fs.blk, c.fs.ino);
    AllLiveKept(c.slots, blk1, ino1, c.fs.blk, c.fs.ino);
  }

  const MOVED: int := 1         // namex goes on at another inode
  const HERE: int := 2          // nameiparent stops at this one

  /** One turn of namex's loop, for the first of the names left. */
  method Turn(c: Icache, ip: nat, name: seq<Byte>, parent: bool, ghost names: seq<seq<Byte>>, last: bool,
              ghost s: Start)
    returns (code: int, q: nat)
    requires On(c, s, ip) && NoOrphans(s.slots, s.ino) && names != [] && Trunc(name) == names[0]
    requires (last <==> |names| == 1)
    modifies c, c.fs`blk, c.fs`ino
    ensures code in {MOVED, HERE, NULL, WILD, PANIC, STUCK} && Excused(c, s, code)
    ensures code == MOVED ==> On(c, s, q)
    ensures code == MOVED ==>
      Target(s.blk, s.ino, old(c.slots)[ip].id.inum, names, parent)
        == Target(s.blk, s.ino, c.slots[q].id.inum, names[1..], parent)
    ensures code == HERE ==> parent && last && q == ip && On(c, s, ip) && c.slots[ip].id == old(c.slots)[ip].id
    ensures code == HERE ==> Target(s.blk, s.ino, c.slots[ip].id.inum, names, parent) == Some(c.slots[ip].id.inum)
    ensures code == NULL ==>
      Balanced(c, s, multiset{}) && Target(s.blk, s.ino, old(c.slots)[ip].id.inum, names, parent) == None
  {
    var i := c.slots[ip].id.inum;
    q := ip;
    assert i < |s.ino| ==> KeptOne(s.blk, s.ino, c.fs.blk, c.fs.ino, i);
    if !(i < |c.fs.ino| && c.fs.ino[i].typ != 0) { return WILD, q; }
    var dir := LockDir(c, ip, s);
    if !dir {
      UnlockDir(c, ip, s, multiset{c.slots[ip].id});
      PutBack(c, ip, s, multiset{});
      return NULL, q;
    }
    if parent && last {
      UnlockDir(c, ip, s, multiset{c.slots[ip].id});
      return HERE, q;
    }
    code, q := Search(c, ip, name, parent, names, s);
  }

  /** The rest of a turn: look the name up in the locked directory and move on, or give up. */
  method Search(c: Icache, ip: nat, name: seq<Byte>, ghost parent: bool, ghost names: seq<seq<Byte>>, ghost s: Start)
    returns (code: int, q: nat)
    requires c.Valid() && ip < |c.slots| && c.slots[ip].ref > 0 && c.slots[ip].valid && c.slots[ip].locked
    requires NoOrphans(s.slots, s.ino)
    requires forall k :: 0 <= k < |c.slots| && k != ip ==> !c.slots[k].locked
    requires InodesOk(s.ino) && Plus(s.slots, c.slots, multiset{c.slots[ip].id})
    requires Kept(s.blk, s.ino, c.fs.blk, c.fs.ino)
    requires c.slots[ip].id.inum < |c.fs.ino| && c.fs.ino[c.slots[ip].id.inum].typ == T_DIR
    requires names != [] && Trunc(name) == names[0] && !(parent && |names| == 1)
    modifies c, c.fs`blk, c.fs`ino
    ensures code in {MOVED, NULL, PANIC, STUCK} && Excused(c, s, code)
    ensures code == MOVED ==> On(c, s, q)
    ensures code == MOVED ==>
      Target(s.blk, s.ino, old(c.slots)[ip].id.inum, names, parent)
        == Target(s.blk, s.ino, c.slots[q].id.inum, names[1..], parent)
    ensures code == NULL ==>
      Balanced(c, s, multiset{}) && Target(s.blk, s.ino, old(c.slots)[ip].id.inum, names, parent) == None
  {
    q := ip;
    ghost var i := c.slots[ip].id.inum;
    var r, inum := LookIn(c, ip, name, s);
    ghost var t := Target(s.blk, s.ino, i, names, parent);
    if r == PANIC || r == STUCK { return r, q; }
    if r < 0 {
      assert t == None;
      UnlockDir(c, ip, s, multiset{c.slots[ip].id});
      PutBack(c, ip, s, multiset{});
      return NULL, q;
    }
    assert t == Target(s.blk, s.ino, inum, names[1..], parent);
    var n := Follow(c, ip, inum, s);
    if n == PANIC { return PANIC, q; }
    return MOVED, n;
  }

  /** iget of the entry found, then iunlockput of the directory. */
  method Follow(c: Icache, ip: nat, inum: nat, ghost s: Start) returns (n: int)
    requires c.Valid() && ip < |c.slots| && c.slots[ip].ref > 0 && c.slots[ip].locked && NoOrphans(s.slots, s.ino)
    requires forall k :: 0 <= k < |c.slots| && k != ip ==> !c.slots[k].locked
    requires InodesOk(s.ino) && Plus(s.slots, c.slots, multiset{c.slots[ip].id})
    requires Kept(s.blk, s.ino, c.fs.blk, c.fs.ino)
    modifies c, c.fs`blk, c.fs`ino
    ensures n == PANIC || (n >= 0 && On(c, s, n) && c.slots[n].id == Id(ROOTDEV, inum))
    ensures n == PANIC ==> AllTaken(c.slots)
  {
    ghost var before := c.slots;
    ghost var here, there := c.slots[ip].id, Id(ROOTDEV, inum);
    n := c.Iget(Id(ROOTDEV, inum));
    if n == PANIC { return; }
    PlusTrans(s.slots, before, c.slots, multiset{here}, multiset{there});
    assert c.slots[ip].id == here;
    ghost var refs := c.slots[ip].ref;
    UnlockDir(c, ip, s, multiset{here} + multiset{there});
    assert multiset{here} + multiset{there} == multiset{there} + multiset{here};
    PutBack(c, ip, s, multiset{there});
  }

  /** namex. On every return no lock is held and the counts are those at the call, plus one for the
      inode returned, which is the one the components of the path lead to, or their parent directory;
      for the parent, `name` is the last component. */
  method Namex(c: Icache, path: seq<Byte>, parent: bool, cwd: nat) returns (r: int, name: seq<Byte>)
    requires c.Valid() && Unlocked(c.slots) && NoOrphans(c.slots, c.fs.ino) && cwd < |c.slots| && c.slots[cwd].ref > 0
    modifies c, c.fs`blk, c.fs`ino
    ensures r in {NULL, WILD, PANIC, STUCK} || 0 <= r < |c.slots|
    ensures Excused(c, old(Start(c.slots, c.fs.blk, c.fs.ino)), r)
    ensures r == NULL ==> Balanced(c, old(Start(c.slots, c.fs.blk, c.fs.ino)), multiset{})
    ensures r >= 0 ==> On(c, old(Start(c.slots, c.fs.blk, c.fs.ino)), r)
    ensures r >= 0 || r == NULL ==>
      Target(old(c.fs.blk), old(c.fs.ino), old(FirstInode(c.slots, path, cwd)), Elems(path), parent)
      == if r == NULL then None else Some(c.slots[r].id.inum)
    ensures parent && r >= 0 ==> Elems(path) != [] && Trunc(name) == Elems(path)[|Elems(path)| - 1]
  {
    ghost var s := Start(c.slots, c.fs.blk, c.fs.ino);
    ghost var start := FirstInode(c.slots, path, cwd);
    KeptSelf(c.fs.blk, c.fs.ino);
    name := [];
    var ip := Begin(c, path, cwd, s);
    if ip == PANIC { return PANIC, name; }
    var at: nat := 0;
    var more, next;
    more, name, next := SkipElem(path, at);
    assert path[0..] == path;
    while more
      invariant at <= |path| && 0 <= ip && On(c, s, ip) && (more <==> Elems(path[at..]) != [])
      invariant more ==> at < next <= |path| && Elems(path[at..]) == [Trunc(name)] + Elems(path[next..])
      invariant more ==> (Elems(path[next..]) == [] <==> next == |path|)
      invariant Ends(Elems(path), Elems(path[at..]))
      invariant Target(s.blk, s.ino, start, Elems(path), parent)
        == Target(s.blk, s.ino, c.slots[ip].id.inum, Elems(path[at..]), parent)
      decreases |path| - at, more
    {
      var code, q := Turn(c, ip, name, parent, Elems(path[at..]), next == |path|, s);
      if code == HERE { return ip, name; }
      if code != MOVED { return code, name; }
      assert Elems(path[at..])[1..] == Elems(path[next..]);
      EndsNext(Elems(path), Elems(path[at..]));
      ip, at := q, next;
      more, name, next := SkipElem(path, at);
    }
    if parent {
      PutBack(c, ip, s, multiset{});
      return NULL, name;
    }
    return ip, name;
  }

  predicate Ends(a: seq<seq<Byte>>, b: seq<seq<Byte>>) {
    |b| <= |a| && b == a[|a| - |b|..]
  }

  lemma EndsNext(a: seq<seq<Byte>>, b: seq<seq<Byte>>)
    requires Ends(a, b) && b != []
    ensures Ends(a, b[1..])
  {
  }

  function FirstInode(slots: seq<Slot>, path: seq<Byte>, cwd: nat): nat
    requires cwd < |slots|
  {
    if path != [] && path[0] == SLASH then ROOTINO else slots[cwd].id.inum
  }

  /** The root for a path that starts with a slash, else the current directory. */
  method Begin(c: Icache, path: seq<Byte>, cwd: nat, ghost s: Start) returns (ip: int)
    requires Balanced(c, s, multiset{}) && s == Start(c.slots, c.fs.blk, c.fs.ino) && cwd < |c.slots|
    requires c.slots[cwd].ref > 0
    modifies c
    ensures ip == PANIC || (ip >= 0 && On(c, s, ip) && c.slots[ip].id.inum == FirstInode(s.slots, path, cwd))
    ensures ip == PANIC ==> AllTaken(c.slots)
  {
    if path != [] && path[0] == SLASH {
      ip := c.Iget(Id(ROOTDEV, ROOTINO));
    } else {
      c.Idup(cwd);
      ip := cwd;
    }
  }
}
