/** kern/log.c itself: the in-memory header, the loops of commit and recovery, and log_write, both as
    it is documented and as it is coded. */
module Log {
  import opened Common
  import opened Bytes
  import opened LogSpec

  const MAXOPBLOCKS: nat := 10

  /** Filling the log slots does not change what the home blocks hold. */
  lemma GatherKept(a: Area, d: Disk, t: Txn)
    requires a.Fits(d) && TxnOk(a, d, t)
    ensures Gather(Logged(a, d, t, |t.blocks|), t.blocks) == Gather(d, t.blocks)
  {
    assert forall i :: 0 <= i < |t.blocks| ==> !a.Holds(t.blocks[i]);
  }

  /** The log over a buffer cache. `view[b]` is what bread(b) returns, `disk[b]` what the device
      holds; a crash forgets `view`. `images` records the device after every sector write. */
  class Logger {
    const area: Area
    var n: nat
    var block: array<nat>
    var view: Disk
    var disk: Disk
    ghost var images: seq<Disk>

    ghost predicate Valid()
      reads this, block
    {
      && block.Length == LOGSIZE && |view| == |disk| && area.Fits(disk)
      && n <= LOGSIZE && area.Homes(disk, block[..n])
      && SameLog(area, view, disk)
    }

    /** The transaction the in-memory header stands for: the cached contents of its blocks. */
    ghost function Current(): (t: Txn)
      requires Valid()
      reads this, block
      ensures TxnOk(area, disk, t) && t.blocks == block[..n]
    {
      Txn(block[..n], Gather(view, block[..n]))
    }

    /** bwrite: the sector write that commit and recovery are made of. */
    method Bwrite(b: nat, data: Block)
      requires b < |disk| == |view|
      modifies this`view, this`disk, this`images
      ensures view == old(view)[b := data] && disk == old(disk)[b := data]
      ensures images == old(images) + [disk]
    {
      view := view[b := data];
      disk := disk[b := data];
      images := images + [disk];
    }

    method WriteLog()
      requires Valid()
      modifies this`view, this`disk, this`images
      ensures Valid() && Current() == old(Current())
      ensures disk == Logged(area, old(disk), old(Current()), n)
      ensures view == Logged(area, old(view), old(Current()), n)
      ensures images == old(images) + LoggedTo(area, old(disk), old(Current()), n)
    {
      ghost var t := Current();
      for i := 0 to n
        invariant |view| == |disk| == |old(disk)|
        invariant view == Logged(area, old(view), t, i)
        invariant disk == Logged(area, old(disk), t, i)
        invariant images == old(images) + LoggedTo(area, old(disk), t, i)
      {
        assert t.blocks[i] == block[i] && !area.Holds(block[i]);
        var x := view[block[i]];
        Bwrite(area.start + i + 1, x);
      }
      GatherKept(area, old(view), t);
    }

    method WriteHead()
      requires Valid()
      modifies this`view, this`disk, this`images
      ensures Valid()
      ensures disk == WithHead(area, old(disk), block[..n]) && images == old(images) + [disk]
      ensures view == WithHead(area, old(view), block[..n])
    {
      var hb := view[area.start];
      ghost var bs := block[..n];
      PutWordGet(hb, 0, n);
      hb := PutWord(hb, 0, n);
      ghost var h0 := hb;
      for i := 0 to n
        invariant hb == PutEntries(h0, bs, i)
      {
        hb := PutWord(hb, 1 + i, block[i]);
      }
      Bwrite(area.start, hb);
    }

    method InstallTrans()
      requires Valid()
      modifies this`view, this`disk, this`images
      ensures Valid()
      ensures disk == Installed(area, old(disk), block[..n], n)
      ensures view == Installed(area, old(view), block[..n], n)
      ensures images == old(images) + InstalledTo(area, old(disk), block[..n], n)
    {
      ghost var bs := block[..n];
      for i := 0 to n
        invariant |view| == |disk| == |old(disk)|
        invariant view == Installed(area, old(view), bs, i) && disk == Installed(area, old(disk), bs, i)
        invariant images == old(images) + InstalledTo(area, old(disk), bs, i)
      {
        assert bs[i] == block[i] && area.Holds(area.start + 1 + i);
        var x := view[area.start + 1 + i];
        Bwrite(block[i], x);
      }
    }

    /** read_head trusts the sector: a count it cannot hold is what the source does not check. */
    method ReadHead()
      requires Valid() && HeaderOk(area, disk)
      modifies this`n, block
      ensures Valid() && block[..n] == HeadBlocks(disk[area.start])
    {
      var hb := view[area.start];
      n := 0;
      var count := HeadCount(hb);
      for i := 0 to count
        invariant block.Length == LOGSIZE && n == 0
        invariant block[..i] == HeadBlocks(hb)[..i]
      {
        block[i] := Word(hb, 1 + i);
      }
      n := count;
      assert block[..n] == HeadBlocks(hb);
    }

    /** commit: the cached contents of the recorded blocks reach their homes, through exactly the
        images CommitImage lists, so CrashAtomic speaks of every point where power may fail. */
    method Commit()
      requires Valid() && Clean(area, disk)
      modifies this`n, this`view, this`disk, this`images
      ensures Valid() && n == 0 && Clean(area, disk)
      ensures SameHome(area, disk, After(old(disk), old(Current())))
      ensures SameHome(area, view, old(view))
      ensures images == old(images) + CommitImages(area, old(disk), old(Current()))
    {
      ghost var t, d, v := Current(), disk, view;
      WriteLog();
      WriteHead();
      InstallTrans();
      n := 0;
      assert block[..n] == [];
      WriteHead();
      CommitEnds(area, d, v, t);
      Regroup(old(images), LoggedTo(area, d, t, |t.blocks|), CommitImage(area, d, t, |t.blocks| + 1),
              InstalledTo(area, CommitImage(area, d, t, |t.blocks| + 1), t.blocks, |t.blocks|), disk);
    }

    /** recover_from_log, started with nothing cached. */
    method Recover()
      requires Valid() && view == disk && HeaderOk(area, disk)
      modifies this`n, this`view, this`disk, this`images, block
      ensures Valid() && n == 0 && view == disk && Clean(area, disk)
      ensures disk == Recovered(area, old(disk))
      ensures images == old(images) + RecoverImages(area, old(disk))
    {
      ReadHead();
      InstallTrans();
      n := 0;
      assert block[..n] == [];
      WriteHead();
    }

    /** log_write as coded: the test `p != -1` appends a block that is already recorded. */
    method LogWrite(b: nat)
      requires Valid() && b < |disk| && !area.Holds(b)
      requires b in block[..n] ==> n < LOGSIZE && n + 2 <= area.size
      modifies this`n, block
      ensures Valid() && block[..n] == LogWriteCoded(old(block[..n]), b)
    {
      var p := -1;
      var i := 0;
      while i < n
        invariant 0 <= i <= n && p == -1 && b !in block[..i]
      {
        if block[i] == b {
          p := i;
          break;
        }
        i := i + 1;
      }
      if p != -1 {
        assert b in block[..n];
        block[n] := b;
        n := n + 1;
      }
    }
  }

  function Gather(view: Disk, bs: seq<nat>): (data: seq<Block>)
    requires forall i :: 0 <= i < |bs| ==> bs[i] < |view|
    ensures |data| == |bs| && forall i :: 0 <= i < |bs| ==> data[i] == view[bs[i]]
  {
    seq(|bs|, i requires 0 <= i < |bs| => view[bs[i]])
  }

  predicate SameLog(a: Area, d: Disk, e: Disk) {
    |d| == |e| && forall b :: 0 <= b < |d| && a.Holds(b) ==> d[b] == e[b]
  }

  /** The last image of a commit, from the device's side and from the cache's. */
  lemma CommitEnds(a: Area, d: Disk, v: Disk, t: Txn)
    requires a.Fits(d) && |v| == |d| && TxnOk(a, d, t) && t.data == Gather(v, t.blocks)
    ensures SameHome(a, CommitImage(a, d, t, CommitWrites(t)), After(d, t))
    ensures SameHome(a, CommitImage(a, v, t, CommitWrites(t)), v)
  {
    CommitCompletes(a, d, t);
    CommitCompletes(a, v, t);
    NamedAfter(t, v);
  }

  lemma Regroup(s: seq<Disk>, l: seq<Disk>, h: Disk, i: seq<Disk>, c: Disk)
    ensures s + l + [h] + i + [c] == s + (l + [h] + i + [c])
  {
  }

  /** A transaction made of a view's own contents changes nothing of that view. */
  lemma {:induction false} NamedAfter(t: Txn, view: Disk)
    requires forall i :: 0 <= i < |t.blocks| ==> t.blocks[i] < |view|
    requires t.data == Gather(view, t.blocks)
    ensures After(view, t) == view
  {
    NamedAfterPrefix(t, view, |t.blocks|);
  }

  lemma {:induction false} NamedAfterPrefix(t: Txn, view: Disk, k: nat)
    requires k <= |t.blocks| && forall i :: 0 <= i < |t.blocks| ==> t.blocks[i] < |view|
    requires t.data == Gather(view, t.blocks)
    ensures Apply(view, t, k) == view
  {
    if k > 0 {
      NamedAfterPrefix(t, view, k - 1);
    }
  }

  // ---- log_write: what is coded and what its comment asks for ------------------------------

  function LogWriteCoded(bs: seq<nat>, b: nat): seq<nat> {
    if b in bs then bs + [b] else bs
  }

  /** "Record the block number": once per block. */
  function LogWriteMeant(bs: seq<nat>, b: nat): seq<nat> {
    if b in bs then bs else bs + [b]
  }

  function CodedAll(bs: seq<nat>, ws: seq<nat>): seq<nat> {
    if ws == [] then bs else LogWriteCoded(CodedAll(bs, ws[..|ws| - 1]), ws[|ws| - 1])
  }

  function MeantAll(bs: seq<nat>, ws: seq<nat>): seq<nat> {
    if ws == [] then bs else LogWriteMeant(MeantAll(bs, ws[..|ws| - 1]), ws[|ws| - 1])
  }

  /** The documented behaviour: exactly the written blocks are added, each once. */
  lemma {:induction false} MeantRecords(bs: seq<nat>, ws: seq<nat>)
    requires NoDup(bs)
    ensures NoDup(MeantAll(bs, ws))
    ensures forall b :: b in MeantAll(bs, ws) <==> b in bs || b in ws
    ensures |MeantAll(bs, ws)| <= |bs| + |ws|
  {
    if ws != [] {
      var front, w := ws[..|ws| - 1], ws[|ws| - 1];
      MeantRecords(bs, front);
      assert ws == front + [w];
    }
  }

  /** As coded, no sequence of log_writes ever records a block that was not recorded before: a
      block is recorded after them if and only if it was before. */
  lemma {:induction false} CodedRecordsNothing(bs: seq<nat>, ws: seq<nat>)
    ensures forall b :: b in CodedAll(bs, ws) <==> b in bs
    ensures bs == [] ==> CodedAll(bs, ws) == []
    ensures (forall w :: w in ws ==> w in bs) ==> |CodedAll(bs, ws)| == |bs| + |ws|
  {
    if ws != [] {
      var front, w := ws[..|ws| - 1], ws[|ws| - 1];
      CodedRecordsNothing(bs, front);
      assert ws == front + [w];
    }
  }

  /** So the code does what its comment says on no call at all. */
  lemma CodedIsMeantIff(bs: seq<nat>, ws: seq<nat>)
    requires NoDup(bs)
    ensures CodedAll(bs, ws) == MeantAll(bs, ws) <==> ws == []
  {
    CodedRecordsNothing(bs, ws);
    MeantRecords(bs, ws);
    if ws != [] && forall w :: w in ws ==> w in bs {
      MeantAbsorbs(bs, ws);
      assert |CodedAll(bs, ws)| != |MeantAll(bs, ws)|;
    } else if ws != [] {
      var w :| w in ws && w !in bs;
      assert w in MeantAll(bs, ws) && w !in CodedAll(bs, ws);
    }
  }

  lemma {:induction false} MeantAbsorbs(bs: seq<nat>, ws: seq<nat>)
    requires forall w :: w in ws ==> w in bs
    ensures MeantAll(bs, ws) == bs
  {
    if ws != [] {
      MeantAbsorbs(bs, ws[..|ws| - 1]);
    }
  }

  /** The smallest witness: block 7 is written through the log and the header stays empty, so the
      commit that follows changes no home block. */
  lemma CodedLosesUpdate(a: Area, d: Disk)
    requires Clean(a, d)
    ensures CodedAll([], [7]) == [] && MeantAll([], [7]) == [7]
    ensures a.Homes(d, CodedAll([], [7]))
    ensures SameHome(a, CommitImage(a, d, Txn(CodedAll([], [7]), []), 2), d)
  {
    CodedRecordsNothing([], [7]);
    assert [7][..0] == [];
    assert MeantAll([], [7]) == LogWriteMeant(MeantAll([], []), 7);
  }

  // ---- the slots and the area --------------------------------------------------------------

  /** write_log's last slot lies inside the log if and only if n + 1 <= size: with a log of
      LOGSIZE sectors, as mkfs reserves, a full transaction of LOGSIZE blocks runs one sector past
      the end, into the first inode sector. */
  lemma SlotsFitIff(a: Area, n: nat)
    requires 0 < a.size
    ensures (forall i :: 0 <= i < n ==> a.Holds(Slot(a, i))) <==> n + 1 <= a.size
    ensures a.size == LOGSIZE ==> Slot(a, LOGSIZE - 1) == a.start + a.size
  {
    if n + 1 > a.size {
      assert !a.Holds(Slot(a, n - 1));
    }
  }

  function Slot(a: Area, i: nat): nat {
    a.start + i + 1
  }
}
