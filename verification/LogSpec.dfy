/** The redo log of kern/log.c as a function of the disk: what each sector write of commit() and
    recover_from_log() leaves behind, what recovery makes of an image, and crash atomicity. */
module LogSpec {
  import opened Bytes

  const LOGSIZE: nat := 30

  type Disk = seq<Block>

  /** Where the log lives: the header sector `start`, then `size - 1` slots. */
  datatype Area = Area(start: nat, size: nat) {
    predicate Fits(d: Disk) {
      0 < size && start + size <= |d| < U32
    }

    predicate Holds(b: nat) {
      start <= b < start + size
    }

    /** Block numbers a header may name: on the disk, outside the log. */
    predicate Homes(d: Disk, bs: seq<nat>) {
      |bs| <= LOGSIZE && |bs| + 1 <= size && forall i :: 0 <= i < |bs| ==> bs[i] < |d| && !Holds(bs[i])
    }
  }

  /** A transaction: home block numbers and the contents they are to get, in header order. */
  datatype Txn = Txn(blocks: seq<nat>, data: seq<Block>)

  predicate TxnOk(a: Area, d: Disk, t: Txn) {
    a.Homes(d, t.blocks) && |t.data| == |t.blocks|
  }

  // ---- the header sector -------------------------------------------------------------------

  function HeadCount(b: Block): nat {
    Word(b, 0)
  }

  /** The block numbers a header sector names; a count above LOGSIZE is not a header. */
  function HeadBlocks(b: Block): (bs: seq<nat>)
    requires HeadCount(b) <= LOGSIZE
    ensures |bs| == HeadCount(b)
  {
    seq(HeadCount(b), i requires 0 <= i < HeadCount(b) => Word(b, 1 + i))
  }

  /** write_head's loop after `k` entries; later entries keep their stale words. */
  function PutEntries(b: Block, bs: seq<nat>, k: nat): (r: Block)
    requires k <= |bs| <= LOGSIZE && forall i :: 0 <= i < |bs| ==> bs[i] < U32
    ensures Word(r, 0) == Word(b, 0)
    ensures forall i :: 0 <= i < k ==> Word(r, 1 + i) == bs[i]
  {
    if k == 0 then b
    else
      var r := PutEntries(b, bs, k - 1);
      PutWordGet(r, k, bs[k - 1]);
      PutWord(r, k, bs[k - 1])
  }

  function PutHead(b: Block, bs: seq<nat>): (r: Block)
    requires |bs| <= LOGSIZE && forall i :: 0 <= i < |bs| ==> bs[i] < U32
    ensures HeadCount(r) == |bs| && HeadBlocks(r) == bs
  {
    PutWordGet(b, 0, |bs|);
    PutEntries(PutWord(b, 0, |bs|), bs, |bs|)
  }

  predicate HeaderOk(a: Area, d: Disk) {
    a.Fits(d) && HeadCount(d[a.start]) <= LOGSIZE && a.Homes(d, HeadBlocks(d[a.start]))
  }

  predicate Clean(a: Area, d: Disk) {
    a.Fits(d) && HeadCount(d[a.start]) == 0
  }

  // ---- images after each sector write ------------------------------------------------------

  /** The disk after the first `k` slots have been written by write_log. */
  function Logged(a: Area, d: Disk, t: Txn, k: nat): (r: Disk)
    requires a.Fits(d) && TxnOk(a, d, t) && k <= |t.blocks|
    ensures |r| == |d|
    ensures forall b :: 0 <= b < |d| ==>
      r[b] == if a.start < b <= a.start + k then t.data[b - a.start - 1] else d[b]
  {
    if k == 0 then d else Logged(a, d, t, k - 1)[a.start + k := t.data[k - 1]]
  }

  function WithHead(a: Area, d: Disk, bs: seq<nat>): (r: Disk)
    requires a.Fits(d) && a.Homes(d, bs)
    ensures |r| == |d| && HeadCount(r[a.start]) == |bs| && HeadBlocks(r[a.start]) == bs
    ensures forall b :: 0 <= b < |d| && b != a.start ==> r[b] == d[b]
  {
    d[a.start := PutHead(d[a.start], bs)]
  }

  /** The disk after install_trans has copied the first `k` slots to their homes. */
  function Installed(a: Area, d: Disk, bs: seq<nat>, k: nat): (r: Disk)
    requires a.Fits(d) && a.Homes(d, bs) && k <= |bs|
    ensures |r| == |d|
    ensures forall b :: 0 <= b < |d| && a.Holds(b) ==> r[b] == d[b]
  {
    if k == 0 then d
    else
      var r := Installed(a, d, bs, k - 1);
      r[bs[k - 1] := r[a.start + k]]
  }

  /** The disk after the first `k` sector writes of recover_from_log. */
  function RecoverImage(a: Area, d: Disk, k: nat): (r: Disk)
    requires HeaderOk(a, d) && k <= HeadCount(d[a.start]) + 1
    ensures |r| == |d|
  {
    var bs := HeadBlocks(d[a.start]);
    if k <= |bs| then Installed(a, d, bs, k) else WithHead(a, Installed(a, d, bs, |bs|), [])
  }

  function Recovered(a: Area, d: Disk): (r: Disk)
    requires HeaderOk(a, d)
    ensures Clean(a, r) && |r| == |d|
  {
    RecoverImage(a, d, HeadCount(d[a.start]) + 1)
  }

  function CommitWrites(t: Txn): nat {
    2 * |t.blocks| + 2
  }

  /** The disk after the first `k` sector writes of commit: slots, header, homes, cleared header. */
  function CommitImage(a: Area, d: Disk, t: Txn, k: nat): (r: Disk)
    requires a.Fits(d) && TxnOk(a, d, t) && k <= CommitWrites(t)
    ensures |r| == |d|
  {
    var n := |t.blocks|;
    if k <= n then Logged(a, d, t, k)
    else
      var h := WithHead(a, Logged(a, d, t, n), t.blocks);
      if k <= 2 * n + 1 then Installed(a, h, t.blocks, k - n - 1)
      else WithHead(a, Installed(a, h, t.blocks, n), [])
  }

  // The same images in the order they appear on the device, up to and including the k-th.

  function LoggedTo(a: Area, d: Disk, t: Txn, k: nat): (s: seq<Disk>)
    requires a.Fits(d) && TxnOk(a, d, t) && k <= |t.blocks|
    ensures |s| == k && forall i :: 0 <= i < k ==> s[i] == Logged(a, d, t, i + 1)
  {
    if k == 0 then [] else LoggedTo(a, d, t, k - 1) + [Logged(a, d, t, k)]
  }

  function InstalledTo(a: Area, d: Disk, bs: seq<nat>, k: nat): (s: seq<Disk>)
    requires a.Fits(d) && a.Homes(d, bs) && k <= |bs|
    ensures |s| == k && forall i :: 0 <= i < k ==> s[i] == Installed(a, d, bs, i + 1)
  {
    if k == 0 then [] else InstalledTo(a, d, bs, k - 1) + [Installed(a, d, bs, k)]
  }

  function RecoverImages(a: Area, d: Disk): (s: seq<Disk>)
    requires HeaderOk(a, d)
    ensures |s| == HeadCount(d[a.start]) + 1
    ensures forall i :: 0 <= i < |s| ==> s[i] == RecoverImage(a, d, i + 1)
  {
    var bs := HeadBlocks(d[a.start]);
    InstalledTo(a, d, bs, |bs|) + [WithHead(a, Installed(a, d, bs, |bs|), [])]
  }

  function CommitImages(a: Area, d: Disk, t: Txn): (s: seq<Disk>)
    requires a.Fits(d) && TxnOk(a, d, t)
    ensures |s| == CommitWrites(t)
  {
    var n := |t.blocks|;
    var h := WithHead(a, Logged(a, d, t, n), t.blocks);
    LoggedTo(a, d, t, n) + [h] + InstalledTo(a, h, t.blocks, n) + [WithHead(a, Installed(a, h, t.blocks, n), [])]
  }

  lemma CommitImagesAt(a: Area, d: Disk, t: Txn, k: nat)
    requires a.Fits(d) && TxnOk(a, d, t) && 0 < k <= CommitWrites(t)
    ensures CommitImages(a, d, t)[k - 1] == CommitImage(a, d, t, k)
  {
    var n := |t.blocks|;
    var h := WithHead(a, Logged(a, d, t, n), t.blocks);
    if k <= n {
      assert CommitImages(a, d, t)[k - 1] == LoggedTo(a, d, t, n)[k - 1];
    } else if n + 1 < k <= 2 * n + 1 {
      assert CommitImages(a, d, t)[k - 1] == InstalledTo(a, h, t.blocks, n)[k - n - 2];
    }
  }

  // ---- what a transaction means ------------------------------------------------------------

  /** The two disks agree on every block outside the log. */
  predicate SameHome(a: Area, d: Disk, e: Disk) {
    |d| == |e| && forall b :: 0 <= b < |d| && !a.Holds(b) ==> d[b] == e[b]
  }

  /** The whole transaction at once: later entries win. */
  function Apply(d: Disk, t: Txn, k: nat): (r: Disk)
    requires k <= |t.blocks| == |t.data| && forall i :: 0 <= i < |t.blocks| ==> t.blocks[i] < |d|
    ensures |r| == |d|
  {
    if k == 0 then d
    else Apply(d, t, k - 1)[t.blocks[k - 1] := t.data[k - 1]]
  }

  function After(d: Disk, t: Txn): Disk
    requires |t.blocks| == |t.data| && forall i :: 0 <= i < |t.blocks| ==> t.blocks[i] < |d|
  {
    Apply(d, t, |t.blocks|)
  }

  lemma {:induction false} ApplyIgnoresLog(a: Area, d: Disk, e: Disk, t: Txn, k: nat)
    requires TxnOk(a, d, t) && SameHome(a, d, e) && k <= |t.blocks|
    ensures SameHome(a, Apply(d, t, k), Apply(e, t, k))
  {
    if k > 0 { ApplyIgnoresLog(a, d, e, t, k - 1); }
  }

  // ---- crash atomicity ---------------------------------------------------------------------

  /** Installing slots that hold the transaction is applying the transaction. */
  lemma {:induction false} InstallApplies(a: Area, d: Disk, t: Txn, k: nat)
    requires a.Fits(d) && TxnOk(a, d, t) && k <= |t.blocks|
    requires forall i :: 0 <= i < |t.blocks| ==> d[a.start + 1 + i] == t.data[i]
    ensures Installed(a, d, t.blocks, k) == Apply(d, t, k)
  {
    if k > 0 {
      InstallApplies(a, d, t, k - 1);
      assert a.Holds(a.start + k);
      assert Installed(a, d, t.blocks, k - 1)[a.start + k] == d[a.start + k] == t.data[k - 1] by {
        assert d[a.start + 1 + (k - 1)] == t.data[k - 1];
      }
      assert Installed(a, d, t.blocks, k) == Installed(a, d, t.blocks, k - 1)[t.blocks[k - 1] := t.data[k - 1]];
      assert Apply(d, t, k) == Apply(d, t, k - 1)[t.blocks[k - 1] := t.data[k - 1]];
    }
  }

  /** Applying a prefix and then everything is applying everything: redo is idempotent. */
  lemma {:induction false} ApplyAgain(d: Disk, t: Txn, k: nat, m: nat)
    requires k <= m <= |t.blocks| == |t.data| && forall i :: 0 <= i < |t.blocks| ==> t.blocks[i] < |d|
    ensures Apply(Apply(d, t, k), t, m) == Apply(d, t, m)
  {
    ApplyTwice(d, t, k, m);
    assert Apply(Apply(d, t, k), t, m) == Apply(d, t, m);
  }

  /** Pointwise form: a block named among the first `m` entries depends only on those entries. */
  lemma {:induction false} ApplyTwice(d: Disk, t: Txn, k: nat, m: nat)
    requires k <= m <= |t.blocks| == |t.data| && forall i :: 0 <= i < |t.blocks| ==> t.blocks[i] < |d|
    ensures forall b :: 0 <= b < |d| ==> Apply(Apply(d, t, k), t, m)[b] == Apply(d, t, m)[b]
  {
    var e := Apply(d, t, k);
    ApplyNamed(d, e, t, m);
    ApplyUnnamed(d, t, k);
    ApplyUnnamed(d, t, m);
    ApplyUnnamed(e, t, m);
    forall b | 0 <= b < |d| ensures Apply(e, t, m)[b] == Apply(d, t, m)[b] {
      if b !in t.blocks[..m] {
        assert t.blocks[..m][..k] == t.blocks[..k];
        assert b !in t.blocks[..k];
      }
    }
  }

  lemma {:induction false} ApplyUnnamed(d: Disk, t: Txn, k: nat)
    requires k <= |t.blocks| == |t.data| && forall i :: 0 <= i < |t.blocks| ==> t.blocks[i] < |d|
    ensures forall b :: 0 <= b < |d| && b !in t.blocks[..k] ==> Apply(d, t, k)[b] == d[b]
  {
    if k > 0 {
      ApplyUnnamed(d, t, k - 1);
      assert t.blocks[..k] == t.blocks[..k - 1] + [t.blocks[k - 1]];
    }
  }

  lemma {:induction false} ApplyNamed(d: Disk, e: Disk, t: Txn, m: nat)
    requires m <= |t.blocks| == |t.data| && |d| == |e|
    requires forall i :: 0 <= i < |t.blocks| ==> t.blocks[i] < |d|
    ensures forall b :: b in t.blocks[..m] ==> Apply(d, t, m)[b] == Apply(e, t, m)[b]
  {
    if m > 0 {
      ApplyNamed(d, e, t, m - 1);
      assert t.blocks[..m] == t.blocks[..m - 1] + [t.blocks[m - 1]];
    }
  }

  /** The transaction a header-bearing image holds in its log. */
  function Pending(a: Area, d: Disk): (t: Txn)
    requires HeaderOk(a, d)
    ensures TxnOk(a, d, t)
  {
    var bs := HeadBlocks(d[a.start]);
    Txn(bs, seq(|bs|, i requires 0 <= i < |bs| => d[a.start + 1 + i]))
  }

  /** Recovery is the pending transaction, applied. */
  lemma RecoveredApplies(a: Area, d: Disk)
    requires HeaderOk(a, d)
    ensures SameHome(a, Recovered(a, d), After(d, Pending(a, d)))
  {
    var t := Pending(a, d);
    InstallApplies(a, d, t, |t.blocks|);
  }

  /** An image whose log holds `t` and whose homes are those of `d` with a prefix of `t` applied
      recovers to all of `t`. */
  lemma RedoCompletes(a: Area, d: Disk, t: Txn, e: Disk, k: nat)
    requires a.Fits(d) && TxnOk(a, d, t) && k <= |t.blocks|
    requires HeaderOk(a, e) && Pending(a, e) == t && SameHome(a, e, Apply(d, t, k))
    ensures SameHome(a, Recovered(a, e), After(d, t))
  {
    RecoveredApplies(a, e);
    ApplyIgnoresLog(a, e, Apply(d, t, k), t, |t.blocks|);
    ApplyAgain(d, t, k, |t.blocks|);
  }

  /** The image once the header has been written, before anything is installed. */
  lemma HeadWritten(a: Area, d: Disk, t: Txn) returns (h: Disk)
    requires a.Fits(d) && TxnOk(a, d, t)
    ensures h == WithHead(a, Logged(a, d, t, |t.blocks|), t.blocks)
    ensures HeaderOk(a, h) && Pending(a, h) == t && SameHome(a, h, d)
  {
    h := WithHead(a, Logged(a, d, t, |t.blocks|), t.blocks);
    assert Pending(a, h).data == t.data;
  }

  /** Installing the first `k` entries keeps the log and applies `k` entries to the homes. */
  lemma InstallKeeps(a: Area, h: Disk, k: nat)
    requires HeaderOk(a, h) && k <= |Pending(a, h).blocks|
    ensures HeaderOk(a, Installed(a, h, Pending(a, h).blocks, k))
    ensures Pending(a, Installed(a, h, Pending(a, h).blocks, k)) == Pending(a, h)
    ensures Installed(a, h, Pending(a, h).blocks, k) == Apply(h, Pending(a, h), k)
  {
    var t := Pending(a, h);
    InstallApplies(a, h, t, k);
    var e := Installed(a, h, t.blocks, k);
    assert a.Holds(a.start) && e[a.start] == h[a.start];
    forall i | 0 <= i < |t.blocks| ensures Pending(a, e).data[i] == t.data[i] {
      assert a.Holds(a.start + 1 + i);
    }
  }

  lemma CrashBeforeHead(a: Area, d: Disk, t: Txn, k: nat)
    requires Clean(a, d) && TxnOk(a, d, t) && k <= |t.blocks|
    ensures Clean(a, Logged(a, d, t, k))
    ensures SameHome(a, Recovered(a, Logged(a, d, t, k)), d)
  {
    var e := Logged(a, d, t, k);
    assert e[a.start] == d[a.start];
    RecoveredApplies(a, e);
  }

  lemma CrashInInstall(a: Area, d: Disk, t: Txn, k: nat)
    requires Clean(a, d) && TxnOk(a, d, t) && k <= |t.blocks|
    ensures HeaderOk(a, CommitImage(a, d, t, |t.blocks| + 1 + k))
    ensures SameHome(a, Recovered(a, CommitImage(a, d, t, |t.blocks| + 1 + k)), After(d, t))
  {
    var h := HeadWritten(a, d, t);
    var e := Installed(a, h, t.blocks, k);
    assert e == CommitImage(a, d, t, |t.blocks| + 1 + k);
    InstallKeeps(a, h, k);
    assert SameHome(a, e, Apply(d, t, k)) by { ApplyIgnoresLog(a, h, d, t, k); }
    RedoCompletes(a, d, t, e, k);
  }

  lemma CrashAfterCommit(a: Area, d: Disk, t: Txn)
    requires a.Fits(d) && TxnOk(a, d, t)
    ensures Clean(a, CommitImage(a, d, t, CommitWrites(t)))
    ensures SameHome(a, Recovered(a, CommitImage(a, d, t, CommitWrites(t))), After(d, t))
  {
    CommitCompletes(a, d, t);
    RecoveredApplies(a, CommitImage(a, d, t, CommitWrites(t)));
  }

  /** Crash atomicity. Cut commit after any number `k` of sector writes: recovery then leaves every
      home block as before the transaction when the header was not yet written (k <= n), and every
      home block as after it from the header write on. */
  lemma CrashAtomic(a: Area, d: Disk, t: Txn, k: nat)
    requires Clean(a, d) && TxnOk(a, d, t) && k <= CommitWrites(t)
    ensures HeaderOk(a, CommitImage(a, d, t, k))
    ensures SameHome(a, Recovered(a, CommitImage(a, d, t, k)), if k <= |t.blocks| then d else After(d, t))
  {
    if k <= |t.blocks| {
      assert CommitImage(a, d, t, k) == Logged(a, d, t, k);
      CrashBeforeHead(a, d, t, k);
    } else if k < CommitWrites(t) {
      var i := k - |t.blocks| - 1;
      CrashInInstall(a, d, t, i);
      assert |t.blocks| + 1 + i == k;
    } else {
      CrashAfterCommit(a, d, t);
    }
  }

  /** An uninterrupted commit applies the transaction. */
  lemma CommitCompletes(a: Area, d: Disk, t: Txn)
    requires a.Fits(d) && TxnOk(a, d, t)
    ensures SameHome(a, CommitImage(a, d, t, CommitWrites(t)), After(d, t))
  {
    var h := HeadWritten(a, d, t);
    InstallKeeps(a, h, |t.blocks|);
    ApplyIgnoresLog(a, h, d, t, |t.blocks|);
  }

  /** Recovery itself may be cut after any number of its own writes: recovering again gives the
      same home blocks. */
  lemma RecoveryRestarts(a: Area, d: Disk, k: nat)
    requires HeaderOk(a, d) && k <= HeadCount(d[a.start]) + 1
    ensures HeaderOk(a, RecoverImage(a, d, k))
    ensures SameHome(a, Recovered(a, RecoverImage(a, d, k)), Recovered(a, d))
  {
    var t := Pending(a, d);
    var e := RecoverImage(a, d, k);
    RecoveredApplies(a, d);
    if k <= |t.blocks| {
      InstallKeeps(a, d, k);
      RedoCompletes(a, d, t, e, k);
    } else {
      RecoveredApplies(a, e);
    }
  }

  /** Boot after a crash: recovery is interrupted after cuts[0] of its writes, then after cuts[1]
      of the next attempt's, and so on; the last attempt runs to its end. Cuts beyond the end of
      an attempt let that attempt finish. */
  function Reboot(a: Area, d: Disk, cuts: seq<nat>): (r: Disk)
    requires HeaderOk(a, d)
    ensures Clean(a, r) && |r| == |d|
    decreases |cuts|
  {
    if cuts == [] then Recovered(a, d)
    else
      var k := if cuts[0] <= HeadCount(d[a.start]) then cuts[0] else HeadCount(d[a.start]) + 1;
      RecoveryRestarts(a, d, k);
      Reboot(a, RecoverImage(a, d, k), cuts[1..])
  }

  /** Any number of crashes during recovery gives the result of one uninterrupted recovery. */
  lemma {:induction false} RebootIsRecovery(a: Area, d: Disk, cuts: seq<nat>)
    requires HeaderOk(a, d)
    ensures SameHome(a, Reboot(a, d, cuts), Recovered(a, d))
    decreases |cuts|
  {
    if cuts != [] {
      var k := if cuts[0] <= HeadCount(d[a.start]) then cuts[0] else HeadCount(d[a.start]) + 1;
      RecoveryRestarts(a, d, k);
      RebootIsRecovery(a, RecoverImage(a, d, k), cuts[1..]);
    }
  }

  // ---- whole runs --------------------------------------------------------------------------

  /** One commit of a run: it either completes, or power fails after `cut` sector writes and the
      machine reboots, with further failures during recovery. */
  datatype Commit = Done(txn: Txn) | Crashed(txn: Txn, cut: nat, cuts: seq<nat>)

  predicate CommitOk(a: Area, d: Disk, c: Commit) {
    TxnOk(a, d, c.txn) && (c.Crashed? ==> c.cut <= CommitWrites(c.txn))
  }

  /** A commit is durable when it completes or its header sector reached the disk. */
  predicate Durable(c: Commit) {
    c.Done? || c.cut > |c.txn.blocks|
  }

  function RunOne(a: Area, d: Disk, c: Commit): (r: Disk)
    requires Clean(a, d) && CommitOk(a, d, c)
    ensures |r| == |d| && Clean(a, r)
  {
    match c
    case Done(t) => CommitImage(a, d, t, CommitWrites(t))
    case Crashed(t, k, cuts) => CrashAtomic(a, d, t, k); Reboot(a, CommitImage(a, d, t, k), cuts)
  }

  function Run(a: Area, d: Disk, cs: seq<Commit>): (r: Disk)
    requires Clean(a, d) && forall c :: c in cs ==> CommitOk(a, d, c)
    ensures |r| == |d| && Clean(a, r)
  {
    if cs == [] then d
    else
      assert CommitOk(a, d, cs[|cs| - 1]);
      RunOne(a, Run(a, d, cs[..|cs| - 1]), cs[|cs| - 1])
  }

  /** The specification of a run: durable transactions happen whole and in order, others never. */
  function Ideal(a: Area, d: Disk, cs: seq<Commit>): (r: Disk)
    requires forall c :: c in cs ==> CommitOk(a, d, c)
    ensures |r| == |d|
  {
    if cs == [] then d
    else
      var e := Ideal(a, d, cs[..|cs| - 1]);
      var c := cs[|cs| - 1];
      assert CommitOk(a, d, c);
      if Durable(c) then After(e, c.txn) else e
  }

  lemma RunOneAtomic(a: Area, d: Disk, c: Commit)
    requires Clean(a, d) && CommitOk(a, d, c)
    ensures SameHome(a, RunOne(a, d, c), if Durable(c) then After(d, c.txn) else d)
  {
    match c
    case Done(t) =>
      CommitCompletes(a, d, t);
    case Crashed(t, k, cuts) =>
      CrashAtomic(a, d, t, k);
      RebootIsRecovery(a, CommitImage(a, d, t, k), cuts);
  }

  /** Over every run of commits and crashes, the home blocks are exactly those of the durable
      transactions applied in order. */
  lemma {:induction false} RunIsIdeal(a: Area, d: Disk, cs: seq<Commit>)
    requires Clean(a, d) && forall c :: c in cs ==> CommitOk(a, d, c)
    ensures SameHome(a, Run(a, d, cs), Ideal(a, d, cs))
  {
    if cs != [] {
      var front, c := cs[..|cs| - 1], cs[|cs| - 1];
      assert CommitOk(a, d, c);
      RunIsIdeal(a, d, front);
      RunOneAtomic(a, Run(a, d, front), c);
      ApplyIgnoresLog(a, Run(a, d, front), Ideal(a, d, front), c.txn, |c.txn.blocks|);
    }
  }
}
