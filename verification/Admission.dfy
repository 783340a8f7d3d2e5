/** begin_op and end_op of kern/log.c over any number of processes. Each step below runs under
    log.lock (or, for the commit itself, while `committing` keeps everyone else out). */
module Admission {
  import opened LogSpec
  import Log

  datatype Proc =
    | Outside
    | Inside(recorded: nat)     // between begin_op and end_op, with so many new header entries
    | Committing                // end_op took the last operation out and is in commit()
    | Committed                 // commit() has returned, `committing` is not yet cleared

  datatype State = State(n: nat, outstanding: int, committing: bool, procs: seq<Proc>)

  datatype Step = BeginOp(p: nat) | Record(p: nat) | EndOp(p: nat) | CommitDone(p: nat) | EndCommit(p: nat)

  /** begin_op's two tests are its guard; a process that fails them sleeps and retries. Record is
      a log_write that adds a header entry, as it is documented, at most MAXOPBLOCKS per operation. */
  predicate Enabled(s: State, e: Step) {
    && e.p < |s.procs|
    && match e
       case BeginOp(p) =>
         && s.procs[p] == Outside && !s.committing
         && s.n + (s.outstanding + 1) * Log.MAXOPBLOCKS <= LOGSIZE
       case Record(p) => s.procs[p].Inside? && s.procs[p].recorded < Log.MAXOPBLOCKS
       case EndOp(p) => s.procs[p].Inside?
       case CommitDone(p) => s.procs[p] == Committing
       case EndCommit(p) => s.procs[p] == Committed
  }

  function Next(s: State, e: Step): State
    requires Enabled(s, e)
  {
    match e
    case BeginOp(p) => s.(outstanding := s.outstanding + 1, procs := s.procs[p := Inside(0)])
    case Record(p) => s.(n := s.n + 1, procs := s.procs[p := Inside(s.procs[p].recorded + 1)])
    case EndOp(p) =>
      var left := s.outstanding - 1;
      if left == 0
      then s.(outstanding := left, committing := true, procs := s.procs[p := Committing])
      else s.(outstanding := left, procs := s.procs[p := Outside])
    case CommitDone(p) => s.(n := 0, procs := s.procs[p := Committed])
    case EndCommit(p) => s.(committing := false, procs := s.procs[p := Outside])
  }

  function Active(procs: seq<Proc>): (k: nat)
  {
    if procs == [] then 0 else Active(procs[1..]) + if procs[0].Inside? then 1 else 0
  }

  /** Header entries that the operations in progress may still add. */
  function Room(procs: seq<Proc>): int {
    if procs == [] then 0
    else Room(procs[1..]) + if procs[0].Inside? then Log.MAXOPBLOCKS - procs[0].recorded else 0
  }

  predicate InCommit(p: Proc) {
    p.Committing? || p.Committed?
  }

  ghost predicate Inv(s: State) {
    && s.outstanding == Active(s.procs)
    && (forall p :: 0 <= p < |s.procs| && s.procs[p].Inside? ==> s.procs[p].recorded <= Log.MAXOPBLOCKS)
    && (forall p, q :: 0 <= p < q < |s.procs| ==> !(InCommit(s.procs[p]) && InCommit(s.procs[q])))
    && (s.committing <==> exists p :: 0 <= p < |s.procs| && InCommit(s.procs[p]))
    && (s.committing ==> s.outstanding == 0)
    && s.n + Room(s.procs) <= LOGSIZE
    && (forall p :: 0 <= p < |s.procs| && s.procs[p].Committed? ==> s.n == 0)
    && (!s.committing && s.outstanding == 0 ==> s.n == 0)
  }

  lemma {:induction false} Update(procs: seq<Proc>, p: nat, x: Proc)
    requires p < |procs|
    ensures Active(procs[p := x]) == Active(procs) - (if procs[p].Inside? then 1 else 0) + (if x.Inside? then 1 else 0)
    ensures Room(procs[p := x]) == Room(procs)
      - (if procs[p].Inside? then Log.MAXOPBLOCKS - procs[p].recorded else 0)
      + (if x.Inside? then Log.MAXOPBLOCKS - x.recorded else 0)
  {
    if p == 0 {
      assert procs[0 := x][1..] == procs[1..];
    } else {
      Update(procs[1..], p - 1, x);
      assert procs[p := x][1..] == procs[1..][p - 1 := x];
    }
  }

  lemma {:induction false} RoomBounds(procs: seq<Proc>)
    requires forall p :: 0 <= p < |procs| && procs[p].Inside? ==> procs[p].recorded <= Log.MAXOPBLOCKS
    ensures 0 <= Room(procs) <= Active(procs) * Log.MAXOPBLOCKS
    ensures forall p :: 0 <= p < |procs| && procs[p].Inside? ==> Active(procs) > 0
  {
    if procs != [] {
      RoomBounds(procs[1..]);
      assert forall p :: 0 < p < |procs| ==> procs[p] == procs[1..][p - 1];
    }
  }

  lemma {:induction false} ActiveZero(procs: seq<Proc>)
    requires Active(procs) == 0
    ensures forall p :: 0 <= p < |procs| ==> !procs[p].Inside?
  {
    if procs != [] {
      ActiveZero(procs[1..]);
      assert forall p :: 0 < p < |procs| ==> procs[p] == procs[1..][p - 1];
    }
  }

  lemma StepKeeps(s: State, e: Step)
    requires Inv(s) && Enabled(s, e)
    ensures Inv(Next(s, e))
  {
    var t := Next(s, e);
    Update(s.procs, e.p, t.procs[e.p]);
    RoomBounds(s.procs);
    RoomBounds(t.procs) by {
      assert forall q :: 0 <= q < |t.procs| && q != e.p ==> t.procs[q] == s.procs[q];
    }
    if e.EndOp? && t.committing {
      assert InCommit(t.procs[e.p]);
    }
    if e.CommitDone? {
      assert InCommit(s.procs[e.p]) && InCommit(t.procs[e.p]);
    }
    if e.EndCommit? {
      assert InCommit(s.procs[e.p]);
    }
    if (e.BeginOp? || e.Record? || e.EndOp?) && s.committing {
      ActiveZero(s.procs);
    }
  }

  ghost predicate Runs(s: State, es: seq<Step>, t: State)
    decreases |es|
  {
    if es == [] then s == t
    else Enabled(s, es[0]) && Runs(Next(s, es[0]), es[1..], t)
  }

  function Boot(procs: nat): State {
    State(0, 0, false, seq(procs, _ => Outside))
  }

  lemma {:induction false} BootInv(k: nat)
    ensures Active(seq(k, _ => Outside)) == 0 && Room(seq(k, _ => Outside)) == 0
  {
    if k > 0 {
      BootInv(k - 1);
      assert seq<Proc>(k, _ => Outside)[1..] == seq<Proc>(k - 1, _ => Outside);
    }
  }

  lemma {:induction false} RunKeeps(s: State, es: seq<Step>, t: State)
    requires Inv(s) && Runs(s, es, t)
    ensures Inv(t)
    decreases |es|
  {
    if es != [] {
      StepKeeps(s, es[0]);
      RunKeeps(Next(s, es[0]), es[1..], t);
    }
  }

  /** In every reachable state: while a commit is in progress no operation is and one process
      commits; no operation runs beside a commit; and the header never overflows. */
  lemma Admission(k: nat, es: seq<Step>, t: State)
    requires Runs(Boot(k), es, t)
    ensures t.n <= LOGSIZE
    ensures t.committing ==> t.outstanding == 0
    ensures t.committing <==> exists p :: 0 <= p < |t.procs| && InCommit(t.procs[p])
    ensures forall p, q :: 0 <= p < |t.procs| && 0 <= q < |t.procs| && InCommit(t.procs[p]) ==>
      (InCommit(t.procs[q]) ==> p == q) && !t.procs[q].Inside?
  {
    BootInv(k);
    RunKeeps(Boot(k), es, t);
    RoomBounds(t.procs);
    if t.committing { ActiveZero(t.procs); }
  }

  // ---- every entry is committed ------------------------------------------------------------

  /** In every reachable state with no operation in progress and no commit, nothing is left in the header. */
  lemma NothingLeft(k: nat, es: seq<Step>, t: State)
    requires Runs(Boot(k), es, t) && !t.committing && t.outstanding == 0
    ensures t.n == 0
  {
    BootInv(k);
    RunKeeps(Boot(k), es, t);
  }

  /** The process that takes the last operation out commits, at once and as the only one; nobody else
      ever comes to commit. What it leaves behind is an empty header. */
  lemma LastCommits(k: nat, es: seq<Step>, s: State, e: Step)
    requires Runs(Boot(k), es, s) && Enabled(s, e)
    ensures var t := Next(s, e);
      && (s.outstanding == 1 && t.outstanding == 0 <==> t.committing && !s.committing)
      && (t.committing && !s.committing ==> e == EndOp(e.p) && t.procs[e.p] == Committing && t.n == s.n)
      && (forall p :: 0 <= p < |s.procs| ==> (InCommit(t.procs[p]) && !InCommit(s.procs[p]) <==>
            p == e.p && t.committing && !s.committing))
      && (s.committing && !t.committing ==> InCommit(s.procs[e.p]) && !InCommit(t.procs[e.p]) && t.n == 0)
  {
    var t := Next(s, e);
    BootInv(k);
    RunKeeps(Boot(k), es, s);
    RoomBounds(s.procs);
    StepKeeps(s, e);
    if s.committing { ActiveZero(s.procs); }
    if e.EndCommit? { assert InCommit(s.procs[e.p]); }
  }

  function Records(es: seq<Step>): nat
  {
    if es == [] then 0 else (if es[0].Record? then 1 else 0) + Records(es[1..])
  }

  /** How many entries the commits in a run found in the header. */
  ghost function CommittedBy(s: State, es: seq<Step>, t: State): nat
    requires Runs(s, es, t) && Inv(s)
    decreases |es|
  {
    if es == [] then 0
    else
      StepKeeps(s, es[0]);
      (if es[0].CommitDone? then s.n else 0) + CommittedBy(Next(s, es[0]), es[1..], t)
  }

  /** Over every run, each entry recorded was committed or is still in the header. */
  lemma {:induction false} EntriesConserved(s: State, es: seq<Step>, t: State)
    requires Runs(s, es, t) && Inv(s)
    ensures s.n + Records(es) == t.n + CommittedBy(s, es, t)
    decreases |es|
  {
    if es != [] {
      StepKeeps(s, es[0]);
      EntriesConserved(Next(s, es[0]), es[1..], t);
    }
  }

  /** When all operations have ended and no commit is in progress, every entry recorded was committed. */
  lemma AllCommitted(k: nat, es: seq<Step>, t: State)
    requires Runs(Boot(k), es, t) && !t.committing && t.outstanding == 0
    ensures Inv(Boot(k)) && Records(es) == CommittedBy(Boot(k), es, t)
  {
    BootInv(k);
    NothingLeft(k, es, t);
    EntriesConserved(Boot(k), es, t);
  }

  function Left(procs: seq<Proc>): nat {
    if procs == [] then 0 else Left(procs[1..]) + StepsOf(procs[0])
  }

  function StepsOf(p: Proc): nat {
    match p
    case Outside => 0
    case Inside(_) => 3
    case Committing => 2
    case Committed => 1
  }

  lemma {:induction false} LeftPut(procs: seq<Proc>, p: nat, x: Proc)
    requires p < |procs| && procs[p] != Outside
    requires x == Outside || (procs[p].Inside? && x == Committing) || (procs[p] == Committing && x == Committed)
    ensures Left(procs[p := x]) < Left(procs)
    decreases |procs|
  {
    if p == 0 {
      assert procs[0 := x][1..] == procs[1..];
    } else {
      LeftPut(procs[1..], p - 1, x);
      assert procs[p := x][1..] == procs[1..][p - 1 := x];
    }
  }

  /** From every state of the invariant, the operations in progress can all end and the commit be finished;
      then nothing is left in the header. */
  lemma {:induction false} CanEnd(s: State) returns (es: seq<Step>, t: State)
    requires Inv(s)
    ensures Runs(s, es, t) && t.n == 0 && !t.committing && t.outstanding == 0
    ensures forall p :: 0 <= p < |t.procs| ==> t.procs[p] == Outside
    decreases Left(s.procs)
  {
    if p :| 0 <= p < |s.procs| && s.procs[p] != Outside {
      var e := if s.procs[p] == Committing then CommitDone(p)
               else if s.procs[p] == Committed then EndCommit(p) else EndOp(p);
      var u := Next(s, e);
      StepKeeps(s, e);
      assert u.procs == s.procs[p := u.procs[p]];
      LeftPut(s.procs, p, u.procs[p]);
      es, t := CanEnd(u);
      assert ([e] + es)[1..] == es;
      es := [e] + es;
    } else {
      es, t := [], s;
      NoneActive(s.procs);
    }
  }

  lemma {:induction false} NoneActive(procs: seq<Proc>)
    requires forall p :: 0 <= p < |procs| ==> procs[p] == Outside
    ensures Active(procs) == 0
  {
    if procs != [] { NoneActive(procs[1..]); }
  }

  // ---- the bound is reached ----------------------------------------------------------------

  lemma {:induction false} RunsAppend(s: State, es: seq<Step>, m: State, fs: seq<Step>, t: State)
    requires Runs(s, es, m) && Runs(m, fs, t)
    ensures Runs(s, es + fs, t)
    decreases |es|
  {
    if es == [] {
      assert es + fs == fs;
    } else {
      RunsAppend(Next(s, es[0]), es[1..], m, fs, t);
      assert (es + fs)[1..] == es[1..] + fs;
    }
  }

  lemma {:induction false} RecordMany(s: State, p: nat, j: nat) returns (es: seq<Step>, t: State)
    requires p < |s.procs| && s.procs[p].Inside? && s.procs[p].recorded + j <= Log.MAXOPBLOCKS
    ensures Runs(s, es, t)
    ensures t == s.(n := s.n + j, procs := s.procs[p := Inside(s.procs[p].recorded + j)])
    decreases j
  {
    if j == 0 {
      es, t := [], s;
      assert s.procs[p := Inside(s.procs[p].recorded)] == s.procs;
    } else {
      es, t := RecordMany(Next(s, Record(p)), p, j - 1);
      es := [Record(p)] + es;
    }
  }

  /** With log_write as it is documented, LOGSIZE entries are admitted: three operations of MAXOPBLOCKS
      blocks each. Together with SlotsFitIff this is a transaction that a log of LOGSIZE sectors cannot
      hold. As coded, log_write adds no entry (Log.CodedRecordsNothing), so Record is not a step of the
      code and its header stays empty. */
  lemma FullLogReachable() returns (es: seq<Step>, t: State)
    ensures Runs(Boot(3), es, t) && t.n == LOGSIZE
    ensures forall a: Area :: a.size == LOGSIZE ==> !(forall i :: 0 <= i < t.n ==> a.Holds(Log.Slot(a, i)))
  {
    var s0 := Boot(3);
    var bs := [BeginOp(0), BeginOp(1), BeginOp(2)];
    var s1 := Next(s0, bs[0]);
    var s2 := Next(s1, bs[1]);
    var s3 := Next(s2, bs[2]);
    assert Runs(s0, bs, s3) by {
      assert bs[1..] == [BeginOp(1), BeginOp(2)] && bs[1..][1..] == [BeginOp(2)] && bs[1..][1..][1..] == [];
      assert Runs(s3, [], s3);
      assert Runs(s2, [BeginOp(2)], s3);
      assert Runs(s1, [BeginOp(1), BeginOp(2)], s3);
    }
    var e0, t0 := RecordMany(s3, 0, 10);
    var e1, t1 := RecordMany(t0, 1, 10);
    var e2, t2 := RecordMany(t1, 2, 10);
    RunsAppend(s0, bs, s3, e0, t0);
    RunsAppend(s0, bs + e0, t0, e1, t1);
    RunsAppend(s0, bs + e0 + e1, t1, e2, t2);
    es, t := bs + e0 + e1 + e2, t2;
    forall a: Area | a.size == LOGSIZE ensures !(forall i :: 0 <= i < t.n ==> a.Holds(Log.Slot(a, i))) {
      Log.SlotsFitIff(a, t.n);
    }
  }
}
