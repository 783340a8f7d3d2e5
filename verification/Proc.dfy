/** Safety of kern/proc.c over every interleaving of its locked sections: who is on which list, who is
    served first, and who reaps whom. */
module Proc {
  import opened Common
  import opened ProcSpec

  datatype Event =
    | DoYield(c: nat)
    | DoSleep(c: nat, chan: nat)
    | DoWakeup(chan: nat)               // by any process or interrupt handler
    | DoExit(c: nat)
    | DoWait(c: nat)
    | ForkAlloc(c: nat)
    | ForkLink(c: nat)                  // `child->parent = par`, without the lock
    | ForkPublish(c: nat)
    | DoUserInit(loop: bool)
    | DoPick(c: nat)                    // scheduler, up to swtch
    | Resume(c: nat)                    // the picked process, up to releasing the lock

  function PcOf(s: State, c: nat): Pc
    requires OnCpu(s, c)
  {
    s.procs[Cur(s, c)].pc
  }

  predicate Enabled(s: State, e: Event)
    requires Prios(s)
  {
    match e
    case DoYield(c) => s.lock.None? && OnCpu(s, c) && PcOf(s, c) != Waiting
    case DoSleep(c, _) => s.lock.None? && OnCpu(s, c) && PcOf(s, c) == Free
    case DoWakeup(_) => s.lock.None?
    case DoExit(c) => s.lock.None? && OnCpu(s, c) && PcOf(s, c) == Free
    case DoWait(c) => s.lock.None? && OnCpu(s, c) && PcOf(s, c) == Free
    case ForkAlloc(c) => s.lock.None? && OnCpu(s, c) && PcOf(s, c) == Free && FirstUnused(s, 0).Some?
    case ForkLink(c) =>
      s.lock != Some(c) && OnCpu(s, c) && PcOf(s, c).Forking? && !PcOf(s, c).linked && PcOf(s, c).child < |s.procs|
    case ForkPublish(c) =>
      s.lock.None? && OnCpu(s, c) && PcOf(s, c).Forking? && PcOf(s, c).linked && PcOf(s, c).child < |s.procs|
    case DoUserInit(loop) => s.lock.None? && FirstUnused(s, 0).Some? && (!loop ==> s.init.None?)
    case DoPick(c) =>
      s.lock.None? && c < |s.cpus| && s.cpus[c].None? && Top(s, PRIOENTRIES).Some?
      && s.prioque[Top(s, PRIOENTRIES).value][0] < |s.procs|
    case Resume(c) => s.lock == Some(c) && OnCpu(s, c)
  }

  function Apply(s: State, e: Event): State
    requires Prios(s) && Enabled(s, e)
  {
    match e
    case DoYield(c) => Yield(s, c)
    case DoSleep(c, chan) => Sleep(s, c, chan)
    case DoWakeup(chan) => Wake(s, chan, 0)
    case DoExit(c) => Exit(s, c)
    case DoWait(c) => Wait(s, c)
    case ForkAlloc(c) =>
      var j := FirstUnused(s, 0).value;
      SetPc(Alloc(s, j), Cur(s, c), Forking(j, false))
    case ForkLink(c) =>
      var j := PcOf(s, c).child;
      SetPc(Put(s, j, s.procs[j].(parent := Some(Cur(s, c)))), Cur(s, c), Forking(j, true))
    case ForkPublish(c) => Publish(s, Cur(s, c), PcOf(s, c).child)
    case DoUserInit(loop) => UserInit(s, FirstUnused(s, 0).value, loop)
    case DoPick(c) => Pick(s, c)
    case Resume(c) => if PcOf(s, c) == Waiting then Wait(s.(lock := None), c) else s.(lock := None)
  }

  // ---- the invariant -----------------------------------------------------------------------

  predicate Live(p: Proc) {
    p.state == Sleeping || p.state == Runnable || p.state == Running
  }

  /** A parent is live, or is init; a slot not in use has none. */
  predicate ParentOk(s: State, i: nat)
    requires i < |s.procs|
  {
    var p := s.procs[i].parent;
    (s.procs[i].state == Unused ==> p.None?)
    && (p.Some? ==> p.value < |s.procs| && p.value != i && (Live(s.procs[p.value]) || s.init == p))
  }

  /** init has no parent, and its slot stays in use. */
  predicate InitOk(s: State) {
    s.init.None?
    || (s.init.value < |s.procs| && s.procs[s.init.value].parent.None?
        && (Live(s.procs[s.init.value]) || s.procs[s.init.value].state == Zombie))
  }

  predicate Parents(s: State) {
    InitOk(s) && forall i :: 0 <= i < |s.procs| ==> ParentOk(s, i)
  }

  /** A fork under way has an Embryo of its own, linked or not yet. */
  predicate ForkOk(s: State, i: nat)
    requires i < |s.procs|
  {
    var p := s.procs[i];
    (!Live(p) ==> p.pc == Free)
    && (!p.pc.Forking?
        || (p.pc.child < |s.procs| && s.procs[p.pc.child].state == Embryo
            && s.procs[p.pc.child].parent == if p.pc.linked then Some(i) else None))
  }

  predicate SameChild(s: State, i: nat, j: nat)
    requires i < |s.procs| && j < |s.procs|
  {
    s.procs[i].pc.Forking? && s.procs[j].pc.Forking? && s.procs[i].pc.child == s.procs[j].pc.child
  }

  predicate Forks(s: State) {
    (forall i :: 0 <= i < |s.procs| ==> ForkOk(s, i))
    && forall i, j :: 0 <= i < j < |s.procs| ==> !SameChild(s, i, j)
  }

  predicate AsleepInWait(p: Proc) {
    p.state == Sleeping && p.pc == Waiting
  }

  /** i sleeps in wait although its child j is a Zombie. */
  predicate Missed(s: State, i: nat, j: nat)
    requires i < |s.procs| && j < |s.procs|
  {
    AsleepInWait(s.procs[i]) && s.procs[j].parent == Some(i) && s.procs[j].state == Zombie
  }

  predicate WaitOk(s: State, i: nat)
    requires i < |s.procs|
  {
    AsleepInWait(s.procs[i]) ==> s.procs[i].chan == Addr(s, i)
  }

  predicate Waits(s: State) {
    (forall i, j :: 0 <= i < |s.procs| && 0 <= j < |s.procs| ==> !Missed(s, i, j))
    && forall i :: 0 <= i < |s.procs| ==> WaitOk(s, i)
  }

  predicate PidOk(s: State, i: nat)
    requires i < |s.procs|
  {
    s.procs[i].state != Unused ==> 0 < s.procs[i].pid < s.nextpid && s.procs[i].pid !in s.reaped
  }

  predicate SamePid(s: State, i: nat, j: nat)
    requires i < |s.procs| && j < |s.procs|
  {
    s.procs[i].state != Unused && s.procs[j].state != Unused && s.procs[i].pid == s.procs[j].pid
  }

  /** Every pid given out belongs to exactly one slot or was returned by wait exactly once. */
  predicate Pids(s: State) {
    s.nextpid > 0
    && (forall i :: 0 <= i < |s.procs| ==> PidOk(s, i))
    && (forall i, j :: 0 <= i < j < |s.procs| ==> !SamePid(s, i, j))
    && NoDup(s.reaped)
    && (forall a :: 0 <= a < |s.reaped| ==> 0 < s.reaped[a] < s.nextpid)
    && (forall n :: 0 < n < s.nextpid ==> n in s.reaped || HasPid(s, n))
  }

  predicate HasPid(s: State, n: nat) {
    exists i :: 0 <= i < |s.procs| && s.procs[i].state != Unused && s.procs[i].pid == n
  }

  predicate Kin(s: State) {
    Parents(s) && Forks(s) && Waits(s) && Pids(s)
  }

  ghost predicate Inv(s: State) {
    Lists(s, -1) && Kin(s)
  }

  // ---- changes within the live states ------------------------------------------------------

  /** Live processes moved between Sleeping, Runnable and Running; none fell asleep in wait. */
  predicate Moved(s: State, t: State) {
    |t.procs| == |s.procs| && SameRest(s, t) && forall i :: 0 <= i < |s.procs| ==> MovedProc(s.procs[i], t.procs[i])
  }

  predicate MovedProc(p: Proc, q: Proc) {
    q.pid == p.pid && q.parent == p.parent && q.pc == p.pc && (q.state == p.state || (Live(p) && Live(q)))
    && (AsleepInWait(q) ==> AsleepInWait(p) && q.chan == p.chan)
  }

  lemma MovedKeeps(s: State, t: State)
    requires Kin(s) && Moved(s, t)
    ensures Kin(t)
  {
    MovedParents(s, t);
    MovedForks(s, t);
    MovedWaits(s, t);
    PidsField(s, t);
  }

  lemma MovedWaits(s: State, t: State)
    requires Waits(s) && Moved(s, t)
    ensures Waits(t)
  {
    forall i | 0 <= i < |t.procs| ensures WaitOk(t, i) { assert WaitOk(s, i); }
    forall i, j | 0 <= i < |t.procs| && 0 <= j < |t.procs| ensures !Missed(t, i, j) {
      assert !Missed(s, i, j);
      assert MovedProc(s.procs[i], t.procs[i]) && MovedProc(s.procs[j], t.procs[j]);
    }
  }

  lemma MovedParents(s: State, t: State)
    requires Parents(s) && Moved(s, t)
    ensures Parents(t)
  {
    forall i | 0 <= i < |t.procs| ensures ParentOk(t, i) { assert ParentOk(s, i); }
  }

  lemma MovedForks(s: State, t: State)
    requires Forks(s) && Moved(s, t)
    ensures Forks(t)
  {
    forall i | 0 <= i < |t.procs| ensures ForkOk(t, i) { assert ForkOk(s, i); }
    forall i, j | 0 <= i < j < |t.procs| ensures !SameChild(t, i, j) { assert !SameChild(s, i, j); }
  }

  lemma PidsField(s: State, t: State)
    requires Pids(s) && |t.procs| == |s.procs| && t.nextpid == s.nextpid && t.reaped == s.reaped
    requires forall i :: 0 <= i < |s.procs| ==>
      t.procs[i].pid == s.procs[i].pid && (t.procs[i].state == Unused <==> s.procs[i].state == Unused)
    ensures Pids(t)
  {
    forall i | 0 <= i < |t.procs| ensures PidOk(t, i) { assert PidOk(s, i); }
    forall i, j | 0 <= i < j < |t.procs| ensures !SamePid(t, i, j) { assert !SamePid(s, i, j); }
    forall n | 0 < n < t.nextpid && n !in t.reaped ensures HasPid(t, n) {
      var i :| 0 <= i < |s.procs| && s.procs[i].state != Unused && s.procs[i].pid == n;
      assert t.procs[i].pid == n;
    }
  }

  lemma YieldKeeps(s: State, c: nat, t: State)
    requires Inv(s) && OnCpu(s, c) && t == Yield(s, c)
    ensures Inv(t) && Pushed(s, t)
  {
    var p := s.procs[Cur(s, c)].(state := Runnable);
    LeaveCpu(s, c, p, t);
    assert MovedProc(s.procs[Cur(s, c)], p);
    MovedKeeps(s, t);
  }

  lemma SleepKeeps(s: State, c: nat, chan: nat, t: State)
    requires Inv(s) && OnCpu(s, c) && PcOf(s, c) != Waiting && t == Sleep(s, c, chan)
    ensures Inv(t) && Pushed(s, t)
  {
    var p := s.procs[Cur(s, c)].(state := Sleeping, chan := chan);
    LeaveCpu(s, c, p, t);
    assert MovedProc(s.procs[Cur(s, c)], p);
    MovedKeeps(s, t);
  }

  lemma WokenMoved(s: State, t: State, chan: nat)
    requires Woken(s, t, chan)
    ensures Moved(s, t)
  {
    forall i | 0 <= i < |s.procs| ensures MovedProc(s.procs[i], t.procs[i]) {
      assert t.procs[i] == if SleepsOn(s, i, chan) then s.procs[i].(state := Runnable, chan := 0) else s.procs[i];
    }
  }

  lemma WakeKeeps(s: State, chan: nat, t: State)
    requires Inv(s) && t == Wake(s, chan, 0)
    ensures Inv(t) && Pushed(s, t) && Woken(s, t, chan) && NobodyOn(t, chan)
  {
    WakeWakes(s, chan, t);
    WokenMoved(s, t, chan);
    MovedKeeps(s, t);
  }

  lemma PickKeeps(s: State, c: nat, t: State)
    requires Inv(s) && Enabled(s, DoPick(c)) && t == Pick(s, c)
    ensures Inv(t)
  {
    var k := Top(s, PRIOENTRIES).value;
    PickFront(s, k);
    PickLists(s, c, k, t);
    PickMoved(s, c, k, t);
    MovedKeeps(s, t);
  }

  lemma PickMoved(s: State, c: nat, k: nat, t: State)
    requires Sized(s) && c < |s.cpus| && Top(s, PRIOENTRIES) == Some(k) && s.prioque[k][0] < |s.procs|
    requires t == Pick(s, c)
    requires s.procs[s.prioque[k][0]].state == Runnable
    ensures Moved(s, t)
  {
    PickShape(s, c, k, t);
  }

  // ---- exit --------------------------------------------------------------------------------

  /** A child of i goes to init; init's wait may be wrong until it is woken. */
  predicate Adopting(s: State, i: nat, k: nat, t: State) {
    i < |s.procs| && s.procs[i].pc == Free && k < |s.procs| && s.procs[k].parent == Some(i)
    && t == Put(s, k, s.procs[k].(parent := s.init))
  }

  lemma AdoptForks(s: State, i: nat, k: nat, u: State, t: State)
    requires Forks(s) && Adopting(s, i, k, u) && Moved(u, t)
    ensures Forks(t)
  {
    forall j | 0 <= j < |u.procs| ensures ForkOk(u, j) { assert ForkOk(s, j); }
    forall a, b | 0 <= a < b < |u.procs| ensures !SameChild(u, a, b) { assert !SameChild(s, a, b); }
    MovedForks(u, t);
  }

  lemma AdoptParents(s: State, i: nat, k: nat, u: State, t: State)
    requires Parents(s) && Adopting(s, i, k, u) && Moved(u, t)
    ensures Parents(t)
  {
    assert ParentOk(s, k);
    forall j | 0 <= j < |u.procs| ensures ParentOk(u, j) { assert ParentOk(s, j); }
    MovedParents(u, t);
  }

  lemma AdoptPids(s: State, i: nat, k: nat, u: State, t: State)
    requires Pids(s) && Adopting(s, i, k, u) && Moved(u, t)
    ensures Pids(t)
  {
    PidsField(s, u);
    PidsField(u, t);
  }

  lemma AdoptLists(s: State, i: nat, k: nat, t: State)
    requires Lists(s, -1) && Adopting(s, i, k, t)
    ensures Lists(t, -1)
  {
    FieldsKeep(s, t);
  }

  /** The waits once init has been woken for a Zombie. */
  lemma AdoptWaits(s: State, i: nat, k: nat, u: State, t: State)
    requires Waits(s) && Adopting(s, i, k, u) && Moved(u, t)
    requires s.procs[k].state == Zombie ==> NobodyOn(t, ChanOf(s, s.init))
    ensures Waits(t)
  {
    forall a | 0 <= a < |t.procs| ensures WaitOk(t, a) { assert WaitOk(s, a); }
    forall a, b | 0 <= a < |t.procs| && 0 <= b < |t.procs| ensures !Missed(t, a, b) {
      assert MovedProc(u.procs[a], t.procs[a]) && MovedProc(u.procs[b], t.procs[b]);
      assert !Missed(s, a, b) && WaitOk(t, a);
      assert s.procs[k].state == Zombie ==> !SleepsOn(t, a, ChanOf(s, s.init));
    }
  }

  lemma MovedSelf(s: State)
    ensures Moved(s, s)
  {
  }

  lemma AdoptKin(s: State, i: nat, k: nat, u: State, t: State)
    requires Kin(s) && Adopting(s, i, k, u) && Moved(u, t)
    requires s.procs[k].state == Zombie ==> NobodyOn(t, ChanOf(s, s.init))
    ensures Kin(t)
  {
    AdoptForks(s, i, k, u, t);
    AdoptParents(s, i, k, u, t);
    AdoptPids(s, i, k, u, t);
    AdoptWaits(s, i, k, u, t);
  }

  lemma AdoptOneKeeps(s: State, i: nat, k: nat, t: State)
    requires Inv(s) && i < |s.procs| && s.procs[i].pc == Free && k < |s.procs| && t == AdoptOne(s, i, k)
    ensures Inv(t) && Pushed(s, t)
  {
    if s.procs[k].parent == Some(i) {
      var u := Put(s, k, s.procs[k].(parent := s.init));
      AdoptLists(s, i, k, u);
      if s.procs[k].state == Zombie {
        WakeWakes(u, ChanOf(s, s.init), t);
        WokenMoved(u, t, ChanOf(s, s.init));
      } else {
        MovedSelf(u);
      }
      AdoptKin(s, i, k, u, t);
    }
  }

  /** Only sleepers changed state, and they woke up. */
  predicate Calm(s: State, t: State) {
    |t.procs| == |s.procs| && t.cpus == s.cpus && t.lock == s.lock && SameRest(s, t)
    && forall j :: 0 <= j < |s.procs| ==> t.procs[j].pc == s.procs[j].pc && CalmProc(s.procs[j], t.procs[j])
  }

  predicate CalmProc(p: Proc, q: Proc) {
    (q.state == p.state && q.chan == p.chan) || (p.state == Sleeping && q.state == Runnable)
  }

  /** After k turns of exit's loop, the first k slots have no child of i, except where i is init. */
  predicate AdoptedTo(s: State, t: State, i: nat, k: nat) {
    Calm(s, t)
    && forall j :: 0 <= j < |s.procs| ==>
      t.procs[j].parent == if j < k && s.procs[j].parent == Some(i) then s.init else s.procs[j].parent
  }

  lemma AdoptOneDoes(s: State, u: State, i: nat, k: nat, t: State)
    requires k < |s.procs| && AdoptedTo(s, u, i, k) && Lists(u, -1) && t == AdoptOne(u, i, k)
    ensures AdoptedTo(s, t, i, k + 1)
  {
    if u.procs[k].parent == Some(i) {
      var v := Put(u, k, u.procs[k].(parent := u.init));
      assert AdoptedTo(s, v, i, k + 1);
      if u.procs[k].state == Zombie {
        FieldsKeep(u, v);
        WakeWakes(v, ChanOf(u, u.init), t);
        WokenCalm(s, v, t, i, k + 1, ChanOf(u, u.init));
      }
    }
  }

  lemma WokenCalm(s: State, v: State, t: State, i: nat, k: nat, chan: nat)
    requires AdoptedTo(s, v, i, k) && Woken(v, t, chan)
    ensures AdoptedTo(s, t, i, k)
  {
    forall j | 0 <= j < |s.procs|
      ensures t.procs[j].pc == s.procs[j].pc && CalmProc(s.procs[j], t.procs[j])
      ensures t.procs[j].parent == v.procs[j].parent
    {
      assert t.procs[j] == if SleepsOn(v, j, chan) then v.procs[j].(state := Runnable, chan := 0) else v.procs[j];
      assert CalmProc(s.procs[j], v.procs[j]);
    }
  }

  lemma PushedTrans(s: State, u: State, t: State)
    requires Pushed(s, u) && Pushed(u, t)
    ensures Pushed(s, t)
  {
  }

  lemma {:induction false} AdoptLoop(s: State, i: nat, k: nat, t: State)
    requires Inv(s) && i < |s.procs| && s.procs[i].pc == Free && k <= |s.procs| && t == Adopt(s, i, k)
    ensures Inv(t) && AdoptedTo(s, t, i, k)
    decreases k
  {
    if k > 0 {
      var u := Adopt(s, i, k - 1);
      AdoptLoop(s, i, k - 1, u);
      AdoptStep(s, u, i, k - 1, k, t);
    } else {
      AdoptedNone(s, i);
    }
  }

  lemma AdoptedNone(s: State, i: nat)
    ensures AdoptedTo(s, s, i, 0)
  {
  }

  lemma AdoptStep(s: State, u: State, i: nat, k: nat, n: nat, t: State)
    requires i < |s.procs| && s.procs[i].pc == Free && n == k + 1 <= |s.procs| && Inv(u) && AdoptedTo(s, u, i, k)
    requires t == AdoptOne(u, i, k)
    ensures Inv(t) && AdoptedTo(s, t, i, n)
  {
    AdoptOneDoes(s, u, i, k, t);
    assert u.procs[i].pc == s.procs[i].pc;
    AdoptOneKeeps(u, i, k, t);
  }

  lemma {:induction false} AdoptPushed(s: State, i: nat, k: nat, t: State)
    requires Inv(s) && i < |s.procs| && s.procs[i].pc == Free && k <= |s.procs| && t == Adopt(s, i, k)
    ensures Pushed(s, t)
    decreases k
  {
    if k > 0 {
      var u := Adopt(s, i, k - 1);
      AdoptPushed(s, i, k - 1, u);
      AdoptLoop(s, i, k - 1, u);
      assert u.procs[i].pc == s.procs[i].pc;
      AdoptOneKeeps(u, i, k - 1, t);
      PushedTrans(s, u, t);
    }
  }

  lemma AdoptKeeps(s: State, i: nat, t: State)
    requires Inv(s) && i < |s.procs| && s.procs[i].pc == Free && t == Adopt(s, i, |s.procs|)
    ensures Inv(t) && Pushed(s, t) && AdoptedTo(s, t, i, |s.procs|)
  {
    AdoptLoop(s, i, |s.procs|, t);
    AdoptPushed(s, i, |s.procs|, t);
  }

  /** exit's last step: a running process without children and with its parent awake becomes a Zombie. */
  lemma ZombieLists(s: State, c: nat, t: State)
    requires Lists(s, -1) && OnCpu(s, c) && t == Put(OffCpu(s, c), Cur(s, c), s.procs[Cur(s, c)].(state := Zombie))
    ensures Lists(t, -1)
  {
    OffCpuKeeps(s, c);
    PutKeeps(OffCpu(s, c), Cur(s, c), s.procs[Cur(s, c)].(state := Zombie));
  }

  lemma ZombieKin(s: State, i: nat, t: State)
    requires Kin(s) && i < |s.procs| && s.procs[i].state == Running && s.procs[i].pc == Free
    requires SameRest(s, t) && t.procs == s.procs[i := s.procs[i].(state := Zombie)]
    requires forall j :: 0 <= j < |s.procs| && s.procs[j].parent == Some(i) ==> s.init == Some(i)
    requires s.procs[i].parent.Some? ==> NobodyOn(s, ChanOf(s, s.procs[i].parent))
    ensures Kin(t)
  {
    PidsField(s, t);
    ZombieWaits(s, i, t);
    ZombieParents(s, i, t);
    ZombieForks(s, i, t);
  }

  lemma ZombieParents(s: State, i: nat, t: State)
    requires Parents(s) && i < |s.procs| && s.procs[i].state == Running
    requires SameRest(s, t) && t.procs == s.procs[i := s.procs[i].(state := Zombie)]
    requires forall j :: 0 <= j < |s.procs| && s.procs[j].parent == Some(i) ==> s.init == Some(i)
    ensures Parents(t)
  {
    forall j | 0 <= j < |t.procs| ensures ParentOk(t, j) { assert ParentOk(s, j); }
  }

  lemma ZombieForks(s: State, i: nat, t: State)
    requires Forks(s) && i < |s.procs| && s.procs[i].state == Running && s.procs[i].pc == Free
    requires t.procs == s.procs[i := s.procs[i].(state := Zombie)]
    ensures Forks(t)
  {
    forall j | 0 <= j < |t.procs| ensures ForkOk(t, j) { assert ForkOk(s, j); }
    forall a, b | 0 <= a < b < |t.procs| ensures !SameChild(t, a, b) { assert !SameChild(s, a, b); }
  }

  lemma ZombieWaits(s: State, i: nat, t: State)
    requires Waits(s) && i < |s.procs| && s.procs[i].state == Running
    requires SameRest(s, t) && t.procs == s.procs[i := s.procs[i].(state := Zombie)]
    requires s.procs[i].parent.Some? ==> NobodyOn(s, ChanOf(s, s.procs[i].parent))
    ensures Waits(t)
  {
    forall a | 0 <= a < |t.procs| ensures WaitOk(t, a) { assert WaitOk(s, a); }
    forall a, b | 0 <= a < |t.procs| && 0 <= b < |t.procs| ensures !Missed(t, a, b) {
      assert !Missed(s, a, b) && WaitOk(t, a);
      assert !SleepsOn(s, a, ChanOf(s, s.procs[i].parent)) || s.procs[i].parent.None?;
    }
  }

  lemma CalmNobody(s: State, t: State, chan: nat)
    requires NobodyOn(s, chan) && Calm(s, t)
    ensures NobodyOn(t, chan)
  {
    forall j | 0 <= j < |t.procs| ensures !SleepsOn(t, j, chan) {
      assert CalmProc(s.procs[j], t.procs[j]) && !SleepsOn(s, j, chan);
    }
  }

  lemma ExitAdopts(s: State, c: nat, v: State)
    requires Inv(s) && OnCpu(s, c) && PcOf(s, c) == Free
    requires v == Adopt(Wake(s, ChanOf(s, s.procs[Cur(s, c)].parent), 0), Cur(s, c), |s.procs|)
    ensures Inv(v) && Pushed(s, v) && AdoptedTo(s, v, Cur(s, c), |s.procs|)
    ensures NobodyOn(v, ChanOf(s, s.procs[Cur(s, c)].parent))
  {
    var i := Cur(s, c);
    var chan := ChanOf(s, s.procs[i].parent);
    var u := Wake(s, chan, 0);
    WakeKeeps(s, chan, u);
    assert u.procs[i] == s.procs[i];
    AdoptKeeps(u, i, v);
    PushedTrans(s, u, v);
    CalmNobody(u, v, chan);
    CalmTrans(s, u, v, i, chan);
  }

  lemma CalmTrans(s: State, u: State, v: State, i: nat, chan: nat)
    requires Woken(s, u, chan) && AdoptedTo(u, v, i, |s.procs|)
    ensures AdoptedTo(s, v, i, |s.procs|)
  {
    forall j | 0 <= j < |s.procs|
      ensures v.procs[j].pc == s.procs[j].pc && CalmProc(s.procs[j], v.procs[j])
      ensures u.procs[j].parent == s.procs[j].parent
    {
      assert u.procs[j] == if SleepsOn(s, j, chan) then s.procs[j].(state := Runnable, chan := 0) else s.procs[j];
      assert CalmProc(u.procs[j], v.procs[j]);
    }
  }

  /** What exit's loop leaves of the exiting process and its children. */
  lemma Orphaned(s: State, i: nat, v: State)
    requires AdoptedTo(s, v, i, |s.procs|) && Parents(s) && i < |s.procs| && s.procs[i].state == Running
    ensures v.procs[i].parent == s.procs[i].parent && v.procs[i].state == Running && v.procs[i].pc == s.procs[i].pc
    ensures forall j :: 0 <= j < |v.procs| && v.procs[j].parent == Some(i) ==> v.init == Some(i)
  {
    assert ParentOk(s, i);
    assert CalmProc(s.procs[i], v.procs[i]);
  }

  lemma ExitLast(v: State, c: nat, chan: nat, t: State)
    requires Inv(v) && OnCpu(v, c) && v.procs[Cur(v, c)].pc == Free && NobodyOn(v, chan)
    requires chan == ChanOf(v, v.procs[Cur(v, c)].parent)
    requires forall j :: 0 <= j < |v.procs| && v.procs[j].parent == Some(Cur(v, c)) ==> v.init == Some(Cur(v, c))
    requires t == Put(OffCpu(v, c), Cur(v, c), v.procs[Cur(v, c)].(state := Zombie))
    ensures Inv(t) && t.prioque == v.prioque
  {
    ZombieLists(v, c, t);
    ZombieKin(v, Cur(v, c), t);
  }

  lemma ExitKeeps(s: State, c: nat, t: State)
    requires Inv(s) && OnCpu(s, c) && PcOf(s, c) == Free && t == Exit(s, c)
    ensures Inv(t) && Pushed(s, t)
  {
    var i := Cur(s, c);
    var chan := ChanOf(s, s.procs[i].parent);
    var v := Adopt(Wake(s, chan, 0), i, |s.procs|);
    ExitAdopts(s, c, v);
    Orphaned(s, i, v);
    ExitLast(v, c, chan, t);
  }

  // what exit does to the others

  predicate ZombieChild(s: State, i: nat, j: nat) {
    j < |s.procs| && s.procs[j].parent == Some(i) && s.procs[j].state == Zombie
  }

  lemma CalmOne(u: State, i: nat, k: nat, t: State)
    requires k < |u.procs| && Lists(u, -1) && t == AdoptOne(u, i, k)
    ensures Calm(u, t) && (ZombieChild(u, i, k) ==> NobodyOn(t, ChanOf(u, u.init)))
  {
    if ZombieChild(u, i, k) {
      var v := Put(u, k, u.procs[k].(parent := u.init));
      FieldsKeep(u, v);
      WakeWakes(v, ChanOf(u, u.init), t);
      WokenIsCalm(u, v, t, ChanOf(u, u.init));
    }
  }

  lemma WokenIsCalm(u: State, v: State, t: State, chan: nat)
    requires Calm(u, v) && Woken(v, t, chan)
    ensures Calm(u, t)
  {
    forall j | 0 <= j < |u.procs| ensures t.procs[j].pc == u.procs[j].pc && CalmProc(u.procs[j], t.procs[j]) {
      assert t.procs[j] == if SleepsOn(v, j, chan) then v.procs[j].(state := Runnable, chan := 0) else v.procs[j];
      assert CalmProc(u.procs[j], v.procs[j]);
    }
  }

  /** exit's loop wakes init when it comes to a Zombie child, and nobody goes back to sleep. */
  lemma {:induction false} AdoptWakes(s: State, i: nat, k: nat, j: nat, t: State)
    requires Inv(s) && i < |s.procs| && s.procs[i].pc == Free && j < k <= |s.procs| && t == Adopt(s, i, k)
    requires ZombieChild(s, i, j)
    ensures NobodyOn(t, ChanOf(s, s.init))
    decreases k
  {
    var u := Adopt(s, i, k - 1);
    AdoptLoop(s, i, k - 1, u);
    CalmOne(u, i, k - 1, t);
    if j < k - 1 {
      AdoptWakes(s, i, k - 1, j, u);
      CalmNobody(u, t, ChanOf(s, s.init));
    } else {
      assert CalmProc(s.procs[j], u.procs[j]);
    }
  }

  /** exit: i is a Zombie, its children are init's, nobody sleeps on its parent, and nobody on init if
      one of the children is a Zombie; the others are as they were, or awake. */
  ghost predicate Exited(s: State, t: State, i: nat) {
    && |t.procs| == |s.procs| && i < |s.procs| && t.procs[i].state == Zombie && t.procs[i].parent == s.procs[i].parent
    && (forall j :: 0 <= j < |s.procs| && j != i ==> ExitedOther(s, t, i, j))
    && NobodyOn(t, ChanOf(s, s.procs[i].parent))
    && forall j: nat :: ZombieChild(s, i, j) ==> NobodyOn(t, ChanOf(s, s.init))
  }

  predicate ExitedOther(s: State, t: State, i: nat, j: nat)
    requires j < |t.procs| == |s.procs|
  {
    && CalmProc(s.procs[j], t.procs[j])
    && t.procs[j].parent == if s.procs[j].parent == Some(i) then s.init else s.procs[j].parent
  }

  lemma ExitDoes(s: State, c: nat, t: State)
    requires Inv(s) && OnCpu(s, c) && PcOf(s, c) == Free && t == Exit(s, c)
    ensures Exited(s, t, Cur(s, c))
  {
    var i := Cur(s, c);
    var chan := ChanOf(s, s.procs[i].parent);
    var u := Wake(s, chan, 0);
    var v := Adopt(u, i, |s.procs|);
    ExitAdopts(s, c, v);
    Orphaned(s, i, v);
    ZombieNobody(v, i, t, chan);
    forall j: nat | ZombieChild(s, i, j) ensures NobodyOn(t, ChanOf(s, s.init)) {
      InitWoken(s, c, i, j, u, v);
      ZombieNobody(v, i, t, ChanOf(s, s.init));
    }
    forall j | 0 <= j < |s.procs| && j != i ensures ExitedOther(s, t, i, j) {
      assert CalmProc(s.procs[j], v.procs[j]) && t.procs[j] == v.procs[j];
    }
  }

  lemma InitWoken(s: State, c: nat, i: nat, j: nat, u: State, v: State)
    requires Inv(s) && OnCpu(s, c) && i == Cur(s, c) && PcOf(s, c) == Free && ZombieChild(s, i, j)
    requires u == Wake(s, ChanOf(s, s.procs[i].parent), 0) && v == Adopt(u, i, |s.procs|)
    ensures NobodyOn(v, ChanOf(s, s.init))
  {
    WakeKeeps(s, ChanOf(s, s.procs[i].parent), u);
    assert u.procs[i] == s.procs[i] && u.procs[j] == s.procs[j];
    AdoptWakes(u, i, |s.procs|, j, v);
  }

  lemma ZombieNobody(v: State, i: nat, t: State, chan: nat)
    requires i < |v.procs| == |t.procs| && NobodyOn(v, chan) && t.procs[i].state == Zombie
    requires forall j :: 0 <= j < |v.procs| && j != i ==> t.procs[j] == v.procs[j]
    ensures NobodyOn(t, chan)
  {
    forall j | 0 <= j < |t.procs| ensures !SleepsOn(t, j, chan) {
      if j != i { assert !SleepsOn(v, j, chan); }
    }
  }

  // ---- wait --------------------------------------------------------------------------------

  lemma SetPcKin(s: State, i: nat, pc: Pc, t: State)
    requires Kin(s) && i < |s.procs| && s.procs[i].state == Running && !s.procs[i].pc.Forking? && !pc.Forking?
    requires t == SetPc(s, i, pc)
    ensures Kin(t)
  {
    PidsField(s, t);
    forall j | 0 <= j < |t.procs| ensures ParentOk(t, j) && ForkOk(t, j) && WaitOk(t, j) {
      assert ParentOk(s, j) && ForkOk(s, j) && WaitOk(s, j);
    }
    forall a, b | 0 <= a < b < |t.procs| ensures !SameChild(t, a, b) { assert !SameChild(s, a, b); }
    forall a, b | 0 <= a < |t.procs| && 0 <= b < |t.procs| ensures !Missed(t, a, b) { assert !Missed(s, a, b); }
  }

  lemma SetPcKeeps(s: State, i: nat, pc: Pc, t: State)
    requires Inv(s) && i < |s.procs| && s.procs[i].state == Running && !s.procs[i].pc.Forking? && !pc.Forking?
    requires t == SetPc(s, i, pc)
    ensures Inv(t)
  {
    FieldsKeep(s, t);
    SetPcKin(s, i, pc, t);
  }

  lemma ReapLists(s: State, z: nat, t: State)
    requires Lists(s, -1) && z < |s.procs| && s.procs[z].state == Zombie && t == Reap(s, z)
    ensures Lists(t, -1)
  {
    SetAside(s, z);
    var u := Put(s, z, s.procs[z].(state := Unused, pid := 0, parent := None));
    PutKeeps(s, z, s.procs[z].(state := Unused, pid := 0, parent := None));
    FieldsKeep(u, t);
  }

  lemma ReapPids(s: State, z: nat, t: State)
    requires Pids(s) && z < |s.procs| && s.procs[z].state == Zombie && t == Reap(s, z)
    ensures Pids(t)
  {
    assert PidOk(s, z);
    forall j | 0 <= j < |t.procs| ensures PidOk(t, j) {
      assert PidOk(s, j);
      if j != z { assert j < z ==> !SamePid(s, j, z); assert z < j ==> !SamePid(s, z, j); }
    }
    forall a, b | 0 <= a < b < |t.procs| ensures !SamePid(t, a, b) { assert !SamePid(s, a, b); }
    forall n | 0 < n < t.nextpid ensures n in t.reaped || HasPid(t, n) {
      if n == s.procs[z].pid {
        assert t.reaped[|s.reaped|] == n;
      } else if n !in s.reaped {
        assert HasPid(s, n);
        var i :| 0 <= i < |s.procs| && s.procs[i].state != Unused && s.procs[i].pid == n;
        assert t.procs[i] == s.procs[i];
      }
    }
  }

  /** Nobody's parent pointer names a slot being reaped. */
  lemma NoChildOfZombie(s: State, i: nat, z: nat)
    requires Parents(s) && z < |s.procs| && s.procs[z].state == Zombie && s.procs[z].parent == Some(i)
    ensures s.init != Some(z) && forall j :: 0 <= j < |s.procs| ==> s.procs[j].parent != Some(z)
  {
    forall j | 0 <= j < |s.procs| ensures s.procs[j].parent != Some(z) { assert ParentOk(s, j); }
  }

  lemma ReapKin(s: State, i: nat, z: nat, t: State)
    requires Kin(s) && z < |s.procs| && s.procs[z].state == Zombie && s.procs[z].parent == Some(i) && t == Reap(s, z)
    ensures Kin(t)
  {
    ReapPids(s, z, t);
    NoChildOfZombie(s, i, z);
    forall j | 0 <= j < |t.procs| ensures ParentOk(t, j) && ForkOk(t, j) && WaitOk(t, j) {
      assert ParentOk(s, j) && ForkOk(s, j) && WaitOk(s, j);
    }
    forall a, b | 0 <= a < b < |t.procs| ensures !SameChild(t, a, b) { assert !SameChild(s, a, b); }
    forall a, b | 0 <= a < |t.procs| && 0 <= b < |t.procs| ensures !Missed(t, a, b) { assert !Missed(s, a, b); }
  }

  lemma DozeKin(s: State, i: nat, t: State)
    requires Kin(s) && i < |s.procs| && s.procs[i].state == Running && !s.procs[i].pc.Forking? && SameRest(s, t)
    requires t.procs == s.procs[i := s.procs[i].(state := Sleeping, chan := Addr(s, i), pc := Waiting)]
    requires forall j :: 0 <= j < |s.procs| && s.procs[j].parent == Some(i) ==> s.procs[j].state != Zombie
    ensures Kin(t)
  {
    PidsField(s, t);
    forall j | 0 <= j < |t.procs| ensures ParentOk(t, j) && ForkOk(t, j) && WaitOk(t, j) {
      assert ParentOk(s, j) && ForkOk(s, j) && WaitOk(s, j);
    }
    forall a, b | 0 <= a < b < |t.procs| ensures !SameChild(t, a, b) { assert !SameChild(s, a, b); }
    forall a, b | 0 <= a < |t.procs| && 0 <= b < |t.procs| ensures !Missed(t, a, b) { assert !Missed(s, a, b); }
  }

  lemma WaitKeeps(s: State, c: nat, t: State)
    requires Inv(s) && OnCpu(s, c) && !PcOf(s, c).Forking? && t == Wait(s, c)
    ensures Inv(t) && Pushed(s, t)
  {
    var i := Cur(s, c);
    var z := FirstZombie(s, i, 0);
    if z.Some? {
      var u := SetPc(s, i, Free);
      SetPcKeeps(s, i, Free, u);
      ReapLists(u, z.value, t);
      ReapKin(u, i, z.value, t);
    } else if !HasChild(s, i) {
      SetPcKeeps(s, i, Free, t);
    } else {
      var u := SetPc(s, i, Waiting);
      FieldsKeep(s, u);
      LeaveCpu(u, c, u.procs[i].(state := Sleeping, chan := Addr(s, i)), t);
      DozeKin(s, i, t);
    }
  }

  // ---- fork --------------------------------------------------------------------------------

  lemma AllocLists(s: State, j: nat, t: State)
    requires Lists(s, -1) && j < |s.procs| && s.procs[j].state == Unused && t == Alloc(s, j)
    ensures Lists(t, -1)
  {
    SetAside(s, j);
    var p := s.procs[j].(state := Embryo, pid := s.nextpid, chan := 0, prio := PRIOENTRIES - 1);
    PutKeeps(s, j, p);
    FieldsKeep(Put(s, j, p), t);
  }

  lemma AllocPids(s: State, j: nat, t: State)
    requires Pids(s) && j < |s.procs| && s.procs[j].state == Unused && t == Alloc(s, j)
    ensures Pids(t)
  {
    forall i | 0 <= i < |t.procs| ensures PidOk(t, i) {
      assert PidOk(s, i);
      assert s.nextpid !in s.reaped;
    }
    forall a, b | 0 <= a < b < |t.procs| ensures !SamePid(t, a, b) {
      assert !SamePid(s, a, b) && PidOk(s, a) && PidOk(s, b);
    }
    forall n | 0 < n < t.nextpid && n !in t.reaped ensures HasPid(t, n) {
      if n == s.nextpid {
        assert t.procs[j].pid == n;
      } else {
        assert HasPid(s, n);
        var i :| 0 <= i < |s.procs| && s.procs[i].state != Unused && s.procs[i].pid == n;
        assert t.procs[i] == s.procs[i];
      }
    }
  }

  lemma AllocKin(s: State, j: nat, t: State)
    requires Kin(s) && j < |s.procs| && s.procs[j].state == Unused && t == Alloc(s, j)
    ensures Kin(t)
  {
    AllocPids(s, j, t);
    forall i | 0 <= i < |t.procs| ensures ParentOk(t, i) && ForkOk(t, i) && WaitOk(t, i) {
      assert ParentOk(s, i) && ForkOk(s, i) && WaitOk(s, i);
    }
    forall a, b | 0 <= a < b < |t.procs| ensures !SameChild(t, a, b) { assert !SameChild(s, a, b); }
    forall a, b | 0 <= a < |t.procs| && 0 <= b < |t.procs| ensures !Missed(t, a, b) { assert !Missed(s, a, b); }
  }

  predicate NobodysChild(s: State, j: nat) {
    forall a :: 0 <= a < |s.procs| ==> !Bears(s.procs[a], j)
  }

  predicate Bears(p: Proc, j: nat) {
    p.pc.Forking? && p.pc.child == j
  }

  lemma AllocFree(s: State, j: nat)
    requires Forks(s) && j < |s.procs| && s.procs[j].state == Unused
    ensures NobodysChild(s, j)
  {
    forall a | 0 <= a < |s.procs| ensures !Bears(s.procs[a], j) { assert ForkOk(s, a); }
  }

  lemma StartKin(s: State, i: nat, j: nat, t: State)
    requires Kin(s) && i < |s.procs| && s.procs[i].state == Running && s.procs[i].pc == Free && NobodysChild(s, j)
    requires j < |s.procs| && s.procs[j].state == Embryo && s.procs[j].parent.None?
    requires t == SetPc(s, i, Forking(j, false))
    ensures Kin(t)
  {
    PidsField(s, t);
    forall a | 0 <= a < |t.procs| ensures ParentOk(t, a) && ForkOk(t, a) && WaitOk(t, a) {
      assert ParentOk(s, a) && ForkOk(s, a) && WaitOk(s, a);
    }
    forall a, b | 0 <= a < b < |t.procs| ensures !SameChild(t, a, b) {
      assert !SameChild(s, a, b) && !Bears(s.procs[a], j) && !Bears(s.procs[b], j);
    }
    forall a, b | 0 <= a < |t.procs| && 0 <= b < |t.procs| ensures !Missed(t, a, b) { assert !Missed(s, a, b); }
  }

  lemma ForkAllocKeeps(s: State, c: nat, t: State)
    requires Inv(s) && Enabled(s, ForkAlloc(c)) && t == Apply(s, ForkAlloc(c))
    ensures Inv(t) && Pushed(s, t)
  {
    var i, j := Cur(s, c), FirstUnused(s, 0).value;
    var u := Alloc(s, j);
    AllocLists(s, j, u);
    FieldsKeep(u, t);
    AllocKin(s, j, u);
    AllocFree(s, j);
    assert ParentOk(s, j);
    forall a | 0 <= a < |u.procs| ensures !Bears(u.procs[a], j) { assert !Bears(s.procs[a], j); }
    StartKin(u, i, j, t);
  }

  lemma ForkLinkKeeps(s: State, c: nat, t: State)
    requires Inv(s) && Enabled(s, ForkLink(c)) && t == Apply(s, ForkLink(c))
    ensures Inv(t) && Pushed(s, t)
  {
    var i, j := Cur(s, c), PcOf(s, c).child;
    assert ForkOk(s, i);
    FieldsKeep(s, t);
    LinkKin(s, i, j, t);
  }

  lemma LinkKin(s: State, i: nat, j: nat, t: State)
    requires Kin(s) && i < |s.procs| && s.procs[i].state == Running && s.procs[i].pc == Forking(j, false)
    requires SameRest(s, t)
    requires j < |s.procs| && j != i
    requires t.procs == s.procs[j := s.procs[j].(parent := Some(i))][i := s.procs[i].(pc := Forking(j, true))]
    ensures Kin(t)
  {
    PidsField(s, t);
    assert ForkOk(s, i);
    forall a | 0 <= a < |t.procs| ensures ParentOk(t, a) && ForkOk(t, a) && WaitOk(t, a) {
      assert ParentOk(s, a) && ForkOk(s, a) && WaitOk(s, a);
      assert a < i ==> !SameChild(s, a, i);
      assert i < a ==> !SameChild(s, i, a);
    }
    forall a, b | 0 <= a < b < |t.procs| ensures !SameChild(t, a, b) { assert !SameChild(s, a, b); }
    forall a, b | 0 <= a < |t.procs| && 0 <= b < |t.procs| ensures !Missed(t, a, b) { assert !Missed(s, a, b); }
  }

  lemma PublishKin(s: State, i: nat, j: nat, t: State)
    requires Kin(s) && i < |s.procs| && s.procs[i].state == Running && s.procs[i].pc == Forking(j, true)
    requires SameRest(s, t)
    requires j < |s.procs| && j != i && s.procs[j].state == Embryo
    requires t.procs
      == s.procs[i := s.procs[i].(pc := Free)][j := s.procs[j].(state := Runnable, prio := s.procs[i].prio)]
    ensures Kin(t)
  {
    PidsField(s, t);
    forall a | 0 <= a < |t.procs| ensures ParentOk(t, a) && ForkOk(t, a) && WaitOk(t, a) {
      assert ParentOk(s, a) && ForkOk(s, a) && WaitOk(s, a) && ForkOk(s, j);
      assert a < i ==> !SameChild(s, a, i);
      assert i < a ==> !SameChild(s, i, a);
    }
    forall a, b | 0 <= a < b < |t.procs| ensures !SameChild(t, a, b) { assert !SameChild(s, a, b); }
    forall a, b | 0 <= a < |t.procs| && 0 <= b < |t.procs| ensures !Missed(t, a, b) { assert !Missed(s, a, b); }
  }

  /** An Embryo goes on its priority queue. */
  lemma HatchLists(s: State, j: nat, p: Proc, t: State)
    requires Lists(s, -1) && j < |s.procs| && s.procs[j].state == Embryo && p.prio < PRIOENTRIES && p.state == Runnable
    requires t == PutList(s, j, p)
    ensures Lists(t, -1) && Pushed(s, t) && t.procs == s.procs[j := p] && SameRest(s, t)
  {
    SetAside(s, j);
    PutListKeeps(s, j, p);
  }

  lemma ForkPublishKeeps(s: State, c: nat, t: State)
    requires Inv(s) && Enabled(s, ForkPublish(c)) && t == Apply(s, ForkPublish(c))
    ensures Inv(t) && Pushed(s, t)
  {
    var i, j := Cur(s, c), PcOf(s, c).child;
    assert ForkOk(s, i);
    var u := SetPc(s, i, Free);
    FieldsKeep(s, u);
    HatchLists(u, j, u.procs[j].(state := Runnable, prio := s.procs[i].prio), t);
    PublishKin(s, i, j, t);
  }

  lemma FirstKin(s: State, j: nat, t: State)
    requires Kin(s) && j < |s.procs| && s.procs[j].state == Embryo && s.procs[j].parent.None? && NobodysChild(s, j)
    requires t.procs == s.procs[j := s.procs[j].(state := Runnable)] && t.nextpid == s.nextpid && t.base == s.base
    requires t.reaped == s.reaped
    requires t.init == s.init || (s.init.None? && t.init == Some(j))
    ensures Kin(t)
  {
    PidsField(s, t);
    forall a | 0 <= a < |t.procs| ensures ParentOk(t, a) && ForkOk(t, a) && WaitOk(t, a) {
      assert ParentOk(s, a) && ForkOk(s, a) && WaitOk(s, a) && !Bears(s.procs[a], j) && ForkOk(s, j);
    }
    forall a, b | 0 <= a < b < |t.procs| ensures !SameChild(t, a, b) { assert !SameChild(s, a, b); }
    forall a, b | 0 <= a < |t.procs| && 0 <= b < |t.procs| ensures !Missed(t, a, b) { assert !Missed(s, a, b); }
  }

  lemma UserInitKeeps(s: State, loop: bool, t: State)
    requires Inv(s) && Enabled(s, DoUserInit(loop)) && t == Apply(s, DoUserInit(loop))
    ensures Inv(t) && Pushed(s, t)
  {
    var j := FirstUnused(s, 0).value;
    var u := Alloc(s, j);
    AllocLists(s, j, u);
    AllocKin(s, j, u);
    AllocFree(s, j);
    assert ParentOk(s, j);
    forall a | 0 <= a < |u.procs| ensures !Bears(u.procs[a], j) { assert !Bears(s.procs[a], j); }
    var v := PutList(u, j, u.procs[j].(state := Runnable));
    HatchLists(u, j, u.procs[j].(state := Runnable), v);
    FieldsKeep(v, t);
    FirstKin(u, j, t);
  }

  // ---- runs --------------------------------------------------------------------------------

  /** Every step keeps the invariant; only a pick takes anything off a priority queue. */
  lemma StepKeeps(s: State, e: Event, t: State)
    requires Inv(s) && Enabled(s, e) && t == Apply(s, e)
    ensures Inv(t) && (!e.DoPick? ==> Pushed(s, t))
  {
    match e
    case DoYield(c) => YieldKeeps(s, c, t);
    case DoSleep(c, chan) => SleepKeeps(s, c, chan, t);
    case DoWakeup(chan) => WakeKeeps(s, chan, t);
    case DoExit(c) => ExitKeeps(s, c, t);
    case DoWait(c) => WaitKeeps(s, c, t);
    case ForkAlloc(c) => ForkAllocKeeps(s, c, t);
    case ForkLink(c) => ForkLinkKeeps(s, c, t);
    case ForkPublish(c) => ForkPublishKeeps(s, c, t);
    case DoUserInit(loop) => UserInitKeeps(s, loop, t);
    case DoPick(c) => PickKeeps(s, c, t);
    case Resume(c) => ResumeKeeps(s, c, t);
  }

  lemma ResumeKeeps(s: State, c: nat, t: State)
    requires Inv(s) && Enabled(s, Resume(c)) && t == Apply(s, Resume(c))
    ensures Inv(t) && Pushed(s, t)
  {
    var u := s.(lock := None);
    FieldsKeep(s, u);
    UnlockKin(s, u);
    if PcOf(s, c) == Waiting { WaitKeeps(u, c, t); }
  }

  lemma UnlockKin(s: State, u: State)
    requires Kin(s) && u == s.(lock := None)
    ensures Kin(u)
  {
    MovedKeeps(s, u);
  }

  /** proc_init's state, every list head initialised: n slots, m cpus, ptable at base. */
  function Boot(n: nat, m: nat, base: nat): State {
    State(seq(n, _ => Proc(Unused, 0, None, 0, 0, Free)), seq(HASHENTRIES, _ => []), seq(PRIOENTRIES, _ => []),
      seq(m, _ => None),
          None, None, 1, base, [])
  }

  lemma BootInv(n: nat, m: nat, base: nat)
    ensures Inv(Boot(n, m, base))
  {
    var s := Boot(n, m, base);
    forall w | IsList(w) ensures ListAt(s, w) == [] {}
  }

  /** States ss linked by the events es. */
  ghost predicate Run(ss: seq<State>, es: seq<Event>) {
    |ss| == |es| + 1 && forall k :: 0 <= k < |es| ==> StepOk(ss[k], es[k], ss[k + 1])
  }

  ghost predicate StepOk(s: State, e: Event, t: State) {
    Prios(s) && Enabled(s, e) && t == Apply(s, e)
  }

  lemma {:induction false} RunKeeps(ss: seq<State>, es: seq<Event>, k: nat)
    requires Run(ss, es) && Inv(ss[0]) && k < |ss|
    ensures Inv(ss[k])
  {
    if k > 0 {
      RunKeeps(ss, es, k - 1);
      assert StepOk(ss[k - 1], es[k - 1], ss[k]);
      StepKeeps(ss[k - 1], es[k - 1], ss[k]);
    }
  }

  /** In every state of every run from boot, each Runnable process is on exactly its priority queue and
      once, each Sleeping one on exactly its channel's hash list and once, each Running one on exactly
      one cpu, and all others on none of these. */
  lemma SchedulerLists(n: nat, m: nat, base: nat, ss: seq<State>, es: seq<Event>, k: nat, i: nat)
    requires Run(ss, es) && ss[0] == Boot(n, m, base) && k < |ss| && i < |ss[k].procs|
    ensures var s, p := ss[k], ss[k].procs[i];
      Sized(s)
      && (forall q :: 0 <= q < PRIOENTRIES ==>
        Count(s.prioque[q], i) == if p.state == Runnable && p.prio == q then 1 else 0)
      && (forall h :: 0 <= h < HASHENTRIES ==>
        Count(s.hash[h], i) == if p.state == Sleeping && Bucket(p.chan) == h then 1 else 0)
      && (p.state == Running <==> exists c :: 0 <= c < |s.cpus| && s.cpus[c] == Some(i))
      && (forall c, d :: 0 <= c < |s.cpus| && 0 <= d < |s.cpus| && s.cpus[c] == s.cpus[d] == Some(i) ==> c == d)
  {
    BootInv(n, m, base);
    RunKeeps(ss, es, k);
    ListsMeans(ss[k], i);
  }

  /** In every state of every run from boot: no process asleep in wait has a Zombie child; a parent
      pointer never names a slot that was reaped (or never used); no pid was returned by wait twice, and
      every pid ever given out is in the table or was returned. */
  lemma WaitExit(n: nat, m: nat, base: nat, ss: seq<State>, es: seq<Event>, k: nat)
    requires Run(ss, es) && ss[0] == Boot(n, m, base) && k < |ss|
    ensures forall i, j :: 0 <= i < |ss[k].procs| && 0 <= j < |ss[k].procs| ==> !Missed(ss[k], i, j)
    ensures forall i :: 0 <= i < |ss[k].procs| && ss[k].procs[i].parent.Some? ==>
      InUse(ss[k], ss[k].procs[i].parent.value)
    ensures NoDup(ss[k].reaped) && forall p :: 0 < p < ss[k].nextpid ==> (p in ss[k].reaped <==> !HasPid(ss[k], p))
  {
    BootInv(n, m, base);
    RunKeeps(ss, es, k);
    var s := ss[k];
    forall i | 0 <= i < |s.procs| && s.procs[i].parent.Some? ensures InUse(s, s.procs[i].parent.value) {
      assert ParentOk(s, i);
    }
    forall p | 0 < p < s.nextpid && p in s.reaped ensures !HasPid(s, p) {
      forall i | 0 <= i < |s.procs| && s.procs[i].state != Unused ensures s.procs[i].pid != p { assert PidOk(s, i); }
    }
  }

  predicate InUse(s: State, i: nat) {
    i < |s.procs| && s.procs[i].state != Unused && s.procs[i].state != Embryo
  }

  /** Only a process's parent, in wait, reaps it, and only once it has exited. */
  lemma ReapedByParent(s: State, e: Event, t: State)
    requires Inv(s) && StepOk(s, e, t) && t.reaped != s.reaped
    ensures (e.DoWait? || e.Resume?) && OnCpu(s, e.c)
    ensures exists z :: 0 <= z < |s.procs| && Reaped(s, Cur(s, e.c), z, t)
  {
    assert e.DoWait? || e.Resume?;
    var z := FirstZombie(s, Cur(s, e.c), 0);
    if e.Resume? {
      SameZombie(s, s.(lock := None), Cur(s, e.c), 0);
    }
    assert z.Some?;
    assert Reaped(s, Cur(s, e.c), z.value, t);
  }

  /** Slot z, a Zombie child of i, is freed, and its pid returned. */
  predicate Reaped(s: State, i: nat, z: nat, t: State)
    requires z < |s.procs|
  {
    s.procs[z].state == Zombie && s.procs[z].parent == Some(i) && t.reaped == s.reaped + [s.procs[z].pid]
    && |t.procs| == |s.procs| && t.procs[z].state == Unused
  }

  lemma {:induction false} SameZombie(s: State, t: State, i: nat, k: nat)
    requires s.procs == t.procs && k <= |s.procs|
    ensures FirstZombie(s, i, k) == FirstZombie(t, i, k)
    decreases |s.procs| - k
  {
    if k < |s.procs| { SameZombie(s, t, i, k + 1); }
  }

  // ---- first in, first out -----------------------------------------------------------------

  /** Whom a step puts on the back of queue k, and whom it takes off its front. */
  function Came(s: State, e: Event, t: State, k: nat): seq<nat>
    requires k < |s.prioque| && k < |t.prioque|
  {
    if e.DoPick? || |t.prioque[k]| < |s.prioque[k]| then [] else t.prioque[k][|s.prioque[k]|..]
  }

  function Went(s: State, e: Event, t: State, k: nat): seq<nat>
    requires k < |s.prioque| && k < |t.prioque|
  {
    if e.DoPick? && s.prioque[k] != [] && t.prioque[k] != s.prioque[k] then [s.prioque[k][0]] else []
  }

  lemma StepPushed(s: State, e: Event, t: State)
    requires Inv(s) && StepOk(s, e, t) && !e.DoPick?
    ensures Sized(t) && Pushed(s, t)
  {
    StepKeeps(s, e, t);
  }

  lemma StepFifo(s: State, e: Event, t: State, k: nat)
    requires Inv(s) && StepOk(s, e, t) && k < PRIOENTRIES
    ensures Sized(t) && s.prioque[k] + Came(s, e, t, k) == Went(s, e, t, k) + t.prioque[k]
  {
    if e.DoPick? {
      var q := PickServes(s, e.c, t);
    } else {
      StepPushed(s, e, t);
      assert s.prioque[k] <= t.prioque[k];
    }
  }

  /** The scheduler serves the front of the highest queue that is not empty, and no other. */
  lemma PickServes(s: State, c: nat, t: State) returns (q: nat)
    requires StepOk(s, DoPick(c), t)
    ensures Sized(t) && q < PRIOENTRIES && s.prioque[q] != [] && t.cpus[c] == Some(s.prioque[q][0])
    ensures s.prioque[q] == [s.prioque[q][0]] + t.prioque[q] && forall j :: q < j < PRIOENTRIES ==> s.prioque[j] == []
    ensures forall j :: 0 <= j < PRIOENTRIES && j != q ==> t.prioque[j] == s.prioque[j]
  {
    q := Top(s, PRIOENTRIES).value;
    PickShape(s, c, q, t);
  }

  function Arrivals(ss: seq<State>, es: seq<Event>, k: nat): seq<nat>
    requires |ss| == |es| + 1 && forall i :: 0 <= i < |ss| ==> k < |ss[i].prioque|
  {
    if es == [] then [] else
      var n := |es| - 1;
      Arrivals(ss[..n + 1], es[..n], k) + Came(ss[n], es[n], ss[n + 1], k)
  }

  function Served(ss: seq<State>, es: seq<Event>, k: nat): seq<nat>
    requires |ss| == |es| + 1 && forall i :: 0 <= i < |ss| ==> k < |ss[i].prioque|
  {
    if es == [] then [] else
      var n := |es| - 1;
      Served(ss[..n + 1], es[..n], k) + Went(ss[n], es[n], ss[n + 1], k)
  }

  /** Over every run, those served from a priority queue are those who joined it, in that order: what is
      left is what joined last. */
  lemma {:induction false} Fifo(ss: seq<State>, es: seq<Event>, k: nat)
    requires Run(ss, es) && Inv(ss[0]) && k < PRIOENTRIES
    ensures forall i :: 0 <= i < |ss| ==> k < |ss[i].prioque|
    ensures ss[0].prioque[k] + Arrivals(ss, es, k) == Served(ss, es, k) + ss[|es|].prioque[k]
    decreases |es|
  {
    forall i | 0 <= i < |ss| ensures k < |ss[i].prioque| { RunKeeps(ss, es, i); }
    if es != [] {
      var n := |es| - 1;
      var rs, ds := ss[..n + 1], es[..n];
      forall i | 0 <= i < n ensures StepOk(rs[i], ds[i], rs[i + 1]) { assert StepOk(ss[i], es[i], ss[i + 1]); }
      Fifo(rs, ds, k);
      RunKeeps(ss, es, n);
      assert StepOk(ss[n], es[n], ss[n + 1]);
      StepFifo(ss[n], es[n], ss[n + 1], k);
      FifoJoin(ss[0].prioque[k], Arrivals(rs, ds, k), Served(rs, ds, k), ss[n].prioque[k],
               Came(ss[n], es[n], ss[n + 1], k), Went(ss[n], es[n], ss[n + 1], k), ss[n + 1].prioque[k]);
    }
  }

  lemma FifoJoin(q0: seq<nat>, a: seq<nat>, s: seq<nat>, q: seq<nat>, came: seq<nat>, went: seq<nat>, q': seq<nat>)
    requires q0 + a == s + q && q + came == went + q'
    ensures q0 + (a + came) == (s + went) + q'
  {
    assert q0 + (a + came) == (q0 + a) + came == s + (q + came);
    assert s + (went + q') == (s + went) + q';
  }

  // ---- priorities --------------------------------------------------------------------------

  /** Every slot in use has the highest priority. */
  predicate TopPrio(s: State) {
    forall i :: 0 <= i < |s.procs| ==> TopPrioAt(s, i)
  }

  predicate TopPrioAt(s: State, i: nat)
    requires i < |s.procs|
  {
    s.procs[i].state != Unused ==> s.procs[i].prio == PRIOENTRIES - 1
  }

  /** No process changed its priority, and no free slot came into use. */
  predicate SamePrios(s: State, t: State) {
    |t.procs| == |s.procs| && forall i :: 0 <= i < |s.procs| ==> SamePrio(s, t, i)
  }

  predicate SamePrio(s: State, t: State, i: nat)
    requires i < |s.procs| == |t.procs|
  {
    t.procs[i].prio == s.procs[i].prio && (s.procs[i].state == Unused ==> t.procs[i].state == Unused)
  }

  lemma SamePriosTrans(s: State, u: State, t: State)
    requires SamePrios(s, u) && SamePrios(u, t)
    ensures SamePrios(s, t)
  {
    forall i | 0 <= i < |s.procs| ensures SamePrio(s, t, i) { assert SamePrio(s, u, i) && SamePrio(u, t, i); }
  }

  lemma StillTop(s: State, t: State)
    requires TopPrio(s) && SamePrios(s, t)
    ensures TopPrio(t)
  {
    forall i | 0 <= i < |t.procs| ensures TopPrioAt(t, i) { assert TopPrioAt(s, i) && SamePrio(s, t, i); }
  }

  lemma WakePrios(s: State, chan: nat, t: State)
    requires Lists(s, -1) && t == Wake(s, chan, 0)
    ensures SamePrios(s, t)
  {
    WakeWakes(s, chan, t);
    forall i | 0 <= i < |s.procs| ensures SamePrio(s, t, i) {
      assert t.procs[i] == if SleepsOn(s, i, chan) then s.procs[i].(state := Runnable, chan := 0) else s.procs[i];
    }
  }

  lemma {:induction false} AdoptPrios(s: State, i: nat, k: nat, t: State)
    requires Inv(s) && i < |s.procs| && s.procs[i].pc == Free && k <= |s.procs| && t == Adopt(s, i, k)
    ensures SamePrios(s, t)
    decreases k
  {
    if k > 0 {
      var u := Adopt(s, i, k - 1);
      AdoptPrios(s, i, k - 1, u);
      AdoptLoop(s, i, k - 1, u);
      AdoptOnePrios(u, i, k - 1, t);
      SamePriosTrans(s, u, t);
    }
  }

  lemma AdoptOnePrios(u: State, i: nat, k: nat, t: State)
    requires Lists(u, -1) && k < |u.procs| && t == AdoptOne(u, i, k)
    ensures SamePrios(u, t)
  {
    if ZombieChild(u, i, k) {
      var v := Put(u, k, u.procs[k].(parent := u.init));
      FieldsKeep(u, v);
      WakePrios(v, ChanOf(u, u.init), t);
      assert SamePrios(u, v) by { forall j | 0 <= j < |u.procs| ensures SamePrio(u, v, j) {} }
      SamePriosTrans(u, v, t);
    }
  }

  lemma ExitPrios(s: State, c: nat, t: State)
    requires Inv(s) && OnCpu(s, c) && PcOf(s, c) == Free && t == Exit(s, c)
    ensures SamePrios(s, t)
  {
    var i, chan := Cur(s, c), ChanOf(s, s.procs[Cur(s, c)].parent);
    var u := Wake(s, chan, 0);
    var v := Adopt(u, i, |s.procs|);
    WakeKeeps(s, chan, u);
    WakePrios(s, chan, u);
    assert u.procs[i] == s.procs[i];
    AdoptPrios(u, i, |s.procs|, v);
    SamePriosTrans(s, u, v);
    ExitAdopts(s, c, v);
    Orphaned(s, i, v);
    assert SamePrios(v, t) by { forall j | 0 <= j < |v.procs| ensures SamePrio(v, t, j) {} }
    SamePriosTrans(s, v, t);
  }

  /** One process changes at most: it keeps its priority, or gets that of a slot in use or the highest. */
  lemma TopOne(s: State, t: State, i: nat)
    requires TopPrio(s) && i < |s.procs| == |t.procs| && t.procs == s.procs[i := t.procs[i]]
    requires t.procs[i].state == Unused || t.procs[i].prio == PRIOENTRIES - 1
    ensures TopPrio(t)
  {
    forall j | 0 <= j < |t.procs| ensures TopPrioAt(t, j) { assert TopPrioAt(s, j); }
  }

  lemma StepTop(s: State, e: Event, t: State)
    requires Inv(s) && TopPrio(s) && Enabled(s, e) && t == Apply(s, e)
    ensures TopPrio(t)
  {
    match e
    case DoYield(c) => YieldTop(s, c, t);
    case DoSleep(c, chan) => SleepTop(s, c, chan, t);
    case DoWakeup(chan) =>
      WakePrios(s, chan, t);
      StillTop(s, t);
    case DoExit(c) =>
      ExitPrios(s, c, t);
      StillTop(s, t);
    case DoWait(c) => WaitTop(s, c, t);
    case ForkAlloc(c) => ForkAllocTop(s, c, t);
    case ForkLink(c) => ForkLinkTop(s, c, t);
    case ForkPublish(c) => ForkPublishTop(s, c, t);
    case DoUserInit(loop) => TopOne(s, t, FirstUnused(s, 0).value);
    case DoPick(c) => PickTop(s, c, t);
    case Resume(c) => ResumeTop(s, c, t);
  }

  lemma YieldTop(s: State, c: nat, t: State)
    requires Lists(s, -1) && TopPrio(s) && OnCpu(s, c) && t == Yield(s, c)
    ensures TopPrio(t)
  {
    RunningOnCpu(s, c);
    assert TopPrioAt(s, Cur(s, c));
    TopOne(s, t, Cur(s, c));
  }

  lemma ForkAllocTop(s: State, c: nat, t: State)
    requires Inv(s) && TopPrio(s) && Enabled(s, ForkAlloc(c)) && t == Apply(s, ForkAlloc(c))
    ensures TopPrio(t)
  {
    var j := FirstUnused(s, 0).value;
    TopOne(s, Alloc(s, j), j);
    SetPcTop(Alloc(s, j), Cur(s, c), Forking(j, false));
  }

  lemma ForkLinkTop(s: State, c: nat, t: State)
    requires Inv(s) && TopPrio(s) && Enabled(s, ForkLink(c)) && t == Apply(s, ForkLink(c))
    ensures TopPrio(t)
  {
    var j := PcOf(s, c).child;
    var u := Put(s, j, s.procs[j].(parent := Some(Cur(s, c))));
    assert TopPrioAt(s, j);
    TopOne(s, u, j);
    SetPcTop(u, Cur(s, c), Forking(j, true));
  }

  lemma ForkPublishTop(s: State, c: nat, t: State)
    requires Inv(s) && TopPrio(s) && Enabled(s, ForkPublish(c)) && t == Apply(s, ForkPublish(c))
    ensures TopPrio(t)
  {
    var i := Cur(s, c);
    RunningOnCpu(s, c);
    assert TopPrioAt(s, i);
    SetPcTop(s, i, Free);
    TopOne(SetPc(s, i, Free), t, PcOf(s, c).child);
  }

  lemma ResumeTop(s: State, c: nat, t: State)
    requires Inv(s) && TopPrio(s) && Enabled(s, Resume(c)) && t == Apply(s, Resume(c))
    ensures TopPrio(t)
  {
    var u := s.(lock := None);
    FieldsKeep(s, u);
    StillTop(s, u) by { forall i | 0 <= i < |s.procs| ensures SamePrio(s, u, i) {} }
    if PcOf(s, c) == Waiting { WaitTop(u, c, t); }
  }

  lemma RunningOnCpu(s: State, c: nat)
    requires Lists(s, -1) && OnCpu(s, c)
    ensures s.procs[Cur(s, c)].state == Running
  {
  }

  lemma SetPcTop(s: State, i: nat, pc: Pc)
    requires TopPrio(s) && i < |s.procs|
    ensures TopPrio(SetPc(s, i, pc))
  {
    assert TopPrioAt(s, i);
    TopOne(s, SetPc(s, i, pc), i);
  }

  lemma SleepTop(s: State, c: nat, chan: nat, t: State)
    requires Lists(s, -1) && TopPrio(s) && OnCpu(s, c) && t == Sleep(s, c, chan)
    ensures TopPrio(t)
  {
    RunningOnCpu(s, c);
    assert TopPrioAt(s, Cur(s, c));
    TopOne(s, t, Cur(s, c));
  }

  lemma WaitTop(s: State, c: nat, t: State)
    requires Lists(s, -1) && TopPrio(s) && OnCpu(s, c) && t == Wait(s, c)
    ensures TopPrio(t)
  {
    var i, z := Cur(s, c), FirstZombie(s, Cur(s, c), 0);
    SetPcTop(s, i, Free);
    if z.Some? {
      TopOne(SetPc(s, i, Free), t, z.value);
    } else if HasChild(s, i) {
      var u := SetPc(s, i, Waiting);
      SetPcTop(s, i, Waiting);
      FieldsKeep(s, u);
      SleepTop(u, c, Addr(s, i), t);
    }
  }

  lemma PickTop(s: State, c: nat, t: State)
    requires Inv(s) && TopPrio(s) && Enabled(s, DoPick(c)) && t == Pick(s, c)
    ensures TopPrio(t)
  {
    var k := Top(s, PRIOENTRIES).value;
    PickShape(s, c, k, t);
    PickFront(s, k);
    assert TopPrioAt(s, s.prioque[k][0]);
    TopOne(s, t, s.prioque[k][0]);
  }

  lemma {:induction false} RunTop(n: nat, m: nat, base: nat, ss: seq<State>, es: seq<Event>, k: nat)
    requires Run(ss, es) && ss[0] == Boot(n, m, base) && k < |ss|
    ensures Inv(ss[k]) && TopPrio(ss[k])
  {
    if k == 0 {
      BootInv(n, m, base);
      BootTop(n, m, base);
    } else {
      RunTop(n, m, base, ss, es, k - 1);
      assert StepOk(ss[k - 1], es[k - 1], ss[k]);
      StepKeeps(ss[k - 1], es[k - 1], ss[k]);
      StepTop(ss[k - 1], es[k - 1], ss[k]);
    }
  }

  /** Nothing in the kernel sets a priority but proc_alloc and fork: in every state of every run from boot
      all slots in use have the highest one, so all queues but one stay empty and the scheduler goes round
      a single queue. */
  lemma OneQueue(n: nat, m: nat, base: nat, ss: seq<State>, es: seq<Event>, k: nat)
    requires Run(ss, es) && ss[0] == Boot(n, m, base) && k < |ss|
    ensures TopPrio(ss[k]) && |ss[k].prioque| == PRIOENTRIES
    ensures forall q :: 0 <= q < PRIOENTRIES - 1 ==> ss[k].prioque[q] == []
  {
    RunTop(n, m, base, ss, es, k);
    LowEmpty(ss[k]);
  }

  lemma BootTop(n: nat, m: nat, base: nat)
    ensures TopPrio(Boot(n, m, base))
  {
    forall i | 0 <= i < n ensures TopPrioAt(Boot(n, m, base), i) {}
  }

  lemma LowEmpty(s: State)
    requires Lists(s, -1) && TopPrio(s)
    ensures |s.prioque| == PRIOENTRIES && forall q :: 0 <= q < PRIOENTRIES - 1 ==> s.prioque[q] == []
  {
    forall q | 0 <= q < PRIOENTRIES - 1 ensures s.prioque[q] == [] {
      if s.prioque[q] != [] {
        FrontPrio(s, q);
        TopHas(s, s.prioque[q][0]);
      }
    }
  }

  lemma FrontPrio(s: State, q: nat)
    requires Lists(s, -1) && q < PRIOENTRIES && s.prioque[q] != []
    ensures s.prioque[q][0] < |s.procs|
    ensures s.procs[s.prioque[q][0]].state == Runnable && s.procs[s.prioque[q][0]].prio == q
  {
    assert ListAt(s, Queue(q)) == s.prioque[q];
    assert Holds(s.procs, ListAt(s, Queue(q)), Queue(q), -1);
  }

  lemma TopHas(s: State, i: nat)
    requires TopPrio(s) && i < |s.procs| && s.procs[i].state != Unused
    ensures s.procs[i].prio == PRIOENTRIES - 1
  {
    assert TopPrioAt(s, i);
  }

  // ---- everyone can get to run -------------------------------------------------------------

  ghost predicate Reach(s: State, es: seq<Event>, t: State)
    decreases |es|
  {
    if es == [] then s == t else Prios(s) && Enabled(s, es[0]) && Reach(Apply(s, es[0]), es[1..], t)
  }

  lemma {:induction false} ReachThen(s: State, es: seq<Event>, u: State, fs: seq<Event>, t: State)
    requires Reach(s, es, u) && Reach(u, fs, t)
    ensures Reach(s, es + fs, t)
    decreases |es|
  {
    if es == [] {
      assert es + fs == fs;
    } else {
      ReachThen(Apply(s, es[0]), es[1..], u, fs, t);
      assert (es + fs)[1..] == es[1..] + fs && (es + fs)[0] == es[0];
    }
  }

  lemma ReachOne(s: State, e: Event)
    requires Prios(s) && Enabled(s, e)
    ensures Reach(s, [e], Apply(s, e))
  {
    assert [e][1..] == [];
  }

  /** A reachable state with cpu c idle, and process i at position k of the one queue in use. */
  ghost predicate Queues(s: State, c: nat, i: nat, k: nat) {
    && Inv(s) && TopPrio(s) && s.lock.None? && c < |s.cpus| && s.cpus[c].None? && Sized(s)
    && k < |s.prioque[PRIOENTRIES - 1]| && s.prioque[PRIOENTRIES - 1][k] == i
  }

  lemma FrontPicked(s: State, c: nat, i: nat, k: nat) returns (t: State)
    requires Queues(s, c, i, k)
    ensures Prios(s) && Enabled(s, DoPick(c)) && t == Apply(s, DoPick(c))
    ensures Inv(t) && TopPrio(t) && t.lock == Some(c) && OnCpu(t, c) && Sized(t)
    ensures Cur(t, c) == s.prioque[PRIOENTRIES - 1][0] && t.procs[Cur(t, c)].state == Running
    ensures t.prioque[PRIOENTRIES - 1] == s.prioque[PRIOENTRIES - 1][1..]
  {
    LowEmpty(s);
    PickFront(s, PRIOENTRIES - 1);
    t := Pick(s, c);
    PickShape(s, c, PRIOENTRIES - 1, t);
    StepKeeps(s, DoPick(c), t);
    StepTop(s, DoPick(c), t);
  }

  /** The process that was picked goes on and leaves the cpu. */
  lemma Leaves(s: State, c: nat) returns (es: seq<Event>, t: State)
    requires Inv(s) && TopPrio(s) && s.lock == Some(c) && OnCpu(s, c) && Sized(s)
    ensures Reach(s, es, t) && Inv(t) && TopPrio(t) && Sized(t)
    ensures t.lock.None? && |t.cpus| == |s.cpus| && t.cpus[c].None?
    ensures s.prioque[PRIOENTRIES - 1] <= t.prioque[PRIOENTRIES - 1]
  {
    var u := Apply(s, Resume(c));
    StepKeeps(s, Resume(c), u);
    StepTop(s, Resume(c), u);
    ReachOne(s, Resume(c));
    Resumed(s, c, u);
    if u.cpus[c].None? {
      es, t := [Resume(c)], u;
    } else {
      t := Apply(u, DoYield(c));
      StepKeeps(u, DoYield(c), t);
      StepTop(u, DoYield(c), t);
      ReachOne(u, DoYield(c));
      ReachThen(s, [Resume(c)], u, [DoYield(c)], t);
      es := [Resume(c)] + [DoYield(c)];
      Yields(u, c, t);
    }
  }

  lemma Yields(u: State, c: nat, t: State)
    requires Inv(u) && OnCpu(u, c) && t == Yield(u, c) && Pushed(u, t)
    ensures Sized(t) && t.lock == u.lock && |t.cpus| == |u.cpus| && t.cpus[c].None?
    ensures u.prioque[PRIOENTRIES - 1] <= t.prioque[PRIOENTRIES - 1]
  {
  }

  lemma Resumed(s: State, c: nat, u: State)
    requires Inv(s) && s.lock == Some(c) && OnCpu(s, c) && u == Apply(s, Resume(c)) && Pushed(s, u)
    ensures Sized(u) && u.lock.None? && |u.cpus| == |s.cpus| && s.prioque[PRIOENTRIES - 1] <= u.prioque[PRIOENTRIES - 1]
    ensures u.cpus[c].None? || (OnCpu(u, c) && PcOf(u, c) != Waiting)
  {
  }

  /** From every such state, process i can get to run: those ahead of it run and leave, one after the other. */
  lemma {:induction false} CanRun(s: State, c: nat, i: nat, k: nat) returns (es: seq<Event>, t: State)
    requires Queues(s, c, i, k)
    ensures Reach(s, es, t) && OnCpu(t, c) && Cur(t, c) == i && t.procs[i].state == Running
    decreases k
  {
    t := FrontPicked(s, c, i, k);
    ReachOne(s, DoPick(c));
    es := [DoPick(c)];
    if k > 0 {
      var fs, u := Leaves(t, c);
      ReachThen(s, es, t, fs, u);
      var q, q' := s.prioque[PRIOENTRIES - 1], u.prioque[PRIOENTRIES - 1];
      assert q'[k - 1] == q[1..][k - 1] == q[k];
      var gs;
      gs, t := CanRun(u, c, i, k - 1);
      ReachThen(s, es + fs, u, gs, t);
      es := es + fs + gs;
    }
  }

  /** Over every run from boot: whenever a cpu is idle and ptablelock free, every Runnable process can get to
      run on that cpu, whatever stands before it. */
  lemma EveryoneCanRun(n: nat, m: nat, base: nat, ss: seq<State>, es: seq<Event>, x: nat, c: nat, i: nat)
    returns (fs: seq<Event>, t: State)
    requires Run(ss, es) && ss[0] == Boot(n, m, base) && x < |ss|
    requires ss[x].lock.None? && c < |ss[x].cpus| && ss[x].cpus[c].None?
    requires i < |ss[x].procs| && ss[x].procs[i].state == Runnable
    ensures Reach(ss[x], fs, t) && OnCpu(t, c) && Cur(t, c) == i && t.procs[i].state == Running
  {
    RunTop(n, m, base, ss, es, x);
    var k := OnTheQueue(ss[x], i);
    fs, t := CanRun(ss[x], c, i, k);
  }

  lemma OnTheQueue(s: State, i: nat) returns (k: nat)
    requires Inv(s) && TopPrio(s) && i < |s.procs| && s.procs[i].state == Runnable
    ensures Sized(s) && k < |s.prioque[PRIOENTRIES - 1]| && s.prioque[PRIOENTRIES - 1][k] == i
  {
    TopHas(s, i);
    assert OnList(s, -1, i);
    var q := s.prioque[PRIOENTRIES - 1];
    assert ListAt(s, Queue(PRIOENTRIES - 1)) == q;
    k :| 0 <= k < |q| && q[k] == i;
  }
}
