/** One sleep lock of kern/sleeplock.c, with the parts of sleep and wakeup of kern/proc.c it goes
    through, one step per access to a spin lock or to shared state. Any number of processes call
    acquiresleep, and releasesleep when they hold the lock; everything else that takes ptablelock is the
    environment, which may also wake a sleeper for no reason. */
module SleepLock {
  import opened Common

  datatype Pc =
    | Out                   // not using the lock
    | Acquire               // acquiresleep: at acquire(&lk->lk)
    | Test                  // at `while (lk->locked)`
    | Got                   // locked and pid written, at release(&lk->lk)
    | Holding               // acquiresleep has returned
    | SleepPt               // sleep: at acquire(&ptablelock)
    | SleepDrop             // at release(lk)
    | SleepMark             // at p->state = SLEEPING, list_push_back and sched
    | Asleep
    | Woken                 // RUNNABLE, waiting for the scheduler, which hands it ptablelock
    | Back                  // at release(&ptablelock)
    | Again                 // at acquire(lk)
    | Release               // releasesleep: at acquire(&lk->lk)
    | Clear                 // at lk->locked = 0
    | WakePt                // wakeup: at acquire(&ptablelock)
    | Wake                  // at wakeup1
    | WakeDone              // at release(&ptablelock)
    | Done                  // at release(&lk->lk)

  datatype Who = Nobody | Process(i: nat) | Environment

  /** `pid` is lk->pid, process i having pid i + 1. */
  datatype State = State(pcs: seq<Pc>, lk: Option<nat>, pt: Who, locked: bool, pid: nat)

  datatype Event = Call(i: nat) | Step(i: nat) | EnvTake | EnvWake(i: nat) | EnvDrop

  predicate Enabled(s: State, e: Event) {
    match e
    case Call(i) => i < |s.pcs| && (s.pcs[i] == Out || s.pcs[i] == Holding)
    case Step(i) =>
      i < |s.pcs|
      && (match s.pcs[i]
          case Out => false
          case Holding => false
          case Asleep => false
          case Acquire => s.lk.None?
          case Again => s.lk.None?
          case Release => s.lk.None?
          case SleepPt => s.pt.Nobody?
          case Woken => s.pt.Nobody?
          case WakePt => s.pt.Nobody?
          case _ => true)
    case EnvTake => s.pt.Nobody?
    case EnvWake(i) => s.pt.Environment? && i < |s.pcs| && s.pcs[i] == Asleep
    case EnvDrop => s.pt.Environment?
  }

  function Go(s: State, i: nat, pc: Pc): State
    requires i < |s.pcs|
  {
    s.(pcs := s.pcs[i := pc])
  }

  /** wakeup1 on this channel. */
  function WakeAll(pcs: seq<Pc>): (r: seq<Pc>)
    ensures |r| == |pcs| && forall i :: 0 <= i < |pcs| ==> r[i] == if pcs[i] == Asleep then Woken else pcs[i]
  {
    seq(|pcs|, i requires 0 <= i < |pcs| => if pcs[i] == Asleep then Woken else pcs[i])
  }

  function Apply(s: State, e: Event): State
    requires Enabled(s, e)
  {
    match e
    case Call(i) => Go(s, i, if s.pcs[i] == Out then Acquire else Release)
    case EnvTake => s.(pt := Environment)
    case EnvWake(i) => Go(s, i, Woken)
    case EnvDrop => s.(pt := Nobody)
    case Step(i) =>
      match s.pcs[i]
      case Acquire => Go(s, i, Test).(lk := Some(i))
      case Test => if s.locked then Go(s, i, SleepPt) else Go(s, i, Got).(locked := true, pid := i + 1)
      case Got => Go(s, i, Holding).(lk := None)
      case SleepPt => Go(s, i, SleepDrop).(pt := Process(i))
      case SleepDrop => Go(s, i, SleepMark).(lk := None)
      case SleepMark => Go(s, i, Asleep).(pt := Nobody)
      case Woken => Go(s, i, Back).(pt := Process(i))
      case Back => Go(s, i, Again).(pt := Nobody)
      case Again => Go(s, i, Test).(lk := Some(i))
      case Release => Go(s, i, Clear).(lk := Some(i))
      case Clear => Go(s, i, WakePt).(locked := false, pid := 0)
      case WakePt => Go(s, i, Wake).(pt := Process(i))
      case Wake => Go(s.(pcs := WakeAll(s.pcs)), i, WakeDone)
      case WakeDone => Go(s, i, Done).(pt := Nobody)
      case Done => Go(s, i, Out).(lk := None)
  }

  // ---- the invariant -----------------------------------------------------------------------

  predicate HasLk(pc: Pc) {
    pc in {Test, Got, SleepPt, SleepDrop, Clear, WakePt, Wake, WakeDone, Done}
  }

  predicate HasPt(pc: Pc) {
    pc in {SleepDrop, SleepMark, Back, Wake, WakeDone}
  }

  /** From writing `locked = 1` up to writing `locked = 0`. */
  predicate Owns(pc: Pc) {
    pc in {Got, Holding, Release, Clear}
  }

  /** The releaser has cleared the lock and not yet called wakeup1. */
  predicate WillWake(s: State) {
    s.lk.Some? && s.lk.value < |s.pcs| && (s.pcs[s.lk.value] == WakePt || s.pcs[s.lk.value] == Wake)
  }

  predicate ProcOk(s: State, i: nat)
    requires i < |s.pcs|
  {
    var pc := s.pcs[i];
    (HasLk(pc) <==> s.lk == Some(i))
    && (HasPt(pc) <==> s.pt == Process(i))
    && (Owns(pc) <==> s.locked && s.pid == i + 1)
    && (pc == SleepPt || pc == SleepDrop ==> s.locked)
    && (pc == SleepMark || pc == Asleep ==> s.locked || WillWake(s))
  }

  predicate Inv(s: State) {
    (s.lk.Some? ==> s.lk.value < |s.pcs|) && (s.pt.Process? ==> s.pt.i < |s.pcs|)
      && (s.locked <==> 0 < s.pid <= |s.pcs|)
    && (!s.locked ==> s.pid == 0)
    && forall i :: 0 <= i < |s.pcs| ==> ProcOk(s, i)
  }

  lemma OutsideKeeps(s: State, e: Event, t: State)
    requires Inv(s) && Enabled(s, e) && t == Apply(s, e) && !e.Step?
    ensures Inv(t)
  {
    forall j | 0 <= j < |t.pcs| ensures ProcOk(t, j) { assert ProcOk(s, j); }
  }

  lemma TakeLkKeeps(s: State, i: nat, t: State)
    requires Inv(s) && Enabled(s, Step(i)) && t == Apply(s, Step(i)) && s.pcs[i] in {Acquire, Again, Release}
    ensures Inv(t)
  {
    forall j | 0 <= j < |t.pcs| ensures ProcOk(t, j) { assert ProcOk(s, j); }
  }

  lemma DropLkKeeps(s: State, i: nat, t: State)
    requires Inv(s) && Enabled(s, Step(i)) && t == Apply(s, Step(i)) && s.pcs[i] in {Got, SleepDrop, Done}
    ensures Inv(t)
  {
    assert ProcOk(s, i);
    forall j | 0 <= j < |t.pcs| ensures ProcOk(t, j) { assert ProcOk(s, j); }
  }

  lemma PtKeeps(s: State, i: nat, t: State)
    requires Inv(s) && Enabled(s, Step(i)) && t == Apply(s, Step(i))
    requires s.pcs[i] in {SleepPt, SleepMark, Woken, Back, WakePt, WakeDone}
    ensures Inv(t)
  {
    assert ProcOk(s, i);
    forall j | 0 <= j < |t.pcs| ensures ProcOk(t, j) { assert ProcOk(s, j); }
  }

  lemma DataKeeps(s: State, i: nat, t: State)
    requires Inv(s) && Enabled(s, Step(i)) && t == Apply(s, Step(i)) && s.pcs[i] in {Test, Clear, Wake}
    ensures Inv(t)
  {
    assert ProcOk(s, i);
    forall j | 0 <= j < |t.pcs| ensures ProcOk(t, j) { assert ProcOk(s, j); }
  }

  lemma StepKeeps(s: State, e: Event, t: State)
    requires Inv(s) && Enabled(s, e) && t == Apply(s, e)
    ensures Inv(t)
  {
    if !e.Step? {
      OutsideKeeps(s, e, t);
    } else {
      var i := e.i;
      if s.pcs[i] in {Acquire, Again, Release} {
        TakeLkKeeps(s, i, t);
      } else if s.pcs[i] in {Got, SleepDrop, Done} {
        DropLkKeeps(s, i, t);
      } else if s.pcs[i] in {Test, Clear, Wake} {
        DataKeeps(s, i, t);
      } else {
        PtKeeps(s, i, t);
      }
    }
  }

  function Boot(n: nat): State {
    State(seq(n, _ => Out), None, Nobody, false, 0)
  }

  ghost predicate StepOk(s: State, e: Event, t: State) {
    Enabled(s, e) && t == Apply(s, e)
  }

  ghost predicate Run(ss: seq<State>, es: seq<Event>) {
    |ss| == |es| + 1 && forall k :: 0 <= k < |es| ==> StepOk(ss[k], es[k], ss[k + 1])
  }

  lemma {:induction false} RunKeeps(n: nat, ss: seq<State>, es: seq<Event>, k: nat)
    requires Run(ss, es) && ss[0] == Boot(n) && k < |ss|
    ensures Inv(ss[k])
  {
    if k > 0 {
      RunKeeps(n, ss, es, k - 1);
      assert StepOk(ss[k - 1], es[k - 1], ss[k]);
      StepKeeps(ss[k - 1], es[k - 1], ss[k]);
    }
  }

  /** At most one process holds the lock in any state of any run. */
  lemma MutualExclusion(n: nat, ss: seq<State>, es: seq<Event>, k: nat, i: nat, j: nat)
    requires Run(ss, es) && ss[0] == Boot(n) && k < |ss| && i < |ss[k].pcs| && j < |ss[k].pcs|
    requires Owns(ss[k].pcs[i]) && Owns(ss[k].pcs[j])
    ensures i == j
  {
    RunKeeps(n, ss, es, k);
    assert ProcOk(ss[k], i) && ProcOk(ss[k], j);
  }

  /** Whenever the spin lock and ptablelock are both free, a process asleep on the lock implies that it
      is locked, and by a process whose releasesleep is still to come: no wakeup is lost. */
  lemma NoLostWakeup(n: nat, ss: seq<State>, es: seq<Event>, k: nat, i: nat)
    requires Run(ss, es) && ss[0] == Boot(n) && k < |ss| && ss[k].lk.None? && ss[k].pt.Nobody?
    requires i < |ss[k].pcs| && ss[k].pcs[i] == Asleep
    ensures ss[k].locked && exists j :: 0 <= j < |ss[k].pcs| && (ss[k].pcs[j] == Holding || ss[k].pcs[j] == Release)
  {
    RunKeeps(n, ss, es, k);
    var s := ss[k];
    assert ProcOk(s, i);
    var j := s.pid - 1;
    assert ProcOk(s, j);
    assert s.pcs[j] == Holding || s.pcs[j] == Release;
  }

  /** holdingsleep: whether the lock is held with the caller's pid. */
  function HoldingSleep(s: State, i: nat): bool {
    s.locked && s.pid == i + 1
  }

  /** In any state, holdingsleep says yes exactly to the process that holds the lock. */
  lemma HoldingSleepExact(n: nat, ss: seq<State>, es: seq<Event>, k: nat, i: nat)
    requires Run(ss, es) && ss[0] == Boot(n) && k < |ss| && i < |ss[k].pcs|
    ensures HoldingSleep(ss[k], i) <==> Owns(ss[k].pcs[i])
  {
    RunKeeps(n, ss, es, k);
    assert ProcOk(ss[k], i);
  }

  /** Once wakeup1 has run, no one is left asleep: each sleeper will test the lock again. */
  lemma ReleaseWakesAll(s: State, i: nat, t: State)
    requires Inv(s) && i < |s.pcs| && s.pcs[i] == Wake && t == Apply(s, Step(i))
    ensures forall j :: 0 <= j < |t.pcs| ==> t.pcs[j] !in {Asleep, SleepPt, SleepDrop, SleepMark}
  {
    forall j | 0 <= j < |t.pcs| ensures t.pcs[j] !in {Asleep, SleepPt, SleepDrop, SleepMark} {
      assert ProcOk(s, i) && ProcOk(s, j);
    }
  }

  // ---- everyone can finish -----------------------------------------------------------------

  /** How far a process has to go. */
  function Left(pc: Pc): nat {
    match pc
    case Woken => 22
    case Back => 21
    case Acquire => 20
    case Again => 20
    case Test => 19
    case SleepPt => 18
    case SleepDrop => 17
    case SleepMark => 16
    case Asleep => 15
    case Got => 10
    case Holding => 9
    case Release => 8
    case Clear => 7
    case WakePt => 6
    case Wake => 5
    case WakeDone => 4
    case Done => 3
    case Out => 0
  }

  /** The process has not made its wakeup yet. */
  predicate WakesLater(pc: Pc) {
    pc !in {WakeDone, Done, Out}
  }

  /** The way left for all of n processes; a wakeup still to come may set every sleeper back. */
  function LeftOf(pcs: seq<Pc>, n: nat): nat {
    if pcs == [] then 0 else LeftOf(pcs[1..], n) + Left(pcs[0]) + if WakesLater(pcs[0]) then 8 * n else 0
  }

  function Measure(s: State): nat {
    LeftOf(s.pcs, |s.pcs|) + if s.pt.Environment? then 1 else 0
  }

  lemma {:induction false} LeftPut(pcs: seq<Pc>, n: nat, i: nat, pc: Pc)
    requires i < |pcs|
    ensures LeftOf(pcs[i := pc], n)
      == LeftOf(pcs, n) - Left(pcs[i]) - (if WakesLater(pcs[i]) then 8 * n else 0)
         + Left(pc) + (if WakesLater(pc) then 8 * n else 0)
    decreases |pcs|
  {
    if i > 0 {
      LeftPut(pcs[1..], n, i - 1, pc);
      assert pcs[i := pc][1..] == pcs[1..][i - 1 := pc];
    } else {
      assert pcs[i := pc][1..] == pcs[1..];
    }
  }

  lemma {:induction false} LeftWoken(pcs: seq<Pc>, n: nat)
    ensures LeftOf(WakeAll(pcs), n) <= LeftOf(pcs, n) + 7 * |pcs|
    decreases |pcs|
  {
    if pcs != [] {
      LeftWoken(pcs[1..], n);
      assert WakeAll(pcs)[1..] == WakeAll(pcs[1..]);
    }
  }

  /** Steps of processes, of a holder who lets go, and of the environment giving up ptablelock. */
  predicate Finishing(s: State, e: Event) {
    match e
    case Step(_) => true
    case Call(i) => i < |s.pcs| && s.pcs[i] == Holding
    case EnvDrop => true
    case _ => false
  }

  lemma Advances(s: State, e: Event, t: State)
    requires Inv(s) && Enabled(s, e) && Finishing(s, e) && t == Apply(s, e)
    ensures Measure(t) < Measure(s) && |t.pcs| == |s.pcs|
  {
    var n := |s.pcs|;
    if e.Step? && s.pcs[e.i] == Wake {
      var woken := WakeAll(s.pcs);
      LeftWoken(s.pcs, n);
      LeftPut(woken, n, e.i, WakeDone);
    } else if e.Step? || e.Call? {
      LeftPut(s.pcs, n, e.i, t.pcs[e.i]);
      StepShorter(s, e, t);
    }
  }

  lemma StepShorter(s: State, e: Event, t: State)
    requires Inv(s) && Enabled(s, e) && Finishing(s, e) && t == Apply(s, e) && (e.Step? || e.Call?)
    requires s.pcs[e.i] != Wake
    ensures t.pcs == s.pcs[e.i := t.pcs[e.i]] && Left(t.pcs[e.i]) < Left(s.pcs[e.i])
    ensures WakesLater(t.pcs[e.i]) ==> WakesLater(s.pcs[e.i])
    ensures t.pt.Environment? ==> s.pt.Environment?
  {
    assert ProcOk(s, e.i);
  }

  /** While anyone is at the lock, someone can take such a step. */
  lemma SomeoneCan(s: State, i: nat) returns (e: Event)
    requires Inv(s) && i < |s.pcs| && s.pcs[i] != Out
    ensures Enabled(s, e) && Finishing(s, e)
  {
    assert ProcOk(s, i);
    if s.pt.Environment? {
      e := EnvDrop;
    } else if s.pt.Process? {
      assert ProcOk(s, s.pt.i);
      e := Step(s.pt.i);
    } else if s.lk.Some? {
      assert ProcOk(s, s.lk.value);
      e := Step(s.lk.value);
    } else if s.pcs[i] == Asleep {
      e := OwnerCan(s, i);
    } else {
      e := if s.pcs[i] == Holding then Call(i) else Step(i);
    }
  }

  lemma OwnerCan(s: State, i: nat) returns (e: Event)
    requires Inv(s) && i < |s.pcs| && s.pcs[i] == Asleep && s.lk.None? && s.pt.Nobody?
    ensures Enabled(s, e) && Finishing(s, e)
  {
    assert ProcOk(s, i);
    var j := s.pid - 1;
    assert ProcOk(s, j);
    e := if s.pcs[j] == Holding then Call(j) else Step(j);
  }

  /** From every reachable state, processes that let go of what they hold can go on so that all of them get
      through: nobody waits for ever on a spin lock, on ptablelock or asleep. */
  lemma {:induction false} EveryoneCanFinish(s: State) returns (ss: seq<State>, es: seq<Event>)
    requires Inv(s)
    ensures Run(ss, es) && ss[0] == s && forall k :: 0 <= k < |es| ==> Finishing(ss[k], es[k])
    ensures forall i :: 0 <= i < |ss[|es|].pcs| ==> ss[|es|].pcs[i] == Out
    decreases Measure(s)
  {
    if i :| 0 <= i < |s.pcs| && s.pcs[i] != Out {
      var e := SomeoneCan(s, i);
      var t := Apply(s, e);
      StepKeeps(s, e, t);
      Advances(s, e, t);
      var ss', es' := EveryoneCanFinish(t);
      ss, es := [s] + ss', [e] + es';
      Prepended(s, e, ss', es');
    } else {
      ss, es := [s], [];
    }
  }

  lemma Prepended(s: State, e: Event, ss: seq<State>, es: seq<Event>)
    requires Run(ss, es) && StepOk(s, e, ss[0]) && Finishing(s, e)
    requires forall k :: 0 <= k < |es| ==> Finishing(ss[k], es[k])
    ensures Run([s] + ss, [e] + es) && forall k :: 0 <= k < |es| + 1 ==> Finishing(([s] + ss)[k], ([e] + es)[k])
  {
    var ss', es' := [s] + ss, [e] + es;
    forall k | 0 <= k < |es'| ensures StepOk(ss'[k], es'[k], ss'[k + 1]) && Finishing(ss'[k], es'[k]) {
      if k > 0 { assert StepOk(ss[k - 1], es[k - 1], ss[k]); }
    }
  }
}
