/** The SD request queue of kern/sd.c: sdrw and sd_intr, one step per access to a lock, to the queue or
    to the device, for any number of requesters. The device is abstract: a started command completes
    once, and raises one interrupt. Requester i owns buffer i while it is inside sdrw, and no two
    requesters sync the same block at once. Whatever else takes ptablelock is the environment. */
module SdQueue {
  import opened Common

  type Data = nat

  datatype Pc =
    | Out
    | Enter                 // sdrw: at acquire(&sdlock)
    | Queue                 // at list_push_back, and sd_start when the queue was empty
    | SleepPt               // sleep: at acquire(&ptablelock)
    | SleepDrop             // at release(&sdlock)
    | SleepMark             // at p->state = SLEEPING and sched
    | Asleep
    | Woken                 // RUNNABLE, waiting for the scheduler, which hands it ptablelock
    | Back                  // at release(&ptablelock)
    | Again                 // at acquire(&sdlock)
    | Exit                  // at sdrw's release(&sdlock)

  datatype Handler =
    | Idle
    | IntEnter              // sd_intr: at acquire(&sdlock)
    | IntFlags              // at reading the data and setting the flags
    | IntWakePt             // wakeup: at acquire(&ptablelock)
    | IntWake               // at wakeup1
    | IntWakeDone           // at release(&ptablelock)
    | IntPop                // at list_pop_front, and sd_start for the next request
    | IntExit               // at release(&sdlock)

  datatype Who = Nobody | Process(i: nat) | Interrupt | Environment

  datatype Device = Free | Busy(i: nat) | Ready(i: nat, data: Data)

  datatype Buf = Buf(block: nat, data: Data, valid: bool, dirty: bool)

  /** `arrived` and `completed` are histories: the requests in the order of sdlock, and of completion. */
  datatype State = State(pcs: seq<Pc>, bufs: seq<Buf>, que: seq<nat>, dev: Device, disk: map<nat, Data>, intr: Handler,
                         lk: Who, pt: Who, arrived: seq<nat>, completed: seq<nat>)

  datatype Event =
    | Call(i: nat, block: nat, data: Data, dirty: bool)     // the caller fills its buffer and calls sdrw
    | Step(i: nat)
    | Transfer                                              // the device finishes the command
    | Raise                                                 // and interrupts
    | IntStep
    | EnvTake
    | EnvDrop

  predicate Enabled(s: State, e: Event) {
    |s.bufs| == |s.pcs|
    && match e
       case Call(i, block, _, _) =>
         i < |s.pcs| && s.pcs[i] == Out && block in s.disk
         && forall j :: 0 <= j < |s.pcs| && s.pcs[j] != Out ==> s.bufs[j].block != block
       case Step(i) =>
         i < |s.pcs|
         && (match s.pcs[i]
             case Out => false
             case Asleep => false
             case Enter => s.lk.Nobody?
             case Again => s.lk.Nobody?
             case SleepPt => s.pt.Nobody?
             case Woken => s.pt.Nobody?
             case _ => true)
       case Transfer => s.dev.Busy? && s.dev.i < |s.bufs| && s.bufs[s.dev.i].block in s.disk
       case Raise => s.intr.Idle? && s.dev.Ready?
       case IntStep =>
         (match s.intr
          case Idle => false
          case IntEnter => s.lk.Nobody?
          case IntFlags => s.que != [] && s.que[0] < |s.bufs| && s.dev.Ready?
          case IntWakePt => s.pt.Nobody?
          case IntWake => s.que != [] && s.que[0] < |s.pcs|
          case IntPop => s.que != []
          case _ => true)
       case EnvTake => s.pt.Nobody?
       case EnvDrop => s.pt.Environment?
  }

  function Go(s: State, i: nat, pc: Pc): State
    requires i < |s.pcs|
  {
    s.(pcs := s.pcs[i := pc])
  }

  /** What sd_intr does to the head's buffer. */
  function Finish(b: Buf, d: Data): Buf {
    b.(data := if b.dirty then b.data else d, valid := true, dirty := false)
  }

  function ApplyStep(s: State, i: nat): State
    requires Enabled(s, Step(i))
  {
    match s.pcs[i]
    case Enter => Go(s, i, Queue).(lk := Process(i))
    case Queue =>
      Go(s, i, SleepPt).(que := s.que + [i], arrived := s.arrived + [i], dev := if s.que == [] then Busy(i) else s.dev)
    case SleepPt => Go(s, i, SleepDrop).(pt := Process(i))
    case SleepDrop => Go(s, i, SleepMark).(lk := Nobody)
    case SleepMark => Go(s, i, Asleep).(pt := Nobody)
    case Woken => Go(s, i, Back).(pt := Process(i))
    case Back => Go(s, i, Again).(pt := Nobody)
    case Again => Go(s, i, Exit).(lk := Process(i))
    case Exit => Go(s, i, Out).(lk := Nobody)
  }

  function ApplyInt(s: State): State
    requires Enabled(s, IntStep)
  {
    match s.intr
    case IntEnter => s.(intr := IntFlags, lk := Interrupt)
    case IntFlags =>
      s.(intr := IntWakePt, bufs := s.bufs[s.que[0] := Finish(s.bufs[s.que[0]], s.dev.data)], dev := Free)
    case IntWakePt => s.(intr := IntWake, pt := Interrupt)
    case IntWake =>
      s.(intr := IntWakeDone, pcs := if s.pcs[s.que[0]] == Asleep then s.pcs[s.que[0] := Woken] else s.pcs)
    case IntWakeDone => s.(intr := IntPop, pt := Nobody)
    case IntPop =>
      s.(intr := IntExit, completed := s.completed + [s.que[0]], que := s.que[1..],
         dev := if |s.que| > 1 then Busy(s.que[1]) else s.dev)
    case IntExit => s.(intr := Idle, lk := Nobody)
  }

  function Apply(s: State, e: Event): State
    requires Enabled(s, e)
  {
    match e
    case Call(i, block, data, dirty) => Go(s, i, Enter).(bufs := s.bufs[i := Buf(block, data, false, dirty)])
    case Step(i) => ApplyStep(s, i)
    case Transfer =>
      var b := s.bufs[s.dev.i];
      if b.dirty then s.(disk := s.disk[b.block := b.data], dev := Ready(s.dev.i, b.data))
      else s.(dev := Ready(s.dev.i, s.disk[b.block]))
    case Raise => s.(intr := IntEnter)
    case IntStep => ApplyInt(s)
    case EnvTake => s.(pt := Environment)
    case EnvDrop => s.(pt := Nobody)
  }

  // ---- the invariant -----------------------------------------------------------------------

  predicate HasLk(pc: Pc) {
    pc in {Queue, SleepPt, SleepDrop, Exit}
  }

  predicate HasPt(pc: Pc) {
    pc in {SleepDrop, SleepMark, Back}
  }

  /** Queued and not yet woken. */
  predicate Pending(pc: Pc) {
    pc in {SleepPt, SleepDrop, SleepMark, Asleep}
  }

  predicate Returning(pc: Pc) {
    pc in {Woken, Back, Again, Exit}
  }

  /** The buffer agrees with the disk. */
  predicate Synced(s: State, i: nat)
    requires i < |s.bufs|
  {
    s.bufs[i].valid && !s.bufs[i].dirty && s.bufs[i].block in s.disk && s.disk[s.bufs[i].block] == s.bufs[i].data
  }

  predicate PastWake(h: Handler) {
    h == IntWakeDone || h == IntPop
  }

  predicate IsHead(s: State, i: nat) {
    s.que != [] && s.que[0] == i
  }

  predicate ProcOk(s: State, i: nat)
    requires i < |s.pcs| == |s.bufs|
  {
    var pc := s.pcs[i];
    (HasLk(pc) <==> s.lk == Process(i))
    && (HasPt(pc) <==> s.pt == Process(i))
    && (pc != Out ==> s.bufs[i].block in s.disk)
    && (Pending(pc) ==> i in s.que && !(PastWake(s.intr) && IsHead(s, i)))
    && (i in s.que ==> Pending(pc) || (PastWake(s.intr) && IsHead(s, i) && Returning(pc)))
    && (Returning(pc) ==> Synced(s, i))
  }

  predicate SameBlock(s: State, i: nat, j: nat)
    requires i < |s.pcs| == |s.bufs| && j < |s.pcs|
  {
    s.pcs[i] != Out && s.pcs[j] != Out && s.bufs[i].block == s.bufs[j].block
  }

  /** A command is outstanding for the head exactly while the queue is not empty, up to the handler's
      taking its completion and starting the next. */
  predicate DeviceOk(s: State) {
    match s.intr
    case Idle => (s.que == [] && s.dev.Free?) || Outstanding(s)
    case IntExit => (s.que == [] && s.dev.Free?) || Outstanding(s)
    case IntEnter => Outstanding(s) && s.dev.Ready?
    case IntFlags => Outstanding(s) && s.dev.Ready?
    case _ => s.que != [] && s.dev.Free? && s.que[0] < |s.bufs| && Synced(s, s.que[0])
  }

  predicate Outstanding(s: State) {
    s.que != [] && !s.dev.Free? && s.dev.i == s.que[0]
  }

  /** What a finished command has done. */
  predicate Transferred(s: State) {
    s.dev.Ready? ==>
      s.dev.i < |s.bufs| && s.bufs[s.dev.i].block in s.disk
      && s.disk[s.bufs[s.dev.i].block] == if s.bufs[s.dev.i].dirty then s.bufs[s.dev.i].data else s.dev.data
  }

  predicate LocksOk(s: State) {
    (s.lk.Process? ==> s.lk.i < |s.pcs|) && (s.pt.Process? ==> s.pt.i < |s.pcs|) && !s.lk.Environment?
    && (s.lk.Interrupt? <==> s.intr !in {Idle, IntEnter}) && (s.pt.Interrupt? <==> s.intr in {IntWake, IntWakeDone})
  }

  predicate Inv(s: State) {
    |s.pcs| == |s.bufs| && LocksOk(s) && DeviceOk(s) && Transferred(s)
    && NoDup(s.que) && (forall a :: 0 <= a < |s.que| ==> s.que[a] < |s.pcs|)
    && (forall i :: 0 <= i < |s.pcs| ==> ProcOk(s, i))
    && (forall i, j :: 0 <= i < j < |s.pcs| ==> !SameBlock(s, i, j))
    && s.arrived == s.completed + s.que
  }

  lemma CallKeeps(s: State, i: nat, block: nat, data: Data, dirty: bool, t: State)
    requires Inv(s) && Enabled(s, Call(i, block, data, dirty)) && t == Apply(s, Call(i, block, data, dirty))
    ensures Inv(t)
  {
    assert ProcOk(s, i);
    forall j | 0 <= j < |t.pcs| ensures ProcOk(t, j) { assert ProcOk(s, j); }
    forall a, b | 0 <= a < b < |t.pcs| ensures !SameBlock(t, a, b) { assert !SameBlock(s, a, b); }
  }

  lemma QueueKeeps(s: State, i: nat, t: State)
    requires Inv(s) && Enabled(s, Step(i)) && t == Apply(s, Step(i)) && s.pcs[i] == Queue
    ensures Inv(t)
  {
    assert ProcOk(s, i);
    assert t.que[|s.que|] == i;
    forall j | 0 <= j < |t.pcs| ensures ProcOk(t, j) { assert ProcOk(s, j); }
    forall a, b | 0 <= a < b < |t.pcs| ensures !SameBlock(t, a, b) { assert !SameBlock(s, a, b); }
  }

  lemma SdlockKeeps(s: State, i: nat, t: State)
    requires Inv(s) && Enabled(s, Step(i)) && t == Apply(s, Step(i)) && s.pcs[i] in {Enter, SleepDrop, Again, Exit}
    ensures Inv(t)
  {
    assert ProcOk(s, i);
    forall j | 0 <= j < |t.pcs| ensures ProcOk(t, j) { assert ProcOk(s, j); }
    forall a, b | 0 <= a < b < |t.pcs| ensures !SameBlock(t, a, b) { assert !SameBlock(s, a, b); }
  }

  lemma PtablelockKeeps(s: State, i: nat, t: State)
    requires Inv(s) && Enabled(s, Step(i)) && t == Apply(s, Step(i)) && s.pcs[i] in {SleepPt, SleepMark, Woken, Back}
    ensures Inv(t)
  {
    assert ProcOk(s, i);
    forall j | 0 <= j < |t.pcs| ensures ProcOk(t, j) { assert ProcOk(s, j); }
    forall a, b | 0 <= a < b < |t.pcs| ensures !SameBlock(t, a, b) { assert !SameBlock(s, a, b); }
  }

  lemma OutsideKeeps(s: State, e: Event, t: State)
    requires Inv(s) && Enabled(s, e) && t == Apply(s, e) && (e.Raise? || e.EnvTake? || e.EnvDrop?)
    ensures Inv(t)
  {
    forall j | 0 <= j < |t.pcs| ensures ProcOk(t, j) { assert ProcOk(s, j); }
    forall a, b | 0 <= a < b < |t.pcs| ensures !SameBlock(t, a, b) { assert !SameBlock(s, a, b); }
  }

  lemma TransferKeeps(s: State, t: State)
    requires Inv(s) && Enabled(s, Transfer) && t == Apply(s, Transfer)
    ensures Inv(t)
  {
    var h := s.dev.i;
    assert s.que[0] == h && ProcOk(s, h);
    forall j | 0 <= j < |t.pcs| ensures ProcOk(t, j) {
      assert ProcOk(s, j);
      assert j < h ==> !SameBlock(s, j, h);
      assert h < j ==> !SameBlock(s, h, j);
    }
    forall a, b | 0 <= a < b < |t.pcs| ensures !SameBlock(t, a, b) { assert !SameBlock(s, a, b); }
  }

  lemma IntLockKeeps(s: State, t: State)
    requires Inv(s) && Enabled(s, IntStep) && t == Apply(s, IntStep)
    requires s.intr in {IntEnter, IntWakePt, IntWakeDone, IntExit}
    ensures Inv(t)
  {
    forall j | 0 <= j < |t.pcs| ensures ProcOk(t, j) { assert ProcOk(s, j); }
    forall a, b | 0 <= a < b < |t.pcs| ensures !SameBlock(t, a, b) { assert !SameBlock(s, a, b); }
  }

  lemma IntFlagsKeeps(s: State, t: State)
    requires Inv(s) && Enabled(s, IntStep) && t == Apply(s, IntStep) && s.intr == IntFlags
    ensures Inv(t)
  {
    forall j | 0 <= j < |t.pcs| ensures ProcOk(t, j) { assert ProcOk(s, j); }
    forall a, b | 0 <= a < b < |t.pcs| ensures !SameBlock(t, a, b) { assert !SameBlock(s, a, b); }
  }

  /** The head is fast asleep when it is woken: it cannot be on its way there, since that takes a lock
      the handler has. */
  lemma IntWakeKeeps(s: State, t: State)
    requires Inv(s) && Enabled(s, IntStep) && t == Apply(s, IntStep) && s.intr == IntWake
    ensures Inv(t) && s.pcs[s.que[0]] == Asleep
  {
    assert s.que[0] in s.que && ProcOk(s, s.que[0]);
    forall j | 0 <= j < |t.pcs| ensures ProcOk(t, j) { assert ProcOk(s, j); }
    forall a, b | 0 <= a < b < |t.pcs| ensures !SameBlock(t, a, b) { assert !SameBlock(s, a, b); }
  }

  lemma IntPopKeeps(s: State, t: State)
    requires Inv(s) && Enabled(s, IntStep) && t == Apply(s, IntStep) && s.intr == IntPop
    ensures Inv(t)
  {
    assert s.que == [s.que[0]] + t.que;
    forall j | 0 <= j < |t.pcs| ensures ProcOk(t, j) { assert ProcOk(s, j); }
    forall a, b | 0 <= a < b < |t.pcs| ensures !SameBlock(t, a, b) { assert !SameBlock(s, a, b); }
  }

  lemma StepKeeps(s: State, e: Event, t: State)
    requires Inv(s) && Enabled(s, e) && t == Apply(s, e)
    ensures Inv(t)
  {
    match e
    case Call(i, block, data, dirty) => CallKeeps(s, i, block, data, dirty, t);
    case Step(i) =>
      if s.pcs[i] == Queue { QueueKeeps(s, i, t); }
      else if s.pcs[i] in {Enter, SleepDrop, Again, Exit} { SdlockKeeps(s, i, t); }
      else { PtablelockKeeps(s, i, t); }
    case Transfer => TransferKeeps(s, t);
    case IntStep =>
      if s.intr == IntFlags { IntFlagsKeeps(s, t); }
      else if s.intr == IntWake { IntWakeKeeps(s, t); }
      else if s.intr == IntPop { IntPopKeeps(s, t); }
      else { IntLockKeeps(s, t); }
    case _ => OutsideKeeps(s, e, t);
  }

  // ---- runs --------------------------------------------------------------------------------

  function Boot(n: nat, disk: map<nat, Data>): State {
    State(seq(n, _ => Out), seq(n, _ => Buf(0, 0, false, false)), [], Free, disk, Idle, Nobody, Nobody, [], [])
  }

  ghost predicate StepOk(s: State, e: Event, t: State) {
    Enabled(s, e) && t == Apply(s, e)
  }

  ghost predicate Run(n: nat, disk: map<nat, Data>, ss: seq<State>, es: seq<Event>) {
    |ss| == |es| + 1 && ss[0] == Boot(n, disk) && forall k :: 0 <= k < |es| ==> StepOk(ss[k], es[k], ss[k + 1])
  }

  lemma {:induction false} RunKeeps(n: nat, disk: map<nat, Data>, ss: seq<State>, es: seq<Event>, k: nat)
    requires Run(n, disk, ss, es) && k < |ss|
    ensures Inv(ss[k])
  {
    if k > 0 {
      RunKeeps(n, disk, ss, es, k - 1);
      assert StepOk(ss[k - 1], es[k - 1], ss[k]);
      StepKeeps(ss[k - 1], es[k - 1], ss[k]);
    }
  }

  /** Whenever sdlock is free, the queue is nonempty exactly when a command is outstanding, and that
      command is the head's. */
  lemma OutstandingIffQueued(n: nat, disk: map<nat, Data>, ss: seq<State>, es: seq<Event>, k: nat)
    requires Run(n, disk, ss, es) && k < |ss| && ss[k].lk.Nobody?
    ensures ss[k].que != [] <==> !ss[k].dev.Free?
    ensures ss[k].que != [] ==> ss[k].dev.i == ss[k].que[0]
  {
    RunKeeps(n, disk, ss, es, k);
  }

  /** Requests complete in the order they arrived, each exactly once: at any time, those completed and
      then those queued are those that arrived. */
  lemma CompletesInOrder(n: nat, disk: map<nat, Data>, ss: seq<State>, es: seq<Event>, k: nat)
    requires Run(n, disk, ss, es) && k < |ss|
    ensures ss[k].arrived == ss[k].completed + ss[k].que && NoDup(ss[k].que)
  {
    RunKeeps(n, disk, ss, es, k);
  }

  /** Whenever both locks are free, a sleeping requester is still queued, so its completion, which wakes
      it, is still to come. */
  lemma NoSleeperLeft(n: nat, disk: map<nat, Data>, ss: seq<State>, es: seq<Event>, k: nat, i: nat)
    requires Run(n, disk, ss, es) && k < |ss| && i < |ss[k].pcs| && ss[k].pcs[i] == Asleep
    ensures i in ss[k].que && (ss[k].lk.Nobody? ==> !ss[k].dev.Free?)
  {
    RunKeeps(n, disk, ss, es, k);
    assert ProcOk(ss[k], i);
  }

  /** When sdrw returns, the buffer is valid and clean and equals its block on the disk. */
  lemma ReturnsSynced(n: nat, disk: map<nat, Data>, ss: seq<State>, es: seq<Event>, k: nat, i: nat)
    requires Run(n, disk, ss, es) && k < |es| && es[k] == Step(i) && i < |ss[k].pcs| && ss[k].pcs[i] == Exit
    ensures i < |ss[k + 1].bufs| == |ss[k + 1].pcs| && ss[k + 1].pcs[i] == Out && Synced(ss[k + 1], i)
  {
    RunKeeps(n, disk, ss, es, k);
    assert StepOk(ss[k], es[k], ss[k + 1]);
    assert ProcOk(ss[k], i);
  }

  /** The handler never finds the queue empty or the command unfinished: it can always take its step
      once the lock it is at is free. */
  lemma HandlerNeverStuck(n: nat, disk: map<nat, Data>, ss: seq<State>, es: seq<Event>, k: nat)
    requires Run(n, disk, ss, es) && k < |ss| && !ss[k].intr.Idle?
    ensures Enabled(ss[k], IntStep) || (ss[k].intr == IntEnter && !ss[k].lk.Nobody?)
      || (ss[k].intr == IntWakePt && !ss[k].pt.Nobody?)
  {
    RunKeeps(n, disk, ss, es, k);
  }

  // ---- every request can complete ----------------------------------------------------------

  /** How far a requester has to go; a request that is not queued yet has its command before it. */
  function Left(pc: Pc): nat {
    match pc
    case Enter => 20
    case Queue => 19
    case SleepPt => 8
    case SleepDrop => 7
    case SleepMark => 6
    case Asleep => 5
    case Woken => 4
    case Back => 3
    case Again => 2
    case Exit => 1
    case Out => 0
  }

  function LeftOf(pcs: seq<Pc>): nat {
    if pcs == [] then 0 else LeftOf(pcs[1..]) + Left(pcs[0])
  }

  /** How far the handler and the device have come with the head's command. */
  function Progress(s: State): int {
    match s.intr
    case Idle => if s.dev.Ready? then 1 else 0
    case IntEnter => 2
    case IntFlags => 3
    case IntWakePt => 4
    case IntWake => 5
    case IntWakeDone => 6
    case IntPop => 7
    case IntExit => if s.dev.Ready? then 0 else -1
  }

  function Measure(s: State): int {
    LeftOf(s.pcs) + 10 * |s.que| - Progress(s) + if s.pt.Environment? then 1 else 0
  }

  lemma {:induction false} LeftPut(pcs: seq<Pc>, i: nat, pc: Pc)
    requires i < |pcs|
    ensures LeftOf(pcs[i := pc]) == LeftOf(pcs) - Left(pcs[i]) + Left(pc)
    decreases |pcs|
  {
    if i > 0 {
      LeftPut(pcs[1..], i - 1, pc);
      assert pcs[i := pc][1..] == pcs[1..][i - 1 := pc];
    } else {
      assert pcs[i := pc][1..] == pcs[1..];
    }
  }

  /** Steps of requesters, of the device and of its handler, and of the environment giving up ptablelock. */
  predicate Finishing(e: Event) {
    e.Step? || e.Transfer? || e.Raise? || e.IntStep? || e.EnvDrop?
  }

  lemma MeasureIsNat(s: State)
    requires Inv(s)
    ensures Measure(s) >= 0
  {
  }

  lemma Advances(s: State, e: Event, t: State)
    requires Inv(s) && Enabled(s, e) && Finishing(e) && t == Apply(s, e)
    ensures Measure(t) < Measure(s)
  {
    if e.Step? {
      LeftPut(s.pcs, e.i, t.pcs[e.i]);
      RequesterAdvances(s, e.i, t);
    } else if e.IntStep? {
      HandlerAdvances(s, t);
    }
  }

  lemma RequesterAdvances(s: State, i: nat, t: State)
    requires Inv(s) && Enabled(s, Step(i)) && t == Apply(s, Step(i))
    ensures t.pcs == s.pcs[i := t.pcs[i]] && Progress(t) == Progress(s)
    ensures Left(t.pcs[i]) + 10 * |t.que| < Left(s.pcs[i]) + 10 * |s.que|
    ensures t.pt.Environment? ==> s.pt.Environment?
  {
    assert ProcOk(s, i);
  }

  lemma HandlerAdvances(s: State, t: State)
    requires Inv(s) && Enabled(s, IntStep) && t == Apply(s, IntStep)
    ensures Measure(t) < Measure(s)
  {
    if s.intr == IntWake {
      LeftPut(s.pcs, s.que[0], t.pcs[s.que[0]]);
    }
  }

  /** While anyone is inside sdrw, someone can take such a step. */
  lemma SomeoneCan(s: State, i: nat) returns (e: Event)
    requires Inv(s) && i < |s.pcs| && s.pcs[i] != Out
    ensures Enabled(s, e) && Finishing(e)
  {
    assert ProcOk(s, i);
    if s.pt.Environment? {
      e := EnvDrop;
    } else if s.pt.Process? {
      assert ProcOk(s, s.pt.i);
      e := Step(s.pt.i);
    } else if s.pt.Interrupt? || s.lk.Interrupt? || (s.intr.IntEnter? && s.lk.Nobody?) {
      e := IntStep;
    } else if s.lk.Process? {
      assert ProcOk(s, s.lk.i);
      e := Step(s.lk.i);
    } else {
      e := DeviceCan(s, i);
    }
  }

  lemma DeviceCan(s: State, i: nat) returns (e: Event)
    requires Inv(s) && i < |s.pcs| && s.pcs[i] != Out && s.pt.Nobody? && s.lk.Nobody? && s.intr.Idle?
    ensures Enabled(s, e) && Finishing(e)
  {
    assert ProcOk(s, i);
    if s.dev.Ready? {
      e := Raise;
    } else if s.dev.Busy? {
      assert s.que[0] < |s.pcs| && s.que[0] in s.que;
      assert ProcOk(s, s.que[0]);
      e := Transfer;
    } else {
      e := Step(i);
    }
  }

  /** From every reachable state the requests that are inside sdrw can all complete and return: nobody waits
      for ever on a lock, on the device or asleep. */
  lemma {:induction false} EveryRequestCanComplete(s: State) returns (ss: seq<State>, es: seq<Event>)
    requires Inv(s)
    ensures |ss| == |es| + 1 && ss[0] == s && forall k :: 0 <= k < |es| ==> StepOk(ss[k], es[k], ss[k + 1])
    ensures forall k :: 0 <= k < |es| ==> Finishing(es[k])
    ensures forall i :: 0 <= i < |ss[|es|].pcs| ==> ss[|es|].pcs[i] == Out
    decreases Measure(s)
  {
    MeasureIsNat(s);
    if i :| 0 <= i < |s.pcs| && s.pcs[i] != Out {
      var e := SomeoneCan(s, i);
      var t := Apply(s, e);
      StepKeeps(s, e, t);
      Advances(s, e, t);
      MeasureIsNat(t);
      var ss', es' := EveryRequestCanComplete(t);
      ss, es := [s] + ss', [e] + es';
      forall k | 0 <= k < |es| ensures StepOk(ss[k], es[k], ss[k + 1]) && Finishing(es[k]) {
        if k > 0 { assert StepOk(ss'[k - 1], es'[k - 1], ss'[k]) && Finishing(es'[k - 1]); }
      }
    } else {
      ss, es := [s], [];
    }
  }
}
