/** The MCS queue lock of kern/spinlock.c, one shared-memory access per step, over any number of
    threads under sequential consistency. Every thread brings its own queue node. */
module Mcs {
  import opened Common

  datatype Ptr = Null | To(t: nat)      // a node pointer, by the thread that owns the node

  datatype Node = Node(next: Ptr, locked: bool)

  /** The access a thread performs next. */
  datatype Pc =
    | Idle
    | ClearLocked               // i->locked = 0
    | ClearNext                 // i->next = NULL
    | LoadTail                  // tail = lk->next
    | Swap(tail: Ptr)           // compare-exchange lk->next from tail to i
    | SetLocked(pred: nat)      // i->locked = 1
    | Link(pred: nat)           // tail->next = i
    | Spin                      // while (i->locked)
    | Critical                  // mcsacquire has returned
    | Unswap                    // mcsrelease: compare-exchange lk->next from i to NULL
    | AwaitNext                 // while (i->next == NULL)
    | LoadNext                  // read i->next
    | Hand(succ: nat)           // i->next->locked = 0

  /** `tail` is lk->next. `swaps` records successful tail swaps in order, `released` how many of
      those threads have given the lock back, `grants` the order in which threads got through. */
  datatype State = State(tail: Ptr, nodes: seq<Node>, pc: seq<Pc>,
                         swaps: seq<nat>, released: nat, grants: seq<nat>)

  predicate Shape(s: State) {
    |s.nodes| == |s.pc| && s.released <= |s.swaps| && forall i :: 0 <= i < |s.swaps| ==> s.swaps[i] < |s.pc|
  }

  function SetNext(ns: seq<Node>, t: nat, p: Ptr): seq<Node>
    requires t < |ns|
  {
    ns[t := ns[t].(next := p)]
  }

  function SetFlag(ns: seq<Node>, t: nat, b: bool): seq<Node>
    requires t < |ns|
  {
    ns[t := ns[t].(locked := b)]
  }

  function Go(s: State, t: nat, p: Pc): State
    requires t < |s.pc|
  {
    s.(pc := s.pc[t := p])
  }

  /** Thread t performs its next access. Pointers that do not name a node cannot arise (Inv). */
  function Next(s: State, t: nat): State
    requires Shape(s) && t < |s.pc|
  {
    match s.pc[t]
    case Idle => Go(s, t, ClearLocked)
    case ClearLocked => Go(s, t, ClearNext).(nodes := SetFlag(s.nodes, t, false))
    case ClearNext => Go(s, t, LoadTail).(nodes := SetNext(s.nodes, t, Null))
    case LoadTail => Go(s, t, Swap(s.tail))
    case Swap(tail) =>
      if s.tail != tail then Go(s, t, LoadTail)
      else Go(s, t, if tail == Null then Spin else SetLocked(tail.t)).(tail := To(t), swaps := s.swaps + [t])
    case SetLocked(pred) => Go(s, t, Link(pred)).(nodes := SetFlag(s.nodes, t, true))
    case Link(pred) =>
      if pred < |s.nodes| then Go(s, t, Spin).(nodes := SetNext(s.nodes, pred, To(t))) else s
    case Spin => if s.nodes[t].locked then s else Go(s, t, Critical).(grants := s.grants + [t])
    case Critical => Go(s, t, Unswap)
    case Unswap =>
      if s.tail == To(t) then Go(s, t, Idle).(tail := Null, released := Done(s)) else Go(s, t, AwaitNext)
    case AwaitNext => if s.nodes[t].next == Null then s else Go(s, t, LoadNext)
    case LoadNext => if s.nodes[t].next == Null then s else Go(s, t, Hand(s.nodes[t].next.t))
    case Hand(succ) =>
      if succ < |s.nodes| then Go(s, t, Idle).(nodes := SetFlag(s.nodes, succ, false), released := Done(s)) else s
  }

  function Done(s: State): nat {
    if s.released < |s.swaps| then s.released + 1 else s.released
  }

  // ---- invariant ---------------------------------------------------------------------------

  /** The threads that have swapped themselves in and not yet released, oldest first. */
  function Queue(s: State): seq<nat>
    requires s.released <= |s.swaps|
  {
    s.swaps[s.released..]
  }

  predicate Queued(p: Pc) {
    p.SetLocked? || p.Link? || p.Spin? || Holds(p)
  }

  /** Past mcsacquire and not yet released. */
  predicate Holds(p: Pc) {
    p.Critical? || p.Unswap? || p.AwaitNext? || p.LoadNext? || p.Hand?
  }

  function PcOf(s: State, t: nat): Pc {
    if t < |s.pc| then s.pc[t] else Idle
  }

  function NodeOf(s: State, t: nat): Node {
    if t < |s.nodes| then s.nodes[t] else Node(Null, false)
  }

  /** Whether the successor of position i has linked itself behind it. */
  predicate Linked(s: State, q: seq<nat>, i: nat) {
    i + 1 < |q| && PcOf(s, q[i + 1]).Spin?
  }

  predicate CellOk(s: State, q: seq<nat>, i: nat)
    requires i < |q|
  {
    var p, node := PcOf(s, q[i]), NodeOf(s, q[i]);
    && node.next == (if Linked(s, q, i) then To(q[i + 1]) else Null)
    && (i == 0 ==> (p.Spin? || Holds(p)) && !node.locked)
    && (i > 0 ==> p == SetLocked(q[i - 1]) || (node.locked && (p == Link(q[i - 1]) || p.Spin?)))
    && (p.AwaitNext? ==> 1 < |q|)
    && (p.LoadNext? || p.Hand? ==> Linked(s, q, i))
    && (p.Hand? ==> p == Hand(q[i + 1]))
  }

  predicate Fresh(p: Pc, n: Node) {
    && (p.ClearNext? || p.LoadTail? || p.Swap? ==> !n.locked)
    && (p.LoadTail? || p.Swap? ==> n.next == Null)
  }

  ghost predicate Members(s: State, q: seq<nat>)
    requires Shape(s)
  {
    forall t :: 0 <= t < |s.pc| ==> (Queued(s.pc[t]) <==> t in q)
  }

  ghost predicate Cells(s: State, q: seq<nat>) {
    forall i :: 0 <= i < |q| ==> CellOk(s, q, i)
  }

  ghost predicate Inv(s: State) {
    && Shape(s)
    && var q := Queue(s);
    && NoDup(q)
    && s.tail == (if q == [] then Null else To(q[|q| - 1]))
    && Members(s, q)
    && Cells(s, q)
    && (forall t :: 0 <= t < |s.pc| ==> Fresh(s.pc[t], s.nodes[t]))
    && GrantsOk(s)
  }

  /** Granted so far: the threads that have released, and the oldest queued one if it is through. */
  predicate GrantsOk(s: State)
    requires s.released <= |s.swaps|
  {
    s.grants == s.swaps[..s.released + if s.released < |s.swaps| && Holds(PcOf(s, s.swaps[s.released])) then 1 else 0]
  }

  /** Only the oldest queued thread can hold the lock. */
  lemma HolderIsFirst(s: State, t: nat)
    requires Inv(s) && t < |s.pc| && Holds(s.pc[t])
    ensures Queue(s) != [] && Queue(s)[0] == t
  {
    var q := Queue(s);
    assert t in q;
    var i :| 0 <= i < |q| && q[i] == t;
    assert CellOk(s, q, i);
  }

  /** A cell reads only its own thread and whether its successor spins. */
  lemma CellFrame(s: State, s': State, q: seq<nat>, i: nat)
    requires i < |q| && CellOk(s, q, i)
    requires PcOf(s', q[i]) == PcOf(s, q[i]) && NodeOf(s', q[i]) == NodeOf(s, q[i])
    requires i + 1 < |q| ==> PcOf(s', q[i + 1]).Spin? == PcOf(s, q[i + 1]).Spin?
    ensures CellOk(s', q, i)
  {
  }

  /** When thread t moves and is at position k of the queue (or not in it: k == |q|), only the
      cells k - 1 and k need looking at. */
  lemma CellsFrame(s: State, s': State, q: seq<nat>, t: nat, k: nat)
    requires Cells(s, q) && NoDup(q) && k <= |q| && (k < |q| ==> q[k] == t) && (k == |q| ==> t !in q)
    requires forall u :: u in q && u != t ==> PcOf(s', u) == PcOf(s, u)
    requires forall i :: 0 <= i < |q| && i != k && i != k - 1 ==> NodeOf(s', q[i]) == NodeOf(s, q[i])
    requires k < |q| ==> CellOk(s', q, k)
    requires 0 < k < |q| ==> CellOk(s', q, k - 1)
    requires k == |q| > 0 ==> NodeOf(s', q[k - 1]) == NodeOf(s, q[k - 1])
    ensures Cells(s', q)
  {
    forall i | 0 <= i < |q| ensures CellOk(s', q, i) {
      if i != k && (i != k - 1 || k == |q|) {
        assert CellOk(s, q, i) && q[i] in q && q[i] != t;
        if i + 1 < |q| { assert q[i + 1] in q && q[i + 1] != t; }
        CellFrame(s, s', q, i);
      }
    }
  }

  /** Thread t, outside the queue before and after, changed its own pc and node only. */
  ghost predicate Outside(s: State, s': State, t: nat) {
    && Shape(s) && Shape(s') && t < |s.pc| == |s'.pc|
    && s'.tail == s.tail && s'.swaps == s.swaps && s'.released == s.released && s'.grants == s.grants
    && (forall u :: 0 <= u < |s.pc| && u != t ==> s'.pc[u] == s.pc[u] && s'.nodes[u] == s.nodes[u])
    && !Queued(s.pc[t]) && !Queued(s'.pc[t]) && Fresh(s'.pc[t], s'.nodes[t])
  }

  /** A step before the swap touches nothing the queue depends on. */
  lemma StepOutside(s: State, t: nat)
    requires Inv(s) && t < |s.pc|
    requires s.pc[t].Idle? || s.pc[t].ClearLocked? || s.pc[t].ClearNext? || s.pc[t].LoadTail?
          || (s.pc[t].Swap? && s.tail != s.pc[t].tail)
    ensures Inv(Next(s, t))
  {
    assert Fresh(s.pc[t], s.nodes[t]);
    OutsideInv(s, Next(s, t), t);
  }

  lemma OutsideInv(s: State, s': State, t: nat)
    requires Inv(s) && Outside(s, s', t)
    ensures Inv(s')
  {
    OutsideCells(s, s', t);
    Elsewhere(s, s', t);
    var q := Queue(s);
    assert Members(s', q);
    assert q != [] ==> q[0] in q;
  }

  /** What thread t does to its own pc and node is nobody else's concern. */
  lemma Elsewhere(s: State, s': State, t: nat)
    requires Inv(s) && t < |s.pc| && |s'.pc| == |s.pc| == |s'.nodes|
    requires forall u :: 0 <= u < |s.pc| && u != t ==> s'.pc[u] == s.pc[u] && s'.nodes[u] == s.nodes[u]
    requires Fresh(s'.pc[t], s'.nodes[t])
    ensures forall u :: 0 <= u < |s.pc| ==> Fresh(s'.pc[u], s'.nodes[u])
    ensures forall u :: 0 <= u < |s.pc| && u != t ==> (Queued(s'.pc[u]) <==> u in Queue(s))
  {
  }

  lemma OutsideCells(s: State, s': State, t: nat)
    requires Inv(s) && Outside(s, s', t)
    ensures Cells(s', Queue(s)) && Queue(s') == Queue(s) && t !in Queue(s)
  {
    CellsFrame(s, s', Queue(s), t, |Queue(s)|);
  }

  lemma SwapCells(s: State, t: nat)
    requires Inv(s) && t < |s.pc| && s.pc[t].Swap? && s.tail == s.pc[t].tail
    ensures Cells(Next(s, t), Queue(s) + [t])
  {
    var q, s' := Queue(s), Next(s, t);
    var q' := q + [t];
    assert t !in q;
    forall i | 0 <= i < |q'| ensures CellOk(s', q', i) {
      if i < |q| {
        assert CellOk(s, q, i) && q[i] in q;
        assert i + 1 < |q| ==> q[i + 1] in q;
      }
    }
  }

  lemma StepSwap(s: State, t: nat)
    requires Inv(s) && t < |s.pc| && s.pc[t].Swap? && s.tail == s.pc[t].tail
    ensures Inv(Next(s, t))
  {
    SwapMembers(s, t);
    SwapCells(s, t);
    SwapFresh(s, t);
    SwapGrants(s, t);
  }

  lemma SwapFresh(s: State, t: nat)
    requires Inv(s) && t < |s.pc| && s.pc[t].Swap? && s.tail == s.pc[t].tail
    ensures forall u :: 0 <= u < |s.pc| ==> Fresh(Next(s, t).pc[u], Next(s, t).nodes[u])
  {
    Elsewhere(s, Next(s, t), t);
  }

  lemma SwapGrants(s: State, t: nat)
    requires Inv(s) && t < |s.pc| && s.pc[t].Swap? && s.tail == s.pc[t].tail
    ensures GrantsOk(Next(s, t))
  {
    var q := Queue(s);
    assert q != [] ==> q[0] in q && q[0] == s.swaps[s.released];
  }

  lemma SwapMembers(s: State, t: nat)
    requires Inv(s) && t < |s.pc| && s.pc[t].Swap? && s.tail == s.pc[t].tail
    ensures Queue(Next(s, t)) == Queue(s) + [t] && NoDup(Queue(s) + [t])
    ensures Members(Next(s, t), Queue(s) + [t])
  {
    var q, s' := Queue(s), Next(s, t);
    assert t !in q;
    Append(q, t);
    forall u | 0 <= u < |s.pc| ensures Queued(s'.pc[u]) <==> u in q + [t] {
      assert u != t ==> s'.pc[u] == s.pc[u];
    }
  }

  lemma Append(q: seq<nat>, t: nat)
    requires NoDup(q) && t !in q
    ensures NoDup(q + [t]) && forall u :: u in q + [t] <==> u in q || u == t
  {
  }

  lemma DropFirst(q: seq<nat>)
    requires q != [] && NoDup(q)
    ensures NoDup(q[1..]) && q[0] !in q[1..] && forall u :: u in q <==> u in q[1..] || u == q[0]
  {
  }

  /** Where a queued thread stands. */
  lemma Position(s: State, t: nat) returns (k: nat)
    requires Inv(s) && t < |s.pc| && Queued(s.pc[t])
    ensures k < |Queue(s)| && Queue(s)[k] == t && CellOk(s, Queue(s), k)
    ensures forall i :: 0 <= i < |Queue(s)| && i != k ==> Queue(s)[i] != t
    ensures k > 0 ==> CellOk(s, Queue(s), k - 1)
  {
    var q := Queue(s);
    assert t in q;
    k :| 0 <= k < |q| && q[k] == t;
  }

  lemma StepSetLocked(s: State, t: nat)
    requires Inv(s) && t < |s.pc| && s.pc[t].SetLocked?
    ensures Inv(Next(s, t))
  {
    SetLockedCells(s, t);
    assert Queue(s) != [] ==> Queue(s)[0] in Queue(s);
  }

  lemma SetLockedCells(s: State, t: nat)
    requires Inv(s) && t < |s.pc| && s.pc[t].SetLocked?
    ensures Cells(Next(s, t), Queue(s)) && Queue(s) != [] && Queue(s)[0] != t
  {
    var k := Position(s, t);
    CellsFrame(s, Next(s, t), Queue(s), t, k);
  }

  lemma StepLink(s: State, t: nat)
    requires Inv(s) && t < |s.pc| && s.pc[t].Link?
    ensures Inv(Next(s, t))
  {
    LinkCells(s, t);
    assert Queue(s)[0] in Queue(s);
  }

  lemma LinkCells(s: State, t: nat)
    requires Inv(s) && t < |s.pc| && s.pc[t].Link?
    ensures Cells(Next(s, t), Queue(s)) && s.pc[t].pred in Queue(s) && Queue(s)[0] != t
  {
    var q := Queue(s);
    var k := Position(s, t);
    assert k > 0 && s.pc[t].pred == q[k - 1];
    LinkTwo(s, t, q, k, Next(s, t));
    CellsFrame(s, Next(s, t), q, t, k);
  }

  lemma LinkTwo(s: State, t: nat, q: seq<nat>, k: nat, s': State)
    requires Shape(s) && NoDup(q) && 0 < k < |q| && q[k] == t < |s.pc| && s.pc[t] == Link(q[k - 1])
    requires q[k - 1] < |s.nodes|
    requires CellOk(s, q, k) && CellOk(s, q, k - 1) && s' == Next(s, t)
    ensures CellOk(s', q, k) && CellOk(s', q, k - 1)
  {
    assert q[k - 1] != t && (k + 1 < |q| ==> q[k + 1] != t);
    assert k > 1 ==> q[k - 2] != t;
  }

  lemma StepSpin(s: State, t: nat)
    requires Inv(s) && t < |s.pc| && s.pc[t].Spin?
    ensures Inv(Next(s, t))
  {
    var q, s' := Queue(s), Next(s, t);
    if !s.nodes[t].locked {
      var k := Position(s, t);
      assert k == 0;
      SpinFirst(s, t, q, s');
      CellsFrame(s, s', q, t, k);
      assert s.swaps[..s.released + 1] == s.swaps[..s.released] + [t];
    }
  }

  lemma SpinFirst(s: State, t: nat, q: seq<nat>, s': State)
    requires Shape(s) && NoDup(q) && q != [] && q[0] == t < |s.pc| && s.pc[t].Spin? && !s.nodes[t].locked
    requires CellOk(s, q, 0) && s' == Next(s, t)
    ensures CellOk(s', q, 0)
  {
    assert 1 < |q| ==> q[1] != t;
  }

  lemma StepHolding(s: State, t: nat)
    requires Inv(s) && t < |s.pc|
    requires s.pc[t].Critical? || s.pc[t].AwaitNext? || s.pc[t].LoadNext? || (s.pc[t].Unswap? && s.tail != To(t))
    ensures Inv(Next(s, t))
  {
    var q, s' := Queue(s), Next(s, t);
    var k := Position(s, t);
    assert k == 0;
    CellsFrame(s, s', q, t, k);
  }

  lemma StepUnswap(s: State, t: nat)
    requires Inv(s) && t < |s.pc| && s.pc[t].Unswap? && s.tail == To(t)
    ensures Inv(Next(s, t))
  {
    var q, s' := Queue(s), Next(s, t);
    HolderIsFirst(s, t);
    assert |q| == 1;
    assert Queue(s') == [];
    assert forall u :: u in q <==> u == t;
  }

  lemma HandCells(s: State, t: nat)
    requires Inv(s) && t < |s.pc| && s.pc[t].Hand?
    ensures |Queue(s)| > 1 && Queue(s)[0] == t && s.pc[t].succ == Queue(s)[1]
    ensures Cells(Next(s, t), Queue(s)[1..])
  {
    var q, s' := Queue(s), Next(s, t);
    HolderIsFirst(s, t);
    assert CellOk(s, q, 0);
    var q' := q[1..];
    forall i | 0 <= i < |q'| ensures CellOk(s', q', i) { HandCell(s, t, q, i, s'); }
  }

  lemma HandCell(s: State, t: nat, q: seq<nat>, i: nat, s': State)
    requires Shape(s) && NoDup(q) && i + 1 < |q| && q[0] == t < |s.pc| && s.pc[t] == Hand(q[1]) && q[1] < |s.nodes|
    requires CellOk(s, q, 0) && CellOk(s, q, i + 1) && s' == Next(s, t)
    ensures CellOk(s', q[1..], i)
  {
    assert q[i + 1] != q[0];
    assert i > 0 ==> q[i + 1] != q[1];
    assert i + 2 < |q| ==> q[i + 2] != q[0];
  }

  lemma StepHand(s: State, t: nat)
    requires Inv(s) && t < |s.pc| && s.pc[t].Hand?
    ensures Inv(Next(s, t))
  {
    var q := Queue(s);
    HandCells(s, t);
    HandMembers(s, t);
    assert q[1] in q && CellOk(s, q, 1);
  }

  lemma HandMembers(s: State, t: nat)
    requires Inv(s) && t < |s.pc| && s.pc[t].Hand?
    requires |Queue(s)| > 1 && Queue(s)[0] == t && s.pc[t].succ == Queue(s)[1]
    ensures Queue(Next(s, t)) == Queue(s)[1..] && Members(Next(s, t), Queue(s)[1..])
    ensures NoDup(Queue(s)[1..])
  {
    DropFirst(Queue(s));
    forall u | 0 <= u < |s.pc| ensures Queued(Next(s, t).pc[u]) <==> u in Queue(s)[1..] {
      assert u in Queue(s)[1..] <==> u in Queue(s) && u != t;
      assert u != t ==> Next(s, t).pc[u] == s.pc[u];
    }
  }

  lemma StepKeeps(s: State, t: nat)
    requires Inv(s) && t < |s.pc|
    ensures Inv(Next(s, t))
  {
    match s.pc[t]
    case Idle => StepOutside(s, t);
    case ClearLocked => StepOutside(s, t);
    case ClearNext => StepOutside(s, t);
    case LoadTail => StepOutside(s, t);
    case Swap(tail) => if s.tail == tail { StepSwap(s, t); } else { StepOutside(s, t); }
    case SetLocked(_) => StepSetLocked(s, t);
    case Link(_) => StepLink(s, t);
    case Spin => StepSpin(s, t);
    case Unswap => if s.tail == To(t) { StepUnswap(s, t); } else { StepHolding(s, t); }
    case Critical => StepHolding(s, t);
    case AwaitNext => StepHolding(s, t);
    case LoadNext => StepHolding(s, t);
    case Hand(_) => StepHand(s, t);
  }

  // ---- runs --------------------------------------------------------------------------------

  /** A free lock; the nodes on the threads' stacks hold whatever was there. */
  predicate Init(s: State) {
    && |s.nodes| == |s.pc| && s.tail == Null && s.swaps == [] && s.released == 0 && s.grants == []
    && forall t :: 0 <= t < |s.pc| ==> s.pc[t] == Idle
  }

  /** A schedule names the thread that moves at each step. */
  ghost predicate Runs(s: State, sched: seq<nat>, r: State)
    decreases |sched|
  {
    if sched == [] then s == r
    else Shape(s) && sched[0] < |s.pc| && Runs(Next(s, sched[0]), sched[1..], r)
  }

  lemma {:induction false} RunKeeps(s: State, sched: seq<nat>, r: State)
    requires Inv(s) && Runs(s, sched, r)
    ensures Inv(r)
    decreases |sched|
  {
    if sched != [] {
      StepKeeps(s, sched[0]);
      RunKeeps(Next(s, sched[0]), sched[1..], r);
    }
  }

  /** Mutual exclusion and first-come first-served, over every interleaving: at most one thread is
      past mcsacquire, and the grants so far are a prefix of the successful tail swaps. */
  lemma MutualExclusionFifo(s: State, sched: seq<nat>, r: State)
    requires Init(s) && Runs(s, sched, r)
    ensures forall t, u :: 0 <= t < |r.pc| && 0 <= u < |r.pc| && Holds(r.pc[t]) && Holds(r.pc[u]) ==> t == u
    ensures r.grants <= r.swaps
    ensures forall t :: 0 <= t < |r.pc| && Holds(r.pc[t]) ==> r.grants != [] && r.grants[|r.grants| - 1] == t
  {
    RunKeeps(s, sched, r);
    forall t | 0 <= t < |r.pc| && Holds(r.pc[t]) ensures r.grants != [] && r.grants[|r.grants| - 1] == t {
      HolderIsFirst(r, t);
    }
  }

  /** No handoff is lost: while anyone queues, the oldest thread or the one right behind it can
      take a step that is not a spin, so the queue never wedges. */
  lemma NeverWedged(s: State, sched: seq<nat>, r: State) returns (t: nat)
    requires Init(s) && Runs(s, sched, r)
    requires r.released < |r.swaps|
    ensures Shape(r) && t < |r.pc| && Queued(r.pc[t]) && Next(r, t) != r
  {
    RunKeeps(s, sched, r);
    var q := Queue(r);
    assert CellOk(r, q, 0);
    if r.pc[q[0]].AwaitNext? && r.nodes[q[0]].next == Null {
      assert CellOk(r, q, 1);
      t := q[1];
    } else {
      t := q[0];
    }
    assert t in q;
    assert Next(r, t).pc[t] != r.pc[t];
  }
}
