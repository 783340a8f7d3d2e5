/** Processes of kern/proc.c as values: the table, the sleep hash lists, the priority queues and the
    cpus, all guarded by ptablelock, and what each locked section does to them. */
module ProcSpec {
  import opened Common

  const HASHENTRIES: nat := 17
  const PRIOENTRIES: nat := 4
  const PROCSIZE: nat := 264

  datatype Phase = Unused | Embryo | Sleeping | Runnable | Running | Zombie

  /** Where a process is in the code that this model interleaves: inside wait, between the two locked
      sections of fork (before or after `child->parent = par`), or anywhere else. */
  datatype Pc = Free | Waiting | Forking(child: nat, linked: bool)

  datatype Proc = Proc(state: Phase, pid: nat, parent: Option<nat>, chan: nat, prio: nat, pc: Pc)

  /** `lock` names the cpu whose scheduler has handed ptablelock to the process it picked; `reaped` is
      the history of what wait returned. */
  datatype State = State(procs: seq<Proc>, hash: seq<seq<nat>>, prioque: seq<seq<nat>>, cpus: seq<Option<nat>>,
                         lock: Option<nat>, init: Option<nat>, nextpid: nat, base: nat, reaped: seq<nat>)

  /** The address of a table slot, which wait sleeps on. */
  function Addr(s: State, i: nat): nat {
    s.base + 1 + PROCSIZE * i
  }

  function ChanOf(s: State, p: Option<nat>): nat {
    if p.None? then 0 else Addr(s, p.value)
  }

  function Bucket(chan: nat): (h: nat)
    ensures h < HASHENTRIES
  {
    chan % HASHENTRIES
  }

  // ---- who is on which list ----------------------------------------------------------------

  /** The list a process belongs on: a priority queue, a hash list, or none. */
  datatype Place = Queue(k: nat) | Hash(h: nat) | Nowhere

  function Home(p: Proc): Place {
    match p.state
    case Runnable => Queue(p.prio)
    case Sleeping => Hash(Bucket(p.chan))
    case _ => Nowhere
  }

  predicate IsList(w: Place) {
    match w
    case Queue(k) => k < PRIOENTRIES
    case Hash(h) => h < HASHENTRIES
    case Nowhere => false
  }

  predicate Sized(s: State) {
    |s.hash| == HASHENTRIES && |s.prioque| == PRIOENTRIES
  }

  function ListAt(s: State, w: Place): seq<nat>
    requires Sized(s) && IsList(w)
  {
    if w.Queue? then s.prioque[w.k] else s.hash[w.h]
  }

  function SetList(s: State, w: Place, q: seq<nat>): (t: State)
    requires Sized(s) && IsList(w)
    ensures Sized(t) && forall v :: IsList(v) ==> ListAt(t, v) == if v == w then q else ListAt(s, v)
  {
    if w.Queue? then s.(prioque := s.prioque[w.k := q]) else s.(hash := s.hash[w.h := q])
  }

  /** q holds processes that belong at w, none twice, and not x. */
  predicate Holds(ps: seq<Proc>, q: seq<nat>, w: Place, x: int) {
    NoDup(q) && forall a :: 0 <= a < |q| ==> q[a] < |ps| && q[a] != x && Home(ps[q[a]]) == w
  }

  /** Each Runnable process but x is on its priority queue, each Sleeping one on its hash list. */
  ghost predicate Listed(s: State, x: int)
    requires Sized(s)
  {
    (forall w :: IsList(w) ==> Holds(s.procs, ListAt(s, w), w, x))
    && (forall i :: 0 <= i < |s.procs| ==> s.procs[i].prio < PRIOENTRIES)
    && (forall i :: 0 <= i < |s.procs| ==> OnList(s, x, i))
  }

  predicate OnList(s: State, x: int, i: nat)
    requires Sized(s) && i < |s.procs|
  {
    i != x && IsList(Home(s.procs[i])) ==> i in ListAt(s, Home(s.procs[i]))
  }

  /** Every Running process but x is on one cpu, and nothing else is. */
  predicate Placed(s: State, x: int) {
    (forall c :: 0 <= c < |s.cpus| && s.cpus[c].Some? ==>
       s.cpus[c].value < |s.procs| && s.cpus[c].value != x && s.procs[s.cpus[c].value].state == Running)
    && (forall c, d :: 0 <= c < d < |s.cpus| ==> !SameCpu(s, c, d))
    && (forall i :: 0 <= i < |s.procs| ==> Runs(s, x, i))
  }

  predicate SameCpu(s: State, c: nat, d: nat)
    requires c < |s.cpus| && d < |s.cpus|
  {
    s.cpus[c].Some? && s.cpus[c] == s.cpus[d]
  }

  predicate Runs(s: State, x: int, i: nat)
    requires i < |s.procs|
  {
    i != x && s.procs[i].state == Running ==> exists c :: 0 <= c < |s.cpus| && s.cpus[c] == Some(i)
  }

  ghost predicate Lists(s: State, x: int) {
    Sized(s) && Listed(s, x) && Placed(s, x)
  }

  /** The scheduler's lists, stated outright: what Lists means when no process is in transit. */
  lemma ListsMeans(s: State, i: nat)
    requires Lists(s, -1) && i < |s.procs|
    ensures forall k :: 0 <= k < PRIOENTRIES ==>
      Count(s.prioque[k], i) == if s.procs[i].state == Runnable && s.procs[i].prio == k then 1 else 0
    ensures forall h :: 0 <= h < HASHENTRIES ==>
      Count(s.hash[h], i) == if s.procs[i].state == Sleeping && Bucket(s.procs[i].chan) == h then 1 else 0
    ensures s.procs[i].state == Running <==> exists c :: 0 <= c < |s.cpus| && s.cpus[c] == Some(i)
    ensures forall c, d :: 0 <= c < |s.cpus| && 0 <= d < |s.cpus| && s.cpus[c] == s.cpus[d] == Some(i) ==> c == d
  {
    assert OnList(s, -1, i) && Runs(s, -1, i);
    forall w | IsList(w) ensures Count(ListAt(s, w), i) == if Home(s.procs[i]) == w then 1 else 0 {
      assert Holds(s.procs, ListAt(s, w), w, -1);
      CountDistinct(ListAt(s, w), i);
    }
    forall k | 0 <= k < PRIOENTRIES ensures Count(s.prioque[k], i) == if Home(s.procs[i]) == Queue(k) then 1 else 0 {
      assert ListAt(s, Queue(k)) == s.prioque[k];
    }
    forall h | 0 <= h < HASHENTRIES ensures Count(s.hash[h], i) == if Home(s.procs[i]) == Hash(h) then 1 else 0 {
      assert ListAt(s, Hash(h)) == s.hash[h];
    }
    forall c, d | 0 <= c < |s.cpus| && 0 <= d < |s.cpus| && s.cpus[c] == s.cpus[d] == Some(i) ensures c == d {
      assert c < d ==> !SameCpu(s, c, d);
      assert d < c ==> !SameCpu(s, d, c);
    }
  }

  function Count(q: seq<nat>, i: nat): nat {
    if q == [] then 0 else (if q[0] == i then 1 else 0) + Count(q[1..], i)
  }

  lemma {:induction false} CountDistinct(q: seq<nat>, i: nat)
    requires NoDup(q)
    ensures Count(q, i) == if i in q then 1 else 0
  {
    if q != [] {
      CountDistinct(q[1..], i);
      assert q == [q[0]] + q[1..];
    }
  }

  // ---- taking a process off its list and putting it on another -----------------------------

  function RemoveAt<T>(q: seq<T>, k: nat): seq<T>
    requires k < |q|
  {
    q[..k] + q[k + 1..]
  }

  function OffCpu(s: State, c: nat): State
    requires c < |s.cpus|
  {
    s.(cpus := s.cpus[c := None])
  }

  function OffList(s: State, w: Place, k: nat): State
    requires Sized(s) && IsList(w) && k < |ListAt(s, w)|
  {
    SetList(s, w, RemoveAt(ListAt(s, w), k))
  }

  function Put(s: State, i: nat, p: Proc): State
    requires i < |s.procs|
  {
    s.(procs := s.procs[i := p])
  }

  /** Process i becomes p and is pushed on the back of its list. */
  function PutList(s: State, i: nat, p: Proc): State
    requires Sized(s) && i < |s.procs| && IsList(Home(p))
  {
    SetList(Put(s, i, p), Home(p), ListAt(s, Home(p)) + [i])
  }

  function PutCpu(s: State, i: nat, p: Proc, c: nat): State
    requires i < |s.procs| && c < |s.cpus|
  {
    Put(s, i, p).(cpus := s.cpus[c := Some(i)])
  }

  lemma OffCpuKeeps(s: State, c: nat)
    requires Lists(s, -1) && c < |s.cpus| && s.cpus[c].Some?
    ensures Lists(OffCpu(s, c), s.cpus[c].value)
  {
    OffCpuListed(s, c, OffCpu(s, c));
    OffCpuPlaced(s, c, OffCpu(s, c));
  }

  lemma OffCpuPlaced(s: State, c: nat, t: State)
    requires Placed(s, -1) && c < |s.cpus| && s.cpus[c].Some? && t == OffCpu(s, c)
    ensures Placed(t, s.cpus[c].value)
  {
    forall j | 0 <= j < |t.procs| ensures Runs(t, s.cpus[c].value, j) {
      assert Runs(s, -1, j);
      if d :| 0 <= d < |s.cpus| && s.cpus[d] == Some(j) { assert d != c ==> t.cpus[d] == Some(j); }
    }
    forall a, b | 0 <= a < b < |t.cpus| ensures !SameCpu(t, a, b) { assert !SameCpu(s, a, b); }
    forall d | 0 <= d < |t.cpus| && t.cpus[d].Some? ensures t.cpus[d].value != s.cpus[c].value {
      assert c < d ==> !SameCpu(s, c, d);
      assert d < c ==> !SameCpu(s, d, c);
    }
  }

  lemma OffCpuListed(s: State, c: nat, t: State)
    requires Lists(s, -1) && c < |s.cpus| && s.cpus[c].Some? && t == OffCpu(s, c)
    ensures Listed(t, s.cpus[c].value)
  {
    forall w | IsList(w) ensures Holds(t.procs, ListAt(t, w), w, s.cpus[c].value) {
      assert Holds(s.procs, ListAt(s, w), w, -1);
    }
    forall j | 0 <= j < |t.procs| ensures OnList(t, s.cpus[c].value, j) { assert OnList(s, -1, j); }
  }

  lemma DistinctRemove(q: seq<nat>, k: nat)
    requires NoDup(q) && k < |q|
    ensures NoDup(RemoveAt(q, k))
    ensures forall a :: 0 <= a < |RemoveAt(q, k)| ==> RemoveAt(q, k)[a] in q && RemoveAt(q, k)[a] != q[k]
    ensures forall x :: x in q && x != q[k] ==> x in RemoveAt(q, k)
  {
    var r := RemoveAt(q, k);
    forall x | x in q && x != q[k] ensures x in r {
      var a :| 0 <= a < |q| && q[a] == x;
      assert r[if a < k then a else a - 1] == x;
    }
  }

  lemma OffListKeeps(s: State, w: Place, k: nat)
    requires Lists(s, -1) && IsList(w) && k < |ListAt(s, w)|
    ensures Lists(OffList(s, w, k), ListAt(s, w)[k])
  {
    assert Holds(s.procs, ListAt(s, w), w, -1);
    OffListListed(s, w, k, OffList(s, w, k));
    OffListPlaced(s, ListAt(s, w)[k], OffList(s, w, k));
  }

  lemma OffListPlaced(s: State, x: nat, t: State)
    requires Placed(s, -1) && x < |s.procs| && s.procs[x].state != Running && t.procs == s.procs && t.cpus == s.cpus
    ensures Placed(t, x)
  {
    forall j | 0 <= j < |t.procs| ensures Runs(t, x, j) { assert Runs(s, -1, j); }
    forall a, b | 0 <= a < b < |t.cpus| ensures !SameCpu(t, a, b) { assert !SameCpu(s, a, b); }
  }

  lemma OffListListed(s: State, w: Place, k: nat, t: State)
    requires Sized(s) && Listed(s, -1) && IsList(w) && k < |ListAt(s, w)| && t == OffList(s, w, k)
    ensures Sized(t) && Listed(t, ListAt(s, w)[k])
  {
    var x := ListAt(s, w)[k];
    assert Holds(s.procs, ListAt(s, w), w, -1);
    DistinctRemove(ListAt(s, w), k);
    forall v | IsList(v) ensures Holds(t.procs, ListAt(t, v), v, x) {
      assert Holds(s.procs, ListAt(s, v), v, -1);
    }
    forall j | 0 <= j < |t.procs| ensures OnList(t, x, j) { assert OnList(s, -1, j); }
  }

  lemma PutKeeps(s: State, i: nat, p: Proc)
    requires Lists(s, i) && i < |s.procs| && p.prio < PRIOENTRIES
    ensures Lists(Put(s, i, p), i)
    ensures p.state in {Unused, Embryo, Zombie} ==> Lists(Put(s, i, p), -1)
  {
    var t := Put(s, i, p);
    forall w | IsList(w) ensures Holds(t.procs, ListAt(t, w), w, i) && Holds(t.procs, ListAt(t, w), w, -1) {
      assert Holds(s.procs, ListAt(s, w), w, i);
    }
    forall j | 0 <= j < |t.procs|
      ensures OnList(t, i, j) && Runs(t, i, j)
      ensures (p.state in {Unused, Embryo, Zombie} ==> OnList(t, -1, j) && Runs(t, -1, j))
    {
      assert OnList(s, i, j) && Runs(s, i, j);
    }
    forall a, b | 0 <= a < b < |t.cpus| ensures !SameCpu(t, a, b) { assert !SameCpu(s, a, b); }
  }

  lemma HoldsAppend(ps: seq<Proc>, q: seq<nat>, w: Place, i: nat)
    requires i < |ps| && Holds(ps, q, w, i) && Home(ps[i]) == w
    ensures Holds(ps, q + [i], w, -1) && i in q + [i] && forall j :: j in q ==> j in q + [i]
  {
    assert (q + [i])[|q|] == i;
  }

  lemma PutListKeeps(s: State, i: nat, p: Proc)
    requires Lists(s, i) && i < |s.procs| && p.prio < PRIOENTRIES && IsList(Home(p))
    ensures Lists(PutList(s, i, p), -1)
  {
    PutKeeps(s, i, p);
    var t, u := Put(s, i, p), PutList(s, i, p);
    HoldsAppend(t.procs, ListAt(t, Home(p)), Home(p), i);
    PushKeeps(t, u, Home(p), i);
    PushPlaced(t, i, u);
  }

  lemma PushPlaced(s: State, i: nat, t: State)
    requires Placed(s, i) && i < |s.procs| && s.procs[i].state != Running && t.procs == s.procs && t.cpus == s.cpus
    ensures Placed(t, -1)
  {
    forall j | 0 <= j < |t.procs| ensures Runs(t, -1, j) { assert Runs(s, i, j); }
    forall a, b | 0 <= a < b < |t.cpus| ensures !SameCpu(t, a, b) { assert !SameCpu(s, a, b); }
  }

  lemma PushKeeps(t: State, u: State, w: Place, i: nat)
    requires Sized(t) && Listed(t, i) && i < |t.procs| && IsList(w) && Home(t.procs[i]) == w
    requires u == SetList(t, w, ListAt(t, w) + [i])
    requires Holds(t.procs, ListAt(t, w) + [i], w, -1)
    ensures Sized(u) && Listed(u, -1)
  {
    forall v | IsList(v) ensures Holds(u.procs, ListAt(u, v), v, -1) {
      assert Holds(t.procs, ListAt(t, v), v, i);
    }
    forall j | 0 <= j < |u.procs| ensures OnList(u, -1, j) {
      assert OnList(t, i, j);
      assert ListAt(u, w)[|ListAt(t, w)|] == i;
    }
  }

  lemma PutCpuKeeps(s: State, i: nat, p: Proc, c: nat)
    requires Lists(s, i) && i < |s.procs| && c < |s.cpus| && s.cpus[c].None? && p.prio < PRIOENTRIES
    requires p.state == Running
    ensures Lists(PutCpu(s, i, p, c), -1)
  {
    PutKeeps(s, i, p);
    var u, t := Put(s, i, p), PutCpu(s, i, p, c);
    OnCpuPlaced(u, i, c, t);
    forall w | IsList(w) ensures Holds(t.procs, ListAt(t, w), w, -1) { assert Holds(u.procs, ListAt(u, w), w, i); }
    forall j | 0 <= j < |t.procs| ensures OnList(t, -1, j) { assert OnList(u, i, j); }
  }

  lemma OnCpuPlaced(s: State, i: nat, c: nat, t: State)
    requires Placed(s, i) && i < |s.procs| && s.procs[i].state == Running && c < |s.cpus| && s.cpus[c].None?
    requires t == s.(cpus := s.cpus[c := Some(i)])
    ensures Placed(t, -1)
  {
    forall j | 0 <= j < |t.procs| ensures Runs(t, -1, j) {
      assert Runs(s, i, j) && t.cpus[c] == Some(i);
      if d :| 0 <= d < |s.cpus| && s.cpus[d] == Some(j) { assert t.cpus[d] == Some(j); }
    }
    forall a, b | 0 <= a < b < |t.cpus| ensures !SameCpu(t, a, b) { assert !SameCpu(s, a, b); }
  }

  /** A process on no list can be set aside. */
  lemma SetAside(s: State, i: nat)
    requires Lists(s, -1) && i < |s.procs| && s.procs[i].state in {Unused, Embryo, Zombie}
    ensures Lists(s, i)
  {
    forall w | IsList(w) ensures Holds(s.procs, ListAt(s, w), w, i) {
      assert Holds(s.procs, ListAt(s, w), w, -1);
    }
    forall j | 0 <= j < |s.procs| ensures OnList(s, i, j) && Runs(s, i, j) {
      assert OnList(s, -1, j) && Runs(s, -1, j);
    }
  }

  /** Fields the lists do not depend on change. */
  lemma FieldsKeep(s: State, t: State)
    requires Lists(s, -1) && t.hash == s.hash && t.prioque == s.prioque && t.cpus == s.cpus && |t.procs| == |s.procs|
    requires forall i :: 0 <= i < |s.procs| ==>
      t.procs[i].state == s.procs[i].state && t.procs[i].prio == s.procs[i].prio && t.procs[i].chan == s.procs[i].chan
    ensures Lists(t, -1)
  {
    forall w | IsList(w) ensures Holds(t.procs, ListAt(t, w), w, -1) {
      assert Holds(s.procs, ListAt(s, w), w, -1);
    }
    forall j | 0 <= j < |t.procs| ensures OnList(t, -1, j) && Runs(t, -1, j) {
      assert OnList(s, -1, j) && Runs(s, -1, j);
    }
    forall a, b | 0 <= a < b < |t.cpus| ensures !SameCpu(t, a, b) { assert !SameCpu(s, a, b); }
  }

  // ---- what each locked section does -------------------------------------------------------

  predicate OnCpu(s: State, c: nat) {
    c < |s.cpus| && s.cpus[c].Some? && s.cpus[c].value < |s.procs|
  }

  predicate Prios(s: State) {
    Sized(s) && forall i :: 0 <= i < |s.procs| ==> s.procs[i].prio < PRIOENTRIES
  }

  /** The process on cpu c. */
  function Cur(s: State, c: nat): nat
    requires OnCpu(s, c)
  {
    s.cpus[c].value
  }

  function Yield(s: State, c: nat): State
    requires Prios(s) && OnCpu(s, c)
  {
    var i := Cur(s, c);
    PutList(OffCpu(s, c), i, s.procs[i].(state := Runnable))
  }

  function Sleep(s: State, c: nat, chan: nat): State
    requires Sized(s) && OnCpu(s, c)
  {
    var i := Cur(s, c);
    PutList(OffCpu(s, c), i, s.procs[i].(state := Sleeping, chan := chan))
  }

  /** The process at position k of hash list h moves to the back of its priority queue. */
  function WakeOne(s: State, h: nat, k: nat): (t: State)
    requires Prios(s) && h < HASHENTRIES && k < |s.hash[h]| && s.hash[h][k] < |s.procs|
    ensures Prios(t) && SameBut(s, t) && t.hash == s.hash[h := RemoveAt(s.hash[h], k)]
  {
    var i := s.hash[h][k];
    PutList(OffList(s, Hash(h), k), i, s.procs[i].(state := Runnable, chan := 0))
  }

  /** What no wakeup changes. */
  predicate SameBut(s: State, t: State) {
    |t.procs| == |s.procs| && t.cpus == s.cpus && t.lock == s.lock && t.init == s.init && t.nextpid == s.nextpid
    && t.base == s.base && t.reaped == s.reaped
  }

  predicate SleepsOn(s: State, i: nat, chan: nat) {
    i < |s.procs| && s.procs[i].chan == chan && s.procs[i].state == Sleeping
  }

  /** wakeup1's scan of the channel's hash list, from position k on. */
  function Wake(s: State, chan: nat, k: nat): (t: State)
    requires Prios(s) && k <= |s.hash[Bucket(chan)]|
    ensures Prios(t) && SameBut(s, t)
    decreases |s.hash[Bucket(chan)]| - k
  {
    var h := Bucket(chan);
    if k == |s.hash[h]| then s
    else if SleepsOn(s, s.hash[h][k], chan) then Wake(WakeOne(s, h, k), chan, k)
    else Wake(s, chan, k + 1)
  }

  /** The highest priority with a waiting process, below bound n. */
  function Top(s: State, n: nat): (r: Option<nat>)
    requires Sized(s) && n <= PRIOENTRIES
    ensures r.None? ==> forall k :: 0 <= k < n ==> s.prioque[k] == []
    ensures r.Some? ==> r.value < n && s.prioque[r.value] != [] && forall k :: r.value < k < n ==> s.prioque[k] == []
  {
    if n == 0 then None else if s.prioque[n - 1] != [] then Some(n - 1) else Top(s, n - 1)
  }

  function Pick(s: State, c: nat): State
    requires Sized(s) && c < |s.cpus| && Top(s, PRIOENTRIES).Some?
    requires s.prioque[Top(s, PRIOENTRIES).value][0] < |s.procs|
  {
    var k := Top(s, PRIOENTRIES).value;
    var i := s.prioque[k][0];
    PutCpu(OffList(s, Queue(k), 0), i, s.procs[i].(state := Running, chan := 0), c).(lock := Some(c))
  }

  /** One turn of exit's loop: a child of i goes to init, who is woken if it is a Zombie. */
  function AdoptOne(s: State, i: nat, k: nat): (t: State)
    requires Prios(s) && k < |s.procs|
    ensures Prios(t) && SameBut(s, t)
  {
    if s.procs[k].parent != Some(i) then s
    else
      var t := Put(s, k, s.procs[k].(parent := s.init));
      if s.procs[k].state == Zombie then Wake(t, ChanOf(s, s.init), 0) else t
  }

  function Adopt(s: State, i: nat, k: nat): (t: State)
    requires Prios(s) && k <= |s.procs|
    ensures Prios(t) && SameBut(s, t)
  {
    if k == 0 then s else AdoptOne(Adopt(s, i, k - 1), i, k - 1)
  }

  function Exit(s: State, c: nat): State
    requires Prios(s) && OnCpu(s, c)
  {
    var i := Cur(s, c);
    var t := Adopt(Wake(s, ChanOf(s, s.procs[i].parent), 0), i, |s.procs|);
    Put(OffCpu(t, c), i, t.procs[i].(state := Zombie))
  }

  /** The first Zombie child of i from slot k on. */
  function FirstZombie(s: State, i: nat, k: nat): (r: Option<nat>)
    requires k <= |s.procs|
    ensures r.Some? ==>
      k <= r.value < |s.procs| && s.procs[r.value].parent == Some(i) && s.procs[r.value].state == Zombie
    ensures r.None? ==> forall j :: k <= j < |s.procs| && s.procs[j].parent == Some(i) ==> s.procs[j].state != Zombie
    decreases |s.procs| - k
  {
    if k == |s.procs| then None
    else if s.procs[k].parent == Some(i) && s.procs[k].state == Zombie then Some(k)
    else FirstZombie(s, i, k + 1)
  }

  predicate HasChild(s: State, i: nat) {
    exists j :: 0 <= j < |s.procs| && s.procs[j].parent == Some(i)
  }

  /** cleanproc, and the pid wait returns. */
  function Reap(s: State, j: nat): State
    requires j < |s.procs|
  {
    Put(s, j, s.procs[j].(state := Unused, pid := 0, parent := None)).(reaped := s.reaped + [s.procs[j].pid])
  }

  function SetPc(s: State, i: nat, pc: Pc): State
    requires i < |s.procs|
  {
    Put(s, i, s.procs[i].(pc := pc))
  }

  /** One turn of wait's loop: reap a Zombie child, give up without children, or sleep. */
  function Wait(s: State, c: nat): State
    requires Sized(s) && OnCpu(s, c)
  {
    var i := Cur(s, c);
    var z := FirstZombie(s, i, 0);
    if z.Some? then Reap(SetPc(s, i, Free), z.value)
    else if !HasChild(s, i) then SetPc(s, i, Free)
    else Sleep(SetPc(s, i, Waiting), c, Addr(s, i))
  }

  function FirstUnused(s: State, k: nat): (r: Option<nat>)
    requires k <= |s.procs|
    ensures r.Some? ==> k <= r.value < |s.procs| && s.procs[r.value].state == Unused
    ensures r.None? ==> forall j :: k <= j < |s.procs| ==> s.procs[j].state != Unused
    decreases |s.procs| - k
  {
    if k == |s.procs| then None else if s.procs[k].state == Unused then Some(k) else FirstUnused(s, k + 1)
  }

  /** proc_alloc when its kernel stack can be allocated. */
  function Alloc(s: State, j: nat): State
    requires j < |s.procs|
  {
    Put(s, j, s.procs[j].(state := Embryo, pid := s.nextpid, chan := 0, prio := PRIOENTRIES - 1))
      .(nextpid := s.nextpid + 1)
  }

  /** fork's second locked section. */
  function Publish(s: State, i: nat, j: nat): State
    requires Prios(s) && i < |s.procs| && j < |s.procs|
  {
    PutList(SetPc(s, i, Free), j, SetPc(s, i, Free).procs[j].(state := Runnable, prio := s.procs[i].prio))
  }

  /** user_init: a first process, which is init unless `loop`. */
  function UserInit(s: State, j: nat, loop: bool): State
    requires Prios(s) && j < |s.procs|
  {
    var t := Alloc(s, j);
    PutList(t, j, t.procs[j].(state := Runnable)).(init := if loop then s.init else Some(j))
  }

  // ---- what a wakeup does ------------------------------------------------------------------

  /** t is s with exactly the processes asleep on chan made Runnable. */
  predicate Woken(s: State, t: State, chan: nat) {
    SameBut(s, t)
    && forall i :: 0 <= i < |s.procs| ==>
         t.procs[i] == if SleepsOn(s, i, chan) then s.procs[i].(state := Runnable, chan := 0) else s.procs[i]
  }

  /** The priority queues only grew, at the back. */
  predicate Pushed(s: State, t: State) {
    |s.prioque| == |t.prioque| && forall k :: 0 <= k < |s.prioque| ==> s.prioque[k] <= t.prioque[k]
  }

  lemma WakeOneKeeps(s: State, h: nat, k: nat)
    requires Lists(s, -1) && h < HASHENTRIES && k < |s.hash[h]|
    ensures s.hash[h][k] < |s.procs| && Lists(WakeOne(s, h, k), -1) && Pushed(s, WakeOne(s, h, k))
    ensures s.procs[s.hash[h][k]].state == Sleeping
    ensures WakeOne(s, h, k).procs == s.procs[s.hash[h][k] := s.procs[s.hash[h][k]].(state := Runnable, chan := 0)]
  {
    var i := s.hash[h][k];
    assert ListAt(s, Hash(h)) == s.hash[h];
    assert Holds(s.procs, ListAt(s, Hash(h)), Hash(h), -1);
    OffListKeeps(s, Hash(h), k);
    PutListKeeps(OffList(s, Hash(h), k), i, s.procs[i].(state := Runnable, chan := 0));
  }

  predicate Passed(s: State, chan: nat, k: nat)
    requires Sized(s) && k <= |s.hash[Bucket(chan)]|
  {
    forall a :: 0 <= a < k ==> !SleepsOn(s, s.hash[Bucket(chan)][a], chan)
  }

  /** The rest of the scan after one process was woken completes the wakeup. */
  lemma WokenTrans(s: State, u: State, t: State, i: nat, chan: nat)
    requires SleepsOn(s, i, chan) && SameBut(s, u) && u.procs == s.procs[i := s.procs[i].(state := Runnable, chan := 0)]
    requires Woken(u, t, chan) && Pushed(s, u) && Pushed(u, t)
    ensures Woken(s, t, chan) && Pushed(s, t)
  {
    forall j | 0 <= j < |s.procs|
      ensures t.procs[j] == if SleepsOn(s, j, chan) then s.procs[j].(state := Runnable, chan := 0) else s.procs[j]
    {
      assert j != i ==> u.procs[j] == s.procs[j];
    }
  }

  lemma PassedOne(s: State, u: State, chan: nat, k: nat)
    requires Sized(s) && Sized(u) && k < |s.hash[Bucket(chan)]| && Passed(s, chan, k)
    requires u.hash == s.hash[Bucket(chan) := RemoveAt(s.hash[Bucket(chan)], k)] && s.hash[Bucket(chan)][k] < |s.procs|
    requires u.procs
      == s.procs[s.hash[Bucket(chan)][k] := s.procs[s.hash[Bucket(chan)][k]].(state := Runnable, chan := 0)]
    ensures Passed(u, chan, k)
  {
    forall a | 0 <= a < k ensures !SleepsOn(u, u.hash[Bucket(chan)][a], chan) {
      assert u.hash[Bucket(chan)][a] == s.hash[Bucket(chan)][a];
    }
  }

  lemma {:induction false} WakeFrom(s: State, chan: nat, k: nat, t: State)
    requires Lists(s, -1) && k <= |s.hash[Bucket(chan)]| && Passed(s, chan, k) && t == Wake(s, chan, k)
    ensures Lists(t, -1) && Woken(s, t, chan) && Pushed(s, t)
    decreases |s.hash[Bucket(chan)]| - k
  {
    var h := Bucket(chan);
    if k == |s.hash[h]| {
      NoneLeft(s, chan);
    } else if SleepsOn(s, s.hash[h][k], chan) {
      var u := WakeOne(s, h, k);
      WakeOneKeeps(s, h, k);
      PassedOne(s, u, chan, k);
      WakeFrom(u, chan, k, t);
      WokenTrans(s, u, t, s.hash[h][k], chan);
    } else {
      WakeFrom(s, chan, k + 1, t);
    }
  }

  lemma NoneLeft(s: State, chan: nat)
    requires Lists(s, -1) && Passed(s, chan, |s.hash[Bucket(chan)]|)
    ensures NobodyOn(s, chan)
  {
    assert ListAt(s, Hash(Bucket(chan))) == s.hash[Bucket(chan)];
    forall i | 0 <= i < |s.procs| ensures !SleepsOn(s, i, chan) { assert OnList(s, -1, i); }
  }

  /** wakeup(chan) makes Runnable exactly those asleep on chan, and nobody sleeps on it afterwards. */
  lemma WakeWakes(s: State, chan: nat, t: State)
    requires Lists(s, -1) && t == Wake(s, chan, 0)
    ensures Lists(t, -1) && Woken(s, t, chan) && Pushed(s, t) && NobodyOn(t, chan)
  {
    WakeFrom(s, chan, 0, t);
    WokenEmpty(s, t, chan);
  }

  predicate NobodyOn(s: State, chan: nat) {
    forall i :: 0 <= i < |s.procs| ==> !SleepsOn(s, i, chan)
  }

  lemma WokenEmpty(s: State, t: State, chan: nat)
    requires Woken(s, t, chan)
    ensures NobodyOn(t, chan)
  {
    forall i | 0 <= i < |t.procs| ensures !SleepsOn(t, i, chan) {
      assert t.procs[i] == if SleepsOn(s, i, chan) then s.procs[i].(state := Runnable, chan := 0) else s.procs[i];
    }
  }

  // ---- the lists after each move -----------------------------------------------------------

  predicate SameRest(s: State, t: State) {
    t.init == s.init && t.nextpid == s.nextpid && t.base == s.base && t.reaped == s.reaped
  }

  /** The process on cpu c leaves it for list Home(p). */
  lemma LeaveCpu(s: State, c: nat, p: Proc, t: State)
    requires Lists(s, -1) && OnCpu(s, c) && p.prio < PRIOENTRIES && IsList(Home(p))
    requires t == PutList(OffCpu(s, c), Cur(s, c), p)
    ensures Lists(t, -1) && Pushed(s, t) && t.procs == s.procs[Cur(s, c) := p] && SameRest(s, t)
  {
    OffCpuKeeps(s, c);
    PutListKeeps(OffCpu(s, c), Cur(s, c), p);
  }

  lemma PickShape(s: State, c: nat, k: nat, t: State)
    requires Sized(s) && c < |s.cpus| && Top(s, PRIOENTRIES) == Some(k) && s.prioque[k][0] < |s.procs|
    requires t == Pick(s, c)
    ensures SameRest(s, t) && t.prioque == s.prioque[k := s.prioque[k][1..]] && t.hash == s.hash
    ensures t.procs == s.procs[s.prioque[k][0] := s.procs[s.prioque[k][0]].(state := Running, chan := 0)]
    ensures t.cpus == s.cpus[c := Some(s.prioque[k][0])]
  {
    assert RemoveAt(s.prioque[k], 0) == s.prioque[k][1..];
  }

  lemma PickFront(s: State, k: nat)
    requires Lists(s, -1) && k < PRIOENTRIES && s.prioque[k] != []
    ensures s.prioque[k][0] < |s.procs| && s.procs[s.prioque[k][0]].state == Runnable
  {
    assert ListAt(s, Queue(k)) == s.prioque[k];
    assert Holds(s.procs, ListAt(s, Queue(k)), Queue(k), -1);
  }

  lemma PickLists(s: State, c: nat, k: nat, t: State)
    requires Lists(s, -1) && c < |s.cpus| && s.cpus[c].None? && Top(s, PRIOENTRIES) == Some(k)
    requires s.prioque[k][0] < |s.procs| && t == Pick(s, c)
    ensures Lists(t, -1)
  {
    var i := s.prioque[k][0];
    assert ListAt(s, Queue(k)) == s.prioque[k];
    var u := OffList(s, Queue(k), 0);
    OffListKeeps(s, Queue(k), 0);
    var v := PutCpu(u, i, s.procs[i].(state := Running, chan := 0), c);
    PutCpuKeeps(u, i, s.procs[i].(state := Running, chan := 0), c);
    FieldsKeep(v, v.(lock := Some(c)));
  }
}
