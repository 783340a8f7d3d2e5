/** What the locked sections of kern/proc.c leave behind, field by field. */
module Sections {
  import opened Common
  import opened ProcSpec

  /** yield: the process on cpu c is Runnable, otherwise as it was, and last on the queue of its priority. */
  predicate Yielded(s: State, t: State, c: nat)
    requires Prios(s) && OnCpu(s, c)
  {
    var i := s.cpus[c].value;
    var p := s.procs[i];
    && t.procs == s.procs[i := Proc(Runnable, p.pid, p.parent, p.chan, p.prio, p.pc)]
    && t.prioque == s.prioque[p.prio := s.prioque[p.prio] + [i]]
    && t.hash == s.hash && t.cpus == s.cpus[c := None] && t.lock == s.lock && SameRest(s, t)
  }

  /** sleep: the process on cpu c sleeps on chan, is last on that channel's list, and otherwise as it was. */
  predicate Slept(s: State, t: State, c: nat, chan: nat)
    requires Sized(s) && OnCpu(s, c)
  {
    var i := s.cpus[c].value;
    var p := s.procs[i];
    && t.procs == s.procs[i := Proc(Sleeping, p.pid, p.parent, chan, p.prio, p.pc)] && SleepsOn(t, i, chan)
    && t.hash == s.hash[chan % HASHENTRIES := s.hash[chan % HASHENTRIES] + [i]]
    && t.prioque == s.prioque && t.cpus == s.cpus[c := None] && t.lock == s.lock && SameRest(s, t)
  }

  /** The scheduler's choice: the front of queue k, the highest with anyone on it, runs on cpu c. */
  predicate Chosen(s: State, t: State, c: nat, k: nat)
    requires Sized(s) && c < |s.cpus| && k < PRIOENTRIES && s.prioque[k] != [] && s.prioque[k][0] < |s.procs|
  {
    var i := s.prioque[k][0];
    var p := s.procs[i];
    && (forall q :: k < q < PRIOENTRIES ==> s.prioque[q] == [])
    && t.procs == s.procs[i := Proc(Running, p.pid, p.parent, 0, p.prio, p.pc)]
    && t.prioque == s.prioque[k := s.prioque[k][1..]] && t.hash == s.hash
    && t.cpus == s.cpus[c := Some(i)] && t.lock == Some(c) && SameRest(s, t)
  }

  /** proc_alloc: slot j, free so far, is an Embryo with the next pid and the highest priority. */
  predicate Allocated(s: State, t: State, j: nat)
    requires j < |s.procs|
  {
    var p := s.procs[j];
    && p.state == Unused && t.procs == s.procs[j := Proc(Embryo, s.nextpid, p.parent, 0, 3, p.pc)]
    && t == s.(procs := t.procs, nextpid := s.nextpid + 1)
  }

  /** cleanproc and the return of wait: slot j is free, and its pid was returned. */
  predicate Cleaned(s: State, t: State, j: nat)
    requires j < |s.procs|
  {
    var p := s.procs[j];
    && t.procs == s.procs[j := Proc(Unused, 0, None, p.chan, p.prio, p.pc)]
    && t == s.(procs := t.procs, reaped := s.reaped + [p.pid])
  }

  /** fork's end: the child j of the process i is Runnable, with i's priority and last on that queue. */
  predicate Published(s: State, t: State, i: nat, j: nat)
    requires Prios(s) && i < |s.procs| && j < |s.procs| && i != j
  {
    var p, q, prio := s.procs[i], s.procs[j], s.procs[i].prio;
    && t.procs == s.procs[i := Proc(p.state, p.pid, p.parent, p.chan, p.prio, Free)]
                         [j := Proc(Runnable, q.pid, q.parent, q.chan, prio, q.pc)]
    && t == s.(procs := t.procs, prioque := s.prioque[prio := s.prioque[prio] + [j]])
  }

  /** user_init: slot j is the first process, Runnable, and init unless it is the idle loop. */
  predicate Started(s: State, t: State, j: nat, loop: bool)
    requires Prios(s) && j < |s.procs|
  {
    var p := s.procs[j];
    && t.procs == s.procs[j := Proc(Runnable, s.nextpid, p.parent, 0, 3, p.pc)]
    && t == s.(procs := t.procs, prioque := s.prioque[3 := s.prioque[3] + [j]], nextpid := s.nextpid + 1,
               init := if loop then s.init else Some(j))
  }

  lemma YieldDoes(s: State, c: nat)
    requires Prios(s) && OnCpu(s, c)
    ensures Yielded(s, Yield(s, c), c)
  {
  }

  lemma SleepDoes(s: State, c: nat, chan: nat)
    requires Prios(s) && OnCpu(s, c)
    ensures Slept(s, Sleep(s, c, chan), c, chan)
  {
  }

  lemma PickDoes(s: State, c: nat)
    requires Sized(s) && c < |s.cpus| && Top(s, PRIOENTRIES).Some?
    requires s.prioque[Top(s, PRIOENTRIES).value][0] < |s.procs|
    ensures Chosen(s, Pick(s, c), c, Top(s, PRIOENTRIES).value)
  {
    PickShape(s, c, Top(s, PRIOENTRIES).value, Pick(s, c));
  }

  lemma ForkDoes(s: State, i: nat, j: nat)
    requires Prios(s) && i < |s.procs| && j < |s.procs| && i != j
    ensures Published(s, Publish(s, i, j), i, j)
    ensures s.procs[j].state == Unused ==> Allocated(s, Alloc(s, j), j)
  {
  }

  lemma UserInitDoes(s: State, j: nat, loop: bool)
    requires Prios(s) && j < |s.procs|
    ensures Started(s, UserInit(s, j, loop), j, loop)
  {
  }

  // ---- the order in which a wakeup wakes ---------------------------------------------------

  /** Those of a list who sleep on chan with priority prio, in order. */
  function Roused(s: State, q: seq<nat>, chan: nat, prio: nat): seq<nat> {
    if q == [] then []
    else (if SleepsOn(s, q[0], chan) && s.procs[q[0]].prio == prio then [q[0]] else []) + Roused(s, q[1..], chan, prio)
  }

  /** Those who do not sleep on chan. */
  function Asleep(s: State, q: seq<nat>, chan: nat): seq<nat> {
    if q == [] then [] else (if SleepsOn(s, q[0], chan) then [] else [q[0]]) + Asleep(s, q[1..], chan)
  }

  lemma {:induction false} RousedSame(s: State, u: State, i: nat, q: seq<nat>, chan: nat, prio: nat)
    requires i !in q && i < |s.procs| && |u.procs| == |s.procs| && u.procs == s.procs[i := u.procs[i]]
    ensures Roused(u, q, chan, prio) == Roused(s, q, chan, prio) && Asleep(u, q, chan) == Asleep(s, q, chan)
    decreases |q|
  {
    if q != [] {
      assert q[0] in q;
      RousedSame(s, u, i, q[1..], chan, prio);
    }
  }

  /** The queues and the list after a wakeup has scanned from position k on. */
  predicate Queued(s: State, t: State, chan: nat, k: nat)
    requires Sized(s) && k <= |s.hash[chan % HASHENTRIES]|
  {
    var h := chan % HASHENTRIES;
    && |t.prioque| == |s.prioque|
    && (forall p :: 0 <= p < PRIOENTRIES ==> QueuedAt(s, t, chan, k, p))
    && t.hash == s.hash[h := s.hash[h][..k] + Asleep(s, s.hash[h][k..], chan)]
  }

  predicate QueuedAt(s: State, t: State, chan: nat, k: nat, p: nat)
    requires Sized(s) && k <= |s.hash[chan % HASHENTRIES]| && p < PRIOENTRIES == |t.prioque|
  {
    t.prioque[p] == s.prioque[p] + Roused(s, s.hash[chan % HASHENTRIES][k..], chan, p)
  }

  lemma {:induction false} WakeOrder(s: State, chan: nat, k: nat, t: State)
    requires Lists(s, -1) && k <= |s.hash[Bucket(chan)]| && t == Wake(s, chan, k)
    ensures Queued(s, t, chan, k)
    decreases |s.hash[Bucket(chan)]| - k
  {
    var h := Bucket(chan);
    var q := s.hash[h];
    if k == |q| {
      NobodyLeft(s, chan, h, q);
    } else if SleepsOn(s, q[k], chan) {
      var u := WakeOne(s, h, k);
      WakeOneKeeps(s, h, k);
      WakeOrder(u, chan, k, t);
      InOnePlace(s, h, k);
      WokenFirst(s, u, t, chan, k, h, q, q[k]);
    } else {
      WakeOrder(s, chan, k + 1, t);
      NotWoken(s, t, chan, k, h, q);
    }
  }

  lemma NobodyLeft(s: State, chan: nat, h: nat, q: seq<nat>)
    requires Sized(s) && h == chan % HASHENTRIES && q == s.hash[h]
    ensures Queued(s, s, chan, |q|)
  {
    assert q[|q|..] == [] && q[..|q|] + Asleep(s, [], chan) == q;
    forall p | 0 <= p < PRIOENTRIES ensures QueuedAt(s, s, chan, |q|, p) {}
  }

  lemma NotWoken(s: State, t: State, chan: nat, k: nat, h: nat, q: seq<nat>)
    requires Sized(s) && h == chan % HASHENTRIES && q == s.hash[h] && k < |q| && !SleepsOn(s, q[k], chan)
    requires Queued(s, t, chan, k + 1)
    ensures Queued(s, t, chan, k)
  {
    var r := q[k..];
    assert r[0] == q[k] && r[1..] == q[k + 1..];
    forall p | 0 <= p < PRIOENTRIES ensures QueuedAt(s, t, chan, k, p) {
      assert QueuedAt(s, t, chan, k + 1, p);
      assert Roused(s, r, chan, p) == [] + Roused(s, r[1..], chan, p);
    }
    assert q[..k + 1] == q[..k] + [q[k]];
    Regroup(q[..k], [q[k]], Asleep(s, r[1..], chan));
  }

  lemma InOnePlace(s: State, h: nat, k: nat)
    requires Lists(s, -1) && h < HASHENTRIES && k < |s.hash[h]|
    ensures NoDup(s.hash[h])
  {
    assert ListAt(s, Hash(h)) == s.hash[h];
    assert Holds(s.procs, ListAt(s, Hash(h)), Hash(h), -1);
  }

  lemma Regroup<T>(a: seq<T>, b: seq<T>, c: seq<T>)
    ensures (a + b) + c == a + (b + c)
  {
  }

  lemma WokenFirst(s: State, u: State, t: State, chan: nat, k: nat, h: nat, q: seq<nat>, i: nat)
    requires Prios(s) && h == chan % HASHENTRIES && q == s.hash[h] && k < |q| && i == q[k] && NoDup(q)
    requires SleepsOn(s, i, chan) && u == WakeOne(s, h, k) && Queued(u, t, chan, k)
    ensures Queued(s, t, chan, k)
  {
    var r, rest := q[k..], q[k + 1..];
    assert r[0] == i && r[1..] == rest && RemoveAt(q, k)[k..] == rest && RemoveAt(q, k)[..k] == q[..k];
    RousedSame(s, u, i, rest, chan, 0);
    assert Asleep(s, r, chan) == [] + Asleep(s, rest, chan) == Asleep(s, rest, chan);
    assert u.hash == s.hash[h := RemoveAt(q, k)] && u.hash[h] == RemoveAt(q, k);
    var left := q[..k] + Asleep(s, rest, chan);
    assert t.hash == u.hash[h := left];
    assert s.hash[h := RemoveAt(q, k)][h := left] == s.hash[h := left];
    assert |u.prioque| == |s.prioque|;
    forall p | 0 <= p < PRIOENTRIES ensures QueuedAt(s, t, chan, k, p) {
      assert QueuedAt(u, t, chan, k, p);
      RousedSame(s, u, i, rest, chan, p);
      FirstInQueue(s, u, h, k, i, p, Roused(s, rest, chan, p));
    }
  }

  lemma FirstInQueue(s: State, u: State, h: nat, k: nat, i: nat, p: nat, more: seq<nat>)
    requires Prios(s) && h < HASHENTRIES && k < |s.hash[h]| && i == s.hash[h][k] < |s.procs| && u == WakeOne(s, h, k)
    requires p < PRIOENTRIES
    ensures u.prioque[p] + more == s.prioque[p] + ((if s.procs[i].prio == p then [i] else []) + more)
  {
    Regroup(s.prioque[p], if s.procs[i].prio == p then [i] else [], more);
  }

  /** After sleep(chan) and then wakeup(chan) the process is Runnable, and last on the queue of its priority. */
  lemma SleepThenWake(s: State, c: nat, chan: nat)
    requires Lists(s, -1) && OnCpu(s, c)
    ensures var i, t := s.cpus[c].value, Sleep(s, c, chan);
      Prios(t) && var u := Wake(t, chan, 0); var p := s.procs[i];
      && u.procs[i] == Proc(Runnable, p.pid, p.parent, 0, p.prio, p.pc)
      && u.prioque[p.prio] != [] && u.prioque[p.prio][|u.prioque[p.prio]| - 1] == i
  {
    var i, t := s.cpus[c].value, Sleep(s, c, chan);
    var p := s.procs[i];
    SleepDoes(s, c, chan);
    LeaveCpu(s, c, p.(state := Sleeping, chan := chan), t);
    var u := Wake(t, chan, 0);
    WakeWakes(t, chan, u);
    WakeOrder(t, chan, 0, u);
    assert QueuedAt(t, u, chan, 0, p.prio);
    var q := t.hash[chan % HASHENTRIES];
    assert q[0..] == q;
    RousedLast(t, q, chan, i);
  }

  lemma {:induction false} RousedLast(s: State, q: seq<nat>, chan: nat, i: nat)
    requires q != [] && q[|q| - 1] == i && SleepsOn(s, i, chan)
    ensures var r := Roused(s, q, chan, s.procs[i].prio); r != [] && r[|r| - 1] == i
    decreases |q|
  {
    if |q| > 1 { RousedLast(s, q[1..], chan, i); }
  }
}
