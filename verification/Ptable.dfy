/** The process table as kern/proc.c updates it, in place and with its loops. Each method is one locked
    section; a process that sleeps or exits has left its cpu when the method ends. */
module Ptable {
  import opened Common
  import opened ProcSpec
  import opened Sections

  class Table {
    var procs: seq<Proc>
    var hashmp: seq<seq<nat>>
    var prioque: seq<seq<nat>>
    var cpus: seq<Option<nat>>
    var initproc: Option<nat>
    var nextpid: nat
    const base: nat
    ghost var handed: Option<nat>
    ghost var reaped: seq<nat>

    ghost function View(): State
      reads this
    {
      State(procs, hashmp, prioque, cpus, handed, initproc, nextpid, base, reaped)
    }

    ghost predicate Valid()
      reads this
    {
      Lists(View(), -1)
    }

    /** proc_init, with every list head initialised. */
    constructor (n: nat, m: nat, at: nat)
      ensures procs == seq(n, _ => Proc(Unused, 0, None, 0, 0, Free)) && cpus == seq(m, _ => None)
      ensures Valid() && nextpid == 1 && initproc == None && reaped == [] && base == at
    {
      procs := seq(n, _ => Proc(Unused, 0, None, 0, 0, Free));
      hashmp := seq(HASHENTRIES, _ => []);
      prioque := seq(PRIOENTRIES, _ => []);
      cpus := seq(m, _ => None);
      initproc, nextpid, handed, reaped, base := None, 1, None, [], at;
      new;
      assert forall w :: IsList(w) ==> ListAt(View(), w) == [];
      forall i | 0 <= i < |procs| ensures OnList(View(), -1, i) && Runs(View(), -1, i) {}
      forall c, d | 0 <= c < d < |cpus| ensures !SameCpu(View(), c, d) {}
    }

    /** wakeup1: one pass over the channel's hash list, unlinking as it goes. */
    method Wakeup1(chan: nat)
      requires Valid()
      modifies this
      ensures View() == Wake(old(View()), chan, 0)
      ensures Valid() && Woken(old(View()), View(), chan) && NobodyOn(View(), chan)
      ensures Queued(old(View()), View(), chan, 0)
    {
      ghost var s := View();
      var h := chan % HASHENTRIES;
      var k: nat := 0;
      while k < |hashmp[h]|
        invariant Valid() && k <= |hashmp[h]| && Wake(View(), chan, k) == Wake(s, chan, 0)
        decreases |hashmp[h]| - k
      {
        k := WakeAt(chan, h, k);
      }
      WakeWakes(s, chan, View());
      WakeOrder(s, chan, 0, View());
    }

    /** One turn of that pass. */
    method WakeAt(chan: nat, h: nat, k: nat) returns (next: nat)
      requires Valid() && h == Bucket(chan) && k < |hashmp[h]|
      modifies this
      ensures Valid() && next <= |hashmp[h]| && |hashmp[h]| - next < |old(hashmp)[h]| - k
      ensures Wake(View(), chan, next) == Wake(old(View()), chan, k)
    {
      ghost var s := View();
      WakeOneKeeps(s, h, k);
      var i := hashmp[h][k];
      next := k + 1;
      if procs[i].chan == chan && procs[i].state == Sleeping {
        procs := procs[i := procs[i].(state := Runnable, chan := 0)];
        hashmp := hashmp[h := hashmp[h][..k] + hashmp[h][k + 1..]];
        prioque := prioque[procs[i].prio := prioque[procs[i].prio] + [i]];
        next := k;
        assert View() == WakeOne(s, h, k);
      }
    }

    method DoYield(c: nat)
      requires Valid() && OnCpu(View(), c)
      modifies this
      ensures View() == Yield(old(View()), c) && Valid() && Yielded(old(View()), View(), c)
    {
      ghost var s := View();
      var i := cpus[c].value;
      procs := procs[i := procs[i].(state := Runnable)];
      prioque := prioque[procs[i].prio := prioque[procs[i].prio] + [i]];
      cpus := cpus[c := None];
      LeaveCpu(s, c, s.procs[i].(state := Runnable), View());
      YieldDoes(s, c);
    }

    method DoSleep(c: nat, chan: nat)
      requires Valid() && OnCpu(View(), c)
      modifies this
      ensures View() == Sleep(old(View()), c, chan) && Valid() && Slept(old(View()), View(), c, chan)
    {
      ghost var s := View();
      var i := cpus[c].value;
      procs := procs[i := procs[i].(state := Sleeping, chan := chan)];
      var entry := chan % HASHENTRIES;
      hashmp := hashmp[entry := hashmp[entry] + [i]];
      cpus := cpus[c := None];
      LeaveCpu(s, c, s.procs[i].(state := Sleeping, chan := chan), View());
      SleepDoes(s, c, chan);
    }

    /** sleep, and a wakeup of its channel: the process is Runnable, and last on the queue of its priority. */
    method SleepAndWakeup(c: nat, chan: nat)
      requires Valid() && OnCpu(View(), c)
      modifies this
      ensures Valid() && NobodyOn(View(), chan)
      ensures var i, p := old(cpus)[c].value, old(procs)[old(cpus)[c].value];
        && i < |procs| && procs[i] == Proc(Runnable, p.pid, p.parent, 0, p.prio, p.pc)
        && prioque[p.prio] != [] && prioque[p.prio][|prioque[p.prio]| - 1] == i
    {
      SleepThenWake(View(), c, chan);
      DoSleep(c, chan);
      Wakeup1(chan);
    }

    /** The scheduler's turn on an idle cpu: from the highest priority down. */
    method Schedule(c: nat) returns (picked: bool)
      requires Valid() && c < |cpus| && cpus[c].None?
      modifies this
      ensures picked <==> exists k :: 0 <= k < PRIOENTRIES && old(prioque)[k] != []
      ensures !picked ==> View() == old(View())
      ensures picked ==>
        Top(old(View()), PRIOENTRIES).Some? && old(prioque)[Top(old(View()), PRIOENTRIES).value][0] < |old(procs)|
          && View() == Pick(old(View()), c)
      ensures picked ==> Chosen(old(View()), View(), c, Top(old(View()), PRIOENTRIES).value)
      ensures Valid()
    {
      ghost var s := View();
      var i: nat := PRIOENTRIES;
      while i > 0 && prioque[i - 1] == []
        invariant i <= PRIOENTRIES && Top(s, PRIOENTRIES) == Top(s, i)
        invariant forall k :: i <= k < PRIOENTRIES ==> prioque[k] == []
      {
        i := i - 1;
      }
      picked := i > 0;
      if picked {
        PickFront(s, i - 1);
        PickLists(s, c, i - 1, Pick(s, c));
        PickShape(s, c, i - 1, Pick(s, c));
        PickDoes(s, c);
        var p := prioque[i - 1][0];
        cpus := cpus[c := Some(p)];
        procs := procs[p := procs[p].(state := Running, chan := 0)];
        prioque := prioque[i - 1 := prioque[i - 1][1..]];
        handed := Some(c);
      }
    }

    /** exit: wake the parent, hand the children to init, become a Zombie. */
    method DoExit(c: nat)
      requires Valid() && OnCpu(View(), c)
      modifies this
      ensures View() == Exit(old(View()), c) && Valid()
    {
      ghost var s := View();
      var p := cpus[c].value;
      var parent := procs[p].parent;
      Wakeup1(if parent.None? then 0 else base + 1 + PROCSIZE * parent.value);
      ghost var u := View();
      assert u == Wake(s, ChanOf(s, parent), 0);
      for k := 0 to |procs|
        invariant |procs| == |s.procs| && Valid() && cpus == s.cpus && View() == Adopt(u, p, k)
      {
        AdoptAt(p, k);
      }
      BecomeZombie(c);
    }

    method BecomeZombie(c: nat)
      requires Valid() && OnCpu(View(), c)
      modifies this
      ensures Valid()
      ensures var s, p := old(View()), old(cpus)[c].value;
        p < |s.procs| && View() == Put(OffCpu(s, c), p, s.procs[p].(state := Zombie))
    {
      ghost var s := View();
      var p := cpus[c].value;
      procs := procs[p := procs[p].(state := Zombie)];
      cpus := cpus[c := None];
      OffCpuKeeps(s, c);
      PutKeeps(OffCpu(s, c), p, s.procs[p].(state := Zombie));
    }

    /** One turn of exit's loop. */
    method AdoptAt(p: nat, k: nat)
      requires Valid() && k < |procs|
      modifies this
      ensures View() == AdoptOne(old(View()), p, k) && Valid()
    {
      ghost var s := View();
      if procs[k].parent == Some(p) {
        procs := procs[k := procs[k].(parent := initproc)];
        FieldsKeep(s, View());
        if procs[k].state == Zombie {
          Wakeup1(if initproc.None? then 0 else base + 1 + PROCSIZE * initproc.value);
        }
      }
    }

    /** One turn of wait's loop: the reaped pid, -1 without children, or 0 once asleep. */
    method WaitTurn(c: nat) returns (r: int)
      requires Valid() && OnCpu(View(), c)
      modifies this
      ensures View() == Wait(old(View()), c) && Valid()
      ensures r == -1 <==> forall j :: 0 <= j < |old(procs)| ==> old(procs)[j].parent != old(cpus)[c]
      ensures r > 0 ==> reaped == old(reaped) + [r]
      ensures var i, s := old(cpus)[c].value, old(View());
        if exists j :: 0 <= j < |s.procs| && s.procs[j].parent == Some(i) && s.procs[j].state == Zombie then
          exists j :: 0 <= j < |s.procs| && s.procs[j].parent == Some(i) && s.procs[j].state == Zombie
            && r == s.procs[j].pid && Cleaned(SetPc(s, i, Free), View(), j)
        else if r == 0 then Slept(SetPc(s, i, Waiting), View(), c, Addr(s, i))
        else r == -1 && View() == SetPc(s, i, Free)
    {
      ghost var s := View();
      var par := cpus[c].value;
      var flag := false;
      var p := 0;
      while p < |procs|
        invariant p <= |procs| && View() == s && FirstZombie(s, par, 0) == FirstZombie(s, par, p)
        invariant flag <==> exists j :: 0 <= j < p && procs[j].parent == Some(par)
      {
        if procs[p].parent == Some(par) {
          flag := true;
          if procs[p].state == Zombie {
            procs := procs[par := procs[par].(pc := Free)];
            FieldsKeep(s, View());
            r := CleanProc(p);
            return;
          }
        }
        p := p + 1;
      }
      procs := procs[par := procs[par].(pc := if flag then Waiting else Free)];
      FieldsKeep(s, View());
      if !flag { return -1; }
      DoSleep(c, base + 1 + PROCSIZE * par);
      return 0;
    }

    /** cleanproc, and the pid to return. */
    method CleanProc(p: nat) returns (pid: nat)
      requires Valid() && p < |procs| && procs[p].state == Zombie
      modifies this
      ensures View() == Reap(old(View()), p) && Valid() && pid == old(procs)[p].pid
      ensures Cleaned(old(View()), View(), p)
    {
      ghost var s := View();
      pid := procs[p].pid;
      procs := procs[p := procs[p].(state := Unused, pid := 0, parent := None)];
      SetAside(s, p);
      PutKeeps(s, p, procs[p]);
      reaped := reaped + [pid];
      FieldsKeep(Put(s, p, procs[p]), View());
    }

    /** proc_alloc when its kernel stack can be allocated: the slot, or -1 when there is none. */
    method ProcAlloc() returns (r: int)
      requires Valid()
      modifies this
      ensures r == -1 <==> forall j :: 0 <= j < |old(procs)| ==> old(procs)[j].state != Unused
      ensures r == -1 ==> View() == old(View())
      ensures r != -1 ==> 0 <= r < |old(procs)| && View() == Alloc(old(View()), r)
      ensures r != -1 ==> 0 <= r < |old(procs)| && Allocated(old(View()), View(), r)
      ensures Valid()
    {
      ghost var s := View();
      r := 0;
      while r < |procs| && procs[r].state != Unused
        invariant 0 <= r <= |procs| && forall j :: 0 <= j < r ==> procs[j].state != Unused
      {
        r := r + 1;
      }
      if r == |procs| { return -1; }
      procs := procs[r := procs[r].(state := Embryo, pid := nextpid, chan := 0, prio := PRIOENTRIES - 1)];
      nextpid := nextpid + 1;
      SetAside(s, r);
      PutKeeps(s, r, procs[r]);
      FieldsKeep(Put(s, r, procs[r]), View());
    }
  }
}
