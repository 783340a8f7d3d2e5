/** The page allocator of kern/kalloc.c over whole runs: who has which frame. */
module Frames {
  import opened Common

  /** The free list, and the frames that kalloc has handed out and that were not given back. */
  datatype State = State(free: seq<nat>, held: set<nat>)

  datatype Event = Take | Give(f: nat)

  /** kalloc with a frame left; kfree of a frame that was handed out. */
  predicate Enabled(s: State, e: Event) {
    match e
    case Take => s.free != []
    case Give(f) => f in s.held
  }

  function Apply(s: State, e: Event): State
    requires Enabled(s, e)
  {
    match e
    case Take => State(s.free[1..], s.held + {s.free[0]})
    case Give(f) => State([f] + s.free, s.held - {f})
  }

  /** Every frame of the pool is free, once, or held. */
  ghost predicate Inv(s: State, pool: set<nat>) {
    && NoDup(s.free) && (forall f :: f in s.free ==> f !in s.held)
    && forall f :: f in pool <==> f in s.free || f in s.held
  }

  lemma StepKeeps(s: State, e: Event, pool: set<nat>)
    requires Inv(s, pool) && Enabled(s, e)
    ensures Inv(Apply(s, e), pool)
  {
    if e.Take? {
      assert s.free == [s.free[0]] + s.free[1..];
    }
  }

  ghost predicate StepOk(s: State, e: Event, t: State) {
    Enabled(s, e) && t == Apply(s, e)
  }

  /** alloc_init starts from an empty list and gives every frame of the pool. */
  ghost predicate Run(pool: set<nat>, ss: seq<State>, es: seq<Event>) {
    |ss| == |es| + 1 && ss[0] == State([], pool) && forall k :: 0 <= k < |es| ==> StepOk(ss[k], es[k], ss[k + 1])
  }

  /** In every state of every run, a frame is free once or held, and none is lost. */
  lemma {:induction false} RunKeeps(pool: set<nat>, ss: seq<State>, es: seq<Event>, k: nat)
    requires Run(pool, ss, es) && k < |ss|
    ensures Inv(ss[k], pool)
  {
    if k > 0 {
      RunKeeps(pool, ss, es, k - 1);
      assert StepOk(ss[k - 1], es[k - 1], ss[k]);
      StepKeeps(ss[k - 1], es[k - 1], pool);
    }
  }

  /** A frame stays with its holder until it is given back. */
  lemma {:induction false} StaysHeld(pool: set<nat>, ss: seq<State>, es: seq<Event>, i: nat, j: nat, f: nat)
    requires Run(pool, ss, es) && i <= j < |ss| && f in ss[i].held && forall k :: i <= k < j ==> es[k] != Give(f)
    ensures f in ss[j].held
    decreases j - i
  {
    if i < j {
      StaysHeld(pool, ss, es, i, j - 1, f);
      assert StepOk(ss[j - 1], es[j - 1], ss[j]);
    }
  }

  /** Between two kallocs that return the same frame, the frame was freed. */
  lemma HandedOutOnce(pool: set<nat>, ss: seq<State>, es: seq<Event>, i: nat, j: nat)
    requires Run(pool, ss, es) && i < j < |es| && es[i].Take? && es[j].Take?
    requires ss[i].free != [] && ss[j].free != [] && ss[i].free[0] == ss[j].free[0]
    ensures exists k :: i < k < j && es[k] == Give(ss[i].free[0])
  {
    var f := ss[i].free[0];
    assert StepOk(ss[i], es[i], ss[i + 1]);
    RunKeeps(pool, ss, es, j);
    assert f in ss[j].free;
    if forall k :: i + 1 <= k < j ==> es[k] != Give(f) {
      StaysHeld(pool, ss, es, i + 1, j, f);
      assert false;
    }
  }
}
