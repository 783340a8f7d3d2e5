/** The buffer cache of kern/bio.c. Users of buffers interleave: each use of a buffer, from bget to the
    end of brelse, is a handle, and a process may have several. Buffers are found, recycled and counted
    under bcache.lock; their contents are used under their sleep lock. */
module Bio {
  import opened Common

  type Data = nat

  datatype Key = Key(dev: nat, block: nat)

  /** `pins` counts the bpins not yet undone; the code has only their sum with the handles, refcnt. */
  datatype Buf = Buf(key: Key, refcnt: nat, valid: bool, data: Data, holder: Option<nat>, pins: nat)

  datatype Handle =
    | Idle
    | Want(b: nat, key: Key)                    // bget has chosen buffer b, and is at acquiresleep
    | Hold(b: nat, key: Key, changed: bool)     // locked; changed since it was last written to disk
    | Drop(b: nat)                              // brelse has unlocked it, and is at acquire(&bcache.lock)

  /** `lru` is the list from most to least recently used. `flat` is the store as its users see it: the
      last value written into each block. */
  datatype State = State(bufs: seq<Buf>, lru: seq<nat>, disk: map<Key, Data>, flat: map<Key, Data>,
    handles: seq<Handle>)

  // ---- bget's scans ------------------------------------------------------------------------

  /** The first buffer for key from position k of the list on. */
  function Find(bufs: seq<Buf>, lru: seq<nat>, key: Key, k: nat): (r: Option<nat>)
    requires k <= |lru|
    ensures r.Some? ==> r.value in lru && r.value < |bufs| && bufs[r.value].key == key
    ensures r.None? ==> forall a :: k <= a < |lru| && lru[a] < |bufs| ==> bufs[lru[a]].key != key
    decreases |lru| - k
  {
    if k == |lru| then None
    else if lru[k] < |bufs| && bufs[lru[k]].key == key then Some(lru[k])
    else Find(bufs, lru, key, k + 1)
  }

  /** The last unreferenced buffer before position k. */
  function Victim(bufs: seq<Buf>, lru: seq<nat>, k: nat): (r: Option<nat>)
    requires k <= |lru|
    ensures r.Some? ==> r.value in lru && r.value < |bufs| && bufs[r.value].refcnt == 0
    ensures r.None? ==> forall a :: 0 <= a < k && lru[a] < |bufs| ==> bufs[lru[a]].refcnt != 0
  {
    if k == 0 then None
    else if lru[k - 1] < |bufs| && bufs[lru[k - 1]].refcnt == 0 then Some(lru[k - 1])
    else Victim(bufs, lru, k - 1)
  }

  function Select(bufs: seq<Buf>, lru: seq<nat>, key: Key): Option<nat> {
    var f := Find(bufs, lru, key, 0);
    if f.Some? then f else Victim(bufs, lru, |lru|)
  }

  function Chosen(s: State, key: Key): Option<nat> {
    Select(s.bufs, s.lru, key)
  }

  /** Buffer b after bget has taken it for key. */
  function Taken(b: Buf, key: Key): Buf {
    if b.key == key then b.(refcnt := b.refcnt + 1) else b.(key := key, refcnt := 1, valid := false)
  }

  function Without(q: seq<nat>, x: nat): (r: seq<nat>)
    ensures forall y :: y in r <==> y in q && y != x
  {
    if q == [] then [] else if q[0] == x then Without(q[1..], x) else [q[0]] + Without(q[1..], x)
  }

  // ---- the steps ---------------------------------------------------------------------------

  datatype Event =
    | Get(h: nat, key: Key)         // bget, up to acquiresleep
    | Lock(h: nat)
    | Read(h: nat)                  // bread's sdrw, when the buffer is not valid
    | Change(h: nat, data: Data)    // the user writes into b->data
    | Write(h: nat)                 // bwrite
    | Pin(h: nat)                   // log_write's bpin
    | Unpin(h: nat)                 // install_trans's bunpin, after its bwrite
    | Release(h: nat)               // brelse's releasesleep
    | Unref(h: nat)                 // the rest of brelse

  predicate Holds(s: State, h: nat) {
    h < |s.handles| && s.handles[h].Hold? && s.handles[h].b < |s.bufs| && s.handles[h].key in s.disk
  }

  /** What users may do. Before brelse, a changed buffer was written or pinned; only a pinned buffer that
      agrees with the disk is unpinned; device 0 is not used. */
  predicate Enabled(s: State, e: Event) {
    match e
    case Get(h, key) =>
      h < |s.handles| && s.handles[h].Idle? && key.dev != 0 && key in s.disk && Chosen(s, key).Some?
    case Lock(h) =>
      h < |s.handles| && s.handles[h].Want? && s.handles[h].b < |s.bufs| && s.bufs[s.handles[h].b].holder.None?
    case Read(h) => Holds(s, h) && !s.bufs[s.handles[h].b].valid
    case Change(h, _) => Holds(s, h) && s.bufs[s.handles[h].b].valid
    case Write(h) => Holds(s, h) && s.bufs[s.handles[h].b].valid
    case Pin(h) => Holds(s, h) && s.bufs[s.handles[h].b].valid
    case Unpin(h) =>
      && Holds(s, h) && s.bufs[s.handles[h].b].valid && !s.handles[h].changed && s.bufs[s.handles[h].b].pins > 0
      && s.bufs[s.handles[h].b].refcnt > 0 && s.bufs[s.handles[h].b].data == s.disk[s.handles[h].key]
    case Release(h) =>
      && Holds(s, h) && s.bufs[s.handles[h].b].valid
      && (!s.handles[h].changed || s.bufs[s.handles[h].b].pins > 0)
    case Unref(h) =>
      h < |s.handles| && s.handles[h].Drop? && s.handles[h].b < |s.bufs| && s.bufs[s.handles[h].b].refcnt > 0
  }

  function Put(s: State, h: nat, x: Handle, b: nat, f: Buf): State
    requires h < |s.handles| && b < |s.bufs|
  {
    s.(handles := s.handles[h := x], bufs := s.bufs[b := f])
  }

  function Apply(s: State, e: Event): State
    requires Enabled(s, e)
  {
    match e
    case Get(h, key) =>
      var b := Chosen(s, key).value;
      Put(s, h, Want(b, key), b, Taken(s.bufs[b], key))
    case Lock(h) =>
      var b := s.handles[h].b;
      Put(s, h, Hold(b, s.handles[h].key, false), b, s.bufs[b].(holder := Some(h)))
    case Read(h) =>
      var b := s.handles[h].b;
      Put(s, h, s.handles[h], b, s.bufs[b].(data := s.disk[s.handles[h].key], valid := true))
    case Change(h, d) =>
      var b := s.handles[h].b;
      Put(s, h, s.handles[h].(changed := true), b, s.bufs[b].(data := d)).(flat := s.flat[s.handles[h].key := d])
    case Write(h) =>
      var b := s.handles[h].b;
      Put(s, h, s.handles[h].(changed := false), b, s.bufs[b]).(disk := s.disk[s.handles[h].key := s.bufs[b].data])
    case Pin(h) =>
      var b := s.handles[h].b;
      Put(s, h, s.handles[h], b, s.bufs[b].(pins := s.bufs[b].pins + 1, refcnt := s.bufs[b].refcnt + 1))
    case Unpin(h) =>
      var b := s.handles[h].b;
      Put(s, h, s.handles[h], b, s.bufs[b].(pins := s.bufs[b].pins - 1, refcnt := s.bufs[b].refcnt - 1))
    case Release(h) =>
      var b := s.handles[h].b;
      Put(s, h, Drop(b), b, s.bufs[b].(holder := None))
    case Unref(h) =>
      var b := s.handles[h].b;
      Put(s, h, Idle, b, s.bufs[b].(refcnt := s.bufs[b].refcnt - 1))
        .(lru := if s.bufs[b].refcnt == 1 then [b] + Without(s.lru, b) else s.lru)
  }

  // ---- the invariant -----------------------------------------------------------------------

  predicate Uses(x: Handle, b: nat) {
    !x.Idle? && x.b == b
  }

  /** How many handles are on buffer b. */
  function Users(hs: seq<Handle>, b: nat): nat {
    if hs == [] then 0 else (if Uses(hs[0], b) then 1 else 0) + Users(hs[1..], b)
  }

  predicate BufOk(s: State, b: nat)
    requires b < |s.bufs|
  {
    var f := s.bufs[b];
    f.refcnt == f.pins + Users(s.handles, b) && b in s.lru
    && (f.holder.Some? ==>
      f.holder.value < |s.handles| && s.handles[f.holder.value].Hold? && s.handles[f.holder.value].b == b)
    && (f.valid ==> f.key.dev != 0 && f.key in s.disk && f.key in s.flat && f.data == s.flat[f.key])
    && (f.valid && s.disk[f.key] != f.data ==> Guarded(s, f))
    && (f.pins > 0 ==> f.valid)
  }

  /** Something keeps the changed buffer from being recycled. */
  predicate Guarded(s: State, f: Buf) {
    || f.pins > 0
    || (f.holder.Some? && f.holder.value < |s.handles| && s.handles[f.holder.value].Hold?
        && s.handles[f.holder.value].changed)
  }

  predicate HandleOk(s: State, h: nat)
    requires h < |s.handles|
  {
    var x := s.handles[h];
    (!x.Idle? ==> x.b < |s.bufs|)
    && (x.Want? || x.Hold? ==> s.bufs[x.b].key == x.key && x.key.dev != 0 && x.key in s.disk)
    && (x.Hold? ==> s.bufs[x.b].holder == Some(h) && (x.changed ==> s.bufs[x.b].valid))
  }

  predicate SameKey(s: State, a: nat, b: nat)
    requires a < |s.bufs| && b < |s.bufs|
  {
    s.bufs[a].key == s.bufs[b].key && s.bufs[a].key.dev != 0
  }

  /** A block that is not in a valid buffer is up to date on the disk. */
  predicate KeyOk(s: State, key: Key) {
    key in s.disk && key in s.flat && (s.disk[key] == s.flat[key] || Cached(s, key))
  }

  predicate Cached(s: State, key: Key) {
    exists b :: 0 <= b < |s.bufs| && s.bufs[b].valid && s.bufs[b].key == key
  }

  ghost predicate Inv(s: State) {
    (forall b :: 0 <= b < |s.bufs| ==> BufOk(s, b))
    && (forall h :: 0 <= h < |s.handles| ==> HandleOk(s, h))
    && (forall a, b :: 0 <= a < b < |s.bufs| ==> !SameKey(s, a, b))
    && (forall k :: 0 <= k < |s.lru| ==> s.lru[k] < |s.bufs|)
    && (forall key <- s.disk :: KeyOk(s, key))
  }

  lemma {:induction false} UsersPut(hs: seq<Handle>, h: nat, x: Handle, b: nat)
    requires h < |hs|
    ensures Users(hs[h := x], b) == Users(hs, b) - (if Uses(hs[h], b) then 1 else 0) + (if Uses(x, b) then 1 else 0)
    decreases |hs|
  {
    if h > 0 {
      UsersPut(hs[1..], h - 1, x, b);
      assert hs[h := x][1..] == hs[1..][h - 1 := x];
    } else {
      assert hs[h := x][1..] == hs[1..];
    }
  }

  lemma {:induction false} UsersHas(hs: seq<Handle>, h: nat, b: nat)
    requires h < |hs| && Uses(hs[h], b)
    ensures Users(hs, b) > 0
    decreases h
  {
    if h > 0 { UsersHas(hs[1..], h - 1, b); }
  }

  // ---- bget --------------------------------------------------------------------------------

  /** The buffer bget takes: the one for the key, or, when there is none, an unreferenced one. */
  lemma ChosenIs(s: State, key: Key)
    requires Inv(s) && Chosen(s, key).Some?
    ensures var b := Chosen(s, key).value;
      b < |s.bufs| && (s.bufs[b].key == key || (s.bufs[b].refcnt == 0 && NoneHas(s, key)))
  {
    if Find(s.bufs, s.lru, key, 0).None? {
      forall a | 0 <= a < |s.bufs| ensures s.bufs[a].key != key {
        assert BufOk(s, a);
        var k :| 0 <= k < |s.lru| && s.lru[k] == a;
      }
    }
  }

  predicate NoneHas(s: State, key: Key) {
    forall a :: 0 <= a < |s.bufs| ==> s.bufs[a].key != key
  }

  /** An unreferenced buffer is on no handle, is not pinned, and its contents are on the disk. */
  lemma Unreferenced(s: State, b: nat)
    requires Inv(s) && b < |s.bufs| && s.bufs[b].refcnt == 0
    ensures s.bufs[b].pins == 0 && s.bufs[b].holder.None? && forall h :: 0 <= h < |s.handles| ==> !Uses(s.handles[h], b)
    ensures s.bufs[b].valid ==>
      s.bufs[b].key in s.disk && s.bufs[b].key in s.flat && s.disk[s.bufs[b].key] == s.flat[s.bufs[b].key]
  {
    assert BufOk(s, b);
    forall h | 0 <= h < |s.handles| ensures !Uses(s.handles[h], b) {
      if Uses(s.handles[h], b) { UsersHas(s.handles, h, b); }
    }
  }

  lemma GetHitKeeps(s: State, h: nat, b: nat, key: Key, t: State)
    requires Inv(s) && h < |s.handles| && s.handles[h].Idle? && b < |s.bufs| && s.bufs[b].key == key && key.dev != 0
    requires key in s.disk
    requires t == Put(s, h, Want(b, key), b, s.bufs[b].(refcnt := s.bufs[b].refcnt + 1))
    ensures Inv(t)
  {
    BufsKeep(s, h, Want(b, key), b, t);
    forall g | 0 <= g < |t.handles| ensures HandleOk(t, g) { assert HandleOk(s, g); }
    forall x, y | 0 <= x < y < |t.bufs| ensures !SameKey(t, x, y) { assert !SameKey(s, x, y); }
    KeysKeep(s, t);
  }

  /** Nothing but reference counts changed in the buffers, and handle h moved to x. */
  lemma BufsKeep(s: State, h: nat, x: Handle, b: nat, t: State)
    requires Inv(s) && h < |s.handles| && b < |s.bufs| && t.handles == s.handles[h := x] && t.disk == s.disk
    requires t.flat == s.flat
    requires |t.bufs| == |s.bufs| && (forall y :: y in s.lru ==> y in t.lru)
    requires !s.handles[h].Hold? && !x.Hold? && (!s.handles[h].Idle? ==> s.handles[h].b == b) && (!x.Idle? ==> x.b == b)
    requires forall a :: 0 <= a < |s.bufs| ==>
      t.bufs[a] == if a == b then s.bufs[b].(refcnt := t.bufs[b].refcnt) else s.bufs[a]
    requires t.bufs[b].refcnt + (if s.handles[h].Idle? then 0 else 1) == s.bufs[b].refcnt + (if x.Idle? then 0 else 1)
    ensures forall a :: 0 <= a < |t.bufs| ==> BufOk(t, a)
  {
    forall a | 0 <= a < |t.bufs| ensures BufOk(t, a) {
      assert BufOk(s, a);
      UsersPut(s.handles, h, x, a);
    }
  }

  /** The store and the buffers that cache it did not change. */
  lemma KeysKeep(s: State, t: State)
    requires forall key <- s.disk :: KeyOk(s, key)
    requires t.disk == s.disk && t.flat == s.flat && |t.bufs| == |s.bufs|
    requires forall a :: 0 <= a < |s.bufs| && s.bufs[a].valid ==> t.bufs[a].valid && t.bufs[a].key == s.bufs[a].key
    ensures forall key <- t.disk :: KeyOk(t, key)
  {
    forall key <- t.disk ensures KeyOk(t, key) {
      assert KeyOk(s, key);
      if b :| 0 <= b < |s.bufs| && s.bufs[b].valid && s.bufs[b].key == key { assert t.bufs[b].valid; }
    }
  }

  lemma GetEvictKeeps(s: State, h: nat, b: nat, key: Key, t: State)
    requires Inv(s) && h < |s.handles| && s.handles[h].Idle? && b < |s.bufs| && s.bufs[b].refcnt == 0 && NoneHas(s, key)
    requires key.dev != 0 && key in s.disk
    requires t == Put(s, h, Want(b, key), b, s.bufs[b].(key := key, refcnt := 1, valid := false))
    ensures Inv(t)
  {
    Unreferenced(s, b);
    forall a | 0 <= a < |t.bufs| ensures BufOk(t, a) {
      assert BufOk(s, a);
      UsersPut(s.handles, h, Want(b, key), a);
    }
    forall g | 0 <= g < |t.handles| ensures HandleOk(t, g) { assert HandleOk(s, g) && !Uses(s.handles[g], b); }
    forall x, y | 0 <= x < y < |t.bufs| ensures !SameKey(t, x, y) { assert !SameKey(s, x, y); }
    forall k <- t.disk ensures KeyOk(t, k) {
      assert KeyOk(s, k);
      if c :| 0 <= c < |s.bufs| && s.bufs[c].valid && s.bufs[c].key == k { assert c != b ==> t.bufs[c].valid; }
    }
  }

  lemma GetKeeps(s: State, h: nat, key: Key, t: State)
    requires Inv(s) && Enabled(s, Get(h, key)) && t == Apply(s, Get(h, key))
    ensures Inv(t)
  {
    ChosenIs(s, key);
    var b := Chosen(s, key).value;
    if s.bufs[b].key == key { GetHitKeeps(s, h, b, key, t); } else { GetEvictKeeps(s, h, b, key, t); }
  }

  lemma UnrefKeeps(s: State, h: nat, t: State)
    requires Inv(s) && Enabled(s, Unref(h)) && t == Apply(s, Unref(h))
    ensures Inv(t)
  {
    var b := s.handles[h].b;
    BufsKeep(s, h, Idle, b, t);
    forall g | 0 <= g < |t.handles| ensures HandleOk(t, g) { assert HandleOk(s, g); }
    forall x, y | 0 <= x < y < |t.bufs| ensures !SameKey(t, x, y) { assert !SameKey(s, x, y); }
    KeysKeep(s, t);
    forall k | 0 <= k < |t.lru| ensures t.lru[k] < |t.bufs| { assert t.lru[k] in t.lru; }
  }

  // ---- under the buffer's sleep lock -------------------------------------------------------

  /** Handle h works on its buffer b: x and f are what they become. */
  predicate Works(s: State, h: nat, x: Handle, b: nat, f: Buf, t: State) {
    h < |s.handles| && (s.handles[h].Want? || s.handles[h].Hold?) && s.handles[h].b == b < |s.bufs| && Uses(x, b)
    && t.handles == s.handles[h := x] && t.bufs == s.bufs[b := f] && f.key == s.bufs[b].key && t.lru == s.lru
  }

  lemma WorkHandles(s: State, h: nat, x: Handle, b: nat, f: Buf, t: State)
    requires Inv(s) && Works(s, h, x, b, f, t) && t.disk.Keys == s.disk.Keys
    requires f.holder == s.bufs[b].holder || (s.bufs[b].holder.None? && f.holder == Some(h))
      || (s.bufs[b].holder == Some(h) && f.holder.None?)
    requires (s.bufs[b].valid ==> f.valid) && (x.Want? || x.Hold? ==> x.key == f.key)
    requires x.Hold? ==> f.holder == Some(h) && (x.changed ==> f.valid)
    ensures forall g :: 0 <= g < |t.handles| ==> HandleOk(t, g)
    ensures forall a, c :: 0 <= a < c < |t.bufs| ==> !SameKey(t, a, c)
  {
    forall g | 0 <= g < |t.handles| ensures HandleOk(t, g) { assert HandleOk(s, g) && HandleOk(s, h); }
    forall a, c | 0 <= a < c < |t.bufs| ensures !SameKey(t, a, c) { assert !SameKey(s, a, c); }
  }

  lemma WorkUsers(s: State, h: nat, x: Handle, b: nat, f: Buf, t: State, a: nat)
    requires Works(s, h, x, b, f, t)
    ensures Users(t.handles, a) == Users(s.handles, a)
  {
    UsersPut(s.handles, h, x, a);
  }

  lemma LockKeeps(s: State, h: nat, t: State)
    requires Inv(s) && Enabled(s, Lock(h)) && t == Apply(s, Lock(h))
    ensures Inv(t)
  {
    var b := s.handles[h].b;
    var x := Hold(b, s.handles[h].key, false);
    assert HandleOk(s, h);
    WorkHandles(s, h, x, b, s.bufs[b].(holder := Some(h)), t);
    forall a | 0 <= a < |t.bufs| ensures BufOk(t, a) {
      assert BufOk(s, a);
      WorkUsers(s, h, x, b, s.bufs[b].(holder := Some(h)), t, a);
    }
    KeysKeep(s, t);
  }

  lemma ReadKeeps(s: State, h: nat, t: State)
    requires Inv(s) && Enabled(s, Read(h)) && t == Apply(s, Read(h))
    ensures Inv(t)
  {
    var b := s.handles[h].b;
    var f := s.bufs[b].(data := s.disk[s.handles[h].key], valid := true);
    assert HandleOk(s, h);
    WorkHandles(s, h, s.handles[h], b, f, t);
    OnlyHere(s, b);
    forall a | 0 <= a < |t.bufs| ensures BufOk(t, a) {
      assert BufOk(s, a) && KeyOk(s, f.key);
      WorkUsers(s, h, s.handles[h], b, f, t, a);
    }
    KeysKeep(s, t);
  }

  /** A block whose buffer is not valid is valid nowhere else. */
  lemma OnlyHere(s: State, b: nat)
    requires Inv(s) && b < |s.bufs| && s.bufs[b].key.dev != 0
    ensures forall c :: 0 <= c < |s.bufs| && s.bufs[c].key == s.bufs[b].key ==> c == b
  {
    forall c | 0 <= c < |s.bufs| && s.bufs[c].key == s.bufs[b].key ensures c == b {
      assert c < b ==> !SameKey(s, c, b);
      assert b < c ==> !SameKey(s, b, c);
    }
  }

  lemma ChangeKeeps(s: State, h: nat, d: Data, t: State)
    requires Inv(s) && Enabled(s, Change(h, d)) && t == Apply(s, Change(h, d))
    ensures Inv(t)
  {
    var b := s.handles[h].b;
    var x, f := s.handles[h].(changed := true), s.bufs[b].(data := d);
    assert HandleOk(s, h);
    WorkHandles(s, h, x, b, f, t);
    OnlyHere(s, b);
    forall a | 0 <= a < |t.bufs| ensures BufOk(t, a) {
      assert BufOk(s, a);
      WorkUsers(s, h, x, b, f, t, a);
    }
    forall k <- t.disk ensures KeyOk(t, k) {
      assert KeyOk(s, k) && t.bufs[b].valid;
      if c :| 0 <= c < |s.bufs| && s.bufs[c].valid && s.bufs[c].key == k { assert t.bufs[c].valid; }
    }
  }

  lemma WriteKeeps(s: State, h: nat, t: State)
    requires Inv(s) && Enabled(s, Write(h)) && t == Apply(s, Write(h))
    ensures Inv(t)
  {
    var b := s.handles[h].b;
    var x := s.handles[h].(changed := false);
    assert HandleOk(s, h);
    WorkHandles(s, h, x, b, s.bufs[b], t);
    OnlyHere(s, b);
    forall a | 0 <= a < |t.bufs| ensures BufOk(t, a) {
      assert BufOk(s, a);
      WorkUsers(s, h, x, b, s.bufs[b], t, a);
    }
    forall k <- t.disk ensures KeyOk(t, k) {
      assert KeyOk(s, k) && t.bufs[b].valid;
      if c :| 0 <= c < |s.bufs| && s.bufs[c].valid && s.bufs[c].key == k { assert t.bufs[c].valid; }
    }
  }

  lemma PinKeeps(s: State, h: nat, t: State)
    requires Inv(s) && Enabled(s, Pin(h)) && t == Apply(s, Pin(h))
    ensures Inv(t)
  {
    var b := s.handles[h].b;
    var f := s.bufs[b].(pins := s.bufs[b].pins + 1, refcnt := s.bufs[b].refcnt + 1);
    assert HandleOk(s, h);
    WorkHandles(s, h, s.handles[h], b, f, t);
    forall a | 0 <= a < |t.bufs| ensures BufOk(t, a) {
      assert BufOk(s, a);
      WorkUsers(s, h, s.handles[h], b, f, t, a);
    }
    KeysKeep(s, t);
  }

  lemma UnpinKeeps(s: State, h: nat, t: State)
    requires Inv(s) && Enabled(s, Unpin(h)) && t == Apply(s, Unpin(h))
    ensures Inv(t)
  {
    var b := s.handles[h].b;
    var f := s.bufs[b].(pins := s.bufs[b].pins - 1, refcnt := s.bufs[b].refcnt - 1);
    assert HandleOk(s, h);
    WorkHandles(s, h, s.handles[h], b, f, t);
    forall a | 0 <= a < |t.bufs| ensures BufOk(t, a) {
      assert BufOk(s, a);
      WorkUsers(s, h, s.handles[h], b, f, t, a);
    }
    KeysKeep(s, t);
  }

  lemma ReleaseKeeps(s: State, h: nat, t: State)
    requires Inv(s) && Enabled(s, Release(h)) && t == Apply(s, Release(h))
    ensures Inv(t)
  {
    var b := s.handles[h].b;
    assert HandleOk(s, h);
    WorkHandles(s, h, Drop(b), b, s.bufs[b].(holder := None), t);
    forall a | 0 <= a < |t.bufs| ensures BufOk(t, a) {
      assert BufOk(s, a);
      WorkUsers(s, h, Drop(b), b, s.bufs[b].(holder := None), t, a);
    }
    KeysKeep(s, t);
  }

  lemma StepKeeps(s: State, e: Event, t: State)
    requires Inv(s) && Enabled(s, e) && t == Apply(s, e)
    ensures Inv(t)
  {
    match e
    case Get(h, key) => GetKeeps(s, h, key, t);
    case Lock(h) => LockKeeps(s, h, t);
    case Read(h) => ReadKeeps(s, h, t);
    case Change(h, d) => ChangeKeeps(s, h, d, t);
    case Write(h) => WriteKeeps(s, h, t);
    case Pin(h) => PinKeeps(s, h, t);
    case Unpin(h) => UnpinKeeps(s, h, t);
    case Release(h) => ReleaseKeeps(s, h, t);
    case Unref(h) => UnrefKeeps(s, h, t);
  }

  // ---- runs --------------------------------------------------------------------------------

  /** binit's list: every buffer pushed on the front in turn. */
  function Downto(n: nat): (q: seq<nat>)
    ensures |q| == n && (forall k :: 0 <= k < n ==> q[k] < n) && forall b :: 0 <= b < n ==> b in q
  {
    if n == 0 then [] else [n - 1] + Downto(n - 1)
  }

  function Boot(n: nat, m: nat, disk: map<Key, Data>): State {
    State(seq(n, _ => Buf(Key(0, 0), 0, false, 0, None, 0)), Downto(n), disk, disk, seq(m, _ => Idle))
  }

  lemma {:induction false} NoUsers(hs: seq<Handle>, b: nat)
    requires forall h :: 0 <= h < |hs| ==> hs[h].Idle?
    ensures Users(hs, b) == 0
  {
    if hs != [] { NoUsers(hs[1..], b); }
  }

  lemma BootInv(n: nat, m: nat, disk: map<Key, Data>)
    ensures Inv(Boot(n, m, disk))
  {
    var s := Boot(n, m, disk);
    forall b | 0 <= b < n ensures BufOk(s, b) { NoUsers(s.handles, b); }
    forall h | 0 <= h < m ensures HandleOk(s, h) {}
    forall a, b | 0 <= a < b < n ensures !SameKey(s, a, b) {}
    forall key <- s.disk ensures KeyOk(s, key) {}
  }

  ghost predicate StepOk(s: State, e: Event, t: State) {
    Enabled(s, e) && t == Apply(s, e)
  }

  ghost predicate Run(n: nat, m: nat, disk: map<Key, Data>, ss: seq<State>, es: seq<Event>) {
    |ss| == |es| + 1 && ss[0] == Boot(n, m, disk) && forall k :: 0 <= k < |es| ==> StepOk(ss[k], es[k], ss[k + 1])
  }

  lemma {:induction false} RunKeeps(n: nat, m: nat, disk: map<Key, Data>, ss: seq<State>, es: seq<Event>, k: nat)
    requires Run(n, m, disk, ss, es) && k < |ss|
    ensures Inv(ss[k])
  {
    if k == 0 {
      BootInv(n, m, disk);
    } else {
      RunKeeps(n, m, disk, ss, es, k - 1);
      assert StepOk(ss[k - 1], es[k - 1], ss[k]);
      StepKeeps(ss[k - 1], es[k - 1], ss[k]);
    }
  }

  /** The last value any user wrote into block key in the first k steps, or else what the disk held. */
  function LastWritten(disk: map<Key, Data>, ss: seq<State>, es: seq<Event>, key: Key, k: nat): Data
    requires key in disk && k <= |es| < |ss|
  {
    if k == 0 then disk[key]
    else if Changes(ss[k - 1], es[k - 1], key) then es[k - 1].data
    else LastWritten(disk, ss, es, key, k - 1)
  }

  lemma {:induction false} FlatIsLast(n: nat, m: nat, disk: map<Key, Data>, ss: seq<State>, es: seq<Event>, key: Key,
                                      k: nat)
    requires Run(n, m, disk, ss, es) && key in disk && k < |ss|
    ensures key in ss[k].disk && key in ss[k].flat && ss[k].flat[key] == LastWritten(disk, ss, es, key, k)
  {
    if k > 0 {
      FlatIsLast(n, m, disk, ss, es, key, k - 1);
      FlatAt(n, m, disk, ss, es, key, k - 1);
    }
  }

  predicate Changes(s: State, e: Event, key: Key) {
    e.Change? && Holds(s, e.h) && s.handles[e.h].key == key
  }

  lemma FlatAt(n: nat, m: nat, disk: map<Key, Data>, ss: seq<State>, es: seq<Event>, key: Key, k: nat)
    requires Run(n, m, disk, ss, es) && k < |es| && key in ss[k].disk && key in ss[k].flat
    ensures key in ss[k + 1].disk && key in ss[k + 1].flat
    ensures ss[k + 1].flat[key] == if Changes(ss[k], es[k], key) then es[k].data else ss[k].flat[key]
  {
    assert StepOk(ss[k], es[k], ss[k + 1]);
    FlatStep(ss[k], es[k], ss[k + 1], key);
  }

  lemma FlatStep(s: State, e: Event, t: State, key: Key)
    requires StepOk(s, e, t) && key in s.disk && key in s.flat
    ensures key in t.disk && key in t.flat
    ensures t.flat[key] == if Changes(s, e, key) then e.data else s.flat[key]
  {
  }

  /** Whenever bread has returned a buffer, it is for the block that was asked for and holds the value
      last written into that block, whatever was cached, recycled, pinned or written back meanwhile. */
  lemma BreadReturnsLatest(n: nat, m: nat, disk: map<Key, Data>, ss: seq<State>, es: seq<Event>, k: nat, h: nat)
    requires Run(n, m, disk, ss, es) && k < |ss| && Holds(ss[k], h) && ss[k].bufs[ss[k].handles[h].b].valid
    ensures ss[k].handles[h].key in disk
    ensures var f := ss[k].bufs[ss[k].handles[h].b];
      f.key == ss[k].handles[h].key && f.holder == Some(h) && f.data == LastWritten(disk, ss, es, f.key, k)
  {
    RunKeeps(n, m, disk, ss, es, k);
    assert HandleOk(ss[k], h) && BufOk(ss[k], ss[k].handles[h].b);
    DiskKeys(n, m, disk, ss, es, k);
    FlatIsLast(n, m, disk, ss, es, ss[k].handles[h].key, k);
  }

  lemma {:induction false} DiskKeys(n: nat, m: nat, disk: map<Key, Data>, ss: seq<State>, es: seq<Event>, k: nat)
    requires Run(n, m, disk, ss, es) && k < |ss|
    ensures ss[k].disk.Keys == disk.Keys
  {
    if k > 0 {
      DiskKeys(n, m, disk, ss, es, k - 1);
      assert StepOk(ss[k - 1], es[k - 1], ss[k]);
    }
  }

  /** No two buffers hold the same block of a nonzero device. */
  lemma OneBufferPerBlock(n: nat, m: nat, disk: map<Key, Data>, ss: seq<State>, es: seq<Event>, k: nat, a: nat, b: nat)
    requires Run(n, m, disk, ss, es) && k < |ss| && a < b < |ss[k].bufs|
    ensures ss[k].bufs[a].key == ss[k].bufs[b].key ==> ss[k].bufs[a].key.dev == 0
  {
    RunKeeps(n, m, disk, ss, es, k);
    assert !SameKey(ss[k], a, b);
  }

  /** No two users hold buffers for the same block at once. */
  lemma OneHolderPerBlock(n: nat, m: nat, disk: map<Key, Data>, ss: seq<State>, es: seq<Event>, k: nat, g: nat, h: nat)
    requires Run(n, m, disk, ss, es) && k < |ss| && g < |ss[k].handles| && h < |ss[k].handles|
    requires ss[k].handles[g].Hold? && ss[k].handles[h].Hold? && ss[k].handles[g].key == ss[k].handles[h].key
    ensures g == h
  {
    RunKeeps(n, m, disk, ss, es, k);
    assert HandleOk(ss[k], g) && HandleOk(ss[k], h);
    OnlyHere(ss[k], ss[k].handles[g].b);
  }

  /** Recycling a buffer never loses a change: the block it held is on the disk as last written. */
  lemma RecyclingLosesNothing(n: nat, m: nat, disk: map<Key, Data>, ss: seq<State>, es: seq<Event>, k: nat, b: nat)
    requires Run(n, m, disk, ss, es) && k < |es| && es[k].Get? && Chosen(ss[k], es[k].key) == Some(b)
    requires b < |ss[k].bufs| && ss[k].bufs[b].valid && ss[k].bufs[b].key != es[k].key
    ensures ss[k].bufs[b].key in disk && ss[k].bufs[b].key in ss[k].disk
    ensures ss[k].disk[ss[k].bufs[b].key] == ss[k].bufs[b].data == LastWritten(disk, ss, es, ss[k].bufs[b].key, k)
  {
    var s := ss[k];
    RunKeeps(n, m, disk, ss, es, k);
    assert StepOk(ss[k], es[k], ss[k + 1]);
    ChosenIs(s, es[k].key);
    Unreferenced(s, b);
    assert BufOk(s, b);
    DiskKeys(n, m, disk, ss, es, k);
    FlatIsLast(n, m, disk, ss, es, s.bufs[b].key, k);
  }

  // ---- what is on the disk -----------------------------------------------------------------

  /** bwrite: the disk holds the buffer's contents, which are the last ones written into the block, and no
      other block of the disk changes. */
  lemma WriteReaches(s: State, h: nat, t: State)
    requires Inv(s) && Enabled(s, Write(h)) && t == Apply(s, Write(h))
    ensures var b, key := s.handles[h].b, s.handles[h].key;
      && b < |s.bufs| && key in s.flat && t.disk.Keys == s.disk.Keys && key in t.disk
      && t.disk[key] == s.bufs[b].data == s.flat[key]
      && forall k <- s.disk :: k != key ==> t.disk[k] == s.disk[k]
  {
    assert HandleOk(s, h) && BufOk(s, s.handles[h].b);
  }

  /** A block on the disk as last written stays so until the next change of it. */
  lemma SyncedStep(s: State, e: Event, t: State, key: Key)
    requires Inv(s) && StepOk(s, e, t) && key in s.disk && key in s.flat && s.disk[key] == s.flat[key]
    requires !Changes(s, e, key)
    ensures key in t.disk && key in t.flat && t.disk[key] == t.flat[key]
  {
    if e.Write? { WriteReaches(s, e.h, t); }
  }

  /** Over every run: once bwrite of a block has returned, the disk holds what was last written into it, as
      long as nobody changes it again. */
  lemma {:induction false} WrittenStays(n: nat, m: nat, disk: map<Key, Data>, ss: seq<State>, es: seq<Event>,
                                        k: nat, j: nat, key: Key)
    requires Run(n, m, disk, ss, es) && k < j < |ss| && es[k].Write? && Holds(ss[k], es[k].h)
    requires key == ss[k].handles[es[k].h].key
    requires forall x :: k < x < j ==> !Changes(ss[x], es[x], key)
    ensures key in disk && key in ss[j].disk && key in ss[j].flat && ss[j].disk[key] == ss[j].flat[key]
    ensures ss[j].disk[key] == LastWritten(disk, ss, es, key, j)
    decreases j
  {
    assert StepOk(ss[j - 1], es[j - 1], ss[j]);
    RunKeeps(n, m, disk, ss, es, j - 1);
    DiskKeys(n, m, disk, ss, es, k);
    if j == k + 1 {
      WriteReaches(ss[k], es[k].h, ss[j]);
    } else {
      WrittenStays(n, m, disk, ss, es, k, j - 1, key);
      SyncedStep(ss[j - 1], es[j - 1], ss[j], key);
    }
    FlatIsLast(n, m, disk, ss, es, key, j);
  }

  // ---- every use can come to its end -------------------------------------------------------

  /** How far the use of a buffer has to go. */
  function Left(s: State, h: nat): nat
    requires h < |s.handles|
  {
    match s.handles[h]
    case Idle => 0
    case Drop(_) => 1
    case Want(_, _) => 9
    case Hold(b, _, changed) =>
      2 + (if b < |s.bufs| && s.bufs[b].valid then 0 else 2) + if changed then 1 else 0
  }

  function LeftTo(s: State, n: nat): nat
    requires n <= |s.handles|
  {
    if n == 0 then 0 else LeftTo(s, n - 1) + Left(s, n - 1)
  }

  lemma {:induction false} LeftLess(s: State, t: State, h: nat, n: nat)
    requires h < n <= |s.handles| == |t.handles| && Left(t, h) < Left(s, h)
    requires forall g :: 0 <= g < |s.handles| && g != h ==> Left(t, g) <= Left(s, g)
    ensures LeftTo(t, n) < LeftTo(s, n)
    decreases n
  {
    if n - 1 == h { LeftLeq(s, t, h, h); } else { LeftLess(s, t, h, n - 1); }
  }

  lemma {:induction false} LeftLeq(s: State, t: State, h: nat, n: nat)
    requires n <= h < |s.handles| == |t.handles|
    requires forall g :: 0 <= g < |s.handles| && g != h ==> Left(t, g) <= Left(s, g)
    ensures LeftTo(t, n) <= LeftTo(s, n)
  {
    if n > 0 { LeftLeq(s, t, h, n - 1); }
  }

  /** The step that brings one use on: whoever holds a buffer reads it, writes it back if it was changed and
      lets go; with no one holding it, the next one locks it. */
  lemma NextOf(s: State, h: nat) returns (e: Event)
    requires Inv(s) && h < |s.handles| && !s.handles[h].Idle?
    ensures Enabled(s, e) && !e.Get?
    ensures e.h < |s.handles| && Left(Apply(s, e), e.h) < Left(s, e.h)
    ensures Apply(s, e).handles == s.handles[e.h := Apply(s, e).handles[e.h]]
    ensures forall b :: 0 <= b < |s.bufs| && s.bufs[b].valid ==> b < |Apply(s, e).bufs| && Apply(s, e).bufs[b].valid
  {
    assert HandleOk(s, h) && BufOk(s, s.handles[h].b);
    match s.handles[h]
    case Drop(b) =>
      UsersHas(s.handles, h, b);
      e := Unref(h);
    case Want(b, _) =>
      if s.bufs[b].holder.None? { e := Lock(h); } else { e := HolderNext(s, s.bufs[b].holder.value); }
    case Hold(_, _, _) =>
      e := HolderNext(s, h);
  }

  lemma HolderNext(s: State, h: nat) returns (e: Event)
    requires Inv(s) && h < |s.handles| && s.handles[h].Hold?
    ensures e.h == h && Enabled(s, e) && !e.Get? && Left(Apply(s, e), h) < Left(s, h)
    ensures Apply(s, e).handles == s.handles[h := Apply(s, e).handles[h]]
    ensures forall b :: 0 <= b < |s.bufs| && s.bufs[b].valid ==> b < |Apply(s, e).bufs| && Apply(s, e).bufs[b].valid
  {
    assert HandleOk(s, h) && BufOk(s, s.handles[h].b);
    e := if !s.bufs[s.handles[h].b].valid then Read(h) else if s.handles[h].changed then Write(h) else Release(h);
  }

  lemma OthersNoFarther(s: State, t: State, h: nat)
    requires h < |s.handles| && |t.handles| == |s.handles| && t.handles == s.handles[h := t.handles[h]]
    requires forall b :: 0 <= b < |s.bufs| && s.bufs[b].valid ==> b < |t.bufs| && t.bufs[b].valid
    ensures forall g :: 0 <= g < |s.handles| && g != h ==> Left(t, g) <= Left(s, g)
  {
  }

  /** From every reachable state all uses of buffers can come to their end, without any new one. */
  lemma {:induction false} EveryUseCanEnd(s: State) returns (ss: seq<State>, es: seq<Event>)
    requires Inv(s)
    ensures |ss| == |es| + 1 && ss[0] == s
    ensures forall k :: 0 <= k < |es| ==> StepOk(ss[k], es[k], ss[k + 1]) && !es[k].Get?
    ensures forall h :: 0 <= h < |ss[|es|].handles| ==> ss[|es|].handles[h].Idle?
    decreases LeftTo(s, |s.handles|)
  {
    if h :| 0 <= h < |s.handles| && !s.handles[h].Idle? {
      var e := NextOf(s, h);
      var t := Apply(s, e);
      StepKeeps(s, e, t);
      OthersNoFarther(s, t, e.h);
      LeftLess(s, t, e.h, |s.handles|);
      var ss', es' := EveryUseCanEnd(t);
      ss, es := [s] + ss', [e] + es';
      forall k | 0 <= k < |es| ensures StepOk(ss[k], es[k], ss[k + 1]) && !es[k].Get? {
        if k > 0 { assert StepOk(ss'[k - 1], es'[k - 1], ss'[k]) && !es'[k - 1].Get?; }
      }
    } else {
      ss, es := [s], [];
    }
  }

  /** bget finds a buffer unless all are in use and none is for the block. */
  lemma CanGet(s: State, h: nat, key: Key)
    requires Inv(s) && h < |s.handles| && s.handles[h].Idle? && key.dev != 0 && key in s.disk
    ensures Enabled(s, Get(h, key))
      <==> exists b :: 0 <= b < |s.bufs| && (s.bufs[b].key == key || s.bufs[b].refcnt == 0)
  {
    if b :| 0 <= b < |s.bufs| && (s.bufs[b].key == key || s.bufs[b].refcnt == 0) {
      assert BufOk(s, b);
      var k :| 0 <= k < |s.lru| && s.lru[k] == b;
    }
    if Chosen(s, key).Some? { ChosenIs(s, key); }
  }

  // ---- which buffer is recycled ------------------------------------------------------------

  /** The last user of buffer b lets go of it. */
  predicate LetsGo(s: State, e: Event, b: nat) {
    && e.Unref? && e.h < |s.handles| && s.handles[e.h].Drop? && s.handles[e.h].b == b
    && b < |s.bufs| && s.bufs[b].refcnt == 1
  }

  /** The step, of the first k, in which b was last let go of. Buffers that never were come before all
      steps, in the order of their numbers. */
  function LastUsed(n: nat, ss: seq<State>, es: seq<Event>, b: nat, k: nat): (r: int)
    requires k <= |es| < |ss|
    ensures b < n ==> r < k
  {
    if k == 0 then b - n else if LetsGo(ss[k - 1], es[k - 1], b) then k - 1 else LastUsed(n, ss, es, b, k - 1)
  }

  /** The list is in the order of last use, the latest first. */
  predicate ByUse(n: nat, ss: seq<State>, es: seq<Event>, q: seq<nat>, k: nat)
    requires k <= |es| < |ss|
  {
    forall x, y :: 0 <= x < y < |q| ==> LastUsed(n, ss, es, q[x], k) > LastUsed(n, ss, es, q[y], k)
  }

  lemma {:induction false} WithoutByUse(n: nat, ss: seq<State>, es: seq<Event>, q: seq<nat>, b: nat, k: nat)
    requires k <= |es| < |ss| && ByUse(n, ss, es, q, k)
    ensures ByUse(n, ss, es, Without(q, b), k)
    decreases |q|
  {
    if q != [] {
      var r := Without(q[1..], b);
      WithoutByUse(n, ss, es, q[1..], b, k);
      forall y | 0 <= y < |r| ensures LastUsed(n, ss, es, q[0], k) > LastUsed(n, ss, es, r[y], k) {
        assert r[y] in q[1..];
      }
    }
  }

  lemma {:induction false} DowntoByUse(n: nat, k: nat)
    requires k < n
    ensures Downto(n)[k] == n - 1 - k
    decreases k
  {
    if k > 0 { DowntoByUse(n - 1, k - 1); }
  }

  lemma MovedByUse(n: nat, ss: seq<State>, es: seq<Event>, q: seq<nat>, b: nat, k: nat)
    requires k < |es| < |ss| && ByUse(n, ss, es, q, k) && LetsGo(ss[k], es[k], b)
    requires forall x :: 0 <= x < |q| ==> q[x] < n
    ensures ByUse(n, ss, es, [b] + Without(q, b), k + 1)
  {
    var r := Without(q, b);
    WithoutByUse(n, ss, es, q, b, k);
    forall y | 0 <= y < |r| ensures LastUsed(n, ss, es, r[y], k + 1) == LastUsed(n, ss, es, r[y], k) < k {
      assert r[y] in q;
    }
  }

  /** In every state of every run the list is in the order of last use. */
  lemma {:induction false} ListByUse(n: nat, m: nat, disk: map<Key, Data>, ss: seq<State>, es: seq<Event>, k: nat)
    requires Run(n, m, disk, ss, es) && k < |ss|
    ensures ByUse(n, ss, es, ss[k].lru, k) && |ss[k].bufs| == n
  {
    if k == 0 {
      forall x | 0 <= x < n ensures Downto(n)[x] == n - 1 - x { DowntoByUse(n, x); }
    } else {
      ListByUse(n, m, disk, ss, es, k - 1);
      RunKeeps(n, m, disk, ss, es, k - 1);
      assert StepOk(ss[k - 1], es[k - 1], ss[k]);
      ByUseStep(n, ss, es, k - 1);
    }
  }

  lemma ByUseStep(n: nat, ss: seq<State>, es: seq<Event>, k: nat)
    requires k < |es| < |ss| && Inv(ss[k]) && |ss[k].bufs| == n && StepOk(ss[k], es[k], ss[k + 1])
    requires ByUse(n, ss, es, ss[k].lru, k)
    ensures ByUse(n, ss, es, ss[k + 1].lru, k + 1) && |ss[k + 1].bufs| == n
  {
    var s, e := ss[k], es[k];
    if e.Unref? && LetsGo(s, e, s.handles[e.h].b) {
      MovedByUse(n, ss, es, s.lru, s.handles[e.h].b, k);
    } else {
      SameByUse(n, ss, es, s.lru, k);
    }
  }

  lemma SameByUse(n: nat, ss: seq<State>, es: seq<Event>, q: seq<nat>, k: nat)
    requires k < |es| < |ss| && ByUse(n, ss, es, q, k) && forall b: nat :: !LetsGo(ss[k], es[k], b)
    ensures ByUse(n, ss, es, q, k + 1)
  {
    forall x, y | 0 <= x < y < |q| ensures LastUsed(n, ss, es, q[x], k + 1) > LastUsed(n, ss, es, q[y], k + 1) {
      assert !LetsGo(ss[k], es[k], q[x]) && !LetsGo(ss[k], es[k], q[y]);
    }
  }

  lemma {:induction false} VictimAt(bufs: seq<Buf>, q: seq<nat>, k: nat) returns (p: nat)
    requires k <= |q| && Victim(bufs, q, k).Some?
    ensures p < k && Victim(bufs, q, k) == Some(q[p])
    ensures forall a :: p < a < k && q[a] < |bufs| ==> bufs[q[a]].refcnt != 0
    decreases k
  {
    p := k - 1;
    if q[p] >= |bufs| || bufs[q[p]].refcnt != 0 { p := VictimAt(bufs, q, k - 1); }
  }

  /** The buffer that bget recycles is, of those not in use, the one that was let go of longest ago. */
  lemma RecyclesOldest(n: nat, m: nat, disk: map<Key, Data>, ss: seq<State>, es: seq<Event>, k: nat, b: nat, a: nat)
    requires Run(n, m, disk, ss, es) && k < |es| && es[k].Get? && Chosen(ss[k], es[k].key) == Some(b)
    requires b < |ss[k].bufs| && ss[k].bufs[b].key != es[k].key
    requires a < |ss[k].bufs| && ss[k].bufs[a].refcnt == 0 && a != b
    ensures LastUsed(n, ss, es, b, k) < LastUsed(n, ss, es, a, k)
  {
    var s := ss[k];
    RunKeeps(n, m, disk, ss, es, k);
    ListByUse(n, m, disk, ss, es, k);
    assert BufOk(s, a);
    var p := VictimAt(s.bufs, s.lru, |s.lru|);
    var x :| 0 <= x < |s.lru| && s.lru[x] == a;
  }

  // ---- the cache as coded ------------------------------------------------------------------

  lemma {:induction false} VictimShift(bufs: seq<Buf>, b: nat, q: seq<nat>, k: nat)
    requires k <= |q|
    ensures Victim(bufs, [b] + q, k + 1)
      == if Victim(bufs, q, k).Some? then Victim(bufs, q, k)
         else if b < |bufs| && bufs[b].refcnt == 0 then Some(b) else None
    decreases k
  {
    if k > 0 { VictimShift(bufs, b, q, k - 1); }
  }

  /** A buffer in use is no candidate, wherever it stands. */
  lemma {:induction false} VictimWithout(bufs: seq<Buf>, bufs': seq<Buf>, b: nat, q: seq<nat>)
    requires b < |bufs| == |bufs'| && bufs' == bufs[b := bufs'[b]] && bufs[b].refcnt > 0
    ensures Victim(bufs', Without(q, b), |Without(q, b)|) == Victim(bufs, q, |q|)
    decreases |q|
  {
    if q != [] {
      var t, r := q[1..], Without(q[1..], b);
      VictimWithout(bufs, bufs', b, t);
      assert q == [q[0]] + t;
      VictimShift(bufs, q[0], t, |t|);
      VictimShift(bufs', q[0], r, |r|);
    }
  }

  lemma {:induction false} VictimSame(bufs: seq<Buf>, bufs': seq<Buf>, b: nat, q: seq<nat>, k: nat)
    requires b < |bufs| == |bufs'| && bufs' == bufs[b := bufs'[b]] && bufs[b].refcnt > 0 && bufs'[b].refcnt > 0
    requires k <= |q|
    ensures Victim(bufs', q, k) == Victim(bufs, q, k)
    decreases k
  {
    if k > 0 { VictimSame(bufs, bufs', b, q, k - 1); }
  }

  lemma {:induction false} WithoutOnce(q: seq<nat>, b: nat)
    requires NoDup(q)
    ensures NoDup(Without(q, b))
    decreases |q|
  {
    if q != [] {
      WithoutOnce(q[1..], b);
      assert q[0] !in Without(q[1..], b);
    }
  }

  /** Every buffer is on the list once. */
  predicate Listed(q: seq<nat>, n: nat) {
    NoDup(q) && (forall k :: 0 <= k < |q| ==> q[k] < n) && forall b :: 0 <= b < n ==> b in q
  }

  lemma ListedFront(q: seq<nat>, n: nat, b: nat)
    requires Listed(q, n) && b < n
    ensures Listed([b] + Without(q, b), n)
  {
    var r := Without(q, b);
    WithoutOnce(q, b);
    forall k | 0 <= k < |r| ensures r[k] < n && r[k] != b { assert r[k] in r; }
  }

  /** A buffer that nobody uses any more, put in front, is recycled only when no other can be. */
  lemma FrontLast(bufs: seq<Buf>, bufs': seq<Buf>, b: nat, q: seq<nat>)
    requires b < |bufs| == |bufs'| && bufs' == bufs[b := bufs'[b]] && bufs[b].refcnt > 0 && bufs'[b].refcnt == 0
    ensures var q', v := [b] + Without(q, b), Victim(bufs, q, |q|);
      Victim(bufs', q', |q'|) == if v.Some? then v else Some(b)
  {
    var r := Without(q, b);
    VictimWithout(bufs, bufs', b, q);
    VictimShift(bufs', b, r, |r|);
    assert |[b] + r| == |r| + 1;
  }

  class Cache {
    var bufs: seq<Buf>
    var lru: seq<nat>

    ghost predicate Valid()
      reads this
    {
      Listed(lru, |bufs|)
    }

    /** What the next recycling takes. */
    ghost function Candidate(): Option<nat>
      reads this
    {
      Victim(bufs, lru, |lru|)
    }

    constructor (n: nat)
      ensures Valid() && bufs == seq(n, _ => Buf(Key(0, 0), 0, false, 0, None, 0)) && lru == Downto(n)
    {
      bufs := seq(n, _ => Buf(Key(0, 0), 0, false, 0, None, 0));
      lru := [];
      new;
      for b := 0 to n
        invariant lru == Downto(b) && |bufs| == n && bufs == seq(n, _ => Buf(Key(0, 0), 0, false, 0, None, 0))
      {
        lru := [b] + lru;
      }
      DowntoOnce(n);
    }

    /** bget up to acquiresleep: a scan for the block from the front, then one for an unreferenced
        buffer from the back. -1 where the kernel panics. */
    method Bget(key: Key) returns (r: int)
      requires Valid()
      modifies this
      ensures Valid() && lru == old(lru)
      ensures r == -1 <==> (forall k :: 0 <= k < |lru| ==> old(bufs)[lru[k]].key != key && old(bufs)[lru[k]].refcnt > 0)
      ensures r == -1 ==> bufs == old(bufs)
      ensures r != -1 ==> 0 <= r < |old(bufs)| && Select(old(bufs), lru, key) == Some(r)
      ensures r != -1 ==> 0 <= r < |old(bufs)| && bufs == old(bufs)[r := Taken(old(bufs)[r], key)]
    {
      var k := 0;
      while k < |lru|
        invariant 0 <= k <= |lru| && Find(bufs, lru, key, k) == Find(bufs, lru, key, 0)
        invariant forall a :: 0 <= a < k ==> bufs[lru[a]].key != key
      {
        var b := lru[k];
        if bufs[b].key == key {
          bufs := bufs[b := bufs[b].(refcnt := bufs[b].refcnt + 1)];
          return b;
        }
        k := k + 1;
      }
      while k > 0
        invariant 0 <= k <= |lru| && Victim(bufs, lru, k) == Victim(bufs, lru, |lru|)
        invariant forall a :: k <= a < |lru| ==> bufs[lru[a]].refcnt > 0
      {
        k := k - 1;
        var b := lru[k];
        if bufs[b].refcnt == 0 {
          bufs := bufs[b := bufs[b].(valid := false, refcnt := 1, key := key)];
          return b;
        }
      }
      return -1;
    }

    /** brelse after releasesleep: the last user moves the buffer to the front of the list. There it is
        recycled only when no other can be: the candidate stays the same if there was one. */
    method Unreference(b: nat)
      requires Valid() && b < |bufs| && bufs[b].refcnt > 0
      modifies this
      ensures Valid() && bufs == old(bufs)[b := old(bufs)[b].(refcnt := old(bufs)[b].refcnt - 1)]
      ensures lru == if old(bufs)[b].refcnt == 1 then [b] + Without(old(lru), b) else old(lru)
      ensures Candidate()
        == if old(Candidate()).Some? then old(Candidate()) else if bufs[b].refcnt == 0 then Some(b) else None
    {
      bufs := bufs[b := bufs[b].(refcnt := bufs[b].refcnt - 1)];
      if bufs[b].refcnt == 0 {
        ListedFront(lru, |bufs|, b);
        FrontLast(old(bufs), bufs, b, lru);
        lru := [b] + Without(lru, b);
      } else {
        VictimSame(old(bufs), bufs, b, lru, |lru|);
      }
    }
  }

  lemma {:induction false} DowntoOnce(n: nat)
    ensures NoDup(Downto(n))
  {
    if n > 0 { DowntoOnce(n - 1); }
  }
}
